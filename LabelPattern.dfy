/**
 * The label pattern `(?:(\w+?)="(.*?)"[,\s]?)+?` and Go's `FindAllStringSubmatch`
 * over it, written out as a scanner. With leftmost-first matching, the lazy outer
 * repetition stops after one `key="value"` pair, so every match is one pair:
 * the key is the run of word characters right before `="`, the value runs up to
 * the next `"`, and one `,` or white-space character after it is consumed.
 */
module LabelPattern {
  import opened Wrappers

  /** Submatches 1 and 2 of one match. */
  datatype Pair = Pair(key: string, value: string)

  /** `\w` in RE2: ASCII letters, digits and `_`. */
  predicate IsWordChar(c: char) {
    'a' <= c <= 'z' || 'A' <= c <= 'Z' || '0' <= c <= '9' || c == '_'
  }

  /** The class `[,\s]`, where `\s` in RE2 is `[\t\n\f\r ]`. */
  predicate IsSeparator(c: char) {
    c == ',' || c == '\t' || c == '\n' || c == '\U{C}' || c == '\r' || c == ' '
  }

  predicate IsWord(s: string) {
    forall i | 0 <= i < |s| :: IsWordChar(s[i])
  }

  /** `s` can stand between the quotes of a value: `.` in RE2 is anything but a newline. */
  predicate IsValueText(s: string) {
    forall i | 0 <= i < |s| :: s[i] != '"' && s[i] != '\n'
  }

  /** Length of the run of word characters that `s` starts with. */
  function WordLen(s: string): (n: nat)
    ensures n <= |s|
  {
    if s == [] || !IsWordChar(s[0]) then 0 else 1 + WordLen(s[1..])
  }

  /** The run `WordLen` measures is a word, and it is maximal. */
  lemma {:induction false} WordLenShape(s: string)
    ensures IsWord(s[..WordLen(s)])
    ensures WordLen(s) < |s| ==> !IsWordChar(s[WordLen(s)])
    decreases |s|
  {
    if s != [] && IsWordChar(s[0]) {
      WordLenShape(s[1..]);
      assert s[..WordLen(s)] == [s[0]] + s[1..][..WordLen(s[1..])];
    }
  }

  /** Length of the run `.*?` can cover before the closing quote. */
  function ValueLen(s: string): (n: nat)
    ensures n <= |s|
  {
    if s == [] || s[0] == '"' || s[0] == '\n' then 0 else 1 + ValueLen(s[1..])
  }

  /** The run `ValueLen` measures holds no quote or newline, and it stops at one. */
  lemma {:induction false} ValueLenShape(s: string)
    ensures IsValueText(s[..ValueLen(s)])
    ensures ValueLen(s) < |s| ==> s[ValueLen(s)] == '"' || s[ValueLen(s)] == '\n'
    decreases |s|
  {
    if s != [] && s[0] != '"' && s[0] != '\n' {
      ValueLenShape(s[1..]);
      assert s[..ValueLen(s)] == [s[0]] + s[1..][..ValueLen(s[1..])];
    }
  }

  /** A pair the pattern can read back: a non-empty word key and a value without quotes or newlines. */
  predicate Readable(p: Pair) {
    p.key != [] && IsWord(p.key) && IsValueText(p.value)
  }

  /** The text of one pair as the pattern matches it, without the separator. */
  function PairText(p: Pair): string {
    p.key + "=\"" + p.value + "\""
  }

  /**
   * The match of the pattern that starts at the first rune of `s`, with the
   * number of runes it covers, or None when no match starts there.
   */
  function MatchAt(s: string): Option<(Pair, nat)> {
    var k := WordLen(s);
    if 0 < k && k + 1 < |s| && s[k] == '=' && s[k + 1] == '"' then
      var rest := s[k + 2..];
      var m := ValueLen(rest);
      if m < |rest| && rest[m] == '"' then
        var used := k + m + 3;
        Some((Pair(s[..k], rest[..m]), if used < |s| && IsSeparator(s[used]) then used + 1 else used))
      else None
    else None
  }

  /**
   * A match is a readable pair's `key="value"` text at the start of `s`,
   * followed by at most one separator, which it covers too.
   */
  lemma MatchAtShape(s: string)
    ensures var r := MatchAt(s);
      r.Some? ==>
        var (p, n) := r.value;
        Readable(p) && |PairText(p)| <= n <= |s| && s[..|PairText(p)|] == PairText(p)
        && (n == |PairText(p)| + 1 ==> IsSeparator(s[n - 1]))
        && (n != |PairText(p)| ==> n == |PairText(p)| + 1)
  {
    var k := WordLen(s);
    WordLenShape(s);
    if 0 < k && k + 1 < |s| && s[k] == '=' && s[k + 1] == '"' {
      var rest := s[k + 2..];
      var m := ValueLen(rest);
      ValueLenShape(rest);
      if m < |rest| && rest[m] == '"' {
        SplitPairText(s, k, m);
      }
    }
  }

  /** The text `key="value"` at the start of `s`, read off at the key's length `k` and the value's length `m`. */
  lemma SplitPairText(s: string, k: nat, m: nat)
    requires k + m + 3 <= |s| && s[k] == '=' && s[k + 1] == '"' && s[k + m + 2] == '"'
    ensures s[..k + m + 3] == PairText(Pair(s[..k], s[k + 2..][..m]))
  {
    var used, key, value := k + m + 3, s[..k], s[k + 2..][..m];
    var text := key + "=\"" + value + "\"";
    assert |text| == used;
    forall i | 0 <= i < used ensures s[..used][i] == text[i] {
      if k + 2 <= i < k + 2 + m {
        assert value[i - k - 2] == s[i];
      }
    }
  }

  /**
   * `FindAllStringSubmatch(s, -1)`: successive non-overlapping leftmost matches.
   * Where no match starts, the search moves on by one rune.
   */
  function FindAll(s: string): (ps: seq<Pair>)
    ensures forall i | 0 <= i < |ps| :: Readable(ps[i])
    decreases |s|
  {
    if s == [] then []
    else match MatchAt(s)
      case Some((p, n)) =>
        MatchAtShape(s);
        [p] + FindAll(s[n..])
      case None => FindAll(s[1..])
  }

  /** Every match needs a `=`: text without one has no match at all. */
  lemma {:induction false} FindAllWithoutEquals(s: string)
    requires '=' !in s
    ensures FindAll(s) == []
    decreases |s|
  {
    if s != [] {
      var k := WordLen(s);
      assert k < |s| ==> s[k] != '=';
      assert MatchAt(s).None?;
      assert '=' !in s[1..] by {
        forall i | 0 <= i < |s[1..]| ensures s[1..][i] != '=' { assert s[1..][i] == s[i + 1]; }
      }
      FindAllWithoutEquals(s[1..]);
    }
  }

  /** `key1="value1",key2="value2",...`: the label segment of the output format. */
  function Render(ps: seq<Pair>): string {
    if ps == [] then ""
    else if |ps| == 1 then PairText(ps[0])
    else PairText(ps[0]) + "," + Render(ps[1..])
  }

  lemma {:induction false} WordLenOfWord(w: string, t: string)
    requires IsWord(w)
    requires t != [] && !IsWordChar(t[0])
    ensures WordLen(w + t) == |w|
    decreases |w|
  {
    if w == [] {
      assert w + t == t;
    } else {
      assert (w + t)[0] == w[0] && IsWordChar(w[0]);
      assert (w + t)[1..] == w[1..] + t;
      assert IsWord(w[1..]) by {
        forall i | 0 <= i < |w[1..]| ensures IsWordChar(w[1..][i]) { assert w[1..][i] == w[i + 1]; }
      }
      WordLenOfWord(w[1..], t);
    }
  }

  lemma {:induction false} ValueLenOfValue(v: string, t: string)
    requires IsValueText(v)
    requires t != [] && t[0] == '"'
    ensures ValueLen(v + t) == |v|
    decreases |v|
  {
    if v != [] {
      assert (v + t)[1..] == v[1..] + t;
      ValueLenOfValue(v[1..], t);
    }
  }

  /** Where the key of a readable pair's text ends, and the `="` after it. */
  lemma {:induction false} PairTextKey(p: Pair, t: string)
    requires Readable(p)
    ensures var s, k := PairText(p) + t, |p.key|;
      WordLen(s) == k && s[..k] == p.key && k + 1 < |s| && s[k] == '=' && s[k + 1] == '"'
  {
    var s := PairText(p) + t;
    var tail := "=\"" + p.value + "\"" + t;
    assert s == p.key + tail;
    WordLenOfWord(p.key, tail);
  }

  /** Where the value of a readable pair's text ends, and what follows the closing quote. */
  lemma {:induction false} PairTextValue(p: Pair, t: string)
    requires Readable(p)
    ensures var s, k, m := PairText(p) + t, |p.key|, |p.value|;
      k + 2 <= |s| && ValueLen(s[k + 2..]) == m && m < |s[k + 2..]| && s[k + 2..][m] == '"'
      && s[k + 2..][..m] == p.value && |PairText(p)| == k + m + 3 && s[k + m + 3..] == t
  {
    var s := PairText(p) + t;
    var k := |p.key|;
    var rest := s[k + 2..];
    assert s == p.key + "=\"" + (p.value + ("\"" + t));
    assert rest == p.value + ("\"" + t);
    ValueLenOfValue(p.value, "\"" + t);
  }

  /** How many runes after a closing quote the pattern also consumes: one separator, if one follows. */
  function SeparatorLen(t: string): (n: nat)
    ensures n <= |t| && (n == 1 <==> t != [] && IsSeparator(t[0]))
  {
    if t != [] && IsSeparator(t[0]) then 1 else 0
  }

  /**
   * The pattern matches a readable pair at the start of its own text, and
   * takes the next rune along exactly when it is a `,` or white space.
   */
  lemma {:induction false} MatchAtPairText(p: Pair, t: string)
    requires Readable(p)
    ensures MatchAt(PairText(p) + t) == Some((p, |PairText(p)| + SeparatorLen(t)))
  {
    PairTextKey(p, t);
    PairTextValue(p, t);
  }

  /** One unfolding of the search at a position where a match starts. */
  lemma FindAllAtMatch(s: string, p: Pair, n: nat)
    requires MatchAt(s) == Some((p, n))
    ensures FindAll(s) == [p] + FindAll(s[n..])
  {
  }

  /** A readable pair's text is read as that pair, and the search goes on after its separator. */
  lemma {:induction false} FindAllPairText(p: Pair, t: string)
    requires Readable(p)
    ensures FindAll(PairText(p) + t) == [p] + FindAll(t[SeparatorLen(t)..])
  {
    var s := PairText(p) + t;
    var n := |PairText(p)| + SeparatorLen(t);
    MatchAtPairText(p, t);
    FindAllAtMatch(s, p, n);
    assert s[n..] == t[SeparatorLen(t)..];
  }

  // ---------------------------------------------------------------- where the matches lie

  /** Position `j` lies in none of the spans `[starts[i], starts[i] + lens[i])`. */
  predicate Uncovered(starts: seq<nat>, lens: seq<nat>, j: int)
    requires |starts| == |lens|
  {
    forall i | 0 <= i < |starts| :: j < starts[i] || starts[i] + lens[i] <= j
  }

  /** The match that starts at position `j` of `s`. */
  function MatchFrom(s: string, j: nat): Option<(Pair, nat)>
    requires j <= |s|
  {
    MatchAt(s[j..])
  }

  /** Match `i` of `ps` starts at `starts[i]` in `s` and covers `lens[i]` runes. */
  predicate MatchesAt(s: string, ps: seq<Pair>, starts: seq<nat>, lens: seq<nat>) {
    |starts| == |ps| && |lens| == |ps|
    && forall i | 0 <= i < |ps| :: starts[i] + lens[i] <= |s| && MatchFrom(s, starts[i]) == Some((ps[i], lens[i]))
  }

  /** The spans come in order and do not overlap. */
  predicate InOrder(starts: seq<nat>, lens: seq<nat>)
    requires |starts| == |lens|
  {
    forall i | 0 < i < |starts| :: starts[i - 1] + lens[i - 1] <= starts[i]
  }

  /** No match starts in `s` outside the spans. */
  predicate NoMatchOutside(s: string, starts: seq<nat>, lens: seq<nat>)
    requires |starts| == |lens|
  {
    forall j | 0 <= j < |s| && Uncovered(starts, lens, j) :: MatchFrom(s, j).None?
  }

  /**
   * `ps` is the leftmost-first scan of `s`: match `i` starts at `starts[i]`
   * and covers `lens[i]` runes, the matches come in order without
   * overlapping, and no match starts anywhere outside them.
   */
  predicate IsScan(s: string, ps: seq<Pair>, starts: seq<nat>, lens: seq<nat>) {
    MatchesAt(s, ps, starts, lens) && InOrder(starts, lens) && NoMatchOutside(s, starts, lens)
  }

  function Shift(xs: seq<nat>, d: nat): (ys: seq<nat>)
    ensures |ys| == |xs| && forall i | 0 <= i < |xs| :: ys[i] == xs[i] + d
  {
    seq(|xs|, i requires 0 <= i < |xs| => xs[i] + d)
  }

  lemma {:induction false} MatchesAtShift(s: string, d: nat, ps: seq<Pair>, starts: seq<nat>, lens: seq<nat>)
    requires d <= |s| && MatchesAt(s[d..], ps, starts, lens)
    ensures MatchesAt(s, ps, Shift(starts, d), lens)
  {
    var st := Shift(starts, d);
    forall i | 0 <= i < |ps| ensures st[i] + lens[i] <= |s| && MatchFrom(s, st[i]) == Some((ps[i], lens[i])) {
      assert s[d..][starts[i]..] == s[st[i]..];
    }
  }

  lemma {:induction false} InOrderShift(d: nat, starts: seq<nat>, lens: seq<nat>)
    requires |starts| == |lens| && InOrder(starts, lens)
    ensures InOrder(Shift(starts, d), lens)
  {
  }

  lemma {:induction false} NoMatchOutsideShift(s: string, d: nat, starts: seq<nat>, lens: seq<nat>)
    requires d <= |s| && |starts| == |lens| && NoMatchOutside(s[d..], starts, lens)
    ensures forall j | d <= j < |s| && Uncovered(Shift(starts, d), lens, j) :: MatchFrom(s, j).None?
  {
    var st := Shift(starts, d);
    forall j | d <= j < |s| && Uncovered(st, lens, j) ensures MatchFrom(s, j).None? {
      forall i | 0 <= i < |starts| ensures j - d < starts[i] || starts[i] + lens[i] <= j - d {
        assert st[i] == starts[i] + d;
      }
      assert Uncovered(starts, lens, j - d);
      assert s[d..][j - d..] == s[j..];
    }
  }

  /** A match at the first span, followed by matches at the rest of the spans. */
  lemma MatchesAtFromTail(s: string, ps: seq<Pair>, starts: seq<nat>, lens: seq<nat>)
    requires |starts| == |ps| && |lens| == |ps| && ps != []
    requires starts[0] + lens[0] <= |s| && MatchFrom(s, starts[0]) == Some((ps[0], lens[0]))
    requires MatchesAt(s, ps[1..], starts[1..], lens[1..])
    ensures MatchesAt(s, ps, starts, lens)
  {
    forall i | 0 < i < |ps| ensures starts[i] + lens[i] <= |s| && MatchFrom(s, starts[i]) == Some((ps[i], lens[i])) {
      assert ps[1..][i - 1] == ps[i] && starts[1..][i - 1] == starts[i] && lens[1..][i - 1] == lens[i];
    }
  }

  lemma {:induction false} MatchesAtCons(s: string, p: Pair, n: nat, ps: seq<Pair>, starts: seq<nat>, lens: seq<nat>)
    requires n <= |s| && MatchFrom(s, 0) == Some((p, n)) && MatchesAt(s, ps, starts, lens)
    ensures MatchesAt(s, [p] + ps, [0] + starts, [n] + lens)
  {
    var ps', st', ls' := [p] + ps, [0] + starts, [n] + lens;
    assert ps'[1..] == ps && st'[1..] == starts && ls'[1..] == lens;
    MatchesAtFromTail(s, ps', st', ls');
  }

  lemma {:induction false} InOrderCons(n: nat, starts: seq<nat>, lens: seq<nat>)
    requires |starts| == |lens| && InOrder(starts, lens)
    requires forall i | 0 <= i < |starts| :: n <= starts[i]
    ensures InOrder([0] + starts, [n] + lens)
  {
    forall i | 1 < i < |starts| + 1 ensures ([0] + starts)[i] == starts[i - 1] && ([n] + lens)[i] == lens[i - 1] { }
  }

  lemma {:induction false} UncoveredCons(n: nat, starts: seq<nat>, lens: seq<nat>, j: int)
    requires |starts| == |lens| && Uncovered([0] + starts, [n] + lens, j)
    ensures (j < 0 || n <= j) && Uncovered(starts, lens, j)
  {
    assert ([0] + starts)[0] == 0 && ([n] + lens)[0] == n;
    forall i | 0 <= i < |starts| ensures j < starts[i] || starts[i] + lens[i] <= j {
      assert ([0] + starts)[i + 1] == starts[i] && ([n] + lens)[i + 1] == lens[i];
    }
  }

  /** A scan of the text after a match, moved past it, extends that match into a scan of the whole text. */
  lemma {:induction false} ScanAfterMatch(s: string, p: Pair, n: nat, ps: seq<Pair>, starts: seq<nat>, lens: seq<nat>)
    requires 0 < n <= |s| && MatchAt(s) == Some((p, n))
    requires IsScan(s[n..], ps, starts, lens)
    ensures IsScan(s, [p] + ps, [0] + Shift(starts, n), [n] + lens)
  {
    var st := Shift(starts, n);
    MatchesAtShift(s, n, ps, starts, lens);
    InOrderShift(n, starts, lens);
    assert MatchFrom(s, 0) == Some((p, n)) by { assert s[0..] == s; }
    MatchesAtCons(s, p, n, ps, st, lens);
    InOrderCons(n, st, lens);
    NoMatchOutsideShift(s, n, starts, lens);
    forall j | 0 <= j < |s| && Uncovered([0] + st, [n] + lens, j) ensures MatchFrom(s, j).None? {
      UncoveredCons(n, st, lens, j);
    }
  }

  /** Where no match starts, a scan of the rest of the text, moved by one, is a scan of the whole text. */
  lemma {:induction false} ScanAfterMiss(s: string, ps: seq<Pair>, starts: seq<nat>, lens: seq<nat>)
    requires s != [] && MatchAt(s).None?
    requires IsScan(s[1..], ps, starts, lens)
    ensures IsScan(s, ps, Shift(starts, 1), lens)
  {
    MatchesAtShift(s, 1, ps, starts, lens);
    InOrderShift(1, starts, lens);
    NoMatchOutsideShift(s, 1, starts, lens);
    assert MatchFrom(s, 0).None? by { assert s[0..] == s; }
    assert NoMatchOutside(s, Shift(starts, 1), lens);
  }

  /**
   * The search is the leftmost-first scan of the text: the pairs found are
   * matches at increasing, non-overlapping positions, and no match starts
   * anywhere the search stepped over.
   */
  lemma {:induction false} FindAllScan(s: string) returns (starts: seq<nat>, lens: seq<nat>)
    ensures IsScan(s, FindAll(s), starts, lens)
    decreases |s|
  {
    if s == [] {
      starts, lens := [], [];
    } else {
      match MatchAt(s)
      case Some((p, n)) =>
        MatchAtShape(s);
        var st, ls := FindAllScan(s[n..]);
        ScanAfterMatch(s, p, n, FindAll(s[n..]), st, ls);
        starts, lens := [0] + Shift(st, n), [n] + ls;
      case None =>
        var st, ls := FindAllScan(s[1..]);
        ScanAfterMiss(s, FindAll(s[1..]), st, ls);
        starts, lens := Shift(st, 1), ls;
    }
  }

  /** Each match of a scan starts with its pair's `key="value"` text, so every pair found stands in the text. */
  lemma MatchedTexts(s: string, ps: seq<Pair>, starts: seq<nat>, lens: seq<nat>)
    requires MatchesAt(s, ps, starts, lens)
    ensures forall i | 0 <= i < |starts| ::
      starts[i] + |PairText(ps[i])| <= |s| && s[starts[i]..starts[i] + |PairText(ps[i])|] == PairText(ps[i])
  {
    forall i | 0 <= i < |starts| ensures
      starts[i] + |PairText(ps[i])| <= |s| && s[starts[i]..starts[i] + |PairText(ps[i])|] == PairText(ps[i])
    {
      var t := s[starts[i]..];
      MatchAtShape(t);
      assert MatchAt(t) == Some((ps[i], lens[i]));
      assert t[..|PairText(ps[i])|] == s[starts[i]..starts[i] + |PairText(ps[i])|];
    }
  }

  /** A single rendered pair reads back as itself. */
  lemma FindAllRenderOne(p: Pair)
    requires Readable(p)
    ensures FindAll(Render([p])) == [p]
  {
    FindAllPairText(p, "");
    assert PairText(p) + "" == PairText(p);
  }

  /** The first of two or more rendered pairs is read, and the search resumes at the rest. */
  lemma FindAllRenderStep(ps: seq<Pair>)
    requires |ps| >= 2 && Readable(ps[0])
    ensures FindAll(Render(ps)) == [ps[0]] + FindAll(Render(ps[1..]))
  {
    var p, rest := ps[0], Render(ps[1..]);
    var t := "," + rest;
    assert Render(ps) == PairText(p) + t;
    assert SeparatorLen(t) == 1 && t[1..] == rest;
    FindAllPairText(p, t);
  }

  /** Round trip: reading back rendered labels gives the same pairs, in the same order. */
  lemma {:induction false} FindAllRender(ps: seq<Pair>)
    requires forall i | 0 <= i < |ps| :: Readable(ps[i])
    ensures FindAll(Render(ps)) == ps
    decreases |ps|
  {
    if ps == [] {
      assert Render(ps) == [];
    } else if |ps| == 1 {
      assert ps == [ps[0]];
      FindAllRenderOne(ps[0]);
    } else {
      assert ps == [ps[0]] + ps[1..];
      FindAllRenderStep(ps);
      FindAllRender(ps[1..]);
    }
  }
}
