/** The parts of Go's `strings` package that the parser and the battery probe rely on. */
module Strings {

  /** Go's `unicode.IsSpace`: the runes `strings.Fields` splits on. */
  predicate IsSpace(c: char) {
    c == '\t' || c == '\n' || c == '\U{B}' || c == '\U{C}' || c == '\r' || c == ' '
    || c == '\U{85}' || c == '\U{A0}' || c == '\U{1680}'
    || ('\U{2000}' <= c <= '\U{200A}')
    || c == '\U{2028}' || c == '\U{2029}' || c == '\U{202F}' || c == '\U{205F}' || c == '\U{3000}'
  }

  /** `s` holds no white space at all. */
  predicate NoSpace(s: string) {
    forall i | 0 <= i < |s| :: !IsSpace(s[i])
  }

  /** Length of the run of non-space runes that `s` starts with. */
  function NonSpaceLen(s: string): (n: nat)
    ensures n <= |s|
    ensures NoSpace(s[..n])
    ensures n < |s| ==> IsSpace(s[n])
  {
    if s == [] || IsSpace(s[0]) then 0 else 1 + NonSpaceLen(s[1..])
  }

  /**
   * `strings.Fields`: the maximal runs of non-space runes of `s`, in order.
   * Every field is non-empty and holds no space.
   */
  function Fields(s: string): (fs: seq<string>)
    ensures forall i | 0 <= i < |fs| :: fs[i] != [] && NoSpace(fs[i])
    decreases |s|
  {
    if s == [] then []
    else if IsSpace(s[0]) then Fields(s[1..])
    else
      var n := NonSpaceLen(s);
      [s[..n]] + Fields(s[n..])
  }

  /** A line has no field exactly when it is all white space (the empty line included). */
  lemma {:induction false} FieldsEmptyIffBlank(s: string)
    ensures Fields(s) == [] <==> forall i | 0 <= i < |s| :: IsSpace(s[i])
    decreases |s|
  {
    if s != [] {
      if IsSpace(s[0]) {
        FieldsEmptyIffBlank(s[1..]);
        if forall i | 0 <= i < |s[1..]| :: IsSpace(s[1..][i]) {
          forall i | 0 <= i < |s| ensures IsSpace(s[i]) {
            if i > 0 { assert s[i] == s[1..][i - 1]; }
          }
        }
      }
    }
  }

  /** A run of non-space runes stops at a space that follows it. */
  lemma {:induction false} NonSpaceLenBeforeSpace(a: string, b: string)
    requires b != [] && IsSpace(b[0])
    ensures NonSpaceLen(a + b) == NonSpaceLen(a)
    decreases |a|
  {
    if a != [] && !IsSpace(a[0]) {
      assert (a + b)[1..] == a[1..] + b;
      NonSpaceLenBeforeSpace(a[1..], b);
    }
  }

  /** Fields on either side of a space are split apart: the space separates them. */
  lemma {:induction false} FieldsSplitAtSpace(a: string, c: char, b: string)
    requires IsSpace(c)
    ensures Fields(a + [c] + b) == Fields(a) + Fields(b)
    decreases |a|
  {
    var s := a + [c] + b;
    if a == [] {
      assert s[1..] == b;
    } else if IsSpace(a[0]) {
      assert s[1..] == a[1..] + [c] + b;
      FieldsSplitAtSpace(a[1..], c, b);
    } else {
      NonSpaceLenBeforeSpace(a, [c] + b);
      assert s == a + ([c] + b);
      var n := NonSpaceLen(a);
      assert s[..n] == a[..n];
      assert s[n..] == a[n..] + [c] + b;
      FieldsSplitAtSpace(a[n..], c, b);
      assert Fields(s) == [a[..n]] + (Fields(a[n..]) + Fields(b));
      assert Fields(a) == [a[..n]] + Fields(a[n..]);
    }
  }

  /** A non-empty word without spaces is a single field. */
  lemma {:induction false} FieldsOfWord(w: string)
    requires w != [] && NoSpace(w)
    ensures Fields(w) == [w]
  {
    NonSpaceLenOfWord(w);
    assert !IsSpace(w[0]);
    assert w[..|w|] == w;
    assert w[|w|..] == [];
  }

  lemma {:induction false} NonSpaceLenOfWord(w: string)
    requires NoSpace(w)
    ensures NonSpaceLen(w) == |w|
    decreases |w|
  {
    if w != [] {
      assert NoSpace(w[1..]) by {
        forall i | 0 <= i < |w[1..]| ensures !IsSpace(w[1..][i]) { assert w[1..][i] == w[i + 1]; }
      }
      NonSpaceLenOfWord(w[1..]);
    }
  }

  /** Words joined by single spaces. */
  function JoinWords(ws: seq<string>): string {
    if ws == [] then "" else if |ws| == 1 then ws[0] else ws[0] + " " + JoinWords(ws[1..])
  }

  /** Round trip: splitting words joined by spaces gives back the words. */
  lemma {:induction false} FieldsOfJoinWords(ws: seq<string>)
    requires forall i | 0 <= i < |ws| :: ws[i] != [] && NoSpace(ws[i])
    ensures Fields(JoinWords(ws)) == ws
    decreases |ws|
  {
    if ws == [] {
    } else if |ws| == 1 {
      FieldsOfWord(ws[0]);
    } else {
      FieldsSplitAtSpace(ws[0], ' ', JoinWords(ws[1..]));
      FieldsOfWord(ws[0]);
      FieldsOfJoinWords(ws[1..]);
    }
  }

  /** `strings.ContainsAny`: some rune of `s` is one of `chars`. */
  predicate ContainsAny(s: string, chars: string) {
    exists i | 0 <= i < |s| :: s[i] in chars
  }

  /**
   * `c` is `d` up to case: the same rune, its ASCII capital, or one of the two
   * non-ASCII capitals Go lowers to an ASCII letter (U+0130 to `i`, the Kelvin
   * sign U+212A to `k`).
   */
  predicate SameLetter(c: char, d: char) {
    c == d
    || ('a' <= d <= 'z' && c as int == d as int - 32)
    || (c == '\U{130}' && d == 'i')
    || (c == '\U{212A}' && d == 'k')
  }

  /** `s` and `t` spell the same text up to case, rune by rune. */
  predicate EqualUpToCase(s: string, t: string) {
    |s| == |t| && forall i | 0 <= i < |s| :: SameLetter(s[i], t[i])
  }

  /** `t` is ASCII text without capitals, like the status texts the probe compares against. */
  predicate IsLowerAscii(t: string) {
    forall i | 0 <= i < |t| :: t[i] < '\U{80}' && !('A' <= t[i] <= 'Z')
  }

  /**
   * `unicode.ToLower` as far as it can produce an ASCII letter: `A`-`Z`, the
   * dotted capital I (U+0130, lowered to `i`) and the Kelvin sign (U+212A,
   * lowered to `k`). Every other rune is kept as it is.
   */
  function ToLowerRune(c: char): (r: char)
    ensures SameLetter(c, r)
    ensures !('A' <= r <= 'Z') && r != '\U{130}' && r != '\U{212A}'
    ensures !('A' <= c <= 'Z') && c != '\U{130}' && c != '\U{212A}' ==> r == c
  {
    if 'A' <= c <= 'Z' then (c as int + 32) as char
    else if c == '\U{130}' then 'i'
    else if c == '\U{212A}' then 'k'
    else c
  }

  /** Lowering a rune gives a lower-case ASCII rune exactly when the rune is that one up to case. */
  lemma ToLowerRuneMatches(c: char, d: char)
    requires IsLowerAscii([d])
    ensures ToLowerRune(c) == d <==> SameLetter(c, d)
  {
    assert d < '\U{80}' && !('A' <= d <= 'Z') by { assert [d][0] == d; }
  }

  /** `strings.ToLower`, rune by rune. */
  function ToLower(s: string): (r: string)
    ensures |r| == |s|
    ensures forall i | 0 <= i < |s| :: r[i] == ToLowerRune(s[i])
  {
    seq(|s|, i requires 0 <= i < |s| => ToLowerRune(s[i]))
  }

  /**
   * Lower-casing turns `s` into a lower-case ASCII text `t` exactly when `s`
   * is `t` up to case.
   */
  lemma {:induction false} ToLowerMatches(s: string, t: string)
    requires IsLowerAscii(t)
    ensures ToLower(s) == t <==> EqualUpToCase(s, t)
  {
    if |s| == |t| {
      forall i | 0 <= i < |s| ensures ToLower(s)[i] == t[i] <==> SameLetter(s[i], t[i]) {
        assert IsLowerAscii([t[i]]);
        ToLowerRuneMatches(s[i], t[i]);
      }
      if EqualUpToCase(s, t) {
        assert ToLower(s) == t;
      }
    }
  }

  /** Lower-casing a rune twice is lower-casing it once. */
  lemma ToLowerRuneIdempotent(c: char)
    ensures ToLowerRune(ToLowerRune(c)) == ToLowerRune(c)
  {
  }

  /** Lower-casing a string twice is lower-casing it once. */
  lemma {:induction false} ToLowerIdempotent(s: string)
    ensures ToLower(ToLower(s)) == ToLower(s)
  {
    var t := ToLower(s);
    forall i | 0 <= i < |s| ensures ToLower(t)[i] == t[i] {
      ToLowerRuneIdempotent(s[i]);
    }
  }
}
