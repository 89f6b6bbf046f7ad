/**
 * The output format of a data source and its parser. Each line is
 * `[label segment] <float>`; the parser turns the text into one sample per
 * line, in order.
 */
module Output {
  import opened Wrappers
  import opened Strings
  import opened LabelPattern

  /** A float64 as its IEEE-754 bit pattern: values are carried, never computed with. */
  datatype Float64 = Float64(bits: bv64)

  /** The bit pattern Go's `math.NaN()` returns. */
  const NaN := Float64(0x7FF8_0000_0000_0001)

  type Labels = map<string, string>

  /** One sample; `labels == None` is a nil label map (a line with a value only). */
  datatype OutputLine = OutputLine(labels: Option<Labels>, value: Float64)

  type Output = seq<OutputLine>

  /** The failure sentinel: one unlabelled NaN sample. */
  const NaNOutput: Output := [OutputLine(None, NaN)]

  datatype ParseError = InvalidFloatValue(field: string)

  /**
   * How a run of the parser ends: it returns the samples and a possible error,
   * or it panics, indexing the last field of a line that has none.
   */
  datatype Outcome = Returned(out: Output, err: Option<ParseError>) | IndexOutOfRangePanic

  // ---------------------------------------------------------------- lines

  /** Length of the first line of `s`: up to and including the first `\n`, or all of `s`. */
  function LineLen(s: string): (n: nat)
    ensures n <= |s| && (s != [] ==> 0 < n)
    ensures n == |s| || s[n - 1] == '\n'
  {
    if s == [] then 0 else if s[0] == '\n' then 1 else 1 + LineLen(s[1..])
  }

  /** The successive results of `ReadString('\n')` over `s` until it is exhausted. */
  function Lines(s: string): seq<string>
    decreases |s|
  {
    if s == [] then [] else [s[..LineLen(s)]] + Lines(s[LineLen(s)..])
  }

  function Concat(ls: seq<string>): string {
    if ls == [] then "" else ls[0] + Concat(ls[1..])
  }

  /** A line holds a newline only as its last rune. */
  predicate IsLine(l: string) {
    forall j | 0 <= j < |l| - 1 :: l[j] != '\n'
  }

  /** Splitting into lines loses nothing: the lines put back together are the input. */
  lemma {:induction false} LinesConcat(s: string)
    ensures Concat(Lines(s)) == s
    decreases |s|
  {
    if s != [] {
      var n := LineLen(s);
      LinesConcat(s[n..]);
      assert s[..n] + s[n..] == s;
      assert Lines(s)[1..] == Lines(s[n..]);
    }
  }

  /** The first line holds a newline only as its last rune. */
  lemma {:induction false} FirstLineIsLine(s: string)
    ensures IsLine(s[..LineLen(s)])
    decreases |s|
  {
    if s != [] && s[0] != '\n' {
      FirstLineIsLine(s[1..]);
      var n := LineLen(s);
      assert s[..n] == [s[0]] + s[1..][..n - 1];
    }
  }

  /** Each line is non-empty and holds a newline only as its last rune, and every line but the last ends with one. */
  lemma {:induction false} LinesShape(s: string)
    ensures forall i | 0 <= i < |Lines(s)| :: Lines(s)[i] != [] && IsLine(Lines(s)[i])
    ensures forall i | 0 <= i < |Lines(s)| - 1 :: Lines(s)[i][|Lines(s)[i]| - 1] == '\n'
    decreases |s|
  {
    if s != [] {
      var n := LineLen(s);
      var ls := Lines(s);
      LinesShape(s[n..]);
      assert ls[1..] == Lines(s[n..]);
      FirstLineIsLine(s);
      assert |ls| > 1 ==> s[n..] != [] && n < |s|;
      forall i | 0 <= i < |ls| ensures ls[i] != [] && IsLine(ls[i]) {
        if i > 0 { assert ls[i] == Lines(s[n..])[i - 1]; }
      }
      forall i | 0 <= i < |ls| - 1 ensures ls[i][|ls[i]| - 1] == '\n' {
        if i > 0 { assert ls[i] == Lines(s[n..])[i - 1]; }
      }
    }
  }

  lemma {:induction false} LineLenOfTerminated(a: string, b: string)
    requires a != [] && a[|a| - 1] == '\n'
    ensures LineLen(a + b) == LineLen(a)
    decreases |a|
  {
    if a[0] != '\n' {
      assert (a + b)[1..] == a[1..] + b;
      LineLenOfTerminated(a[1..], b);
    }
  }

  lemma LinesCons(s: string)
    requires s != []
    ensures Lines(s) == [s[..LineLen(s)]] + Lines(s[LineLen(s)..])
  {
  }

  /** Text that ends at a line break splits into lines independently of what follows it. */
  lemma {:induction false} LinesAppend(a: string, b: string)
    requires a == [] || a[|a| - 1] == '\n'
    ensures Lines(a + b) == Lines(a) + Lines(b)
    decreases |a|
  {
    if a == [] {
      assert a + b == b;
    } else {
      var n := LinesSplitTerminated(a, b);
      var first, more := a[..n], a[n..];
      var rest, after := Lines(more), Lines(b);
      LinesAppend(more, b);
      LinesCons(a);
      Regroup(first, rest, after, Lines(a + b), Lines(a));
    }
  }

  lemma Regroup(first: string, rest: seq<string>, after: seq<string>, whole: seq<string>, front: seq<string>)
    requires whole == [first] + (rest + after) && front == [first] + rest
    ensures whole == front + after
  {
  }

  /** The first line of text that ends at a line break is the first line of anything that follows it. */
  lemma LinesSplitTerminated(a: string, b: string) returns (n: nat)
    requires a != [] && a[|a| - 1] == '\n'
    ensures n == LineLen(a)
    ensures a[n..] == [] || a[n..][|a[n..]| - 1] == '\n'
    ensures Lines(a + b) == [a[..n]] + Lines(a[n..] + b)
  {
    n := LineLen(a);
    var more := a[n..];
    assert more == [] || more[|more| - 1] == '\n' by {
      if more != [] { assert more[|more| - 1] == a[|a| - 1]; }
    }
    var s := a + b;
    assert LineLen(s) == n by { LineLenOfTerminated(a, b); }
    assert s[..n] == a[..n] && s[n..] == more + b;
    LinesCons(s);
  }

  /** A single line, with or without its newline, is read in one piece. */
  lemma {:induction false} LinesOfLine(l: string)
    requires l != [] && IsLine(l)
    ensures Lines(l) == [l]
    decreases |l|
  {
    assert LineLen(l) == |l| by { LineLenOfLine(l); }
    assert l[..|l|] == l && l[|l|..] == [];
  }

  lemma {:induction false} LineLenOfLine(l: string)
    requires IsLine(l)
    ensures LineLen(l) == |l|
    decreases |l|
  {
    if |l| > 1 {
      LineLenOfLine(l[1..]);
    }
  }

  // ---------------------------------------------------------------- labels

  /** The label map filled from the matches in order: a later pair overwrites an earlier key. */
  function PairsToMap(ps: seq<Pair>): Labels {
    if ps == [] then map[]
    else PairsToMap(ps[..|ps| - 1])[ps[|ps| - 1].key := ps[|ps| - 1].value]
  }

  lemma {:induction false} PairsToMapExtend(ps: seq<Pair>, i: nat)
    requires i < |ps|
    ensures PairsToMap(ps[..i + 1]) == PairsToMap(ps[..i])[ps[i].key := ps[i].value]
  {
    assert ps[..i + 1][..i] == ps[..i];
  }

  /** Every matched key becomes a label, no other key does, and a repeated key keeps its last value. */
  lemma {:induction false} PairsToMapLastWins(ps: seq<Pair>)
    ensures forall k :: k in PairsToMap(ps) <==> exists i | 0 <= i < |ps| :: ps[i].key == k
    ensures forall i | 0 <= i < |ps| ::
      (forall j | i < j < |ps| :: ps[j].key != ps[i].key) ==> PairsToMap(ps)[ps[i].key] == ps[i].value
    decreases |ps|
  {
    if ps != [] {
      var init := ps[..|ps| - 1];
      PairsToMapLastWins(init);
      forall k ensures k in PairsToMap(ps) <==> exists i | 0 <= i < |ps| :: ps[i].key == k {
        if exists i | 0 <= i < |init| :: init[i].key == k {
          var i :| 0 <= i < |init| && init[i].key == k;
          assert ps[i].key == k;
        }
      }
      forall i | 0 <= i < |ps| && (forall j | i < j < |ps| :: ps[j].key != ps[i].key)
        ensures PairsToMap(ps)[ps[i].key] == ps[i].value
      {
        if i < |ps| - 1 {
          assert init[i] == ps[i];
          assert forall j | i < j < |init| :: init[j].key != init[i].key by {
            forall j | i < j < |init| ensures init[j].key != init[i].key { assert init[j] == ps[j]; }
          }
        }
      }
    }
  }

  /**
   * The labels of a first field: the matched pairs, or, when nothing matches
   * and the field has no `=` and no `,`, the single label `type` = the field.
   */
  function LabelsOf(raw: string): Labels {
    var ps := FindAll(raw);
    var m := PairsToMap(ps);
    if ps == [] && !ContainsAny(raw, "=,") then m["type" := raw] else m
  }

  /** The three ways a first field turns into labels. */
  lemma {:induction false} LabelsOfCases(raw: string)
    ensures FindAll(raw) != [] ==> LabelsOf(raw) == PairsToMap(FindAll(raw))
    ensures !ContainsAny(raw, "=,") ==> LabelsOf(raw) == map["type" := raw]
    ensures ContainsAny(raw, "=,") && FindAll(raw) == [] ==> LabelsOf(raw) == map[]
  {
    if !ContainsAny(raw, "=,") {
      forall i | 0 <= i < |raw| ensures raw[i] != '=' {
        assert raw[i] !in "=,";
      }
      FindAllWithoutEquals(raw);
    }
  }

  // ---------------------------------------------------------------- one line

  /** What one line contributes: nothing to index (a panic), a bad value, or a sample. */
  datatype LineResult = BlankLine | BadValue(field: string) | Sample(line: OutputLine)

  /**
   * One line: the last field is the value, the first field (when there are
   * two or more) the label segment; fields in between play no part.
   */
  function DecodeLine(line: string, parseFloat: string -> Option<Float64>): LineResult {
    var vs := Fields(line);
    if vs == [] then BlankLine
    else match parseFloat(vs[|vs| - 1])
      case None => BadValue(vs[|vs| - 1])
      case Some(v) => Sample(OutputLine(if |vs| == 1 then None else Some(LabelsOf(vs[0])), v))
  }

  /** A line is blank (and the parser panics on it) exactly when it is all white space. */
  lemma {:induction false} BlankLineIsWhiteSpace(line: string, parseFloat: string -> Option<Float64>)
    ensures DecodeLine(line, parseFloat).BlankLine? <==> forall i | 0 <= i < |line| :: IsSpace(line[i])
  {
    FieldsEmptyIffBlank(line);
  }

  /** The newline that ends a line changes nothing about it. */
  lemma {:induction false} TrailingNewlineIgnored(line: string, parseFloat: string -> Option<Float64>)
    ensures DecodeLine(line + "\n", parseFloat) == DecodeLine(line, parseFloat)
  {
    FieldsSplitAtSpace(line, '\n', []);
    assert line + "\n" == line + ['\n'] + [];
    assert Fields(line) + Fields([]) == Fields(line);
  }

  /** A line with one field gives an unlabelled sample carrying that field's value. */
  lemma {:induction false} SingleFieldLine(f: string, v: Float64, parseFloat: string -> Option<Float64>)
    requires f != [] && NoSpace(f) && parseFloat(f) == Some(v)
    ensures DecodeLine(f, parseFloat) == Sample(OutputLine(None, v))
    ensures DecodeLine(f + "\n", parseFloat) == Sample(OutputLine(None, v))
  {
    FieldsOfWord(f);
    TrailingNewlineIgnored(f, parseFloat);
  }

  /** Only the first and the last field count: whatever stands between them is ignored. */
  lemma {:induction false} MiddleFieldsIgnored(first: string, middle: string, last: string, parseFloat: string -> Option<Float64>)
    requires first != [] && NoSpace(first) && last != [] && NoSpace(last)
    ensures DecodeLine(first + " " + middle + " " + last, parseFloat) == DecodeLine(first + " " + last, parseFloat)
  {
    FieldsOfWord(first);
    FieldsOfWord(last);
    FieldsSplitAtSpace(first, ' ', last);
    assert first + " " + last == first + [' '] + last;
    FieldsSplitAtSpace(first + " " + middle, ' ', last);
    assert first + " " + middle + " " + last == (first + " " + middle) + [' '] + last;
    FieldsSplitAtSpace(first, ' ', middle);
    assert first + " " + middle == first + [' '] + middle;
    var vs := Fields(first + " " + middle + " " + last);
    assert vs == [first] + Fields(middle) + [last];
    assert vs[0] == first && vs[|vs| - 1] == last;
  }

  // ---------------------------------------------------------------- whole input

  /** Adds samples parsed earlier in front of an outcome. */
  function Prepend(xs: Output, o: Outcome): Outcome {
    match o
    case Returned(out, err) => Returned(xs + out, err)
    case IndexOutOfRangePanic => IndexOutOfRangePanic
  }

  /** The parse of a sequence of lines: line by line, stopping at the first one that is not a sample. */
  function ParseLines(ls: seq<string>, parseFloat: string -> Option<Float64>): Outcome {
    if ls == [] then Returned([], None)
    else match DecodeLine(ls[0], parseFloat)
      case BlankLine => IndexOutOfRangePanic
      case BadValue(f) => Returned([], Some(InvalidFloatValue(f)))
      case Sample(x) => Prepend([x], ParseLines(ls[1..], parseFloat))
  }

  /** The parse of a whole input. */
  function Parse(input: string, parseFloat: string -> Option<Float64>): Outcome {
    ParseLines(Lines(input), parseFloat)
  }

  /** The lines before index `k` all yield samples. */
  predicate SamplesBefore(ls: seq<string>, k: int, parseFloat: string -> Option<Float64>)
    requires k <= |ls|
  {
    forall i | 0 <= i < k :: DecodeLine(ls[i], parseFloat).Sample?
  }

  /** Whatever a parse returns are the samples of the first lines, one per line, in line order. */
  lemma {:induction false} ParseLinesPrefix(ls: seq<string>, parseFloat: string -> Option<Float64>)
    ensures var r := ParseLines(ls, parseFloat);
      r.Returned? ==> |r.out| <= |ls| && forall i | 0 <= i < |r.out| :: DecodeLine(ls[i], parseFloat) == Sample(r.out[i])
    decreases |ls|
  {
    if ls != [] {
      ParseLinesPrefix(ls[1..], parseFloat);
      var r := ParseLines(ls, parseFloat);
      if DecodeLine(ls[0], parseFloat).Sample? && r.Returned? {
        var tail := ParseLines(ls[1..], parseFloat);
        forall i | 0 < i < |r.out| ensures DecodeLine(ls[i], parseFloat) == Sample(r.out[i]) {
          assert r.out[i] == tail.out[i - 1] && ls[i] == ls[1..][i - 1];
        }
      }
    }
  }

  /** A parse ends without error exactly when every line yields a sample, and then it returns one sample per line. */
  lemma {:induction false} ParseLinesComplete(ls: seq<string>, parseFloat: string -> Option<Float64>)
    ensures var r := ParseLines(ls, parseFloat);
      (r.Returned? && r.err.None? <==> SamplesBefore(ls, |ls|, parseFloat))
      && (r.Returned? && r.err.None? ==> |r.out| == |ls|)
    decreases |ls|
  {
    if ls != [] {
      var tail := ls[1..];
      ParseLinesComplete(tail, parseFloat);
      if DecodeLine(ls[0], parseFloat).Sample? {
        if SamplesBefore(tail, |tail|, parseFloat) {
          forall i | 0 <= i < |ls| ensures DecodeLine(ls[i], parseFloat).Sample? {
            if i > 0 { assert ls[i] == tail[i - 1]; }
          }
        }
        if SamplesBefore(ls, |ls|, parseFloat) {
          forall i | 0 <= i < |tail| ensures DecodeLine(tail[i], parseFloat).Sample? {
            assert tail[i] == ls[i + 1];
          }
        }
      }
    }
  }

  /** A parse that ends with an error stops at the first line whose value does not parse, and names that value. */
  lemma {:induction false} ParseLinesStopsAtBadValue(ls: seq<string>, parseFloat: string -> Option<Float64>)
    ensures var r := ParseLines(ls, parseFloat);
      r.Returned? && r.err.Some? ==>
        |r.out| < |ls| && SamplesBefore(ls, |r.out|, parseFloat)
        && DecodeLine(ls[|r.out|], parseFloat) == BadValue(r.err.value.field)
    decreases |ls|
  {
    if ls != [] {
      var tail := ls[1..];
      ParseLinesStopsAtBadValue(tail, parseFloat);
      var r := ParseLines(ls, parseFloat);
      if DecodeLine(ls[0], parseFloat).Sample? && r.Returned? && r.err.Some? {
        var t := ParseLines(tail, parseFloat);
        assert |r.out| == |t.out| + 1;
        assert ls[|r.out|] == tail[|t.out|];
        forall i | 0 < i < |r.out| ensures DecodeLine(ls[i], parseFloat).Sample? {
          assert ls[i] == tail[i - 1];
        }
      }
    }
  }

  /** A blank line that follows only samples makes the parse panic. */
  lemma {:induction false} BlankLinePanics(ls: seq<string>, k: nat, parseFloat: string -> Option<Float64>)
    requires k < |ls| && DecodeLine(ls[k], parseFloat).BlankLine? && SamplesBefore(ls, k, parseFloat)
    ensures ParseLines(ls, parseFloat).IndexOutOfRangePanic?
    decreases k
  {
    if k > 0 {
      var tail := ls[1..];
      assert DecodeLine(ls[0], parseFloat).Sample?;
      forall i | 0 <= i < k - 1 ensures DecodeLine(tail[i], parseFloat).Sample? {
        assert tail[i] == ls[i + 1];
      }
      BlankLinePanics(tail, k - 1, parseFloat);
    }
  }

  /** A parse panics only at a blank line that follows only samples. */
  lemma {:induction false} PanicAtBlankLine(ls: seq<string>, parseFloat: string -> Option<Float64>) returns (k: nat)
    requires ParseLines(ls, parseFloat).IndexOutOfRangePanic?
    ensures k < |ls| && DecodeLine(ls[k], parseFloat).BlankLine? && SamplesBefore(ls, k, parseFloat)
    decreases |ls|
  {
    if DecodeLine(ls[0], parseFloat).BlankLine? {
      k := 0;
    } else {
      var tail := ls[1..];
      var j := PanicAtBlankLine(tail, parseFloat);
      k := j + 1;
      assert ls[k] == tail[j];
      forall i | 0 < i < k ensures DecodeLine(ls[i], parseFloat).Sample? {
        assert ls[i] == tail[i - 1];
      }
    }
  }

  lemma {:induction false} ParseLinesSameLast(ls: seq<string>, x: string, y: string, parseFloat: string -> Option<Float64>)
    requires DecodeLine(x, parseFloat) == DecodeLine(y, parseFloat)
    ensures ParseLines(ls + [x], parseFloat) == ParseLines(ls + [y], parseFloat)
    decreases |ls|
  {
    if ls == [] {
      assert ([] + [x])[1..] == [] == ([] + [y])[1..];
    } else {
      assert (ls + [x])[1..] == ls[1..] + [x];
      assert (ls + [y])[1..] == ls[1..] + [y];
      ParseLinesSameLast(ls[1..], x, y, parseFloat);
    }
  }

  /** A final line without its newline is parsed exactly as if it had one. */
  lemma {:induction false} FinalLineWithoutNewline(prefix: string, last: string, parseFloat: string -> Option<Float64>)
    requires prefix == [] || prefix[|prefix| - 1] == '\n'
    requires last != [] && '\n' !in last
    ensures Parse(prefix + last, parseFloat) == Parse(prefix + last + "\n", parseFloat)
  {
    var withNewline := last + "\n";
    assert IsLine(last) && IsLine(withNewline);
    LinesAppend(prefix, last);
    LinesAppend(prefix, withNewline);
    assert prefix + last + "\n" == prefix + withNewline;
    LinesOfLine(last);
    LinesOfLine(withNewline);
    TrailingNewlineIgnored(last, parseFloat);
    ParseLinesSameLast(Lines(prefix), last, withNewline, parseFloat);
  }

  lemma {:induction false} NoSpaceConcat(a: string, b: string)
    requires NoSpace(a) && NoSpace(b)
    ensures NoSpace(a + b)
  {
    forall i | 0 <= i < |a + b| ensures !IsSpace((a + b)[i]) {
      if i >= |a| { assert (a + b)[i] == b[i - |a|]; }
    }
  }

  lemma {:induction false} PairTextNoSpace(p: Pair)
    requires Readable(p) && NoSpace(p.value)
    ensures NoSpace(PairText(p))
  {
    assert NoSpace(p.key) by {
      forall i | 0 <= i < |p.key| ensures !IsSpace(p.key[i]) { assert IsWordChar(p.key[i]); }
    }
    NoSpaceConcat(p.key, "=\"");
    NoSpaceConcat(p.key + "=\"", p.value);
    NoSpaceConcat(p.key + "=\"" + p.value, "\"");
  }

  lemma {:induction false} RenderNoSpace(ps: seq<Pair>)
    requires forall i | 0 <= i < |ps| :: Readable(ps[i]) && NoSpace(ps[i].value)
    ensures NoSpace(Render(ps))
    decreases |ps|
  {
    if ps != [] {
      PairTextNoSpace(ps[0]);
      if |ps| > 1 {
        RenderNoSpace(ps[1..]);
        NoSpaceConcat(PairText(ps[0]), ",");
        NoSpaceConcat(PairText(ps[0]) + ",", Render(ps[1..]));
      }
    }
  }

  /** Rendered labels, a space and a value: two fields, and a single line. */
  lemma {:induction false} RenderedLineShape(ps: seq<Pair>, num: string)
    requires ps != [] && forall i | 0 <= i < |ps| :: Readable(ps[i]) && NoSpace(ps[i].value)
    requires num != [] && NoSpace(num)
    ensures Fields(Render(ps) + " " + num) == [Render(ps), num]
    ensures IsLine(Render(ps) + " " + num + "\n")
  {
    var raw := Render(ps);
    var line := raw + " " + num;
    RenderNoSpace(ps);
    assert raw != [] by {
      if |ps| == 1 { assert raw == PairText(ps[0]); } else { assert raw == PairText(ps[0]) + "," + Render(ps[1..]); }
    }
    FieldsOfWord(raw);
    FieldsOfWord(num);
    FieldsSplitAtSpace(raw, ' ', num);
    assert line == raw + [' '] + num;
    forall j | 0 <= j < |line| ensures (line + "\n")[j] != '\n' {
      if j < |raw| { assert !IsSpace(raw[j]); }
      else if j > |raw| { assert !IsSpace(num[j - |raw| - 1]); }
    }
  }

  /** Rendered labels read back as exactly the map of their pairs. */
  lemma {:induction false} RenderedLabels(ps: seq<Pair>)
    requires ps != [] && forall i | 0 <= i < |ps| :: Readable(ps[i])
    ensures LabelsOf(Render(ps)) == PairsToMap(ps)
  {
    FindAllRender(ps);
  }

  /**
   * Round trip for one line of the output format: rendered labels, a space, a
   * value and a newline parse back to one sample with exactly those labels
   * (the last value for a repeated key) and that value.
   */
  lemma {:induction false} RenderedLineRoundTrip(ps: seq<Pair>, num: string, v: Float64, parseFloat: string -> Option<Float64>)
    requires ps != [] && forall i | 0 <= i < |ps| :: Readable(ps[i]) && NoSpace(ps[i].value)
    requires num != [] && NoSpace(num) && parseFloat(num) == Some(v)
    ensures Parse(Render(ps) + " " + num + "\n", parseFloat) == Returned([OutputLine(Some(PairsToMap(ps)), v)], None)
  {
    var line := Render(ps) + " " + num;
    RenderedLineShape(ps, num);
    RenderedLabels(ps);
    TrailingNewlineIgnored(line, parseFloat);
    assert DecodeLine(line + "\n", parseFloat) == Sample(OutputLine(Some(PairsToMap(ps)), v));
    LinesOfLine(line + "\n");
    assert Render(ps) + " " + num + "\n" == line + "\n";
    var x := OutputLine(Some(PairsToMap(ps)), v);
    calc {
      Parse(line + "\n", parseFloat);
      ParseLines([line + "\n"], parseFloat);
      { assert ([line + "\n"])[1..] == []; }
      Prepend([x], ParseLines([], parseFloat));
      Returned([x] + [], None);
      { assert [x] + [] == [x]; }
      Returned([x], None);
    }
  }

  /** The label pair and the value of the sample line below are well formed. */
  lemma SensorPieces()
    ensures Readable(Pair("sensor", "cpu")) && NoSpace("cpu") && NoSpace("42.5")
  {
    assert IsWord("sensor") by {
      forall i | 0 <= i < 6 ensures IsWordChar("sensor"[i]) { }
    }
    assert IsValueText("cpu");
  }

  /** The sample line below is the rendering of its label pair and value. */
  lemma SensorText()
    ensures Render([Pair("sensor", "cpu")]) + " " + "42.5" + "\n" == "sensor=\"cpu\" 42.5\n"
  {
    assert Render([Pair("sensor", "cpu")]) == "sensor=\"cpu\"";
  }

  /** A concrete line of the output format: `sensor="cpu" 42.5`. */
  lemma {:induction false} SensorExample(v: Float64, parseFloat: string -> Option<Float64>)
    requires parseFloat("42.5") == Some(v)
    ensures Parse("sensor=\"cpu\" 42.5\n", parseFloat) == Returned([OutputLine(Some(map["sensor" := "cpu"]), v)], None)
  {
    var ps := [Pair("sensor", "cpu")];
    SensorPieces();
    assert PairsToMap(ps) == map["sensor" := "cpu"] by { assert ps[..0] == []; }
    RenderedLineRoundTrip(ps, "42.5", v, parseFloat);
    SensorText();
  }

  // ---------------------------------------------------------------- the reader and the parser

  /** A `bufio.Reader` over an in-memory input: what has been read so far is `data[..pos]`. */
  class LineReader {
    const data: string
    var pos: nat

    ghost predicate Valid()
      reads this
    {
      pos <= |data|
    }

    constructor (data: string)
      ensures this.data == data && pos == 0 && Valid()
    {
      this.data := data;
      pos := 0;
    }

    /**
     * `ReadString('\n')`: the next line with its newline; `eof` when no
     * newline was found, so the line is the rest of the input (possibly empty).
     */
    method ReadString() returns (line: string, eof: bool)
      requires Valid()
      modifies this
      ensures Valid()
      ensures pos == old(pos) + LineLen(data[old(pos)..])
      ensures line == data[old(pos)..pos]
      ensures eof <==> line == [] || line[|line| - 1] != '\n'
    {
      var n := LineLen(data[pos..]);
      line := data[pos..pos + n];
      pos := pos + n;
      eof := line == [] || line[|line| - 1] != '\n';
    }
  }

  /** One `ReadString` call: the line it returns is the first of the lines left, and the rest follow it. */
  lemma {:induction false} LinesStep(input: string, before: nat, after: nat, line: string)
    requires before < |input| && after == before + LineLen(input[before..]) && line == input[before..after]
    ensures after <= |input| && Lines(input[before..]) == [line] + Lines(input[after..])
  {
    var s := input[before..];
    var n := LineLen(s);
    assert s[..n] == line;
    assert s[n..] == input[after..];
  }

  /** One loop step over a line that yields a sample: it joins the samples read so far. */
  lemma {:induction false} ParseStepSample(lines: Output, line: string, rest: seq<string>, x: OutputLine,
                                           parseFloat: string -> Option<Float64>)
    requires DecodeLine(line, parseFloat) == Sample(x)
    ensures Prepend(lines, ParseLines([line] + rest, parseFloat)) == Prepend(lines + [x], ParseLines(rest, parseFloat))
  {
    assert ([line] + rest)[0] == line && ([line] + rest)[1..] == rest;
    var o := ParseLines(rest, parseFloat);
    if o.Returned? {
      assert lines + ([x] + o.out) == lines + [x] + o.out;
    }
  }

  /**
   * The same step as the loop sees it: the line's fields `vs`, its last
   * field parsed as `v`, and the labels of its first field when there are two
   * or more fields.
   */
  lemma ParseStepFields(lines: Output, line: string, rest: seq<string>, vs: seq<string>, v: Float64,
                        labels: Option<Labels>, parseFloat: string -> Option<Float64>)
    requires vs == Fields(line) && vs != [] && parseFloat(vs[|vs| - 1]) == Some(v)
    requires labels == if |vs| == 1 then None else Some(LabelsOf(vs[0]))
    ensures Prepend(lines, ParseLines([line] + rest, parseFloat))
         == Prepend(lines + [OutputLine(labels, v)], ParseLines(rest, parseFloat))
  {
    ParseStepSample(lines, line, rest, OutputLine(labels, v), parseFloat);
  }

  /** One loop step over a line whose value does not parse: the parse stops with the samples read so far. */
  lemma {:induction false} ParseStepBadValue(lines: Output, line: string, rest: seq<string>, vs: seq<string>,
                                             parseFloat: string -> Option<Float64>)
    requires vs == Fields(line) && vs != [] && parseFloat(vs[|vs| - 1]).None?
    ensures Prepend(lines, ParseLines([line] + rest, parseFloat))
         == Returned(lines, Some(InvalidFloatValue(vs[|vs| - 1])))
  {
    assert ([line] + rest)[0] == line;
    assert lines + [] == lines;
  }

  /** One loop step over a blank line: the parse panics. */
  lemma {:induction false} ParseStepBlank(lines: Output, line: string, rest: seq<string>,
                                          parseFloat: string -> Option<Float64>)
    requires Fields(line) == []
    ensures Prepend(lines, ParseLines([line] + rest, parseFloat)) == IndexOutOfRangePanic
  {
    assert ([line] + rest)[0] == line;
  }

  /**
   * The label block of the parse loop: a fresh map filled from the matches of
   * the label pattern in the first field, then the `type` shorthand.
   */
  method ReadLabels(rawLabels: string) returns (labels: Labels)
    ensures labels == LabelsOf(rawLabels)
  {
    labels := map[];
    var matches := FindAll(rawLabels);
    var i := 0;
    while i < |matches|
      invariant 0 <= i <= |matches|
      invariant labels == PairsToMap(matches[..i])
    {
      PairsToMapExtend(matches, i);
      labels := labels[matches[i].key := matches[i].value];
      i := i + 1;
    }
    assert matches[..|matches|] == matches;
    if |matches| == 0 && !ContainsAny(rawLabels, "=,") {
      labels := labels["type" := rawLabels];
    }
  }

  /**
   * `ParseReader`: reads the input line by line and appends one sample per
   * line. On a bad value it returns the samples so far with the error; on a
   * blank line it panics.
   */
  method ParseReader(input: string, parseFloat: string -> Option<Float64>) returns (outcome: Outcome)
    ensures outcome == Parse(input, parseFloat)
    ensures input == [] ==> outcome == Returned([], None) && outcome != Returned(NaNOutput, None)
  {
    var rr := new LineReader(input);
    var lines: Output := [];
    ghost var unread := Lines(input);
    ghost var whole := Parse(input, parseFloat);
    assert input[0..] == input;
    while true
      invariant rr.data == input && rr.Valid()
      invariant unread == Lines(input[rr.pos..])
      invariant whole == Prepend(lines, ParseLines(unread, parseFloat))
      decreases |input| - rr.pos
    {
      ghost var before := rr.pos;
      var line, eof := rr.ReadString();
      if line == "" && eof {
        assert input[before..] == [];
        break;
      }
      LinesStep(input, before, rr.pos, line);
      ghost var rest := Lines(input[rr.pos..]);
      assert unread == [line] + rest;

      var vs := Fields(line);
      if |vs| == 0 {
        ParseStepBlank(lines, line, rest, parseFloat);
        return IndexOutOfRangePanic;
      }
      var parsed := parseFloat(vs[|vs| - 1]);
      if parsed.None? {
        ParseStepBadValue(lines, line, rest, vs, parseFloat);
        return Returned(lines, Some(InvalidFloatValue(vs[|vs| - 1])));
      }
      var metricValue := parsed.value;
      if |vs| == 1 {
        ParseStepFields(lines, line, rest, vs, metricValue, None, parseFloat);
        lines := lines + [OutputLine(None, metricValue)];
        unread := rest;
        continue;
      }

      var labels := ReadLabels(vs[0]);
      ParseStepFields(lines, line, rest, vs, metricValue, Some(labels), parseFloat);
      lines := lines + [OutputLine(Some(labels), metricValue)];
      unread := rest;
    }
    assert unread == [];
    assert lines + [] == lines;
    outcome := Returned(lines, None);
  }
}
