# mini-metric: the output parser, the rule type and the battery probe

mini-metric is a small Prometheus exporter. Each configured rule runs a shell
command or reads a file, and its handler reduces the result to one float64:
the handlers trim the whole output and parse it as a single number
(handler.go:67-68 and handler.go:97-98). The line-oriented parser `ParseReader`
in output.go, for output with several labelled samples, is called neither
from handler.go nor from main.go or rule.go. This project models three parts
of the system in Dafny:

- **The output parser** (`ParseReader`, output.go).
  - The input is read line by line, the way `bufio.Reader.ReadString('\n')` returns lines.
  - Each line is split into white-space separated fields, as `strings.Fields` does.
  - The last field is the float value.
  - The first field, when a line has two or more, is the label segment.
    Its labels are the `key="value"` pairs matched by the pattern
    `(?:(\w+?)="(.*?)"[,\s]?)+?`.
    A bare word with no `=` and no `,` becomes the single label `type`.
- **The rule type** (`RuleType` and `TextUnmarshaler`, rule.go).
  Configuration text `counter` or `gauge` is decoded into one of the two metric types.
- **The battery probe** (`retrieveBattery` and `batteryStatus`, main.go).
  It picks a battery from the ACPI lookup and maps its lower-cased charging status to a code from 0 to 3.

Module layout:

- `Wrappers`: `Option` and `Result`.
- `Strings`: the parts of Go's `strings` package the core relies on.
  - `Fields`, over `unicode.IsSpace`.
  - `ContainsAny`.
  - `ToLower`.
- `LabelPattern`: the label regular expression written out as a scanner.
  - `MatchAt`: the match that starts at a given position.
  - `FindAll`: the equivalent of `FindAllStringSubmatch`.
  - `IsScan`: an independent description of a leftmost-first search, which `FindAll` is proved to meet.
- `Output`: the parser, in two forms, over two functions that say what the source's loop body does.
  - `DecodeLine` is one line (output.go:56-101). It gives a blank line, a bad value or a sample.
  - `LabelsOf` is one label segment (output.go:80-96). Its map holds the pattern's matches, last key wins, plus `type` = segment when nothing matched and the segment holds no `=` or `,`.
  - `Parse` is the specification function. It decodes the lines one at a time and stops at the first blank line or bad value.
  - `ParseReader` is the imperative loop. It runs over a `LineReader` object whose read position advances.
  - `ParseReader` is proved to return exactly `Parse(input)`. The lemmas on `Parse` then state what the format promises.
- `Rule`: `RuleType` is a Go `int`, modelled as a 64-bit integer newtype; only 0 and 1 are ever stored. A `RuleTypeVar` class holds the variable a `*RuleType` receiver updates.
- `Battery`: `RetrieveBattery` and `BatteryStatus`, written as functions of the ACPI lookup's result.

Some Go library calls become inputs to the model:

- `strconv.ParseFloat` is a function parameter `parseFloat: string -> Option<Float64>`.
- A `Float64` is an IEEE-754 bit pattern that the model carries but never computes with.
- The ACPI lookup `acpi.Battery()` is a `Result` parameter.
- The reader is an in-memory string.

The format comment at output.go:17-19 describes a line as
`([label1="value1",label2="value2"]|value) floatValue`. The code does more
than that comment says, and the model follows the code:

- **Partial results.** A value that does not parse stops the parse. The samples
  read before the bad line are still returned, together with the error
  (output.go:65). They are not discarded.
- **Blank lines.** A line that is empty or all white space has no fields.
  `vs[len(vs)-1]` then indexes out of range and the goroutine panics
  (output.go:62). The model makes this a separate outcome,
  `IndexOutOfRangePanic`, and proves exactly when it happens.
- **Fields between the first and the last.** Only the first field is read as the
  label segment (output.go:80). Fields between it and the last field are ignored,
  with only a warning (output.go:57-59).
- **The EOF check at output.go:103 never fires.** By that point `err` holds
  the result of `ParseFloat`, which is `nil`. A final line without a newline
  therefore ends the loop one `ReadString` later, when that call returns `""`
  with `io.EOF` (output.go:45). The observable result is the same, which
  `FinalLineWithoutNewline` states.
- The parser's `strings.TrimSpace` on the last field (output.go:62) changes
  nothing, because a field holds no white space. The model leaves it out.

## Model

| member | source | states |
|---|---|---|
| Output.Parse | output.go:34-112 | the whole input is split into the lines `ReadString('\n')` returns and those are parsed in order; what it returns is pinned down by ParseLinesPrefix, ParseLinesComplete, ParseLinesStopsAtBadValue, BlankLinePanics, PanicAtBlankLine and FinalLineWithoutNewline |
| Output.ParseLines | output.go:41-111 | line by line: a blank line ends in the panic, a bad value ends with no samples of its own and the error naming it, a sample is put before the samples of the lines after it (see ParseLinesPrefix, ParseLinesComplete, ParseLinesStopsAtBadValue) |
| Output.DecodeLine | output.go:56-101 | no field gives BlankLine (the panic); a last field that does not parse gives BadValue naming it; otherwise a sample, with nil labels for one field and `LabelsOf(vs[0])` otherwise (see BlankLineIsWhiteSpace, TrailingNewlineIgnored, SingleFieldLine, MiddleFieldsIgnored) |
| Output.LabelsOf | output.go:80-96 | the map of the pattern's matches in the first field, later keys overwriting earlier ones, plus `type` = field when nothing matched and the field holds no `=` or `,` (see PairsToMapLastWins, LabelsOfCases) |
| Output.ParseReader | output.go:34-112 | the read loop returns exactly the line-by-line parse `Parse(input)`; empty input gives zero samples and no error, which is not the NaN sentinel |
| Output.LineReader.constructor | output.go:35 | a new reader is positioned at the start of its input |
| Output.LineReader.ReadString | output.go:43 | returns the text up to and including the first newline, or the rest of the input; advances past it; reports EOF exactly when no newline ended the line |
| Output.ReadLabels | output.go:80-96 | the label map is the matches written in order, later keys overwriting earlier ones, plus `type` = field when nothing matched and the field holds no `=` or `,` |
| Output.LinesConcat | output.go:41-48 | the successive lines the reader returns, put back together, are the whole input |
| Output.LinesShape | output.go:43 | every line read is non-empty, holds a newline only as its last rune, and all but the last end with a newline |
| Output.LinesAppend | output.go:41-48 | text that ends at a line break is split into the same lines whatever follows it |
| Output.LinesOfLine | output.go:43-45 | a single line, with or without its newline, is read in one piece |
| Output.PairsToMapLastWins | output.go:86-92 | the label keys are exactly the matched keys, and each key holds the value of its last match |
| Output.LabelsOfCases | output.go:84-96 | matched pairs give their map; a field without `=` or `,` gives exactly `{type: field}`; a field with `=` or `,` but no match gives an empty map |
| Output.BlankLineIsWhiteSpace | output.go:56-62 | a line has no field to index (the panic case) exactly when it is all white space |
| Output.TrailingNewlineIgnored | output.go:43-56 | a line decodes the same with and without its newline |
| Output.SingleFieldLine | output.go:70-77 | a one-field line gives an unlabelled sample holding that field's value |
| Output.MiddleFieldsIgnored | output.go:56-80 | only the first and the last field of a line count; fields between them change nothing |
| Output.ParseLinesPrefix | output.go:41-101 | whatever is returned is one sample per line for the leading lines, in line order |
| Output.ParseLinesComplete | output.go:41-111 | the parse ends without error exactly when every line yields a sample, and then it returns one sample per line |
| Output.ParseLinesStopsAtBadValue | output.go:62-66 | an error names the value of the first line that does not parse, and the samples of every line before it are kept |
| Output.BlankLinePanics | output.go:56-62 | a blank line reached after only samples makes the parser panic |
| Output.PanicAtBlankLine | output.go:56-62 | a panic happens only at a blank line that follows only samples |
| Output.FinalLineWithoutNewline | output.go:43-48 | a final line without its newline is parsed exactly as if it had one |
| Output.RenderedLineRoundTrip | output.go:56-101 | a line `key1="v1",key2="v2" <value>\n` parses to one sample with those labels (last value per key) and that value |
| Output.SensorExample | output.go:17-18 | the line `sensor="cpu" 42.5` parses to one sample labelled sensor=cpu with value 42.5 |
| LabelPattern.MatchAt | output.go:32 | the match starting at the first rune: the whole run of word runes as key, then `="`, the value up to the first `"` (no newline), the closing `"`, and one `,` or white-space rune when one follows; None when any part is missing (see MatchAtShape, MatchAtPairText, FindAllWithoutEquals) |
| LabelPattern.MatchAtShape | output.go:32 | a match is a non-empty word key, `="`, a value without quotes or newlines, `"`, then at most one `,` or white-space separator, and its text stands at the start of the input |
| LabelPattern.FindAll | output.go:84 | every match has a non-empty word key and a value without quotes or newlines |
| LabelPattern.FindAllScan | output.go:84 | the pairs found are matches of the pattern at increasing, non-overlapping positions of the text, and no match starts anywhere outside them (leftmost-first search) |
| LabelPattern.MatchedTexts | output.go:84 | the `key="value"` text of every pair found stands in the text at its match's position |
| LabelPattern.FindAllWithoutEquals | output.go:32 | text without `=` has no match |
| LabelPattern.MatchAtPairText | output.go:32 | a readable pair is matched at the start of its own text, and the next rune is taken along exactly when it is `,` or white space |
| LabelPattern.FindAllPairText | output.go:84 | a readable pair's text is read as that pair, and the search resumes after its separator |
| LabelPattern.FindAllRender | output.go:84 | reading back pairs written as `k1="v1",k2="v2"` gives the same pairs in the same order |
| Strings.ContainsAny | output.go:94 | true exactly when some rune of the text is one of the given runes; with `"=,"` it decides the `type` shorthand (see LabelsOfCases) |
| Strings.Fields | output.go:56 | every field is non-empty and holds no white space |
| Strings.FieldsEmptyIffBlank | output.go:56 | a text has no field exactly when it is all white space |
| Strings.FieldsSplitAtSpace | output.go:56 | a white-space rune separates the fields on its two sides |
| Strings.FieldsOfJoinWords | output.go:56 | splitting words joined by spaces gives back the words |
| Strings.ToLower | main.go:51 | lower-cases rune by rune and keeps the length (see ToLowerMatches, ToLowerIdempotent) |
| Strings.ToLowerRune | main.go:51 | a lowered rune is the same letter up to case and is never an ASCII capital, U+0130 or U+212A; every rune other than those capitals is kept |
| Strings.ToLowerMatches | main.go:51 | lower-casing gives a lower-case ASCII text exactly when the input is that text up to case (ASCII capitals, and U+0130/U+212A for `i`/`k`) |
| Strings.ToLowerIdempotent | main.go:51 | lower-casing twice is lower-casing once |
| Rule.DecodeRuleType | rule.go:19-29 | success yields Counter or Gauge; failure is `invalid RuleType` carrying the rejected text |
| Rule.DecodeRuleTypeInvertsName | rule.go:14-29 | `counter` decodes to Counter and `gauge` to Gauge, those are the only texts accepted, and decoding inverts naming |
| Rule.DecodeRuleTypeIsCaseSensitive | rule.go:22-28 | `Counter`, `COUNTER`, `Gauge` and `GAUGE` are rejected |
| Rule.RuleTypeVar.TextUnmarshaler | rule.go:19-32 | on success stores the decoded type and returns no error; on failure returns the error and leaves the variable unchanged |
| Battery.RetrieveBattery | main.go:19-32 | a lookup error is passed on as `cannot get battery level`; an empty list is `no battery detected`; otherwise the first battery is chosen, however many there are |
| Battery.StatusCode | main.go:53-62 | the code is between 0 and 3 |
| Battery.BatteryStatus | main.go:44-63 | the reading is NaN (unavailable) exactly when no battery could be retrieved, and otherwise a code from 0 to 3 |
| Battery.BatteryStatusMeaning | main.go:51-62 | codes 1, 2 and 3 stand exactly for statuses equal up to case to `charging`, `discharging` and `not charging`, and 0 for every other status |
| Battery.BatteryStatusIgnoresCase | main.go:51 | a status and its lower-cased form give the same code |
| Battery.AcpiChargingStatuses | main.go:51-57 | the ACPI texts `Charging` and `Discharging` give codes 1 and 2 |
| Battery.AcpiOtherStatuses | main.go:51-61 | `Not charging` gives 3 and `Full` gives 0 |

## Left out

- The random parse id and the `slog` debug and warning messages of `ParseReader` are not modelled; they do not change the result.
- The `log.Println` messages of `retrieveBattery`, `batteryPercent` and `batteryStatus` (main.go:28, main.go:37, main.go:47) are not modelled; they do not change the result.
- Read errors other than `io.EOF` (output.go:50-53) are not modelled. The reader is an in-memory string, which cannot fail.
- `strconv.ParseFloat` is a parameter, not a model. IEEE-754 parsing and rounding are out of scope.
- `\w`, `\s` and `.` are modelled on runes. Invalid UTF-8 input and the rest of the RE2 engine are not modelled.
- The panic on a blank line is a value of the outcome type, not a crash of the process.
- Strings.ToLowerRune: it lower-cases ASCII capitals, U+0130 and U+212A and keeps every other rune. Go's mappings between two non-ASCII runes are left out, because they cannot make a status equal to one of the ASCII texts the probe compares against.
- `batteryPercent` (main.go:34-42) is left out. It only divides the level by 100 as a float.
- The ACPI lookup, `main`, the HTTP handler, the flags, the TOML configuration and the Prometheus registry are left out. They are I/O and library calls.
- handler.go is not part of this model. Its shell and file handlers start processes and read files, and they parse the trimmed output as one float64 rather than through `ParseReader`.
- `httpMetricHandler`, which sets each collector from the handler's samples (main.go:143-155), is not part of this model. It is Prometheus library and HTTP work.
- The `Rule` record's other fields are left out, and so is the claim that the method name `TextUnmarshaler` makes Go's TOML decoder call it. The decoder looks for `UnmarshalText`, so the model covers only the method's own behaviour.
