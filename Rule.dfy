/** The metric type of a rule and its decoding from configuration text. */
module Rule {
  import opened Wrappers

  newtype byte = x: int | 0 <= x < 256

  /** `RuleType` is a Go `int`, modelled as 64 bits; only 0 and 1 are ever stored. */
  newtype RuleType = x: int | -0x8000_0000_0000_0000 <= x < 0x8000_0000_0000_0000

  /** The two constants of the enumeration, numbered from zero in declaration order. */
  const Counter: RuleType := 0
  const Gauge: RuleType := 1

  /** The ASCII bytes of `counter` and `gauge`. */
  const CounterText: seq<byte> := [0x63, 0x6F, 0x75, 0x6E, 0x74, 0x65, 0x72]
  const GaugeText: seq<byte> := [0x67, 0x61, 0x75, 0x67, 0x65]

  /** The error `invalid RuleType %q`, carrying the rejected text. */
  datatype DecodeError = InvalidRuleType(text: seq<byte>)

  /** The configuration text of each metric type. */
  function Name(t: RuleType): (b: seq<byte>)
    requires t == Counter || t == Gauge
  {
    if t == Counter then CounterText else GaugeText
  }

  /** The text-to-type mapping of the decoder: exact, case-sensitive matches only. */
  function DecodeRuleType(data: seq<byte>): (r: Result<RuleType, DecodeError>)
    ensures r.Ok? ==> r.value == Counter || r.value == Gauge
    ensures r.Err? ==> r.error == InvalidRuleType(data)
  {
    if data == CounterText then Ok(Counter)
    else if data == GaugeText then Ok(Gauge)
    else Err(InvalidRuleType(data))
  }

  /**
   * Decoding is the inverse of naming: each type's name decodes to that type,
   * and text decodes successfully only when it is one of the two names.
   */
  lemma {:induction false} DecodeRuleTypeInvertsName(data: seq<byte>)
    ensures Name(Counter) != Name(Gauge)
    ensures DecodeRuleType(Name(Counter)) == Ok(Counter) && DecodeRuleType(Name(Gauge)) == Ok(Gauge)
    ensures DecodeRuleType(data).Ok? <==> data == Name(Counter) || data == Name(Gauge)
    ensures DecodeRuleType(data).Ok? ==> Name(DecodeRuleType(data).value) == data
  {
  }

  /** Matching is case-sensitive: `Counter`, `COUNTER`, `Gauge` and `GAUGE` are rejected. */
  lemma DecodeRuleTypeIsCaseSensitive()
    ensures DecodeRuleType([0x43, 0x6F, 0x75, 0x6E, 0x74, 0x65, 0x72]).Err?
    ensures DecodeRuleType([0x43, 0x4F, 0x55, 0x4E, 0x54, 0x45, 0x52]).Err?
    ensures DecodeRuleType([0x47, 0x61, 0x75, 0x67, 0x65]).Err?
    ensures DecodeRuleType([0x47, 0x41, 0x55, 0x47, 0x45]).Err?
  {
  }

  /** The variable a `*RuleType` receiver points to. */
  class RuleTypeVar {
    var value: RuleType

    constructor (v: RuleType)
      ensures value == v
    {
      value := v;
    }

    /**
     * `(*RuleType).TextUnmarshaler`: stores the decoded type on success; on
     * error returns it and leaves the variable as it was.
     */
    method TextUnmarshaler(data: seq<byte>) returns (err: Option<DecodeError>)
      modifies this
      ensures DecodeRuleType(data).Ok? ==> err == None && value == DecodeRuleType(data).value
      ensures DecodeRuleType(data).Err? ==> err == Some(DecodeRuleType(data).error) && value == old(value)
    {
      var str := data;
      if str == CounterText {
        value := Counter;
      } else if str == GaugeText {
        value := Gauge;
      } else {
        return Some(InvalidRuleType(str));
      }
      return None;
    }
  }
}
