/**
 * The battery probe: choose a battery from what the ACPI lookup reports and
 * classify its charging status as a code.
 */
module Battery {
  import opened Wrappers
  import opened Strings

  /** The fields of an ACPI battery record that the probe reads. */
  datatype BatteryInformation = BatteryInformation(level: int, status: string)

  datatype BatteryError = CannotGetBatteryLevel(cause: string) | NoBatteryDetected

  /**
   * `retrieveBattery`, given what the ACPI lookup returned: its error is
   * passed on, an empty list is an error, and otherwise the first battery is
   * used, however many there are.
   */
  function RetrieveBattery(lookup: Result<seq<BatteryInformation>, string>): (r: Result<BatteryInformation, BatteryError>)
    ensures r.Ok? <==> lookup.Ok? && lookup.value != []
    ensures r.Ok? ==> r.value == lookup.value[0]
    ensures lookup.Err? ==> r == Err(CannotGetBatteryLevel(lookup.error))
    ensures lookup == Ok([]) ==> r == Err(NoBatteryDetected)
  {
    match lookup
    case Err(e) => Err(CannotGetBatteryLevel(e))
    case Ok(batteries) =>
      if |batteries| == 0 then Err(NoBatteryDetected) else Ok(batteries[0])
  }

  /** The gauge value of the status: a code, or NaN (unavailable) when no battery could be read. */
  datatype StatusReading = Code(code: nat) | Unavailable

  /** The `switch` on a lower-cased status: 1 charging, 2 discharging, 3 not charging, 0 otherwise. */
  function StatusCode(lowered: string): (code: nat)
    ensures code <= 3
  {
    if lowered == "charging" then 1
    else if lowered == "discharging" then 2
    else if lowered == "not charging" then 3
    else 0
  }

  /** `batteryStatus`: the code of the selected battery's status, matched without regard to case. */
  function BatteryStatus(lookup: Result<seq<BatteryInformation>, string>): (r: StatusReading)
    ensures r.Unavailable? <==> RetrieveBattery(lookup).Err?
    ensures r.Code? ==> r.code <= 3
  {
    match RetrieveBattery(lookup)
    case Err(_) => Unavailable
    case Ok(b) => Code(StatusCode(ToLower(b.status)))
  }

  /** The three status texts the probe compares against are lower-case ASCII. */
  lemma StatusTextsAreLower()
    ensures IsLowerAscii("charging") && IsLowerAscii("discharging") && IsLowerAscii("not charging")
  {
    assert forall i | 0 <= i < 8 :: "charging"[i] < '\U{80}' && !('A' <= "charging"[i] <= 'Z');
    assert forall i | 0 <= i < 11 :: "discharging"[i] < '\U{80}' && !('A' <= "discharging"[i] <= 'Z');
    assert forall i | 0 <= i < 12 :: "not charging"[i] < '\U{80}' && !('A' <= "not charging"[i] <= 'Z');
  }

  /**
   * Each code stands for exactly one status text, whatever its case, and 0
   * for every other status.
   */
  lemma {:induction false} BatteryStatusMeaning(b: BatteryInformation, rest: seq<BatteryInformation>)
    ensures BatteryStatus(Ok([b] + rest)) == Code(1) <==> EqualUpToCase(b.status, "charging")
    ensures BatteryStatus(Ok([b] + rest)) == Code(2) <==> EqualUpToCase(b.status, "discharging")
    ensures BatteryStatus(Ok([b] + rest)) == Code(3) <==> EqualUpToCase(b.status, "not charging")
    ensures BatteryStatus(Ok([b] + rest)) == Code(0) <==>
      !EqualUpToCase(b.status, "charging") && !EqualUpToCase(b.status, "discharging")
      && !EqualUpToCase(b.status, "not charging")
  {
    assert ([b] + rest)[0] == b;
    StatusTextsAreLower();
    ToLowerMatches(b.status, "charging");
    ToLowerMatches(b.status, "discharging");
    ToLowerMatches(b.status, "not charging");
  }

  /** Case does not matter: a status and its lower-cased form give the same code. */
  lemma {:induction false} BatteryStatusIgnoresCase(b: BatteryInformation, rest: seq<BatteryInformation>)
    ensures BatteryStatus(Ok([b] + rest)) == BatteryStatus(Ok([b.(status := ToLower(b.status))] + rest))
  {
    ToLowerIdempotent(b.status);
    assert ([b] + rest)[0] == b;
    assert ([b.(status := ToLower(b.status))] + rest)[0] == b.(status := ToLower(b.status));
  }

  /** The status texts ACPI reports, in the capitalisation it uses. */
  lemma {:induction false} AcpiChargingStatuses(level: int)
    ensures BatteryStatus(Ok([BatteryInformation(level, "Charging")])) == Code(1)
    ensures BatteryStatus(Ok([BatteryInformation(level, "Discharging")])) == Code(2)
  {
    assert ToLower("Charging") == "charging" by {
      assert forall i | 0 <= i < 8 :: ToLower("Charging")[i] == "charging"[i];
    }
    assert ToLower("Discharging") == "discharging" by {
      assert forall i | 0 <= i < 11 :: ToLower("Discharging")[i] == "discharging"[i];
    }
  }

  lemma {:induction false} AcpiOtherStatuses(level: int)
    ensures BatteryStatus(Ok([BatteryInformation(level, "Not charging")])) == Code(3)
    ensures BatteryStatus(Ok([BatteryInformation(level, "Full")])) == Code(0)
  {
    assert ToLower("Not charging") == "not charging" by {
      assert forall i | 0 <= i < 12 :: ToLower("Not charging")[i] == "not charging"[i];
    }
    assert ToLower("Full")[0] == 'f';
  }
}
