/**
 * Timestamps.  The system reads the clock with `datetime.now()`; here the
 * current time is always a parameter, and only its textual forms are modelled.
 */
module Clock {
  import opened Wrappers
  import opened Text

  datatype DateTime = DateTime(year: nat, month: nat, day: nat, hour: nat, minute: nat, second: nat, microsecond: nat)

  predicate ValidDateTime(t: DateTime) {
    1 <= t.year <= 9999 && 1 <= t.month <= 12 && 1 <= t.day <= 31
    && t.hour < 24 && t.minute < 60 && t.second < 60 && t.microsecond < 1000000
  }

  /** `n` in decimal, left-padded with zeros to `width` digits. */
  function ZeroPad(n: nat, width: nat): (r: string)
    ensures |r| >= width
    ensures IsDigits(r)
    ensures ParseNat(r) == Some(n)
    decreases width
  {
    var s := NatToString(n);
    if |s| >= width then
      ParseNatToString(n);
      s
    else
      var r := "0" + ZeroPad(n, width - 1);
      assert r[1..] == ZeroPad(n, width - 1);
      DigitsValueLeadingZero(ZeroPad(n, width - 1));
      r
  }

  lemma {:induction false} DigitsValueLeadingZero(s: string)
    requires IsDigits(s)
    ensures IsDigits("0" + s) && DigitsValue("0" + s) == DigitsValue(s)
    decreases |s|
  {
    var t := "0" + s;
    if |s| > 1 {
      assert t[..|t| - 1] == "0" + s[..|s| - 1];
      DigitsValueLeadingZero(s[..|s| - 1]);
    } else {
      assert t[..|t| - 1] == "0";
      assert s[..|s| - 1] == [];
    }
  }

  /** `t.isoformat()`: `YYYY-MM-DDTHH:MM:SS`, plus `.ffffff` when there are microseconds. */
  function IsoFormat(t: DateTime): (r: string)
    ensures StartsWith(r, ZeroPad(t.year, 4) + "-")
  {
    var head := ZeroPad(t.year, 4) + "-";
    var time := ZeroPad(t.month, 2) + "-" + ZeroPad(t.day, 2)
      + "T" + ZeroPad(t.hour, 2) + ":" + ZeroPad(t.minute, 2) + ":" + ZeroPad(t.second, 2);
    var tail := if t.microsecond == 0 then time else time + "." + ZeroPad(t.microsecond, 6);
    var r := head + tail;
    assert r[..|head|] == head;
    r
  }

  /** `t.strftime('%Y-%m-%d-%H%M%S')` */
  function StampFormat(t: DateTime): string {
    ZeroPad(t.year, 4) + "-" + ZeroPad(t.month, 2) + "-" + ZeroPad(t.day, 2)
      + "-" + ZeroPad(t.hour, 2) + ZeroPad(t.minute, 2) + ZeroPad(t.second, 2)
  }
}
