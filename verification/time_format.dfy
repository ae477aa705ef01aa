/** `_format_time`, which renders a segment time in seconds as `MM:SS`. The two
    processor variants define it identically. Times are Python floats; the model
    uses reals, so rounding of the float operations is not modelled. */
module TimeFormat {
  import opened Common
  import opened Strings

  /** `f"{n:02d}"`: zero padded to width two. A negative number already has
      width two or more with its sign, so it is never padded. */
  function Pad2(n: int): (r: string)
    ensures 0 <= n < 100 ==> |r| == 2 && IsDigit(r[0]) && IsDigit(r[1])
  {
    if n < 0 then "-" + NatToString(-n)
    else if n < 10 then "0" + NatToString(n)
    else NatToString(n)
  }

  /** `int(seconds // 60)`: Python's `//` on floats rounds towards minus infinity. */
  function Minutes(seconds: real): int {
    (seconds / 60.0).Floor
  }

  /** `int(seconds % 60)`: Python's `%` takes the sign of the divisor, so the
      remainder lies in [0, 60) and `int` of it is its floor. */
  function SecondsField(seconds: real): (s: int)
    ensures 0 <= s < 60
  {
    (seconds - 60.0 * Minutes(seconds) as real).Floor
  }

  /** `_format_time(seconds)`. */
  function FormatTime(seconds: real): (r: string)
    ensures 0.0 <= seconds < 6000.0 ==> |r| == 5 && r[2] == ':'
  {
    Pad2(Minutes(seconds)) + ":" + Pad2(SecondsField(seconds))
  }

  /** A rendered clock read back as (minutes, seconds), when it has the
      `<digits>:<two digits>` shape. */
  function ParseClock(r: string): Option<(nat, nat)> {
    if |r| >= 4 && r[|r| - 3] == ':'
       && (forall i :: 0 <= i < |r| - 3 ==> IsDigit(r[i]))
       && IsDigit(r[|r| - 2]) && IsDigit(r[|r| - 1])
    then Some((ParseNat(r[..|r| - 3]), ParseNat(r[|r| - 2..])))
    else None
  }

  /** For a non-negative time the two fields are the whole minutes and the
      leftover whole seconds of the time truncated to a whole second. */
  lemma FieldsOfTime(seconds: real)
    requires seconds >= 0.0
    ensures Minutes(seconds) == seconds.Floor / 60
    ensures SecondsField(seconds) == seconds.Floor % 60
  {
    var f := seconds.Floor;
    var m := Minutes(seconds);
    var q, rem := f / 60, f % 60;
    assert f == 60 * q + rem;
    assert q as real <= seconds / 60.0 by {
      assert (60 * q) as real <= f as real <= seconds;
    }
    assert seconds / 60.0 < (q + 1) as real by {
      assert seconds < (f + 1) as real <= (60 * (q + 1)) as real;
    }
    assert m == q;
    var x := seconds - 60.0 * m as real;
    assert (rem as real) <= x < (rem + 1) as real by {
      assert f as real <= seconds < (f + 1) as real;
      assert (60 * m) as real == 60.0 * m as real;
    }
  }

  /** Reading back the rendered `MM:SS` gives the whole minutes and the seconds
      within the minute, for every non-negative time; the seconds field always
      has two digits and is below 60. */
  lemma {:induction false} FormatTimeRoundTrip(seconds: real)
    requires seconds >= 0.0
    ensures ParseClock(FormatTime(seconds)) == Some((seconds.Floor / 60, seconds.Floor % 60))
  {
    FieldsOfTime(seconds);
    var m := Minutes(seconds);
    var s := SecondsField(seconds);
    var r := FormatTime(seconds);
    var pm := Pad2(m);
    var ps := Pad2(s);
    assert r == pm + ":" + ps;
    Pad2Value(m);
    Pad2Value(s);
    assert r[..|r| - 3] == pm;
    assert r[|r| - 2..] == ps;
  }

  /** A padded non-negative number is all digits and reads back as itself. */
  lemma Pad2Value(n: int)
    requires n >= 0
    ensures |Pad2(n)| >= 1
    ensures forall i :: 0 <= i < |Pad2(n)| ==> IsDigit(Pad2(n)[i])
    ensures ParseNat(Pad2(n)) == n
  {
    ParseNatToString(n);
    if n < 10 {
      ParseNatLeadingZero(NatToString(n));
    }
  }
}
