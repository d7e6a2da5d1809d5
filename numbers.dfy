/** Python's round(x, 3) on the exact value of a float, and the decimal
    literals float() reads from a CSV cell. */
module Numbers {
  import opened Wrappers
  import opened Dates

  /** The integer nearest to y, ties going to the even neighbour (Python's round). */
  function RoundHalfEven(y: real): (k: int)
    ensures y - 0.5 <= k as real <= y + 0.5
  {
    var f := y.Floor;
    var frac := y - f as real;
    if frac < 0.5 then f
    else if frac > 0.5 then f + 1
    else if f % 2 == 0 then f
    else f + 1
  }

  /** round(x, 3): the nearest multiple of 0.001, ties to the even multiple. */
  function Round3(x: real): (r: real)
    ensures x - 0.0005 <= r <= x + 0.0005
    ensures (r * 1000.0).Floor as real == r * 1000.0
  {
    var k := RoundHalfEven(x * 1000.0);
    assert (k as real / 1000.0) * 1000.0 == k as real;
    k as real / 1000.0
  }

  lemma {:induction false} RoundHalfEvenOdd(y: real)
    ensures RoundHalfEven(-y) == -RoundHalfEven(y)
  {
    var f := y.Floor;
    var frac := y - f as real;
    if frac == 0.0 {
      assert (-y).Floor == -f;
    } else {
      assert (-y).Floor == -f - 1;
      assert -y - (-f - 1) as real == 1.0 - frac;
    }
  }

  /** Rounding commutes with negation, so rain_def_z = -rain_z survives rounding. */
  lemma Round3Odd(x: real)
    ensures Round3(-x) == -Round3(x)
  {
    RoundHalfEvenOdd(x * 1000.0);
    assert -x * 1000.0 == -(x * 1000.0);
  }

  lemma RoundHalfEvenInt(k: int)
    ensures RoundHalfEven(k as real) == k
  {
  }

  /** Rounding a value that is already rounded changes nothing: the query layer
      re-rounds the snapshot's rounded values without altering them. */
  lemma Round3Idempotent(x: real)
    ensures Round3(Round3(x)) == Round3(x)
  {
    var k := RoundHalfEven(x * 1000.0);
    assert Round3(x) * 1000.0 == k as real;
    RoundHalfEvenInt(k);
  }

  lemma {:induction false} RoundHalfEvenMonotone(a: real, b: real)
    requires a <= b
    ensures RoundHalfEven(a) <= RoundHalfEven(b)
  {
  }

  /** Rounding preserves order, so sorting by rounded ASI agrees with sorting by ASI
      up to ties. */
  lemma Round3Monotone(a: real, b: real)
    requires a <= b
    ensures Round3(a) <= Round3(b)
  {
    RoundHalfEvenMonotone(a * 1000.0, b * 1000.0);
  }

  /** The value of the decimal digits after a point: "25" is 0.25. */
  function FractionValue(s: string): real
    requires AllDigits(s)
  {
    DigitsValue(s) as real / Pow10(|s|) as real
  }

  /** An unsigned decimal: digits, optionally a point and more digits, with at
      least one digit in all ("7", "7.", ".5", "7.25"). */
  function ParseUnsigned(s: string): Option<real>
  {
    if AllDigits(s) then
      if s == [] then None else Some(DigitsValue(s) as real)
    else if '.' in s then
      var i := IndexOfPoint(s);
      var ip, fp := s[..i], s[i + 1..];
      if AllDigits(ip) && AllDigits(fp) && |ip| + |fp| > 0 then
        Some(DigitsValue(ip) as real + FractionValue(fp))
      else None
    else None
  }

  function IndexOfPoint(s: string): (i: nat)
    requires '.' in s
    ensures i < |s| && s[i] == '.' && '.' !in s[..i]
  {
    if s[0] == '.' then 0 else IndexOfPoint(s[1..]) + 1
  }

  /** float(s) for a plain decimal literal with an optional sign; None where float()
      would raise. */
  function ParseDecimal(s: string): (r: Option<real>)
  {
    if |s| > 0 && s[0] == '-' then
      match ParseUnsigned(s[1..])
      case Some(v) => Some(-v)
      case None => None
    else if |s| > 0 && s[0] == '+' then ParseUnsigned(s[1..])
    else ParseUnsigned(s)
  }

  /** A written-out whole number is read back as its value, and with a leading
      minus sign as its negation. */
  lemma ParseDecimalDigits(n: nat, width: nat)
    requires 0 < width && n < Pow10(width)
    ensures ParseDecimal(Pad(n, width)) == Some(n as real)
    ensures ParseDecimal("-" + Pad(n, width)) == Some(-(n as real))
  {
    DigitsValuePad(n, width);
    var p := Pad(n, width);
    assert ("-" + p)[1..] == p;
  }
}
