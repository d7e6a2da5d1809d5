/** Calendar months and the two date-string forms the system reads and writes:
    the ISO 8601 calendar date in extended form `YYYY-MM-DD` (section 4.1.2.2 of
    ISO 8601:2004) and its reduced-accuracy month form `YYYY-MM` (section 4.1.2.3). */
module Dates {
  import opened Wrappers

  predicate IsDigit(c: char) { '0' <= c <= '9' }

  predicate AllDigits(s: string) { forall i :: 0 <= i < |s| ==> IsDigit(s[i]) }

  function Pow10(k: nat): (r: nat)
    ensures r >= 1
  {
    if k == 0 then 1 else 10 * Pow10(k - 1)
  }

  /** The number a string of decimal digits denotes (most significant digit first). */
  function DigitsValue(s: string): (n: nat)
    requires AllDigits(s)
    ensures n < Pow10(|s|)
  {
    if s == [] then 0
    else DigitsValue(s[..|s| - 1]) * 10 + (s[|s| - 1] as int - '0' as int)
  }

  /** The low `width` decimal digits of n, zero-padded (strftime's %Y and %m). */
  function Pad(n: nat, width: nat): (r: string)
    ensures |r| == width && AllDigits(r)
  {
    if width == 0 then []
    else Pad(n / 10, width - 1) + [('0' as int + n % 10) as char]
  }

  /** Formatting then reading a number that fits the width gives it back. */
  lemma {:induction false} DigitsValuePad(n: nat, width: nat)
    requires n < Pow10(width)
    ensures DigitsValue(Pad(n, width)) == n
  {
    if width > 0 {
      var p := Pad(n, width);
      assert p[..width - 1] == Pad(n / 10, width - 1);
      DigitsValuePad(n / 10, width - 1);
    }
  }

  lemma DivMod10(q: nat, d: nat)
    requires d < 10
    ensures (q * 10 + d) / 10 == q && (q * 10 + d) % 10 == d
  {
  }

  /** Reading then formatting a digit string at its own width gives it back. */
  lemma {:induction false} PadDigitsValue(s: string)
    requires AllDigits(s)
    ensures Pad(DigitsValue(s), |s|) == s
  {
    if s != [] {
      var init := s[..|s| - 1];
      PadDigitsValue(init);
      var n := DigitsValue(s);
      var d := s[|s| - 1] as int - '0' as int;
      assert n == DigitsValue(init) * 10 + d;
      DivMod10(DigitsValue(init), d);
      assert Pad(n, |s|) == Pad(DigitsValue(init), |s| - 1) + [('0' as int + d) as char];
      assert s == init + [s[|s| - 1]];
    }
  }

  /** A month of the proleptic Gregorian calendar with a four-digit year. */
  datatype Month = Month(year: int, month: int)

  type CalMonth = m: Month | 1 <= m.year <= 9999 && 1 <= m.month <= 12
    witness Month(1, 1)

  /** Chronological order of months. */
  predicate Before(a: Month, b: Month) {
    a.year < b.year || (a.year == b.year && a.month < b.month)
  }

  predicate IsLeapYear(y: int) {
    (y % 4 == 0 && y % 100 != 0) || y % 400 == 0
  }

  function DaysInMonth(y: int, m: int): (d: int)
    requires 1 <= m <= 12
    ensures 28 <= d <= 31
  {
    if m == 2 then (if IsLeapYear(y) then 29 else 28)
    else if m == 4 || m == 6 || m == 9 || m == 11 then 30
    else 31
  }

  /** `YYYY-MM` with a valid year and month. */
  predicate IsIsoMonth(s: string) {
    && |s| == 7 && s[4] == '-'
    && AllDigits(s[..4]) && AllDigits(s[5..7])
    && DigitsValue(s[..4]) >= 1
    && 1 <= DigitsValue(s[5..7]) <= 12
  }

  /** `YYYY-MM-DD` naming a day that exists. */
  predicate IsIsoDate(s: string) {
    && |s| == 10 && s[7] == '-' && IsIsoMonth(s[..7])
    && AllDigits(s[8..])
    && 1 <= DigitsValue(s[8..]) <= DaysInMonth(MonthOf(s[..7]).year, MonthOf(s[..7]).month)
  }

  /** The month a well-formed prefix `YYYY-MM` names. */
  function MonthOf(p: string): (m: CalMonth)
    requires IsIsoMonth(p)
  {
    Month(DigitsValue(p[..4]), DigitsValue(p[5..7]))
  }

  /** The first seven characters of an accepted date string. */
  lemma IsoPrefix(s: string)
    requires IsIsoDate(s) || IsIsoMonth(s)
    ensures IsIsoMonth(s[..7])
  {
    if IsIsoMonth(s) { assert s[..7] == s; }
  }

  /** strftime("%Y-%m-%d") of the first day of month m. */
  function FormatMonthStart(m: CalMonth): (s: string)
    ensures |s| == 10 && s[4] == '-' && s[7] == '-' && s[8..] == "01"
  {
    Pad(m.year, 4) + "-" + Pad(m.month, 2) + "-01"
  }

  /** _to_month: a date string is mapped to the first day of its calendar month
      (kept as the month itself); a string that is not a date gives None. */
  function ToMonth(s: string): (r: Option<CalMonth>)
    ensures r.Some? <==> IsIsoDate(s) || IsIsoMonth(s)
    ensures r.Some? ==> FormatMonthStart(r.value)[..7] == s[..7]
  {
    if IsIsoDate(s) || IsIsoMonth(s) then
      var p := s[..7];
      IsoPrefix(s);
      var m := MonthOf(p);
      PadDigitsValue(p[..4]);
      PadDigitsValue(p[5..7]);
      assert FormatMonthStart(m)[..7] == Pad(m.year, 4) + "-" + Pad(m.month, 2);
      assert p == p[..4] + "-" + p[5..7];
      Some(m)
    else None
  }

  /** Every day of a month is mapped to the same month as its first day. */
  lemma SameMonthSamePrefix(a: string, b: string)
    requires ToMonth(a).Some? && ToMonth(b).Some?
    ensures ToMonth(a) == ToMonth(b) <==> a[..7] == b[..7]
  {
  }

  /** The first day of a month, written out, is read back as that month. */
  lemma {:induction false} ToMonthFormat(m: CalMonth)
    ensures ToMonth(FormatMonthStart(m)) == Some(m)
  {
    var s := FormatMonthStart(m);
    assert s[..4] == Pad(m.year, 4);
    assert s[5..7] == Pad(m.month, 2);
    assert s[8..] == "01";
    DigitsValuePad(m.year, 4);
    DigitsValuePad(m.month, 2);
    assert DigitsValue("01") == 1 by {
      assert "01"[..1] == "0";
      assert "0"[..0] == [];
    }
    assert s[..7][..4] == s[..4] && s[..7][5..7] == s[5..7];
    assert IsIsoDate(s);
  }

  /** `date[:7]`: the first seven characters, or the whole string when shorter. */
  function FirstSeven(date: string): (p: string)
    ensures |p| == if |date| >= 7 then 7 else |date|
    ensures p == date[..|p|]
  {
    if |date| >= 7 then date[..7] else date
  }

  /** `YYYY-M`: a four-digit year from 1, a dash and a one-digit month 1-9, the
      other form strptime's `%Y-%m` accepts. */
  predicate IsShortMonth(p: string) {
    && |p| == 6 && p[4] == '-'
    && AllDigits(p[..4]) && DigitsValue(p[..4]) >= 1
    && '1' <= p[5] <= '9'
  }

  /** The month `strptime(p + "-01", "%Y-%m-%d")` reads from an accepted prefix. */
  function ParsedMonth(p: string): (m: CalMonth)
    requires IsIsoMonth(p) || IsShortMonth(p)
    ensures m.year == DigitsValue(p[..4])
    ensures m.month == if IsIsoMonth(p) then DigitsValue(p[5..7]) else p[5] as int - '0' as int
  {
    if IsIsoMonth(p) then MonthOf(p)
    else Month(DigitsValue(p[..4]), p[5] as int - '0' as int)
  }

  /** geojson_for_date's first-of-month normalisation: only `date[:7]` is read;
      `datetime.strptime(date[:7] + "-01", "%Y-%m-%d")` must succeed, and the
      result is written back with strftime("%Y-%m-%d"). strptime's %Y takes exactly
      four digits and %m one or two, so a six-character `YYYY-M` is accepted too. */
  function NormaliseMonth(date: string): (r: Option<string>)
    ensures r.Some? ==> |r.value| == 10 && IsIsoDate(r.value) && r.value[8..] == "01"
    ensures r.Some? ==> r.value == FormatMonthStart(ToMonth(r.value).value)
    ensures r.Some? <==> IsIsoMonth(FirstSeven(date)) || IsShortMonth(FirstSeven(date))
    ensures r.Some? ==> ToMonth(r.value) == Some(ParsedMonth(FirstSeven(date)))
  {
    var p := FirstSeven(date);
    if IsIsoMonth(p) then
      IsoMonthStart(p);
      ToMonthFormat(ParsedMonth(p));
      Some(p + "-01")
    else if IsShortMonth(p) then
      ShortMonthStart(p);
      ToMonthFormat(ParsedMonth(p));
      Some(p[..5] + "0" + [p[5]] + "-01")
    else None
  }

  /** `YYYY-MM` followed by `-01` is the start of the month it names. */
  lemma IsoMonthStart(p: string)
    requires IsIsoMonth(p)
    ensures p + "-01" == FormatMonthStart(ParsedMonth(p))
  {
    var m := ParsedMonth(p);
    assert m == MonthOf(p);
    PadDigitsValue(p[..4]);
    PadDigitsValue(p[5..7]);
    assert FormatMonthStart(m) == p[..4] + "-" + p[5..7] + "-01";
    assert p == p[..4] + "-" + p[5..7];
  }

  /** `YYYY-M` with the month zero-padded and `-01` appended is the start of the
      month it names. */
  lemma ShortMonthStart(p: string)
    requires IsShortMonth(p)
    ensures p[..5] + "0" + [p[5]] + "-01" == FormatMonthStart(ParsedMonth(p))
  {
    var m := ParsedMonth(p);
    PadDigitsValue(p[..4]);
    assert Pad(m.month, 2) == "0" + [p[5]];
  }

  /** Only the first seven characters of the parameter matter. */
  lemma NormaliseFirstSeven(date: string)
    requires |date| >= 7
    ensures NormaliseMonth(date) == NormaliseMonth(date[..7])
  {
    assert date[..7][..7] == date[..7];
  }

  /** `YYYY-MM` and `YYYY-MM-01` name the same snapshot month, and that month is
      the `YYYY-MM-01` string itself. */
  lemma MonthAndFirstDayAgree(ym: string)
    requires IsIsoMonth(ym)
    ensures NormaliseMonth(ym) == NormaliseMonth(ym + "-01") == Some(ym + "-01")
  {
    assert ym[..7] == ym;
    assert (ym + "-01")[..7] == ym;
  }

  /** A one-digit month `YYYY-M` names the same snapshot month as its zero-padded
      form `YYYY-0M`. */
  lemma ShortMonthPadded(p: string)
    requires IsShortMonth(p)
    ensures NormaliseMonth(p) == NormaliseMonth(p[..5] + "0" + [p[5]])
    ensures NormaliseMonth(p) == Some(p[..5] + "0" + [p[5]] + "-01")
  {
    var q := p[..5] + "0" + [p[5]];
    assert q[..4] == p[..4] && q[5..7] == "0" + [p[5]];
    assert ("0" + [p[5]])[..1] == "0" && "0"[..0] == [];
    assert IsIsoMonth(q);
    assert FirstSeven(q) == q;
  }

  /** Normalisation is idempotent: a normalised month is its own normal form. */
  lemma NormaliseIdempotent(date: string)
    requires NormaliseMonth(date).Some?
    ensures NormaliseMonth(NormaliseMonth(date).value) == NormaliseMonth(date)
  {
    var t := NormaliseMonth(date).value;
    assert t[..7] == t[..7];
    assert IsIsoMonth(t[..7]);
  }

  /** The table's date strings, written by the pipeline, are exactly the targets
      the query layer computes for them. */
  lemma NormaliseTableDate(m: CalMonth)
    ensures NormaliseMonth(FormatMonthStart(m)) == Some(FormatMonthStart(m))
  {
    ToMonthFormat(m);
    var s := FormatMonthStart(m);
    assert IsIsoMonth(s[..7]);
  }
}
