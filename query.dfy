/** The values the query layer (app/main.py) reads and returns: CSV rows of
    asi_table.csv, the loosely typed values `_r` accepts, and the HTTP errors the
    endpoints raise. */
module Query {
  import opened Wrappers
  import opened Text
  import opened Dates
  import opened Numbers

  /** A value handed to `_r`: JSON null / a missing CSV field, a string (every CSV
      field is one), or a JSON number. */
  datatype Value = Null | Str(s: string) | Num(x: real)

  /** One csv.DictReader row: a column absent from the header has no key; a row
      shorter than the header holds None (DictReader's restval) for the rest. */
  type CsvRow = map<string, Option<string>>

  /** `row.get(column)`: None for an absent column as for a missing field. */
  function Get(row: CsvRow, column: string): (v: Option<string>)
    ensures v.Some? <==> column in row && row[column].Some?
    ensures v.Some? ==> v.value == row[column].value
  {
    if column in row then row[column] else None
  }

  /** The CSV field as `_r` receives it. */
  function Field(row: CsvRow, column: string): (v: Value)
    ensures v.Null? <==> Get(row, column).None?
    ensures v.Str? ==> v.s == Get(row, column).value
  {
    match Get(row, column)
    case None => Null
    case Some(s) => Str(s)
  }

  /** `str(value)` of an optional string: None is written "None". */
  function Shown(v: Option<string>): (s: string)
    ensures v.Some? ==> s == v.value
    ensures v.None? ==> s == "None"
  {
    match v
    case Some(t) => t
    case None => "None"
  }

  /** The strings `_r` reads as missing, once stripped and lower-cased. */
  predicate Blank(s: string) {
    var t := Lower(Strip(s));
    t == "" || t == "none" || t == "nan"
  }

  /** app's `_r`: None for null, for a blank/"none"/"nan" string in any case and
      with any surrounding whitespace, and for a string float() rejects; otherwise
      the value rounded to 3 decimals. */
  function R(v: Value): (r: Option<real>)
    ensures v.Null? ==> r.None?
    ensures v.Str? && Blank(v.s) ==> r.None?
    ensures v.Str? && !Blank(v.s) ==>
      (r.Some? <==> ParseDecimal(Strip(v.s)).Some?)
      && (r.Some? ==> ParseDecimal(Strip(v.s)).value - 0.0005 <= r.value <= ParseDecimal(Strip(v.s)).value + 0.0005)
    ensures v.Num? ==> r.Some? && v.x - 0.0005 <= r.value <= v.x + 0.0005
  {
    match v
    case Null => None
    case Str(s) =>
      if Blank(s) then None
      else
        (match ParseDecimal(Strip(s))
         case Some(x) => Some(Round3(x))
         case None => None)
    case Num(x) => Some(Round3(x))
  }

  /** A rounded value is read back unchanged, whether it comes as a number or as
      the same number again: `_r` is idempotent on numbers. */
  lemma RIdempotent(x: real)
    ensures R(Num(R(Num(x)).value)) == R(Num(x))
  {
    Round3Idempotent(x);
  }

  /** A field holding a whole number reads back as that number. */
  lemma RWholeNumber(n: nat, width: nat)
    requires 0 < width && n < Pow10(width)
    ensures R(Str(Pad(n, width))) == Some(n as real)
  {
    var p := Pad(n, width);
    ParseDecimalDigits(n, width);
    Round3Whole(n);
    assert IsDigit(p[|p| - 1]) && !IsSpace(p[0]);
    RNumeral(p, n as real);
  }

  /** A numeral float() reads as x is read by `_r` as x rounded. */
  lemma RNumeral(s: string, x: real)
    requires |s| > 0 && !IsSpace(s[0]) && IsDigit(s[|s| - 1])
    requires ParseDecimal(s) == Some(x)
    ensures R(Str(s)) == Some(Round3(x))
  {
    NumeralNotBlank(s);
  }

  /** A numeral (ending in a digit, starting with no space) is its own strip and
      is not one of the strings `_r` reads as missing. */
  lemma NumeralNotBlank(s: string)
    requires |s| > 0 && !IsSpace(s[0]) && IsDigit(s[|s| - 1])
    ensures Strip(s) == s && !Blank(s)
  {
    assert StripLeft(s) == s;
    assert StripRight(s) == s;
    assert Lower(s)[|s| - 1] == s[|s| - 1];
  }

  lemma Round3Whole(n: int)
    ensures Round3(n as real) == n as real
  {
    assert (n as real) * 1000.0 == (n * 1000) as real;
    RoundHalfEvenInt(n * 1000);
  }

  /** An HTTPException: its status code and its detail text. */
  datatype HttpError = HttpError(status: int, detail: string)

  /** The table file is missing (404); checked first by every endpoint that reads it. */
  const TableMissing := HttpError(404, "asi_table.csv not found. Run scripts/compute_asi.py")

  /** The month parameter does not parse (400). */
  const BadDate := HttpError(400, "date must be YYYY-MM or YYYY-MM-01")

  /** An uncaught exception (a KeyError) becomes FastAPI's plain 500 response. */
  const InternalError := HttpError(500, "Internal Server Error")

  /** asi_history found no row for the basin (404). */
  function NoHistory(basinId: string): (e: HttpError)
    ensures e.status == 404 && |e.detail| >= 24 && e.detail[..24] == "No history for basin_id=" && e.detail[24..] == basinId
  {
    HttpError(404, "No history for basin_id=" + basinId)
  }
}
