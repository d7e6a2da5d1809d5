/** The endpoints that scan asi_table.csv row by row: the latest date, the date
    range, and one basin's history. Each answers 404 when the table is missing. */
module Scans {
  import opened Wrappers
  import opened Text
  import opened Query

  /** `r.get("date")` when it is truthy. */
  predicate HasDate(row: CsvRow) {
    Get(row, "date").Some? && Get(row, "date").value != ""
  }

  /** v is the lexicographic maximum of the non-empty dates: one of them, and no
      date is greater. */
  predicate IsLatest(table: seq<CsvRow>, v: string) {
    (exists i :: 0 <= i < |table| && HasDate(table[i]) && Get(table[i], "date").value == v)
    && forall i :: 0 <= i < |table| && HasDate(table[i]) ==> !LexLess(v, Get(table[i], "date").value)
  }

  /** There is at most one maximum. */
  lemma LatestUnique(table: seq<CsvRow>, a: string, b: string)
    requires IsLatest(table, a) && IsLatest(table, b)
    ensures a == b
  {
    var i :| 0 <= i < |table| && HasDate(table[i]) && Get(table[i], "date").value == a;
    var j :| 0 <= j < |table| && HasDate(table[j]) && Get(table[j], "date").value == b;
    LexTotal(a, b);
  }

  /** Lines 169-178: a running maximum over the date column, with `d > latest`
      as Python's string comparison. */
  method LatestDate(table: Option<seq<CsvRow>>) returns (r: Result<Option<string>, HttpError>)
    ensures table.None? <==> r == Err(TableMissing)
    ensures r.Ok? ==> (r.value.None? <==> forall i :: 0 <= i < |table.value| ==> !HasDate(table.value[i]))
    ensures r.Ok? && r.value.Some? ==> IsLatest(table.value, r.value.value)
  {
    if table.None? {
      return Err(TableMissing);
    }
    var t := table.value;
    var latest: Option<string> := None;
    for k := 0 to |t|
      invariant latest.None? <==> forall i :: 0 <= i < k ==> !HasDate(t[i])
      invariant latest.Some? ==> IsLatest(t[..k], latest.value)
    {
      assert forall i :: 0 <= i < k ==> t[..k + 1][i] == t[..k][i];
      var d := Get(t[k], "date");
      if d.Some? && d.value != "" {
        if latest.None? || LexLess(latest.value, d.value) {
          if latest.Some? {
            forall i | 0 <= i < k && HasDate(t[i]) ensures !LexLess(d.value, Get(t[i], "date").value) {
              var e := Get(t[i], "date").value;
              assert t[..k][i] == t[i];
              LexTotal(latest.value, e);
              if LexLess(e, latest.value) {
                LexTransitive(e, latest.value, d.value);
                LexAsymmetric(e, d.value);
              } else {
                LexAsymmetric(latest.value, d.value);
              }
            }
          }
          LexIrreflexive(d.value);
          latest := d;
        }
      }
      assert t[..k + 1][k] == t[k];
    }
    assert t[..|t|] == t;
    r := Ok(latest);
  }

  /** The date as asi_date_range reads it: `(r.get("date") or "").strip()[:10]`. */
  function Day(row: CsvRow): (d: string)
    ensures var s := Strip(Get(row, "date").GetOr("")); |d| == if |s| <= 10 then |s| else 10
    ensures d == Strip(Get(row, "date").GetOr(""))[..|d|]
  {
    var s := Strip(Get(row, "date").GetOr(""));
    if |s| <= 10 then s else s[..10]
  }

  /** The days of the table, row by row. */
  function Days(table: seq<CsvRow>): (ds: seq<string>)
    ensures |ds| == |table| && forall i :: 0 <= i < |table| ==> ds[i] == Day(table[i])
  {
    seq(|table|, i requires 0 <= i < |table| => Day(table[i]))
  }

  /** lo and hi are the least and greatest non-empty days among the first n. */
  predicate IsRange(ds: seq<string>, n: int, lo: string, hi: string)
    requires 0 <= n <= |ds|
  {
    (exists i :: 0 <= i < n && ds[i] != "" && ds[i] == lo)
    && (exists i :: 0 <= i < n && ds[i] != "" && ds[i] == hi)
    && forall i :: 0 <= i < n && ds[i] != "" ==> !LexLess(ds[i], lo) && !LexLess(hi, ds[i])
  }

  /** The least day is never after the greatest. */
  lemma RangeOrdered(ds: seq<string>, n: int, lo: string, hi: string)
    requires 0 <= n <= |ds| && IsRange(ds, n, lo, hi)
    ensures !LexLess(hi, lo)
  {
    var i :| 0 <= i < n && ds[i] != "" && ds[i] == lo;
  }

  /** The running minimum and maximum over the first n days, skipping empty ones. */
  function Extremes(ds: seq<string>, n: nat): (Option<string>, Option<string>)
    requires n <= |ds|
  {
    if n == 0 then (None, None)
    else
      var (lo, hi) := Extremes(ds, n - 1);
      var d := ds[n - 1];
      if d == "" then (lo, hi)
      else (Some(if lo.None? || LexLess(d, lo.value) then d else lo.value),
            Some(if hi.None? || LexLess(hi.value, d) then d else hi.value))
  }

  /** The running extremes are missing together, missing exactly when every day so
      far is empty, and otherwise the least and greatest non-empty days. */
  lemma {:induction false} ExtremesSpec(ds: seq<string>, n: nat)
    requires n <= |ds|
    ensures var (lo, hi) := Extremes(ds, n);
      && (lo.None? <==> hi.None?)
      && (lo.None? <==> forall i :: 0 <= i < n ==> ds[i] == "")
      && (lo.Some? ==> IsRange(ds, n, lo.value, hi.value))
  {
    if n > 0 {
      ExtremesSpec(ds, n - 1);
      var (lo, hi) := Extremes(ds, n - 1);
      var d := ds[n - 1];
      if d != "" {
        var newLo := if lo.None? || LexLess(d, lo.value) then d else lo.value;
        var newHi := if hi.None? || LexLess(hi.value, d) then d else hi.value;
        RangeStep(ds, n - 1, lo, hi, newLo, newHi);
      } else if lo.Some? {
        RangeSkip(ds, n - 1, lo.value, hi.value);
      }
    }
  }

  /** Lines 182-193: running minimum and maximum over the trimmed dates, skipping
      empty ones. */
  method DateRange(table: Option<seq<CsvRow>>) returns (r: Result<(Option<string>, Option<string>), HttpError>)
    ensures table.None? <==> r == Err(TableMissing)
    ensures r.Ok? ==> (r.value.0.None? <==> r.value.1.None?)
    ensures r.Ok? ==> (r.value.0.None? <==> forall i :: 0 <= i < |table.value| ==> Day(table.value[i]) == "")
    ensures r.Ok? && r.value.0.Some? ==>
      var ds := Days(table.value);
      IsRange(ds, |ds|, r.value.0.value, r.value.1.value) && !LexLess(r.value.1.value, r.value.0.value)
  {
    if table.None? {
      return Err(TableMissing);
    }
    var t := table.value;
    ghost var ds := Days(t);
    var lo: Option<string> := None;
    var hi: Option<string> := None;
    for k := 0 to |t|
      invariant (lo, hi) == Extremes(ds, k)
    {
      var d := Day(t[k]);
      assert d == ds[k];
      if d != "" {
        lo := Some(if lo.None? || LexLess(d, lo.value) then d else lo.value);
        hi := Some(if hi.None? || LexLess(hi.value, d) then d else hi.value);
      }
    }
    ExtremesSpec(ds, |ds|);
    if lo.Some? {
      RangeOrdered(ds, |ds|, lo.value, hi.value);
    }
    r := Ok((lo, hi));
  }

  /** An empty day leaves the range as it is. */
  lemma RangeSkip(ds: seq<string>, k: int, lo: string, hi: string)
    requires 0 <= k < |ds| && ds[k] == "" && IsRange(ds, k, lo, hi)
    ensures IsRange(ds, k + 1, lo, hi)
  {
    var a :| 0 <= a < k && ds[a] != "" && ds[a] == lo;
    var b :| 0 <= b < k && ds[b] != "" && ds[b] == hi;
  }

  /** One step of the running extremes over a non-empty day keeps both bounds. */
  lemma RangeStep(ds: seq<string>, k: int, lo: Option<string>, hi: Option<string>, newLo: string, newHi: string)
    requires 0 <= k < |ds| && ds[k] != ""
    requires lo.None? <==> hi.None?
    requires lo.None? ==> forall i :: 0 <= i < k ==> ds[i] == ""
    requires lo.Some? ==> IsRange(ds, k, lo.value, hi.value)
    requires newLo == (if lo.None? || LexLess(ds[k], lo.value) then ds[k] else lo.value)
    requires newHi == (if hi.None? || LexLess(hi.value, ds[k]) then ds[k] else hi.value)
    ensures IsRange(ds, k + 1, newLo, newHi)
  {
    var d := ds[k];
    LexIrreflexive(d);
    if lo.Some? {
      var l, h := lo.value, hi.value;
      var a :| 0 <= a < k && ds[a] != "" && ds[a] == l;
      var b :| 0 <= b < k && ds[b] != "" && ds[b] == h;
      forall i | 0 <= i < k + 1 && ds[i] != "" ensures !LexLess(ds[i], newLo) && !LexLess(newHi, ds[i]) {
        var e := ds[i];
        if i < k {
          if LexLess(d, l) && LexLess(e, d) {
            LexTransitive(e, d, l);
          }
          if LexLess(h, d) && LexLess(d, e) {
            LexTransitive(h, d, e);
          }
        } else {
          if !LexLess(d, l) {
            LexTotal(d, l);
            if d != l { LexAsymmetric(l, d); }
          }
          if !LexLess(h, d) {
            LexTotal(h, d);
            if d != h { LexAsymmetric(d, h); }
          }
        }
      }
    }
  }

  /** One entry of a basin's history. */
  datatype HistoryRow = HistoryRow(date: Option<string>, twsaZ: Option<real>, smZ: Option<real>,
                                   rainZ: Option<real>, rainDefZ: Option<real>, asi: Option<real>,
                                   cls: Option<string>)

  /** The entry of a table row: the date and class as written, the scores and
      ASI as `_r` reads them. */
  function HistoryOf(row: CsvRow): HistoryRow {
    HistoryRow(Get(row, "date"), R(Field(row, "twsa_z")), R(Field(row, "sm_z")),
               R(Field(row, "rain_z")), R(Field(row, "rain_def_z")), R(Field(row, "asi")),
               Get(row, "class"))
  }

  /** `str(row.get("basin_id")) == str(basin_id)`. */
  predicate OfBasin(row: CsvRow, basinId: string) {
    Shown(Get(row, "basin_id")) == basinId
  }

  /** The positions of the basin's rows among the first n, in table order. */
  function Positions(table: seq<CsvRow>, n: nat, basinId: string): (ps: seq<nat>)
    requires n <= |table|
    ensures forall k :: 0 <= k < |ps| ==> ps[k] < n && OfBasin(table[ps[k]], basinId)
    ensures forall k, l :: 0 <= k < l < |ps| ==> ps[k] < ps[l]
    ensures forall i :: 0 <= i < n && OfBasin(table[i], basinId) ==> i in ps
  {
    if n == 0 then []
    else Positions(table, n - 1, basinId) + (if OfBasin(table[n - 1], basinId) then [n - 1] else [])
  }

  /** The entries of the basin's rows among the first n. */
  function Entries(table: seq<CsvRow>, n: nat, basinId: string): seq<HistoryRow>
    requires n <= |table|
  {
    if n == 0 then []
    else Entries(table, n - 1, basinId) + (if OfBasin(table[n - 1], basinId) then [HistoryOf(table[n - 1])] else [])
  }

  /** The k-th entry is the entry of the k-th matching row. */
  lemma {:induction false} EntriesAt(table: seq<CsvRow>, n: nat, basinId: string)
    requires n <= |table|
    ensures var es, ps := Entries(table, n, basinId), Positions(table, n, basinId);
      |es| == |ps| && forall k :: 0 <= k < |ps| ==> es[k] == HistoryOf(table[ps[k]])
  {
    if n > 0 {
      EntriesAt(table, n - 1, basinId);
      var es0, ps0 := Entries(table, n - 1, basinId), Positions(table, n - 1, basinId);
      var es, ps := Entries(table, n, basinId), Positions(table, n, basinId);
      if OfBasin(table[n - 1], basinId) {
        assert es == es0 + [HistoryOf(table[n - 1])] && ps == ps0 + [n - 1];
        forall k | 0 <= k < |ps| ensures es[k] == HistoryOf(table[ps[k]]) {
          if k < |ps0| {
            assert es[k] == es0[k] && ps[k] == ps0[k];
          }
        }
      } else {
        assert es == es0 && ps == ps0;
      }
    }
  }

  /** Lines 198-213: the basin's rows in table order, or 404 when it has none. A
      row whose values are all missing is still an entry. */
  method History(table: Option<seq<CsvRow>>, basinId: string) returns (r: Result<seq<HistoryRow>, HttpError>)
    ensures table.None? ==> r == Err(TableMissing)
    ensures table.Some? ==> (r == Err(NoHistory(basinId)) <==> forall i :: 0 <= i < |table.value| ==> !OfBasin(table.value[i], basinId))
    ensures r.Ok? ==> var ps := Positions(table.value, |table.value|, basinId);
      |r.value| == |ps| > 0 && forall k :: 0 <= k < |ps| ==> r.value[k] == HistoryOf(table.value[ps[k]])
  {
    if table.None? {
      return Err(TableMissing);
    }
    var t := table.value;
    var out: seq<HistoryRow> := [];
    for k := 0 to |t|
      invariant out == Entries(t, k, basinId)
    {
      if Shown(Get(t[k], "basin_id")) == basinId {
        out := out + [HistoryOf(t[k])];
      }
    }
    EntriesAt(t, |t|, basinId);
    if out == [] {
      return Err(NoHistory(basinId));
    }
    assert OfBasin(t[Positions(t, |t|, basinId)[0]], basinId);
    r := Ok(out);
  }
}
