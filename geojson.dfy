/** The two FeatureCollections the query layer serves: the latest snapshot (with
    its fallback) and the snapshot of a requested month, rebuilt from
    asi_table.csv. The basins file is read fresh on every call and its features
    are updated in place. */
module Geojson {
  import opened Wrappers
  import opened Dates
  import opened Features
  import opened Query

  /** latest_geojson: the prebuilt snapshot when it exists and parses, otherwise
      the basin features with no-data placeholders and no date. */
  function LatestSnapshot(latest: Option<seq<Feature>>, basins: seq<Feature>): (fs: seq<Feature>)
    ensures latest.Some? ==> fs == latest.value
    ensures latest.None? ==> |fs| == |basins|
  {
    match latest
    case Some(gj) => gj
    case None => seq(|basins|, i requires 0 <= i < |basins| => basins[i].(props := NoDataProps(basins[i].props, None)))
  }

  /** The fallback marks every basin "no-data" with no ASI, no scores and no date,
      and keeps each feature's id, geometry, basin id, name and order. */
  lemma LatestFallbackNoData(basins: seq<Feature>)
    ensures var fs := LatestSnapshot(None, basins);
      |fs| == |basins|
      && forall i :: 0 <= i < |fs| ==>
        && SameShape(fs[i], basins[i]) && fs[i].props.name == basins[i].props.name
        && fs[i].props.cls == Some("no-data") && fs[i].props.asi.None? && fs[i].props.date.None?
        && fs[i].props.twsaZ.None? && fs[i].props.smZ.None?
        && fs[i].props.rainZ.None? && fs[i].props.rainDefZ.None?
  {
  }

  /** Lines 42-57, with the file reads as parameters: `latest` is the parsed
      snapshot, None when it is missing or does not parse. */
  method LatestGeojson(latest: Option<seq<Feature>>, basins: array<Feature>) returns (fs: seq<Feature>)
    modifies basins
    ensures fs == LatestSnapshot(latest, old(basins[..]))
    ensures latest.Some? ==> unchanged(basins)
    ensures latest.None? ==> fs == basins[..]
  {
    if latest.Some? {
      return latest.value;
    }
    for i := 0 to basins.Length
      invariant forall j :: 0 <= j < i ==> basins[j] == old(basins[j]).(props := NoDataProps(old(basins[j]).props, None))
      invariant forall j :: i <= j < basins.Length ==> basins[j] == old(basins[j])
    {
      basins[i] := basins[i].(props := NoDataProps(basins[i].props, None));
    }
    fs := basins[..];
  }

  /** The table row matches the month when its date field is exactly the target. */
  predicate InMonth(row: CsvRow, target: string) {
    Get(row, "date") == Some(target)
  }

  /** The rows geojson_for_date keeps: those of the target month, in table order. */
  function MonthRows(table: seq<CsvRow>, target: string): (rows: seq<CsvRow>)
    ensures forall r :: r in rows ==> r in table && InMonth(r, target)
    ensures forall i :: 0 <= i < |table| && InMonth(table[i], target) ==> table[i] in rows
  {
    if table == [] then []
    else
      var init := table[..|table| - 1];
      var r := table[|table| - 1];
      assert forall i :: 0 <= i < |init| ==> init[i] == table[i];
      MonthRows(init, target) + (if InMonth(r, target) then [r] else [])
  }

  /** The indices of the rows of the target month, in table order. */
  function MonthAt(table: seq<CsvRow>, target: string): (ps: seq<nat>)
    ensures forall k :: 0 <= k < |ps| ==> ps[k] < |table| && InMonth(table[ps[k]], target)
    ensures forall k, l :: 0 <= k < l < |ps| ==> ps[k] < ps[l]
    ensures forall i :: 0 <= i < |table| && InMonth(table[i], target) ==> i in ps
  {
    if table == [] then []
    else
      var init := table[..|table| - 1];
      assert forall i :: 0 <= i < |init| ==> init[i] == table[i];
      MonthAt(init, target) + (if InMonth(table[|table| - 1], target) then [|table| - 1] else [])
  }

  /** The month's rows are kept once each and in table order: the k-th kept row is
      the k-th row of the month. */
  lemma {:induction false} MonthRowsInOrder(table: seq<CsvRow>, target: string)
    ensures var rows, ps := MonthRows(table, target), MonthAt(table, target);
      |rows| == |ps| && forall k :: 0 <= k < |ps| ==> rows[k] == table[ps[k]]
  {
    if table != [] {
      var init := table[..|table| - 1];
      MonthRowsInOrder(init, target);
      assert forall i :: 0 <= i < |init| ==> init[i] == table[i];
      var rows0, ps0 := MonthRows(init, target), MonthAt(init, target);
      var rows, ps := MonthRows(table, target), MonthAt(table, target);
      forall k | 0 <= k < |ps| ensures rows[k] == table[ps[k]] {
        if k < |ps0| {
          assert rows[k] == rows0[k] && ps[k] == ps0[k];
        }
      }
    }
  }

  /** `r["basin_id"]` succeeds for every kept row. */
  predicate AllKeyed(rows: seq<CsvRow>) {
    forall r :: r in rows ==> "basin_id" in r
  }

  /** `str(r["basin_id"])`. */
  function CsvKey(r: CsvRow): string
    requires "basin_id" in r
  {
    Shown(r["basin_id"])
  }

  /** `{str(r["basin_id"]): r for r in rows}`: a later row replaces an earlier one
      with the same id. */
  function CsvById(rows: seq<CsvRow>): (byId: map<string, CsvRow>)
    requires AllKeyed(rows)
    ensures forall b :: b in byId <==> exists i :: 0 <= i < |rows| && CsvKey(rows[i]) == b
    ensures forall b :: b in byId ==> byId[b] in rows && CsvKey(byId[b]) == b
  {
    if rows == [] then map[]
    else
      var init := rows[..|rows| - 1];
      var r := rows[|rows| - 1];
      assert forall i :: 0 <= i < |init| ==> init[i] == rows[i];
      CsvById(init)[CsvKey(r) := r]
  }

  /** The row is of the month and carries the basin id. */
  predicate Matches(row: CsvRow, target: string, bid: string) {
    InMonth(row, target) && "basin_id" in row && CsvKey(row) == bid
  }

  /** The index of the last table row of the month for a basin id; -1 when
      there is none. */
  function LastIndexFor(table: seq<CsvRow>, target: string, bid: string): (k: int)
    ensures -1 <= k < |table|
    ensures k == -1 <==> forall i :: 0 <= i < |table| ==> !Matches(table[i], target, bid)
    ensures k >= 0 ==> Matches(table[k], target, bid) && forall j :: k < j < |table| ==> !Matches(table[j], target, bid)
  {
    if table == [] then -1
    else
      var init := table[..|table| - 1];
      assert forall i :: 0 <= i < |init| ==> init[i] == table[i];
      if Matches(table[|table| - 1], target, bid) then |table| - 1
      else LastIndexFor(init, target, bid)
  }

  /** The id map of the month's rows holds, for each id, that id's last row. */
  lemma {:induction false} ByIdIsLastRow(table: seq<CsvRow>, target: string, bid: string)
    requires AllKeyed(MonthRows(table, target))
    ensures var byId, k := CsvById(MonthRows(table, target)), LastIndexFor(table, target, bid);
      (bid in byId <==> k >= 0) && (bid in byId ==> byId[bid] == table[k])
  {
    if table != [] {
      var init := table[..|table| - 1];
      assert forall i :: 0 <= i < |init| ==> init[i] == table[i];
      assert AllKeyed(MonthRows(init, target));
      ByIdIsLastRow(init, target, bid);
      ByIdStep(table, target, bid);
    }
  }

  /** One more table row: the claim for all but the last row gives the claim for
      all rows. */
  lemma ByIdStep(table: seq<CsvRow>, target: string, bid: string)
    requires table != [] && AllKeyed(MonthRows(table, target))
    requires AllKeyed(MonthRows(table[..|table| - 1], target))
    requires var byId, k := CsvById(MonthRows(table[..|table| - 1], target)), LastIndexFor(table[..|table| - 1], target, bid);
      (bid in byId <==> k >= 0) && (bid in byId ==> byId[bid] == table[k])
    ensures var byId, k := CsvById(MonthRows(table, target)), LastIndexFor(table, target, bid);
      (bid in byId <==> k >= 0) && (bid in byId ==> byId[bid] == table[k])
  {
    var init := table[..|table| - 1];
    var last := table[|table| - 1];
    var rows := MonthRows(init, target);
    var k := LastIndexFor(table, target, bid);
    var k0 := LastIndexFor(init, target, bid);
    if InMonth(last, target) {
      assert MonthRows(table, target) == rows + [last];
      assert "basin_id" in last;
      CsvByIdSnoc(rows, last);
      assert k == (if CsvKey(last) == bid then |table| - 1 else k0);
      UpdateStep(CsvById(rows), CsvKey(last), bid, table, k0, k);
    } else {
      assert MonthRows(table, target) == rows;
      assert k == k0;
    }
  }

  lemma CsvByIdSnoc(rows: seq<CsvRow>, last: CsvRow)
    requires AllKeyed(rows + [last])
    ensures AllKeyed(rows) && "basin_id" in last
    ensures CsvById(rows + [last]) == CsvById(rows)[CsvKey(last) := last]
  {
    assert (rows + [last])[..|rows|] == rows;
    assert last in rows + [last];
  }

  /** Recording the last row under its key keeps "each id maps to its last row". */
  lemma UpdateStep(m: map<string, CsvRow>, key: string, bid: string, table: seq<CsvRow>, k0: int, k: int)
    requires |table| > 0 && -1 <= k0 < |table| - 1
    requires (bid in m <==> k0 >= 0) && (bid in m ==> m[bid] == table[k0])
    requires k == (if key == bid then |table| - 1 else k0)
    ensures var m2 := m[key := table[|table| - 1]]; (bid in m2 <==> k >= 0) && (bid in m2 ==> m2[bid] == table[k])
  {
  }

  /** The properties geojson_for_date gives a feature: a matched feature takes the
      row's rounded scores and ASI, its class as written and a name falling back to
      the id; an unmatched one the no-data placeholder; both get the target date. */
  function DateProps(p: Props, byId: map<string, CsvRow>, target: string): Props {
    var bid := BasinKey(p);
    if bid in byId then
      var r := byId[bid];
      p.(date := Some(target),
         twsaZ := R(Field(r, "twsa_z")), smZ := R(Field(r, "sm_z")),
         rainZ := R(Field(r, "rain_z")), rainDefZ := R(Field(r, "rain_def_z")),
         asi := R(Field(r, "asi")), cls := Get(r, "class"),
         name := Some(NameOr(p, bid)))
    else NoDataProps(p, Some(target))
  }

  /** geojson_for_date's whole answer: 404 without a table (before the date is
      looked at), 400 for a month that does not parse, 500 when a row of the month
      has no basin_id column, else every basin feature joined to the month's rows. */
  function DateSnapshot(date: string, table: Option<seq<CsvRow>>, basins: seq<Feature>)
    : (r: Result<seq<Feature>, HttpError>)
    ensures r.Ok? ==> |r.value| == |basins|
  {
    if table.None? then Err(TableMissing)
    else
      match NormaliseMonth(date)
      case None => Err(BadDate)
      case Some(target) =>
        var rows := MonthRows(table.value, target);
        if !AllKeyed(rows) then Err(InternalError)
        else
          var byId := CsvById(rows);
          Ok(seq(|basins|, i requires 0 <= i < |basins| => basins[i].(props := DateProps(basins[i].props, byId, target))))
  }

  /** The errors, in the order they are checked: a missing table is 404 whatever
      the date; otherwise an unparsable month is 400; and these are the only ways
      besides a keyless row to fail. */
  lemma DateSnapshotErrors(date: string, table: Option<seq<CsvRow>>, basins: seq<Feature>)
    ensures table.None? ==> DateSnapshot(date, table, basins) == Err(TableMissing)
    ensures table.Some? && NormaliseMonth(date).None? ==> DateSnapshot(date, table, basins) == Err(BadDate)
    ensures DateSnapshot(date, table, basins).Err? <==>
      table.None? || NormaliseMonth(date).None?
      || !AllKeyed(MonthRows(table.value, NormaliseMonth(date).value))
  {
  }

  /** "YYYY-MM" and "YYYY-MM-01" give the same answer. */
  lemma MonthFormsAgree(ym: string, table: Option<seq<CsvRow>>, basins: seq<Feature>)
    requires IsIsoMonth(ym)
    ensures DateSnapshot(ym, table, basins) == DateSnapshot(ym + "-01", table, basins)
  {
    MonthAndFirstDayAgree(ym);
  }

  /** Only the first seven characters of the parameter matter. */
  lemma FirstSevenDecide(date: string, table: Option<seq<CsvRow>>, basins: seq<Feature>)
    requires |date| >= 7
    ensures DateSnapshot(date, table, basins) == DateSnapshot(date[..7], table, basins)
  {
    NormaliseFirstSeven(date);
  }

  /** Every feature of a month snapshot is dated with the target month, and the
      features keep their order, ids, geometry and basin ids. */
  lemma DateSnapshotShape(date: string, table: Option<seq<CsvRow>>, basins: seq<Feature>)
    requires DateSnapshot(date, table, basins).Ok?
    ensures NormaliseMonth(date).Some?
    ensures var fs := DateSnapshot(date, table, basins).value;
      forall i :: 0 <= i < |fs| ==> SameShape(fs[i], basins[i]) && fs[i].props.date == NormaliseMonth(date)
  {
  }

  /** A basin with no table row for the month is "no-data", with no ASI and no
      scores, and its name left alone. */
  lemma DateSnapshotUnmatched(date: string, table: Option<seq<CsvRow>>, basins: seq<Feature>, i: int)
    requires DateSnapshot(date, table, basins).Ok? && 0 <= i < |basins|
    requires forall j :: 0 <= j < |table.value| ==> !Matches(table.value[j], NormaliseMonth(date).value, BasinKey(basins[i].props))
    ensures var q := DateSnapshot(date, table, basins).value[i].props;
      q.cls == Some("no-data") && q.asi.None? && q.name == basins[i].props.name
      && q.twsaZ.None? && q.smZ.None? && q.rainZ.None? && q.rainDefZ.None?
  {
    var target := NormaliseMonth(date).value;
    ByIdIsLastRow(table.value, target, BasinKey(basins[i].props));
  }

  /** A basin with rows for the month takes its values from the last such row: the
      ASI and scores as `_r` reads them, the class as written, and a name that is
      never missing. */
  lemma DateSnapshotMatched(date: string, table: Option<seq<CsvRow>>, basins: seq<Feature>, i: int, j: int)
    requires DateSnapshot(date, table, basins).Ok? && 0 <= i < |basins| && 0 <= j < |table.value|
    requires Matches(table.value[j], NormaliseMonth(date).value, BasinKey(basins[i].props))
    requires forall k :: j < k < |table.value| ==> !Matches(table.value[k], NormaliseMonth(date).value, BasinKey(basins[i].props))
    ensures var q, row := DateSnapshot(date, table, basins).value[i].props, table.value[j];
      q.asi == R(Field(row, "asi")) && q.twsaZ == R(Field(row, "twsa_z")) && q.smZ == R(Field(row, "sm_z"))
      && q.rainZ == R(Field(row, "rain_z")) && q.rainDefZ == R(Field(row, "rain_def_z"))
      && q.cls == Get(row, "class") && q.name.Some?
  {
    var target := NormaliseMonth(date).value;
    var bid := BasinKey(basins[i].props);
    ByIdIsLastRow(table.value, target, bid);
    assert LastIndexFor(table.value, target, bid) == j;
  }

  /** The read loop of geojson_for_date: the month's rows, appended in table order. */
  method CollectMonthRows(table: seq<CsvRow>, target: string) returns (rows: seq<CsvRow>)
    ensures rows == MonthRows(table, target)
  {
    rows := [];
    for i := 0 to |table|
      invariant rows == MonthRows(table[..i], target)
    {
      assert table[..i + 1][..i] == table[..i];
      if Get(table[i], "date") == Some(target) {
        rows := rows + [table[i]];
      }
    }
    assert table[..|table|] == table;
  }

  /** The update loop of geojson_for_date: every feature's properties, in place. */
  method DateFeatures(byId: map<string, CsvRow>, target: string, basins: array<Feature>)
    modifies basins
    ensures forall i :: 0 <= i < basins.Length ==>
      basins[i] == old(basins[i]).(props := DateProps(old(basins[i]).props, byId, target))
  {
    for i := 0 to basins.Length
      invariant forall j :: 0 <= j < i ==> basins[j] == old(basins[j]).(props := DateProps(old(basins[j]).props, byId, target))
      invariant forall j :: i <= j < basins.Length ==> basins[j] == old(basins[j])
    {
      basins[i] := basins[i].(props := DateProps(basins[i].props, byId, target));
    }
  }

  /** Lines 59-99, with the files as parameters (`table` is None when
      asi_table.csv is missing). */
  method GeojsonForDate(date: string, table: Option<seq<CsvRow>>, basins: array<Feature>)
    returns (r: Result<seq<Feature>, HttpError>)
    modifies basins
    ensures r == DateSnapshot(date, table, old(basins[..]))
    ensures r.Ok? ==> r.value == basins[..]
    ensures r.Err? ==> unchanged(basins)
  {
    if table.None? {
      return Err(TableMissing);
    }
    var month := NormaliseMonth(date);
    if month.None? {
      return Err(BadDate);
    }
    var target := month.value;
    var rows := CollectMonthRows(table.value, target);
    if !AllKeyed(rows) {
      return Err(InternalError);
    }
    var byId := CsvById(rows);
    ghost var before := basins[..];
    DateFeatures(byId, target, basins);
    assert basins[..] == seq(|before|, i requires 0 <= i < |before| => before[i].(props := DateProps(before[i].props, byId, target)));
    r := Ok(basins[..]);
  }

  /** `geojson_for_date(date) if date else latest_geojson()`: an empty or absent
      date parameter asks for the latest snapshot. */
  function Collection(date: Option<string>, table: Option<seq<CsvRow>>, latest: Option<seq<Feature>>,
                      basins: seq<Feature>): (r: Result<seq<Feature>, HttpError>)
    ensures date.None? || date.value == "" ==> r == Ok(LatestSnapshot(latest, basins))
    ensures date.Some? && date.value != "" ==> r == DateSnapshot(date.value, table, basins)
  {
    if date.Some? && date.value != "" then DateSnapshot(date.value, table, basins)
    else Ok(LatestSnapshot(latest, basins))
  }

  /** The collection asi_top10 and asi_summary work on. */
  method FeaturesFor(date: Option<string>, table: Option<seq<CsvRow>>, latest: Option<seq<Feature>>,
                     basins: array<Feature>) returns (r: Result<seq<Feature>, HttpError>)
    modifies basins
    ensures r == Collection(date, table, latest, old(basins[..]))
  {
    if date.Some? && date.value != "" {
      r := GeojsonForDate(date.value, table, basins);
    } else {
      var fs := LatestGeojson(latest, basins);
      r := Ok(fs);
    }
  }
}
