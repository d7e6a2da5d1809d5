/** The end of compute_asi's main: the "latest" month is chosen by coverage, and
    the basin features are joined to that month's rows (asi_latest.geojson). */
module Snapshot {
  import opened Wrappers
  import opened Dates
  import opened Numbers
  import opened Scoring
  import opened Features
  import opened Table

  /** A row counts towards the choice when its date parsed and, when coverage is
      asked for, it has an ASI. */
  predicate Eligible(r: OutRow, withAsi: bool) {
    r.month.Some? && (withAsi ==> r.asi.Some?)
  }

  /** The latest month among eligible rows; None when no row is eligible. */
  function LatestMonth(rows: seq<OutRow>, withAsi: bool): (m: Option<CalMonth>)
    ensures m.None? <==> forall i :: 0 <= i < |rows| ==> !Eligible(rows[i], withAsi)
    ensures m.Some? ==> exists i :: 0 <= i < |rows| && Eligible(rows[i], withAsi) && rows[i].month == m
    ensures m.Some? ==> forall i :: 0 <= i < |rows| && Eligible(rows[i], withAsi) ==>
      !Before(m.value, rows[i].month.value)
  {
    if rows == [] then None
    else
      var init := rows[..|rows| - 1];
      var r := rows[|rows| - 1];
      var m := LatestMonth(init, withAsi);
      assert forall i :: 0 <= i < |init| ==> init[i] == rows[i];
      if !Eligible(r, withAsi) then m
      else if m.None? || Before(m.value, r.month.value) then r.month
      else m
  }

  /** Lines 122-125: the latest month having at least one ASI, falling back to the
      latest month present; None when no date parsed. */
  function CoverageMonth(rows: seq<OutRow>): (m: Option<CalMonth>)
  {
    var covered := LatestMonth(rows, true);
    if covered.Some? then covered else LatestMonth(rows, false)
  }

  /** The coverage choice, stated outright: when some dated row has an ASI, the
      chosen month is a month with an ASI and no later month has one; otherwise it
      is the latest month of any dated row; and it is missing only when no date
      parsed at all. */
  lemma CoverageMonthSpec(rows: seq<OutRow>)
    ensures var m := CoverageMonth(rows);
      && (m.None? <==> forall i :: 0 <= i < |rows| ==> rows[i].month.None?)
      && ((exists i :: 0 <= i < |rows| && Eligible(rows[i], true)) ==>
            m.Some?
            && (exists i :: 0 <= i < |rows| && rows[i].asi.Some? && rows[i].month == m)
            && (forall i :: 0 <= i < |rows| && rows[i].asi.Some? && rows[i].month.Some? ==>
                  !Before(m.value, rows[i].month.value)))
      && ((forall i :: 0 <= i < |rows| ==> !Eligible(rows[i], true)) ==>
            m == LatestMonth(rows, false)
            && (m.Some? ==> forall i :: 0 <= i < |rows| && rows[i].month.Some? ==>
                  !Before(m.value, rows[i].month.value)))
  {
    var m := CoverageMonth(rows);
    if forall i :: 0 <= i < |rows| ==> rows[i].month.None? {
      assert forall i :: 0 <= i < |rows| ==> !Eligible(rows[i], true);
    }
    if m.None? {
      assert forall i :: 0 <= i < |rows| ==> !Eligible(rows[i], false);
    }
  }

  /** `df_out[df_out["date_dt"] == latest_dt]`: the rows of the chosen month in
      table order; none when the month is missing (NaT equals nothing). */
  function LatestRows(rows: seq<OutRow>, m: Option<CalMonth>): (out: seq<OutRow>)
    ensures m.None? ==> out == []
    ensures forall r :: r in out ==> r in rows && r.month == m
    ensures forall i :: 0 <= i < |rows| && m.Some? && rows[i].month == m ==> rows[i] in out
  {
    if rows == [] || m.None? then []
    else
      var init := LatestRows(rows[..|rows| - 1], m);
      var r := rows[|rows| - 1];
      assert forall i :: 0 <= i < |rows| - 1 ==> rows[..|rows| - 1][i] == rows[i];
      if r.month == m then init + [r] else init
  }

  /** `latest_str`: the chosen month written as its first day, or None. */
  function MonthString(m: Option<CalMonth>): (s: Option<string>)
    ensures s.Some? <==> m.Some?
    ensures m.Some? ==> s.value == FormatMonthStart(m.value)
  {
    match m
    case Some(v) => Some(FormatMonthStart(v))
    case None => None
  }

  /** `{str(r["basin_id"]): r for r in latest}`: each basin id maps to its row,
      a later row replacing an earlier one with the same id. */
  function ById(rows: seq<OutRow>): (byId: map<string, OutRow>)
    ensures forall b :: b in byId <==> exists i :: 0 <= i < |rows| && rows[i].basinId == b
    ensures forall b :: b in byId ==> byId[b] in rows && byId[b].basinId == b
  {
    if rows == [] then map[]
    else
      var init := rows[..|rows| - 1];
      var r := rows[|rows| - 1];
      assert forall i :: 0 <= i < |init| ==> init[i] == rows[i];
      ById(init)[r.basinId := r]
  }

  /** compute_asi's `_r`: None for a missing value, else round(x, 3). */
  function RoundScore(z: Option<real>): (r: Option<real>)
    ensures r.Some? <==> z.Some?
    ensures r.Some? ==> z.value - 0.0005 <= r.value <= z.value + 0.0005
  {
    match z
    case Some(v) => Some(Round3(v))
    case None => None
  }

  /** Rounding keeps the rain scores exact negations of each other. */
  lemma RoundScoreNegate(z: Option<real>)
    ensures RoundScore(Negate(z)) == Negate(RoundScore(z))
  {
    if z.Some? {
      Round3Odd(z.value);
    }
  }

  /** The properties a feature ends with: a matched feature takes the row's date,
      rounded scores, rounded ASI, class label and a name falling back to the id;
      an unmatched one takes the placeholder with the snapshot's date. */
  function JoinProps(p: Props, byId: map<string, OutRow>, latestStr: Option<string>): Props {
    var bid := BasinKey(p);
    if bid in byId then
      var row := byId[bid];
      p.(date := RowDate(row),
         twsaZ := RoundScore(row.twsaZ), smZ := RoundScore(row.smZ),
         rainZ := RoundScore(row.rainZ), rainDefZ := RoundScore(row.rainDefZ),
         asi := RoundScore(row.asi), cls := Some(row.cls.Label()),
         name := Some(NameOr(p, bid)))
    else NoDataProps(p, latestStr)
  }

  /** A feature whose id has no row for the month gets no ASI and the class
      "no-data"; its name is left alone. */
  lemma JoinUnmatched(p: Props, byId: map<string, OutRow>, latestStr: Option<string>)
    requires BasinKey(p) !in byId
    ensures var q := JoinProps(p, byId, latestStr);
      q.asi.None? && q.cls == Some("no-data") && q.date == latestStr && q.name == p.name
      && q.twsaZ.None? && q.smZ.None? && q.rainZ.None? && q.rainDefZ.None?
  {
  }

  /** A matched feature's ASI is the row's, to within rounding; its class is the
      row's tier; its name is never missing and falls back to the basin id; and the
      rain scores stay exact negations of each other. */
  lemma JoinMatched(p: Props, byId: map<string, OutRow>, latestStr: Option<string>)
    requires BasinKey(p) in byId
    requires byId[BasinKey(p)].rainDefZ == Negate(byId[BasinKey(p)].rainZ)
    ensures var q, row := JoinProps(p, byId, latestStr), byId[BasinKey(p)];
      && (q.asi.Some? <==> row.asi.Some?)
      && (q.asi.Some? ==> row.asi.value - 0.0005 <= q.asi.value <= row.asi.value + 0.0005)
      && q.cls == Some(row.cls.Label())
      && (row.cls != NoData ==> q.cls != Some("no-data"))
      && q.name.Some? && (p.name.None? || p.name.value == "" ==> q.name == Some(BasinKey(p)))
      && q.rainDefZ == Negate(q.rainZ)
  {
    var row := byId[BasinKey(p)];
    RoundScoreNegate(row.rainZ);
  }

  /** Every feature of the snapshot carries the snapshot's date, matched or not. */
  lemma JoinDate(p: Props, rows: seq<OutRow>, m: Option<CalMonth>)
    ensures JoinProps(p, ById(LatestRows(rows, m)), MonthString(m)).date == MonthString(m)
  {
    var byId := ById(LatestRows(rows, m));
    var bid := BasinKey(p);
    if bid in byId {
      assert byId[bid] in LatestRows(rows, m);
    }
  }

  /** The GeoJSON loop of main: every feature's properties are updated in place;
      features keep their order, ids and geometry. */
  method JoinSnapshot(latest: seq<OutRow>, latestStr: Option<string>, features: array<Feature>)
    modifies features
    ensures forall i :: 0 <= i < features.Length ==>
      features[i] == old(features[i]).(props := JoinProps(old(features[i]).props, ById(latest), latestStr))
  {
    var byId := ById(latest);
    for i := 0 to features.Length
      invariant forall j :: 0 <= j < i ==>
        features[j] == old(features[j]).(props := JoinProps(old(features[j]).props, byId, latestStr))
      invariant forall j :: i <= j < features.Length ==> features[j] == old(features[j])
    {
      var f := features[i];
      features[i] := f.(props := JoinProps(f.props, byId, latestStr));
    }
  }
}
