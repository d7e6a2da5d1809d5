/** compute_asi's main, end to end: collect the usable frames, merge them, order
    the keys, score every row, choose the snapshot month and join the basin
    features to it. Reading the CSV files and writing asi_table.csv and
    asi_latest.geojson are not modelled; the sources come in as tables, the
    features as an array updated in place, and the table goes out as rows. */
module Compute {
  import opened Wrappers
  import opened Dates
  import opened Stats
  import opened Features
  import opened Frames
  import opened Table
  import opened Snapshot

  function RowKeys(rows: seq<OutRow>): (ks: seq<Key>)
    ensures |ks| == |rows| && forall i :: 0 <= i < |rows| ==> ks[i] == RowKey(rows[i])
  {
    seq(|rows|, i requires 0 <= i < |rows| => RowKey(rows[i]))
  }

  lemma UsableFramesUnique(grace: RawTable, era5: RawTable, imerg: RawTable)
    requires Usable(grace, "twsa") ==> UniqueKeys(Harmonise(grace, Twsa))
    requires Usable(era5, "sm") ==> UniqueKeys(Harmonise(era5, Sm))
    requires RainColumn(imerg).Some? ==> UniqueKeys(Harmonise(imerg, RainColumn(imerg).value))
    ensures var fs := UsableFrames(grace, era5, imerg);
      && (forall i :: 0 <= i < |fs| ==> UniqueKeys(fs[i]))
      && (forall i, j :: 0 <= i < j < |fs| ==> fs[i].signal != fs[j].signal)
  {
    var g: seq<Frame> := if Usable(grace, "twsa") then [Harmonise(grace, Twsa)] else [];
    var e: seq<Frame> := if Usable(era5, "sm") then [Harmonise(era5, Sm)] else [];
    var r: seq<Frame> := if RainColumn(imerg).Some? then [Harmonise(imerg, RainColumn(imerg).value)] else [];
    var fs := UsableFrames(grace, era5, imerg);
    assert fs == g + e + r;
    forall i | 0 <= i < |fs| ensures UniqueKeys(fs[i]) && fs[i].signal in {Twsa, Sm, Rain, RainDef} {
      if i < |g| { assert fs[i] == g[i]; }
      else if i < |g| + |e| { assert fs[i] == e[i - |g|]; }
      else { assert fs[i] == r[i - |g| - |e|]; }
    }
  }

  lemma MergedKeepsAll(fs: seq<Frame>)
    requires forall i :: 0 <= i < |fs| ==> UniqueKeys(fs[i])
    requires forall i, j :: 0 <= i < j < |fs| ==> fs[i].signal != fs[j].signal
    ensures forall i, j :: 0 <= i < |fs| && 0 <= j < |fs[i].rows| ==>
      fs[i].rows[j].0 in MergedTable(fs) && MergedTable(fs)[fs[i].rows[j].0].Get(fs[i].signal) == fs[i].rows[j].1
  {
    forall i, j | 0 <= i < |fs| && 0 <= j < |fs[i].rows|
      ensures fs[i].rows[j].0 in MergedTable(fs) && MergedTable(fs)[fs[i].rows[j].0].Get(fs[i].signal) == fs[i].rows[j].1
    {
      MergeKeepsRows(fs, i, j);
    }
  }

  /** The scored rows are keyed by the keys they were scored from, so each row is
      the score of its own key against its own table. */
  lemma ScoredRowKeys(df: map<Key, Raw>, ks: seq<Key>, rainCol: Option<Signal>, sqrt: real -> real, rows: seq<OutRow>)
    requires forall k :: k in ks ==> k in df
    requires |rows| == |ks|
    requires forall i :: 0 <= i < |ks| ==> rows[i] == ScoreRow(df, ks, ks[i], rainCol, sqrt)
    ensures RowKeys(rows) == ks
    ensures forall i :: 0 <= i < |rows| ==> rows[i] == ScoreRow(df, RowKeys(rows), RowKey(rows[i]), rainCol, sqrt)
  {
    assert RowKeys(rows) == ks;
  }

  /** Lines 47-80: the usable frames, outer-merged on (basin_id, date), and the
      rain column in use. */
  method MergeSources(grace: RawTable, era5: RawTable, imerg: RawTable)
    returns (r: Result<(map<Key, Raw>, Option<Signal>), PipelineError>)
    ensures r == Err(MissingKeyColumns) <==>
      RainColumn(imerg).Some? && !({"basin_id", "date"} <= imerg.columns)
    ensures r == Err(NoUsableSource) <==>
      !Usable(grace, "twsa") && !Usable(era5, "sm") && RainColumn(imerg).None?
    ensures r.Ok? ==> r.value == (MergedTable(UsableFrames(grace, era5, imerg)), RainColumn(imerg))
  {
    var c := CollectFrames(grace, era5, imerg);
    if c.Err? {
      return Err(c.error);
    }
    UsableFramesSpec(grace, era5, imerg);
    var df := MergeFrames(c.value.0);
    r := Ok((df, c.value.1));
  }

  /** The merged table of the sources has one row per key of any usable source,
      and every source value sits in its own column of its key's row. */
  lemma SourceTableSpec(grace: RawTable, era5: RawTable, imerg: RawTable)
    requires Usable(grace, "twsa") ==> UniqueKeys(Harmonise(grace, Twsa))
    requires Usable(era5, "sm") ==> UniqueKeys(Harmonise(era5, Sm))
    requires RainColumn(imerg).Some? ==> UniqueKeys(Harmonise(imerg, RainColumn(imerg).value))
    ensures var frames := UsableFrames(grace, era5, imerg);
      var df := MergedTable(frames);
      && df.Keys == UnionKeys(frames)
      && (forall i, j :: 0 <= i < |frames| && 0 <= j < |frames[i].rows| ==>
            frames[i].rows[j].0 in df && df[frames[i].rows[j].0].Get(frames[i].signal) == frames[i].rows[j].1)
  {
    var frames := UsableFrames(grace, era5, imerg);
    UsableFramesUnique(grace, era5, imerg);
    MergedTableMerged(frames);
    MergedKeepsAll(frames);
  }

  /** Lines 47-118: the output table. It has one row per key of the merged table,
      in (basin_id, date) order, and every row carries the scores of its key
      against the merged table. */
  method BuildTable(grace: RawTable, era5: RawTable, imerg: RawTable, sqrt: real -> real)
    returns (r: Result<seq<OutRow>, PipelineError>)
    ensures r == Err(MissingKeyColumns) <==>
      RainColumn(imerg).Some? && !({"basin_id", "date"} <= imerg.columns)
    ensures r == Err(NoUsableSource) <==>
      !Usable(grace, "twsa") && !Usable(era5, "sm") && RainColumn(imerg).None?
    ensures r.Ok? ==>
      var rows, df := r.value, MergedTable(UsableFrames(grace, era5, imerg));
      && RowsOrdered(rows)
      && (forall k :: k in RowKeys(rows) <==> k in df)
      && (forall i :: 0 <= i < |rows| ==> rows[i] == ScoreRow(df, RowKeys(rows), RowKey(rows[i]), RainColumn(imerg), sqrt))
  {
    var m := MergeSources(grace, era5, imerg);
    if m.Err? {
      return Err(m.error);
    }
    var df, rainCol := m.value.0, m.value.1;
    var ks := SortKeys(df.Keys);
    var rows := ScoreTable(df, ks, rainCol, sqrt);
    ScoredRowsOrdered(df, ks, rainCol, sqrt, rows);
    ScoredRowKeys(df, ks, rainCol, sqrt, rows);
    r := Ok(rows);
  }

  /** main: the table of BuildTable, then the snapshot month chosen by coverage
      and the basin features joined to its rows. On an error nothing is written
      and the features are untouched. */
  method ComputeAsi(grace: RawTable, era5: RawTable, imerg: RawTable, sqrt: real -> real, features: array<Feature>)
    returns (r: Result<seq<OutRow>, PipelineError>)
    modifies features
    ensures r == Err(MissingKeyColumns) <==>
      RainColumn(imerg).Some? && !({"basin_id", "date"} <= imerg.columns)
    ensures r == Err(NoUsableSource) <==>
      !Usable(grace, "twsa") && !Usable(era5, "sm") && RainColumn(imerg).None?
    ensures r.Ok? ==>
      var rows, df := r.value, MergedTable(UsableFrames(grace, era5, imerg));
      && RowsOrdered(rows)
      && (forall k :: k in RowKeys(rows) <==> k in df)
      && (forall i :: 0 <= i < |rows| ==> rows[i] == ScoreRow(df, RowKeys(rows), RowKey(rows[i]), RainColumn(imerg), sqrt))
    ensures r.Err? ==> unchanged(features)
    ensures r.Ok? ==>
      var m := CoverageMonth(r.value);
      forall i :: 0 <= i < features.Length ==>
        features[i] == old(features[i]).(props := JoinProps(old(features[i]).props, ById(LatestRows(r.value, m)), MonthString(m)))
  {
    r := BuildTable(grace, era5, imerg, sqrt);
    if r.Ok? {
      var m := CoverageMonth(r.value);
      JoinSnapshot(LatestRows(r.value, m), MonthString(m), features);
    }
  }
}
