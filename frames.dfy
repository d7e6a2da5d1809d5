/** The first half of compute_asi's main: the three monthly sources are cut down
    to their key columns and one signal column each ("frames"), and the frames
    are outer-merged on (basin_id, month) into one wide table. */
module Frames {
  import opened Wrappers
  import opened Dates

  /** The measured signals: terrestrial water storage anomaly (GRACE), soil moisture
      (ERA5), and rain or rain deficit (IMERG). */
  datatype Signal = Twsa | Sm | Rain | RainDef

  function Column(s: Signal): (c: string)
    ensures c in {"twsa", "sm", "rain", "rain_def"}
  {
    match s
    case Twsa => "twsa"
    case Sm => "sm"
    case Rain => "rain"
    case RainDef => "rain_def"
  }

  /** One CSV row as read: the basin id already in its `str` form, the raw date
      cell, and the numeric cells by column (None for an empty cell). */
  datatype RawRow = RawRow(basinId: string, date: string, cells: map<string, Option<real>>)

  datatype RawTable = RawTable(columns: set<string>, rows: seq<RawRow>)

  function Cell(r: RawRow, c: string): Option<real> {
    if c in r.cells then r.cells[c] else None
  }

  /** DataFrame.empty: no rows or no columns. */
  predicate Empty(t: RawTable) {
    |t.rows| == 0 || t.columns == {}
  }

  /** A source is used when it is not empty and has both key columns and its
      signal column. */
  predicate Usable(t: RawTable, col: string) {
    !Empty(t) && {"basin_id", "date", col} <= t.columns
  }

  /** The merge key: the basin id and the month of the date, None where the date
      does not parse (pandas NaT, which merges with NaT). */
  datatype Key = Key(basin: string, month: Option<CalMonth>)

  datatype Frame = Frame(signal: Signal, rows: seq<(Key, Option<real>)>)

  /** `t.loc[:, ["basin_id", "date", col]]` with the date mapped to its month. */
  function Harmonise(t: RawTable, s: Signal): (f: Frame)
    ensures f.signal == s && |f.rows| == |t.rows|
    ensures forall i :: 0 <= i < |t.rows| ==>
      f.rows[i] == (Key(t.rows[i].basinId, ToMonth(t.rows[i].date)), Cell(t.rows[i], Column(s)))
  {
    Frame(s, seq(|t.rows|, i requires 0 <= i < |t.rows| =>
      (Key(t.rows[i].basinId, ToMonth(t.rows[i].date)), Cell(t.rows[i], Column(s)))))
  }

  /** The rain column of the IMERG source: "rain" is preferred to "rain_def",
      and an empty source has none. */
  function RainColumn(imerg: RawTable): (s: Option<Signal>)
    ensures s.Some? ==> !Empty(imerg) && Column(s.value) in imerg.columns
    ensures s == Some(Rain) <==> !Empty(imerg) && "rain" in imerg.columns
    ensures s == Some(RainDef) <==> !Empty(imerg) && "rain" !in imerg.columns && "rain_def" in imerg.columns
    ensures s.Some? ==> s.value in {Rain, RainDef}
  {
    if Empty(imerg) then None
    else if "rain" in imerg.columns then Some(Rain)
    else if "rain_def" in imerg.columns then Some(RainDef)
    else None
  }

  datatype PipelineError =
    | NoUsableSource     // SystemExit("No usable CSVs found in data/interim")
    | MissingKeyColumns  // KeyError: the IMERG source has a rain column but lacks a key column

  function Signals(frames: seq<Frame>): seq<Signal> {
    seq(|frames|, i requires 0 <= i < |frames| => frames[i].signal)
  }

  /** The frame list: grace, era5 and imerg, each when usable, in that order. Only
      the IMERG source is cut without checking its key columns, so a missing key
      column there is an error. */
  method CollectFrames(grace: RawTable, era5: RawTable, imerg: RawTable)
    returns (r: Result<(seq<Frame>, Option<Signal>), PipelineError>)
    ensures r == Err(MissingKeyColumns) <==>
      RainColumn(imerg).Some? && !({"basin_id", "date"} <= imerg.columns)
    ensures r == Err(NoUsableSource) <==>
      !Usable(grace, "twsa") && !Usable(era5, "sm") && RainColumn(imerg).None?
    ensures r.Ok? ==> r.value == (UsableFrames(grace, era5, imerg), RainColumn(imerg)) && |r.value.0| > 0
  {
    var frames: seq<Frame> := [];
    if Usable(grace, "twsa") {
      frames := frames + [Harmonise(grace, Twsa)];
    }
    if Usable(era5, "sm") {
      frames := frames + [Harmonise(era5, Sm)];
    }
    var rainCol := RainColumn(imerg);
    if rainCol.Some? {
      if !({"basin_id", "date"} <= imerg.columns) {
        return Err(MissingKeyColumns);
      }
      frames := frames + [Harmonise(imerg, rainCol.value)];
    }
    if frames == [] {
      return Err(NoUsableSource);
    }
    var g: seq<Frame> := if Usable(grace, "twsa") then [Harmonise(grace, Twsa)] else [];
    var e: seq<Frame> := if Usable(era5, "sm") then [Harmonise(era5, Sm)] else [];
    var i: seq<Frame> := if rainCol.Some? then [Harmonise(imerg, rainCol.value)] else [];
    assert frames == g + e + i;
    return Ok((frames, rainCol));
  }

  function UsableFrames(grace: RawTable, era5: RawTable, imerg: RawTable): seq<Frame> {
    (if Usable(grace, "twsa") then [Harmonise(grace, Twsa)] else [])
    + (if Usable(era5, "sm") then [Harmonise(era5, Sm)] else [])
    + (if RainColumn(imerg).Some? then [Harmonise(imerg, RainColumn(imerg).value)] else [])
  }

  /** The frame list holds a frame for exactly the usable sources, each signal at
      most once, each frame cut from its own source. */
  lemma UsableFramesSpec(grace: RawTable, era5: RawTable, imerg: RawTable)
    ensures var frames := UsableFrames(grace, era5, imerg);
      && (Twsa in Signals(frames) <==> Usable(grace, "twsa"))
      && (Sm in Signals(frames) <==> Usable(era5, "sm"))
      && (forall s :: s in {Rain, RainDef} ==> (s in Signals(frames) <==> RainColumn(imerg) == Some(s)))
      && (forall i, j :: 0 <= i < j < |frames| ==> frames[i].signal != frames[j].signal)
      && (forall i :: 0 <= i < |frames| ==>
            frames[i] == Harmonise(SourceOf(frames[i].signal, grace, era5, imerg), frames[i].signal))
  {
    var g: seq<Frame> := if Usable(grace, "twsa") then [Harmonise(grace, Twsa)] else [];
    var e: seq<Frame> := if Usable(era5, "sm") then [Harmonise(era5, Sm)] else [];
    var r: seq<Frame> := if RainColumn(imerg).Some? then [Harmonise(imerg, RainColumn(imerg).value)] else [];
    SignalsConcat(g, e);
    SignalsConcat(g + e, r);
    assert Signals(g) == if Usable(grace, "twsa") then [Twsa] else [];
    assert Signals(e) == if Usable(era5, "sm") then [Sm] else [];
    assert Signals(r) == if RainColumn(imerg).Some? then [RainColumn(imerg).value] else [];
    assert Signals(UsableFrames(grace, era5, imerg)) == Signals(g) + Signals(e) + Signals(r);
  }

  lemma SignalsConcat(a: seq<Frame>, b: seq<Frame>)
    ensures Signals(a + b) == Signals(a) + Signals(b)
  {
  }

  lemma SignalsAppend(frames: seq<Frame>, f: Frame)
    ensures Signals(frames + [f]) == Signals(frames) + [f.signal]
  {
  }

  function SourceOf(s: Signal, grace: RawTable, era5: RawTable, imerg: RawTable): RawTable {
    match s
    case Twsa => grace
    case Sm => era5
    case _ => imerg
  }

  /** Each (basin, month) key occurs at most once in a frame. */
  predicate UniqueKeys(f: Frame) {
    forall i, j :: 0 <= i < j < |f.rows| ==> f.rows[i].0 != f.rows[j].0
  }

  function KeysOf(f: Frame): set<Key> {
    set i | 0 <= i < |f.rows| :: f.rows[i].0
  }

  /** The frame's value at key k; None when k has no row. */
  function Lookup(rows: seq<(Key, Option<real>)>, k: Key): (v: Option<real>)
    ensures v.Some? ==> exists i :: 0 <= i < |rows| && rows[i] == (k, v)
  {
    if rows == [] then None
    else if rows[0].0 == k then rows[0].1
    else
      var v := Lookup(rows[1..], k);
      assert v.Some? ==> exists i :: 1 <= i < |rows| && rows[i] == (k, v) by {
        if v.Some? {
          var j :| 0 <= j < |rows[1..]| && rows[1..][j] == (k, v);
          assert rows[j + 1] == (k, v);
        }
      }
      v
  }

  lemma {:induction false} LookupUnique(rows: seq<(Key, Option<real>)>, i: int)
    requires forall a, b :: 0 <= a < b < |rows| ==> rows[a].0 != rows[b].0
    requires 0 <= i < |rows|
    ensures Lookup(rows, rows[i].0) == rows[i].1
  {
    if i > 0 {
      var tail := rows[1..];
      assert forall a, b :: 0 <= a < b < |tail| ==> tail[a].0 != tail[b].0 by {
        forall a, b | 0 <= a < b < |tail| ensures tail[a].0 != tail[b].0 {
          assert tail[a] == rows[a + 1] && tail[b] == rows[b + 1];
        }
      }
      LookupUnique(tail, i - 1);
    }
  }

  /** One wide row: a value slot per signal. */
  datatype Raw = Raw(twsa: Option<real>, sm: Option<real>, rain: Option<real>, rainDef: Option<real>) {
    function Get(s: Signal): Option<real> {
      match s
      case Twsa => twsa
      case Sm => sm
      case Rain => rain
      case RainDef => rainDef
    }

    function Set(s: Signal, v: Option<real>): (r: Raw)
      ensures r.Get(s) == v
      ensures forall t :: t != s ==> r.Get(t) == Get(t)
    {
      match s
      case Twsa => this.(twsa := v)
      case Sm => this.(sm := v)
      case Rain => this.(rain := v)
      case RainDef => this.(rainDef := v)
    }
  }

  const Blank: Raw := Raw(None, None, None, None)

  /** `pd.merge(df, d, on=["basin_id", "date"], how="outer")`: every key of either
      side, the frame's column filled from the frame and missing where it has no row. */
  function OuterMerge(df: map<Key, Raw>, f: Frame): (m: map<Key, Raw>)
    ensures m.Keys == df.Keys + KeysOf(f)
    ensures forall k :: k in m ==> m[k].Get(f.signal) == Lookup(f.rows, k)
    ensures forall k, s :: k in m && s != f.signal ==>
      m[k].Get(s) == (if k in df then df[k].Get(s) else None)
  {
    map k | k in df.Keys + KeysOf(f) :: (if k in df then df[k] else Blank).Set(f.signal, Lookup(f.rows, k))
  }

  function UnionKeys(frames: seq<Frame>): set<Key> {
    if frames == [] then {} else UnionKeys(frames[..|frames| - 1]) + KeysOf(frames[|frames| - 1])
  }

  lemma {:induction false} UnionKeysMember(frames: seq<Frame>, k: Key)
    ensures k in UnionKeys(frames) <==> exists i :: 0 <= i < |frames| && k in KeysOf(frames[i])
  {
    if frames != [] {
      var init := frames[..|frames| - 1];
      UnionKeysMember(init, k);
      if k in UnionKeys(init) {
        var i :| 0 <= i < |init| && k in KeysOf(init[i]);
        assert frames[i] == init[i];
      }
      if exists i :: 0 <= i < |frames| && k in KeysOf(frames[i]) {
        var i :| 0 <= i < |frames| && k in KeysOf(frames[i]);
        if i < |init| {
          assert init[i] == frames[i];
        }
      }
    }
  }

  /** The frames outer-merged left to right. */
  function MergedTable(fs: seq<Frame>): map<Key, Raw> {
    if fs == [] then map[] else OuterMerge(MergedTable(fs[..|fs| - 1]), fs[|fs| - 1])
  }

  /** df is the outer merge of the frames fs: one entry per key of any frame, each
      frame's slot holding the frame's value at the key, other slots missing. */
  predicate Merged(df: map<Key, Raw>, fs: seq<Frame>) {
    && df == MergedTable(fs)
    && df.Keys == UnionKeys(fs)
    && (forall k, i :: k in df && 0 <= i < |fs| ==> df[k].Get(fs[i].signal) == Lookup(fs[i].rows, k))
    && (forall k, s :: k in df && s !in Signals(fs) ==> df[k].Get(s) == None)
  }

  lemma LookupAbsent(f: Frame, k: Key)
    requires k !in KeysOf(f)
    ensures Lookup(f.rows, k) == None
  {
  }

  /** Merging one more frame, whose signal is new, extends the merge by that frame. */
  lemma MergeStep(df: map<Key, Raw>, fs: seq<Frame>, f: Frame)
    requires Merged(df, fs) && f.signal !in Signals(fs)
    ensures Merged(OuterMerge(df, f), fs + [f])
  {
    var m := OuterMerge(df, f);
    var gs := fs + [f];
    assert gs[..|fs|] == fs;
    assert m == MergedTable(gs);
    SignalsAppend(fs, f);
    forall k, i | k in m && 0 <= i < |gs|
      ensures m[k].Get(gs[i].signal) == Lookup(gs[i].rows, k)
    {
      if i < |fs| {
        assert Signals(fs)[i] == fs[i].signal;
        if k !in df {
          UnionKeysMember(fs, k);
          LookupAbsent(fs[i], k);
        }
      }
    }
  }

  /** Any frame list with distinct signals merges into a table holding every key
      once, with each frame's value in that frame's slot. */
  lemma {:induction false} MergedTableMerged(fs: seq<Frame>)
    requires forall i, j :: 0 <= i < j < |fs| ==> fs[i].signal != fs[j].signal
    ensures Merged(MergedTable(fs), fs)
  {
    if fs != [] {
      var init := fs[..|fs| - 1];
      var f := fs[|fs| - 1];
      MergedTableMerged(init);
      assert f.signal !in Signals(init);
      assert init + [f] == fs;
      MergeStep(MergedTable(init), init, f);
    }
  }

  /** Every row of a frame survives the merge: its key is a key of the merged table
      and its value is in its signal's slot there. */
  lemma MergeKeepsRows(fs: seq<Frame>, i: int, j: int)
    requires forall a, b :: 0 <= a < b < |fs| ==> fs[a].signal != fs[b].signal
    requires 0 <= i < |fs| && UniqueKeys(fs[i]) && 0 <= j < |fs[i].rows|
    ensures fs[i].rows[j].0 in MergedTable(fs)
    ensures MergedTable(fs)[fs[i].rows[j].0].Get(fs[i].signal) == fs[i].rows[j].1
  {
    MergedTableMerged(fs);
    UnionKeysMember(fs, fs[i].rows[j].0);
    assert fs[i].rows[j].0 in KeysOf(fs[i]);
    LookupUnique(fs[i].rows, j);
  }

  /** The merge loop of main: start from the first frame and outer-merge the others
      into it one by one. The merged table has one row per key of any frame, and
      each signal's slot holds that frame's value at the key. */
  method MergeFrames(frames: seq<Frame>) returns (df: map<Key, Raw>)
    requires |frames| > 0
    requires forall i, j :: 0 <= i < j < |frames| ==> frames[i].signal != frames[j].signal
    ensures df == MergedTable(frames)
    ensures df.Keys == UnionKeys(frames)
    ensures forall k, i :: k in df && 0 <= i < |frames| ==> df[k].Get(frames[i].signal) == Lookup(frames[i].rows, k)
    ensures forall k, s :: k in df && s !in Signals(frames) ==> df[k].Get(s) == None
  {
    MergeStep(map[], [], frames[0]);
    df := OuterMerge(map[], frames[0]);
    assert frames[..1] == [] + [frames[0]];
    for n := 1 to |frames|
      invariant Merged(df, frames[..n])
    {
      assert frames[..n + 1] == frames[..n] + [frames[n]];
      assert frames[n].signal !in Signals(frames[..n]);
      MergeStep(df, frames[..n], frames[n]);
      df := OuterMerge(df, frames[n]);
    }
    assert frames[..|frames|] == frames;
  }
}
