/** asi_top10: the basins with a numeric ASI, optionally restricted to a set of
    classes, ordered from the most stressed (lowest ASI) up, and cut to a limit. */
module Ranking {
  import opened Wrappers
  import opened Text
  import opened Numbers
  import opened Features
  import opened Query
  import opened Geojson

  /** One entry of the ranking. */
  datatype RankRow = RankRow(basinId: Option<string>, name: Option<string>, asi: real,
                             cls: Option<string>, date: Option<string>)

  /** `p.get("basin_id") or f.get("id")`: an absent or empty basin id falls back
      to the feature's own id. */
  function RankId(f: Feature): (id: Option<string>)
    ensures f.props.basinId.Some? && f.props.basinId.value != "" ==> id == f.props.basinId
    ensures f.props.basinId.None? || f.props.basinId.value == "" ==> id == f.id
  {
    if f.props.basinId.Some? && f.props.basinId.value != "" then f.props.basinId else f.id
  }

  /** The entry of a feature with a numeric ASI, the ASI rounded by `_r`. */
  function Entry(f: Feature): (r: RankRow)
    requires f.props.asi.Some?
    ensures Some(r.asi) == R(Num(f.props.asi.value))
  {
    RankRow(RankId(f), f.props.name, Round3(f.props.asi.value), f.props.cls, f.props.date)
  }

  /** The entries of the features with a numeric ASI, in feature order. */
  function Candidates(fs: seq<Feature>): (rows: seq<RankRow>)
    ensures |rows| <= |fs|
    ensures forall r :: r in rows ==> exists i :: 0 <= i < |fs| && fs[i].props.asi.Some? && r == Entry(fs[i])
    ensures forall i :: 0 <= i < |fs| && fs[i].props.asi.Some? ==> Entry(fs[i]) in rows
  {
    if fs == [] then []
    else
      var init := fs[..|fs| - 1];
      var f := fs[|fs| - 1];
      assert forall i :: 0 <= i < |init| ==> init[i] == fs[i];
      Candidates(init) + (if f.props.asi.Some? then [Entry(f)] else [])
  }

  /** The indices of the features with a numeric ASI, in feature order. */
  function NumericAt(fs: seq<Feature>): (ps: seq<nat>)
    ensures forall k :: 0 <= k < |ps| ==> ps[k] < |fs| && fs[ps[k]].props.asi.Some?
    ensures forall k, l :: 0 <= k < l < |ps| ==> ps[k] < ps[l]
    ensures forall i :: 0 <= i < |fs| && fs[i].props.asi.Some? ==> i in ps
  {
    if fs == [] then []
    else
      var init := fs[..|fs| - 1];
      assert forall i :: 0 <= i < |init| ==> init[i] == fs[i];
      NumericAt(init) + (if fs[|fs| - 1].props.asi.Some? then [|fs| - 1] else [])
  }

  /** The candidates are one entry per numeric feature, in feature order: the k-th
      candidate is the entry of the k-th feature with a numeric ASI. */
  lemma {:induction false} CandidatesInOrder(fs: seq<Feature>)
    ensures var rows, ps := Candidates(fs), NumericAt(fs);
      |rows| == |ps| && forall k :: 0 <= k < |ps| ==> fs[ps[k]].props.asi.Some? && rows[k] == Entry(fs[ps[k]])
  {
    if fs != [] {
      var init := fs[..|fs| - 1];
      CandidatesInOrder(init);
      assert forall i :: 0 <= i < |init| ==> init[i] == fs[i];
      var rows0, ps0 := Candidates(init), NumericAt(init);
      var rows, ps := Candidates(fs), NumericAt(fs);
      forall k | 0 <= k < |ps| ensures fs[ps[k]].props.asi.Some? && rows[k] == Entry(fs[ps[k]]) {
        if k < |ps0| {
          assert rows[k] == rows0[k] && ps[k] == ps0[k];
        }
      }
    }
  }

  /** `{c.strip() for c in classes.split(",") if c.strip()}`. */
  function ParseClasses(classes: string): (wanted: set<string>)
    ensures forall w :: w in wanted ==> w != "" && ',' !in w && Strip(w) == w
    ensures forall piece :: piece in Split(classes, ',') && Strip(piece) != "" ==> Strip(piece) in wanted
    ensures forall w :: w in wanted ==> exists piece :: piece in Split(classes, ',') && Strip(piece) == w
  {
    var ws := set piece | piece in Split(classes, ',') && Strip(piece) != "" :: Strip(piece);
    forall w | w in ws ensures ',' !in w && Strip(w) == w {
      var piece :| piece in Split(classes, ',') && Strip(piece) != "" && Strip(piece) == w;
      StripIdempotent(piece);
      StripInfix(piece, ',');
    }
    ws
  }

  /** Stripping a string without a character leaves a string without it. */
  lemma StripInfix(s: string, c: char)
    requires c !in s
    ensures c !in Strip(s)
  {
    var t := Strip(s);
    var l := LeadingSpaces(s);
    forall k | 0 <= k < |t| ensures t[k] != c {
      assert t[k] == s[l + k];
    }
  }

  /** An entry passes the class filter: the filter is off, or its class is wanted. */
  predicate Passes(r: RankRow, wanted: set<string>) {
    wanted == {} || (r.cls.Some? && r.cls.value in wanted)
  }

  /** The class filter: applied only when the parsed set is not empty; an entry
      without a class never passes it. */
  function KeepClasses(rows: seq<RankRow>, wanted: set<string>): (kept: seq<RankRow>)
    ensures wanted == {} ==> kept == rows
    ensures wanted != {} ==> forall r :: r in kept ==> r.cls.Some? && r.cls.value in wanted
    ensures forall r :: r in rows && Passes(r, wanted) ==> r in kept
    ensures multiset(kept) <= multiset(rows)
  {
    if wanted == {} || rows == [] then rows
    else
      var init := rows[..|rows| - 1];
      var r := rows[|rows| - 1];
      assert rows == init + [r];
      var rest := KeepClasses(init, wanted);
      if Passes(r, wanted) then rest + [r] else rest
  }

  /** The indices of the entries that pass the filter, in order. */
  function PassingAt(rows: seq<RankRow>, wanted: set<string>): (ps: seq<nat>)
    ensures forall k :: 0 <= k < |ps| ==> ps[k] < |rows| && Passes(rows[ps[k]], wanted)
    ensures forall k, l :: 0 <= k < l < |ps| ==> ps[k] < ps[l]
    ensures forall i :: 0 <= i < |rows| && Passes(rows[i], wanted) ==> i in ps
    ensures wanted == {} ==> |ps| == |rows| && forall k :: 0 <= k < |ps| ==> ps[k] == k
  {
    if rows == [] then []
    else
      var init := rows[..|rows| - 1];
      assert forall i :: 0 <= i < |init| ==> init[i] == rows[i];
      PassingAt(init, wanted) + (if Passes(rows[|rows| - 1], wanted) then [|rows| - 1] else [])
  }

  /** The filter keeps the passing entries, each once and in their order: the k-th
      kept entry is the k-th passing one. */
  lemma {:induction false} KeepClassesInOrder(rows: seq<RankRow>, wanted: set<string>)
    ensures var kept, ps := KeepClasses(rows, wanted), PassingAt(rows, wanted);
      |kept| == |ps| && forall k :: 0 <= k < |ps| ==> kept[k] == rows[ps[k]]
  {
    if rows != [] {
      var init := rows[..|rows| - 1];
      KeepClassesInOrder(init, wanted);
      assert forall i :: 0 <= i < |init| ==> init[i] == rows[i];
      var kept0, ps0 := KeepClasses(init, wanted), PassingAt(init, wanted);
      var kept, ps := KeepClasses(rows, wanted), PassingAt(rows, wanted);
      if wanted != {} {
        forall k | 0 <= k < |ps| ensures kept[k] == rows[ps[k]] {
          if k < |ps0| {
            assert ps[k] == ps0[k] && kept[k] == kept0[k];
          }
        }
      }
    }
  }

  predicate Sorted(rows: seq<RankRow>) {
    forall i, j :: 0 <= i < j < |rows| ==> rows[i].asi <= rows[j].asi
  }

  /** Places x before the first entry whose ASI is not below it. */
  function Insert(x: RankRow, s: seq<RankRow>): (r: seq<RankRow>)
    ensures multiset(r) == multiset(s) + multiset{x}
    ensures Sorted(s) ==> Sorted(r)
  {
    if s == [] then [x]
    else if x.asi <= s[0].asi then
      [x] + s
    else
      var rest := Insert(x, s[1..]);
      assert s == [s[0]] + s[1..];
      assert Sorted(s) ==> forall y :: y in rest ==> s[0].asi <= y.asi by {
        if Sorted(s) {
          forall y | y in rest ensures s[0].asi <= y.asi {
            assert y in multiset(rest);
            if y != x {
              assert y in multiset(s[1..]);
            }
          }
        }
      }
      [s[0]] + rest
  }

  /** `rows.sort(key=lambda r: r["asi"])`: Python's sort is a stable sort, written
      here as an insertion sort. */
  function SortByAsi(rows: seq<RankRow>): (sorted: seq<RankRow>)
    ensures Sorted(sorted)
    ensures multiset(sorted) == multiset(rows)
  {
    if rows == [] then []
    else
      assert rows == [rows[0]] + rows[1..];
      Insert(rows[0], SortByAsi(rows[1..]))
  }

  /** The entries with ASI v, in their order. */
  function WithAsi(rows: seq<RankRow>, v: real): seq<RankRow> {
    if rows == [] then []
    else (if rows[0].asi == v then [rows[0]] else []) + WithAsi(rows[1..], v)
  }

  lemma {:induction false} InsertStable(x: RankRow, s: seq<RankRow>, v: real)
    requires Sorted(s)
    ensures WithAsi(Insert(x, s), v) == (if x.asi == v then [x] else []) + WithAsi(s, v)
  {
    if s == [] || x.asi <= s[0].asi {
      assert Insert(x, s) == [x] + s;
      WithAsiCons(x, s, v);
    } else {
      InsertStable(x, s[1..], v);
      assert Insert(x, s) == [s[0]] + Insert(x, s[1..]);
      assert s == [s[0]] + s[1..];
      InsertStableStep(x, s[0], Insert(x, s[1..]), s[1..], v);
    }
  }

  /** The step past a smaller head y: x sorts strictly after y, so at most one of
      the two has ASI v and their order among the v-entries does not matter. */
  lemma InsertStableStep(x: RankRow, y: RankRow, rest: seq<RankRow>, tail: seq<RankRow>, v: real)
    requires y.asi < x.asi
    requires WithAsi(rest, v) == (if x.asi == v then [x] else []) + WithAsi(tail, v)
    ensures WithAsi([y] + rest, v) == (if x.asi == v then [x] else []) + WithAsi([y] + tail, v)
  {
    WithAsiCons(y, rest, v);
    WithAsiCons(y, tail, v);
    if x.asi == v {
      assert y.asi != v;
    } else {
      assert WithAsi(rest, v) == WithAsi(tail, v);
    }
  }

  lemma WithAsiCons(y: RankRow, s: seq<RankRow>, v: real)
    ensures WithAsi([y] + s, v) == (if y.asi == v then [y] else []) + WithAsi(s, v)
  {
    assert ([y] + s)[1..] == s;
  }

  /** The sort is stable: entries with equal ASI keep their relative order. */
  lemma {:induction false} SortStable(rows: seq<RankRow>, v: real)
    ensures WithAsi(SortByAsi(rows), v) == WithAsi(rows, v)
  {
    if rows != [] {
      SortStable(rows[1..], v);
      InsertStable(rows[0], SortByAsi(rows[1..]), v);
    }
  }

  lemma {:induction false} WithAsiAppend(a: seq<RankRow>, b: seq<RankRow>, v: real)
    ensures WithAsi(a + b, v) == WithAsi(a, v) + WithAsi(b, v)
  {
    if a == [] {
      assert a + b == b;
    } else {
      WithAsiAppend(a[1..], b, v);
      assert a == [a[0]] + a[1..] && a + b == [a[0]] + (a[1..] + b);
      WithAsiCons(a[0], a[1..] + b, v);
      WithAsiCons(a[0], a[1..], v);
    }
  }

  /** `max(0, int(limit))`. */
  function Cap(limit: int): (n: nat)
    ensures n == 0 <==> limit <= 0
    ensures limit > 0 ==> n == limit
  {
    if limit < 0 then 0 else limit
  }

  /** `rows[:max(0, int(limit))]`: the first Cap(limit) entries, or all of them
      when there are fewer. */
  function Take(rows: seq<RankRow>, limit: int): (out: seq<RankRow>)
    ensures |out| <= Cap(limit) && |out| <= |rows|
    ensures |out| == |rows| || |out| == Cap(limit)
    ensures out == rows[..|out|]
  {
    if Cap(limit) <= |rows| then rows[..Cap(limit)] else rows
  }

  /** The whole ranking of a feature collection. */
  function Ranked(fs: seq<Feature>, limit: int, classes: string): seq<RankRow> {
    Take(SortByAsi(KeepClasses(Candidates(fs), ParseClasses(classes))), limit)
  }

  /** What the ranking promises: no more than max(0, limit) entries (none for a
      limit of 0 or below), only features with a numeric ASI, ascending ASI, and
      only the wanted classes when any class was named. */
  lemma RankedSpec(fs: seq<Feature>, limit: int, classes: string)
    ensures var out := Ranked(fs, limit, classes);
      && |out| <= Cap(limit)
      && Sorted(out)
      && (forall r :: r in out ==> r in Candidates(fs))
      && (ParseClasses(classes) != {} ==> forall r :: r in out ==> r.cls.Some? && r.cls.value in ParseClasses(classes))
  {
    var kept := KeepClasses(Candidates(fs), ParseClasses(classes));
    var sorted := SortByAsi(kept);
    var out := Ranked(fs, limit, classes);
    forall r | r in out ensures r in kept {
      assert r in multiset(sorted);
    }
    forall r | r in kept ensures r in Candidates(fs) {
      assert r in multiset(Candidates(fs));
    }
  }

  /** Ties keep the order of the filtered candidates, which is feature order: the
      returned entries with ASI v are the first ones with ASI v among the kept
      candidates, in the same order. */
  lemma RankedTies(fs: seq<Feature>, limit: int, classes: string, v: real)
    ensures var out, kept := Ranked(fs, limit, classes), KeepClasses(Candidates(fs), ParseClasses(classes));
      WithAsi(out, v) <= WithAsi(kept, v)
  {
    var kept := KeepClasses(Candidates(fs), ParseClasses(classes));
    var sorted := SortByAsi(kept);
    var out := Ranked(fs, limit, classes);
    assert sorted == out + sorted[|out|..];
    WithAsiAppend(out, sorted[|out|..], v);
    SortStable(kept, v);
  }

  /** The entries left out are never more stressed than the ones shown: a kept
      entry missing from the output means the output is full and every shown ASI
      is at most the missing one's. */
  lemma RankedSmallest(fs: seq<Feature>, limit: int, classes: string, x: RankRow)
    requires x in KeepClasses(Candidates(fs), ParseClasses(classes))
    requires x !in Ranked(fs, limit, classes)
    ensures |Ranked(fs, limit, classes)| == Cap(limit)
    ensures forall r :: r in Ranked(fs, limit, classes) ==> r.asi <= x.asi
  {
    var kept := KeepClasses(Candidates(fs), ParseClasses(classes));
    var sorted := SortByAsi(kept);
    var out := Ranked(fs, limit, classes);
    assert x in multiset(sorted);
    var j :| 0 <= j < |sorted| && sorted[j] == x;
    assert j >= |out|;
  }

  /** Lines 135-152 on a given collection: the candidate loop, then the filter,
      the sort and the cut. */
  method RankFeatures(fs: seq<Feature>, limit: int, classes: string) returns (out: seq<RankRow>)
    ensures out == Ranked(fs, limit, classes)
    ensures |out| <= Cap(limit)
    ensures Sorted(out)
  {
    var wanted := ParseClasses(classes);
    var rows: seq<RankRow> := [];
    for i := 0 to |fs|
      invariant rows == Candidates(fs[..i])
    {
      assert fs[..i + 1][..i] == fs[..i];
      var p := fs[i].props;
      if p.asi.Some? {
        rows := rows + [Entry(fs[i])];
      }
    }
    assert fs[..|fs|] == fs;
    if wanted != {} {
      rows := KeepClasses(rows, wanted);
    }
    rows := SortByAsi(rows);
    out := Take(rows, limit);
  }

  /** asi_top10: the month's collection when a date is given, the latest one
      otherwise; its errors pass through. */
  method Top10(limit: int, classes: string, date: Option<string>, table: Option<seq<CsvRow>>,
               latest: Option<seq<Feature>>, basins: array<Feature>)
    returns (r: Result<seq<RankRow>, HttpError>)
    modifies basins
    ensures Collection(date, table, latest, old(basins[..])).Err? ==>
      r == Err(Collection(date, table, latest, old(basins[..])).error)
    ensures Collection(date, table, latest, old(basins[..])).Ok? ==>
      r == Ok(Ranked(Collection(date, table, latest, old(basins[..])).value, limit, classes))
  {
    var gj := FeaturesFor(date, table, latest, basins);
    if gj.Err? {
      return Err(gj.error);
    }
    var out := RankFeatures(gj.value, limit, classes);
    r := Ok(out);
  }
}
