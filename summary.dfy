/** asi_summary: how many basins fall in each class, the snapshot's date, and the
    range of the numeric ASI values. */
module Summary {
  import opened Wrappers
  import opened Features
  import opened Query
  import opened Geojson

  /** The summary object: `as_of`, `counts` (a Counter, one entry per class in
      order of first appearance) and `min_asi`/`max_asi`. */
  datatype Report = Report(asOf: Option<string>, counts: seq<(string, nat)>,
                           minAsi: Option<real>, maxAsi: Option<real>)

  /** `.get("class", "no-data")`. */
  function ClassOf(f: Feature): (c: string)
    ensures f.props.cls.Some? ==> c == f.props.cls.value
    ensures f.props.cls.None? ==> c == "no-data"
  {
    f.props.cls.GetOr("no-data")
  }

  function Classes(fs: seq<Feature>): (cs: seq<string>)
    ensures |cs| == |fs| && forall i :: 0 <= i < |fs| ==> cs[i] == ClassOf(fs[i])
  {
    seq(|fs|, i requires 0 <= i < |fs| => ClassOf(fs[i]))
  }

  /** How often c occurs. */
  function Occurrences(xs: seq<string>, c: string): nat {
    if xs == [] then 0
    else Occurrences(xs[..|xs| - 1], c) + (if xs[|xs| - 1] == c then 1 else 0)
  }

  /** The count a tally holds for c, 0 when c has no entry. */
  function CountIn(t: seq<(string, nat)>, c: string): nat {
    if t == [] then 0
    else if t[0].0 == c then t[0].1
    else CountIn(t[1..], c)
  }

  function Total(t: seq<(string, nat)>): nat {
    if t == [] then 0 else t[0].1 + Total(t[1..])
  }

  /** The classes a tally has an entry for. */
  function Keys(t: seq<(string, nat)>): set<string> {
    if t == [] then {} else {t[0].0} + Keys(t[1..])
  }

  /** No class has two entries. */
  predicate DistinctKeys(t: seq<(string, nat)>) {
    t == [] || (t[0].0 !in Keys(t[1..]) && DistinctKeys(t[1..]))
  }

  /** One more occurrence of c: its entry is incremented, or a new entry (c, 1)
      is added at the end. */
  function Bump(t: seq<(string, nat)>, c: string): (u: seq<(string, nat)>)
    ensures Keys(u) == Keys(t) + {c}
  {
    if t == [] then [(c, 1)]
    else if t[0].0 == c then
      var u := [(c, t[0].1 + 1)] + t[1..];
      assert u[1..] == t[1..];
      u
    else
      var u := [t[0]] + Bump(t[1..], c);
      assert u[1..] == Bump(t[1..], c);
      u
  }

  lemma {:induction false} BumpSpec(t: seq<(string, nat)>, c: string)
    requires DistinctKeys(t)
    ensures DistinctKeys(Bump(t, c))
    ensures Total(Bump(t, c)) == Total(t) + 1
    ensures forall d :: CountIn(Bump(t, c), d) == CountIn(t, d) + (if d == c then 1 else 0)
  {
    if t == [] {
      assert Bump(t, c)[1..] == [];
    } else if t[0].0 == c {
      assert Bump(t, c)[1..] == t[1..];
    } else {
      BumpSpec(t[1..], c);
      assert Bump(t, c)[1..] == Bump(t[1..], c);
    }
  }

  /** `Counter(classes)`. */
  function Tally(xs: seq<string>): seq<(string, nat)> {
    if xs == [] then [] else Bump(Tally(xs[..|xs| - 1]), xs[|xs| - 1])
  }

  /** The counter counts every class exactly, holds one entry per class that occurs
      and no other, and its counts add up to the number of features. */
  lemma {:induction false} TallySpec(xs: seq<string>)
    ensures DistinctKeys(Tally(xs))
    ensures Total(Tally(xs)) == |xs|
    ensures forall c :: CountIn(Tally(xs), c) == Occurrences(xs, c)
    ensures forall c :: c in Keys(Tally(xs)) <==> c in xs
  {
    if xs != [] {
      var init := xs[..|xs| - 1];
      TallySpec(init);
      BumpSpec(Tally(init), xs[|xs| - 1]);
      assert xs == init + [xs[|xs| - 1]];
    }
  }

  /** The feature's date is truthy: present and not empty. */
  predicate Dated(f: Feature) {
    f.props.date.Some? && f.props.date.value != ""
  }

  /** The position of the first dated feature; |fs| when there is none. */
  function FirstDated(fs: seq<Feature>): (k: nat)
    ensures k <= |fs|
    ensures forall j :: 0 <= j < k ==> !Dated(fs[j])
    ensures k < |fs| ==> Dated(fs[k])
  {
    if fs == [] then 0
    else if Dated(fs[0]) then 0
    else FirstDated(fs[1..]) + 1
  }

  /** `next((p.get("date") for ... if p.get("date")), None)`. */
  function AsOf(fs: seq<Feature>): (d: Option<string>)
    ensures d.None? <==> forall i :: 0 <= i < |fs| ==> !Dated(fs[i])
    ensures d.Some? ==> d.value != "" && d == fs[FirstDated(fs)].props.date
  {
    var k := FirstDated(fs);
    if k < |fs| then fs[k].props.date else None
  }

  /** The numeric ASI values, unrounded, in feature order. */
  function Asis(fs: seq<Feature>): (xs: seq<real>)
    ensures forall x :: x in xs <==> exists i :: 0 <= i < |fs| && fs[i].props.asi == Some(x)
    ensures xs == [] <==> forall i :: 0 <= i < |fs| ==> fs[i].props.asi.None?
  {
    if fs == [] then []
    else
      var init := fs[..|fs| - 1];
      var f := fs[|fs| - 1];
      assert forall i :: 0 <= i < |init| ==> init[i] == fs[i];
      Asis(init) + (if f.props.asi.Some? then [f.props.asi.value] else [])
  }

  /** `min(asis)`. */
  function MinOf(xs: seq<real>): (m: real)
    requires |xs| > 0
    ensures m in xs && forall x :: x in xs ==> m <= x
  {
    if |xs| == 1 then xs[0]
    else
      var m := MinOf(xs[1..]);
      assert forall x :: x in xs ==> x == xs[0] || x in xs[1..];
      if xs[0] <= m then xs[0] else m
  }

  /** `max(asis)`. */
  function MaxOf(xs: seq<real>): (m: real)
    requires |xs| > 0
    ensures m in xs && forall x :: x in xs ==> x <= m
  {
    if |xs| == 1 then xs[0]
    else
      var m := MaxOf(xs[1..]);
      assert forall x :: x in xs ==> x == xs[0] || x in xs[1..];
      if xs[0] >= m then xs[0] else m
  }

  /** Lines 157-165 on a given collection. */
  function SummaryOf(fs: seq<Feature>): Report {
    var asis := Asis(fs);
    Report(AsOf(fs), Tally(Classes(fs)),
           if asis == [] then None else Some(MinOf(asis)),
           if asis == [] then None else Some(MaxOf(asis)))
  }

  /** What the summary promises: the counts add up to the number of features and
      count each class exactly; min and max are both missing exactly when no
      feature has a numeric ASI, and otherwise are ASI values with min <= max
      bounding all of them. */
  lemma SummarySpec(fs: seq<Feature>)
    ensures var s := SummaryOf(fs);
      && Total(s.counts) == |fs| && DistinctKeys(s.counts)
      && (forall c :: CountIn(s.counts, c) == Occurrences(Classes(fs), c))
      && (s.minAsi.None? <==> forall i :: 0 <= i < |fs| ==> fs[i].props.asi.None?)
      && (s.maxAsi.None? <==> s.minAsi.None?)
      && (s.minAsi.Some? ==>
            s.minAsi.value <= s.maxAsi.value
            && (exists i :: 0 <= i < |fs| && fs[i].props.asi == s.minAsi)
            && (exists i :: 0 <= i < |fs| && fs[i].props.asi == s.maxAsi)
            && forall i :: 0 <= i < |fs| && fs[i].props.asi.Some? ==>
                 s.minAsi.value <= fs[i].props.asi.value <= s.maxAsi.value)
  {
    TallySpec(Classes(fs));
    var asis := Asis(fs);
    if asis != [] {
      assert MinOf(asis) in asis && MaxOf(asis) in asis;
      forall i | 0 <= i < |fs| && fs[i].props.asi.Some?
        ensures MinOf(asis) <= fs[i].props.asi.value <= MaxOf(asis)
      {
        assert fs[i].props.asi.value in asis;
      }
    }
  }

  /** A placeholder-only collection (the latest fallback) counts every basin as
      "no-data" and has no ASI range and no date. */
  lemma FallbackSummary(basins: seq<Feature>)
    ensures var s := SummaryOf(LatestSnapshot(None, basins));
      && CountIn(s.counts, "no-data") == |basins|
      && s.minAsi.None? && s.maxAsi.None? && s.asOf.None?
  {
    var fs := LatestSnapshot(None, basins);
    LatestFallbackNoData(basins);
    TallySpec(Classes(fs));
    SummarySpec(fs);
    AllOccurrences(Classes(fs), "no-data");
  }

  lemma {:induction false} AllOccurrences(xs: seq<string>, c: string)
    requires forall i :: 0 <= i < |xs| ==> xs[i] == c
    ensures Occurrences(xs, c) == |xs|
  {
    if xs != [] {
      AllOccurrences(xs[..|xs| - 1], c);
    }
  }

  /** asi_summary: the month's collection when a date is given, the latest one
      otherwise; its errors pass through. */
  method Summarise(date: Option<string>, table: Option<seq<CsvRow>>, latest: Option<seq<Feature>>,
                   basins: array<Feature>) returns (r: Result<Report, HttpError>)
    modifies basins
    ensures Collection(date, table, latest, old(basins[..])).Err? ==>
      r == Err(Collection(date, table, latest, old(basins[..])).error)
    ensures Collection(date, table, latest, old(basins[..])).Ok? ==>
      r == Ok(SummaryOf(Collection(date, table, latest, old(basins[..])).value))
  {
    var gj := FeaturesFor(date, table, latest, basins);
    if gj.Err? {
      return Err(gj.error);
    }
    r := Ok(SummaryOf(gj.value));
  }
}
