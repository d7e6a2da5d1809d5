/** The second half of compute_asi's main: the merged table is ordered by
    (basin_id, date), every signal becomes a z-score against its basin's own
    history, the rain scores get their signs, and the ASI and its class are added. */
module Table {
  import opened Wrappers
  import opened Text
  import opened Dates
  import opened Stats
  import opened Scoring
  import opened Frames

  /** Month order with missing months (NaT) last, as sort_values places them. */
  predicate MonthLess(a: Option<CalMonth>, b: Option<CalMonth>) {
    match (a, b)
    case (Some(x), Some(y)) => Before(x, y)
    case (Some(_), None) => true
    case _ => false
  }

  /** `sort_values(["basin_id", "date"])`: by basin id as a string, then by month. */
  predicate KeyLess(a: Key, b: Key) {
    LexLess(a.basin, b.basin) || (a.basin == b.basin && MonthLess(a.month, b.month))
  }

  lemma KeyLessIrreflexive(a: Key)
    ensures !KeyLess(a, a)
  {
    LexIrreflexive(a.basin);
  }

  lemma KeyLessTransitive(a: Key, b: Key, c: Key)
    requires KeyLess(a, b) && KeyLess(b, c)
    ensures KeyLess(a, c)
  {
    if LexLess(a.basin, b.basin) && LexLess(b.basin, c.basin) {
      LexTransitive(a.basin, b.basin, c.basin);
    }
  }

  /** Distinct keys are always ordered one way, so the order of the output is fixed. */
  lemma KeyLessTotal(a: Key, b: Key)
    requires a != b
    ensures KeyLess(a, b) || KeyLess(b, a)
  {
    LexTotal(a.basin, b.basin);
  }

  lemma KeyLessAsymmetric(a: Key, b: Key)
    requires KeyLess(a, b)
    ensures !KeyLess(b, a)
  {
    if LexLess(a.basin, b.basin) {
      LexAsymmetric(a.basin, b.basin);
    } else {
      LexIrreflexive(a.basin);
    }
  }

  predicate StrictlySorted(ks: seq<Key>) {
    forall i, j :: 0 <= i < j < |ks| ==> KeyLess(ks[i], ks[j])
  }

  /** ks with k placed before the first key above it. */
  function Insert(ks: seq<Key>, k: Key): seq<Key> {
    if ks == [] then [k]
    else if KeyLess(k, ks[0]) then [k] + ks
    else [ks[0]] + Insert(ks[1..], k)
  }

  lemma {:induction false} InsertSorted(ks: seq<Key>, k: Key)
    requires StrictlySorted(ks) && k !in ks
    ensures StrictlySorted(Insert(ks, k))
    ensures |Insert(ks, k)| == |ks| + 1
    ensures forall x :: x in Insert(ks, k) <==> x in ks || x == k
  {
    if ks == [] {
    } else if KeyLess(k, ks[0]) {
      forall j | 0 <= j < |ks|
        ensures KeyLess(k, ks[j])
      {
        if j > 0 { KeyLessTransitive(k, ks[0], ks[j]); }
      }
    } else {
      var tail := ks[1..];
      assert StrictlySorted(tail) by {
        forall i, j | 0 <= i < j < |tail| ensures KeyLess(tail[i], tail[j]) {
          assert tail[i] == ks[i + 1] && tail[j] == ks[j + 1];
        }
      }
      InsertSorted(tail, k);
      KeyLessTotal(k, ks[0]);
      var r := Insert(tail, k);
      forall j | 0 <= j < |r|
        ensures KeyLess(ks[0], r[j])
      {
        if r[j] != k {
          assert r[j] in r;
          assert r[j] in tail;
          var m :| 0 <= m < |tail| && tail[m] == r[j];
          assert ks[m + 1] == r[j];
        }
      }
    }
  }

  /** The ordering step, as a selection from the set of merged keys: the result
      holds every key once, in increasing order. */
  method SortKeys(keys: set<Key>) returns (ks: seq<Key>)
    ensures StrictlySorted(ks)
    ensures forall k :: k in ks <==> k in keys
    ensures |ks| == |keys|
  {
    ks := [];
    var rest := keys;
    while rest != {}
      invariant rest <= keys
      invariant StrictlySorted(ks)
      invariant forall k :: k in ks <==> k in keys && k !in rest
      invariant |ks| + |rest| == |keys|
      decreases |rest|
    {
      var k :| k in rest;
      InsertSorted(ks, k);
      ks := Insert(ks, k);
      rest := rest - {k};
    }
  }

  /** Two increasing sequences of the same keys are the same sequence: the order
      of the output table is fully determined by its keys. */
  lemma {:induction false} SortedUnique(xs: seq<Key>, ys: seq<Key>)
    requires StrictlySorted(xs) && StrictlySorted(ys)
    requires forall k :: k in xs <==> k in ys
    ensures xs == ys
  {
    if xs != [] && ys != [] {
      if xs[0] != ys[0] {
        KeyLessTotal(xs[0], ys[0]);
        assert xs[0] in xs && ys[0] in ys;
        var i :| 0 <= i < |ys| && ys[i] == xs[0];
        var j :| 0 <= j < |xs| && xs[j] == ys[0];
        if KeyLess(xs[0], ys[0]) {
          KeyLessAsymmetric(xs[0], ys[0]);
        }
        assert false;
      }
      var xt, yt := xs[1..], ys[1..];
      forall k ensures k in xt <==> k in yt {
        if k in xt {
          var i :| 0 <= i < |xt| && xt[i] == k;
          assert xs[i + 1] == k;
          KeyLessIrreflexive(k);
          assert k in ys && k != ys[0];
          var j :| 0 <= j < |ys| && ys[j] == k;
          assert j > 0 && yt[j - 1] == k;
        }
        if k in yt {
          var i :| 0 <= i < |yt| && yt[i] == k;
          assert ys[i + 1] == k;
          KeyLessIrreflexive(k);
          assert k in xs && k != xs[0];
          var j :| 0 <= j < |xs| && xs[j] == k;
          assert j > 0 && xt[j - 1] == k;
        }
      }
      assert StrictlySorted(xt) by {
        forall i, j | 0 <= i < j < |xt| ensures KeyLess(xt[i], xt[j]) {
          assert xt[i] == xs[i + 1] && xt[j] == xs[j + 1];
        }
      }
      assert StrictlySorted(yt) by {
        forall i, j | 0 <= i < j < |yt| ensures KeyLess(yt[i], yt[j]) {
          assert yt[i] == ys[i + 1] && yt[j] == ys[j + 1];
        }
      }
      SortedUnique(xt, yt);
    } else {
      SameElementsEmpty(xs, ys);
    }
  }

  lemma SameElementsEmpty(xs: seq<Key>, ys: seq<Key>)
    requires forall k :: k in xs <==> k in ys
    ensures xs == [] <==> ys == []
  {
    if xs != [] { assert xs[0] in ys; }
    if ys != [] { assert ys[0] in xs; }
  }

  /** The non-missing values of signal s among basin b's rows, in table order:
      the sample `groupby("basin_id")[col]` hands to the z-score. */
  function BasinValues(df: map<Key, Raw>, ks: seq<Key>, b: string, s: Signal): seq<real>
    requires forall k :: k in ks ==> k in df
  {
    if ks == [] then []
    else
      var k := ks[|ks| - 1];
      var init := BasinValues(df, ks[..|ks| - 1], b, s);
      if k.basin == b && df[k].Get(s).Some? then init + [df[k].Get(s).value] else init
  }

  /** _z_by_basin at key k: the value's standard score against its basin's sample. */
  function ZOf(df: map<Key, Raw>, ks: seq<Key>, k: Key, s: Signal, sqrt: real -> real): Option<real>
    requires forall k :: k in ks ==> k in df
    requires k in df
  {
    ZScore(BasinValues(df, ks, k.basin, s), df[k].Get(s), sqrt)
  }

  /** One row of the output table. */
  datatype OutRow = OutRow(
    basinId: string,
    month: Option<CalMonth>,
    values: Raw,
    twsaZ: Option<real>,
    smZ: Option<real>,
    rainZ: Option<real>,
    rainDefZ: Option<real>,
    asi: Option<real>,
    cls: Class)

  function RowKey(r: OutRow): Key {
    Key(r.basinId, r.month)
  }

  /** The date column as written: strftime("%Y-%m-%d") of the month, empty for NaT. */
  function RowDate(r: OutRow): (d: Option<string>)
    ensures d.Some? <==> r.month.Some?
  {
    match r.month
    case Some(m) => Some(FormatMonthStart(m))
    case None => None
  }

  /** The rain score pair: the loaded column is standardised and the other score
      is its negation; without a rain column both are missing. */
  function RainScores(df: map<Key, Raw>, ks: seq<Key>, k: Key, rainCol: Option<Signal>, sqrt: real -> real)
    : (rz: (Option<real>, Option<real>))
    requires forall k :: k in ks ==> k in df
    requires k in df
  {
    match rainCol
    case Some(Rain) =>
      var z := ZOf(df, ks, k, Rain, sqrt);
      (z, Negate(z))
    case Some(RainDef) =>
      var d := ZOf(df, ks, k, RainDef, sqrt);
      (Negate(d), d)
    case _ => (None, None)
  }

  /** The scored row for key k. */
  function ScoreRow(df: map<Key, Raw>, ks: seq<Key>, k: Key, rainCol: Option<Signal>, sqrt: real -> real)
    : (r: OutRow)
    requires forall k :: k in ks ==> k in df
    requires k in df
    ensures RowKey(r) == k && r.values == df[k]
  {
    var twsaZ := ZOf(df, ks, k, Twsa, sqrt);
    var smZ := ZOf(df, ks, k, Sm, sqrt);
    var (rainZ, rainDefZ) := RainScores(df, ks, k, rainCol, sqrt);
    var asi := Composite(twsaZ, smZ, rainZ);
    OutRow(k.basin, k.month, df[k], twsaZ, smZ, rainZ, rainDefZ, asi, Classify(asi))
  }

  /** The column assignments of main, row by row over the ordered keys. */
  method ScoreTable(df: map<Key, Raw>, ks: seq<Key>, rainCol: Option<Signal>, sqrt: real -> real)
    returns (rows: seq<OutRow>)
    requires forall k :: k in ks ==> k in df
    ensures |rows| == |ks|
    ensures forall i :: 0 <= i < |ks| ==> rows[i] == ScoreRow(df, ks, ks[i], rainCol, sqrt)
  {
    rows := [];
    for i := 0 to |ks|
      invariant |rows| == i
      invariant forall j :: 0 <= j < i ==> rows[j] == ScoreRow(df, ks, ks[j], rainCol, sqrt)
    {
      rows := rows + [ScoreRow(df, ks, ks[i], rainCol, sqrt)];
    }
  }

  /** The output table is ordered by basin id and then by month, one row per key. */
  predicate RowsOrdered(rows: seq<OutRow>) {
    forall i, j :: 0 <= i < j < |rows| ==> KeyLess(RowKey(rows[i]), RowKey(rows[j]))
  }

  lemma ScoredRowsOrdered(df: map<Key, Raw>, ks: seq<Key>, rainCol: Option<Signal>, sqrt: real -> real, rows: seq<OutRow>)
    requires forall k :: k in ks ==> k in df
    requires StrictlySorted(ks) && |rows| == |ks|
    requires forall i :: 0 <= i < |ks| ==> rows[i] == ScoreRow(df, ks, ks[i], rainCol, sqrt)
    ensures RowsOrdered(rows)
  {
    forall i, j | 0 <= i < j < |rows|
      ensures KeyLess(RowKey(rows[i]), RowKey(rows[j]))
    {
      assert RowKey(rows[i]) == ks[i] && RowKey(rows[j]) == ks[j];
    }
  }

  lemma NegateNegate(z: Option<real>)
    ensures Negate(Negate(z)) == z
  {
  }

  /** The rain and rain-deficit scores are exact negations of each other, whichever
      column was loaded, and both are missing without a rain column. */
  lemma RainSign(df: map<Key, Raw>, ks: seq<Key>, k: Key, rainCol: Option<Signal>, sqrt: real -> real)
    requires forall k :: k in ks ==> k in df
    requires k in df
    ensures var r := ScoreRow(df, ks, k, rainCol, sqrt);
      && r.rainDefZ == Negate(r.rainZ) && r.rainZ == Negate(r.rainDefZ)
      && (rainCol == Some(Rain) ==> r.rainZ == ZOf(df, ks, k, Rain, sqrt))
      && (rainCol == Some(RainDef) ==> r.rainDefZ == ZOf(df, ks, k, RainDef, sqrt))
      && (rainCol.None? ==> r.rainZ.None? && r.rainDefZ.None?)
  {
    NegateNegate(ZOf(df, ks, k, Rain, sqrt));
    NegateNegate(ZOf(df, ks, k, RainDef, sqrt));
  }

  /** The ASI of a row is the re-normalised weighted mean of its present scores,
      and its class is the classification of that ASI. */
  lemma RowAsi(df: map<Key, Raw>, ks: seq<Key>, k: Key, rainCol: Option<Signal>, sqrt: real -> real)
    requires forall k :: k in ks ==> k in df
    requires k in df
    ensures var r := ScoreRow(df, ks, k, rainCol, sqrt);
      && r.asi == WeightedMean(Components(r.twsaZ, r.smZ, r.rainZ))
      && (r.asi.None? <==> r.twsaZ.None? && r.smZ.None? && r.rainZ.None?)
      && r.cls == Classify(r.asi)
  {
    var r := ScoreRow(df, ks, k, rainCol, sqrt);
    CompositeIsWeightedMean(r.twsaZ, r.smZ, r.rainZ);
    CompositeMissingIff(r.twsaZ, r.smZ, r.rainZ);
  }

  /** A basin's sample depends on that basin's rows only. */
  lemma {:induction false} BasinValuesLocal(df1: map<Key, Raw>, df2: map<Key, Raw>, ks: seq<Key>, b: string, s: Signal)
    requires forall k :: k in ks ==> k in df1 && k in df2
    requires forall k :: k in ks && k.basin == b ==> df1[k] == df2[k]
    ensures BasinValues(df1, ks, b, s) == BasinValues(df2, ks, b, s)
  {
    if ks != [] {
      BasinValuesLocal(df1, df2, ks[..|ks| - 1], b, s);
      assert ks[|ks| - 1] in ks;
    }
  }

  /** Changing the values of other basins leaves every score of a basin unchanged:
      the standardisation is by basin. */
  lemma ScoreLocal(df1: map<Key, Raw>, df2: map<Key, Raw>, ks: seq<Key>, k: Key, rainCol: Option<Signal>,
                   sqrt: real -> real)
    requires forall k :: k in ks ==> k in df1 && k in df2
    requires k in ks
    requires forall j :: j in ks && j.basin == k.basin ==> df1[j] == df2[j]
    ensures ScoreRow(df1, ks, k, rainCol, sqrt) == ScoreRow(df2, ks, k, rainCol, sqrt)
  {
    BasinValuesLocal(df1, df2, ks, k.basin, Twsa);
    BasinValuesLocal(df1, df2, ks, k.basin, Sm);
    BasinValuesLocal(df1, df2, ks, k.basin, Rain);
    BasinValuesLocal(df1, df2, ks, k.basin, RainDef);
  }

  /** A present value of a listed key is part of its basin's sample. */
  lemma {:induction false} BasinValuesHas(df: map<Key, Raw>, ks: seq<Key>, k: Key, s: Signal)
    requires forall k :: k in ks ==> k in df
    requires k in ks && df[k].Get(s).Some?
    ensures df[k].Get(s).value in BasinValues(df, ks, k.basin, s)
  {
    var last := ks[|ks| - 1];
    if last != k {
      var init := ks[..|ks| - 1];
      var i :| 0 <= i < |ks| && ks[i] == k;
      assert init[i] == k;
      BasinValuesHas(df, init, k, s);
    }
  }

  /** A z-score is present exactly when the value is present and the basin's sample
      of that signal is not constant; a constant history gives missing scores, never 0. */
  lemma ZPresentIff(df: map<Key, Raw>, ks: seq<Key>, k: Key, s: Signal, sqrt: real -> real)
    requires forall k :: k in ks ==> k in df
    requires k in ks && IsSqrt(sqrt)
    ensures ZOf(df, ks, k, s, sqrt).Some? <==>
      df[k].Get(s).Some? && !AllEqual(BasinValues(df, ks, k.basin, s))
  {
    var xs := BasinValues(df, ks, k.basin, s);
    ZScorePresentIff(xs, df[k].Get(s), sqrt);
    if df[k].Get(s).Some? {
      BasinValuesHas(df, ks, k, s);
    }
  }
}
