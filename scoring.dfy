/** The Aquifer Stress Index of one basin-month: a weighted mean of the signal
    z-scores that are present, and its four-tier classification. */
module Scoring {
  import opened Wrappers

  const TwsaWeight: real := 0.4
  const SmWeight: real := 0.4
  const RainWeight: real := 0.2
  const AlertThreshold: real := -1.0
  const WatchThreshold: real := -0.5

  datatype Class = NoData | Alert | Watch | Normal {
    /** The label written to the table and to feature properties. */
    function Label(): (s: string)
      ensures |s| > 0
    {
      match this
      case NoData => "no-data"
      case Alert => "alert"
      case Watch => "watch"
      case Normal => "normal"
    }

    /** How severe the tier is: alert 2, watch 1, normal 0; no-data has no severity. */
    function Severity(): (k: int)
      requires this != NoData
      ensures 0 <= k <= 2
    {
      match this
      case Alert => 2
      case Watch => 1
      case Normal => 0
    }
  }

  /** _classify: a missing ASI is no-data; otherwise the thresholds -1.0 and -0.5
      are inclusive upper bounds of alert and watch. */
  function Classify(asi: Option<real>): (c: Class)
    ensures c == NoData <==> asi.None?
    ensures asi.Some? ==> (c == Alert <==> asi.value <= AlertThreshold)
    ensures asi.Some? ==> (c == Watch <==> AlertThreshold < asi.value <= WatchThreshold)
    ensures asi.Some? ==> (c == Normal <==> WatchThreshold < asi.value)
  {
    match asi
    case None => NoData
    case Some(v) =>
      if v <= AlertThreshold then Alert
      else if v <= WatchThreshold then Watch
      else Normal
  }

  /** A lower index never means less stress. */
  lemma ClassifyMonotone(a: real, b: real)
    requires a <= b
    ensures Classify(Some(a)).Severity() >= Classify(Some(b)).Severity()
  {
  }

  /** The labels of different tiers differ, so the written class names the tier. */
  lemma LabelInjective(c: Class, d: Class)
    requires c.Label() == d.Label()
    ensures c == d
  {
  }

  /** The boundaries belong to the more severe tier. */
  lemma ClassifyBoundaries()
    ensures Classify(Some(-1.0)) == Alert
    ensures Classify(Some(-0.5)) == Watch
    ensures Classify(Some(-0.4999)) == Normal
    ensures Classify(Some(-1.0001)) == Alert
  {
  }

  function Negate(z: Option<real>): (r: Option<real>)
    ensures r.Some? <==> z.Some?
    ensures r.Some? ==> r.value + z.value == 0.0
  {
    match z
    case None => None
    case Some(v) => Some(-v)
  }

  function Mask(z: Option<real>): real {
    if z.Some? then 1.0 else 0.0
  }

  /** The ASI as the code computes it: missing z-scores are filled with 0 in the
      numerator and masked out of the denominator, and the quotient is taken only
      where the denominator is positive. */
  function Composite(twsaZ: Option<real>, smZ: Option<real>, rainZ: Option<real>): (asi: Option<real>)
  {
    var num := twsaZ.GetOr(0.0) * TwsaWeight + smZ.GetOr(0.0) * SmWeight + rainZ.GetOr(0.0) * RainWeight;
    var den := Mask(twsaZ) * TwsaWeight + Mask(smZ) * SmWeight + Mask(rainZ) * RainWeight;
    if den > 0.0 then Some(num / den) else None
  }

  /** The (weight, z) pairs of the components that are present, in column order. */
  function Components(twsaZ: Option<real>, smZ: Option<real>, rainZ: Option<real>): (ps: seq<(real, real)>)
    ensures |ps| <= 3
    ensures forall i :: 0 <= i < |ps| ==> ps[i].0 > 0.0
  {
    (if twsaZ.Some? then [(TwsaWeight, twsaZ.value)] else [])
    + (if smZ.Some? then [(SmWeight, smZ.value)] else [])
    + (if rainZ.Some? then [(RainWeight, rainZ.value)] else [])
  }

  function WeightSum(ps: seq<(real, real)>): real {
    if ps == [] then 0.0 else WeightSum(ps[..|ps| - 1]) + ps[|ps| - 1].0
  }

  function WeightedSum(ps: seq<(real, real)>): real {
    if ps == [] then 0.0 else WeightedSum(ps[..|ps| - 1]) + ps[|ps| - 1].0 * ps[|ps| - 1].1
  }

  /** The reference definition: Σ wᵢ·zᵢ / Σ wᵢ over the present components. */
  function WeightedMean(ps: seq<(real, real)>): (m: Option<real>)
    requires forall i :: 0 <= i < |ps| ==> ps[i].0 > 0.0
  {
    if ps == [] then None
    else
      WeightSumPositive(ps);
      Some(WeightedSum(ps) / WeightSum(ps))
  }

  lemma {:induction false} WeightSumPositive(ps: seq<(real, real)>)
    requires forall i :: 0 <= i < |ps| ==> ps[i].0 > 0.0
    ensures ps != [] ==> WeightSum(ps) > 0.0
    ensures WeightSum(ps) >= 0.0
  {
    if ps != [] {
      var init := ps[..|ps| - 1];
      assert forall i :: 0 <= i < |init| ==> init[i] == ps[i];
      WeightSumPositive(init);
    }
  }

  /** The weighted sums of three optional components, unrolled. */
  lemma ComponentSums(twsaZ: Option<real>, smZ: Option<real>, rainZ: Option<real>)
    ensures var ps := Components(twsaZ, smZ, rainZ);
            WeightSum(ps) == Mask(twsaZ) * TwsaWeight + Mask(smZ) * SmWeight + Mask(rainZ) * RainWeight
            && WeightedSum(ps) == twsaZ.GetOr(0.0) * TwsaWeight + smZ.GetOr(0.0) * SmWeight + rainZ.GetOr(0.0) * RainWeight
  {
    var a: seq<(real, real)> := if twsaZ.Some? then [(TwsaWeight, twsaZ.value)] else [];
    var b: seq<(real, real)> := if smZ.Some? then [(SmWeight, smZ.value)] else [];
    var c: seq<(real, real)> := if rainZ.Some? then [(RainWeight, rainZ.value)] else [];
    var ab := a + b;
    assert WeightSum(a) == Mask(twsaZ) * TwsaWeight && WeightedSum(a) == twsaZ.GetOr(0.0) * TwsaWeight;
    if b != [] {
      assert ab[..|ab| - 1] == a;
    } else {
      assert ab == a;
    }
    if c != [] {
      assert (ab + c)[..|ab + c| - 1] == ab;
    } else {
      assert ab + c == ab;
    }
  }

  /** The masked computation is the weighted mean of the present components with
      the nominal weights 0.4/0.4/0.2, re-normalised over those present. */
  lemma CompositeIsWeightedMean(twsaZ: Option<real>, smZ: Option<real>, rainZ: Option<real>)
    ensures Composite(twsaZ, smZ, rainZ) == WeightedMean(Components(twsaZ, smZ, rainZ))
  {
    ComponentSums(twsaZ, smZ, rainZ);
    WeightSumPositive(Components(twsaZ, smZ, rainZ));
  }

  /** The ASI is missing exactly when every component is missing. */
  lemma CompositeMissingIff(twsaZ: Option<real>, smZ: Option<real>, rainZ: Option<real>)
    ensures Composite(twsaZ, smZ, rainZ).None? <==> twsaZ.None? && smZ.None? && rainZ.None?
  {
  }

  predicate Within(z: Option<real>, lo: real, hi: real) {
    z.Some? ==> lo <= z.value <= hi
  }

  /** A weighted mean lies between the smallest and the largest present z-score:
      any interval holding every present component holds the ASI. */
  lemma CompositeBetween(twsaZ: Option<real>, smZ: Option<real>, rainZ: Option<real>, lo: real, hi: real)
    requires Within(twsaZ, lo, hi) && Within(smZ, lo, hi) && Within(rainZ, lo, hi)
    ensures Within(Composite(twsaZ, smZ, rainZ), lo, hi)
  {
    var num := twsaZ.GetOr(0.0) * TwsaWeight + smZ.GetOr(0.0) * SmWeight + rainZ.GetOr(0.0) * RainWeight;
    var den := Mask(twsaZ) * TwsaWeight + Mask(smZ) * SmWeight + Mask(rainZ) * RainWeight;
    if den > 0.0 {
      var a, b, c := Mask(twsaZ) * TwsaWeight, Mask(smZ) * SmWeight, Mask(rainZ) * RainWeight;
      WeightedTermBetween(twsaZ, TwsaWeight, lo, hi);
      WeightedTermBetween(smZ, SmWeight, lo, hi);
      WeightedTermBetween(rainZ, RainWeight, lo, hi);
      assert lo * den == lo * a + lo * b + lo * c;
      assert hi * den == hi * a + hi * b + hi * c;
      BoundQuotient(num, den, lo, hi);
    }
  }

  /** One zero-filled weighted term lies between the bounds scaled by its masked weight. */
  lemma WeightedTermBetween(z: Option<real>, w: real, lo: real, hi: real)
    requires w > 0.0 && Within(z, lo, hi)
    ensures lo * (Mask(z) * w) <= z.GetOr(0.0) * w <= hi * (Mask(z) * w)
  {
    if z.Some? {
      assert lo * (Mask(z) * w) == lo * w;
      assert hi * (Mask(z) * w) == hi * w;
    } else {
      assert lo * (Mask(z) * w) == 0.0;
      assert hi * (Mask(z) * w) == 0.0;
    }
  }

  lemma BoundQuotient(num: real, den: real, lo: real, hi: real)
    requires den > 0.0 && lo * den <= num <= hi * den
    ensures lo <= num / den <= hi
  {
  }

  /** With all three components present the weights are used as they are. */
  lemma CompositeAllPresent(t: real, s: real, r: real)
    ensures Composite(Some(t), Some(s), Some(r)) == Some(0.4 * t + 0.4 * s + 0.2 * r)
  {
  }

  /** Without rain the two remaining components count equally. */
  lemma CompositeWithoutRain(t: real, s: real)
    ensures Composite(Some(t), Some(s), None) == Some((t + s) / 2.0)
  {
  }

  /** A single present component is the ASI itself. */
  lemma CompositeSingle(z: real)
    ensures Composite(Some(z), None, None) == Some(z)
    ensures Composite(None, Some(z), None) == Some(z)
    ensures Composite(None, None, Some(z)) == Some(z)
  {
    var num := None.GetOr(0.0) * TwsaWeight + None.GetOr(0.0) * SmWeight + Some(z).GetOr(0.0) * RainWeight;
    var den := Mask(None) * TwsaWeight + Mask(None) * SmWeight + Mask(Some(z)) * RainWeight;
    assert num == z * 0.2 && den == 0.2;
    assert num / den == z;
  }
}
