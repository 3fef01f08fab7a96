/** Similarity scoring: `compare_timing_profiles`, which weighs the normalised
    differences of four features and turns their total into a score. */
module Scoring {
  import Stats
  import opened Features

  /** The keys that are scored, in the order of the `weights` dictionary. */
  const WeightedKeys: seq<FeatureKey> := [Mean, Median, Stdev, TotalTime]

  const ScoredKeys: set<FeatureKey> := {Mean, Median, Stdev, TotalTime}

  /** `weights[key]`; the minimum and the maximum are not scored. */
  function Weight(k: FeatureKey): real
    requires k in ScoredKeys
  {
    match k
    case Mean => 0.3
    case Median => 0.2
    case Stdev => 0.2
    case TotalTime => 0.3
    case Min | Max => 0.0
  }

  function Abs(x: real): real {
    if x < 0.0 then -x else x
  }

  /** `max(a, b)` */
  function Larger(a: real, b: real): real {
    if b > a then b else a
  }

  /** A profile the scorer can read: empty, or holding every scored key. Any
      other dictionary makes the source fail with a missing key. */
  predicate Scorable(p: FeatureMap) {
    |p| == 0 || ScoredKeys <= p.Keys
  }

  /** The term that one key adds to the total difference: nothing when both
      values are zero, an unweighted 1 when exactly one is, and otherwise the
      weighted difference relative to the larger value. */
  function KeyDiff(k: FeatureKey, a: real, b: real): real
    requires k in ScoredKeys
  {
    if a == 0.0 && b == 0.0 then 0.0
    else if a == 0.0 || b == 0.0 then 1.0
    else Abs(a - b) / Larger(a, b) * Weight(k)
  }

  /** The `diffs` list of two non-empty profiles. */
  function Diffs(p1: FeatureMap, p2: FeatureMap): (d: seq<real>)
    requires ScoredKeys <= p1.Keys && ScoredKeys <= p2.Keys
    ensures |d| == |WeightedKeys|
  {
    seq(|WeightedKeys|, i requires 0 <= i < |WeightedKeys| =>
      KeyDiff(WeightedKeys[i], p1[WeightedKeys[i]], p2[WeightedKeys[i]]))
  }

  /** The score `compare_timing_profiles(p1, p2)` returns: zero if either
      profile is empty, otherwise one minus the total difference, floored at zero. */
  function Similarity(p1: FeatureMap, p2: FeatureMap): (r: real)
    requires Scorable(p1) && Scorable(p2)
    ensures 0.0 <= r
    ensures |p1| == 0 || |p2| == 0 ==> r == 0.0
  {
    if |p1| == 0 || |p2| == 0 then 0.0
    else
      var similarity := 1.0 - Stats.Sum(Diffs(p1, p2));
      if similarity < 0.0 then 0.0 else similarity
  }

  /** `compare_timing_profiles(profile1, profile2)`: accumulates the per-key
      differences in a list, sums them and floors the result at zero. */
  method CompareTimingProfiles(profile1: FeatureMap, profile2: FeatureMap) returns (similarity: real)
    requires Scorable(profile1) && Scorable(profile2)
    ensures similarity == Similarity(profile1, profile2)
  {
    if |profile1| == 0 || |profile2| == 0 {
      return 0.0;
    }
    ghost var d := Diffs(profile1, profile2);
    var diffs: seq<real> := [];
    var i := 0;
    while i < |WeightedKeys|
      invariant 0 <= i <= |WeightedKeys|
      invariant diffs == d[..i]
    {
      var key := WeightedKeys[i];
      var a, b := profile1[key], profile2[key];
      assert d[i] == KeyDiff(key, a, b);
      assert d[..i + 1] == d[..i] + [d[i]];
      if a == 0.0 && b == 0.0 {
        diffs := diffs + [0.0];
      } else if a == 0.0 || b == 0.0 {
        diffs := diffs + [1.0];
      } else {
        var diff := Abs(a - b) / Larger(a, b);
        diffs := diffs + [diff * Weight(key)];
      }
      i := i + 1;
    }
    assert diffs == d;
    var totalDiff := Stats.Sum(diffs);
    similarity := 1.0 - totalDiff;
    if similarity < 0.0 {
      similarity := 0.0;
    }
  }

  /** The score of a profile against itself is 1 for any non-empty profile. */
  lemma SimilarityWithItself(p: FeatureMap)
    requires ScoredKeys <= p.Keys
    ensures Similarity(p, p) == 1.0
  {
    var d := Diffs(p, p);
    forall i | 0 <= i < |d| ensures d[i] == 0.0 {
      var k := WeightedKeys[i];
      if p[k] != 0.0 {
        assert Abs(p[k] - p[k]) == 0.0;
      }
    }
    Stats.SumBounds(d, 0.0, 0.0);
  }

  lemma KeyDiffSymmetric(k: FeatureKey, a: real, b: real)
    requires k in ScoredKeys
    ensures KeyDiff(k, a, b) == KeyDiff(k, b, a)
  {
    assert Abs(a - b) == Abs(b - a);
    assert Larger(a, b) == Larger(b, a);
  }

  /** The score does not depend on the order of the two profiles. */
  lemma SimilaritySymmetric(p1: FeatureMap, p2: FeatureMap)
    requires Scorable(p1) && Scorable(p2)
    ensures Similarity(p1, p2) == Similarity(p2, p1)
  {
    if |p1| > 0 && |p2| > 0 {
      var d1, d2 := Diffs(p1, p2), Diffs(p2, p1);
      forall i | 0 <= i < |d1| ensures d1[i] == d2[i] {
        var k := WeightedKeys[i];
        KeyDiffSymmetric(k, p1[k], p2[k]);
      }
      assert d1 == d2;
    }
  }

  /** Non-negative values never give a negative difference, and two positive
      values give less than the key's weight. */
  lemma KeyDiffBounds(k: FeatureKey, a: real, b: real)
    requires k in ScoredKeys
    requires 0.0 <= a && 0.0 <= b
    ensures 0.0 <= KeyDiff(k, a, b)
    ensures 0.0 < a && 0.0 < b ==> KeyDiff(k, a, b) < Weight(k)
  {
    if 0.0 < a && 0.0 < b {
      var m := Larger(a, b);
      var q := Abs(a - b) / m;
      assert Abs(a - b) < m;
      FractionBelowOne(Abs(a - b), m);
      assert KeyDiff(k, a, b) == q * Weight(k);
      calc {
        q * Weight(k);
      < { ProductBelow(q, Weight(k)); }
        Weight(k);
      }
    }
  }

  lemma FractionBelowOne(x: real, y: real)
    requires 0.0 <= x < y
    ensures 0.0 <= x / y < 1.0
  {
    assert x / y * y == x;
  }

  lemma ProductBelow(q: real, w: real)
    requires 0.0 <= q < 1.0 && 0.0 < w
    ensures 0.0 <= q * w < w
  {
  }

  /** No scored value of the profile is negative; the other keys may hold anything. */
  predicate NonNegativeScored(p: FeatureMap)
    requires ScoredKeys <= p.Keys
  {
    NonNegativeValues(map k | k in ScoredKeys :: p[k])
  }

  lemma DiffsNonNegative(p1: FeatureMap, p2: FeatureMap)
    requires ScoredKeys <= p1.Keys && ScoredKeys <= p2.Keys
    requires NonNegativeScored(p1) && NonNegativeScored(p2)
    ensures Stats.NonNegative(Diffs(p1, p2))
  {
    var d := Diffs(p1, p2);
    forall i | 0 <= i < |d| ensures 0.0 <= d[i] {
      var k := WeightedKeys[i];
      assert k in (map k | k in ScoredKeys :: p1[k]) && k in (map k | k in ScoredKeys :: p2[k]);
      KeyDiffBounds(k, p1[k], p2[k]);
    }
  }

  /** For non-negative features the score never exceeds 1, so it always lies
      in [0, 1]. */
  lemma SimilarityAtMostOne(p1: FeatureMap, p2: FeatureMap)
    requires Scorable(p1) && Scorable(p2)
    requires |p1| > 0 && |p2| > 0 ==> NonNegativeScored(p1) && NonNegativeScored(p2)
    ensures Similarity(p1, p2) <= 1.0
  {
    if |p1| > 0 && |p2| > 0 {
      DiffsNonNegative(p1, p2);
      Stats.SumNonNegative(Diffs(p1, p2));
    }
  }

  /** If exactly one of the two profiles has zero for a scored key, that key
      adds an unweighted 1 to the total difference, and the score is 0. */
  lemma ZeroMismatchScoresZero(p1: FeatureMap, p2: FeatureMap, k: FeatureKey)
    requires ScoredKeys <= p1.Keys && ScoredKeys <= p2.Keys
    requires NonNegativeScored(p1) && NonNegativeScored(p2)
    requires k in ScoredKeys
    requires (p1[k] == 0.0) != (p2[k] == 0.0)
    ensures Similarity(p1, p2) == 0.0
  {
    var d := Diffs(p1, p2);
    var i := Position(k);
    assert d[i] == 1.0;
    DiffsNonNegative(p1, p2);
    SumAtLeastElement(d, i);
  }

  lemma {:induction false} SumAtLeastElement(s: seq<real>, i: int)
    requires Stats.NonNegative(s)
    requires 0 <= i < |s|
    ensures s[i] <= Stats.Sum(s)
  {
    var init := s[..|s| - 1];
    assert Stats.NonNegative(init);
    Stats.SumNonNegative(init);
    if i < |s| - 1 {
      SumAtLeastElement(init, i);
    }
  }

  /** Where a scored key sits in `WeightedKeys`. */
  function Position(k: FeatureKey): (i: nat)
    requires k in ScoredKeys
    ensures i < |WeightedKeys| && WeightedKeys[i] == k
  {
    match k
    case Mean => 0
    case Median => 1
    case Stdev => 2
    case TotalTime => 3
    case Min | Max => 0
  }

  lemma SumOfFour(d: seq<real>)
    requires |d| == 4
    ensures Stats.Sum(d) == d[0] + d[1] + d[2] + d[3]
  {
    assert d[..3][..2][..1][..0] == [];
    assert Stats.Sum(d[..3][..2][..1]) == d[0];
    assert Stats.Sum(d[..3][..2]) == d[0] + d[1];
    assert Stats.Sum(d[..3]) == d[0] + d[1] + d[2];
  }

  /** When every scored value of both profiles is positive, each key adds less
      than its weight, the weights sum to 1, and the score is positive. */
  lemma AllPositiveScoresPositive(p1: FeatureMap, p2: FeatureMap)
    requires ScoredKeys <= p1.Keys && ScoredKeys <= p2.Keys
    requires forall k :: k in ScoredKeys ==> 0.0 < p1[k] && 0.0 < p2[k]
    ensures 0.0 < Similarity(p1, p2)
  {
    var d := Diffs(p1, p2);
    KeyDiffBounds(Mean, p1[Mean], p2[Mean]);
    KeyDiffBounds(Median, p1[Median], p2[Median]);
    KeyDiffBounds(Stdev, p1[Stdev], p2[Stdev]);
    KeyDiffBounds(TotalTime, p1[TotalTime], p2[TotalTime]);
    assert d[0] < 0.3 && d[1] < 0.2 && d[2] < 0.2 && d[3] < 0.3;
    SumOfFour(d);
  }

  /** Two profiles that agree on mean, median and total time, and whose standard
      deviations are both positive, score above 0.8: only the spread, weighted
      0.2, can differ. */
  lemma OnlySpreadDiffers(p1: FeatureMap, p2: FeatureMap)
    requires ScoredKeys <= p1.Keys && ScoredKeys <= p2.Keys
    requires p1[Mean] == p2[Mean] && p1[Median] == p2[Median] && p1[TotalTime] == p2[TotalTime]
    requires 0.0 < p1[Stdev] && 0.0 < p2[Stdev]
    ensures 0.8 < Similarity(p1, p2)
  {
    var d := Diffs(p1, p2);
    KeyDiffBounds(Stdev, p1[Stdev], p2[Stdev]);
    assert d[0] <= 0.0 && d[1] <= 0.0 && d[3] <= 0.0 by {
      forall k | k in {Mean, Median, TotalTime} ensures KeyDiff(k, p1[k], p2[k]) == 0.0 {
        assert Abs(p1[k] - p2[k]) == 0.0;
      }
    }
    assert d[2] < 0.2;
    SumOfFour(d);
  }
}
