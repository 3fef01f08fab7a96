/** Enrollment aggregation: the loops of `enroll_user` that average, key by key,
    the features of every sample with at least two intervals. */
module Aggregation {
  import Stats
  import opened Features

  /** The samples `calculate_timing_features` accepts, in sample order. */
  function Qualified(allTimings: seq<seq<real>>): (q: seq<seq<real>>)
    ensures forall i :: 0 <= i < |q| ==> |q[i]| >= 2
  {
    if |allTimings| == 0 then []
    else
      var n := |allTimings| - 1;
      Qualified(allTimings[..n]) + (if |allTimings[n]| >= 2 then [allTimings[n]] else [])
  }

  /** The features of the accepted samples, in sample order. */
  function SampleFeatures(allTimings: seq<seq<real>>, root: Stats.Root): (fs: seq<Features>)
    ensures |fs| == |Qualified(allTimings)|
  {
    var q := Qualified(allTimings);
    seq(|q|, i requires 0 <= i < |q| => Extract(q[i], root).value)
  }

  /** Every accepted sample is one of the samples. */
  lemma {:induction false} QualifiedFrom(allTimings: seq<seq<real>>)
    ensures forall t :: t in Qualified(allTimings) ==> t in allTimings
  {
    if |allTimings| > 0 {
      var n := |allTimings| - 1;
      QualifiedFrom(allTimings[..n]);
      forall t | t in allTimings[..n] ensures t in allTimings {
        var i :| 0 <= i < n && allTimings[..n][i] == t;
        assert allTimings[i] == t;
      }
    }
  }

  /** When every sample has at least two intervals, all of them are accepted. */
  lemma {:induction false} QualifiedAll(allTimings: seq<seq<real>>)
    requires forall i :: 0 <= i < |allTimings| ==> |allTimings[i]| >= 2
    ensures Qualified(allTimings) == allTimings
  {
    if |allTimings| > 0 {
      var n := |allTimings| - 1;
      var init := allTimings[..n];
      assert forall i :: 0 <= i < n ==> init[i] == allTimings[i];
      QualifiedAll(init);
      assert init + [allTimings[n]] == allTimings;
    }
  }

  /** The features of the samples up to the last, then those of the last sample
      if it is accepted. */
  lemma SampleFeaturesStep(allTimings: seq<seq<real>>, root: Stats.Root)
    requires |allTimings| > 0
    ensures var n := |allTimings| - 1;
      SampleFeatures(allTimings, root) == SampleFeatures(allTimings[..n], root)
        + (if |allTimings[n]| >= 2 then [Extract(allTimings[n], root).value] else [])
  {
    var n := |allTimings| - 1;
    var q, qi := Qualified(allTimings), Qualified(allTimings[..n]);
    assert forall i :: 0 <= i < |qi| ==> q[i] == qi[i];
  }

  /** The `key` feature of each record, in order. */
  function Column(fs: seq<Features>, key: FeatureKey): (v: seq<real>)
    ensures |v| == |fs|
  {
    seq(|fs|, i requires 0 <= i < |fs| => fs[i].Get(key))
  }

  /** The `values` list the inner loop builds for `key`. */
  function Values(allTimings: seq<seq<real>>, key: FeatureKey, root: Stats.Root): (v: seq<real>)
  {
    Column(SampleFeatures(allTimings, root), key)
  }

  /** `avg_features` once the outer loop has handled `keys`: the mean of each
      non-empty column. */
  function AverageOver(fs: seq<Features>, keys: seq<FeatureKey>): FeatureMap {
    map k | k in keys && |Column(fs, k)| > 0 :: Stats.Mean(Column(fs, k))
  }

  /** The `timing_profile` that enrollment stores. */
  function Aggregate(allTimings: seq<seq<real>>, root: Stats.Root): FeatureMap {
    AverageOver(SampleFeatures(allTimings, root), FeatureKeys)
  }

  /** The averaging loops of `enroll_user`. */
  method AverageFeatures(allTimings: seq<seq<real>>, root: Stats.Root) returns (avgFeatures: FeatureMap)
    ensures avgFeatures == Aggregate(allTimings, root)
  {
    ghost var fs := SampleFeatures(allTimings, root);
    avgFeatures := map[];
    var i := 0;
    while i < |FeatureKeys|
      invariant 0 <= i <= |FeatureKeys|
      invariant avgFeatures == AverageOver(fs, FeatureKeys[..i])
    {
      var key := FeatureKeys[i];
      var values := KeyValues(allTimings, key, root);
      assert values == Column(fs, key) && |values| == |fs|;
      assert FeatureKeys[..i + 1] == FeatureKeys[..i] + [key];
      AverageOverStep(fs, FeatureKeys[..i], key);
      if |values| > 0 {
        avgFeatures := avgFeatures[key := Stats.Mean(values)];
      }
      i := i + 1;
    }
    assert FeatureKeys[..i] == FeatureKeys;
  }

  /** The inner loop of `enroll_user` that fills `values` for one key of
      `avg_features`: the values that key takes in the samples that have at
      least two intervals, in sample order. */
  method KeyValues(allTimings: seq<seq<real>>, key: FeatureKey, root: Stats.Root) returns (values: seq<real>)
    ensures values == Values(allTimings, key, root)
  {
    values := [];
    var j := 0;
    while j < |allTimings|
      invariant 0 <= j <= |allTimings|
      invariant values == Values(allTimings[..j], key, root)
    {
      var features := Extract(allTimings[j], root);
      if features.Some? {
        values := values + [features.value.Get(key)];
      }
      ValuesStep(allTimings, j, key, root);
      j := j + 1;
    }
    assert allTimings[..j] == allTimings;
  }

  lemma ValuesStep(allTimings: seq<seq<real>>, j: int, key: FeatureKey, root: Stats.Root)
    requires 0 <= j < |allTimings|
    ensures Values(allTimings[..j + 1], key, root) ==
      Values(allTimings[..j], key, root)
      + (if |allTimings[j]| >= 2 then [Extract(allTimings[j], root).value.Get(key)] else [])
  {
    assert allTimings[..j + 1][..j] == allTimings[..j];
    SampleFeaturesStep(allTimings[..j + 1], root);
    var fs := SampleFeatures(allTimings[..j], root);
    if |allTimings[j]| >= 2 {
      ColumnAppend(fs, Extract(allTimings[j], root).value, key);
    } else {
      assert fs + [] == fs;
    }
  }

  lemma ColumnAppend(fs: seq<Features>, f: Features, key: FeatureKey)
    ensures Column(fs + [f], key) == Column(fs, key) + [f.Get(key)]
  {
    assert forall i :: 0 <= i < |fs| ==> (fs + [f])[i] == fs[i];
  }

  lemma AverageOverStep(fs: seq<Features>, keys: seq<FeatureKey>, key: FeatureKey)
    ensures AverageOver(fs, keys + [key]) ==
      if |fs| > 0 then AverageOver(fs, keys)[key := Stats.Mean(Column(fs, key))]
      else AverageOver(fs, keys)
  {
  }

  /** No sample qualifies exactly when every sample has fewer than two intervals. */
  lemma {:induction false} QualifiedEmpty(allTimings: seq<seq<real>>)
    ensures |Qualified(allTimings)| == 0 <==> forall i :: 0 <= i < |allTimings| ==> |allTimings[i]| < 2
  {
    if |allTimings| > 0 {
      var n := |allTimings| - 1;
      var init := allTimings[..n];
      QualifiedEmpty(init);
      assert forall i :: 0 <= i < n ==> init[i] == allTimings[i];
    }
  }

  /** Every key is averaged over the same accepted samples, so the stored
      profile holds either all six keys or none. */
  lemma AggregateKeys(allTimings: seq<seq<real>>, root: Stats.Root)
    ensures |Qualified(allTimings)| == 0 ==> Aggregate(allTimings, root) == map[]
    ensures |Qualified(allTimings)| > 0 ==> Aggregate(allTimings, root).Keys == AllKeys
  {
    var m := Aggregate(allTimings, root);
    if |Qualified(allTimings)| > 0 {
      forall k | k in AllKeys ensures k in m {
        assert k in FeatureKeys;
      }
    }
  }

  /** Samples of non-negative intervals have non-negative features. */
  lemma SampleFeaturesNonNegative(allTimings: seq<seq<real>>, root: Stats.Root)
    requires forall i :: 0 <= i < |allTimings| ==> Stats.NonNegative(allTimings[i])
    ensures forall f :: f in SampleFeatures(allTimings, root) ==> NonNegativeFeatures(f)
  {
    var q, fs := Qualified(allTimings), SampleFeatures(allTimings, root);
    QualifiedFrom(allTimings);
    forall f | f in fs ensures NonNegativeFeatures(f) {
      var i :| 0 <= i < |fs| && fs[i] == f;
      assert q[i] in allTimings;
      ExtractNonNegative(q[i], root);
    }
  }

  /** Averaging non-negative features gives non-negative values. */
  lemma AverageNonNegative(fs: seq<Features>)
    requires forall f :: f in fs ==> NonNegativeFeatures(f)
    ensures NonNegativeValues(AverageOver(fs, FeatureKeys))
  {
    var m := AverageOver(fs, FeatureKeys);
    forall k | k in m ensures 0.0 <= m[k] {
      var v := Column(fs, k);
      forall i | 0 <= i < |v| ensures 0.0 <= v[i] {
        assert fs[i] in fs;
      }
      Stats.MaxIsGreatest(v);
      Stats.MeanBounds(v, 0.0, Stats.Max(v));
    }
  }

  /** Samples of non-negative intervals give a profile of non-negative features. */
  lemma AggregateNonNegative(allTimings: seq<seq<real>>, root: Stats.Root)
    requires forall i :: 0 <= i < |allTimings| ==> Stats.NonNegative(allTimings[i])
    ensures NonNegativeValues(Aggregate(allTimings, root))
  {
    SampleFeaturesNonNegative(allTimings, root);
    AverageNonNegative(SampleFeatures(allTimings, root));
  }

  /** Copies of one sample `t` have, each of them, the features of `t`. */
  lemma SampleFeaturesOfCopies(allTimings: seq<seq<real>>, t: seq<real>, root: Stats.Root)
    requires |t| >= 2
    requires forall i :: 0 <= i < |allTimings| ==> allTimings[i] == t
    ensures |SampleFeatures(allTimings, root)| == |allTimings|
    ensures forall f :: f in SampleFeatures(allTimings, root) ==> f == Extract(t, root).value
  {
    QualifiedAll(allTimings);
    var fs := SampleFeatures(allTimings, root);
    forall f | f in fs ensures f == Extract(t, root).value {
      var i :| 0 <= i < |fs| && fs[i] == f;
      assert allTimings[i] == t;
    }
  }

  /** Averaging copies of one record gives that record's values. */
  lemma AverageOfCopies(fs: seq<Features>, f: Features)
    requires |fs| > 0
    requires forall g :: g in fs ==> g == f
    ensures AverageOver(fs, FeatureKeys) == AsMap(f)
  {
    var m := AverageOver(fs, FeatureKeys);
    forall k | k in AllKeys ensures k in m && m[k] == f.Get(k) {
      assert k in FeatureKeys;
      var v := Column(fs, k);
      forall i | 0 <= i < |v| ensures v[i] == f.Get(k) {
        assert fs[i] in fs;
      }
      Stats.MeanOfConstant(v, f.Get(k));
    }
  }

  /** Enrolling the same typing several times stores exactly its features. */
  lemma AggregateOfCopies(allTimings: seq<seq<real>>, t: seq<real>, root: Stats.Root)
    requires |t| >= 2 && |allTimings| > 0
    requires forall i :: 0 <= i < |allTimings| ==> allTimings[i] == t
    ensures Aggregate(allTimings, root) == AsMap(Extract(t, root).value)
  {
    SampleFeaturesOfCopies(allTimings, t, root);
    AverageOfCopies(SampleFeatures(allTimings, root), Extract(t, root).value);
  }

  /** When every sample has at least two intervals, the i-th record holds the
      features of the i-th sample. */
  lemma SampleFeaturesAllQualified(allTimings: seq<seq<real>>, root: Stats.Root)
    requires forall i :: 0 <= i < |allTimings| ==> |allTimings[i]| >= 2
    ensures |SampleFeatures(allTimings, root)| == |allTimings|
    ensures forall i :: 0 <= i < |allTimings| ==>
      SampleFeatures(allTimings, root)[i] == Extract(allTimings[i], root).value
  {
    QualifiedAll(allTimings);
  }

  /** Averaging three records gives, for every key, the mean of their three values. */
  lemma AverageOverThree(fs: seq<Features>)
    requires |fs| == 3
    ensures var m := AverageOver(fs, FeatureKeys);
      forall k :: k in m && m[k] == (fs[0].Get(k) + fs[1].Get(k) + fs[2].Get(k)) / 3.0
  {
    forall k ensures k in AverageOver(fs, FeatureKeys)
      && AverageOver(fs, FeatureKeys)[k] == (fs[0].Get(k) + fs[1].Get(k) + fs[2].Get(k)) / 3.0
    {
      assert k in FeatureKeys by {
        match k
        case Mean => case Median => case Stdev => case Min => case Max => case TotalTime =>
      }
      var c := Column(fs, k);
      assert c == [fs[0].Get(k), fs[1].Get(k), fs[2].Get(k)];
      Stats.SumOfThree(fs[0].Get(k), fs[1].Get(k), fs[2].Get(k));
    }
  }

  /** Three samples of at least two intervals each: every stored feature is the
      mean of the three samples' values. */
  lemma AggregateOfThree(all: seq<seq<real>>, root: Stats.Root)
    requires |all| == 3 && |all[0]| >= 2 && |all[1]| >= 2 && |all[2]| >= 2
    ensures var m := Aggregate(all, root);
      forall k :: k in m && m[k] ==
        (Extract(all[0], root).value.Get(k) + Extract(all[1], root).value.Get(k)
         + Extract(all[2], root).value.Get(k)) / 3.0
  {
    assert forall i :: 0 <= i < |all| ==> |all[i]| >= 2 by {
      forall i | 0 <= i < |all| ensures |all[i]| >= 2 {
        if i == 0 {} else if i == 1 {} else {}
      }
    }
    SampleFeaturesAllQualified(all, root);
    AverageOverThree(SampleFeatures(all, root));
  }

  /** The minimum is at most the mean and the median, and both are at most the maximum. */
  predicate Ordered(f: Features) {
    f.min <= f.mean <= f.max && f.min <= f.median <= f.max
  }

  /** Every accepted sample's features are ordered. */
  lemma SampleFeaturesOrdered(allTimings: seq<seq<real>>, root: Stats.Root)
    ensures forall f :: f in SampleFeatures(allTimings, root) ==> Ordered(f)
  {
    var q, fs := Qualified(allTimings), SampleFeatures(allTimings, root);
    forall f | f in fs ensures Ordered(f) {
      var i :| 0 <= i < |fs| && fs[i] == f;
      ExtractFacts(q[i], root);
    }
  }

  /** Averaging ordered records keeps the order: minimum <= mean <= maximum and
      minimum <= median <= maximum. */
  lemma AverageOrdered(fs: seq<Features>)
    requires |fs| > 0
    requires forall f :: f in fs ==> Ordered(f)
    ensures var m := AverageOver(fs, FeatureKeys);
      Min in m && Mean in m && Median in m && Max in m
      && m[Min] <= m[Mean] <= m[Max]
      && m[Min] <= m[Median] <= m[Max]
  {
    var lo, mean, median, hi := Column(fs, Min), Column(fs, Mean), Column(fs, Median), Column(fs, Max);
    forall i | 0 <= i < |fs| ensures lo[i] <= mean[i] <= hi[i] && lo[i] <= median[i] <= hi[i] {
      assert fs[i] in fs;
    }
    Stats.MeanMonotone(lo, mean);
    Stats.MeanMonotone(mean, hi);
    Stats.MeanMonotone(lo, median);
    Stats.MeanMonotone(median, hi);
    assert Min in FeatureKeys && Mean in FeatureKeys && Median in FeatureKeys && Max in FeatureKeys;
  }

  /** The stored profile keeps the order of the statistics it averages. */
  lemma AggregateOrdered(allTimings: seq<seq<real>>, root: Stats.Root)
    requires |Qualified(allTimings)| > 0
    ensures var m := Aggregate(allTimings, root);
      Min in m && Mean in m && Median in m && Max in m
      && m[Min] <= m[Mean] <= m[Max]
      && m[Min] <= m[Median] <= m[Max]
  {
    SampleFeaturesOrdered(allTimings, root);
    AverageOrdered(SampleFeatures(allTimings, root));
  }
}
