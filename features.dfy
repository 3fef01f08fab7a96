/** Feature extraction: the six statistics `calculate_timing_features` derives
    from the inter-key intervals of one typed password. */
module Features {
  import Stats

  datatype Option<T> = None | Some(value: T)

  /** The keys of a feature dictionary. */
  datatype FeatureKey = Mean | Median | Stdev | Min | Max | TotalTime

  /** The keys in the order the source lists them. */
  const FeatureKeys: seq<FeatureKey> := [Mean, Median, Stdev, Min, Max, TotalTime]

  const AllKeys: set<FeatureKey> := {Mean, Median, Stdev, Min, Max, TotalTime}

  /** The six statistics of one typed password. */
  datatype Features = Features(mean: real, median: real, stdev: real, min: real, max: real, totalTime: real) {
    /** `features[key]` */
    function Get(k: FeatureKey): real {
      match k
      case Mean => mean
      case Median => median
      case Stdev => stdev
      case Min => min
      case Max => max
      case TotalTime => totalTime
    }
  }

  /** A feature dictionary keyed by name, as stored under `timing_profile`. */
  type FeatureMap = map<FeatureKey, real>

  /** The dictionary form of a record of features. */
  function AsMap(f: Features): (m: FeatureMap)
    ensures m.Keys == AllKeys
    ensures forall k :: k in m ==> m[k] == f.Get(k)
  {
    map k | k in AllKeys :: f.Get(k)
  }

  /** No value of the dictionary is negative. */
  predicate NonNegativeValues(m: FeatureMap) {
    forall k :: k in m ==> 0.0 <= m[k]
  }

  /** No feature of the record is negative: its dictionary form has no negative value. */
  predicate NonNegativeFeatures(f: Features) {
    NonNegativeValues(AsMap(f))
  }

  predicate AllEqual(s: seq<real>) {
    forall i :: 0 <= i < |s| ==> s[i] == s[0]
  }

  /** `calculate_timing_features(timings)`: nothing for fewer than two intervals,
      otherwise the six statistics, with the standard deviation taken through `root`. */
  function Extract(timings: seq<real>, root: Stats.Root): (r: Option<Features>)
    ensures r.None? <==> |timings| < 2
  {
    if |timings| < 2 then None
    else
      Some(Features(
        Stats.Mean(timings),
        Stats.Median(timings),
        Stats.Stdev(timings, root),
        Stats.Min(timings),
        Stats.Max(timings),
        Stats.Sum(timings)))
  }

  /** What the six statistics say about the intervals they summarise: the total
      is their sum, the extremes bound every interval, the mean and the median lie
      between the extremes, and the standard deviation is never negative and is
      zero exactly when all intervals are equal. */
  lemma ExtractFacts(timings: seq<real>, root: Stats.Root)
    requires |timings| >= 2
    ensures var f := Extract(timings, root).value;
      && f.totalTime == Stats.Sum(timings)
      && (forall i :: 0 <= i < |timings| ==> f.min <= timings[i] <= f.max)
      && f.min <= f.mean <= f.max
      && f.min <= f.median <= f.max
      && 0.0 <= f.stdev
      && (f.stdev == 0.0 <==> AllEqual(timings))
  {
    Stats.MinIsLeast(timings);
    Stats.MaxIsGreatest(timings);
    Stats.MeanBetweenExtremes(timings);
    Stats.MedianBetweenExtremes(timings);
    StdevZeroIffEqual(timings, root);
  }

  lemma StdevZeroIffEqual(timings: seq<real>, root: Stats.Root)
    requires |timings| >= 2
    ensures 0.0 <= Stats.Stdev(timings, root)
    ensures Stats.Stdev(timings, root) == 0.0 <==> AllEqual(timings)
  {
    Stats.VarianceZeroIffConstant(timings);
    var variance := Stats.SampleVariance(timings);
    assert variance == 0.0 || 0.0 < variance;
  }

  /** Non-negative intervals give non-negative features. */
  lemma ExtractNonNegative(timings: seq<real>, root: Stats.Root)
    requires |timings| >= 2
    requires Stats.NonNegative(timings)
    ensures NonNegativeFeatures(Extract(timings, root).value)
  {
    var f := Extract(timings, root).value;
    ExtractFacts(timings, root);
    Stats.SumNonNegative(timings);
    Stats.MinIsLeast(timings);
    assert f.min in timings;
    forall k ensures 0.0 <= f.Get(k) {
      match k
      case Mean =>
      case Median =>
      case Stdev =>
      case Min =>
      case Max =>
      case TotalTime =>
    }
  }

  /** Intervals that are all equal to `c` give mean, median, minimum and maximum
      `c`, a standard deviation of zero and a total of `n * c`. */
  lemma ExtractConstant(timings: seq<real>, c: real, root: Stats.Root)
    requires |timings| >= 2
    requires forall i :: 0 <= i < |timings| ==> timings[i] == c
    ensures Extract(timings, root) == Some(Features(c, c, 0.0, c, c, (|timings| as real) * c))
  {
    var f := Extract(timings, root).value;
    ExtractFacts(timings, root);
    Stats.SumOfConstant(timings, c);
    assert f.min == c && f.max == c by {
      Stats.MinIsLeast(timings);
      Stats.MaxIsGreatest(timings);
    }
    assert f.median == c;
  }

  /** Three equal intervals of 0.1 s. */
  lemma ExtractThreeEqualIntervals(root: Stats.Root)
    ensures Extract([0.1, 0.1, 0.1], root) == Some(Features(0.1, 0.1, 0.0, 0.1, 0.1, 0.3))
  {
    ExtractConstant([0.1, 0.1, 0.1], 0.1, root);
  }

  /** Three intervals that are not all equal: the total is their sum, the mean
      its third, the median the middle value once sorted, and the standard
      deviation is positive. */
  lemma ExtractThree(a: real, b: real, c: real, root: Stats.Root)
    requires a != b || b != c
    ensures var f := Extract([a, b, c], root).value;
      && f.totalTime == a + b + c
      && f.mean == (a + b + c) / 3.0
      && f.median == Stats.Insert(a, Stats.Insert(b, [c]))[1]
      && 0.0 < f.stdev
  {
    var t := [a, b, c];
    Stats.SumOfThree(a, b, c);
    Stats.MedianOfThree(a, b, c);
    StdevZeroIffEqual(t, root);
    assert !AllEqual(t) by {
      if a != b {
        assert t[1] != t[0];
      } else {
        assert t[2] != t[0];
      }
    }
  }
}
