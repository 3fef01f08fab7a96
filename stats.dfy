/** Descriptive statistics over interval sequences, as Python's `statistics`
    module and the built-ins `sum`, `min` and `max` compute them, over exact reals. */
module Stats {

  /** A square root supplied by the caller. Reals have no square root in Dafny, so
      the standard deviation is taken through this function, of which the model only
      assumes what every square root satisfies: it is zero at zero, never negative,
      and positive on positive arguments. */
  type Root = f: real -> real | f(0.0) == 0.0 && (forall x :: 0.0 <= f(x)) && (forall x :: 0.0 < x ==> 0.0 < f(x))
    witness (x: real) => if 0.0 < x then x else 0.0

  predicate NonNegative(s: seq<real>) {
    forall i :: 0 <= i < |s| ==> 0.0 <= s[i]
  }

  /** `sum(s)`: added left to right, so the last element is the last addend. */
  function Sum(s: seq<real>): real {
    if |s| == 0 then 0.0 else Sum(s[..|s| - 1]) + s[|s| - 1]
  }

  /** `statistics.mean(s)` */
  function Mean(s: seq<real>): real
    requires |s| > 0
  {
    Sum(s) / (|s| as real)
  }

  /** `min(s)` */
  function Min(s: seq<real>): real
    requires |s| > 0
  {
    if |s| == 1 then s[0]
    else
      var rest := Min(s[1..]);
      if s[0] <= rest then s[0] else rest
  }

  /** `max(s)` */
  function Max(s: seq<real>): real
    requires |s| > 0
  {
    if |s| == 1 then s[0]
    else
      var rest := Max(s[1..]);
      if rest <= s[0] then s[0] else rest
  }

  /** The minimum is one of the elements and no element is below it. */
  lemma {:induction false} MinIsLeast(s: seq<real>)
    requires |s| > 0
    ensures Min(s) in s
    ensures forall i :: 0 <= i < |s| ==> Min(s) <= s[i]
  {
    if |s| > 1 {
      MinIsLeast(s[1..]);
      assert forall i :: 1 <= i < |s| ==> s[i] == s[1..][i - 1];
    }
  }

  /** The maximum is one of the elements and no element is above it. */
  lemma {:induction false} MaxIsGreatest(s: seq<real>)
    requires |s| > 0
    ensures Max(s) in s
    ensures forall i :: 0 <= i < |s| ==> s[i] <= Max(s)
  {
    if |s| > 1 {
      MaxIsGreatest(s[1..]);
      assert forall i :: 1 <= i < |s| ==> s[i] == s[1..][i - 1];
    }
  }

  predicate Sorted(s: seq<real>) {
    forall i, j :: 0 <= i < j < |s| ==> s[i] <= s[j]
  }

  /** Inserts `x` before the first element of `s` that is not below it. */
  function Insert(x: real, s: seq<real>): (r: seq<real>)
    ensures |r| == |s| + 1
    ensures multiset(r) == multiset(s) + multiset{x}
  {
    if s == [] || x <= s[0] then [x] + s
    else
      assert s == [s[0]] + s[1..];
      [s[0]] + Insert(x, s[1..])
  }

  lemma {:induction false} InsertKeepsSorted(x: real, s: seq<real>)
    requires Sorted(s)
    ensures Sorted(Insert(x, s))
  {
    if s != [] && s[0] < x {
      var tail := Insert(x, s[1..]);
      InsertKeepsSorted(x, s[1..]);
      forall k | 0 <= k < |tail| ensures s[0] <= tail[k] {
        InsertedFrom(x, s[1..], k);
      }
      var r := [s[0]] + tail;
      assert r == Insert(x, s);
      forall i, j | 0 <= i < j < |r| ensures r[i] <= r[j] {
        if i > 0 {
          assert r[i] == tail[i - 1];
        }
        assert r[j] == tail[j - 1];
      }
    }
  }

  /** Every element of `Insert(x, s)` is `x` or an element of `s`. */
  lemma InsertedFrom(x: real, s: seq<real>, k: int)
    requires 0 <= k < |Insert(x, s)|
    ensures Insert(x, s)[k] == x || exists m :: 0 <= m < |s| && s[m] == Insert(x, s)[k]
  {
    var y := Insert(x, s)[k];
    assert y in multiset(Insert(x, s));
    assert y in multiset(s) || y == x;
    if y != x {
      assert y in s;
    }
  }

  /** `sorted(s)`: the order in which `statistics.median` reads the data. */
  function Sort(s: seq<real>): (r: seq<real>)
    ensures |r| == |s|
    ensures multiset(r) == multiset(s)
  {
    if s == [] then []
    else
      assert s == [s[0]] + s[1..];
      Insert(s[0], Sort(s[1..]))
  }

  lemma {:induction false} SortIsSorted(s: seq<real>)
    ensures Sorted(Sort(s))
  {
    if s != [] {
      SortIsSorted(s[1..]);
      InsertKeepsSorted(s[0], Sort(s[1..]));
    }
  }

  /** Inserting a value no larger than the head puts it in front. */
  lemma InsertFront(x: real, s: seq<real>)
    requires s == [] || x <= s[0]
    ensures Insert(x, s) == [x] + s
  {
  }

  /** Inserting a value larger than the single element puts it after. */
  lemma InsertPast(x: real, y: real)
    requires y < x
    ensures Insert(x, [y]) == [y, x]
  {
    assert [y][1..] == [];
    InsertFront(x, []);
  }

  /** Inserting a value between the two elements puts it in the middle. */
  lemma InsertBetween(x: real, y: real, z: real)
    requires y < x <= z
    ensures Insert(x, [y, z]) == [y, x, z]
  {
    assert [y, z][1..] == [z];
    InsertFront(x, [z]);
  }

  lemma SortStep(s: seq<real>)
    requires |s| > 0
    ensures Sort(s) == Insert(s[0], Sort(s[1..]))
  {
  }

  /** Three values are sorted by inserting the first two into the third. */
  lemma SortOfThree(a: real, b: real, c: real)
    ensures Sort([a, b, c]) == Insert(a, Insert(b, [c]))
  {
    SortStep([c]);
    assert [c][1..] == [];
    assert Sort([c]) == [c];
    SortStep([b, c]);
    assert [b, c][1..] == [c];
    SortStep([a, b, c]);
    assert [a, b, c][1..] == [b, c];
  }

  /** The median of three values is the middle one of their sorted order. */
  lemma MedianOfThree(a: real, b: real, c: real)
    ensures Median([a, b, c]) == Insert(a, Insert(b, [c]))[1]
  {
    SortOfThree(a, b, c);
    MedianOfLengthThree([a, b, c]);
  }

  lemma MedianOfLengthThree(s: seq<real>)
    requires |s| == 3
    ensures Median(s) == Sort(s)[1]
  {
    assert |s| % 2 == 1 && |s| / 2 == 1;
  }

  lemma SumStep(s: seq<real>)
    requires |s| > 0
    ensures Sum(s) == Sum(s[..|s| - 1]) + s[|s| - 1]
  {
  }

  lemma SumOfThree(a: real, b: real, c: real)
    ensures Sum([a, b, c]) == a + b + c
  {
    SumStep([a]);
    assert [a][..0] == [];
    SumStep([a, b]);
    assert [a, b][..1] == [a];
    SumStep([a, b, c]);
    assert [a, b, c][..2] == [a, b];
  }

  /** `statistics.median(s)`: the middle element of the sorted data, or the
      average of the two middle elements when their number is even. */
  function Median(s: seq<real>): real
    requires |s| > 0
  {
    var t := Sort(s);
    var n := |s|;
    if n % 2 == 1 then t[n / 2] else (t[n / 2 - 1] + t[n / 2]) / 2.0
  }

  function Square(x: real): real {
    x * x
  }

  /** The sum of squared deviations of `s` from `m`. */
  function SquaredDeviations(s: seq<real>, m: real): real {
    if |s| == 0 then 0.0 else SquaredDeviations(s[..|s| - 1], m) + Square(s[|s| - 1] - m)
  }

  /** `statistics.variance(s)`: Bessel-corrected, divisor n - 1. */
  function SampleVariance(s: seq<real>): real
    requires |s| >= 2
  {
    SquaredDeviations(s, Mean(s)) / ((|s| - 1) as real)
  }

  /** `statistics.stdev(s)`: the square root of the sample variance. */
  function Stdev(s: seq<real>, root: Root): real
    requires |s| >= 2
  {
    root(SampleVariance(s))
  }

  /** A sum of `n` terms that all lie in `[lo, hi]` lies in `[n * lo, n * hi]`. */
  lemma {:induction false} SumBounds(s: seq<real>, lo: real, hi: real)
    requires forall i :: 0 <= i < |s| ==> lo <= s[i] <= hi
    ensures (|s| as real) * lo <= Sum(s) <= (|s| as real) * hi
  {
    if |s| > 0 {
      var init := s[..|s| - 1];
      assert forall i :: 0 <= i < |init| ==> init[i] == s[i];
      SumBounds(init, lo, hi);
      assert (|s| as real) * lo == (|init| as real) * lo + lo;
      assert (|s| as real) * hi == (|init| as real) * hi + hi;
    }
  }

  lemma {:induction false} SumNonNegative(s: seq<real>)
    requires NonNegative(s)
    ensures 0.0 <= Sum(s)
  {
    if |s| > 0 {
      SumNonNegative(s[..|s| - 1]);
    }
  }

  /** The mean of values in `[lo, hi]` lies in `[lo, hi]`. */
  lemma MeanBounds(s: seq<real>, lo: real, hi: real)
    requires |s| > 0
    requires forall i :: 0 <= i < |s| ==> lo <= s[i] <= hi
    ensures lo <= Mean(s) <= hi
  {
    SumBounds(s, lo, hi);
    var n := |s| as real;
    DivBounds(Sum(s), n, lo, hi);
  }

  lemma DivBounds(x: real, n: real, lo: real, hi: real)
    requires 0.0 < n
    requires n * lo <= x <= n * hi
    ensures lo <= x / n <= hi
  {
    assert lo == (n * lo) / n;
    assert hi == (n * hi) / n;
  }

  /** Sums, and so means, of two equally long sequences compare as their
      elements do. */
  lemma {:induction false} SumMonotone(a: seq<real>, b: seq<real>)
    requires |a| == |b|
    requires forall i :: 0 <= i < |a| ==> a[i] <= b[i]
    ensures Sum(a) <= Sum(b)
  {
    if |a| > 0 {
      var n := |a| - 1;
      assert forall i :: 0 <= i < n ==> a[..n][i] == a[i] && b[..n][i] == b[i];
      SumMonotone(a[..n], b[..n]);
    }
  }

  lemma MeanMonotone(a: seq<real>, b: seq<real>)
    requires |a| == |b| > 0
    requires forall i :: 0 <= i < |a| ==> a[i] <= b[i]
    ensures Mean(a) <= Mean(b)
  {
    SumMonotone(a, b);
    var n := |a| as real;
    calc {
      Sum(a) / n;
    <= { DivMonotone(Sum(a), Sum(b), n); }
      Sum(b) / n;
    }
  }

  lemma DivMonotone(x: real, y: real, n: real)
    requires x <= y && 0.0 < n
    ensures x / n <= y / n
  {
  }

  lemma SumOfConstant(s: seq<real>, c: real)
    requires forall i :: 0 <= i < |s| ==> s[i] == c
    ensures Sum(s) == (|s| as real) * c
  {
    SumBounds(s, c, c);
  }

  /** The mean of a sequence whose elements all equal `c` is `c`. */
  lemma MeanOfConstant(s: seq<real>, c: real)
    requires |s| > 0
    requires forall i :: 0 <= i < |s| ==> s[i] == c
    ensures Mean(s) == c
  {
    MeanBounds(s, c, c);
  }

  /** Every element of the sorted data lies between the minimum and the maximum. */
  lemma SortedBetweenExtremes(s: seq<real>)
    requires |s| > 0
    ensures |Sort(s)| == |s|
    ensures forall i :: 0 <= i < |Sort(s)| ==> Min(s) <= Sort(s)[i] <= Max(s)
  {
    var t := Sort(s);
    MinIsLeast(s);
    MaxIsGreatest(s);
    forall i | 0 <= i < |t| ensures Min(s) <= t[i] <= Max(s) {
      assert t[i] in multiset(s);
      var j :| 0 <= j < |s| && s[j] == t[i];
    }
  }

  /** The median is an element of the sorted data, or the average of two of them,
      so it lies between the minimum and the maximum. */
  lemma MedianBetweenExtremes(s: seq<real>)
    requires |s| > 0
    ensures Min(s) <= Median(s) <= Max(s)
  {
    SortedBetweenExtremes(s);
    var t, n := Sort(s), |s|;
    var h := n / 2;
    if n % 2 == 1 {
      assert Median(s) == t[h];
    } else {
      assert 0 <= h - 1 < h < |t|;
      assert Median(s) == (t[h - 1] + t[h]) / 2.0;
      HalfSumBetween(t[h - 1], t[h], Min(s), Max(s));
    }
  }

  lemma HalfSumBetween(a: real, b: real, lo: real, hi: real)
    requires lo <= a <= hi && lo <= b <= hi
    ensures lo <= (a + b) / 2.0 <= hi
  {
  }

  /** `min(s) <= mean(s) <= max(s)` */
  lemma MeanBetweenExtremes(s: seq<real>)
    requires |s| > 0
    ensures Min(s) <= Mean(s) <= Max(s)
  {
    MinIsLeast(s);
    MaxIsGreatest(s);
    MeanBounds(s, Min(s), Max(s));
  }

  lemma {:induction false} SquaredDeviationsNonNegative(s: seq<real>, m: real)
    ensures 0.0 <= SquaredDeviations(s, m)
  {
    if |s| > 0 {
      SquaredDeviationsNonNegative(s[..|s| - 1], m);
      SquareSign(s[|s| - 1] - m);
    }
  }

  lemma SquareSign(d: real)
    ensures 0.0 <= Square(d)
    ensures d != 0.0 ==> 0.0 < Square(d)
  {
    if 0.0 < d {
      calc {
        Square(d);
        d * d;
      > { PositiveProduct(d, d); }
        0.0;
      }
    } else if d < 0.0 {
      calc {
        Square(d);
        (-d) * (-d);
      > { PositiveProduct(-d, -d); }
        0.0;
      }
    } else {
      calc {
        Square(d);
        0.0 * 0.0;
        0.0;
      }
    }
  }

  lemma PositiveProduct(a: real, b: real)
    requires 0.0 < a && 0.0 < b
    ensures 0.0 < a * b
  {
  }

  /** The squared deviations vanish exactly when every element equals `m`. */
  lemma {:induction false} SquaredDeviationsZero(s: seq<real>, m: real)
    ensures SquaredDeviations(s, m) == 0.0 <==> forall i :: 0 <= i < |s| ==> s[i] == m
  {
    if |s| > 0 {
      var init := s[..|s| - 1];
      var d := s[|s| - 1] - m;
      SquaredDeviationsZero(init, m);
      SquaredDeviationsNonNegative(init, m);
      SquareSign(d);
      assert forall i :: 0 <= i < |init| ==> init[i] == s[i];
      if d == 0.0 {
        assert Square(d) == 0.0;
      }
    }
  }

  /** The sample variance is never negative, and is zero exactly when all
      intervals are equal. */
  lemma VarianceZeroIffConstant(s: seq<real>)
    requires |s| >= 2
    ensures 0.0 <= SampleVariance(s)
    ensures SampleVariance(s) == 0.0 <==> forall i :: 0 <= i < |s| ==> s[i] == s[0]
  {
    var m := Mean(s);
    var n1 := (|s| - 1) as real;
    SquaredDeviationsNonNegative(s, m);
    SquaredDeviationsZero(s, m);
    if forall i :: 0 <= i < |s| ==> s[i] == s[0] {
      MeanOfConstant(s, s[0]);
    }
    var q := SquaredDeviations(s, m);
    assert q == q / n1 * n1;
    DivBounds(q, n1, 0.0, q / n1);
  }
}
