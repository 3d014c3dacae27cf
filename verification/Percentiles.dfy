/** The interpolated percentile of the mutation manifest, over exact reals. */
module Percentiles {
  import opened Common
  import opened Sorting

  predicate RealLe(a: real, b: real) {
    a <= b
  }

  lemma RealLeIsTotal()
    ensures TotalOrder(RealLe)
  {
  }

  function Part(gap: real, share: real): real {
    gap * share
  }

  function Position(n: nat, fraction: real): real {
    Part((n - 1) as real, fraction)
  }

  /** Linear interpolation between the neighbours of a position in an ordered list. */
  function Interpolate(ordered: seq<real>, position: real): real
    requires 0.0 <= position <= (|ordered| - 1) as real
  {
    var lower, upper := position.Floor, Ceil(position);
    if lower == upper then ordered[lower]
    else ordered[lower] + Part(ordered[upper] - ordered[lower], position - lower as real)
  }

  lemma PositionInRange(n: nat, fraction: real)
    requires n >= 1 && 0.0 <= fraction <= 1.0
    ensures 0.0 <= Position(n, fraction) <= (n - 1) as real
  {
    ShareOf((n - 1) as real, fraction);
  }

  lemma PositionsOrdered(n: nat, f: real, g: real)
    requires n >= 1 && 0.0 <= f <= g <= 1.0
    ensures 0.0 <= Position(n, f) <= Position(n, g) <= (n - 1) as real
  {
    PositionInRange(n, f);
    PositionInRange(n, g);
    Scale((n - 1) as real, f, g);
  }

  function OfOrdered(ordered: seq<real>, fraction: real): real
    requires ordered != [] && 0.0 <= fraction <= 1.0
  {
    if |ordered| == 1 then ordered[0]
    else
      PositionInRange(|ordered|, fraction);
      Interpolate(ordered, Position(|ordered|, fraction))
  }

  function Percentile(values: seq<real>, fraction: real): Option<real>
    requires 0.0 <= fraction <= 1.0
  {
    if values == [] then None else Some(OfOrdered(Sort(values, RealLe), fraction))
  }

  lemma BetweenNeighbours(ordered: seq<real>, position: real)
    requires SortedBy(ordered, RealLe) && 0.0 <= position <= (|ordered| - 1) as real
    ensures var lower, upper := position.Floor, Ceil(position);
            && 0 <= lower <= upper <= lower + 1 && upper < |ordered|
            && ordered[lower] <= Interpolate(ordered, position) <= ordered[upper]
  {
    var lower, upper := position.Floor, Ceil(position);
    if lower != upper {
      var gap, share := ordered[upper] - ordered[lower], position - lower as real;
      assert RealLe(ordered[lower], ordered[upper]);
      ShareOf(gap, share);
    }
  }

  lemma ShareOf(gap: real, share: real)
    requires gap >= 0.0 && 0.0 <= share <= 1.0
    ensures 0.0 <= Part(gap, share) <= gap
  {
    assert gap * (1.0 - share) >= 0.0;
  }

  lemma Scale(gap: real, a: real, b: real)
    requires gap >= 0.0 && a <= b
    ensures Part(gap, a) <= Part(gap, b)
  {
    assert gap * (b - a) >= 0.0;
  }

  lemma OnSegment(ordered: seq<real>, p: real)
    requires 0.0 <= p < (|ordered| - 1) as real
    ensures p.Floor + 1 < |ordered|
    ensures Interpolate(ordered, p)
            == ordered[p.Floor] + Part(ordered[p.Floor + 1] - ordered[p.Floor], p - p.Floor as real)
  {
    if p.Floor == Ceil(p) {
      assert p - p.Floor as real == 0.0;
    }
  }

  lemma InterpolateMonotone(ordered: seq<real>, p: real, q: real)
    requires SortedBy(ordered, RealLe) && 0.0 <= p <= q <= (|ordered| - 1) as real
    ensures Interpolate(ordered, p) <= Interpolate(ordered, q)
  {
    if p.Floor == q.Floor && q < (|ordered| - 1) as real {
      OnSegment(ordered, p);
      OnSegment(ordered, q);
      var lower := p.Floor;
      var gap, a, b := ordered[lower + 1] - ordered[lower], p - lower as real, q - lower as real;
      assert Interpolate(ordered, p) == ordered[lower] + Part(gap, a)
             && Interpolate(ordered, q) == ordered[lower] + Part(gap, b);
      assert RealLe(ordered[lower], ordered[lower + 1]);
      Scale(gap, a, b);
    } else if p != q {
      BetweenNeighbours(ordered, p);
      BetweenNeighbours(ordered, q);
      assert Ceil(p) <= q.Floor;
      assert Ceil(p) == q.Floor || RealLe(ordered[Ceil(p)], ordered[q.Floor]);
    }
  }

  lemma OrderedBounds(ordered: seq<real>, f: real, g: real)
    requires ordered != [] && SortedBy(ordered, RealLe) && 0.0 <= f <= g <= 1.0
    ensures exists i, j | 0 <= i < |ordered| && 0 <= j < |ordered| :: ordered[i] <= OfOrdered(ordered, f) <= ordered[j]
    ensures OfOrdered(ordered, f) <= OfOrdered(ordered, g)
  {
    if |ordered| == 1 {
      assert ordered[0] <= OfOrdered(ordered, f) <= ordered[0];
    } else {
      PositionsOrdered(|ordered|, f, g);
      var p, q := Position(|ordered|, f), Position(|ordered|, g);
      assert OfOrdered(ordered, f) == Interpolate(ordered, p) && OfOrdered(ordered, g) == Interpolate(ordered, q);
      BetweenNeighbours(ordered, p);
      InterpolateMonotone(ordered, p, q);
    }
  }

  /** A percentile exists exactly for a non-empty list, lies between two of its values, and grows with the
      fraction; so the median is never above the 90th percentile. */
  lemma PercentileBounds(values: seq<real>, f: real, g: real)
    requires 0.0 <= f <= g <= 1.0
    ensures Percentile(values, f).Some? <==> values != []
    ensures values != [] ==>
              && (exists lo, hi | lo in values && hi in values :: lo <= Percentile(values, f).value <= hi)
              && Percentile(values, f).value <= Percentile(values, g).value
  {
    if values != [] {
      var ordered := Sort(values, RealLe);
      SortPermutes(values, RealLe);
      RealLeIsTotal();
      SortSorts(values, RealLe);
      OrderedBounds(ordered, f, g);
      var i, j :| 0 <= i < |ordered| && 0 <= j < |ordered| && ordered[i] <= OfOrdered(ordered, f) <= ordered[j];
      assert ordered[i] in multiset(ordered) && ordered[j] in multiset(ordered);
      assert ordered[i] in multiset(values) && ordered[j] in multiset(values);
      assert ordered[i] in values && ordered[j] in values;
    }
  }

  /** The percentile does not depend on the order in which the samples were taken. */
  lemma PercentileIgnoresOrder(a: seq<real>, b: seq<real>, fraction: real)
    requires 0.0 <= fraction <= 1.0 && multiset(a) == multiset(b)
    ensures Percentile(a, fraction) == Percentile(b, fraction)
  {
    assert |a| == |multiset(a)| == |multiset(b)| == |b|;
    RealLeIsTotal();
    SortPermutes(a, RealLe);
    SortPermutes(b, RealLe);
    SortSorts(a, RealLe);
    SortSorts(b, RealLe);
    SortedIsUnique(Sort(a, RealLe), Sort(b, RealLe), multiset(a), RealLe);
  }

  // ---------------------------------------------------------------- which value a percentile is

  lemma WholeAndShare(k: nat, share: real)
    requires 0.0 <= share < 1.0
    ensures var p := k as real + share;
            p.Floor == k && (Ceil(p) == k <==> share == 0.0) && (share > 0.0 ==> Ceil(p) == k + 1)
  {
  }

  lemma WholeCeil(k: nat)
    ensures (k as real).Floor == k && Ceil(k as real) == k
  {
  }

  lemma NoPart(gap: real)
    ensures Part(gap, 0.0) == 0.0 && Part(gap, 1.0) == gap
  {
  }

  lemma InterpolateBetween(ordered: seq<real>, k: nat, share: real)
    requires k + 1 < |ordered| && 0.0 <= share <= 1.0
    ensures 0.0 <= k as real + share <= (|ordered| - 1) as real
    ensures Interpolate(ordered, k as real + share) == ordered[k] + Part(ordered[k + 1] - ordered[k], share)
  {
    NoPart(ordered[k + 1] - ordered[k]);
    if share == 1.0 {
      assert k as real + share == (k + 1) as real;
      WholeCeil(k + 1);
    } else {
      WholeAndShare(k, share);
    }
  }

  lemma LinearOfOrdered(o: seq<real>, k: nat, share: real, fraction: real)
    requires k + 1 < |o| && 0.0 <= share <= 1.0 && 0.0 <= fraction <= 1.0
    requires Position(|o|, fraction) == k as real + share
    ensures OfOrdered(o, fraction) == o[k] + Part(o[k + 1] - o[k], share)
  {
    var p := Position(|o|, fraction);
    PositionInRange(|o|, fraction);
    assert OfOrdered(o, fraction) == Interpolate(o, p);
    InterpolateBetween(o, k, share);
  }

  /** At the fraction that lies `share` of the way from the `k`-th to the next of the ordered values, the
      percentile lies that share of the way from the one to the other. */
  lemma PercentileIsLinear(values: seq<real>, o: seq<real>, k: nat, share: real, fraction: real)
    requires o == Sort(values, RealLe) && k + 1 < |o| && 0.0 <= share <= 1.0 && 0.0 <= fraction <= 1.0
    requires Position(|o|, fraction) == k as real + share
    ensures Percentile(values, fraction) == Some(o[k] + Part(o[k + 1] - o[k], share))
  {
    LinearOfOrdered(o, k, share, fraction);
    SortedFirst(values, fraction);
  }

  lemma SortedFirst(values: seq<real>, fraction: real)
    requires values != [] && 0.0 <= fraction <= 1.0
    ensures Percentile(values, fraction) == Some(OfOrdered(Sort(values, RealLe), fraction))
  {
  }

  lemma HalfOf(n: int, m: int)
    ensures n == 2 * m ==> Part(n as real, 0.5) == m as real
    ensures n == 2 * m + 1 ==> Part(n as real, 0.5) == m as real + 0.5
  {
  }

  lemma HalfWay(a: real, b: real)
    ensures a + Part(b - a, 0.5) == (a + b) / 2.0 && a + Part(b - a, 1.0) == b
  {
  }

  lemma EvenMedian(o: seq<real>, m: nat)
    requires |o| == 2 * m > 0
    ensures OfOrdered(o, 0.5) == (o[m - 1] + o[m]) / 2.0
  {
    HalfOf(|o| - 1, m - 1);
    InterpolateBetween(o, m - 1, 0.5);
    HalfWay(o[m - 1], o[m]);
  }

  lemma OddMedian(o: seq<real>, m: nat)
    requires |o| == 2 * m + 1
    ensures OfOrdered(o, 0.5) == o[m]
  {
    if m > 0 {
      HalfOf(|o| - 1, m);
      InterpolateBetween(o, m - 1, 1.0);
      HalfWay(o[m - 1], o[m]);
      assert (m - 1) as real + 1.0 == m as real;
    }
  }

  /** The median is the middle one of an odd number of ordered values, and the mean of the two middle ones of
      an even number. */
  lemma MedianIsMiddle(values: seq<real>, m: nat)
    ensures |values| == 2 * m + 1 ==> Percentile(values, 0.5) == Some(Sort(values, RealLe)[m])
    ensures |values| == 2 * m > 0 ==>
              var o := Sort(values, RealLe); Percentile(values, 0.5) == Some((o[m - 1] + o[m]) / 2.0)
  {
    if |values| == 2 * m > 0 { EvenMedian(Sort(values, RealLe), m); }
    if |values| == 2 * m + 1 { OddMedian(Sort(values, RealLe), m); }
  }

  lemma NineTenthsOf(n: int, m: int)
    requires n == 10 * m
    ensures Part(n as real, 0.9) == (9 * m) as real
  {
  }

  /** Of ten times some number of values and one more, the 90th percentile is the one nine tenths of the way. */
  lemma NinetiethIsOnTheWay(values: seq<real>, m: nat)
    requires |values| == 10 * m + 1
    ensures Percentile(values, 0.9) == Some(Sort(values, RealLe)[9 * m])
  {
    if m > 0 {
      var o := Sort(values, RealLe);
      NineTenthsOf(|o| - 1, m);
      NoPart(o[9 * m + 1] - o[9 * m]);
      LinearOfOrdered(o, 9 * m, 0.0, 0.9);
    }
  }
}
