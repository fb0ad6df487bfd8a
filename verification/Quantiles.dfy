/** The summary statistics of bench-segment-queries.ts:223-258 over exact reals. */
module Quantiles {

  ghost predicate IsSorted(s: seq<real>) {
    forall i, j :: 0 <= i <= j < |s| ==> s[i] <= s[j]
  }

  function Insert(x: real, s: seq<real>): seq<real> {
    if s == [] || x <= s[0] then [x] + s else [s[0]] + Insert(x, s[1..])
  }

  function Sort(values: seq<real>): seq<real> {
    if values == [] then [] else Insert(values[0], Sort(values[1..]))
  }

  /** The value at a share of the way from a to b. */
  function Mix(a: real, b: real, share: real): real {
    a + share * (b - a)
  }

  /** The value at a position between two samples. */
  function Interpolate(s: seq<real>, h: real): real
    requires 0.0 <= h <= (|s| - 1) as real
  {
    var lo, hi := h.Floor, -((-h).Floor);
    if lo == hi then s[lo] else Mix(s[lo], s[hi], h - lo as real)
  }

  /** m times q, where the q-quantile of m + 1 sorted samples lies. */
  function Position(m: nat, q: real): (h: real)
    requires 0.0 <= q <= 1.0
    ensures 0.0 <= h <= m as real
  {
    if m == 0 then 0.0 else Position(m - 1, q) + q
  }

  function QuantileOf(sorted: seq<real>, q: real): real
    requires sorted != [] && 0.0 <= q <= 1.0
  {
    if |sorted| == 1 then sorted[0] else Interpolate(sorted, Position(|sorted| - 1, q))
  }

  function Quantile(values: seq<real>, q: real): real
    requires 0.0 <= q <= 1.0
  {
    SortLength(values);
    if values == [] then 0.0 else QuantileOf(Sort(values), q)
  }

  function Sum(values: seq<real>): real {
    if values == [] then 0.0 else values[0] + Sum(values[1..])
  }

  function Count(values: seq<real>, p: real -> bool): (n: nat)
    ensures n <= |values|
  {
    if values == [] then 0 else (if p(values[0]) then 1 else 0) + Count(values[1..], p)
  }

  // ----- sorting -----

  lemma {:induction false} InsertMembers(x: real, s: seq<real>, lower: real)
    requires lower <= x && forall i :: 0 <= i < |s| ==> lower <= s[i]
    ensures |Insert(x, s)| == |s| + 1
    ensures forall i :: 0 <= i < |Insert(x, s)| ==> lower <= Insert(x, s)[i]
  {
    if s != [] && x > s[0] { InsertMembers(x, s[1..], lower); }
  }

  lemma {:induction false} InsertSorts(x: real, s: seq<real>)
    requires IsSorted(s)
    ensures IsSorted(Insert(x, s))
  {
    if s != [] && x > s[0] {
      InsertSorts(x, s[1..]);
      InsertMembers(x, s[1..], s[0]);
    }
  }

  lemma {:induction false} InsertAdds(x: real, s: seq<real>)
    ensures multiset(Insert(x, s)) == multiset(s) + multiset{x}
  {
    if s != [] && x > s[0] {
      InsertAdds(x, s[1..]);
      assert s == [s[0]] + s[1..];
    }
  }

  lemma {:induction false} SortSorts(values: seq<real>)
    ensures IsSorted(Sort(values)) && multiset(Sort(values)) == multiset(values)
  {
    if values != [] {
      SortSorts(values[1..]);
      InsertSorts(values[0], Sort(values[1..]));
      InsertAdds(values[0], Sort(values[1..]));
      assert values == [values[0]] + values[1..];
    }
  }

  lemma SortLength(values: seq<real>)
    ensures |Sort(values)| == |values|
  {
    SortSorts(values);
    assert |multiset(Sort(values))| == |multiset(values)|;
  }

  /** There is only one way to sort: whatever sort the runtime uses gives this result. */
  lemma {:induction false} SortedIsUnique(a: seq<real>, b: seq<real>)
    requires IsSorted(a) && IsSorted(b) && multiset(a) == multiset(b)
    ensures a == b
  {
    if a == [] || b == [] {
      assert |multiset(a)| == |a| && |multiset(b)| == |b|;
    } else {
      SameFirst(a, b);
      TailOf(a);
      TailOf(b);
      SameTails(a, b);
      SortedIsUnique(a[1..], b[1..]);
      assert a == [a[0]] + a[1..] && b == [b[0]] + b[1..];
    }
  }

  lemma TailOf(s: seq<real>)
    requires s != []
    ensures multiset(s) == multiset{s[0]} + multiset(s[1..])
    ensures IsSorted(s) ==> IsSorted(s[1..])
  {
    assert s == [s[0]] + s[1..];
  }

  lemma SameTails(a: seq<real>, b: seq<real>)
    requires a != [] && b != [] && a[0] == b[0] && multiset(a) == multiset(b)
    ensures multiset(a[1..]) == multiset(b[1..])
  {
    TailOf(a);
    TailOf(b);
    assert multiset(a[1..]) == multiset(a) - multiset{a[0]};
    assert multiset(b[1..]) == multiset(b) - multiset{b[0]};
  }

  lemma SameFirst(a: seq<real>, b: seq<real>)
    requires IsSorted(a) && IsSorted(b) && multiset(a) == multiset(b) && a != [] && b != []
    ensures a[0] == b[0]
  {
    assert a[0] in multiset(b) && b[0] in multiset(a);
  }

  /** A quantile does not depend on the order of the samples. */
  lemma OrderDoesNotMatter(a: seq<real>, b: seq<real>, q: real)
    requires multiset(a) == multiset(b) && 0.0 <= q <= 1.0
    ensures Quantile(a, q) == Quantile(b, q)
  {
    assert Sort(a) == Sort(b) by {
      SortSorts(a);
      SortSorts(b);
      SortedIsUnique(Sort(a), Sort(b));
    }
    assert |a| == |multiset(a)| == |multiset(b)| == |b|;
  }

  // ----- interpolation -----

  lemma Scaled(t: real, u: real, d: real)
    requires d >= 0.0 && t <= u
    ensures t * d <= u * d
  {
    assert (u - t) * d >= 0.0;
    assert (u - t) * d == u * d - t * d;
  }

  lemma MixMonotone(a: real, b: real, t: real, u: real)
    requires a <= b && t <= u
    ensures Mix(a, b, t) <= Mix(a, b, u)
  {
    Scaled(t, u, b - a);
  }

  lemma MixBounds(a: real, b: real, share: real)
    requires a <= b && 0.0 <= share <= 1.0
    ensures a <= Mix(a, b, share) <= b
  {
    MixMonotone(a, b, 0.0, share);
    MixMonotone(a, b, share, 1.0);
  }

  lemma {:induction false} PositionIsProduct(m: nat, q: real)
    requires 0.0 <= q <= 1.0
    ensures Position(m, q) == m as real * q
  {
    if m > 0 { PositionIsProduct(m - 1, q); }
  }

  lemma {:induction false} PositionMonotone(m: nat, p: real, q: real)
    requires 0.0 <= p <= q <= 1.0
    ensures Position(m, p) <= Position(m, q)
  {
    if m > 0 { PositionMonotone(m - 1, p, q); }
  }

  lemma {:induction false} PositionEnds(m: nat)
    ensures Position(m, 0.0) == 0.0 && Position(m, 1.0) == m as real
  {
    if m > 0 { PositionEnds(m - 1); }
  }

  lemma InterpolateBounds(s: seq<real>, h: real)
    requires IsSorted(s) && 0.0 <= h <= (|s| - 1) as real
    ensures 0 <= h.Floor <= -((-h).Floor) < |s| && s[h.Floor] <= Interpolate(s, h) <= s[-((-h).Floor)]
  {
    var lo, hi := h.Floor, -((-h).Floor);
    if lo != hi { MixBounds(s[lo], s[hi], h - lo as real); }
  }

  lemma CeilIs(h: real)
    ensures -((-h).Floor) == if h == h.Floor as real then h.Floor else h.Floor + 1
  {
  }

  lemma InterpolateMonotone(s: seq<real>, g: real, h: real)
    requires IsSorted(s) && 0.0 <= g <= h <= (|s| - 1) as real
    ensures Interpolate(s, g) <= Interpolate(s, h)
  {
    var lo := g.Floor;
    CeilIs(g);
    CeilIs(h);
    InterpolateBounds(s, g);
    InterpolateBounds(s, h);
    if lo < h.Floor || g == lo as real {
      assert -((-g).Floor) <= h.Floor;
    } else {
      assert Interpolate(s, g) == Mix(s[lo], s[lo + 1], g - lo as real);
      assert Interpolate(s, h) == Mix(s[lo], s[lo + 1], h - lo as real);
      MixMonotone(s[lo], s[lo + 1], g - lo as real, h - lo as real);
    }
  }

  // ----- quantiles -----

  lemma QuantileOfMonotone(s: seq<real>, p: real, q: real)
    requires IsSorted(s) && s != [] && 0.0 <= p <= q <= 1.0
    ensures QuantileOf(s, p) <= QuantileOf(s, q)
  {
    PositionMonotone(|s| - 1, p, q);
    InterpolateMonotone(s, Position(|s| - 1, p), Position(|s| - 1, q));
  }

  /** A larger fraction never gives a smaller quantile. */
  lemma QuantileMonotone(values: seq<real>, p: real, q: real)
    requires 0.0 <= p <= q <= 1.0
    ensures Quantile(values, p) <= Quantile(values, q)
  {
    SortSorts(values);
    SortLength(values);
    if values != [] { QuantileOfMonotone(Sort(values), p, q); }
  }

  lemma {:induction false} CountInserted(x: real, s: seq<real>, p: real -> bool)
    ensures Count(Insert(x, s), p) == Count(s, p) + if p(x) then 1 else 0
  {
    if s == [] || x <= s[0] {
      assert ([x] + s)[1..] == s;
    } else {
      CountInserted(x, s[1..], p);
    }
  }

  lemma {:induction false} CountSorted(values: seq<real>, p: real -> bool)
    ensures Count(Sort(values), p) == Count(values, p)
  {
    if values != [] {
      CountSorted(values[1..], p);
      CountInserted(values[0], Sort(values[1..]), p);
    }
  }

  lemma {:induction false} CountFirst(s: seq<real>, p: real -> bool, n: nat)
    requires n <= |s| && forall i :: 0 <= i < n ==> p(s[i])
    ensures Count(s, p) >= n
  {
    if n > 0 { CountFirst(s[1..], p, n - 1); }
  }

  lemma {:induction false} CountLast(s: seq<real>, p: real -> bool, n: nat)
    requires n <= |s| && forall i :: n <= i < |s| ==> p(s[i])
    ensures Count(s, p) >= |s| - n
    decreases |s|
  {
    if s != [] { CountLast(s[1..], p, if n > 0 then n - 1 else 0); }
  }

  function AtMost(x: real): real -> bool {
    v => v <= x
  }

  function AtLeast(x: real): real -> bool {
    v => v >= x
  }

  lemma QuantileOfRank(s: seq<real>, q: real, x: real, h: real)
    requires IsSorted(s) && s != [] && 0.0 <= q <= 1.0
    requires x == QuantileOf(s, q) && h == Position(|s| - 1, q)
    ensures Count(s, AtMost(x)) >= h.Floor + 1
    ensures Count(s, AtLeast(x)) >= |s| + (-h).Floor
  {
    InterpolateBounds(s, h);
    CountFirst(s, AtMost(x), h.Floor + 1);
    CountLast(s, AtLeast(x), -((-h).Floor));
  }

  /** The q-quantile has at least floor((n-1)q) + 1 samples at or below it, and at least
      n - ceil((n-1)q) samples at or above it. */
  lemma QuantileRank(values: seq<real>, q: real, x: real, h: real)
    requires values != [] && 0.0 <= q <= 1.0
    requires x == Quantile(values, q) && h == Position(|values| - 1, q)
    ensures Count(values, AtMost(x)) >= h.Floor + 1
    ensures Count(values, AtLeast(x)) >= |values| + (-h).Floor
  {
    SortSorts(values);
    SortLength(values);
    QuantileOfRank(Sort(values), q, x, h);
    CountSorted(values, AtMost(x));
    CountSorted(values, AtLeast(x));
  }

  /** Between two neighbours of any sorted arrangement the quantile is linear in the
      position (n - 1)q: it divides their distance as the position divides that of their places. */
  lemma QuantileIsLinear(values: seq<real>, sorted: seq<real>, q: real, h: real, k: nat)
    requires multiset(values) == multiset(sorted) && IsSorted(sorted) && 0.0 <= q <= 1.0
    requires k + 1 < |sorted| && h == Position(|sorted| - 1, q) && k as real <= h <= (k + 1) as real
    ensures Quantile(values, q) == ((k + 1) as real - h) * sorted[k] + (h - k as real) * sorted[k + 1]
  {
    SortSorts(values);
    SortedIsUnique(Sort(values), sorted);
    SortLength(values);
    LinearAt(sorted, h, k);
    QuantileAt(values, q);
  }

  lemma QuantileAt(values: seq<real>, q: real)
    requires |Sort(values)| > 1 && 0.0 <= q <= 1.0
    ensures Quantile(values, q) == Interpolate(Sort(values), Position(|Sort(values)| - 1, q))
  {
  }

  lemma LinearAt(s: seq<real>, h: real, k: nat)
    requires k + 1 < |s| && k as real <= h <= (k + 1) as real
    ensures Interpolate(s, h) == ((k + 1) as real - h) * s[k] + (h - k as real) * s[k + 1]
  {
    CeilIs(h);
    var t := h - k as real;
    if h == (k + 1) as real {
      assert t == 1.0;
    } else if h == k as real {
      assert t == 0.0;
    } else {
      assert h.Floor == k;
      Weighted(s[k], s[k + 1], t);
    }
  }

  lemma Weighted(a: real, b: real, t: real)
    ensures a + t * (b - a) == (1.0 - t) * a + t * b
  {
  }

  /** A single sample is every quantile, and there are none of nothing. */
  lemma QuantileOfFew(values: seq<real>, q: real)
    requires |values| <= 1 && 0.0 <= q <= 1.0
    ensures Quantile(values, q) == if |values| == 0 then 0.0 else values[0]
  {
    if values != [] {
      assert values[1..] == [];
      assert Sort(values) == [values[0]];
    }
  }

  // ----- the summary -----

  lemma {:induction false} SumBounds(s: seq<real>, lower: real, upper: real)
    requires forall i :: 0 <= i < |s| ==> lower <= s[i] <= upper
    ensures |s| as real * lower <= Sum(s) <= |s| as real * upper
  {
    if s != [] {
      SumBounds(s[1..], lower, upper);
      assert |s| as real * lower == lower + |s[1..]| as real * lower;
      assert |s| as real * upper == upper + |s[1..]| as real * upper;
    }
  }

  lemma MeanBounds(n: real, sum: real, lower: real, upper: real)
    requires n > 0.0 && n * lower <= sum <= n * upper
    ensures lower <= sum / n <= upper
  {
  }

  /** The least sample is the 0-quantile and the greatest the 1-quantile. */
  lemma QuantileEnds(s: seq<real>)
    requires s != []
    ensures QuantileOf(s, 0.0) == s[0] && QuantileOf(s, 1.0) == s[|s| - 1]
  {
    PositionEnds(|s| - 1);
  }

  lemma QuantilesInOrder(s: seq<real>)
    requires IsSorted(s) && s != []
    ensures s[0] <= QuantileOf(s, 0.5) <= QuantileOf(s, 0.95) <= QuantileOf(s, 0.99) <= s[|s| - 1]
  {
    QuantileEnds(s);
    QuantileOfMonotone(s, 0.0, 0.5);
    QuantileOfMonotone(s, 0.5, 0.95);
    QuantileOfMonotone(s, 0.95, 0.99);
    QuantileOfMonotone(s, 0.99, 1.0);
  }

  lemma MeanInOrder(s: seq<real>)
    requires IsSorted(s) && s != []
    ensures s[0] <= Sum(s) / |s| as real <= s[|s| - 1]
  {
    SumBounds(s, s[0], s[|s| - 1]);
    MeanBounds(|s| as real, Sum(s), s[0], s[|s| - 1]);
  }

  lemma SortedTwice(values: seq<real>)
    ensures Sort(Sort(values)) == Sort(values)
  {
    SortSorts(values);
    SortSorts(Sort(values));
    SortedIsUnique(Sort(Sort(values)), Sort(values));
  }

  method Total(s: seq<real>) returns (sum: real)
    ensures sum == Sum(s)
  {
    sum := 0.0;
    for i := 0 to |s|
      invariant sum + Sum(s[i..]) == Sum(s)
    {
      sum := sum + s[i];
    }
  }

  /** The numbers printed by summarize are in order. */
  method Summarize(values: seq<real>) returns (min: real, p50: real, p95: real, p99: real, max: real, mean: real)
    requires values != []
    ensures min <= p50 <= p95 <= p99 <= max && min <= mean <= max
    ensures p50 == Quantile(values, 0.5) && p95 == Quantile(values, 0.95) && p99 == Quantile(values, 0.99)
    ensures min in values && max in values && forall v :: v in values ==> min <= v <= max
    ensures mean == Sum(values) / |values| as real
  {
    var sorted := Sort(values);
    SortLength(values);
    SortedTwice(values);
    SortSorts(values);
    SumSorted(values);
    QuantilesInOrder(sorted);
    MeanInOrder(sorted);
    var sum := Total(sorted);
    min, max, mean := sorted[0], sorted[|sorted| - 1], sum / |sorted| as real;
    p50, p95, p99 := Quantile(sorted, 0.5), Quantile(sorted, 0.95), Quantile(sorted, 0.99);
    Extremes(values);
  }

  lemma {:induction false} SumInserted(x: real, s: seq<real>)
    ensures Sum(Insert(x, s)) == x + Sum(s)
  {
    if s == [] || x <= s[0] {
      assert ([x] + s)[1..] == s;
    } else {
      SumInserted(x, s[1..]);
    }
  }

  lemma {:induction false} SumSorted(values: seq<real>)
    ensures Sum(Sort(values)) == Sum(values)
  {
    if values != [] {
      SumSorted(values[1..]);
      SumInserted(values[0], Sort(values[1..]));
    }
  }

  lemma Extremes(values: seq<real>)
    requires values != []
    ensures |Sort(values)| == |values|
    ensures Sort(values)[0] in values && Sort(values)[|values| - 1] in values
    ensures forall v :: v in values ==> Sort(values)[0] <= v <= Sort(values)[|values| - 1]
  {
    var s := Sort(values);
    SortLength(values);
    SortSorts(values);
    assert s[0] in multiset(s) && s[|s| - 1] in multiset(s);
    forall v | v in values ensures s[0] <= v <= s[|s| - 1] {
      assert v in multiset(values);
      var i :| 0 <= i < |s| && s[i] == v;
    }
  }
}
