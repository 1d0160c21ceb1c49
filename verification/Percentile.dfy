/** The two percentile forms in 64-bit arithmetic, and what the reported percentiles mean for the samples. */
module Percentile {
  import opened Options
  import opened Words
  import opened Designs
  import opened Orders

  /** Division and multiplication by name, so that proofs need only the laws below. */
  function Quotient(a: nat, d: nat): (q: nat)
    requires d > 0
    ensures q <= a
  {
    QuotientAtMost(a, d);
    a / d
  }

  lemma QuotientAtMost(a: nat, d: nat)
    requires d > 0
    ensures a / d <= a
  {
    if a / d > 0 { MulAtLeast(a / d, d); }
  }

  function Residual(a: nat, d: nat): (r: nat)
    requires d > 0
    ensures r < d
    ensures a < TWO64 ==> r < TWO64
  {
    a % d
  }

  function Product(a: nat, b: nat): nat {
    a * b
  }

  /** percentile_index of the latency comparison: the product is split so that it stays small. */
  function SplitIndex(count: u64, numerator: u64, denominator: u64): u64
    requires denominator > 0
  {
    var last := Sub(count, 1);
    Add(Wrap(Product(Quotient(last, denominator), numerator)),
        Quotient(Wrap(Product(Residual(last, denominator), numerator)), denominator))
  }

  /** The index of the socket benchmark's percentile; None is the invalid_argument. */
  function DirectIndex(size: u64, numerator: u64, denominator: u64): Option<nat> {
    if denominator == 0 || numerator > denominator then None
    else Some(Quotient(Wrap(Product(Sub(size, 1), numerator)), denominator))
  }

  /** The index both are meant to give: floor((count - 1) * numerator / denominator). */
  function FloorIndex(count: nat, numerator: nat, denominator: nat): nat
    requires count > 0 && denominator > 0
  {
    Quotient(Product(count - 1, numerator), denominator)
  }

  // ----- the laws of division and multiplication -----

  lemma QuotientIs(a: nat, d: nat, q: nat, r: nat)
    requires r < d && a == Product(d, q) + r
    ensures Quotient(a, d) == q && Residual(a, d) == r
  {
    RemainderUnique(a, d, q, r);
  }

  lemma Divided(a: nat, d: nat)
    requires d > 0
    ensures a == Product(d, Quotient(a, d)) + Residual(a, d)
  {}

  lemma Products(a: nat, b: nat, c: nat)
    ensures Product(a, b) == Product(b, a)
    ensures Product(Product(a, b), c) == Product(a, Product(b, c))
    ensures Product(a + b, c) == Product(a, c) + Product(b, c)
  {}

  lemma ProductMonotone(a: nat, b: nat, c: nat)
    requires a <= b
    ensures Product(a, c) <= Product(b, c)
    ensures a < b && c > 0 ==> Product(a, c) < Product(b, c)
  {}

  /** The quotient as the largest factor that fits. */
  lemma QuotientFits(a: nat, d: nat, q: nat)
    requires d > 0
    ensures q <= Quotient(a, d) <==> Product(d, q) <= a
  {
    hide Product, Quotient, Residual;
    var p := Quotient(a, d);
    Divided(a, d);
    Products(d, q, 0);
    Products(d, p, 0);
    if q <= p {
      ProductMonotone(q, p, d);
    } else {
      ProductMonotone(p + 1, q, d);
      Products(p, 1, d);
      assert Product(1, d) == d by { OneTimes(d); }
    }
  }

  lemma OneTimes(d: nat)
    ensures Product(1, d) == d
  {}

  lemma DivideMonotone(a: nat, b: nat, d: nat)
    requires d > 0 && a <= b
    ensures Quotient(a, d) <= Quotient(b, d)
  {
    hide Product, Quotient;
    QuotientFits(a, d, Quotient(a, d));
    QuotientFits(b, d, Quotient(a, d));
  }

  lemma DivideDrops(a: nat, b: nat, d: nat)
    requires d > 0 && a + d <= b
    ensures Quotient(a, d) < Quotient(b, d)
  {}

  lemma WrapDrops(x: nat)
    ensures if x < TWO64 then Wrap(x) == x else Wrap(x) + TWO64 <= x
  {}

  /** Dividing first and scaling the two parts is dividing the product. */
  lemma SplitFloor(last: nat, numerator: nat, denominator: nat)
    requires denominator > 0
    ensures Product(Quotient(last, denominator), numerator) + Quotient(Product(Residual(last, denominator), numerator), denominator)
         == Quotient(Product(last, numerator), denominator)
  {
    hide Product, Quotient, Residual;
    var q, r := Quotient(last, denominator), Residual(last, denominator);
    var high, low := Product(q, numerator), Product(r, numerator);
    Divided(last, denominator);
    Divided(low, denominator);
    Products(Product(denominator, q), r, numerator);
    Products(denominator, q, numerator);
    Products(high, Quotient(low, denominator), denominator);
    Products(denominator, high, 0);
    Products(denominator, Quotient(low, denominator), 0);
    Products(denominator, high + Quotient(low, denominator), 0);
    QuotientIs(Product(last, numerator), denominator, high + Quotient(low, denominator), Residual(low, denominator));
  }

  /** The meant index lies inside the samples. */
  lemma FloorInRange(count: nat, numerator: nat, denominator: nat)
    requires count > 0 && denominator > 0 && numerator <= denominator
    ensures FloorIndex(count, numerator, denominator) < count
  {
    hide Product, Quotient;
    var last := count - 1;
    Products(last, numerator, 0);
    ProductMonotone(numerator, denominator, last);
    DivideMonotone(Product(last, numerator), Product(denominator, last), denominator);
    QuotientIs(Product(denominator, last), denominator, last, 0);
  }

  // ----- when the two forms are right -----

  /** The split form is the floor exactly when the remainder's product fits the word; it never leaves the samples. */
  lemma SplitIsFloor(count: u64, numerator: u64, denominator: u64)
    requires count > 0 && denominator > 0 && numerator <= denominator
    ensures SplitIndex(count, numerator, denominator) < count
    ensures SplitIndex(count, numerator, denominator) == FloorIndex(count, numerator, denominator)
       <==> Product(Residual(count - 1, denominator), numerator) < TWO64
  {
    hide Wrap, Product, Quotient, Residual;
    var last := count - 1;
    WrapDrops(last);
    var high, low := Product(Quotient(last, denominator), numerator), Product(Residual(last, denominator), numerator);
    SplitFloor(last, numerator, denominator);
    FloorInRange(count, numerator, denominator);
    WrapDrops(high);
    WrapDrops(low);
    DivideMonotone(Wrap(low), low, denominator);
    WrapDrops(high + Quotient(Wrap(low), denominator));
    if low >= TWO64 {
      DivideDrops(Wrap(low), low, denominator);
    }
  }

  /** The direct form is the floor exactly when the whole product fits the word; it never leaves the samples. */
  lemma DirectIsFloor(size: u64, numerator: u64, denominator: u64)
    requires size > 0
    ensures DirectIndex(size, numerator, denominator).None? <==> denominator == 0 || numerator > denominator
    ensures DirectIndex(size, numerator, denominator).Some? ==>
      && DirectIndex(size, numerator, denominator).value < size
      && (DirectIndex(size, numerator, denominator).value == FloorIndex(size, numerator, denominator)
          <==> Product(size - 1, numerator) < TWO64)
  {
    hide Wrap, Product, Quotient;
    if denominator > 0 && numerator <= denominator {
      var last := size - 1;
      WrapDrops(last);
      var product := Product(last, numerator);
      WrapDrops(product);
      DivideMonotone(Wrap(product), product, denominator);
      FloorInRange(size, numerator, denominator);
      if product >= TWO64 {
        DivideDrops(Wrap(product), product, denominator);
      }
    }
  }

  /** For the fractions the benchmarks ask for the split form is right at every count. */
  lemma SmallFractionsAreExact(count: u64, numerator: u64, denominator: u64)
    requires count > 0 && 0 < denominator <= 0x1_0000_0000 && numerator <= denominator
    ensures SplitIndex(count, numerator, denominator) == FloorIndex(count, numerator, denominator)
  {
    hide Product, Residual, SplitIndex, FloorIndex;
    var r, limit := Residual(count - 1, denominator), 0x1_0000_0000;
    ProductMonotone(r, limit - 1, numerator);
    Products(limit - 1, numerator, 0);
    ProductMonotone(numerator, limit, limit - 1);
    assert Product(limit, limit - 1) < TWO64 by { LimitSquared(); }
    SplitIsFloor(count, numerator, denominator);
  }

  lemma LimitSquared()
    ensures Product(0x1_0000_0000, 0xffff_ffff) < TWO64
  {}

  /** For every number of samples an accepted configuration can have, the direct form is right too. */
  lemma AcceptedCountsAreExact(size: u64, numerator: u64, denominator: u64)
    requires 0 < size <= 0xffff_ffff && 0 < denominator <= 0x1_0000_0000 && numerator <= denominator
    ensures Product(size - 1, numerator) < TWO64
    ensures DirectIndex(size, numerator, denominator) == Some(FloorIndex(size, numerator, denominator))
  {
    hide Product, DirectIndex, FloorIndex;
    var limit := 0x1_0000_0000;
    ProductMonotone(size - 1, limit - 1, numerator);
    Products(limit - 1, numerator, 0);
    ProductMonotone(numerator, limit, limit - 1);
    assert Product(limit, limit - 1) < TWO64 by { LimitSquared(); }
    DirectIsFloor(size, numerator, denominator);
  }

  /** Beyond them, at a size a vector of 64-bit samples still can have, the direct form fails and the split form does not. */
  lemma DirectOverflows()
    ensures var size: u64 := 0x80_0000_0000_0000;
            && DirectIndex(size, 999, 1000) != Some(FloorIndex(size, 999, 1000))
            && SplitIndex(size, 999, 1000) == FloorIndex(size, 999, 1000)
  {
    hide DirectIndex, FloorIndex, SplitIndex;
    DirectIsFloor(0x80_0000_0000_0000, 999, 1000);
    SmallFractionsAreExact(0x80_0000_0000_0000, 999, 1000);
  }

  /** The split form fails with a denominator beyond 2^32. */
  lemma SplitOverflows()
    ensures var x: u64 := 0x2_0000_0000;
            SplitIndex(x, x, x) != FloorIndex(x, x, x)
  {
    hide SplitIndex, FloorIndex;
    assert Product(Residual(0x1_ffff_ffff, 0x2_0000_0000), 0x2_0000_0000) >= TWO64;
    SplitIsFloor(0x2_0000_0000, 0x2_0000_0000, 0x2_0000_0000);
  }

  /** Wherever the direct form is right the two forms agree. */
  lemma FormsAgree(count: u64, numerator: u64, denominator: u64)
    requires count > 0 && denominator > 0 && numerator <= denominator && Product(count - 1, numerator) < TWO64
    ensures DirectIndex(count, numerator, denominator) == Some(SplitIndex(count, numerator, denominator))
  {
    hide Product, Quotient, Residual, DirectIndex, SplitIndex, FloorIndex;
    DirectIsFloor(count, numerator, denominator);
    SplitIsFloor(count, numerator, denominator);
    Divided(count - 1, denominator);
    ProductMonotone(Residual(count - 1, denominator), count - 1, numerator);
  }

  /** A larger fraction has an index at least as large. */
  lemma FloorMonotone(count: nat, n1: nat, d1: nat, n2: nat, d2: nat)
    requires count > 0 && d1 > 0 && d2 > 0 && Product(n1, d2) <= Product(n2, d1)
    ensures FloorIndex(count, n1, d1) <= FloorIndex(count, n2, d2)
  {
    hide Product, Quotient;
    var last := count - 1;
    var i := FloorIndex(count, n1, d1);
    QuotientFits(Product(last, n1), d1, i);
    QuotientFits(Product(last, n2), d2, i);
    ScaledFits(last, i, n1, d1, n2, d2);
  }

  /** i * d1 <= last * n1 carries over to the larger fraction. */
  lemma ScaledFits(last: nat, i: nat, n1: nat, d1: nat, n2: nat, d2: nat)
    requires d1 > 0 && d2 > 0 && Product(n1, d2) <= Product(n2, d1) && Product(d1, i) <= Product(last, n1)
    ensures Product(d2, i) <= Product(last, n2)
  {}

  // ----- what a reported percentile is -----

  function AtMost(xs: seq<int>, v: int): nat {
    if xs == [] then 0 else AtMost(xs[..|xs| - 1], v) + if xs[|xs| - 1] <= v then 1 else 0
  }

  function Below(xs: seq<int>, v: int): nat {
    if xs == [] then 0 else Below(xs[..|xs| - 1], v) + if xs[|xs| - 1] < v then 1 else 0
  }

  /** v is the sample with index i in sorted order: more than i samples are at most v, and at most i are below it. */
  predicate OrderStatistic(xs: seq<int>, i: nat, v: int) {
    v in xs && Below(xs, v) <= i < AtMost(xs, v)
  }

  lemma {:induction false} CountsMonotone(xs: seq<int>, v: int, w: int)
    requires v < w
    ensures AtMost(xs, v) <= Below(xs, w)
  {
    if xs != [] {
      CountsMonotone(xs[..|xs| - 1], v, w);
    }
  }

  /** Only one value is at an index. */
  lemma OrderStatisticUnique(xs: seq<int>, i: nat, v: int, w: int)
    requires OrderStatistic(xs, i, v) && OrderStatistic(xs, i, w)
    ensures v == w
  {
    if v < w { CountsMonotone(xs, v, w); }
    if w < v { CountsMonotone(xs, w, v); }
  }

  /** Larger indices have larger values. */
  lemma OrderStatisticsAscend(xs: seq<int>, i: nat, j: nat, v: int, w: int)
    requires OrderStatistic(xs, i, v) && OrderStatistic(xs, j, w) && i <= j
    ensures v <= w
  {
    if w < v { CountsMonotone(xs, w, v); }
  }

  lemma {:induction false} CountsOfAscending(xs: seq<int>, i: nat)
    requires Ascending(xs) && i < |xs|
    ensures Below(xs, xs[i]) <= i < AtMost(xs, xs[i])
  {
    var n := |xs| - 1;
    if i < n {
      CountsOfAscending(xs[..n], i);
    } else {
      CountBounds(xs[..n], xs[n]);
    }
  }

  lemma {:induction false} CountBounds(xs: seq<int>, v: int)
    ensures Below(xs, v) <= |xs|
    ensures (forall k :: 0 <= k < |xs| ==> xs[k] <= v) ==> AtMost(xs, v) == |xs|
  {
    if xs != [] {
      CountBounds(xs[..|xs| - 1], v);
    }
  }

  lemma {:induction false} CountsOfConcat(xs: seq<int>, ys: seq<int>, v: int)
    ensures AtMost(xs + ys, v) == AtMost(xs, v) + AtMost(ys, v)
    ensures Below(xs + ys, v) == Below(xs, v) + Below(ys, v)
  {
    if ys == [] {
      assert xs + ys == xs;
    } else {
      var n := |ys| - 1;
      assert (xs + ys)[..|xs| + n] == xs + ys[..n];
      CountsOfConcat(xs, ys[..n], v);
    }
  }

  lemma CountsOfOne(x: int, v: int)
    ensures AtMost([x], v) == (if x <= v then 1 else 0) && Below([x], v) == (if x < v then 1 else 0)
  {}

  lemma CountsWithout(xs: seq<int>, i: nat, v: int)
    requires i < |xs|
    ensures AtMost(xs, v) == AtMost(Without(xs, i), v) + if xs[i] <= v then 1 else 0
    ensures Below(xs, v) == Below(Without(xs, i), v) + if xs[i] < v then 1 else 0
  {
    assert xs == xs[..i] + ([xs[i]] + xs[i + 1..]);
    CountsOfConcat(xs[..i], xs[i + 1..], v);
    CountsOfConcat(xs[..i], [xs[i]] + xs[i + 1..], v);
    CountsOfConcat([xs[i]], xs[i + 1..], v);
    CountsOfOne(xs[i], v);
  }

  lemma BagWithout(xs: seq<int>, i: nat)
    requires i < |xs|
    ensures multiset(Without(xs, i)) == multiset(xs) - multiset{xs[i]}
  {
    assert xs == xs[..i] + ([xs[i]] + xs[i + 1..]);
  }

  /** Reordering does not change the counts. */
  lemma {:induction false} CountsOfReordering(xs: seq<int>, ys: seq<int>, v: int)
    requires multiset(xs) == multiset(ys)
    ensures AtMost(xs, v) == AtMost(ys, v) && Below(xs, v) == Below(ys, v)
    decreases |xs|
  {
    hide AtMost, Below, Without;
    assert |xs| == |multiset(xs)| == |multiset(ys)| == |ys|;
    if xs == [] {
      assert ys == xs;
    } else {
      assert xs[0] in multiset(ys);
      var i :| 0 <= i < |ys| && ys[i] == xs[0];
      BagWithout(xs, 0);
      BagWithout(ys, i);
      assert |Without(xs, 0)| == |multiset(Without(xs, 0))| == |multiset(xs)| - 1;
      CountsOfReordering(Without(xs, 0), Without(ys, i), v);
      CountsWithout(xs, 0, v);
      CountsWithout(ys, i, v);
    }
  }

  /** Any ascending arrangement has the order statistics of the samples. */
  lemma SortedIsOrderStatistic(xs: seq<int>, ys: seq<int>, i: nat)
    requires multiset(xs) == multiset(ys) && Ascending(ys) && i < |ys|
    ensures OrderStatistic(xs, i, ys[i])
  {
    CountsOfAscending(ys, i);
    CountsOfReordering(xs, ys, ys[i]);
    assert ys[i] in multiset(xs);
  }

  // ----- the summary -----

  datatype Distribution = Distribution(p50: int, p90: int, p95: int, p99: int, p999: int, max: int, positive: nat)

  /** The samples in ascending order. */
  function Sorted(xs: seq<int>): seq<int> {
    if xs == [] then [] else Insert(Sorted(xs[..|xs| - 1]), xs[|xs| - 1])
  }

  function Insert(xs: seq<int>, x: int): seq<int> {
    if xs == [] || xs[|xs| - 1] <= x then xs + [x] else Insert(xs[..|xs| - 1], x) + [xs[|xs| - 1]]
  }

  lemma {:induction false} InsertKeepsAll(xs: seq<int>, x: int)
    ensures multiset(Insert(xs, x)) == multiset(xs) + multiset{x}
  {
    if xs != [] && xs[|xs| - 1] > x {
      var n := |xs| - 1;
      InsertKeepsAll(xs[..n], x);
      assert xs == xs[..n] + [xs[n]];
    }
  }

  lemma {:induction false} InsertAscends(xs: seq<int>, x: int)
    requires Ascending(xs)
    ensures Ascending(Insert(xs, x))
  {
    if xs != [] && xs[|xs| - 1] > x {
      var n := |xs| - 1;
      InsertAscends(xs[..n], x);
      InsertKeepsAll(xs[..n], x);
      InsertedAtMost(xs[..n], x, Insert(xs[..n], x), xs[n]);
    }
  }

  /** Sorting gives an ascending arrangement of the same samples. */
  lemma {:induction false} SortedArranges(xs: seq<int>)
    ensures Ascending(Sorted(xs)) && multiset(Sorted(xs)) == multiset(xs) && |Sorted(xs)| == |xs|
  {
    hide Ascending, Insert;
    if xs == [] {
      NothingAscends();
    } else {
      var n := |xs| - 1;
      SortedArranges(xs[..n]);
      InsertAscends(Sorted(xs[..n]), xs[n]);
      InsertKeepsAll(Sorted(xs[..n]), xs[n]);
      assert xs == xs[..n] + [xs[n]];
    }
    assert |Sorted(xs)| == |multiset(Sorted(xs))| == |multiset(xs)| == |xs|;
  }

  lemma NothingAscends()
    ensures Ascending([])
  {}

  lemma InsertedAtMost(xs: seq<int>, x: int, ys: seq<int>, top: int)
    requires multiset(ys) == multiset(xs) + multiset{x}
    requires x <= top && forall k :: 0 <= k < |xs| ==> xs[k] <= top
    ensures forall k :: 0 <= k < |ys| ==> ys[k] <= top
  {
    forall k | 0 <= k < |ys|
      ensures ys[k] <= top
    {
      assert ys[k] in multiset(ys);
    }
  }

  /** The socket benchmark's percentile of sorted samples; None is the invalid_argument. */
  function PercentileOf(sorted: seq<int>, numerator: u64, denominator: u64): Option<int>
    requires 0 < |sorted| < TWO64
  {
    DirectIsFloor(|sorted|, numerator, denominator);
    match DirectIndex(|sorted|, numerator, denominator)
    case None => None
    case Some(index) => Some(sorted[index])
  }

  /** For accepted configurations it is the sample at the meant index, however the samples were ordered. */
  lemma PercentileMeaning(xs: seq<int>, sorted: seq<int>, numerator: u64, denominator: u64)
    requires 0 < |sorted| <= 0xffff_ffff && multiset(xs) == multiset(sorted) && Ascending(sorted)
    requires 0 < denominator <= 0x1_0000_0000 && numerator <= denominator
    ensures PercentileOf(sorted, numerator, denominator).Some?
    ensures OrderStatistic(xs, FloorIndex(|sorted|, numerator, denominator), PercentileOf(sorted, numerator, denominator).value)
  {
    hide OrderStatistic, Product;
    AcceptedCountsAreExact(|sorted|, numerator, denominator);
    PercentileWhileFits(xs, sorted, numerator, denominator);
  }

  /** For any number of samples it is that sample while the product fits. */
  lemma PercentileWhileFits(xs: seq<int>, sorted: seq<int>, numerator: u64, denominator: u64)
    requires 0 < |sorted| < TWO64 && multiset(xs) == multiset(sorted) && Ascending(sorted)
    requires 0 < denominator && numerator <= denominator && Product(|sorted| - 1, numerator) < TWO64
    ensures PercentileOf(sorted, numerator, denominator).Some?
    ensures OrderStatistic(xs, FloorIndex(|sorted|, numerator, denominator), PercentileOf(sorted, numerator, denominator).value)
  {
    hide OrderStatistic, Product;
    DirectIsFloor(|sorted|, numerator, denominator);
    SortedIsOrderStatistic(xs, sorted, FloorIndex(|sorted|, numerator, denominator));
  }

  ghost predicate Reports(xs: seq<int>, numerator: nat, denominator: nat, v: int)
    requires xs != [] && denominator > 0
  {
    OrderStatistic(xs, FloorIndex(|xs|, numerator, denominator), v)
  }

  /** Every column is its order statistic of the measured samples. */
  ghost predicate Summarizes(xs: seq<int>, d: Distribution)
    requires xs != []
  {
    && Reports(xs, 50, 100, d.p50) && Reports(xs, 90, 100, d.p90) && Reports(xs, 95, 100, d.p95)
    && Reports(xs, 99, 100, d.p99) && Reports(xs, 999, 1000, d.p999)
    && OrderStatistic(xs, |xs| - 1, d.max)
    && d.positive + AtMost(xs, 0) == |xs|
  }

  lemma ReportsAscend(xs: seq<int>, n1: nat, d1: nat, v: int, n2: nat, d2: nat, w: int)
    requires xs != [] && d1 > 0 && d2 > 0 && Product(n1, d2) <= Product(n2, d1)
    requires Reports(xs, n1, d1, v) && Reports(xs, n2, d2, w)
    ensures v <= w
  {
    hide Product, OrderStatistic;
    FloorMonotone(|xs|, n1, d1, n2, d2);
    OrderStatisticsAscend(xs, FloorIndex(|xs|, n1, d1), FloorIndex(|xs|, n2, d2), v, w);
  }

  /** The reported columns never decrease. */
  lemma ColumnsAscend(xs: seq<int>, d: Distribution)
    requires xs != [] && Summarizes(xs, d)
    ensures d.p50 <= d.p90 <= d.p95 <= d.p99 <= d.p999 <= d.max
  {
    hide Reports, OrderStatistic;
    ReportsAscend(xs, 50, 100, d.p50, 90, 100, d.p90);
    ReportsAscend(xs, 90, 100, d.p90, 95, 100, d.p95);
    ReportsAscend(xs, 95, 100, d.p95, 99, 100, d.p99);
    ReportsAscend(xs, 99, 100, d.p99, 999, 1000, d.p999);
    LastIsLargest(xs, d);
  }

  lemma LastIsLargest(xs: seq<int>, d: Distribution)
    requires xs != [] && Reports(xs, 999, 1000, d.p999) && OrderStatistic(xs, |xs| - 1, d.max)
    ensures d.p999 <= d.max
  {
    FloorInRange(|xs|, 999, 1000);
    OrderStatisticsAscend(xs, FloorIndex(|xs|, 999, 1000), |xs| - 1, d.p999, d.max);
  }

  lemma ColumnIsReported(xs: seq<int>, sorted: seq<int>, numerator: nat, denominator: nat)
    requires 0 < |sorted| < TWO64 && multiset(xs) == multiset(sorted) && Ascending(sorted)
    requires 0 < denominator <= 1000 && numerator <= denominator
    ensures |xs| == |sorted| && SplitIndex(|sorted|, numerator, denominator) < |sorted|
    ensures Reports(xs, numerator, denominator, sorted[SplitIndex(|sorted|, numerator, denominator)])
  {
    hide OrderStatistic, SplitIndex, FloorIndex;
    assert |xs| == |multiset(xs)| == |multiset(sorted)| == |sorted|;
    SplitIsFloor(|sorted|, numerator, denominator);
    SmallFractionsAreExact(|sorted|, numerator, denominator);
    SortedIsOrderStatistic(xs, sorted, FloorIndex(|sorted|, numerator, denominator));
  }

  method Summarize(samples: seq<int>, warmup: u64, measuredEvents: u64) returns (d: Distribution)
    requires warmup + measuredEvents == |samples| < TWO64 && measuredEvents > 0
    ensures Summarizes(samples[warmup..], d)
    ensures d.p50 <= d.p90 <= d.p95 <= d.p99 <= d.p999 <= d.max
  {
    hide OrderStatistic, SplitIndex, Reports, Sorted;
    var measured: seq<int> := [];
    for index := warmup to |samples|
      invariant measured == samples[warmup..index]
    {
      measured := measured + [samples[index]];
    }
    assert measured == samples[warmup..];
    var sorted := Sorted(measured);
    SortedArranges(measured);
    ColumnIsReported(measured, sorted, 50, 100);
    ColumnIsReported(measured, sorted, 90, 100);
    ColumnIsReported(measured, sorted, 95, 100);
    ColumnIsReported(measured, sorted, 99, 100);
    ColumnIsReported(measured, sorted, 999, 1000);
    SortedIsOrderStatistic(measured, sorted, |sorted| - 1);
    var positive := CountPositive(sorted);
    CountsOfReordering(measured, sorted, 0);
    d := Distribution(At(sorted, 50, 100), At(sorted, 90, 100), At(sorted, 95, 100), At(sorted, 99, 100),
                      At(sorted, 999, 1000), sorted[|sorted| - 1], positive);
    ColumnsAscend(measured, d);
  }

  function At(sorted: seq<int>, numerator: u64, denominator: u64): int
    requires 0 < |sorted| < TWO64 && denominator > 0 && numerator <= denominator
  {
    SplitIsFloor(|sorted|, numerator, denominator);
    sorted[SplitIndex(|sorted|, numerator, denominator)]
  }

  method CountPositive(xs: seq<int>) returns (positive: nat)
    ensures positive + AtMost(xs, 0) == |xs|
  {
    positive := 0;
    for k := 0 to |xs|
      invariant positive + AtMost(xs[..k], 0) == k
    {
      assert xs[..k + 1][..k] == xs[..k];
      if xs[k] > 0 {
        positive := positive + 1;
      }
    }
    assert xs[..|xs|] == xs;
  }
}
