/**
 The statistics of a stream of pings, computed over the reals in one pass: mean, sum of squared
 deviations, and percentiles of the round trip times and of the differences between neighbours.
 */
module FastpingStats {
  import opened Arith

  /** When a packet was sent and when its reply came, in microseconds; zero when it did not. */
  datatype Slot = Slot(sent: nat, received: nat)

  // ---------------------------------------------------------------- what is to be computed

  function Sum(s: seq<int>): real {
    if s == [] then 0.0 else Sum(s[..|s| - 1]) + s[|s| - 1] as real
  }

  function SumOfSquares(s: seq<int>): real {
    if s == [] then 0.0 else SumOfSquares(s[..|s| - 1]) + s[|s| - 1] as real * s[|s| - 1] as real
  }

  /** The sum of the squared distances from `m`. */
  function Deviation(s: seq<int>, m: real): real {
    if s == [] then 0.0
    else Deviation(s[..|s| - 1], m) + (s[|s| - 1] as real - m) * (s[|s| - 1] as real - m)
  }

  function Differences(s: seq<int>): (r: seq<int>)
    ensures |r| == if s == [] then 0 else |s| - 1
  {
    if |s| <= 1 then [] else Differences(s[..|s| - 1]) + [s[|s| - 1] - s[|s| - 2]]
  }

  lemma OneMore(s: seq<int>, x: int)
    ensures Sum(s + [x]) == Sum(s) + x as real
    ensures SumOfSquares(s + [x]) == SumOfSquares(s) + x as real * x as real
  {
    assert (s + [x])[..|s|] == s;
  }

  /** The differences add up to the last value less the first. */
  lemma {:induction false} Telescopes(s: seq<int>)
    requires s != []
    ensures Sum(Differences(s)) == s[|s| - 1] as real - s[0] as real
  {
    if |s| > 1 {
      var front, last := s[..|s| - 1], s[|s| - 1];
      Telescopes(front);
      OneMore(Differences(front), last - front[|front| - 1]);
      assert Differences(s) == Differences(front) + [last - front[|front| - 1]];
    }
  }

  // ---------------------------------------------------------------- running mean and squares

  datatype Running = Running(samples: nat, mean: real, squares: real) {
    /** One round of the updates. */
    function Updated(x: int): Running {
      var delta := x as real - mean;
      var mean' := mean + delta / (samples + 1) as real;
      Running(samples + 1, mean', squares + delta * (x as real - mean'))
    }
  }

  /** The mean is that of the values, and the squares are those of the deviations from it. */
  ghost predicate Describes(r: Running, s: seq<int>) {
    && r.samples == |s|
    && r.mean * r.samples as real == Sum(s)
    && r.squares == Deviation(s, r.mean)
  }

  lemma {:induction false} DeviationIs(s: seq<int>, m: real)
    ensures Deviation(s, m) == Spread(SumOfSquares(s), Sum(s), |s| as real, m)
  {
    if s == [] {
      SpreadOfNone(m);
    } else {
      var n := |s| - 1;
      DeviationIs(s[..n], m);
      SpreadStep(SumOfSquares(s[..n]), Sum(s[..n]), n as real, m, s[n] as real);
    }
  }

  /** The deviation in terms of the sums. */
  function Spread(squares: real, sum: real, n: real, m: real): real {
    squares - 2.0 * (m * sum) + n * (m * m)
  }

  lemma SpreadOfNone(m: real)
    ensures Spread(0.0, 0.0, 0.0, m) == 0.0
  {
  }

  lemma SpreadStep(squares: real, sum: real, n: real, m: real, x: real)
    ensures Spread(squares, sum, n, m) + (x - m) * (x - m) == Spread(squares + x * x, sum + x, n + 1.0, m)
  {
    assert (x - m) * (x - m) == x * x - 2.0 * (m * x) + m * m;
    assert m * (sum + x) == m * sum + m * x;
    assert (n + 1.0) * (m * m) == n * (m * m) + m * m;
  }

  /** With the mean in the middle, the deviation is the sum of squares less `n` squares of the mean. */
  lemma SpreadFromMean(squares: real, sum: real, n: real, m: real)
    requires m * n == sum
    ensures Spread(squares, sum, n, m) == squares - n * (m * m)
  {
    assert m * (m * n) == n * (m * m);
  }

  /** The product that is added is what the new value adds to the deviation. */
  lemma Welford(n: real, a: real, b: real, x: real)
    requires b * (n + 1.0) == a * n + x
    ensures (x - a) * (x - b) == x * x - (n + 1.0) * (b * b) + n * (a * a)
  {
    var k := n + 1.0;
    assert x == b * k - a * n;
    assert (x - a) * (x - b) == x * x - x * (a + b) + a * b;
    assert x * (a + b) == b * k * (a + b) - a * n * (a + b);
    assert b * k * (a + b) == k * (a * b) + k * (b * b);
    assert a * n * (a + b) == n * (a * a) + n * (a * b);
    assert k * (a * b) == n * (a * b) + a * b;
  }

  lemma MeanUpdate(n: real, a: real, x: real)
    requires n >= 0.0
    ensures (a + (x - a) / (n + 1.0)) * (n + 1.0) == a * n + x
  {
    var k := n + 1.0;
    var q := (x - a) / k;
    assert q * k == x - a;
    assert (a + q) * k == a * k + q * k;
    assert a * k == a * n + a;
  }

  /** A round of the updates on the sums. */
  lemma UpdateStep(r: Running, squares: real, sum: real, n: real, x: real, b: real)
    requires n >= 0.0 && r.mean * n == sum && r.squares == Spread(squares, sum, n, r.mean)
    requires b == r.mean + (x - r.mean) / (n + 1.0)
    ensures b * (n + 1.0) == sum + x
    ensures r.squares + (x - r.mean) * (x - b) == Spread(squares + x * x, sum + x, n + 1.0, b)
  {
    MeanUpdate(n, r.mean, x);
    Welford(n, r.mean, b, x);
    SpreadFromMean(squares, sum, n, r.mean);
    SpreadFromMean(squares + x * x, sum + x, n + 1.0, b);
  }

  /** What the updates describe, in terms of the sums. */
  lemma DescribesIff(r: Running, s: seq<int>)
    ensures Describes(r, s) <==>
            r.samples == |s| && Balanced(r, SumOfSquares(s), Sum(s), r.samples as real)
  {
    DeviationIs(s, r.mean);
  }

  ghost predicate Balanced(r: Running, squares: real, sum: real, n: real) {
    r.mean * n == sum && r.squares == Spread(squares, sum, n, r.mean)
  }

  lemma UpdateBalanced(r: Running, squares: real, sum: real, x: int)
    requires Balanced(r, squares, sum, r.samples as real)
    ensures Balanced(r.Updated(x), squares + x as real * x as real, sum + x as real, r.samples as real + 1.0)
  {
    UpdateStep(r, squares, sum, r.samples as real, x as real, r.Updated(x).mean);
  }

  /** A round of the updates takes one more value into account. */
  lemma UpdateDescribes(r: Running, s: seq<int>, x: int)
    requires Describes(r, s)
    ensures Describes(r.Updated(x), s + [x])
  {
    DescribesIff(r, s);
    UpdateBalanced(r, SumOfSquares(s), Sum(s), x);
    OneMore(s, x);
    DescribesIff(r.Updated(x), s + [x]);
  }

  // ---------------------------------------------------------------- order

  predicate Ascending(s: seq<int>) {
    forall i, j :: 0 <= i < j < |s| ==> s[i] <= s[j]
  }

  /** cmp(): the difference as an int. */
  function Cmp(a: Int32, b: Int32): Int32 {
    ToInt32(a - b)
  }

  /** The comparison is right just when the difference fits an int. */
  lemma CmpRightIff(a: Int32, b: Int32)
    ensures (Cmp(a, b) <= 0 <==> a <= b) && (Cmp(b, a) <= 0 <==> b <= a) <==>
            -0x8000_0000 < a as int - b as int < 0x8000_0000
  {
  }

  lemma CmpOverflows()
    ensures Cmp(0x7fff_ffff, -1) < 0
  {
  }

  /** All differences fit an int. */
  predicate Comparable(s: seq<Int32>) {
    forall i, j :: 0 <= i < |s| && 0 <= j < |s| ==> s[i] as int - s[j] as int < 0x8000_0000
  }

  function Insert(x: Int32, s: seq<Int32>): (r: seq<Int32>)
    ensures multiset(r) == multiset(s) + multiset{x} && |r| == |s| + 1
    ensures r[0] == x || (s != [] && r[0] == s[0])
  {
    if s == [] || Cmp(x, s[0]) <= 0 then [x] + s
    else
      assert s == [s[0]] + s[1..];
      [s[0]] + Insert(x, s[1..])
  }

  /** What qsort() makes of an array of numbers. */
  function Sort(s: seq<Int32>): (r: seq<Int32>)
    ensures multiset(r) == multiset(s) && |r| == |s|
  {
    if s == [] then []
    else
      assert s == [s[0]] + s[1..];
      Insert(s[0], Sort(s[1..]))
  }

  lemma {:induction false} InsertAscends(x: Int32, s: seq<Int32>)
    requires Ascending(s) && Comparable([x] + s)
    ensures Ascending(Insert(x, s))
  {
    if s != [] {
      assert ([x] + s)[0] == x && ([x] + s)[1] == s[0];
      CmpRightIff(x, s[0]);
      if Cmp(x, s[0]) > 0 {
        ComparablePart([x] + s[1..], [x] + s);
        InsertAscends(x, s[1..]);
        InsertAbove(s[0], x, s[1..]);
      }
    }
  }

  lemma InsertAbove(low: Int32, x: Int32, s: seq<Int32>)
    requires low <= x && (forall y :: y in s ==> low <= y) && Ascending(Insert(x, s))
    ensures Ascending([low] + Insert(x, s))
  {
    var r := Insert(x, s);
    forall i | 0 <= i < |r|
      ensures low <= r[i]
    {
      assert r[i] in multiset(r);
      assert r[i] == x || r[i] in s;
    }
  }

  lemma ComparablePart(a: seq<Int32>, b: seq<Int32>)
    requires Comparable(b) && forall x :: x in a ==> x in b
    ensures Comparable(a)
  {
    forall i, j | 0 <= i < |a| && 0 <= j < |a|
      ensures a[i] as int - a[j] as int < 0x8000_0000
    {
      assert a[i] in b && a[j] in b;
    }
  }

  /** Numbers whose differences fit an int are put in ascending order. */
  lemma {:induction false} SortAscends(s: seq<Int32>)
    requires Comparable(s)
    ensures Ascending(Sort(s))
  {
    if s != [] {
      ComparablePart(s[1..], s);
      SortAscends(s[1..]);
      forall x | x in [s[0]] + Sort(s[1..])
        ensures x in s
      {
        assert x == s[0] || x in multiset(Sort(s[1..]));
      }
      ComparablePart([s[0]] + Sort(s[1..]), s);
      InsertAscends(s[0], Sort(s[1..]));
    }
  }

  /** The percentiles of interest, in thousandths. */
  const PERMILLES: seq<nat> :=
    [0, 1, 10, 50, 100, 200, 300, 400, 500, 600, 700, 800, 900, 950, 990, 999, 1000]

  /** Where a percentile stands among `n` values in ascending order. */
  function Place(permille: nat, n: nat): (k: nat)
    requires n > 0 && permille <= 1000
    ensures k < n && 1000 * k <= permille * n && (k < n - 1 ==> permille * n < 1000 * (k + 1))
  {
    var k := permille * n / 1000;
    AtMostWhole(permille, n);
    if k >= n then n - 1 else k
  }

  lemma AtMostWhole(permille: nat, n: nat)
    requires permille <= 1000
    ensures permille * n <= 1000 * n
  {
  }

  lemma PlacesAscend(p: nat, q: nat, n: nat)
    requires n > 0 && p <= q <= 1000
    ensures Place(p, n) <= Place(q, n)
  {
    DivMonotone(p * n, q * n, p, q, n);
  }

  lemma DivMonotone(a: int, b: int, p: int, q: int, n: int)
    requires a == p * n && b == q * n && p <= q && n > 0
    ensures a / 1000 <= b / 1000
  {
    assert b - a == (q - p) * n;
  }

  // ---------------------------------------------------------------- the report

  datatype Report =
    | Nothing
    | Summary(minimum: int, maximum: int, mean: real, squares: real, samples: nat, percentiles: seq<int>)

  /** The percentiles go up from the smallest value to the largest. */
  ghost predicate PercentilesOf(ps: seq<int>, s: seq<Int32>)
    requires s != []
  {
    && Chosen(ps, Sort(s), |PERMILLES|)
    && Ascending(ps) && ps[0] == Sort(s)[0] && ps[|ps| - 1] == Sort(s)[|s| - 1]
  }

  /** The values that are at most `v`. */
  function AtMost(s: seq<int>, v: int): nat {
    if s == [] then 0 else AtMost(s[1..], v) + if s[0] <= v then 1 else 0
  }

  lemma {:induction false} AtMostAbove(s: seq<int>, v: int)
    requires forall i :: 0 <= i < |s| ==> s[i] > v
    ensures AtMost(s, v) == 0
  {
    if s != [] { AtMostAbove(s[1..], v); }
  }

  lemma {:induction false} AtMostInOrder(s: seq<int>, k: nat)
    requires Ascending(s) && k < |s|
    ensures AtMost(s, s[k]) >= k + 1
    ensures forall v :: v < s[k] ==> AtMost(s, v) <= k
  {
    if k == 0 {
      forall v | v < s[0]
        ensures AtMost(s, v) == 0
      {
        AtMostAbove(s, v);
      }
    } else {
      AtMostInOrder(s[1..], k - 1);
      assert s[1..][k - 1] == s[k];
      assert s[0] <= s[k];
    }
  }

  /** More than that part of the values are at most `v`, or all are, and no more than that part are at
      most anything below it. */
  ghost predicate Ranks(s: seq<int>, permille: nat, v: int) {
    && (1000 * AtMost(s, v) > permille * |s| || AtMost(s, v) == |s|)
    && forall u :: u < v ==> 1000 * AtMost(s, u) <= permille * |s|
  }

  lemma PlaceRanks(s: seq<int>, permille: nat)
    requires s != [] && Ascending(s) && permille <= 1000
    ensures Ranks(s, permille, s[Place(permille, |s|)])
  {
    var k := Place(permille, |s|);
    AtMostInOrder(s, k);
    AtMostAll(s, s[k]);
    PlaceBounds(permille, |s|, AtMost(s, s[k]));
    forall u | u < s[k]
      ensures 1000 * AtMost(s, u) <= permille * |s|
    {
      assert AtMost(s, u) <= k;
    }
  }

  /** Each percentile that is reported ranks where it should among the values in ascending order. */
  lemma PercentileRank(ps: seq<int>, ipv: seq<int>, i: nat)
    requires ipv != [] && Ascending(ipv) && i < |PERMILLES| && Chosen(ps, ipv, |PERMILLES|)
    ensures Ranks(ipv, PERMILLES[i], ps[i])
  {
    PlaceRanks(ipv, PERMILLES[i]);
  }

  lemma PlaceBounds(permille: nat, n: nat, m: nat)
    requires n > 0 && permille <= 1000 && Place(permille, n) + 1 <= m <= n
    ensures 1000 * m > permille * n || m == n
  {
  }

  lemma {:induction false} AtMostAll(s: seq<int>, v: int)
    ensures AtMost(s, v) <= |s|
  {
    if s != [] { AtMostAll(s[1..], v); }
  }

  /** There is a report just when there are values, and its mean is theirs. */
  ghost predicate Averages(r: Report, s: seq<int>) {
    (r.Summary? <==> s != []) && (r.Summary? ==> r.samples == |s| && r.mean * r.samples as real == Sum(s))
  }

  /** The squares of a report are those of the deviations from its mean. */
  ghost predicate Spreads(r: Report, s: seq<int>) {
    r.Summary? ==> r.squares == Deviation(s, r.mean)
  }

  /** The extremes and percentiles of a report are those of the values if their differences fit an int,
      and some of the values in any case. */
  ghost predicate Orders(r: Report, s: seq<Int32>) {
    r.Summary? && s != [] ==>
      && Drawn(r.minimum, r.maximum, r.percentiles, s)
      && (Comparable(s) ==> Arranged(r.minimum, r.maximum, r.percentiles, s))
  }

  ghost predicate Drawn(minimum: int, maximum: int, ps: seq<int>, s: seq<Int32>) {
    minimum in s && maximum in s && |ps| == |PERMILLES| && forall x :: x in ps ==> x in s
  }

  ghost predicate Arranged(minimum: int, maximum: int, ps: seq<int>, s: seq<Int32>)
    requires s != []
  {
    && minimum in s && maximum in s && (forall x :: x in s ==> minimum <= x <= maximum)
    && PercentilesOf(ps, s)
  }

  /** The value at the index that a percentile has, which is one too large for the last. */
  method Percentile(ipv: seq<int>, permille: nat) returns (v: int)
    requires ipv != [] && permille <= 1000
    ensures v == ipv[Place(permille, |ipv|)]
  {
    var index := permille * |ipv| / 1000;
    DivMonotone(permille * |ipv|, 1000 * |ipv|, permille, 1000, |ipv|);
    if index >= |ipv| {
      index := index - 1;
    }
    v := ipv[index];
  }

  lemma PlaceEnds(n: nat)
    requires n > 0
    ensures Place(0, n) == 0 && Place(1000, n) == n - 1
  {
  }

  lemma {:induction false} LatencyCount(slots: seq<Slot>, k: nat)
    requires k < |slots| && slots[k].received != 0
    ensures var at := |Latencies(slots[..k])|;
            at < |Latencies(slots)| && Latencies(slots)[at] == slots[k].received - slots[k].sent
  {
    var n := |slots| - 1;
    if k < n {
      LatencyCount(slots[..n], k);
      assert slots[..n][..k] == slots[..k];
    }
  }

  /** report_summary(): the loop over the percentiles. */
  method ReportPercentiles(ipv: seq<int>) returns (ps: seq<int>)
    requires ipv != []
    ensures Chosen(ps, ipv, |PERMILLES|) && (Ascending(ipv) ==> Ascending(ps))
  {
    ps := [];
    for i := 0 to |PERMILLES|
      invariant Chosen(ps, ipv, i) && (Ascending(ipv) ==> Ascending(ps))
    {
      var v := Percentile(ipv, PERMILLES[i]);
      if Ascending(ipv) {
        PercentileNext(ps, ipv, i);
      }
      ps := ps + [v];
    }
  }

  ghost predicate Chosen(ps: seq<int>, ipv: seq<int>, n: nat)
    requires ipv != []
  {
    |ps| == n <= |PERMILLES| && forall i :: 0 <= i < n ==> ps[i] == ipv[Place(PERMILLES[i], |ipv|)]
  }

  lemma PercentileNext(ps: seq<int>, ipv: seq<int>, i: nat)
    requires ipv != [] && Ascending(ipv) && i < |PERMILLES| && Chosen(ps, ipv, i) && Ascending(ps)
    ensures Ascending(ps + [ipv[Place(PERMILLES[i], |ipv|)]])
  {
    forall k | 0 <= k < i
      ensures ps[k] <= ipv[Place(PERMILLES[i], |ipv|)]
    {
      PlacesAscend(PERMILLES[k], PERMILLES[i], |ipv|);
    }
  }

  /** Sorting, the extremes and the percentiles of a list of values. */
  method Arrange(values: seq<Int32>) returns (minimum: int, maximum: int, ps: seq<int>)
    requires values != []
    ensures Drawn(minimum, maximum, ps, values)
    ensures Comparable(values) ==> Arranged(minimum, maximum, ps, values)
  {
    var ipv := Sort(values);
    minimum, maximum := ipv[0], ipv[|values| - 1];
    ps := ReportPercentiles(ipv);
    DrawnFrom(values, ipv, ps);
    PlaceEnds(|ipv|);
    if Comparable(values) {
      SortAscends(values);
      SortedEnds(values, ipv);
    }
  }

  lemma DrawnFrom(s: seq<Int32>, sorted: seq<Int32>, ps: seq<int>)
    requires s != [] && multiset(sorted) == multiset(s) && |sorted| == |s| && Chosen(ps, sorted, |PERMILLES|)
    ensures Drawn(sorted[0], sorted[|s| - 1], ps, s)
  {
    forall i | 0 <= i < |sorted|
      ensures sorted[i] in s
    {
      assert sorted[i] in multiset(sorted);
    }
  }

  method Summarise(values: seq<Int32>, r: Running, ghost s: seq<int>) returns (report: Report)
    requires Describes(r, s) && |values| == |s|
    ensures Averages(report, s) && Spreads(report, s) && Orders(report, values)
  {
    report := Nothing;
    if r.samples > 0 {
      var minimum, maximum, ps := Arrange(values);
      report := Summary(minimum, maximum, r.mean, r.squares, r.samples, ps);
      CopyOf(report, r, s);
    }
  }

  lemma CopyOf(report: Report, r: Running, values: seq<int>)
    requires report.Summary? && Running(report.samples, report.mean, report.squares) == r
    requires r.samples > 0 && Describes(r, values)
    ensures Averages(report, values) && Spreads(report, values)
  {
  }

  lemma SortedEnds(s: seq<Int32>, sorted: seq<Int32>)
    requires s != [] && Ascending(sorted) && multiset(sorted) == multiset(s) && |sorted| == |s|
    ensures sorted[0] in s && sorted[|s| - 1] in s
    ensures forall x :: x in s ==> sorted[0] <= x <= sorted[|s| - 1]
  {
    assert sorted[0] in multiset(sorted) && sorted[|s| - 1] in multiset(sorted);
    forall x | x in s
      ensures sorted[0] <= x <= sorted[|s| - 1]
    {
      assert x in multiset(sorted);
      var i :| 0 <= i < |sorted| && sorted[i] == x;
    }
  }

  /** The round trip times of the packets that were answered, in the order in which they were sent. */
  function Latencies(slots: seq<Slot>): seq<int> {
    if slots == [] then []
    else
      var slot := slots[|slots| - 1];
      if slot.received == 0 then Latencies(slots[..|slots| - 1])
      else Latencies(slots[..|slots| - 1]) + [slot.received - slot.sent]
  }

  /** The same as they are kept in a uint64_t. */
  function Unsigned(s: seq<int>): (r: seq<int>)
    ensures |r| == |s| && forall i :: 0 <= i < |s| ==> r[i] == s[i] % TWO_64
  {
    seq(|s|, i requires 0 <= i < |s| => s[i] % TWO_64)
  }

  /** The same as they are kept in an int32_t. */
  function Narrowed(s: seq<int>): (r: seq<Int32>)
    ensures |r| == |s| && forall i :: 0 <= i < |s| ==> r[i] == ToInt32(s[i])
  {
    seq(|s|, i requires 0 <= i < |s| => ToInt32(s[i]))
  }

  /** The variables of the loop over the timings. */
  datatype Tally = Tally(ipv: seq<Int32>, ipdv: seq<Int32>, prev: nat, rtt: Running, jitter: Running)

  ghost predicate Tallied(t: Tally, s: seq<int>) {
    && t.ipv == Narrowed(s) && t.ipdv == Narrowed(Differences(s)) && (s != [] ==> t.prev == s[|s| - 1] % TWO_64)
    && Describes(t.rtt, Unsigned(s)) && Describes(t.jitter, Differences(Unsigned(s)))
  }

  lemma Wraps(x: int, k: int)
    ensures ToInt32(x + 0x1_0000_0000 * k) == ToInt32(x)
  {
    var y := x + 0x8000_0000;
    DivModUnique(y + 0x1_0000_0000 * k, 0x1_0000_0000, y / 0x1_0000_0000 + k, y % 0x1_0000_0000);
  }

  /** Going through a uint64_t does not change what an int keeps. */
  lemma NarrowUnsigned(x: int)
    ensures ToInt32(x % TWO_64) == ToInt32(x)
  {
    var k := x / TWO_64;
    assert x == x % TWO_64 + TWO_64 * k;
    Wraps(x % TWO_64, 0x1_0000_0000 * k);
  }

  lemma NarrowDifference(x: int, y: int)
    ensures ToInt32((x % TWO_64 - y % TWO_64) % TWO_64) == ToInt32(x - y)
  {
    NarrowUnsigned(x % TWO_64 - y % TWO_64);
    var k := x / TWO_64 - y / TWO_64;
    assert x - y == x % TWO_64 - y % TWO_64 + TWO_64 * k;
    Wraps(x % TWO_64 - y % TWO_64, 0x1_0000_0000 * k);
  }

  lemma UnsignedOneMore(s: seq<int>, x: int)
    ensures Unsigned(s + [x]) == Unsigned(s) + [x % TWO_64]
  {
  }

  lemma NarrowedOneMore(s: seq<int>, x: int)
    ensures Narrowed(s + [x]) == Narrowed(s) + [ToInt32(x)]
  {
  }

  lemma {:induction false} DifferencesOneMore(s: seq<int>, x: int)
    ensures Differences(s + [x]) == if s == [] then [] else Differences(s) + [x - s[|s| - 1]]
  {
    assert (s + [x])[..|s|] == s;
  }

  /** The body of the loop, for a packet that was answered. */
  method Count(t: Tally, latency: int, ghost s: seq<int>) returns (t': Tally)
    requires Tallied(t, s)
    ensures Tallied(t', s + [latency])
  {
    var current := latency % TWO_64;
    var rtt := CountTime(t.rtt, current, s, latency);
    var ipdv, jitter := t.ipdv, t.jitter;
    DifferencesOneMore(s, latency);
    if rtt.samples > 1 {
      ipdv, jitter := CountDifference(t, current, s, latency);
    } else {
      DifferencesOneMore(Unsigned(s), current);
    }
    NarrowedOneMore(s, latency);
    NarrowUnsigned(latency);
    t' := Tally(t.ipv + [ToInt32(current)], ipdv, current, rtt, jitter);
  }

  method CountTime(r: Running, current: int, ghost s: seq<int>, ghost latency: int) returns (r': Running)
    requires Describes(r, Unsigned(s)) && current == latency % TWO_64
    ensures Describes(r', Unsigned(s + [latency])) && r' == r.Updated(current)
    ensures Unsigned(s + [latency]) == Unsigned(s) + [current]
  {
    UnsignedOneMore(s, latency);
    UpdateDescribes(r, Unsigned(s), current);
    r' := r.Updated(current);
  }

  lemma {:induction false} NextDifference(s: seq<int>, latency: int, kept: Int32)
    requires s != [] && kept == ToInt32(latency - s[|s| - 1])
    ensures Narrowed(Differences(s + [latency])) == Narrowed(Differences(s)) + [kept]
  {
    DifferencesOneMore(s, latency);
    NarrowedOneMore(Differences(s), latency - s[|s| - 1]);
  }

  lemma SameDifference(x: int, y: int, current: int, prev: int)
    requires current == x % TWO_64 && prev == y % TWO_64
    ensures ToInt32((current - prev) % TWO_64) == ToInt32(x - y)
  {
    NarrowDifference(x, y);
  }

  lemma {:induction false} NextJitter(r: Running, u: seq<int>, current: int)
    requires u != [] && Describes(r, Differences(u))
    ensures Describes(r.Updated(current - u[|u| - 1]), Differences(u + [current]))
  {
    DifferencesOneMore(u, current);
    UpdateDescribes(r, Differences(u), current - u[|u| - 1]);
  }

  method CountDifference(t: Tally, current: nat, ghost s: seq<int>, ghost latency: int)
    returns (ipdv: seq<Int32>, jitter: Running)
    requires Tallied(t, s) && s != [] && current == latency % TWO_64
    ensures ipdv == Narrowed(Differences(s + [latency]))
    ensures Describes(jitter, Differences(Unsigned(s) + [current]))
  {
    var kept := ToInt32((current - t.prev) % TWO_64);
    SameDifference(latency, s[|s| - 1], current, t.prev);
    NextDifference(s, latency, kept);
    NextJitter(t.jitter, Unsigned(s), current);
    ipdv := t.ipdv + [kept];
    jitter := t.jitter.Updated(current - t.prev);
  }

  /** report_destination(): one pass over the timings. */
  method ReportDestination(timing: array<Slot>) returns (rtt: Report, jitter: Report)
    ensures var s := Unsigned(Latencies(timing[..]));
            && Averages(rtt, s) && Spreads(rtt, s)
            && Averages(jitter, Differences(s)) && Spreads(jitter, Differences(s))
    ensures Orders(rtt, Narrowed(Latencies(timing[..])))
    ensures Orders(jitter, Narrowed(Differences(Latencies(timing[..]))))
  {
    var t := Tally([], [], 0, Running(0, 0.0, 0.0), Running(0, 0.0, 0.0));
    for i := 0 to timing.Length
      invariant Tallied(t, Latencies(timing[..i]))
    {
      assert timing[..i + 1][..i] == timing[..i];
      if timing[i].received != 0 {
        t := Count(t, timing[i].received - timing[i].sent, Latencies(timing[..i]));
      }
    }
    assert timing[..timing.Length] == timing[..];
    ghost var s := Unsigned(Latencies(timing[..]));
    rtt := Summarise(t.ipv, t.rtt, s);
    jitter := Summarise(t.ipdv, t.jitter, Differences(s));
  }

  // ---------------------------------------------------------------- when the report is right

  /** Times in microseconds that fit 64 bits. */
  predicate Clocked(slots: seq<Slot>) {
    forall i :: 0 <= i < |slots| ==> slots[i].sent < TWO_64 && slots[i].received < TWO_64
  }

  /** No reply came before its packet was sent, as it may when the clock is set back. */
  predicate Forward(slots: seq<Slot>) {
    forall i :: 0 <= i < |slots| && slots[i].received != 0 ==> slots[i].sent <= slots[i].received
  }

  predicate NonNegative(s: seq<int>) {
    forall i :: 0 <= i < |s| ==> s[i] >= 0
  }

  predicate Bounded(s: seq<int>) {
    forall i :: 0 <= i < |s| ==> -TWO_64 < s[i] < TWO_64
  }

  lemma {:induction false} LatenciesOf(slots: seq<Slot>)
    requires Clocked(slots)
    ensures Bounded(Latencies(slots)) && (NonNegative(Latencies(slots)) <==> Forward(slots))
  {
    if slots != [] {
      var n := |slots| - 1;
      LatenciesOf(slots[..n]);
      assert Forward(slots) <==> Forward(slots[..n]) && Forward([slots[n]]) by {
        assert slots == slots[..n] + [slots[n]];
      }
      if slots[n].received != 0 {
        var l, x := Latencies(slots[..n]), slots[n].received - slots[n].sent;
        assert NonNegative(l + [x]) <==> NonNegative(l) && x >= 0 by {
          assert (l + [x])[|l|] == x && forall i :: 0 <= i < |l| ==> (l + [x])[i] == l[i];
        }
      }
    }
  }

  lemma {:induction false} SumUnsigned(s: seq<int>)
    requires Bounded(s)
    ensures Sum(s) <= Sum(Unsigned(s)) && (Sum(s) == Sum(Unsigned(s)) <==> NonNegative(s))
  {
    if s != [] {
      var n := |s| - 1;
      SumUnsigned(s[..n]);
      UnsignedOf(s[n]);
      assert Unsigned(s)[..n] == Unsigned(s[..n]);
      assert NonNegative(s) <==> NonNegative(s[..n]) && s[n] >= 0 by {
        assert s == s[..n] + [s[n]];
      }
    }
  }

  /** The reported mean is that of the round trip times just when no reply came before its packet was
      sent. */
  lemma {:induction false} MeanRightIff(rtt: Report, slots: seq<Slot>)
    requires Clocked(slots) && Averages(rtt, Unsigned(Latencies(slots)))
    ensures Averages(rtt, Latencies(slots)) <==> Forward(slots)
    ensures Forward(slots) ==> Unsigned(Latencies(slots)) == Latencies(slots)
  {
    LatenciesOf(slots);
    SumUnsigned(Latencies(slots));
    if Latencies(slots) != [] {
      AveragesIff(rtt, Unsigned(Latencies(slots)), Latencies(slots));
    }
    if Forward(slots) {
      UnsignedNonNegative(Latencies(slots));
    }
  }

  lemma UnsignedNonNegative(s: seq<int>)
    requires Bounded(s) && NonNegative(s)
    ensures Unsigned(s) == s
  {
    forall i | 0 <= i < |s|
      ensures Unsigned(s)[i] == s[i]
    {
      UnsignedOf(s[i]);
    }
  }

  /** The clock was set back by a second between a packet and its reply. */
  lemma ClockSetBack(slots: seq<Slot>)
    requires slots == [Slot(2_000_000, 1_999_000)]
    ensures Latencies(slots) == [-1000] && Unsigned(Latencies(slots)) == [18446744073709550616]
    ensures Narrowed(Latencies(slots)) == [-1000]
  {
    assert slots[..0] == [];
  }

  lemma AveragesIff(r: Report, s: seq<int>, s': seq<int>)
    requires Averages(r, s) && |s'| == |s| > 0
    ensures Averages(r, s') <==> Sum(s') == Sum(s)
  {
  }

  /** The mean difference is that of the round trip times just when both or none of the first and the last
      are negative. */
  lemma {:induction false} JitterRightIff(jitter: Report, s: seq<int>)
    requires Bounded(s) && jitter.Summary? && Averages(jitter, Differences(Unsigned(s)))
    ensures Averages(jitter, Differences(s)) <==> (s[0] < 0 <==> s[|s| - 1] < 0)
  {
    AveragesIff(jitter, Differences(Unsigned(s)), Differences(s));
    Telescopes(s);
    Telescopes(Unsigned(s));
    UnsignedOf(s[0]);
    UnsignedOf(s[|s| - 1]);
  }

  lemma UnsignedOf(x: int)
    requires -TWO_64 < x < TWO_64
    ensures x % TWO_64 == if x < 0 then x + TWO_64 else x
  {
  }

  predicate Below(s: seq<int>, bound: nat) {
    forall i :: 0 <= i < |s| ==> 0 <= s[i] < bound
  }

  /** Round trip times below 2^30 microseconds are reported as they are, in every respect. */
  lemma ReportedAsIs(s: seq<int>)
    requires Below(s, 0x4000_0000)
    ensures Unsigned(s) == s && Narrowed(s) == s && Comparable(Narrowed(s))
    ensures Narrowed(Differences(s)) == Differences(s) && Comparable(Narrowed(Differences(s)))
  {
    DifferencesBelow(s);
  }

  lemma {:induction false} DifferencesBelow(s: seq<int>)
    requires Below(s, 0x4000_0000)
    ensures forall i :: 0 <= i < |Differences(s)| ==> -0x4000_0000 < Differences(s)[i] < 0x4000_0000
  {
    if |s| > 1 {
      DifferencesBelow(s[..|s| - 1]);
    }
  }

  /** The mean of the differences is what the first and the last round trip time make it. */
  lemma JitterMean(jitter: Report, s: seq<int>)
    requires jitter.Summary? && Averages(jitter, Differences(s))
    ensures s != [] && jitter.samples == |s| - 1
    ensures jitter.mean * jitter.samples as real == s[|s| - 1] as real - s[0] as real
  {
    Telescopes(s);
  }
}
