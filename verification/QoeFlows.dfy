// Per-flow counters and latency histograms, loss percentages in 32-bit arithmetic, and the sums
// over flows that a service report is made of.
//
// The clock is an input of each call.

module QoeFlows {
  import opened Basics
  import opened Modular

  const BUCKETS: nat := 10

  datatype FlowMetrics = FlowMetrics(
    packetCount: int, byteCount: int, lossCount: int, buckets: seq<int>, lastUpdateNs: int, active: bool)

  /** A telemetry sample, with the clock reading at which it is recorded. */
  datatype Sample = Sample(packetSize: nat, latencyUs: nat, lost: bool, nowNs: int)

  /** Fields the source leaves uninitialised are None. */
  datatype FlowKpi = FlowKpi(flowId: nat, packetCount: Option<int>, byteCount: Option<int>, lossPercent: Option<int>)

  datatype ServiceKpi = ServiceKpi(totalFlows: int, totalPackets: int, totalBytes: int, avgLossPercent: Option<int>)

  /** A service report: the window it is for, and the figures. */
  datatype ServiceReport = ServiceReport(serviceId: nat, windowStartNs: int, windowEndNs: int, kpi: ServiceKpi)

  function BucketOf(x: Sample): (b: nat)
    ensures b < BUCKETS
  {
    Min(9, x.latencyUs / 10)
  }

  /** Bucket b holds the latencies from 10 b up to 10 b + 9 microseconds, and the last all from 90. */
  lemma BucketBounds(x: Sample, b: nat)
    ensures BucketOf(x) == b <==> b < BUCKETS && 10 * b <= x.latencyUs && (b < BUCKETS - 1 ==> x.latencyUs < 10 * b + 10)
  {
  }

  function Recorded(m: FlowMetrics, x: Sample): FlowMetrics
    requires |m.buckets| == BUCKETS
  {
    var b := BucketOf(x);
    FlowMetrics(
      Wrap64(m.packetCount + 1), Wrap64(m.byteCount + x.packetSize),
      if x.lost then Wrap32(m.lossCount + 1) else m.lossCount,
      m.buckets[b := Wrap32(m.buckets[b] + 1)], x.nowNs, m.active)
  }

  function Sum(xs: seq<int>): int {
    if xs == [] then 0 else Sum(xs[..|xs| - 1]) + xs[|xs| - 1]
  }

  /** The percentage in the source's arithmetic: a 32-bit product, divided by a 64-bit count. */
  function LossPercent(m: FlowMetrics): int
    requires m.packetCount > 0
  {
    Wrap32(m.lossCount * 100) / m.packetCount
  }

  /** The guard of the division, and the division it guards. */
  predicate DivisionDefined(m: FlowMetrics) {
    Sum(m.buckets) > 0 ==> m.packetCount > 0
  }

  function KpiOf(flowId: nat, m: FlowMetrics): FlowKpi
    requires DivisionDefined(m)
  {
    FlowKpi(flowId, Some(m.packetCount), Some(m.byteCount), if Sum(m.buckets) > 0 then Some(LossPercent(m)) else None)
  }

  // ---------------------------------------------------------------- one flow over a history

  const FRESH: FlowMetrics := FlowMetrics(0, 0, 0, [0, 0, 0, 0, 0, 0, 0, 0, 0, 0], 0, true)

  function Replay(xs: seq<Sample>): (m: FlowMetrics)
    ensures |m.buckets| == BUCKETS
  {
    if xs == [] then FRESH else Recorded(Replay(xs[..|xs| - 1]), xs[|xs| - 1])
  }

  function Losses(xs: seq<Sample>): nat {
    if xs == [] then 0 else Losses(xs[..|xs| - 1]) + (if xs[|xs| - 1].lost then 1 else 0)
  }

  function InBucket(xs: seq<Sample>, b: nat): nat {
    if xs == [] then 0 else InBucket(xs[..|xs| - 1], b) + (if BucketOf(xs[|xs| - 1]) == b then 1 else 0)
  }

  function Histogram(xs: seq<Sample>): seq<int> {
    seq(BUCKETS, b requires 0 <= b => InBucket(xs, b))
  }

  /** Every cell is its true count, wrapped to the width of the cell. */
  lemma {:induction false} CellsAreCounts(xs: seq<Sample>)
    ensures var m := Replay(xs);
            && m.packetCount == Wrap64(|xs|) && m.lossCount == Wrap32(Losses(xs))
            && (forall b | 0 <= b < BUCKETS :: m.buckets[b] == Wrap32(InBucket(xs, b)))
    decreases |xs|
  {
    if xs == [] {
    } else {
      var before, x := xs[..|xs| - 1], xs[|xs| - 1];
      CellsAreCounts(before);
      Wrap64Add(|before|, 1);
      WrapAdd(Losses(before), 1);
      WrapAdd(InBucket(before, BucketOf(x)), 1);
    }
  }

  lemma {:induction false} SumUpdate(xs: seq<int>, i: nat, d: int)
    requires i < |xs|
    ensures Sum(xs[i := xs[i] + d]) == Sum(xs) + d
    decreases |xs|
  {
    var ys := xs[i := xs[i] + d];
    if i == |xs| - 1 {
      assert ys[..|xs| - 1] == xs[..|xs| - 1];
    } else {
      SumUpdate(xs[..|xs| - 1], i, d);
      assert ys[..|xs| - 1] == xs[..|xs| - 1][i := xs[i] + d];
    }
  }

  lemma {:induction false} HistogramAddsUp(xs: seq<Sample>)
    ensures Sum(Histogram(xs)) == |xs| && Losses(xs) <= |xs|
    decreases |xs|
  {
    if xs == [] {
      assert Histogram(xs) == [0, 0, 0, 0, 0, 0, 0, 0, 0, 0];
      ZeroSum(Histogram(xs));
    } else {
      var before, b := xs[..|xs| - 1], BucketOf(xs[|xs| - 1]);
      HistogramAddsUp(before);
      SumUpdate(Histogram(before), b, 1);
      assert Histogram(xs) == Histogram(before)[b := Histogram(before)[b] + 1];
    }
  }

  lemma {:induction false} ZeroSum(xs: seq<int>)
    requires forall i | 0 <= i < |xs| :: xs[i] == 0
    ensures Sum(xs) == 0
    decreases |xs|
  {
    if xs == [] {
    } else {
      ZeroSum(xs[..|xs| - 1]);
    }
  }

  /** While no 32-bit cell wraps, the buckets add up to the packet count and losses stay within it. */
  lemma HistogramInvariant(xs: seq<Sample>)
    requires Losses(xs) < WORD && forall b | 0 <= b < BUCKETS :: InBucket(xs, b) < WORD
    ensures var m := Replay(xs);
            Sum(m.buckets) == m.packetCount == |xs| && m.lossCount == Losses(xs) <= m.packetCount
  {
    var m := Replay(xs);
    CellsAreCounts(xs);
    HistogramAddsUp(xs);
    forall b | 0 <= b < BUCKETS
      ensures m.buckets[b] == Histogram(xs)[b]
    {
      Wrap32Fits(InBucket(xs, b));
    }
    assert m.buckets == Histogram(xs);
    SumBound(Histogram(xs));
    Wrap32Fits(Losses(xs));
    Wrap64Fits(|xs|);
  }

  lemma {:induction false} SumBound(xs: seq<int>)
    requires forall i | 0 <= i < |xs| :: 0 <= xs[i] < WORD
    ensures 0 <= Sum(xs) <= |xs| * WORD
    decreases |xs|
  {
    if xs == [] {
    } else {
      SumBound(xs[..|xs| - 1]);
    }
  }

  /** Wraps or not, the guarded division is safe for any history shorter than 2^64 samples. */
  lemma DivisionSafe(xs: seq<Sample>)
    requires |xs| < QWORD
    ensures DivisionDefined(Replay(xs))
  {
    CellsAreCounts(xs);
    if xs == [] {
      ZeroSum(FRESH.buckets);
    }
  }

  /** floor(100 * losses / packets), without machine arithmetic. */
  function TrueLossPercent(losses: nat, packets: nat): nat
    requires packets > 0
  {
    losses * 100 / packets
  }

  lemma FloorIff(a: nat, w: nat, k: nat, p: nat)
    requires p > 0 && a >= k * w
    ensures (a - k * w) / p == a / p <==> a % p >= k * w
  {
    var q, r := a / p, a % p;
    assert a == q * p + r;
    var b := a - k * w;
    if r >= k * w {
      DivUnique(b, p, q, r - k * w);
    } else {
      DivBelow(b, p, q);
    }
  }

  lemma DivBelow(b: nat, p: nat, q: nat)
    requires p > 0 && b < q * p
    ensures b / p < q
  {
    assert b == b / p * p + b % p;
    assert (b / p - q) * p == b / p * p - q * p;
    MultipleBounds(b / p - q, p);
  }

  /** The reported percentage is the true one if and only if what the 32-bit product loses fits in
      the remainder of the division; in particular whenever 100 * losses fits 32 bits. */
  lemma LossPercentExactIff(xs: seq<Sample>)
    requires 0 < |xs| < QWORD
    ensures Replay(xs).packetCount > 0
    ensures var product := Losses(xs) * 100;
            LossPercent(Replay(xs)) == TrueLossPercent(Losses(xs), |xs|) <==>
              product % |xs| >= product / WORD * WORD
  {
    CellsAreCounts(xs);
    Wrap64Fits(|xs|);
    WrappedPercent(Losses(xs), |xs|);
  }

  lemma WrappedPercent(losses: nat, packets: nat)
    requires packets > 0
    ensures var product := losses * 100;
            Wrap32(Wrap32(losses) * 100) / packets == TrueLossPercent(losses, packets) <==>
              product % packets >= product / WORD * WORD
  {
    var product := losses * 100;
    WrapTimes(losses, 100);
    WrapLeaves(product);
    FloorIff(product, WORD, product / WORD, packets);
  }

  lemma WrapLeaves(a: nat)
    ensures a / WORD * WORD <= a && Wrap32(a) == a - a / WORD * WORD
  {
  }

  lemma WrapTimes(a: int, c: int)
    ensures Wrap32(Wrap32(a) * c) == Wrap32(a * c)
  {
    var q := a / WORD;
    assert a == q * WORD + Wrap32(a);
    assert a * c == (q * c) * WORD + Wrap32(a) * c;
    WrapPlusLaps(Wrap32(a) * c, q * c);
  }

  /** Up to 42,949,672 losses the percentage is exact and at most 100. */
  lemma LossPercentExact(xs: seq<Sample>)
    requires 0 < |xs| < QWORD && Losses(xs) <= 42_949_672
    ensures Replay(xs).packetCount > 0
    ensures LossPercent(Replay(xs)) == TrueLossPercent(Losses(xs), |xs|) <= 100
  {
    LossPercentExactIff(xs);
    HistogramAddsUp(xs);
    NothingWraps(Losses(xs) * 100, |xs|);
    PercentAtMost(Losses(xs), |xs|);
  }

  lemma NothingWraps(product: nat, packets: nat)
    requires packets > 0 && product < WORD
    ensures product % packets >= product / WORD * WORD
  {
    assert product / WORD == 0;
  }

  function Repeat(n: nat, x: Sample): (xs: seq<Sample>)
    ensures |xs| == n
  {
    if n == 0 then [] else Repeat(n - 1, x) + [x]
  }

  lemma {:induction false} AllLost(n: nat, x: Sample)
    requires x.lost
    ensures Losses(Repeat(n, x)) == n
  {
    if n == 0 {
    } else {
      AllLost(n - 1, x);
      assert Repeat(n, x)[..n - 1] == Repeat(n - 1, x);
    }
  }

  /** One loss more, and a flow that lost every packet can be reported to have lost none. */
  lemma LossPercentFailsNext(x: Sample)
    requires x.lost
    ensures var xs := Repeat(42_949_673, x);
            && Losses(xs) == |xs| == 42_949_673 && Replay(xs).packetCount > 0
            && TrueLossPercent(Losses(xs), |xs|) == 100 && LossPercent(Replay(xs)) == 0
  {
    AllLost(42_949_673, x);
    CellsAreCounts(Repeat(42_949_673, x));
    assert Wrap32(42_949_673 * 100) == 4;
  }

  lemma PercentAtMost(losses: nat, packets: nat)
    requires packets > 0 && losses <= packets
    ensures TrueLossPercent(losses, packets) <= 100
  {
    var q := losses * 100 / packets;
    assert q * packets <= losses * 100 <= 100 * packets;
    assert (q - 100) * packets == q * packets - 100 * packets;
    MultipleBounds(q - 100, packets);
  }

  function BytesOf(xs: seq<Sample>): nat {
    if xs == [] then 0 else BytesOf(xs[..|xs| - 1]) + xs[|xs| - 1].packetSize
  }

  /** The byte count, the time of the last sample, and that recording leaves the flow active. */
  lemma {:induction false} BytesAndTime(xs: seq<Sample>)
    ensures var m := Replay(xs);
            && m.byteCount == Wrap64(BytesOf(xs)) && m.active
            && m.lastUpdateNs == if xs == [] then 0 else xs[|xs| - 1].nowNs
    decreases |xs|
  {
    if xs == [] {
    } else {
      BytesAndTime(xs[..|xs| - 1]);
      Wrap64Add(BytesOf(xs[..|xs| - 1]), xs[|xs| - 1].packetSize);
    }
  }

  /** What is reported of a flow, in terms of its samples: how many there were, their bytes modulo
      2^64, and a percentage as soon as there is one, as long as no bucket can have wrapped. */
  lemma FlowReport(flowId: nat, xs: seq<Sample>)
    requires |xs| < WORD
    ensures DivisionDefined(Replay(xs))
    ensures var kpi := KpiOf(flowId, Replay(xs));
            && kpi.flowId == flowId && kpi.packetCount == Some(|xs|) && kpi.byteCount == Some(Wrap64(BytesOf(xs)))
            && (kpi.lossPercent == None <==> xs == [])
            && (xs != [] ==> kpi.lossPercent == Some(Wrap32(Losses(xs) * 100) / |xs|))
  {
    DivisionSafe(xs);
    BytesAndTime(xs);
    HistogramAddsUp(xs);
    BucketsWithin(xs);
    HistogramInvariant(xs);
  }

  lemma {:induction false} BucketsWithin(xs: seq<Sample>)
    ensures forall b | 0 <= b < BUCKETS :: InBucket(xs, b) <= |xs|
    decreases |xs|
  {
    if xs == [] {
    } else {
      BucketsWithin(xs[..|xs| - 1]);
    }
  }

  // ---------------------------------------------------------------- all flows over a history

  datatype Tagged = Tagged(flowId: nat, x: Sample)

  /** Recording in the table of flows; ids beyond it are ignored. */
  function RecordedAt(fs: seq<FlowMetrics>, op: Tagged): (fs': seq<FlowMetrics>)
    requires forall m <- fs :: |m.buckets| == BUCKETS
    ensures |fs'| == |fs| && forall m <- fs' :: |m.buckets| == BUCKETS
  {
    if op.flowId < |fs| then fs[op.flowId := Recorded(fs[op.flowId], op.x)] else fs
  }

  function ReplayAll(n: nat, ops: seq<Tagged>): (fs: seq<FlowMetrics>)
    ensures |fs| == n && forall m <- fs :: |m.buckets| == BUCKETS
  {
    if ops == [] then seq(n, i => FRESH) else RecordedAt(ReplayAll(n, ops[..|ops| - 1]), ops[|ops| - 1])
  }

  function SamplesOf(ops: seq<Tagged>, f: nat): seq<Sample> {
    if ops == [] then []
    else SamplesOf(ops[..|ops| - 1], f) + (if ops[|ops| - 1].flowId == f then [ops[|ops| - 1].x] else [])
  }

  /** Over any interleaving of samples, each flow is what its own samples make of it. */
  lemma {:induction false} FlowsAreIndependent(n: nat, ops: seq<Tagged>, f: nat)
    requires f < n
    ensures ReplayAll(n, ops)[f] == Replay(SamplesOf(ops, f))
    decreases |ops|
  {
    if ops == [] {
    } else {
      var before, op := ops[..|ops| - 1], ops[|ops| - 1];
      assert ops == before + [op];
      FlowsIndependentStep(n, before, op, f);
      FlowsAreIndependent(n, before, f);
    }
  }

  lemma FlowsIndependentStep(n: nat, before: seq<Tagged>, op: Tagged, f: nat)
    requires f < n
    ensures ReplayAll(n, before)[f] == Replay(SamplesOf(before, f)) ==>
              ReplayAll(n, before + [op])[f] == Replay(SamplesOf(before + [op], f))
  {
    assert (before + [op])[..|before|] == before;
    if op.flowId == f {
      var xs := SamplesOf(before, f);
      assert (xs + [op.x])[..|xs|] == xs;
    } else {
      assert SamplesOf(before, f) + [] == SamplesOf(before, f);
    }
  }

  // ---------------------------------------------------------------- service aggregates

  /** A flow counts for a window when it was updated in it. */
  predicate InWindow(m: FlowMetrics, windowStart: int) {
    m.lastUpdateNs >= windowStart
  }

  function Packets(fs: seq<FlowMetrics>, start: int): int {
    if fs == [] then 0
    else Packets(fs[..|fs| - 1], start) + (if InWindow(fs[|fs| - 1], start) then fs[|fs| - 1].packetCount else 0)
  }

  function Lost(fs: seq<FlowMetrics>, start: int): int {
    if fs == [] then 0
    else Lost(fs[..|fs| - 1], start) + (if InWindow(fs[|fs| - 1], start) then fs[|fs| - 1].lossCount else 0)
  }

  function BytesIn(fs: seq<FlowMetrics>, start: int): int {
    if fs == [] then 0
    else BytesIn(fs[..|fs| - 1], start) + (if InWindow(fs[|fs| - 1], start) then fs[|fs| - 1].byteCount else 0)
  }

  function FlowsIn(fs: seq<FlowMetrics>, start: int): nat {
    if fs == [] then 0
    else FlowsIn(fs[..|fs| - 1], start) + (if InWindow(fs[|fs| - 1], start) then 1 else 0)
  }

  function ServiceKpiOf(fs: seq<FlowMetrics>, start: int): ServiceKpi {
    var packets := Wrap64(Packets(fs, start));
    ServiceKpi(Wrap64(FlowsIn(fs, start)), packets, Wrap64(BytesIn(fs, start)),
               if packets > 0 then Some(Wrap32(Wrap64(Lost(fs, start) * 100) / packets)) else None)
  }

  /** A flow whose loss percentage lies between lo and hi; one without packets has no losses. */
  predicate LossWithin(m: FlowMetrics, lo: nat, hi: nat) {
    && 0 <= m.lossCount <= m.packetCount
    && (m.packetCount > 0 ==> lo <= TrueLossPercent(m.lossCount, m.packetCount) <= hi)
  }

  lemma PercentBounds(losses: nat, packets: nat, lo: nat, hi: nat)
    requires packets > 0
    ensures lo <= TrueLossPercent(losses, packets) <= hi <==> lo * packets <= losses * 100 < (hi + 1) * packets
  {
    FloorAtLeast(losses * 100, packets, lo);
    FloorAtLeast(losses * 100, packets, hi + 1);
  }

  lemma FloorAtLeast(a: nat, p: nat, lo: nat)
    requires p > 0
    ensures lo <= a / p <==> lo * p <= a
  {
    var q, r := a / p, a % p;
    assert a == q * p + r;
    MultipleBounds(lo - q, p);
    assert (lo - q) * p == lo * p - q * p;
  }

  lemma {:induction false} TotalsWithin(fs: seq<FlowMetrics>, start: int, lo: nat, hi: nat)
    requires forall m <- fs :: InWindow(m, start) ==> LossWithin(m, lo, hi)
    ensures 0 <= Lost(fs, start) <= Packets(fs, start)
    ensures lo * Packets(fs, start) <= Lost(fs, start) * 100
    ensures Packets(fs, start) > 0 ==> Lost(fs, start) * 100 < (hi + 1) * Packets(fs, start)
    decreases |fs|
  {
    if fs == [] {
    } else {
      var before, m := fs[..|fs| - 1], fs[|fs| - 1];
      assert m in fs && forall x <- before :: x in fs;
      TotalsWithin(before, start, lo, hi);
      if InWindow(m, start) && m.packetCount > 0 {
        PercentBounds(m.lossCount, m.packetCount, lo, hi);
        AddBounds(Lost(before, start), Packets(before, start), m.lossCount, m.packetCount, lo, hi);
      }
    }
  }

  lemma AddBounds(l1: nat, p1: nat, l2: nat, p2: nat, lo: nat, hi: nat)
    requires lo * p1 <= l1 * 100 && lo * p2 <= l2 * 100
    requires l1 <= p1 && (p1 > 0 ==> l1 * 100 < (hi + 1) * p1) && l2 * 100 < (hi + 1) * p2
    ensures lo * (p1 + p2) <= (l1 + l2) * 100 < (hi + 1) * (p1 + p2)
  {
    assert (hi + 1) * (p1 + p2) == (hi + 1) * p1 + (hi + 1) * p2;
    assert lo * (p1 + p2) == lo * p1 + lo * p2;
  }

  /** The service percentage, a floored weighted mean, is at most the largest percentage of the
      included flows; it is at least the smallest, lo, if and only if what the 64-bit product loses
      leaves room for it, and so whenever the product fits 64 bits. */
  lemma ServiceLossBetweenFlows(fs: seq<FlowMetrics>, start: int, lo: nat, hi: nat)
    requires forall m <- fs :: InWindow(m, start) ==> LossWithin(m, lo, hi)
    requires 0 < Packets(fs, start) < QWORD
    ensures var loss, product := ServiceKpiOf(fs, start).avgLossPercent, Lost(fs, start) * 100;
            && loss.Some? && loss.value <= hi && loss.value <= 100
            && (lo <= loss.value <==> lo * Packets(fs, start) + product / QWORD * QWORD <= product)
            && (product < QWORD ==> lo <= loss.value)
  {
    TotalsWithin(fs, start, lo, hi);
    Wrap64Fits(Packets(fs, start));
    WrappedMean(Lost(fs, start), Packets(fs, start), lo, hi);
  }

  lemma WrappedMean(losses: nat, packets: nat, lo: nat, hi: nat)
    requires 0 < packets && losses <= packets
    requires lo * packets <= losses * 100 < (hi + 1) * packets
    ensures var value, product := Wrap32(Wrap64(losses * 100) / packets), losses * 100;
            && 0 <= value <= hi && value <= 100
            && (lo <= value <==> lo * packets + product / QWORD * QWORD <= product)
            && (product < QWORD ==> lo <= value)
  {
    QuotientFits(losses, packets);
    PercentBounds(losses, packets, lo, hi);
    PercentAtMost(losses, packets);
    FlooredRest(losses * 100, packets, lo);
  }

  lemma FlooredRest(product: nat, packets: nat, lo: nat)
    requires packets > 0
    ensures 0 <= Wrap64(product) / packets <= product / packets
    ensures lo <= Wrap64(product) / packets <==> lo * packets + product / QWORD * QWORD <= product
  {
    Wrap64Leaves(product);
    FloorMonotone(Wrap64(product), product, packets);
    FloorAtLeast(Wrap64(product), packets, lo);
  }

  /** The report is the true floor of the true quotient if and only if what the 64-bit product
      loses fits in the remainder of the division. */
  lemma ServiceLossExactIff(fs: seq<FlowMetrics>, start: int)
    requires 0 <= Lost(fs, start) <= Packets(fs, start) && 0 < Packets(fs, start) < QWORD
    ensures var kpi, product := ServiceKpiOf(fs, start), Lost(fs, start) * 100;
            kpi.avgLossPercent == Some(TrueLossPercent(Lost(fs, start), Packets(fs, start))) <==>
              product % Packets(fs, start) >= product / QWORD * QWORD
  {
    Wrap64Fits(Packets(fs, start));
    WrappedService(Lost(fs, start), Packets(fs, start));
  }

  lemma WrappedService(losses: nat, packets: nat)
    requires packets > 0 && losses <= packets
    ensures var product := losses * 100;
            Wrap32(Wrap64(product) / packets) == TrueLossPercent(losses, packets) <==>
              product % packets >= product / QWORD * QWORD
  {
    var product := losses * 100;
    Wrap64Leaves(product);
    FloorIff(product, QWORD, product / QWORD, packets);
    QuotientFits(losses, packets);
  }

  lemma QuotientFits(losses: nat, packets: nat)
    requires packets > 0 && losses <= packets
    ensures Wrap32(Wrap64(losses * 100) / packets) == Wrap64(losses * 100) / packets
  {
    var product := losses * 100;
    var rest := Wrap64(product);
    Wrap64Leaves(product);
    FloorMonotone(rest, product, packets);
    PercentAtMost(losses, packets);
    var q := rest / packets;
    assert 0 <= q <= 100;
    Wrap32Fits(q);
  }

  lemma Wrap64Leaves(a: nat)
    ensures a / QWORD * QWORD <= a && Wrap64(a) == a - a / QWORD * QWORD
  {
  }

  lemma FloorMonotone(a: nat, b: nat, p: nat)
    requires p > 0 && a <= b
    ensures 0 <= a / p <= b / p
  {
    FloorAtLeast(a, p, 0);
    FloorAtLeast(a, p, a / p);
    FloorAtLeast(b, p, a / p);
  }

  // ---------------------------------------------------------------- service aggregates over a history

  /** The percentage of a flow with packets lies between lo and hi. */
  predicate PercentWithin(m: FlowMetrics, lo: nat, hi: nat) {
    m.packetCount > 0 && m.lossCount >= 0 ==> lo <= TrueLossPercent(m.lossCount, m.packetCount) <= hi
  }

  function AllPackets(fs: seq<FlowMetrics>): int {
    if fs == [] then 0 else AllPackets(fs[..|fs| - 1]) + fs[|fs| - 1].packetCount
  }

  lemma {:induction false} AllPacketsUpdate(fs: seq<FlowMetrics>, i: nat, m: FlowMetrics)
    requires i < |fs|
    ensures AllPackets(fs[i := m]) == AllPackets(fs) - fs[i].packetCount + m.packetCount
    decreases |fs|
  {
    var before := fs[..|fs| - 1];
    if i == |fs| - 1 {
      assert fs[i := m][..|fs| - 1] == before;
    } else {
      AllPacketsUpdate(before, i, m);
      assert fs[i := m][..|fs| - 1] == before[i := m];
    }
  }

  lemma {:induction false} FreshPackets(n: nat)
    ensures AllPackets(seq(n, i => FRESH)) == 0
  {
    if n == 0 {
    } else {
      FreshPackets(n - 1);
      assert seq(n, i => FRESH)[..n - 1] == seq(n - 1, i => FRESH);
    }
  }

  /** All packet counters together hold at most the number of samples. */
  lemma {:induction false} PacketsAtMostSamples(n: nat, ops: seq<Tagged>)
    ensures AllPackets(ReplayAll(n, ops)) <= |ops|
    ensures forall m <- ReplayAll(n, ops) :: m.packetCount >= 0
    decreases |ops|
  {
    if ops == [] {
      FreshPackets(n);
    } else {
      var before, op := ops[..|ops| - 1], ops[|ops| - 1];
      PacketsAtMostSamples(n, before);
      var fs := ReplayAll(n, before);
      if op.flowId < n {
        AllPacketsUpdate(fs, op.flowId, Recorded(fs[op.flowId], op.x));
        WrapAtMost(fs[op.flowId].packetCount + 1);
      }
    }
  }

  lemma WrapAtMost(a: nat)
    ensures 0 <= Wrap64(a) <= a && 0 <= Wrap32(a) <= a
  {
  }

  lemma {:induction false} WindowAtMostAll(fs: seq<FlowMetrics>, start: int)
    requires forall m <- fs :: m.packetCount >= 0
    ensures Packets(fs, start) <= AllPackets(fs)
    decreases |fs|
  {
    if fs == [] {
    } else {
      assert fs[|fs| - 1] in fs && forall m <- fs[..|fs| - 1] :: m in fs;
      WindowAtMostAll(fs[..|fs| - 1], start);
    }
  }

  lemma {:induction false} SamplesAtMost(ops: seq<Tagged>, f: nat)
    ensures |SamplesOf(ops, f)| <= |ops|
    decreases |ops|
  {
    if ops == [] {
    } else {
      SamplesAtMost(ops[..|ops| - 1], f);
    }
  }

  /** In every history shorter than 2^64, wrapped or not, no flow counts more losses than packets. */
  lemma LossesWithinPackets(n: nat, ops: seq<Tagged>)
    requires |ops| < QWORD
    ensures forall m <- ReplayAll(n, ops) :: 0 <= m.lossCount <= m.packetCount
  {
    forall f | 0 <= f < n
      ensures 0 <= ReplayAll(n, ops)[f].lossCount <= ReplayAll(n, ops)[f].packetCount
    {
      var xs := SamplesOf(ops, f);
      FlowsAreIndependent(n, ops, f);
      SamplesAtMost(ops, f);
      CellsAreCounts(xs);
      HistogramAddsUp(xs);
      Wrap64Fits(|xs|);
      WrapAtMost(Losses(xs));
    }
  }

  lemma HistoryTotals(n: nat, ops: seq<Tagged>, start: int)
    requires |ops| < QWORD
    ensures var fs := ReplayAll(n, ops); 0 <= Lost(fs, start) <= Packets(fs, start) < QWORD
  {
    var fs := ReplayAll(n, ops);
    LossesWithinPackets(n, ops);
    PacketsAtMostSamples(n, ops);
    WindowAtMostAll(fs, start);
    LostAtMostPackets(fs, start);
  }

  lemma {:induction false} LostAtMostPackets(fs: seq<FlowMetrics>, start: int)
    requires forall m <- fs :: 0 <= m.lossCount <= m.packetCount
    ensures 0 <= Lost(fs, start) <= Packets(fs, start)
    decreases |fs|
  {
    if fs == [] {
    } else {
      assert fs[|fs| - 1] in fs && forall m <- fs[..|fs| - 1] :: m in fs;
      LostAtMostPackets(fs[..|fs| - 1], start);
    }
  }

  /** After any history shorter than 2^64, wrapped cells or not: the service loss is at most the
      largest of the included flows, and at least the smallest if and only if the lost multiple of
      2^64 leaves room for it. */
  lemma ServiceLossOverHistory(n: nat, ops: seq<Tagged>, start: int, lo: nat, hi: nat)
    requires |ops| < QWORD
    requires forall m <- ReplayAll(n, ops) :: InWindow(m, start) ==> PercentWithin(m, lo, hi)
    requires Packets(ReplayAll(n, ops), start) > 0
    ensures var fs := ReplayAll(n, ops);
            var loss, product := ServiceKpiOf(fs, start).avgLossPercent, Lost(fs, start) * 100;
            && loss.Some? && loss.value <= hi && loss.value <= 100
            && (lo <= loss.value <==> lo * Packets(fs, start) + product / QWORD * QWORD <= product)
            && (product < QWORD ==> lo <= loss.value)
  {
    var fs := ReplayAll(n, ops);
    LossesWithinPackets(n, ops);
    HistoryTotals(n, ops, start);
    assert forall m <- fs :: InWindow(m, start) ==> LossWithin(m, lo, hi);
    ServiceLossBetweenFlows(fs, start, lo, hi);
  }

  /** And it is exact if and only if what the product loses fits in the remainder. */
  lemma ServiceLossExactOverHistory(n: nat, ops: seq<Tagged>, start: int)
    requires |ops| < QWORD && Packets(ReplayAll(n, ops), start) > 0
    ensures var fs := ReplayAll(n, ops);
            && 0 <= Lost(fs, start)
            && var product := Lost(fs, start) * 100;
            ServiceKpiOf(fs, start).avgLossPercent == Some(TrueLossPercent(Lost(fs, start), Packets(fs, start))) <==>
              product % Packets(fs, start) >= product / QWORD * QWORD
  {
    HistoryTotals(n, ops, start);
    ServiceLossExactIff(ReplayAll(n, ops), start);
  }

  /** A history in which each of m flows in turn receives k samples. */
  function Round(f: nat, k: nat, x: Sample): (ops: seq<Tagged>)
    ensures |ops| == k
  {
    if k == 0 then [] else Round(f, k - 1, x) + [Tagged(f, x)]
  }

  function Rounds(m: nat, k: nat, x: Sample): seq<Tagged> {
    if m == 0 then [] else Rounds(m - 1, k, x) + Round(m - 1, k, x)
  }

  lemma {:induction false} RoundsLength(m: nat, k: nat, x: Sample)
    ensures |Rounds(m, k, x)| == m * k
    decreases m
  {
    if m == 0 {
    } else {
      RoundsLength(m - 1, k, x);
      assert m * k == (m - 1) * k + k;
    }
  }

  lemma {:induction false} SamplesAppend(a: seq<Tagged>, b: seq<Tagged>, f: nat)
    ensures SamplesOf(a + b, f) == SamplesOf(a, f) + SamplesOf(b, f)
    decreases |b|
  {
    if b == [] {
      assert a + b == a;
    } else {
      SamplesAppend(a, b[..|b| - 1], f);
      assert (a + b)[..|a + b| - 1] == a + b[..|b| - 1];
    }
  }

  lemma {:induction false} RoundSamples(g: nat, k: nat, x: Sample, f: nat)
    ensures SamplesOf(Round(g, k, x), f) == if f == g then Repeat(k, x) else []
    decreases k
  {
    if k == 0 {
    } else {
      RoundSamples(g, k - 1, x, f);
      assert Round(g, k, x)[..k - 1] == Round(g, k - 1, x);
    }
  }

  lemma RoundsSplit(m: nat, k: nat, x: Sample, f: nat) returns (a: seq<Sample>, b: seq<Sample>)
    requires m > 0
    ensures a == SamplesOf(Rounds(m - 1, k, x), f) && b == if f == m - 1 then Repeat(k, x) else []
    ensures SamplesOf(Rounds(m, k, x), f) == a + b
  {
    a, b := SamplesOf(Rounds(m - 1, k, x), f), SamplesOf(Round(m - 1, k, x), f);
    SamplesAppend(Rounds(m - 1, k, x), Round(m - 1, k, x), f);
    RoundSamples(m - 1, k, x, f);
  }

  lemma {:induction false} RoundsSamples(m: nat, k: nat, x: Sample, f: nat)
    ensures SamplesOf(Rounds(m, k, x), f) == if f < m then Repeat(k, x) else []
    decreases m
  {
    if m == 0 {
    } else {
      RoundsSamples(m - 1, k, x, f);
      var a, b := RoundsSplit(m, k, x, f);
      assert a + b == if f == m - 1 then b else a;
    }
  }

  /** Every flow then holds k packets, all lost. */
  lemma RoundsTable(n: nat, k: nat, x: Sample, f: nat)
    requires x.lost && 0 < k < WORD && f < n
    ensures var m := ReplayAll(n, Rounds(n, k, x))[f];
            m.packetCount == k && m.lossCount == k && m.lastUpdateNs == x.nowNs
  {
    FlowsAreIndependent(n, Rounds(n, k, x), f);
    RoundsSamples(n, k, x, f);
    CellsAreCounts(Repeat(k, x));
    AllLost(k, x);
    Wrap32Fits(k);
    Wrap64Fits(k);
  }

  lemma {:induction false} EqualSums(fs: seq<FlowMetrics>, k: nat, start: int)
    requires forall m <- fs :: InWindow(m, start) && m.packetCount == k && m.lossCount == k
    ensures Packets(fs, start) == |fs| * k && Lost(fs, start) == |fs| * k
    decreases |fs|
  {
    if fs == [] {
    } else {
      assert fs[|fs| - 1] in fs && forall m <- fs[..|fs| - 1] :: m in fs;
      EqualSums(fs[..|fs| - 1], k, start);
      assert |fs| * k == (|fs| - 1) * k + k;
    }
  }

  /** Where the product wraps the report can be wrong by everything: 42,949,673 flows that each lost
      2^32 - 1 packets of as many are reported, together, to have lost 0 percent. */
  lemma ServiceLossFails(x: Sample, start: int)
    requires x.lost && start <= x.nowNs
    ensures var ops := Rounds(42_949_673, WORD - 1, x);
            var fs := ReplayAll(42_949_673, ops);
            && |ops| < QWORD && Lost(fs, start) == Packets(fs, start) == |ops|
            && (forall m <- fs :: InWindow(m, start) && m.lossCount == m.packetCount > 0)
            && ServiceKpiOf(fs, start).avgLossPercent == Some(0)
  {
    var n, k := 42_949_673, WORD - 1;
    var fs := ReplayAll(n, Rounds(n, k, x));
    forall f | 0 <= f < n
      ensures InWindow(fs[f], start) && fs[f].packetCount == k && fs[f].lossCount == k
    {
      RoundsTable(n, k, x, f);
    }
    EqualSums(fs, k, start);
    RoundsLength(n, k, x);
  }

  // ---------------------------------------------------------------- service sums as sums over samples

  /** The cells of the marked flows, added up. */
  function SumMarked(cells: seq<int>, marks: seq<bool>): int
    requires |cells| == |marks|
  {
    if cells == [] then 0
    else SumMarked(cells[..|cells| - 1], marks[..|marks| - 1]) + (if marks[|marks| - 1] then cells[|cells| - 1] else 0)
  }

  lemma {:induction false} MarkedUpdate(cells: seq<int>, marks: seq<bool>, i: nat, v: int)
    requires |cells| == |marks| && i < |cells|
    ensures SumMarked(cells[i := v], marks) == SumMarked(cells, marks) + if marks[i] then v - cells[i] else 0
    decreases |cells|
  {
    var before := cells[..|cells| - 1];
    if i == |cells| - 1 {
      assert cells[i := v][..|cells| - 1] == before;
    } else {
      MarkedUpdate(before, marks[..|marks| - 1], i, v);
      assert cells[i := v][..|cells| - 1] == before[i := v];
    }
  }

  lemma {:induction false} MarkedZero(marks: seq<bool>, cells: seq<int>)
    requires |cells| == |marks| && forall i | 0 <= i < |cells| :: cells[i] == 0
    ensures SumMarked(cells, marks) == 0
    decreases |cells|
  {
    if cells == [] {
    } else {
      MarkedZero(marks[..|marks| - 1], cells[..|cells| - 1]);
    }
  }

  function PacketCells(fs: seq<FlowMetrics>): seq<int> {
    seq(|fs|, i requires 0 <= i < |fs| => fs[i].packetCount)
  }

  function ByteCells(fs: seq<FlowMetrics>): seq<int> {
    seq(|fs|, i requires 0 <= i < |fs| => fs[i].byteCount)
  }

  function InWindowMarks(fs: seq<FlowMetrics>, start: int): seq<bool> {
    seq(|fs|, i requires 0 <= i < |fs| => fs[i].lastUpdateNs >= start)
  }

  lemma {:induction false} ServiceSumsMarked(fs: seq<FlowMetrics>, start: int)
    ensures Packets(fs, start) == SumMarked(PacketCells(fs), InWindowMarks(fs, start))
    ensures BytesIn(fs, start) == SumMarked(ByteCells(fs), InWindowMarks(fs, start))
    decreases |fs|
  {
    if fs == [] {
    } else {
      var before := fs[..|fs| - 1];
      ServiceSumsMarked(before, start);
      assert PacketCells(fs)[..|fs| - 1] == PacketCells(before) && ByteCells(fs)[..|fs| - 1] == ByteCells(before);
      assert InWindowMarks(fs, start)[..|fs| - 1] == InWindowMarks(before, start);
    }
  }

  /** The samples of a history that belong to marked flows: how many, and their bytes. */
  function SamplesMarked(ops: seq<Tagged>, marks: seq<bool>): nat {
    if ops == [] then 0
    else
      var op := ops[|ops| - 1];
      SamplesMarked(ops[..|ops| - 1], marks) + (if op.flowId < |marks| && marks[op.flowId] then 1 else 0)
  }

  function BytesMarked(ops: seq<Tagged>, marks: seq<bool>): nat {
    if ops == [] then 0
    else
      var op := ops[|ops| - 1];
      BytesMarked(ops[..|ops| - 1], marks) + (if op.flowId < |marks| && marks[op.flowId] then op.x.packetSize else 0)
  }

  lemma {:induction false} CellsAreSamples(n: nat, ops: seq<Tagged>, marks: seq<bool>)
    requires |marks| == n
    ensures var fs := ReplayAll(n, ops);
            && Wrap64(SumMarked(PacketCells(fs), marks)) == Wrap64(SamplesMarked(ops, marks))
            && Wrap64(SumMarked(ByteCells(fs), marks)) == Wrap64(BytesMarked(ops, marks))
    decreases |ops|
  {
    var fs := ReplayAll(n, ops);
    if ops == [] {
      MarkedZero(marks, PacketCells(fs));
      MarkedZero(marks, ByteCells(fs));
    } else {
      var before, op := ops[..|ops| - 1], ops[|ops| - 1];
      CellsAreSamples(n, before, marks);
      if op.flowId < n {
        OneSampleMarked(ReplayAll(n, before), op, marks, SamplesMarked(before, marks), BytesMarked(before, marks));
      }
    }
  }

  lemma OneSampleMarked(fs: seq<FlowMetrics>, op: Tagged, marks: seq<bool>, samples: nat, bytes: nat)
    requires (forall m <- fs :: |m.buckets| == BUCKETS) && |marks| == |fs| && op.flowId < |fs|
    requires Wrap64(SumMarked(PacketCells(fs), marks)) == Wrap64(samples)
    requires Wrap64(SumMarked(ByteCells(fs), marks)) == Wrap64(bytes)
    ensures var fs', one := RecordedAt(fs, op), marks[op.flowId];
            && Wrap64(SumMarked(PacketCells(fs'), marks)) == Wrap64(samples + if one then 1 else 0)
            && Wrap64(SumMarked(ByteCells(fs'), marks)) == Wrap64(bytes + if one then op.x.packetSize else 0)
  {
    var i, fs' := op.flowId, RecordedAt(fs, op);
    var m := fs[i];
    assert PacketCells(fs') == PacketCells(fs)[i := Wrap64(m.packetCount + 1)];
    assert ByteCells(fs') == ByteCells(fs)[i := Wrap64(m.byteCount + op.x.packetSize)];
    CellStep(PacketCells(fs), marks, i, 1, samples);
    CellStep(ByteCells(fs), marks, i, op.x.packetSize, bytes);
  }

  lemma CellStep(cells: seq<int>, marks: seq<bool>, i: nat, d: int, count: int)
    requires |cells| == |marks| && i < |cells| && Wrap64(SumMarked(cells, marks)) == Wrap64(count)
    ensures Wrap64(SumMarked(cells[i := Wrap64(cells[i] + d)], marks)) == Wrap64(count + if marks[i] then d else 0)
  {
    MarkedUpdate(cells, marks, i, Wrap64(cells[i] + d));
    WrappedCell(SumMarked(cells, marks), cells[i], d, count);
  }

  lemma WrappedCell(sum: int, cell: int, d: int, count: int)
    requires Wrap64(sum) == Wrap64(count)
    ensures Wrap64(sum + Wrap64(cell + d) - cell) == Wrap64(count + d)
  {
    Wrap64Add(cell + d, sum - cell);
    Wrap64Add(sum, d);
    Wrap64Add(count, d);
  }

  function LossCells(fs: seq<FlowMetrics>): seq<int> {
    seq(|fs|, i requires 0 <= i < |fs| => fs[i].lossCount)
  }

  function LostMarked(ops: seq<Tagged>, marks: seq<bool>): nat {
    if ops == [] then 0
    else
      var op := ops[|ops| - 1];
      LostMarked(ops[..|ops| - 1], marks) + (if op.flowId < |marks| && marks[op.flowId] && op.x.lost then 1 else 0)
  }

  lemma {:induction false} LostSumMarked(fs: seq<FlowMetrics>, start: int)
    ensures Lost(fs, start) == SumMarked(LossCells(fs), InWindowMarks(fs, start))
    decreases |fs|
  {
    if fs == [] {
    } else {
      var before := fs[..|fs| - 1];
      LostSumMarked(before, start);
      assert LossCells(fs)[..|fs| - 1] == LossCells(before);
      assert InWindowMarks(fs, start)[..|fs| - 1] == InWindowMarks(before, start);
    }
  }

  /** In a history shorter than 2^32 no loss count wraps. */
  lemma {:induction false} LossCellsAreSamples(n: nat, ops: seq<Tagged>, marks: seq<bool>)
    requires |marks| == n && |ops| < WORD
    ensures SumMarked(LossCells(ReplayAll(n, ops)), marks) == LostMarked(ops, marks)
    decreases |ops|
  {
    if ops == [] {
      MarkedZero(marks, LossCells(ReplayAll(n, ops)));
    } else {
      var before, op := ops[..|ops| - 1], ops[|ops| - 1];
      LossCellsAreSamples(n, before, marks);
      if op.flowId < n {
        var c := LossesSoFar(n, before, op.flowId);
        OneLossMarked(ReplayAll(n, before), op, marks);
      }
    }
  }

  lemma LossesSoFar(n: nat, ops: seq<Tagged>, f: nat) returns (c: nat)
    requires f < n && |ops| < WORD
    ensures c == ReplayAll(n, ops)[f].lossCount <= |ops|
  {
    var xs := SamplesOf(ops, f);
    FlowsAreIndependent(n, ops, f);
    SamplesAtMost(ops, f);
    CellsAreCounts(xs);
    HistogramAddsUp(xs);
    Wrap32Fits(Losses(xs));
    c := Losses(xs);
  }

  lemma OneLossMarked(fs: seq<FlowMetrics>, op: Tagged, marks: seq<bool>)
    requires (forall m <- fs :: |m.buckets| == BUCKETS) && |marks| == |fs| && op.flowId < |fs|
    requires 0 <= fs[op.flowId].lossCount < WORD - 1
    ensures SumMarked(LossCells(RecordedAt(fs, op)), marks)
            == SumMarked(LossCells(fs), marks) + if marks[op.flowId] && op.x.lost then 1 else 0
  {
    var i, c := op.flowId, fs[op.flowId].lossCount;
    var c' := if op.x.lost then c + 1 else c;
    Wrap32Fits(c + 1);
    assert LossCells(RecordedAt(fs, op)) == LossCells(fs)[i := c'];
    MarkedUpdate(LossCells(fs), marks, i, c');
  }

  lemma {:induction false} MarkedBounds(ops: seq<Tagged>, marks: seq<bool>)
    ensures LostMarked(ops, marks) <= SamplesMarked(ops, marks) <= |ops|
    decreases |ops|
  {
    if ops == [] {
    } else {
      MarkedBounds(ops[..|ops| - 1], marks);
    }
  }

  /** The flows whose last update is no earlier than the start of the window. */
  function Recent(fs: seq<FlowMetrics>, start: int): set<nat> {
    set f: nat | f < |fs| && fs[f].lastUpdateNs >= start
  }

  lemma {:induction false} FlowsAreRecent(fs: seq<FlowMetrics>, start: int)
    ensures FlowsIn(fs, start) == |Recent(fs, start)|
    decreases |fs|
  {
    if fs == [] {
      assert Recent(fs, start) == {};
    } else {
      var before, last := fs[..|fs| - 1], |fs| - 1;
      FlowsAreRecent(before, start);
      assert Recent(fs, start) == Recent(before, start) + if fs[last].lastUpdateNs >= start then {last} else {};
    }
  }

  /** A service report after a history: the number of flows updated in the window, and all the samples
      and bytes ever recorded for those flows, modulo 2^64. */
  lemma ServiceReportOverHistory(n: nat, ops: seq<Tagged>, start: int)
    ensures var fs := ReplayAll(n, ops);
            var kpi, marks := ServiceKpiOf(fs, start), InWindowMarks(fs, start);
            && kpi.totalFlows == Wrap64(|Recent(fs, start)|)
            && kpi.totalPackets == Wrap64(SamplesMarked(ops, marks)) && kpi.totalBytes == Wrap64(BytesMarked(ops, marks))
  {
    var fs := ReplayAll(n, ops);
    FlowsAreRecent(fs, start);
    ServiceSumsMarked(fs, start);
    CellsAreSamples(n, ops, InWindowMarks(fs, start));
  }

  /** And after a history shorter than 2^32 the true percentage of those samples that were lost. */
  lemma ServiceLossIsSamplesLost(n: nat, ops: seq<Tagged>, start: int)
    requires |ops| < WORD
    ensures var fs := ReplayAll(n, ops);
            var marks := InWindowMarks(fs, start);
            var packets := SamplesMarked(ops, marks);
            ServiceKpiOf(fs, start).avgLossPercent
            == if packets == 0 then None else Some(TrueLossPercent(LostMarked(ops, marks), packets))
  {
    var fs := ReplayAll(n, ops);
    var marks := InWindowMarks(fs, start);
    ServiceReportOverHistory(n, ops, start);
    LostSumMarked(fs, start);
    LossCellsAreSamples(n, ops, marks);
    MarkedBounds(ops, marks);
    Wrap64Fits(SamplesMarked(ops, marks));
    Wrap64Fits(LostMarked(ops, marks) * 100);
    if SamplesMarked(ops, marks) > 0 {
      PercentAtMost(LostMarked(ops, marks), SamplesMarked(ops, marks));
      SmallPercent(LostMarked(ops, marks), SamplesMarked(ops, marks));
    }
  }

  lemma SmallPercent(losses: nat, packets: nat)
    requires packets > 0 && losses <= packets
    ensures Wrap32(TrueLossPercent(losses, packets)) == TrueLossPercent(losses, packets)
  {
    PercentAtMost(losses, packets);
    FloorAtLeast(losses * 100, packets, 0);
    Wrap32Fits(TrueLossPercent(losses, packets));
  }

  // ---------------------------------------------------------------- expiry

  /** A flow is idle for longer than allowed; the clock difference is unsigned. */
  predicate Expired(m: FlowMetrics, maxIdleNs: int, now: int) {
    Wrap64(now - m.lastUpdateNs) > maxIdleNs
  }

  function Flushed(m: FlowMetrics, maxIdleNs: int, now: int): FlowMetrics {
    if Expired(m, maxIdleNs, now) then m.(active := false) else m
  }

  function FlushedAll(fs: seq<FlowMetrics>, maxIdleNs: int, now: int): seq<FlowMetrics> {
    seq(|fs|, i requires 0 <= i < |fs| => Flushed(fs[i], maxIdleNs, now))
  }

  function CountExpired(fs: seq<FlowMetrics>, maxIdleNs: int, now: int): nat {
    if fs == [] then 0
    else CountExpired(fs[..|fs| - 1], maxIdleNs, now) + (if Expired(fs[|fs| - 1], maxIdleNs, now) then 1 else 0)
  }

  /** With a clock that has not gone back a flow expires if it has been idle for longer than allowed;
      when the clock reads earlier than the last update, the difference wraps. */
  lemma ExpiredMeaning(m: FlowMetrics, maxIdleNs: nat, now: nat)
    requires 0 <= m.lastUpdateNs < QWORD && now < QWORD && maxIdleNs < QWORD
    ensures m.lastUpdateNs <= now ==> (Expired(m, maxIdleNs, now) <==> now - m.lastUpdateNs > maxIdleNs)
    ensures now < m.lastUpdateNs ==> (Expired(m, maxIdleNs, now) <==> QWORD - (m.lastUpdateNs - now) > maxIdleNs)
  {
    if m.lastUpdateNs <= now {
      Wrap64Fits(now - m.lastUpdateNs);
    } else {
      Wrap64Add(QWORD, now - m.lastUpdateNs);
      Wrap64Fits(QWORD + (now - m.lastUpdateNs));
    }
  }

  function ExpiredFlows(fs: seq<FlowMetrics>, maxIdleNs: int, now: int): set<nat> {
    set f: nat | f < |fs| && Expired(fs[f], maxIdleNs, now)
  }

  /** The number reported is the number of expired flows, active before or not. */
  lemma {:induction false} CountIsExpired(fs: seq<FlowMetrics>, maxIdleNs: int, now: int)
    ensures CountExpired(fs, maxIdleNs, now) == |ExpiredFlows(fs, maxIdleNs, now)|
    decreases |fs|
  {
    var all := ExpiredFlows(fs, maxIdleNs, now);
    if fs == [] {
      assert all == {};
    } else {
      var before, last := fs[..|fs| - 1], |fs| - 1;
      CountIsExpired(before, maxIdleNs, now);
      assert all == ExpiredFlows(before, maxIdleNs, now) + if Expired(fs[last], maxIdleNs, now) then {last} else {};
    }
  }

  /** Expiry makes the expired flows inactive, no flow active, and keeps every cell. */
  lemma FlushKeepsCells(fs: seq<FlowMetrics>, maxIdleNs: int, now: int, f: nat)
    requires f < |fs|
    ensures |FlushedAll(fs, maxIdleNs, now)| == |fs|
    ensures var m := FlushedAll(fs, maxIdleNs, now)[f];
            && m == fs[f].(active := m.active)
            && (m.active <==> fs[f].active && f !in ExpiredFlows(fs, maxIdleNs, now))
  {
  }
}
