// The two-core forwarder of examples/minimal_dpdk.cpp as a step system: the RX core and the TX core
// interleave freely with each other, with the NIC and with the signal handler.
//
// The ring between the cores is the bounded FIFO that MpmcRing shows every run of the concurrent
// ring to be. A burst call may accept or return fewer entries than the queue would allow, since a
// core may have read the other side's index a moment ago.

module Pipeline {
  import opened BoundedFifo
  import opened Modular

  const BURST_SIZE: nat := 64
  const RING_SIZE: nat := 2048

  datatype Packet = Packet(dst: nat, src: nat, body: nat)

  function SwapMacs(p: Packet): Packet {
    Packet(p.src, p.dst, p.body)
  }

  /** lcore_rx: the loop head, the poll, and the points between its statements. */
  datatype RxPc = RxHead | RxPoll | RxGot | RxCounted | RxFreeing(i: nat) | RxDone

  /** lcore_tx. `TxFreeing(nbTx, i)`: nbTx buffers were taken by the NIC, those before i are settled. */
  datatype TxPc = TxHead | TxPoll | TxSwapping(i: nat) | TxFreeing(nbTx: nat, i: nat) | TxDone

  /** `rxBufs` and `txBufs` are the cores' local arrays up to the burst length; they keep stale
      pointers after a buffer has been handed over. The last group is history: the packets received
      and sent in order, the number of the packet in each buffer in flight, and the drops. */
  datatype State = State(
    mbufs: set<Mbuf>, quit: bool,
    pool: set<Mbuf>, nicRx: seq<Mbuf>, ring: seq<Mbuf>, nicTx: seq<Mbuf>,
    data: map<Mbuf, Packet>,
    rxPc: RxPc, rxBufs: seq<Mbuf>, txPc: TxPc, txBufs: seq<Mbuf>,
    rxPackets: int, txPackets: int,
    received: seq<Packet>, sent: seq<Packet>, sentNumbers: seq<nat>, numbers: seq<nat>,
    rxDrops: nat, txDrops: nat)

  datatype Event =
    | Arrive(m: Mbuf, p: Packet)
    | TxComplete
    | Signal
    | RxCheck
    | RxBurst(n: nat)
    | RxCount
    | RxEnqueue(n: nat)
    | RxFree
    | RxNext
    | TxCheck
    | TxDequeue(n: nat)
    | TxSwap
    | TxBurst(n: nat)
    | TxFree
    | TxCount

  predicate Init(s: State) {
    && s.pool == s.mbufs && s.nicRx == [] && s.ring == [] && s.nicTx == []
    && s.data.Keys == s.mbufs
    && s.rxPc == RxHead && s.txPc == TxHead && !s.quit
    && s.rxPackets == 0 && s.txPackets == 0
    && s.rxBufs == [] && s.txBufs == []
    && s.received == [] && s.sent == [] && s.sentNumbers == [] && s.numbers == []
    && s.rxDrops == 0 && s.txDrops == 0
  }

  predicate Enabled(s: State, e: Event) {
    match e
    case Arrive(m, _) => m in s.pool
    case TxComplete => s.nicTx != []
    case Signal => true
    case RxCheck => s.rxPc.RxHead?
    case RxBurst(n) => s.rxPc.RxPoll? && n <= BURST_SIZE && n <= |s.nicRx|
    case RxCount => s.rxPc.RxGot?
    case RxEnqueue(n) => s.rxPc.RxCounted? && n <= |s.rxBufs| && |s.ring| + n <= RING_SIZE - 1
    case RxFree => s.rxPc.RxFreeing? && s.rxPc.i < |s.rxBufs|
    case RxNext => s.rxPc.RxFreeing? && s.rxPc.i == |s.rxBufs|
    case TxCheck => s.txPc.TxHead?
    case TxDequeue(n) => s.txPc.TxPoll? && n <= BURST_SIZE && n <= |s.ring|
    case TxSwap => s.txPc.TxSwapping? && s.txPc.i < |s.txBufs|
    case TxBurst(n) => s.txPc.TxSwapping? && s.txPc.i == |s.txBufs| && n <= |s.txBufs|
    case TxFree => s.txPc.TxFreeing? && s.txPc.i < |s.txBufs|
    case TxCount => s.txPc.TxFreeing? && s.txPc.i == |s.txBufs|
  }

  /** The packet in a buffer; buffers of the pool always have one. */
  function PacketIn(s: State, m: Mbuf): Packet {
    if m in s.data then s.data[m] else Packet(0, 0, 0)
  }

  function PacketsIn(s: State, bufs: seq<Mbuf>): seq<Packet> {
    seq(|bufs|, i requires 0 <= i < |bufs| => PacketIn(s, bufs[i]))
  }

  function Count(from: nat, n: nat): seq<nat> {
    seq(n, i => from + i)
  }

  function RxOwned(s: State): seq<Mbuf> {
    match s.rxPc
    case RxGot => s.rxBufs
    case RxCounted => s.rxBufs
    case RxFreeing(i) => if i <= |s.rxBufs| then s.rxBufs[i..] else []
    case _ => []
  }

  function TxOwned(s: State): seq<Mbuf> {
    match s.txPc
    case TxSwapping(_) => s.txBufs
    case TxFreeing(_, i) => if i <= |s.txBufs| then s.txBufs[i..] else []
    case _ => []
  }

  /** The buffers between the two NIC queues, oldest packet first. */
  function Flight(s: State): seq<Mbuf> {
    TxOwned(s) + s.ring + RxOwned(s)
  }

  function Without<T>(xs: seq<T>, i: nat): seq<T>
    requires i < |xs|
  {
    xs[..i] + xs[i + 1..]
  }

  /** History only: the numbers with the one at a place, or the first n, taken out. */
  function Forget(numbers: seq<nat>, at: nat): seq<nat> {
    if at < |numbers| then Without(numbers, at) else numbers
  }

  function First(numbers: seq<nat>, n: nat): seq<nat> {
    if n <= |numbers| then numbers[..n] else numbers
  }

  function Rest(numbers: seq<nat>, n: nat): seq<nat> {
    if n <= |numbers| then numbers[n..] else []
  }

  function Apply(s: State, e: Event): State
    requires Enabled(s, e)
  {
    match e
    case Arrive(m, p) => s.(pool := s.pool - {m}, nicRx := s.nicRx + [m], data := s.data[m := p])
    case TxComplete => s.(pool := s.pool + {s.nicTx[0]}, nicTx := s.nicTx[1..])
    case Signal => s.(quit := true)
    case RxCheck => s.(rxPc := if s.quit then RxDone else RxPoll)
    case RxBurst(n) =>
      if n == 0 then
        s.(rxPc := RxHead)
      else
        s.(rxPc := RxGot, rxBufs := s.nicRx[..n], nicRx := s.nicRx[n..],
           received := s.received + PacketsIn(s, s.nicRx[..n]), numbers := s.numbers + Count(|s.received|, n))
    case RxCount => s.(rxPc := RxCounted, rxPackets := Wrap64(s.rxPackets + |s.rxBufs|))
    case RxEnqueue(n) => s.(rxPc := RxFreeing(n), ring := s.ring + s.rxBufs[..n])
    case RxFree =>
      s.(rxPc := RxFreeing(s.rxPc.i + 1), pool := s.pool + {s.rxBufs[s.rxPc.i]},
         numbers := Forget(s.numbers, |TxOwned(s)| + |s.ring|), rxDrops := s.rxDrops + 1)
    case RxNext => s.(rxPc := RxHead)
    case TxCheck => s.(txPc := if s.quit then TxDone else TxPoll)
    case TxDequeue(n) =>
      if n == 0 then
        s.(txPc := TxHead)
      else
        s.(txPc := TxSwapping(0), txBufs := s.ring[..n], ring := s.ring[n..])
    case TxSwap =>
      var m := s.txBufs[s.txPc.i];
      s.(txPc := TxSwapping(s.txPc.i + 1), data := s.data[m := SwapMacs(PacketIn(s, m))])
    case TxBurst(n) =>
      s.(txPc := TxFreeing(n, n), nicTx := s.nicTx + s.txBufs[..n], sent := s.sent + PacketsIn(s, s.txBufs[..n]),
         sentNumbers := s.sentNumbers + First(s.numbers, n), numbers := Rest(s.numbers, n))
    case TxFree =>
      s.(txPc := TxFreeing(s.txPc.nbTx, s.txPc.i + 1), pool := s.pool + {s.txBufs[s.txPc.i]},
         numbers := Rest(s.numbers, 1), txDrops := s.txDrops + 1)
    case TxCount =>
      s.(txPc := TxHead,
         txPackets := Wrap64(s.txPackets + if s.txPc.nbTx < |s.txBufs| then s.txPc.nbTx else |s.txBufs|))
  }

  // ---------------------------------------------------------------- one place per buffer

  ghost predicate Bounds(s: State) {
    && |s.rxBufs| <= BURST_SIZE && |s.txBufs| <= BURST_SIZE && |s.ring| <= RING_SIZE - 1
    && (s.rxPc.RxFreeing? ==> s.rxPc.i <= |s.rxBufs|)
    && (s.txPc.TxSwapping? ==> s.txPc.i <= |s.txBufs|)
    && (s.txPc.TxFreeing? ==> s.txPc.nbTx <= s.txPc.i <= |s.txBufs|)
  }

  ghost predicate PcOk(s: State) {
    Bounds(s) && |s.numbers| == |Flight(s)|
  }

  /** All buffers, counted over the six places: pool, NIC RX, RX burst, ring, TX burst, NIC TX. */
  ghost function Everywhere(s: State): multiset<Mbuf> {
    multiset(s.pool) + multiset(s.nicRx) + multiset(Flight(s)) + multiset(s.nicTx)
  }

  ghost predicate Conserved(s: State) {
    Everywhere(s) == multiset(s.mbufs)
  }

  /** Steps that hand no buffer in or out of the flight. */
  predicate Quiet(s: State, e: Event) {
    !(e.RxBurst? && e.n > 0) && !e.RxFree? && !e.TxBurst? && !e.TxFree?
  }

  lemma RxEnqueueFlight(s: State, n: nat)
    requires PcOk(s) && Enabled(s, RxEnqueue(n))
    ensures Flight(Apply(s, RxEnqueue(n))) == Flight(s)
  {
    Shift(TxOwned(s) + s.ring, s.rxBufs, n);
    assert TxOwned(s) + (s.ring + s.rxBufs[..n]) == (TxOwned(s) + s.ring) + s.rxBufs[..n];
  }

  lemma Shift<T>(a: seq<T>, b: seq<T>, n: nat)
    requires n <= |b|
    ensures a + b == (a + b[..n]) + b[n..]
  {
    assert b == b[..n] + b[n..];
  }

  lemma RxQuietFlight(s: State, e: Event)
    requires PcOk(s) && Enabled(s, e) && (e.RxCheck? || e.RxCount? || e.RxNext? || e == RxBurst(0))
    ensures Flight(Apply(s, e)) == Flight(s)
  {
    assert Apply(s, e).ring == s.ring;
    assert TxOwned(Apply(s, e)) == TxOwned(s);
    assert RxOwned(Apply(s, e)) == RxOwned(s);
  }

  lemma TxDequeueFlight(s: State, n: nat)
    requires PcOk(s) && Enabled(s, TxDequeue(n))
    ensures Flight(Apply(s, TxDequeue(n))) == Flight(s)
  {
    DequeuedParts(s, Apply(s, TxDequeue(n)), n);
    SameFlight(s, Apply(s, TxDequeue(n)));
  }

  lemma DequeuedParts(s: State, s': State, n: nat)
    requires Enabled(s, TxDequeue(n)) && s' == Apply(s, TxDequeue(n))
    ensures TxOwned(s') + s'.ring == TxOwned(s) + s.ring && RxOwned(s') == RxOwned(s)
  {
    assert s.ring == s.ring[..n] + s.ring[n..];
  }

  lemma SameFlight(s: State, s': State)
    requires TxOwned(s') + s'.ring == TxOwned(s) + s.ring && RxOwned(s') == RxOwned(s)
    ensures Flight(s') == Flight(s)
  {
  }

  lemma TxQuietFlight(s: State, e: Event)
    requires PcOk(s) && Enabled(s, e) && (e.TxCheck? || e.TxSwap? || e.TxCount?)
    ensures Flight(Apply(s, e)) == Flight(s)
  {
    assert Apply(s, e).ring == s.ring;
    assert TxOwned(Apply(s, e)) == TxOwned(s);
    assert RxOwned(Apply(s, e)) == RxOwned(s);
  }

  lemma QuietFlight(s: State, e: Event)
    requires PcOk(s) && Enabled(s, e) && Quiet(s, e)
    ensures Flight(Apply(s, e)) == Flight(s)
  {
    match e
    case Arrive(_, _) =>
    case TxComplete =>
    case Signal =>
    case RxEnqueue(n) => RxEnqueueFlight(s, n);
    case TxDequeue(n) => TxDequeueFlight(s, n);
    case RxBurst(n) => RxQuietFlight(s, e);
    case RxCheck => RxQuietFlight(s, e);
    case RxCount => RxQuietFlight(s, e);
    case RxNext => RxQuietFlight(s, e);
    case TxCheck => TxQuietFlight(s, e);
    case TxSwap => TxQuietFlight(s, e);
    case TxCount => TxQuietFlight(s, e);
  }

  lemma RxBurstFlight(s: State, n: nat)
    requires PcOk(s) && Enabled(s, RxBurst(n)) && n > 0
    ensures Flight(Apply(s, RxBurst(n))) == Flight(s) + s.nicRx[..n]
  {
  }

  lemma RxFreeFlight(s: State)
    requires PcOk(s) && Enabled(s, RxFree)
    ensures var f, at := Flight(s), |TxOwned(s)| + |s.ring|;
            at < |f| && f[at] == s.rxBufs[s.rxPc.i] && Flight(Apply(s, RxFree)) == Without(f, at)
  {
    RxFreeParts(s, Apply(s, RxFree));
    RxDrops(s, Apply(s, RxFree));
  }

  lemma RxFreeParts(s: State, s': State)
    requires Bounds(s) && Enabled(s, RxFree)
    requires s'.rxPc == RxFreeing(s.rxPc.i + 1) && s'.rxBufs == s.rxBufs
    ensures RxOwned(s) != [] && RxOwned(s)[0] == s.rxBufs[s.rxPc.i] && RxOwned(s') == RxOwned(s)[1..]
  {
  }

  lemma RxDrops(s: State, s': State)
    requires s'.ring == s.ring && s'.txPc == s.txPc && s'.txBufs == s.txBufs
    requires RxOwned(s) != [] && RxOwned(s') == RxOwned(s)[1..]
    ensures var f, at := Flight(s), |TxOwned(s)| + |s.ring|;
            at < |f| && f[at] == RxOwned(s)[0] && Flight(s') == Without(f, at)
  {
    DropAfter(TxOwned(s) + s.ring, RxOwned(s));
  }

  lemma DropAfter<T>(a: seq<T>, c: seq<T>)
    requires c != []
    ensures (a + c)[|a|] == c[0] && Without(a + c, |a|) == a + c[1..]
  {
  }

  lemma DropFront<T>(a: seq<T>, b: seq<T>, c: seq<T>)
    requires a != []
    ensures (a + b + c)[0] == a[0] && (a + b + c)[1..] == a[1..] + b + c
  {
  }

  lemma TxBurstFlight(s: State, n: nat)
    requires PcOk(s) && Enabled(s, TxBurst(n))
    ensures var f := Flight(s);
            n <= |f| && f[..n] == s.txBufs[..n] && Flight(Apply(s, TxBurst(n))) == f[n..]
  {
  }

  lemma TxFreeFlight(s: State)
    requires PcOk(s) && Enabled(s, TxFree)
    ensures var f := Flight(s);
            f != [] && f[0] == s.txBufs[s.txPc.i] && Flight(Apply(s, TxFree)) == f[1..]
  {
    DropFront(TxOwned(s), s.ring, RxOwned(s));
    assert TxOwned(Apply(s, TxFree)) == TxOwned(s)[1..];
  }

  lemma BoundsKept(s: State, e: Event)
    requires Bounds(s) && Enabled(s, e)
    ensures Bounds(Apply(s, e))
  {
    var s' := Apply(s, e);
    match e
    case RxBurst(n) => assert |s'.rxBufs| <= BURST_SIZE;
    case RxEnqueue(n) => assert |s'.ring| <= RING_SIZE - 1;
    case TxDequeue(n) => assert |s'.txBufs| <= BURST_SIZE;
    case _ =>
  }

  lemma PcOkKept(s: State, e: Event)
    requires PcOk(s) && Enabled(s, e)
    ensures PcOk(Apply(s, e))
  {
    BoundsKept(s, e);
    match e
    case RxBurst(n) => if n > 0 { RxBurstFlight(s, n); } else { QuietFlight(s, e); }
    case RxFree => RxFreeFlight(s);
    case TxBurst(n) => TxBurstFlight(s, n);
    case TxFree => TxFreeFlight(s);
    case _ => QuietFlight(s, e);
  }

  lemma SplitMultiset<T>(xs: seq<T>, n: nat)
    requires n <= |xs|
    ensures multiset(xs[..n]) + multiset(xs[n..]) == multiset(xs)
  {
    assert xs == xs[..n] + xs[n..];
  }

  lemma WithoutMultiset<T>(xs: seq<T>, i: nat)
    requires i < |xs|
    ensures multiset(Without(xs, i)) + multiset{xs[i]} == multiset(xs)
  {
    assert xs == xs[..i] + [xs[i]] + xs[i + 1..];
  }

  /** Each buffer is counted exactly once over the six places. */
  lemma CountedOnce(s: State, m: Mbuf)
    requires Conserved(s)
    ensures multiset(s.pool)[m] + multiset(s.nicRx)[m] + multiset(Flight(s))[m] + multiset(s.nicTx)[m]
            == if m in s.mbufs then 1 else 0
  {
    assert Everywhere(s)[m] == multiset(s.mbufs)[m];
  }

  lemma NoRepeats<T>(xs: seq<T>, i: nat, j: nat)
    requires i < j < |xs| && multiset(xs)[xs[i]] <= 1
    ensures xs[i] != xs[j]
  {
    WithoutMultiset(xs, i);
    var ys := Without(xs, i);
    assert ys[j - 1] == xs[j];
    assert xs[j] in multiset(ys);
  }

  /** A buffer in flight is in no second place, and not twice in flight. */
  lemma FlightAlone(s: State, i: nat)
    requires Conserved(s) && i < |Flight(s)|
    ensures var m := Flight(s)[i];
            m in s.mbufs && m !in s.pool && m !in s.nicRx && m !in s.nicTx
    ensures forall j: nat | j < |Flight(s)| && j != i :: Flight(s)[j] != Flight(s)[i]
  {
    var m := Flight(s)[i];
    assert m in multiset(Flight(s));
    CountedOnce(s, m);
    forall j: nat | j < |Flight(s)| && j != i
      ensures Flight(s)[j] != m
    {
      if i < j {
        NoRepeats(Flight(s), i, j);
      } else {
        CountedOnce(s, Flight(s)[j]);
        assert Flight(s)[j] in multiset(Flight(s));
        NoRepeats(Flight(s), j, i);
      }
    }
  }

  lemma PoolAlone(s: State, m: Mbuf)
    requires Conserved(s) && m in s.pool
    ensures m in s.mbufs && m !in s.nicRx && m !in Flight(s) && m !in s.nicTx
  {
    CountedOnce(s, m);
    assert m in multiset(s.pool);
    assert m in s.nicRx <==> m in multiset(s.nicRx);
    assert m in Flight(s) <==> m in multiset(Flight(s));
    assert m in s.nicTx <==> m in multiset(s.nicTx);
  }

  lemma PoolGrows(pool: set<Mbuf>, m: Mbuf)
    requires m !in pool
    ensures multiset(pool + {m}) == multiset(pool) + multiset{m}
  {
  }

  lemma PoolShrinks(pool: set<Mbuf>, m: Mbuf)
    requires m in pool
    ensures multiset(pool) == multiset(pool - {m}) + multiset{m}
  {
  }

  /** Freeing a buffer that is in no pool moves it there. */
  lemma FreedConserved(s: State, s': State, at: nat)
    requires Conserved(s) && at < |Flight(s)|
    requires s'.mbufs == s.mbufs && s'.nicRx == s.nicRx && s'.nicTx == s.nicTx
    requires s'.pool == s.pool + {Flight(s)[at]} && Flight(s') == Without(Flight(s), at)
    ensures Conserved(s')
  {
    FlightAlone(s, at);
    PoolGrows(s.pool, Flight(s)[at]);
    WithoutMultiset(Flight(s), at);
  }

  lemma ArriveConserved(s: State, m: Mbuf, p: Packet)
    requires PcOk(s) && Conserved(s) && Enabled(s, Arrive(m, p))
    ensures Conserved(Apply(s, Arrive(m, p)))
  {
    QuietFlight(s, Arrive(m, p));
    PoolShrinks(s.pool, m);
  }

  lemma TxCompleteConserved(s: State)
    requires PcOk(s) && Conserved(s) && Enabled(s, TxComplete)
    ensures Conserved(Apply(s, TxComplete))
  {
    QuietFlight(s, TxComplete);
    SentNotInPool(s);
    PoolGrows(s.pool, s.nicTx[0]);
    HeadMultiset(s.nicTx);
  }

  lemma HeadMultiset<T>(xs: seq<T>)
    requires xs != []
    ensures multiset(xs) == multiset{xs[0]} + multiset(xs[1..])
  {
    assert xs == [xs[0]] + xs[1..];
  }

  lemma SentNotInPool(s: State)
    requires Conserved(s) && s.nicTx != []
    ensures s.nicTx[0] !in s.pool
  {
    var m := s.nicTx[0];
    assert m in multiset(s.nicTx);
    CountedOnce(s, m);
  }

  lemma RxFreeConserved(s: State)
    requires PcOk(s) && Conserved(s) && Enabled(s, RxFree)
    ensures Conserved(Apply(s, RxFree))
  {
    RxFreeFlight(s);
    FreedConserved(s, Apply(s, RxFree), |TxOwned(s)| + |s.ring|);
  }

  lemma TxFreeConserved(s: State)
    requires PcOk(s) && Conserved(s) && Enabled(s, TxFree)
    ensures Conserved(Apply(s, TxFree))
  {
    TxFreeFlight(s);
    assert Without(Flight(s), 0) == Flight(s)[1..];
    FreedConserved(s, Apply(s, TxFree), 0);
  }

  lemma RxBurstConserved(s: State, n: nat)
    requires PcOk(s) && Conserved(s) && Enabled(s, RxBurst(n)) && n > 0
    ensures Conserved(Apply(s, RxBurst(n)))
  {
    RxBurstFlight(s, n);
    SplitMultiset(s.nicRx, n);
  }

  lemma TxBurstConserved(s: State, n: nat)
    requires PcOk(s) && Conserved(s) && Enabled(s, TxBurst(n))
    ensures Conserved(Apply(s, TxBurst(n)))
  {
    TxBurstFlight(s, n);
    SplitMultiset(Flight(s), n);
  }

  lemma StepConserved(s: State, e: Event)
    requires PcOk(s) && Conserved(s) && Enabled(s, e)
    ensures Conserved(Apply(s, e))
  {
    match e
    case Arrive(m, p) => ArriveConserved(s, m, p);
    case TxComplete => TxCompleteConserved(s);
    case RxBurst(n) => if n > 0 { RxBurstConserved(s, n); } else { QuietFlight(s, e); }
    case RxFree => RxFreeConserved(s);
    case TxBurst(n) => TxBurstConserved(s, n);
    case TxFree => TxFreeConserved(s);
    case _ => QuietFlight(s, e);
  }

  // ---------------------------------------------------------------- order and content

  ghost predicate Increasing(xs: seq<nat>) {
    forall i, j | 0 <= i < j < |xs| :: xs[i] < xs[j]
  }

  /** Numbers of the packets sent, then of those in flight: strictly increasing, all received. */
  ghost predicate InOrder(s: State) {
    && |s.sentNumbers| == |s.sent|
    && Increasing(s.sentNumbers + s.numbers)
    && (forall n <- s.sentNumbers + s.numbers :: n < |s.received|)
  }

  /** How many buffers at the front of the flight have had their addresses swapped. */
  function Swapped(s: State): nat {
    match s.txPc
    case TxSwapping(i) => i
    case TxFreeing(_, i) => if i <= |s.txBufs| then |s.txBufs| - i else 0
    case _ => 0
  }

  function Seen(s: State, number: nat, swapped: bool): Packet
    requires number < |s.received|
  {
    if swapped then SwapMacs(s.received[number]) else s.received[number]
  }

  /** Buffers in flight carry the packet they were received with, swapped once where the TX core
      has been; what was sent is a received packet swapped once. */
  ghost predicate Faithful(s: State) {
    && |s.numbers| == |Flight(s)| && |s.sentNumbers| == |s.sent|
    && (forall j | 0 <= j < |s.numbers| ::
          s.numbers[j] < |s.received| && PacketIn(s, Flight(s)[j]) == Seen(s, s.numbers[j], j < Swapped(s)))
    && (forall i | 0 <= i < |s.sent| ::
          s.sentNumbers[i] < |s.received| && s.sent[i] == Seen(s, s.sentNumbers[i], true))
  }

  lemma IncreasingWithout(xs: seq<nat>, i: nat)
    requires Increasing(xs) && i < |xs|
    ensures Increasing(Without(xs, i))
    ensures forall n <- Without(xs, i) :: n in xs
  {
  }

  lemma RxBurstOrder(s: State, n: nat)
    requires PcOk(s) && InOrder(s) && Enabled(s, RxBurst(n)) && n > 0
    ensures InOrder(Apply(s, RxBurst(n)))
  {
    var s' := Apply(s, RxBurst(n));
    var line, added := s.sentNumbers + s.numbers, Count(|s.received|, n);
    assert s'.sentNumbers + s'.numbers == line + added;
    assert |s'.received| == |s.received| + n;
    forall k <- line + added
      ensures k < |s'.received|
    {
      assert k in line || k in added;
    }
    forall i, j | 0 <= i < j < |line + added|
      ensures (line + added)[i] < (line + added)[j]
    {
      if i < |line| <= j {
        assert line[i] in line;
      }
    }
  }

  /** Two states with the same line of numbers, or with one number taken out of it. */
  lemma SameLine(s: State, s': State)
    requires InOrder(s)
    requires s'.sentNumbers + s'.numbers == s.sentNumbers + s.numbers
    requires |s'.sentNumbers| == |s'.sent| && |s'.received| >= |s.received|
    ensures InOrder(s')
  {
  }

  lemma ShorterLine(s: State, s': State, at: nat)
    requires InOrder(s) && at < |s.numbers|
    requires s'.sentNumbers == s.sentNumbers && s'.numbers == Without(s.numbers, at)
    requires s'.sent == s.sent && s'.received == s.received
    ensures InOrder(s')
  {
    IncreasingWithout(s.sentNumbers + s.numbers, |s.sentNumbers| + at);
    WithoutAfter(s.sentNumbers, s.numbers, at);
  }

  lemma WithoutAfter<T>(a: seq<T>, b: seq<T>, i: nat)
    requires i < |b|
    ensures a + Without(b, i) == Without(a + b, |a| + i)
  {
  }

  lemma RxFreeOrder(s: State)
    requires PcOk(s) && InOrder(s) && Enabled(s, RxFree)
    ensures InOrder(Apply(s, RxFree))
  {
    var at := RxFreeDrops(s);
    ShorterLine(s, Apply(s, RxFree), at);
  }

  lemma TxFreeOrder(s: State)
    requires PcOk(s) && InOrder(s) && Enabled(s, TxFree)
    ensures InOrder(Apply(s, TxFree))
  {
    TxFreeFlight(s);
    assert s.numbers[1..] == Without(s.numbers, 0);
    ShorterLine(s, Apply(s, TxFree), 0);
  }

  lemma TxBurstOrder(s: State, n: nat)
    requires PcOk(s) && InOrder(s) && Enabled(s, TxBurst(n))
    ensures InOrder(Apply(s, TxBurst(n)))
  {
    TxBurstFlight(s, n);
    var s' := Apply(s, TxBurst(n));
    Shift(s.sentNumbers, s.numbers, n);
    SameLine(s, s');
  }

  lemma QuietOrder(s: State, e: Event)
    requires PcOk(s) && InOrder(s) && Enabled(s, e) && Quiet(s, e)
    ensures InOrder(Apply(s, e))
  {
    var s' := Apply(s, e);
    assert s'.numbers == s.numbers && s'.sentNumbers == s.sentNumbers && s'.sent == s.sent && s'.received == s.received;
    SameLine(s, s');
  }

  lemma StepOrder(s: State, e: Event)
    requires PcOk(s) && InOrder(s) && Enabled(s, e)
    ensures InOrder(Apply(s, e))
  {
    match e
    case RxBurst(n) => if n > 0 { RxBurstOrder(s, n); } else { QuietOrder(s, e); }
    case RxFree => RxFreeOrder(s);
    case TxBurst(n) => TxBurstOrder(s, n);
    case TxFree => TxFreeOrder(s);
    case _ => QuietOrder(s, e);
  }

  lemma SameFaithful(s: State, s': State)
    requires PcOk(s) && Faithful(s)
    requires Flight(s') == Flight(s) && Swapped(s') == Swapped(s)
    requires s'.numbers == s.numbers && s'.received == s.received && s'.sent == s.sent && s'.sentNumbers == s.sentNumbers
    requires forall j | 0 <= j < |Flight(s)| :: PacketIn(s', Flight(s)[j]) == PacketIn(s, Flight(s)[j])
    ensures Faithful(s')
  {
  }

  lemma ArriveFaithful(s: State, m: Mbuf, p: Packet)
    requires PcOk(s) && Conserved(s) && Faithful(s) && Enabled(s, Arrive(m, p))
    ensures Faithful(Apply(s, Arrive(m, p)))
  {
    var s' := Apply(s, Arrive(m, p));
    QuietFlight(s, Arrive(m, p));
    PoolAlone(s, m);
    forall j | 0 <= j < |Flight(s)|
      ensures PacketIn(s', Flight(s)[j]) == PacketIn(s, Flight(s)[j])
    {
      assert Flight(s)[j] in Flight(s);
    }
    SameFaithful(s, s');
  }

  lemma QuietFaithful(s: State, e: Event)
    requires PcOk(s) && Faithful(s) && Enabled(s, e) && Quiet(s, e) && !e.TxSwap? && !e.Arrive?
    ensures Faithful(Apply(s, e))
  {
    QuietFlight(s, e);
    var s' := Apply(s, e);
    assert s'.numbers == s.numbers && s'.received == s.received && s'.sent == s.sent && s'.sentNumbers == s.sentNumbers;
    assert s'.data == s.data;
    assert Swapped(s') == Swapped(s);
    SameFaithful(s, s');
  }

  lemma RxBurstFaithful(s: State, n: nat)
    requires PcOk(s) && Faithful(s) && Enabled(s, RxBurst(n)) && n > 0
    ensures Faithful(Apply(s, RxBurst(n)))
  {
    RxBurstFlight(s, n);
    var s' := Apply(s, RxBurst(n));
    assert Swapped(s') == Swapped(s) <= |TxOwned(s)|;
    forall j | 0 <= j < |s'.numbers|
      ensures s'.numbers[j] < |s'.received| && PacketIn(s', Flight(s')[j]) == Seen(s', s'.numbers[j], j < Swapped(s'))
    {
      AddedOne(s, s', n, j);
    }
    SentStay(s, s');
  }

  lemma AddedOne(s: State, s': State, n: nat, j: nat)
    requires PcOk(s) && Faithful(s) && n <= |s.nicRx| && j < |s'.numbers|
    requires Flight(s') == Flight(s) + s.nicRx[..n] && s'.numbers == s.numbers + Count(|s.received|, n)
    requires s'.received == s.received + PacketsIn(s, s.nicRx[..n]) && s'.data == s.data
    requires Swapped(s') == Swapped(s) <= |Flight(s)|
    ensures s'.numbers[j] < |s'.received| && PacketIn(s', Flight(s')[j]) == Seen(s', s'.numbers[j], j < Swapped(s'))
  {
    if j < |s.numbers| {
      assert s'.numbers[j] == s.numbers[j] && Flight(s')[j] == Flight(s)[j];
    } else {
      var i := j - |s.numbers|;
      assert s'.numbers[j] == |s.received| + i && Flight(s')[j] == s.nicRx[..n][i];
    }
  }

  /** What was sent stays what it was. */
  lemma SentStay(s: State, s': State)
    requires PcOk(s) && Faithful(s)
    requires s'.sent == s.sent && s'.sentNumbers == s.sentNumbers && s.received <= s'.received
    ensures forall i | 0 <= i < |s'.sent| ::
              s'.sentNumbers[i] < |s'.received| && s'.sent[i] == Seen(s', s'.sentNumbers[i], true)
  {
  }

  /** From s to s' one buffer has left the flight, and nothing else has changed in or behind it. */
  ghost predicate Dropped(s: State, s': State, at: nat) {
    && |s.numbers| == |Flight(s)| && at < |Flight(s)|
    && Flight(s') == Without(Flight(s), at) && s'.numbers == Without(s.numbers, at)
    && s'.data == s.data && s'.received == s.received && s'.sent == s.sent && s'.sentNumbers == s.sentNumbers
    && Swapped(s') == if at < Swapped(s) then Swapped(s) - 1 else Swapped(s)
  }

  /** Freeing the buffer at one place of the flight leaves the others as they are. */
  lemma RemovedFaithful(s: State, s': State, at: nat)
    requires PcOk(s) && Faithful(s) && Dropped(s, s', at)
    ensures Faithful(s')
  {
    forall j | 0 <= j < |s'.numbers|
      ensures s'.numbers[j] < |s'.received| && PacketIn(s', Flight(s')[j]) == Seen(s', s'.numbers[j], j < Swapped(s'))
    {
      RemovedOne(s, s', at, j);
    }
    SentStay(s, s');
  }

  lemma RemovedOne(s: State, s': State, at: nat, j: nat)
    requires PcOk(s) && Faithful(s) && Dropped(s, s', at) && j < |s'.numbers|
    ensures s'.numbers[j] < |s'.received| && PacketIn(s', Flight(s')[j]) == Seen(s', s'.numbers[j], j < Swapped(s'))
  {
    var k := if j < at then j else j + 1;
    WithoutAt(s.numbers, at, j);
    WithoutAt(Flight(s), at, j);
    assert j < Swapped(s') <==> k < Swapped(s);
    SameSeen(s, s', s.numbers[k], k < Swapped(s));
  }

  lemma WithoutAt<T>(xs: seq<T>, i: nat, j: nat)
    requires i < |xs| && j < |xs| - 1
    ensures Without(xs, i)[j] == xs[if j < i then j else j + 1]
  {
  }

  lemma SameSeen(s: State, s': State, number: nat, swapped: bool)
    requires s'.received == s.received && number < |s.received|
    ensures Seen(s', number, swapped) == Seen(s, number, swapped)
  {
  }

  lemma RxFreeFaithful(s: State)
    requires PcOk(s) && Faithful(s) && Enabled(s, RxFree)
    ensures Faithful(Apply(s, RxFree))
  {
    var at := RxFreeDrops(s);
    RemovedFaithful(s, Apply(s, RxFree), at);
  }

  lemma RxFreeDrops(s: State) returns (at: nat)
    requires PcOk(s) && Enabled(s, RxFree)
    ensures Dropped(s, Apply(s, RxFree), at)
  {
    at := |TxOwned(s)| + |s.ring|;
    RxFreeFlight(s);
    RxFreeKeeps(s, Apply(s, RxFree), at);
    DroppedBy(s, Apply(s, RxFree), at);
  }

  lemma DroppedBy(s: State, s': State, at: nat)
    requires |s.numbers| == |Flight(s)| && at < |Flight(s)|
    requires Flight(s') == Without(Flight(s), at) && Swapped(s') == Swapped(s) <= at
    requires s'.numbers == Forget(s.numbers, at)
    requires s'.data == s.data && s'.received == s.received && s'.sent == s.sent && s'.sentNumbers == s.sentNumbers
    ensures Dropped(s, s', at)
  {
  }

  lemma RxFreeKeeps(s: State, s': State, at: nat)
    requires Bounds(s) && Enabled(s, RxFree) && at == |TxOwned(s)| + |s.ring| && s' == Apply(s, RxFree)
    ensures Swapped(s') == Swapped(s) <= at && s'.numbers == Forget(s.numbers, at)
    ensures s'.data == s.data && s'.received == s.received && s'.sent == s.sent && s'.sentNumbers == s.sentNumbers
  {
  }

  lemma TxBurstFaithful(s: State, n: nat)
    requires PcOk(s) && Faithful(s) && Enabled(s, TxBurst(n))
    ensures Faithful(Apply(s, TxBurst(n)))
  {
    TxBurstFlight(s, n);
    var s' := Apply(s, TxBurst(n));
    forall j | 0 <= j < |s'.numbers|
      ensures s'.numbers[j] < |s'.received| && PacketIn(s', Flight(s')[j]) == Seen(s', s'.numbers[j], j < Swapped(s'))
    {
      assert s'.numbers[j] == s.numbers[n + j] && Flight(s')[j] == Flight(s)[n + j];
    }
    TxBurstSent(s, n);
  }

  lemma TxBurstSent(s: State, n: nat)
    requires PcOk(s) && Faithful(s) && Enabled(s, TxBurst(n))
    ensures var s' := Apply(s, TxBurst(n));
            forall i | 0 <= i < |s'.sent| ::
              s'.sentNumbers[i] < |s'.received| && s'.sent[i] == Seen(s', s'.sentNumbers[i], true)
  {
    TxBurstFlight(s, n);
    TxBurstKeeps(s, n);
    var s' := Apply(s, TxBurst(n));
    forall i | 0 <= i < |s'.sent|
      ensures s'.sentNumbers[i] < |s'.received| && s'.sent[i] == Seen(s', s'.sentNumbers[i], true)
    {
      SentOne(s, s', n, i);
    }
  }

  lemma TxBurstKeeps(s: State, n: nat)
    requires PcOk(s) && Enabled(s, TxBurst(n))
    ensures var s' := Apply(s, TxBurst(n));
            && n <= |s.numbers| && n <= Swapped(s) && s'.received == s.received && s'.data == s.data
            && s'.numbers == s.numbers[n..] && s'.sentNumbers == s.sentNumbers + s.numbers[..n]
            && s'.sent == s.sent + PacketsIn(s, s.txBufs[..n])
  {
  }

  lemma SentOne(s: State, s': State, n: nat, i: nat)
    requires Faithful(s) && n <= |s.txBufs| && n <= |s.numbers| && n <= Swapped(s) && i < |s'.sent|
    requires Flight(s)[..n] == s.txBufs[..n] && s'.received == s.received
    requires s'.sentNumbers == s.sentNumbers + s.numbers[..n] && s'.sent == s.sent + PacketsIn(s, s.txBufs[..n])
    ensures s'.sentNumbers[i] < |s'.received| && s'.sent[i] == Seen(s', s'.sentNumbers[i], true)
  {
    if i < |s.sent| {
      assert s'.sentNumbers[i] == s.sentNumbers[i] && s'.sent[i] == s.sent[i];
      SameSeen(s, s', s.sentNumbers[i], true);
    } else {
      var j := i - |s.sent|;
      SwappedInFlight(s, n, j);
      assert s'.sentNumbers[i] == s.numbers[j] && s'.sent[i] == PacketIn(s, s.txBufs[j]);
    }
  }

  lemma SwappedInFlight(s: State, n: nat, j: nat)
    requires Faithful(s) && j < n <= |s.txBufs| && n <= |s.numbers| && n <= Swapped(s)
    requires Flight(s)[..n] == s.txBufs[..n]
    ensures s.numbers[j] < |s.received| && PacketIn(s, s.txBufs[j]) == Seen(s, s.numbers[j], true)
  {
    assert Flight(s)[..n][j] == s.txBufs[..n][j];
  }

  lemma TxFreeFaithful(s: State)
    requires PcOk(s) && Faithful(s) && Enabled(s, TxFree)
    ensures Faithful(Apply(s, TxFree))
  {
    TxFreeDrops(s);
    RemovedFaithful(s, Apply(s, TxFree), 0);
  }

  lemma TxFreeDrops(s: State)
    requires PcOk(s) && Enabled(s, TxFree)
    ensures Dropped(s, Apply(s, TxFree), 0)
  {
    TxFreeFlight(s);
    assert Without(Flight(s), 0) == Flight(s)[1..] && Without(s.numbers, 0) == s.numbers[1..];
  }

  lemma TxSwapFaithful(s: State)
    requires PcOk(s) && Conserved(s) && Faithful(s) && Enabled(s, TxSwap)
    ensures Faithful(Apply(s, TxSwap))
  {
    QuietFlight(s, TxSwap);
    var s' := Apply(s, TxSwap);
    var i := s.txPc.i;
    assert Flight(s)[i] == s.txBufs[i];
    FlightAlone(s, i);
    forall j | 0 <= j < |s'.numbers|
      ensures s'.numbers[j] < |s'.received| && PacketIn(s', Flight(s')[j]) == Seen(s', s'.numbers[j], j < Swapped(s'))
    {
      assert PacketIn(s', Flight(s)[j]) == if j == i then SwapMacs(PacketIn(s, Flight(s)[i])) else PacketIn(s, Flight(s)[j]);
    }
    SentStay(s, s');
  }

  lemma StepFaithful(s: State, e: Event)
    requires PcOk(s) && Conserved(s) && Faithful(s) && Enabled(s, e)
    ensures PcOk(Apply(s, e)) && Faithful(Apply(s, e))
  {
    PcOkKept(s, e);
    match e
    case RxBurst(n) => if n > 0 { RxBurstFaithful(s, n); } else { QuietFaithful(s, e); }
    case RxFree => RxFreeFaithful(s);
    case TxBurst(n) => TxBurstFaithful(s, n);
    case TxFree => TxFreeFaithful(s);
    case TxSwap => TxSwapFaithful(s);
    case Arrive(m, p) => ArriveFaithful(s, m, p);
    case _ => QuietFaithful(s, e);
  }

  // ---------------------------------------------------------------- counters

  /** Received but not yet added to rx_packets. */
  function Uncounted(s: State): nat {
    if s.rxPc.RxGot? then |s.rxBufs| else 0
  }

  /** Sent but not yet added to tx_packets. */
  function Pending(s: State): nat {
    if s.txPc.TxFreeing? then s.txPc.nbTx else 0
  }

  ghost predicate Counted(s: State) {
    && |s.received| == |s.sent| + s.rxDrops + s.txDrops + |s.numbers|
    && Uncounted(s) <= |s.received| && Pending(s) <= |s.sent|
    && s.rxPackets == Wrap64(|s.received| - Uncounted(s))
    && s.txPackets == Wrap64(|s.sent| - Pending(s))
  }

  lemma RxCountCounted(s: State)
    requires PcOk(s) && Counted(s) && Enabled(s, RxCount)
    ensures Counted(Apply(s, RxCount))
  {
    Wrap64Add(|s.received| - Uncounted(s), |s.rxBufs|);
  }

  lemma TxCountCounted(s: State)
    requires PcOk(s) && Counted(s) && Enabled(s, TxCount)
    ensures Counted(Apply(s, TxCount))
  {
    Wrap64Add(|s.sent| - Pending(s), s.txPc.nbTx);
  }

  lemma BurstCounted(s: State, e: Event)
    requires PcOk(s) && Counted(s) && Enabled(s, e) && (e.RxBurst? || e.TxBurst?)
    ensures Counted(Apply(s, e))
  {
    if e.TxBurst? {
      TxBurstFlight(s, e.n);
    }
  }

  lemma RxFreeCounted(s: State)
    requires PcOk(s) && Counted(s) && Enabled(s, RxFree)
    ensures Counted(Apply(s, RxFree))
  {
    RxFreeShorter(s);
    DropCounted(s, Apply(s, RxFree));
  }

  lemma RxFreeShorter(s: State)
    requires PcOk(s) && Enabled(s, RxFree)
    ensures |Apply(s, RxFree).numbers| == |s.numbers| - 1
  {
    assert RxOwned(s) != [];
    assert |Flight(s)| == |TxOwned(s)| + |s.ring| + |RxOwned(s)|;
  }

  lemma DropCounted(s: State, s': State)
    requires Counted(s) && |s'.numbers| == |s.numbers| - 1 && s'.received == s.received && s'.sent == s.sent
    requires s'.rxDrops + s'.txDrops == s.rxDrops + s.txDrops + 1
    requires s'.rxPackets == s.rxPackets && s'.txPackets == s.txPackets
    requires Uncounted(s') == Uncounted(s) && Pending(s') == Pending(s)
    ensures Counted(s')
  {
  }

  lemma TxFreeCounted(s: State)
    requires PcOk(s) && Counted(s) && Enabled(s, TxFree)
    ensures Counted(Apply(s, TxFree))
  {
    TxFreeKeeps(s);
    DropCounted(s, Apply(s, TxFree));
  }

  lemma TxFreeKeeps(s: State)
    requires PcOk(s) && Enabled(s, TxFree)
    ensures var s' := Apply(s, TxFree);
            && |s'.numbers| == |s.numbers| - 1 && s'.received == s.received && s'.sent == s.sent
            && Pending(s') == Pending(s) && Uncounted(s') == Uncounted(s)
  {
    TxFreeFlight(s);
  }

  lemma StepCounted(s: State, e: Event)
    requires PcOk(s) && Counted(s) && Enabled(s, e)
    ensures Counted(Apply(s, e))
  {
    match e
    case RxFree => RxFreeCounted(s);
    case TxFree => TxFreeCounted(s);
    case RxBurst(n) => BurstCounted(s, e);
    case TxBurst(n) => BurstCounted(s, e);
    case RxCount => RxCountCounted(s);
    case TxCount => TxCountCounted(s);
    case _ =>
  }

  // ---------------------------------------------------------------- whole runs

  ghost predicate Inv(s: State) {
    PcOk(s) && Conserved(s) && InOrder(s) && Faithful(s) && Counted(s)
  }

  lemma InitInv(s: State)
    requires Init(s)
    ensures Inv(s)
  {
  }

  lemma StepInv(s: State, e: Event)
    requires Inv(s) && Enabled(s, e)
    ensures Inv(Apply(s, e))
  {
    StepOrder(s, e);
    StepFaithful(s, e);
    StepConserved(s, e);
    StepCounted(s, e);
  }

  predicate IsRun(s: State, es: seq<Event>)
    decreases |es|
  {
    es == [] || (Enabled(s, es[0]) && IsRun(Apply(s, es[0]), es[1..]))
  }

  function End(s: State, es: seq<Event>): State
    requires IsRun(s, es)
    decreases |es|
  {
    if es == [] then s else End(Apply(s, es[0]), es[1..])
  }

  lemma {:induction false} RunInv(s: State, es: seq<Event>)
    requires Inv(s) && IsRun(s, es)
    ensures Inv(End(s, es))
    decreases |es|
  {
    if es == [] {
    } else {
      StepInv(s, es[0]);
      RunInv(Apply(s, es[0]), es[1..]);
    }
  }

  /** In every interleaving each buffer is in exactly one of the six places: none leaks, none is
      in two places. */
  lemma EveryBufferInOnePlace(s0: State, es: seq<Event>)
    requires Init(s0) && IsRun(s0, es)
    ensures var s := End(s0, es);
            forall m: Mbuf :: multiset(s.pool)[m] + multiset(s.nicRx)[m] + multiset(RxOwned(s))[m] + multiset(s.ring)[m]
                              + multiset(TxOwned(s))[m] + multiset(s.nicTx)[m] == if m in s.mbufs then 1 else 0
  {
    RunCounted(s0, es);
    ForallPlaces(End(s0, es));
  }

  lemma ForallPlaces(s: State)
    requires Conserved(s)
    ensures forall m: Mbuf ::
              multiset(s.pool)[m] + multiset(s.nicRx)[m] + multiset(RxOwned(s))[m] + multiset(s.ring)[m]
              + multiset(TxOwned(s))[m] + multiset(s.nicTx)[m] == if m in s.mbufs then 1 else 0
  {
    forall m: Mbuf
      ensures multiset(s.pool)[m] + multiset(s.nicRx)[m] + multiset(RxOwned(s))[m] + multiset(s.ring)[m]
              + multiset(TxOwned(s))[m] + multiset(s.nicTx)[m] == if m in s.mbufs then 1 else 0
    {
      CountedOnce(s, m);
      assert multiset(Flight(s))[m] == multiset(TxOwned(s))[m] + multiset(s.ring)[m] + multiset(RxOwned(s))[m];
    }
  }

  /** What is only once in three lists in a row is in only one of them. */
  lemma OnlyThere<T>(a: seq<T>, b: seq<T>, c: seq<T>, at: nat)
    requires at < |a + b + c|
    requires forall j: nat | j < |a + b + c| && j != at :: (a + b + c)[j] != (a + b + c)[at]
    ensures at >= |a| ==> (a + b + c)[at] !in a
    ensures at < |a| || at >= |a + b| ==> (a + b + c)[at] !in b
    ensures at < |a + b| ==> (a + b + c)[at] !in c
  {
    var f := a + b + c;
    assert forall i | 0 <= i < |a| :: f[i] == a[i];
    assert forall i | 0 <= i < |b| :: f[|a| + i] == b[i];
    assert forall i | 0 <= i < |c| :: f[|a + b| + i] == c[i];
  }

  lemma RxFreeAlone(s: State)
    requires PcOk(s) && Conserved(s) && Enabled(s, RxFree)
    ensures var m := s.rxBufs[s.rxPc.i];
            m in s.mbufs && m !in s.pool && m !in s.nicRx && m !in s.ring && m !in s.nicTx && m !in TxOwned(s)
  {
    var at := |TxOwned(s)| + |s.ring|;
    RxFreeFlight(s);
    FlightAlone(s, at);
    OnlyThere(TxOwned(s), s.ring, RxOwned(s), at);
  }

  lemma TxFreeAlone(s: State)
    requires PcOk(s) && Conserved(s) && Enabled(s, TxFree)
    ensures var m := s.txBufs[s.txPc.i];
            m in s.mbufs && m !in s.pool && m !in s.nicRx && m !in s.ring && m !in s.nicTx && m !in RxOwned(s)
  {
    TxFreeFlight(s);
    FlightAlone(s, 0);
    assert TxOwned(s) != [];
    OnlyThere(TxOwned(s), s.ring, RxOwned(s), 0);
  }

  /** A buffer about to be freed is neither in the pool already, nor handed to the ring or a NIC
      queue, nor held by the other core. */
  lemma NoBadFree(s0: State, es: seq<Event>, e: Event)
    requires Init(s0) && IsRun(s0, es)
    requires (e.RxFree? || e.TxFree?) && Enabled(End(s0, es), e)
    ensures var s := End(s0, es);
            var m := if e.RxFree? then s.rxBufs[s.rxPc.i] else s.txBufs[s.txPc.i];
            && m in s.mbufs && m !in s.pool && m !in s.nicRx && m !in s.ring && m !in s.nicTx
            && m !in (if e.RxFree? then TxOwned(s) else RxOwned(s))
  {
    InitInv(s0);
    RunInv(s0, es);
    if e.RxFree? {
      RxFreeAlone(End(s0, es));
    } else {
      TxFreeAlone(End(s0, es));
    }
  }

  /** In every run the packets handed to the NIC are a subsequence of those received, in order,
      each with its addresses swapped exactly once. */
  lemma SentIsSubsequence(s0: State, es: seq<Event>)
    requires Init(s0) && IsRun(s0, es)
    ensures var s := End(s0, es);
            && |s.sentNumbers| == |s.sent|
            && (forall i, j | 0 <= i < j < |s.sent| :: s.sentNumbers[i] < s.sentNumbers[j])
            && (forall i | 0 <= i < |s.sent| ::
                  s.sentNumbers[i] < |s.received|
                  && var out, packet := s.sent[i], s.received[s.sentNumbers[i]];
                  out.dst == packet.src && out.src == packet.dst && out.body == packet.body)
  {
    RunFaithful(s0, es);
    SentInOrder(End(s0, es));
    SentStay(End(s0, es), End(s0, es));
  }

  lemma RunFaithful(s0: State, es: seq<Event>)
    requires Init(s0) && IsRun(s0, es)
    ensures PcOk(End(s0, es)) && InOrder(End(s0, es)) && Faithful(End(s0, es))
  {
    InitInv(s0);
    RunInv(s0, es);
  }

  lemma SentInOrder(s: State)
    requires InOrder(s)
    ensures |s.sentNumbers| == |s.sent| && Increasing(s.sentNumbers)
  {
    assert forall i | 0 <= i < |s.sent| :: s.sentNumbers[i] == (s.sentNumbers + s.numbers)[i];
  }

  // ---------------------------------------------------------------- the two ends

  /** The packets that the NIC received during a run. */
  function Arrivals(es: seq<Event>): seq<Packet> {
    if es == [] then [] else Arrival(es[0]) + Arrivals(es[1..])
  }

  function Arrival(e: Event): seq<Packet> {
    if e.Arrive? then [e.p] else []
  }

  /** What was received, and what waits in the receive queue. */
  function Taken(s: State): seq<Packet> {
    s.received + PacketsIn(s, s.nicRx)
  }

  lemma NicRxUntouched(s: State, s': State)
    requires s'.nicRx == s.nicRx && s'.received == s.received
    requires forall m <- s.nicRx :: PacketIn(s', m) == PacketIn(s, m)
    ensures Taken(s') == Taken(s)
  {
    assert PacketsIn(s', s'.nicRx) == PacketsIn(s, s.nicRx);
  }

  lemma ArriveTaken(s: State, m: Mbuf, p: Packet)
    requires PcOk(s) && Conserved(s) && Enabled(s, Arrive(m, p))
    ensures Taken(Apply(s, Arrive(m, p))) == Taken(s) + [p]
  {
    var s' := Apply(s, Arrive(m, p));
    PoolAlone(s, m);
    assert PacketsIn(s', s'.nicRx) == PacketsIn(s, s.nicRx) + [p];
  }

  lemma RxBurstTaken(s: State, n: nat)
    requires Enabled(s, RxBurst(n))
    ensures Taken(Apply(s, RxBurst(n))) == Taken(s)
  {
    var s' := Apply(s, RxBurst(n));
    PacketsSplit(s, s.nicRx, n);
    if n == 0 {
      NicRxUntouched(s, s');
    } else {
      assert PacketsIn(s', s'.nicRx) == PacketsIn(s, s.nicRx[n..]);
    }
  }

  lemma PacketsSplit(s: State, bufs: seq<Mbuf>, n: nat)
    requires n <= |bufs|
    ensures PacketsIn(s, bufs) == PacketsIn(s, bufs[..n]) + PacketsIn(s, bufs[n..])
  {
  }

  lemma TxSwapTaken(s: State)
    requires PcOk(s) && Conserved(s) && Enabled(s, TxSwap)
    ensures Taken(Apply(s, TxSwap)) == Taken(s)
  {
    SwappedAlone(s);
    NicRxUntouched(s, Apply(s, TxSwap));
  }

  lemma OtherTaken(s: State, e: Event)
    requires Enabled(s, e) && !e.Arrive? && !e.RxBurst? && !e.TxSwap?
    ensures Taken(Apply(s, e)) == Taken(s)
  {
    NicRxUntouched(s, Apply(s, e));
  }

  lemma StepTaken(s: State, e: Event)
    requires PcOk(s) && Conserved(s) && Enabled(s, e)
    ensures Taken(Apply(s, e)) == Taken(s) + Arrival(e)
  {
    match e
    case Arrive(m, p) => ArriveTaken(s, m, p);
    case RxBurst(n) => RxBurstTaken(s, n);
    case TxSwap => TxSwapTaken(s);
    case _ => OtherTaken(s, e);
  }

  /** The buffer whose addresses are being swapped is in neither NIC queue. */
  lemma SwappedAlone(s: State)
    requires PcOk(s) && Conserved(s) && Enabled(s, TxSwap)
    ensures s.txBufs[s.txPc.i] !in s.nicRx && s.txBufs[s.txPc.i] !in s.nicTx
  {
    assert Flight(s)[s.txPc.i] == s.txBufs[s.txPc.i];
    FlightAlone(s, s.txPc.i);
  }

  /** Each step of a run hands on its arrival. */
  ghost predicate StepsTake(s: State, es: seq<Event>)
    requires IsRun(s, es)
    decreases |es|
  {
    es != [] ==>
      && Taken(Apply(s, es[0])) == Taken(s) + Arrival(es[0])
      && StepsTake(Apply(s, es[0]), es[1..])
  }

  lemma StepPlaced(s: State, e: Event)
    requires PcOk(s) && Conserved(s) && Enabled(s, e)
    ensures PcOk(Apply(s, e)) && Conserved(Apply(s, e))
    ensures Taken(Apply(s, e)) == Taken(s) + Arrival(e)
    ensures OnTheWire(s) ==> OnTheWire(Apply(s, e))
  {
    StepTaken(s, e);
    PcOkKept(s, e);
    StepConserved(s, e);
    if OnTheWire(s) {
      StepOnTheWire(s, e);
    }
  }

  lemma {:induction false} RunPlaced(s: State, es: seq<Event>)
    requires PcOk(s) && Conserved(s) && OnTheWire(s) && IsRun(s, es)
    ensures StepsTake(s, es) && OnTheWire(End(s, es))
    decreases |es|
  {
    if es != [] {
      StepPlaced(s, es[0]);
      RunPlaced(Apply(s, es[0]), es[1..]);
    }
  }

  lemma Joined<T>(a: seq<T>, b: seq<T>, c: seq<T>)
    ensures (a + b) + c == a + (b + c) && a + [] == a
  {
  }

  lemma {:induction false} RunTaken(s: State, es: seq<Event>)
    requires IsRun(s, es) && StepsTake(s, es)
    ensures Taken(End(s, es)) == Taken(s) + Arrivals(es)
    decreases |es|
  {
    if es == [] {
      Joined(Taken(s), [], []);
    } else {
      RunTaken(Apply(s, es[0]), es[1..]);
      Joined(Taken(s), Arrival(es[0]), Arrivals(es[1..]));
    }
  }

  lemma InitPlaced(s: State)
    requires Init(s)
    ensures PcOk(s) && Conserved(s) && OnTheWire(s) && Taken(s) == []
  {
  }

  lemma FromTheStart(s0: State, es: seq<Event>)
    requires Init(s0) && IsRun(s0, es)
    ensures Taken(s0) == [] && StepsTake(s0, es) && OnTheWire(End(s0, es))
  {
    InitPlaced(s0);
    RunPlaced(s0, es);
  }

  /** In every run the packets received by the RX core, followed by those still in the receive queue,
      are the packets that arrived, in order. */
  lemma ReceivedAreArrivals(s0: State, es: seq<Event>)
    requires Init(s0) && IsRun(s0, es)
    ensures var s := End(s0, es); s.received + PacketsIn(s, s.nicRx) == Arrivals(es)
  {
    FromTheStart(s0, es);
    RunTaken(s0, es);
    Joined([], Arrivals(es), []);
  }

  /** The transmit queue carries the packets sent last. */
  ghost predicate OnTheWire(s: State) {
    |s.nicTx| <= |s.sent| && PacketsIn(s, s.nicTx) == s.sent[|s.sent| - |s.nicTx|..]
  }

  lemma NicTxUntouched(s: State, s': State)
    requires OnTheWire(s) && s'.nicTx == s.nicTx && s'.sent == s.sent
    requires forall m <- s.nicTx :: PacketIn(s', m) == PacketIn(s, m)
    ensures OnTheWire(s')
  {
    assert PacketsIn(s', s'.nicTx) == PacketsIn(s, s.nicTx);
  }

  lemma ArriveOnTheWire(s: State, m: Mbuf, p: Packet)
    requires PcOk(s) && Conserved(s) && OnTheWire(s) && Enabled(s, Arrive(m, p))
    ensures OnTheWire(Apply(s, Arrive(m, p)))
  {
    PoolAlone(s, m);
    NicTxUntouched(s, Apply(s, Arrive(m, p)));
  }

  lemma TxCompleteOnTheWire(s: State)
    requires OnTheWire(s) && Enabled(s, TxComplete)
    ensures OnTheWire(Apply(s, TxComplete))
  {
    var s' := Apply(s, TxComplete);
    assert PacketsIn(s', s'.nicTx) == PacketsIn(s, s.nicTx)[1..];
  }

  lemma TxBurstOnTheWire(s: State, n: nat)
    requires OnTheWire(s) && Enabled(s, TxBurst(n))
    ensures OnTheWire(Apply(s, TxBurst(n)))
  {
    var s' := Apply(s, TxBurst(n));
    assert PacketsIn(s', s'.nicTx) == PacketsIn(s, s.nicTx) + PacketsIn(s, s.txBufs[..n]);
  }

  lemma TxSwapOnTheWire(s: State)
    requires PcOk(s) && Conserved(s) && OnTheWire(s) && Enabled(s, TxSwap)
    ensures OnTheWire(Apply(s, TxSwap))
  {
    SwappedAlone(s);
    NicTxUntouched(s, Apply(s, TxSwap));
  }

  lemma StepOnTheWire(s: State, e: Event)
    requires PcOk(s) && Conserved(s) && OnTheWire(s) && Enabled(s, e)
    ensures OnTheWire(Apply(s, e))
  {
    match e
    case Arrive(m, p) => ArriveOnTheWire(s, m, p);
    case TxComplete => TxCompleteOnTheWire(s);
    case TxBurst(n) => TxBurstOnTheWire(s, n);
    case TxSwap => TxSwapOnTheWire(s);
    case _ => NicTxUntouched(s, Apply(s, e));
  }

  /** In every run the buffers in the transmit queue hold the packets counted as sent, the last of them,
      in order and unchanged since. */
  lemma WireCarriesSent(s0: State, es: seq<Event>)
    requires Init(s0) && IsRun(s0, es)
    ensures OnTheWire(End(s0, es))
  {
    FromTheStart(s0, es);
  }

  // ---------------------------------------------------------------- one round of a core

  /** A round of the RX core that the ring has room for: it hands the whole burst from the receive
      queue to the ring, counts it and drops nothing. */
  lemma RxRound(s: State, n: nat)
    requires s.rxPc.RxHead? && !s.quit
    requires 0 < n <= BURST_SIZE && n <= |s.nicRx| && |s.ring| + n <= RING_SIZE - 1
    ensures var es := [RxCheck, RxBurst(n), RxCount, RxEnqueue(n), RxNext];
            && IsRun(s, es)
            && var s' := End(s, es);
            && s'.nicRx == s.nicRx[n..] && s'.ring == s.ring + s.nicRx[..n]
            && s'.rxPackets == Wrap64(s.rxPackets + n) && s'.rxPc.RxHead?
            && s' == s.(nicRx := s'.nicRx, ring := s'.ring, rxPackets := s'.rxPackets, rxPc := s'.rxPc,
                        rxBufs := s'.rxBufs, received := s'.received, numbers := s'.numbers)
  {
    var s1 := Apply(s, RxCheck);
    RxHandOver(Apply(s1, RxBurst(n)), n);
    Prepend(s1, RxBurst(n), [RxCount, RxEnqueue(n), RxNext]);
    Prepend(s, RxCheck, [RxBurst(n), RxCount, RxEnqueue(n), RxNext]);
  }

  lemma RxHandOver(s: State, n: nat)
    requires s.rxPc.RxGot? && |s.rxBufs| == n && |s.ring| + n <= RING_SIZE - 1
    ensures IsRun(s, [RxCount, RxEnqueue(n), RxNext])
    ensures End(s, [RxCount, RxEnqueue(n), RxNext])
            == s.(ring := s.ring + s.rxBufs, rxPackets := Wrap64(s.rxPackets + n), rxPc := RxHead)
  {
    var s1 := Apply(s, RxCount);
    var s2 := Apply(s1, RxEnqueue(n));
    assert s.rxBufs[..n] == s.rxBufs;
    Prepend(s2, RxNext, []);
    Prepend(s1, RxEnqueue(n), [RxNext]);
    Prepend(s, RxCount, [RxEnqueue(n), RxNext]);
  }

  lemma Prepend(s: State, e: Event, es: seq<Event>)
    requires Enabled(s, e) && IsRun(Apply(s, e), es)
    ensures IsRun(s, [e] + es) && End(s, [e] + es) == End(Apply(s, e), es)
  {
    assert ([e] + es)[1..] == es;
  }

  /** n swaps, and what follows them. */
  function Swaps(n: nat, rest: seq<Event>): seq<Event> {
    if n == 0 then rest else [TxSwap] + Swaps(n - 1, rest)
  }

  /** The state after the swaps that are left to do. */
  lemma {:induction false} SwapAll(s: State, es: seq<Event>) returns (s': State)
    requires s.txPc.TxSwapping? && s.txPc.i <= |s.txBufs|
    ensures s' == s.(txPc := TxSwapping(|s.txBufs|), data := s'.data)
    ensures IsRun(s', es) ==>
              && IsRun(s, Swaps(|s.txBufs| - s.txPc.i, es))
              && End(s, Swaps(|s.txBufs| - s.txPc.i, es)) == End(s', es)
    decreases |s.txBufs| - s.txPc.i
  {
    if s.txPc.i == |s.txBufs| {
      s' := s;
    } else {
      var s1 := Apply(s, TxSwap);
      s' := SwapAll(s1, es);
      if IsRun(s', es) {
        Prepend(s, TxSwap, Swaps(|s1.txBufs| - s1.txPc.i, es));
      }
    }
  }

  /** A round of the TX core that the NIC takes whole: it hands the burst from the ring to the transmit
      queue, counts it and drops nothing. */
  lemma TxRound(s: State, n: nat)
    requires s.txPc.TxHead? && !s.quit && 0 < n <= BURST_SIZE && n <= |s.ring|
    ensures var es := [TxCheck] + ([TxDequeue(n)] + Swaps(n, [TxBurst(n), TxCount]));
            && IsRun(s, es)
            && var s' := End(s, es);
            && s'.ring == s.ring[n..] && s'.nicTx == s.nicTx + s.ring[..n]
            && s'.txPackets == Wrap64(s.txPackets + n) && s'.txPc.TxHead?
            && s' == s.(ring := s'.ring, nicTx := s'.nicTx, txPackets := s'.txPackets, txPc := s'.txPc,
                        txBufs := s'.txBufs, data := s'.data, sent := s'.sent, sentNumbers := s'.sentNumbers,
                        numbers := s'.numbers)
  {
    var s1 := Apply(s, TxCheck);
    var s' := TxForward(Apply(s1, TxDequeue(n)), n);
    Prepend(s1, TxDequeue(n), Swaps(n, [TxBurst(n), TxCount]));
    Prepend(s, TxCheck, [TxDequeue(n)] + Swaps(n, [TxBurst(n), TxCount]));
  }

  lemma TxForward(s: State, n: nat) returns (s': State)
    requires s.txPc == TxSwapping(0) && |s.txBufs| == n
    ensures IsRun(s, Swaps(n, [TxBurst(n), TxCount])) && End(s, Swaps(n, [TxBurst(n), TxCount])) == s'
    ensures s' == s.(nicTx := s.nicTx + s.txBufs, txPackets := Wrap64(s.txPackets + n), txPc := TxHead,
                     data := s'.data, sent := s'.sent, sentNumbers := s'.sentNumbers, numbers := s'.numbers)
  {
    var s1 := SwapAll(s, [TxBurst(n), TxCount]);
    TxHandOver(s1, n);
    s' := End(s1, [TxBurst(n), TxCount]);
  }

  lemma TxHandOver(s: State, n: nat)
    requires s.txPc == TxSwapping(n) && |s.txBufs| == n
    ensures IsRun(s, [TxBurst(n), TxCount])
    ensures var s' := End(s, [TxBurst(n), TxCount]);
            s' == s.(nicTx := s.nicTx + s.txBufs, txPackets := Wrap64(s.txPackets + n), txPc := TxHead,
                     sent := s'.sent, sentNumbers := s'.sentNumbers, numbers := s'.numbers)
  {
    var s1 := Apply(s, TxBurst(n));
    assert s.txBufs[..n] == s.txBufs;
    Prepend(s1, TxCount, []);
    Prepend(s, TxBurst(n), [TxCount]);
  }

  // ---------------------------------------------------------------- the balance

  /** rx_packets accounts for every packet: counted as sent, dropped, queued, or held locally. */
  ghost predicate Balanced(s: State) {
    s.rxPackets == Wrap64(s.txPackets + s.rxDrops + s.txDrops + |s.ring| + |RxOwned(s)| + |TxOwned(s)|
                          + Pending(s) - Uncounted(s))
  }

  /** At every step the counters balance, modulo 2^64, against drops, ring and local bursts. */
  lemma CountersBalance(s0: State, es: seq<Event>)
    requires Init(s0) && IsRun(s0, es)
    ensures Balanced(End(s0, es))
  {
    RunCounted(s0, es);
    Balance(End(s0, es));
  }

  lemma RunCounted(s0: State, es: seq<Event>)
    requires Init(s0) && IsRun(s0, es)
    ensures PcOk(End(s0, es)) && Conserved(End(s0, es)) && Counted(End(s0, es))
  {
    InitInv(s0);
    RunInv(s0, es);
  }

  lemma Balance(s: State)
    requires PcOk(s) && Counted(s)
    ensures Balanced(s)
  {
    var rest := s.rxDrops + s.txDrops + |s.ring| + |RxOwned(s)| + |TxOwned(s)| + Pending(s) - Uncounted(s);
    assert |Flight(s)| == |s.ring| + |RxOwned(s)| + |TxOwned(s)|;
    Wrap64Add(|s.sent| - Pending(s), rest);
  }

  // ---------------------------------------------------------------- stopping

  /** Steps the RX (TX) core still takes once force_quit is set. */
  function RxRank(s: State): int {
    match s.rxPc
    case RxDone => 0
    case RxHead => 1
    case RxFreeing(i) => |s.rxBufs| - i + 2
    case RxCounted => |s.rxBufs| + 3
    case RxGot => |s.rxBufs| + 4
    case RxPoll => BURST_SIZE + 5
  }

  function TxRank(s: State): int {
    match s.txPc
    case TxDone => 0
    case TxHead => 1
    case TxFreeing(_, i) => |s.txBufs| - i + 2
    case TxSwapping(i) => 2 * |s.txBufs| - i + 3
    case TxPoll => 2 * BURST_SIZE + 4
  }

  predicate OfRx(e: Event) {
    e.RxCheck? || e.RxBurst? || e.RxCount? || e.RxEnqueue? || e.RxFree? || e.RxNext?
  }

  predicate OfTx(e: Event) {
    e.TxCheck? || e.TxDequeue? || e.TxSwap? || e.TxBurst? || e.TxFree? || e.TxCount?
  }

  function StepsOf(es: seq<Event>, rx: bool): nat {
    if es == [] then 0 else (if (if rx then OfRx(es[0]) else OfTx(es[0])) then 1 else 0) + StepsOf(es[1..], rx)
  }

  lemma RankStep(s: State, e: Event)
    requires PcOk(s) && Enabled(s, e) && s.quit
    ensures Apply(s, e).quit
    ensures RxRank(Apply(s, e)) + (if OfRx(e) then 1 else 0) <= RxRank(s)
    ensures TxRank(Apply(s, e)) + (if OfTx(e) then 1 else 0) <= TxRank(s)
  {
  }

  /** force_quit is set exactly when a signal has come. */
  lemma {:induction false} QuitIffSignalled(s: State, es: seq<Event>)
    requires IsRun(s, es)
    ensures End(s, es).quit <==> s.quit || Signal in es
    decreases |es|
  {
    if es == [] {
    } else {
      assert es == [es[0]] + es[1..];
      StepQuit(s, es[0]);
      QuitIffSignalled(Apply(s, es[0]), es[1..]);
    }
  }

  lemma StepQuit(s: State, e: Event)
    requires Enabled(s, e)
    ensures Apply(s, e).quit <==> s.quit || e == Signal
  {
  }

  /** A core that has not left its loop can always take a step, and a core that has cannot. */
  lemma UnfinishedCoreCanStep(s: State)
    requires PcOk(s)
    ensures (exists e: Event :: OfRx(e) && Enabled(s, e)) <==> RxRank(s) > 0
    ensures (exists e: Event :: OfTx(e) && Enabled(s, e)) <==> TxRank(s) > 0
    ensures RxRank(s) == 0 <==> s.rxPc.RxDone?
    ensures TxRank(s) == 0 <==> s.txPc.TxDone?
  {
    if !s.rxPc.RxDone? {
      RxCanStep(s);
    }
    if !s.txPc.TxDone? {
      TxCanStep(s);
    }
  }

  lemma RxCanStep(s: State)
    requires PcOk(s) && !s.rxPc.RxDone?
    ensures exists e: Event :: OfRx(e) && Enabled(s, e)
  {
    var e := match s.rxPc
      case RxHead => RxCheck
      case RxPoll => RxBurst(0)
      case RxGot => RxCount
      case RxCounted => RxEnqueue(0)
      case RxFreeing(i) => if i < |s.rxBufs| then RxFree else RxNext
      case RxDone => Signal;
    assert OfRx(e) && Enabled(s, e);
  }

  lemma TxCanStep(s: State)
    requires PcOk(s) && !s.txPc.TxDone?
    ensures exists e: Event :: OfTx(e) && Enabled(s, e)
  {
    var e := match s.txPc
      case TxHead => TxCheck
      case TxPoll => TxDequeue(0)
      case TxSwapping(i) => if i < |s.txBufs| then TxSwap else TxBurst(0)
      case TxFreeing(_, i) => if i < |s.txBufs| then TxFree else TxCount
      case TxDone => Signal;
    assert OfTx(e) && Enabled(s, e);
  }

  /** Once force_quit is set, the RX core takes at most 69 more steps and the TX core at most 132,
      whatever the interleaving. */
  lemma {:induction false} QuitStopsBothCores(s: State, es: seq<Event>)
    requires Inv(s) && s.quit && IsRun(s, es)
    ensures StepsOf(es, true) <= RxRank(s) <= BURST_SIZE + 5
    ensures StepsOf(es, false) <= TxRank(s) <= 2 * BURST_SIZE + 4
    decreases |es|
  {
    if es == [] {
    } else {
      RankStep(s, es[0]);
      StepInv(s, es[0]);
      QuitStopsBothCores(Apply(s, es[0]), es[1..]);
    }
  }

  /** When both cores have left their loops nothing is held locally: every buffer is in the pool,
      in a NIC queue, or still in the ring, which is never drained. */
  lemma AtExit(s0: State, es: seq<Event>)
    requires Init(s0) && IsRun(s0, es)
    requires End(s0, es).rxPc.RxDone? && End(s0, es).txPc.TxDone?
    ensures var s := End(s0, es);
            && multiset(s.pool) + multiset(s.nicRx) + multiset(s.ring) + multiset(s.nicTx) == multiset(s.mbufs)
            && s.rxPackets == Wrap64(s.txPackets + s.rxDrops + s.txDrops + |s.ring|)
  {
    RunCounted(s0, es);
    CountersBalance(s0, es);
    NothingHeld(End(s0, es));
  }

  lemma NothingHeld(s: State)
    requires Conserved(s) && s.rxPc.RxDone? && s.txPc.TxDone?
    ensures multiset(s.pool) + multiset(s.nicRx) + multiset(s.ring) + multiset(s.nicTx) == multiset(s.mbufs)
    ensures RxOwned(s) == [] && TxOwned(s) == [] && Pending(s) == 0 && Uncounted(s) == 0
  {
    assert Flight(s) == s.ring;
  }
}
