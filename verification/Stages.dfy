// The five-stage pipeline of RING_BUFFER_DESIGN.md: RX, DPI, QoE, UBB and TX cores joined by four
// rings. A core passes its burst on once and ignores how much of it was accepted, so packets can be
// lost; none is ever transmitted twice.
//
// The rings are bounded FIFOs, as MpmcRing shows of every run of a ring: a burst leaves a ring and
// enters the next in one step each. Packets are numbered in the order they are received.

module Stages {

  const RX: nat := 0
  const TX: nat := 4
  const BURST: nat := 64

  /** Entries a ring of 4096 slots can hold. */
  const CAPACITY: nat := 4095

  /** `stage[t]` is the stage core t works for and `bursts[t]` its local array, empty at its loop head.
      A core of stage k takes from ring k - 1 and passes to ring k. The last two are history: the
      packets that were not accepted, whose buffers nobody holds any more, and for each packet the
      stages of the cores that have held it. */
  datatype State = State(
    stage: seq<nat>, bursts: seq<seq<nat>>, rings: seq<seq<nat>>,
    received: nat, sent: seq<nat>, lost: seq<nat>, trail: map<nat, seq<nat>>)

  /** Fill the local array; pass it on, with n packets accepted. */
  datatype Event = Fetch(t: nat, n: nat) | Pass(t: nat, n: nat)

  predicate WellFormed(s: State) {
    && |s.bursts| == |s.stage| && |s.rings| == TX
    && (forall t | 0 <= t < |s.stage| :: s.stage[t] <= TX && |s.bursts[t]| <= BURST)
    && (forall k | 0 <= k < TX :: |s.rings[k]| <= CAPACITY)
  }

  /** One RX and one TX core, as their rings' flags say, and any number of others. */
  predicate Init(s: State) {
    && WellFormed(s)
    && (forall t, u | 0 <= t < u < |s.stage| :: s.stage[t] == s.stage[u] ==> RX < s.stage[t] < TX)
    && (forall t | 0 <= t < |s.bursts| :: s.bursts[t] == [])
    && (forall k | 0 <= k < |s.rings| :: s.rings[k] == [])
    && s.received == 0 && s.sent == [] && s.lost == [] && s.trail == map[]
  }

  predicate Enabled(s: State, e: Event)
    requires WellFormed(s)
  {
    && e.t < |s.stage|
    && var k, burst := s.stage[e.t], s.bursts[e.t];
    match e
    case Fetch(_, n) => burst == [] && n <= BURST && (k == RX || n <= |s.rings[k - 1]|)
    case Pass(_, n) => burst != [] && n <= |burst| && (k == TX || |s.rings[k]| + n <= CAPACITY)
  }

  function Numbers(from: nat, n: nat): (ns: seq<nat>)
    ensures |ns| == n
  {
    if n == 0 then [] else Numbers(from, n - 1) + [from + n - 1]
  }

  /** The packets of a burst have come to a core of stage k. */
  function Visited(trail: map<nat, seq<nat>>, burst: seq<nat>, k: nat): (trail': map<nat, seq<nat>>)
    ensures trail'.Keys == trail.Keys + (set p <- burst)
    ensures forall p <- trail' :: trail'[p] == (if p in trail then trail[p] else []) + (if p in burst then [k] else [])
  {
    map p | p in trail.Keys + (set q <- burst) ::
      (if p in trail then trail[p] else []) + (if p in burst then [k] else [])
  }

  function Apply(s: State, e: Event): (s': State)
    requires WellFormed(s) && Enabled(s, e)
    ensures WellFormed(s')
  {
    var k, burst := s.stage[e.t], s.bursts[e.t];
    match e
    case Fetch(t, n) =>
      if k == RX then
        var burst := Numbers(s.received, n);
        s.(bursts := s.bursts[t := burst], received := s.received + n, trail := Visited(s.trail, burst, k))
      else
        var ring := s.rings[k - 1];
        s.(bursts := s.bursts[t := ring[..n]], rings := s.rings[k - 1 := ring[n..]],
           trail := Visited(s.trail, ring[..n], k))
    case Pass(t, n) =>
      var s1 := s.(bursts := s.bursts[t := []], lost := s.lost + burst[n..]);
      if k == TX then s1.(sent := s.sent + burst[..n])
      else s1.(rings := s.rings[k := s.rings[k] + burst[..n]])
  }

  predicate IsRun(s: State, es: seq<Event>)
    requires WellFormed(s)
    decreases |es|
  {
    es == [] || (Enabled(s, es[0]) && IsRun(Apply(s, es[0]), es[1..]))
  }

  function End(s: State, es: seq<Event>): (s': State)
    requires WellFormed(s) && IsRun(s, es)
    ensures WellFormed(s')
    decreases |es|
  {
    if es == [] then s else End(Apply(s, es[0]), es[1..])
  }

  // ---------------------------------------------------------------- one place per packet

  ghost function Times(xs: seq<nat>, p: nat): nat {
    multiset(xs)[p]
  }

  /** How often a packet is in a list of bursts or rings. */
  ghost function TimesIn(xss: seq<seq<nat>>, p: nat): nat {
    if xss == [] then 0 else TimesIn(xss[..|xss| - 1], p) + Times(xss[|xss| - 1], p)
  }

  lemma TimesAppend(a: seq<nat>, b: seq<nat>, p: nat)
    ensures Times(a + b, p) == Times(a, p) + Times(b, p)
  {
  }

  lemma TimesSplit(xs: seq<nat>, n: nat, p: nat)
    requires n <= |xs|
    ensures Times(xs[..n], p) + Times(xs[n..], p) == Times(xs, p)
  {
    assert xs == xs[..n] + xs[n..];
  }

  lemma {:induction false} TimesUpdate(xss: seq<seq<nat>>, i: nat, xs: seq<nat>, p: nat)
    requires i < |xss|
    ensures TimesIn(xss[i := xs], p) == TimesIn(xss, p) - Times(xss[i], p) + Times(xs, p)
    decreases |xss|
  {
    var before := xss[..|xss| - 1];
    if i == |xss| - 1 {
      assert xss[i := xs][..|xss| - 1] == before;
    } else {
      TimesUpdate(before, i, xs, p);
      assert xss[i := xs][..|xss| - 1] == before[i := xs];
    }
  }

  lemma {:induction false} TimesNone(xss: seq<seq<nat>>, p: nat)
    requires forall i | 0 <= i < |xss| :: xss[i] == []
    ensures TimesIn(xss, p) == 0
    decreases |xss|
  {
    if xss == [] {
    } else {
      TimesNone(xss[..|xss| - 1], p);
    }
  }

  lemma {:induction false} TimesNumbers(from: nat, n: nat, p: nat)
    ensures Times(Numbers(from, n), p) == if from <= p < from + n then 1 else 0
    decreases n
  {
    if n == 0 {
    } else {
      TimesNumbers(from, n - 1, p);
      TimesAppend(Numbers(from, n - 1), [from + n - 1], p);
    }
  }

  /** In how many places a packet is. */
  ghost function Places(s: State, p: nat): nat {
    TimesIn(s.bursts, p) + TimesIn(s.rings, p) + Times(s.sent, p) + Times(s.lost, p)
  }

  /** A packet received is in one local array, one ring, transmitted or lost: exactly once. */
  ghost predicate Accounted(s: State) {
    forall p: nat :: Places(s, p) == if p < s.received then 1 else 0
  }

  lemma ReceivePlaces(s: State, t: nat, n: nat, p: nat)
    requires WellFormed(s) && Enabled(s, Fetch(t, n)) && s.stage[t] == RX
    ensures Places(Apply(s, Fetch(t, n)), p) == Places(s, p) + if s.received <= p < s.received + n then 1 else 0
  {
    TimesUpdate(s.bursts, t, Numbers(s.received, n), p);
    TimesNumbers(s.received, n, p);
  }

  lemma TakePlaces(s: State, t: nat, n: nat, p: nat)
    requires WellFormed(s) && Enabled(s, Fetch(t, n)) && s.stage[t] != RX
    ensures Places(Apply(s, Fetch(t, n)), p) == Places(s, p)
  {
    var ring := s.rings[s.stage[t] - 1];
    TimesUpdate(s.bursts, t, ring[..n], p);
    TimesUpdate(s.rings, s.stage[t] - 1, ring[n..], p);
    TimesSplit(ring, n, p);
  }

  lemma PassPlaces(s: State, t: nat, n: nat, p: nat)
    requires WellFormed(s) && Enabled(s, Pass(t, n))
    ensures Places(Apply(s, Pass(t, n)), p) == Places(s, p)
  {
    var k, burst := s.stage[t], s.bursts[t];
    TimesUpdate(s.bursts, t, [], p);
    TimesSplit(burst, n, p);
    TimesAppend(s.lost, burst[n..], p);
    if k == TX {
      TimesAppend(s.sent, burst[..n], p);
    } else {
      TimesUpdate(s.rings, k, s.rings[k] + burst[..n], p);
      TimesAppend(s.rings[k], burst[..n], p);
    }
  }

  lemma StepAccounted(s: State, e: Event)
    requires WellFormed(s) && Accounted(s) && Enabled(s, e)
    ensures Accounted(Apply(s, e))
  {
    forall p: nat
      ensures Places(Apply(s, e), p) == if p < Apply(s, e).received then 1 else 0
    {
      match e
      case Fetch(t, n) => if s.stage[t] == RX { ReceivePlaces(s, t, n, p); } else { TakePlaces(s, t, n, p); }
      case Pass(t, n) => PassPlaces(s, t, n, p);
    }
  }

  lemma {:induction false} RunAccounted(s: State, es: seq<Event>)
    requires WellFormed(s) && Accounted(s) && IsRun(s, es)
    ensures Accounted(End(s, es))
    decreases |es|
  {
    if es == [] {
    } else {
      StepAccounted(s, es[0]);
      RunAccounted(Apply(s, es[0]), es[1..]);
    }
  }

  lemma InitAccounted(s: State)
    requires Init(s)
    ensures Accounted(s)
  {
    forall p: nat
      ensures Places(s, p) == 0
    {
      TimesNone(s.bursts, p);
      TimesNone(s.rings, p);
    }
  }

  lemma TwiceInSeq(xs: seq<nat>, i: nat, j: nat)
    requires i < j < |xs| && xs[i] == xs[j]
    ensures Times(xs, xs[i]) >= 2
  {
    assert xs == xs[..j] + [xs[j]] + xs[j + 1..];
    assert xs[..j][i] == xs[i] && xs[i] in multiset(xs[..j]);
  }

  /** In every interleaving of any number of cores, and however much of each burst is accepted, no
      packet is transmitted twice, only received packets are transmitted, and a packet transmitted is
      nowhere else: neither lost nor still on its way. */
  lemma TransmittedAtMostOnce(s0: State, es: seq<Event>)
    requires Init(s0) && IsRun(s0, es)
    ensures var s := End(s0, es);
            && (forall i, j | 0 <= i < j < |s.sent| :: s.sent[i] != s.sent[j])
            && (forall p <- s.sent :: p < s.received && p !in s.lost && TimesIn(s.rings, p) == TimesIn(s.bursts, p) == 0)
  {
    InitAccounted(s0);
    RunAccounted(s0, es);
    var s := End(s0, es);
    forall p <- s.sent
      ensures p < s.received && Times(s.sent, p) == 1 && p !in s.lost && TimesIn(s.rings, p) == TimesIn(s.bursts, p) == 0
    {
      SentOnce(s, p);
    }
    forall i, j | 0 <= i < j < |s.sent|
      ensures s.sent[i] != s.sent[j]
    {
      SentOnce(s, s.sent[i]);
      if s.sent[i] == s.sent[j] {
        TwiceInSeq(s.sent, i, j);
      }
    }
  }

  lemma SentOnce(s: State, p: nat)
    requires Accounted(s) && p in s.sent
    ensures p < s.received && Times(s.sent, p) == 1 && p !in s.lost && TimesIn(s.rings, p) == TimesIn(s.bursts, p) == 0
  {
    assert Places(s, p) <= 1;
    assert p in multiset(s.sent);
    assert p in s.lost <==> p in multiset(s.lost);
  }

  /** Every packet received is in exactly one place at every step, and no other packet is anywhere. */
  lemma NoneUnaccounted(s0: State, es: seq<Event>)
    requires Init(s0) && IsRun(s0, es)
    ensures var s := End(s0, es);
            forall p: nat :: TimesIn(s.bursts, p) + TimesIn(s.rings, p) + Times(s.sent, p) + Times(s.lost, p)
                             == if p < s.received then 1 else 0
  {
    InitAccounted(s0);
    RunAccounted(s0, es);
    var s := End(s0, es);
    forall p: nat
      ensures TimesIn(s.bursts, p) + TimesIn(s.rings, p) + Times(s.sent, p) + Times(s.lost, p)
              == if p < s.received then 1 else 0
    {
      assert Places(s, p) == if p < s.received then 1 else 0;
    }
  }

  // ---------------------------------------------------------------- the way of a packet

  /** The stages up to k, in order. */
  function UpTo(k: nat): seq<nat> {
    if k == 0 then [RX] else UpTo(k - 1) + [k]
  }

  ghost predicate Trailed(s: State, ps: seq<nat>, k: nat) {
    forall p <- ps :: p in s.trail && s.trail[p] == UpTo(k)
  }

  /** A packet held by a core of stage k, or in ring k, has been at every stage up to k, in order and
      once; one transmitted, at all five. */
  ghost predicate OnTheWay(s: State)
    requires WellFormed(s)
  {
    && (forall t | 0 <= t < |s.stage| :: Trailed(s, s.bursts[t], s.stage[t]))
    && (forall k | 0 <= k < TX :: Trailed(s, s.rings[k], k))
    && Trailed(s, s.sent, TX)
    && (forall p <- s.trail :: p < s.received)
  }

  lemma {:induction false} NumbersRange(from: nat, n: nat)
    ensures forall p <- Numbers(from, n) :: from <= p < from + n
    decreases n
  {
    if n == 0 {
    } else {
      NumbersRange(from, n - 1);
    }
  }

  lemma ReceiveOnTheWay(s: State, t: nat, n: nat)
    requires WellFormed(s) && OnTheWay(s) && Enabled(s, Fetch(t, n)) && s.stage[t] == RX
    ensures OnTheWay(Apply(s, Fetch(t, n)))
  {
    var s' := Apply(s, Fetch(t, n));
    NumbersRange(s.received, n);
    forall p <- s.trail
      ensures p in s'.trail && s'.trail[p] == s.trail[p]
    {
    }
    forall p <- s'.trail
      ensures p < s'.received
    {
    }
  }

  /** A packet taken from a ring is in no other place, so no other trail grows. */
  lemma TakenAlone(s: State, k: nat, n: nat, p: nat)
    requires WellFormed(s) && Accounted(s) && k < TX && n <= |s.rings[k]| && p in s.rings[k][..n]
    ensures p !in s.rings[k][n..] && p !in s.sent
    ensures forall j | 0 <= j < TX && j != k :: p !in s.rings[j]
    ensures forall t | 0 <= t < |s.bursts| :: p !in s.bursts[t]
  {
    TimesSplit(s.rings[k], n, p);
    assert p in multiset(s.rings[k][..n]);
    TimesAt(s.rings, k, p);
    assert Places(s, p) <= 1;
    assert p in s.rings[k][n..] <==> p in multiset(s.rings[k][n..]);
    assert p in s.sent <==> p in multiset(s.sent);
    forall j | 0 <= j < TX && j != k
      ensures p !in s.rings[j]
    {
      TimesTwo(s.rings, k, j, p);
      assert p in s.rings[j] <==> p in multiset(s.rings[j]);
    }
    forall t | 0 <= t < |s.bursts|
      ensures p !in s.bursts[t]
    {
      TimesAt(s.bursts, t, p);
      assert p in s.bursts[t] <==> p in multiset(s.bursts[t]);
    }
  }

  lemma TimesAt(xss: seq<seq<nat>>, i: nat, p: nat)
    requires i < |xss|
    ensures Times(xss[i], p) <= TimesIn(xss, p)
  {
    TimesUpdate(xss, i, [], p);
  }

  lemma TimesTwo(xss: seq<seq<nat>>, i: nat, j: nat, p: nat)
    requires i < |xss| && j < |xss| && i != j
    ensures Times(xss[i], p) + Times(xss[j], p) <= TimesIn(xss, p)
  {
    TimesUpdate(xss, i, [], p);
    TimesAt(xss[i := []], j, p);
  }

  lemma TakeOnTheWay(s: State, t: nat, n: nat)
    requires WellFormed(s) && Accounted(s) && OnTheWay(s) && Enabled(s, Fetch(t, n)) && s.stage[t] != RX
    ensures OnTheWay(Apply(s, Fetch(t, n)))
  {
    var s' := Apply(s, Fetch(t, n));
    var k := s.stage[t] - 1;
    forall p <- s.rings[k][..n]
      ensures p !in s.rings[k][n..] && p !in s.sent && p in s.trail && s.trail[p] == UpTo(k)
      ensures forall j | 0 <= j < TX && j != k :: p !in s.rings[j]
      ensures forall u | 0 <= u < |s.bursts| :: p !in s.bursts[u]
    {
      TakenAlone(s, k, n, p);
      assert p in s.rings[k];
    }
    OthersTrailed(s, s', t, n);
    assert Trailed(s', s'.bursts[t], s.stage[t]);
  }

  lemma OthersTrailed(s: State, s': State, t: nat, n: nat)
    requires WellFormed(s) && OnTheWay(s) && Enabled(s, Fetch(t, n)) && s.stage[t] != RX && s' == Apply(s, Fetch(t, n))
    requires forall p <- s.rings[s.stage[t] - 1][..n] :: p !in s.rings[s.stage[t] - 1][n..] && p !in s.sent
    requires forall p <- s.rings[s.stage[t] - 1][..n], j | 0 <= j < TX && j != s.stage[t] - 1 :: p !in s.rings[j]
    requires forall p <- s.rings[s.stage[t] - 1][..n], u | 0 <= u < |s.bursts| :: p !in s.bursts[u]
    ensures forall u | 0 <= u < |s.stage| && u != t :: Trailed(s', s'.bursts[u], s.stage[u])
    ensures forall k | 0 <= k < TX :: Trailed(s', s'.rings[k], k)
    ensures Trailed(s', s'.sent, TX)
    ensures forall p <- s'.trail :: p < s'.received
  {
    var k, ring := s.stage[t] - 1, s.rings[s.stage[t] - 1];
    assert forall p <- ring[..n] :: p in ring;
    forall u | 0 <= u < |s.stage| && u != t
      ensures Trailed(s', s'.bursts[u], s.stage[u])
    {
      TrailKept(s, s', ring[..n], s.stage[t], s.bursts[u], s.stage[u]);
    }
    forall j | 0 <= j < TX
      ensures Trailed(s', s'.rings[j], j)
    {
      assert Trailed(s, s.rings[j], j);
      assert forall p <- s'.rings[j] :: p in s.rings[j];
      TrailKept(s, s', ring[..n], s.stage[t], s'.rings[j], j);
    }
    TrailKept(s, s', ring[..n], s.stage[t], s.sent, TX);
  }

  /** Packets that are not in the burst just fetched keep their trails. */
  lemma TrailKept(s: State, s': State, burst: seq<nat>, stage: nat, ps: seq<nat>, k: nat)
    requires s'.trail == Visited(s.trail, burst, stage) && Trailed(s, ps, k) && forall p <- ps :: p !in burst
    ensures Trailed(s', ps, k)
  {
  }

  lemma PassOnTheWay(s: State, t: nat, n: nat)
    requires WellFormed(s) && OnTheWay(s) && Enabled(s, Pass(t, n))
    ensures OnTheWay(Apply(s, Pass(t, n)))
  {
    var burst := s.bursts[t];
    assert forall p <- burst[..n] :: p in burst;
  }

  lemma {:induction false} RunOnTheWay(s: State, es: seq<Event>)
    requires WellFormed(s) && Accounted(s) && OnTheWay(s) && IsRun(s, es)
    ensures OnTheWay(End(s, es))
    decreases |es|
  {
    if es == [] {
    } else {
      StepAccounted(s, es[0]);
      match es[0] {
        case Fetch(t, n) => if s.stage[t] == RX { ReceiveOnTheWay(s, t, n); } else { TakeOnTheWay(s, t, n); }
        case Pass(t, n) => PassOnTheWay(s, t, n);
      }
      RunOnTheWay(Apply(s, es[0]), es[1..]);
    }
  }

  /** Every packet transmitted has been held by an RX, a DPI, a QoE, a UBB and a TX core, in this order
      and once each. */
  lemma EveryStageInOrder(s0: State, es: seq<Event>)
    requires Init(s0) && IsRun(s0, es)
    ensures forall p <- End(s0, es).sent :: p in End(s0, es).trail && End(s0, es).trail[p] == [0, 1, 2, 3, 4]
  {
    InitAccounted(s0);
    RunOnTheWay(s0, es);
    assert UpTo(4) == [0, 1, 2, 3, 4] by {
      assert UpTo(0) == [0] && UpTo(1) == [0, 1] && UpTo(2) == [0, 1, 2];
    }
  }

  // ---------------------------------------------------------------- what is lost

  /** Every burst of the run is accepted whole. */
  predicate AllAccepted(s: State, es: seq<Event>)
    requires WellFormed(s) && IsRun(s, es)
    decreases |es|
  {
    es == [] ||
    ((es[0].Pass? ==> es[0].n == |s.bursts[es[0].t]|) && AllAccepted(Apply(s, es[0]), es[1..]))
  }

  lemma {:induction false} LostGrows(s: State, es: seq<Event>)
    requires WellFormed(s) && IsRun(s, es)
    ensures s.lost <= End(s, es).lost
    decreases |es|
  {
    if es == [] {
    } else {
      LostGrows(Apply(s, es[0]), es[1..]);
    }
  }

  /** Nothing is lost if and only if every ring and the NIC accept every burst whole. */
  lemma {:induction false} NothingLostIff(s: State, es: seq<Event>)
    requires WellFormed(s) && IsRun(s, es) && s.lost == []
    ensures End(s, es).lost == [] <==> AllAccepted(s, es)
    decreases |es|
  {
    if es == [] {
    } else {
      var s1 := Apply(s, es[0]);
      if s1.lost == [] {
        NothingLostIff(s1, es[1..]);
      } else {
        LostGrows(s1, es[1..]);
      }
    }
  }

  /** A run of two steps that loses a buffer: one packet received, and none of it accepted. */
  lemma RefusedBurstIsLost(s0: State, t: nat) returns (es: seq<Event>)
    requires Init(s0) && t < |s0.stage| && s0.stage[t] == RX
    ensures IsRun(s0, es) && End(s0, es).lost == [0] && End(s0, es).received == 1
  {
    var fetch, pass := Fetch(t, 1), Pass(t, 0);
    var s1 := Apply(s0, fetch);
    assert Numbers(0, 1) == [0] by {
      assert Numbers(0, 0) == [];
    }
    assert s1.bursts[t] == [0];
    var s2 := Apply(s1, pass);
    assert s2.lost == [0];
    es := [fetch, pass];
    assert es[1..] == [pass] && [pass][1..] == [];
    assert IsRun(s2, []) && End(s2, []) == s2;
    assert IsRun(s1, [pass]) && End(s1, [pass]) == s2;
  }
}
