// The multi-producer enqueue and multi-consumer dequeue of RING_BUFFER_DESIGN.md, exactly as
// sketched there: no clamp to free or available entries, no mask, cons.tail never advanced, and
// prod.tail stored without waiting for earlier producers. Indices are unbounded.

module CasSketch {
  import opened Basics
  import opened BoundedFifo

  type Tid = nat

  /** What a consumer finds in a slot: an object, or whatever was there before any producer wrote. */
  datatype Cell = Garbage | Object(obj: Mbuf)

  datatype Pc =
    | Idle
    | EnqCalled(objs: seq<Mbuf>)
    | EnqRead(objs: seq<Mbuf>, oldHead: nat)
    | EnqCopy(objs: seq<Mbuf>, oldHead: nat, done: nat)
    | DeqCalled(count: nat)
    | DeqRead(count: nat, oldHead: nat)
    | DeqCopy(oldHead: nat, count: nat, got: seq<Cell>)

  /** The interval [lo, hi) a thread won with one successful compare-and-swap. */
  datatype Claim = Claim(t: Tid, lo: nat, hi: nat)

  /** Shared ring, threads, and history: the successful claims in order, `log[k]` the object a
      producer claimed index k for, and what consumers read at each index. */
  datatype State = State(
    slots: map<nat, Mbuf>,
    prodHead: nat, prodTail: nat, consHead: nat,
    threads: map<Tid, Pc>,
    prodClaims: seq<Claim>, consClaims: seq<Claim>,
    log: seq<Mbuf>, takers: seq<Tid>, delivered: map<nat, Cell>, copies: nat)

  datatype Event =
    | CallEnq(t: Tid, objs: seq<Mbuf>)
    | CallDeq(t: Tid, count: nat)
    | ReadHead(t: Tid)
    | Cas(t: Tid)
    | Copy(t: Tid)
    | Finish(t: Tid)

  predicate Init(s: State) {
    && s.slots == map[] && s.prodHead == s.prodTail == s.consHead == 0
    && (forall t <- s.threads :: s.threads[t] == Idle)
    && s.prodClaims == [] && s.consClaims == [] && s.log == [] && s.takers == []
    && s.delivered == map[] && s.copies == 0
  }

  predicate Enabled(s: State, e: Event) {
    e.t in s.threads &&
    var pc := s.threads[e.t];
    match e
    case CallEnq(_, _) => pc.Idle?
    case CallDeq(_, _) => pc.Idle?
    case ReadHead(_) => pc.EnqCalled? || pc.DeqCalled?
    case Cas(_) => pc.EnqRead? || pc.DeqRead?
    case Copy(_) => (pc.EnqCopy? && pc.done < |pc.objs|) || (pc.DeqCopy? && |pc.got| < pc.count)
    case Finish(_) => (pc.EnqCopy? && pc.done == |pc.objs|) || (pc.DeqCopy? && |pc.got| == pc.count)
  }

  function Goto(s: State, t: Tid, pc: Pc): State {
    s.(threads := s.threads[t := pc])
  }

  function ApplyCas(s: State, t: Tid): State
    requires Enabled(s, Cas(t))
  {
    match s.threads[t]
    case EnqRead(objs, oldHead) =>
      var newHead := oldHead + |objs|;
      if s.prodHead == oldHead then
        Goto(s, t, EnqCopy(objs, oldHead, 0))
          .(prodHead := newHead, prodClaims := s.prodClaims + [Claim(t, oldHead, newHead)], log := s.log + objs)
      else
        Goto(s, t, EnqCalled(objs))
    case DeqRead(count, oldHead) =>
      var newHead := oldHead + count;
      if s.consHead == oldHead then
        Goto(s, t, DeqCopy(oldHead, count, []))
          .(consHead := newHead, consClaims := s.consClaims + [Claim(t, oldHead, newHead)],
            takers := s.takers + seq(count, i => t))
      else
        Goto(s, t, DeqCalled(count))
  }

  function CellAt(s: State, k: nat): Cell {
    if k in s.slots then Object(s.slots[k]) else Garbage
  }

  function ApplyCopy(s: State, t: Tid): State
    requires Enabled(s, Copy(t))
  {
    match s.threads[t]
    case EnqCopy(objs, oldHead, done) =>
      Goto(s, t, EnqCopy(objs, oldHead, done + 1)).(slots := s.slots[oldHead + done := objs[done]])
    case DeqCopy(oldHead, count, got) =>
      var k := oldHead + |got|;
      Goto(s, t, DeqCopy(oldHead, count, got + [CellAt(s, k)]))
        .(delivered := s.delivered[k := CellAt(s, k)], copies := s.copies + 1)
  }

  function Apply(s: State, e: Event): State
    requires Enabled(s, e)
  {
    match e
    case CallEnq(t, objs) => Goto(s, t, EnqCalled(objs))
    case CallDeq(t, count) => Goto(s, t, DeqCalled(count))
    case ReadHead(t) =>
      (match s.threads[t]
       case EnqCalled(objs) => Goto(s, t, EnqRead(objs, s.prodHead))
       case DeqCalled(count) => Goto(s, t, DeqRead(count, s.consHead)))
    case Cas(t) => ApplyCas(s, t)
    case Copy(t) => ApplyCopy(s, t)
    case Finish(t) =>
      if s.threads[t].EnqCopy? then
        Goto(s, t, Idle).(prodTail := s.threads[t].oldHead + |s.threads[t].objs|)
      else
        Goto(s, t, Idle)
  }

  predicate IsRun(s: State, es: seq<Event>)
    decreases |es|
  {
    es == [] || (Enabled(s, es[0]) && IsRun(Apply(s, es[0]), es[1..]))
  }

  function End(s: State, es: seq<Event>): State
    requires IsRun(s, es)
    decreases |es|
  {
    if es == [] then s else End(Apply(s, es[0]), es[1..])
  }

  // ---------------------------------------------------------------- claims tile the index space

  /** Consecutive intervals from 0 to `head`, without gap or overlap. */
  predicate Tiles(claims: seq<Claim>, head: nat) {
    && (claims == [] ==> head == 0)
    && (claims != [] ==> claims[0].lo == 0 && claims[|claims| - 1].hi == head)
    && (forall i | 0 <= i < |claims| :: claims[i].lo <= claims[i].hi)
    && (forall i | 0 < i < |claims| :: claims[i - 1].hi == claims[i].lo)
  }

  predicate Covers(c: Claim, k: nat) {
    c.lo <= k < c.hi
  }

  lemma {:induction false} TilesOrdered(claims: seq<Claim>, head: nat, i: nat, j: nat)
    requires Tiles(claims, head)
    requires i < j < |claims|
    ensures claims[i].hi <= claims[j].lo
    decreases j
  {
    if i + 1 < j {
      TilesOrdered(claims, head, i, j - 1);
    }
  }

  lemma {:induction false} FindTile(claims: seq<Claim>, head: nat, k: nat, n: nat) returns (i: nat)
    requires Tiles(claims, head)
    requires 0 < n <= |claims| && k < claims[n - 1].hi
    ensures i < n && Covers(claims[i], k)
  {
    if claims[n - 1].lo <= k {
      i := n - 1;
    } else {
      i := FindTile(claims, head, k, n - 1);
    }
  }

  /** Every index below the head was won by exactly one compare-and-swap, none above it. */
  lemma TilesExactlyOnce(claims: seq<Claim>, head: nat, k: nat)
    requires Tiles(claims, head)
    ensures k < head <==> exists i :: 0 <= i < |claims| && Covers(claims[i], k)
    ensures forall i, j | 0 <= i < |claims| && 0 <= j < |claims| && Covers(claims[i], k) && Covers(claims[j], k) :: i == j
  {
    if k < head {
      var i := FindTile(claims, head, k, |claims|);
    }
    forall i | 0 <= i < |claims| && Covers(claims[i], k)
      ensures k < head
    {
      if i < |claims| - 1 {
        TilesOrdered(claims, head, i, |claims| - 1);
      }
    }
    forall i, j | 0 <= i < j < |claims|
      ensures !(Covers(claims[i], k) && Covers(claims[j], k))
    {
      TilesOrdered(claims, head, i, j);
    }
  }

  ghost predicate ClaimsTile(s: State) {
    Tiles(s.prodClaims, s.prodHead) && Tiles(s.consClaims, s.consHead)
  }

  /** The claims stay, or thread t has won one more at the head. */
  predicate AtMostOneMore(claims: seq<Claim>, head: nat, claims': seq<Claim>, head': nat, t: Tid) {
    || (claims' == claims && head' == head)
    || (claims' == claims + [Claim(t, head, head')] && head <= head')
  }

  lemma StepClaims(s: State, e: Event)
    requires Enabled(s, e)
    ensures var s' := Apply(s, e);
            && AtMostOneMore(s.prodClaims, s.prodHead, s'.prodClaims, s'.prodHead, e.t)
            && AtMostOneMore(s.consClaims, s.consHead, s'.consClaims, s'.consHead, e.t)
  {
  }

  lemma TilesStep(claims: seq<Claim>, head: nat, claims': seq<Claim>, head': nat, t: Tid)
    requires Tiles(claims, head) && AtMostOneMore(claims, head, claims', head', t)
    ensures Tiles(claims', head')
  {
  }

  lemma StepTiles(s: State, e: Event)
    requires ClaimsTile(s) && Enabled(s, e)
    ensures ClaimsTile(Apply(s, e))
  {
    var s' := Apply(s, e);
    StepClaims(s, e);
    TilesStep(s.prodClaims, s.prodHead, s'.prodClaims, s'.prodHead, e.t);
    TilesStep(s.consClaims, s.consHead, s'.consClaims, s'.consHead, e.t);
  }

  /** In every run, however many compare-and-swaps fail and retry, the claims of the producers
      tile [0, prod.head) and those of the consumers tile [0, cons.head). */
  lemma {:induction false} RunTiles(s: State, es: seq<Event>)
    requires ClaimsTile(s) && IsRun(s, es)
    ensures ClaimsTile(End(s, es))
    decreases |es|
  {
    if es == [] {
    } else {
      StepTiles(s, es[0]);
      RunTiles(Apply(s, es[0]), es[1..]);
    }
  }

  /** From one list of claims to a later one: only threads other than t have claimed, and the head
      has moved if and only if one of them claimed something. */
  ghost predicate OthersProgress(before: seq<Claim>, head: nat, after: seq<Claim>, head': nat, t: Tid) {
    && before <= after
    && (forall i | |before| <= i < |after| :: after[i].t != t)
    && (head' != head <==> exists i :: |before| <= i < |after| && after[i].lo < after[i].hi)
    && head <= head'
  }

  lemma ProgressTransitive(a: seq<Claim>, h: nat, b: seq<Claim>, h': nat, c: seq<Claim>, h'': nat, t: Tid)
    requires OthersProgress(a, h, b, h', t) && OthersProgress(b, h', c, h'', t)
    ensures OthersProgress(a, h, c, h'', t)
  {
    if h' != h {
      var i :| |a| <= i < |b| && b[i].lo < b[i].hi;
      assert c[i] == b[i];
    } else if h'' != h' {
      var i :| |b| <= i < |c| && c[i].lo < c[i].hi;
    } else {
      forall i | |a| <= i < |c|
        ensures c[i].lo >= c[i].hi
      {
        if i < |b| {
          assert c[i] == b[i];
        }
      }
    }
  }

  ghost predicate BothProgress(s: State, s': State, t: Tid) {
    && OthersProgress(s.prodClaims, s.prodHead, s'.prodClaims, s'.prodHead, t)
    && OthersProgress(s.consClaims, s.consHead, s'.consClaims, s'.consHead, t)
  }

  lemma OneMoreClaim(claims: seq<Claim>, head: nat, c: Claim, t: Tid)
    requires c.t != t && c.lo == head <= c.hi
    ensures OthersProgress(claims, head, claims + [c], c.hi, t)
  {
    assert (claims + [c])[|claims|] == c;
  }

  lemma StepProgress(s: State, e: Event, t: Tid)
    requires Enabled(s, e) && e.t != t && t in s.threads
    ensures t in Apply(s, e).threads && Apply(s, e).threads[t] == s.threads[t]
    ensures BothProgress(s, Apply(s, e), t)
  {
    if e.Cas? {
      match s.threads[e.t]
      case EnqRead(objs, oldHead) => OneMoreClaim(s.prodClaims, s.prodHead, Claim(e.t, s.prodHead, s.prodHead + |objs|), t);
      case DeqRead(count, oldHead) => OneMoreClaim(s.consClaims, s.consHead, Claim(e.t, s.consHead, s.consHead + count), t);
    }
  }

  lemma {:induction false} RunProgress(s: State, es: seq<Event>, t: Tid)
    requires IsRun(s, es) && t in s.threads && forall e <- es :: e.t != t
    ensures t in End(s, es).threads && End(s, es).threads[t] == s.threads[t]
    ensures BothProgress(s, End(s, es), t)
    decreases |es|
  {
    if es == [] {
    } else {
      var s1, s2 := Apply(s, es[0]), End(s, es);
      assert es[0] in es && forall e <- es[1..] :: e in es;
      StepProgress(s, es[0], t);
      RunProgress(s1, es[1..], t);
      ProgressTransitive(s.prodClaims, s.prodHead, s1.prodClaims, s1.prodHead, s2.prodClaims, s2.prodHead, t);
      ProgressTransitive(s.consClaims, s.consHead, s1.consClaims, s1.consHead, s2.consClaims, s2.consHead, t);
    }
  }

  /** Retries are lock-free: after reading the head, and whatever the other threads do meanwhile, a
      thread's compare-and-swap fails if and only if another thread has claimed something. */
  lemma RetryMeansProgress(s: State, es: seq<Event>, t: Tid)
    requires Enabled(s, ReadHead(t))
    requires IsRun(Apply(s, ReadHead(t)), es) && forall e <- es :: e.t != t
    ensures var s' := End(Apply(s, ReadHead(t)), es);
            && Enabled(s', Cas(t))
            && s.prodClaims <= s'.prodClaims && s.consClaims <= s'.consClaims
            && (s.threads[t].EnqCalled? ==>
                  (ApplyCas(s', t).threads[t] == s.threads[t] <==>
                   exists i :: |s.prodClaims| <= i < |s'.prodClaims| && s'.prodClaims[i].t != t
                               && s'.prodClaims[i].lo < s'.prodClaims[i].hi))
            && (s.threads[t].DeqCalled? ==>
                  (ApplyCas(s', t).threads[t] == s.threads[t] <==>
                   exists i :: |s.consClaims| <= i < |s'.consClaims| && s'.consClaims[i].t != t
                               && s'.consClaims[i].lo < s'.consClaims[i].hi))
  {
    RunProgress(Apply(s, ReadHead(t)), es, t);
  }

  // ---------------------------------------------------------------- what the sketch delivers

  ghost predicate PcOk(s: State, t: Tid)
    requires t in s.threads && |s.log| == s.prodHead && |s.takers| == s.consHead
  {
    match s.threads[t]
    case EnqCopy(objs, oldHead, done) =>
      && done <= |objs| && oldHead + |objs| <= s.prodHead
      && (forall k | oldHead <= k < oldHead + |objs| :: s.log[k] == objs[k - oldHead])
      && (forall k | oldHead <= k < oldHead + done :: k in s.slots)
    case DeqCopy(oldHead, count, got) =>
      && |got| <= count && oldHead + count <= s.consHead
      && (forall k | oldHead <= k < oldHead + count :: s.takers[k] == t)
      && (forall k | oldHead + |got| <= k < oldHead + count :: k !in s.delivered)
    case _ => true
  }

  ghost predicate Threads(s: State)
    requires |s.log| == s.prodHead && |s.takers| == s.consHead
  {
    forall t <- s.threads :: PcOk(s, t)
  }

  ghost predicate Contents(s: State)
    requires |s.log| == s.prodHead && |s.takers| == s.consHead
  {
    && (forall k <- s.slots :: k < s.prodHead && s.slots[k] == s.log[k])
    && (forall k <- s.delivered :: k < s.consHead)
    && (forall k <- s.delivered :: s.delivered[k].Object? ==> k < s.prodHead && s.delivered[k].obj == s.log[k])
    && s.copies == |s.delivered|
  }

  ghost predicate Inv(s: State) {
    |s.log| == s.prodHead && |s.takers| == s.consHead && Threads(s) && Contents(s)
  }

  /** A step of one thread leaves what the others rely on. */
  lemma OthersOk(s: State, s': State, t: Tid)
    requires |s.log| == s.prodHead && |s.takers| == s.consHead && Threads(s)
    requires t in s.threads && s'.threads.Keys == s.threads.Keys
    requires forall u <- s.threads :: u != t ==> s'.threads[u] == s.threads[u]
    requires s.log <= s'.log && |s'.log| == s'.prodHead
    requires s.takers <= s'.takers && |s'.takers| == s'.consHead
    requires s.slots.Keys <= s'.slots.Keys
    requires forall k <- s'.delivered :: k in s.delivered || (k < s.consHead && s.takers[k] == t)
    requires PcOk(s', t)
    ensures Threads(s')
  {
    forall u <- s'.threads
      ensures PcOk(s', u)
    {
      if u != t {
        assert PcOk(s, u);
      }
    }
  }

  lemma EnqCasInv(s: State, t: Tid)
    requires Inv(s) && Enabled(s, Cas(t)) && s.threads[t].EnqRead?
    ensures Inv(ApplyCas(s, t))
  {
    OthersOk(s, ApplyCas(s, t), t);
  }

  lemma DeqCasInv(s: State, t: Tid)
    requires Inv(s) && Enabled(s, Cas(t)) && s.threads[t].DeqRead?
    ensures Inv(ApplyCas(s, t))
  {
    OthersOk(s, ApplyCas(s, t), t);
  }

  lemma EnqCopyInv(s: State, t: Tid)
    requires Inv(s) && Enabled(s, Copy(t)) && s.threads[t].EnqCopy?
    ensures Inv(ApplyCopy(s, t))
  {
    assert PcOk(s, t);
    OthersOk(s, ApplyCopy(s, t), t);
    EnqCopyContents(s, t);
  }

  lemma EnqCopyContents(s: State, t: Tid)
    requires |s.log| == s.prodHead && |s.takers| == s.consHead && Contents(s)
    requires Enabled(s, Copy(t)) && s.threads[t].EnqCopy? && PcOk(s, t)
    ensures Contents(ApplyCopy(s, t))
  {
  }

  lemma DeqCopyInv(s: State, t: Tid)
    requires Inv(s) && Enabled(s, Copy(t)) && s.threads[t].DeqCopy?
    ensures Inv(ApplyCopy(s, t))
  {
    assert PcOk(s, t);
    OthersOk(s, ApplyCopy(s, t), t);
    DeqCopyContents(s, t);
  }

  lemma DeqCopyContents(s: State, t: Tid)
    requires |s.log| == s.prodHead && |s.takers| == s.consHead && Contents(s)
    requires Enabled(s, Copy(t)) && s.threads[t].DeqCopy? && PcOk(s, t)
    ensures Contents(ApplyCopy(s, t))
  {
    var s' := ApplyCopy(s, t);
    var k := s.threads[t].oldHead + |s.threads[t].got|;
    OneMoreKey(s.delivered, k, CellAt(s, k));
    assert s'.delivered == s.delivered[k := CellAt(s, k)] && s'.slots == s.slots;
  }

  lemma StepInv(s: State, e: Event)
    requires Inv(s) && Enabled(s, e)
    ensures Inv(Apply(s, e))
  {
    if e.Cas? {
      if s.threads[e.t].EnqRead? { EnqCasInv(s, e.t); } else { DeqCasInv(s, e.t); }
    } else if e.Copy? {
      if s.threads[e.t].EnqCopy? { EnqCopyInv(s, e.t); } else { DeqCopyInv(s, e.t); }
    } else {
      OthersOk(s, Apply(s, e), e.t);
    }
  }

  lemma {:induction false} RunInv(s: State, es: seq<Event>)
    requires Inv(s) && IsRun(s, es)
    ensures Inv(End(s, es))
    decreases |es|
  {
    if es == [] {
    } else {
      StepInv(s, es[0]);
      RunInv(Apply(s, es[0]), es[1..]);
    }
  }

  /** In every run of the sketch: no index is delivered twice, and what is delivered at an index is
      the object claimed for it or garbage, never another object. */
  lemma AtMostOnceDelivery(s0: State, es: seq<Event>)
    requires Init(s0) && IsRun(s0, es)
    ensures var s := End(s0, es);
            && ClaimsTile(s)
            && s.copies == |s.delivered|
            && |s.log| == s.prodHead
            && (forall k <- s.delivered :: k < s.consHead)
            && (forall k <- s.delivered :: s.delivered[k].Object? ==> k < s.prodHead && s.delivered[k].obj == s.log[k])
  {
    RunTiles(s0, es);
    RunInv(s0, es);
  }

  /** A consumer's copy of index k is the claimed object if and only if its producer has copied it. */
  lemma DeliversIffWritten(s: State, t: Tid)
    requires Inv(s) && Enabled(s, Copy(t)) && s.threads[t].DeqCopy?
    ensures var k := s.threads[t].oldHead + |s.threads[t].got|;
            && k !in s.delivered
            && k in Apply(s, Copy(t)).delivered
            && (k in s.slots <==> k < s.prodHead && Apply(s, Copy(t)).delivered[k] == Object(s.log[k]))
  {
    assert PcOk(s, t);
  }

  // ---------------------------------------------------------------- what becomes of a call

  /** Thread t is at work on enqueuing `objs`, or on dequeuing `count` objects. */
  predicate Enqueuing(pc: Pc, objs: seq<Mbuf>) {
    pc == EnqCalled(objs) || ((pc.EnqRead? || pc.EnqCopy?) && pc.objs == objs)
  }

  predicate Dequeuing(pc: Pc, count: nat) {
    pc == DeqCalled(count) || ((pc.DeqRead? || pc.DeqCopy?) && pc.count == count)
  }

  lemma StepKeepsCall(s: State, e: Event, t: Tid)
    requires Enabled(s, e) && t in s.threads && !(e.t == t && (e.CallEnq? || e.CallDeq? || e.Finish?))
    ensures t in Apply(s, e).threads
    ensures forall objs :: Enqueuing(s.threads[t], objs) ==> Enqueuing(Apply(s, e).threads[t], objs)
    ensures forall count :: Dequeuing(s.threads[t], count) ==> Dequeuing(Apply(s, e).threads[t], count)
  {
  }

  lemma {:induction false} RunKeepsCall(s: State, es: seq<Event>, t: Tid)
    requires IsRun(s, es) && t in s.threads
    requires forall e <- es :: !(e.t == t && (e.CallEnq? || e.CallDeq? || e.Finish?))
    ensures t in End(s, es).threads
    ensures forall objs :: Enqueuing(s.threads[t], objs) ==> Enqueuing(End(s, es).threads[t], objs)
    ensures forall count :: Dequeuing(s.threads[t], count) ==> Dequeuing(End(s, es).threads[t], count)
    decreases |es|
  {
    if es == [] {
    } else {
      assert es[0] in es && forall e <- es[1..] :: e in es;
      StepKeepsCall(s, es[0], t);
      RunKeepsCall(Apply(s, es[0]), es[1..], t);
    }
  }

  /** However often it retried, a call that finishes has claimed an interval for all the objects it was
      called with, in order, or for just the number it asked for. */
  lemma FinishedCallClaimedAll(s: State, call: Event, es: seq<Event>)
    requires Inv(s) && Enabled(s, call) && (call.CallEnq? || call.CallDeq?)
    requires IsRun(Apply(s, call), es)
    requires forall e <- es :: !(e.t == call.t && (e.CallEnq? || e.CallDeq? || e.Finish?))
    requires Enabled(End(Apply(s, call), es), Finish(call.t))
    ensures var s' := End(Apply(s, call), es);
            var pc := s'.threads[call.t];
            && (call.CallEnq? ==>
                  && pc.EnqCopy? && pc.oldHead + |call.objs| <= |s'.log|
                  && s'.log[pc.oldHead..pc.oldHead + |call.objs|] == call.objs)
            && (call.CallDeq? ==>
                  && pc.DeqCopy? && |pc.got| == call.count && pc.oldHead + call.count <= |s'.takers|
                  && forall k | pc.oldHead <= k < pc.oldHead + call.count :: s'.takers[k] == call.t)
  {
    StepInv(s, call);
    RunInv(Apply(s, call), es);
    RunKeepsCall(Apply(s, call), es, call.t);
    var s' := End(Apply(s, call), es);
    if call.CallEnq? {
      assert Enqueuing(Apply(s, call).threads[call.t], call.objs);
    } else {
      assert Dequeuing(Apply(s, call).threads[call.t], call.count);
    }
    CopyClaimed(s', call.t);
  }

  lemma CopyClaimed(s: State, t: Tid)
    requires Inv(s) && t in s.threads
    ensures var pc := s.threads[t];
            && (pc.EnqCopy? ==> pc.oldHead + |pc.objs| <= |s.log| && s.log[pc.oldHead..pc.oldHead + |pc.objs|] == pc.objs)
            && (pc.DeqCopy? ==>
                  && pc.oldHead + pc.count <= |s.takers|
                  && forall k | pc.oldHead <= k < pc.oldHead + pc.count :: s.takers[k] == t)
  {
    assert PcOk(s, t);
  }

  // ---------------------------------------------------------------- the tail

  /** Every index below prod.tail has been written. */
  predicate TailSound(s: State) {
    forall k: nat | k < s.prodTail :: k in s.slots
  }

  /** Storing prod.tail keeps it sound if and only if every earlier claim has already been copied. */
  lemma TailSoundIff(s: State, t: Tid)
    requires Inv(s) && TailSound(s) && Enabled(s, Finish(t)) && s.threads[t].EnqCopy?
    ensures TailSound(Apply(s, Finish(t))) <==>
            forall k | s.prodTail <= k < s.threads[t].oldHead :: k in s.slots
    ensures Apply(s, Finish(t)).prodTail == s.threads[t].oldHead + |s.threads[t].objs| <= s.prodHead
  {
    assert PcOk(s, t);
    var s' := Apply(s, Finish(t));
    var lo := s.threads[t].oldHead;
    if forall k | s.prodTail <= k < lo :: k in s.slots {
      forall k: nat | k < s'.prodTail
        ensures k in s'.slots
      {
        if lo <= k {
          assert lo <= k < lo + |s.threads[t].objs|;
        }
      }
    }
    if TailSound(s') {
      forall k | s.prodTail <= k < lo
        ensures k in s.slots
      {
        assert k < s'.prodTail;
      }
    }
  }

  function TwoIdleThreads(): State {
    State(map[], 0, 0, 0, map[0 := Idle, 1 := Idle], [], [], [], [], map[], 0)
  }

  /** Without the clamp a consumer of an empty ring gets garbage. */
  lemma EmptyRingDeliversGarbage() returns (es: seq<Event>)
    ensures Init(TwoIdleThreads()) && IsRun(TwoIdleThreads(), es)
    ensures var s := End(TwoIdleThreads(), es);
            s.prodHead == 0 && 0 in s.delivered && s.delivered[0] == Garbage
  {
    es := [CallDeq(0, 1), ReadHead(0), Cas(0), Copy(0)];
    var s1 := Apply(TwoIdleThreads(), CallDeq(0, 1));
    var s2 := Apply(s1, ReadHead(0));
    var s3 := Apply(s2, Cas(0));
    var s4 := Apply(s3, Copy(0));
    assert s4.delivered[0] == Garbage;
    assert es[1..] == [ReadHead(0), Cas(0), Copy(0)];
    assert es[1..][1..] == [Cas(0), Copy(0)];
    assert es[1..][1..][1..] == [Copy(0)];
    assert es[1..][1..][1..][1..] == [];
    assert IsRun(s4, []) && End(s4, []) == s4;
    assert IsRun(s3, [Copy(0)]) && End(s3, [Copy(0)]) == s4;
    assert IsRun(s2, [Cas(0), Copy(0)]) && End(s2, [Cas(0), Copy(0)]) == s4;
  }

  lemma RunOfOne(s: State, e: Event, es: seq<Event>)
    requires Enabled(s, e) && IsRun(Apply(s, e), es)
    ensures IsRun(s, [e] + es) && End(s, [e] + es) == End(Apply(s, e), es)
  {
    assert ([e] + es)[1..] == es;
  }

  /** Two producers have claimed; the second finishes first, and prod.tail covers an empty slot. */
  lemma LateProducerIsOvertaken() returns (es: seq<Event>)
    ensures Init(TwoIdleThreads()) && IsRun(TwoIdleThreads(), es)
    ensures var s := End(TwoIdleThreads(), es);
            s.prodTail == 2 && 0 !in s.slots && !TailSound(s)
  {
    var s0 := TwoIdleThreads();
    var s1 := Apply(s0, CallEnq(0, [7]));
    var s2 := Apply(s1, CallEnq(1, [8]));
    var s3 := Apply(s2, ReadHead(0));
    var s4 := Apply(s3, Cas(0));
    var s5 := Apply(s4, ReadHead(1));
    es := OvertakenAfterTwoClaims(Apply(s5, Cas(1)));
    RunOfOne(s5, Cas(1), es);
    es := [Cas(1)] + es;
    RunOfOne(s4, ReadHead(1), es);
    es := [ReadHead(1)] + es;
    RunOfOne(s3, Cas(0), es);
    es := [Cas(0)] + es;
    RunOfOne(s2, ReadHead(0), es);
    es := [ReadHead(0)] + es;
    RunOfOne(s1, CallEnq(1, [8]), es);
    es := [CallEnq(1, [8])] + es;
    RunOfOne(s0, CallEnq(0, [7]), es);
    es := [CallEnq(0, [7])] + es;
  }

  lemma OvertakenAfterTwoClaims(s: State) returns (es: seq<Event>)
    requires s.threads == map[0 := EnqCopy([7], 0, 0), 1 := EnqCopy([8], 1, 0)] && s.slots == map[] && s.prodTail == 0
    ensures IsRun(s, es) && End(s, es).prodTail == 2 && 0 !in End(s, es).slots
  {
    var s1 := Apply(s, Copy(1));
    RunOfOne(s1, Finish(1), []);
    RunOfOne(s, Copy(1), [Finish(1)]);
    es := [Copy(1)] + [Finish(1)];
    assert [Finish(1)] + [] == [Finish(1)];
  }
}
