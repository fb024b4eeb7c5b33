// The multi-producer multi-consumer ring, as a step system over any number of threads.
//
// The read-head / compare-and-swap / copy / publish protocol is that of RING_BUFFER_DESIGN.md.
// Four things that sketch leaves out are added here, after the DPDK Programmer's Guide, Ring
// Library: a burst is clamped to the free (available) entries, an index is masked to a slot, a
// consumer publishes cons.tail, and a tail is published only when every earlier claim has been.
//
// Indices are unbounded in this module. MpmcWrap shows that 32-bit registers take the same steps but
// for one, and MpmcFooled when that one does no harm.

module MpmcRing {
  import opened Basics
  import opened BoundedFifo
  import opened Modular

  type Tid = nat

  /** The program counter and locals of one thread. */
  datatype Pc =
    | Idle
    | EnqCalled(objs: seq<Mbuf>)
    | EnqRead(objs: seq<Mbuf>, oldHead: nat)
    | EnqClamped(objs: seq<Mbuf>, oldHead: nat, n: nat)
    | EnqCopy(objs: seq<Mbuf>, oldHead: nat, done: nat)      // objs is now just the accepted prefix
    | DeqCalled(want: nat)
    | DeqRead(want: nat, oldHead: nat)
    | DeqClamped(want: nat, oldHead: nat, n: nat)
    | DeqCopy(oldHead: nat, n: nat, got: seq<Mbuf>)

  /** Which producer claimed an index, and for which object. */
  datatype Entry = Entry(producer: Tid, obj: Mbuf)

  /** The shared ring, the threads, and the history: `log[k]` is the object claimed for index k,
      `takers[k]` the consumer that claimed it, `delivered[k]` what that consumer read, and
      `copies` the number of objects ever copied out. */
  datatype State = State(
    size: nat, slots: seq<Mbuf>,
    prodHead: nat, prodTail: nat, consHead: nat, consTail: nat,
    threads: map<Tid, Pc>,
    log: seq<Entry>, takers: seq<Tid>, delivered: map<nat, Mbuf>, copies: nat)

  /** A bound on ring sizes that leaves wrapped differences unambiguous; real rings are smaller. */
  const MAX_SIZE: nat := 0x8000_0000

  datatype Event =
    | CallEnq(t: Tid, objs: seq<Mbuf>)
    | CallDeq(t: Tid, want: nat)
    | ReadHead(t: Tid)
    | Clamp(t: Tid)
    | Cas(t: Tid)
    | Copy(t: Tid)
    | Publish(t: Tid)

  predicate Init(s: State) {
    && 1 <= s.size <= MAX_SIZE && |s.slots| == s.size
    && s.prodHead == s.prodTail == s.consHead == s.consTail == 0
    && (forall t <- s.threads :: s.threads[t] == Idle)
    && s.log == [] && s.takers == [] && s.delivered == map[] && s.copies == 0
  }

  predicate Enabled(s: State, e: Event) {
    e.t in s.threads &&
    var pc := s.threads[e.t];
    match e
    case CallEnq(_, _) => pc.Idle?
    case CallDeq(_, _) => pc.Idle?
    case ReadHead(_) => pc.EnqCalled? || pc.DeqCalled?
    case Clamp(_) => pc.EnqRead? || pc.DeqRead?
    case Cas(_) => pc.EnqClamped? || pc.DeqClamped?
    case Copy(_) => (pc.EnqCopy? && pc.done < |pc.objs|) || (pc.DeqCopy? && |pc.got| < pc.n)
    case Publish(_) =>
      || (pc.EnqCopy? && pc.done == |pc.objs| && s.prodTail == pc.oldHead)
      || (pc.DeqCopy? && |pc.got| == pc.n && s.consTail == pc.oldHead)
  }

  function Goto(s: State, t: Tid, pc: Pc): State {
    s.(threads := s.threads[t := pc])
  }

  /** Entries the clamp allows, in the unsigned 32-bit arithmetic of the ring. */
  function FreeSeen(s: State, oldHead: nat): nat {
    Wrap32(s.size - 1 + s.consTail - oldHead)
  }

  function AvailableSeen(s: State, oldHead: nat): nat {
    Wrap32(s.prodTail - oldHead)
  }

  function ApplyClamp(s: State, t: Tid): State
    requires Enabled(s, Clamp(t))
  {
    match s.threads[t]
    case EnqRead(objs, oldHead) =>
      var n := Min(|objs|, FreeSeen(s, oldHead));
      Goto(s, t, if n == 0 then Idle else EnqClamped(objs, oldHead, n))
    case DeqRead(want, oldHead) =>
      var n := Min(want, AvailableSeen(s, oldHead));
      Goto(s, t, if n == 0 then Idle else DeqClamped(want, oldHead, n))
  }

  function Claimed(t: Tid, objs: seq<Mbuf>): seq<Entry> {
    seq(|objs|, i requires 0 <= i < |objs| => Entry(t, objs[i]))
  }

  /** The compare-and-swap: move the head if it has not moved since it was read, else retry. */
  function ApplyCas(s: State, t: Tid): State
    requires Enabled(s, Cas(t))
  {
    match s.threads[t]
    case EnqClamped(objs, oldHead, n) =>
      if s.prodHead == oldHead && n <= |objs| then
        Goto(s, t, EnqCopy(objs[..n], oldHead, 0)).(prodHead := oldHead + n, log := s.log + Claimed(t, objs[..n]))
      else
        Goto(s, t, EnqCalled(objs))
    case DeqClamped(want, oldHead, n) =>
      if s.consHead == oldHead then
        Goto(s, t, DeqCopy(oldHead, n, [])).(consHead := oldHead + n, takers := s.takers + seq(n, i => t))
      else
        Goto(s, t, DeqCalled(want))
  }

  /** Copy one object between the caller's array and the claimed slot. */
  function ApplyCopy(s: State, t: Tid): State
    requires |s.slots| == s.size > 0
    requires Enabled(s, Copy(t))
  {
    match s.threads[t]
    case EnqCopy(objs, oldHead, done) =>
      Goto(s, t, EnqCopy(objs, oldHead, done + 1)).(slots := s.slots[(oldHead + done) % s.size := objs[done]])
    case DeqCopy(oldHead, n, got) =>
      var k := oldHead + |got|;
      var obj := s.slots[k % s.size];
      Goto(s, t, DeqCopy(oldHead, n, got + [obj])).(delivered := s.delivered[k := obj], copies := s.copies + 1)
  }

  function ApplyPublish(s: State, t: Tid): State
    requires Enabled(s, Publish(t))
  {
    match s.threads[t]
    case EnqCopy(objs, oldHead, _) => Goto(s, t, Idle).(prodTail := oldHead + |objs|)
    case DeqCopy(oldHead, n, _) => Goto(s, t, Idle).(consTail := oldHead + n)
  }

  function Apply(s: State, e: Event): State
    requires |s.slots| == s.size > 0
    requires Enabled(s, e)
  {
    match e
    case CallEnq(t, objs) => Goto(s, t, EnqCalled(objs))
    case CallDeq(t, want) => Goto(s, t, DeqCalled(want))
    case ReadHead(t) =>
      (match s.threads[t]
       case EnqCalled(objs) => Goto(s, t, EnqRead(objs, s.prodHead))
       case DeqCalled(want) => Goto(s, t, DeqRead(want, s.consHead)))
    case Clamp(t) => ApplyClamp(s, t)
    case Cas(t) => ApplyCas(s, t)
    case Copy(t) => ApplyCopy(s, t)
    case Publish(t) => ApplyPublish(s, t)
  }

  // ---------------------------------------------------------------- the invariant

  /** The interval a producer (consumer) has claimed, and how far its copying has come. */
  function EnqLo(pc: Pc): nat { if pc.EnqCopy? then pc.oldHead else 0 }
  function EnqHi(pc: Pc): nat { if pc.EnqCopy? then pc.oldHead + |pc.objs| else 0 }
  function EnqNow(pc: Pc): nat { if pc.EnqCopy? then pc.oldHead + pc.done else 0 }
  function DeqLo(pc: Pc): nat { if pc.DeqCopy? then pc.oldHead else 0 }
  function DeqHi(pc: Pc): nat { if pc.DeqCopy? then pc.oldHead + pc.n else 0 }
  function DeqNow(pc: Pc): nat { if pc.DeqCopy? then pc.oldHead + |pc.got| else 0 }

  ghost predicate Indices(s: State) {
    && 1 <= s.size <= MAX_SIZE && |s.slots| == s.size
    && |s.log| == s.prodHead && |s.takers| == s.consHead
    && s.consTail <= s.consHead <= s.prodTail <= s.prodHead < s.consTail + s.size
  }

  /** What a thread may rely on at each of its program points. */
  ghost predicate PcOk(s: State, t: Tid)
    requires Indices(s) && t in s.threads
  {
    match s.threads[t]
    case EnqRead(_, oldHead) => oldHead <= s.prodHead
    case EnqClamped(objs, oldHead, n) =>
      oldHead <= s.prodHead && 0 < n <= |objs| && (oldHead == s.prodHead ==> oldHead + n < s.consTail + s.size)
    case EnqCopy(objs, oldHead, done) =>
      && done <= |objs| && 0 < |objs|
      && s.prodTail <= oldHead && oldHead + |objs| <= s.prodHead
      && (forall k | oldHead <= k < oldHead + |objs| :: s.log[k] == Entry(t, objs[k - oldHead]))
    case DeqRead(_, oldHead) => oldHead <= s.consHead
    case DeqClamped(want, oldHead, n) =>
      oldHead <= s.consHead && 0 < n <= want && (oldHead == s.consHead ==> oldHead + n <= s.prodTail)
    case DeqCopy(oldHead, n, got) =>
      && 0 < n && |got| <= n
      && s.consTail <= oldHead && oldHead + n <= s.consHead
      && (forall k | oldHead <= k < oldHead + n :: s.takers[k] == t)
      && (forall k | oldHead <= k < oldHead + |got| :: got[k - oldHead] == s.log[k].obj)
    case _ => true
  }

  ghost predicate Threads(s: State)
    requires Indices(s)
  {
    forall t <- s.threads :: PcOk(s, t)
  }

  /** Index k is inside the live claim of the producer that the log names. */
  ghost predicate EnqHeld(s: State, k: nat)
    requires k < |s.log|
  {
    var t := s.log[k].producer;
    t in s.threads && EnqLo(s.threads[t]) <= k < EnqHi(s.threads[t])
  }

  ghost predicate DeqHeld(s: State, k: nat)
    requires k < |s.takers|
  {
    var t := s.takers[k];
    t in s.threads && DeqLo(s.threads[t]) <= k < DeqHi(s.threads[t])
  }

  /** Every unpublished index belongs to a thread that is working on it. */
  ghost predicate EnqClaims(s: State)
    requires Indices(s)
  {
    forall k | s.prodTail <= k < s.prodHead :: EnqHeld(s, k)
  }

  ghost predicate DeqClaims(s: State)
    requires Indices(s)
  {
    forall k | s.consTail <= k < s.consHead :: DeqHeld(s, k)
  }

  /** The object of index k has been copied into its slot. */
  ghost predicate Written(s: State, k: nat)
    requires k < |s.log|
  {
    || k < s.prodTail
    || (var t := s.log[k].producer; t in s.threads && EnqLo(s.threads[t]) <= k < EnqNow(s.threads[t]))
  }

  /** No object still wanted has been overwritten. */
  ghost predicate Contents(s: State)
    requires Indices(s)
  {
    forall k | s.consTail <= k < s.prodHead && Written(s, k) :: s.slots[k % s.size] == s.log[k].obj
  }

  /** The object of index k has been copied out of its slot. */
  ghost predicate Received(s: State, k: nat)
    requires Indices(s)
  {
    || k < s.consTail
    || (k < s.consHead && var t := s.takers[k]; t in s.threads && DeqLo(s.threads[t]) <= k < DeqNow(s.threads[t]))
  }

  ghost predicate Deliveries(s: State)
    requires Indices(s)
  {
    && (forall k: nat :: k in s.delivered <==> Received(s, k))
    && (forall k <- s.delivered :: k < s.consHead && s.delivered[k] == s.log[k].obj)
    && s.copies == |s.delivered|
  }

  ghost predicate Inv(s: State) {
    Indices(s) && Threads(s) && EnqClaims(s) && DeqClaims(s) && Contents(s) && Deliveries(s)
  }

  lemma InitInv(s: State)
    requires Init(s)
    ensures Inv(s)
  {
  }

  // ---------------------------------------------------------------- every step keeps it

  /** A step of thread t: other threads stay put and the indices only grow. */
  ghost predicate Frame(s: State, s': State, t: Tid) {
    && t in s.threads && s'.threads.Keys == s.threads.Keys
    && (forall u <- s.threads :: u != t ==> s'.threads[u] == s.threads[u])
    && s'.size == s.size && s.log <= s'.log && s.takers <= s'.takers
    && s.prodHead <= s'.prodHead && s.prodTail <= s'.prodTail
    && s.consHead <= s'.consHead && s.consTail <= s'.consTail
  }

  lemma OtherOk(s: State, s': State, t: Tid, u: Tid)
    requires Indices(s) && Indices(s') && Frame(s, s', t)
    requires u in s.threads && u != t && PcOk(s, u)
    requires s.threads[u].EnqCopy? ==> s'.prodTail <= s.threads[u].oldHead
    requires s.threads[u].DeqCopy? ==> s'.consTail <= s.threads[u].oldHead
    ensures PcOk(s', u)
  {
  }

  /** A step that publishes nothing leaves the other threads sound. */
  lemma OthersOk(s: State, s': State, t: Tid)
    requires Indices(s) && Threads(s) && Indices(s') && Frame(s, s', t)
    requires s'.prodTail == s.prodTail && s'.consTail == s.consTail
    requires PcOk(s', t)
    ensures Threads(s')
  {
    forall u <- s'.threads
      ensures PcOk(s', u)
    {
      if u != t {
        assert PcOk(s, u);
        OtherOk(s, s', t, u);
      }
    }
  }

  /** A step that leaves the claim of its thread alone keeps the producer claims. */
  lemma EnqSideKept(s: State, s': State, t: Tid)
    requires Indices(s) && Indices(s') && Frame(s, s', t) && EnqClaims(s)
    requires s'.prodHead == s.prodHead && s'.prodTail == s.prodTail
    requires EnqLo(s'.threads[t]) == EnqLo(s.threads[t]) && EnqHi(s'.threads[t]) == EnqHi(s.threads[t])
    ensures EnqClaims(s')
  {
    forall k | s'.prodTail <= k < s'.prodHead
      ensures EnqHeld(s', k)
    {
      assert EnqHeld(s, k);
    }
  }

  lemma DeqSideKept(s: State, s': State, t: Tid)
    requires Indices(s) && Indices(s') && Frame(s, s', t) && DeqClaims(s)
    requires s'.consHead == s.consHead && s'.consTail == s.consTail
    requires DeqLo(s'.threads[t]) == DeqLo(s.threads[t]) && DeqHi(s'.threads[t]) == DeqHi(s.threads[t])
    ensures DeqClaims(s')
  {
    forall k | s'.consTail <= k < s'.consHead
      ensures DeqHeld(s', k)
    {
      assert DeqHeld(s, k);
    }
  }

  /** Slots keep their contents when nothing new counts as written. */
  lemma ContentsKept(s: State, s': State)
    requires Indices(s) && Indices(s') && Contents(s)
    requires s'.slots == s.slots && s'.size == s.size && s.log <= s'.log && s.consTail <= s'.consTail
    requires forall k | s'.consTail <= k < s'.prodHead && Written(s', k) :: k < s.prodHead && Written(s, k)
    ensures Contents(s')
  {
    forall k | s'.consTail <= k < s'.prodHead && Written(s', k)
      ensures s'.slots[k % s'.size] == s'.log[k].obj
    {
      assert k < s.prodHead && Written(s, k);
      assert s'.log[k] == s.log[k];
    }
  }

  lemma DeliveriesKept(s: State, s': State)
    requires Indices(s) && Indices(s') && Deliveries(s)
    requires s'.delivered == s.delivered && s'.copies == s.copies
    requires s.log <= s'.log && s.consHead <= s'.consHead
    requires forall k: nat :: Received(s', k) <==> Received(s, k)
    ensures Deliveries(s')
  {
  }

  lemma WrittenSame(s: State, s': State, t: Tid, k: nat)
    requires Indices(s) && Indices(s') && Frame(s, s', t) && k < s.prodHead
    requires s'.prodTail == s.prodTail
    requires EnqLo(s'.threads[t]) == EnqLo(s.threads[t]) && EnqNow(s'.threads[t]) == EnqNow(s.threads[t])
    ensures Written(s', k) <==> Written(s, k)
  {
  }

  lemma ReceivedSame(s: State, s': State, t: Tid, k: nat)
    requires Indices(s) && Indices(s') && Frame(s, s', t) && Threads(s)
    requires s'.consTail == s.consTail
    requires s'.consHead == s.consHead || (s'.threads[t].DeqCopy? && |s'.threads[t].got| == 0 && !s.threads[t].DeqCopy?)
    requires forall j | s.consHead <= j < s'.consHead :: s'.takers[j] == t
    requires s'.consHead == s.consHead ==> DeqLo(s'.threads[t]) == DeqLo(s.threads[t]) && DeqNow(s'.threads[t]) == DeqNow(s.threads[t])
    ensures Received(s', k) <==> Received(s, k)
  {
  }

  /** A step that only changes one thread, outside its copy phase, keeps everything. */
  lemma QuietStep(s: State, t: Tid, pc: Pc)
    requires Inv(s)
    requires t in s.threads && !s.threads[t].EnqCopy? && !s.threads[t].DeqCopy?
    requires !pc.EnqCopy? && !pc.DeqCopy?
    requires PcOk(Goto(s, t, pc), t)
    ensures Inv(Goto(s, t, pc))
  {
    var s' := Goto(s, t, pc);
    OthersOk(s, s', t);
    EnqSideKept(s, s', t);
    DeqSideKept(s, s', t);
    forall k | s'.consTail <= k < s'.prodHead && Written(s', k)
      ensures Written(s, k)
    {
      WrittenSame(s, s', t, k);
    }
    ContentsKept(s, s');
    forall k: nat
      ensures Received(s', k) <==> Received(s, k)
    {
      ReceivedSame(s, s', t, k);
    }
    DeliveriesKept(s, s');
  }

  lemma ClampInv(s: State, t: Tid)
    requires Inv(s) && Enabled(s, Clamp(t))
    ensures Inv(ApplyClamp(s, t))
  {
    assert PcOk(s, t);
    match s.threads[t]
    case EnqRead(objs, oldHead) =>
      var n := Min(|objs|, FreeSeen(s, oldHead));
      QuietStep(s, t, if n == 0 then Idle else EnqClamped(objs, oldHead, n));
    case DeqRead(want, oldHead) =>
      var n := Min(want, AvailableSeen(s, oldHead));
      QuietStep(s, t, if n == 0 then Idle else DeqClamped(want, oldHead, n));
  }

  /** A fresh claim at the end extends the cover of the unpublished indices. */
  lemma EnqClaimsGrow(s: State, s': State, t: Tid)
    requires Indices(s) && Indices(s') && Frame(s, s', t) && EnqClaims(s)
    requires !s.threads[t].EnqCopy? && s'.prodTail == s.prodTail
    requires EnqLo(s'.threads[t]) == EnqNow(s'.threads[t]) == s.prodHead && EnqHi(s'.threads[t]) == s'.prodHead
    requires forall k | s.prodHead <= k < s'.prodHead :: s'.log[k].producer == t
    ensures EnqClaims(s')
    ensures forall k: nat | k < s'.prodHead && Written(s', k) :: k < s.prodHead && Written(s, k)
  {
    forall k | s'.prodTail <= k < s'.prodHead
      ensures EnqHeld(s', k)
    {
      if k < s.prodHead {
        assert EnqHeld(s, k);
      }
    }
  }

  lemma EnqCasPc(s: State, t: Tid)
    requires Inv(s) && Enabled(s, Cas(t)) && s.threads[t].EnqClamped? && s.threads[t].oldHead == s.prodHead
    ensures var s' := ApplyCas(s, t);
            && Indices(s') && Frame(s, s', t) && PcOk(s', t)
            && s'.prodTail == s.prodTail && s'.consTail == s.consTail
            && EnqLo(s'.threads[t]) == EnqNow(s'.threads[t]) == s.prodHead && EnqHi(s'.threads[t]) == s'.prodHead
            && (forall k | s.prodHead <= k < s'.prodHead :: s'.log[k].producer == t)
  {
    assert PcOk(s, t);
  }

  /** A producer that wins the compare-and-swap owns the fresh interval at the end. */
  lemma EnqCasInv(s: State, t: Tid)
    requires Inv(s) && Enabled(s, Cas(t)) && s.threads[t].EnqClamped? && s.threads[t].oldHead == s.prodHead
    ensures Inv(ApplyCas(s, t))
  {
    var s' := ApplyCas(s, t);
    EnqCasPc(s, t);
    OthersOk(s, s', t);
    EnqClaimsGrow(s, s', t);
    DeqSideKept(s, s', t);
    ContentsKept(s, s');
    forall k: nat
      ensures Received(s', k) <==> Received(s, k)
    {
      ReceivedSame(s, s', t, k);
    }
    DeliveriesKept(s, s');
  }

  lemma DeqCasPc(s: State, t: Tid)
    requires Indices(s) && Threads(s) && Enabled(s, Cas(t)) && s.threads[t].DeqClamped?
    requires s.threads[t].oldHead == s.consHead
    ensures var s' := ApplyCas(s, t);
            && Indices(s') && Frame(s, s', t) && PcOk(s', t)
            && s'.prodTail == s.prodTail && s'.consTail == s.consTail
            && DeqLo(s'.threads[t]) == s.consHead && DeqHi(s'.threads[t]) == s'.consHead
            && (forall k | s.consHead <= k < s'.consHead :: s'.takers[k] == t)
  {
    assert PcOk(s, t);
  }

  lemma DeqClaimsGrow(s: State, s': State, t: Tid)
    requires Indices(s) && Indices(s') && DeqClaims(s) && Frame(s, s', t) && s'.consTail == s.consTail
    requires !s.threads[t].DeqCopy?
    requires DeqLo(s'.threads[t]) == s.consHead && DeqHi(s'.threads[t]) == s'.consHead
    requires forall k | s.consHead <= k < s'.consHead :: s'.takers[k] == t
    ensures DeqClaims(s')
  {
    forall k | s'.consTail <= k < s'.consHead
      ensures DeqHeld(s', k)
    {
      if k < s.consHead {
        assert DeqHeld(s, k);
      }
    }
  }

  lemma DeqCasInv(s: State, t: Tid)
    requires Inv(s) && Enabled(s, Cas(t)) && s.threads[t].DeqClamped? && s.threads[t].oldHead == s.consHead
    ensures Inv(ApplyCas(s, t))
  {
    var s' := ApplyCas(s, t);
    DeqCasPc(s, t);
    OthersOk(s, s', t);
    EnqSideKept(s, s', t);
    DeqClaimsGrow(s, s', t);
    forall k | s'.consTail <= k < s'.prodHead && Written(s', k)
      ensures Written(s, k)
    {
      WrittenSame(s, s', t, k);
    }
    ContentsKept(s, s');
    forall k: nat
      ensures Received(s', k) <==> Received(s, k)
    {
      ReceivedSame(s, s', t, k);
    }
    DeliveriesKept(s, s');
  }

  lemma CasInv(s: State, t: Tid)
    requires Inv(s) && Enabled(s, Cas(t))
    ensures Inv(ApplyCas(s, t))
  {
    assert PcOk(s, t);
    match s.threads[t]
    case EnqClamped(objs, oldHead, n) =>
      if s.prodHead == oldHead {
        EnqCasInv(s, t);
      } else {
        QuietStep(s, t, EnqCalled(objs));
      }
    case DeqClamped(want, oldHead, n) =>
      if s.consHead == oldHead {
        DeqCasInv(s, t);
      } else {
        QuietStep(s, t, DeqCalled(want));
      }
  }

  /** Writing slot j clobbers no other index of the same lap. */
  lemma WriteKeepsContents(s: State, s': State, t: Tid, j: nat)
    requires Indices(s) && Indices(s') && Contents(s) && Frame(s, s', t)
    requires s'.prodHead == s.prodHead && s'.prodTail == s.prodTail && s'.consTail == s.consTail && s'.log == s.log
    requires s.prodTail <= j < s.prodHead && s.log[j].producer == t
    requires s'.slots == s.slots[j % s.size := s.log[j].obj]
    requires EnqLo(s'.threads[t]) == EnqLo(s.threads[t]) && EnqNow(s'.threads[t]) == EnqNow(s.threads[t]) + 1 == j + 1
    ensures Contents(s')
  {
    forall k | s'.consTail <= k < s'.prodHead && Written(s', k)
      ensures s'.slots[k % s'.size] == s'.log[k].obj
    {
      if k != j {
        assert Written(s, k);
        if k < j {
          ModDistinct(k, j, s.size);
        } else {
          ModDistinct(j, k, s.size);
        }
      }
    }
  }

  lemma EnqCopyPc(s: State, s': State, t: Tid)
    requires Indices(s) && Enabled(s, Copy(t)) && s.threads[t].EnqCopy? && PcOk(s, t)
    requires s' == ApplyCopy(s, t)
    ensures Indices(s') && Frame(s, s', t) && PcOk(s', t)
    ensures var j := EnqNow(s.threads[t]);
            && s.prodTail <= j < s.prodHead && s.log[j].producer == t
            && s'.slots == s.slots[j % s.size := s.log[j].obj]
            && EnqLo(s'.threads[t]) == EnqLo(s.threads[t]) && EnqHi(s'.threads[t]) == EnqHi(s.threads[t])
            && EnqNow(s'.threads[t]) == j + 1
  {
    var j := EnqNow(s.threads[t]);
    assert s.log[j] == Entry(t, s.threads[t].objs[s.threads[t].done]);
  }

  lemma EnqCopyInv(s: State, t: Tid)
    requires Inv(s) && Enabled(s, Copy(t)) && s.threads[t].EnqCopy?
    ensures Inv(ApplyCopy(s, t))
  {
    var s' := ApplyCopy(s, t);
    assert PcOk(s, t);
    EnqCopyPc(s, s', t);
    OthersOk(s, s', t);
    EnqSideKept(s, s', t);
    DeqSideKept(s, s', t);
    WriteKeepsContents(s, s', t, EnqNow(s.threads[t]));
    forall k: nat
      ensures Received(s', k) <==> Received(s, k)
    {
      ReceivedSame(s, s', t, k);
    }
    DeliveriesKept(s, s');
  }

  /** The index a consumer is about to copy is published, still intact, and not yet delivered. */
  lemma NextToCopy(s: State, t: Tid)
    requires Inv(s) && Enabled(s, Copy(t)) && s.threads[t].DeqCopy?
    ensures var k := DeqNow(s.threads[t]);
            && s.consTail <= k < s.consHead && s.takers[k] == t
            && s.slots[k % s.size] == s.log[k].obj
            && k !in s.delivered
  {
    assert PcOk(s, t);
    var k := DeqNow(s.threads[t]);
    assert Written(s, k);
    assert !Received(s, k);
  }

  lemma DeqCopyPc(s: State, s': State, t: Tid)
    requires Indices(s) && Enabled(s, Copy(t)) && s.threads[t].DeqCopy? && PcOk(s, t)
    requires s.slots[DeqNow(s.threads[t]) % s.size] == s.log[DeqNow(s.threads[t])].obj
    requires s' == ApplyCopy(s, t)
    ensures Indices(s') && Frame(s, s', t) && PcOk(s', t)
    ensures s'.delivered == s.delivered[DeqNow(s.threads[t]) := s.log[DeqNow(s.threads[t])].obj]
    ensures DeqLo(s'.threads[t]) == DeqLo(s.threads[t]) && DeqHi(s'.threads[t]) == DeqHi(s.threads[t])
    ensures DeqNow(s'.threads[t]) == DeqNow(s.threads[t]) + 1
  {
  }

  lemma DeqCopyInv(s: State, t: Tid)
    requires Inv(s) && Enabled(s, Copy(t)) && s.threads[t].DeqCopy?
    ensures Inv(ApplyCopy(s, t))
  {
    var s' := ApplyCopy(s, t);
    NextToCopy(s, t);
    assert PcOk(s, t);
    DeqCopyPc(s, s', t);
    OthersOk(s, s', t);
    EnqSideKept(s, s', t);
    DeqSideKept(s, s', t);
    forall k | s'.consTail <= k < s'.prodHead && Written(s', k)
      ensures Written(s, k)
    {
      WrittenSame(s, s', t, k);
    }
    ContentsKept(s, s');
    DeliverOne(s, s', t, DeqNow(s.threads[t]));
  }

  lemma DeliverOne(s: State, s': State, t: Tid, j: nat)
    requires Indices(s) && Indices(s') && Deliveries(s) && Frame(s, s', t)
    requires s'.consHead == s.consHead && s'.consTail == s.consTail && s'.log == s.log && s'.takers == s.takers
    requires s.consTail <= j < s.consHead && s.takers[j] == t && j !in s.delivered
    requires s'.delivered == s.delivered[j := s.log[j].obj] && s'.copies == s.copies + 1
    requires DeqLo(s'.threads[t]) == DeqLo(s.threads[t]) <= j && DeqNow(s'.threads[t]) == DeqNow(s.threads[t]) + 1 == j + 1
    ensures Deliveries(s')
  {
    forall k: nat
      ensures k in s'.delivered <==> Received(s', k)
    {
      assert k in s.delivered <==> Received(s, k);
    }
    OneMoreKey(s.delivered, j, s.log[j].obj);
  }

  /** Earlier claims are published, so every other live claim starts at or after the new tail. */
  lemma EnqPublishThreads(s: State, s': State, t: Tid)
    requires Indices(s) && Threads(s) && Enabled(s, Publish(t)) && s.threads[t].EnqCopy?
    requires s' == ApplyPublish(s, t)
    ensures Indices(s') && Frame(s, s', t) && Threads(s')
  {
    assert PcOk(s, t);
    forall u <- s'.threads
      ensures PcOk(s', u)
    {
      if u != t {
        assert PcOk(s, u);
        if s.threads[u].EnqCopy? {
          assert s.log[s.threads[u].oldHead].producer == u;
        }
        OtherOk(s, s', t, u);
      }
    }
  }

  lemma EnqPublishWritten(s: State, s': State, t: Tid, k: nat)
    requires Indices(s) && Enabled(s, Publish(t)) && s.threads[t].EnqCopy? && PcOk(s, t)
    requires s' == ApplyPublish(s, t) && k < s.prodHead && Written(s', k)
    ensures Written(s, k)
  {
    if s.prodTail <= k < s'.prodTail {
      assert s.log[k] == Entry(t, s.threads[t].objs[k - s.threads[t].oldHead]);
    }
  }

  lemma EnqPublishInv(s: State, t: Tid)
    requires Inv(s) && Enabled(s, Publish(t)) && s.threads[t].EnqCopy?
    ensures Inv(ApplyPublish(s, t))
  {
    var s' := ApplyPublish(s, t);
    assert PcOk(s, t);
    EnqPublishThreads(s, s', t);
    forall k | s'.prodTail <= k < s'.prodHead
      ensures EnqHeld(s', k)
    {
      assert EnqHeld(s, k);
    }
    DeqSideKept(s, s', t);
    forall k | s'.consTail <= k < s'.prodHead && Written(s', k)
      ensures Written(s, k)
    {
      EnqPublishWritten(s, s', t, k);
    }
    ContentsKept(s, s');
    forall k: nat
      ensures Received(s', k) <==> Received(s, k)
    {
      ReceivedSame(s, s', t, k);
    }
    DeliveriesKept(s, s');
  }

  lemma DeqPublishThreads(s: State, s': State, t: Tid)
    requires Indices(s) && Threads(s) && Enabled(s, Publish(t)) && s.threads[t].DeqCopy?
    requires s' == ApplyPublish(s, t)
    ensures Indices(s') && Frame(s, s', t) && Threads(s')
  {
    assert PcOk(s, t);
    forall u <- s'.threads
      ensures PcOk(s', u)
    {
      if u != t {
        assert PcOk(s, u);
        if s.threads[u].DeqCopy? {
          assert s.takers[s.threads[u].oldHead] == u;
        }
        OtherOk(s, s', t, u);
      }
    }
  }

  lemma DeqPublishReceived(s: State, s': State, t: Tid, k: nat)
    requires Indices(s) && Enabled(s, Publish(t)) && s.threads[t].DeqCopy? && PcOk(s, t)
    requires s' == ApplyPublish(s, t) && Indices(s')
    ensures Received(s', k) <==> Received(s, k)
  {
    if s.consTail <= k < s'.consTail {
      assert s.takers[k] == t;
    }
  }

  lemma DeqPublishInv(s: State, t: Tid)
    requires Inv(s) && Enabled(s, Publish(t)) && s.threads[t].DeqCopy?
    ensures Inv(ApplyPublish(s, t))
  {
    var s' := ApplyPublish(s, t);
    assert PcOk(s, t);
    DeqPublishThreads(s, s', t);
    EnqSideKept(s, s', t);
    forall k | s'.consTail <= k < s'.consHead
      ensures DeqHeld(s', k)
    {
      assert DeqHeld(s, k);
    }
    forall k | s'.consTail <= k < s'.prodHead && Written(s', k)
      ensures Written(s, k)
    {
      WrittenSame(s, s', t, k);
    }
    ContentsKept(s, s');
    forall k: nat
      ensures Received(s', k) <==> Received(s, k)
    {
      DeqPublishReceived(s, s', t, k);
    }
    DeliveriesKept(s, s');
  }

  /** Every step of every thread keeps the invariant. */
  lemma StepInv(s: State, e: Event)
    requires Inv(s) && Enabled(s, e)
    ensures Inv(Apply(s, e))
  {
    match e
    case CallEnq(t, objs) => QuietStep(s, t, EnqCalled(objs));
    case CallDeq(t, want) => QuietStep(s, t, DeqCalled(want));
    case ReadHead(t) =>
      if s.threads[t].EnqCalled? {
        QuietStep(s, t, EnqRead(s.threads[t].objs, s.prodHead));
      } else {
        QuietStep(s, t, DeqRead(s.threads[t].want, s.consHead));
      }
    case Clamp(t) => ClampInv(s, t);
    case Cas(t) => CasInv(s, t);
    case Copy(t) => if s.threads[t].EnqCopy? { EnqCopyInv(s, t); } else { DeqCopyInv(s, t); }
    case Publish(t) => if s.threads[t].EnqCopy? { EnqPublishInv(s, t); } else { DeqPublishInv(s, t); }
  }

  // ---------------------------------------------------------------- whole runs

  predicate IsRun(s: State, es: seq<Event>)
    decreases |es|
  {
    es == [] || (|s.slots| == s.size > 0 && Enabled(s, es[0]) && IsRun(Apply(s, es[0]), es[1..]))
  }

  function End(s: State, es: seq<Event>): State
    requires IsRun(s, es)
    decreases |es|
  {
    if es == [] then s else End(Apply(s, es[0]), es[1..])
  }

  lemma {:induction false} RunInv(s: State, es: seq<Event>)
    requires Inv(s) && IsRun(s, es)
    ensures Inv(End(s, es))
    decreases |es|
  {
    if es == [] {
    } else {
      StepInv(s, es[0]);
      RunInv(Apply(s, es[0]), es[1..]);
    }
  }

  /** For any number of threads and any interleaving: what is delivered at index k is what was
      claimed for k; no index is delivered twice; every released index was delivered; and no
      published object that is still unread has been overwritten. */
  lemma ExactlyOnceDelivery(s0: State, es: seq<Event>)
    requires Init(s0) && IsRun(s0, es)
    ensures var s := End(s0, es);
            && |s.slots| == s.size > 0
            && |s.log| == s.prodHead
            && s.consTail <= s.consHead <= s.prodTail <= s.prodHead < s.consTail + s.size
            && (forall k <- s.delivered :: k < s.consHead && s.delivered[k] == s.log[k].obj)
            && (forall k: nat | k < s.consTail :: k in s.delivered)
            && s.copies == |s.delivered|
            && (forall k | s.consTail <= k < s.prodTail :: s.slots[k % s.size] == s.log[k].obj)
  {
    InitInv(s0);
    RunInv(s0, es);
    var s := End(s0, es);
    forall k | s.consTail <= k < s.prodTail
      ensures s.slots[k % s.size] == s.log[k].obj
    {
      assert Written(s, k);
    }
    forall k: nat | k < s.consTail
      ensures k in s.delivered
    {
      assert Received(s, k);
    }
  }

  lemma CopiedSoFar(s: State, t: Tid)
    requires Indices(s) && t in s.threads && s.threads[t].DeqCopy? && PcOk(s, t)
    ensures var pc := s.threads[t];
            && |pc.got| <= pc.n && pc.oldHead + pc.n <= s.prodTail <= |s.log|
            && pc.got == Objects(s.log[pc.oldHead..pc.oldHead + |pc.got|])
            && (forall k | pc.oldHead <= k < pc.oldHead + pc.n :: k < |s.takers| && s.takers[k] == t)
  {
  }

  /** A consumer returns exactly the objects of the interval it claimed, in order. */
  lemma ConsumerReturnsItsClaim(s0: State, es: seq<Event>, t: Tid)
    requires Init(s0) && IsRun(s0, es)
    requires Enabled(End(s0, es), Publish(t)) && End(s0, es).threads[t].DeqCopy?
    ensures var s := End(s0, es);
            var pc := s.threads[t];
            && pc.oldHead + pc.n <= s.prodTail <= |s.log|
            && pc.got == Objects(s.log[pc.oldHead..pc.oldHead + pc.n])
            && (forall k | pc.oldHead <= k < pc.oldHead + pc.n :: k < |s.takers| && s.takers[k] == t)
  {
    InitInv(s0);
    RunInv(s0, es);
    assert PcOk(End(s0, es), t);
    CopiedSoFar(End(s0, es), t);
  }

  /** The wait for earlier claims cannot deadlock: the owner of the oldest unpublished index
      is always able to copy or to publish. */
  lemma OldestClaimCanMove(s: State)
    requires Inv(s)
    ensures s.prodTail < s.prodHead ==>
              var t := s.log[s.prodTail].producer; Enabled(s, Copy(t)) || Enabled(s, Publish(t))
    ensures s.consTail < s.consHead ==>
              var t := s.takers[s.consTail]; Enabled(s, Copy(t)) || Enabled(s, Publish(t))
  {
    if s.prodTail < s.prodHead {
      assert EnqHeld(s, s.prodTail);
      assert PcOk(s, s.log[s.prodTail].producer);
    }
    if s.consTail < s.consHead {
      assert DeqHeld(s, s.consTail);
      assert PcOk(s, s.takers[s.consTail]);
    }
  }

  // ---------------------------------------------------------------- refinement of the bounded FIFO

  function Objects(es: seq<Entry>): (objs: seq<Mbuf>)
    ensures |objs| == |es| && forall i | 0 <= i < |es| :: objs[i] == es[i].obj
  {
    seq(|es|, i requires 0 <= i < |es| => es[i].obj)
  }

  /** The queue an observer sees: published and not yet claimed by a consumer. */
  function Queue(s: State): seq<Mbuf>
    requires s.consHead <= s.prodTail <= |s.log|
  {
    Objects(s.log[s.consHead..s.prodTail])
  }

  /** The linearization points: a burst enters the queue when its tail is published, and leaves
      it when a consumer wins the compare-and-swap. */
  function Observe(s: State, e: Event): Op
    requires Enabled(s, e)
  {
    var pc := s.threads[e.t];
    if e.Publish? && pc.EnqCopy? then Put(pc.objs)
    else if e.Cas? && pc.DeqClamped? && s.consHead == pc.oldHead then Take(pc.n)
    else Stutter
  }

  lemma ObjectsSplit(log: seq<Entry>, lo: nat, mid: nat, hi: nat)
    requires lo <= mid <= hi <= |log|
    ensures Objects(log[lo..hi])[..mid - lo] == Objects(log[lo..mid])
    ensures Objects(log[lo..hi])[mid - lo..] == Objects(log[mid..hi])
  {
  }

  /** A thread whose head is still current accepts the longest prefix of its burst that fits, or
      takes as much as is published, and gives up only when that is nothing. */
  lemma ClampIsExact(s: State, t: Tid)
    requires Indices(s) && Enabled(s, Clamp(t))
    ensures var after := ApplyClamp(s, t).threads[t];
            match s.threads[t]
            case EnqRead(objs, oldHead) =>
              oldHead == s.prodHead ==>
                var n := Min(|objs|, s.size - 1 - (s.prodHead - s.consTail));
                after == if n == 0 then Idle else EnqClamped(objs, oldHead, n)
            case DeqRead(want, oldHead) =>
              oldHead == s.consHead ==>
                var n := Min(want, |Queue(s)|);
                after == if n == 0 then Idle else DeqClamped(want, oldHead, n)
  {
    Wrap32Fits(s.size - 1 + s.consTail - s.prodHead);
    Wrap32Fits(s.prodTail - s.consHead);
  }

  lemma PublishAppends(s: State, t: Tid)
    requires Indices(s) && Enabled(s, Publish(t)) && PcOk(s, t) && s.threads[t].EnqCopy?
    ensures |Queue(s)| + |s.threads[t].objs| < s.size
    ensures var s' := ApplyPublish(s, t);
            s'.consHead <= s'.prodTail <= |s'.log| && Queue(s') == Queue(s) + s.threads[t].objs
  {
    var lo, objs := s.prodTail, s.threads[t].objs;
    assert Objects(s.log[lo..lo + |objs|]) == objs;
    ObjectsJoin(s.log, s.consHead, lo, lo + |objs|);
  }

  lemma ObjectsJoin(log: seq<Entry>, lo: nat, mid: nat, hi: nat)
    requires lo <= mid <= hi <= |log|
    ensures Objects(log[lo..hi]) == Objects(log[lo..mid]) + Objects(log[mid..hi])
  {
  }

  lemma WinningCasTakesTheFront(s: State, t: Tid)
    requires Indices(s) && Enabled(s, Cas(t)) && PcOk(s, t) && s.threads[t].DeqClamped? && s.threads[t].oldHead == s.consHead
    ensures var pc := s.threads[t];
            var s' := ApplyCas(s, t);
            && pc.n <= |Queue(s)|
            && Queue(s)[..pc.n] == Objects(s.log[pc.oldHead..pc.oldHead + pc.n])
            && s'.consHead <= s'.prodTail <= |s'.log| && Queue(s') == Queue(s)[pc.n..]
  {
    ObjectsSplit(s.log, s.consHead, s.consHead + s.threads[t].n, s.prodTail);
  }

  lemma OtherStepsStutter(s: State, e: Event)
    requires Inv(s) && Enabled(s, e) && Observe(s, e).Stutter?
    ensures Inv(Apply(s, e)) && Queue(Apply(s, e)) == Queue(s)
  {
    StepInv(s, e);
    StutterKeeps(s, e);
    SameQueue(s, Apply(s, e));
  }

  lemma StutterKeeps(s: State, e: Event)
    requires |s.slots| == s.size > 0 && Enabled(s, e) && Observe(s, e).Stutter?
    ensures var s' := Apply(s, e);
            s'.consHead == s.consHead && s'.prodTail == s.prodTail && s.log <= s'.log
  {
  }

  lemma SameQueue(s: State, s': State)
    requires s.consHead == s'.consHead <= s.prodTail == s'.prodTail <= |s.log| && s.log <= s'.log
    ensures Queue(s') == Queue(s)
  {
    assert s'.log[s.consHead..s.prodTail] == s.log[s.consHead..s.prodTail];
  }

  /** Each step of the ring is one operation of the bounded FIFO, or none. */
  lemma StepRefines(s: State, e: Event)
    requires Inv(s) && Enabled(s, e)
    ensures Inv(Apply(s, e))
    ensures Fits(Queue(s), s.size - 1, Observe(s, e))
    ensures Queue(Apply(s, e)) == After(Queue(s), Observe(s, e))
  {
    StepInv(s, e);
    assert PcOk(s, e.t);
    match Observe(s, e)
    case Put(_) => PublishAppends(s, e.t);
    case Take(_) => WinningCasTakesTheFront(s, e.t);
    case Stutter => OtherStepsStutter(s, e);
  }

  function Observations(s: State, es: seq<Event>): seq<Op>
    requires IsRun(s, es)
    decreases |es|
  {
    if es == [] then [] else [Observe(s, es[0])] + Observations(Apply(s, es[0]), es[1..])
  }

  lemma SizeKept(s: State, e: Event)
    requires |s.slots| == s.size > 0 && Enabled(s, e)
    ensures Apply(s, e).size == s.size
  {
  }

  ghost predicate Observable(s: State) {
    |s.slots| == s.size > 0 && s.consHead <= s.prodTail <= |s.log|
  }

  /** The observations of a run are a legal history of a FIFO that ends in the final queue. */
  ghost predicate RefinesFifo(s: State, es: seq<Event>)
    requires Observable(s) && IsRun(s, es) && Observable(End(s, es))
  {
    && Legal(Queue(s), s.size - 1, Observations(s, es))
    && Final(Queue(s), s.size - 1, Observations(s, es)) == Queue(End(s, es))
  }

  lemma RunHead(s: State, es: seq<Event>)
    requires es != [] && IsRun(s, es)
    ensures Observations(s, es) == [Observe(s, es[0])] + Observations(Apply(s, es[0]), es[1..])
    ensures End(s, es) == End(Apply(s, es[0]), es[1..])
    ensures Apply(s, es[0]).size == s.size
  {
    SizeKept(s, es[0]);
  }

  lemma RefinesStep(s: State, es: seq<Event>, s': State, rest: seq<Event>, op: Op)
    requires IsRun(s, es) && IsRun(s', rest) && s'.size == s.size
    requires Observations(s, es) == [op] + Observations(s', rest) && End(s, es) == End(s', rest)
    requires Observable(s) && Observable(s') && Observable(End(s, es))
    requires Fits(Queue(s), s.size - 1, op) && After(Queue(s), op) == Queue(s')
    requires RefinesFifo(s', rest)
    ensures RefinesFifo(s, es)
  {
    Prepend(Queue(s), s.size - 1, op, Observations(s', rest));
  }

  /** Every run of the ring is a legal history of a FIFO of capacity size - 1. */
  lemma {:induction false} RunRefinesFifo(s: State, es: seq<Event>)
    requires Inv(s) && IsRun(s, es)
    ensures Inv(End(s, es)) && RefinesFifo(s, es)
    decreases |es|
  {
    if es == [] {
    } else {
      StepRefines(s, es[0]);
      RunRefinesFifo(Apply(s, es[0]), es[1..]);
      RunHead(s, es);
      RefinesStep(s, es, Apply(s, es[0]), es[1..], Observe(s, es[0]));
    }
  }

  /** From an empty ring: what consumers claimed, followed by what is queued, is what producers
      published, in order. */
  lemma RingConservesOrder(s0: State, es: seq<Event>)
    requires Init(s0) && IsRun(s0, es)
    ensures Inv(End(s0, es))
    ensures Legal([], s0.size - 1, Observations(s0, es))
    ensures Removed([], s0.size - 1, Observations(s0, es)) + Queue(End(s0, es)) == Inserted(Observations(s0, es))
    ensures |Queue(End(s0, es))| <= s0.size - 1
  {
    InitInv(s0);
    RunRefinesFifo(s0, es);
    assert Queue(s0) == [];
    Conservation([], s0.size - 1, Observations(s0, es));
    StaysBounded([], s0.size - 1, Observations(s0, es));
  }
}
