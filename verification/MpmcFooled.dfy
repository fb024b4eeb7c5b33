// What the 32-bit ring does when a compare-and-swap is fooled by a head that went round: it claims
// at the present head instead of the one it read. The ring stays sound if and only if the burst
// still fits there, and while it does the 32-bit ring remains a FIFO.

module MpmcFooled {
  import opened BoundedFifo
  import opened Modular
  import R = MpmcRing
  import W = MpmcWrap

  /** The thread as if it had read the head just now. */
  function Refreshed(s: R.State, t: R.Tid): R.State
    requires t in s.threads
  {
    match s.threads[t]
    case EnqClamped(objs, _, n) => R.Goto(s, t, R.EnqClamped(objs, s.prodHead, n))
    case DeqClamped(want, _, n) => R.Goto(s, t, R.DeqClamped(want, s.consHead, n))
    case _ => s
  }

  /** The clamped burst fits at the present head: into the free slots, or what is published. */
  predicate StillFits(s: R.State, t: R.Tid)
    requires t in s.threads
  {
    match s.threads[t]
    case EnqClamped(_, _, n) => n <= s.size - 1 - (s.prodHead - s.consTail)
    case DeqClamped(_, _, n) => n <= s.prodTail - s.consHead
    case _ => true
  }

  lemma SameImage(s: R.State, t: R.Tid)
    requires s.size > 0 && W.Aba(s, R.Cas(t))
    ensures W.Wrap(Refreshed(s, t)) == W.Wrap(s)
  {
    var pc := Refreshed(s, t).threads[t];
    W.WrapGoto(s, t, pc);
    assert W.WrapPc(pc) == W.Wrap(s).threads[t];
    assert W.Goto(W.Wrap(s), t, W.WrapPc(pc)).threads == W.Wrap(s).threads;
  }

  /** A fooled compare-and-swap wins, and claims at the present head. */
  lemma FooledClaimsAtHead(s: R.State, t: R.Tid)
    requires R.Inv(s) && W.Aba(s, R.Cas(t))
    ensures R.Enabled(Refreshed(s, t), R.Cas(t)) && W.Enabled(W.Wrap(s), R.Cas(t))
    ensures W.Apply(W.Wrap(s), R.Cas(t)) == W.Wrap(R.ApplyCas(Refreshed(s, t), t))
  {
    SameImage(s, t);
    assert R.PcOk(s, t);
    W.SameEnabled(s, R.Cas(t));
    if s.threads[t].EnqClamped? {
      W.SameEnqCas(Refreshed(s, t), t);
    } else {
      W.SameDeqCas(Refreshed(s, t), t);
    }
  }

  lemma RefreshedInv(s: R.State, t: R.Tid)
    requires R.Inv(s) && W.Aba(s, R.Cas(t)) && StillFits(s, t)
    ensures R.Inv(Refreshed(s, t))
  {
    assert R.PcOk(s, t);
    R.QuietStep(s, t, Refreshed(s, t).threads[t]);
  }

  /** A fooled producer leaves the ring sound if and only if its burst still fits, that is, if and
      only if at most size - 1 entries are claimed afterwards. */
  lemma FooledProducerIff(s: R.State, t: R.Tid)
    requires R.Inv(s) && W.Aba(s, R.Cas(t)) && s.threads[t].EnqClamped?
    ensures R.Enabled(Refreshed(s, t), R.Cas(t))
    ensures var s' := R.ApplyCas(Refreshed(s, t), t);
            && (R.Inv(s') <==> StillFits(s, t))
            && (StillFits(s, t) <==> s'.prodHead - s'.consTail <= s'.size - 1)
  {
    assert R.PcOk(s, t);
    if StillFits(s, t) {
      RefreshedInv(s, t);
      R.EnqCasInv(Refreshed(s, t), t);
    }
  }

  /** A fooled consumer does if and only if what it takes has been published. */
  lemma FooledConsumerIff(s: R.State, t: R.Tid)
    requires R.Inv(s) && W.Aba(s, R.Cas(t)) && s.threads[t].DeqClamped?
    ensures R.Enabled(Refreshed(s, t), R.Cas(t))
    ensures var s' := R.ApplyCas(Refreshed(s, t), t);
            && (R.Inv(s') <==> StillFits(s, t))
            && (StillFits(s, t) <==> s'.consHead <= s'.prodTail)
  {
    assert R.PcOk(s, t);
    if StillFits(s, t) {
      RefreshedInv(s, t);
      R.DeqCasInv(Refreshed(s, t), t);
    }
  }

  // ---------------------------------------------------------------- runs with fooled swaps

  /** The state a step starts from: refreshed when the swap about to run is fooled. */
  function Seen(s: R.State, e: R.Event): R.State {
    if W.Aba(s, e) then Refreshed(s, e.t) else s
  }

  /** The step the 32-bit ring takes, on unbounded indices. */
  function Step(s: R.State, e: R.Event): R.State
    requires |s.slots| == s.size > 0 && R.Enabled(s, e)
  {
    R.Apply(Seen(s, e), e)
  }

  predicate IsRun(s: R.State, es: seq<R.Event>)
    decreases |es|
  {
    es == [] || (|s.slots| == s.size > 0 && R.Enabled(s, es[0]) && IsRun(Step(s, es[0]), es[1..]))
  }

  function End(s: R.State, es: seq<R.Event>): R.State
    requires IsRun(s, es)
    decreases |es|
  {
    if es == [] then s else End(Step(s, es[0]), es[1..])
  }

  predicate Harmless(s: R.State, e: R.Event) {
    W.Aba(s, e) ==> StillFits(s, e.t)
  }

  /** Every fooled compare-and-swap of the run still fits. */
  predicate Sound(s: R.State, es: seq<R.Event>)
    decreases |es|
  {
    es == [] ||
    (Harmless(s, es[0]) &&
     (|s.slots| == s.size > 0 && R.Enabled(s, es[0]) ==> Sound(Step(s, es[0]), es[1..])))
  }

  lemma SeenInv(s: R.State, e: R.Event)
    requires R.Inv(s) && R.Enabled(s, e) && Harmless(s, e)
    ensures R.Inv(Seen(s, e)) && R.Enabled(Seen(s, e), e)
    ensures Seen(s, e).size == s.size && R.Queue(Seen(s, e)) == R.Queue(s)
  {
    if W.Aba(s, e) {
      RefreshedInv(s, e.t);
    }
  }

  lemma StepInv(s: R.State, e: R.Event)
    requires R.Inv(s) && R.Enabled(s, e) && Harmless(s, e)
    ensures R.Inv(Step(s, e)) && Step(s, e).size == s.size
  {
    SeenInv(s, e);
    R.StepInv(Seen(s, e), e);
    R.SizeKept(Seen(s, e), e);
  }

  lemma MachineStep(s: R.State, e: R.Event, order: nat)
    requires R.Inv(s) && W.PowerOfTwoSize(s, order)
    ensures W.Enabled(W.Wrap(s), e) <==> R.Enabled(s, e)
    ensures R.Enabled(s, e) ==> W.Apply(W.Wrap(s), e) == W.Wrap(Step(s, e))
  {
    assert e.t in s.threads ==> R.PcOk(s, e.t);
    W.SameEnabled(s, e);
    if W.Aba(s, e) {
      FooledClaimsAtHead(s, e.t);
    } else {
      W.StepAgrees(s, e, order);
    }
  }

  /** While every fooled swap still fits, the runs of the 32-bit ring are these, and the ring stays
      sound. */
  lemma {:induction false} SoundRun(s: R.State, es: seq<R.Event>, order: nat)
    requires R.Inv(s) && W.PowerOfTwoSize(s, order) && Sound(s, es)
    ensures W.IsRun(W.Wrap(s), es) <==> IsRun(s, es)
    ensures IsRun(s, es) ==>
              R.Inv(End(s, es)) && End(s, es).size == s.size && W.End(W.Wrap(s), es) == W.Wrap(End(s, es))
    decreases |es|
  {
    if es != [] {
      MachineStep(s, es[0], order);
      if R.Enabled(s, es[0]) {
        StepInv(s, es[0]);
        SoundRun(Step(s, es[0]), es[1..], order);
      }
    }
  }

  /** The ring is within its invariant all along the run. */
  ghost predicate SoundAllAlong(s: R.State, es: seq<R.Event>)
    requires IsRun(s, es)
    decreases |es|
  {
    R.Inv(s) && (es != [] ==> SoundAllAlong(Step(s, es[0]), es[1..]))
  }

  /** That every fooled swap still fits is not only enough for this but necessary. */
  lemma {:induction false} SoundIff(s: R.State, es: seq<R.Event>)
    requires R.Inv(s) && IsRun(s, es)
    ensures Sound(s, es) <==> SoundAllAlong(s, es)
    decreases |es|
  {
    if es == [] {
    } else if Harmless(s, es[0]) {
      StepInv(s, es[0]);
      SoundIff(Step(s, es[0]), es[1..]);
    } else if s.threads[es[0].t].EnqClamped? {
      FooledProducerIff(s, es[0].t);
    } else {
      FooledConsumerIff(s, es[0].t);
    }
  }

  /** Thread t of the machine has copied exactly the objects of the interval that it alone claimed, so
      far as it has come. */
  ghost predicate HoldsItsClaim(s: R.State, m: W.Machine, t: R.Tid) {
    && t in s.threads && s.threads[t].DeqCopy? && t in m.threads && m.threads[t].DeqCopy?
    && var pc, lo := m.threads[t], s.threads[t].oldHead;
    && pc.oldHead == Wrap32(lo) && |pc.got| <= pc.n
    && lo + pc.n <= s.prodTail <= |s.log|
    && pc.got == R.Objects(s.log[lo..lo + |pc.got|])
    && (forall k | lo <= k < lo + pc.n :: k < |s.takers| && s.takers[k] == t)
  }

  lemma ClaimHeld(s: R.State, t: R.Tid)
    requires R.Inv(s) && t in W.Wrap(s).threads && W.Wrap(s).threads[t].DeqCopy?
    ensures HoldsItsClaim(s, W.Wrap(s), t)
  {
    assert W.Wrap(s).threads[t] == W.WrapPc(s.threads[t]);
    assert R.PcOk(s, t);
    R.CopiedSoFar(s, t);
  }

  /** Each consumer of the 32-bit ring then holds exactly the objects of the interval it claimed. */
  lemma MachineConsumerReturnsItsClaim(s0: R.State, es: seq<R.Event>, t: R.Tid, order: nat)
    requires R.Init(s0) && W.PowerOfTwoSize(s0, order)
    requires W.IsRun(W.Wrap(s0), es) && Sound(s0, es)
    requires t in W.End(W.Wrap(s0), es).threads && W.End(W.Wrap(s0), es).threads[t].DeqCopy?
    ensures IsRun(s0, es) && HoldsItsClaim(End(s0, es), W.End(W.Wrap(s0), es), t)
  {
    R.InitInv(s0);
    SoundRun(s0, es, order);
    ClaimHeld(End(s0, es), t);
  }

  // ---------------------------------------------------------------- the 32-bit ring as a FIFO

  /** What the registers and slots hold between the consumer head and the producer tail. */
  function MachineQueue(m: W.Machine): seq<Mbuf> {
    SlotsFrom(m, Wrap32(m.prodTail - m.consHead))
  }

  function SlotsFrom(m: W.Machine, n: nat): (q: seq<Mbuf>)
    ensures |q| == n && forall i | 0 <= i < n :: q[i] == W.ReadSlot(m, m.consHead + i)
  {
    if n == 0 then [] else SlotsFrom(m, n - 1) + [W.ReadSlot(m, m.consHead + n - 1)]
  }

  /** What a step of the machine does to the queue, read off the machine. */
  function Observed(m: W.Machine, e: R.Event): Op
    requires W.Enabled(m, e)
  {
    var pc := m.threads[e.t];
    if e.Publish? && pc.EnqCopy? then Put(pc.objs)
    else if e.Cas? && pc.DeqClamped? && m.consHead == pc.oldHead then Take(pc.n)
    else Stutter
  }

  function MachineOps(m: W.Machine, es: seq<R.Event>): seq<Op>
    requires W.IsRun(m, es)
    decreases |es|
  {
    if es == [] then [] else [Observed(m, es[0])] + MachineOps(W.Apply(m, es[0]), es[1..])
  }

  lemma QueueOnMachine(s: R.State, order: nat)
    requires R.Inv(s) && W.PowerOfTwoSize(s, order)
    ensures MachineQueue(W.Wrap(s)) == R.Queue(s)
  {
    var q, n := MachineQueue(W.Wrap(s)), s.prodTail - s.consHead;
    WrapSub(0, s.prodTail, s.consHead);
    Wrap32Fits(n);
    assert |q| == n;
    forall i | 0 <= i < n
      ensures q[i] == R.Queue(s)[i]
    {
      SlotHolds(s, i, order);
    }
    assert q == R.Queue(s);
  }

  lemma SlotHolds(s: R.State, i: nat, order: nat)
    requires R.Indices(s) && R.Contents(s) && W.PowerOfTwoSize(s, order) && s.consHead + i < s.prodTail
    ensures W.ReadSlot(W.Wrap(s), Wrap32(s.consHead) + i) == s.log[s.consHead + i].obj
  {
    W.SameSlot(s, s.consHead, i, order);
    assert R.Written(s, s.consHead + i);
  }

  // The same on unbounded indices.

  function Operation(s: R.State, e: R.Event): Op
    requires R.Enabled(Seen(s, e), e)
  {
    R.Observe(Seen(s, e), e)
  }

  function Operations(s: R.State, es: seq<R.Event>): seq<Op>
    requires IsRun(s, es)
    decreases |es|
  {
    if es == [] then [] else [Operation(s, es[0])] + Operations(Step(s, es[0]), es[1..])
  }

  lemma OperationFits(s: R.State, e: R.Event)
    requires R.Inv(s) && R.Enabled(s, e) && Harmless(s, e)
    ensures R.Inv(Step(s, e)) && Step(s, e).size == s.size
    ensures Fits(R.Queue(s), s.size - 1, Operation(s, e))
    ensures After(R.Queue(s), Operation(s, e)) == R.Queue(Step(s, e))
  {
    SeenInv(s, e);
    StepInv(s, e);
    R.StepRefines(Seen(s, e), e);
  }

  /** The operations are legal from q and lead to q'. */
  predicate History(q: seq<Mbuf>, capacity: nat, ops: seq<Op>, q': seq<Mbuf>) {
    Legal(q, capacity, ops) && Final(q, capacity, ops) == q'
  }

  lemma HistoryPrepend(q: seq<Mbuf>, capacity: nat, op: Op, q1: seq<Mbuf>, ops: seq<Op>, q': seq<Mbuf>)
    requires Fits(q, capacity, op) && After(q, op) == q1 && History(q1, capacity, ops, q')
    ensures History(q, capacity, [op] + ops, q')
  {
    Prepend(q, capacity, op, ops);
  }

  lemma RunHead(s: R.State, es: seq<R.Event>)
    requires es != [] && IsRun(s, es)
    ensures R.Enabled(Seen(s, es[0]), es[0]) && IsRun(Step(s, es[0]), es[1..])
    ensures Operations(s, es) == [Operation(s, es[0])] + Operations(Step(s, es[0]), es[1..])
    ensures End(s, es) == End(Step(s, es[0]), es[1..])
  {
  }

  /** Every step of the run is one operation on the queue. */
  ghost predicate Refines(s: R.State, es: seq<R.Event>)
    requires IsRun(s, es)
    decreases |es|
  {
    && R.Observable(s)
    && (es != [] ==>
          && Step(s, es[0]).size == s.size && R.Observable(Step(s, es[0]))
          && Fits(R.Queue(s), s.size - 1, Operation(s, es[0]))
          && After(R.Queue(s), Operation(s, es[0])) == R.Queue(Step(s, es[0]))
          && Refines(Step(s, es[0]), es[1..]))
  }

  lemma {:induction false} SoundRefines(s: R.State, es: seq<R.Event>)
    requires R.Inv(s) && IsRun(s, es) && Sound(s, es)
    ensures Refines(s, es)
    decreases |es|
  {
    if es == [] {
    } else {
      OperationFits(s, es[0]);
      SoundRefines(Step(s, es[0]), es[1..]);
    }
  }

  lemma {:induction false} OperationsRun(s: R.State, es: seq<R.Event>)
    requires IsRun(s, es) && Refines(s, es)
    ensures R.Observable(End(s, es))
    ensures History(R.Queue(s), s.size - 1, Operations(s, es), R.Queue(End(s, es)))
    decreases |es|
  {
    if es == [] {
    } else {
      var s', op := FirstOperation(s, es);
      OperationsRun(s', es[1..]);
      HistoryPrepend(R.Queue(s), s.size - 1, op, R.Queue(s'), Operations(s', es[1..]), R.Queue(End(s', es[1..])));
    }
  }

  lemma FirstOperation(s: R.State, es: seq<R.Event>) returns (s': R.State, op: Op)
    requires IsRun(s, es) && Refines(s, es) && es != []
    ensures s'.size == s.size && IsRun(s', es[1..]) && Refines(s', es[1..])
    ensures Fits(R.Queue(s), s.size - 1, op) && After(R.Queue(s), op) == R.Queue(s')
    ensures Operations(s, es) == [op] + Operations(s', es[1..]) && End(s, es) == End(s', es[1..])
  {
    s', op := Step(s, es[0]), Operation(s, es[0]);
    RunHead(s, es);
  }

  lemma SameObservation(s: R.State, e: R.Event)
    requires R.Inv(s) && R.Enabled(s, e) && W.Enabled(W.Wrap(s), e)
    ensures Observed(W.Wrap(s), e) == Operation(s, e)
  {
    assert W.Wrap(s).threads[e.t] == W.WrapPc(s.threads[e.t]);
  }

  lemma MachineOpsHead(m: W.Machine, es: seq<R.Event>)
    requires es != [] && W.Enabled(m, es[0]) && W.IsRun(W.Apply(m, es[0]), es[1..])
    ensures W.IsRun(m, es)
    ensures MachineOps(m, es) == [Observed(m, es[0])] + MachineOps(W.Apply(m, es[0]), es[1..])
  {
  }

  /** The operations read off the machine are these. */
  lemma {:induction false} SameOperations(s: R.State, es: seq<R.Event>, order: nat)
    requires R.Inv(s) && W.PowerOfTwoSize(s, order) && IsRun(s, es) && Sound(s, es)
    ensures W.IsRun(W.Wrap(s), es) && MachineOps(W.Wrap(s), es) == Operations(s, es)
    decreases |es|
  {
    if es == [] {
    } else {
      StepInv(s, es[0]);
      MachineStep(s, es[0], order);
      SameObservation(s, es[0]);
      SameOperations(Step(s, es[0]), es[1..], order);
      MachineOpsHead(W.Wrap(s), es);
      RunHead(s, es);
    }
  }

  /** From an empty ring, and while every fooled swap still fits, the 32-bit ring is a FIFO of
      capacity size - 1: its steps are a legal history that ends in what it holds, and what was taken
      followed by what it holds is what was published, in order. */
  lemma MachineRefinesFifo(s0: R.State, es: seq<R.Event>, order: nat)
    requires R.Init(s0) && W.PowerOfTwoSize(s0, order)
    requires W.IsRun(W.Wrap(s0), es) && Sound(s0, es)
    ensures var ops, q := MachineOps(W.Wrap(s0), es), MachineQueue(W.End(W.Wrap(s0), es));
            && Legal([], s0.size - 1, ops) && Final([], s0.size - 1, ops) == q
            && Removed([], s0.size - 1, ops) + q == Inserted(ops)
            && |q| <= s0.size - 1
  {
    R.InitInv(s0);
    assert R.Queue(s0) == [];
    var q := MachineEnds(s0, es, order);
    WholeHistory(s0.size - 1, MachineOps(W.Wrap(s0), es), q);
  }

  lemma MachineEnds(s: R.State, es: seq<R.Event>, order: nat) returns (q: seq<Mbuf>)
    requires R.Inv(s) && W.PowerOfTwoSize(s, order) && W.IsRun(W.Wrap(s), es) && Sound(s, es)
    ensures q == MachineQueue(W.End(W.Wrap(s), es))
    ensures History(R.Queue(s), s.size - 1, MachineOps(W.Wrap(s), es), q)
  {
    SoundRun(s, es, order);
    SoundRefines(s, es);
    OperationsRun(s, es);
    SameOperations(s, es, order);
    QueueOnMachine(End(s, es), order);
    q := R.Queue(End(s, es));
  }

  lemma WholeHistory(capacity: nat, ops: seq<Op>, q: seq<Mbuf>)
    requires History([], capacity, ops, q)
    ensures Removed([], capacity, ops) + q == Inserted(ops) && |q| <= capacity
  {
    Conservation([], capacity, ops);
    StaysBounded([], capacity, ops);
  }
}
