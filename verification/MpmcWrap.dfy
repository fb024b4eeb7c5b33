// The same ring on 32-bit registers: indices wrap, and a slot is `index & mask`.
//
// A machine state is the image of a MpmcRing state with every index reduced modulo 2^32. The two
// agree step by step, except at one place: a compare-and-swap on 32-bit registers cannot tell a
// head that has not moved from one that has moved by a positive multiple of 2^32.

module MpmcWrap {
  import opened BoundedFifo
  import opened Modular
  import R = MpmcRing

  datatype Machine = Machine(
    mask: nat, slots: seq<Mbuf>,
    prodHead: nat, prodTail: nat, consHead: nat, consTail: nat,
    threads: map<R.Tid, R.Pc>)

  predicate Enabled(m: Machine, e: R.Event) {
    e.t in m.threads &&
    var pc := m.threads[e.t];
    match e
    case CallEnq(_, _) => pc.Idle?
    case CallDeq(_, _) => pc.Idle?
    case ReadHead(_) => pc.EnqCalled? || pc.DeqCalled?
    case Clamp(_) => pc.EnqRead? || pc.DeqRead?
    case Cas(_) => pc.EnqClamped? || pc.DeqClamped?
    case Copy(_) => (pc.EnqCopy? && pc.done < |pc.objs|) || (pc.DeqCopy? && |pc.got| < pc.n)
    case Publish(_) =>
      || (pc.EnqCopy? && pc.done == |pc.objs| && m.prodTail == pc.oldHead)
      || (pc.DeqCopy? && |pc.got| == pc.n && m.consTail == pc.oldHead)
  }

  function Goto(m: Machine, t: R.Tid, pc: R.Pc): Machine {
    m.(threads := m.threads[t := pc])
  }

  /** The slot of a wrapped index; the guard is the bound of the slot array. */
  function Slot(m: Machine, index: nat): nat {
    BitAnd(Wrap32(index), m.mask)
  }

  function ReadSlot(m: Machine, index: nat): Mbuf {
    if Slot(m, index) < |m.slots| then m.slots[Slot(m, index)] else 0
  }

  function WriteSlot(m: Machine, index: nat, obj: Mbuf): seq<Mbuf> {
    if Slot(m, index) < |m.slots| then m.slots[Slot(m, index) := obj] else m.slots
  }

  function Apply(m: Machine, e: R.Event): Machine
    requires Enabled(m, e)
  {
    var t := e.t;
    var pc := m.threads[t];
    match e
    case CallEnq(_, objs) => Goto(m, t, R.EnqCalled(objs))
    case CallDeq(_, want) => Goto(m, t, R.DeqCalled(want))
    case ReadHead(_) =>
      if pc.EnqCalled? then Goto(m, t, R.EnqRead(pc.objs, m.prodHead))
      else Goto(m, t, R.DeqRead(pc.want, m.consHead))
    case Clamp(_) =>
      if pc.EnqRead? then
        var n := Min(|pc.objs|, Wrap32(m.mask + m.consTail - pc.oldHead));
        Goto(m, t, if n == 0 then R.Idle else R.EnqClamped(pc.objs, pc.oldHead, n))
      else
        var n := Min(pc.want, Wrap32(m.prodTail - pc.oldHead));
        Goto(m, t, if n == 0 then R.Idle else R.DeqClamped(pc.want, pc.oldHead, n))
    case Cas(_) =>
      if pc.EnqClamped? then
        if m.prodHead == pc.oldHead && pc.n <= |pc.objs| then
          Goto(m, t, R.EnqCopy(pc.objs[..pc.n], pc.oldHead, 0)).(prodHead := Wrap32(pc.oldHead + pc.n))
        else
          Goto(m, t, R.EnqCalled(pc.objs))
      else
        if m.consHead == pc.oldHead then
          Goto(m, t, R.DeqCopy(pc.oldHead, pc.n, [])).(consHead := Wrap32(pc.oldHead + pc.n))
        else
          Goto(m, t, R.DeqCalled(pc.want))
    case Copy(_) =>
      if pc.EnqCopy? then
        Goto(m, t, R.EnqCopy(pc.objs, pc.oldHead, pc.done + 1))
          .(slots := WriteSlot(m, pc.oldHead + pc.done, pc.objs[pc.done]))
      else
        Goto(m, t, R.DeqCopy(pc.oldHead, pc.n, pc.got + [ReadSlot(m, pc.oldHead + |pc.got|)]))
    case Publish(_) =>
      if pc.EnqCopy? then Goto(m, t, R.Idle).(prodTail := Wrap32(pc.oldHead + |pc.objs|))
      else Goto(m, t, R.Idle).(consTail := Wrap32(pc.oldHead + pc.n))
  }

  predicate IsRun(m: Machine, es: seq<R.Event>)
    decreases |es|
  {
    es == [] || (Enabled(m, es[0]) && IsRun(Apply(m, es[0]), es[1..]))
  }

  function End(m: Machine, es: seq<R.Event>): Machine
    requires IsRun(m, es)
    decreases |es|
  {
    if es == [] then m else End(Apply(m, es[0]), es[1..])
  }

  // ---------------------------------------------------------------- the image of an unbounded state

  function WrapPc(pc: R.Pc): R.Pc {
    match pc
    case EnqRead(objs, oldHead) => R.EnqRead(objs, Wrap32(oldHead))
    case EnqClamped(objs, oldHead, n) => R.EnqClamped(objs, Wrap32(oldHead), n)
    case EnqCopy(objs, oldHead, done) => R.EnqCopy(objs, Wrap32(oldHead), done)
    case DeqRead(want, oldHead) => R.DeqRead(want, Wrap32(oldHead))
    case DeqClamped(want, oldHead, n) => R.DeqClamped(want, Wrap32(oldHead), n)
    case DeqCopy(oldHead, n, got) => R.DeqCopy(Wrap32(oldHead), n, got)
    case _ => pc
  }

  function Wrap(s: R.State): Machine
    requires s.size > 0
  {
    Machine(s.size - 1, s.slots, Wrap32(s.prodHead), Wrap32(s.prodTail), Wrap32(s.consHead), Wrap32(s.consTail),
            map t | t in s.threads :: WrapPc(s.threads[t]))
  }

  /** The compare-and-swap about to run meets a head that went round the whole 32-bit range. */
  predicate Aba(s: R.State, e: R.Event) {
    && e.Cas? && e.t in s.threads
    && var pc := s.threads[e.t];
    || (pc.EnqClamped? && s.prodHead != pc.oldHead && Wrap32(s.prodHead) == Wrap32(pc.oldHead))
    || (pc.DeqClamped? && s.consHead != pc.oldHead && Wrap32(s.consHead) == Wrap32(pc.oldHead))
  }

  /** Powers of two, up to 2^31; the library's rings are among them. */
  predicate PowerOfTwoSize(s: R.State, order: nat) {
    order <= 31 && s.size == Pow2(order)
  }

  lemma WrapGoto(s: R.State, t: R.Tid, pc: R.Pc)
    requires s.size > 0 && t in s.threads
    ensures Wrap(R.Goto(s, t, pc)) == Goto(Wrap(s), t, WrapPc(pc))
  {
    assert Wrap(R.Goto(s, t, pc)).threads == Goto(Wrap(s), t, WrapPc(pc)).threads;
  }

  lemma SamePublishGuard(s: R.State, t: R.Tid)
    requires R.Indices(s) && t in s.threads && R.PcOk(s, t)
    ensures s.threads[t].EnqCopy? ==>
              (Wrap32(s.prodTail) == Wrap32(s.threads[t].oldHead) <==> s.prodTail == s.threads[t].oldHead)
    ensures s.threads[t].DeqCopy? ==>
              (Wrap32(s.consTail) == Wrap32(s.threads[t].oldHead) <==> s.consTail == s.threads[t].oldHead)
  {
    if s.threads[t].EnqCopy? {
      WrapNear(s.prodTail, s.threads[t].oldHead);
    } else if s.threads[t].DeqCopy? {
      WrapNear(s.consTail, s.threads[t].oldHead);
    }
  }

  lemma SameEnabled(s: R.State, e: R.Event)
    requires R.Indices(s) && (e.t in s.threads ==> R.PcOk(s, e.t))
    ensures Enabled(Wrap(s), e) <==> R.Enabled(s, e)
  {
    if e.t in s.threads {
      SamePublishGuard(s, e.t);
      assert Wrap(s).threads[e.t] == WrapPc(s.threads[e.t]);
    }
  }

  lemma SameClamp(s: R.State, t: R.Tid)
    requires s.size > 0
    requires R.Enabled(s, R.Clamp(t)) && Enabled(Wrap(s), R.Clamp(t))
    ensures Apply(Wrap(s), R.Clamp(t)) == Wrap(R.ApplyClamp(s, t))
  {
    match s.threads[t]
    case EnqRead(objs, oldHead) =>
      WrapSub(s.size - 1, s.consTail, oldHead);
      var n := Min(|objs|, R.FreeSeen(s, oldHead));
      WrapGoto(s, t, if n == 0 then R.Idle else R.EnqClamped(objs, oldHead, n));
    case DeqRead(want, oldHead) =>
      WrapSub(0, s.prodTail, oldHead);
      var n := Min(want, R.AvailableSeen(s, oldHead));
      WrapGoto(s, t, if n == 0 then R.Idle else R.DeqClamped(want, oldHead, n));
  }

  lemma SameEnqCas(s: R.State, t: R.Tid)
    requires s.size > 0
    requires R.Enabled(s, R.Cas(t)) && Enabled(Wrap(s), R.Cas(t)) && s.threads[t].EnqClamped?
    requires !Aba(s, R.Cas(t))
    ensures Apply(Wrap(s), R.Cas(t)) == Wrap(R.ApplyCas(s, t))
  {
    var pc := s.threads[t];
    if s.prodHead == pc.oldHead && pc.n <= |pc.objs| {
      WrapGoto(s, t, R.EnqCopy(pc.objs[..pc.n], pc.oldHead, 0));
      WrapAdd(pc.oldHead, pc.n);
    } else {
      WrapGoto(s, t, R.EnqCalled(pc.objs));
    }
  }

  lemma SameDeqCas(s: R.State, t: R.Tid)
    requires s.size > 0
    requires R.Enabled(s, R.Cas(t)) && Enabled(Wrap(s), R.Cas(t)) && s.threads[t].DeqClamped?
    requires !Aba(s, R.Cas(t))
    ensures Apply(Wrap(s), R.Cas(t)) == Wrap(R.ApplyCas(s, t))
  {
    var pc := s.threads[t];
    if s.consHead == pc.oldHead {
      WrapGoto(s, t, R.DeqCopy(pc.oldHead, pc.n, []));
      WrapAdd(pc.oldHead, pc.n);
    } else {
      WrapGoto(s, t, R.DeqCalled(pc.want));
    }
  }

  lemma SameSlot(s: R.State, oldHead: nat, i: nat, order: nat)
    requires R.Indices(s) && PowerOfTwoSize(s, order)
    ensures Slot(Wrap(s), Wrap32(oldHead) + i) == (oldHead + i) % s.size < |s.slots|
  {
    WrappedSlot(oldHead + i, order);
    WrapAdd(oldHead, i);
  }

  lemma SameEnqCopy(s: R.State, t: R.Tid, order: nat)
    requires R.Indices(s) && PowerOfTwoSize(s, order)
    requires R.Enabled(s, R.Copy(t)) && Enabled(Wrap(s), R.Copy(t)) && s.threads[t].EnqCopy?
    ensures Apply(Wrap(s), R.Copy(t)) == Wrap(R.ApplyCopy(s, t))
  {
    var pc := s.threads[t];
    SameSlot(s, pc.oldHead, pc.done, order);
    WrapGoto(s, t, R.EnqCopy(pc.objs, pc.oldHead, pc.done + 1));
  }

  lemma SameDeqCopy(s: R.State, t: R.Tid, order: nat)
    requires R.Indices(s) && PowerOfTwoSize(s, order)
    requires R.Enabled(s, R.Copy(t)) && Enabled(Wrap(s), R.Copy(t)) && s.threads[t].DeqCopy?
    ensures Apply(Wrap(s), R.Copy(t)) == Wrap(R.ApplyCopy(s, t))
  {
    var pc := s.threads[t];
    SameSlot(s, pc.oldHead, |pc.got|, order);
    WrapGoto(s, t, R.DeqCopy(pc.oldHead, pc.n, pc.got + [s.slots[(pc.oldHead + |pc.got|) % s.size]]));
  }

  lemma SamePublish(s: R.State, t: R.Tid)
    requires s.size > 0
    requires R.Enabled(s, R.Publish(t)) && Enabled(Wrap(s), R.Publish(t))
    ensures Apply(Wrap(s), R.Publish(t)) == Wrap(R.ApplyPublish(s, t))
  {
    WrapGoto(s, t, R.Idle);
    match s.threads[t]
    case EnqCopy(objs, oldHead, _) => WrapAdd(oldHead, |objs|);
    case DeqCopy(oldHead, n, _) => WrapAdd(oldHead, n);
  }

  /** Away from the wrap-around hazard, the 32-bit machine and the unbounded ring take the same step. */
  lemma StepAgrees(s: R.State, e: R.Event, order: nat)
    requires R.Inv(s) && PowerOfTwoSize(s, order)
    requires !Aba(s, e)
    ensures Enabled(Wrap(s), e) <==> R.Enabled(s, e)
    ensures R.Enabled(s, e) ==> Apply(Wrap(s), e) == Wrap(R.Apply(s, e))
  {
    assert e.t in s.threads ==> R.PcOk(s, e.t);
    SameEnabled(s, e);
    if R.Enabled(s, e) {
      match e
      case CallEnq(t, objs) => WrapGoto(s, t, R.EnqCalled(objs));
      case CallDeq(t, want) => WrapGoto(s, t, R.DeqCalled(want));
      case ReadHead(t) =>
        if s.threads[t].EnqCalled? {
          WrapGoto(s, t, R.EnqRead(s.threads[t].objs, s.prodHead));
        } else {
          WrapGoto(s, t, R.DeqRead(s.threads[t].want, s.consHead));
        }
      case Clamp(t) => SameClamp(s, t);
      case Cas(t) => if s.threads[t].EnqClamped? { SameEnqCas(s, t); } else { SameDeqCas(s, t); }
      case Copy(t) => if s.threads[t].EnqCopy? { SameEnqCopy(s, t, order); } else { SameDeqCopy(s, t, order); }
      case Publish(t) => SamePublish(s, t);
    }
  }

  /** The hazard is exact: the two agree on a compare-and-swap if and only if the head has not
      moved by a positive multiple of 2^32 since it was read. */
  lemma CasAgreesIff(s: R.State, t: R.Tid, order: nat)
    requires R.Inv(s) && PowerOfTwoSize(s, order)
    requires R.Enabled(s, R.Cas(t))
    ensures Enabled(Wrap(s), R.Cas(t))
    ensures Apply(Wrap(s), R.Cas(t)) == Wrap(R.Apply(s, R.Cas(t))) <==> !Aba(s, R.Cas(t))
  {
    assert R.PcOk(s, t);
    SameEnabled(s, R.Cas(t));
    if !Aba(s, R.Cas(t)) {
      StepAgrees(s, R.Cas(t), order);
    } else {
      var m, s' := Apply(Wrap(s), R.Cas(t)), R.Apply(s, R.Cas(t));
      assert Wrap(s').threads[t] == WrapPc(s'.threads[t]);
      assert m.threads[t] != Wrap(s').threads[t];
    }
  }

  /** No compare-and-swap of the run meets the hazard. */
  predicate NoAba(s: R.State, es: seq<R.Event>)
    decreases |es|
  {
    es == [] ||
    (!Aba(s, es[0]) &&
     (R.Enabled(s, es[0]) && |s.slots| == s.size > 0 ==> NoAba(R.Apply(s, es[0]), es[1..])))
  }

  /** Away from the hazard the 32-bit machine and the unbounded ring have the same runs, and the
      one ends in the image of where the other does. */
  lemma {:induction false} RunAgrees(s: R.State, es: seq<R.Event>, order: nat)
    requires R.Inv(s) && PowerOfTwoSize(s, order)
    requires NoAba(s, es)
    ensures IsRun(Wrap(s), es) <==> R.IsRun(s, es)
    ensures R.IsRun(s, es) ==> R.End(s, es).size == s.size && End(Wrap(s), es) == Wrap(R.End(s, es))
    decreases |es|
  {
    if es != [] {
      StepAgrees(s, es[0], order);
    }
    if es != [] && R.Enabled(s, es[0]) {
      R.StepInv(s, es[0]);
      R.SizeKept(s, es[0]);
      RunAgrees(R.Apply(s, es[0]), es[1..], order);
    }
  }
}
