// What becomes of a call: however often its compare-and-swap fails, the burst it was called with is
// the one it claims and publishes, and a consumer never takes more than it asked for.

module MpmcCalls {
  import opened BoundedFifo
  import opened Modular
  import opened MpmcRing

  /** The event starts or ends a call of thread t. */
  predicate StartsOrEnds(e: Event, t: Tid) {
    e.t == t && (e.CallEnq? || e.CallDeq? || e.Publish?)
  }

  /** Thread t is at work on enqueuing `objs`, or has given up. */
  predicate Enqueuing(pc: Pc, objs: seq<Mbuf>) {
    || pc == Idle
    || pc == EnqCalled(objs)
    || (pc.EnqRead? && pc.objs == objs)
    || (pc.EnqClamped? && pc.objs == objs && 0 < pc.n <= |objs|)
    || (pc.EnqCopy? && 0 < |pc.objs| && pc.objs <= objs)
  }

  /** Thread t is at work on dequeuing up to `want` objects, or has given up. */
  predicate Dequeuing(pc: Pc, want: nat) {
    || pc == Idle
    || pc == DeqCalled(want)
    || (pc.DeqRead? && pc.want == want)
    || (pc.DeqClamped? && pc.want == want && 0 < pc.n <= want)
    || (pc.DeqCopy? && 0 < pc.n <= want)
  }

  lemma StepKeepsCall(s: State, e: Event, t: Tid)
    requires |s.slots| == s.size > 0 && Enabled(s, e) && t in s.threads && !StartsOrEnds(e, t)
    ensures t in Apply(s, e).threads
    ensures forall objs :: Enqueuing(s.threads[t], objs) ==> Enqueuing(Apply(s, e).threads[t], objs)
    ensures forall want :: Dequeuing(s.threads[t], want) ==> Dequeuing(Apply(s, e).threads[t], want)
  {
  }

  lemma {:induction false} RunKeepsCall(s: State, es: seq<Event>, t: Tid)
    requires IsRun(s, es) && t in s.threads && forall e <- es :: !StartsOrEnds(e, t)
    ensures t in End(s, es).threads
    ensures forall objs :: Enqueuing(s.threads[t], objs) ==> Enqueuing(End(s, es).threads[t], objs)
    ensures forall want :: Dequeuing(s.threads[t], want) ==> Dequeuing(End(s, es).threads[t], want)
    decreases |es|
  {
    if es == [] {
    } else {
      assert es[0] in es && forall e <- es[1..] :: e in es;
      StepKeepsCall(s, es[0], t);
      RunKeepsCall(Apply(s, es[0]), es[1..], t);
    }
  }

  /** A run splits at any point. */
  lemma {:induction false} RunSplit(s: State, es: seq<Event>, k: nat)
    requires IsRun(s, es) && k <= |es|
    ensures IsRun(s, es[..k]) && IsRun(End(s, es[..k]), es[k..]) && End(End(s, es[..k]), es[k..]) == End(s, es)
    decreases |es|
  {
    if k == 0 {
      assert es[..0] == [] && es[0..] == es;
    } else {
      RunSplit(Apply(s, es[0]), es[1..], k - 1);
      assert es[..k][0] == es[0] && es[..k][1..] == es[1..][..k - 1] && es[1..][k - 1..] == es[k..];
    }
  }

  /** Position j of the run belongs to the call of thread t that starts at position i. */
  predicate SameCall(es: seq<Event>, t: Tid, i: nat, j: nat) {
    && i < j < |es| && es[i].t == t && (es[i].CallEnq? || es[i].CallDeq?)
    && forall k | i < k < j :: !StartsOrEnds(es[k], t)
  }

  lemma CallAt(s: State, es: seq<Event>, t: Tid, i: nat, j: nat)
    requires IsRun(s, es) && SameCall(es, t, i, j)
    ensures IsRun(s, es[..j]) && IsRun(End(s, es[..j]), es[j..])
    ensures t in End(s, es[..j]).threads
    ensures es[i].CallEnq? ==> Enqueuing(End(s, es[..j]).threads[t], es[i].objs)
    ensures es[i].CallDeq? ==> Dequeuing(End(s, es[..j]).threads[t], es[i].want)
  {
    RunSplit(s, es, j);
    RunSplit(s, es[..j], i);
    assert es[..j][..i] == es[..i] && es[..j][i..] == es[i..j];
    var s1 := End(s, es[..i]);
    assert es[i..j][0] == es[i] && es[i..j][1..] == es[i + 1..j];
    var s2 := Apply(s1, es[i]);
    forall e <- es[i + 1..j]
      ensures !StartsOrEnds(e, t)
    {
    }
    RunKeepsCall(s2, es[i + 1..j], t);
  }

  /** What a producer call does to the queue: whenever in a run it publishes, the operation observed
      is the appending of a non-empty prefix of the very burst it was called with. */
  lemma PublishedIsCalled(s: State, es: seq<Event>, t: Tid, objs: seq<Mbuf>, i: nat, j: nat)
    requires IsRun(s, es) && SameCall(es, t, i, j) && es[i] == CallEnq(t, objs) && es[j] == Publish(t)
    ensures IsRun(s, es[..j]) && Enabled(End(s, es[..j]), es[j])
    ensures exists n :: 0 < n <= |objs| && Observe(End(s, es[..j]), es[j]) == Put(objs[..n])
  {
    CallAt(s, es, t, i, j);
    var pc := End(s, es[..j]).threads[t];
    assert Enabled(End(s, es[..j]), es[j]);
    assert pc.EnqCopy? && pc.objs == objs[..|pc.objs|];
  }

  /** What a consumer call does: it takes from the queue at most once that many objects, at least one,
      and publishes exactly as many. */
  lemma TakenIsWanted(s: State, es: seq<Event>, t: Tid, want: nat, i: nat, j: nat)
    requires IsRun(s, es) && SameCall(es, t, i, j) && es[i] == CallDeq(t, want)
    ensures IsRun(s, es[..j]) && Enabled(End(s, es[..j]), es[j])
    ensures var op := Observe(End(s, es[..j]), es[j]);
            es[j].t == t ==> !op.Put? && (op.Take? ==> 0 < op.n <= want)
    ensures es[j] == Publish(t) ==>
              var pc := End(s, es[..j]).threads[t]; pc.DeqCopy? && 0 < |pc.got| == pc.n <= want
  {
    CallAt(s, es, t, i, j);
    assert Enabled(End(s, es[..j]), es[j]);
  }

  /** The step is a compare-and-swap of thread t that claims nothing. */
  predicate Fails(s: State, e: Event, t: Tid)
    requires |s.slots| == s.size > 0 && Enabled(s, e)
  {
    && e == Cas(t) && t in Apply(s, e).threads
    && !Apply(s, e).threads[t].EnqCopy? && !Apply(s, e).threads[t].DeqCopy?
  }

  /** When the step of a thread ends its call: at publication, or at a clamp that leaves no object to
      put or take. A compare-and-swap never does. */
  lemma CallEndsIff(s: State, e: Event)
    requires |s.slots| == s.size > 0 && Enabled(s, e) && !e.CallEnq? && !e.CallDeq?
    ensures e.t in Apply(s, e).threads
    ensures Apply(s, e).threads[e.t] == Idle <==>
              || e.Publish?
              || (e.Clamp? && match s.threads[e.t]
                              case EnqRead(objs, oldHead) =>
                                objs == [] || (s.size - 1 + s.consTail - oldHead) % WORD == 0
                              case DeqRead(want, oldHead) =>
                                want == 0 || (s.prodTail - oldHead) % WORD == 0)
  {
  }

  /** After a failed swap the call starts over with the burst, or the number, that it was made with. */
  lemma RetryKeepsArguments(s: State, es: seq<Event>, t: Tid, i: nat, j: nat)
    requires IsRun(s, es) && SameCall(es, t, i, j)
    ensures IsRun(s, es[..j]) && |End(s, es[..j]).slots| == End(s, es[..j]).size > 0 && Enabled(End(s, es[..j]), es[j])
    ensures Fails(End(s, es[..j]), es[j], t) ==>
              var pc := Apply(End(s, es[..j]), es[j]).threads[t];
              && (es[i].CallEnq? ==> pc == EnqCalled(es[i].objs))
              && (es[i].CallDeq? ==> pc == DeqCalled(es[i].want))
  {
    CallAt(s, es, t, i, j);
    StepKeepsCallAt(End(s, es[..j]), es, t, i, j);
  }

  lemma StepKeepsCallAt(s: State, es: seq<Event>, t: Tid, i: nat, j: nat)
    requires SameCall(es, t, i, j) && IsRun(s, es[j..]) && t in s.threads
    requires es[i].CallEnq? ==> Enqueuing(s.threads[t], es[i].objs)
    requires es[i].CallDeq? ==> Dequeuing(s.threads[t], es[i].want)
    ensures |s.slots| == s.size > 0 && Enabled(s, es[j])
    ensures Fails(s, es[j], t) ==>
              var pc := Apply(s, es[j]).threads[t];
              && (es[i].CallEnq? ==> pc == EnqCalled(es[i].objs))
              && (es[i].CallDeq? ==> pc == DeqCalled(es[i].want))
  {
    assert es[j..][0] == es[j];
    if Fails(s, es[j], t) {
      StepKeepsCall(s, es[j], t);
    }
  }
}
