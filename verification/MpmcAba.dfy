// The wrap-around hazard of MpmcWrap is reachable: a run in which one producer sleeps between reading
// the head and its compare-and-swap while 2^32 objects go by. On an empty ring it does no harm; on a
// full one it overwrites an object that no consumer has read.

module MpmcAba {
  import opened BoundedFifo
  import opened Modular
  import R = MpmcRing
  import W = MpmcWrap
  import F = MpmcFooled

  const SLEEPER: R.Tid := 0
  const WORKER: R.Tid := 1
  const FILLER: Mbuf := 5

  function Start(): R.State {
    R.State(4, [0, 0, 0, 0], 0, 0, 0, 0, map[SLEEPER := R.Idle, WORKER := R.Idle], [], [], map[], 0)
  }

  /** The sleeper reads head 0, sees three free entries, and stops. */
  function FallAsleep(): seq<R.Event> {
    [R.CallEnq(SLEEPER, [7, 8, 9]), R.ReadHead(SLEEPER), R.Clamp(SLEEPER)]
  }

  function PutOne(): seq<R.Event> {
    [R.CallEnq(WORKER, [FILLER]), R.ReadHead(WORKER), R.Clamp(WORKER), R.Cas(WORKER), R.Copy(WORKER), R.Publish(WORKER)]
  }

  function TakeOne(): seq<R.Event> {
    [R.CallDeq(WORKER, 1), R.ReadHead(WORKER), R.Clamp(WORKER), R.Cas(WORKER), R.Copy(WORKER), R.Publish(WORKER)]
  }

  function Laps(n: nat): seq<R.Event> {
    if n == 0 then [] else Laps(n - 1) + (PutOne() + TakeOne())
  }

  /** A hazard-free run, and where it ends. */
  ghost predicate Leads(s: R.State, es: seq<R.Event>, s': R.State) {
    R.IsRun(s, es) && W.NoAba(s, es) && R.End(s, es) == s'
  }

  lemma {:induction false} Chain(s: R.State, a: seq<R.Event>, s': R.State, b: seq<R.Event>, s'': R.State)
    requires Leads(s, a, s') && Leads(s', b, s'')
    ensures Leads(s, a + b, s'')
    decreases |a|
  {
    if a == [] {
      assert a + b == b;
    } else {
      Chain(R.Apply(s, a[0]), a[1..], s', b, s'');
      assert (a + b)[0] == a[0] && (a + b)[1..] == a[1..] + b;
    }
  }

  lemma One(s: R.State, e: R.Event)
    requires |s.slots| == s.size > 0 && R.Enabled(s, e) && !W.Aba(s, e)
    ensures Leads(s, [e], R.Apply(s, e))
  {
    assert [e][1..] == [];
  }

  lemma Then(s: R.State, a: seq<R.Event>, s': R.State, e: R.Event)
    requires Leads(s, a, s')
    requires |s'.slots| == s'.size > 0 && R.Enabled(s', e) && !W.Aba(s', e)
    ensures Leads(s, a + [e], R.Apply(s', e))
  {
    One(s', e);
    Chain(s, a, s', [e], R.Apply(s', e));
  }

  /** The sleeper still holds its stale read, the worker is at `pc`, every object is a filler. */
  ghost predicate At(s: R.State, pc: R.Pc, prodHead: nat, prodTail: nat, consHead: nat, consTail: nat) {
    && s.size == |s.slots| == 4
    && s.prodHead == prodHead && s.prodTail == prodTail && s.consHead == consHead && s.consTail == consTail
    && s.threads == map[SLEEPER := R.EnqClamped([7, 8, 9], 0, 3), WORKER := pc]
    && |s.log| == prodHead
    && (forall k: nat | k < |s.log| :: s.log[k].obj == FILLER)
  }

  /** All indices quiet and the worker idle. */
  ghost predicate Between(s: R.State, queued: nat, total: nat) {
    queued <= total && At(s, R.Idle, total, total, total - queued, total - queued)
  }

  lemma PutRead(s: R.State, queued: nat, total: nat) returns (s': R.State)
    requires Between(s, queued, total) && queued < 3
    ensures Leads(s, PutOne()[..2], s')
    ensures At(s', R.EnqRead([FILLER], total), total, total, total - queued, total - queued)
  {
    var s1 := R.Apply(s, R.CallEnq(WORKER, [FILLER]));
    One(s, R.CallEnq(WORKER, [FILLER]));
    assert s1.threads[WORKER] == R.EnqCalled([FILLER]);
    s' := R.Apply(s1, R.ReadHead(WORKER));
    Then(s, [R.CallEnq(WORKER, [FILLER])], s1, R.ReadHead(WORKER));
    assert PutOne()[..2] == [R.CallEnq(WORKER, [FILLER])] + [R.ReadHead(WORKER)];
  }

  lemma PutClaim(s: R.State, queued: nat, total: nat) returns (s': R.State)
    requires queued < 3 && queued <= total
    requires At(s, R.EnqRead([FILLER], total), total, total, total - queued, total - queued)
    ensures Leads(s, PutOne()[2..4], s')
    ensures At(s', R.EnqCopy([FILLER], total, 0), total + 1, total, total - queued, total - queued)
  {
    assert R.FreeSeen(s, total) == 3 - queued;
    var s1 := R.Apply(s, R.Clamp(WORKER));
    One(s, R.Clamp(WORKER));
    assert s1.threads[WORKER] == R.EnqClamped([FILLER], total, 1);
    s' := R.Apply(s1, R.Cas(WORKER));
    Then(s, [R.Clamp(WORKER)], s1, R.Cas(WORKER));
    assert [FILLER][..1] == [FILLER];
    assert PutOne()[2..4] == [R.Clamp(WORKER)] + [R.Cas(WORKER)];
  }

  lemma PutFinish(s: R.State, queued: nat, total: nat) returns (s': R.State)
    requires queued < 3 && queued <= total
    requires At(s, R.EnqCopy([FILLER], total, 0), total + 1, total, total - queued, total - queued)
    ensures Leads(s, PutOne()[4..], s') && Between(s', queued + 1, total + 1)
  {
    var s1 := R.Apply(s, R.Copy(WORKER));
    One(s, R.Copy(WORKER));
    assert s1.threads[WORKER] == R.EnqCopy([FILLER], total, 1);
    s' := R.Apply(s1, R.Publish(WORKER));
    Then(s, [R.Copy(WORKER)], s1, R.Publish(WORKER));
    assert PutOne()[4..] == [R.Copy(WORKER)] + [R.Publish(WORKER)];
  }

  lemma Put(s: R.State, queued: nat, total: nat) returns (s': R.State)
    requires Between(s, queued, total) && queued < 3
    ensures Leads(s, PutOne(), s') && Between(s', queued + 1, total + 1)
  {
    var s1 := PutRead(s, queued, total);
    var s2 := PutClaim(s1, queued, total);
    s' := PutFinish(s2, queued, total);
    Chain(s, PutOne()[..2], s1, PutOne()[2..4], s2);
    Chain(s, PutOne()[..2] + PutOne()[2..4], s2, PutOne()[4..], s');
    assert PutOne()[..2] + PutOne()[2..4] + PutOne()[4..] == PutOne();
  }

  lemma TakeRead(s: R.State, queued: nat, total: nat) returns (s': R.State)
    requires Between(s, queued, total) && 0 < queued <= 3
    ensures Leads(s, TakeOne()[..2], s')
    ensures At(s', R.DeqRead(1, total - queued), total, total, total - queued, total - queued)
  {
    var s1 := R.Apply(s, R.CallDeq(WORKER, 1));
    One(s, R.CallDeq(WORKER, 1));
    assert s1.threads[WORKER] == R.DeqCalled(1);
    s' := R.Apply(s1, R.ReadHead(WORKER));
    Then(s, [R.CallDeq(WORKER, 1)], s1, R.ReadHead(WORKER));
    assert TakeOne()[..2] == [R.CallDeq(WORKER, 1)] + [R.ReadHead(WORKER)];
  }

  lemma TakeClaim(s: R.State, queued: nat, total: nat) returns (s': R.State)
    requires 0 < queued <= 3 && queued <= total
    requires At(s, R.DeqRead(1, total - queued), total, total, total - queued, total - queued)
    ensures Leads(s, TakeOne()[2..4], s')
    ensures At(s', R.DeqCopy(total - queued, 1, []), total, total, total - queued + 1, total - queued)
  {
    assert R.AvailableSeen(s, total - queued) == queued;
    var s1 := R.Apply(s, R.Clamp(WORKER));
    One(s, R.Clamp(WORKER));
    assert s1.threads[WORKER] == R.DeqClamped(1, total - queued, 1);
    s' := R.Apply(s1, R.Cas(WORKER));
    Then(s, [R.Clamp(WORKER)], s1, R.Cas(WORKER));
    assert TakeOne()[2..4] == [R.Clamp(WORKER)] + [R.Cas(WORKER)];
  }

  lemma TakeFinish(s: R.State, queued: nat, total: nat) returns (s': R.State)
    requires 0 < queued <= 3 && queued <= total
    requires At(s, R.DeqCopy(total - queued, 1, []), total, total, total - queued + 1, total - queued)
    ensures Leads(s, TakeOne()[4..], s') && Between(s', queued - 1, total)
  {
    var s1 := R.Apply(s, R.Copy(WORKER));
    One(s, R.Copy(WORKER));
    assert s1.threads[WORKER].DeqCopy? && |s1.threads[WORKER].got| == 1;
    s' := R.Apply(s1, R.Publish(WORKER));
    Then(s, [R.Copy(WORKER)], s1, R.Publish(WORKER));
    assert TakeOne()[4..] == [R.Copy(WORKER)] + [R.Publish(WORKER)];
  }

  lemma Take(s: R.State, queued: nat, total: nat) returns (s': R.State)
    requires Between(s, queued, total) && 0 < queued <= 3
    ensures Leads(s, TakeOne(), s') && Between(s', queued - 1, total)
  {
    var s1 := TakeRead(s, queued, total);
    var s2 := TakeClaim(s1, queued, total);
    s' := TakeFinish(s2, queued, total);
    Chain(s, TakeOne()[..2], s1, TakeOne()[2..4], s2);
    Chain(s, TakeOne()[..2] + TakeOne()[2..4], s2, TakeOne()[4..], s');
    assert TakeOne()[..2] + TakeOne()[2..4] + TakeOne()[4..] == TakeOne();
  }

  lemma Lap(s: R.State, total: nat) returns (s': R.State)
    requires Between(s, 0, total)
    ensures Leads(s, PutOne() + TakeOne(), s') && Between(s', 0, total + 1)
  {
    var s1 := Put(s, 0, total);
    s' := Take(s1, 1, total + 1);
    Chain(s, PutOne(), s1, TakeOne(), s');
  }

  /** Any number of objects may go by while the sleeper sleeps. */
  lemma {:induction false} RunLaps(s: R.State, n: nat) returns (s': R.State)
    requires Between(s, 0, 0)
    ensures Leads(s, Laps(n), s') && Between(s', 0, n)
  {
    if n == 0 {
      s' := s;
    } else {
      var s1 := RunLaps(s, n - 1);
      s' := Lap(s1, n - 1);
      Chain(s, Laps(n - 1), s1, PutOne() + TakeOne(), s');
    }
  }

  lemma Asleep() returns (s: R.State)
    ensures R.Init(Start()) && Leads(Start(), FallAsleep(), s) && Between(s, 0, 0)
  {
    var s1 := R.Apply(Start(), R.CallEnq(SLEEPER, [7, 8, 9]));
    One(Start(), R.CallEnq(SLEEPER, [7, 8, 9]));
    assert s1.threads[SLEEPER] == R.EnqCalled([7, 8, 9]);
    var s2 := R.Apply(s1, R.ReadHead(SLEEPER));
    Then(Start(), [R.CallEnq(SLEEPER, [7, 8, 9])], s1, R.ReadHead(SLEEPER));
    assert s2.threads[SLEEPER] == R.EnqRead([7, 8, 9], 0);
    assert R.FreeSeen(s2, 0) == 3;
    s := R.Apply(s2, R.Clamp(SLEEPER));
    Then(Start(), [R.CallEnq(SLEEPER, [7, 8, 9]), R.ReadHead(SLEEPER)], s2, R.Clamp(SLEEPER));
    assert s.threads == map[SLEEPER := R.EnqClamped([7, 8, 9], 0, 3), WORKER := R.Idle];
  }

  const WAKE_UP: seq<R.Event> := [R.Cas(SLEEPER), R.Copy(SLEEPER), R.Copy(SLEEPER)]

  /** After 2^32 objects the sleeper's compare-and-swap succeeds on the machine, and its second
      copy goes to slot 1. */
  lemma WakingWrites(s: R.State)
    requires Between(s, 3, WORD)
    ensures W.Aba(s, R.Cas(SLEEPER))
    ensures W.IsRun(W.Wrap(s), WAKE_UP)
    ensures var m := W.End(W.Wrap(s), WAKE_UP); |m.slots| == 4 && m.slots[1] == 8
  {
    var m0 := W.Wrap(s);
    assert m0.threads[SLEEPER] == R.EnqClamped([7, 8, 9], 0, 3);
    var m1 := W.Apply(m0, R.Cas(SLEEPER));
    assert m1.threads[SLEEPER] == R.EnqCopy([7, 8, 9], 0, 0) by {
      assert [7, 8, 9][..3] == [7, 8, 9];
    }
    var m2 := W.Apply(m1, R.Copy(SLEEPER));
    assert m2.threads[SLEEPER] == R.EnqCopy([7, 8, 9], 0, 1);
    assert |m2.slots| == 4;
    var m3 := W.Apply(m2, R.Copy(SLEEPER));
    assert BitAnd(1, 3) == 1;
    assert W.Slot(m2, 1) == 1;
    assert m3.slots[1] == 8;
    assert WAKE_UP[1..] == [R.Copy(SLEEPER), R.Copy(SLEEPER)];
    assert WAKE_UP[1..][1..] == [R.Copy(SLEEPER)];
    assert WAKE_UP[1..][1..][1..] == [];
    assert W.IsRun(m3, []) && W.End(m3, []) == m3;
    assert W.IsRun(m2, WAKE_UP[1..][1..]) && W.End(m2, WAKE_UP[1..][1..]) == m3;
    assert W.IsRun(m1, WAKE_UP[1..]) && W.End(m1, WAKE_UP[1..]) == m3;
    assert W.IsRun(m0, WAKE_UP) && W.End(m0, WAKE_UP) == m3;
  }

  function Fill(): seq<R.Event> {
    PutOne() + PutOne() + PutOne()
  }

  lemma RunFill(s: R.State, total: nat) returns (s': R.State)
    requires Between(s, 0, total)
    ensures Leads(s, Fill(), s') && Between(s', 3, total + 3)
  {
    var s1 := Put(s, 0, total);
    var s2 := Put(s1, 1, total + 1);
    s' := Put(s2, 2, total + 2);
    Chain(s, PutOne(), s1, PutOne(), s2);
    Chain(s, PutOne() + PutOne(), s2, PutOne(), s');
  }

  lemma LapsBeforeFilling() returns (n: nat)
    ensures n + 3 == WORD
  {
    n := WORD - 3;
  }

  /** The hazard alone is harmless: when 2^32 objects have gone by and the ring is empty again, the
      fooled burst fits. */
  lemma HarmlessHazardReachable() returns (es: seq<R.Event>)
    ensures R.Init(Start()) && R.IsRun(Start(), es) && W.NoAba(Start(), es)
    ensures var s := R.End(Start(), es);
            W.Aba(s, R.Cas(SLEEPER)) && F.StillFits(s, SLEEPER) && F.Sound(s, [R.Cas(SLEEPER)])
  {
    var s0 := Asleep();
    var s1 := RunLaps(s0, WORD);
    Chain(Start(), FallAsleep(), s0, Laps(WORD), s1);
    es := FallAsleep() + Laps(WORD);
    assert [R.Cas(SLEEPER)][1..] == [];
  }

  /** The hazard is reached by a run whose every earlier step was sound, and then a queued object
      is overwritten before any consumer has read it. */
  lemma HazardReachable() returns (es: seq<R.Event>)
    ensures R.Init(Start()) && W.PowerOfTwoSize(Start(), 2)
    ensures R.IsRun(Start(), es) && W.NoAba(Start(), es)
    ensures var s := R.End(Start(), es);
            && s.size == 4 && W.Aba(s, R.Cas(SLEEPER)) && !F.StillFits(s, SLEEPER)
            && W.IsRun(W.Wrap(s), WAKE_UP)
            && s.consHead < s.prodTail <= |s.log| && s.consHead % 4 == 1
            && |s.slots| == 4 && s.slots[1] == s.log[s.consHead].obj
            && var m := W.End(W.Wrap(s), WAKE_UP); |m.slots| == 4 && m.slots[1] != s.log[s.consHead].obj
  {
    var n := LapsBeforeFilling();
    var s0 := Asleep();
    var s1 := RunLaps(s0, n);
    var s2 := RunFill(s1, n);
    Chain(Start(), FallAsleep(), s0, Laps(n), s1);
    Chain(Start(), FallAsleep() + Laps(n), s1, Fill(), s2);
    es := FallAsleep() + Laps(n) + Fill();
    assert Pow2(2) == 4;
    WakingWrites(s2);
    R.ExactlyOnceDelivery(Start(), es);
  }
}
