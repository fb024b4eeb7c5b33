// The order of the packets in the five-stage pipeline: it is kept in every run if and only if no
// stage has a second core. One core for each stage is enough because every ring is first in, first
// out; a second core can be overtaken between its two ring operations.

module StagesOrder {
  import opened Stages

  ghost predicate Increasing(xs: seq<nat>) {
    forall i, j | 0 <= i < j < |xs| :: xs[i] < xs[j]
  }

  predicate OnePerStage(s: State) {
    forall t, u | 0 <= t < u < |s.stage| :: s.stage[t] != s.stage[u]
  }

  // ---------------------------------------------------------------- one core for each stage

  /** The local array of the core of stage k; empty when there is none. */
  ghost function BurstOf(s: State, k: nat): seq<nat>
    requires WellFormed(s)
  {
    if t: nat :| t < |s.stage| && s.stage[t] == k then s.bursts[t] else []
  }

  /** The places from reception to transmission: each core's array and behind it its ring, or what was
      sent. */
  ghost function Place(s: State, i: nat): seq<nat>
    requires WellFormed(s) && i < 10
  {
    if i % 2 == 0 then BurstOf(s, i / 2) else if i / 2 == TX then s.sent else s.rings[i / 2]
  }

  ghost function Line(s: State): (line: seq<seq<nat>>)
    requires WellFormed(s)
    ensures |line| == 10 && forall i | 0 <= i < 10 :: line[i] == Place(s, i)
  {
    seq(10, i requires 0 <= i < 10 => Place(s, i))
  }

  /** Later places hold earlier packets, each place in order. */
  ghost predicate Ahead(line: seq<seq<nat>>, received: nat) {
    && (forall i | 0 <= i < |line| :: Increasing(line[i]))
    && (forall i, j, x, y | 0 <= i < j < |line| && x in line[j] && y in line[i] :: x < y)
    && (forall i, x | 0 <= i < |line| && x in line[i] :: x < received)
  }

  /** Moving the front of one place to the back of the next keeps the order, whether the rest stays
      or is lost. */
  lemma MovedAhead(line: seq<seq<nat>>, line': seq<seq<nat>>, received: nat, d: nat, n: nat)
    requires Ahead(line, received) && 0 < d < |line| == |line'| && n <= |line[d - 1]|
    requires forall i | 0 <= i < |line| && i != d - 1 && i != d :: line'[i] == line[i]
    requires line'[d] == line[d] + line[d - 1][..n]
    requires line'[d - 1] == line[d - 1][n..] || line'[d - 1] == []
    ensures Ahead(line', received)
  {
    CutIncreasing(line[d - 1], n);
    JoinIncreasing(line[d], line[d - 1][..n]);
    forall i, x | 0 <= i < |line| && x in line'[i]
      ensures x < received
    {
      assert x in line[i] || (i == d && x in line[d - 1]);
    }
    forall i, j, x, y | 0 <= i < j < |line| && x in line'[j] && y in line'[i]
      ensures x < y
    {
      assert x in line[j] || (j == d && x in line[d - 1][..n] && x in line[d - 1]);
      assert y in line[i] || (i == d && y in line[d - 1]);
      assert i == d - 1 ==> y in line[d - 1][n..];
    }
  }

  lemma CutIncreasing(xs: seq<nat>, n: nat)
    requires Increasing(xs) && n <= |xs|
    ensures Increasing(xs[..n]) && Increasing(xs[n..])
    ensures forall x <- xs[..n], y <- xs[n..] :: x < y
    ensures forall x <- xs[..n] :: x in xs
    ensures forall y <- xs[n..] :: y in xs
  {
  }

  lemma JoinIncreasing(a: seq<nat>, b: seq<nat>)
    requires Increasing(a) && Increasing(b) && forall x <- a, y <- b :: x < y
    ensures Increasing(a + b)
  {
    forall i, j | 0 <= i < j < |a + b|
      ensures (a + b)[i] < (a + b)[j]
    {
      if i < |a| <= j {
        assert (a + b)[i] in a && (a + b)[j] in b;
      }
    }
  }

  lemma {:induction false} NumbersIncrease(from: nat, n: nat)
    ensures Increasing(Numbers(from, n)) && forall x <- Numbers(from, n) :: from <= x < from + n
    decreases n
  {
    if n == 0 {
    } else {
      NumbersIncrease(from, n - 1);
      JoinIncreasing(Numbers(from, n - 1), [from + n - 1]);
    }
  }

  lemma ReceivedAhead(line: seq<seq<nat>>, line': seq<seq<nat>>, received: nat, n: nat)
    requires Ahead(line, received) && 0 < |line| == |line'| && line[0] == []
    requires line'[0] == Numbers(received, n) && forall i | 0 < i < |line| :: line'[i] == line[i]
    ensures Ahead(line', received + n)
  {
    NumbersIncrease(received, n);
  }

  lemma BurstAt(s: State, t: nat)
    requires WellFormed(s) && OnePerStage(s) && t < |s.stage|
    ensures BurstOf(s, s.stage[t]) == s.bursts[t]
  {
  }

  lemma BurstsKept(s: State, s': State, t: nat, k: nat)
    requires WellFormed(s) && WellFormed(s') && OnePerStage(s) && t < |s.stage| && s.stage[t] != k
    requires s'.stage == s.stage && s'.bursts == s.bursts[t := s'.bursts[t]]
    ensures BurstOf(s', k) == BurstOf(s, k)
  {
    if u: nat :| u < |s.stage| && s.stage[u] == k {
      BurstAt(s, u);
      BurstAt(s', u);
    }
  }

  lemma StepBursts(s: State, e: Event)
    requires WellFormed(s) && OnePerStage(s) && Enabled(s, e)
    ensures var s', k := Apply(s, e), s.stage[e.t];
            && OnePerStage(s') && BurstOf(s, k) == s.bursts[e.t] && BurstOf(s', k) == s'.bursts[e.t]
            && forall j: nat | j != k :: BurstOf(s', j) == BurstOf(s, j)
  {
    var s', k := Apply(s, e), s.stage[e.t];
    BurstAt(s, e.t);
    BurstAt(s', e.t);
    forall j: nat | j != k
      ensures BurstOf(s', j) == BurstOf(s, j)
    {
      BurstsKept(s, s', e.t, j);
    }
  }

  lemma ReceiveAhead(s: State, t: nat, n: nat)
    requires WellFormed(s) && OnePerStage(s) && Enabled(s, Fetch(t, n)) && s.stage[t] == RX
    requires Ahead(Line(s), s.received)
    ensures Ahead(Line(Apply(s, Fetch(t, n))), s.received + n)
  {
    StepBursts(s, Fetch(t, n));
    ReceivedAhead(Line(s), Line(Apply(s, Fetch(t, n))), s.received, n);
  }

  lemma TakeAhead(s: State, t: nat, n: nat)
    requires WellFormed(s) && OnePerStage(s) && Enabled(s, Fetch(t, n)) && s.stage[t] != RX
    requires Ahead(Line(s), s.received)
    ensures Ahead(Line(Apply(s, Fetch(t, n))), s.received)
  {
    var s', k := Apply(s, Fetch(t, n)), s.stage[t];
    StepBursts(s, Fetch(t, n));
    Moved(s, s', k, n);
    MovedAhead(Line(s), Line(s'), s.received, 2 * k, n);
  }

  lemma Moved(s: State, s': State, k: nat, n: nat)
    requires WellFormed(s) && WellFormed(s') && 0 < k <= TX && n <= |s.rings[k - 1]|
    requires s'.sent == s.sent && s'.rings == s.rings[k - 1 := s.rings[k - 1][n..]]
    requires BurstOf(s, k) == [] && BurstOf(s', k) == s.rings[k - 1][..n]
    requires forall j: nat | j != k :: BurstOf(s', j) == BurstOf(s, j)
    ensures forall i | 0 <= i < 10 && i != 2 * k - 1 && i != 2 * k :: Place(s', i) == Place(s, i)
    ensures n <= |Place(s, 2 * k - 1)| && Place(s', 2 * k) == Place(s, 2 * k) + Place(s, 2 * k - 1)[..n]
    ensures Place(s', 2 * k - 1) == Place(s, 2 * k - 1)[n..]
  {
    forall i | 0 <= i < 10 && i != 2 * k - 1 && i != 2 * k
      ensures Place(s', i) == Place(s, i)
    {
      assert i % 2 == 1 ==> i / 2 != k - 1;
    }
  }

  lemma PassAhead(s: State, t: nat, n: nat)
    requires WellFormed(s) && OnePerStage(s) && Enabled(s, Pass(t, n))
    requires Ahead(Line(s), s.received)
    ensures Ahead(Line(Apply(s, Pass(t, n))), s.received)
  {
    var s', k := Apply(s, Pass(t, n)), s.stage[t];
    StepBursts(s, Pass(t, n));
    forall i | 0 <= i < 10 && i != 2 * k && i != 2 * k + 1
      ensures Place(s', i) == Place(s, i)
    {
      assert i % 2 == 1 ==> i / 2 != k;
    }
    MovedAhead(Line(s), Line(s'), s.received, 2 * k + 1, n);
  }

  lemma StepAhead(s: State, e: Event)
    requires WellFormed(s) && OnePerStage(s) && Enabled(s, e) && Ahead(Line(s), s.received)
    ensures OnePerStage(Apply(s, e)) && Ahead(Line(Apply(s, e)), Apply(s, e).received)
  {
    match e
    case Fetch(t, n) => if s.stage[t] == RX { ReceiveAhead(s, t, n); } else { TakeAhead(s, t, n); }
    case Pass(t, n) => PassAhead(s, t, n);
  }

  lemma {:induction false} RunAhead(s: State, es: seq<Event>)
    requires WellFormed(s) && OnePerStage(s) && Ahead(Line(s), s.received) && IsRun(s, es)
    ensures Increasing(End(s, es).sent)
    decreases |es|
  {
    if es == [] {
      assert Line(s)[9] == s.sent;
    } else {
      StepAhead(s, es[0]);
      RunAhead(Apply(s, es[0]), es[1..]);
    }
  }

  /** With one core for each stage packets are transmitted in the order of their reception, however
      much of each burst is accepted. */
  lemma OrderKept(s0: State, es: seq<Event>)
    requires Init(s0) && OnePerStage(s0) && IsRun(s0, es)
    ensures Increasing(End(s0, es).sent)
  {
    assert forall place <- Line(s0) :: place == [];
    RunAhead(s0, es);
  }

  // ---------------------------------------------------------------- two cores for one stage

  /** The packets q are in ring k, or sent when k is the last stage, and none is anywhere else. */
  predicate AllIn(s: State, k: nat, q: seq<nat>) {
    && WellFormed(s) && k <= TX
    && (forall t | 0 <= t < |s.bursts| :: s.bursts[t] == [])
    && (forall j | 0 <= j < TX :: s.rings[j] == if j == k then q else [])
    && s.sent == if k == TX then q else []
  }

  lemma {:induction false} RunJoin(s: State, a: seq<Event>, b: seq<Event>)
    requires WellFormed(s) && IsRun(s, a) && IsRun(End(s, a), b)
    ensures IsRun(s, a + b) && End(s, a + b) == End(End(s, a), b)
    decreases |a|
  {
    if a == [] {
      assert a + b == b;
    } else {
      var e, tail := a[0], a[1..];
      assert a + b == [e] + (tail + b);
      var s1 := AfterFirst(s, a, tail + b);
      RunJoin(s1, tail, b);
    }
  }

  lemma RunPrepend(s: State, e: Event, es: seq<Event>)
    requires WellFormed(s) && Enabled(s, e) && IsRun(Apply(s, e), es)
    ensures IsRun(s, [e] + es) && End(s, [e] + es) == End(Apply(s, e), es)
  {
    assert ([e] + es)[1..] == es;
  }

  lemma AfterFirst(s: State, a: seq<Event>, rest: seq<Event>) returns (s1: State)
    requires WellFormed(s) && IsRun(s, a) && a != []
    ensures WellFormed(s1) && IsRun(s1, a[1..]) && End(s1, a[1..]) == End(s, a)
    ensures IsRun(s1, rest) ==> IsRun(s, [a[0]] + rest) && End(s, [a[0]] + rest) == End(s1, rest)
  {
    s1 := Apply(s, a[0]);
    if IsRun(s1, rest) {
      RunPrepend(s, a[0], rest);
    }
  }

  lemma TwoSteps(s: State, e: Event, f: Event)
    requires WellFormed(s) && Enabled(s, e) && Enabled(Apply(s, e), f)
    ensures IsRun(s, [e, f]) && End(s, [e, f]) == Apply(Apply(s, e), f)
  {
    assert [e, f][1..] == [f] && [f][1..] == [];
    assert End(Apply(Apply(s, e), f), []) == Apply(Apply(s, e), f);
  }

  /** One core carries two packets from its ring to the next. */
  lemma Carried(s: State, t: nat, k: nat, q: seq<nat>) returns (es: seq<Event>)
    requires 0 < k && AllIn(s, k - 1, q) && |q| == 2 && t < |s.stage| && s.stage[t] == k
    ensures IsRun(s, es) && AllIn(End(s, es), k, q) && End(s, es).stage == s.stage
  {
    var s1 := Apply(s, Fetch(t, 2));
    assert s1.bursts[t] == q;
    TwoSteps(s, Fetch(t, 2), Pass(t, 2));
    es := [Fetch(t, 2), Pass(t, 2)];
  }

  /** Every stage has a core. */
  predicate Manned(stage: seq<nat>) {
    forall k: nat | k <= TX :: k in stage
  }

  lemma {:induction false} CarriedOn(s: State, k: nat, last: nat, q: seq<nat>) returns (es: seq<Event>)
    requires AllIn(s, k, q) && |q| == 2 && Manned(s.stage) && k <= last <= TX
    ensures IsRun(s, es) && AllIn(End(s, es), last, q) && End(s, es).stage == s.stage
    decreases last - k
  {
    if k == last {
      es := [];
    } else {
      assert k + 1 in s.stage;
      var t: nat :| t < |s.stage| && s.stage[t] == k + 1;
      var first := Carried(s, t, k + 1, q);
      var rest := CarriedOn(End(s, first), k + 1, last, q);
      RunJoin(s, first, rest);
      es := first + rest;
    }
  }

  /** A core that is slow between taking its packet and passing it on is overtaken. */
  lemma Overtaken(s: State, t: nat, u: nat, k: nat) returns (es: seq<Event>)
    requires 0 < k < TX && AllIn(s, k - 1, [0, 1])
    requires t < u < |s.stage| && s.stage[t] == s.stage[u] == k
    ensures IsRun(s, es) && AllIn(End(s, es), k, [1, 0]) && End(s, es).stage == s.stage
  {
    var s2 := BothHold(s, t, u, k);
    SecondFirst(s2, t, u, k);
    RunJoin(s, [Fetch(t, 1), Fetch(u, 1)], [Pass(u, 1), Pass(t, 1)]);
    es := [Fetch(t, 1), Fetch(u, 1)] + [Pass(u, 1), Pass(t, 1)];
  }

  lemma BothHold(s: State, t: nat, u: nat, k: nat) returns (s2: State)
    requires 0 < k < TX && AllIn(s, k - 1, [0, 1])
    requires t < u < |s.stage| && s.stage[t] == s.stage[u] == k
    ensures IsRun(s, [Fetch(t, 1), Fetch(u, 1)]) && End(s, [Fetch(t, 1), Fetch(u, 1)]) == s2
    ensures WellFormed(s2) && s2.stage == s.stage && s2.bursts == s.bursts[t := [0]][u := [1]]
    ensures (forall j | 0 <= j < TX :: s2.rings[j] == []) && s2.sent == []
  {
    var s1 := Apply(s, Fetch(t, 1));
    assert [0, 1][..1] == [0] && [0, 1][1..] == [1] && [1][..1] == [1];
    assert s1.bursts == s.bursts[t := [0]] && s1.rings[k - 1] == [1];
    s2 := Apply(s1, Fetch(u, 1));
    TwoSteps(s, Fetch(t, 1), Fetch(u, 1));
  }

  lemma SecondFirst(s: State, t: nat, u: nat, k: nat)
    requires WellFormed(s) && 0 < k < TX && t < u < |s.stage| && s.stage[t] == s.stage[u] == k
    requires s.bursts[t] == [0] && s.bursts[u] == [1]
    requires forall i | 0 <= i < |s.bursts| && i != t && i != u :: s.bursts[i] == []
    requires (forall j | 0 <= j < TX :: s.rings[j] == []) && s.sent == []
    ensures IsRun(s, [Pass(u, 1), Pass(t, 1)])
    ensures AllIn(End(s, [Pass(u, 1), Pass(t, 1)]), k, [1, 0]) && End(s, [Pass(u, 1), Pass(t, 1)]).stage == s.stage
  {
    TwoSteps(s, Pass(u, 1), Pass(t, 1));
  }

  /** The RX core receives two packets and passes them on. */
  lemma TwoReceived(s: State, t: nat) returns (es: seq<Event>)
    requires Init(s) && t < |s.stage| && s.stage[t] == RX
    ensures IsRun(s, es) && AllIn(End(s, es), 0, [0, 1]) && End(s, es).stage == s.stage
  {
    assert Numbers(0, 2) == [0, 1] by {
      assert Numbers(0, 0) == [] && Numbers(0, 1) == [0];
    }
    var s1 := Apply(s, Fetch(t, 2));
    assert s1.bursts[t] == [0, 1];
    TwoSteps(s, Fetch(t, 2), Pass(t, 2));
    es := [Fetch(t, 2), Pass(t, 2)];
  }

  lemma Approach(s0: State, k: nat) returns (es: seq<Event>)
    requires Init(s0) && Manned(s0.stage) && k <= TX
    ensures IsRun(s0, es) && AllIn(End(s0, es), k, [0, 1]) && End(s0, es).stage == s0.stage
  {
    assert RX in s0.stage;
    var rx: nat :| rx < |s0.stage| && s0.stage[rx] == RX;
    var first := TwoReceived(s0, rx);
    var rest := CarriedOn(End(s0, first), 0, k, [0, 1]);
    RunJoin(s0, first, rest);
    es := first + rest;
  }

  lemma Overtaking(s: State, t: nat, u: nat, k: nat) returns (es: seq<Event>)
    requires 0 < k < TX && AllIn(s, k - 1, [0, 1]) && Manned(s.stage)
    requires t < u < |s.stage| && s.stage[t] == s.stage[u] == k
    ensures IsRun(s, es) && End(s, es).sent == [1, 0]
  {
    var first := Overtaken(s, t, u, k);
    var rest := CarriedOn(End(s, first), k, TX, [1, 0]);
    RunJoin(s, first, rest);
    es := first + rest;
  }

  /** With a second core at one stage there is a run that transmits two packets in reverse. */
  lemma OrderLost(s0: State, t: nat, u: nat) returns (es: seq<Event>)
    requires Init(s0) && Manned(s0.stage) && t < u < |s0.stage| && s0.stage[t] == s0.stage[u]
    ensures IsRun(s0, es) && End(s0, es).sent == [1, 0]
  {
    var k := s0.stage[t];
    var first := Approach(s0, k - 1);
    var rest := Overtaking(End(s0, first), t, u, k);
    RunJoin(s0, first, rest);
    es := first + rest;
  }

  /** A pipeline with a core at every stage transmits in the order of reception in all its runs if and
      only if no stage has two cores. */
  lemma OrderKeptIff(s0: State)
    requires Init(s0) && Manned(s0.stage)
    ensures (forall es :: IsRun(s0, es) ==> Increasing(End(s0, es).sent)) <==> OnePerStage(s0)
  {
    if OnePerStage(s0) {
      forall es | IsRun(s0, es)
        ensures Increasing(End(s0, es).sent)
      {
        OrderKept(s0, es);
      }
    } else {
      var t, u :| 0 <= t < u < |s0.stage| && s0.stage[t] == s0.stage[u];
      var es := OrderLost(s0, t, u);
      assert End(s0, es).sent[0] == 1 && End(s0, es).sent[1] == 0;
    }
  }
}
