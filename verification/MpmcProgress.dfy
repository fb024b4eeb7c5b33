// Progress of the ring: what the clamp does with a stale head, why a winning burst is the longest
// that fits, and that without new calls every run ends, with every call completed.

module MpmcProgress {
  import opened BoundedFifo
  import opened Modular
  import opened MpmcRing

  // ---------------------------------------------------------------- the clamp

  /** When a call gives up. A producer does so on a full ring, or when its stale head makes the room
      it computes a positive multiple of 2^32; a consumer on an empty ring, or likewise. */
  lemma GivesUpIff(s: State, t: Tid)
    requires Indices(s) && Enabled(s, Clamp(t)) && PcOk(s, t)
    ensures var gaveUp := ApplyClamp(s, t).threads[t] == Idle;
            match s.threads[t]
            case EnqRead(objs, oldHead) =>
              var room := s.size - 1 + s.consTail - oldHead;
              gaveUp <==>
                || objs == []
                || (oldHead == s.prodHead && s.prodHead - s.consTail == s.size - 1)
                || (room > 0 && room % WORD == 0)
            case DeqRead(want, oldHead) =>
              var ready := s.prodTail - oldHead;
              gaveUp <==>
                || want == 0
                || (oldHead == s.consHead && s.consHead == s.prodTail)
                || (ready > 0 && ready % WORD == 0)
  {
  }

  /** Steps of the other threads: thread t stays where it is and no head goes back. */
  lemma OthersStep(s: State, e: Event, t: Tid)
    requires |s.slots| == s.size > 0 && Enabled(s, e) && t in s.threads && e.t != t
    ensures var s' := Apply(s, e);
            && |s'.slots| == s'.size == s.size && t in s'.threads && s'.threads[t] == s.threads[t]
            && s.prodHead <= s'.prodHead && s.consHead <= s'.consHead
  {
  }

  lemma {:induction false} OthersRun(s: State, es: seq<Event>, t: Tid)
    requires IsRun(s, es) && t in s.threads && forall e <- es :: e.t != t
    ensures t in End(s, es).threads && End(s, es).threads[t] == s.threads[t]
    ensures s.prodHead <= End(s, es).prodHead && s.consHead <= End(s, es).consHead
    decreases |es|
  {
    if es == [] {
    } else {
      assert es[0] in es && forall e <- es[1..] :: e in es;
      OthersStep(s, es[0], t);
      OthersRun(Apply(s, es[0]), es[1..], t);
    }
  }

  /** A burst that wins its compare-and-swap is, for a producer, the longest prefix that fitted the
      ring when it was clamped and, for a consumer, all that it wanted of what was then queued; the
      swap claims just that. */
  lemma WinningBurstIsLongest(s: State, es: seq<Event>, t: Tid)
    requires Indices(s) && Enabled(s, Clamp(t)) && PcOk(s, t)
    requires IsRun(ApplyClamp(s, t), es) && forall e <- es :: e.t != t
    ensures var pc, s' := s.threads[t], End(ApplyClamp(s, t), es);
            && t in s'.threads
            && (s'.threads[t].EnqClamped? && s'.prodHead == s'.threads[t].oldHead ==>
                  && pc.EnqRead? && s'.threads[t].n == Min(|pc.objs|, s.size - 1 - (s.prodHead - s.consTail))
                  && var n, won := s'.threads[t].n, ApplyCas(s', t);
                  && 0 <= n <= |pc.objs| && won.prodHead == s'.prodHead + n
                  && won.threads[t].EnqCopy? && won.threads[t].objs == pc.objs[..n] && won.threads[t].done == 0)
            && (s'.threads[t].DeqClamped? && s'.consHead == s'.threads[t].oldHead ==>
                  && pc.DeqRead? && s'.threads[t].n == Min(pc.want, |Queue(s)|)
                  && var n, won := s'.threads[t].n, ApplyCas(s', t);
                  && won.consHead == s'.consHead + n
                  && won.threads[t].DeqCopy? && won.threads[t].n == n && won.threads[t].got == [])
  {
    OthersRun(ApplyClamp(s, t), es, t);
    ClampIsExact(s, t);
  }

  // ---------------------------------------------------------------- sums over the threads

  ghost function Total(w: map<Tid, nat>): nat
    decreases |w|
  {
    if w == map[] then 0
    else
      var t :| t in w;
      Shrinks(w, t);
      w[t] + Total(w - {t})
  }

  lemma Shrinks(w: map<Tid, nat>, t: Tid)
    requires t in w
    ensures |w - {t}| < |w|
  {
    assert (w - {t}).Keys == w.Keys - {t};
    assert |w| == |w.Keys| && |w - {t}| == |(w - {t}).Keys|;
  }

  lemma {:induction false} TotalAny(w: map<Tid, nat>, t: Tid)
    requires t in w
    ensures Total(w) == w[t] + Total(w - {t})
    decreases |w|
  {
    var u :| u in w && Total(w) == w[u] + Total(w - {u});
    if u != t {
      Shrinks(w, u);
      Shrinks(w, t);
      TotalAny(w - {u}, t);
      TotalAny(w - {t}, u);
      assert w - {u} - {t} == w - {t} - {u};
    }
  }

  lemma {:induction false} TotalAtMost(w: map<Tid, nat>, c: map<Tid, nat>, w': map<Tid, nat>)
    requires w'.Keys == w.Keys == c.Keys
    requires forall t <- w :: w'[t] <= w[t] + 3 * c[t]
    ensures Total(w') <= Total(w) + 3 * Total(c)
    decreases |w|
  {
    if w == map[] {
      assert w' == map[] && c == map[];
    } else {
      var t :| t in w;
      Shrinks(w, t);
      TotalAny(w, t);
      TotalAny(w', t);
      TotalAny(c, t);
      TotalAtMost(w - {t}, c - {t}, w' - {t});
    }
  }

  // ---------------------------------------------------------------- the potential of a state

  /** The call has not won its compare-and-swap yet. */
  predicate Competes(pc: Pc) {
    pc.EnqCalled? || pc.EnqRead? || pc.EnqClamped? || pc.DeqCalled? || pc.DeqRead? || pc.DeqClamped?
  }

  /** Steps the thread needs if it is not overtaken again; three more when its head is stale. */
  function Rank(pc: Pc, prodHead: nat, consHead: nat): nat {
    match pc
    case Idle => 0
    case EnqCalled(objs) => |objs| + 4
    case EnqRead(objs, oldHead) => |objs| + 3 + (if oldHead == prodHead then 0 else 3)
    case EnqClamped(objs, oldHead, _) => |objs| + 2 + (if oldHead == prodHead then 0 else 3)
    case EnqCopy(objs, _, done) => if done <= |objs| then |objs| - done + 1 else 1
    case DeqCalled(want) => want + 4
    case DeqRead(want, oldHead) => want + 3 + (if oldHead == consHead then 0 else 3)
    case DeqClamped(want, oldHead, _) => want + 2 + (if oldHead == consHead then 0 else 3)
    case DeqCopy(_, n, got) => if |got| <= n then n - |got| + 1 else 1
  }

  ghost function Ranks(s: State): map<Tid, nat> {
    map t | t in s.threads :: Rank(s.threads[t], s.prodHead, s.consHead)
  }

  ghost function Competing(s: State): map<Tid, nat> {
    map t | t in s.threads :: if Competes(s.threads[t]) then 1 else 0
  }

  /** Each win can make every other competing thread stale, and there is one win for each at most. */
  ghost function Potential(s: State): nat {
    Total(Ranks(s)) + 3 * Total(Competing(s)) * Total(Competing(s))
  }

  predicate NewCall(e: Event) {
    e.CallEnq? || e.CallDeq?
  }

  /** The step wins a compare-and-swap. */
  predicate Wins(s: State, e: Event)
    requires Enabled(s, e)
  {
    e.Cas? && !Competes(ApplyCas(s, e.t).threads[e.t])
  }

  /** The ranks before and after a step of thread t: its own falls, and the others stay or, when the
      step wins, grow by three where they compete. */
  ghost predicate RanksFall(w: map<Tid, nat>, c: map<Tid, nat>, w': map<Tid, nat>, c': map<Tid, nat>, t: Tid, wins: bool) {
    && t in w && w'.Keys == w.Keys == c.Keys == c'.Keys
    && w'[t] < w[t] && c'[t] <= c[t] && (wins ==> c[t] == 1 && c'[t] == 0)
    && (forall u <- w :: u != t ==> c'[u] == c[u] && w'[u] <= w[u] + (if wins then 3 * c[u] else 0))
  }

  lemma OwnRankFalls(s: State, e: Event)
    requires Indices(s) && Enabled(s, e) && PcOk(s, e.t) && !NewCall(e)
    ensures var s', t := Apply(s, e), e.t;
            && t in s'.threads && s'.threads.Keys == s.threads.Keys
            && Rank(s'.threads[t], s'.prodHead, s'.consHead) < Rank(s.threads[t], s.prodHead, s.consHead)
            && (Competes(s'.threads[t]) ==> Competes(s.threads[t]))
            && (Wins(s, e) ==> Competes(s.threads[t]) && !Competes(s'.threads[t]))
  {
  }

  lemma OtherRank(pc: Pc, prodHead: nat, consHead: nat, prodHead': nat, consHead': nat)
    ensures Rank(pc, prodHead', consHead') <= Rank(pc, prodHead, consHead) + if Competes(pc) then 3 else 0
  {
  }

  lemma OthersStay(s: State, e: Event)
    requires |s.slots| == s.size > 0 && Enabled(s, e)
    ensures forall u <- s.threads :: u != e.t ==> u in Apply(s, e).threads && Apply(s, e).threads[u] == s.threads[u]
  {
  }

  lemma RanksStep(s: State, e: Event)
    requires Indices(s) && Enabled(s, e) && PcOk(s, e.t) && !NewCall(e)
    ensures var s' := Apply(s, e);
            RanksFall(Ranks(s), Competing(s), Ranks(s'), Competing(s'), e.t, Wins(s, e))
  {
    var s' := Apply(s, e);
    OwnRankFalls(s, e);
    OthersStay(s, e);
    if !Wins(s, e) {
      HeadsKept(s, e);
    }
    forall u <- s.threads | u != e.t
      ensures Ranks(s')[u] <= Ranks(s)[u] + (if Wins(s, e) then 3 * Competing(s)[u] else 0)
    {
      OtherRank(s.threads[u], s.prodHead, s.consHead, s'.prodHead, s'.consHead);
    }
  }

  lemma HeadsKept(s: State, e: Event)
    requires |s.slots| == s.size > 0 && Enabled(s, e) && !Wins(s, e)
    ensures Apply(s, e).prodHead == s.prodHead && Apply(s, e).consHead == s.consHead
  {
  }

  lemma PotentialFalls(s: State, e: Event)
    requires Indices(s) && Enabled(s, e) && PcOk(s, e.t) && !NewCall(e)
    ensures Potential(Apply(s, e)) < Potential(s)
  {
    RanksStep(s, e);
    TotalsFall(Ranks(s), Competing(s), Ranks(Apply(s, e)), Competing(Apply(s, e)), e.t, Wins(s, e));
  }

  lemma TotalsFall(w: map<Tid, nat>, c: map<Tid, nat>, w': map<Tid, nat>, c': map<Tid, nat>, t: Tid, wins: bool)
    requires RanksFall(w, c, w', c', t, wins)
    ensures Total(w') + 3 * Total(c') * Total(c') < Total(w) + 3 * Total(c) * Total(c)
  {
    TotalAny(w, t);
    TotalAny(w', t);
    TotalAny(c, t);
    TotalAny(c', t);
    assert c' - {t} == c - {t};
    if wins {
      TotalAtMost(w - {t}, c - {t}, w' - {t});
      WinPays(Total(c));
    } else {
      NoneGrow(w - {t}, w' - {t});
      SquareGrows(Total(c'), Total(c));
    }
  }

  lemma WinPays(p: nat)
    requires p >= 1
    ensures 3 * (p - 1) + 3 * (p - 1) * (p - 1) <= 3 * p * p
  {
  }

  lemma SquareGrows(p: nat, q: nat)
    requires p <= q
    ensures 3 * p * p <= 3 * q * q
  {
    assert p * p <= p * q <= q * q;
  }

  lemma NoneGrow(w: map<Tid, nat>, w': map<Tid, nat>)
    requires w'.Keys == w.Keys && forall t <- w :: w'[t] <= w[t]
    ensures Total(w') <= Total(w)
  {
    var c: map<Tid, nat> := map t | t in w :: 0;
    TotalAtMost(w, c, w');
    Zero(c);
  }

  lemma {:induction false} Zero(c: map<Tid, nat>)
    requires forall t <- c :: c[t] == 0
    ensures Total(c) == 0
    decreases |c|
  {
    if c != map[] {
      var t :| t in c;
      Shrinks(c, t);
      TotalAny(c, t);
      Zero(c - {t});
    }
  }

  // ---------------------------------------------------------------- every call completes

  predicate NoNewCalls(es: seq<Event>) {
    forall e <- es :: !NewCall(e)
  }

  /** Without new calls a run has no more steps than its potential, however the threads interleave
      and overtake each other. */
  lemma {:induction false} QuietRunsAreBounded(s: State, es: seq<Event>)
    requires Inv(s) && IsRun(s, es) && NoNewCalls(es)
    ensures |es| + Potential(End(s, es)) <= Potential(s)
    decreases |es|
  {
    if es == [] {
    } else {
      assert es[0] in es && forall e <- es[1..] :: e in es;
      assert PcOk(s, es[0].t);
      PotentialFalls(s, es[0]);
      StepInv(s, es[0]);
      QuietRunsAreBounded(Apply(s, es[0]), es[1..]);
    }
  }

  /** Some call can go on if and only if some call is not completed. */
  lemma CanGoOnIff(s: State)
    requires Inv(s)
    ensures (exists e: Event :: !NewCall(e) && Enabled(s, e)) <==> exists t <- s.threads :: s.threads[t] != Idle
  {
    if t :| t in s.threads && s.threads[t] != Idle {
      var e := NextStep(s, t);
    }
  }

  lemma NextStep(s: State, t: Tid) returns (e: Event)
    requires Inv(s) && t in s.threads && s.threads[t] != Idle
    ensures !NewCall(e) && Enabled(s, e)
  {
    OldestClaimCanMove(s);
    assert PcOk(s, t);
    match s.threads[t]
    case EnqCalled(_) => e := ReadHead(t);
    case DeqCalled(_) => e := ReadHead(t);
    case EnqRead(_, _) => e := Clamp(t);
    case DeqRead(_, _) => e := Clamp(t);
    case EnqClamped(_, _, _) => e := Cas(t);
    case DeqClamped(_, _, _) => e := Cas(t);
    case EnqCopy(_, _, _) =>
      var u := s.log[s.prodTail].producer;
      e := if Enabled(s, Copy(u)) then Copy(u) else Publish(u);
    case DeqCopy(_, _, _) =>
      var u := s.takers[s.consTail];
      e := if Enabled(s, Copy(u)) then Copy(u) else Publish(u);
  }

  /** So every schedule that goes on as long as it can completes every call, within the bound. */
  lemma EveryCallCompletes(s: State, es: seq<Event>)
    requires Inv(s) && IsRun(s, es) && NoNewCalls(es)
    requires forall e: Event :: !NewCall(e) ==> !Enabled(End(s, es), e)
    ensures |es| <= Potential(s)
    ensures forall t <- End(s, es).threads :: End(s, es).threads[t] == Idle
  {
    QuietRunsAreBounded(s, es);
    RunInv(s, es);
    CanGoOnIff(End(s, es));
  }
}
