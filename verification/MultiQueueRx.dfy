// rx_multi_queue: one burst gathered from several NIC queues into one buffer array.

module MultiQueueRx {
  import opened BoundedFifo
  import opened Modular

  /** What a burst call takes: the driver offers some number, bounded by the room and the queue. */
  function Grab(queue: seq<Mbuf>, offer: nat, room: nat): (n: nat)
    ensures n <= offer && n <= room && n <= |queue| && (n == offer || n == room || n == |queue|)
  {
    Min(offer, Min(room, |queue|))
  }

  /** The bursts of the queues from the q-th on, in queue order, within the room left. */
  function Gathered(queues: seq<seq<Mbuf>>, offers: seq<nat>, q: nat, room: nat): (got: seq<Mbuf>)
    requires |offers| == |queues| && q <= |queues|
    ensures |got| <= room
    decreases |queues| - q
  {
    if q == |queues| then []
    else
      var n := Grab(queues[q], offers[q], room);
      queues[q][..n] + Gathered(queues, offers, q + 1, room - n)
  }

  /** What stays in those queues. */
  function Left(queues: seq<seq<Mbuf>>, offers: seq<nat>, q: nat, room: nat): (rest: seq<seq<Mbuf>>)
    requires |offers| == |queues| && q <= |queues|
    ensures |rest| == |queues| - q
    decreases |queues| - q
  {
    if q == |queues| then []
    else
      var n := Grab(queues[q], offers[q], room);
      [queues[q][n..]] + Left(queues, offers, q + 1, room - n)
  }

  /** All packets waiting in a list of queues. */
  function Queued(queues: seq<seq<Mbuf>>): seq<Mbuf> {
    if queues == [] then [] else queues[0] + Queued(queues[1..])
  }

  lemma QueuedFrom(queues: seq<seq<Mbuf>>, q: nat)
    requires q < |queues|
    ensures Queued(queues[q..]) == queues[q] + Queued(queues[q + 1..])
  {
    assert queues[q..][1..] == queues[q + 1..];
  }

  /** The prefix each queue gives up. */
  function Taken(queues: seq<seq<Mbuf>>, offers: seq<nat>, q: nat, room: nat): (taken: seq<seq<Mbuf>>)
    requires |offers| == |queues| && q <= |queues|
    ensures |taken| == |queues| - q
    decreases |queues| - q
  {
    if q == |queues| then []
    else
      var n := Grab(queues[q], offers[q], room);
      [queues[q][..n]] + Taken(queues, offers, q + 1, room - n)
  }

  /** No packet is lost, duplicated or moved to another queue: every queue is cut in two. */
  lemma {:induction false} EveryQueueIsCut(queues: seq<seq<Mbuf>>, offers: seq<nat>, q: nat, room: nat, k: nat)
    requires |offers| == |queues| && q <= k < |queues|
    ensures Taken(queues, offers, q, room)[k - q] + Left(queues, offers, q, room)[k - q] == queues[k]
    decreases |queues| - q
  {
    var n := Grab(queues[q], offers[q], room);
    if q < k {
      EveryQueueIsCut(queues, offers, q + 1, room - n, k);
    }
  }

  /** The burst is what was cut off, in queue order. */
  lemma {:induction false} GatheredInQueueOrder(queues: seq<seq<Mbuf>>, offers: seq<nat>, q: nat, room: nat)
    requires |offers| == |queues| && q <= |queues|
    ensures Gathered(queues, offers, q, room) == Queued(Taken(queues, offers, q, room))
    decreases |queues| - q
  {
    if q == |queues| {
    } else {
      var n := Grab(queues[q], offers[q], room);
      GatheredInQueueOrder(queues, offers, q + 1, room - n);
      assert Taken(queues, offers, q, room)[1..] == Taken(queues, offers, q + 1, room - n);
    }
  }

  /** Queues that deliver all they can fill the burst or are drained. */
  lemma {:induction false} EagerGather(queues: seq<seq<Mbuf>>, offers: seq<nat>, q: nat, room: nat)
    requires |offers| == |queues| && q <= |queues|
    requires forall k | q <= k < |queues| :: offers[k] >= |queues[k]|
    ensures |Gathered(queues, offers, q, room)| == Min(room, |Queued(queues[q..])|)
    decreases |queues| - q
  {
    if q == |queues| {
    } else {
      var n := Grab(queues[q], offers[q], room);
      QueuedFrom(queues, q);
      EagerGather(queues, offers, q + 1, room - n);
    }
  }

  /** Without room nothing more is taken, so leaving the loop early changes nothing. */
  lemma {:induction false} NoRoomNoMore(queues: seq<seq<Mbuf>>, offers: seq<nat>, q: nat)
    requires |offers| == |queues| && q <= |queues|
    ensures Gathered(queues, offers, q, 0) == [] && Left(queues, offers, q, 0) == queues[q..]
    decreases |queues| - q
  {
    if q == |queues| {
    } else {
      NoRoomNoMore(queues, offers, q + 1);
      assert queues[q..] == [queues[q]] + queues[q + 1..];
    }
  }

  /** After q queues: `got` has been gathered, `rest` is what those queues keep. */
  ghost predicate Progress(all: seq<seq<Mbuf>>, offers: seq<nat>, room: nat, q: nat, got: seq<Mbuf>, rest: seq<seq<Mbuf>>) {
    && |offers| == |all| && q <= |all| && |got| <= room && |rest| == q
    && got + Gathered(all, offers, q, room - |got|) == Gathered(all, offers, 0, room)
    && rest + Left(all, offers, q, room - |got|) == Left(all, offers, 0, room)
  }

  lemma OneMoreQueue(all: seq<seq<Mbuf>>, offers: seq<nat>, room: nat, q: nat, got: seq<Mbuf>, rest: seq<seq<Mbuf>>)
    requires Progress(all, offers, room, q, got, rest) && q < |all|
    ensures var n := Grab(all[q], offers[q], room - |got|);
            Progress(all, offers, room, q + 1, got + all[q][..n], rest + [all[q][n..]])
  {
    var n := Grab(all[q], offers[q], room - |got|);
    var g, l := Gathered(all, offers, q + 1, room - |got| - n), Left(all, offers, q + 1, room - |got| - n);
    assert (got + all[q][..n]) + g == got + (all[q][..n] + g);
    assert (rest + [all[q][n..]]) + l == rest + ([all[q][n..]] + l);
  }

  lemma AllGathered(all: seq<seq<Mbuf>>, offers: seq<nat>, room: nat, q: nat, got: seq<Mbuf>, rest: seq<seq<Mbuf>>)
    requires Progress(all, offers, room, q, got, rest) && (q == |all| || |got| == room)
    ensures got == Gathered(all, offers, 0, room) && rest + all[q..] == Left(all, offers, 0, room)
  {
    if |got| == room {
      NoRoomNoMore(all, offers, q);
    }
  }

  lemma CutOne(before: seq<seq<Mbuf>>, all: seq<seq<Mbuf>>, rest: seq<seq<Mbuf>>, q: nat, n: nat)
    requires |before| == |all| && q < |all| && before[..q] == rest && before[q..] == all[q..] && n <= |all[q]|
    ensures var after := before[q := all[q][n..]];
            after[..q + 1] == rest + [all[q][n..]] && after[q + 1..] == all[q + 1..]
  {
    assert all[q..][1..] == all[q + 1..] && before[q..][1..] == before[q + 1..];
  }

  lemma RestOfQueues(queues: seq<seq<Mbuf>>, all: seq<seq<Mbuf>>, rest: seq<seq<Mbuf>>, q: nat, polled: nat)
    requires |queues| == |all| && q <= polled <= |all| && queues[..q] == rest && queues[q..] == all[q..]
    ensures queues == (rest + all[..polled][q..]) + all[polled..]
  {
    assert queues == queues[..q] + queues[q..];
    assert all[q..] == all[..polled][q..] + all[polled..];
  }

  /** The RX queues of one port. */
  class Port {
    var queues: seq<seq<Mbuf>>

    constructor (queues: seq<seq<Mbuf>>)
      ensures this.queues == queues
    {
      this.queues := queues;
    }

    /** One receive burst from queue q into bufs[at..at + want). */
    method RxBurst(q: nat, bufs: array<Mbuf>, at: nat, want: nat, offer: nat) returns (n: nat)
      requires q < |queues| && at + want <= bufs.Length
      modifies this, bufs
      ensures n == Grab(old(queues[q]), offer, want)
      ensures bufs[..at + n] == old(bufs[..at]) + old(queues[q])[..n]
      ensures forall k | at + n <= k < bufs.Length :: bufs[k] == old(bufs[k])
      ensures queues == old(queues)[q := old(queues[q])[n..]]
    {
      n := Grab(queues[q], offer, want);
      var i := 0;
      while i < n
        invariant 0 <= i <= n
        invariant queues == old(queues)
        invariant bufs[..at + i] == old(bufs[..at]) + queues[q][..i]
        invariant forall k | at + i <= k < bufs.Length :: bufs[k] == old(bufs[k])
      {
        bufs[at + i] := queues[q][i];
        i := i + 1;
      }
      queues := queues[q := queues[q][n..]];
    }

    /** The loop invariant: the first q queues have been cut and the array filled with `got`. */
    ghost predicate Filled(bufs: array<Mbuf>, was: seq<Mbuf>, all: seq<seq<Mbuf>>, q: nat, got: seq<Mbuf>, rest: seq<seq<Mbuf>>)
      reads this, bufs
    {
      && |queues| == |all| && |rest| == q <= |all| && |got| <= bufs.Length == |was|
      && bufs[..|got|] == got && (forall k | |got| <= k < bufs.Length :: bufs[k] == was[k])
      && queues[..q] == rest && queues[q..] == all[q..]
    }

    /** Filled, and what has been gathered is a start of what is to be gathered. */
    ghost predicate Working(bufs: array<Mbuf>, was: seq<Mbuf>, all: seq<seq<Mbuf>>, offers: seq<nat>, room: nat,
                            q: nat, got: seq<Mbuf>, rest: seq<seq<Mbuf>>)
      reads this, bufs
    {
      && Filled(bufs, was, all, q, got, rest)
      && q <= |offers| <= |all| && Progress(all[..|offers|], offers, room, q, got, rest)
    }

    /** One turn of the loop. */
    method Turn(q: nat, bufs: array<Mbuf>, at: nat, room: nat, offers: seq<nat>,
                ghost was: seq<Mbuf>, ghost all: seq<seq<Mbuf>>, ghost got: seq<Mbuf>, ghost rest: seq<seq<Mbuf>>)
      returns (n: nat)
      requires Working(bufs, was, all, offers, room, q, got, rest)
      requires q < |offers| <= |all| && at == |got| && at <= room <= bufs.Length
      modifies this, bufs
      ensures n == Grab(all[q], offers[q], room - at)
      ensures Working(bufs, was, all, offers, room, q + 1, got + all[q][..n], rest + [all[q][n..]])
    {
      assert all[..|offers|][q] == all[q];
      OneMoreQueue(all[..|offers|], offers, room, q, got, rest);
      ghost var before := queues;
      assert queues[q] == all[q];
      n := RxBurst(q, bufs, at, room - at, offers[q]);
      CutOne(before, all, rest, q, n);
    }

    lemma Finished(bufs: array<Mbuf>, was: seq<Mbuf>, all: seq<seq<Mbuf>>, offers: seq<nat>, room: nat,
                   q: nat, got: seq<Mbuf>, rest: seq<seq<Mbuf>>)
      requires Working(bufs, was, all, offers, room, q, got, rest) && (q == |offers| || |got| == room)
      ensures |offers| <= |all| && |got| <= bufs.Length == |was|
      ensures bufs[..|got|] == Gathered(all[..|offers|], offers, 0, room)
      ensures bufs[|got|..] == was[|got|..]
      ensures queues == Left(all[..|offers|], offers, 0, room) + all[|offers|..]
    {
      AllGathered(all[..|offers|], offers, room, q, got, rest);
      RestOfQueues(queues, all, rest, q, |offers|);
    }

    lemma Started(bufs: array<Mbuf>, offers: seq<nat>, room: nat)
      requires |offers| <= |queues| && room <= bufs.Length
      ensures Working(bufs, bufs[..], queues, offers, room, 0, [], [])
    {
    }

    /** Polls the first queues of the port; `offers` is what the driver would deliver from each. */
    method RxMultiQueue(nbQueues: nat, bufs: array<Mbuf>, burstSize: nat, offers: seq<nat>) returns (total: nat)
      requires nbQueues == |offers| <= |queues| && burstSize <= bufs.Length && burstSize < 0x1_0000
      modifies this, bufs
      ensures total <= burstSize && bufs[..total] == Gathered(old(queues)[..nbQueues], offers, 0, burstSize)
      ensures bufs[total..] == old(bufs[..])[total..]
      ensures queues == Left(old(queues)[..nbQueues], offers, 0, burstSize) + old(queues)[nbQueues..]
    {
      total := 0;
      var q := 0;
      ghost var all, was := queues, bufs[..];
      ghost var got: seq<Mbuf>, rest: seq<seq<Mbuf>> := [], [];
      Started(bufs, offers, burstSize);
      while q < nbQueues
        invariant 0 <= q <= nbQueues && total == |got| <= burstSize
        invariant Working(bufs, was, all, offers, burstSize, q, got, rest)
      {
        var n := Turn(q, bufs, total, burstSize, offers, was, all, got, rest);
        got, rest := got + all[q][..n], rest + [all[q][n..]];
        total := total + n;
        q := q + 1;
        if total == burstSize {
          break;
        }
      }
      Finished(bufs, was, all, offers, burstSize, q, got, rest);
    }
  }
}
