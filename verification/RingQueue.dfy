// RingQueue: the single-producer single-consumer wrapper over a circular array with free-running
// 32-bit indices and a power-of-two mask.

module RingQueue {
  import opened Basics
  import opened BoundedFifo
  import opened Modular

  /** Error code of a single enqueue on a full ring. */
  const ENOBUFS: int := 105

  /** The stored objects, oldest first: `used` entries from index `cons` on. */
  function ContentsOf(data: seq<Mbuf>, cons: nat, used: nat): (q: seq<Mbuf>)
    requires |data| > 0
    ensures |q| == used
  {
    seq(used, i requires 0 <= i < used => data[(cons + i) % |data|])
  }

  lemma ContentsAt(data: seq<Mbuf>, cons: nat, used: nat, i: nat)
    requires |data| > 0 && i < used
    ensures ContentsOf(data, cons, used)[i] == data[(cons + i) % |data|]
  {
  }

  /** Writing the next free slot appends, as long as a slot is free. */
  lemma WriteAppends(data: seq<Mbuf>, cons: nat, used: nat, obj: Mbuf)
    requires used < |data|
    ensures ContentsOf(data[(cons + used) % |data| := obj], cons, used + 1) == ContentsOf(data, cons, used) + [obj]
  {
    var data' := data[(cons + used) % |data| := obj];
    var q, q' := ContentsOf(data, cons, used), ContentsOf(data', cons, used + 1);
    forall i | 0 <= i < used
      ensures q'[i] == q[i]
    {
      ModDistinct(cons + i, cons + used, |data|);
    }
    assert q' == q + [obj];
  }

  /** Advancing the wrapped consumer index drops the front. */
  lemma AdvanceDrops(data: seq<Mbuf>, cons: nat, used: nat, n: nat, order: nat)
    requires order <= 31 && |data| == Pow2(order) && n <= used
    ensures ContentsOf(data, Wrap32(cons + n), used - n) == ContentsOf(data, cons, used)[n..]
  {
    var q, q' := ContentsOf(data, cons, used), ContentsOf(data, Wrap32(cons + n), used - n);
    forall i | 0 <= i < used - n
      ensures q'[i] == q[n..][i]
    {
      AdvanceAt(data, cons, used, n, order, i);
    }
    assert q' == q[n..];
  }

  lemma AdvanceAt(data: seq<Mbuf>, cons: nat, used: nat, n: nat, order: nat, i: nat)
    requires order <= 31 && |data| == Pow2(order) && n + i < used
    ensures ContentsOf(data, Wrap32(cons + n), used - n)[i] == ContentsOf(data, cons, used)[n + i]
  {
    WrappedOffset(cons + n, i, |data|, order);
    ContentsAt(data, Wrap32(cons + n), used - n, i);
    ContentsAt(data, cons, used, n + i);
    assert cons + n + i == cons + (n + i);
  }

  /** The ring behind the wrapper, as one producer and one consumer use it. */
  class RteRing {
    const data: array<Mbuf>
    const size: nat
    ghost const order: nat
    var prod: nat
    var cons: nat

    ghost predicate Valid()
      reads this
    {
      && order <= 30 && size == Pow2(order) && data.Length == size <= 0x4000_0000
      && prod < WORD && cons < WORD
      && Used() < size
    }

    function Used(): nat
      reads this
    {
      Wrap32(prod - cons)
    }

    /** Free entries, in unsigned 32-bit arithmetic. */
    function Free(): nat
      reads this
    {
      Wrap32(size - 1 + cons - prod)
    }

    ghost function Contents(): (q: seq<Mbuf>)
      requires Valid()
      reads this, data
      ensures |q| == Used()
    {
      ContentsOf(data[..], cons, Used())
    }

    constructor (k: nat, n: nat)
      requires k <= 30 && n == Pow2(k)
      ensures Valid() && fresh(data) && size == n && Contents() == []
    {
      SizeFits(k + 1);
      order := k;
      data := new Mbuf[n];
      size := n;
      prod, cons := 0, 0;
    }

    /** The slot the producer's i-th object goes to. */
    lemma ProducerSlot(i: nat)
      requires Valid()
      ensures BitAnd(Wrap32(prod + i), size - 1) == (cons + (Used() + i)) % size
    {
      WrapAdd(prod - cons, cons);
      Wrap32Fits(prod);
      assert Wrap32(cons + Used()) == prod;
      WrappedOffset(cons + Used(), i, size, order);
      assert cons + Used() + i == cons + (Used() + i);
    }

    /** The slot the consumer's i-th object comes from. */
    lemma ConsumerSlot(i: nat)
      requires Valid()
      ensures BitAnd(Wrap32(cons + i), size - 1) == (cons + i) % size
    {
      assert Wrap32(cons) == cons;
      WrappedOffset(cons, i, size, order);
    }

    method StoreAt(i: nat, obj: Mbuf, ghost used: nat)
      requires Valid() && used == Used() && used + i < size
      modifies data
      ensures ContentsOf(data[..], cons, used + i + 1) == ContentsOf(old(data[..]), cons, used + i) + [obj]
    {
      ProducerSlot(i);
      WriteAppends(data[..], cons, used + i, obj);
      ghost var was := data[..];
      var slot := BitAnd(Wrap32(prod + i), size - 1);
      data[slot] := obj;
      assert data[..] == was[slot := obj];
    }

    method LoadAt(i: nat) returns (obj: Mbuf)
      requires Valid() && i < Used()
      ensures obj == Contents()[i]
    {
      ConsumerSlot(i);
      ContentsAt(data[..], cons, Used(), i);
      obj := data[BitAnd(Wrap32(cons + i), size - 1)];
    }

    method StoreAll(objs: array<Mbuf>, n: nat)
      requires Valid() && n <= objs.Length && objs != data && Used() + n < size
      modifies data
      ensures ContentsOf(data[..], cons, Used() + n) == old(Contents()) + objs[..n]
    {
      ghost var q, used := Contents(), Used();
      var i := 0;
      while i < n
        invariant 0 <= i <= n
        invariant ContentsOf(data[..], cons, used + i) == q + objs[..i]
      {
        StoreAt(i, objs[i], used);
        assert objs[..i + 1] == objs[..i] + [objs[i]];
        i := i + 1;
      }
    }

    /** Appends the longest prefix of the burst that fits. */
    method EnqueueBurst(objs: array<Mbuf>, count: nat) returns (n: nat)
      requires Valid() && count <= objs.Length && objs != data
      modifies this`prod, data
      ensures Valid()
      ensures n == Min(count, size - 1 - |old(Contents())|)
      ensures Contents() == old(Contents()) + objs[..n]
    {
      FreePlusUsed(size - 1, prod, cons);
      n := Min(count, Free());
      StoreAll(objs, n);
      UsedAfterPut(prod, cons, n);
      prod := Wrap32(prod + n);
    }

    method LoadAll(objs: array<Mbuf>, n: nat)
      requires Valid() && n <= objs.Length && objs != data && n <= Used()
      modifies objs
      ensures objs[..n] == Contents()[..n] && objs[n..] == old(objs[n..])
    {
      ghost var q := Contents();
      var i := 0;
      while i < n
        invariant 0 <= i <= n && Contents() == q
        invariant objs[..i] == q[..i] && objs[i..] == old(objs[i..])
      {
        objs[i] := LoadAt(i);
        i := i + 1;
      }
    }

    /** Removes the front of the queue into the caller's array. */
    method DequeueBurst(objs: array<Mbuf>, maxCount: nat) returns (n: nat)
      requires Valid() && maxCount <= objs.Length && objs != data
      modifies this`cons, objs
      ensures Valid()
      ensures n == Min(maxCount, |old(Contents())|)
      ensures objs[..n] == old(Contents())[..n] && objs[n..] == old(objs[n..])
      ensures Contents() == old(Contents())[n..]
    {
      n := Min(maxCount, Used());
      LoadAll(objs, n);
      AdvanceDrops(data[..], cons, Used(), n, order);
      UsedAfterTake(prod, cons, n);
      cons := Wrap32(cons + n);
    }
  }

  /** What creating a ring of `size` entries requires: a power of two, up to 2^30, the largest
      that the DPDK ring library accepts. */
  function OrderOf(size: nat, k: nat): (r: int)
    requires k <= 31
    ensures r >= 0 ==> k <= r <= 30 && size == Pow2(r)
    ensures r < 0 ==> forall j: nat | k <= j <= 30 :: size != Pow2(j)
    decreases 31 - k
  {
    if k == 31 then -1 else if size == Pow2(k) then k else OrderOf(size, k + 1)
  }

  class RingQueue {
    var ring: RteRing?

    ghost predicate Valid()
      reads this, ring
    {
      ring != null ==> ring.Valid()
    }

    /** The queue behind the wrapper; empty when the ring could not be created. */
    ghost function Contents(): seq<Mbuf>
      requires Valid()
      reads this, ring, if ring != null then {ring.data} else {}
    {
      if ring == null then [] else ring.Contents()
    }

    /** Objects the queue can ever hold: one less than the size, none without a ring. */
    ghost function Capacity(): nat
      requires Valid()
      reads this, ring
    {
      if ring == null then 0 else ring.size - 1
    }

    /** `memoryOk` says whether the allocation inside ring creation succeeds. */
    constructor (size: nat, memoryOk: bool)
      ensures Valid() && Contents() == []
      ensures ring != null <==> memoryOk && exists k: nat :: k <= 30 && size == Pow2(k)
      ensures ring != null ==> fresh(ring) && fresh(ring.data) && Capacity() == size - 1
    {
      var order := OrderOf(size, 0);
      ring := null;
      new;
      if memoryOk && order >= 0 {
        ring := new RteRing(order, size);
      }
    }

    method Enqueue(obj: Mbuf) returns (r: int)
      requires Valid()
      modifies ring, if ring != null then {ring.data} else {}
      ensures Valid()
      ensures r == if ring == null then -1 else if |old(Contents())| < Capacity() then 0 else -ENOBUFS
      ensures Contents() == if r == 0 then old(Contents()) + [obj] else old(Contents())
    {
      if ring == null {
        return -1;
      }
      var objs := new Mbuf[1];
      objs[0] := obj;
      var n := ring.EnqueueBurst(objs, 1);
      assert objs[..] == [obj];
      assert n == 1 ==> objs[..n] == [obj];
      r := if n == 1 then 0 else -ENOBUFS;
    }

    method EnqueueBurst(objs: array<Mbuf>, count: nat) returns (n: nat)
      requires Valid() && count <= objs.Length && (ring != null ==> objs != ring.data)
      modifies ring, if ring != null then {ring.data} else {}
      ensures Valid()
      ensures n == Min(count, Capacity() - |old(Contents())|)
      ensures Contents() == old(Contents()) + objs[..n]
    {
      if ring == null {
        return 0;
      }
      n := ring.EnqueueBurst(objs, count);
    }

    method Dequeue() returns (obj: Option<Mbuf>)
      requires Valid()
      modifies ring
      ensures Valid()
      ensures obj == if old(Contents()) == [] then None else Some(old(Contents())[0])
      ensures Contents() == if old(Contents()) == [] then [] else old(Contents())[1..]
    {
      if ring == null {
        return None;
      }
      var objs := new Mbuf[1];
      var n := ring.DequeueBurst(objs, 1);
      obj := if n == 1 then Some(objs[0]) else None;
    }

    method DequeueBurst(objs: array<Mbuf>, maxCount: nat) returns (n: nat)
      requires Valid() && maxCount <= objs.Length && (ring != null ==> objs != ring.data)
      modifies ring, objs
      ensures Valid()
      ensures n == Min(maxCount, |old(Contents())|)
      ensures objs[..n] == old(Contents())[..n] && objs[n..] == old(objs[n..])
      ensures Contents() == old(Contents())[n..]
    {
      if ring == null {
        return 0;
      }
      n := ring.DequeueBurst(objs, maxCount);
    }

    method Empty() returns (b: bool)
      requires Valid()
      ensures b <==> Contents() == []
    {
      b := ring == null || ring.Used() == 0;
    }

    /** Occupancy and available count add up to the capacity. */
    method AvailableCount() returns (n: nat)
      requires Valid()
      ensures n + |Contents()| == Capacity()
    {
      if ring == null {
        return 0;
      }
      FreePlusUsed(ring.size - 1, ring.prod, ring.cons);
      n := ring.Free();
    }
  }
}
