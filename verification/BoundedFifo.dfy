// The bounded first-in first-out queue that every ring of the gateway stands for.

module BoundedFifo {

  /** The identity of a packet buffer: what a ring slot holds is the pointer. */
  type Mbuf = nat

  /** What one ring call does to the queue: append a burst, remove a burst, or nothing. */
  datatype Op = Put(objs: seq<Mbuf>) | Take(n: nat) | Stutter

  predicate Fits(q: seq<Mbuf>, capacity: nat, op: Op) {
    match op
    case Put(objs) => |q| + |objs| <= capacity
    case Take(n) => n <= |q|
    case Stutter => true
  }

  function After(q: seq<Mbuf>, op: Op): seq<Mbuf>
    requires op.Take? ==> op.n <= |q|
  {
    match op
    case Put(objs) => q + objs
    case Take(n) => q[n..]
    case Stutter => q
  }

  /** A history of operations, each of which fits the queue it meets. */
  predicate Legal(q: seq<Mbuf>, capacity: nat, ops: seq<Op>)
    decreases |ops|
  {
    ops == [] || (Fits(q, capacity, ops[0]) && Legal(After(q, ops[0]), capacity, ops[1..]))
  }

  function Final(q: seq<Mbuf>, capacity: nat, ops: seq<Op>): seq<Mbuf>
    requires Legal(q, capacity, ops)
    decreases |ops|
  {
    if ops == [] then q else Final(After(q, ops[0]), capacity, ops[1..])
  }

  function Appended(op: Op): seq<Mbuf> {
    if op.Put? then op.objs else []
  }

  function Dropped(q: seq<Mbuf>, op: Op): seq<Mbuf>
    requires op.Take? ==> op.n <= |q|
  {
    if op.Take? then q[..op.n] else []
  }

  /** Everything appended, in order. */
  function Inserted(ops: seq<Op>): seq<Mbuf> {
    if ops == [] then [] else Appended(ops[0]) + Inserted(ops[1..])
  }

  /** Everything removed, in order. */
  function Removed(q: seq<Mbuf>, capacity: nat, ops: seq<Op>): seq<Mbuf>
    requires Legal(q, capacity, ops)
    decreases |ops|
  {
    if ops == [] then []
    else Dropped(q, ops[0]) + Removed(After(q, ops[0]), capacity, ops[1..])
  }

  /** Order and content are conserved: what came out, followed by what is still queued,
      is what was queued at first followed by what went in. */
  lemma {:induction false} Conservation(q: seq<Mbuf>, capacity: nat, ops: seq<Op>)
    requires Legal(q, capacity, ops)
    ensures Removed(q, capacity, ops) + Final(q, capacity, ops) == q + Inserted(ops)
    decreases |ops|
  {
    if ops == [] {
    } else {
      var q1 := After(q, ops[0]);
      Conservation(q1, capacity, ops[1..]);
      OneOp(q, ops[0]);
      Regroup(Dropped(q, ops[0]), Removed(q1, capacity, ops[1..]), Final(q1, capacity, ops[1..]), q1, Inserted(ops[1..]));
      Regroup(q, Appended(ops[0]), Inserted(ops[1..]), Appended(ops[0]), Inserted(ops[1..]));
    }
  }

  lemma OneOp(q: seq<Mbuf>, op: Op)
    requires op.Take? ==> op.n <= |q|
    ensures Dropped(q, op) + After(q, op) == q + Appended(op)
  {
  }

  lemma Regroup<T>(a: seq<T>, b: seq<T>, c: seq<T>, d: seq<T>, e: seq<T>)
    requires b + c == d + e
    ensures (a + b) + c == (a + d) + e == a + (b + c)
  {
    assert (a + b) + c == a + (b + c);
    assert (a + d) + e == a + (d + e);
  }

  /** A queue that starts within its capacity stays within it. */
  lemma {:induction false} StaysBounded(q: seq<Mbuf>, capacity: nat, ops: seq<Op>)
    requires |q| <= capacity
    requires Legal(q, capacity, ops)
    ensures |Final(q, capacity, ops)| <= capacity
    decreases |ops|
  {
    if ops == [] {
    } else {
      StaysBounded(After(q, ops[0]), capacity, ops[1..]);
    }
  }

  /** One operation in front of a history. */
  lemma Prepend(q: seq<Mbuf>, capacity: nat, op: Op, ops: seq<Op>)
    requires Fits(q, capacity, op) && Legal(After(q, op), capacity, ops)
    ensures Legal(q, capacity, [op] + ops)
    ensures Final(q, capacity, [op] + ops) == Final(After(q, op), capacity, ops)
  {
    assert ([op] + ops)[1..] == ops;
  }
}
