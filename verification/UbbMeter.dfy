// The usage meter: counters in a map over bit-packed keys, which must act as a map over
// (subscriber, service) pairs.
//
// The clock is an input of each call.

module UbbMeter {
  import opened Basics
  import opened Modular

  type Subscriber = bv32
  type Service = bv16

  // ---------------------------------------------------------------- the packed key

  /** The key of the hash map; equality of keys is equality of the packed word. */
  datatype CounterKey = CounterKey(key: bv64)

  function PackKey(subscriber: Subscriber, service: Service): CounterKey {
    CounterKey(((subscriber as bv64) << 16) | (service as bv64))
  }

  /** Distinct pairs have distinct keys. */
  lemma PackKeyInjective(sub1: Subscriber, svc1: Service, sub2: Subscriber, svc2: Service)
    ensures PackKey(sub1, svc1) == PackKey(sub2, svc2) <==> sub1 == sub2 && svc1 == svc2
  {
    WideInjective(sub1 as bv64, svc1 as bv64, sub2 as bv64, svc2 as bv64);
  }

  lemma WideInjective(a: bv64, b: bv64, c: bv64, d: bv64)
    requires a <= 0xFFFF_FFFF && c <= 0xFFFF_FFFF && b <= 0xFFFF && d <= 0xFFFF
    ensures (a << 16) | b == (c << 16) | d <==> a == c && b == d
  {
  }

  // ---------------------------------------------------------------- counters

  datatype Usage = Usage(uplinkBytes: int, downlinkBytes: int, uplinkPackets: int, downlinkPackets: int)

  datatype UsageCounter = UsageCounter(
    subscriber: Subscriber, service: Service, usage: Usage,
    createdNs: int, lastUpdateNs: int, breaches: int)

  datatype Pair = Pair(subscriber: Subscriber, service: Service)

  const ZERO: Usage := Usage(0, 0, 0, 0)

  function Metered(u: Usage, bytes: int, uplink: bool): Usage {
    if uplink then
      u.(uplinkBytes := Wrap64(u.uplinkBytes + bytes), uplinkPackets := Wrap64(u.uplinkPackets + 1))
    else
      u.(downlinkBytes := Wrap64(u.downlinkBytes + bytes), downlinkPackets := Wrap64(u.downlinkPackets + 1))
  }

  type Book = map<Pair, UsageCounter>

  function Updated(book: Book, p: Pair, bytes: int, uplink: bool, now: int): Book {
    var c := if p in book then book[p] else UsageCounter(p.subscriber, p.service, ZERO, now, now, 0);
    book[p := c.(usage := Metered(c.usage, bytes, uplink), lastUpdateNs := now)]
  }

  function Reset(book: Book, p: Pair): Book {
    book - {p}
  }

  /** The threshold test, in the unsigned 64-bit arithmetic of the source. */
  function Exceeds(u: Usage, threshold: int): bool {
    Wrap64(u.uplinkBytes + u.downlinkBytes) > threshold
  }

  function Checked(book: Book, p: Pair, threshold: int): Book {
    if p in book && Exceeds(book[p].usage, threshold)
    then book[p := book[p].(breaches := Wrap32(book[p].breaches + 1))]
    else book
  }

  /** What a rollup reports; nothing but the pair when there is no counter. */
  datatype Rollup =
    | Absent(p: Pair, startNs: int, endNs: int)
    | Present(p: Pair, startNs: int, endNs: int, usage: Usage, sampleCount: int)

  /** A copy of a counter; one that does not exist is all zero, with unset times. */
  datatype Snapshot = Snapshot(
    p: Pair, usage: Usage, createdNs: Option<int>, lastUpdateNs: Option<int>, breaches: int)

  // ---------------------------------------------------------------- sums over the map

  function Bytes(u: Usage): int {
    u.uplinkBytes + u.downlinkBytes
  }

  /** The bytes of a set of pairs; the order of summation does not matter (see SumAny). */
  ghost function Sum(book: Book, pairs: set<Pair>): int
    requires pairs <= book.Keys
  {
    if pairs == {} then 0
    else
      var p :| p in pairs;
      Bytes(book[p].usage) + Sum(book, pairs - {p})
  }

  lemma {:induction false} SumAny(book: Book, pairs: set<Pair>, p: Pair)
    requires pairs <= book.Keys && p in pairs
    ensures Sum(book, pairs) == Bytes(book[p].usage) + Sum(book, pairs - {p})
    decreases |pairs|
  {
    var q :| q in pairs && Sum(book, pairs) == Bytes(book[q].usage) + Sum(book, pairs - {q});
    if q != p {
      SumAny(book, pairs - {q}, p);
      SumAny(book, pairs - {p}, q);
      assert pairs - {q} - {p} == pairs - {p} - {q};
    }
  }

  ghost function Total(book: Book): int {
    Sum(book, book.Keys)
  }

  function Entries(rollups: seq<Rollup>): int {
    if rollups == [] then 0
    else Entries(rollups[..|rollups| - 1]) + (if rollups[|rollups| - 1].Present? then Bytes(rollups[|rollups| - 1].usage) else 0)
  }

  predicate Reports(r: Rollup, c: UsageCounter) {
    r.Present? && r.usage == c.usage && r.sampleCount == 1
  }

  /** One present entry for each pair of the book, with its usage, and no other entry. */
  ghost predicate OneEntryEach(rollups: seq<Rollup>, book: Book, pairs: set<Pair>)
    requires pairs <= book.Keys
  {
    && (forall i | 0 <= i < |rollups| :: rollups[i].p in pairs && Reports(rollups[i], book[rollups[i].p]))
    && (forall i, j | 0 <= i < j < |rollups| :: rollups[i].p != rollups[j].p)
    && (forall p <- pairs :: exists i :: 0 <= i < |rollups| && rollups[i].p == p)
  }

  // ---------------------------------------------------------------- the packed map as a map over pairs

  type Packed = map<CounterKey, UsageCounter>

  function KeyOf(p: Pair): CounterKey {
    PackKey(p.subscriber, p.service)
  }

  function PairOf(c: UsageCounter): Pair {
    Pair(c.subscriber, c.service)
  }

  /** Every counter is filed under the key of its own pair. */
  ghost predicate Filed(m: Packed) {
    forall k <- m :: k == KeyOf(PairOf(m[k]))
  }

  ghost function BookOf(m: Packed): Book
    requires Filed(m)
  {
    map k | k in m :: PairOf(m[k]) := m[k]
  }

  lemma BookAt(m: Packed, p: Pair)
    requires Filed(m)
    ensures p in BookOf(m) <==> KeyOf(p) in m
    ensures p in BookOf(m) ==> BookOf(m)[p] == m[KeyOf(p)]
  {
    var k := KeyOf(p);
    if k in m {
      PackKeyInjective(m[k].subscriber, m[k].service, p.subscriber, p.service);
      assert PairOf(m[k]) == p;
    }
  }

  /** Filing one counter changes the book at its pair and nowhere else. */
  lemma FileOne(m: Packed, c: UsageCounter)
    requires Filed(m)
    ensures Filed(m[KeyOf(PairOf(c)) := c])
    ensures BookOf(m[KeyOf(PairOf(c)) := c]) == BookOf(m)[PairOf(c) := c]
  {
    var p, m' := PairOf(c), m[KeyOf(PairOf(c)) := c];
    forall k | k in m'
      ensures k == KeyOf(PairOf(m'[k]))
    {
      if k != KeyOf(p) {
        assert k in m && m'[k] == m[k];
      }
    }
    forall q: Pair
      ensures q in BookOf(m') <==> q in BookOf(m)[p := c]
      ensures q in BookOf(m') ==> BookOf(m')[q] == BookOf(m)[p := c][q]
    {
      BookAt(m, q);
      BookAt(m', q);
      PackKeyInjective(p.subscriber, p.service, q.subscriber, q.service);
    }
  }

  lemma UnfileOne(m: Packed, p: Pair)
    requires Filed(m)
    ensures Filed(m - {KeyOf(p)})
    ensures BookOf(m - {KeyOf(p)}) == BookOf(m) - {p}
  {
    var m' := m - {KeyOf(p)};
    forall k | k in m'
      ensures k == KeyOf(PairOf(m'[k]))
    {
      assert k in m && m'[k] == m[k];
    }
    forall q: Pair
      ensures q in BookOf(m') <==> q in BookOf(m) - {p}
      ensures q in BookOf(m') ==> BookOf(m')[q] == (BookOf(m) - {p})[q]
    {
      BookAt(m, q);
      BookAt(m', q);
      PackKeyInjective(p.subscriber, p.service, q.subscriber, q.service);
    }
  }

  // ---------------------------------------------------------------- the meter

  class UBBMeter {
    var counters: Packed

    ghost predicate Valid()
      reads this
    {
      Filed(counters)
    }

    /** The map over pairs that the packed map stands for. */
    ghost function Abs(): Book
      requires Valid()
      reads this
    {
      BookOf(counters)
    }

    constructor ()
      ensures Valid() && Abs() == map[]
    {
      counters := map[];
    }

    method UpdateCounter(subscriber: Subscriber, service: Service, bytes: int, uplink: bool, now: int)
      requires Valid()
      modifies this
      ensures Valid() && Abs() == Updated(old(Abs()), Pair(subscriber, service), bytes, uplink, now)
    {
      var key := PackKey(subscriber, service);
      ghost var p := Pair(subscriber, service);
      assert key == KeyOf(p);
      BookAt(counters, p);
      if key !in counters {
        var created := UsageCounter(subscriber, service, ZERO, now, now, 0);
        FileOne(counters, created);
        counters := counters[key := created];
        assert Abs() == old(Abs())[p := created];
      }
      BookAt(counters, p);
      assert counters[key] == Abs()[p];
      PackKeyInjective(counters[key].subscriber, counters[key].service, subscriber, service);
      var counter := counters[key].(usage := Metered(counters[key].usage, bytes, uplink), lastUpdateNs := now);
      FileOne(counters, counter);
      counters := counters[key := counter];
    }

    method GetCounter(subscriber: Subscriber, service: Service) returns (r: Snapshot)
      requires Valid()
      ensures r == SnapshotOf(Abs(), Pair(subscriber, service))
    {
      var p, key := Pair(subscriber, service), PackKey(subscriber, service);
      BookAt(counters, p);
      if key in counters {
        var c := counters[key];
        PackKeyInjective(c.subscriber, c.service, subscriber, service);
        r := Snapshot(PairOf(c), c.usage, Some(c.createdNs), Some(c.lastUpdateNs), c.breaches);
      } else {
        r := Snapshot(p, ZERO, None, None, 0);
      }
    }

    /** The clock is read twice; the start of the period is an unsigned difference. */
    method RollUp(subscriber: Subscriber, service: Service, periodNs: int, now: int, later: int) returns (r: Rollup)
      requires Valid()
      ensures r == RollupOf(Abs(), Pair(subscriber, service), Wrap64(now - periodNs), later)
    {
      BookAt(counters, Pair(subscriber, service));
      var key := PackKey(subscriber, service);
      r := if key in counters
      then Present(Pair(subscriber, service), Wrap64(now - periodNs), later, counters[key].usage, 1)
      else Absent(Pair(subscriber, service), Wrap64(now - periodNs), later);
    }

    /** The loop takes the keys in an arbitrary order, as the hash map may; `clock` is what the clock
        shows at its successive readings, two for each entry. */
    method BatchRollup(periodNs: int, clock: nat -> int) returns (rollups: seq<Rollup>)
      requires Valid()
      ensures OneEntryEach(rollups, Abs(), Abs().Keys)
      ensures forall i | 0 <= i < |rollups| ::
                rollups[i].startNs == Wrap64(clock(2 * i) - periodNs) && rollups[i].endNs == clock(2 * i + 1)
      ensures Entries(rollups) == Total(Abs())
    {
      rollups := [];
      var left := counters.Keys;
      ghost var done: set<Pair> := {};
      while left != {}
        invariant left <= counters.Keys
        invariant forall p: Pair :: p in done <==> p in Abs() && KeyOf(p) !in left
        invariant done <= Abs().Keys
        invariant OneEntryEach(rollups, Abs(), done)
        invariant Timed(rollups, periodNs, clock)
        invariant Entries(rollups) == Sum(Abs(), done)
        decreases left
      {
        var k :| k in left;
        var p := PairOf(counters[k]);
        BookAt(counters, p);
        var entry := EntryAt(|rollups|, counters[k], periodNs, clock);
        AddTimed(rollups, counters[k], periodNs, clock);
        AddEntry(rollups, Abs(), done, entry);
        KeysOfOthers(counters, k);
        rollups := rollups + [entry];
        left := left - {k};
        done := done + {p};
      }
      NoneLeft(counters, done);
    }

    method ResetCounter(subscriber: Subscriber, service: Service)
      requires Valid()
      modifies this
      ensures Valid() && Abs() == Reset(old(Abs()), Pair(subscriber, service))
    {
      UnfileOne(counters, Pair(subscriber, service));
      counters := counters - {PackKey(subscriber, service)};
    }

    method CheckThreshold(subscriber: Subscriber, service: Service, threshold: int) returns (breach: bool)
      requires Valid()
      modifies this
      ensures breach <==> Pair(subscriber, service) in old(Abs()) && Exceeds(old(Abs())[Pair(subscriber, service)].usage, threshold)
      ensures Valid() && Abs() == Checked(old(Abs()), Pair(subscriber, service), threshold)
    {
      BookAt(counters, Pair(subscriber, service));
      var key := PackKey(subscriber, service);
      if key !in counters {
        return false;
      }
      breach := Exceeds(counters[key].usage, threshold);
      if breach {
        PackKeyInjective(counters[key].subscriber, counters[key].service, subscriber, service);
        var counter := counters[key].(breaches := Wrap32(counters[key].breaches + 1));
        FileOne(counters, counter);
        counters := counters[key := counter];
      }
    }

    /** The loop takes the keys in an arbitrary order, as the hash map may. */
    method GetTotalUsage() returns (total: int)
      requires Valid()
      ensures total == Wrap64(Total(Abs()))
    {
      total := 0;
      var left := counters.Keys;
      ghost var done: set<Pair> := {};
      while left != {}
        invariant left <= counters.Keys
        invariant forall p: Pair :: p in done <==> p in Abs() && KeyOf(p) !in left
        invariant done <= Abs().Keys
        invariant total == Wrap64(Sum(Abs(), done))
        decreases left
      {
        var k :| k in left;
        ghost var p := PairOf(counters[k]);
        BookAt(counters, p);
        KeysOfOthers(counters, k);
        SumAny(Abs(), done + {p}, p);
        assert done + {p} - {p} == done;
        Wrap64Add(Sum(Abs(), done), counters[k].usage.uplinkBytes);
        total := Wrap64(total + counters[k].usage.uplinkBytes);
        Wrap64Add(Sum(Abs(), done) + counters[k].usage.uplinkBytes, counters[k].usage.downlinkBytes);
        total := Wrap64(total + counters[k].usage.downlinkBytes);
        left := left - {k};
        done := done + {p};
      }
      NoneLeft(counters, done);
    }
  }

  function SnapshotOf(book: Book, p: Pair): Snapshot {
    if p in book
    then Snapshot(p, book[p].usage, Some(book[p].createdNs), Some(book[p].lastUpdateNs), book[p].breaches)
    else Snapshot(p, ZERO, None, None, 0)
  }

  function RollupOf(book: Book, p: Pair, startNs: int, endNs: int): Rollup {
    if p in book then Present(p, startNs, endNs, book[p].usage, 1) else Absent(p, startNs, endNs)
  }

  /** Only the pair of the counter filed under k has key k. */
  lemma KeysOfOthers(m: Packed, k: CounterKey)
    requires Filed(m) && k in m
    ensures forall p: Pair :: p in BookOf(m) && KeyOf(p) == k <==> p == PairOf(m[k])
  {
    forall p: Pair
      ensures p in BookOf(m) && KeyOf(p) == k <==> p == PairOf(m[k])
    {
      BookAt(m, p);
      PackKeyInjective(p.subscriber, p.service, m[k].subscriber, m[k].service);
    }
  }

  lemma NoneLeft(m: Packed, done: set<Pair>)
    requires Filed(m) && (forall p: Pair :: p in done <==> p in BookOf(m))
    ensures done == BookOf(m).Keys
  {
  }

  /** The entry made for a counter in the i-th place. */
  function EntryAt(i: nat, c: UsageCounter, periodNs: int, clock: nat -> int): Rollup {
    Present(PairOf(c), Wrap64(clock(2 * i) - periodNs), clock(2 * i + 1), c.usage, 1)
  }

  /** Each entry spans the period before its own two clock readings. */
  predicate Timed(rollups: seq<Rollup>, periodNs: int, clock: nat -> int) {
    forall i | 0 <= i < |rollups| ::
      rollups[i].startNs == Wrap64(clock(2 * i) - periodNs) && rollups[i].endNs == clock(2 * i + 1)
  }

  lemma AddTimed(rollups: seq<Rollup>, c: UsageCounter, periodNs: int, clock: nat -> int)
    requires Timed(rollups, periodNs, clock)
    ensures Timed(rollups + [EntryAt(|rollups|, c, periodNs, clock)], periodNs, clock)
  {
  }

  lemma AddEntry(rollups: seq<Rollup>, book: Book, done: set<Pair>, entry: Rollup)
    requires done <= book.Keys && OneEntryEach(rollups, book, done) && Entries(rollups) == Sum(book, done)
    requires entry.p in book && entry.p !in done && Reports(entry, book[entry.p])
    ensures OneEntryEach(rollups + [entry], book, done + {entry.p})
    ensures Entries(rollups + [entry]) == Sum(book, done + {entry.p})
  {
    AddSum(rollups, book, done, entry);
    AddReport(rollups, book, done, entry);
  }

  lemma AddSum(rollups: seq<Rollup>, book: Book, done: set<Pair>, entry: Rollup)
    requires done <= book.Keys && Entries(rollups) == Sum(book, done)
    requires entry.p in book && entry.p !in done && Reports(entry, book[entry.p])
    ensures Entries(rollups + [entry]) == Sum(book, done + {entry.p})
  {
    assert (rollups + [entry])[..|rollups|] == rollups;
    SumAny(book, done + {entry.p}, entry.p);
    assert done + {entry.p} - {entry.p} == done;
  }

  lemma AddReport(rollups: seq<Rollup>, book: Book, done: set<Pair>, entry: Rollup)
    requires done <= book.Keys && OneEntryEach(rollups, book, done)
    requires entry.p in book && entry.p !in done && Reports(entry, book[entry.p])
    ensures OneEntryEach(rollups + [entry], book, done + {entry.p})
  {
    var r' := rollups + [entry];
    forall p <- done + {entry.p}
      ensures exists i :: 0 <= i < |r'| && r'[i].p == p
    {
      if p in done {
        var i :| 0 <= i < |rollups| && rollups[i].p == p;
        assert r'[i].p == p;
      } else {
        assert r'[|rollups|].p == p;
      }
    }
  }
}
