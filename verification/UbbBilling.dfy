// Billing over whole histories of the usage meter, and over interleavings of its atomic adds.

module UbbBilling {
  import opened Basics
  import opened Modular
  import opened UbbMeter

  datatype Op =
    | Update(p: Pair, bytes: nat, uplink: bool, now: int)
    | ResetPair(p: Pair)
    | Check(p: Pair, threshold: int)
    | Read

  function Step(book: Book, op: Op): Book {
    match op
    case Update(p, bytes, uplink, now) => Updated(book, p, bytes, uplink, now)
    case ResetPair(p) => Reset(book, p)
    case Check(p, threshold) => Checked(book, p, threshold)
    case Read => book
  }

  /** The book after a history, from an empty meter. */
  function Replay(ops: seq<Op>): Book {
    if ops == [] then map[] else Step(Replay(ops[..|ops| - 1]), ops[|ops| - 1])
  }

  /** The part of the history after the last reset of the pair. */
  function SinceReset(ops: seq<Op>, p: Pair): (tail: seq<Op>)
    ensures forall op <- tail :: op in ops
  {
    if ops == [] then []
    else
      var last := ops[|ops| - 1];
      if last == ResetPair(p) then [] else SinceReset(ops[..|ops| - 1], p) + [last]
  }

  predicate Meters(op: Op, p: Pair, uplink: bool) {
    op.Update? && op.p == p && op.uplink == uplink
  }

  /** The bytes and packets a history meters for a pair in one direction, without any wrap. */
  function TrueBytes(ops: seq<Op>, p: Pair, uplink: bool): nat {
    if ops == [] then 0
    else TrueBytes(ops[..|ops| - 1], p, uplink) + (if Meters(ops[|ops| - 1], p, uplink) then ops[|ops| - 1].bytes else 0)
  }

  function TruePackets(ops: seq<Op>, p: Pair, uplink: bool): nat {
    if ops == [] then 0
    else TruePackets(ops[..|ops| - 1], p, uplink) + (if Meters(ops[|ops| - 1], p, uplink) then 1 else 0)
  }

  /** The bill of a pair: its traffic since its last reset, modulo 2^64. */
  function Bill(ops: seq<Op>, p: Pair): Usage {
    var tail := SinceReset(ops, p);
    Usage(Wrap64(TrueBytes(tail, p, true)), Wrap64(TrueBytes(tail, p, false)),
          Wrap64(TruePackets(tail, p, true)), Wrap64(TruePackets(tail, p, false)))
  }

  /** A step for one pair leaves every other pair as it was. */
  lemma OtherPairsUntouched(book: Book, op: Op, q: Pair)
    requires op.Read? || op.p != q
    ensures q in Step(book, op) <==> q in book
    ensures q in book ==> Step(book, op)[q] == book[q]
  {
  }

  lemma Appended(tail: seq<Op>, op: Op, p: Pair, uplink: bool)
    ensures TrueBytes(tail + [op], p, uplink) == TrueBytes(tail, p, uplink) + if Meters(op, p, uplink) then op.bytes else 0
    ensures TruePackets(tail + [op], p, uplink) == TruePackets(tail, p, uplink) + if Meters(op, p, uplink) then 1 else 0
  {
    assert (tail + [op])[..|tail|] == tail;
  }

  lemma BillStep(ops: seq<Op>, p: Pair)
    requires ops != []
    ensures var before, op := ops[..|ops| - 1], ops[|ops| - 1];
            Bill(ops, p) == if op == ResetPair(p) then ZERO
                            else if op.Update? && op.p == p then Metered(Bill(before, p), op.bytes, op.uplink)
                            else Bill(before, p)
  {
    var before, op := ops[..|ops| - 1], ops[|ops| - 1];
    var tail := SinceReset(before, p);
    if op != ResetPair(p) {
      Appended(tail, op, p, true);
      Appended(tail, op, p, false);
      if op.Update? && op.p == p {
        Wrap64Add(TrueBytes(tail, p, op.uplink), op.bytes);
        Wrap64Add(TruePackets(tail, p, op.uplink), 1);
      }
    }
  }

  /** A pair has a counter exactly when it was metered since its last reset. */
  ghost predicate Live(ops: seq<Op>, p: Pair) {
    exists op <- SinceReset(ops, p) :: op.Update? && op.p == p
  }

  lemma LiveStep(ops: seq<Op>, p: Pair)
    requires ops != []
    ensures var before, op := ops[..|ops| - 1], ops[|ops| - 1];
            Live(ops, p) <==> op != ResetPair(p) && ((op.Update? && op.p == p) || Live(before, p))
  {
    var before, op := ops[..|ops| - 1], ops[|ops| - 1];
    if op != ResetPair(p) {
      assert SinceReset(ops, p) == SinceReset(before, p) + [op];
      if Live(before, p) {
        var x :| x in SinceReset(before, p) && x.Update? && x.p == p;
        assert x in SinceReset(ops, p);
      }
      if op.Update? && op.p == p {
        assert op in SinceReset(ops, p);
      }
    }
  }

  /** Over any history of updates, resets, checks and reads, the meter holds exactly the bill of
      every pair, and has a counter for a pair if and only if there is something to bill. */
  lemma {:induction false} BillsExactly(ops: seq<Op>, p: Pair)
    ensures p in Replay(ops) <==> Live(ops, p)
    ensures p in Replay(ops) ==> Replay(ops)[p].usage == Bill(ops, p)
    ensures p !in Replay(ops) ==> Bill(ops, p) == ZERO
    decreases |ops|
  {
    if ops == [] {
    } else {
      var before, op := ops[..|ops| - 1], ops[|ops| - 1];
      BillsExactly(before, p);
      BillStep(ops, p);
      LiveStep(ops, p);
      if op.Read? || op.p != p {
        OtherPairsUntouched(Replay(before), op, p);
      }
    }
  }

  /** Byte counts as the source passes them: uint32_t. */
  predicate Uint32Bytes(ops: seq<Op>) {
    forall op <- ops :: op.Update? ==> op.bytes < WORD
  }

  lemma {:induction false} BytesBounded(ops: seq<Op>, p: Pair, uplink: bool)
    requires Uint32Bytes(ops)
    ensures TrueBytes(ops, p, uplink) <= TruePackets(ops, p, uplink) * (WORD - 1)
    decreases |ops|
  {
    if ops == [] {
    } else {
      var before := ops[..|ops| - 1];
      assert forall op <- before :: op in ops;
      BytesBounded(before, p, uplink);
      assert ops[|ops| - 1] in ops;
    }
  }

  /** No counter wraps while its pair has had at most 2^32 + 1 updates in that direction since the
      last reset. */
  lemma NoWrapWithinWordUpdates(ops: seq<Op>, p: Pair)
    requires Uint32Bytes(ops)
    requires TruePackets(SinceReset(ops, p), p, true) <= WORD + 1 && TruePackets(SinceReset(ops, p), p, false) <= WORD + 1
    ensures Bill(ops, p) == Usage(TrueBytes(SinceReset(ops, p), p, true), TrueBytes(SinceReset(ops, p), p, false),
                                  TruePackets(SinceReset(ops, p), p, true), TruePackets(SinceReset(ops, p), p, false))
  {
    BytesBounded(SinceReset(ops, p), p, true);
    BytesBounded(SinceReset(ops, p), p, false);
    NoWrap(TrueBytes(SinceReset(ops, p), p, true), TruePackets(SinceReset(ops, p), p, true));
    NoWrap(TrueBytes(SinceReset(ops, p), p, false), TruePackets(SinceReset(ops, p), p, false));
  }

  lemma NoWrap(bytes: nat, packets: nat)
    requires packets <= WORD + 1 && bytes <= packets * (WORD - 1)
    ensures Wrap64(bytes) == bytes && Wrap64(packets) == packets
  {
    assert packets * (WORD - 1) <= (WORD + 1) * (WORD - 1);
  }

  /** A history of n updates of the largest size, in one direction. */
  function FullUpdates(n: nat, p: Pair, uplink: bool): seq<Op> {
    if n == 0 then [] else FullUpdates(n - 1, p, uplink) + [Update(p, WORD - 1, uplink, 0)]
  }

  lemma {:induction false} FullSinceReset(n: nat, p: Pair, uplink: bool)
    ensures SinceReset(FullUpdates(n, p, uplink), p) == FullUpdates(n, p, uplink)
    ensures Uint32Bytes(FullUpdates(n, p, uplink))
  {
    if n == 0 {
    } else {
      FullSinceReset(n - 1, p, uplink);
      var ops := FullUpdates(n, p, uplink);
      assert ops[..|ops| - 1] == FullUpdates(n - 1, p, uplink);
    }
  }

  lemma {:induction false} FullTraffic(n: nat, p: Pair, uplink: bool)
    ensures TrueBytes(FullUpdates(n, p, uplink), p, uplink) == n * (WORD - 1)
    ensures TruePackets(FullUpdates(n, p, uplink), p, uplink) == n
    ensures TrueBytes(FullUpdates(n, p, uplink), p, !uplink) == 0
    decreases n
  {
    if n == 0 {
    } else {
      FullTraffic(n - 1, p, uplink);
      Appended(FullUpdates(n - 1, p, uplink), Update(p, WORD - 1, uplink, 0), p, uplink);
      Appended(FullUpdates(n - 1, p, uplink), Update(p, WORD - 1, uplink, 0), p, !uplink);
    }
  }

  /** The bound is tight: with one update more a byte counter can wrap. */
  lemma WrapAtNextUpdate(p: Pair)
    ensures var ops := FullUpdates(WORD + 2, p, true);
            && Uint32Bytes(ops) && TruePackets(SinceReset(ops, p), p, true) == WORD + 2
            && Bill(ops, p).uplinkBytes != TrueBytes(SinceReset(ops, p), p, true)
  {
    FullTraffic(WORD + 2, p, true);
    FullSinceReset(WORD + 2, p, true);
    assert (WORD + 2) * (WORD - 1) >= QWORD;
  }

  // ---------------------------------------------------------------- the threshold

  /** The bytes of a pair in both directions since its last reset, without any wrap. */
  function Traffic(ops: seq<Op>, p: Pair): nat {
    TrueBytes(SinceReset(ops, p), p, true) + TrueBytes(SinceReset(ops, p), p, false)
  }

  /** The threshold test compares a wrapped sum: it is exact if and only if the sum does not wrap,
      or what remains after the wrap still exceeds the threshold. */
  lemma ThresholdExactIff(u: Usage, threshold: int)
    requires 0 <= u.uplinkBytes < QWORD && 0 <= u.downlinkBytes < QWORD && 0 <= threshold < QWORD
    ensures (Exceeds(u, threshold) <==> Bytes(u) > threshold) <==> Bytes(u) < QWORD || Bytes(u) - QWORD > threshold
  {
    if Bytes(u) >= QWORD {
      assert Wrap64(Bytes(u)) == Bytes(u) - QWORD;
    }
  }

  lemma BillExceeds(ops: seq<Op>, p: Pair, threshold: int)
    requires p in Replay(ops)
    ensures Exceeds(Replay(ops)[p].usage, threshold) <==> Wrap64(Traffic(ops, p)) > threshold
  {
    BillsExactly(ops, p);
    var a, b := TrueBytes(SinceReset(ops, p), p, true), TrueBytes(SinceReset(ops, p), p, false);
    Wrap64Add(a, Wrap64(b));
    Wrap64Add(b, a);
    assert Wrap64(a) + Wrap64(b) == Wrap64(b) + Wrap64(a);
  }

  /** After any history the test of a pair tells whether its true traffic exceeds the threshold if
      and only if that traffic fits 64 bits, or what the wrap leaves of it still exceeds. */
  lemma TrafficThresholdIff(ops: seq<Op>, p: Pair, threshold: int)
    requires p in Replay(ops) && 0 <= threshold < QWORD
    ensures (Exceeds(Replay(ops)[p].usage, threshold) <==> Traffic(ops, p) > threshold) <==>
            Traffic(ops, p) < QWORD || Traffic(ops, p) % QWORD > threshold
  {
    BillExceeds(ops, p, threshold);
    if Traffic(ops, p) < QWORD {
      Wrap64Fits(Traffic(ops, p));
    }
  }

  /** 2^32 + 1 largest updates one way and one byte the other: 2^64 bytes of traffic, and no
      threshold is ever found exceeded. */
  lemma ThresholdMissesTraffic(p: Pair, threshold: int)
    requires 0 <= threshold < QWORD
    ensures var ops := FullUpdates(WORD + 1, p, true) + [Update(p, 1, false, 0)];
            && Uint32Bytes(ops) && p in Replay(ops)
            && Traffic(ops, p) == QWORD && Traffic(ops, p) > threshold
            && !Exceeds(Replay(ops)[p].usage, threshold)
  {
    var full, last := FullUpdates(WORD + 1, p, true), Update(p, 1, false, 0);
    var ops := full + [last];
    FullTraffic(WORD + 1, p, true);
    FullSinceReset(WORD + 1, p, true);
    assert ops[..|ops| - 1] == full && ops[|ops| - 1] == last;
    assert SinceReset(ops, p) == full + [last];
    Appended(full, last, p, true);
    Appended(full, last, p, false);
    assert (WORD + 1) * (WORD - 1) + 1 == QWORD;
    assert p in Replay(ops);
    BillExceeds(ops, p, threshold);
  }

  // ---------------------------------------------------------------- what the reports say

  /** A roll-up reports a pair if and only if it was metered since its last reset, and then, cell by
      cell, its traffic in each direction modulo 2^64, as one sample for the period asked. */
  lemma RollupIsBill(ops: seq<Op>, p: Pair, startNs: int, endNs: int)
    ensures var r, since := RollupOf(Replay(ops), p, startNs, endNs), SinceReset(ops, p);
            && r.p == p && r.startNs == startNs && r.endNs == endNs && (r.Present? <==> Live(ops, p))
            && (r.Present? ==>
                  && r.sampleCount == 1
                  && r.usage.uplinkBytes == Wrap64(TrueBytes(since, p, true))
                  && r.usage.downlinkBytes == Wrap64(TrueBytes(since, p, false))
                  && r.usage.uplinkPackets == Wrap64(TruePackets(since, p, true))
                  && r.usage.downlinkPackets == Wrap64(TruePackets(since, p, false)))
  {
    BillsExactly(ops, p);
  }

  /** A batch of roll-ups has an entry for a pair if and only if the pair is live, then only one, and
      that entry is its bill. */
  lemma BatchIsBills(ops: seq<Op>, rollups: seq<Rollup>, p: Pair)
    requires OneEntryEach(rollups, Replay(ops), Replay(ops).Keys)
    ensures Live(ops, p) <==> exists i :: 0 <= i < |rollups| && rollups[i].p == p
    ensures forall i, j | 0 <= i < |rollups| && 0 <= j < |rollups| && rollups[i].p == rollups[j].p == p :: i == j
    ensures forall i | 0 <= i < |rollups| && rollups[i].p == p ::
              && rollups[i].Present? && rollups[i].sampleCount == 1
              && rollups[i].usage.uplinkBytes == Wrap64(TrueBytes(SinceReset(ops, p), p, true))
              && rollups[i].usage.downlinkBytes == Wrap64(TrueBytes(SinceReset(ops, p), p, false))
              && rollups[i].usage.uplinkPackets == Wrap64(TruePackets(SinceReset(ops, p), p, true))
              && rollups[i].usage.downlinkPackets == Wrap64(TruePackets(SinceReset(ops, p), p, false))
  {
    BillsExactly(ops, p);
  }

  /** The times of the first and of the last update of a pair in a history. */
  function FirstTime(ops: seq<Op>, p: Pair): Option<int> {
    if ops == [] then None
    else
      var earlier, last := FirstTime(ops[..|ops| - 1], p), ops[|ops| - 1];
      if earlier == None && last.Update? && last.p == p then Some(last.now) else earlier
  }

  function LastTime(ops: seq<Op>, p: Pair): Option<int> {
    if ops == [] then None
    else
      var last := ops[|ops| - 1];
      if last.Update? && last.p == p then Some(last.now) else LastTime(ops[..|ops| - 1], p)
  }

  /** Checks since the last reset that found the pair's traffic over the threshold. */
  ghost function BreachCount(ops: seq<Op>, p: Pair): nat {
    if ops == [] then 0
    else
      var before, last := ops[..|ops| - 1], ops[|ops| - 1];
      if last == ResetPair(p) then 0
      else BreachCount(before, p) +
           (if last.Check? && last.p == p && Live(before, p) && Wrap64(Traffic(before, p)) > last.threshold then 1 else 0)
  }

  lemma TimesAppended(tail: seq<Op>, op: Op, p: Pair)
    ensures FirstTime(tail + [op], p)
            == if FirstTime(tail, p) == None && op.Update? && op.p == p then Some(op.now) else FirstTime(tail, p)
    ensures LastTime(tail + [op], p) == if op.Update? && op.p == p then Some(op.now) else LastTime(tail, p)
  {
    assert (tail + [op])[..|tail|] == tail;
  }

  /** The counter of a pair, if there is one, carries the times of its first and last update since the
      reset, and its breaches. */
  ghost predicate Carried(ops: seq<Op>, p: Pair) {
    if p in Replay(ops) then
      var c, since := Replay(ops)[p], SinceReset(ops, p);
      && PairOf(c) == p && Some(c.createdNs) == FirstTime(since, p) && Some(c.lastUpdateNs) == LastTime(since, p)
      && c.breaches == Wrap32(BreachCount(ops, p))
    else
      FirstTime(SinceReset(ops, p), p) == None && BreachCount(ops, p) == 0
  }

  /** In every history every counter carries its times and breaches. */
  lemma {:induction false} CountersCarryHistory(ops: seq<Op>, p: Pair)
    ensures Carried(ops, p)
    decreases |ops|
  {
    if ops == [] {
    } else {
      var before, op := ops[..|ops| - 1], ops[|ops| - 1];
      CountersCarryHistory(before, p);
      BillsExactly(before, p);
      if op.Read? || op.p != p {
        CarryOther(ops, p);
      } else if op.Update? {
        CarryUpdate(ops, p);
      } else if op.Check? {
        CarryCheck(ops, p);
      }
    }
  }

  lemma CarryOther(ops: seq<Op>, p: Pair)
    requires ops != [] && (ops[|ops| - 1].Read? || ops[|ops| - 1].p != p) && Carried(ops[..|ops| - 1], p)
    ensures Carried(ops, p)
  {
    var before, op := ops[..|ops| - 1], ops[|ops| - 1];
    OtherPairsUntouched(Replay(before), op, p);
    TimesAppended(SinceReset(before, p), op, p);
  }

  lemma CarryUpdate(ops: seq<Op>, p: Pair)
    requires ops != [] && ops[|ops| - 1].Update? && ops[|ops| - 1].p == p && Carried(ops[..|ops| - 1], p)
    ensures Carried(ops, p)
  {
    TimesAppended(SinceReset(ops[..|ops| - 1], p), ops[|ops| - 1], p);
  }

  lemma CarryCheck(ops: seq<Op>, p: Pair)
    requires ops != [] && ops[|ops| - 1].Check? && ops[|ops| - 1].p == p && Carried(ops[..|ops| - 1], p)
    requires p in Replay(ops[..|ops| - 1]) <==> Live(ops[..|ops| - 1], p)
    ensures Carried(ops, p)
  {
    var before, op := ops[..|ops| - 1], ops[|ops| - 1];
    TimesAppended(SinceReset(before, p), op, p);
    WrapAdd(BreachCount(before, p), 1);
    if p in Replay(before) {
      BillExceeds(before, p, op.threshold);
    }
  }

  /** The copy a reader gets of a counter says just that. */
  lemma SnapshotIsHistory(ops: seq<Op>, p: Pair)
    ensures var r, since := SnapshotOf(Replay(ops), p), SinceReset(ops, p);
            && r.p == p && r.usage == Bill(ops, p)
            && r.createdNs == FirstTime(since, p) && r.lastUpdateNs == (if Live(ops, p) then LastTime(since, p) else None)
            && r.breaches == Wrap32(BreachCount(ops, p))
  {
    BillsExactly(ops, p);
    CountersCarryHistory(ops, p);
  }

  /** The bytes that the roll-up of a pair reports. */
  function RollupBytes(book: Book, p: Pair): int {
    var r := RollupOf(book, p, 0, 0);
    if r.Present? then r.usage.uplinkBytes + r.usage.downlinkBytes else 0
  }

  /** The roll-ups of a set of pairs, added up; and the true traffic of the pairs. */
  ghost function RollupSum(book: Book, pairs: set<Pair>): int {
    if pairs == {} then 0
    else
      var p :| p in pairs;
      RollupBytes(book, p) + RollupSum(book, pairs - {p})
  }

  ghost function TrafficSum(ops: seq<Op>, pairs: set<Pair>): nat {
    if pairs == {} then 0
    else
      var p :| p in pairs;
      Traffic(ops, p) + TrafficSum(ops, pairs - {p})
  }

  lemma {:induction false} SumIsRollups(book: Book, pairs: set<Pair>)
    requires pairs <= book.Keys
    ensures Sum(book, pairs) == RollupSum(book, pairs)
    decreases |pairs|
  {
    if pairs == {} {
    } else {
      var p :| p in pairs && RollupSum(book, pairs) == RollupBytes(book, p) + RollupSum(book, pairs - {p});
      assert p in book;
      assert RollupBytes(book, p) == Bytes(book[p].usage);
      SumAny(book, pairs, p);
      SumIsRollups(book, pairs - {p});
      assert Sum(book, pairs) == Bytes(book[p].usage) + Sum(book, pairs - {p});
      assert RollupSum(book, pairs) == RollupBytes(book, p) + RollupSum(book, pairs - {p});
    }
  }

  lemma {:induction false} SumIsTraffic(ops: seq<Op>, pairs: set<Pair>)
    requires pairs <= Replay(ops).Keys
    ensures Wrap64(Sum(Replay(ops), pairs)) == Wrap64(TrafficSum(ops, pairs))
    decreases |pairs|
  {
    if pairs == {} {
    } else {
      var p :| p in pairs && TrafficSum(ops, pairs) == Traffic(ops, p) + TrafficSum(ops, pairs - {p});
      assert p in Replay(ops);
      SumAny(Replay(ops), pairs, p);
      SumIsTraffic(ops, pairs - {p});
      PairTraffic(ops, p, Sum(Replay(ops), pairs - {p}), TrafficSum(ops, pairs - {p}));
    }
  }

  lemma PairTraffic(ops: seq<Op>, p: Pair, x: int, y: int)
    requires p in Replay(ops) && Wrap64(x) == Wrap64(y)
    ensures Wrap64(Bytes(Replay(ops)[p].usage) + x) == Wrap64(Traffic(ops, p) + y)
  {
    BillsExactly(ops, p);
    AddWrapped(TrueBytes(SinceReset(ops, p), p, true), TrueBytes(SinceReset(ops, p), p, false), x, y);
  }

  lemma AddWrapped(a: int, b: int, x: int, y: int)
    requires Wrap64(x) == Wrap64(y)
    ensures Wrap64(Wrap64(a) + Wrap64(b) + x) == Wrap64(a + b + y)
  {
    Wrap64Add(a, Wrap64(b) + x);
    Wrap64Add(b, a + x);
    Wrap64Add(x, a + b);
    Wrap64Add(y, a + b);
  }

  /** The total is the sum of the roll-ups of the live pairs, those with a counter (see BillsExactly),
      and modulo 2^64 the traffic metered for all pairs since their resets. */
  lemma TotalIsRollups(ops: seq<Op>)
    ensures Total(Replay(ops)) == RollupSum(Replay(ops), Replay(ops).Keys)
    ensures Wrap64(Total(Replay(ops))) == Wrap64(TrafficSum(ops, Replay(ops).Keys))
  {
    SumIsRollups(Replay(ops), Replay(ops).Keys);
    SumIsTraffic(ops, Replay(ops).Keys);
  }

  // ---------------------------------------------------------------- interleaved atomic adds

  datatype Cell = UplinkBytes | DownlinkBytes | UplinkPackets | DownlinkPackets

  datatype Add = Add(cell: Cell, amount: nat)

  function Get(u: Usage, cell: Cell): int {
    match cell
    case UplinkBytes => u.uplinkBytes
    case DownlinkBytes => u.downlinkBytes
    case UplinkPackets => u.uplinkPackets
    case DownlinkPackets => u.downlinkPackets
  }

  /** One atomic fetch-and-add on one cell. */
  function FetchAdd(u: Usage, a: Add): Usage {
    match a.cell
    case UplinkBytes => u.(uplinkBytes := Wrap64(u.uplinkBytes + a.amount))
    case DownlinkBytes => u.(downlinkBytes := Wrap64(u.downlinkBytes + a.amount))
    case UplinkPackets => u.(uplinkPackets := Wrap64(u.uplinkPackets + a.amount))
    case DownlinkPackets => u.(downlinkPackets := Wrap64(u.downlinkPackets + a.amount))
  }

  /** An update of an existing counter: the bytes, then the packet, as two separate adds. */
  datatype Sample = Sample(bytes: nat, uplink: bool)

  function Adds(x: Sample): seq<Add> {
    if x.uplink then [Add(UplinkBytes, x.bytes), Add(UplinkPackets, 1)]
    else [Add(DownlinkBytes, x.bytes), Add(DownlinkPackets, 1)]
  }

  function Program(xs: seq<Sample>): seq<Add> {
    if xs == [] then [] else Adds(xs[0]) + Program(xs[1..])
  }

  function Owed(program: seq<Add>, cell: Cell): nat {
    if program == [] then 0 else (if program[0].cell == cell then program[0].amount else 0) + Owed(program[1..], cell)
  }

  /** What all threads together still have to add to a cell. */
  function OwedByAll(programs: seq<seq<Add>>, cell: Cell): nat {
    if programs == [] then 0 else Owed(programs[0], cell) + OwedByAll(programs[1..], cell)
  }

  predicate Done(programs: seq<seq<Add>>) {
    forall program <- programs :: program == []
  }

  /** A schedule names, step by step, the thread that performs its next add. */
  predicate Schedulable(programs: seq<seq<Add>>, schedule: seq<nat>)
    decreases |schedule|
  {
    if schedule == [] then Done(programs)
    else
      && schedule[0] < |programs| && programs[schedule[0]] != []
      && Schedulable(programs[schedule[0] := programs[schedule[0]][1..]], schedule[1..])
  }

  function Outcome(u: Usage, programs: seq<seq<Add>>, schedule: seq<nat>): Usage
    requires Schedulable(programs, schedule)
    decreases |schedule|
  {
    if schedule == [] then u
    else
      var t := schedule[0];
      Outcome(FetchAdd(u, programs[t][0]), programs[t := programs[t][1..]], schedule[1..])
  }

  lemma {:induction false} OwedAfterOne(programs: seq<seq<Add>>, t: nat, cell: Cell)
    requires t < |programs| && programs[t] != []
    ensures OwedByAll(programs, cell)
            == OwedByAll(programs[t := programs[t][1..]], cell) + (if programs[t][0].cell == cell then programs[t][0].amount else 0)
    decreases |programs|
  {
    var after := programs[t := programs[t][1..]];
    if t == 0 {
      assert after[1..] == programs[1..];
    } else {
      OwedAfterOne(programs[1..], t - 1, cell);
      assert after[1..] == programs[1..][t - 1 := programs[t][1..]];
    }
  }

  lemma {:induction false} DoneOwesNothing(programs: seq<seq<Add>>, cell: Cell)
    requires Done(programs)
    ensures OwedByAll(programs, cell) == 0
    decreases |programs|
  {
    if programs == [] {
    } else {
      assert programs[0] in programs;
      assert forall p <- programs[1..] :: p in programs;
      DoneOwesNothing(programs[1..], cell);
    }
  }

  lemma FetchAddCell(u: Usage, a: Add, cell: Cell)
    ensures Get(FetchAdd(u, a), cell) == if a.cell == cell then Wrap64(Get(u, cell) + a.amount) else Get(u, cell)
  {
  }

  /** Every interleaving adds, to each cell, exactly what the threads owed it. */
  lemma {:induction false} InterleavingConserves(u: Usage, programs: seq<seq<Add>>, schedule: seq<nat>, cell: Cell)
    requires Schedulable(programs, schedule) && Get(u, cell) == Wrap64(Get(u, cell))
    ensures Get(Outcome(u, programs, schedule), cell) == Wrap64(Get(u, cell) + OwedByAll(programs, cell))
    decreases |schedule|
  {
    if schedule == [] {
      DoneOwesNothing(programs, cell);
    } else {
      var t := schedule[0];
      var a := programs[t][0];
      var u1 := FetchAdd(u, a);
      var rest := programs[t := programs[t][1..]];
      OwedAfterOne(programs, t, cell);
      FetchAddCell(u, a, cell);
      if a.cell == cell {
        Wrap64Add(Get(u, cell) + a.amount, 0);
        Wrap64Add(Get(u, cell) + a.amount, OwedByAll(rest, cell));
      }
      InterleavingConserves(u1, rest, schedule[1..], cell);
    }
  }

  /** One thread metering the samples of all threads in turn. */
  function MeterAll(u: Usage, xs: seq<Sample>): Usage
    decreases |xs|
  {
    if xs == [] then u else MeterAll(Metered(u, xs[0].bytes, xs[0].uplink), xs[1..])
  }

  function Flatten(samples: seq<seq<Sample>>): seq<Sample> {
    if samples == [] then [] else samples[0] + Flatten(samples[1..])
  }

  function Programs(samples: seq<seq<Sample>>): seq<seq<Add>> {
    seq(|samples|, i requires 0 <= i < |samples| => Program(samples[i]))
  }

  lemma {:induction false} OwedAppend(a: seq<Add>, b: seq<Add>, cell: Cell)
    ensures Owed(a + b, cell) == Owed(a, cell) + Owed(b, cell)
    decreases |a|
  {
    if a == [] {
      assert a + b == b;
    } else {
      OwedAppend(a[1..], b, cell);
      assert (a + b)[1..] == a[1..] + b;
    }
  }

  lemma {:induction false} OwedFlatten(samples: seq<seq<Sample>>, cell: Cell)
    ensures OwedByAll(Programs(samples), cell) == Owed(Program(Flatten(samples)), cell)
    decreases |samples|
  {
    if samples == [] {
    } else {
      OwedFlatten(samples[1..], cell);
      assert Programs(samples)[1..] == Programs(samples[1..]);
      ProgramAppend(samples[0], Flatten(samples[1..]));
      OwedAppend(Program(samples[0]), Program(Flatten(samples[1..])), cell);
    }
  }

  lemma {:induction false} ProgramAppend(xs: seq<Sample>, ys: seq<Sample>)
    ensures Program(xs + ys) == Program(xs) + Program(ys)
    decreases |xs|
  {
    if xs == [] {
      assert xs + ys == ys;
    } else {
      ProgramAppend(xs[1..], ys);
      assert (xs + ys)[1..] == xs[1..] + ys;
      assert Adds(xs[0]) + (Program(xs[1..]) + Program(ys)) == (Adds(xs[0]) + Program(xs[1..])) + Program(ys);
    }
  }

  lemma {:induction false} SequentialOwed(u: Usage, xs: seq<Sample>, cell: Cell)
    requires Get(u, cell) == Wrap64(Get(u, cell))
    ensures Get(MeterAll(u, xs), cell) == Wrap64(Get(u, cell) + Owed(Program(xs), cell))
    decreases |xs|
  {
    if xs == [] {
    } else {
      var u1 := Metered(u, xs[0].bytes, xs[0].uplink);
      var d := Owed(Adds(xs[0]), cell);
      OneSample(u, xs[0], cell);
      OwedAppend(Adds(xs[0]), Program(xs[1..]), cell);
      Wrap64Add(Get(u, cell) + d, 0);
      SequentialOwed(u1, xs[1..], cell);
      Wrap64Add(Get(u, cell) + d, Owed(Program(xs[1..]), cell));
    }
  }

  lemma OneSample(u: Usage, x: Sample, cell: Cell)
    requires Get(u, cell) == Wrap64(Get(u, cell))
    ensures Get(Metered(u, x.bytes, x.uplink), cell) == Wrap64(Get(u, cell) + Owed(Adds(x), cell))
  {
    var adds := Adds(x);
    assert adds[1..] == [adds[1]] && [adds[1]][1..] == [];
    assert Owed([adds[1]], cell) == if adds[1].cell == cell then adds[1].amount else 0;
    assert Owed(adds, cell) == (if adds[0].cell == cell then adds[0].amount else 0) + Owed([adds[1]], cell);
    match cell
    case UplinkBytes =>
    case DownlinkBytes =>
    case UplinkPackets =>
    case DownlinkPackets =>
  }

  /** Any number of threads metering an existing counter, in any interleaving of their byte and
      packet adds, leave it as one thread metering all their samples would. */
  lemma InterleavingIsSequential(u: Usage, samples: seq<seq<Sample>>, schedule: seq<nat>)
    requires forall cell: Cell :: Get(u, cell) == Wrap64(Get(u, cell))
    requires Schedulable(Programs(samples), schedule)
    ensures Outcome(u, Programs(samples), schedule) == MeterAll(u, Flatten(samples))
  {
    var a, b := Outcome(u, Programs(samples), schedule), MeterAll(u, Flatten(samples));
    forall cell: Cell
      ensures Get(a, cell) == Get(b, cell)
    {
      InterleavingConserves(u, Programs(samples), schedule, cell);
      OwedFlatten(samples, cell);
      SequentialOwed(u, Flatten(samples), cell);
    }
    assert Get(a, UplinkBytes) == Get(b, UplinkBytes) && Get(a, DownlinkBytes) == Get(b, DownlinkBytes);
    assert Get(a, UplinkPackets) == Get(b, UplinkPackets) && Get(a, DownlinkPackets) == Get(b, DownlinkPackets);
  }
}
