// Stride sampling of the flow table: what the picks are, and what the loop with its 32-bit index
// really does.

module QoeSampling {
  import opened Modular
  import opened QoeFlows
  import opened Strides

  // ---------------------------------------------------------------- the picks

  function Interval(n: nat, maxSamples: nat): (iv: nat)
    requires maxSamples > 0
    ensures iv >= 1
  {
    if n / maxSamples >= 1 then n / maxSamples else 1
  }

  /** The interval is the largest that lets the quota fit the table, and 1 when there is none. */
  lemma IntervalIs(n: nat, maxSamples: nat)
    requires maxSamples > 0
    ensures maxSamples <= n ==>
              Interval(n, maxSamples) * maxSamples <= n < (Interval(n, maxSamples) + 1) * maxSamples
    ensures n < maxSamples ==> Interval(n, maxSamples) == 1
  {
    var q := n / maxSamples;
    assert n == q * maxSamples + n % maxSamples;
    assert (q + 1) * maxSamples == q * maxSamples + maxSamples;
    MultipleBounds(q, maxSamples);
  }

  /** The active flows at multiples of the interval, from index i on. */
  function Picked(fs: seq<FlowMetrics>, iv: nat, i: nat): seq<nat>
    requires iv > 0
    decreases |fs| - i
  {
    if i >= |fs| then [] else (if fs[i].active then [i] else []) + Picked(fs, iv, i + iv)
  }

  /** Picked is strictly increasing and contains exactly the active flows at multiples. */
  lemma {:induction false} PickedMeaning(fs: seq<FlowMetrics>, iv: nat, i: nat)
    requires iv > 0 && i % iv == 0
    ensures forall a, b | 0 <= a < b < |Picked(fs, iv, i)| :: Picked(fs, iv, i)[a] < Picked(fs, iv, i)[b]
    ensures forall k: nat :: k in Picked(fs, iv, i) <==> i <= k < |fs| && k % iv == 0 && fs[k].active
    decreases |fs| - i
  {
    if i < |fs| {
      NextMultiple(i, iv);
      PickedMeaning(fs, iv, i + iv);
      var rest := Picked(fs, iv, i + iv);
      forall k: nat
        ensures k in Picked(fs, iv, i) <==> i <= k < |fs| && k % iv == 0 && fs[k].active
      {
        if i < k < i + iv {
          NoMultipleBetween(i, k, iv);
        }
      }
      assert forall b | 0 <= b < |rest| :: rest[b] in rest;
    }
  }

  lemma NextMultiple(i: nat, iv: nat)
    requires iv > 0 && i % iv == 0
    ensures (i + iv) % iv == 0
  {
    DivUnique(i + iv, iv, i / iv + 1, 0);
  }

  lemma NoMultipleBetween(i: nat, k: nat, iv: nat)
    requires iv > 0 && i % iv == 0 && i < k < i + iv
    ensures k % iv != 0
  {
    ModDistinct(i, k, iv);
  }

  /** With every flow active the multiples reach the end of the table. */
  lemma {:induction false} PickedReaches(fs: seq<FlowMetrics>, iv: nat, i: nat)
    requires iv > 0 && forall m <- fs :: m.active
    ensures |Picked(fs, iv, i)| * iv >= |fs| - i
    decreases |fs| - i
  {
    if i < |fs| {
      PickedReaches(fs, iv, i + iv);
      assert fs[i] in fs;
      var rest := Picked(fs, iv, i + iv);
      assert |Picked(fs, iv, i)| == 1 + |rest|;
      assert (1 + |rest|) * iv == iv + |rest| * iv;
    }
  }

  lemma AllActiveFillsTheQuota(fs: seq<FlowMetrics>, maxSamples: nat)
    requires 0 < maxSamples <= |fs| && forall m <- fs :: m.active
    ensures |Picked(fs, Interval(|fs|, maxSamples), 0)| >= maxSamples
  {
    var n, iv := |fs|, Interval(|fs|, maxSamples);
    PickedReaches(fs, iv, 0);
    var c := |Picked(fs, iv, 0)|;
    IntervalFits(n, maxSamples);
    QuotaReached(c, iv, maxSamples, n);
  }

  lemma IntervalFits(n: nat, maxSamples: nat)
    requires 0 < maxSamples <= n
    ensures Interval(n, maxSamples) * maxSamples <= n
  {
    var q := n / maxSamples;
    assert n == q * maxSamples + n % maxSamples;
    MultipleBounds(q, maxSamples);
  }

  lemma QuotaReached(c: nat, iv: nat, quota: nat, n: nat)
    requires iv > 0 && iv * quota <= n <= c * iv
    ensures c >= quota
  {
    MultipleBounds(quota - c, iv);
    assert (quota - c) * iv == quota * iv - c * iv;
  }

  /** The first multiple of the interval at or after n: where the 32-bit loop index ends up. */
  function RoundUp(n: nat, iv: nat): nat
    requires iv > 0
  {
    (n + iv - 1) / iv * iv
  }

  /** The loop index never wraps if and only if that multiple fits 32 bits. */
  lemma IndexNeverWrapsIff(n: nat, iv: nat)
    requires iv > 0
    ensures (forall i: nat | i < n && i % iv == 0 :: Wrap32(i + iv) == i + iv) <==> n == 0 || RoundUp(n, iv) < WORD
  {
    if n > 0 {
      var last := RoundUp(n, iv) - iv;
      LastMultiple(n, iv);
      assert last + iv == RoundUp(n, iv);
      if RoundUp(n, iv) < WORD {
        forall i: nat | i < n && i % iv == 0
          ensures Wrap32(i + iv) == i + iv
        {
          if last < i {
            NoMultipleBetween(last, i, iv);
          }
        }
      }
    }
  }

  lemma LastMultiple(n: nat, iv: nat)
    requires iv > 0 && n > 0
    ensures var last := RoundUp(n, iv) - iv; 0 <= last < n <= last + iv && last % iv == 0
  {
    var q := (n + iv - 1) / iv;
    assert n + iv - 1 == q * iv + (n + iv - 1) % iv;
    MultipleBounds(q, iv);
    assert RoundUp(n, iv) - iv == (q - 1) * iv;
    MulDiv(q - 1, iv);
  }

  /** A caller's sufficient condition. */
  lemma SmallTableNeverWraps(n: nat, iv: nat)
    requires iv > 0 && n + iv < WORD
    ensures RoundUp(n, iv) < WORD
  {
    if n > 0 {
      LastMultiple(n, iv);
    }
  }

  /** What the sampling returns: the first picks, up to the quota. */
  function Sampled(fs: seq<FlowMetrics>, maxSamples: nat): seq<nat>
    requires maxSamples > 0
  {
    var picks := Picked(fs, Interval(|fs|, maxSamples), 0);
    picks[..Min(|picks|, maxSamples)]
  }

  /** Exactly as many samples as there are active flows at multiples, up to the quota; strictly
      increasing ids, each of an active flow at a multiple; with all flows active and a table at
      least as large as the quota, the quota exactly. */
  lemma SampledMeaning(fs: seq<FlowMetrics>, maxSamples: nat)
    requires maxSamples > 0
    ensures var ids, iv := Sampled(fs, maxSamples), Interval(|fs|, maxSamples);
            && |ids| == Min(|Picked(fs, iv, 0)|, maxSamples)
            && (forall a, b | 0 <= a < b < |ids| :: ids[a] < ids[b])
            && (forall id <- ids :: id < |fs| && id % iv == 0 && fs[id].active)
            && ((forall m <- fs :: m.active) && maxSamples <= |fs| ==> |ids| == maxSamples)
  {
    var iv := Interval(|fs|, maxSamples);
    PickedMeaning(fs, iv, 0);
    forall id <- Sampled(fs, maxSamples)
      ensures id in Picked(fs, iv, 0)
    {
    }
    if (forall m <- fs :: m.active) && maxSamples <= |fs| {
      AllActiveFillsTheQuota(fs, maxSamples);
    }
  }

  lemma {:induction false} EvenPicks(fs: seq<FlowMetrics>, iv: nat, i: nat, j: nat)
    requires iv > 0 && (forall m <- fs :: m.active) && i + j * iv < |fs|
    ensures j < |Picked(fs, iv, i)| && Picked(fs, iv, i)[j] == i + j * iv
    decreases j
  {
    assert fs[i] in fs by {
      assert j * iv >= 0;
    }
    if j == 0 {
    } else {
      assert j * iv == (j - 1) * iv + iv;
      EvenPicks(fs, iv, i + iv, j - 1);
    }
  }

  /** With every flow active and a quota that divides the table, the sample is spread evenly over the
      whole table: exactly the ids 0, q, 2q and so on. */
  lemma EvenSample(fs: seq<FlowMetrics>, quota: nat, q: nat)
    requires quota > 0 && q > 0 && |fs| == q * quota && forall m <- fs :: m.active
    ensures |Sampled(fs, quota)| == quota
    ensures forall j | 0 <= j < quota :: Sampled(fs, quota)[j] == j * q
  {
    DivUnique(|fs|, quota, q, 0);
    MultipleBounds(q, quota);
    AllActiveFillsTheQuota(fs, quota);
    forall j | 0 <= j < quota
      ensures Sampled(fs, quota)[j] == j * q
    {
      StrideFits(j, q, quota);
      EvenPicks(fs, q, 0, j);
    }
  }

  lemma StrideFits(j: nat, q: nat, quota: nat)
    requires j < quota && q > 0
    ensures j * q < q * quota
  {
    assert q * quota - j * q == (quota - j) * q;
    MultipleBounds(quota - j, q);
  }

  lemma PickStep(fs: seq<FlowMetrics>, iv: nat, v: nat, ids: seq<nat>)
    requires iv > 0 && v < |fs|
    ensures (if fs[v].active then ids + [v] else ids) + Picked(fs, iv, v + iv) == ids + Picked(fs, iv, v)
  {
  }

  // ---------------------------------------------------------------- the loop, with its 32-bit index

  predicate ActiveAt(fs: seq<FlowMetrics>, iv: nat, k: nat) {
    Index(iv, k) < |fs| && fs[Index(iv, k)].active
  }

  /** The ids collected in the first k turns, had the loop not stopped before. */
  function Taken(fs: seq<FlowMetrics>, iv: nat, k: nat): seq<nat> {
    if k == 0 then []
    else Taken(fs, iv, k - 1) + (if ActiveAt(fs, iv, k - 1) then [Index(iv, k - 1)] else [])
  }

  /** After k turns the loop stops: the index has left the table, or the quota is reached. */
  predicate Stops(fs: seq<FlowMetrics>, iv: nat, quota: nat, k: nat) {
    Index(iv, k) >= |fs| || |Taken(fs, iv, k)| >= quota
  }

  ghost predicate Ends(fs: seq<FlowMetrics>, iv: nat, quota: nat) {
    exists k: nat :: Stops(fs, iv, quota, k)
  }

  lemma {:induction false} TakenGrows(fs: seq<FlowMetrics>, iv: nat, j: nat, k: nat)
    requires j <= k
    ensures Taken(fs, iv, j) <= Taken(fs, iv, k)
    decreases k
  {
    if j < k {
      TakenGrows(fs, iv, j, k - 1);
    }
  }

  /** An active flow once visited is collected again in every lap of 2^32 turns. */
  lemma {:induction false} LapsCollect(fs: seq<FlowMetrics>, iv: nat, k: nat, laps: nat)
    requires ActiveAt(fs, iv, k)
    ensures |Taken(fs, iv, k + 1 + laps * WORD)| > laps
    decreases laps
  {
    IndexPeriod(iv, k, laps);
    if laps == 0 {
    } else {
      LapsCollect(fs, iv, k, laps - 1);
      TakenGrows(fs, iv, k + 1 + (laps - 1) * WORD, k + laps * WORD);
    }
  }

  lemma {:induction false} TakenFromActive(fs: seq<FlowMetrics>, iv: nat, k: nat) returns (j: nat)
    requires Taken(fs, iv, k) != []
    ensures ActiveAt(fs, iv, j)
  {
    if ActiveAt(fs, iv, k - 1) {
      j := k - 1;
    } else {
      j := TakenFromActive(fs, iv, k - 1);
    }
  }

  /** The loop ends if and only if its index ever leaves the table or meets an active flow. */
  lemma EndsIffVisits(fs: seq<FlowMetrics>, iv: nat, quota: nat)
    requires quota > 0
    ensures Ends(fs, iv, quota) <==> exists k: nat :: Index(iv, k) >= |fs| || ActiveAt(fs, iv, k)
  {
    if Ends(fs, iv, quota) {
      var k: nat :| Stops(fs, iv, quota, k);
      if Index(iv, k) < |fs| {
        var j := TakenFromActive(fs, iv, k);
      }
    }
    if k: nat :| Index(iv, k) >= |fs| || ActiveAt(fs, iv, k) {
      if Index(iv, k) >= |fs| {
        assert Stops(fs, iv, quota, k);
      } else {
        LapsCollect(fs, iv, k, quota);
        assert Stops(fs, iv, quota, k + 1 + quota * WORD);
      }
    }
  }

  /** What a caller can check: the table ends at or before the last multiple of the stride's
      two-part below 2^32, or some flow at such a multiple is active. */
  ghost predicate CanEnd(fs: seq<FlowMetrics>, iv: nat)
    requires iv > 0
  {
    |fs| <= WORD - TwoPart(iv) || exists i :: 0 <= i < |fs| && i % TwoPart(iv) == 0 && fs[i].active
  }

  lemma LastVisited(iv: nat, i: nat)
    requires 0 < iv < WORD
    ensures 0 <= WORD - TwoPart(iv) < WORD && (WORD - TwoPart(iv)) % TwoPart(iv) == 0
    ensures i < WORD && i % TwoPart(iv) == 0 ==> i <= WORD - TwoPart(iv)
  {
    TwosBelowWord(iv);
    LastMultipleBelow(Pow2(32 - Twos(iv)), TwoPart(iv), i);
  }

  lemma LastMultipleBelow(rest: nat, g: nat, i: nat)
    requires g > 0 && rest > 0 && rest * g == WORD
    ensures 0 <= WORD - g < WORD && (WORD - g) % g == 0
    ensures i < WORD && i % g == 0 ==> i <= WORD - g
  {
    MultipleBounds(rest, g);
    assert WORD - g == (rest - 1) * g;
    MulDiv(rest - 1, g);
    if WORD - g < i < WORD {
      ModDistinct(WORD - g, i, g);
    }
  }

  /** The loop ends if and only if the caller's condition holds, whatever the quota. */
  lemma EndsIff(fs: seq<FlowMetrics>, iv: nat, quota: nat)
    requires 0 < iv < WORD && quota > 0 && |fs| < WORD
    ensures Ends(fs, iv, quota) <==> CanEnd(fs, iv)
  {
    EndsIffVisits(fs, iv, quota);
    var g := TwoPart(iv);
    LastVisited(iv, 0);
    if Ends(fs, iv, quota) {
      var k: nat :| Index(iv, k) >= |fs| || ActiveAt(fs, iv, k);
      VisitedIsMultiple(iv, k);
      LastVisited(iv, Index(iv, k));
    }
    if |fs| <= WORD - g {
      VisitedIff(iv, WORD - g);
      var k: nat :| Index(iv, k) == WORD - g;
    } else if i :| 0 <= i < |fs| && i % g == 0 && fs[i].active {
      VisitedIff(iv, i);
      var k: nat :| Index(iv, k) == i;
      assert ActiveAt(fs, iv, k);
    }
  }

  /** A collector of 2^32 - 1 flows, all expired, asked for 2^31 - 1 samples never answers. */
  lemma ExpiredTableNeverEnds(maxIdleNs: nat, now: nat)
    requires maxIdleNs < now < QWORD
    ensures var fs := FlushedAll(seq(WORD - 1, i => FRESH), maxIdleNs, now);
            |fs| == WORD - 1 && !Ends(fs, Interval(|fs|, 0x7FFF_FFFF), 0x7FFF_FFFF)
  {
    var fs := FlushedAll(seq(WORD - 1, i => FRESH), maxIdleNs, now);
    assert Interval(|fs|, 0x7FFF_FFFF) == 2;
    assert Twos(2) == 1 by {
      assert Twos(1) == 0;
    }
    assert TwoPart(2) == 2 by {
      assert Pow2(1) == 2 * Pow2(0);
    }
    Wrap64Fits(now);
    assert forall i | 0 <= i < |fs| :: !fs[i].active;
    EndsIff(fs, 2, 0x7FFF_FFFF);
  }

  // ---------------------------------------------------------------- what the loop returns

  ghost function FirstStop(fs: seq<FlowMetrics>, iv: nat, quota: nat, k: nat, end: nat): (r: nat)
    requires k <= end && Stops(fs, iv, quota, end)
    ensures k <= r <= end && Stops(fs, iv, quota, r)
    ensures forall j | k <= j < r :: !Stops(fs, iv, quota, j)
    decreases end - k
  {
    if Stops(fs, iv, quota, k) then k else FirstStop(fs, iv, quota, k + 1, end)
  }

  /** How many turns the loop makes. */
  ghost function Turns(fs: seq<FlowMetrics>, iv: nat, quota: nat): (k: nat)
    requires Ends(fs, iv, quota)
    ensures Stops(fs, iv, quota, k)
    ensures forall j: nat | j < k :: !Stops(fs, iv, quota, j)
  {
    var end: nat :| Stops(fs, iv, quota, end);
    FirstStop(fs, iv, quota, 0, end)
  }

  ghost function Collected(fs: seq<FlowMetrics>, quota: nat): seq<nat>
    requires quota > 0 && Ends(fs, Interval(|fs|, quota), quota)
  {
    Taken(fs, Interval(|fs|, quota), Turns(fs, Interval(|fs|, quota), quota))
  }

  /** Turns in which the index runs through the table for the first time. */
  function FirstLap(n: nat, iv: nat): nat
    requires iv > 0
  {
    (n + iv - 1) / iv
  }

  lemma FirstLapBounds(n: nat, iv: nat, j: nat)
    requires iv > 0
    ensures FirstLap(n, iv) * iv == RoundUp(n, iv) && n <= RoundUp(n, iv) < n + iv
    ensures j * iv < n <==> j < FirstLap(n, iv)
  {
    var lap := FirstLap(n, iv);
    assert n + iv - 1 == lap * iv + (n + iv - 1) % iv;
    assert (lap - j) * iv == lap * iv - j * iv;
    MultipleBounds(lap - j, iv);
  }

  /** During the first lap the loop collects the picks. */
  lemma {:induction false} FirstLapPicks(fs: seq<FlowMetrics>, iv: nat, k: nat)
    requires iv > 0 && |fs| < WORD && k <= FirstLap(|fs|, iv)
    ensures Taken(fs, iv, k) + Picked(fs, iv, k * iv) == Picked(fs, iv, 0)
    decreases k
  {
    if k == 0 {
      assert 0 * iv == 0;
    } else {
      FirstLapPicks(fs, iv, k - 1);
      FirstLapBounds(|fs|, iv, k - 1);
      Wrap32Fits((k - 1) * iv);
      assert k * iv == (k - 1) * iv + iv;
      PickStep(fs, iv, (k - 1) * iv, Taken(fs, iv, k - 1));
    }
  }

  lemma LapTaken(fs: seq<FlowMetrics>, iv: nat)
    requires iv > 0 && |fs| < WORD
    ensures Taken(fs, iv, FirstLap(|fs|, iv)) == Picked(fs, iv, 0)
  {
    FirstLapBounds(|fs|, iv, 0);
    FirstLapPicks(fs, iv, FirstLap(|fs|, iv));
  }

  /** After the first lap the index is outside the table if and only if it did not wrap. */
  lemma LapLeavesIff(fs: seq<FlowMetrics>, iv: nat)
    requires 0 < iv < WORD && |fs| < WORD
    ensures Index(iv, FirstLap(|fs|, iv)) >= |fs| <==> RoundUp(|fs|, iv) < WORD
    ensures forall j: nat | j < FirstLap(|fs|, iv) :: Index(iv, j) < |fs|
  {
    FirstLapBounds(|fs|, iv, 0);
    if RoundUp(|fs|, iv) >= WORD {
      Wrap32Fits(RoundUp(|fs|, iv) - WORD);
      WrapPlusLaps(RoundUp(|fs|, iv) - WORD, 1);
    } else {
      Wrap32Fits(RoundUp(|fs|, iv));
    }
    forall j: nat | j < FirstLap(|fs|, iv)
      ensures Index(iv, j) < |fs|
    {
      FirstLapBounds(|fs|, iv, j);
      Wrap32Fits(j * iv);
    }
  }

  /** The loop never collects more than the quota. */
  lemma QuotaKept(fs: seq<FlowMetrics>, iv: nat, quota: nat)
    requires quota > 0 && Ends(fs, iv, quota)
    ensures |Taken(fs, iv, Turns(fs, iv, quota))| <= quota
  {
    var k := Turns(fs, iv, quota);
    if k > 0 {
      assert !Stops(fs, iv, quota, k - 1);
    }
  }

  /** The loop stops within its first lap if and only if the index does not wrap or the quota is
      reached before it does. */
  lemma StopsInFirstLapIff(fs: seq<FlowMetrics>, iv: nat, quota: nat)
    requires 0 < iv < WORD && |fs| < WORD && quota > 0 && Ends(fs, iv, quota)
    ensures Turns(fs, iv, quota) <= FirstLap(|fs|, iv) <==>
            RoundUp(|fs|, iv) < WORD || |Picked(fs, iv, 0)| >= quota
  {
    var k, lap := Turns(fs, iv, quota), FirstLap(|fs|, iv);
    LapTaken(fs, iv);
    LapLeavesIff(fs, iv);
    if k <= lap {
      TakenGrows(fs, iv, k, lap);
    } else {
      assert !Stops(fs, iv, quota, lap);
    }
  }

  /** The result is the sample if and only if no active flow is met after the first lap. */
  lemma CollectedIsSampledIff(fs: seq<FlowMetrics>, quota: nat)
    requires |fs| < WORD && 0 < quota < WORD && Ends(fs, Interval(|fs|, quota), quota)
    ensures var iv := Interval(|fs|, quota);
            Collected(fs, quota) == Sampled(fs, quota) <==>
              forall j: nat | FirstLap(|fs|, iv) <= j < Turns(fs, iv, quota) :: !ActiveAt(fs, iv, j)
  {
    var iv := Interval(|fs|, quota);
    var k, lap := Turns(fs, iv, quota), FirstLap(|fs|, iv);
    IntervalBelowWord(|fs|, quota);
    LapTaken(fs, iv);
    QuotaKept(fs, iv, quota);
    if k <= lap {
      TakenGrows(fs, iv, k, lap);
      StopsInPicks(fs, iv, quota);
    } else {
      assert !Stops(fs, iv, quota, lap);
      QuietIff(fs, iv, lap, k);
    }
  }

  lemma IntervalBelowWord(n: nat, quota: nat)
    requires n < WORD && quota > 0
    ensures 0 < Interval(n, quota) < WORD
  {
    assert n == n / quota * quota + n % quota;
    MultipleBounds(quota - 1, n / quota + 1);
    assert n / quota * quota == n / quota * (quota - 1) + n / quota;
  }

  /** Stopping in the first lap, the loop has collected the quota or all the picks. */
  lemma StopsInPicks(fs: seq<FlowMetrics>, iv: nat, quota: nat)
    requires 0 < iv < WORD && |fs| < WORD && quota > 0 && Ends(fs, iv, quota)
    requires Turns(fs, iv, quota) <= FirstLap(|fs|, iv)
    ensures var picks := Picked(fs, iv, 0);
            Taken(fs, iv, Turns(fs, iv, quota)) == picks[..Min(|picks|, quota)]
  {
    var k, lap := Turns(fs, iv, quota), FirstLap(|fs|, iv);
    LapTaken(fs, iv);
    LapLeavesIff(fs, iv);
    QuotaKept(fs, iv, quota);
    TakenGrows(fs, iv, k, lap);
    if |Taken(fs, iv, k)| < quota {
      assert k == lap;
    }
  }

  lemma {:induction false} QuietIff(fs: seq<FlowMetrics>, iv: nat, lap: nat, k: nat)
    requires lap <= k
    ensures Taken(fs, iv, k) == Taken(fs, iv, lap) <==> forall j | lap <= j < k :: !ActiveAt(fs, iv, j)
    decreases k
  {
    if lap < k {
      QuietIff(fs, iv, lap, k - 1);
      TakenGrows(fs, iv, lap, k - 1);
    }
  }

  /** What the caller gets for one id: the flow and the time of its last update. */
  datatype TelemetryEntry = TelemetryEntry(flowId: nat, timestampNs: int)

  ghost predicate Stamped(entries: seq<TelemetryEntry>, ids: seq<nat>, fs: seq<FlowMetrics>) {
    && |entries| == |ids|
    && forall j | 0 <= j < |ids| :: ids[j] < |fs| && entries[j] == TelemetryEntry(ids[j], fs[ids[j]].lastUpdateNs)
  }

  /** The same condition on the table alone: no wrap, or the quota reached before it, or after the
      first lap the index leaves the table without meeting an active flow. */
  lemma CollectedIsSampledWhen(fs: seq<FlowMetrics>, quota: nat)
    requires |fs| < WORD && 0 < quota < WORD && Ends(fs, Interval(|fs|, quota), quota)
    ensures var iv := Interval(|fs|, quota);
            Collected(fs, quota) == Sampled(fs, quota) <==>
              || RoundUp(|fs|, iv) < WORD || |Picked(fs, iv, 0)| >= quota
              || exists k: nat :: LeavesQuietly(fs, iv, FirstLap(|fs|, iv), k)
  {
    var iv := Interval(|fs|, quota);
    var turns, lap := Turns(fs, iv, quota), FirstLap(|fs|, iv);
    IntervalBelowWord(|fs|, quota);
    CollectedIsSampledIff(fs, quota);
    StopsInFirstLapIff(fs, iv, quota);
    if turns > lap {
      LapTaken(fs, iv);
      LapLeavesIff(fs, iv);
      QuietExitIff(fs, iv, quota);
    }
  }

  /** From turn lap to turn k the index stays in the table and meets no active flow, then leaves. */
  predicate LeavesQuietly(fs: seq<FlowMetrics>, iv: nat, lap: nat, k: nat) {
    lap <= k && Index(iv, k) >= |fs| && forall j | lap <= j < k :: Index(iv, j) < |fs| && !ActiveAt(fs, iv, j)
  }

  lemma QuietExitIff(fs: seq<FlowMetrics>, iv: nat, quota: nat)
    requires Ends(fs, iv, quota) && iv > 0 && Turns(fs, iv, quota) > FirstLap(|fs|, iv)
    requires |Taken(fs, iv, FirstLap(|fs|, iv))| < quota
    ensures (forall j: nat | FirstLap(|fs|, iv) <= j < Turns(fs, iv, quota) :: !ActiveAt(fs, iv, j)) <==>
            exists k: nat :: LeavesQuietly(fs, iv, FirstLap(|fs|, iv), k)
  {
    var turns, lap := Turns(fs, iv, quota), FirstLap(|fs|, iv);
    if forall j: nat | lap <= j < turns :: !ActiveAt(fs, iv, j) {
      QuietIff(fs, iv, lap, turns);
      forall j | lap <= j < turns
        ensures Index(iv, j) < |fs|
      {
        assert !Stops(fs, iv, quota, j);
      }
      assert LeavesQuietly(fs, iv, lap, turns);
    }
    if k: nat :| LeavesQuietly(fs, iv, lap, k) {
      assert Stops(fs, iv, quota, k);
      assert turns <= k;
    }
  }

  /** An index that wraps below the quota can still give the sample: with 2^32 - 1 inactive flows
      and a stride of seven the second lap ends exactly at the end of the table. */
  lemma WrappedYetSampled(fs: seq<FlowMetrics>)
    requires |fs| == WORD - 1 && forall m <- fs :: !m.active
    ensures var quota, iv := 570_000_000, Interval(WORD - 1, 570_000_000);
            && RoundUp(|fs|, iv) >= WORD && |Picked(fs, iv, 0)| < quota
            && Ends(fs, iv, quota) && Collected(fs, quota) == Sampled(fs, quota)
  {
    var quota, lap, end: nat := 570_000_000, 613_566_757, 1_227_133_513;
    assert Interval(|fs|, quota) == 7 && FirstLap(|fs|, 7) == lap;
    forall j | lap <= j < end
      ensures Index(7, j) < |fs|
    {
      Wrap32Fits(j * 7 - WORD);
      WrapPlusLaps(j * 7 - WORD, 1);
    }
    WrapPlusLaps(WORD - 1, 1);
    Wrap32Fits(WORD - 1);
    assert LeavesQuietly(fs, 7, lap, end);
    assert Stops(fs, 7, quota, end);
    NoActiveNoPicks(fs, 7, 0);
    CollectedIsSampledWhen(fs, quota);
  }

  lemma {:induction false} NoActiveNoPicks(fs: seq<FlowMetrics>, iv: nat, i: nat)
    requires iv > 0 && forall m <- fs :: !m.active
    ensures Picked(fs, iv, i) == []
    decreases |fs| - i
  {
    if i < |fs| {
      assert fs[i] in fs;
      NoActiveNoPicks(fs, iv, i + iv);
    }
  }
}
