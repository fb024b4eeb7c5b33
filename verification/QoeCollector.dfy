// The QoE collector class: a table of flows, updated in place, and the reports over it.

module QoeCollector {
  import opened Basics
  import opened Modular
  import opened QoeFlows
  import opened QoeSampling
  import opened Strides

  class QoeCollector {
    const flows: array<FlowMetrics>

    ghost predicate Valid()
      reads this, flows
    {
      && flows.Length < WORD
      && forall i | 0 <= i < flows.Length :: |flows[i].buckets| == BUCKETS
    }

    constructor (maxFlows: nat)
      requires maxFlows < WORD
      ensures Valid() && fresh(flows) && flows.Length == maxFlows
      ensures forall i | 0 <= i < maxFlows :: flows[i] == FRESH
    {
      flows := new FlowMetrics[maxFlows](i => FRESH);
    }

    method RecordSample(flowId: nat, x: Sample)
      requires Valid()
      modifies flows
      ensures Valid()
      ensures flows[..] == RecordedAt(old(flows[..]), Tagged(flowId, x))
    {
      if flowId >= flows.Length {
        return;
      }
      var m := flows[flowId];
      var lossCount := if x.lost then Wrap32(m.lossCount + 1) else m.lossCount;
      var bucket := Min(9, x.latencyUs / 10);
      var buckets := m.buckets;
      if bucket < |buckets| {
        buckets := buckets[bucket := Wrap32(buckets[bucket] + 1)];
      }
      flows[flowId] := FlowMetrics(Wrap64(m.packetCount + 1), Wrap64(m.byteCount + x.packetSize), lossCount, buckets, x.nowNs, m.active);
    }

    method GetFlowKpi(flowId: nat) returns (kpi: FlowKpi)
      requires Valid()
      requires flowId < flows.Length ==> DivisionDefined(flows[flowId])
      ensures kpi == if flowId < flows.Length then KpiOf(flowId, flows[flowId]) else FlowKpi(flowId, None, None, None)
    {
      if flowId >= flows.Length {
        return FlowKpi(flowId, None, None, None);
      }
      var m := flows[flowId];
      var total := 0;
      var b := 0;
      while b < |m.buckets|
        invariant 0 <= b <= |m.buckets|
        invariant total == Sum(m.buckets[..b])
      {
        assert m.buckets[..b + 1][..b] == m.buckets[..b];
        total := total + m.buckets[b];
        b := b + 1;
      }
      assert m.buckets[..b] == m.buckets;
      kpi := FlowKpi(flowId, Some(m.packetCount), Some(m.byteCount),
                     if total > 0 then Some(Wrap32(m.lossCount * 100) / m.packetCount) else None);
    }

    /** The KPIs of the active flows, in table order. */
    method GetAllFlowKpis() returns (kpis: seq<FlowKpi>)
      requires Valid()
      requires forall i | 0 <= i < flows.Length :: DivisionDefined(flows[i])
      ensures |kpis| == |Picked(flows[..], 1, 0)|
      ensures forall j | 0 <= j < |kpis| ::
                var id := Picked(flows[..], 1, 0)[j]; id < flows.Length && kpis[j] == KpiOf(id, flows[id])
    {
      kpis := [];
      ghost var fs, all := flows[..], Picked(flows[..], 1, 0);
      ghost var ids: seq<nat> := [];
      var i := 0;
      while i < flows.Length
        invariant 0 <= i <= flows.Length && |kpis| == |ids|
        invariant ids + Picked(fs, 1, i) == all
        invariant forall j | 0 <= j < |ids| :: ids[j] < flows.Length && kpis[j] == KpiOf(ids[j], flows[ids[j]])
      {
        PickStep(fs, 1, i, ids);
        if flows[i].active {
          var kpi := GetFlowKpi(i);
          kpis, ids := kpis + [kpi], ids + [i];
        }
        i := i + 1;
      }
      assert ids == all;
    }

    /** `windowNs` may exceed the clock: the subtraction is unsigned. */
    method GetServiceKpi(serviceId: nat, windowNs: int, now: int) returns (r: ServiceReport)
      requires Valid()
      ensures var start := Wrap64(now - windowNs);
              r == ServiceReport(serviceId, start, now, ServiceKpiOf(flows[..], start))
    {
      var start := Wrap64(now - windowNs);
      var totalFlows, totalBytes, totalLoss, totalPackets := 0, 0, 0, 0;
      var i := 0;
      while i < flows.Length
        invariant 0 <= i <= flows.Length
        invariant totalFlows == Wrap64(FlowsIn(flows[..i], start))
        invariant totalBytes == Wrap64(BytesIn(flows[..i], start))
        invariant totalLoss == Wrap64(Lost(flows[..i], start))
        invariant totalPackets == Wrap64(Packets(flows[..i], start))
      {
        var m := flows[i];
        assert flows[..i + 1][..i] == flows[..i];
        if m.lastUpdateNs >= start {
          Wrap64Add(FlowsIn(flows[..i], start), 1);
          Wrap64Add(BytesIn(flows[..i], start), m.byteCount);
          Wrap64Add(Lost(flows[..i], start), m.lossCount);
          Wrap64Add(Packets(flows[..i], start), m.packetCount);
          totalFlows := Wrap64(totalFlows + 1);
          totalBytes := Wrap64(totalBytes + m.byteCount);
          totalLoss := Wrap64(totalLoss + m.lossCount);
          totalPackets := Wrap64(totalPackets + m.packetCount);
        }
        i := i + 1;
      }
      assert flows[..i] == flows[..];
      Wrap64Times(Lost(flows[..], start), 100);
      var kpi := ServiceKpi(totalFlows, totalPackets, totalBytes,
                        if totalPackets > 0 then Some(Wrap32(Wrap64(totalLoss * 100) / totalPackets)) else None);
      r := ServiceReport(serviceId, start, now, kpi);
    }

    /** The call answers only when its loop ends (see EndsIff for what that takes); the result is
        then what the loop collects, and the sample under the condition of CollectedIsSampledWhen. */
    method GetAggregatedTelemetry(maxSamples: nat) returns (entries: seq<TelemetryEntry>)
      requires Valid() && 0 < maxSamples < WORD
      requires CanEnd(flows[..], Interval(flows.Length, maxSamples))
      ensures Ends(flows[..], Interval(flows.Length, maxSamples), maxSamples)
      ensures Stamped(entries, Collected(flows[..], maxSamples), flows[..])
      ensures forall j | 0 <= j < |entries| ::
                entries[j].flowId < flows.Length && entries[j].timestampNs == flows[entries[j].flowId].lastUpdateNs
      ensures RoundUp(flows.Length, Interval(flows.Length, maxSamples)) < WORD ==>
                Stamped(entries, Sampled(flows[..], maxSamples), flows[..])
    {
      entries := [];
      ghost var ids: seq<nat> := [];
      var interval := Interval(flows.Length, maxSamples);
      ghost var fs := flows[..];
      IntervalBelowWord(|fs|, maxSamples);
      EndsIff(fs, interval, maxSamples);
      ghost var turns := Turns(fs, interval, maxSamples);
      ghost var k: nat := 0;
      var i := 0;
      while i < flows.Length
        invariant k <= turns && i == Index(interval, k) && ids == Taken(fs, interval, k)
        invariant Stamped(entries, ids, fs)
        decreases turns - k
      {
        if |entries| >= maxSamples {
          break;
        }
        assert !Stops(fs, interval, maxSamples, k);
        if flows[i].active {
          entries, ids := entries + [TelemetryEntry(i, flows[i].lastUpdateNs)], ids + [i];
        }
        NextIndex(interval, k);
        i := Wrap32(i + interval);
        k := k + 1;
      }
      assert Stops(fs, interval, maxSamples, k);
      CollectedIsSampledWhen(fs, maxSamples);
    }

    /** Deactivates the flows idle for too long. */
    method FlushExpiredFlows(maxIdleNs: int, now: int) returns (flushed: int)
      requires Valid()
      modifies flows
      ensures Valid()
      ensures flows[..] == FlushedAll(old(flows[..]), maxIdleNs, now)
      ensures flushed == CountExpired(old(flows[..]), maxIdleNs, now)
    {
      flushed := 0;
      ghost var fs := flows[..];
      var i := 0;
      while i < flows.Length
        invariant 0 <= i <= flows.Length && flushed == CountExpired(fs[..i], maxIdleNs, now)
        invariant forall j | 0 <= j < i :: flows[j] == Flushed(fs[j], maxIdleNs, now)
        invariant forall j | i <= j < flows.Length :: flows[j] == fs[j]
      {
        assert fs[..i + 1][..i] == fs[..i];
        if Wrap64(now - flows[i].lastUpdateNs) > maxIdleNs {
          flows[i] := flows[i].(active := false);
          flushed := flushed + 1;
        }
        i := i + 1;
      }
      assert fs[..i] == fs;
    }
  }
}
