/** The poll loop: one tick collects samples, raises the watermarks, folds in two stages and
    writes the maps, meta last. */
module PollerLoop {
  import opened Telemetry
  import opened Aggregation
  import opened Watermarks
  import opened PublishedStore
  import opened Publication
  import opened Sampler
  import opened Delivery
  import MockBackend

  // ---- the builder objects a tick keeps in its maps ----

  class PerDevAgg {
    var ts: U64
    var usedMem: U64
    var smMax: U32
    var memMax: U32
    var encMax: U32
    var decMax: U32
    var migInst: U8

    ghost function View(): DevFold
      reads this
    {
      DevFold(ts, usedMem, smMax, memMax, encMax, decMax, migInst)
    }

    constructor (s: ProcessSample)
      ensures View() == FreshDev(s)
    {
      ts, usedMem, migInst := s.timestampNs, s.usedGpuMemory, s.migInstance;
      smMax, memMax, encMax, decMax := 0, 0, 0, 0;
    }

    method Take(s: ProcessSample)
      modifies this
      ensures View() == Absorb(old(View()), s)
    {
      if s.usedGpuMemory > usedMem {
        usedMem := s.usedGpuMemory;
      }
      if s.smUtil > smMax {
        smMax := s.smUtil;
      }
      if s.memUtil > memMax {
        memMax := s.memUtil;
      }
      if s.encUtil > encMax {
        encMax := s.encUtil;
      }
      if s.decUtil > decMax {
        decMax := s.decUtil;
      }
      if s.timestampNs > ts {
        ts := s.timestampNs;
      }
    }

    method Detail(key: Key) returns (detail: PidMetrics)
      ensures detail == DetailOf(key, View())
    {
      detail := PidMetrics(ts, usedMem, smMax, memMax, encMax, decMax, LowByte(key.dev), migInst);
    }
  }

  class AggBuilder {
    var ts: U64
    var usedTotal: U64
    var smMax: U32
    var memMax: U32
    var firstDev: U8
    var devSet: set<U8>

    ghost function View(): PidFold
      reads this
    {
      PidFold(ts, usedTotal, smMax, memMax, firstDev, devSet)
    }

    constructor (k: Key, ts: U64)
      ensures View() == PidFold(ts, 0, 0, 0, LowByte(k.dev), {})
    {
      this.ts, firstDev, devSet := ts, LowByte(k.dev), {};
      usedTotal, smMax, memMax := 0, 0, 0;
    }

    method Take(k: Key, a: PerDevAgg)
      modifies this
      ensures View() == Join(old(View()), k, a.View())
    {
      usedTotal := (usedTotal + a.usedMem) % TWO_64;
      if a.smMax > smMax {
        smMax := a.smMax;
      }
      if a.memMax > memMax {
        memMax := a.memMax;
      }
      devSet := devSet + {LowByte(k.dev)};
      if a.ts > ts {
        ts := a.ts;
      }
    }

    /** The count is never 0, is exact for 1 to 255 low bytes, and is above 1 exactly when the
        primary device is the "several" sentinel in place of the first one walked. */
    method Record() returns (rec: Aggregate)
      ensures rec == Finish(View())
      ensures rec.deviceCount >= 1 && (0 < |devSet| < 0x100 ==> rec.deviceCount == |devSet|)
      ensures rec.primary == if rec.deviceCount > 1 then 0xFF else firstDev
    {
      var devCount := LowByte(|devSet|);
      if devCount == 0 {
        devCount := 1;
      }
      var primary := firstDev;
      if devCount > 1 {
        primary := DEVICE_PRIMARY_MULTI;
      }
      rec := Aggregate(ts, usedTotal, smMax, memMax, primary, devCount);
    }
  }

  /** The map holds one object per key, no two keys share one, and they show the fold. */
  ghost predicate HoldsFold(perDev: map<Key, PerDevAgg>, folds: map<Key, DevFold>)
    reads perDev.Values
  {
    && perDev.Keys == folds.Keys
    && (forall k :: k in perDev ==> perDev[k].View() == folds[k])
    && (forall j, k :: j in perDev && k in perDev && j != k ==> perDev[j] != perDev[k])
  }

  ghost predicate HoldsGroup(agg: map<U32, AggBuilder>, g: map<U32, PidFold>)
    reads agg.Values
  {
    && agg.Keys == g.Keys
    && (forall p :: p in agg ==> agg[p].View() == g[p])
    && (forall p, q :: p in agg && q in agg && p != q ==> agg[p] != agg[q])
  }

  method FoldWindow(samples: seq<ProcessSample>) returns (perDev: map<Key, PerDevAgg>)
    ensures HoldsFold(perDev, FoldSamples(samples))
    ensures forall k :: k in perDev ==> fresh(perDev[k])
  {
    perDev := map[];
    for i := 0 to |samples|
      invariant HoldsFold(perDev, FoldSamples(samples[..i]))
      invariant forall k :: k in perDev ==> fresh(perDev[k])
    {
      var s := samples[i];
      assert samples[..i + 1][..i] == samples[..i];
      if s.pid == 0 {
        continue;
      }
      var key := KeyOf(s);
      if key !in perDev {
        var created := new PerDevAgg(s);
        perDev := perDev[key := created];
      }
      perDev[key].Take(s);
    }
    assert samples[..|samples|] == samples;
  }

  /** Write each detail record and join it into its pid's builder, in map-walk order. */
  method WriteDetails(bridge: Bridge, perDev: map<Key, PerDevAgg>, ghost folds: map<Key, DevFold>)
    returns (agg: map<U32, AggBuilder>, ghost order: seq<Key>)
    requires bridge.Valid() && HoldsFold(perDev, folds)
    modifies bridge
    ensures bridge.Valid()
    ensures Enumerates(order, folds.Keys)
    ensures HoldsGroup(agg, Group(folds, order)) && forall p :: p in agg ==> fresh(agg[p])
    ensures old(bridge.trace) <= bridge.trace && bridge.served == old(bridge.served) + |order|
    ensures Writes(bridge.trace) == Writes(old(bridge.trace)) + DetailWrites(Details(folds), order)
  {
    agg, order := map[], [];
    var todo := perDev.Keys;
    while todo != {}
      invariant todo <= folds.Keys && Enumerates(order, folds.Keys - todo)
      invariant bridge.Valid() && old(bridge.trace) <= bridge.trace && bridge.served == old(bridge.served) + |order|
      invariant HoldsFold(perDev, folds)
      invariant forall p :: p in agg ==> fresh(agg[p])
      invariant HoldsGroup(agg, Group(folds, order))
      invariant Writes(bridge.trace) == Writes(old(bridge.trace)) + DetailWrites(Details(folds), order)
      decreases todo
    {
      var key :| key in todo;
      WalkStep(order, folds.Keys, todo, key);
      todo := todo - {key};
      agg := WriteDetail(bridge, agg, key, perDev, Writes(old(bridge.trace)), folds, order);
      order := order + [key];
    }
  }

  /** One turn of that loop. */
  method WriteDetail(bridge: Bridge, before: map<U32, AggBuilder>, key: Key, perDev: map<Key, PerDevAgg>,
                     ghost base: seq<Write>, ghost folds: map<Key, DevFold>, ghost order: seq<Key>)
    returns (agg: map<U32, AggBuilder>)
    requires bridge.Valid() && HoldsFold(perDev, folds) && key in perDev && forall k :: k in order ==> k in folds
    requires HoldsGroup(before, Group(folds, order))
    requires Writes(bridge.trace) == base + DetailWrites(Details(folds), order)
    modifies bridge, before.Values
    ensures bridge.Valid() && old(bridge.trace) <= bridge.trace && bridge.served == old(bridge.served) + 1
    ensures HoldsFold(perDev, folds) && HoldsGroup(agg, Group(folds, order + [key]))
    ensures forall p :: p in agg ==> (p in before && agg[p] == before[p]) || fresh(agg[p])
    ensures Writes(bridge.trace) == base + DetailWrites(Details(folds), order + [key])
  {
    var detail := perDev[key].Detail(key);
    DetailStep(bridge, key, detail, base, Details(folds), order);
    assert HoldsFold(perDev, folds) && HoldsGroup(before, Group(folds, order));
    agg := JoinKey(bridge, before, key, perDev, folds, order);
  }

  /** Join one per-device object into its pid's builder, making the builder if need be. */
  method JoinKey(ghost bridge: Bridge, before: map<U32, AggBuilder>, key: Key, perDev: map<Key, PerDevAgg>,
                 ghost folds: map<Key, DevFold>, ghost order: seq<Key>)
    returns (agg: map<U32, AggBuilder>)
    requires HoldsFold(perDev, folds) && key in perDev && forall k :: k in order ==> k in folds
    requires HoldsGroup(before, Group(folds, order))
    modifies before.Values
    ensures unchanged(bridge)
    ensures HoldsFold(perDev, folds) && HoldsGroup(agg, Group(folds, order + [key]))
    ensures forall p :: p in agg ==> (p in before && agg[p] == before[p]) || fresh(agg[p])
  {
    agg := JoinBuilder(before, key, perDev[key], Group(folds, order));
    assert (order + [key])[..|order|] == order;
  }

  method JoinBuilder(before: map<U32, AggBuilder>, key: Key, a: PerDevAgg, ghost g: map<U32, PidFold>)
    returns (agg: map<U32, AggBuilder>)
    requires HoldsGroup(before, g)
    modifies before.Values
    ensures HoldsGroup(agg, GroupOne(g, key, old(a.View())))
    ensures forall p :: p in agg ==> (p in before && agg[p] == before[p]) || fresh(agg[p])
  {
    agg := before;
    if key.pid !in agg {
      var created := new AggBuilder(key, a.ts);
      agg := agg[key.pid := created];
    }
    agg[key.pid].Take(key, a);
  }

  /** One update of the detail map; a failure is logged and the loop goes on. */
  method DetailStep(bridge: Bridge, key: Key, detail: PidMetrics, ghost base: seq<Write>,
                    ghost m: map<Key, PidMetrics>, ghost order: seq<Key>)
    requires bridge.Valid()
    requires key in m && m[key] == detail && forall k :: k in order ==> k in m
    requires Writes(bridge.trace) == base + DetailWrites(m, order)
    modifies bridge
    ensures bridge.Valid() && old(bridge.trace) <= bridge.trace && bridge.served == old(bridge.served) + 1
    ensures Writes(bridge.trace) == base + DetailWrites(m, order + [key])
  {
    ghost var was := bridge.trace;
    var ok; ghost var victims;
    ok, victims := bridge.UpdatePerPidPerDevice(key.pid, key.dev, detail);
    ReplaySnoc(was, Evict({}, victims));
    ReplaySnoc(was + [Evict({}, victims)], Attempt(DetailWrite(key, detail), ok));
    assert DetailWrites(m, order + [key]) == DetailWrites(m, order) + [DetailWrite(key, detail)];
  }

  /** Finish and write one record per builder, in map-walk order. */
  method WriteAggregates(bridge: Bridge, agg: map<U32, AggBuilder>, ghost records: map<U32, Aggregate>)
    returns (ghost pids: seq<U32>)
    requires bridge.Valid()
    requires agg.Keys == records.Keys && forall p :: p in agg ==> Finish(agg[p].View()) == records[p]
    modifies bridge
    ensures bridge.Valid() && old(bridge.trace) <= bridge.trace && bridge.served == old(bridge.served) + |pids|
    ensures Enumerates(pids, records.Keys)
    ensures Writes(bridge.trace) == Writes(old(bridge.trace)) + PidWrites(records, pids)
  {
    pids := [];
    var todo := agg.Keys;
    while todo != {}
      invariant todo <= agg.Keys && Enumerates(pids, agg.Keys - todo)
      invariant bridge.Valid() && old(bridge.trace) <= bridge.trace && bridge.served == old(bridge.served) + |pids|
      invariant forall p :: p in agg ==> Finish(agg[p].View()) == records[p]
      invariant Writes(bridge.trace) == Writes(old(bridge.trace)) + PidWrites(records, pids)
      decreases todo
    {
      var pid :| pid in todo;
      WalkStep(pids, agg.Keys, todo, pid);
      todo := todo - {pid};
      WriteAggregate(bridge, pid, agg[pid], Writes(old(bridge.trace)), records, pids);
      pids := pids + [pid];
    }
  }

  method WriteAggregate(bridge: Bridge, pid: U32, b: AggBuilder, ghost base: seq<Write>,
                        ghost records: map<U32, Aggregate>, ghost pids: seq<U32>)
    requires bridge.Valid()
    requires pid in records && records[pid] == Finish(b.View()) && forall p :: p in pids ==> p in records
    requires Writes(bridge.trace) == base + PidWrites(records, pids)
    modifies bridge
    ensures bridge.Valid() && old(bridge.trace) <= bridge.trace && bridge.served == old(bridge.served) + 1
    ensures Writes(bridge.trace) == base + PidWrites(records, pids + [pid])
  {
    var rec := b.Record();
    PidStep(bridge, pid, rec, base, records, pids);
  }

  method PidStep(bridge: Bridge, pid: U32, rec: Aggregate, ghost base: seq<Write>, ghost m: map<U32, Aggregate>,
                 ghost pids: seq<U32>)
    requires bridge.Valid()
    requires pid in m && m[pid] == rec && forall p :: p in pids ==> p in m
    requires Writes(bridge.trace) == base + PidWrites(m, pids)
    modifies bridge
    ensures bridge.Valid() && old(bridge.trace) <= bridge.trace && bridge.served == old(bridge.served) + 1
    ensures Writes(bridge.trace) == base + PidWrites(m, pids + [pid])
  {
    ghost var was := bridge.trace;
    var ok; ghost var victims;
    ok, victims := bridge.UpdatePerPid(pid, rec);
    ReplaySnoc(was, Evict(victims, {}));
    ReplaySnoc(was + [Evict(victims, {})], Attempt(PidWrite(pid, rec), ok));
    assert PidWrites(m, pids + [pid]) == PidWrites(m, pids) + [PidWrite(pid, rec)];
  }

  method WriteDevices(bridge: Bridge, devs: seq<DeviceSnapshot>)
    requires bridge.Valid()
    modifies bridge
    ensures bridge.Valid() && old(bridge.trace) <= bridge.trace && bridge.served == old(bridge.served) + |devs|
    ensures Writes(bridge.trace) == Writes(old(bridge.trace)) + DeviceWrites(devs)
  {
    for i := 0 to |devs|
      invariant bridge.Valid() && old(bridge.trace) <= bridge.trace && bridge.served == old(bridge.served) + i
      invariant Writes(bridge.trace) == Writes(old(bridge.trace)) + DeviceWrites(devs[..i])
    {
      ghost var was := bridge.trace;
      var ok := bridge.UpdateDevice(devs[i].index, devs[i].metrics);
      ReplaySnoc(was, Attempt(DeviceWrite(devs[i].index, devs[i].metrics), ok));
      assert DeviceWrites(devs[..i + 1]) == DeviceWrites(devs[..i]) + [DeviceWrite(devs[i].index, devs[i].metrics)];
    }
    assert devs[..|devs|] == devs;
  }

  // ---- the poller ----

  datatype Source = FromReal(nvml: Real) | FromMock(mock: MockBackend.Mock)

  /** What the outside world answers during one tick. devs is None when Devices() fails. */
  datatype Input = Input(
    devs: Option<seq<DeviceSnapshot>>, stamp: U64, probes: seq<Probe>,
    load: (nat, nat) -> MockBackend.Load, metaStamp: U64)

  class Poller {
    const bridge: Bridge
    const source: Source
    const helper: U32
    var lastSeenPerDevice: map<U32, U64>

    ghost predicate Ready(n: nat)
      reads this, bridge, if source.FromReal? then {source.nvml} else {}, if source.FromMock? then {source.mock} else {}
    {
      && bridge.Valid()
      && (source.FromReal? ==> |source.nvml.handles| == n <= TWO_32)
      && (source.FromMock? && source.mock.devs.Some? ==> source.mock.Ready())
    }

    constructor (source: Source, bridge: Bridge, helper: U32)
      ensures this.source == source && this.bridge == bridge && this.helper == helper
      ensures lastSeenPerDevice == map[]
    {
      this.source, this.bridge, this.helper := source, bridge, helper;
      lastSeenPerDevice := map[];
    }

    method MinLastSeen() returns (min: U64)
      ensures min == MinLast(lastSeenPerDevice)
    {
      min := 0;
      var first := true;
      var todo := lastSeenPerDevice.Keys;
      while todo != {}
        invariant todo <= lastSeenPerDevice.Keys
        invariant first <==> todo == lastSeenPerDevice.Keys
        invariant first ==> min == 0
        invariant !first ==> exists d :: d in lastSeenPerDevice && lastSeenPerDevice[d] == min
        invariant forall d :: d in lastSeenPerDevice && d !in todo ==> min <= lastSeenPerDevice[d]
        decreases todo
      {
        var d :| d in todo;
        todo := todo - {d};
        if first || lastSeenPerDevice[d] < min {
          min := lastSeenPerDevice[d];
          first := false;
        }
      }
      MinUnique(lastSeenPerDevice, min);
    }

    method AdvanceLastSeen(dev: U32, ts: U64)
      modifies this`lastSeenPerDevice
      ensures lastSeenPerDevice == Advance(old(lastSeenPerDevice), dev, ts)
      ensures Get(lastSeenPerDevice, dev) == Max(Get(old(lastSeenPerDevice), dev), ts)
      ensures lastSeenPerDevice - {dev} == old(lastSeenPerDevice) - {dev}
    {
      if ts > Get(lastSeenPerDevice, dev) {
        lastSeenPerDevice := lastSeenPerDevice[dev := ts];
      }
    }

    /** Every sample raises its device's watermark, filtered out or not. */
    method ObserveAll(samples: seq<ProcessSample>)
      modifies this`lastSeenPerDevice
      ensures lastSeenPerDevice == Observe(old(lastSeenPerDevice), samples)
    {
      for i := 0 to |samples|
        invariant lastSeenPerDevice == Observe(old(lastSeenPerDevice), samples[..i])
      {
        assert samples[..i + 1][..i] == samples[..i];
        AdvanceLastSeen(samples[i].device, samples[i].timestampNs);
      }
      assert samples[..|samples|] == samples;
    }

    /** Source.ProcessSamples. A failed call yields no samples and does not stop the tick. */
    method Collect(lastSeen: U64, input: Input) returns (samples: seq<ProcessSample>, ghost call: Call)
      requires Ready(|input.probes|)
      modifies if source.FromReal? then {source.nvml} else {}
      ensures Ready(|input.probes|)
      ensures source.FromReal? ==>
                && source.nvml.handles == old(source.nvml.handles)
                && IsCall(call, lastSeen, input) && Walks(old(source.nvml.lastSeenTs), call)
                && samples == VisitAll(old(source.nvml.lastSeenTs), call).out
                && source.nvml.lastSeenTs == VisitAll(old(source.nvml.lastSeenTs), call).seen
      ensures source.FromMock? ==> samples == source.mock.Answer(lastSeen, input.stamp, input.load)
    {
      call := Call(lastSeen, input.stamp, [], []);
      match source {
        case FromReal(nvml) =>
          ghost var orders;
          samples, orders := nvml.ProcessSamples(lastSeen, input.stamp, input.probes);
          call := Call(lastSeen, input.stamp, input.probes, orders);
        case FromMock(mock) =>
          var ok;
          samples, ok := mock.ProcessSamples(lastSeen, input.stamp, input.load);
      }
    }

    /** One tick. If Devices() fails nothing changes. Otherwise the tick's plan is attempted in
        full, meta last, whatever individual updates fail; ok reports the meta write alone. */
    method Tick(input: Input) returns (ok: bool, ghost rec: Option<Publication.Tick>, ghost call: Call)
      requires Ready(|input.probes|)
      modifies this`lastSeenPerDevice, bridge, if source.FromReal? then {source.nvml} else {}
      ensures Ready(|input.probes|)
      ensures rec.Some? <==> input.devs.Some?
      ensures rec.None? ==>
                && !ok && lastSeenPerDevice == old(lastSeenPerDevice) && bridge.trace == old(bridge.trace)
                && bridge.served == old(bridge.served)
                && (source.FromReal? ==> source.nvml.lastSeenTs == old(source.nvml.lastSeenTs))
      ensures rec.Some? ==>
                && RealTick(rec.value) && rec.value.helper == helper
                && input.devs == Some(rec.value.devs) && rec.value.metaStamp == input.metaStamp
                && lastSeenPerDevice == Observe(old(lastSeenPerDevice), rec.value.samples)
                && old(bridge.trace) < bridge.trace
                && Writes(bridge.trace) == Writes(old(bridge.trace)) + Plan(rec.value)
                && bridge.served == old(bridge.served) + |Plan(rec.value)|
                && bridge.trace[|bridge.trace| - 1] == Attempt(MetaWrite(MetaOf(rec.value)), ok)
      ensures rec.Some? && source.FromReal? ==>
                && IsCall(call, MinLast(old(lastSeenPerDevice)), input) && Walks(old(source.nvml.lastSeenTs), call)
                && rec.value.samples == VisitAll(old(source.nvml.lastSeenTs), call).out
                && source.nvml.lastSeenTs == VisitAll(old(source.nvml.lastSeenTs), call).seen
      ensures rec.Some? && source.FromMock? ==>
                rec.value.samples == source.mock.Answer(MinLast(old(lastSeenPerDevice)), input.stamp, input.load)
    {
      rec, call, ok := None, Call(0, 0, [], []), false;
      if input.devs.None? {
        return;
      }
      var devs := input.devs.value;
      WriteDevices(bridge, devs);
      var samples;
      samples, call := Sample(input);
      ghost var done;
      ok, done := PublishWithMeta(devs, samples, input.metaStamp, Writes(old(bridge.trace)));
      rec := Some(done);
    }

    /** Ask for what is newer than the minimum watermark, then raise the watermarks. */
    method Sample(input: Input) returns (samples: seq<ProcessSample>, ghost call: Call)
      requires Ready(|input.probes|)
      modifies this`lastSeenPerDevice, if source.FromReal? then {source.nvml} else {}
      ensures Ready(|input.probes|)
      ensures lastSeenPerDevice == Observe(old(lastSeenPerDevice), samples)
      ensures source.FromReal? ==>
                && IsCall(call, MinLast(old(lastSeenPerDevice)), input) && Walks(old(source.nvml.lastSeenTs), call)
                && samples == VisitAll(old(source.nvml.lastSeenTs), call).out
                && source.nvml.lastSeenTs == VisitAll(old(source.nvml.lastSeenTs), call).seen
      ensures source.FromMock? ==>
                samples == source.mock.Answer(MinLast(old(lastSeenPerDevice)), input.stamp, input.load)
    {
      var lastSeen := MinLastSeen();
      samples, call := Collect(lastSeen, input);
      ObserveAll(samples);
    }

    /** The data writes of both per-pid maps, then gpu_meta. */
    method PublishWithMeta(devs: seq<DeviceSnapshot>, samples: seq<ProcessSample>, metaStamp: U64,
                           ghost base: seq<Write>)
      returns (ok: bool, ghost rec: Publication.Tick)
      requires bridge.Valid() && Writes(bridge.trace) == base + DeviceWrites(devs)
      modifies bridge
      ensures bridge.Valid() && old(bridge.trace) < bridge.trace
      ensures RealTick(rec) && rec.devs == devs && rec.samples == samples
      ensures rec.metaStamp == metaStamp && rec.helper == helper
      ensures Writes(bridge.trace) == base + Plan(rec)
      ensures bridge.served == old(bridge.served) + |Plan(rec)| - |devs|
      ensures bridge.trace[|bridge.trace| - 1] == Attempt(MetaWrite(MetaOf(rec)), ok)
    {
      ghost var order, pids;
      order, pids := Publish(samples);
      rec := Publication.Tick(devs, samples, order, pids, metaStamp, helper);
      var meta := Meta(SCHEMA_VERSION, |devs| % TWO_32, metaStamp, helper);
      ghost var was := bridge.trace;
      ok := bridge.UpdateMeta(meta);
      ReplaySnoc(was, Attempt(MetaWrite(meta), ok));
      PlanConcat(base, rec);
    }

    /** The two-stage fold and the data writes of both per-pid maps. */
    method Publish(samples: seq<ProcessSample>) returns (ghost order: seq<Key>, ghost pids: seq<U32>)
      requires bridge.Valid()
      modifies bridge
      ensures bridge.Valid() && old(bridge.trace) <= bridge.trace
      ensures bridge.served == old(bridge.served) + |order| + |pids|
      ensures Enumerates(order, FoldSamples(samples).Keys)
      ensures Enumerates(pids, Published(FoldSamples(samples), order).Keys)
      ensures Writes(bridge.trace)
           == Writes(old(bridge.trace)) + DetailWrites(Details(FoldSamples(samples)), order)
              + PidWrites(Published(FoldSamples(samples), order), pids)
    {
      ghost var folds := FoldSamples(samples);
      var perDev := FoldWindow(samples);
      var agg;
      agg, order := WriteDetails(bridge, perDev, folds);
      pids := WriteAggregates(bridge, agg, Published(folds, order));
    }
  }

  ghost predicate IsCall(call: Call, lastSeen: U64, input: Input) {
    WellFormed(call) && call.lastSeen == lastSeen && call.stamp == input.stamp && call.probes == input.probes
  }

  lemma PlanConcat(base: seq<Write>, r: Publication.Tick)
    requires RealTick(r)
    ensures base + DeviceWrites(r.devs) + DetailWrites(DetailMap(r), r.order) + PidWrites(PidMap(r), r.pids)
            + [MetaWrite(MetaOf(r))]
         == base + Plan(r)
  {
  }

  // ---- a run of ticks ----

  ghost predicate LogsGrow(inputs: seq<Input>, n: nat) {
    && (forall i :: 0 <= i < |inputs| ==> |inputs[i].probes| == n)
    && (forall i, j, d :: 0 <= i < j < |inputs| && 0 <= d < n ==> inputs[i].probes[d].log <= inputs[j].probes[d].log)
  }

  /** The ticks that got past Devices(). */
  function Live(inputs: seq<Input>): seq<Input> {
    if inputs == [] then []
    else Live(Prev(inputs)) + if Last(inputs).devs.Some? then [Last(inputs)] else []
  }

  /** Tick by tick, what was published was asked for by those inputs. */
  ghost predicate TicksOf(ticks: seq<Publication.Tick>, live: seq<Input>, helper: U32) {
    && |ticks| == |live|
    && forall i :: 0 <= i < |live| ==>
         live[i].devs == Some(ticks[i].devs) && ticks[i].metaStamp == live[i].metaStamp && ticks[i].helper == helper
  }

  /** Call by call, the sampler was given those stamps and probes. */
  ghost predicate CallsOf(calls: seq<Call>, live: seq<Input>) {
    && |calls| == |live|
    && forall i :: 0 <= i < |live| ==> calls[i].stamp == live[i].stamp && calls[i].probes == live[i].probes
  }

  /** The poller's watermarks after those ticks. */
  function WatermarksAfter(ticks: seq<Publication.Tick>): map<U32, U64> {
    if ticks == [] then map[] else Observe(WatermarksAfter(Prev(ticks)), Last(ticks).samples)
  }

  /** Tick by tick, what was published is what the mock answered. */
  ghost predicate MockTicks(ticks: seq<Publication.Tick>, live: seq<Input>, mock: MockBackend.Mock)
    requires |ticks| == |live| && (mock.devs.Some? ==> mock.Ready())
    reads mock
  {
    ticks == [] ||
    (&& MockTicks(Prev(ticks), Prev(live), mock)
     && Last(ticks).samples
        == mock.Answer(MinLast(WatermarksAfter(Prev(ticks))), Last(live).stamp, Last(live).load))
  }

  /** Tick by tick, what was published is what the sampler returned. */
  ghost predicate Paired(calls: seq<Call>, ticks: seq<Publication.Tick>, n: nat)
    requires RunOf(calls, n)
  {
    if calls == [] then ticks == []
    else
      && ticks != [] && Last(ticks).samples == LastOut(calls, n)
      && Paired(Prev(calls), Prev(ticks), n)
  }

  /** The state a run over the real backend has reached. */
  ghost predicate Reached(calls: seq<Call>, ticks: seq<Publication.Tick>, n: nat, seen: map<U32, U64>,
                          polled: map<U32, U64>)
  {
    && RunOf(calls, n) && RealRun(calls, n) && PollerDriven(calls, n) && Paired(calls, ticks, n)
    && seen == SeenAfter(calls, n) && polled == PolledAfter(calls, n)
  }

  lemma ReachedStep(calls: seq<Call>, ticks: seq<Publication.Tick>, n: nat, seen: map<U32, U64>,
                    polled: map<U32, U64>, c: Call, r: Publication.Tick)
    requires Reached(calls, ticks, n, seen, polled)
    requires WellFormed(c) && |c.probes| == n && forall d: U32 :: d < n ==> Log(calls, d) <= c.probes[d].log
    requires c.lastSeen == MinLast(polled) && Walks(seen, c) && r.samples == VisitAll(seen, c).out
    ensures Reached(calls + [c], ticks + [r], n, VisitAll(seen, c).seen, Observe(polled, r.samples))
  {
    assert Prev(calls + [c]) == calls && Last(calls + [c]) == c;
    assert Prev(ticks + [r]) == ticks && Last(ticks + [r]) == r;
    assert forall d: U32 :: d < n ==> Log(calls + [c], d) == c.probes[d].log;
    assert RunOf(calls + [c], n);
  }

  /** What the maps and the watermarks have gone through. */
  ghost predicate Ticked(ticks: seq<Publication.Tick>, live: seq<Input>, helper: U32, writes: seq<Write>,
                         polled: map<U32, U64>)
  {
    TicksOf(ticks, live, helper) && RealTicks(ticks) && writes == PlanAll(ticks) && polled == WatermarksAfter(ticks)
  }

  lemma TickedStep(ticks: seq<Publication.Tick>, live: seq<Input>, helper: U32, writes: seq<Write>,
                   polled: map<U32, U64>, r: Publication.Tick, input: Input)
    requires Ticked(ticks, live, helper, writes, polled) && RealTick(r)
    requires input.devs == Some(r.devs) && r.metaStamp == input.metaStamp && r.helper == helper
    ensures Ticked(ticks + [r], live + [input], helper, writes + Plan(r), Observe(polled, r.samples))
  {
    assert Prev(ticks + [r]) == ticks && Last(ticks + [r]) == r;
  }

  /** What the sampler has gone through. */
  ghost predicate Sampled(calls: seq<Call>, ticks: seq<Publication.Tick>, live: seq<Input>, n: nat,
                          seen: map<U32, U64>, polled: map<U32, U64>)
  {
    CallsOf(calls, live) && Reached(calls, ticks, n, seen, polled)
  }

  lemma SampledStep(calls: seq<Call>, ticks: seq<Publication.Tick>, live: seq<Input>, n: nat, seen: map<U32, U64>,
                    polled: map<U32, U64>, c: Call, r: Publication.Tick, input: Input)
    requires Sampled(calls, ticks, live, n, seen, polled)
    requires |input.probes| == n && forall d: U32 :: d < n ==> Log(calls, d) <= input.probes[d].log
    requires IsCall(c, MinLast(polled), input) && Walks(seen, c) && r.samples == VisitAll(seen, c).out
    ensures Sampled(calls + [c], ticks + [r], live + [input], n, VisitAll(seen, c).seen, Observe(polled, r.samples))
    ensures forall d: U32 :: d < n ==> Log(calls + [c], d) == input.probes[d].log
  {
    ReachedStep(calls, ticks, n, seen, polled, c, r);
  }

  lemma MockStep(ticks: seq<Publication.Tick>, live: seq<Input>, mock: MockBackend.Mock, r: Publication.Tick,
                 input: Input)
    requires |ticks| == |live| && (mock.devs.Some? ==> mock.Ready()) && MockTicks(ticks, live, mock)
    requires r.samples == mock.Answer(MinLast(WatermarksAfter(ticks)), input.stamp, input.load)
    ensures MockTicks(ticks + [r], live + [input], mock)
  {
    assert Prev(ticks + [r]) == ticks && Last(ticks + [r]) == r;
    assert Prev(live + [input]) == live && Last(live + [input]) == input;
  }

  /** Where a run stands after the inputs `live` have gone through whole ticks. */
  ghost predicate Ran(p: Poller, calls: seq<Call>, ticks: seq<Publication.Tick>, live: seq<Input>, n: nat)
    reads p, p.bridge, if p.source.FromReal? then {p.source.nvml} else {}
    reads if p.source.FromMock? then {p.source.mock} else {}
  {
    && p.Ready(n)
    && Ticked(ticks, live, p.helper, Writes(p.bridge.trace), p.lastSeenPerDevice)
    && p.bridge.served == |PlanAll(ticks)|
    && (p.source.FromReal? ==> Sampled(calls, ticks, live, n, p.source.nvml.lastSeenTs, p.lastSeenPerDevice))
    && (p.source.FromMock? ==> MockTicks(ticks, live, p.source.mock))
  }

  /** One more input. */
  method RunTick(p: Poller, input: Input, n: nat, ghost calls: seq<Call>, ghost ticks: seq<Publication.Tick>,
                 ghost live: seq<Input>)
    returns (ghost calls': seq<Call>, ghost ticks': seq<Publication.Tick>)
    requires Ran(p, calls, ticks, live, n)
    requires |input.probes| == n
    requires p.source.FromReal? ==> forall d: U32 :: d < n ==> Log(calls, d) <= input.probes[d].log
    modifies p`lastSeenPerDevice, p.bridge, if p.source.FromReal? then {p.source.nvml} else {}
    ensures Ran(p, calls', ticks', if input.devs.Some? then live + [input] else live, n)
    ensures forall d: U32 :: d < n ==> Log(calls', d) == Log(calls, d) || Log(calls', d) == input.probes[d].log
  {
    calls', ticks' := calls, ticks;
    ghost var seen := if p.source.FromReal? then p.source.nvml.lastSeenTs else map[];
    ghost var polled, writes := p.lastSeenPerDevice, Writes(p.bridge.trace);
    var ok; ghost var rec, call;
    ok, rec, call := p.Tick(input);
    if rec.Some? {
      ticks' := ticks + [rec.value];
      TickedStep(ticks, live, p.helper, writes, polled, rec.value, input);
      if p.source.FromReal? {
        SampledStep(calls, ticks, live, n, seen, polled, call, rec.value, input);
        calls' := calls + [call];
      } else {
        MockStep(ticks, live, p.source.mock, rec.value, input);
      }
    }
  }

  /** The logs of the inputs from i on extend those of the calls so far. */
  ghost predicate LogsAhead(calls: seq<Call>, inputs: seq<Input>, n: nat, i: nat) {
    forall j, d: U32 :: i <= j < |inputs| && d < n ==>
      d < |inputs[j].probes| && Log(calls, d) <= inputs[j].probes[d].log
  }

  lemma LogsStay(calls: seq<Call>, calls': seq<Call>, inputs: seq<Input>, n: nat, i: nat)
    requires LogsGrow(inputs, n) && LogsAhead(calls, inputs, n, i) && i < |inputs|
    requires forall d: U32 :: d < n ==> Log(calls', d) == Log(calls, d) || Log(calls', d) == inputs[i].probes[d].log
    ensures LogsAhead(calls', inputs, n, i + 1)
  {
  }

  lemma LiveStep(inputs: seq<Input>, i: nat)
    requires i < |inputs|
    ensures Live(inputs[..i + 1]) == if inputs[i].devs.Some? then Live(inputs[..i]) + [inputs[i]] else Live(inputs[..i])
  {
    assert Prev(inputs[..i + 1]) == inputs[..i];
  }

  /** Run as a sequence of ticks from a fresh start. A failed tick does not stop the loop: there
      is one tick, and over the real backend one call, for every input that gets past
      Devices(), in order, and the maps saw the plans of exactly those ticks. */
  method Run(p: Poller, inputs: seq<Input>, n: nat)
    returns (ghost calls: seq<Call>, ghost ticks: seq<Publication.Tick>)
    requires p.Ready(n) && p.lastSeenPerDevice == map[] && p.bridge.trace == []
    requires p.source.FromReal? ==> p.source.nvml.lastSeenTs == map[]
    requires LogsGrow(inputs, n)
    modifies p`lastSeenPerDevice, p.bridge, if p.source.FromReal? then {p.source.nvml} else {}
    ensures Ran(p, calls, ticks, Live(inputs), n)
  {
    calls, ticks := [], [];
    ghost var live: seq<Input> := [];
    for i := 0 to |inputs|
      invariant live == Live(inputs[..i])
      invariant Ran(p, calls, ticks, live, n)
      invariant LogsAhead(calls, inputs, n, i)
    {
      ghost var before := calls;
      calls, ticks := RunTick(p, inputs[i], n, calls, ticks, live);
      LogsStay(before, calls, inputs, n, i);
      LiveStep(inputs, i);
      live := if inputs[i].devs.Some? then live + [inputs[i]] else live;
    }
    assert inputs[..|inputs|] == inputs;
  }
}
