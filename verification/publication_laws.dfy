/** Meta-last publication, and agreement of the two per-pid maps. */
module PublicationLaws {
  import opened Telemetry
  import opened Aggregation
  import opened PublishedStore
  import opened Publication
  import AggregationLaws

  // ---- meta last ----

  lemma {:induction false} PlansNest(rs: seq<Tick>, i: nat, j: nat)
    requires RealTicks(rs) && i <= j <= |rs|
    ensures PlanAll(rs[..i]) <= PlanAll(rs[..j])
  {
    if i < j {
      PlansNest(rs, i, j - 1);
      var upTo := rs[..j];
      assert upTo[..|upTo| - 1] == rs[..j - 1];
      assert PlanAll(upTo) == PlanAll(rs[..j - 1]) + Plan(rs[j - 1]);
    }
  }

  lemma {:induction false} TicksMonotone(steps: seq<Step>, i: nat)
    requires i <= |steps|
    ensures Replay(steps[..i]).ticks <= Replay(steps).ticks
  {
    if i < |steps| {
      TicksMonotone(steps[..|steps| - 1], i);
      assert steps[..|steps| - 1][..i] == steps[..i];
    } else {
      assert steps[..i] == steps;
    }
  }

  lemma {:induction false} EntriesBehind(steps: seq<Step>)
    ensures Replay(steps).meta.Some? ==> Replay(steps).meta.value.tick < Replay(steps).ticks
  {
    if steps != [] {
      EntriesBehind(steps[..|steps| - 1]);
    }
  }

  /** The meta record of a tick, field by field. */
  ghost predicate MetaSays(m: Meta, r: Tick) {
    && m.schemaVersion == 1 && m.nDevices == |r.devs| % 0x1_0000_0000
    && m.lastUpdateNs == r.metaStamp && m.helperPid == r.helper
  }

  /** A reader that sees the meta record of tick k finds every write of ticks up to k, meta
      included, already attempted. */
  lemma {:induction false} MetaLast(steps: seq<Step>, rs: seq<Tick>)
    requires Underway(steps, rs) && Replay(steps).meta.Some?
    ensures var e := Replay(steps).meta.value;
            && e.tick < |rs| && MetaSays(e.value, rs[e.tick])
            && PlanAll(rs[..e.tick + 1]) <= Writes(steps)
  {
    SurvivorsFaithful(steps, rs);
    UpToTick(steps, rs, Replay(steps).meta.value.tick + 1);
  }

  lemma {:induction false} UpToTick(steps: seq<Step>, rs: seq<Tick>, k: nat)
    requires Underway(steps, rs) && k <= Replay(steps).ticks
    ensures Replay(steps).ticks <= |rs| && PlanAll(rs[..k]) <= Writes(steps)
  {
    DoneTicks(steps, rs);
    PlansNest(rs, k, Replay(steps).ticks);
  }

  lemma {:induction false} DoneTicks(steps: seq<Step>, rs: seq<Tick>)
    requires Underway(steps, rs)
    ensures Replay(steps).ticks <= |rs| && PlanAll(rs[..Replay(steps).ticks]) <= Writes(steps)
  {
    TicksAreMetaCount(steps);
    assert PlanAll(rs)[..|Writes(steps)|] == Writes(steps);
    Located(rs, |Writes(steps)|);
  }

  /** A write of a tick no later than the visible meta happened before the reader looked. */
  lemma {:induction false} PerformedBefore(steps: seq<Step>, i: nat, q: nat)
    requires i <= |steps| && q < |steps|
    requires Replay(steps[..i]).meta.Some?
    requires Replay(steps[..q]).ticks <= Replay(steps[..i]).meta.value.tick
    ensures q < i
  {
    EntriesBehind(steps[..i]);
    TicksOrdered(steps, i, q);
  }

  lemma {:induction false} TicksOrdered(steps: seq<Step>, i: nat, q: nat)
    requires i <= |steps| && q <= |steps|
    ensures i <= q ==> Replay(steps[..i]).ticks <= Replay(steps[..q]).ticks
  {
    if i <= q {
      TicksMonotone(steps[..q], i);
      assert steps[..q][..i] == steps[..i];
    }
  }

  // ---- a surviving entry is its key's last successful write ----

  predicate PutsPid(step: Step, pid: U32) {
    step.Attempt? && step.ok && step.write.PidWrite? && step.write.pid == pid
  }

  predicate PutsDetail(step: Step, k: Key) {
    step.Attempt? && step.ok && step.write.DetailWrite? && step.write.key == k
  }

  /** Step q put the entry, and nothing after it touched the pid. */
  ghost predicate LastPid(steps: seq<Step>, q: nat, pid: U32, e: Entry<Aggregate>) {
    && q < |steps| && steps[q] == Attempt(PidWrite(pid, e.value), true)
    && Replay(steps[..q]).ticks == e.tick
    && forall j :: q < j < |steps| ==> !PutsPid(steps[j], pid)
  }

  ghost predicate LastDetail(steps: seq<Step>, q: nat, k: Key, e: Entry<PidMetrics>) {
    && q < |steps| && steps[q] == Attempt(DetailWrite(k, e.value), true)
    && Replay(steps[..q]).ticks == e.tick
    && forall j :: q < j < |steps| ==> !PutsDetail(steps[j], k)
  }

  lemma StaysLastPid(steps: seq<Step>, step: Step, q: nat, pid: U32, e: Entry<Aggregate>)
    requires LastPid(steps, q, pid, e) && !PutsPid(step, pid)
    ensures LastPid(steps + [step], q, pid, e)
  {
    assert (steps + [step])[..q] == steps[..q];
  }

  /** The step, value and tick of a surviving per-pid entry are those of the last successful
      write of its pid. */
  lemma {:induction false} LastPidShows(steps: seq<Step>, pid: U32) returns (q: nat)
    requires pid in Replay(steps).perPid
    ensures LastPid(steps, q, pid, Replay(steps).perPid[pid])
  {
    q := |steps| - 1;
    if !PutsPid(steps[q], pid) {
      var prev, step := steps[..q], steps[q];
      q := LastPidShows(prev, pid);
      StaysLastPid(prev, step, q, pid, Replay(prev).perPid[pid]);
      assert prev + [step] == steps;
    }
  }

  lemma StaysLastDetail(steps: seq<Step>, step: Step, q: nat, k: Key, e: Entry<PidMetrics>)
    requires LastDetail(steps, q, k, e) && !PutsDetail(step, k)
    ensures LastDetail(steps + [step], q, k, e)
  {
    assert (steps + [step])[..q] == steps[..q];
  }

  lemma {:induction false} LastDetailShows(steps: seq<Step>, k: Key) returns (q: nat)
    requires k in Replay(steps).detail
    ensures LastDetail(steps, q, k, Replay(steps).detail[k])
  {
    q := |steps| - 1;
    if !PutsDetail(steps[q], k) {
      var prev, step := steps[..q], steps[q];
      q := LastDetailShows(prev, k);
      StaysLastDetail(prev, step, q, k, Replay(prev).detail[k]);
      assert prev + [step] == steps;
    }
  }

  predicate PutsDevice(step: Step, idx: U32) {
    step.Attempt? && step.ok && step.write.DeviceWrite? && step.write.idx == idx
  }

  ghost predicate LastDevice(steps: seq<Step>, q: nat, idx: U32, e: Entry<DeviceMetrics>) {
    && q < |steps| && steps[q] == Attempt(DeviceWrite(idx, e.value), true)
    && Replay(steps[..q]).ticks == e.tick
    && forall j :: q < j < |steps| ==> !PutsDevice(steps[j], idx)
  }

  lemma StaysLastDevice(steps: seq<Step>, step: Step, q: nat, idx: U32, e: Entry<DeviceMetrics>)
    requires LastDevice(steps, q, idx, e) && !PutsDevice(step, idx)
    ensures LastDevice(steps + [step], q, idx, e)
  {
    assert (steps + [step])[..q] == steps[..q];
  }

  /** A device slot holds the metrics and tick of the last successful write to it. */
  lemma {:induction false} LastDeviceShows(steps: seq<Step>, idx: U32) returns (q: nat)
    requires idx in Replay(steps).device
    ensures LastDevice(steps, q, idx, Replay(steps).device[idx])
  {
    q := |steps| - 1;
    if !PutsDevice(steps[q], idx) {
      var prev, step := steps[..q], steps[q];
      q := LastDeviceShows(prev, idx);
      StaysLastDevice(prev, step, q, idx, Replay(prev).device[idx]);
      assert prev + [step] == steps;
    }
  }

  /** A device slot is filled exactly when some step put it: it is never evicted. */
  lemma {:induction false} FoundDeviceIff(steps: seq<Step>, idx: U32)
    ensures idx in Replay(steps).device <==> exists q :: 0 <= q < |steps| && PutsDevice(steps[q], idx)
  {
    if steps != [] {
      var prev, step := steps[..|steps| - 1], steps[|steps| - 1];
      assert steps == prev + [step];
      FoundDeviceIff(prev, idx);
      ReplaySnoc(prev, step);
      if q :| 0 <= q < |prev| && PutsDevice(prev[q], idx) {
        assert PutsDevice(steps[q], idx);
      }
      if PutsDevice(step, idx) {
        assert PutsDevice(steps[|prev|], idx);
      }
    }
  }

  /** The kernel drops the entry, or it is deleted. */
  predicate TakesPid(step: Step, pid: U32) {
    !step.Attempt? && pid in step.pids
  }

  predicate TakesDetail(step: Step, k: Key) {
    !step.Attempt? && k in step.keys
  }

  /** Some step put the pid and no later one takes it. */
  ghost predicate PutAndKept(steps: seq<Step>, pid: U32) {
    exists q :: 0 <= q < |steps| && PutsPid(steps[q], pid) && KeptSince(steps, q, pid)
  }

  ghost predicate KeptSince(steps: seq<Step>, q: int, pid: U32) {
    forall j :: 0 <= q < j < |steps| ==> !TakesPid(steps[j], pid)
  }

  ghost predicate DetailPutAndKept(steps: seq<Step>, k: Key) {
    exists q :: 0 <= q < |steps| && PutsDetail(steps[q], k) && DetailKeptSince(steps, q, k)
  }

  ghost predicate DetailKeptSince(steps: seq<Step>, q: int, k: Key) {
    forall j :: 0 <= q < j < |steps| ==> !TakesDetail(steps[j], k)
  }

  lemma {:induction false} PutAndKeptStep(prev: seq<Step>, step: Step, pid: U32)
    ensures PutAndKept(prev + [step], pid)
            <==> PutsPid(step, pid) || (PutAndKept(prev, pid) && !TakesPid(step, pid))
  {
    var steps := prev + [step];
    if PutAndKept(steps, pid) && !PutsPid(step, pid) {
      var q :| 0 <= q < |steps| && PutsPid(steps[q], pid) && KeptSince(steps, q, pid);
      assert prev[q] == steps[q] && steps[|prev|] == step;
      assert forall j :: 0 <= j < |prev| ==> steps[j] == prev[j];
      assert KeptSince(prev, q, pid);
    }
    if PutsPid(step, pid) {
      assert steps[|prev|] == step && KeptSince(steps, |prev|, pid);
    } else if PutAndKept(prev, pid) && !TakesPid(step, pid) {
      var q :| 0 <= q < |prev| && PutsPid(prev[q], pid) && KeptSince(prev, q, pid);
      assert steps[q] == prev[q] && KeptSince(steps, q, pid);
    }
  }

  lemma {:induction false} DetailPutAndKeptStep(prev: seq<Step>, step: Step, k: Key)
    ensures DetailPutAndKept(prev + [step], k)
            <==> PutsDetail(step, k) || (DetailPutAndKept(prev, k) && !TakesDetail(step, k))
  {
    var steps := prev + [step];
    if DetailPutAndKept(steps, k) && !PutsDetail(step, k) {
      var q :| 0 <= q < |steps| && PutsDetail(steps[q], k) && DetailKeptSince(steps, q, k);
      assert prev[q] == steps[q] && steps[|prev|] == step;
      assert forall j :: 0 <= j < |prev| ==> steps[j] == prev[j];
      assert DetailKeptSince(prev, q, k);
    }
    if PutsDetail(step, k) {
      assert steps[|prev|] == step && DetailKeptSince(steps, |prev|, k);
    } else if DetailPutAndKept(prev, k) && !TakesDetail(step, k) {
      var q :| 0 <= q < |prev| && PutsDetail(prev[q], k) && DetailKeptSince(prev, q, k);
      assert steps[q] == prev[q] && DetailKeptSince(steps, q, k);
    }
  }

  /** A reader finds a pid exactly when some step put it and no later one took it. */
  lemma {:induction false} FoundPidIff(steps: seq<Step>, pid: U32)
    ensures pid in Replay(steps).perPid <==> PutAndKept(steps, pid)
  {
    if steps != [] {
      var prev, step := steps[..|steps| - 1], steps[|steps| - 1];
      assert steps == prev + [step];
      FoundPidIff(prev, pid);
      PutAndKeptStep(prev, step, pid);
      ReplaySnoc(prev, step);
    }
  }

  lemma {:induction false} FoundDetailIff(steps: seq<Step>, k: Key)
    ensures k in Replay(steps).detail <==> DetailPutAndKept(steps, k)
  {
    if steps != [] {
      var prev, step := steps[..|steps| - 1], steps[|steps| - 1];
      assert steps == prev + [step];
      FoundDetailIff(prev, k);
      DetailPutAndKeptStep(prev, step, k);
      ReplaySnoc(prev, step);
    }
  }

  // ---- what a reader of both maps finds ----

  /** Read gpu_meta after i steps, then a per-pid record after all of them. Whatever successful
      write of that pid was made at or before the tick the meta record shows, the record found
      is from that tick or a later one, and is the direct record of its tick's samples. */
  lemma {:induction false} ReaderSeesNoOlderPid(steps: seq<Step>, rs: seq<Tick>, i: nat, q: nat, pid: U32)
    requires Underway(steps, rs) && i <= |steps| && q < |steps|
    requires Replay(steps[..i]).meta.Some? && pid in Replay(steps).perPid
    requires steps[q].Attempt? && steps[q].ok && steps[q].write.PidWrite? && steps[q].write.pid == pid
    requires Replay(steps[..q]).ticks <= Replay(steps[..i]).meta.value.tick
    ensures q < i
    ensures Replay(steps[..q]).ticks <= Replay(steps).perPid[pid].tick < |rs|
    ensures IsDirectAggregate(Replay(steps).perPid[pid].value, rs[Replay(steps).perPid[pid].tick].samples, pid)
  {
    PerformedBefore(steps, i, q);
    assert PutsPid(steps[q], pid);
    var last := LastPidShows(steps, pid);
    TicksOrdered(steps, q, last);
    ReaderGetsDirectRecord(steps, rs, pid);
  }

  /** The same for a detail record. */
  lemma {:induction false} ReaderSeesNoOlderDetail(steps: seq<Step>, rs: seq<Tick>, i: nat, q: nat, k: Key)
    requires Underway(steps, rs) && i <= |steps| && q < |steps|
    requires Replay(steps[..i]).meta.Some? && k in Replay(steps).detail
    requires steps[q].Attempt? && steps[q].ok && steps[q].write.DetailWrite? && steps[q].write.key == k
    requires Replay(steps[..q]).ticks <= Replay(steps[..i]).meta.value.tick
    ensures q < i
    ensures Replay(steps[..q]).ticks <= Replay(steps).detail[k].tick < |rs|
    ensures IsDirectDetail(Replay(steps).detail[k].value, rs[Replay(steps).detail[k].tick].samples, k)
  {
    PerformedBefore(steps, i, q);
    assert PutsDetail(steps[q], k);
    var last := LastDetailShows(steps, k);
    TicksOrdered(steps, q, last);
    SurvivorsFaithful(steps, rs);
    assert FaithfulDetail(Replay(steps), rs, k);
    AggregationLaws.DetailMeaning(rs[Replay(steps).detail[k].tick].samples, k);
  }

  /** The same for a device slot: its metrics are those of a snapshot of that device taken in
      that tick. */
  lemma {:induction false} ReaderSeesNoOlderDevice(steps: seq<Step>, rs: seq<Tick>, i: nat, q: nat, idx: U32)
    requires Underway(steps, rs) && i <= |steps| && q < |steps|
    requires Replay(steps[..i]).meta.Some?
    requires PutsDevice(steps[q], idx)
    requires Replay(steps[..q]).ticks <= Replay(steps[..i]).meta.value.tick
    ensures q < i && idx in Replay(steps).device
    ensures var e := Replay(steps).device[idx];
            && Replay(steps[..q]).ticks <= e.tick < |rs|
            && DeviceSnapshot(idx, e.value) in rs[e.tick].devs
  {
    PerformedBefore(steps, i, q);
    FoundDeviceIff(steps, idx);
    var last := LastDeviceShows(steps, idx);
    TicksOrdered(steps, q, last);
    DeviceFromSnapshot(steps, rs, idx, last);
  }

  lemma {:induction false} DeviceFromSnapshot(steps: seq<Step>, rs: seq<Tick>, idx: U32, q: nat)
    requires Underway(steps, rs) && idx in Replay(steps).device
    requires LastDevice(steps, q, idx, Replay(steps).device[idx])
    ensures var e := Replay(steps).device[idx]; e.tick < |rs| && DeviceSnapshot(idx, e.value) in rs[e.tick].devs
  {
    var e, prev := Replay(steps).device[idx], steps[..q];
    WritesPrefix(steps, q + 1);
    assert steps[..q + 1] == prev + [Attempt(DeviceWrite(idx, e.value), true)];
    AttemptLocated(prev, DeviceWrite(idx, e.value), true, rs);
    PlanContents(rs[e.tick], DeviceWrite(idx, e.value));
  }

  lemma {:induction false} WritesPrefix(steps: seq<Step>, i: nat)
    requires i <= |steps|
    ensures Writes(steps[..i]) <= Writes(steps)
  {
    if i == |steps| {
      assert steps[..i] == steps;
    } else {
      assert steps[..|steps| - 1][..i] == steps[..i];
      WritesPrefix(steps[..|steps| - 1], i);
    }
  }

  // ---- the visible meta record ----

  /** The visible meta record is that of the last tick whose meta write succeeded. */
  lemma {:induction false} LastMetaShows(steps: seq<Step>)
    ensures forall q: nat :: q < |steps| && steps[q].Attempt? && steps[q].ok && steps[q].write.MetaWrite? ==>
              Replay(steps).meta.Some? && Replay(steps).meta.value.tick >= Replay(steps[..q]).ticks
    ensures Replay(steps).meta.Some? ==>
              exists q: nat :: q < |steps| && steps[q] == Attempt(MetaWrite(Replay(steps).meta.value.value), true)
                               && Replay(steps[..q]).ticks == Replay(steps).meta.value.tick
  {
    if steps != [] {
      var n := |steps| - 1;
      var prev, step := steps[..n], steps[n];
      LastMetaShows(prev);
      forall q: nat | q < n ensures steps[..q] == prev[..q] && steps[q] == prev[q] {
      }
      forall q: nat | q < |steps| && steps[q].Attempt? && steps[q].ok && steps[q].write.MetaWrite?
        ensures Replay(steps).meta.Some? && Replay(steps).meta.value.tick >= Replay(steps[..q]).ticks
      {
        if q < n {
          assert prev[q] == steps[q];
          TicksMonotone(prev, q);
        }
      }
      if Replay(steps).meta.Some? {
        if step.Attempt? && step.ok && step.write.MetaWrite? {
          assert steps[n] == Attempt(MetaWrite(Replay(steps).meta.value.value), true);
        } else {
          var q: nat :| q < n && prev[q] == Attempt(MetaWrite(Replay(prev).meta.value.value), true)
                        && Replay(prev[..q]).ticks == Replay(prev).meta.value.tick;
          assert steps[q] == prev[q];
        }
      }
    }
  }

  // ---- the two per-pid maps agree ----

  function Stamp<K, V>(m: map<K, V>, t: nat): map<K, Entry<V>> {
    map k | k in m :: Entry(m[k], t)
  }

  ghost function KeysAt(detail: map<Key, Entry<PidMetrics>>, pid: U32, t: nat): set<Key> {
    set k | k in detail && k.pid == pid && detail[k].tick == t
  }

  /** One pid: its aggregate summarises exactly the details of its own tick; every other
      detail of the pid is strictly older. */
  ghost predicate Agrees(s: Store, pid: U32) {
    if pid in s.perPid then
      var e := s.perPid[pid];
      && e.tick < s.ticks
      && (forall k :: k in s.detail && k.pid == pid ==> s.detail[k].tick <= e.tick)
      && KeysAt(s.detail, pid, e.tick) <= Values(s.detail).Keys
      && IsAggregate(e.value, Values(s.detail), KeysAt(s.detail, pid, e.tick))
    else
      forall k :: k in s.detail ==> k.pid != pid
  }

  lemma {:induction false} AggregateLocal(a: Aggregate, d: map<Key, PidMetrics>, e: map<Key, PidMetrics>,
                                          keys: set<Key>)
    requires keys <= d.Keys && keys <= e.Keys && forall k :: k in keys ==> d[k] == e[k]
    requires IsAggregate(a, d, keys)
    ensures IsAggregate(a, e, keys)
  {
    assert UsedMap(d, keys) == UsedMap(e, keys);
    PeakLocal(d, e, keys, Ts, a.timestampNs);
    PeakLocal(d, e, keys, Sm, a.smMax);
    PeakLocal(d, e, keys, Mem, a.memMax);
  }

  lemma PeakLocal(d: map<Key, PidMetrics>, e: map<Key, PidMetrics>, keys: set<Key>, f: Field, v: nat)
    requires keys <= d.Keys && keys <= e.Keys && forall k :: k in keys ==> d[k] == e[k]
    requires PeakOver(d, keys, f, v)
    ensures PeakOver(e, keys, f, v)
  {
    var k :| k in keys && Shown(d[k], f) == v;
    assert Shown(e[k], f) == v;
  }

  /** Snapshot i is the last one of device x. */
  predicate LastSnapshot(devs: seq<DeviceSnapshot>, x: U32, i: nat) {
    i < |devs| && devs[i].index == x && forall j :: i < j < |devs| ==> devs[j].index != x
  }

  /** Each device snapshotted shows its last snapshot; the other slots are as before. */
  ghost predicate DevicesOverlaid(before: map<U32, Entry<DeviceMetrics>>, after: map<U32, Entry<DeviceMetrics>>,
                                  devs: seq<DeviceSnapshot>, tick: nat)
  {
    && (forall x: U32, i: nat :: LastSnapshot(devs, x, i) ==> x in after && after[x] == Entry(devs[i].metrics, tick))
    && (forall x: U32 :: (forall i :: 0 <= i < |devs| ==> devs[i].index != x) ==>
          (x in after <==> x in before) && (x in before ==> after[x] == before[x]))
  }

  /** t is s after one whole tick with every update succeeding. */
  ghost predicate AfterTick(s: Store, t: Store, r: Tick)
    requires RealTick(r)
  {
    && Overlaid(s, t, PidMap(r), DetailMap(r))
    && t.meta.Some? && t.meta.value.tick == s.ticks && MetaSays(t.meta.value.value, r)
    && DevicesOverlaid(s.device, t.device, r.devs, s.ticks)
  }

  function PutAll(s: Store, ws: seq<Write>): Store {
    if ws == [] then s
    else Apply(PutAll(s, ws[..|ws| - 1]), Attempt(ws[|ws| - 1], true))
  }

  lemma {:induction false} PutAllConcat(s: Store, a: seq<Write>, b: seq<Write>)
    ensures PutAll(s, a + b) == PutAll(PutAll(s, a), b)
  {
    if b == [] {
      assert a + b == a;
    } else {
      assert (a + b)[..|a + b| - 1] == a + b[..|b| - 1];
      PutAllConcat(s, a, b[..|b| - 1]);
    }
  }

  lemma {:induction false} PutDevices(s: Store, devs: seq<DeviceSnapshot>)
    ensures PutAll(s, DeviceWrites(devs)) == s.(device := PutAll(s, DeviceWrites(devs)).device)
    ensures DevicesOverlaid(s.device, PutAll(s, DeviceWrites(devs)).device, devs, s.ticks)
  {
    if devs != [] {
      var prev, d := devs[..|devs| - 1], devs[|devs| - 1];
      assert DeviceWrites(devs)[..|devs| - 1] == DeviceWrites(prev);
      PutDevices(s, prev);
      DevicesStep(s.device, PutAll(s, DeviceWrites(prev)).device, prev, d, s.ticks);
      assert devs == prev + [d];
    }
  }

  lemma {:induction false} DevicesStep(before: map<U32, Entry<DeviceMetrics>>, after: map<U32, Entry<DeviceMetrics>>,
                                       devs: seq<DeviceSnapshot>, d: DeviceSnapshot, tick: nat)
    requires DevicesOverlaid(before, after, devs, tick)
    ensures DevicesOverlaid(before, after[d.index := Entry(d.metrics, tick)], devs + [d], tick)
  {
    var all, now := devs + [d], after[d.index := Entry(d.metrics, tick)];
    assert all[|devs|] == d;
    forall x: U32, i: nat | LastSnapshot(all, x, i) ensures x in now && now[x] == Entry(all[i].metrics, tick) {
      if i < |devs| {
        assert forall j :: i < j < |devs| ==> all[j] == devs[j];
        assert LastSnapshot(devs, x, i);
      }
    }
    forall x: U32 | forall i :: 0 <= i < |all| ==> all[i].index != x
      ensures (x in now <==> x in before) && (x in before ==> now[x] == before[x])
    {
      assert forall i :: 0 <= i < |devs| ==> devs[i] == all[i];
    }
  }

  function Restrict<K, V>(m: map<K, V>, order: seq<K>): map<K, V>
    requires forall k :: k in order ==> k in m
  {
    map k | k in order :: m[k]
  }

  lemma StampSnoc<K, V>(base: map<K, Entry<V>>, m: map<K, V>, order: seq<K>, k: K, t: nat)
    requires k in m && forall j :: j in order ==> j in m
    ensures base + Stamp(Restrict(m, order + [k]), t) == (base + Stamp(Restrict(m, order), t))[k := Entry(m[k], t)]
  {
    assert Restrict(m, order + [k]) == Restrict(m, order)[k := m[k]];
  }

  lemma {:induction false} PutDetails(s: Store, m: map<Key, PidMetrics>, order: seq<Key>)
    requires forall k :: k in order ==> k in m
    ensures PutAll(s, DetailWrites(m, order)) == s.(detail := s.detail + Stamp(Restrict(m, order), s.ticks))
  {
    if order == [] {
      assert s.detail + Stamp(Restrict(m, order), s.ticks) == s.detail;
    } else {
      var prev, k := order[..|order| - 1], order[|order| - 1];
      assert order == prev + [k];
      assert DetailWrites(m, order)[..|order| - 1] == DetailWrites(m, prev);
      PutDetails(s, m, prev);
      StampSnoc(s.detail, m, prev, k, s.ticks);
    }
  }

  lemma {:induction false} PutPids(s: Store, m: map<U32, Aggregate>, pids: seq<U32>)
    requires forall p :: p in pids ==> p in m
    ensures PutAll(s, PidWrites(m, pids)) == s.(perPid := s.perPid + Stamp(Restrict(m, pids), s.ticks))
  {
    if pids == [] {
      assert s.perPid + Stamp(Restrict(m, pids), s.ticks) == s.perPid;
    } else {
      var prev, p := pids[..|pids| - 1], pids[|pids| - 1];
      assert pids == prev + [p];
      assert PidWrites(m, pids)[..|pids| - 1] == PidWrites(m, prev);
      PutPids(s, m, prev);
      StampSnoc(s.perPid, m, prev, p, s.ticks);
    }
  }

  lemma {:induction false} TickEffect(s: Store, r: Tick)
    requires RealTick(r)
    ensures AfterTick(s, PutAll(s, Plan(r)), r)
  {
    var a, b, c := DeviceWrites(r.devs), DetailWrites(DetailMap(r), r.order), PidWrites(PidMap(r), r.pids);
    var meta := [MetaWrite(MetaOf(r))];
    PutAllConcat(s, a + b + c, meta);
    PutAllConcat(s, a + b, c);
    PutAllConcat(s, a, b);
    var s1, s2 := PutAll(s, a), PutAll(s, a + b);
    PutDevices(s, r.devs);
    PutWhole(s1, r);
    var s3 := PutAll(s2, c);
    assert s3 == s1.(detail := s.detail + Stamp(DetailMap(r), s.ticks), perPid := s.perPid + Stamp(PidMap(r), s.ticks));
    assert meta[..0] == [] && PutAll(s3, []) == s3;
    assert PutAll(s3, meta) == Apply(s3, Attempt(MetaWrite(MetaOf(r)), true));
  }

  lemma {:induction false} PutWhole(s: Store, r: Tick)
    requires RealTick(r)
    ensures PutAll(PutAll(s, DetailWrites(DetailMap(r), r.order)), PidWrites(PidMap(r), r.pids))
         == s.(detail := s.detail + Stamp(DetailMap(r), s.ticks), perPid := s.perPid + Stamp(PidMap(r), s.ticks))
  {
    PutDetails(s, DetailMap(r), r.order);
    assert Restrict(DetailMap(r), r.order) == DetailMap(r);
    PutPids(PutAll(s, DetailWrites(DetailMap(r), r.order)), PidMap(r), r.pids);
    assert Restrict(PidMap(r), r.pids) == PidMap(r);
  }

  ghost predicate DetailsBehind(s: Store) {
    forall k :: k in s.detail ==> s.detail[k].tick < s.ticks
  }

  /** t is s overlaid with one tick's records. */
  ghost predicate Overlaid(s: Store, t: Store, recs: map<U32, Aggregate>, details: map<Key, PidMetrics>) {
    && t.ticks == s.ticks + 1
    && t.perPid == s.perPid + Stamp(recs, s.ticks)
    && t.detail == s.detail + Stamp(details, s.ticks)
  }

  lemma {:induction false} TickKeepsAgreement(s: Store, t: Store, r: Tick, pid: U32)
    requires RealTick(r) && AfterTick(s, t, r) && Agrees(s, pid) && DetailsBehind(s)
    ensures Agrees(t, pid) && DetailsBehind(t)
  {
    var recs, details := PidMap(r), DetailMap(r);
    assert details.Keys == FoldSamples(r.samples).Keys;
    AggregationLaws.PublishedMeaning(FoldSamples(r.samples), r.order, pid);
    OverlayKeepsAgreement(s, t, recs, details, pid);
  }

  lemma {:induction false} OverlayKeepsAgreement(s: Store, t: Store, recs: map<U32, Aggregate>,
                                                 details: map<Key, PidMetrics>, pid: U32)
    requires Overlaid(s, t, recs, details) && Agrees(s, pid) && DetailsBehind(s)
    requires pid in recs <==> PidKeys(details.Keys, pid) != {}
    requires pid in recs ==> IsAggregate(recs[pid], details, PidKeys(details.Keys, pid))
    ensures Agrees(t, pid) && DetailsBehind(t)
  {
    if pid in recs {
      FreshAgreement(s, t, recs, details, pid);
    } else {
      NoKeysOf(details.Keys, pid);
      OldAgreement(s, t, recs, details, pid);
    }
  }

  lemma {:induction false} FreshAgreement(s: Store, t: Store, recs: map<U32, Aggregate>,
                                          details: map<Key, PidMetrics>, pid: U32)
    requires Overlaid(s, t, recs, details) && DetailsBehind(s) && pid in recs
    requires IsAggregate(recs[pid], details, PidKeys(details.Keys, pid))
    ensures Agrees(t, pid)
  {
    var keys := PidKeys(details.Keys, pid);
    KeysOfTick(s.detail, details, pid, s.ticks);
    var values := Values(t.detail);
    assert keys <= values.Keys && forall k :: k in keys ==> details[k] == values[k];
    AggregateLocal(recs[pid], details, values, keys);
    assert t.perPid[pid] == Entry(recs[pid], s.ticks);
  }

  lemma {:induction false} KeysOfTick(before: map<Key, Entry<PidMetrics>>, details: map<Key, PidMetrics>, pid: U32,
                                      tick: nat)
    requires forall k :: k in before ==> before[k].tick < tick
    ensures KeysAt(before + Stamp(details, tick), pid, tick) == PidKeys(details.Keys, pid)
    ensures forall k :: k in before + Stamp(details, tick) ==> (before + Stamp(details, tick))[k].tick <= tick
  {
  }

  lemma {:induction false} OldAgreement(s: Store, t: Store, recs: map<U32, Aggregate>, details: map<Key, PidMetrics>,
                                        pid: U32)
    requires Overlaid(s, t, recs, details) && Agrees(s, pid) && pid !in recs
    requires forall k :: k in details ==> k.pid != pid
    ensures Agrees(t, pid)
  {
    if pid in s.perPid {
      var keys := KeysAt(s.detail, pid, s.perPid[pid].tick);
      assert KeysAt(t.detail, pid, s.perPid[pid].tick) == keys;
      AggregateLocal(s.perPid[pid].value, Values(s.detail), Values(t.detail), keys);
    }
  }

  lemma NoKeysOf(keys: set<Key>, pid: U32)
    requires PidKeys(keys, pid) == {}
    ensures forall k :: k in keys ==> k.pid != pid
  {
    assert forall k :: k in keys && k.pid == pid ==> k in PidKeys(keys, pid);
  }

  /** No update of the two per-pid maps fails and nothing is taken from them. Device and meta
      updates may fail. */
  ghost predicate PidMapsIntact(steps: seq<Step>) {
    forall step :: step in steps ==>
      if step.Attempt? then step.ok || step.write.DeviceWrite? || step.write.MetaWrite?
      else step.pids == {} && step.keys == {}
  }

  ghost predicate SamePidMaps(s: Store, t: Store) {
    s.ticks == t.ticks && s.perPid == t.perPid && s.detail == t.detail
  }

  lemma {:induction false} StepSame(s: Store, t: Store, step: Step)
    requires SamePidMaps(s, t) && PidMapsIntact([step])
    ensures SamePidMaps(Apply(s, step), if step.Attempt? then Apply(t, Attempt(step.write, true)) else t)
  {
    assert step in [step];
    NothingTaken(s);
  }

  lemma {:induction false} ReplayIsPutAll(steps: seq<Step>)
    requires PidMapsIntact(steps)
    ensures SamePidMaps(Replay(steps), PutAll(EMPTY, Writes(steps)))
  {
    if steps != [] {
      var prev, step := steps[..|steps| - 1], steps[|steps| - 1];
      assert steps == prev + [step];
      ReplayIsPutAll(prev);
      ReplaySnoc(prev, step);
      StepSame(Replay(prev), PutAll(EMPTY, Writes(prev)), step);
      assert step.Attempt? ==> Writes(steps)[..|Writes(steps)| - 1] == Writes(prev);
    }
  }

  lemma {:induction false} SameAgree(s: Store, t: Store, pid: U32)
    requires SamePidMaps(s, t) && Agrees(s, pid)
    ensures Agrees(t, pid)
  {
  }

  lemma {:induction false} TicksAgree(rs: seq<Tick>, pid: U32)
    requires RealTicks(rs)
    ensures Agrees(PutAll(EMPTY, PlanAll(rs)), pid)
    ensures PutAll(EMPTY, PlanAll(rs)).ticks == |rs|
    ensures DetailsBehind(PutAll(EMPTY, PlanAll(rs)))
  {
    if rs != [] {
      var prev, r := rs[..|rs| - 1], rs[|rs| - 1];
      TicksAgree(prev, pid);
      PutAllConcat(EMPTY, PlanAll(prev), Plan(r));
      TickEffect(PutAll(EMPTY, PlanAll(prev)), r);
      TickKeepsAgreement(PutAll(EMPTY, PlanAll(prev)), PutAll(EMPTY, PlanAll(rs)), r, pid);
    }
  }

  /** After every whole tick of a run in which no per-pid update fails and nothing is evicted, the
      two maps hold the same pids, each aggregate summarises exactly the details last written in
      its own tick, and every other detail of the pid is strictly older. */
  lemma {:induction false} CrossMapAgreement(steps: seq<Step>, rs: seq<Tick>, pid: U32)
    requires RealTicks(rs) && PidMapsIntact(steps) && Writes(steps) == PlanAll(rs)
    ensures Agrees(Replay(steps), pid)
    ensures pid in Replay(steps).perPid <==> exists k :: k in Replay(steps).detail && k.pid == pid
  {
    ReplayIsPutAll(steps);
    TicksAgree(rs, pid);
    SameAgree(PutAll(EMPTY, Writes(steps)), Replay(steps), pid);
    var s := Replay(steps);
    if pid in s.perPid {
      var keys := KeysAt(s.detail, pid, s.perPid[pid].tick);
      assert PeakOver(Values(s.detail), keys, Ts, s.perPid[pid].value.timestampNs);
      var k :| k in keys;
      assert k in s.detail && k.pid == pid;
    }
  }
}
