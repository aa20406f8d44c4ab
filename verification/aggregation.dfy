/** The two-stage fold of poller.tick, as functions of the sample list and of the order in
    which Go happens to walk the per-(pid, device) map, and the declarative meaning of both
    stages. */
module Aggregation {
  import opened Telemetry

  // ---- stage 1: fold the sample list by (pid, device) ----

  /** What a perDevAgg object holds. */
  datatype DevFold = DevFold(ts: U64, usedMem: U64, smMax: U32, memMax: U32, encMax: U32, decMax: U32, migInst: U8)

  function FreshDev(s: ProcessSample): DevFold {
    DevFold(s.timestampNs, s.usedGpuMemory, 0, 0, 0, 0, s.migInstance)
  }

  function Absorb(a: DevFold, s: ProcessSample): DevFold {
    DevFold(
      Max(a.ts, s.timestampNs), Max(a.usedMem, s.usedGpuMemory),
      Max(a.smMax, s.smUtil), Max(a.memMax, s.memUtil),
      Max(a.encMax, s.encUtil), Max(a.decMax, s.decUtil), a.migInst)
  }

  function FoldOne(m: map<Key, DevFold>, s: ProcessSample): map<Key, DevFold> {
    if s.pid == 0 then m
    else
      var k := KeyOf(s);
      m[k := Absorb(if k in m then m[k] else FreshDev(s), s)]
  }

  function FoldSamples(samples: seq<ProcessSample>): map<Key, DevFold> {
    if samples == [] then map[]
    else FoldOne(FoldSamples(samples[..|samples| - 1]), samples[|samples| - 1])
  }

  // ---- stage 2: regroup by pid, walking the folded map in some order ----

  /** What an aggBuilder object holds. */
  datatype PidFold = PidFold(ts: U64, usedTotal: U64, smMax: U32, memMax: U32, firstDev: U8, devSet: set<U8>)

  function FreshPid(k: Key, a: DevFold): PidFold {
    PidFold(a.ts, 0, 0, 0, LowByte(k.dev), {})
  }

  function Join(b: PidFold, k: Key, a: DevFold): PidFold {
    PidFold(
      Max(b.ts, a.ts), (b.usedTotal + a.usedMem) % TWO_64,
      Max(b.smMax, a.smMax), Max(b.memMax, a.memMax),
      b.firstDev, b.devSet + {LowByte(k.dev)})
  }

  function GroupOne(g: map<U32, PidFold>, k: Key, a: DevFold): map<U32, PidFold> {
    g[k.pid := Join(if k.pid in g then g[k.pid] else FreshPid(k, a), k, a)]
  }

  function Group(folds: map<Key, DevFold>, order: seq<Key>): map<U32, PidFold>
    requires forall k :: k in order ==> k in folds
  {
    if order == [] then map[]
    else
      var last := order[|order| - 1];
      GroupOne(Group(folds, order[..|order| - 1]), last, folds[last])
  }

  /** uint8(len(devSet)) with the zero forced to one, and the multi-device sentinel. */
  function Finish(b: PidFold): Aggregate {
    var narrowed := LowByte(|b.devSet|);
    var count := if narrowed == 0 then 1 else narrowed;
    Aggregate(b.ts, b.usedTotal, b.smMax, b.memMax,
              if count > 1 then DEVICE_PRIMARY_MULTI else b.firstDev, count)
  }

  function DetailOf(k: Key, a: DevFold): PidMetrics {
    PidMetrics(a.ts, a.usedMem, a.smMax, a.memMax, a.encMax, a.decMax, LowByte(k.dev), a.migInst)
  }

  /** Everything one tick puts into gpu_per_pid_per_device. */
  function Details(folds: map<Key, DevFold>): map<Key, PidMetrics> {
    map k | k in folds :: DetailOf(k, folds[k])
  }

  /** Everything one tick puts into gpu_per_pid. */
  function Published(folds: map<Key, DevFold>, order: seq<Key>): map<U32, Aggregate>
    requires forall k :: k in order ==> k in folds
  {
    var g := Group(folds, order);
    map pid | pid in g :: Finish(g[pid])
  }

  // ---- what the stages mean, with no mention of folding ----

  datatype Field = Ts | Used | Sm | Mem | Enc | Dec

  function Value(s: ProcessSample, f: Field): nat {
    match f
    case Ts => s.timestampNs
    case Used => s.usedGpuMemory
    case Sm => s.smUtil
    case Mem => s.memUtil
    case Enc => s.encUtil
    case Dec => s.decUtil
  }

  function Shown(m: PidMetrics, f: Field): nat {
    match f
    case Ts => m.timestampNs
    case Used => m.usedGpuMemory
    case Sm => m.smUtil
    case Mem => m.memUtil
    case Enc => m.encUtil
    case Dec => m.decUtil
  }

  /** v is the largest value of field f among the samples of key k, and there is such a sample. */
  ghost predicate WindowMax(samples: seq<ProcessSample>, k: Key, f: Field, v: nat) {
    && (forall s :: s in samples && KeyOf(s) == k ==> Value(s, f) <= v)
    && (exists s :: s in samples && KeyOf(s) == k && Value(s, f) == v)
  }

  /** The same over all samples of a pid, whatever the device. */
  ghost predicate PidWindowMax(samples: seq<ProcessSample>, pid: U32, f: Field, v: nat) {
    && (forall s :: s in samples && s.pid == pid ==> Value(s, f) <= v)
    && (exists s :: s in samples && s.pid == pid && Value(s, f) == v)
  }

  ghost function KeysIn(samples: seq<ProcessSample>): set<Key> {
    set s | s in samples && s.pid != 0 :: KeyOf(s)
  }

  ghost function PidKeys(keys: set<Key>, pid: U32): set<Key> {
    set k | k in keys && k.pid == pid
  }

  ghost function LowBytes(keys: set<Key>): set<U8> {
    set k | k in keys :: k.dev % 0x100
  }

  ghost function UsedMap(details: map<Key, PidMetrics>, keys: set<Key>): map<Key, U64>
    requires keys <= details.Keys
  {
    map k | k in keys :: details[k].usedGpuMemory
  }

  ghost predicate PeakOver(details: map<Key, PidMetrics>, keys: set<Key>, f: Field, v: nat)
    requires keys <= details.Keys
  {
    && (forall k :: k in keys ==> Shown(details[k], f) <= v)
    && (exists k :: k in keys && Shown(details[k], f) == v)
  }

  /** What one gpu_per_pid record says about a set of gpu_per_pid_per_device records. */
  ghost predicate IsAggregate(a: Aggregate, details: map<Key, PidMetrics>, keys: set<Key>)
    requires keys <= details.Keys
  {
    && PeakOver(details, keys, Ts, a.timestampNs)
    && PeakOver(details, keys, Sm, a.smMax)
    && PeakOver(details, keys, Mem, a.memMax)
    && a.usedTotal == Total(UsedMap(details, keys)) % 0x1_0000_0000_0000_0000
    && CountsDevices(a, LowBytes(keys))
  }

  /** 256 distinct low bytes narrow to zero, which is then forced to one. */
  ghost predicate CountsDevices(a: Aggregate, low: set<U8>) {
    if |low| == 256 then a.deviceCount == 1 && a.primary in low
    else
      && a.deviceCount == |low|
      && (if |low| == 1 then low == {a.primary} else a.primary == 0xFF)
  }

  /** MigInstance is the one field that keeps the first sample's value. */
  ghost predicate FirstMig(samples: seq<ProcessSample>, k: Key, mig: U8) {
    exists i :: 0 <= i < |samples| && KeyOf(samples[i]) == k && samples[i].migInstance == mig
                && forall j :: 0 <= j < i ==> KeyOf(samples[j]) != k
  }

  /** The record a (pid, device) should get, stated on the raw samples alone. */
  ghost predicate IsDirectDetail(m: PidMetrics, samples: seq<ProcessSample>, k: Key) {
    && k.pid != 0 && m.gpuDevice == k.dev % 0x100
    && (forall f :: WindowMax(samples, k, f, Shown(m, f)))
    && FirstMig(samples, k, m.migInstance)
  }

  /** Each device's largest memory value among the samples of one pid. */
  ghost predicate PeakMemory(samples: seq<ProcessSample>, pid: U32, peak: map<Key, U64>) {
    && peak.Keys == PidKeys(KeysIn(samples), pid)
    && (forall k :: k in peak ==> WindowMax(samples, k, Used, peak[k]))
  }

  /** The record a pid should get, stated on the raw samples alone. */
  ghost predicate IsDirectAggregate(a: Aggregate, samples: seq<ProcessSample>, pid: U32) {
    && PidWindowMax(samples, pid, Ts, a.timestampNs)
    && PidWindowMax(samples, pid, Sm, a.smMax)
    && PidWindowMax(samples, pid, Mem, a.memMax)
    && (exists peak: map<Key, U64> :: PeakMemory(samples, pid, peak)
                                      && a.usedTotal == Total(peak) % 0x1_0000_0000_0000_0000)
    && CountsDevices(a, LowBytes(PidKeys(KeysIn(samples), pid)))
  }
}
