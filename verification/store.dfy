/** The four published maps. Each update is one atomic step that succeeds or fails; the kernel
    may drop any entries of the two LRU maps at any step. */
module PublishedStore {
  import opened Telemetry
  import Keys

  datatype Write =
    | DeviceWrite(idx: U32, metrics: DeviceMetrics)
    | DetailWrite(key: Key, detail: PidMetrics)
    | PidWrite(pid: U32, aggregate: Aggregate)
    | MetaWrite(meta: Meta)

  /** An update and how it ended; entries the kernel drops; entries deleted on request. */
  datatype Step =
    | Attempt(write: Write, ok: bool)
    | Evict(pids: set<U32>, keys: set<Key>)
    | Delete(pids: set<U32>, keys: set<Key>)

  /** A value together with the tick that wrote it. */
  datatype Entry<+V> = Entry(value: V, tick: nat)

  /** The maps with every entry stamped. `ticks` counts the meta attempts made so far, so it is
      the number of the tick in progress. */
  datatype Store = Store(
    ticks: nat,
    meta: Option<Entry<Meta>>,
    device: map<U32, Entry<DeviceMetrics>>,
    perPid: map<U32, Entry<Aggregate>>,
    detail: map<Key, Entry<PidMetrics>>)

  const EMPTY: Store := Store(0, None, map[], map[], map[])

  function Put(s: Store, w: Write): Store {
    match w
    case DeviceWrite(idx, m) => s.(device := s.device[idx := Entry(m, s.ticks)])
    case DetailWrite(k, m) => s.(detail := s.detail[k := Entry(m, s.ticks)])
    case PidWrite(pid, a) => s.(perPid := s.perPid[pid := Entry(a, s.ticks)])
    case MetaWrite(m) => s.(meta := Some(Entry(m, s.ticks)))
  }

  function Apply(s: Store, step: Step): Store {
    match step
    case Evict(pids, keys) => s.(perPid := s.perPid - pids, detail := s.detail - keys)
    case Delete(pids, keys) => s.(perPid := s.perPid - pids, detail := s.detail - keys)
    case Attempt(w, ok) =>
      var t := if ok then Put(s, w) else s;
      if w.MetaWrite? then t.(ticks := s.ticks + 1) else t
  }

  function Replay(steps: seq<Step>): Store {
    if steps == [] then EMPTY
    else Apply(Replay(steps[..|steps| - 1]), steps[|steps| - 1])
  }

  /** The same from maps that already hold something, as pinned maps do after a restart. */
  function ReplayFrom(s: Store, steps: seq<Step>): Store {
    if steps == [] then s
    else Apply(ReplayFrom(s, steps[..|steps| - 1]), steps[|steps| - 1])
  }

  lemma {:induction false} ReplayFromEmpty(steps: seq<Step>)
    ensures ReplayFrom(EMPTY, steps) == Replay(steps)
  {
    if steps != [] {
      ReplayFromEmpty(steps[..|steps| - 1]);
    }
  }

  /** What the writer attempted, in order. */
  function Writes(steps: seq<Step>): seq<Write> {
    if steps == [] then []
    else
      var rest := Writes(steps[..|steps| - 1]);
      match steps[|steps| - 1]
      case Attempt(w, _) => rest + [w]
      case Evict(_, _) => rest
      case Delete(_, _) => rest
  }

  function Values<K, V>(m: map<K, Entry<V>>): map<K, V> {
    map k | k in m :: m[k].value
  }

  lemma ReplaySnoc(steps: seq<Step>, step: Step)
    ensures Replay(steps + [step]) == Apply(Replay(steps), step)
    ensures Writes(steps + [step]) == Writes(steps) + (if step.Attempt? then [step.write] else [])
  {
    assert (steps + [step])[..|steps|] == steps;
  }

  lemma ValuesMinus<K, V>(m: map<K, Entry<V>>, keys: set<K>)
    ensures Values(m - keys) == Values(m) - keys
  {
  }

  lemma ValuesPut<K, V>(m: map<K, Entry<V>>, k: K, v: V, t: nat)
    ensures Values(m[k := Entry(v, t)]) == Values(m)[k := v]
  {
  }

  lemma NothingTaken(s: Store)
    ensures Apply(s, Evict({}, {})) == s && Apply(s, Delete({}, {})) == s
  {
    assert s.perPid - {} == s.perPid && s.detail - {} == s.detail;
  }

  lemma DeleteDecodes(wire: map<U64, PidMetrics>, m: map<Key, Entry<PidMetrics>>, k: Key)
    requires Keys.Decodes(wire, Values(m))
    ensures Keys.Decodes(wire - {Keys.Pack(k)}, Values(m - {k}))
  {
    Keys.StepDecodes(wire, Values(m), Keys.Delete(k));
    ValuesMinus(m, {k});
  }

  lemma PutDecodes(wire: map<U64, PidMetrics>, m: map<Key, Entry<PidMetrics>>, k: Key, v: PidMetrics, tick: nat)
    requires Keys.Decodes(wire, Values(m))
    ensures Keys.Decodes(wire[Keys.Pack(k) := v], Values(m[k := Entry(v, tick)]))
  {
    Keys.StepDecodes(wire, Values(m), Keys.Update(k, v));
    ValuesPut(m, k, v, tick);
  }

  // ---- the kernel as an oracle ----

  /** The kernel's answers: whether it accepts its n-th request, and which entries of the two LRU
      maps it drops while it serves it. */
  datatype Kernel = Kernel(accepts: nat -> bool, dropsPid: (nat, U32) -> bool, dropsKey: (nat, Key) -> bool)

  /** Requests made so far. */
  function Requests(steps: seq<Step>): nat {
    if steps == [] then 0
    else Requests(steps[..|steps| - 1]) + if steps[|steps| - 1].Evict? then 0 else 1
  }

  /** gpu_device is an array of 16 entries; an index past its end is refused. */
  predicate InRange(w: Write) {
    w.DeviceWrite? ==> w.idx < 16
  }

  /** What happened to the maps is what the kernel answered. */
  ghost predicate Obeys(steps: seq<Step>, kernel: Kernel) {
    steps == [] ||
    (var prev, step := steps[..|steps| - 1], steps[|steps| - 1];
     && Obeys(prev, kernel)
     && (step.Attempt? ==> step.ok == (kernel.accepts(Requests(prev)) && InRange(step.write)))
     && (step.Evict? ==>
           && (forall pid :: pid in step.pids ==> kernel.dropsPid(Requests(prev), pid))
           && (forall k :: k in step.keys ==> kernel.dropsKey(Requests(prev), k))))
  }

  lemma Appended(steps: seq<Step>, step: Step, kernel: Kernel)
    requires Obeys(steps, kernel)
    requires step.Attempt? ==> step.ok == (kernel.accepts(Requests(steps)) && InRange(step.write))
    requires step.Evict? ==>
               && (forall pid :: pid in step.pids ==> kernel.dropsPid(Requests(steps), pid))
               && (forall k :: k in step.keys ==> kernel.dropsKey(Requests(steps), k))
    ensures Obeys(steps + [step], kernel)
    ensures Requests(steps + [step]) == Requests(steps) + if step.Evict? then 0 else 1
    ensures Replay(steps + [step]) == Apply(Replay(steps), step)
  {
    assert (steps + [step])[..|steps|] == steps;
  }

  class Bridge {
    const kernel: Kernel
    var served: nat
    var gpuMeta: Meta
    var gpuDevice: map<U32, DeviceMetrics>
    var gpuPerPid: map<U32, Aggregate>
    var gpuPerPidPerDevice: map<U64, PidMetrics>
    ghost var trace: seq<Step>

    /** The maps hold what replaying the trace of steps leaves, and the steps went as the kernel
        answered. */
    ghost predicate Valid()
      reads this
    {
      var s := Replay(trace);
      && gpuMeta == (if s.meta.Some? then s.meta.value.value else Meta(0, 0, 0, 0))
      && gpuDevice == Values(s.device)
      && gpuPerPid == Values(s.perPid)
      && Keys.Decodes(gpuPerPidPerDevice, Values(s.detail))
      && served == Requests(trace) && Obeys(trace, kernel)
    }

    constructor (kernel: Kernel)
      ensures Valid() && trace == [] && this.kernel == kernel
    {
      this.kernel, served := kernel, 0;
      gpuMeta := Meta(0, 0, 0, 0);
      gpuDevice, gpuPerPid, gpuPerPidPerDevice := map[], map[], map[];
      trace := [];
    }

    method UpdateMeta(m: Meta) returns (ok: bool)
      requires Valid()
      modifies this
      ensures Valid() && trace == old(trace) + [Attempt(MetaWrite(m), ok)]
      ensures ok == kernel.accepts(old(served)) && served == old(served) + 1
      ensures gpuMeta == (if ok then m else old(gpuMeta)) && gpuDevice == old(gpuDevice)
      ensures gpuPerPid == old(gpuPerPid) && gpuPerPidPerDevice == old(gpuPerPidPerDevice)
    {
      ok := kernel.accepts(served);
      if ok {
        gpuMeta := m;
      }
      Appended(trace, Attempt(MetaWrite(m), ok), kernel);
      trace, served := trace + [Attempt(MetaWrite(m), ok)], served + 1;
    }

    /** Replaces what the slot held. */
    method UpdateDevice(idx: U32, d: DeviceMetrics) returns (ok: bool)
      requires Valid()
      modifies this
      ensures Valid() && trace == old(trace) + [Attempt(DeviceWrite(idx, d), ok)]
      ensures ok == (kernel.accepts(old(served)) && idx < 16) && served == old(served) + 1
      ensures gpuDevice == (if ok then old(gpuDevice)[idx := d] else old(gpuDevice)) && gpuMeta == old(gpuMeta)
      ensures gpuPerPid == old(gpuPerPid) && gpuPerPidPerDevice == old(gpuPerPidPerDevice)
    {
      ok := kernel.accepts(served) && idx < MAX_DEVICES;
      if ok {
        ValuesPut(Replay(trace).device, idx, d, Replay(trace).ticks);
        gpuDevice := gpuDevice[idx := d];
      }
      Appended(trace, Attempt(DeviceWrite(idx, d), ok), kernel);
      trace, served := trace + [Attempt(DeviceWrite(idx, d), ok)], served + 1;
    }

    /** Inserting into an LRU map may first drop other entries. */
    method UpdatePerPid(pid: U32, a: Aggregate) returns (ok: bool, ghost victims: set<U32>)
      requires Valid()
      modifies this
      ensures Valid()
      ensures trace == old(trace) + [Evict(victims, {})] + [Attempt(PidWrite(pid, a), ok)]
      ensures ok == kernel.accepts(old(served)) && served == old(served) + 1
      ensures victims == set p | p in old(gpuPerPid) && kernel.dropsPid(old(served), p)
      ensures gpuPerPid == (if ok then (old(gpuPerPid) - victims)[pid := a] else old(gpuPerPid) - victims)
      ensures gpuMeta == old(gpuMeta) && gpuDevice == old(gpuDevice)
      ensures gpuPerPidPerDevice == old(gpuPerPidPerDevice)
    {
      victims := DropPids();
      ok := kernel.accepts(served);
      if ok {
        ValuesPut(Replay(trace).perPid, pid, a, Replay(trace).ticks);
        gpuPerPid := gpuPerPid[pid := a];
      }
      Appended(trace, Attempt(PidWrite(pid, a), ok), kernel);
      trace, served := trace + [Attempt(PidWrite(pid, a), ok)], served + 1;
    }

    method UpdatePerPidPerDevice(pid: U32, devIdx: U32, m: PidMetrics) returns (ok: bool, ghost victims: set<Key>)
      requires Valid()
      modifies this
      ensures Valid()
      ensures trace == old(trace) + [Evict({}, victims)] + [Attempt(DetailWrite(Key(pid, devIdx), m), ok)]
      ensures ok == kernel.accepts(old(served)) && served == old(served) + 1
      ensures gpuPerPidPerDevice
           == (if ok then KeptKeys(old(gpuPerPidPerDevice), kernel, old(served))[Keys.Pack(Key(pid, devIdx)) := m]
               else KeptKeys(old(gpuPerPidPerDevice), kernel, old(served)))
      ensures gpuMeta == old(gpuMeta) && gpuDevice == old(gpuDevice) && gpuPerPid == old(gpuPerPid)
    {
      victims := DropDetails();
      var k := Key(pid, devIdx);
      ok := kernel.accepts(served);
      if ok {
        PutDecodes(gpuPerPidPerDevice, Replay(trace).detail, k, m, Replay(trace).ticks);
        gpuPerPidPerDevice := gpuPerPidPerDevice[Keys.Pack(k) := m];
      }
      Appended(trace, Attempt(DetailWrite(k, m), ok), kernel);
      trace, served := trace + [Attempt(DetailWrite(k, m), ok)], served + 1;
    }

    /** The kernel drops the entries of gpu_per_pid it picks. */
    method DropPids() returns (ghost victims: set<U32>)
      requires Valid()
      modifies this`gpuPerPid, this`trace
      ensures Valid() && trace == old(trace) + [Evict(victims, {})]
      ensures victims == set p | p in old(gpuPerPid) && kernel.dropsPid(served, p)
      ensures gpuPerPid == old(gpuPerPid) - victims
    {
      var dropped := set p | p in gpuPerPid && kernel.dropsPid(served, p);
      victims := dropped;
      gpuPerPid := gpuPerPid - dropped;
      ValuesMinus(Replay(trace).perPid, victims);
      assert Replay(trace).detail - {} == Replay(trace).detail;
      Appended(trace, Evict(victims, {}), kernel);
      trace := trace + [Evict(victims, {})];
    }

    /** The kernel drops the entries of gpu_per_pid_per_device it picks. */
    method DropDetails() returns (ghost victims: set<Key>)
      requires Valid()
      modifies this`gpuPerPidPerDevice, this`trace
      ensures Valid() && trace == old(trace) + [Evict({}, victims)]
      ensures gpuPerPidPerDevice == KeptKeys(old(gpuPerPidPerDevice), kernel, served)
    {
      var dropped := set key | key in gpuPerPidPerDevice && kernel.dropsKey(served, Keys.Unpack(key));
      victims := set key | key in dropped :: Keys.Unpack(key);
      Keys.DropDecodes(gpuPerPidPerDevice, Values(Replay(trace).detail), dropped, victims);
      ValuesMinus(Replay(trace).detail, victims);
      gpuPerPidPerDevice := gpuPerPidPerDevice - dropped;
      assert Replay(trace).perPid - {} == Replay(trace).perPid;
      Appended(trace, Evict({}, victims), kernel);
      trace := trace + [Evict({}, victims)];
    }

    /** Afterwards the entry is gone unless the delete failed, and a missing entry is no error. */
    method DeletePerPid(pid: U32) returns (ok: bool)
      requires Valid()
      modifies this
      ensures Valid() && trace == old(trace) + [Delete(if ok then {pid} else {}, {})]
      ensures ok == (pid !in old(gpuPerPid) || kernel.accepts(old(served))) && served == old(served) + 1
      ensures gpuPerPid == (if ok then old(gpuPerPid) - {pid} else old(gpuPerPid))
      ensures gpuMeta == old(gpuMeta) && gpuDevice == old(gpuDevice)
      ensures gpuPerPidPerDevice == old(gpuPerPidPerDevice)
    {
      var answer := Deleting(pid in gpuPerPid, kernel.accepts(served));
      ok := !answer.Failed?;
      if ok {
        ValuesMinus(Replay(trace).perPid, {pid});
        gpuPerPid := gpuPerPid - {pid};
      }
      NothingTaken(Replay(trace));
      ghost var step := Delete(if ok then {pid} else {}, {});
      Appended(trace, step, kernel);
      trace, served := trace + [step], served + 1;
    }

    method DeletePerPidPerDevice(pid: U32, devIdx: U32) returns (ok: bool)
      requires Valid()
      modifies this
      ensures Valid() && trace == old(trace) + [Delete({}, if ok then {Key(pid, devIdx)} else {})]
      ensures ok == (Keys.Pack(Key(pid, devIdx)) !in old(gpuPerPidPerDevice) || kernel.accepts(old(served)))
      ensures served == old(served) + 1
      ensures gpuPerPidPerDevice
           == (if ok then old(gpuPerPidPerDevice) - {Keys.Pack(Key(pid, devIdx))} else old(gpuPerPidPerDevice))
      ensures gpuMeta == old(gpuMeta) && gpuDevice == old(gpuDevice) && gpuPerPid == old(gpuPerPid)
    {
      var k := Key(pid, devIdx);
      var answer := Deleting(Keys.Pack(k) in gpuPerPidPerDevice, kernel.accepts(served));
      ok := !answer.Failed?;
      if ok {
        DeleteDecodes(gpuPerPidPerDevice, Replay(trace).detail, k);
        gpuPerPidPerDevice := gpuPerPidPerDevice - {Keys.Pack(k)};
      }
      NothingTaken(Replay(trace));
      ghost var step := Delete({}, if ok then {k} else {});
      Appended(trace, step, kernel);
      trace, served := trace + [step], served + 1;
    }
  }

  datatype Deletion = Deleted | KeyNotExist | Failed

  /** The kernel's answer to deleting a key. */
  function Deleting(present: bool, accepted: bool): Deletion {
    if !present then KeyNotExist else if accepted then Deleted else Failed
  }

  /** What the kernel leaves of gpu_per_pid_per_device while it serves a request. */
  function KeptKeys(m: map<U64, PidMetrics>, kernel: Kernel, request: nat): map<U64, PidMetrics> {
    map key | key in m && !kernel.dropsKey(request, Keys.Unpack(key)) :: m[key]
  }

  /** A kernel that accepts everything fails no update that is in range, */
  lemma {:induction false} NothingRefused(steps: seq<Step>, kernel: Kernel)
    requires Obeys(steps, kernel) && forall n :: kernel.accepts(n)
    ensures forall step :: step in steps && step.Attempt? ==> step.ok == InRange(step.write)
  {
    if steps != [] {
      NothingRefused(steps[..|steps| - 1], kernel);
      assert steps == steps[..|steps| - 1] + [steps[|steps| - 1]];
    }
  }

  /** and one that drops nothing evicts nothing. */
  lemma {:induction false} NothingDropped(steps: seq<Step>, kernel: Kernel)
    requires Obeys(steps, kernel)
    requires (forall n, pid :: !kernel.dropsPid(n, pid)) && (forall n, k :: !kernel.dropsKey(n, k))
    ensures forall step :: step in steps && step.Evict? ==> step == Evict({}, {})
  {
    if steps != [] {
      var step := steps[|steps| - 1];
      NothingDropped(steps[..|steps| - 1], kernel);
      assert steps == steps[..|steps| - 1] + [step];
      assert step.Evict? ==> step.pids == {} && step.keys == {};
    }
  }
}
