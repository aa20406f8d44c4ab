/** The NVML-backed sampler: joins the running-process list with the utilization window of
    each device, keeping one watermark per device. NVML is an oracle: a Probe records what its
    two calls answer for one device during one ProcessSamples call. */
module Sampler {
  import opened Telemetry

  datatype Proc = Proc(pid: U32, usedGpuMemory: U64)

  datatype Event = Event(pid: U32, timeStamp: U64, smUtil: U32, memUtil: U32, encUtil: U32, decUtil: U32)

  datatype Answer = Success | SoftError | HardError

  /** procs is None when the running-process call fails in any way. log is everything the
      device has recorded so far; answer says how the utilization call ends. */
  datatype Probe = Probe(procs: Option<seq<Proc>>, answer: Answer, log: seq<Event>)

  /** NVML's rolling window: the recorded samples newer than `seen`. */
  function Newer(log: seq<Event>, seen: U64): seq<Event> {
    if log == [] then []
    else
      var rest, e := Newer(log[..|log| - 1], seen), log[|log| - 1];
      if e.timeStamp > seen then rest + [e] else rest
  }

  /** go-nvml hands back no samples unless the call succeeds. */
  function Answered(probe: Probe, seen: U64): seq<Event> {
    if probe.answer.Success? then Newer(probe.log, seen) else []
  }

  function Latest(events: seq<Event>): U64 {
    if events == [] then 0
    else Max(Latest(events[..|events| - 1]), events[|events| - 1].timeStamp)
  }

  /** Record the running processes of one device; the last listing of a pid wins. */
  function Listing(mem: map<Key, U64>, dev: U32, procs: seq<Proc>): map<Key, U64> {
    if procs == [] then mem
    else
      var p := procs[|procs| - 1];
      Listing(mem, dev, procs[..|procs| - 1])[Key(p.pid, dev) := p.usedGpuMemory]
  }

  function Listed(mem: map<Key, U64>, dev: U32, probe: Probe): map<Key, U64> {
    if probe.procs.Some? then Listing(mem, dev, probe.procs.value) else mem
  }

  datatype Merged = Merged(mem: map<Key, U64>, out: seq<ProcessSample>)

  function Held(mem: map<Key, U64>, k: Key): U64 {
    if k in mem then mem[k] else 0
  }

  function BusySample(e: Event, dev: U32, stamp: U64, used: U64): ProcessSample {
    ProcessSample(e.pid, dev, stamp, used, e.smUtil, e.memUtil, e.encUtil, e.decUtil, 0)
  }

  function IdleSample(k: Key, stamp: U64, used: U64): ProcessSample {
    ProcessSample(k.pid, k.dev, stamp, used, 0, 0, 0, 0, 0)
  }

  /** One utilization sample takes the memory entry of its key with it. */
  function MergeOne(m: Merged, dev: U32, stamp: U64, e: Event): Merged {
    var k := Key(e.pid, dev);
    Merged(m.mem - {k}, m.out + [BusySample(e, dev, stamp, Held(m.mem, k))])
  }

  function Merge(mem: map<Key, U64>, dev: U32, stamp: U64, events: seq<Event>): Merged {
    if events == [] then Merged(mem, [])
    else MergeOne(Merge(mem, dev, stamp, events[..|events| - 1]), dev, stamp, events[|events| - 1])
  }

  /** Memory-only samples of one device, in the order the memory map is walked. */
  function Idle(mem: map<Key, U64>, dev: U32, stamp: U64, order: seq<Key>): seq<ProcessSample> {
    if order == [] then []
    else
      var rest, k := Idle(mem, dev, stamp, order[..|order| - 1]), order[|order| - 1];
      if k.dev == dev then rest + [IdleSample(k, stamp, Held(mem, k))] else rest
  }

  function Elsewhere(mem: map<Key, U64>, dev: U32): map<Key, U64> {
    map k | k in mem && k.dev != dev :: mem[k]
  }

  /** The loop state of ProcessSamples between two devices. */
  datatype Sweep = Sweep(mem: map<Key, U64>, seen: map<U32, U64>, out: seq<ProcessSample>)

  function Start(seen: map<U32, U64>): Sweep {
    Sweep(map[], seen, [])
  }

  /** The effective query bound of a device. */
  function Bound(seen: map<U32, U64>, dev: U32, lastSeen: U64): U64 {
    Max(Get(seen, dev), lastSeen)
  }

  function Window(s: Sweep, dev: U32, probe: Probe, lastSeen: U64): seq<Event> {
    Answered(probe, Bound(s.seen, dev, lastSeen))
  }

  function MergeDevice(s: Sweep, dev: U32, probe: Probe, lastSeen: U64, stamp: U64): Merged {
    Merge(Listed(s.mem, dev, probe), dev, stamp, Window(s, dev, probe, lastSeen))
  }

  function Visit(s: Sweep, dev: U32, probe: Probe, lastSeen: U64, stamp: U64, order: seq<Key>): Sweep {
    if probe.answer.HardError? then s.(mem := Listed(s.mem, dev, probe))
    else
      var m := MergeDevice(s, dev, probe, lastSeen, stamp);
      Sweep(
        Elsewhere(m.mem, dev),
        Advance(s.seen, dev, Latest(Window(s, dev, probe, lastSeen))),
        s.out + m.out + Idle(m.mem, dev, stamp, order))
  }

  /** What one ProcessSamples call is given and observes. orders[i] is how the memory map was
      walked after device i. */
  datatype Call = Call(lastSeen: U64, stamp: U64, probes: seq<Probe>, orders: seq<seq<Key>>)

  predicate WellFormed(c: Call) {
    |c.probes| == |c.orders| <= TWO_32
  }

  function VisitFirst(seen: map<U32, U64>, c: Call, n: nat): Sweep
    requires WellFormed(c) && n <= |c.probes|
  {
    if n == 0 then Start(seen)
    else Visit(VisitFirst(seen, c, n - 1), n - 1, c.probes[n - 1], c.lastSeen, c.stamp, c.orders[n - 1])
  }

  function VisitAll(seen: map<U32, U64>, c: Call): Sweep
    requires WellFormed(c)
  {
    VisitFirst(seen, c, |c.probes|)
  }

  /** Each order is a real walk of the memory map as it stood at that point. */
  ghost predicate Walks(seen: map<U32, U64>, c: Call)
    requires WellFormed(c)
  {
    forall i :: 0 <= i < |c.probes| && !c.probes[i].answer.HardError? ==>
      Enumerates(c.orders[i],
                 MergeDevice(VisitFirst(seen, c, i), i, c.probes[i], c.lastSeen, c.stamp).mem.Keys)
  }

  lemma {:induction false} VisitFirstPrefix(seen: map<U32, U64>, c: Call, order: seq<Key>, probe: Probe, n: nat)
    requires WellFormed(c) && n <= |c.probes| < TWO_32
    ensures VisitFirst(seen, c, n)
         == VisitFirst(seen, c.(probes := c.probes + [probe], orders := c.orders + [order]), n)
  {
    if n > 0 {
      VisitFirstPrefix(seen, c, order, probe, n - 1);
    }
  }

  ghost function Snoc(c: Call, probe: Probe, order: seq<Key>): Call {
    c.(probes := c.probes + [probe], orders := c.orders + [order])
  }

  lemma {:induction false} VisitSnoc(seen: map<U32, U64>, c: Call, probe: Probe, order: seq<Key>)
    requires WellFormed(c) && |c.probes| < TWO_32 && Walks(seen, c)
    requires !probe.answer.HardError? ==>
               Enumerates(order, MergeDevice(VisitAll(seen, c), |c.probes|, probe, c.lastSeen, c.stamp).mem.Keys)
    ensures VisitAll(seen, Snoc(c, probe, order))
         == Visit(VisitAll(seen, c), |c.probes|, probe, c.lastSeen, c.stamp, order)
    ensures Walks(seen, Snoc(c, probe, order))
  {
    var d := Snoc(c, probe, order);
    forall n: nat | n <= |c.probes| ensures VisitFirst(seen, c, n) == VisitFirst(seen, d, n) {
      VisitFirstPrefix(seen, c, order, probe, n);
    }
    forall i | 0 <= i < |d.probes| && !d.probes[i].answer.HardError?
      ensures Enumerates(d.orders[i], MergeDevice(VisitFirst(seen, d, i), i, d.probes[i], d.lastSeen, d.stamp).mem.Keys)
    {
      assert VisitFirst(seen, c, i) == VisitFirst(seen, d, i);
      if i < |c.probes| {
        assert d.probes[i] == c.probes[i] && d.orders[i] == c.orders[i];
      }
    }
  }

  class Real {
    var handles: seq<nat>
    var lastSeenTs: map<U32, U64>

    constructor (handles: seq<nat>)
      ensures this.handles == handles && lastSeenTs == map[]
    {
      this.handles := handles;
      lastSeenTs := map[];
    }

    method ProcessSamples(lastSeenNs: U64, stamp: U64, probes: seq<Probe>)
      returns (out: seq<ProcessSample>, ghost orders: seq<seq<Key>>)
      requires |probes| == |handles| <= TWO_32
      modifies this`lastSeenTs
      ensures WellFormed(Call(lastSeenNs, stamp, probes, orders))
      ensures Walks(old(lastSeenTs), Call(lastSeenNs, stamp, probes, orders))
      ensures VisitAll(old(lastSeenTs), Call(lastSeenNs, stamp, probes, orders)).out == out
      ensures VisitAll(old(lastSeenTs), Call(lastSeenNs, stamp, probes, orders)).seen == lastSeenTs
    {
      var mem: map<Key, U64> := map[];
      out, orders := [], [];
      ghost var first := lastSeenTs;
      ghost var c := Call(lastSeenNs, stamp, [], []);
      for i := 0 to |handles|
        invariant c == Call(lastSeenNs, stamp, probes[..i], orders) && |orders| == i
        invariant Sweep(mem, lastSeenTs, out) == VisitAll(first, c)
        invariant Walks(first, c)
      {
        ghost var order;
        out, mem, order := VisitHandle(out, mem, i, probes[i], lastSeenNs, stamp);
        VisitSnoc(first, c, probes[i], order);
        c := Snoc(c, probes[i], order);
        orders := orders + [order];
        assert probes[..i + 1] == probes[..i] + [probes[i]];
      }
      assert probes[..|handles|] == probes;
    }

    /** One turn of the loop over devices. */
    method VisitHandle(soFar: seq<ProcessSample>, before: map<Key, U64>, i: U32, probe: Probe, lastSeenNs: U64,
                       stamp: U64)
      returns (out: seq<ProcessSample>, mem: map<Key, U64>, ghost order: seq<Key>)
      modifies this`lastSeenTs
      ensures Sweep(mem, lastSeenTs, out)
           == Visit(Sweep(before, old(lastSeenTs), soFar), i, probe, lastSeenNs, stamp, order)
      ensures !probe.answer.HardError? ==>
                Enumerates(order,
                           MergeDevice(Sweep(before, old(lastSeenTs), soFar), i, probe, lastSeenNs, stamp).mem.Keys)
    {
      out, mem, order := soFar, before, [];
      if probe.procs.Some? {
        mem := ListRunning(mem, i, probe.procs.value);
      }
      var seen := Get(lastSeenTs, i);
      if lastSeenNs > seen {
        seen := lastSeenNs;
      }
      if probe.answer.HardError? {
        return;
      }
      var busy, idle, maxTs;
      busy, mem, maxTs := MergeUtilization(mem, i, stamp, Answered(probe, seen));
      if maxTs > 0 && maxTs > Get(lastSeenTs, i) {
        lastSeenTs := lastSeenTs[i := maxTs];
      }
      idle, mem, order := EmitIdle(mem, i, stamp);
      out := out + busy + idle;
    }
  }

  method ListRunning(before: map<Key, U64>, dev: U32, procs: seq<Proc>) returns (mem: map<Key, U64>)
    ensures mem == Listing(before, dev, procs)
  {
    mem := before;
    for j := 0 to |procs|
      invariant mem == Listing(before, dev, procs[..j])
    {
      assert procs[..j + 1][..j] == procs[..j];
      mem := mem[Key(procs[j].pid, dev) := procs[j].usedGpuMemory];
    }
    assert procs[..|procs|] == procs;
  }

  method MergeUtilization(before: map<Key, U64>, dev: U32, stamp: U64, events: seq<Event>)
    returns (out: seq<ProcessSample>, mem: map<Key, U64>, maxTs: U64)
    ensures Merged(mem, out) == Merge(before, dev, stamp, events)
    ensures maxTs == Latest(events)
  {
    out, mem, maxTs := [], before, 0;
    for j := 0 to |events|
      invariant Merged(mem, out) == Merge(before, dev, stamp, events[..j])
      invariant maxTs == Latest(events[..j])
    {
      var e := events[j];
      assert events[..j + 1][..j] == events[..j];
      if e.timeStamp > maxTs {
        maxTs := e.timeStamp;
      }
      var key := Key(e.pid, dev);
      var used := if key in mem then mem[key] else 0;
      mem := mem - {key};
      out := out + [BusySample(e, dev, stamp, used)];
    }
    assert events[..|events|] == events;
  }

  /** Walk the map in an arbitrary order, emitting and deleting this device's entries. */
  method EmitIdle(before: map<Key, U64>, dev: U32, stamp: U64)
    returns (out: seq<ProcessSample>, mem: map<Key, U64>, ghost order: seq<Key>)
    ensures Enumerates(order, before.Keys)
    ensures out == Idle(before, dev, stamp, order)
    ensures mem == Elsewhere(before, dev)
  {
    out, mem, order := [], before, [];
    var todo := before.Keys;
    while todo != {}
      invariant todo <= before.Keys
      invariant Enumerates(order, before.Keys - todo)
      invariant mem == map k | k in before && (k.dev != dev || k in todo) :: before[k]
      invariant out == Idle(before, dev, stamp, order)
      decreases |todo|
    {
      var key :| key in todo;
      todo := todo - {key};
      assert (order + [key])[..|order|] == order;
      order := order + [key];
      if key.dev == dev {
        out := out + [IdleSample(key, stamp, mem[key])];
        mem := mem - {key};
      }
    }
  }
}
