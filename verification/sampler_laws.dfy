/** What one ProcessSamples call delivers: device isolation, conservation of the memory list,
    and the end-to-end meaning of a sweep followed by the poller's first fold. */
module SamplerLaws {
  import opened Telemetry
  import opened Aggregation
  import opened Sampler
  import AggregationLaws

  // ---- what NVML said, with no mention of the merge ----

  /** The running-process call worked and named the pid. */
  ghost predicate IsListed(probe: Probe, pid: U32) {
    probe.procs.Some? && exists i :: 0 <= i < |probe.procs.value| && probe.procs.value[i].pid == pid
  }

  /** The last process it named with that pid held v bytes. */
  ghost predicate LastListed(probe: Probe, pid: U32, v: U64) {
    && probe.procs.Some?
    && exists i :: 0 <= i < |probe.procs.value| && probe.procs.value[i] == Proc(pid, v)
                   && forall j :: i < j < |probe.procs.value| ==> probe.procs.value[j].pid != pid
  }

  /** v is what the process list says the pid holds, zero if it does not name it. */
  ghost predicate Holds(probe: Probe, pid: U32, v: U64) {
    if IsListed(probe, pid) then LastListed(probe, pid, v) else v == 0
  }

  /** The listed pids, each with what it holds. */
  ghost predicate HoldsAll(held: map<U32, U64>, probe: Probe) {
    && (forall pid: U32 :: pid in held <==> IsListed(probe, pid))
    && (forall pid :: pid in held ==> LastListed(probe, pid, held[pid]))
  }

  /** e is in the window device d answers with: recorded, and newer than the device's own
      watermark and than the caller's. */
  ghost predicate InWindow(seen: map<U32, U64>, c: Call, d: U32, e: Event) {
    && d < |c.probes| && c.probes[d].answer.Success? && e in c.probes[d].log
    && e.timeStamp > Get(seen, d) && e.timeStamp > c.lastSeen
  }

  lemma {:induction false} NewerMembers(log: seq<Event>, t: U64)
    ensures forall e :: e in Newer(log, t) <==> e in log && e.timeStamp > t
  {
    if log != [] {
      NewerMembers(log[..|log| - 1], t);
      assert log == log[..|log| - 1] + [log[|log| - 1]];
    }
  }

  // ---- each device on its own ----

  function Project(mem: map<Key, U64>, dev: U32): map<Key, U64> {
    map k | k in mem && k.dev == dev :: mem[k]
  }

  function OfDevice(samples: seq<ProcessSample>, dev: int): seq<ProcessSample> {
    if samples == [] then []
    else
      var rest, s := OfDevice(samples[..|samples| - 1], dev), samples[|samples| - 1];
      if s.device == dev then rest + [s] else rest
  }

  /** The memory list and the utilization window one device contributes to a call. */
  function ListingOf(c: Call, dev: U32): map<Key, U64>
    requires dev < |c.probes|
  {
    Listed(map[], dev, c.probes[dev])
  }

  function WindowOf(seen: map<U32, U64>, c: Call, dev: U32): seq<Event>
    requires dev < |c.probes|
  {
    Answered(c.probes[dev], Bound(seen, dev, c.lastSeen))
  }

  /** The samples one device contributes, computed from its own probe alone. */
  function Segment(seen: map<U32, U64>, c: Call, dev: U32): seq<ProcessSample>
    requires WellFormed(c) && dev < |c.probes|
  {
    if c.probes[dev].answer.HardError? then []
    else
      var m := Merge(ListingOf(c, dev), dev, c.stamp, WindowOf(seen, c, dev));
      m.out + Idle(m.mem, dev, c.stamp, c.orders[dev])
  }

  lemma {:induction false} OfDeviceConcat(a: seq<ProcessSample>, b: seq<ProcessSample>, dev: int)
    ensures OfDevice(a + b, dev) == OfDevice(a, dev) + OfDevice(b, dev)
  {
    if b == [] {
      assert a + b == a;
    } else {
      assert (a + b)[..|a + b| - 1] == a + b[..|b| - 1];
      OfDeviceConcat(a, b[..|b| - 1], dev);
    }
  }

  lemma {:induction false} OfDeviceAll(a: seq<ProcessSample>, own: U32, dev: int)
    requires forall s :: s in a ==> s.device == own
    ensures OfDevice(a, dev) == if dev == own then a else []
  {
    if a != [] {
      OfDeviceAll(a[..|a| - 1], own, dev);
      assert a[|a| - 1] in a;
    }
  }

  lemma {:induction false} OfDeviceMembers(a: seq<ProcessSample>, s: ProcessSample)
    ensures s in OfDevice(a, s.device) <==> s in a
  {
    if a != [] {
      OfDeviceMembers(a[..|a| - 1], s);
      assert a == a[..|a| - 1] + [a[|a| - 1]];
    }
  }

  lemma {:induction false} ListingLocal(mem: map<Key, U64>, dev: U32, procs: seq<Proc>)
    requires Project(mem, dev) == map[]
    ensures Project(Listing(mem, dev, procs), dev) == Listing(map[], dev, procs)
    ensures forall k: Key :: k.dev != dev ==> (k in Listing(mem, dev, procs) <==> k in mem)
    ensures forall k :: k in Listing(map[], dev, procs) ==> k.dev == dev
  {
    if procs != [] {
      ListingLocal(mem, dev, procs[..|procs| - 1]);
    }
  }

  lemma {:induction false} MergeLocal(mem: map<Key, U64>, dev: U32, stamp: U64, events: seq<Event>)
    ensures Merge(mem, dev, stamp, events).out == Merge(Project(mem, dev), dev, stamp, events).out
    ensures Project(Merge(mem, dev, stamp, events).mem, dev) == Merge(Project(mem, dev), dev, stamp, events).mem
    ensures forall k: Key :: k.dev != dev ==> (k in Merge(mem, dev, stamp, events).mem <==> k in mem)
    ensures forall s :: s in Merge(mem, dev, stamp, events).out ==> s.device == dev
  {
    if events != [] {
      MergeLocal(mem, dev, stamp, events[..|events| - 1]);
    }
  }

  lemma {:induction false} IdleLocal(mem: map<Key, U64>, dev: U32, stamp: U64, order: seq<Key>)
    ensures Idle(mem, dev, stamp, order) == Idle(Project(mem, dev), dev, stamp, order)
    ensures forall s :: s in Idle(mem, dev, stamp, order) ==> s.device == dev
  {
    if order != [] {
      IdleLocal(mem, dev, stamp, order[..|order| - 1]);
    }
  }

  /** The sweep after n devices, in terms of per-device contributions. The memory map holds
      nothing but entries of devices whose utilization call failed hard. */
  ghost predicate SweepShape(seen: map<U32, U64>, c: Call, n: nat)
    requires WellFormed(c) && n <= |c.probes|
  {
    var s := VisitFirst(seen, c, n);
    && (forall k :: k in s.mem ==> k.dev < n && c.probes[k.dev].answer.HardError?)
    && (forall d: U32 :: Get(s.seen, d) ==
          if d < n then Max(Get(seen, d), Latest(WindowOf(seen, c, d))) else Get(seen, d))
    && (forall d: U32 :: OfDevice(s.out, d) == if d < n then Segment(seen, c, d) else [])
  }

  lemma {:induction false} SweepShaped(seen: map<U32, U64>, c: Call, n: nat)
    requires WellFormed(c) && n <= |c.probes|
    ensures SweepShape(seen, c, n)
  {
    if n > 0 {
      SweepShaped(seen, c, n - 1);
      VisitLocal(seen, c, n - 1);
    }
  }

  /** Entering device i, the map holds nothing of that device, so its visit is local. */
  lemma {:induction false} ListedLocal(mem: map<Key, U64>, dev: U32, probe: Probe)
    requires forall k :: k in mem ==> k.dev != dev
    ensures Project(Listed(mem, dev, probe), dev) == Listed(map[], dev, probe)
    ensures forall k: Key :: k.dev != dev ==> (k in Listed(mem, dev, probe) <==> k in mem)
  {
    assert Project(mem, dev) == map[];
    if probe.procs.Some? {
      ListingLocal(mem, dev, probe.procs.value);
    }
  }

  lemma {:induction false} VisitAdds(seen: map<U32, U64>, c: Call, i: U32)
    requires WellFormed(c) && i < |c.probes| && SweepShape(seen, c, i)
    ensures VisitFirst(seen, c, i + 1).out == VisitFirst(seen, c, i).out + Segment(seen, c, i)
    ensures forall s :: s in Segment(seen, c, i) ==> s.device == i
  {
    var s, probe := VisitFirst(seen, c, i), c.probes[i];
    ListedLocal(s.mem, i, probe);
    var listed, window := Listed(s.mem, i, probe), WindowOf(seen, c, i);
    assert Window(s, i, probe, c.lastSeen) == window;
    MergeLocal(listed, i, c.stamp, window);
    MergeLocal(ListingOf(c, i), i, c.stamp, window);
    IdleLocal(Merge(listed, i, c.stamp, window).mem, i, c.stamp, c.orders[i]);
    IdleLocal(Merge(ListingOf(c, i), i, c.stamp, window).mem, i, c.stamp, c.orders[i]);
  }

  lemma {:induction false} VisitKeeps(seen: map<U32, U64>, c: Call, i: U32)
    requires WellFormed(c) && i < |c.probes| && SweepShape(seen, c, i)
    ensures forall k :: k in VisitFirst(seen, c, i + 1).mem ==> k.dev < i + 1 && c.probes[k.dev].answer.HardError?
    ensures forall d: U32 :: Get(VisitFirst(seen, c, i + 1).seen, d) ==
              if d == i then Max(Get(seen, d), Latest(WindowOf(seen, c, d))) else Get(VisitFirst(seen, c, i).seen, d)
  {
    var s, probe := VisitFirst(seen, c, i), c.probes[i];
    ListedLocal(s.mem, i, probe);
    var listed, window := Listed(s.mem, i, probe), WindowOf(seen, c, i);
    assert Window(s, i, probe, c.lastSeen) == window;
    MergeLocal(listed, i, c.stamp, window);
  }

  lemma {:induction false} VisitLocal(seen: map<U32, U64>, c: Call, i: U32)
    requires WellFormed(c) && i < |c.probes| && SweepShape(seen, c, i)
    ensures SweepShape(seen, c, i + 1)
  {
    VisitAdds(seen, c, i);
    VisitKeeps(seen, c, i);
    forall d: U32
      ensures OfDevice(VisitFirst(seen, c, i + 1).out, d) == if d < i + 1 then Segment(seen, c, d) else []
    {
      OfDeviceConcat(VisitFirst(seen, c, i).out, Segment(seen, c, i), d);
      OfDeviceAll(Segment(seen, c, i), i, d);
    }
  }

  /** The walk of the whole memory map covers this device's leftovers exactly once. */
  lemma {:induction false} WalkCovers(seen: map<U32, U64>, c: Call, d: U32)
    requires WellFormed(c) && Walks(seen, c) && d < |c.probes| && !c.probes[d].answer.HardError?
    ensures Distinct(c.orders[d])
    ensures forall k: Key :: k.dev == d ==>
              (k in c.orders[d] <==> k in Merge(ListingOf(c, d), d, c.stamp, WindowOf(seen, c, d)).mem)
  {
    SweepShaped(seen, c, d);
    var s, probe := VisitFirst(seen, c, d), c.probes[d];
    ListedLocal(s.mem, d, probe);
    var listed := Listed(s.mem, d, probe);
    MergeLocal(listed, d, c.stamp, WindowOf(seen, c, d));
    var global := MergeDevice(s, d, probe, c.lastSeen, c.stamp).mem;
    assert Enumerates(c.orders[d], global.Keys);
    forall k: Key | k.dev == d ensures k in global <==> k in Project(global, d) {
    }
  }

  // ---- conservation of the memory list ----

  function SumUsed(samples: seq<ProcessSample>): nat {
    if samples == [] then 0
    else SumUsed(samples[..|samples| - 1]) + samples[|samples| - 1].usedGpuMemory
  }

  /** Exactly one sample of key k carries the value v; every other sample of k carries zero. */
  ghost predicate CarriedOnce(samples: seq<ProcessSample>, k: Key, v: U64) {
    exists x :: 0 <= x < |samples| && KeyOf(samples[x]) == k && samples[x].usedGpuMemory == v
                && forall y :: 0 <= y < |samples| && y != x && KeyOf(samples[y]) == k ==> samples[y].usedGpuMemory == 0
  }

  ghost predicate HasPid(events: seq<Event>, pid: U32) {
    exists e :: e in events && e.pid == pid
  }

  lemma {:induction false} SumUsedConcat(a: seq<ProcessSample>, b: seq<ProcessSample>)
    ensures SumUsed(a + b) == SumUsed(a) + SumUsed(b)
  {
    if b == [] {
      assert a + b == a;
    } else {
      assert (a + b)[..|a + b| - 1] == a + b[..|b| - 1];
      SumUsedConcat(a, b[..|b| - 1]);
    }
  }

  lemma {:induction false} MergeSum(mem: map<Key, U64>, dev: U32, stamp: U64, events: seq<Event>)
    ensures SumUsed(Merge(mem, dev, stamp, events).out) + Total(Merge(mem, dev, stamp, events).mem) == Total(mem)
  {
    if events != [] {
      var m, e := Merge(mem, dev, stamp, events[..|events| - 1]), events[|events| - 1];
      var k := Key(e.pid, dev);
      MergeSum(mem, dev, stamp, events[..|events| - 1]);
      if k in m.mem {
        TotalSplit(m.mem, k);
      } else {
        assert m.mem - {k} == m.mem;
      }
      SumUsedConcat(m.out, [BusySample(e, dev, stamp, Held(m.mem, k))]);
    }
  }

  /** The part of the map of one device that a walk has reached. */
  function Walked(mem: map<Key, U64>, dev: U32, order: seq<Key>): map<Key, U64> {
    map k | k in mem && k.dev == dev && k in order :: mem[k]
  }

  lemma {:induction false} WalkedSnoc(mem: map<Key, U64>, dev: U32, order: seq<Key>, k: Key)
    requires k !in order
    ensures Total(Walked(mem, dev, order + [k]))
         == Total(Walked(mem, dev, order)) + if k.dev == dev then Held(mem, k) else 0
  {
    var rest := Walked(mem, dev, order);
    if k.dev == dev && k in mem {
      TotalAdd(rest, k, mem[k]);
      assert Walked(mem, dev, order + [k]) == rest[k := mem[k]];
    } else {
      assert Walked(mem, dev, order + [k]) == rest;
    }
  }

  lemma {:induction false} IdleSum(mem: map<Key, U64>, dev: U32, stamp: U64, order: seq<Key>)
    requires Distinct(order)
    ensures SumUsed(Idle(mem, dev, stamp, order)) == Total(Walked(mem, dev, order))
  {
    if order == [] {
      assert Walked(mem, dev, order) == map[];
    } else {
      var prev, k := order[..|order| - 1], order[|order| - 1];
      assert order == prev + [k];
      IdleSum(mem, dev, stamp, prev);
      WalkedSnoc(mem, dev, prev, k);
      SumUsedConcat(Idle(mem, dev, stamp, prev), [IdleSample(k, stamp, Held(mem, k))]);
    }
  }

  /** What a merge leaves: the entries of other devices and of pids without samples. */
  lemma {:induction false} MergeLeaves(mem: map<Key, U64>, dev: U32, stamp: U64, events: seq<Event>)
    ensures forall k :: k in Merge(mem, dev, stamp, events).mem
              <==> k in mem && !(k.dev == dev && HasPid(events, k.pid))
    ensures forall k :: k in Merge(mem, dev, stamp, events).mem ==> Merge(mem, dev, stamp, events).mem[k] == mem[k]
  {
    if events != [] {
      var prev, e := events[..|events| - 1], events[|events| - 1];
      assert events == prev + [e];
      MergeLeaves(mem, dev, stamp, prev);
      assert forall pid :: HasPid(events, pid) <==> HasPid(prev, pid) || pid == e.pid;
    }
  }

  lemma {:induction false} MergePoints(mem: map<Key, U64>, dev: U32, stamp: U64, events: seq<Event>)
    ensures |Merge(mem, dev, stamp, events).out| == |events|
    ensures forall j :: 0 <= j < |events| ==>
              Merge(mem, dev, stamp, events).out[j]
              == BusySample(events[j], dev, stamp,
                            if HasPid(events[..j], events[j].pid) then 0 else Held(mem, Key(events[j].pid, dev)))
    ensures forall k :: k in Merge(mem, dev, stamp, events).mem
              <==> k in mem && !(k.dev == dev && HasPid(events, k.pid))
    ensures forall k :: k in Merge(mem, dev, stamp, events).mem ==> Merge(mem, dev, stamp, events).mem[k] == mem[k]
  {
    MergeLeaves(mem, dev, stamp, events);
    if events != [] {
      var prev := events[..|events| - 1];
      MergePoints(mem, dev, stamp, prev);
      forall j | 0 <= j <= |prev| ensures events[..j] == prev[..j] {
      }
    }
  }

  lemma {:induction false} IdlePoints(mem: map<Key, U64>, dev: U32, stamp: U64, order: seq<Key>)
    requires Distinct(order)
    ensures forall s :: s in Idle(mem, dev, stamp, order) ==>
              KeyOf(s) in order && s == IdleSample(KeyOf(s), stamp, Held(mem, KeyOf(s)))
    ensures forall k :: k in order && k.dev == dev ==>
              IdleSample(k, stamp, Held(mem, k)) in Idle(mem, dev, stamp, order)
    ensures Distinct(Idle(mem, dev, stamp, order))
  {
    if order != [] {
      var prev, k := order[..|order| - 1], order[|order| - 1];
      assert order == prev + [k];
      IdlePoints(mem, dev, stamp, prev);
    }
  }

  /** A pid with utilization samples: the first of them takes the memory value, the later ones
      get none. */
  lemma {:induction false} BusyCarries(mem: map<Key, U64>, dev: U32, stamp: U64, events: seq<Event>, pid: U32)
    returns (x: nat)
    requires HasPid(events, pid)
    ensures x < |events| == |Merge(mem, dev, stamp, events).out|
    ensures events[x].pid == pid && !HasPid(events[..x], pid)
    ensures KeyOf(Merge(mem, dev, stamp, events).out[x]) == Key(pid, dev)
    ensures Merge(mem, dev, stamp, events).out[x].usedGpuMemory
              == (if Key(pid, dev) in mem then mem[Key(pid, dev)] else 0)
    ensures forall y :: x < y < |events| && events[y].pid == pid ==>
              && KeyOf(Merge(mem, dev, stamp, events).out[y]) == Key(pid, dev)
              && Merge(mem, dev, stamp, events).out[y].usedGpuMemory == 0
    ensures CarriedOnce(Merge(mem, dev, stamp, events).out, Key(pid, dev), Held(mem, Key(pid, dev)))
  {
    MergePoints(mem, dev, stamp, events);
    var out := Merge(mem, dev, stamp, events).out;
    x := FirstOfPid(events, pid);
    forall y | x < y < |events| && events[y].pid == pid ensures out[y] == BusySample(events[y], dev, stamp, 0) {
      assert events[..y][x] == events[x];
    }
    forall y | 0 <= y < |out| && y != x && KeyOf(out[y]) == Key(pid, dev) ensures out[y].usedGpuMemory == 0 {
      assert events[y].pid == pid && x < y;
    }
  }

  lemma {:induction false} FirstOfPid(events: seq<Event>, pid: U32) returns (x: nat)
    requires HasPid(events, pid)
    ensures x < |events| && events[x].pid == pid && forall j :: 0 <= j < x ==> events[j].pid != pid
  {
    if HasPid(events[..|events| - 1], pid) {
      x := FirstOfPid(events[..|events| - 1], pid);
    } else {
      x := |events| - 1;
      assert forall j :: 0 <= j < x ==> events[j] in events[..|events| - 1];
    }
  }

  /** Each value a device that does not fail hard lists is emitted exactly once, the sums agree,
      and nothing of the device is left behind. A hard-failed device emits nothing, and its
      entries never surface under another device. */
  lemma {:induction false} MemoryConserved(seen: map<U32, U64>, c: Call, d: U32) returns (held: map<U32, U64>)
    requires WellFormed(c) && Walks(seen, c) && d < |c.probes|
    ensures HoldsAll(held, c.probes[d])
    ensures c.probes[d].answer.HardError? ==> OfDevice(VisitAll(seen, c).out, d) == []
    ensures !c.probes[d].answer.HardError? ==>
              && SumUsed(OfDevice(VisitAll(seen, c).out, d)) == Total(held)
              && (forall k :: k in VisitAll(seen, c).mem ==> k.dev != d)
              && (forall pid :: pid in held ==>
                    CarriedOnce(OfDevice(VisitAll(seen, c).out, d), Key(pid, d), held[pid]))
  {
    SweepShaped(seen, c, |c.probes|);
    held := ByPid(c, d);
    if !c.probes[d].answer.HardError? {
      SegmentSum(seen, c, d);
      forall pid | pid in held ensures CarriedOnce(Segment(seen, c, d), Key(pid, d), held[pid]) {
        SegmentCarries(seen, c, Key(pid, d));
      }
    }
  }

  /** The entries a listing makes are the listed pids with what they hold. */
  lemma {:induction false} ListingSays(c: Call, d: U32)
    requires d < |c.probes|
    ensures forall k :: k in ListingOf(c, d) <==> k.dev == d && IsListed(c.probes[d], k.pid)
    ensures forall k :: k in ListingOf(c, d) ==> LastListed(c.probes[d], k.pid, ListingOf(c, d)[k])
  {
    if c.probes[d].procs.Some? {
      forall k: Key
        ensures k in ListingOf(c, d) <==> k.dev == d && IsListed(c.probes[d], k.pid)
        ensures k in ListingOf(c, d) ==> LastListed(c.probes[d], k.pid, ListingOf(c, d)[k])
      {
        LastListingWins(d, c.probes[d].procs.value, k);
      }
    }
  }

  lemma {:induction false} ByPid(c: Call, d: U32) returns (held: map<U32, U64>)
    requires d < |c.probes|
    ensures HoldsAll(held, c.probes[d]) && Total(held) == Total(ListingOf(c, d))
    ensures forall pid: U32 :: pid in held <==> Key(pid, d) in ListingOf(c, d)
    ensures forall pid :: pid in held ==> held[pid] == ListingOf(c, d)[Key(pid, d)]
  {
    ListingSays(c, d);
    held := Rekeyed(ListingOf(c, d), d);
  }

  /** The same sum over pids as over the keys of one device. */
  lemma {:induction false} Rekeyed(m: map<Key, U64>, d: U32) returns (held: map<U32, U64>)
    requires forall k :: k in m ==> k.dev == d
    ensures Total(held) == Total(m)
    ensures forall pid: U32 :: pid in held <==> Key(pid, d) in m
    ensures forall pid :: pid in held ==> held[pid] == m[Key(pid, d)]
    decreases |m|
  {
    if m == map[] {
      held := map[];
    } else {
      var k :| k in m;
      assert (m - {k}).Keys == m.Keys - {k};
      var rest := Rekeyed(m - {k}, d);
      TotalSplit(m, k);
      TotalAdd(rest, k.pid, m[k]);
      held := rest[k.pid := m[k]];
    }
  }

  lemma {:induction false} ListedHere(c: Call, d: U32)
    requires d < |c.probes|
    ensures forall k :: k in ListingOf(c, d) ==> k.dev == d
  {
    if c.probes[d].procs.Some? {
      assert Project(map[], d) == map[];
      ListingLocal(map[], d, c.probes[d].procs.value);
    }
  }

  lemma {:induction false} SegmentSum(seen: map<U32, U64>, c: Call, d: U32)
    requires WellFormed(c) && Walks(seen, c) && d < |c.probes| && !c.probes[d].answer.HardError?
    ensures SumUsed(Segment(seen, c, d)) == Total(ListingOf(c, d))
  {
    var m := Merge(ListingOf(c, d), d, c.stamp, WindowOf(seen, c, d));
    ListedHere(c, d);
    MergeSum(ListingOf(c, d), d, c.stamp, WindowOf(seen, c, d));
    MergePoints(ListingOf(c, d), d, c.stamp, WindowOf(seen, c, d));
    WalkCovers(seen, c, d);
    IdleSum(m.mem, d, c.stamp, c.orders[d]);
    assert m.mem == Walked(m.mem, d, c.orders[d]);
    SumUsedConcat(m.out, Idle(m.mem, d, c.stamp, c.orders[d]));
  }

  lemma {:induction false} SegmentCarries(seen: map<U32, U64>, c: Call, k: Key)
    requires WellFormed(c) && Walks(seen, c) && k.dev < |c.probes| && !c.probes[k.dev].answer.HardError?
    requires k in ListingOf(c, k.dev) || HasPid(WindowOf(seen, c, k.dev), k.pid)
    ensures CarriedOnce(Segment(seen, c, k.dev), k, Held(ListingOf(c, k.dev), k))
  {
    var d, listing, window := k.dev, ListingOf(c, k.dev), WindowOf(seen, c, k.dev);
    var m := Merge(listing, d, c.stamp, window);
    var idle := Idle(m.mem, d, c.stamp, c.orders[d]);
    MergePoints(listing, d, c.stamp, window);
    WalkCovers(seen, c, d);
    IdlePoints(m.mem, d, c.stamp, c.orders[d]);
    if HasPid(window, k.pid) {
      var first := BusyCarries(listing, d, c.stamp, window, k.pid);
      CarriedLeft(m.out, idle, k, Held(listing, k));
    } else {
      IdleCarries(m.mem, d, c.stamp, c.orders[d], k);
      CarriedRight(m.out, idle, k, Held(listing, k));
    }
  }

  lemma {:induction false} IdleCarries(mem: map<Key, U64>, dev: U32, stamp: U64, order: seq<Key>, k: Key)
    requires Distinct(order) && k in order && k.dev == dev
    ensures CarriedOnce(Idle(mem, dev, stamp, order), k, Held(mem, k))
  {
    IdlePoints(mem, dev, stamp, order);
    var idle := Idle(mem, dev, stamp, order);
    var x :| 0 <= x < |idle| && idle[x] == IdleSample(k, stamp, Held(mem, k));
    forall y | 0 <= y < |idle| && y != x ensures KeyOf(idle[y]) != k {
      assert idle[y] in idle;
    }
  }

  lemma {:induction false} CarriedLeft(a: seq<ProcessSample>, b: seq<ProcessSample>, k: Key, v: U64)
    requires CarriedOnce(a, k, v)
    requires forall s :: s in b ==> KeyOf(s) != k
    ensures CarriedOnce(a + b, k, v)
  {
    var x :| 0 <= x < |a| && KeyOf(a[x]) == k && a[x].usedGpuMemory == v
             && forall y :: 0 <= y < |a| && y != x && KeyOf(a[y]) == k ==> a[y].usedGpuMemory == 0;
    assert (a + b)[x] == a[x];
  }

  lemma {:induction false} CarriedRight(a: seq<ProcessSample>, b: seq<ProcessSample>, k: Key, v: U64)
    requires CarriedOnce(b, k, v)
    requires forall s :: s in a ==> KeyOf(s) != k
    ensures CarriedOnce(a + b, k, v)
  {
    var x :| 0 <= x < |b| && KeyOf(b[x]) == k && b[x].usedGpuMemory == v
             && forall y :: 0 <= y < |b| && y != x && KeyOf(b[y]) == k ==> b[y].usedGpuMemory == 0;
    assert (a + b)[|a| + x] == b[x];
    forall y | 0 <= y < |a + b| && y != |a| + x && KeyOf((a + b)[y]) == k ensures (a + b)[y].usedGpuMemory == 0 {
      if y >= |a| {
        assert (a + b)[y] == b[y - |a|];
      }
    }
  }

  // ---- end to end: sweep, then the poller's first fold ----

  function EventValue(e: Event, f: Field): nat {
    match f
    case Ts => 0
    case Used => 0
    case Sm => e.smUtil
    case Mem => e.memUtil
    case Enc => e.encUtil
    case Dec => e.decUtil
  }

  /** v is the largest utilization the device's window holds for the pid, zero when it is idle. */
  ghost predicate WindowPeak(seen: map<U32, U64>, c: Call, k: Key, f: Field, v: nat) {
    && (forall e :: InWindow(seen, c, k.dev, e) && e.pid == k.pid ==> EventValue(e, f) <= v)
    && (v == 0 || exists e :: InWindow(seen, c, k.dev, e) && e.pid == k.pid && EventValue(e, f) == v)
  }

  ghost predicate Utilization(f: Field) {
    f.Sm? || f.Mem? || f.Enc? || f.Dec?
  }

  /** The pid is in either list of the device, which does not fail hard. */
  ghost predicate Seen(seen: map<U32, U64>, c: Call, k: Key) {
    && k.dev < |c.probes| && !c.probes[k.dev].answer.HardError?
    && (IsListed(c.probes[k.dev], k.pid) || exists e :: InWindow(seen, c, k.dev, e) && e.pid == k.pid)
  }

  lemma {:induction false} WindowSays(seen: map<U32, U64>, c: Call, d: U32)
    requires d < |c.probes|
    ensures forall e :: e in WindowOf(seen, c, d) <==> InWindow(seen, c, d, e)
  {
    NewerMembers(c.probes[d].log, Bound(seen, d, c.lastSeen));
  }

  lemma {:induction false} SeenSays(seen: map<U32, U64>, c: Call, k: Key)
    requires k.dev < |c.probes|
    ensures Seen(seen, c, k) <==>
              && !c.probes[k.dev].answer.HardError?
              && (k in ListingOf(c, k.dev) || HasPid(WindowOf(seen, c, k.dev), k.pid))
  {
    ListingSays(c, k.dev);
    WindowSays(seen, c, k.dev);
  }

  /** Where a sample of key k comes from. */
  lemma {:induction false} SegmentOrigin(seen: map<U32, U64>, c: Call, k: Key, s: ProcessSample)
    requires WellFormed(c) && Walks(seen, c) && KeyOf(s) == k
    requires k.dev < |c.probes| && s in Segment(seen, c, k.dev)
    ensures Seen(seen, c, k) && s.timestampNs == c.stamp
    ensures s == IdleSample(k, c.stamp, s.usedGpuMemory)
         || exists e :: e in WindowOf(seen, c, k.dev) && s == BusySample(e, k.dev, c.stamp, s.usedGpuMemory)
  {
    var d, window := k.dev, WindowOf(seen, c, k.dev);
    var m := Merge(ListingOf(c, d), d, c.stamp, window);
    MergePoints(ListingOf(c, d), d, c.stamp, window);
    WalkCovers(seen, c, d);
    IdlePoints(m.mem, d, c.stamp, c.orders[d]);
    if s in m.out {
      var j :| 0 <= j < |m.out| && m.out[j] == s;
      assert window[j] in window;
    }
    SeenSays(seen, c, k);
  }

  lemma {:induction false} EventSurfaces(seen: map<U32, U64>, c: Call, d: U32, e: Event)
    requires WellFormed(c) && d < |c.probes| && !c.probes[d].answer.HardError?
    requires e in WindowOf(seen, c, d)
    ensures exists used: U64 :: BusySample(e, d, c.stamp, used) in Segment(seen, c, d)
  {
    var window := WindowOf(seen, c, d);
    var m := Merge(ListingOf(c, d), d, c.stamp, window);
    MergePoints(ListingOf(c, d), d, c.stamp, window);
    var j :| 0 <= j < |window| && window[j] == e;
    assert m.out[j] == BusySample(e, d, c.stamp, m.out[j].usedGpuMemory);
    assert m.out[j] in Segment(seen, c, d);
  }

  lemma {:induction false} InSweep(seen: map<U32, U64>, c: Call, s: ProcessSample)
    requires WellFormed(c)
    ensures s in VisitAll(seen, c).out <==> s.device < |c.probes| && s in Segment(seen, c, s.device)
  {
    SweepShaped(seen, c, |c.probes|);
    OfDeviceMembers(VisitAll(seen, c).out, s);
  }

  /** The keys written in a tick are the non-zero pids in either list of a device that did not
      fail hard; the memory is what the list says, though only one sample carries it, each
      utilization the largest in the device's window, the time the call's, and there is no MIG
      instance. */
  lemma {:induction false} EndToEnd(seen: map<U32, U64>, c: Call, k: Key)
    requires WellFormed(c) && Walks(seen, c)
    ensures k in FoldSamples(VisitAll(seen, c).out) <==> k.pid != 0 && Seen(seen, c, k)
    ensures k in FoldSamples(VisitAll(seen, c).out) ==>
              var a := FoldSamples(VisitAll(seen, c).out)[k];
              && Holds(c.probes[k.dev], k.pid, a.usedMem)
              && a.ts == c.stamp && a.migInst == 0
              && WindowPeak(seen, c, k, Sm, a.smMax)
              && WindowPeak(seen, c, k, Mem, a.memMax)
              && WindowPeak(seen, c, k, Enc, a.encMax)
              && WindowPeak(seen, c, k, Dec, a.decMax)
  {
    var out := VisitAll(seen, c).out;
    KeyAppears(seen, c, k);
    assert k in FoldSamples(out) <==> k in KeysIn(out) by {
      AggregationLaws.FoldMeaning(out);
    }
    if k.pid != 0 && Seen(seen, c, k) {
      MemoryShown(seen, c, k);
      StampShown(seen, c, k);
      PeakShown(seen, c, k, Sm);
      PeakShown(seen, c, k, Mem);
      PeakShown(seen, c, k, Enc);
      PeakShown(seen, c, k, Dec);
    }
  }

  lemma {:induction false} KeyAppears(seen: map<U32, U64>, c: Call, k: Key)
    requires WellFormed(c) && Walks(seen, c)
    ensures k in KeysIn(VisitAll(seen, c).out) <==> k.pid != 0 && Seen(seen, c, k)
  {
    var out := VisitAll(seen, c).out;
    if k in KeysIn(out) {
      var s :| s in out && KeyOf(s) == k;
      InSweep(seen, c, s);
      SegmentOrigin(seen, c, k, s);
    }
    if k.pid != 0 && Seen(seen, c, k) {
      SeenSays(seen, c, k);
      SegmentCarries(seen, c, k);
      var s :| s in Segment(seen, c, k.dev) && KeyOf(s) == k;
      InSweep(seen, c, s);
    }
  }

  lemma {:induction false} MemoryShown(seen: map<U32, U64>, c: Call, k: Key)
    requires WellFormed(c) && Walks(seen, c) && k.pid != 0 && Seen(seen, c, k)
    ensures k in FoldSamples(VisitAll(seen, c).out)
    ensures Holds(c.probes[k.dev], k.pid, FoldSamples(VisitAll(seen, c).out)[k].usedMem)
  {
    var out, v := VisitAll(seen, c).out, Held(ListingOf(c, k.dev), k);
    KeyAppears(seen, c, k);
    SeenSays(seen, c, k);
    ListingSays(c, k.dev);
    AggregationLaws.DetailIsWindowMax(out, k, Used);
    SegmentCarries(seen, c, k);
    var seg := Segment(seen, c, k.dev);
    var x :| 0 <= x < |seg| && KeyOf(seg[x]) == k && seg[x].usedGpuMemory == v
             && forall y :: 0 <= y < |seg| && y != x && KeyOf(seg[y]) == k ==> seg[y].usedGpuMemory == 0;
    InSweep(seen, c, seg[x]);
    var s :| s in out && KeyOf(s) == k && Value(s, Used) == FoldSamples(out)[k].usedMem;
    InSweep(seen, c, s);
    var y :| 0 <= y < |seg| && seg[y] == s;
  }

  lemma {:induction false} StampShown(seen: map<U32, U64>, c: Call, k: Key)
    requires WellFormed(c) && Walks(seen, c) && k.pid != 0 && Seen(seen, c, k)
    ensures k in FoldSamples(VisitAll(seen, c).out)
    ensures FoldSamples(VisitAll(seen, c).out)[k].ts == c.stamp
    ensures FoldSamples(VisitAll(seen, c).out)[k].migInst == 0
  {
    var out := VisitAll(seen, c).out;
    KeyAppears(seen, c, k);
    AggregationLaws.DetailIsWindowMax(out, k, Ts);
    var s :| s in out && KeyOf(s) == k && Value(s, Ts) == FoldSamples(out)[k].ts;
    SampleStamped(seen, c, |c.probes|, s);
    AggregationLaws.FoldMeaning(out);
    assert FirstMig(out, k, FoldSamples(out)[k].migInst);
    var i :| 0 <= i < |out| && KeyOf(out[i]) == k && out[i].migInstance == FoldSamples(out)[k].migInst;
    SampleStamped(seen, c, |c.probes|, out[i]);
  }

  lemma {:induction false} PeakShown(seen: map<U32, U64>, c: Call, k: Key, f: Field)
    requires WellFormed(c) && Walks(seen, c) && k.pid != 0 && Seen(seen, c, k) && Utilization(f)
    ensures k in FoldSamples(VisitAll(seen, c).out)
    ensures WindowPeak(seen, c, k, f, Shown(DetailOf(k, FoldSamples(VisitAll(seen, c).out)[k]), f))
  {
    var out, window := VisitAll(seen, c).out, WindowOf(seen, c, k.dev);
    KeyAppears(seen, c, k);
    AggregationLaws.DetailIsWindowMax(out, k, f);
    var v := Shown(DetailOf(k, FoldSamples(out)[k]), f);
    WindowSays(seen, c, k.dev);
    forall e | e in window && e.pid == k.pid ensures EventValue(e, f) <= v {
      EventSurfaces(seen, c, k.dev, e);
      var used: U64 :| BusySample(e, k.dev, c.stamp, used) in Segment(seen, c, k.dev);
      var s := BusySample(e, k.dev, c.stamp, used);
      InSweep(seen, c, s);
      assert KeyOf(s) == k && Value(s, f) == EventValue(e, f);
    }
    var s :| s in out && KeyOf(s) == k && Value(s, f) == v;
    InSweep(seen, c, s);
    SegmentOrigin(seen, c, k, s);
  }

  /** A call's samples come device by device. */
  lemma {:induction false} DevicesInOrder(seen: map<U32, U64>, c: Call, n: nat)
    requires WellFormed(c) && n <= |c.probes|
    ensures forall s :: s in VisitFirst(seen, c, n).out ==> s.device < n
    ensures forall i, j :: 0 <= i < j < |VisitFirst(seen, c, n).out| ==>
              VisitFirst(seen, c, n).out[i].device <= VisitFirst(seen, c, n).out[j].device
  {
    if n > 0 {
      DevicesInOrder(seen, c, n - 1);
      SweepShaped(seen, c, n - 1);
      VisitAdds(seen, c, n - 1);
    }
  }

  /** Every sample of a call carries the call's stamp and no MIG instance. */
  lemma {:induction false} SampleStamped(seen: map<U32, U64>, c: Call, n: nat, s: ProcessSample)
    requires WellFormed(c) && n <= |c.probes| && s in VisitFirst(seen, c, n).out
    ensures s.timestampNs == c.stamp && s.migInstance == 0
  {
    if n > 0 {
      var before, d := VisitFirst(seen, c, n - 1), n - 1;
      if s in before.out {
        SampleStamped(seen, c, n - 1, s);
      } else {
        var m := MergeDevice(before, d, c.probes[d], c.lastSeen, c.stamp);
        MergeStamped(Listed(before.mem, d, c.probes[d]), d, c.stamp, Window(before, d, c.probes[d], c.lastSeen));
        IdleStamped(m.mem, d, c.stamp, c.orders[d]);
      }
    }
  }

  lemma {:induction false} MergeStamped(mem: map<Key, U64>, dev: U32, stamp: U64, events: seq<Event>)
    ensures forall s :: s in Merge(mem, dev, stamp, events).out ==> s.timestampNs == stamp && s.migInstance == 0
  {
    if events != [] {
      MergeStamped(mem, dev, stamp, events[..|events| - 1]);
    }
  }

  lemma {:induction false} IdleStamped(mem: map<Key, U64>, dev: U32, stamp: U64, order: seq<Key>)
    ensures forall s :: s in Idle(mem, dev, stamp, order) ==> s.timestampNs == stamp && s.migInstance == 0
  {
    if order != [] {
      IdleStamped(mem, dev, stamp, order[..|order| - 1]);
    }
  }

  /** The listing holds each pid's last listed value. */
  lemma {:induction false} LastListingWins(dev: U32, procs: seq<Proc>, k: Key)
    ensures k in Listing(map[], dev, procs) <==> k.dev == dev && exists i :: 0 <= i < |procs| && procs[i].pid == k.pid
    ensures k in Listing(map[], dev, procs) ==>
              exists i :: 0 <= i < |procs| && procs[i] == Proc(k.pid, Listing(map[], dev, procs)[k])
                          && forall j :: i < j < |procs| ==> procs[j].pid != k.pid
  {
    if procs != [] {
      var prev, p := procs[..|procs| - 1], procs[|procs| - 1];
      assert procs == prev + [p];
      LastListingWins(dev, prev, k);
      if k == Key(p.pid, dev) {
        assert procs[|procs| - 1].pid == k.pid;
      } else if k in Listing(map[], dev, prev) {
        var i :| 0 <= i < |prev| && prev[i] == Proc(k.pid, Listing(map[], dev, prev)[k])
                 && forall j :: i < j < |prev| ==> prev[j].pid != k.pid;
        assert procs[i] == prev[i];
      }
    }
  }

  /** s is of the process of the recorded sample e and has its utilizations. */
  ghost predicate ShowsEvent(s: ProcessSample, e: Event) {
    && s.pid == e.pid && s.smUtil == e.smUtil && s.memUtil == e.memUtil
    && s.encUtil == e.encUtil && s.decUtil == e.decUtil
  }

  /** s is how sample j of a device's contribution comes out. */
  ghost predicate EmittedAt(window: seq<Event>, d: U32, stamp: U64, j: nat, s: ProcessSample) {
    && s.device == d && s.timestampNs == stamp && s.migInstance == 0
    && if j < |window| then ShowsEvent(s, window[j])
       else s.smUtil == s.memUtil == s.encUtil == s.decUtil == 0
  }

  /** A device's samples are its utilization window, one sample per recorded one and in order,
      followed by memory-only samples. */
  lemma {:induction false} WindowEmitted(seen: map<U32, U64>, c: Call, d: U32)
    requires WellFormed(c) && Walks(seen, c) && d < |c.probes| && !c.probes[d].answer.HardError?
    ensures |WindowOf(seen, c, d)| <= |OfDevice(VisitAll(seen, c).out, d)|
    ensures forall j: nat :: j < |OfDevice(VisitAll(seen, c).out, d)| ==>
              EmittedAt(WindowOf(seen, c, d), d, c.stamp, j, OfDevice(VisitAll(seen, c).out, d)[j])
  {
    SweepShaped(seen, c, |c.probes|);
    WalkCovers(seen, c, d);
    SegmentEmitted(ListingOf(c, d), WindowOf(seen, c, d), d, c.stamp, c.orders[d]);
  }

  lemma {:induction false} SegmentEmitted(listing: map<Key, U64>, window: seq<Event>, d: U32, stamp: U64,
                                          order: seq<Key>)
    requires Distinct(order)
    ensures var m := Merge(listing, d, stamp, window); var all := m.out + Idle(m.mem, d, stamp, order);
            |window| <= |all| && forall j: nat :: j < |all| ==> EmittedAt(window, d, stamp, j, all[j])
  {
    var m := Merge(listing, d, stamp, window);
    var idle := Idle(m.mem, d, stamp, order);
    var all := m.out + idle;
    MergePoints(listing, d, stamp, window);
    IdlePoints(m.mem, d, stamp, order);
    IdleLocal(m.mem, d, stamp, order);
    forall j: nat | j < |all| ensures EmittedAt(window, d, stamp, j, all[j]) {
      if j < |window| {
        assert all[j] == m.out[j];
      } else {
        assert all[j] == idle[j - |window|];
        assert all[j] in idle;
      }
    }
  }
}
