/** One poller tick over the mock backend's samples. */
module MockTick {
  import opened Telemetry
  import opened Aggregation
  import opened AggregationLaws
  import opened MockBackend

  ghost predicate DistinctPids(samples: seq<ProcessSample>) {
    forall i, j :: 0 <= i < j < |samples| ==> samples[i].pid != samples[j].pid
  }

  /** s is its pid's only sample. */
  ghost predicate Sole(samples: seq<ProcessSample>, s: ProcessSample) {
    s in samples && s.pid != 0 && forall t :: t in samples && t.pid == s.pid ==> t == s
  }

  /** A pid with a single sample is published as that sample. */
  lemma {:induction false} SoleSample(samples: seq<ProcessSample>, order: seq<Key>, s: ProcessSample)
    requires Sole(samples, s)
    requires Enumerates(order, FoldSamples(samples).Keys)
    ensures s.pid in Published(FoldSamples(samples), order)
    ensures Published(FoldSamples(samples), order)[s.pid]
         == Aggregate(s.timestampNs, s.usedGpuMemory, s.smUtil, s.memUtil, LowByte(s.device), 1)
  {
    Refinement(samples, order, s.pid);
    var a := Published(FoldSamples(samples), order)[s.pid];
    SoleRecordPeaks(a, samples, s);
    SoleRecordMemory(a, samples, s);
    SoleRecordCount(a, samples, s);
  }

  lemma SoleRecordPeaks(a: Aggregate, samples: seq<ProcessSample>, s: ProcessSample)
    requires Sole(samples, s) && IsDirectAggregate(a, samples, s.pid)
    ensures a.timestampNs == s.timestampNs && a.smMax == s.smUtil && a.memMax == s.memUtil
  {
    SolePeak(samples, s, Ts, a.timestampNs);
    SolePeak(samples, s, Sm, a.smMax);
    SolePeak(samples, s, Mem, a.memMax);
  }

  lemma SoleRecordMemory(a: Aggregate, samples: seq<ProcessSample>, s: ProcessSample)
    requires Sole(samples, s) && IsDirectAggregate(a, samples, s.pid)
    ensures a.usedTotal == s.usedGpuMemory
  {
    SoleKey(samples, s);
    SoleMemory(a, samples, s);
  }

  lemma SoleRecordCount(a: Aggregate, samples: seq<ProcessSample>, s: ProcessSample)
    requires Sole(samples, s) && IsDirectAggregate(a, samples, s.pid)
    ensures a.deviceCount == 1 && a.primary == LowByte(s.device)
  {
    SoleKey(samples, s);
    SoleCount(a, KeyOf(s));
  }

  lemma SoleCount(a: Aggregate, k: Key)
    requires CountsDevices(a, LowBytes({k}))
    ensures a.deviceCount == 1 && a.primary == LowByte(k.dev)
  {
    assert LowBytes({k}) == {LowByte(k.dev)};
  }

  lemma SolePeak(samples: seq<ProcessSample>, s: ProcessSample, f: Field, v: nat)
    requires Sole(samples, s) && PidWindowMax(samples, s.pid, f, v)
    ensures v == Value(s, f)
  {
  }

  lemma {:induction false} SoleKey(samples: seq<ProcessSample>, s: ProcessSample)
    requires Sole(samples, s)
    ensures PidKeys(KeysIn(samples), s.pid) == {KeyOf(s)}
  {
    assert KeyOf(s) in KeysIn(samples);
  }

  lemma {:induction false} SoleMemory(a: Aggregate, samples: seq<ProcessSample>, s: ProcessSample)
    requires Sole(samples, s) && PidKeys(KeysIn(samples), s.pid) == {KeyOf(s)}
    requires exists peak: map<Key, U64> :: PeakMemory(samples, s.pid, peak) && a.usedTotal == Total(peak) % TWO_64
    ensures a.usedTotal == s.usedGpuMemory
  {
    var peak: map<Key, U64> :| PeakMemory(samples, s.pid, peak) && a.usedTotal == Total(peak) % TWO_64;
    var k := KeyOf(s);
    assert peak.Keys == {k};
    PeakOfSole(samples, s, peak[k]);
    SingleTotal(peak, k);
  }

  lemma PeakOfSole(samples: seq<ProcessSample>, s: ProcessSample, v: nat)
    requires Sole(samples, s) && WindowMax(samples, KeyOf(s), Used, v)
    ensures v == s.usedGpuMemory
  {
  }

  lemma SingleTotal(m: map<Key, U64>, k: Key)
    requires m.Keys == {k}
    ensures Total(m) == m[k]
  {
    TotalSplit(m, k);
    assert m - {k} == map[];
  }

  // ---- how many pids ----

  ghost function PidSet(samples: seq<ProcessSample>): set<U32> {
    set s | s in samples && s.pid != 0 :: s.pid
  }

  lemma {:induction false} PublishedPids(samples: seq<ProcessSample>, order: seq<Key>)
    requires Enumerates(order, FoldSamples(samples).Keys)
    ensures Published(FoldSamples(samples), order).Keys == PidSet(samples)
  {
    forall pid: U32 ensures pid in Published(FoldSamples(samples), order) <==> pid in PidSet(samples) {
      Refinement(samples, order, pid);
    }
  }

  lemma {:induction false} PidSetSize(samples: seq<ProcessSample>)
    ensures |PidSet(samples)| <= |samples|
    ensures (exists s :: s in samples && s.pid == 0) ==> |PidSet(samples)| < |samples|
    ensures DistinctPids(samples) && (forall s :: s in samples ==> s.pid != 0) ==> |PidSet(samples)| == |samples|
  {
    if samples == [] {
      assert PidSet(samples) == {};
    } else {
      var prev, s := samples[..|samples| - 1], samples[|samples| - 1];
      assert samples == prev + [s];
      PidSetSize(prev);
      assert PidSet(samples) == if s.pid == 0 then PidSet(prev) else PidSet(prev) + {s.pid};
    }
  }

  lemma {:induction false} GridDistinct(first: U32, n: nat, p: nat, ts: U64, load: (nat, nat) -> Load)
    requires first >= 1 && first + n * p <= TWO_32
    ensures DistinctPids(Grid(first, n, p, ts, load))
    ensures forall s :: s in Grid(first, n, p, ts, load) ==> s.pid != 0
  {
    var grid := Grid(first, n, p, ts, load);
    GridPids(first, n, p, ts, load);
    forall m: nat | m < |grid| ensures grid[m].pid == first + m {
    }
  }

  lemma {:induction false} GridWraps(first: U32, n: nat, p: nat, ts: U64, load: (nat, nat) -> Load)
    requires first >= 1 && n * p > 0 && first + n * p > TWO_32
    ensures exists s :: s in Grid(first, n, p, ts, load) && s.pid == 0
  {
    var grid, m := Grid(first, n, p, ts, load), TWO_32 - first;
    GridPids(first, n, p, ts, load);
    assert grid[m].pid == (first + m) % TWO_32 == 0;
    assert grid[m] in grid;
  }

  /** A tick over n devices and p processes each publishes exactly n * p pids, if and only if
      the pid range stays within 32 bits. */
  lemma {:induction false} MockPidCountIff(first: U32, n: nat, p: nat, ts: U64, load: (nat, nat) -> Load,
                                           order: seq<Key>)
    requires first >= 1
    requires Enumerates(order, FoldSamples(Grid(first, n, p, ts, load)).Keys)
    ensures |Published(FoldSamples(Grid(first, n, p, ts, load)), order).Keys| == n * p
       <==> n * p == 0 || first + n * p <= 0x1_0000_0000
  {
    var grid := Grid(first, n, p, ts, load);
    GridPids(first, n, p, ts, load);
    PublishedPids(grid, order);
    PidSetSize(grid);
    if first + n * p <= TWO_32 {
      GridDistinct(first, n, p, ts, load);
    } else if n * p > 0 {
      GridWraps(first, n, p, ts, load);
    }
  }

  lemma CellBounds(first: U32, base: nat, n: nat, p: nat, i: nat, j: nat)
    requires first + n * p <= TWO_32 && i < n && j < p && base == first + i * p
    ensures base + j < TWO_32 && p <= TWO_32
  {
    CellInGrid(i, j, n, p);
    assert p <= n * p;
  }

  /** Process j of device i, whose pids start at base: one device, device i, and 256 MiB plus j
      times 128 MiB. */
  lemma {:induction false} MockTickRecord(first: U32, base: nat, n: nat, p: nat, ts: U64, load: (nat, nat) -> Load,
                                          order: seq<Key>, i: nat, j: nat)
    requires first >= 1 && first + n * p <= 0x1_0000_0000 && n <= 256 && i < n && j < p && base == first + i * p
    requires Enumerates(order, FoldSamples(Grid(first, n, p, ts, load)).Keys)
    ensures base + j < TWO_32 && base + j in Published(FoldSamples(Grid(first, n, p, ts, load)), order)
    ensures Published(FoldSamples(Grid(first, n, p, ts, load)), order)[base + j]
         == Aggregate(ts, 268435456 + j * 134217728, load(i, j).sm, load(i, j).mem, i, 1)
  {
    CellBounds(first, base, n, p, i, j);
    GridDistinct(first, n, p, ts, load);
    GridCell(first, base, n, p, ts, load, i, j);
    var s := MockSample(base + j, i, j, ts, load);
    MockSampleFits(base + j, i, j, ts, load);
    SoleSample(Grid(first, n, p, ts, load), order, s);
  }

  /** Nothing wraps in a cell of the grid. */
  lemma MockSampleFits(pid: nat, i: nat, j: nat, ts: U64, load: (nat, nat) -> Load)
    requires 0 < pid < TWO_32 && i < 256 && j < TWO_32
    ensures MockSample(pid, i, j, ts, load)
         == ProcessSample(pid, i, ts, 268435456 + j * 134217728, load(i, j).sm, load(i, j).mem, 0, 0, 0)
    ensures LowByte(i) == i
  {
  }
}
