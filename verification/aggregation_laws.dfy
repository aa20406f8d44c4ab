/** The two-stage fold computes the declarative record, in every walking order. */
module AggregationLaws {
  import opened Telemetry
  import opened Aggregation

  // ---- stage 1 ----

  ghost predicate IsWindow(samples: seq<ProcessSample>, k: Key, a: DevFold) {
    && (forall f :: WindowMax(samples, k, f, Shown(DetailOf(k, a), f)))
    && FirstMig(samples, k, a.migInst)
  }

  lemma {:induction false} WindowSnoc(samples: seq<ProcessSample>, s: ProcessSample, k: Key, a: DevFold)
    requires IsWindow(samples, k, a)
    ensures KeyOf(s) != k ==> IsWindow(samples + [s], k, a)
    ensures KeyOf(s) == k ==> IsWindow(samples + [s], k, Absorb(a, s))
  {
    var all := samples + [s];
    var b := if KeyOf(s) == k then Absorb(a, s) else a;
    forall f ensures WindowMax(all, k, f, Shown(DetailOf(k, b), f)) {
      var w :| w in samples && KeyOf(w) == k && Value(w, f) == Shown(DetailOf(k, a), f);
      assert w in all && s in all;
    }
    var i :| 0 <= i < |samples| && KeyOf(samples[i]) == k && samples[i].migInstance == a.migInst
             && forall j :: 0 <= j < i ==> KeyOf(samples[j]) != k;
    assert all[i] == samples[i];
  }

  lemma {:induction false} WindowStart(samples: seq<ProcessSample>, s: ProcessSample)
    requires forall i :: 0 <= i < |samples| ==> KeyOf(samples[i]) != KeyOf(s)
    ensures IsWindow(samples + [s], KeyOf(s), Absorb(FreshDev(s), s))
  {
    var all := samples + [s];
    assert all[|samples|] == s;
    forall f ensures WindowMax(all, KeyOf(s), f, Shown(DetailOf(KeyOf(s), Absorb(FreshDev(s), s)), f)) {
      assert s in all;
    }
  }

  lemma KeysInSnoc(samples: seq<ProcessSample>, s: ProcessSample)
    ensures KeysIn(samples + [s]) == if s.pid == 0 then KeysIn(samples) else KeysIn(samples) + {KeyOf(s)}
  {
    assert forall t :: t in samples + [s] <==> t in samples || t == s;
  }

  /** Stage 1 holds one record per non-zero (pid, device) seen, each field the window maximum. */
  lemma {:induction false} FoldMeaning(samples: seq<ProcessSample>)
    ensures FoldSamples(samples).Keys == KeysIn(samples)
    ensures forall k :: k in FoldSamples(samples) ==> k.pid != 0 && IsWindow(samples, k, FoldSamples(samples)[k])
  {
    if samples != [] {
      var prev, s := samples[..|samples| - 1], samples[|samples| - 1];
      assert samples == prev + [s];
      FoldMeaning(prev);
      KeysInSnoc(prev, s);
      var before, after := FoldSamples(prev), FoldSamples(samples);
      forall k | k in after ensures IsWindow(samples, k, after[k]) {
        if k in before {
          WindowSnoc(prev, s, k, before[k]);
        } else {
          assert forall i :: 0 <= i < |prev| && KeyOf(prev[i]) == k ==> prev[i] in prev;
          WindowStart(prev, s);
        }
      }
    }
  }

  /** Each detail record is the direct record of its key. */
  lemma {:induction false} DetailMeaning(samples: seq<ProcessSample>, k: Key)
    requires k in FoldSamples(samples)
    ensures IsDirectDetail(Details(FoldSamples(samples))[k], samples, k)
  {
    FoldMeaning(samples);
    assert IsWindow(samples, k, FoldSamples(samples)[k]);
  }

  ghost predicate SameAttributed(a: seq<ProcessSample>, b: seq<ProcessSample>) {
    forall s: ProcessSample :: s.pid != 0 ==> (s in a <==> s in b)
  }

  ghost predicate MigAgrees(samples: seq<ProcessSample>) {
    forall s, t :: s in samples && t in samples && s.pid != 0 && KeyOf(s) == KeyOf(t) ==> s.migInstance == t.migInstance
  }

  /** Permuting, duplicating, or adding pid-0 samples changes nothing, exactly when samples
      of one key agree on MigInstance. */
  lemma {:induction false} NoiseInvarianceIff(a: seq<ProcessSample>)
    ensures MigAgrees(a) <==> forall b :: SameAttributed(a, b) ==> FoldSamples(b) == FoldSamples(a)
  {
    if MigAgrees(a) {
      forall b | SameAttributed(a, b) ensures FoldSamples(b) == FoldSamples(a) {
        NoiseInvariance(a, b);
      }
    } else {
      var s, t :| s in a && t in a && s.pid != 0 && KeyOf(s) == KeyOf(t) && s.migInstance != t.migInstance;
      HeadDecidesMig(a, s);
      HeadDecidesMig(a, t);
      assert SameAttributed(a, [s] + a) && SameAttributed(a, [t] + a);
    }
  }

  lemma {:induction false} HeadDecidesMig(a: seq<ProcessSample>, s: ProcessSample)
    requires s.pid != 0
    ensures KeyOf(s) in FoldSamples([s] + a)
    ensures FoldSamples([s] + a)[KeyOf(s)].migInst == s.migInstance
  {
    var b := [s] + a;
    FoldMeaning(b);
    assert b[0] == s;
    assert s in b && KeyOf(s) in KeysIn(b);
  }

  lemma {:induction false} NoiseInvariance(a: seq<ProcessSample>, b: seq<ProcessSample>)
    requires SameAttributed(a, b) && MigAgrees(a)
    ensures FoldSamples(a) == FoldSamples(b)
  {
    FoldMeaning(a);
    FoldMeaning(b);
    assert KeysIn(a) == KeysIn(b);
    forall k | k in FoldSamples(a) ensures FoldSamples(a)[k] == FoldSamples(b)[k] {
      WindowUnique(a, b, k, FoldSamples(a)[k], FoldSamples(b)[k]);
    }
  }

  lemma {:induction false} WindowUnique(a: seq<ProcessSample>, b: seq<ProcessSample>, k: Key, x: DevFold, y: DevFold)
    requires SameAttributed(a, b) && MigAgrees(a) && k.pid != 0
    requires IsWindow(a, k, x) && IsWindow(b, k, y)
    ensures x == y
  {
    FieldUnique(a, b, k, x, y, Ts);
    FieldUnique(a, b, k, x, y, Used);
    FieldUnique(a, b, k, x, y, Sm);
    FieldUnique(a, b, k, x, y, Mem);
    FieldUnique(a, b, k, x, y, Enc);
    FieldUnique(a, b, k, x, y, Dec);
    var i :| 0 <= i < |a| && KeyOf(a[i]) == k && a[i].migInstance == x.migInst;
    var j :| 0 <= j < |b| && KeyOf(b[j]) == k && b[j].migInstance == y.migInst;
    assert a[i] in a && b[j] in b;
  }

  lemma {:induction false} FieldUnique(a: seq<ProcessSample>, b: seq<ProcessSample>, k: Key, x: DevFold, y: DevFold,
                                       f: Field)
    requires SameAttributed(a, b) && k.pid != 0
    requires IsWindow(a, k, x) && IsWindow(b, k, y)
    ensures Shown(DetailOf(k, x), f) == Shown(DetailOf(k, y), f)
  {
    var v, w := Shown(DetailOf(k, x), f), Shown(DetailOf(k, y), f);
    assert WindowMax(a, k, f, v) && WindowMax(b, k, f, w);
    var s :| s in a && KeyOf(s) == k && Value(s, f) == v;
    var t :| t in b && KeyOf(t) == k && Value(t, f) == w;
    assert s in b && t in a;
  }

  // ---- stage 2 ----

  ghost function SetOf<T>(order: seq<T>): set<T> {
    set k | k in order
  }

  ghost predicate Summarises(b: PidFold, details: map<Key, PidMetrics>, keys: set<Key>)
    requires keys <= details.Keys
  {
    && PeakOver(details, keys, Ts, b.ts)
    && PeakOver(details, keys, Sm, b.smMax)
    && PeakOver(details, keys, Mem, b.memMax)
    && b.usedTotal == Total(UsedMap(details, keys)) % TWO_64
    && b.devSet == LowBytes(keys)
    && b.firstDev in b.devSet
  }

  lemma {:induction false} JoinSummarises(b: PidFold, folds: map<Key, DevFold>, keys: set<Key>, k: Key)
    requires keys <= folds.Keys && k in folds && k !in keys
    requires Summarises(b, Details(folds), keys)
    ensures Summarises(Join(b, k, folds[k]), Details(folds), keys + {k})
  {
    var details, all, joined := Details(folds), keys + {k}, Join(b, k, folds[k]);
    PeakSnoc(details, keys, k, Ts, b.ts);
    PeakSnoc(details, keys, k, Sm, b.smMax);
    PeakSnoc(details, keys, k, Mem, b.memMax);
    UsedSnoc(details, keys, k);
    assert LowBytes(all) == LowBytes(keys) + {LowByte(k.dev)};
  }

  lemma {:induction false} PeakSnoc(details: map<Key, PidMetrics>, keys: set<Key>, k: Key, f: Field, v: nat)
    requires keys <= details.Keys && k in details
    requires PeakOver(details, keys, f, v)
    ensures PeakOver(details, keys + {k}, f, Max(v, Shown(details[k], f)))
  {
    var w :| w in keys && Shown(details[w], f) == v;
    assert w in keys + {k} && k in keys + {k};
  }

  lemma {:induction false} UsedSnoc(details: map<Key, PidMetrics>, keys: set<Key>, k: Key)
    requires keys <= details.Keys && k in details && k !in keys
    ensures (Total(UsedMap(details, keys)) % TWO_64 + details[k].usedGpuMemory) % TWO_64
         == Total(UsedMap(details, keys + {k})) % TWO_64
  {
    var m := UsedMap(details, keys);
    TotalAdd(m, k, details[k].usedGpuMemory);
    assert UsedMap(details, keys + {k}) == m[k := details[k].usedGpuMemory];
  }

  lemma {:induction false} FreshSummarises(folds: map<Key, DevFold>, k: Key)
    requires k in folds
    ensures Summarises(Join(FreshPid(k, folds[k]), k, folds[k]), Details(folds), {k})
  {
    var details := Details(folds);
    assert k in {k};
    assert UsedMap(details, {}) == map[];
    UsedSnoc(details, {}, k);
    assert {} + {k} == {k};
  }

  /** A partial grouping: a record for pid iff `keys` has one, summarising that pid's details. */
  ghost predicate GroupsAt(g: map<U32, PidFold>, details: map<Key, PidMetrics>, keys: set<Key>, pid: U32)
    requires keys <= details.Keys
  {
    && (pid in g <==> PidKeys(keys, pid) != {})
    && (pid in g ==> Summarises(g[pid], details, PidKeys(keys, pid)))
  }

  lemma {:induction false} GroupSnoc(g: map<U32, PidFold>, folds: map<Key, DevFold>, keys: set<Key>, k: Key, pid: U32)
    requires keys <= folds.Keys && k in folds && k !in keys
    requires GroupsAt(g, Details(folds), keys, pid)
    ensures GroupsAt(GroupOne(g, k, folds[k]), Details(folds), keys + {k}, pid)
  {
    var was := PidKeys(keys, pid);
    if pid != k.pid {
      assert PidKeys(keys + {k}, pid) == was;
    } else {
      assert PidKeys(keys + {k}, pid) == was + {k};
      if pid in g {
        JoinSummarises(g[pid], folds, was, k);
      } else {
        assert was + {k} == {k};
        FreshSummarises(folds, k);
      }
    }
  }

  /** Whatever the order, stage 2 holds one record per pid, summarising all that pid's details. */
  lemma {:induction false} GroupMeaning(folds: map<Key, DevFold>, order: seq<Key>, pid: U32)
    requires Distinct(order) && forall k :: k in order ==> k in folds
    ensures GroupsAt(Group(folds, order), Details(folds), SetOf(order), pid)
  {
    if order != [] {
      var prev, k := order[..|order| - 1], order[|order| - 1];
      assert order == prev + [k];
      GroupMeaning(folds, prev, pid);
      GroupSnoc(Group(folds, prev), folds, SetOf(prev), k, pid);
      assert SetOf(order) == SetOf(prev) + {k};
    }
  }

  lemma {:induction false} LowBytesSize(keys: set<Key>)
    ensures |LowBytes(keys)| <= 256
    ensures keys != {} ==> LowBytes(keys) != {}
    ensures |LowBytes(keys)| <= |keys|
  {
    var low := LowBytes(keys);
    var wide: set<int> := set x | x in low;
    SameElements(low, wide);
    BelowSize(256, wide);
    if keys != {} {
      var k :| k in keys;
      assert LowByte(k.dev) in low;
    }
    ImageSize(keys);
  }

  lemma {:induction false} SameElements(low: set<U8>, wide: set<int>)
    requires forall x :: x in low <==> x in wide
    ensures |low| == |wide|
    decreases |low|
  {
    if low == {} {
      assert wide == {} by {
        assert forall x :: x !in wide;
      }
    } else {
      var x :| x in low;
      SameElements(low - {x}, wide - {x});
    }
  }

  lemma {:induction false} ImageSize(keys: set<Key>)
    ensures |LowBytes(keys)| <= |keys|
    decreases |keys|
  {
    if keys == {} {
      assert LowBytes(keys) == {};
    } else {
      var k :| k in keys;
      ImageSize(keys - {k});
      assert LowBytes(keys) <= LowBytes(keys - {k}) + {LowByte(k.dev)};
      SubsetSize(LowBytes(keys), LowBytes(keys - {k}) + {LowByte(k.dev)});
    }
  }

  lemma {:induction false} FinishMeaning(b: PidFold, details: map<Key, PidMetrics>, keys: set<Key>)
    requires keys <= details.Keys && keys != {}
    requires Summarises(b, details, keys)
    ensures IsAggregate(Finish(b), details, keys)
  {
    LowBytesSize(keys);
    SubsetSize({b.firstDev}, b.devSet);
  }

  /** Each published record is the aggregate of that pid's published details. */
  lemma {:induction false} PublishedMeaning(folds: map<Key, DevFold>, order: seq<Key>, pid: U32)
    requires Enumerates(order, folds.Keys)
    ensures pid in Published(folds, order) <==> PidKeys(folds.Keys, pid) != {}
    ensures pid in Published(folds, order) ==>
              IsAggregate(Published(folds, order)[pid], Details(folds), PidKeys(folds.Keys, pid))
  {
    GroupMeaning(folds, order, pid);
    assert SetOf(order) == folds.Keys;
    var g := Group(folds, order);
    if pid in g {
      FinishMeaning(g[pid], Details(folds), PidKeys(folds.Keys, pid));
    }
  }

  // ---- both stages together ----

  lemma {:induction false} DetailIsWindowMax(samples: seq<ProcessSample>, k: Key, f: Field)
    requires k in KeysIn(samples)
    ensures k in FoldSamples(samples)
    ensures WindowMax(samples, k, f, Shown(DetailOf(k, FoldSamples(samples)[k]), f))
  {
    FoldMeaning(samples);
  }

  lemma {:induction false} PeakIsWindowMax(samples: seq<ProcessSample>, pid: U32, f: Field, v: nat)
    requires pid != 0 && FoldSamples(samples).Keys == KeysIn(samples)
    requires PeakOver(Details(FoldSamples(samples)), PidKeys(KeysIn(samples), pid), f, v)
    ensures PidWindowMax(samples, pid, f, v)
  {
    var details := Details(FoldSamples(samples));
    forall s | s in samples && s.pid == pid ensures Value(s, f) <= v {
      assert KeyOf(s) in PidKeys(KeysIn(samples), pid);
      DetailIsWindowMax(samples, KeyOf(s), f);
    }
    var k :| k in PidKeys(KeysIn(samples), pid) && Shown(details[k], f) == v;
    DetailIsWindowMax(samples, k, f);
    var s :| s in samples && KeyOf(s) == k && Value(s, f) == v;
    assert s.pid == pid;
  }

  lemma {:induction false} UsedIsPeakMemory(samples: seq<ProcessSample>, pid: U32)
    requires pid != 0 && FoldSamples(samples).Keys == KeysIn(samples)
    ensures PeakMemory(samples, pid, UsedMap(Details(FoldSamples(samples)), PidKeys(KeysIn(samples), pid)))
  {
    var peak := UsedMap(Details(FoldSamples(samples)), PidKeys(KeysIn(samples), pid));
    forall k | k in peak ensures WindowMax(samples, k, Used, peak[k]) {
      DetailIsWindowMax(samples, k, Used);
    }
  }

  /** The two-stage fold publishes, for exactly the non-zero pids seen, the direct record. */
  lemma {:induction false} Refinement(samples: seq<ProcessSample>, order: seq<Key>, pid: U32)
    requires Enumerates(order, FoldSamples(samples).Keys)
    ensures pid in Published(FoldSamples(samples), order) <==>
              pid != 0 && exists s :: s in samples && s.pid == pid
    ensures pid in Published(FoldSamples(samples), order) ==>
              IsDirectAggregate(Published(FoldSamples(samples), order)[pid], samples, pid)
  {
    var folds := FoldSamples(samples);
    assert folds.Keys == KeysIn(samples) by {
      FoldMeaning(samples);
    }
    PublishedMeaning(folds, order, pid);
    PidSeen(samples, pid);
    if pid in Published(folds, order) {
      DirectFromDetails(samples, Published(folds, order)[pid], pid);
    }
  }

  lemma {:induction false} PidSeen(samples: seq<ProcessSample>, pid: U32)
    ensures PidKeys(KeysIn(samples), pid) != {} <==> pid != 0 && exists s :: s in samples && s.pid == pid
  {
    if s :| s in samples && s.pid == pid && pid != 0 {
      assert KeyOf(s) in PidKeys(KeysIn(samples), pid);
    }
  }

  lemma {:induction false} DirectFromDetails(samples: seq<ProcessSample>, a: Aggregate, pid: U32)
    requires pid != 0 && FoldSamples(samples).Keys == KeysIn(samples)
    requires IsAggregate(a, Details(FoldSamples(samples)), PidKeys(KeysIn(samples), pid))
    ensures IsDirectAggregate(a, samples, pid)
  {
    PeakIsWindowMax(samples, pid, Ts, a.timestampNs);
    PeakIsWindowMax(samples, pid, Sm, a.smMax);
    PeakIsWindowMax(samples, pid, Mem, a.memMax);
    UsedIsPeakMemory(samples, pid);
  }

  /** Device numbers below 255: the count is exact and the sentinel means "several devices". */
  lemma {:induction false} SentinelSound(a: Aggregate, samples: seq<ProcessSample>, pid: U32)
    requires IsDirectAggregate(a, samples, pid) && pid != 0
    requires forall s :: s in samples && s.pid == pid ==> s.device < 255
    ensures a.deviceCount == |PidKeys(KeysIn(samples), pid)| >= 1
    ensures a.primary == 0xFF <==> a.deviceCount >= 2
    ensures a.deviceCount == 1 ==> PidKeys(KeysIn(samples), pid) == {Key(pid, a.primary)}
  {
    var keys := PidKeys(KeysIn(samples), pid);
    forall k | k in keys ensures k.pid == pid && k.dev < 255 {
      var s :| s in samples && KeyOf(s) == k;
    }
    assert keys != {} by {
      PidSeen(samples, pid);
    }
    CountIsExact(a, keys, pid);
  }

  lemma {:induction false} CountIsExact(a: Aggregate, keys: set<Key>, pid: U32)
    requires keys != {} && forall k :: k in keys ==> k.pid == pid && k.dev < 255
    requires CountsDevices(a, LowBytes(keys))
    ensures a.deviceCount == |keys| >= 1
    ensures a.primary == 0xFF <==> a.deviceCount >= 2
    ensures a.deviceCount == 1 ==> keys == {Key(pid, a.primary)}
  {
    ExactLowBytes(keys, pid);
    NarrowSize(LowBytes(keys));
    if |keys| == 1 {
      var k :| k in keys;
      SubsetSize({k}, keys);
      assert LowByte(k.dev) in LowBytes(keys);
    }
  }

  lemma {:induction false} NarrowSize(low: set<U8>)
    requires 255 !in low
    ensures |low| <= 255
  {
    var wide: set<int> := set x | x in low;
    SameElements(low, wide);
    BelowSize(255, wide);
  }

  lemma {:induction false} ExactLowBytes(keys: set<Key>, pid: U32)
    requires forall k :: k in keys ==> k.pid == pid && k.dev < 256
    ensures |LowBytes(keys)| == |keys|
    decreases |keys|
  {
    if keys == {} {
      assert LowBytes(keys) == {};
    } else {
      var k :| k in keys;
      ExactLowBytes(keys - {k}, pid);
      assert LowBytes(keys) == LowBytes(keys - {k}) + {k.dev};
      assert k.dev !in LowBytes(keys - {k});
    }
  }

  /** At most 16 devices holding less than 2^60 bytes each: the wrapping sum is the true sum. */
  lemma {:induction false} SumIsExact(a: Aggregate, samples: seq<ProcessSample>, pid: U32, peak: map<Key, U64>)
    requires IsDirectAggregate(a, samples, pid) && PeakMemory(samples, pid, peak)
    requires |peak| <= 16
    requires forall s :: s in samples && s.pid == pid ==> s.usedGpuMemory < 0x1000_0000_0000_0000
    ensures a.usedTotal == Total(peak)
  {
    var other: map<Key, U64> :| PeakMemory(samples, pid, other) && a.usedTotal == Total(other) % TWO_64;
    PeakMemoryUnique(samples, pid, peak, other);
    forall k | k in peak ensures peak[k] <= 0xFFF_FFFF_FFFF_FFFF {
      PeakValue(samples, k, peak[k], peak[k]);
    }
    TotalBound(peak, 0xFFF_FFFF_FFFF_FFFF);
    WithinWidth(|peak|, Total(peak));
  }

  lemma WithinWidth(n: nat, total: nat)
    requires n <= 16 && total <= n * 0xFFF_FFFF_FFFF_FFFF
    ensures total % TWO_64 == total
  {
  }

  lemma {:induction false} PeakMemoryUnique(samples: seq<ProcessSample>, pid: U32, p: map<Key, U64>, q: map<Key, U64>)
    requires PeakMemory(samples, pid, p) && PeakMemory(samples, pid, q)
    ensures p == q
  {
    assert p.Keys == q.Keys;
    forall k | k in p ensures p[k] == q[k] {
      PeakValue(samples, k, p[k], q[k]);
    }
  }

  lemma {:induction false} PeakValue(samples: seq<ProcessSample>, k: Key, v: nat, w: nat)
    requires WindowMax(samples, k, Used, v) && WindowMax(samples, k, Used, w)
    ensures v == w
    ensures exists s :: s in samples && s.pid == k.pid && s.usedGpuMemory == v
  {
    var s :| s in samples && KeyOf(s) == k && Value(s, Used) == v;
    var t :| t in samples && KeyOf(t) == k && Value(t, Used) == w;
  }

  // ---- iteration order ----

  lemma {:induction false} AggregateUnique(a: Aggregate, b: Aggregate, details: map<Key, PidMetrics>, keys: set<Key>)
    requires keys <= details.Keys && |LowBytes(keys)| != 256
    requires IsAggregate(a, details, keys) && IsAggregate(b, details, keys)
    ensures a == b
  {
    PeakUnique(details, keys, Ts, a.timestampNs, b.timestampNs);
    PeakUnique(details, keys, Sm, a.smMax, b.smMax);
    PeakUnique(details, keys, Mem, a.memMax, b.memMax);
    if |LowBytes(keys)| == 1 {
      assert a.primary in LowBytes(keys) && LowBytes(keys) == {b.primary};
    }
  }

  lemma PeakUnique(details: map<Key, PidMetrics>, keys: set<Key>, f: Field, v: nat, w: nat)
    requires keys <= details.Keys
    requires PeakOver(details, keys, f, v) && PeakOver(details, keys, f, w)
    ensures v == w
  {
    var x :| x in keys && Shown(details[x], f) == v;
    var y :| y in keys && Shown(details[y], f) == w;
  }

  lemma {:induction false} FirstDeviceWins(folds: map<Key, DevFold>, order: seq<Key>)
    requires order != [] && forall k :: k in order ==> k in folds
    ensures order[0].pid in Group(folds, order)
    ensures Group(folds, order)[order[0].pid].firstDev == LowByte(order[0].dev)
  {
    if |order| > 1 {
      var prev := order[..|order| - 1];
      assert prev[0] == order[0];
      FirstDeviceWins(folds, prev);
    } else {
      assert order[..0] == [];
    }
  }

  ghost function StartingWith(k: Key, keys: set<Key>): (order: seq<Key>)
    requires k in keys
    ensures order != [] && order[0] == k && Enumerates(order, keys)
  {
    [k] + SomeOrder(keys - {k})
  }

  /** Every walking order publishes the same record for a pid exactly when its devices do not
      cover all 256 low bytes. */
  lemma {:induction false} OrderIndependentIff(folds: map<Key, DevFold>, pid: U32)
    requires PidKeys(folds.Keys, pid) != {}
    ensures |LowBytes(PidKeys(folds.Keys, pid))| != 256 <==>
              forall o, p :: Enumerates(o, folds.Keys) && Enumerates(p, folds.Keys) ==>
                pid in Published(folds, o) && pid in Published(folds, p)
                && Published(folds, o)[pid] == Published(folds, p)[pid]
  {
    var keys := PidKeys(folds.Keys, pid);
    if |LowBytes(keys)| != 256 {
      forall o, p | Enumerates(o, folds.Keys) && Enumerates(p, folds.Keys)
        ensures pid in Published(folds, o) && pid in Published(folds, p)
        ensures Published(folds, o)[pid] == Published(folds, p)[pid]
      {
        PublishedMeaning(folds, o, pid);
        PublishedMeaning(folds, p, pid);
        AggregateUnique(Published(folds, o)[pid], Published(folds, p)[pid], Details(folds), keys);
      }
    } else {
      var k, l := TwoLowBytes(keys);
      var o, p := StartingWith(k, folds.Keys), StartingWith(l, folds.Keys);
      FirstDeviceShows(folds, o, pid);
      FirstDeviceShows(folds, p, pid);
      assert Published(folds, o)[pid] != Published(folds, p)[pid];
    }
  }

  lemma {:induction false} FirstDeviceShows(folds: map<Key, DevFold>, order: seq<Key>, pid: U32)
    requires Enumerates(order, folds.Keys) && order != [] && order[0].pid == pid
    requires |LowBytes(PidKeys(folds.Keys, pid))| == 256
    ensures pid in Published(folds, order)
    ensures Published(folds, order)[pid].primary == LowByte(order[0].dev)
  {
    GroupMeaning(folds, order, pid);
    FirstDeviceWins(folds, order);
    assert SetOf(order) == folds.Keys;
  }

  lemma {:induction false} TwoLowBytes(keys: set<Key>) returns (k: Key, l: Key)
    requires |LowBytes(keys)| > 1
    ensures k in keys && l in keys && LowByte(k.dev) != LowByte(l.dev)
  {
    var x :| x in LowBytes(keys);
    assert |LowBytes(keys) - {x}| > 0;
    var y :| y in LowBytes(keys) - {x};
    k :| k in keys && LowByte(k.dev) == x;
    l :| l in keys && LowByte(l.dev) == y;
  }
}
