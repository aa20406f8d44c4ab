/** The write plan of a tick, and what any reader of the maps may rely on, for every
    interleaving with evictions, failed updates and reads. */
module Publication {
  import opened Telemetry
  import opened Aggregation
  import opened PublishedStore
  import AggregationLaws

  /** What one tick that got past Devices() read and in which orders it walked its maps. */
  datatype Tick = Tick(
    devs: seq<DeviceSnapshot>, samples: seq<ProcessSample>,
    order: seq<Key>, pids: seq<U32>, metaStamp: U64, helper: U32)

  ghost predicate RealTick(r: Tick) {
    && Enumerates(r.order, FoldSamples(r.samples).Keys)
    && Enumerates(r.pids, Published(FoldSamples(r.samples), r.order).Keys)
  }

  ghost predicate RealTicks(rs: seq<Tick>) {
    forall r :: r in rs ==> RealTick(r)
  }

  function DetailMap(r: Tick): map<Key, PidMetrics> {
    Details(FoldSamples(r.samples))
  }

  ghost function PidMap(r: Tick): map<U32, Aggregate>
    requires RealTick(r)
  {
    Published(FoldSamples(r.samples), r.order)
  }

  function MetaOf(r: Tick): Meta {
    Meta(SCHEMA_VERSION, |r.devs| % TWO_32, r.metaStamp, r.helper)
  }

  function DeviceWrites(devs: seq<DeviceSnapshot>): seq<Write> {
    seq(|devs|, i requires 0 <= i < |devs| => DeviceWrite(devs[i].index, devs[i].metrics))
  }

  function DetailWrites(m: map<Key, PidMetrics>, order: seq<Key>): seq<Write>
    requires forall k :: k in order ==> k in m
  {
    seq(|order|, i requires 0 <= i < |order| => DetailWrite(order[i], m[order[i]]))
  }

  function PidWrites(m: map<U32, Aggregate>, pids: seq<U32>): seq<Write>
    requires forall p :: p in pids ==> p in m
  {
    seq(|pids|, i requires 0 <= i < |pids| => PidWrite(pids[i], m[pids[i]]))
  }

  /** Data first, meta last. */
  ghost function Plan(r: Tick): seq<Write>
    requires RealTick(r)
  {
    DeviceWrites(r.devs) + DetailWrites(DetailMap(r), r.order) + PidWrites(PidMap(r), r.pids) + [MetaWrite(MetaOf(r))]
  }

  ghost function PlanAll(rs: seq<Tick>): seq<Write>
    requires RealTicks(rs)
  {
    if rs == [] then [] else PlanAll(rs[..|rs| - 1]) + Plan(rs[|rs| - 1])
  }

  /** steps is what happened to the maps while the writer went through the plans of rs, as far
      as it has got. Evictions and deletes may come anywhere, any attempt may have failed. */
  ghost predicate Underway(steps: seq<Step>, rs: seq<Tick>) {
    RealTicks(rs) && Writes(steps) <= PlanAll(rs)
  }

  // ---- which tick a write belongs to ----

  function MetaCount(ws: seq<Write>): nat {
    if ws == [] then 0
    else MetaCount(ws[..|ws| - 1]) + if ws[|ws| - 1].MetaWrite? then 1 else 0
  }

  lemma {:induction false} TicksAreMetaCount(steps: seq<Step>)
    ensures Replay(steps).ticks == MetaCount(Writes(steps))
  {
    if steps != [] {
      var prev, step := steps[..|steps| - 1], steps[|steps| - 1];
      TicksAreMetaCount(prev);
      if step.Attempt? {
        assert Writes(steps)[..|Writes(steps)| - 1] == Writes(prev);
      }
    }
  }

  lemma {:induction false} NoMeta(ws: seq<Write>)
    requires forall w :: w in ws ==> !w.MetaWrite?
    ensures MetaCount(ws) == 0
  {
    if ws != [] {
      NoMeta(ws[..|ws| - 1]);
      assert ws[|ws| - 1] in ws;
    }
  }

  lemma {:induction false} MetaCountConcat(a: seq<Write>, b: seq<Write>)
    ensures MetaCount(a + b) == MetaCount(a) + MetaCount(b)
  {
    if b == [] {
      assert a + b == a;
    } else {
      assert (a + b)[..|a + b| - 1] == a + b[..|b| - 1];
      MetaCountConcat(a, b[..|b| - 1]);
    }
  }

  lemma PlanShape(r: Tick)
    requires RealTick(r)
    ensures Plan(r) != [] && Plan(r)[|Plan(r)| - 1] == MetaWrite(MetaOf(r))
    ensures forall i :: 0 <= i < |Plan(r)| - 1 ==> !Plan(r)[i].MetaWrite?
  {
  }

  lemma {:induction false} PlanPrefixCount(r: Tick, n: nat)
    requires RealTick(r) && n <= |Plan(r)|
    ensures MetaCount(Plan(r)[..n]) == if n < |Plan(r)| then 0 else 1
  {
    PlanShape(r);
    var m := if n < |Plan(r)| then n else n - 1;
    NoMeta(Plan(r)[..m]);
    if n == |Plan(r)| {
      assert Plan(r)[..n] == Plan(r)[..m] + [MetaWrite(MetaOf(r))];
      MetaCountConcat(Plan(r)[..m], [MetaWrite(MetaOf(r))]);
      assert [MetaWrite(MetaOf(r))][..0] == [];
    }
  }

  /** If the first w writes contain t metas, the next write belongs to tick t, and all ticks
      before t are done. */
  ghost predicate LocatedAt(rs: seq<Tick>, w: nat)
    requires RealTicks(rs) && w <= |PlanAll(rs)|
  {
    var t := MetaCount(PlanAll(rs)[..w]);
    && t <= |rs|
    && PlanAll(rs[..t]) <= PlanAll(rs)[..w]
    && (w < |PlanAll(rs)| ==> t < |rs| && PlanAll(rs)[w] in Plan(rs[t]))
  }

  lemma {:induction false} Located(rs: seq<Tick>, w: nat)
    requires RealTicks(rs) && w <= |PlanAll(rs)|
    ensures LocatedAt(rs, w)
  {
    if rs != [] {
      var prev := rs[..|rs| - 1];
      if w < |PlanAll(prev)| {
        Located(prev, w);
        LocatedBefore(rs, w);
      } else {
        LocatedInLast(rs, w);
      }
    }
  }

  lemma {:induction false} LocatedBefore(rs: seq<Tick>, w: nat)
    requires RealTicks(rs) && rs != [] && w < |PlanAll(rs[..|rs| - 1])|
    requires LocatedAt(rs[..|rs| - 1], w)
    ensures w <= |PlanAll(rs)| && LocatedAt(rs, w)
  {
    var prev := rs[..|rs| - 1];
    var before := PlanAll(prev);
    var t := MetaCount(before[..w]);
    assert PlanAll(rs)[..w] == before[..w];
    assert rs[..t] == prev[..t];
  }

  lemma {:induction false} LocatedInLast(rs: seq<Tick>, w: nat)
    requires RealTicks(rs) && rs != [] && |PlanAll(rs[..|rs| - 1])| <= w <= |PlanAll(rs)|
    ensures LocatedAt(rs, w)
  {
    var n := |rs| - 1;
    var before, own := PlanAll(rs[..n]), Plan(rs[n]);
    var m := w - |before|;
    assert PlanAll(rs)[..w] == before + own[..m];
    AllMetas(rs[..n]);
    MetaCountConcat(before, own[..m]);
    PlanPrefixCount(rs[n], m);
    if m == |own| {
      assert rs[..n + 1] == rs;
      assert PlanAll(rs)[..w] == PlanAll(rs);
    } else {
      assert PlanAll(rs)[w] == own[m];
    }
  }

  lemma {:induction false} AllMetas(rs: seq<Tick>)
    requires RealTicks(rs)
    ensures MetaCount(PlanAll(rs)) == |rs|
  {
    if rs != [] {
      var prev, r := rs[..|rs| - 1], rs[|rs| - 1];
      AllMetas(prev);
      MetaCountConcat(PlanAll(prev), Plan(r));
      PlanPrefixCount(r, |Plan(r)|);
      assert Plan(r)[..|Plan(r)|] == Plan(r);
    }
  }

  // ---- surviving entries ----

  /** Every entry is exactly what the tick it is stamped with computed for its key. */
  ghost predicate Faithful(s: Store, rs: seq<Tick>)
    requires RealTicks(rs)
  {
    && s.ticks <= |rs|
    && (s.meta.Some? ==> s.meta.value.tick < s.ticks && s.meta.value.value == MetaOf(rs[s.meta.value.tick]))
    && (forall pid :: pid in s.perPid ==> FaithfulPid(s, rs, pid))
    && (forall k :: k in s.detail ==> FaithfulDetail(s, rs, k))
  }

  ghost predicate FaithfulPid(s: Store, rs: seq<Tick>, pid: U32)
    requires RealTicks(rs) && pid in s.perPid
  {
    var e := s.perPid[pid];
    && e.tick <= s.ticks && e.tick < |rs|
    && pid in PidMap(rs[e.tick]) && e.value == PidMap(rs[e.tick])[pid]
  }

  ghost predicate FaithfulDetail(s: Store, rs: seq<Tick>, k: Key)
    requires RealTicks(rs) && k in s.detail
  {
    var e := s.detail[k];
    && e.tick <= s.ticks && e.tick < |rs|
    && k in DetailMap(rs[e.tick]) && e.value == DetailMap(rs[e.tick])[k]
  }

  lemma PlanContents(r: Tick, w: Write)
    requires RealTick(r) && w in Plan(r)
    ensures w.DetailWrite? ==> w.key in DetailMap(r) && w.detail == DetailMap(r)[w.key]
    ensures w.PidWrite? ==> w.pid in PidMap(r) && w.aggregate == PidMap(r)[w.pid]
    ensures w.MetaWrite? ==> w.meta == MetaOf(r)
    ensures w.DeviceWrite? ==> exists i :: 0 <= i < |r.devs| && r.devs[i] == DeviceSnapshot(w.idx, w.metrics)
  {
  }

  lemma {:induction false} EvictionFaithful(s: Store, rs: seq<Tick>, step: Step)
    requires RealTicks(rs) && Faithful(s, rs) && !step.Attempt?
    ensures Faithful(Apply(s, step), rs)
  {
    var t := Apply(s, step);
    forall pid | pid in t.perPid ensures FaithfulPid(t, rs, pid) {
      assert FaithfulPid(s, rs, pid);
    }
    forall k | k in t.detail ensures FaithfulDetail(t, rs, k) {
      assert FaithfulDetail(s, rs, k);
    }
  }

  lemma {:induction false} AttemptFaithful(s: Store, rs: seq<Tick>, w: Write, ok: bool)
    requires RealTicks(rs) && Faithful(s, rs) && s.ticks < |rs| && w in Plan(rs[s.ticks])
    ensures Faithful(Apply(s, Attempt(w, ok)), rs)
  {
    var t := Apply(s, Attempt(w, ok));
    PlanContents(rs[s.ticks], w);
    forall pid | pid in t.perPid ensures FaithfulPid(t, rs, pid) {
      assert pid in s.perPid ==> FaithfulPid(s, rs, pid);
    }
    forall k | k in t.detail ensures FaithfulDetail(t, rs, k) {
      assert k in s.detail ==> FaithfulDetail(s, rs, k);
    }
  }

  /** The next attempt belongs to the tick in progress. */
  lemma {:induction false} AttemptLocated(prev: seq<Step>, w: Write, ok: bool, rs: seq<Tick>)
    requires Underway(prev + [Attempt(w, ok)], rs)
    ensures Underway(prev, rs)
    ensures Replay(prev).ticks < |rs| && w in Plan(rs[Replay(prev).ticks])
  {
    ReplaySnoc(prev, Attempt(w, ok));
    TicksAreMetaCount(prev);
    assert PlanAll(rs)[..|Writes(prev)|] == Writes(prev) && PlanAll(rs)[|Writes(prev)|] == w;
    Located(rs, |Writes(prev)|);
  }

  /** Under arbitrary evictions and failed updates, at any moment. */
  lemma {:induction false} SurvivorsFaithful(steps: seq<Step>, rs: seq<Tick>)
    requires Underway(steps, rs)
    ensures Faithful(Replay(steps), rs)
  {
    if steps != [] {
      var prev, step := steps[..|steps| - 1], steps[|steps| - 1];
      assert steps == prev + [step];
      match step {
        case Attempt(w, ok) =>
          AttemptLocated(prev, w, ok, rs);
          SurvivorsFaithful(prev, rs);
          AttemptFaithful(Replay(prev), rs, w, ok);
        case Evict(_, _) =>
          SurvivorsFaithful(prev, rs);
          EvictionFaithful(Replay(prev), rs, step);
        case Delete(_, _) =>
          SurvivorsFaithful(prev, rs);
          EvictionFaithful(Replay(prev), rs, step);
      }
    }
  }

  /** A reader that finds a pid reads the direct record over the samples of one tick. */
  lemma {:induction false} ReaderGetsDirectRecord(steps: seq<Step>, rs: seq<Tick>, pid: U32)
    requires Underway(steps, rs) && pid in Replay(steps).perPid
    ensures pid != 0 && Replay(steps).perPid[pid].tick < |rs|
    ensures IsDirectAggregate(Replay(steps).perPid[pid].value, rs[Replay(steps).perPid[pid].tick].samples, pid)
  {
    SurvivorsFaithful(steps, rs);
    assert FaithfulPid(Replay(steps), rs, pid);
    PidRecordDirect(rs[Replay(steps).perPid[pid].tick], pid);
  }

  lemma {:induction false} PidRecordDirect(r: Tick, pid: U32)
    requires RealTick(r) && pid in PidMap(r)
    ensures pid != 0 && IsDirectAggregate(PidMap(r)[pid], r.samples, pid)
  {
    AggregationLaws.Refinement(r.samples, r.order, pid);
  }

  lemma {:induction false} DetailPidNonzero(r: Tick, k: Key)
    requires k in DetailMap(r)
    ensures k.pid != 0
  {
    AggregationLaws.FoldMeaning(r.samples);
  }

  lemma {:induction false} InSomePlan(rs: seq<Tick>, w: Write) returns (r: Tick)
    requires RealTicks(rs) && w in PlanAll(rs)
    ensures r in rs && w in Plan(r)
  {
    var prev := rs[..|rs| - 1];
    if w in PlanAll(prev) {
      r := InSomePlan(prev, w);
    } else {
      r := rs[|rs| - 1];
    }
  }

  ghost predicate NoPidZero(s: Store) {
    0 !in s.perPid && forall k :: k in s.detail ==> k.pid != 0
  }

  /** A run never puts pid 0 into either map: maps without it, whatever else they hold when the
      run starts, never get it. */
  lemma {:induction false} PidZeroNeverPublished(s: Store, steps: seq<Step>, rs: seq<Tick>)
    requires Underway(steps, rs) && NoPidZero(s)
    ensures NoPidZero(ReplayFrom(s, steps))
  {
    if steps != [] {
      var prev, step := steps[..|steps| - 1], steps[|steps| - 1];
      PidZeroNeverPublished(s, prev, rs);
      if step.Attempt? {
        assert PlanAll(rs)[|Writes(prev)|] == step.write;
        var r := InSomePlan(rs, step.write);
        PlanContents(r, step.write);
        if step.write.DetailWrite? {
          DetailPidNonzero(r, step.write.key);
        } else if step.write.PidWrite? {
          PidRecordDirect(r, step.write.pid);
        }
      }
    }
  }
}
