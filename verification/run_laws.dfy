/** What a run guarantees, from facts about its inputs, and how recorded samples reach the maps. */
module RunLaws {
  import opened Telemetry
  import opened Aggregation
  import opened Sampler
  import opened SamplerLaws
  import opened Watermarks
  import opened Publication
  import opened Delivery
  import opened DeliverySamples
  import opened PollerLoop
  import AggregationLaws
  import PublicationLaws
  import PublishedStore

  /** What device d had recorded when the last tick asked it. */
  function Recorded(inputs: seq<Input>, d: U32): seq<Event> {
    if inputs == [] || d >= |Last(inputs).probes| then [] else Last(inputs).probes[d].log
  }

  function StampBefore(inputs: seq<Input>): U64 {
    if inputs == [] then 0 else Last(inputs).stamp
  }

  /** Host and device d read one clock in one unit: stamps do not go back, and what d records
      between two ticks is timestamped after the earlier tick's stamp and samples. */
  predicate OneClock(inputs: seq<Input>, d: U32) {
    inputs == [] ||
    (&& OneClock(Prev(inputs), d)
     && StampBefore(Prev(inputs)) <= StampBefore(inputs)
     && forall x :: |Recorded(Prev(inputs), d)| <= x < |Recorded(inputs, d)| ==>
          && Recorded(inputs, d)[x].timeStamp > StampBefore(Prev(inputs))
          && LaterThan(Recorded(inputs, d)[x].timeStamp, Recorded(Prev(inputs), d)))
  }

  /** How the utilization call of device d ends in a tick. */
  predicate Ends(input: Input, d: U32, answer: Answer) {
    d < |input.probes| && input.probes[d].answer == answer
  }

  /** What d had recorded when it last did not fail hard. */
  function Heard(inputs: seq<Input>, d: U32): seq<Event> {
    if inputs == [] then []
    else if Ends(Last(inputs), d, HardError) then Heard(Prev(inputs), d)
    else Recorded(inputs, d)
  }

  /** Device d says "nothing here" only when it has recorded nothing since it last answered. */
  predicate Honest(inputs: seq<Input>, d: U32) {
    inputs == [] ||
    (Honest(Prev(inputs), d) && (Ends(Last(inputs), d, SoftError) ==> Recorded(inputs, d) == Heard(Prev(inputs), d)))
  }

  predicate NeverHard(inputs: seq<Input>, d: U32) {
    forall i :: 0 <= i < |inputs| ==> !Ends(inputs[i], d, HardError)
  }

  /** Stripping the last call and the last input. */
  lemma CallsBefore(calls: seq<Call>, live: seq<Input>, d: U32)
    requires CallsOf(calls, live) && calls != []
    ensures CallsOf(Prev(calls), Prev(live))
    ensures Last(calls).stamp == Last(live).stamp && Last(calls).probes == Last(live).probes
    ensures Log(calls, d) == Recorded(live, d)
  {
    assert calls[|calls| - 1] == Last(calls);
  }

  lemma {:induction false} ClockFromInputs(calls: seq<Call>, live: seq<Input>, n: nat, d: U32)
    requires RunOf(calls, n) && d < n && CallsOf(calls, live) && OneClock(live, d)
    ensures SharedClock(calls, n, d)
    ensures LastStamp(calls) == StampBefore(live) && Log(calls, d) == Recorded(live, d)
  {
    if calls != [] {
      CallsBefore(calls, live, d);
      ClockFromInputs(Prev(calls), Prev(live), n, d);
    }
  }

  lemma {:induction false} HonestyFromInputs(calls: seq<Call>, live: seq<Input>, n: nat, d: U32)
    requires RunOf(calls, n) && d < n && CallsOf(calls, live) && OneClock(live, d) && PollerDriven(calls, n)
    requires Honest(live, d)
    ensures HonestSoft(calls, n, d) && Covered(calls, n, d) == |Heard(live, d)|
  {
    if calls != [] {
      CallsBefore(calls, live, d);
      HonestyFromInputs(Prev(calls), Prev(live), n, d);
      SilentUnlessAnswered(calls, n, d);
      if Last(calls).probes[d].answer.SoftError? {
        ClockFromInputs(calls, live, n, d);
        PollerBoundsRise(calls, n);
        NothingNewer(calls, n, d);
      }
    }
  }

  lemma {:induction false} NothingNewer(calls: seq<Call>, n: nat, d: U32)
    requires RunOf(calls, n) && d < n && calls != [] && BoundsRise(calls)
    requires |Log(calls, d)| == Covered(Prev(calls), n, d)
    ensures Newer(Log(calls, d), LastBound(calls, n, d)) == []
  {
    StaysSettled(Prev(calls), n, d);
    var was, log := Log(Prev(calls), d), Log(calls, d);
    assert forall y :: 0 <= y < |was| ==> log[y] == was[y];
    NewerSplits(log, |log|, LastBound(calls, n, d), 0);
  }

  lemma {:induction false} NeverHardFromInputs(calls: seq<Call>, live: seq<Input>, n: nat, d: U32)
    requires RunOf(calls, n) && d < n && CallsOf(calls, live)
    requires NeverHard(live, d)
    ensures NeverFailsHard(calls, n, d)
  {
    if calls != [] {
      CallsBefore(calls, live, d);
      NeverHardFromInputs(Prev(calls), Prev(live), n, d);
      assert !Ends(live[|live| - 1], d, HardError);
    }
  }

  /** Exactly once, for a run of the poll loop: when device d shares the host's clock, is honest
      and never fails hard in a tick that got past Devices(), the utilization samples those
      ticks folded show all d had recorded, each sample once and in order. */
  lemma {:induction false} RunDeliversAll(calls: seq<Call>, ticks: seq<Publication.Tick>, inputs: seq<Input>, n: nat,
                                          d: U32, seen: map<U32, U64>, polled: map<U32, U64>)
    requires d < n && OneClock(Live(inputs), d)
    requires Sampled(calls, ticks, Live(inputs), n, seen, polled)
    requires Honest(Live(inputs), d) && NeverHard(Live(inputs), d)
    ensures Returned(calls, n, d) == Recorded(Live(inputs), d)
    ensures CarryAll(Busy(calls, n, d), Recorded(Live(inputs), d), d)
    ensures forall s :: s in Rest(calls, n, d) ==> MemoryOnly(s)
    ensures multiset(OfDevice(FoldedSamples(ticks), d)) == multiset(Busy(calls, n, d)) + multiset(Rest(calls, n, d))
  {
    ClockFromInputs(calls, Live(inputs), n, d);
    HonestyFromInputs(calls, Live(inputs), n, d);
    NeverHardFromInputs(calls, Live(inputs), n, d);
    ExactlyOnce(calls, n, d);
    ExactlyOnceSamples(calls, n, d);
    FoldedAreObserved(calls, ticks, n);
  }

  /** All the samples the ticks of a run folded. */
  function FoldedSamples(ticks: seq<Publication.Tick>): seq<ProcessSample> {
    if ticks == [] then [] else FoldedSamples(Prev(ticks)) + Last(ticks).samples
  }

  lemma {:induction false} FoldedAreObserved(calls: seq<Call>, ticks: seq<Publication.Tick>, n: nat)
    requires RunOf(calls, n) && Paired(calls, ticks, n)
    ensures FoldedSamples(ticks) == Observed(calls, n)
  {
    if calls != [] {
      FoldedAreObserved(Prev(calls), Prev(ticks), n);
    }
  }

  /** Once d has an entry in the poller's map, no pattern of hard failures loses a sample, whatever
      was lost before: since then the run has returned exactly what d's answers covered. When d
      says "nothing here" only with nothing recorded since it last answered, that is all it had
      recorded by then. */
  lemma {:induction false} RunToleratesFailures(calls: seq<Call>, ticks: seq<Publication.Tick>, inputs: seq<Input>,
                                                n: nat, d: U32, seen: map<U32, U64>, polled: map<U32, U64>, j: nat)
    requires d < n && OneClock(Live(inputs), d)
    requires Sampled(calls, ticks, Live(inputs), n, seen, polled)
    requires HonestSoft(calls, n, d)
    requires j <= |calls| && RunOf(calls[..j], n) && d in PolledAfter(calls[..j], n)
    ensures CompleteSince(calls, n, d, j)
    ensures Honest(Live(inputs), d) ==> Covered(calls, n, d) == |Heard(Live(inputs), d)|
  {
    ClockFromInputs(calls, Live(inputs), n, d);
    FailureTolerance(calls, n, d, j);
    if Honest(Live(inputs), d) {
      HonestyFromInputs(calls, Live(inputs), n, d);
    }
  }

  // ---- from the device's log to the maps ----

  lemma {:induction false} FoldedBySome(ticks: seq<Publication.Tick>, s: ProcessSample) returns (t: nat)
    requires s in FoldedSamples(ticks)
    ensures t < |ticks| && s in ticks[t].samples
  {
    if s in Last(ticks).samples {
      t := |ticks| - 1;
    } else {
      t := FoldedBySome(Prev(ticks), s);
    }
  }

  lemma {:induction false} AllFolded(ticks: seq<Publication.Tick>, t: nat, s: ProcessSample)
    requires t < |ticks| && s in ticks[t].samples
    ensures s in FoldedSamples(ticks)
  {
    if t < |ticks| - 1 {
      assert Prev(ticks)[t] == ticks[t];
      AllFolded(Prev(ticks), t, s);
    }
  }

  /** The tick writes a per-pid and a detail record for e that show at least its utilization. */
  ghost predicate Shows(r: Publication.Tick, e: Event, d: U32)
    requires RealTick(r)
  {
    var k := Key(e.pid, d);
    && e.pid in PidMap(r) && PublishedStore.PidWrite(e.pid, PidMap(r)[e.pid]) in Plan(r)
    && e.smUtil <= PidMap(r)[e.pid].smMax && e.memUtil <= PidMap(r)[e.pid].memMax
    && k in DetailMap(r) && PublishedStore.DetailWrite(k, DetailMap(r)[k]) in Plan(r)
    && e.smUtil <= DetailMap(r)[k].smUtil && e.memUtil <= DetailMap(r)[k].memUtil
    && e.encUtil <= DetailMap(r)[k].encUtil && e.decUtil <= DetailMap(r)[k].decUtil
  }

  lemma {:induction false} PlanHolds(r: Publication.Tick, k: Key)
    requires RealTick(r)
    ensures k.pid in PidMap(r) ==> PublishedStore.PidWrite(k.pid, PidMap(r)[k.pid]) in Plan(r)
    ensures k in DetailMap(r) ==> PublishedStore.DetailWrite(k, DetailMap(r)[k]) in Plan(r)
  {
    if k.pid in PidMap(r) {
      var i :| 0 <= i < |r.pids| && r.pids[i] == k.pid;
      assert PidWrites(PidMap(r), r.pids)[i] in Plan(r);
    }
    if k in DetailMap(r) {
      var i :| 0 <= i < |r.order| && r.order[i] == k;
      assert DetailWrites(DetailMap(r), r.order)[i] in Plan(r);
    }
  }

  lemma {:induction false} AggregateAbove(a: Aggregate, samples: seq<ProcessSample>, s: ProcessSample)
    requires IsDirectAggregate(a, samples, s.pid) && s in samples
    ensures s.smUtil <= a.smMax && s.memUtil <= a.memMax
  {
    assert Value(s, Sm) <= a.smMax && Value(s, Mem) <= a.memMax;
  }

  lemma {:induction false} PidAbove(r: Publication.Tick, s: ProcessSample)
    requires RealTick(r) && s in r.samples && s.pid != 0
    ensures s.pid in PidMap(r) && s.smUtil <= PidMap(r)[s.pid].smMax && s.memUtil <= PidMap(r)[s.pid].memMax
  {
    AggregationLaws.Refinement(r.samples, r.order, s.pid);
    AggregateAbove(PidMap(r)[s.pid], r.samples, s);
  }

  lemma {:induction false} FieldAbove(m: PidMetrics, samples: seq<ProcessSample>, s: ProcessSample, f: Field)
    requires IsDirectDetail(m, samples, KeyOf(s)) && s in samples
    ensures Value(s, f) <= Shown(m, f)
  {
    assert WindowMax(samples, KeyOf(s), f, Shown(m, f));
  }

  lemma {:induction false} DetailAbove(r: Publication.Tick, s: ProcessSample)
    requires s in r.samples && s.pid != 0
    ensures KeyOf(s) in DetailMap(r)
    ensures forall f :: Value(s, f) <= Shown(DetailMap(r)[KeyOf(s)], f)
  {
    AggregationLaws.FoldMeaning(r.samples);
    AggregationLaws.DetailMeaning(r.samples, KeyOf(s));
    forall f ensures Value(s, f) <= Shown(DetailMap(r)[KeyOf(s)], f) {
      FieldAbove(DetailMap(r)[KeyOf(s)], r.samples, s, f);
    }
  }

  lemma {:induction false} SampleShows(r: Publication.Tick, s: ProcessSample, e: Event, d: U32)
    requires RealTick(r) && s in r.samples && Carries(s, e, d) && e.pid != 0
    ensures Shows(r, e, d)
  {
    PidAbove(r, s);
    DetailAbove(r, s);
    PlanHolds(r, KeyOf(s));
    var m := DetailMap(r)[KeyOf(s)];
    assert Value(s, Sm) <= Shown(m, Sm) && Value(s, Mem) <= Shown(m, Mem);
    assert Value(s, Enc) <= Shown(m, Enc) && Value(s, Dec) <= Shown(m, Dec);
  }

  /** Over any run, with any failures and clocks: every recorded sample returned for a process
      reaches the maps' records in some tick. */
  lemma {:induction false} ReturnedIsPublished(calls: seq<Call>, ticks: seq<Publication.Tick>, live: seq<Input>, n: nat,
                                               d: U32, seen: map<U32, U64>, polled: map<U32, U64>, e: Event)
    returns (t: nat)
    requires d < n && Sampled(calls, ticks, live, n, seen, polled) && RealTicks(ticks)
    requires e in Returned(calls, n, d) && e.pid != 0
    ensures t < |ticks| && Shows(ticks[t], e, d)
  {
    HandedOver(calls, n, d);
    FoldedAreObserved(calls, ticks, n);
    var i :| 0 <= i < |Returned(calls, n, d)| && Returned(calls, n, d)[i] == e;
    var s := Busy(calls, n, d)[i];
    assert Carries(s, e, d);
    assert s in multiset(OfDevice(Observed(calls, n), d));
    OfDeviceMembers(Observed(calls, n), s);
    t := FoldedBySome(ticks, s);
    SampleShows(ticks[t], s, e, d);
  }

  /** For a device that shares the host's clock, is honest and never fails hard, that is every
      sample it records for a process. */
  lemma {:induction false} RecordedIsPublished(calls: seq<Call>, ticks: seq<Publication.Tick>, inputs: seq<Input>,
                                               n: nat, d: U32, seen: map<U32, U64>, polled: map<U32, U64>, e: Event)
    returns (t: nat)
    requires d < n && OneClock(Live(inputs), d)
    requires Sampled(calls, ticks, Live(inputs), n, seen, polled) && RealTicks(ticks)
    requires Honest(Live(inputs), d) && NeverHard(Live(inputs), d)
    requires e in Recorded(Live(inputs), d) && e.pid != 0
    ensures t < |ticks| && Shows(ticks[t], e, d)
  {
    RunDeliversAll(calls, ticks, inputs, n, d, seen, polled);
    t := ReturnedIsPublished(calls, ticks, Live(inputs), n, d, seen, polled, e);
  }

  /** Where a published utilization comes from. */
  lemma {:induction false} BusyOrigin(calls: seq<Call>, ticks: seq<Publication.Tick>, n: nat, t: nat, s: ProcessSample)
    returns (e: Event)
    requires RunOf(calls, n) && RealRun(calls, n) && Paired(calls, ticks, n)
    requires t < |ticks| && s in ticks[t].samples && !MemoryOnly(s)
    ensures s.device < n && e in Log(calls, s.device) && Carries(s, e, s.device)
  {
    AllFolded(ticks, t, s);
    FoldedAreObserved(calls, ticks, n);
    ObservedDevice(calls, n, s);
    var d := s.device;
    HandedOver(calls, n, d);
    OfDeviceMembers(Observed(calls, n), s);
    assert s in multiset(OfDevice(Observed(calls, n), d));
    assert s in Busy(calls, n, d);
    var i :| 0 <= i < |Busy(calls, n, d)| && Busy(calls, n, d)[i] == s;
    e := Returned(calls, n, d)[i];
    AtMostOnce(calls, n, d);
    assert e in multiset(Returned(calls, n, d));
  }

  lemma {:induction false} ObservedDevice(calls: seq<Call>, n: nat, s: ProcessSample)
    requires RunOf(calls, n) && s in Observed(calls, n)
    ensures s.device < n
  {
    if s in LastOut(calls, n) {
      InSweep(SeenAfter(Prev(calls), n), Last(calls), s);
    } else {
      ObservedDevice(Prev(calls), n, s);
    }
  }

  /** Device d recorded e for the process. */
  ghost predicate RecordedFor(live: seq<Input>, n: nat, pid: U32, d: U32, e: Event) {
    d < n && e in Recorded(live, d) && e.pid == pid
  }

  /** A sample at the published maximum. */
  lemma {:induction false} PeakSample(r: Publication.Tick, pid: U32, f: Field) returns (s: ProcessSample)
    requires RealTick(r) && pid in PidMap(r) && (f.Sm? || f.Mem?)
    ensures s in r.samples && s.pid == pid
    ensures Value(s, f) == if f.Sm? then PidMap(r)[pid].smMax else PidMap(r)[pid].memMax
  {
    AggregationLaws.Refinement(r.samples, r.order, pid);
    var v := if f.Sm? then PidMap(r)[pid].smMax else PidMap(r)[pid].memMax;
    assert PidWindowMax(r.samples, pid, f, v);
    s :| s in r.samples && s.pid == pid && Value(s, f) == v;
  }

  /** Over any run, every published utilization above zero is that of a sample some device
      recorded for the process. */
  lemma {:induction false} PublishedIsRecorded(calls: seq<Call>, ticks: seq<Publication.Tick>, live: seq<Input>, n: nat,
                                               seen: map<U32, U64>, polled: map<U32, U64>, t: nat, pid: U32, f: Field)
    returns (d: U32, e: Event)
    requires Sampled(calls, ticks, live, n, seen, polled) && RealTicks(ticks)
    requires t < |ticks| && pid in PidMap(ticks[t])
    requires (f.Sm? && PidMap(ticks[t])[pid].smMax > 0) || (f.Mem? && PidMap(ticks[t])[pid].memMax > 0)
    ensures RecordedFor(live, n, pid, d, e)
    ensures EventValue(e, f) == if f.Sm? then PidMap(ticks[t])[pid].smMax else PidMap(ticks[t])[pid].memMax
  {
    var s := PeakSample(ticks[t], pid, f);
    d := s.device;
    e := BusyOrigin(calls, ticks, n, t, s);
    CallsBefore(calls, live, d);
  }

  /** The minimum after any number of those ticks bounds every later one from below. */
  lemma {:induction false} RunMinimumRises(calls: seq<Call>, live: seq<Input>, n: nat, k: nat)
    requires RunOf(calls, n) && CallsOf(calls, live) && k <= |calls|
    requires forall i, j :: 0 <= i < j < |live| ==> live[i].stamp <= live[j].stamp
    ensures RunOf(calls[..k], n)
    ensures MinLast(PolledAfter(calls[..k], n)) <= MinLast(PolledAfter(calls, n))
  {
    StampsFromInputs(calls, live);
    MinimumNeverDecreases(calls, n, k);
  }

  lemma {:induction false} StampsFromInputs(calls: seq<Call>, live: seq<Input>)
    requires CallsOf(calls, live)
    requires forall i, j :: 0 <= i < j < |live| ==> live[i].stamp <= live[j].stamp
    ensures StampsRise(calls)
  {
    if calls != [] {
      CallsBefore(calls, live, 0);
      StampsFromInputs(Prev(calls), Prev(live));
      if Prev(calls) != [] {
        assert Last(Prev(calls)).stamp == live[|live| - 2].stamp;
      }
    }
  }

  // ---- which ticks a run has ----

  /** at lists, in order, the inputs whose Devices call succeeds. */
  ghost predicate IndexesLive(at: seq<nat>, inputs: seq<Input>) {
    && (forall j :: 0 <= j < |at| ==> at[j] < |inputs| && inputs[at[j]].devs.Some?)
    && (forall j, k :: 0 <= j < k < |at| ==> at[j] < at[k])
    && (forall i: nat :: i < |inputs| && inputs[i].devs.Some? ==> i in at)
  }

  /** The live inputs are all those whose Devices call succeeds, once each and in order. */
  lemma {:induction false} LiveSays(inputs: seq<Input>) returns (at: seq<nat>)
    ensures IndexesLive(at, inputs) && |Live(inputs)| == |at|
    ensures forall j :: 0 <= j < |at| ==> Live(inputs)[j] == inputs[at[j]]
  {
    if inputs == [] {
      at := [];
    } else {
      at := LiveSays(Prev(inputs));
      if Last(inputs).devs.Some? {
        at := at + [|inputs| - 1];
      }
    }
  }

  // ---- a run the kernel does not disturb ----

  lemma {:induction false} NothingDeleted(steps: seq<PublishedStore.Step>)
    ensures |PublishedStore.Writes(steps)| <= PublishedStore.Requests(steps)
    ensures |PublishedStore.Writes(steps)| == PublishedStore.Requests(steps) ==>
              forall step :: step in steps ==> !step.Delete?
  {
    if steps != [] {
      NothingDeleted(Prev(steps));
      assert steps == Prev(steps) + [Last(steps)];
    }
  }

  /** The kernel accepts every update and drops no entry. */
  ghost predicate Undisturbed(kernel: PublishedStore.Kernel) {
    && (forall n :: kernel.accepts(n))
    && (forall n, pid :: !kernel.dropsPid(n, pid)) && (forall n, k :: !kernel.dropsKey(n, k))
  }

  /** Then the two per-pid maps agree after the run, and every device in range shows. */
  lemma {:induction false} UndisturbedRun(steps: seq<PublishedStore.Step>, ticks: seq<Publication.Tick>,
                                          kernel: PublishedStore.Kernel, pid: U32)
    requires PublishedStore.Obeys(steps, kernel) && Undisturbed(kernel)
    requires RealTicks(ticks) && PublishedStore.Writes(steps) == PlanAll(ticks)
    requires PublishedStore.Requests(steps) == |PlanAll(ticks)|
    ensures forall step :: step in steps && step.Attempt? ==> step.ok == PublishedStore.InRange(step.write)
    ensures PublicationLaws.Agrees(PublishedStore.Replay(steps), pid)
    ensures pid in PublishedStore.Replay(steps).perPid
            <==> exists k :: k in PublishedStore.Replay(steps).detail && k.pid == pid
  {
    PublishedStore.NothingRefused(steps, kernel);
    PublishedStore.NothingDropped(steps, kernel);
    NothingDeleted(steps);
    PublicationLaws.CrossMapAgreement(steps, ticks, pid);
  }
}
