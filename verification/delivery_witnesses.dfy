/** Concrete runs showing that the hypotheses of the delivery theorems cannot be dropped. */
module DeliveryWitnesses {
  import opened Telemetry
  import opened Sampler
  import opened Watermarks
  import opened Delivery

  /** Two devices. Device 0 always lists one idle process, so every call raises its entry. */
  function Beat(lastSeen: U64, stamp: U64, answer0: Answer, log0: seq<Event>, answer1: Answer, log1: seq<Event>): Call {
    Call(lastSeen, stamp,
         [Probe(Some([Proc(7, 1)]), answer0, log0), Probe(None, answer1, log1)],
         [[Key(7, 0)], []])
  }

  lemma BeatOutcome(c: Call, lastSeen: U64, stamp: U64, answer0: Answer, log0: seq<Event>, answer1: Answer,
                    log1: seq<Event>)
    requires c == Beat(lastSeen, stamp, answer0, log0, answer1, log1) && !answer0.HardError?
    requires Answered(c.probes[0], lastSeen) == [] && Answered(c.probes[1], lastSeen) == []
    ensures VisitAll(map[], c).out == [IdleSample(Key(7, 0), stamp, 1)]
    ensures VisitAll(map[], c).seen == map[]
    ensures Walks(map[], c)
  {
    var k := Key(7, 0);
    var s0, s1 := VisitFirst(map[], c, 0), VisitFirst(map[], c, 1);
    assert [Proc(7, 1)][..0] == [];
    var listed := Listed(s0.mem, 0, c.probes[0]);
    assert listed == map[k := 1];
    assert MergeDevice(s0, 0, c.probes[0], lastSeen, stamp) == Merged(listed, []);
    assert [k][..0] == [];
    assert Idle(listed, 0, stamp, [k]) == [IdleSample(k, stamp, 1)];
    assert Elsewhere(listed, 0) == map[];
    assert s1 == Sweep(map[], map[], [IdleSample(k, stamp, 1)]);
    assert MergeDevice(s1, 1, c.probes[1], lastSeen, stamp) == Merged(map[], []);
    assert Elsewhere(map[], 1) == map[];
    assert Idle(map[], 1, stamp, []) == [];
    assert VisitFirst(map[], c, 2).out == [IdleSample(k, stamp, 1)];
  }

  /** A run of beats so far: nothing returned for either device, device 0's entry
      at `was`, device 0 never failing hard and device 1 never failing softly. */
  ghost predicate Quiet(calls: seq<Call>, was: U64) {
    && RunOf(calls, 2) && RealRun(calls, 2) && StampsRise(calls) && PollerDriven(calls, 2)
    && LogRises(calls, 2, 0) && LogRises(calls, 2, 1)
    && NeverFailsHard(calls, 2, 0) && HonestSoft(calls, 2, 1) && LastStamp(calls) == was
    && SeenAfter(calls, 2) == map[]
    && PolledAfter(calls, 2) == (if was == 0 then map[] else map[0 := was])
    && Returned(calls, 2, 0) == [] && Returned(calls, 2, 1) == []
  }

  lemma Pulse(p: map<U32, U64>, was: U64, stamp: U64)
    requires p == (if was == 0 then map[] else map[0 := was]) && stamp > was
    ensures MinLast(p) == was
    ensures Observe(p, [IdleSample(Key(7, 0), stamp, 1)]) == map[0 := stamp]
  {
    if was != 0 {
      assert 0 in p && p[0] == was;
    }
    MinUnique(p, was);
    assert [IdleSample(Key(7, 0), stamp, 1)][..0] == [];
    assert Observe(p, []) == p;
  }

  ghost predicate Grows(was: seq<Event>, log: seq<Event>) {
    was <= log && forall x :: |was| <= x < |log| ==> LaterThan(log[x].timeStamp, was)
  }

  /** One more beat that returns nothing. */
  lemma BeatStep(calls: seq<Call>, c: Call, was: U64, stamp: U64, answer0: Answer, log0: seq<Event>, answer1: Answer,
                 log1: seq<Event>)
    requires Quiet(calls, was)
    requires stamp > was && c == Beat(was, stamp, answer0, log0, answer1, log1)
    requires !answer0.HardError? && !answer1.SoftError?
    requires Answered(c.probes[0], was) == [] && Answered(c.probes[1], was) == []
    requires Grows(Log(calls, 0), log0) && Grows(Log(calls, 1), log1)
    ensures Quiet(calls + [c], stamp) && Prev(calls + [c]) == calls
    ensures Log(calls + [c], 0) == log0 && Log(calls + [c], 1) == log1
    ensures FailsHard(calls + [c], 2, 1) == answer1.HardError? && !FailsHard(calls + [c], 2, 0)
  {
    var all := calls + [c];
    assert Prev(all) == calls && Last(all) == c;
    assert Log(all, 0) == log0 && Log(all, 1) == log1;
    assert RunOf(all, 2);
    BeatOutcome(c, was, stamp, answer0, log0, answer1, log1);
    Pulse(PolledAfter(calls, 2), was, stamp);
    assert LastWindow(all, 2, 0) == [] && LastWindow(all, 2, 1) == [];
    SilentUnlessAnswered(all, 2, 1);
  }

  /** One more beat on the shared clock of device d. */
  lemma ClockStep(calls: seq<Call>, c: Call, d: U32)
    requires d < 2 && RunOf(calls, 2) && RunOf(calls + [c], 2) && Prev(calls + [c]) == calls
    requires StampsPrecede(calls, 2, d)
    requires forall e :: e in c.probes[d].log ==> e in Log(calls, d) || e.timeStamp > LastStamp(calls)
    requires Log(calls, d) == [] || Log(calls, d) == c.probes[d].log
    ensures StampsPrecede(calls + [c], 2, d)
  {
  }

  lemma QuietStart()
    ensures Quiet([], 0)
  {
  }

  /** Without an entry of its own a device can lose samples to a single hard failure, even
      though it was queried successfully before and is again afterwards. */
  lemma EntryNeeded() returns (calls: seq<Call>)
    ensures RunOf(calls, 2) && RealRun(calls, 2) && SharedClock(calls, 2, 1) && PollerDriven(calls, 2)
    ensures HonestSoft(calls, 2, 1)
    ensures |calls| == 3 && RunOf(Prev(Prev(calls)), 2) && !FailsHard(Prev(Prev(calls)), 2, 1)
              && !FailsHard(calls, 2, 1)
    ensures Log(calls, 1) != [] && Returned(calls, 2, 1) == []
  {
    var e := Event(9, 15, 0, 0, 0, 0);
    OnlyEvent(e);
    var a, b := Beat(0, 10, Success, [], Success, []), Beat(10, 20, Success, [], HardError, [e]);
    var c := Beat(20, 30, Success, [], Success, [e]);
    QuietStart();
    BeatStep([], a, 0, 10, Success, [], Success, []);
    ClockStep([], a, 1);
    var one := [] + [a];
    BeatStep(one, b, 10, 20, Success, [], HardError, [e]);
    ClockStep(one, b, 1);
    var two := one + [b];
    BeatStep(two, c, 20, 30, Success, [], Success, [e]);
    ClockStep(two, c, 1);
    calls := two + [c];
    assert |calls| == 3 && Prev(Prev(calls)) == one;
  }

  lemma OnlyEvent(e: Event)
    ensures forall t: U64 :: Newer([e], t) == if e.timeStamp > t then [e] else []
  {
    assert [e][..0] == [];
  }

  /** A soft error that hides pending samples loses them, with no hard failure anywhere: the
      memory-only samples of that tick still raise the poller's entry. */
  lemma HonestyNeeded() returns (calls: seq<Call>)
    ensures RunOf(calls, 2) && RealRun(calls, 2) && SharedClock(calls, 2, 0) && PollerDriven(calls, 2)
    ensures NeverFailsHard(calls, 2, 0)
    ensures calls != [] && Last(calls).probes[0].answer.Success?
    ensures Log(calls, 0) != [] && Returned(calls, 2, 0) == []
  {
    var e := Event(9, 15, 0, 0, 0, 0);
    OnlyEvent(e);
    var a, b := Beat(0, 20, SoftError, [e], Success, []), Beat(20, 30, Success, [e], Success, []);
    QuietStart();
    BeatStep([], a, 0, 20, SoftError, [e], Success, []);
    ClockStep([], a, 0);
    var one := [] + [a];
    BeatStep(one, b, 20, 30, Success, [e], Success, []);
    ClockStep(one, b, 0);
    calls := one + [b];
    assert Last(calls) == b;
  }

  /** When NVML stamps its samples in a coarser unit, memory-only samples stamped in
      nanoseconds carry the minimum past what the device records later: it answers
      every query and delivers nothing. */
  lemma SharedUnitNeeded() returns (calls: seq<Call>)
    ensures RunOf(calls, 2) && RealRun(calls, 2) && PollerDriven(calls, 2)
    ensures StampsRise(calls) && LogRises(calls, 2, 0)
    ensures NeverFailsHard(calls, 2, 0) && HonestSoft(calls, 2, 0)
    ensures Log(calls, 0) != [] && Returned(calls, 2, 0) == []
  {
    var e := Event(9, 15, 0, 0, 0, 0);
    OnlyEvent(e);
    var a, b := Beat(0, 20_000, Success, [], Success, []), Beat(20_000, 30_000, Success, [e], Success, []);
    QuietStart();
    BeatStep([], a, 0, 20_000, Success, [], Success, []);
    var one := [] + [a];
    BeatStep(one, b, 20_000, 30_000, Success, [e], Success, []);
    calls := one + [b];
    assert Prev(calls) == one && Prev(one) == [];
    assert Last(calls) == b && Last(one) == a;
  }

  lemma OnlyEvents(e: Event, f: Event)
    ensures forall t: U64 :: Newer([e, f], t) == Newer([e], t) + if f.timeStamp > t then [f] else []
  {
    assert [e, f][..1] == [e];
  }

  /** One device with nothing listed, whose query returns at most one sample. */
  lemma LoneVisit(seen: map<U32, U64>, c: Call, window: seq<Event>)
    requires |c.probes| == 1 && c.orders == [[]] && c.probes[0].procs.None? && !c.probes[0].answer.HardError?
    requires Answered(c.probes[0], Bound(seen, 0, c.lastSeen)) == window && |window| <= 1
    ensures Walks(seen, c)
    ensures VisitAll(seen, c).seen == Advance(seen, 0, Latest(window))
    ensures VisitAll(seen, c).out == if window == [] then [] else [BusySample(window[0], 0, c.stamp, 0)]
  {
    var s0, none: map<Key, U64> := VisitFirst(seen, c, 0), map[];
    var m := MergeDevice(s0, 0, c.probes[0], c.lastSeen, c.stamp);
    if window != [] {
      assert window[..0] == [] && none - {Key(window[0].pid, 0)} == none;
      assert Merge(none, 0, c.stamp, []) == Merged(none, []);
    }
    assert m == Merged(none, if window == [] then [] else [BusySample(window[0], 0, c.stamp, 0)]);
    assert Elsewhere(none, 0) == none && Idle(none, 0, c.stamp, []) == [];
    assert VisitFirst(seen, c, 1) == Visit(s0, 0, c.probes[0], c.lastSeen, c.stamp, []);
  }

  /** A run of one device that has returned `got`, its watermark at `own`, its entry at `was`. */
  ghost predicate Lone(calls: seq<Call>, own: U64, was: U64, got: seq<Event>) {
    && RunOf(calls, 1) && RealRun(calls, 1) && PollerDriven(calls, 1)
    && StampsRise(calls) && StampsPrecede(calls, 1, 0)
    && NeverFailsHard(calls, 1, 0) && HonestSoft(calls, 1, 0) && LastStamp(calls) == was
    && SeenAfter(calls, 1) == (if own == 0 then map[] else map[0 := own])
    && PolledAfter(calls, 1) == (if was == 0 then map[] else map[0 := was])
    && Returned(calls, 1, 0) == got
  }

  /** The first query returns its only sample. */
  lemma FirstQuery(e: Event) returns (calls: seq<Call>)
    requires e.timeStamp == 15
    ensures Lone(calls, 15, 10, [e]) && Log(calls, 0) == [e]
  {
    var a := Call(0, 10, [Probe(None, Success, [e])], [[]]);
    calls := [a];
    assert Prev(calls) == [] && Last(calls) == a && RunOf([], 1) && Log(calls, 0) == [e];
    assert RunOf(calls, 1);
    OnlyEvent(e);
    LoneVisit(map[], a, [e]);
    assert LastOut(calls, 1) == [BusySample(e, 0, 10, 0)];
    FirstPulse(e);
    MinUnique(map[], 0);
  }

  lemma FirstPulse(e: Event)
    requires e.timeStamp == 15
    ensures [e][..0] == [] && Latest([e]) == 15
    ensures Observe(map[], [BusySample(e, 0, 10, 0)]) == map[0 := 10]
  {
    var s, none: map<U32, U64> := BusySample(e, 0, 10, 0), map[];
    assert [s][..0] == [] && Observe(none, []) == none;
  }

  /** The second one returns nothing: its bound is the watermark 15. */
  lemma SecondQuery(one: seq<Call>, calls: seq<Call>, b: Call, e: Event, f: Event)
    requires Lone(one, 15, 10, [e]) && Log(one, 0) == [e] && e.timeStamp == f.timeStamp == 15
    requires calls == one + [b] && b == Call(10, 20, [Probe(None, Success, [e, f])], [[]])
    ensures Prev(calls) == one && Last(calls) == b && Log(calls, 0) == [e, f]
    ensures RunOf(calls, 1) && Walks(SeenAfter(one, 1), b) && LastWindow(calls, 1, 0) == []
  {
    assert Prev(calls) == one && Last(calls) == b && Log(calls, 0) == [e, f];
    assert RunOf(calls, 1);
    OnlyEvent(e);
    OnlyEvents(e, f);
    LoneVisit(map[0 := 15], b, []);
  }

  /** Without a rising log the device's own watermark passes samples: f is recorded after the
      query that returned e, with e's timestamp, and is never returned, although the device
      answers every query and every stamp precedes what is recorded after it. */
  lemma RisingLogNeeded() returns (calls: seq<Call>)
    ensures RunOf(calls, 1) && RealRun(calls, 1) && PollerDriven(calls, 1)
    ensures StampsRise(calls) && StampsPrecede(calls, 1, 0)
    ensures NeverFailsHard(calls, 1, 0) && HonestSoft(calls, 1, 0)
    ensures |Log(calls, 0)| == 2 && Returned(calls, 1, 0) == Log(calls, 0)[..1]
  {
    var e, f := Event(8, 15, 0, 0, 0, 0), Event(9, 15, 0, 0, 0, 0);
    var one := FirstQuery(e);
    var b := Call(10, 20, [Probe(None, Success, [e, f])], [[]]);
    calls := one + [b];
    SecondQuery(one, calls, b, e, f);
    var p: map<U32, U64> := map[0 := 10];
    assert 0 in p && p[0] == 10;
    MinUnique(p, 10);
  }
}
