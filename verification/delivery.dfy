/** Whole runs of ProcessSamples calls: which recorded samples are returned, and how the
    device watermark and the poller's cross-device minimum together decide it. */
module Delivery {
  import opened Telemetry
  import opened Sampler
  import opened SamplerLaws
  import opened Watermarks

  function Prev<T>(s: seq<T>): seq<T>
    requires s != []
  {
    s[..|s| - 1]
  }

  function Last<T>(s: seq<T>): T
    requires s != []
  {
    s[|s| - 1]
  }

  /** Everything device d had recorded when the run's last query reached it. */
  function Log(calls: seq<Call>, d: U32): seq<Event> {
    if calls == [] || d >= |Last(calls).probes| then [] else Last(calls).probes[d].log
  }

  /** A run of calls over n handles; device logs only grow. */
  ghost predicate RunOf(calls: seq<Call>, n: nat) {
    calls == [] ||
    (&& RunOf(Prev(calls), n)
     && WellFormed(Last(calls)) && |Last(calls).probes| == n
     && forall d: U32 :: d < n ==> Log(Prev(calls), d) <= Log(calls, d))
  }

  /** The sampler's own watermarks after a run. */
  ghost function SeenAfter(calls: seq<Call>, n: nat): map<U32, U64>
    requires RunOf(calls, n)
  {
    if calls == [] then map[] else VisitAll(SeenAfter(Prev(calls), n), Last(calls)).seen
  }

  /** Every call of the run walked its memory map as Go may. */
  ghost predicate RealRun(calls: seq<Call>, n: nat)
    requires RunOf(calls, n)
  {
    calls == [] || (RealRun(Prev(calls), n) && Walks(SeenAfter(Prev(calls), n), Last(calls)))
  }

  /** The samples the last call of a run handed to the poller. */
  ghost function LastOut(calls: seq<Call>, n: nat): seq<ProcessSample>
    requires RunOf(calls, n) && calls != []
  {
    VisitAll(SeenAfter(Prev(calls), n), Last(calls)).out
  }

  /** The poller's watermarks after a run: it observes every sample it is handed. */
  ghost function PolledAfter(calls: seq<Call>, n: nat): map<U32, U64>
    requires RunOf(calls, n)
  {
    if calls == [] then map[] else Observe(PolledAfter(Prev(calls), n), LastOut(calls, n))
  }

  /** The recorded samples of device d that the last call returned. */
  ghost function LastWindow(calls: seq<Call>, n: nat, d: U32): seq<Event>
    requires RunOf(calls, n) && calls != [] && d < n
  {
    WindowOf(SeenAfter(Prev(calls), n), Last(calls), d)
  }

  /** The bound the last call queried device d with. */
  ghost function LastBound(calls: seq<Call>, n: nat, d: U32): U64
    requires RunOf(calls, n) && calls != []
  {
    Bound(SeenAfter(Prev(calls), n), d, Last(calls).lastSeen)
  }

  /** The recorded samples a run has returned for one device. */
  ghost function Returned(calls: seq<Call>, n: nat, d: U32): seq<Event>
    requires RunOf(calls, n) && d < n
  {
    if calls == [] then [] else Returned(Prev(calls), n, d) + LastWindow(calls, n, d)
  }

  ghost predicate FailsHard(calls: seq<Call>, n: nat, d: U32)
    requires RunOf(calls, n) && calls != [] && d < n
  {
    Last(calls).probes[d].answer.HardError?
  }

  /** The last query was answered: it returned all that was newer than its bound. A hard
      failure never is; a soft error is when there was nothing newer. */
  ghost predicate Answers(calls: seq<Call>, n: nat, d: U32)
    requires RunOf(calls, n) && calls != [] && d < n
  {
    !FailsHard(calls, n, d) && LastWindow(calls, n, d) == Newer(Log(calls, d), LastBound(calls, n, d))
  }

  lemma SilentUnlessAnswered(calls: seq<Call>, n: nat, d: U32)
    requires RunOf(calls, n) && calls != [] && d < n
    ensures Last(calls).probes[d].answer.Success? ==> Answers(calls, n, d)
    ensures !Answers(calls, n, d) ==> LastWindow(calls, n, d) == []
  {
  }

  /** How much of the log the last answered query had in front of it. */
  ghost function Covered(calls: seq<Call>, n: nat, d: U32): (c: nat)
    requires RunOf(calls, n) && d < n
    ensures c <= |Log(calls, d)|
  {
    if calls == [] then 0
    else if Answers(calls, n, d) then |Log(calls, d)|
    else Covered(Prev(calls), n, d)
  }

  // ---- filtering facts ----

  lemma {:induction false} NewerCounts(log: seq<Event>, t: U64, e: Event)
    ensures multiset(Newer(log, t))[e] == if e.timeStamp > t then multiset(log)[e] else 0
  {
    if log != [] {
      NewerCounts(Prev(log), t, e);
      assert log == Prev(log) + [Last(log)];
    }
  }

  lemma {:induction false} LatestBounds(events: seq<Event>)
    ensures forall e :: e in events ==> e.timeStamp <= Latest(events)
    ensures Latest(events) == 0 || exists e :: e in events && e.timeStamp == Latest(events)
  {
    if events != [] {
      LatestBounds(Prev(events));
      assert events == Prev(events) + [Last(events)];
    }
  }

  // ---- at most once, with no assumption on clocks, failures or the caller's bound ----

  lemma {:induction false} SeenStep(calls: seq<Call>, n: nat, d: U32)
    requires RunOf(calls, n) && calls != [] && d < n
    ensures Get(SeenAfter(calls, n), d) == Max(Get(SeenAfter(Prev(calls), n), d), Latest(LastWindow(calls, n, d)))
  {
    SweepShaped(SeenAfter(Prev(calls), n), Last(calls), n);
  }

  /** No recorded sample is returned more often than it was recorded, and every later query
      bound of the device covers everything already returned. */
  lemma {:induction false} AtMostOnce(calls: seq<Call>, n: nat, d: U32)
    requires RunOf(calls, n) && d < n
    ensures multiset(Returned(calls, n, d)) <= multiset(Log(calls, d))
    ensures forall e: Event, lastSeen: U64 :: e in Returned(calls, n, d) ==>
              e.timeStamp <= Bound(SeenAfter(calls, n), d, lastSeen)
  {
    if calls != [] {
      AtMostOnce(Prev(calls), n, d);
      SeenStep(calls, n, d);
      var before, window := Returned(Prev(calls), n, d), LastWindow(calls, n, d);
      LatestBounds(window);
      forall e ensures multiset(before + window)[e] <= multiset(Log(calls, d))[e] {
        OnceEach(calls, n, d, e);
      }
      forall e: Event, lastSeen: U64 | e in before + window
        ensures e.timeStamp <= Bound(SeenAfter(calls, n), d, lastSeen)
      {
        if e in before {
          assert e.timeStamp <= Bound(SeenAfter(Prev(calls), n), d, 0);
        }
      }
    }
  }

  lemma {:induction false} OnceEach(calls: seq<Call>, n: nat, d: U32, e: Event)
    requires RunOf(calls, n) && d < n && calls != []
    requires multiset(Returned(Prev(calls), n, d)) <= multiset(Log(Prev(calls), d))
    requires e in Returned(Prev(calls), n, d) ==> e.timeStamp <= Bound(SeenAfter(Prev(calls), n), d, 0)
    ensures multiset(Returned(Prev(calls), n, d) + LastWindow(calls, n, d))[e] <= multiset(Log(calls, d))[e]
  {
    var was, log := Log(Prev(calls), d), Log(calls, d);
    CountConcat(was, log[|was|..], e);
    assert log == was + log[|was|..];
    NewerCounts(log, LastBound(calls, n, d), e);
    CountConcat(Returned(Prev(calls), n, d), LastWindow(calls, n, d), e);
    assert LastWindow(calls, n, d) == [] || LastWindow(calls, n, d) == Newer(log, LastBound(calls, n, d));
  }

  lemma CountConcat(a: seq<Event>, b: seq<Event>, e: Event)
    ensures multiset(a + b)[e] == multiset(a)[e] + multiset(b)[e]
  {
  }

  // ---- clocks ----

  function LastStamp(calls: seq<Call>): U64 {
    if calls == [] then 0 else Last(calls).stamp
  }

  /** The stamps of ProcessSamples do not go back. */
  predicate StampsRise(calls: seq<Call>) {
    calls == [] || (StampsRise(Prev(calls)) && LastStamp(Prev(calls)) <= LastStamp(calls))
  }

  predicate LaterThan(ts: U64, log: seq<Event>) {
    ts > 0 && forall y :: 0 <= y < |log| ==> ts > log[y].timeStamp
  }

  /** The device's own timestamps, in whatever unit, are positive and rise from one query to
      the next. */
  ghost predicate LogRises(calls: seq<Call>, n: nat, d: U32)
    requires RunOf(calls, n) && d < n
  {
    calls == [] ||
    (&& LogRises(Prev(calls), n, d)
     && forall x :: |Log(Prev(calls), d)| <= x < |Log(calls, d)| ==>
          LaterThan(Log(calls, d)[x].timeStamp, Log(Prev(calls), d)))
  }

  /** What the device records after a call's query is timestamped after that call's stamp. */
  ghost predicate StampsPrecede(calls: seq<Call>, n: nat, d: U32)
    requires RunOf(calls, n) && d < n
  {
    calls == [] ||
    (&& StampsPrecede(Prev(calls), n, d)
     && forall x :: |Log(Prev(calls), d)| <= x < |Log(calls, d)| ==>
          Log(calls, d)[x].timeStamp > LastStamp(Prev(calls)))
  }

  /** Host and device d read one clock in one unit. */
  ghost predicate SharedClock(calls: seq<Call>, n: nat, d: U32)
    requires RunOf(calls, n) && d < n
  {
    StampsRise(calls) && LogRises(calls, n, d) && StampsPrecede(calls, n, d)
  }

  /** A soft error ("not found", "not supported") is said only when nothing is newer than the
      bound asked for. */
  ghost predicate HonestSoft(calls: seq<Call>, n: nat, d: U32)
    requires RunOf(calls, n) && d < n
  {
    calls == [] ||
    (&& HonestSoft(Prev(calls), n, d)
     && (Last(calls).probes[d].answer.SoftError? ==> Answers(calls, n, d)))
  }

  /** The caller is the poller: it passes down the minimum of its own watermarks. */
  ghost predicate PollerDriven(calls: seq<Call>, n: nat)
    requires RunOf(calls, n)
  {
    calls == [] ||
    (PollerDriven(Prev(calls), n) && Last(calls).lastSeen == MinLast(PolledAfter(Prev(calls), n)))
  }

  /** The bound the caller handed down last. */
  function Asked(calls: seq<Call>): U64 {
    if calls == [] then 0 else Last(calls).lastSeen
  }

  /** The bounds a caller hands down do not go back. */
  predicate BoundsRise(calls: seq<Call>) {
    calls == [] || (BoundsRise(Prev(calls)) && Asked(Prev(calls)) <= Asked(calls))
  }

  lemma {:induction false} PrefixRun(calls: seq<Call>, n: nat, d: U32, j: nat)
    requires RunOf(calls, n) && d < n && j <= |calls|
    ensures RunOf(calls[..j], n)
    ensures Log(calls[..j], d) <= Log(calls, d)
    ensures Covered(calls[..j], n, d) <= Covered(calls, n, d)
  {
    if j == |calls| {
      assert calls[..j] == calls;
    } else {
      assert Prev(calls)[..j] == calls[..j];
      PrefixRun(Prev(calls), n, d, j);
    }
  }

  // ---- what the poller has observed ----

  /** Everything the poller has observed. */
  ghost function Observed(calls: seq<Call>, n: nat): seq<ProcessSample>
    requires RunOf(calls, n)
  {
    if calls == [] then [] else Observed(Prev(calls), n) + LastOut(calls, n)
  }

  /** After any run each poller watermark is the largest timestamp ever observed for its
      device, absent exactly when that is zero, and the bound handed down is their minimum. */
  lemma {:induction false} RunWatermarks(calls: seq<Call>, n: nat, d: U32)
    requires RunOf(calls, n)
    ensures HistoryMax(Observed(calls, n), d, Get(PolledAfter(calls, n), d))
    ensures d in PolledAfter(calls, n) <==> Get(PolledAfter(calls, n), d) > 0
    ensures IsMinimum(PolledAfter(calls, n), MinLast(PolledAfter(calls, n)))
  {
    PolledIsObserved(calls, n);
    WatermarkHistory(Observed(calls, n), d);
    assert IsMinimum(PolledAfter(calls, n), MinLast(PolledAfter(calls, n)));
  }

  lemma {:induction false} PolledIsObserved(calls: seq<Call>, n: nat)
    requires RunOf(calls, n)
    ensures PolledAfter(calls, n) == Observe(map[], Observed(calls, n))
  {
    if calls != [] {
      PolledIsObserved(Prev(calls), n);
      ObserveConcat(map[], Observed(Prev(calls), n), LastOut(calls, n));
    }
  }

  lemma {:induction false} OutStamped(calls: seq<Call>, n: nat)
    requires RunOf(calls, n) && calls != []
    ensures forall s :: s in LastOut(calls, n) ==> s.timestampNs == LastStamp(calls)
  {
    forall s | s in LastOut(calls, n) ensures s.timestampNs == LastStamp(calls) {
      SampleStamped(SeenAfter(Prev(calls), n), Last(calls), n, s);
    }
  }

  /** No poller watermark is above the last stamp. */
  lemma {:induction false} StampsBoundWatermarks(calls: seq<Call>, n: nat)
    requires RunOf(calls, n) && StampsRise(calls)
    ensures forall d :: d in PolledAfter(calls, n) ==> PolledAfter(calls, n)[d] <= LastStamp(calls)
    ensures MinLast(PolledAfter(calls, n)) <= LastStamp(calls)
    ensures calls != [] ==> MinLast(PolledAfter(Prev(calls), n)) <= MinLast(PolledAfter(calls, n))
  {
    if calls != [] {
      StampsBoundWatermarks(Prev(calls), n);
      OutStamped(calls, n);
      MinimumMonotone(PolledAfter(Prev(calls), n), LastOut(calls, n), LastStamp(calls));
    }
    var p := PolledAfter(calls, n);
    assert IsMinimum(p, MinLast(p));
  }

  /** Along a run whose ticks stamp with one non-decreasing time, the minimum handed down
      never decreases, however many new devices appear and whatever unit NVML uses. */
  lemma {:induction false} MinimumNeverDecreases(calls: seq<Call>, n: nat, k: nat)
    requires RunOf(calls, n) && StampsRise(calls) && k <= |calls|
    ensures RunOf(calls[..k], n)
    ensures MinLast(PolledAfter(calls[..k], n)) <= MinLast(PolledAfter(calls, n))
  {
    if k == |calls| {
      assert calls[..k] == calls;
    } else {
      assert Prev(calls)[..k] == calls[..k];
      MinimumNeverDecreases(Prev(calls), n, k);
      StampsBoundWatermarks(calls, n);
    }
  }

  /** The poller's bounds do not go back when its stamps do not. */
  lemma {:induction false} PollerBoundsRise(calls: seq<Call>, n: nat)
    requires RunOf(calls, n) && StampsRise(calls) && PollerDriven(calls, n)
    ensures BoundsRise(calls) && Asked(calls) <= LastStamp(calls) && Asked(calls) <= MinLast(PolledAfter(calls, n))
  {
    if calls != [] {
      PollerBoundsRise(Prev(calls), n);
      StampsBoundWatermarks(Prev(calls), n);
      StampsBoundWatermarks(calls, n);
    }
  }

  /** With no discipline at all, one call lowers the minimum exactly when its stamp has gone
      back below it and a device without an entry shows up. */
  lemma {:induction false} CallLowersMinimumIff(calls: seq<Call>, n: nat)
    requires RunOf(calls, n) && calls != []
    ensures var before := PolledAfter(Prev(calls), n);
            MinLast(PolledAfter(calls, n)) < MinLast(before)
            <==> 0 < LastStamp(calls) < MinLast(before) && exists d :: d !in before && HasDevice(LastOut(calls, n), d)
  {
    OutStamped(calls, n);
    StampedDropsIff(PolledAfter(Prev(calls), n), LastOut(calls, n), LastStamp(calls));
  }

  // ---- pending samples are ahead of the device's own watermark, in any unit ----

  /** Pending samples are all newer than the device's own watermark, which is a covered one. */
  ghost predicate Ahead(calls: seq<Call>, n: nat, d: U32)
    requires RunOf(calls, n) && d < n
  {
    var log, c, own := Log(calls, d), Covered(calls, n, d), Get(SeenAfter(calls, n), d);
    && (forall x :: c <= x < |log| ==> log[x].timeStamp > own)
    && (own == 0 || exists y :: 0 <= y < c && log[y].timeStamp == own)
  }

  /** The same for the log the last call's query meets. */
  lemma {:induction false} PendingAhead(calls: seq<Call>, n: nat, d: U32)
    requires RunOf(calls, n) && d < n && calls != [] && LogRises(calls, n, d) && Ahead(Prev(calls), n, d)
    ensures forall x :: Covered(Prev(calls), n, d) <= x < |Log(calls, d)| ==>
              Log(calls, d)[x].timeStamp > Get(SeenAfter(Prev(calls), n), d)
  {
    var was, now, own := Log(Prev(calls), d), Log(calls, d), Get(SeenAfter(Prev(calls), n), d);
    forall x | Covered(Prev(calls), n, d) <= x < |now| ensures now[x].timeStamp > own {
      if x < |was| {
        assert now[x] == was[x];
      } else {
        assert LaterThan(now[x].timeStamp, was);
      }
    }
  }

  lemma {:induction false} StaysAhead(calls: seq<Call>, n: nat, d: U32)
    requires RunOf(calls, n) && d < n && LogRises(calls, n, d)
    ensures Ahead(calls, n, d)
  {
    if calls != [] {
      StaysAhead(Prev(calls), n, d);
      PendingAhead(calls, n, d);
      OwnIsRecorded(calls, n, d);
    }
  }

  lemma {:induction false} OwnIsRecorded(calls: seq<Call>, n: nat, d: U32)
    requires RunOf(calls, n) && d < n && calls != [] && Ahead(Prev(calls), n, d)
    ensures !Answers(calls, n, d) ==> Get(SeenAfter(calls, n), d) == Get(SeenAfter(Prev(calls), n), d)
    ensures |Log(Prev(calls), d)| <= |Log(calls, d)|
    ensures var own := Get(SeenAfter(calls, n), d);
            own == 0 || exists y :: 0 <= y < Covered(calls, n, d) && Log(calls, d)[y].timeStamp == own
  {
    SeenStep(calls, n, d);
    SilentUnlessAnswered(calls, n, d);
    var was, log, own := Log(Prev(calls), d), Log(calls, d), Get(SeenAfter(calls, n), d);
    assert forall y :: 0 <= y < |was| ==> log[y] == was[y];
    if own != 0 && own == Get(SeenAfter(Prev(calls), n), d) {
      var y :| 0 <= y < Covered(Prev(calls), n, d) && was[y].timeStamp == own;
      assert log[y].timeStamp == own;
    } else if own != 0 {
      LatestBounds(LastWindow(calls, n, d));
      NewerMembers(log, LastBound(calls, n, d));
      var e :| e in LastWindow(calls, n, d) && e.timeStamp == own;
      var y :| 0 <= y < |log| && log[y] == e;
    }
  }

  // ---- what is returned, and what is lost, whatever the clocks ----

  /** A covered sample is at or below every bound the device will be queried with from now on. */
  ghost predicate Settled(calls: seq<Call>, n: nat, d: U32)
    requires RunOf(calls, n) && d < n
  {
    forall y :: 0 <= y < Covered(calls, n, d) ==>
      Log(calls, d)[y].timeStamp <= Bound(SeenAfter(calls, n), d, Asked(calls))
  }

  lemma {:induction false} StaysSettled(calls: seq<Call>, n: nat, d: U32)
    requires RunOf(calls, n) && d < n && BoundsRise(calls)
    ensures Settled(calls, n, d)
  {
    if calls != [] {
      StaysSettled(Prev(calls), n, d);
      SeenStep(calls, n, d);
      var was, log := Log(Prev(calls), d), Log(calls, d);
      assert forall y :: 0 <= y < |was| ==> log[y] == was[y];
      NewerMembers(log, LastBound(calls, n, d));
      LatestBounds(LastWindow(calls, n, d));
      forall y | 0 <= y < Covered(calls, n, d)
        ensures log[y].timeStamp <= Bound(SeenAfter(calls, n), d, Asked(calls))
      {
        assert log[y] in log;
      }
    }
  }

  /** The recorded samples no answered query has had in front of it before the last call. */
  ghost function Pending(calls: seq<Call>, n: nat, d: U32): seq<Event>
    requires RunOf(calls, n) && d < n && calls != []
  {
    Log(calls, d)[Covered(Prev(calls), n, d)..]
  }

  /** An answered query returns exactly the pending samples above its bound. */
  lemma {:induction false} AnswerReturns(calls: seq<Call>, n: nat, d: U32)
    requires RunOf(calls, n) && d < n && calls != [] && Answers(calls, n, d) && BoundsRise(calls)
    ensures LastWindow(calls, n, d) == Newer(Pending(calls, n, d), LastBound(calls, n, d))
  {
    StaysSettled(Prev(calls), n, d);
    var was, log, c, t := Log(Prev(calls), d), Log(calls, d), Covered(Prev(calls), n, d), LastBound(calls, n, d);
    assert forall y :: 0 <= y < |was| ==> log[y] == was[y];
    NewerSplits(log, c, t, t);
  }

  /** When the log rises, that is those above the caller's minimum. */
  lemma {:induction false} AnswerKeeps(calls: seq<Call>, n: nat, d: U32)
    requires RunOf(calls, n) && d < n && calls != [] && Answers(calls, n, d)
    requires BoundsRise(calls) && LogRises(calls, n, d)
    ensures LastWindow(calls, n, d) == Newer(Pending(calls, n, d), Last(calls).lastSeen)
  {
    AnswerReturns(calls, n, d);
    StaysAhead(Prev(calls), n, d);
    PendingAhead(calls, n, d);
    NewerSplits(Pending(calls, n, d), 0, LastBound(calls, n, d), Last(calls).lastSeen);
    assert Pending(calls, n, d)[0..] == Pending(calls, n, d);
  }

  /** The first c samples are at or below bound t, the others above `own`, and t is the larger
      of `own` and `least`. */
  lemma {:induction false} NewerSplits(log: seq<Event>, c: nat, t: U64, least: U64)
    requires c <= |log| && least <= t
    requires forall y :: 0 <= y < c ==> log[y].timeStamp <= t
    requires forall x :: c <= x < |log| ==> (log[x].timeStamp > t <==> log[x].timeStamp > least)
    ensures Newer(log, t) == Newer(log[c..], least)
  {
    if log != [] {
      if c == |log| {
        NewerSplits(Prev(log), c - 1, t, least);
        assert Prev(log)[c - 1..] == log[c..];
      } else {
        NewerSplits(Prev(log), c, t, least);
        assert Prev(log[c..]) == Prev(log)[c..];
      }
    }
  }

  lemma {:induction false} NewerOfAll(log: seq<Event>, t: U64)
    ensures |Newer(log, t)| <= |log|
    ensures |Newer(log, t)| == |log| <==> forall x :: 0 <= x < |log| ==> log[x].timeStamp > t
    ensures |Newer(log, t)| == |log| ==> Newer(log, t) == log
  {
    if log != [] {
      NewerOfAll(Prev(log), t);
      assert log == Prev(log) + [Last(log)];
    }
  }

  /** What the minimum has passed is lost: from then on no sample timestamped at or below it is
      returned, however late it is recorded. With an NVML unit coarser than the host's, that is
      every sample from the first minimum on. */
  lemma {:induction false} PassedIsLost(calls: seq<Call>, n: nat, d: U32, j: nat, e: Event)
    requires RunOf(calls, n) && d < n && j <= |calls|
    requires StampsRise(calls) && PollerDriven(calls, n)
    requires RunOf(calls[..j], n) && e.timeStamp <= MinLast(PolledAfter(calls[..j], n))
    ensures multiset(Returned(calls, n, d))[e] == multiset(Returned(calls[..j], n, d))[e]
  {
    if j == |calls| {
      assert calls[..j] == calls;
    } else {
      assert Prev(calls)[..j] == calls[..j];
      PassedIsLost(Prev(calls), n, d, j, e);
      MinimumNeverDecreases(Prev(calls), n, j);
      NewerCounts(Log(calls, d), LastBound(calls, n, d), e);
      SilentUnlessAnswered(calls, n, d);
      CountConcat(Returned(Prev(calls), n, d), LastWindow(calls, n, d), e);
    }
  }

  /** What can pass a pending sample: the device's own watermark, the minimum the caller hands
      down, or the larger of the two, which is the bound of the query. */
  datatype Mark = Own | Minimum | Effective

  ghost function Height(calls: seq<Call>, n: nat, d: U32, mark: Mark): U64
    requires RunOf(calls, n) && calls != []
  {
    match mark
    case Own => Get(SeenAfter(Prev(calls), n), d)
    case Minimum => Last(calls).lastSeen
    case Effective => LastBound(calls, n, d)
  }

  /** The last query was answered when the mark had already reached a sample still pending. */
  ghost predicate Overtakes(calls: seq<Call>, n: nat, d: U32, mark: Mark)
    requires RunOf(calls, n) && d < n && calls != []
  {
    && Answers(calls, n, d)
    && exists x :: Covered(Prev(calls), n, d) <= x < |Log(calls, d)|
                   && Log(calls, d)[x].timeStamp <= Height(calls, n, d, mark)
  }

  /** Some query after the first j overtook a pending sample. */
  ghost predicate OvertakenSince(calls: seq<Call>, n: nat, d: U32, j: nat, mark: Mark)
    requires RunOf(calls, n) && d < n
  {
    |calls| > j && (OvertakenSince(Prev(calls), n, d, j, mark) || Overtakes(calls, n, d, mark))
  }

  ghost predicate Overtaken(calls: seq<Call>, n: nat, d: U32)
    requires RunOf(calls, n) && d < n
  {
    OvertakenSince(calls, n, d, 0, Effective)
  }

  /** One of the two watermarks is to blame for every loss. */
  lemma {:induction false} EitherMark(calls: seq<Call>, n: nat, d: U32, j: nat)
    requires RunOf(calls, n) && d < n
    ensures OvertakenSince(calls, n, d, j, Effective)
            <==> OvertakenSince(calls, n, d, j, Own) || OvertakenSince(calls, n, d, j, Minimum)
  {
    if |calls| > j {
      EitherMark(Prev(calls), n, d, j);
    }
  }

  /** In a log that rises from query to query nothing is lost to the device's own watermark. */
  lemma {:induction false} RisingLogPassesOwn(calls: seq<Call>, n: nat, d: U32, j: nat)
    requires RunOf(calls, n) && d < n && LogRises(calls, n, d)
    ensures !OvertakenSince(calls, n, d, j, Own)
  {
    if |calls| > j {
      RisingLogPassesOwn(Prev(calls), n, d, j);
      StaysAhead(Prev(calls), n, d);
      PendingAhead(calls, n, d);
    }
  }

  /** Since its first j calls the run has returned exactly what became covered, in order. */
  ghost predicate CompleteSince(calls: seq<Call>, n: nat, d: U32, j: nat)
    requires RunOf(calls, n) && d < n && j <= |calls| && RunOf(calls[..j], n)
  {
    && Covered(calls[..j], n, d) <= Covered(calls, n, d)
    && Returned(calls, n, d)
       == Returned(calls[..j], n, d) + Log(calls, d)[Covered(calls[..j], n, d)..Covered(calls, n, d)]
  }

  /** What a run has returned is exactly the covered part of the log, in order. */
  ghost predicate Complete(calls: seq<Call>, n: nat, d: U32)
    requires RunOf(calls, n) && d < n
  {
    Returned(calls, n, d) == Log(calls, d)[..Covered(calls, n, d)]
  }

  lemma Joined(base: seq<Event>, was: seq<Event>, log: seq<Event>, a: nat, b: nat, c: nat)
    requires was <= log && a <= b <= |was| && b <= c <= |log|
    ensures (base + was[a..b]) + log[b..c] == base + log[a..c]
  {
    assert forall y :: 0 <= y < |was| ==> log[y] == was[y];
  }

  /** A query that overtakes nothing returns exactly what it newly covers. */
  lemma {:induction false} NothingLostNow(calls: seq<Call>, n: nat, d: U32)
    requires RunOf(calls, n) && d < n && calls != [] && BoundsRise(calls)
    requires !Overtakes(calls, n, d, Effective)
    ensures Covered(Prev(calls), n, d) <= Covered(calls, n, d)
    ensures LastWindow(calls, n, d) == Log(calls, d)[Covered(Prev(calls), n, d)..Covered(calls, n, d)]
  {
    SilentUnlessAnswered(calls, n, d);
    if Answers(calls, n, d) {
      AnswerReturns(calls, n, d);
      NewerOfAll(Pending(calls, n, d), LastBound(calls, n, d));
    }
  }

  lemma {:induction false} NothingLostSince(calls: seq<Call>, n: nat, d: U32, j: nat)
    requires RunOf(calls, n) && d < n && j <= |calls| && BoundsRise(calls)
    requires !OvertakenSince(calls, n, d, j, Effective)
    ensures RunOf(calls[..j], n) && CompleteSince(calls, n, d, j)
  {
    if j == |calls| {
      assert calls[..j] == calls;
    } else {
      assert Prev(calls)[..j] == calls[..j];
      NothingLostSince(Prev(calls), n, d, j);
      NothingLostNow(calls, n, d);
      Joined(Returned(calls[..j], n, d), Log(Prev(calls), d), Log(calls, d),
             Covered(calls[..j], n, d), Covered(Prev(calls), n, d), Covered(calls, n, d));
    }
  }

  lemma {:induction false} StillComplete(calls: seq<Call>, n: nat, d: U32, j: nat)
    requires RunOf(calls, n) && d < n && j <= |calls| && RunOf(calls[..j], n)
    requires CompleteSince(calls, n, d, j)
    ensures Complete(calls[..j], n, d) ==> Complete(calls, n, d)
  {
    PrefixRun(calls, n, d, j);
    var a, c, was, log := Covered(calls[..j], n, d), Covered(calls, n, d), Log(calls[..j], d), Log(calls, d);
    Joined([], was, log, 0, a, c);
    assert [] + was[0..a] == was[..a] && [] + log[0..c] == log[..c];
  }

  /** A query returns as many samples as it newly covers, or fewer if it overtakes some. */
  lemma {:induction false} LossNow(calls: seq<Call>, n: nat, d: U32)
    requires RunOf(calls, n) && d < n && calls != [] && BoundsRise(calls)
    ensures |LastWindow(calls, n, d)| <= Covered(calls, n, d) - Covered(Prev(calls), n, d)
    ensures Overtakes(calls, n, d, Effective) ==>
              |LastWindow(calls, n, d)| < Covered(calls, n, d) - Covered(Prev(calls), n, d)
  {
    SilentUnlessAnswered(calls, n, d);
    if Answers(calls, n, d) {
      AnswerReturns(calls, n, d);
      NewerOfAll(Pending(calls, n, d), LastBound(calls, n, d));
      if Overtakes(calls, n, d, Effective) {
        var c := Covered(Prev(calls), n, d);
        var x :| c <= x < |Log(calls, d)| && Log(calls, d)[x].timeStamp <= LastBound(calls, n, d);
        assert Pending(calls, n, d)[x - c] == Log(calls, d)[x];
      }
    }
  }

  /** An overtaken run has returned fewer samples than it has covered, for good. */
  lemma {:induction false} LossIsFinal(calls: seq<Call>, n: nat, d: U32, j: nat)
    requires RunOf(calls, n) && d < n && j <= |calls| && BoundsRise(calls)
    ensures RunOf(calls[..j], n)
    ensures |Returned(calls, n, d)| - |Returned(calls[..j], n, d)| <= Covered(calls, n, d) - Covered(calls[..j], n, d)
    ensures OvertakenSince(calls, n, d, j, Effective) ==>
              |Returned(calls, n, d)| - |Returned(calls[..j], n, d)| < Covered(calls, n, d) - Covered(calls[..j], n, d)
  {
    if j == |calls| {
      assert calls[..j] == calls;
    } else {
      assert Prev(calls)[..j] == calls[..j];
      LossIsFinal(Prev(calls), n, d, j);
      LossNow(calls, n, d);
    }
  }

  /** Whatever the clocks, the units and the log: from any call on, what becomes covered is
      returned exactly once and in order if and only if no query was answered with its bound
      already at or past a pending sample. */
  lemma {:induction false} NoLossSinceIff(calls: seq<Call>, n: nat, d: U32, j: nat)
    requires RunOf(calls, n) && d < n && j <= |calls| && BoundsRise(calls)
    ensures RunOf(calls[..j], n)
    ensures CompleteSince(calls, n, d, j) <==> !OvertakenSince(calls, n, d, j, Effective)
  {
    LossIsFinal(calls, n, d, j);
    if !OvertakenSince(calls, n, d, j, Effective) {
      NothingLostSince(calls, n, d, j);
    }
  }

  /** The same for the whole run. */
  lemma {:induction false} NoLossIff(calls: seq<Call>, n: nat, d: U32)
    requires RunOf(calls, n) && d < n && BoundsRise(calls)
    ensures Complete(calls, n, d) <==> !Overtaken(calls, n, d)
  {
    NoLossSinceIff(calls, n, d, 0);
    var none, log, c := calls[..0], Log(calls, d), Covered(calls, n, d);
    assert none == [] && Returned(none, n, d) == [] && Covered(none, n, d) == 0;
    assert [] + log[0..c] == log[..c];
  }

  /** When the log rises, losses are exactly the samples the caller's minimum overtook. */
  lemma {:induction false} RisingNoLossIff(calls: seq<Call>, n: nat, d: U32, j: nat)
    requires RunOf(calls, n) && d < n && j <= |calls| && BoundsRise(calls) && LogRises(calls, n, d)
    ensures RunOf(calls[..j], n)
    ensures CompleteSince(calls, n, d, j) <==> !OvertakenSince(calls, n, d, j, Minimum)
  {
    NoLossSinceIff(calls, n, d, j);
    EitherMark(calls, n, d, j);
    RisingLogPassesOwn(calls, n, d, j);
  }

  // ---- one shared clock and unit ----

  /** A pending sample is newer than the device's own entry in the poller, if it has one. */
  lemma {:induction false} EntryHoldsBack(calls: seq<Call>, n: nat, d: U32)
    requires RunOf(calls, n) && d < n
    requires StampsRise(calls) && StampsPrecede(calls, n, d) && HonestSoft(calls, n, d)
    ensures d in PolledAfter(calls, n) ==>
              forall x :: Covered(calls, n, d) <= x < |Log(calls, d)| ==>
                Log(calls, d)[x].timeStamp > PolledAfter(calls, n)[d]
  {
    if calls != [] {
      EntryHoldsBack(Prev(calls), n, d);
      SilentUnlessAnswered(calls, n, d);
      if !Answers(calls, n, d) {
        HardFailureFreezesEntry(calls, n, d);
        StampsBoundWatermarks(Prev(calls), n);
        assert forall y :: 0 <= y < |Log(Prev(calls), d)| ==> Log(calls, d)[y] == Log(Prev(calls), d)[y];
      }
    }
  }

  lemma {:induction false} HardFailureFreezesEntry(calls: seq<Call>, n: nat, d: U32)
    requires RunOf(calls, n) && d < n && calls != [] && FailsHard(calls, n, d)
    ensures d in PolledAfter(calls, n) <==> d in PolledAfter(Prev(calls), n)
    ensures Get(PolledAfter(calls, n), d) == Get(PolledAfter(Prev(calls), n), d)
  {
    OutStamped(calls, n);
    ObserveStamped(PolledAfter(Prev(calls), n), LastOut(calls, n), LastStamp(calls), d);
    if s :| s in LastOut(calls, n) && s.device == d {
      InSweep(SeenAfter(Prev(calls), n), Last(calls), s);
    }
  }

  /** The minimum overtakes something only if the device has no entry in the poller's map and its
      previous query failed hard. */
  lemma {:induction false} LossNeedsFailureWithoutEntry(calls: seq<Call>, n: nat, d: U32)
    requires RunOf(calls, n) && d < n && calls != []
    requires StampsRise(calls) && StampsPrecede(calls, n, d) && HonestSoft(calls, n, d) && PollerDriven(calls, n)
    requires Overtakes(calls, n, d, Minimum)
    ensures d !in PolledAfter(Prev(calls), n)
    ensures Prev(calls) != [] && FailsHard(Prev(calls), n, d)
  {
    EntryHoldsBack(Prev(calls), n, d);
    StampsBoundWatermarks(Prev(calls), n);
    var p, was, log := PolledAfter(Prev(calls), n), Log(Prev(calls), d), Log(calls, d);
    assert IsMinimum(p, MinLast(p));
    assert forall y :: 0 <= y < |was| ==> log[y] == was[y];
  }

  ghost predicate NeverFailsHard(calls: seq<Call>, n: nat, d: U32)
    requires RunOf(calls, n) && d < n
  {
    calls == [] || (NeverFailsHard(Prev(calls), n, d) && !FailsHard(calls, n, d))
  }

  /** With no hard failure of the device, whatever the other devices do, a run returns the
      device's log, each sample once and in order, if and only if the device's own watermark
      never passed a sample still pending. */
  lemma {:induction false} ExactlyOnceIff(calls: seq<Call>, n: nat, d: U32)
    requires RunOf(calls, n) && d < n
    requires StampsRise(calls) && StampsPrecede(calls, n, d) && HonestSoft(calls, n, d) && PollerDriven(calls, n)
    requires NeverFailsHard(calls, n, d)
    ensures Returned(calls, n, d) == Log(calls, d) <==> !OvertakenSince(calls, n, d, 0, Own)
  {
    NeverPastMinimum(calls, n, d);
    EitherMark(calls, n, d, 0);
    PollerBoundsRise(calls, n);
    NoLossIff(calls, n, d);
    assert Log(calls, d)[..|Log(calls, d)|] == Log(calls, d);
  }

  lemma {:induction false} NeverPastMinimum(calls: seq<Call>, n: nat, d: U32)
    requires RunOf(calls, n) && d < n
    requires StampsRise(calls) && StampsPrecede(calls, n, d) && HonestSoft(calls, n, d) && PollerDriven(calls, n)
    requires NeverFailsHard(calls, n, d)
    ensures !OvertakenSince(calls, n, d, 0, Minimum) && Covered(calls, n, d) == |Log(calls, d)|
  {
    if calls != [] {
      NeverPastMinimum(Prev(calls), n, d);
      SilentUnlessAnswered(calls, n, d);
      if Overtakes(calls, n, d, Minimum) {
        LossNeedsFailureWithoutEntry(calls, n, d);
      }
    }
  }

  /** Exactly once: on a shared clock, with no hard failure of the device, a run returns the
      device's log, each sample once, in order. */
  lemma {:induction false} ExactlyOnce(calls: seq<Call>, n: nat, d: U32)
    requires RunOf(calls, n) && d < n
    requires SharedClock(calls, n, d) && HonestSoft(calls, n, d) && PollerDriven(calls, n)
    requires NeverFailsHard(calls, n, d)
    ensures Returned(calls, n, d) == Log(calls, d)
  {
    RisingLogPassesOwn(calls, n, d, 0);
    ExactlyOnceIff(calls, n, d);
  }

  /** Once the device has an entry in the poller's map, no further pattern of hard failures of any
      device loses a sample: losses are exactly those to the device's own watermark. */
  lemma {:induction false} FailureToleranceIff(calls: seq<Call>, n: nat, d: U32, j: nat)
    requires RunOf(calls, n) && d < n && j <= |calls|
    requires StampsRise(calls) && StampsPrecede(calls, n, d) && HonestSoft(calls, n, d) && PollerDriven(calls, n)
    requires RunOf(calls[..j], n) && d in PolledAfter(calls[..j], n)
    ensures CompleteSince(calls, n, d, j) <==> !OvertakenSince(calls, n, d, j, Own)
  {
    EntryProtects(calls, n, d, j);
    EitherMark(calls, n, d, j);
    PollerBoundsRise(calls, n);
    NoLossSinceIff(calls, n, d, j);
  }

  lemma {:induction false} EntryProtects(calls: seq<Call>, n: nat, d: U32, j: nat)
    requires RunOf(calls, n) && d < n && j <= |calls|
    requires StampsRise(calls) && StampsPrecede(calls, n, d) && HonestSoft(calls, n, d) && PollerDriven(calls, n)
    requires RunOf(calls[..j], n) && d in PolledAfter(calls[..j], n)
    ensures !OvertakenSince(calls, n, d, j, Minimum) && d in PolledAfter(calls, n)
  {
    if j == |calls| {
      assert calls[..j] == calls;
    } else {
      assert Prev(calls)[..j] == calls[..j];
      EntryProtects(Prev(calls), n, d, j);
      if Overtakes(calls, n, d, Minimum) {
        LossNeedsFailureWithoutEntry(calls, n, d);
      }
      ObserveRaises(PolledAfter(Prev(calls), n), LastOut(calls, n));
    }
  }

  /** Failure tolerance on a shared clock: everything pending when the entry was made or recorded
      later is returned once and in order as soon as a query is answered. */
  lemma {:induction false} FailureTolerance(calls: seq<Call>, n: nat, d: U32, j: nat)
    requires RunOf(calls, n) && d < n && j <= |calls|
    requires SharedClock(calls, n, d) && HonestSoft(calls, n, d) && PollerDriven(calls, n)
    requires RunOf(calls[..j], n) && d in PolledAfter(calls[..j], n)
    ensures CompleteSince(calls, n, d, j)
    ensures calls != [] && !FailsHard(calls, n, d) ==> Covered(calls, n, d) == |Log(calls, d)|
    ensures Complete(calls[..j], n, d) ==> Complete(calls, n, d)
  {
    FailureToleranceIff(calls, n, d, j);
    RisingLogPassesOwn(calls, n, d, j);
    StillComplete(calls, n, d, j);
  }
}
