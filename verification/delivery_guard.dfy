/** What the host can check before a query. NVML's log is hidden from it: it sees the answers,
    the samples returned and its own stamps. A query is safe when the bound handed down has not
    passed both the stamp of the device's last answered query and the device's own watermark.
    That is enough for every log, and without it some log consistent with all the host has seen
    loses a sample. */
module DeliveryGuard {
  import opened Telemetry
  import opened Sampler
  import opened SamplerLaws
  import opened Watermarks
  import opened Delivery

  /** How many calls there were up to the last one that did not fail hard on device d. */
  ghost function LastAnswered(calls: seq<Call>, n: nat, d: U32): (a: nat)
    requires RunOf(calls, n) && d < n
    ensures a <= |calls|
  {
    if calls == [] then 0
    else if !FailsHard(calls, n, d) then |calls|
    else LastAnswered(Prev(calls), n, d)
  }

  /** The stamp of that call, zero if there was none. */
  ghost function LastAnswer(calls: seq<Call>, n: nat, d: U32): U64
    requires RunOf(calls, n) && d < n
  {
    LastStamp(calls[..LastAnswered(calls, n, d)])
  }

  /** The bound handed to device d by the last call was one that no log can make unsafe. */
  ghost predicate SafeBound(calls: seq<Call>, n: nat, d: U32)
    requires RunOf(calls, n) && d < n && calls != []
  {
    Last(calls).lastSeen <= Max(LastAnswer(Prev(calls), n, d), Get(SeenAfter(Prev(calls), n), d))
  }

  /** Every query that did not fail hard had a safe bound. */
  ghost predicate Guarded(calls: seq<Call>, n: nat, d: U32)
    requires RunOf(calls, n) && d < n
  {
    calls == [] || (Guarded(Prev(calls), n, d) && (FailsHard(calls, n, d) || SafeBound(calls, n, d)))
  }

  // ---- runs the host cannot tell apart ----

  function WithLog(c: Call, d: U32, log: seq<Event>): Call
    requires d < |c.probes|
  {
    c.(probes := c.probes[d := c.probes[d].(log := log)])
  }

  /** The same calls, answers and returned samples; only the log of device d may differ. */
  ghost predicate Alike(run: seq<Call>, calls: seq<Call>, n: nat, d: U32)
    requires RunOf(calls, n) && d < n
  {
    && RunOf(run, n)
    && if calls == [] then run == []
       else
         && run != [] && Alike(Prev(run), Prev(calls), n, d)
         && Last(run) == WithLog(Last(calls), d, Log(run, d))
         && LastWindow(run, n, d) == LastWindow(calls, n, d)
  }

  /** A sweep sees a device's log only through the samples returned. */
  lemma {:induction false} SweepAlike(seen: map<U32, U64>, c: Call, d: U32, log: seq<Event>, k: nat)
    requires WellFormed(c) && d < |c.probes| && k <= |c.probes|
    requires WindowOf(seen, WithLog(c, d, log), d) == WindowOf(seen, c, d)
    ensures VisitFirst(seen, WithLog(c, d, log), k) == VisitFirst(seen, c, k)
  {
    if k > 0 {
      SweepAlike(seen, c, d, log, k - 1);
      SweepShaped(seen, c, k - 1);
    }
  }

  lemma {:induction false} WalksAlike(seen: map<U32, U64>, c: Call, d: U32, log: seq<Event>)
    requires WellFormed(c) && d < |c.probes|
    requires WindowOf(seen, WithLog(c, d, log), d) == WindowOf(seen, c, d)
    requires Walks(seen, c)
    ensures Walks(seen, WithLog(c, d, log))
  {
    var c' := WithLog(c, d, log);
    forall i | 0 <= i < |c'.probes| && !c'.probes[i].answer.HardError?
      ensures Enumerates(c'.orders[i],
                         MergeDevice(VisitFirst(seen, c', i), i, c'.probes[i], c.lastSeen, c.stamp).mem.Keys)
    {
      SweepAlike(seen, c, d, log, i);
      SweepShaped(seen, c, i);
      assert MergeDevice(VisitFirst(seen, c', i), i, c'.probes[i], c.lastSeen, c.stamp)
          == MergeDevice(VisitFirst(seen, c, i), i, c.probes[i], c.lastSeen, c.stamp);
    }
  }

  lemma {:induction false} AlikeState(run: seq<Call>, calls: seq<Call>, n: nat, d: U32)
    requires RunOf(calls, n) && d < n && Alike(run, calls, n, d)
    ensures |run| == |calls| && LastStamp(run) == LastStamp(calls)
    ensures SeenAfter(run, n) == SeenAfter(calls, n) && PolledAfter(run, n) == PolledAfter(calls, n)
    ensures Returned(run, n, d) == Returned(calls, n, d)
    ensures StampsRise(calls) ==> StampsRise(run)
    ensures PollerDriven(calls, n) ==> PollerDriven(run, n)
    ensures RealRun(calls, n) ==> RealRun(run, n)
  {
    if calls != [] {
      AlikeState(Prev(run), Prev(calls), n, d);
      SweepAlike(SeenAfter(Prev(calls), n), Last(calls), d, Log(run, d), n);
      if RealRun(calls, n) {
        WalksAlike(SeenAfter(Prev(calls), n), Last(calls), d, Log(run, d));
      }
    }
  }

  lemma {:induction false} AlikeGuard(run: seq<Call>, calls: seq<Call>, n: nat, d: U32)
    requires RunOf(calls, n) && d < n && Alike(run, calls, n, d)
    ensures LastAnswered(run, n, d) == LastAnswered(calls, n, d)
    ensures LastAnswer(run, n, d) == LastAnswer(calls, n, d)
    ensures Guarded(run, n, d) <==> Guarded(calls, n, d)
  {
    AlikeState(run, calls, n, d);
    if calls != [] {
      AlikeState(Prev(run), Prev(calls), n, d);
      AlikeGuard(Prev(run), Prev(calls), n, d);
      LastAnswerStep(run, n, d);
      LastAnswerStep(calls, n, d);
    }
  }

  lemma {:induction false} LastAnswerStep(calls: seq<Call>, n: nat, d: U32)
    requires RunOf(calls, n) && d < n && calls != []
    ensures LastAnswer(calls, n, d)
         == if FailsHard(calls, n, d) then LastAnswer(Prev(calls), n, d) else LastStamp(calls)
  {
    var a := LastAnswered(Prev(calls), n, d);
    assert Prev(calls)[..a] == calls[..a];
    assert calls[..|calls|] == calls;
  }

  lemma {:induction false} AlikeItself(calls: seq<Call>, n: nat, d: U32)
    requires RunOf(calls, n) && d < n
    ensures Alike(calls, calls, n, d)
  {
    if calls != [] {
      AlikeItself(Prev(calls), n, d);
      var c := Last(calls);
      assert c.probes[d := c.probes[d]] == c.probes;
    }
  }

  // ---- a safe bound overtakes nothing ----

  lemma {:induction false} PendingAfterAnswer(calls: seq<Call>, n: nat, d: U32)
    requires RunOf(calls, n) && d < n && SharedClock(calls, n, d) && HonestSoft(calls, n, d)
    ensures LastAnswer(calls, n, d) <= LastStamp(calls)
    ensures forall x :: Covered(calls, n, d) <= x < |Log(calls, d)| ==>
              Log(calls, d)[x].timeStamp > LastAnswer(calls, n, d)
  {
    if calls != [] {
      PendingAfterAnswer(Prev(calls), n, d);
      LastAnswerStep(calls, n, d);
      SilentUnlessAnswered(calls, n, d);
      assert forall y :: 0 <= y < |Log(Prev(calls), d)| ==> Log(calls, d)[y] == Log(Prev(calls), d)[y];
    }
  }

  /** Whatever the log, a query with a safe bound overtakes nothing. */
  lemma {:induction false} SafeQuery(calls: seq<Call>, n: nat, d: U32)
    requires RunOf(calls, n) && d < n && calls != []
    requires SharedClock(calls, n, d) && HonestSoft(calls, n, d) && SafeBound(calls, n, d)
    ensures !Overtakes(calls, n, d, Effective)
  {
    PendingAfterAnswer(Prev(calls), n, d);
    StaysAhead(Prev(calls), n, d);
    PendingAhead(calls, n, d);
    assert forall y :: 0 <= y < |Log(Prev(calls), d)| ==> Log(calls, d)[y] == Log(Prev(calls), d)[y];
  }

  lemma {:induction false} GuardedLosesNothing(calls: seq<Call>, n: nat, d: U32)
    requires RunOf(calls, n) && d < n
    requires SharedClock(calls, n, d) && HonestSoft(calls, n, d) && Guarded(calls, n, d)
    ensures !Overtaken(calls, n, d)
  {
    if calls != [] {
      GuardedLosesNothing(Prev(calls), n, d);
      if !FailsHard(calls, n, d) {
        SafeQuery(calls, n, d);
      }
    }
  }

  // ---- without a safe bound, a sample the host never hears of ----

  function Insert(log: seq<Event>, p: nat, e: Event): seq<Event> {
    if p <= |log| then log[..p] + [e] + log[p..] else log + [e]
  }

  lemma {:induction false} NewerInsert(log: seq<Event>, p: nat, e: Event, t: U64)
    requires p <= |log| && e.timeStamp <= t
    ensures Newer(Insert(log, p, e), t) == Newer(log, t)
  {
    if p == |log| {
      assert Prev(Insert(log, p, e)) == log;
    } else {
      assert Prev(Insert(log, p, e)) == Insert(Prev(log), p, e);
      NewerInsert(Prev(log), p, e, t);
    }
  }

  /** From call a on, no query can return e: it fails hard or its bound has passed e. */
  ghost predicate Unseen(calls: seq<Call>, n: nat, d: U32, a: nat, e: Event)
    requires RunOf(calls, n) && d < n
  {
    |calls| <= a ||
    (Unseen(Prev(calls), n, d, a, e) && (FailsHard(calls, n, d) || e.timeStamp <= LastBound(calls, n, d)))
  }

  /** run is calls with e planted in the log of device d from call a on. */
  ghost predicate Planted(run: seq<Call>, calls: seq<Call>, n: nat, d: U32, a: nat, p: nat, e: Event)
    requires RunOf(calls, n) && d < n
  {
    && Alike(run, calls, n, d) && p <= |Log(calls, d)|
    && if |calls| <= a then run == calls
       else Log(run, d) == Insert(Log(calls, d), p, e) && Planted(Prev(run), Prev(calls), n, d, a, p, e)
  }

  lemma {:induction false} PlantAlike(calls: seq<Call>, n: nat, d: U32, a: nat, p: nat, e: Event)
    returns (run: seq<Call>)
    requires RunOf(calls, n) && d < n && a <= |calls|
    requires RunOf(calls[..a], n) && p == |Log(calls[..a], d)| && Unseen(calls, n, d, a, e)
    ensures Planted(run, calls, n, d, a, p, e)
  {
    if |calls| == a {
      run := calls;
      AlikeItself(calls, n, d);
      assert calls[..a] == calls;
    } else {
      assert Prev(calls)[..a] == calls[..a];
      var before := PlantAlike(Prev(calls), n, d, a, p, e);
      run := before + [WithLog(Last(calls), d, Insert(Log(calls, d), p, e))];
      assert Prev(run) == before;
      assert |Prev(calls)| == a ==> Prev(calls) == calls[..a];
      PlantStep(run, calls, n, d, a, p, e);
    }
  }

  lemma {:induction false} PlantRuns(run: seq<Call>, calls: seq<Call>, n: nat, d: U32, a: nat, p: nat, e: Event)
    requires RunOf(calls, n) && d < n && a < |calls| && run != []
    requires Planted(Prev(run), Prev(calls), n, d, a, p, e)
    requires |Prev(calls)| == a ==> p == |Log(Prev(calls), d)|
    requires Last(run) == WithLog(Last(calls), d, Insert(Log(calls, d), p, e))
    ensures RunOf(run, n)
  {
    InsertGrows(Log(Prev(calls), d), Log(calls, d), p, e);
    AlikeLogs(Prev(run), Prev(calls), n, d);
    forall i: U32 | i < n ensures Log(Prev(run), i) <= Log(run, i) {
      if i != d {
        assert Log(run, i) == Log(calls, i);
      }
    }
  }

  lemma {:induction false} PlantStep(run: seq<Call>, calls: seq<Call>, n: nat, d: U32, a: nat, p: nat, e: Event)
    requires RunOf(calls, n) && d < n && a < |calls| && run != []
    requires Planted(Prev(run), Prev(calls), n, d, a, p, e)
    requires |Prev(calls)| == a ==> p == |Log(Prev(calls), d)|
    requires Last(run) == WithLog(Last(calls), d, Insert(Log(calls, d), p, e))
    requires FailsHard(calls, n, d) || e.timeStamp <= LastBound(calls, n, d)
    ensures Planted(run, calls, n, d, a, p, e)
  {
    PlantRuns(run, calls, n, d, a, p, e);
    AlikeState(Prev(run), Prev(calls), n, d);
    assert p <= |Log(Prev(calls), d)| <= |Log(calls, d)|;
    if Last(calls).probes[d].answer.Success? {
      NewerInsert(Log(calls, d), p, e, LastBound(calls, n, d));
    }
  }

  lemma InsertGrows(was: seq<Event>, log: seq<Event>, p: nat, e: Event)
    requires was <= log && p <= |was|
    ensures Insert(was, p, e) <= Insert(log, p, e)
    ensures p == |was| ==> was <= Insert(log, p, e)
  {
  }

  lemma {:induction false} AlikeLogs(run: seq<Call>, calls: seq<Call>, n: nat, d: U32)
    requires RunOf(calls, n) && d < n && Alike(run, calls, n, d)
    ensures forall i: U32 :: i < n && i != d ==> Log(run, i) == Log(calls, i)
  {
  }

  /** Where e may be planted: after all the device had at call a, before all that came later. */
  ghost predicate Fits(calls: seq<Call>, n: nat, d: U32, a: nat, p: nat, e: Event)
    requires RunOf(calls, n) && d < n && a <= |calls| && RunOf(calls[..a], n)
  {
    && p == |Log(calls[..a], d)|
    && LaterThan(e.timeStamp, Log(calls[..a], d)) && e.timeStamp > LastStamp(calls[..a])
    && forall x :: p <= x < |Log(calls, d)| ==> Log(calls, d)[x].timeStamp > e.timeStamp
  }

  lemma {:induction false} FitsBefore(calls: seq<Call>, n: nat, d: U32, a: nat, p: nat, e: Event)
    requires RunOf(calls, n) && d < n && a < |calls| && RunOf(calls[..a], n) && Fits(calls, n, d, a, p, e)
    ensures Prev(calls)[..a] == calls[..a] && Fits(Prev(calls), n, d, a, p, e)
  {
    assert forall y :: 0 <= y < |Log(Prev(calls), d)| ==> Log(calls, d)[y] == Log(Prev(calls), d)[y];
  }

  /** One query's worth of clock discipline, with e in the log; first says e is new to it. */
  lemma {:induction false} InsertLater(was: seq<Event>, log: seq<Event>, p: nat, e: Event, stamp: U64, first: bool)
    requires was <= log && p <= |was|
    requires forall x :: |was| <= x < |log| ==> log[x].timeStamp > stamp && LaterThan(log[x].timeStamp, was)
    requires forall x :: p <= x < |log| ==> log[x].timeStamp > e.timeStamp
    requires first ==> p == |was| && e.timeStamp > stamp && LaterThan(e.timeStamp, was)
    ensures var now, before := Insert(log, p, e), if first then was else Insert(was, p, e);
            forall x :: |before| <= x < |now| ==> now[x].timeStamp > stamp && LaterThan(now[x].timeStamp, before)
  {
    var now, before := Insert(log, p, e), if first then was else Insert(was, p, e);
    forall x | |before| <= x < |now| ensures now[x].timeStamp > stamp && LaterThan(now[x].timeStamp, before) {
      if !first || x > p {
        assert now[x] == log[x - 1] && LaterThan(log[x - 1].timeStamp, was);
        assert log[x - 1].timeStamp > e.timeStamp;
      }
    }
  }

  /** Planting keeps the shared clock, */
  lemma {:induction false} PlantedClock(run: seq<Call>, calls: seq<Call>, n: nat, d: U32, a: nat, p: nat, e: Event)
    requires RunOf(calls, n) && d < n && a <= |calls| && SharedClock(calls, n, d)
    requires RunOf(calls[..a], n) && Fits(calls, n, d, a, p, e) && Planted(run, calls, n, d, a, p, e)
    ensures SharedClock(run, n, d)
  {
    AlikeState(run, calls, n, d);
    if |calls| > a {
      FitsBefore(calls, n, d, a, p, e);
      PlantedClock(Prev(run), Prev(calls), n, d, a, p, e);
      AlikeState(Prev(run), Prev(calls), n, d);
      assert |Prev(calls)| == a ==> Prev(calls) == calls[..a];
      InsertLater(Log(Prev(calls), d), Log(calls, d), p, e, LastStamp(Prev(calls)), |Prev(calls)| == a);
    }
  }

  /** and the honesty of soft errors; what an answered query covers grows by one. */
  lemma {:induction false} PlantedHonest(run: seq<Call>, calls: seq<Call>, n: nat, d: U32, a: nat, p: nat, e: Event)
    requires RunOf(calls, n) && d < n && HonestSoft(calls, n, d) && Unseen(calls, n, d, a, e)
    requires Planted(run, calls, n, d, a, p, e)
    ensures HonestSoft(run, n, d)
    ensures Covered(run, n, d) == Covered(calls, n, d) + if LastAnswered(calls, n, d) > a then 1 else 0
  {
    if |calls| > a {
      PlantedHonest(Prev(run), Prev(calls), n, d, a, p, e);
      AlikeState(Prev(run), Prev(calls), n, d);
      SilentUnlessAnswered(calls, n, d);
      SilentUnlessAnswered(run, n, d);
      if !FailsHard(calls, n, d) {
        NewerInsert(Log(calls, d), p, e, LastBound(calls, n, d));
        assert Answers(run, n, d);
      }
    }
  }

  lemma {:induction false} LaterThanPrefix(calls: seq<Call>, n: nat, d: U32, k: nat)
    requires RunOf(calls, n) && d < n && k <= |calls| && StampsRise(calls) && StampsPrecede(calls, n, d)
    ensures LastStamp(calls[..k]) <= LastStamp(calls)
    ensures forall x :: |Log(calls[..k], d)| <= x < |Log(calls, d)| ==>
              Log(calls, d)[x].timeStamp > LastStamp(calls[..k])
  {
    if k == |calls| {
      assert calls[..k] == calls;
    } else {
      assert Prev(calls)[..k] == calls[..k];
      LaterThanPrefix(Prev(calls), n, d, k);
      assert forall y :: 0 <= y < |Log(Prev(calls), d)| ==> Log(calls, d)[y] == Log(Prev(calls), d)[y];
    }
  }

  /** Since the device's last answer nothing has become covered, nor has its own watermark moved. */
  lemma {:induction false} StillSinceAnswer(calls: seq<Call>, n: nat, d: U32, e: Event)
    requires RunOf(calls, n) && d < n && HonestSoft(calls, n, d)
    ensures var a := LastAnswered(calls, n, d);
            && RunOf(calls[..a], n)
            && Covered(calls, n, d) == Covered(calls[..a], n, d) == |Log(calls[..a], d)|
            && Get(SeenAfter(calls, n), d) == Get(SeenAfter(calls[..a], n), d)
            && Unseen(calls, n, d, a, e)
  {
    var a := LastAnswered(calls, n, d);
    if a == |calls| {
      assert calls[..a] == calls;
      if calls != [] {
        SilentUnlessAnswered(calls, n, d);
      }
    } else {
      assert Prev(calls)[..a] == calls[..a];
      StillSinceAnswer(Prev(calls), n, d, e);
      SilentUnlessAnswered(calls, n, d);
      SeenStep(calls, n, d);
    }
  }

  lemma {:induction false} PrefixKeeps(calls: seq<Call>, n: nat, d: U32, k: nat)
    requires RunOf(calls, n) && d < n && k <= |calls|
    requires SharedClock(calls, n, d) && HonestSoft(calls, n, d) && PollerDriven(calls, n)
    ensures RunOf(calls[..k], n)
    ensures SharedClock(calls[..k], n, d) && HonestSoft(calls[..k], n, d) && PollerDriven(calls[..k], n)
    ensures !Overtaken(calls, n, d) ==> !Overtaken(calls[..k], n, d)
    ensures LastAnswered(calls[..k], n, d) <= LastAnswered(calls, n, d)
  {
    if k == |calls| {
      assert calls[..k] == calls;
    } else {
      assert Prev(calls)[..k] == calls[..k];
      PrefixKeeps(Prev(calls), n, d, k);
    }
  }

  lemma {:induction false} FirstUnsafe(calls: seq<Call>, n: nat, d: U32) returns (k: nat)
    requires RunOf(calls, n) && d < n && !Guarded(calls, n, d)
    ensures 0 < k <= |calls| && RunOf(calls[..k], n)
    ensures !FailsHard(calls[..k], n, d) && !SafeBound(calls[..k], n, d)
  {
    if Guarded(Prev(calls), n, d) {
      k := |calls|;
      assert calls[..k] == calls;
    } else {
      k := FirstUnsafe(Prev(calls), n, d);
      assert Prev(calls)[..k] == calls[..k];
    }
  }

  /** All the device had recorded by its last answer is at or below the larger of that answer's
      stamp and its own watermark. */
  lemma {:induction false} AnsweredBelow(calls: seq<Call>, n: nat, d: U32, e: Event)
    requires RunOf(calls, n) && d < n
    requires SharedClock(calls, n, d) && HonestSoft(calls, n, d) && PollerDriven(calls, n)
    requires e.timeStamp > Max(LastAnswer(calls, n, d), Get(SeenAfter(calls, n), d))
    ensures var a := LastAnswered(calls, n, d);
            RunOf(calls[..a], n) && LaterThan(e.timeStamp, Log(calls[..a], d)) && e.timeStamp > LastStamp(calls[..a])
  {
    var a := LastAnswered(calls, n, d);
    StillSinceAnswer(calls, n, d, e);
    PrefixKeeps(calls, n, d, a);
    PollerBoundsRise(calls[..a], n);
    StaysSettled(calls[..a], n, d);
  }

  /** The k-th query is answered with an unsafe bound, and overtakes nothing that is there. */
  ghost predicate UnsafeAt(calls: seq<Call>, n: nat, d: U32, k: nat)
    requires RunOf(calls, n) && d < n
  {
    && SharedClock(calls, n, d) && HonestSoft(calls, n, d) && PollerDriven(calls, n) && !Overtaken(calls, n, d)
    && 0 < k <= |calls| && RunOf(calls[..k], n)
    && !FailsHard(calls[..k], n, d) && !SafeBound(calls[..k], n, d)
  }

  lemma {:induction false} PendingAbove(calls: seq<Call>, n: nat, d: U32)
    requires RunOf(calls, n) && d < n && calls != [] && Answers(calls, n, d) && !Overtaken(calls, n, d)
    ensures forall x :: Covered(Prev(calls), n, d) <= x < |Log(calls, d)| ==>
              Log(calls, d)[x].timeStamp > Last(calls).lastSeen
  {
    assert !Overtakes(calls, n, d, Effective);
  }

  lemma {:induction false} UnsafeAhead(calls: seq<Call>, n: nat, d: U32, k: nat, e: Event)
    requires RunOf(calls, n) && d < n && UnsafeAt(calls, n, d, k) && e.timeStamp <= Last(calls[..k]).lastSeen
    ensures forall x :: Covered(Prev(calls[..k]), n, d) <= x < |Log(calls, d)| ==>
              Log(calls, d)[x].timeStamp > e.timeStamp
  {
    var pre := calls[..k];
    PrefixKeeps(calls, n, d, k);
    StampsBoundWatermarks(Prev(pre), n);
    LaterThanPrefix(calls, n, d, k);
    PrefixRun(calls, n, d, k);
    SilentUnlessAnswered(pre, n, d);
    PendingAbove(pre, n, d);
    forall x | Covered(Prev(pre), n, d) <= x < |Log(calls, d)| ensures Log(calls, d)[x].timeStamp > e.timeStamp {
      if x < |Log(pre, d)| {
        assert Log(calls, d)[x] == Log(pre, d)[x];
      }
    }
  }

  lemma {:induction false} UnsafeFits(calls: seq<Call>, n: nat, d: U32, k: nat, e: Event) returns (a: nat, p: nat)
    requires RunOf(calls, n) && d < n && UnsafeAt(calls, n, d, k)
    requires e.timeStamp == Max(LastAnswer(Prev(calls[..k]), n, d), Get(SeenAfter(Prev(calls[..k]), n), d)) + 1
    ensures a == LastAnswered(Prev(calls[..k]), n, d) < k && RunOf(calls[..a], n) && Fits(calls, n, d, a, p, e)
  {
    var q := Prev(calls[..k]);
    a := LastAnswered(q, n, d);
    assert q == calls[..k - 1] && q[..a] == calls[..a];
    PrefixKeeps(calls, n, d, k);
    PrefixKeeps(calls, n, d, k - 1);
    AnsweredBelow(q, n, d, e);
    StillSinceAnswer(q, n, d, e);
    p := |Log(calls[..a], d)|;
    UnsafeAhead(calls, n, d, k, e);
  }

  lemma {:induction false} UnsafeUnseen(calls: seq<Call>, n: nat, d: U32, k: nat, a: nat, e: Event)
    requires RunOf(calls, n) && d < n && 0 < k <= |calls| && RunOf(calls[..k], n)
    requires StampsRise(calls) && PollerDriven(calls, n)
    requires Unseen(Prev(calls[..k]), n, d, a, e)
    requires e.timeStamp <= Last(calls[..k]).lastSeen
    ensures Unseen(calls, n, d, a, e)
    ensures |calls| > k ==> e.timeStamp <= MinLast(PolledAfter(Prev(calls), n))
  {
    if k == |calls| {
      assert calls[..k] == calls;
    } else {
      assert Prev(calls)[..k] == calls[..k] && calls[..k - 1] == Prev(calls[..k]);
      UnsafeUnseen(Prev(calls), n, d, k, a, e);
      MinimumNeverDecreases(Prev(calls), n, k - 1);
      assert Prev(calls)[..k - 1] == calls[..k - 1];
      PrefixDriven(calls, n, k);
    }
  }

  lemma {:induction false} PrefixDriven(calls: seq<Call>, n: nat, k: nat)
    requires RunOf(calls, n) && k <= |calls| && PollerDriven(calls, n)
    ensures RunOf(calls[..k], n) && PollerDriven(calls[..k], n)
  {
    if k == |calls| {
      assert calls[..k] == calls;
    } else {
      assert Prev(calls)[..k] == calls[..k];
      PrefixDriven(Prev(calls), n, k);
    }
  }

  /** A sample planted just past the guard is never returned, and the host sees no difference. */
  lemma {:induction false} UnsafeLoses(calls: seq<Call>, n: nat, d: U32, k: nat) returns (run: seq<Call>)
    requires RunOf(calls, n) && d < n && UnsafeAt(calls, n, d, k)
    ensures Alike(run, calls, n, d) && SharedClock(run, n, d) && HonestSoft(run, n, d) && !Complete(run, n, d)
  {
    var q := Prev(calls[..k]);
    var e := Event(0, Max(LastAnswer(q, n, d), Get(SeenAfter(q, n), d)) + 1, 0, 0, 0, 0);
    var a, p := UnsafeFits(calls, n, d, k, e);
    PrefixKeeps(calls, n, d, k);
    StillSinceAnswer(q, n, d, e);
    UnsafeUnseen(calls, n, d, k, a, e);
    run := PlantAlike(calls, n, d, a, p, e);
    PlantedClock(run, calls, n, d, a, p, e);
    PlantedHonest(run, calls, n, d, a, p, e);
    AlikeState(run, calls, n, d);
    PollerBoundsRise(calls, n);
    LossIsFinal(calls, n, d, 0);
    assert calls[..0] == [];
    assert LastAnswered(calls[..k], n, d) == k;
  }

  /** A device's samples are safe, whatever its hidden log may hold, if and only if every query
      answered for it had a bound no higher than the larger of its last answer's stamp and its
      own watermark. Both are known to the host before the query. */
  lemma {:induction false} SafeForEveryLogIff(calls: seq<Call>, n: nat, d: U32)
    requires RunOf(calls, n) && d < n
    requires SharedClock(calls, n, d) && HonestSoft(calls, n, d) && PollerDriven(calls, n)
    ensures Guarded(calls, n, d)
            <==> forall run :: Alike(run, calls, n, d) && SharedClock(run, n, d) && HonestSoft(run, n, d) ==>
                   Complete(run, n, d)
  {
    if Guarded(calls, n, d) {
      forall run | Alike(run, calls, n, d) && SharedClock(run, n, d) && HonestSoft(run, n, d)
        ensures Complete(run, n, d)
      {
        AlikeState(run, calls, n, d);
        AlikeGuard(run, calls, n, d);
        GuardedLosesNothing(run, n, d);
        PollerBoundsRise(run, n);
        NoLossIff(run, n, d);
      }
    } else {
      AlikeItself(calls, n, d);
      PollerBoundsRise(calls, n);
      NoLossIff(calls, n, d);
      if !Overtaken(calls, n, d) {
        var k := FirstUnsafe(calls, n, d);
        var run := UnsafeLoses(calls, n, d, k);
      }
    }
  }
}
