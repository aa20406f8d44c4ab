/** From recorded samples to the ProcessSamples the poller is handed over a whole run. */
module DeliverySamples {
  import opened Telemetry
  import opened Sampler
  import opened SamplerLaws
  import opened Delivery

  /** s shows the utilization of the recorded sample e of device d. */
  ghost predicate Carries(s: ProcessSample, e: Event, d: U32) {
    ShowsEvent(s, e) && s.device == d && s.migInstance == 0
  }

  ghost predicate MemoryOnly(s: ProcessSample) {
    s.smUtil == s.memUtil == s.encUtil == s.decUtil == 0 && s.migInstance == 0
  }

  function Head<T>(s: seq<T>, k: nat): seq<T> {
    if k <= |s| then s[..k] else s
  }

  function Tail<T>(s: seq<T>, k: nat): seq<T> {
    if k <= |s| then s[k..] else []
  }

  /** Of each call's samples for device d, the first ones: as many as NVML returned. */
  ghost function Busy(calls: seq<Call>, n: nat, d: U32): seq<ProcessSample>
    requires RunOf(calls, n) && d < n
  {
    if calls == [] then []
    else Busy(Prev(calls), n, d) + Head(OfDevice(LastOut(calls, n), d), |LastWindow(calls, n, d)|)
  }

  /** The others. */
  ghost function Rest(calls: seq<Call>, n: nat, d: U32): seq<ProcessSample>
    requires RunOf(calls, n) && d < n
  {
    if calls == [] then []
    else Rest(Prev(calls), n, d) + Tail(OfDevice(LastOut(calls, n), d), |LastWindow(calls, n, d)|)
  }

  lemma {:induction false} CallSamples(calls: seq<Call>, n: nat, d: U32)
    requires RunOf(calls, n) && d < n && calls != [] && RealRun(calls, n)
    ensures var out, window := OfDevice(LastOut(calls, n), d), LastWindow(calls, n, d);
            && |window| <= |out|
            && (forall j :: 0 <= j < |window| ==> Carries(out[j], window[j], d))
            && (forall j :: |window| <= j < |out| ==> MemoryOnly(out[j]))
  {
    if FailsHard(calls, n, d) {
      var held := MemoryConserved(SeenAfter(Prev(calls), n), Last(calls), d);
    } else {
      WindowEmitted(SeenAfter(Prev(calls), n), Last(calls), d);
      var out, window := OfDevice(LastOut(calls, n), d), LastWindow(calls, n, d);
      forall j: nat | j < |out| ensures EmittedAt(window, d, LastStamp(calls), j, out[j]) {
      }
    }
  }

  ghost predicate CarryAll(samples: seq<ProcessSample>, events: seq<Event>, d: U32) {
    |samples| == |events| && forall i :: 0 <= i < |samples| ==> Carries(samples[i], events[i], d)
  }

  lemma CarryConcat(a: seq<ProcessSample>, b: seq<ProcessSample>, ea: seq<Event>, eb: seq<Event>, d: U32)
    requires CarryAll(a, ea, d) && CarryAll(b, eb, d)
    ensures CarryAll(a + b, ea + eb, d)
  {
  }

  lemma Parted<T>(all: seq<T>, out: seq<T>, k: nat, busy: seq<T>, rest: seq<T>)
    requires multiset(all) == multiset(busy) + multiset(rest)
    ensures multiset(all + out) == multiset(busy + Head(out, k)) + multiset(rest + Tail(out, k))
  {
    assert out == Head(out, k) + Tail(out, k);
    assert multiset(out) == multiset(Head(out, k)) + multiset(Tail(out, k));
  }

  lemma {:induction false} BusyAndRest(calls: seq<Call>, n: nat, d: U32)
    requires RunOf(calls, n) && d < n
    ensures multiset(OfDevice(Observed(calls, n), d)) == multiset(Busy(calls, n, d)) + multiset(Rest(calls, n, d))
  {
    if calls != [] {
      BusyAndRest(Prev(calls), n, d);
      var out, k := OfDevice(LastOut(calls, n), d), |LastWindow(calls, n, d)|;
      OfDeviceConcat(Observed(Prev(calls), n), LastOut(calls, n), d);
      Parted(OfDevice(Observed(Prev(calls), n), d), out, k, Busy(Prev(calls), n, d), Rest(Prev(calls), n, d));
    }
  }

  /** All the poller was ever handed for a device: one utilization sample for each recorded
      sample returned, in that order, and otherwise memory-only samples. */
  lemma {:induction false} HandedOver(calls: seq<Call>, n: nat, d: U32)
    requires RunOf(calls, n) && d < n && RealRun(calls, n)
    ensures CarryAll(Busy(calls, n, d), Returned(calls, n, d), d)
    ensures forall s :: s in Rest(calls, n, d) ==> MemoryOnly(s)
    ensures multiset(OfDevice(Observed(calls, n), d)) == multiset(Busy(calls, n, d)) + multiset(Rest(calls, n, d))
  {
    BusyAndRest(calls, n, d);
    if calls != [] {
      HandedOver(Prev(calls), n, d);
      CallSamples(calls, n, d);
      var out, window := OfDevice(LastOut(calls, n), d), LastWindow(calls, n, d);
      CarryConcat(Busy(Prev(calls), n, d), out[..|window|], Returned(Prev(calls), n, d), window, d);
    }
  }

  /** Exactly once, in what the poller gets: with no hard failure of the device, its utilization
      samples show the device's log, each recorded sample once and in order. */
  lemma {:induction false} ExactlyOnceSamples(calls: seq<Call>, n: nat, d: U32)
    requires RunOf(calls, n) && d < n && RealRun(calls, n)
    requires SharedClock(calls, n, d) && HonestSoft(calls, n, d) && PollerDriven(calls, n)
    requires NeverFailsHard(calls, n, d)
    ensures CarryAll(Busy(calls, n, d), Log(calls, d), d)
    ensures forall s :: s in Rest(calls, n, d) ==> MemoryOnly(s)
    ensures multiset(OfDevice(Observed(calls, n), d)) == multiset(Busy(calls, n, d)) + multiset(Rest(calls, n, d))
  {
    HandedOver(calls, n, d);
    ExactlyOnce(calls, n, d);
  }
}
