/** The poller's per-device watermarks: history, and the cross-device minimum. */
module Watermarks {
  import opened Telemetry

  function Observe(p: map<U32, U64>, samples: seq<ProcessSample>): map<U32, U64> {
    if samples == [] then p
    else
      var s := samples[|samples| - 1];
      Advance(Observe(p, samples[..|samples| - 1]), s.device, s.timestampNs)
  }

  ghost predicate IsMinimum(p: map<U32, U64>, v: U64) {
    if p == map[] then v == 0
    else
      && (exists d :: d in p && p[d] == v)
      && (forall d :: d in p ==> v <= p[d])
  }

  ghost function MinLast(p: map<U32, U64>): (v: U64)
    ensures IsMinimum(p, v)
    decreases |p|
  {
    if p == map[] then 0
    else
      var d :| d in p;
      var rest := p - {d};
      assert forall e :: e in p ==> e == d || e in rest;
      if rest == map[] || p[d] < MinLast(rest) then p[d] else MinLast(rest)
  }

  lemma MinUnique(p: map<U32, U64>, v: U64)
    requires IsMinimum(p, v)
    ensures v == MinLast(p)
  {
  }

  ghost predicate HistoryMax(history: seq<ProcessSample>, d: U32, v: U64) {
    && (forall s :: s in history && s.device == d ==> s.timestampNs <= v)
    && (v == 0 || exists s :: s in history && s.device == d && s.timestampNs == v)
  }

  /** Starting from nothing, each watermark is the largest timestamp ever observed for its
      device; it is absent exactly when that is zero. */
  lemma {:induction false} WatermarkHistory(history: seq<ProcessSample>, d: U32)
    ensures HistoryMax(history, d, Get(Observe(map[], history), d))
    ensures d in Observe(map[], history) <==> Get(Observe(map[], history), d) > 0
  {
    if history != [] {
      var prev, s := history[..|history| - 1], history[|history| - 1];
      assert history == prev + [s];
      WatermarkHistory(prev, d);
    }
  }

  lemma {:induction false} ObserveConcat(p: map<U32, U64>, a: seq<ProcessSample>, b: seq<ProcessSample>)
    ensures Observe(p, a + b) == Observe(Observe(p, a), b)
  {
    if b == [] {
      assert a + b == a;
    } else {
      assert (a + b)[..|a + b| - 1] == a + b[..|b| - 1];
      ObserveConcat(p, a, b[..|b| - 1]);
    }
  }

  ghost predicate HasDevice(samples: seq<ProcessSample>, d: U32) {
    exists s :: s in samples && s.device == d
  }

  /** One tick stamps all its samples with one time: the devices it saw rise to that stamp. */
  lemma {:induction false} ObserveStamped(p: map<U32, U64>, samples: seq<ProcessSample>, stamp: U64, d: U32)
    requires forall s :: s in samples ==> s.timestampNs == stamp
    ensures Get(Observe(p, samples), d) == if HasDevice(samples, d) then Max(Get(p, d), stamp) else Get(p, d)
    ensures d in Observe(p, samples) <==> d in p || (HasDevice(samples, d) && stamp > 0)
  {
    if samples != [] {
      var prev, s := samples[..|samples| - 1], samples[|samples| - 1];
      assert samples == prev + [s];
      ObserveStamped(p, prev, stamp, d);
      assert HasDevice(samples, d) <==> HasDevice(prev, d) || s.device == d;
    }
  }

  lemma {:induction false} ObserveRaises(p: map<U32, U64>, samples: seq<ProcessSample>)
    ensures forall d :: d in p ==> d in Observe(p, samples) && p[d] <= Observe(p, samples)[d]
  {
    if samples != [] {
      ObserveRaises(p, samples[..|samples| - 1]);
    }
  }

  /** New devices enter at the current stamp, so when stamps do not go back the minimum never
      decreases, from "no watermark" (zero) on. */
  lemma {:induction false} MinimumMonotone(p: map<U32, U64>, samples: seq<ProcessSample>, stamp: U64)
    requires forall s :: s in samples ==> s.timestampNs == stamp
    requires forall d :: d in p ==> p[d] <= stamp
    ensures MinLast(p) <= MinLast(Observe(p, samples))
    ensures forall d :: d in Observe(p, samples) ==> Observe(p, samples)[d] <= stamp
  {
    var q := Observe(p, samples);
    forall d | d in q ensures q[d] <= stamp && MinLast(p) <= q[d] {
      ObserveStamped(p, samples, stamp, d);
      ObserveRaises(p, samples);
      assert IsMinimum(p, MinLast(p));
    }
    if p != map[] {
      var d :| d in p;
      ObserveRaises(p, samples);
      assert d in q;
    }
  }

  lemma {:induction false} ObserveKeys(p: map<U32, U64>, samples: seq<ProcessSample>, d: U32)
    requires d !in p
    ensures HistoryMax(samples, d, Get(Observe(p, samples), d))
    ensures d in Observe(p, samples) <==> Get(Observe(p, samples), d) > 0
  {
    if samples != [] {
      var prev, s := samples[..|samples| - 1], samples[|samples| - 1];
      assert samples == prev + [s];
      ObserveKeys(p, prev, d);
    }
  }

  /** A device without a watermark whose latest sample is below the minimum. */
  ghost predicate Undercuts(p: map<U32, U64>, samples: seq<ProcessSample>, d: U32, v: U64) {
    d !in p && 0 < v < MinLast(p) && HistoryMax(samples, d, v)
  }

  /** Exactly when a tick's samples lower the minimum, whatever they are stamped with. */
  lemma {:induction false} MinimumDropsIff(p: map<U32, U64>, samples: seq<ProcessSample>)
    ensures MinLast(Observe(p, samples)) < MinLast(p) <==> exists d, v :: Undercuts(p, samples, d, v)
  {
    var q := Observe(p, samples);
    ObserveRaises(p, samples);
    assert IsMinimum(p, MinLast(p)) && IsMinimum(q, MinLast(q));
    if MinLast(q) < MinLast(p) {
      var d :| d in q && q[d] == MinLast(q);
      ObserveKeys(p, samples, d);
      assert Undercuts(p, samples, d, q[d]);
    }
    if d, v :| Undercuts(p, samples, d, v) {
      ObserveKeys(p, samples, d);
      assert d in q && q[d] == v;
    }
  }

  /** The same when all samples carry one stamp. */
  lemma {:induction false} StampedDropsIff(p: map<U32, U64>, samples: seq<ProcessSample>, stamp: U64)
    requires forall s :: s in samples ==> s.timestampNs == stamp
    ensures MinLast(Observe(p, samples)) < MinLast(p)
            <==> 0 < stamp < MinLast(p) && exists d :: d !in p && HasDevice(samples, d)
  {
    MinimumDropsIff(p, samples);
    if d, v :| Undercuts(p, samples, d, v) {
      assert HasDevice(samples, d);
    }
    if d :| d !in p && HasDevice(samples, d) && 0 < stamp < MinLast(p) {
      assert HistoryMax(samples, d, stamp);
      assert Undercuts(p, samples, d, stamp);
    }
  }

  /** Such samples exist: a new device enters below the minimum. */
  lemma MinimumCanDrop()
    ensures exists p, s :: MinLast(Observe(p, [s])) < MinLast(p)
  {
    var p: map<U32, U64>, s := map[0 := 20], ProcessSample(7, 1, 10, 0, 0, 0, 0, 0, 0);
    assert [s][..0] == [];
    assert Observe(p, []) == p;
    assert Observe(p, [s]) == Advance(p, 1, 10) == map[0 := 20, 1 := 10];
    assert 0 in p && p[0] == 20;
    MinUnique(p, 20);
    var q: map<U32, U64> := map[0 := 20, 1 := 10];
    assert 1 in q && q[1] == 10;
    MinUnique(q, 10);
  }
}
