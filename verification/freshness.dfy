/** The freshness signal: what a consumer may conclude from its uint64 age test. */
module Freshness {
  import opened Telemetry
  import opened PublishedStore
  import opened Publication
  import opened PublicationLaws

  /** The consumer's uint64 subtraction. */
  function Age(now: U64, last: U64): U64 {
    (now - last) % TWO_64
  }

  predicate Accepts(now: U64, last: U64, threshold: U64) {
    Age(now, last) <= threshold
  }

  lemma AcceptsIff(now: U64, last: U64, threshold: U64)
    ensures Accepts(now, last, threshold) <==>
              if last <= now then now - last <= threshold else last - now >= 0x1_0000_0000_0000_0000 - threshold
  {
    if last > now {
      assert (now - last) % TWO_64 == now - last + TWO_64;
    }
  }

  // ---- a run on one clock ----

  predicate PutsMeta(step: Step) {
    step.Attempt? && step.ok && step.write.MetaWrite?
  }

  /** The writer reads the clock for the meta record of a tick after all that it attempted
      before and before it attempts the record. */
  ghost predicate StampedAt(steps: seq<Step>, at: seq<U64>, i: nat)
    requires i < |steps| == |at| && steps[i].Attempt? && steps[i].write.MetaWrite?
  {
    && steps[i].write.meta.lastUpdateNs <= at[i]
    && forall j :: 0 <= j < i && steps[j].Attempt? ==> at[j] <= steps[i].write.meta.lastUpdateNs
  }

  /** at[i] is what the writer's clock shows at step i. It does not go back. */
  ghost predicate Timed(steps: seq<Step>, at: seq<U64>) {
    && |at| == |steps|
    && (forall i, j :: 0 <= i < j < |at| ==> at[i] <= at[j])
    && (forall i: nat :: i < |steps| && steps[i].Attempt? && steps[i].write.MetaWrite? ==> StampedAt(steps, at, i))
  }

  /** `later` is a reading of that clock made after all the steps. */
  predicate ReadAfter(at: seq<U64>, later: U64) {
    forall i :: 0 <= i < |at| ==> at[i] <= later
  }

  /** A data write of tick k or an earlier one was attempted at step j. */
  predicate DataUpTo(steps: seq<Step>, k: nat, j: nat) {
    j < |steps| && steps[j].Attempt? && !steps[j].write.MetaWrite? && Replay(steps[..j]).ticks <= k
  }

  lemma {:induction false} MetaMovesOn(steps: seq<Step>, q: nat, j: nat)
    requires q < j <= |steps| && steps[q].Attempt? && steps[q].write.MetaWrite?
    ensures Replay(steps[..j]).ticks > Replay(steps[..q]).ticks
  {
    assert steps[..q + 1] == steps[..q] + [steps[q]];
    ReplaySnoc(steps[..q], steps[q]);
    TicksOrdered(steps, q + 1, j);
  }

  /** The step that put the visible meta record. Everything attempted for ticks up to its own
      came before it, and no later meta record was put. */
  lemma {:induction false} MetaStep(steps: seq<Step>) returns (q: nat)
    requires Replay(steps).meta.Some?
    ensures q < |steps| && steps[q] == Attempt(MetaWrite(Replay(steps).meta.value.value), true)
    ensures forall j: nat :: DataUpTo(steps, Replay(steps).meta.value.tick, j) ==> j < q
    ensures forall j: nat :: j < |steps| && PutsMeta(steps[j]) ==> j <= q
  {
    var e := Replay(steps).meta.value;
    LastMetaShows(steps);
    q :| q < |steps| && steps[q] == Attempt(MetaWrite(e.value), true) && Replay(steps[..q]).ticks == e.tick;
    forall j: nat | q < j < |steps| ensures Replay(steps[..j]).ticks > e.tick {
      MetaMovesOn(steps, q, j);
    }
  }

  /** Stamps of meta records put do not go back either. */
  lemma {:induction false} NoLaterStamp(steps: seq<Step>, at: seq<U64>, j: nat)
    requires Timed(steps, at) && j < |steps| && PutsMeta(steps[j])
    ensures Replay(steps).meta.Some?
    ensures steps[j].write.meta.lastUpdateNs <= Replay(steps).meta.value.value.lastUpdateNs
  {
    LastMetaShows(steps);
    var q := MetaStep(steps);
    assert StampedAt(steps, at, j) && StampedAt(steps, at, q);
  }

  /** Some meta record put was stamped within the threshold. */
  ghost predicate FreshlyPut(steps: seq<Step>, now: U64, threshold: U64) {
    exists j :: 0 <= j < |steps| && PutsMeta(steps[j]) && now - steps[j].write.meta.lastUpdateNs <= threshold
  }

  /** On one clock, a reader that sees a meta record and then reads the time accepts exactly
      when some tick's meta record was stamped within the threshold. By that stamp all data
      writes of the tick it sees, and of all ticks before, had been attempted, and the record
      itself was put between the stamp and the reading. */
  lemma {:induction false} AcceptedMeansFresh(steps: seq<Step>, at: seq<U64>, rs: seq<Tick>, now: U64, threshold: U64)
    returns (q: nat)
    requires Underway(steps, rs) && Replay(steps).meta.Some?
    requires Timed(steps, at) && ReadAfter(at, now)
    ensures Accepts(now, Replay(steps).meta.value.value.lastUpdateNs, threshold) <==> FreshlyPut(steps, now, threshold)
    ensures var e := Replay(steps).meta.value; var last := e.value.lastUpdateNs;
            && e.tick < |rs| && last == rs[e.tick].metaStamp
            && PlanAll(rs[..e.tick + 1]) <= Writes(steps)
            && q < |steps| && steps[q] == Attempt(MetaWrite(e.value), true) && last <= at[q] <= now
            && forall j: nat :: DataUpTo(steps, e.tick, j) ==> at[j] <= last
  {
    MetaLast(steps, rs);
    q := MetaStep(steps);
    assert StampedAt(steps, at, q);
    AcceptsIff(now, Replay(steps).meta.value.value.lastUpdateNs, threshold);
    assert PutsMeta(steps[q]);
    forall j | 0 <= j < |steps| && PutsMeta(steps[j])
      ensures steps[j].write.meta.lastUpdateNs <= Replay(steps).meta.value.value.lastUpdateNs
    {
      NoLaterStamp(steps, at, j);
    }
  }

  /** A reader whose reading is `skew` below the writer's clock, because its clock is behind or
      because it read the time before it read the record, accepts true ages from skew to skew
      plus the threshold: fresher records are rejected, staler ones accepted. Only a skew of
      nearly 2^64 wraps all the way round. */
  lemma {:induction false} AcceptsUnderSkew(steps: seq<Step>, at: seq<U64>, later: U64, now: U64, threshold: U64)
    requires Replay(steps).meta.Some? && Timed(steps, at) && ReadAfter(at, later)
    ensures var skew, age := later - now, later - Replay(steps).meta.value.value.lastUpdateNs;
            && age >= 0
            && (Accepts(now, Replay(steps).meta.value.value.lastUpdateNs, threshold)
                <==> skew <= age <= skew + threshold || skew - age >= 0x1_0000_0000_0000_0000 - threshold)
  {
    var q := MetaStep(steps);
    assert StampedAt(steps, at, q);
    AcceptsIff(now, Replay(steps).meta.value.value.lastUpdateNs, threshold);
  }
}
