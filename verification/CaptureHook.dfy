/** One hook run: spool first, cap, deliver, drain, and fold what happened into the state the user is shown. */
module CaptureHook {
  import opened Ordering
  import opened CaptureProtocol
  import opened CaptureSpool

  const DEFAULT_MAX_FILES := 500
  const DEFAULT_MAX_BYTES := 8 * 1024 * 1024

  datatype Visible = NeverAttempted | Last(outcome: EntryState) | Disabled

  /** The delivery state on disk. */
  datatype Record = Record(
    visible: Visible, pendingCount: int, lastDeliveredAt: Option<int>, lastError: Option<string>,
    lastAttemptAt: Option<int>, gapSince: Option<int>, failuresSinceDelivery: int)

  function ApplyOutcome(r: Record, outcome: EntryState, pending: int, error: Option<string>, now: int): Record {
    var seen := r.(pendingCount := if pending > 0 then pending else 0, lastAttemptAt := Some(now));
    if outcome.Delivered? then
      seen.(visible := Last(Delivered), lastDeliveredAt := Some(now), lastError := None,
            failuresSinceDelivery := 0, gapSince := None)
    else
      seen.(visible := Last(outcome), lastError := error, failuresSinceDelivery := r.failuresSinceDelivery + 1,
            gapSince := if outcome.DroppedFull? && r.gapSince.None? then Some(now) else r.gapSince)
  }

  /** What one run did, as the fold at its end reads it. */
  datatype RunFacts = RunFacts(
    evictions: nat, outcome: EntryState, error: Option<string>, drain: Option<EntryState>,
    drainError: Option<string>, pending: nat, now: int)

  function FoldRun(r: Record, f: RunFacts): Record {
    var r1 := if f.evictions > 0 then ApplyOutcome(r, DroppedFull, f.pending, Some("spool full"), f.now) else r;
    var r2 := ApplyOutcome(r1, f.outcome, f.pending, f.error, f.now);
    var r3 := if f.evictions > 0 && !f.outcome.Delivered? then r2.(visible := Last(DroppedFull)) else r2;
    if f.drain.Some? && !f.drain.value.Delivered? && r3.visible == Last(Delivered) then
      r3.(lastError := f.drainError,
          visible := Last(if f.drain.value.Spooled? || f.drain.value.Failed? then f.drain.value else Spooled))
    else r3
  }

  /** Quiet, that is "delivered", exactly when this capture arrived and no older one failed on the way. */
  lemma QuietIff(r: Record, f: RunFacts)
    ensures FoldRun(r, f).visible == Last(Delivered) <==>
              f.outcome.Delivered? && (f.drain.None? || f.drain.value.Delivered?)
  {
  }

  /** An eviction leaves a mark on the state (the dropped verdict, or a gap still open) exactly when this capture
      did not arrive: a delivery in the same run closes the gap before anything has reported it. */
  lemma EvictionShowsIff(r: Record, f: RunFacts)
    requires f.evictions > 0
    ensures FoldRun(r, f).visible == Last(DroppedFull) || FoldRun(r, f).gapSince.Some? <==> !f.outcome.Delivered?
    ensures !f.outcome.Delivered? ==>
              && FoldRun(r, f).visible == Last(DroppedFull) && FoldRun(r, f).gapSince.Some?
              && (r.gapSince.Some? ==> FoldRun(r, f).gapSince == r.gapSince)
              && FoldRun(r, f).failuresSinceDelivery == r.failuresSinceDelivery + 2
  {
  }

  class HookState {
    var visible: Visible
    var pendingCount: int
    var lastDeliveredAt: Option<int>
    var lastError: Option<string>
    var lastAttemptAt: Option<int>
    var gapSince: Option<int>
    var failuresSinceDelivery: int

    constructor ()
      ensures Contents() == Record(NeverAttempted, 0, None, None, None, None, 0)
    {
      visible, pendingCount, failuresSinceDelivery := NeverAttempted, 0, 0;
      lastDeliveredAt, lastError, lastAttemptAt, gapSince := None, None, None, None;
    }

    ghost function Contents(): Record
      reads this
    {
      Record(visible, pendingCount, lastDeliveredAt, lastError, lastAttemptAt, gapSince, failuresSinceDelivery)
    }

    method ApplyDeliveryOutcome(outcome: EntryState, pending: int, error: Option<string>, now: int)
      modifies this
      ensures Contents() == ApplyOutcome(old(Contents()), outcome, pending, error, now)
    {
      pendingCount := if pending > 0 then pending else 0;
      lastAttemptAt := Some(now);
      if outcome.Delivered? {
        visible := Last(Delivered);
        lastDeliveredAt := Some(now);
        lastError := None;
        failuresSinceDelivery := 0;
        gapSince := None;
        return;
      }
      visible := Last(outcome);
      lastError := error;
      failuresSinceDelivery := failuresSinceDelivery + 1;
      if outcome.DroppedFull? && gapSince.None? {
        gapSince := Some(now);
      }
    }

    method FoldOutcomes(f: RunFacts)
      modifies this
      ensures Contents() == FoldRun(old(Contents()), f)
    {
      if f.evictions > 0 {
        ApplyDeliveryOutcome(DroppedFull, f.pending, Some("spool full"), f.now);
      }
      ApplyDeliveryOutcome(f.outcome, f.pending, f.error, f.now);
      if f.evictions > 0 && !f.outcome.Delivered? {
        visible := Last(DroppedFull);
      }
      if f.drain.Some? && !f.drain.value.Delivered? && visible == Last(Delivered) {
        lastError := f.drainError;
        visible := Last(if f.drain.value.Spooled? || f.drain.value.Failed? then f.drain.value else Spooled);
      }
    }
  }

  /** What the environment decides about a run: the fate of each request, the clock, and the error texts. */
  datatype Environment = Environment(
    fate: Fate, error: Option<string>, backlogFates: seq<Fate>, backlogError: Option<string>,
    timeToDrain: bool, slots: nat, now: int)

  ghost predicate Fair(env: Environment) {
    && Honest(env.fate) && |env.backlogFates| >= DRAIN_MAX_ENTRIES
    && forall f :: f in env.backlogFates ==> Honest(f)
  }

  ghost function FirstThree(entry: Entry, env: Environment, sizes: Sizes): seq<Step> {
    [Write(entry), Evict(sizes, DEFAULT_MAX_FILES, DEFAULT_MAX_BYTES), Step.Deliver(entry, env.fate, env.error)]
  }

  lemma FirstThreeAreLegal(w: World, entry: Entry, env: Environment, sizes: Sizes)
    requires Honest(env.fate)
    ensures Legal(w, FirstThree(entry, env, sizes))
    ensures Finally(w, FirstThree(entry, env, sizes))
         == AfterDelivery(AfterEvict(AfterWrite(w, entry), sizes, DEFAULT_MAX_FILES, DEFAULT_MAX_BYTES),
                          entry, env.fate, env.error)
  {
    var steps := FirstThree(entry, env, sizes);
    var w1 := Next(w, steps[0]);
    var w2 := Next(w1, steps[1]);
    assert steps[1..][0] == steps[1] && steps[1..][1..] == [steps[2]] && [steps[2]][1..] == [];
    assert Legal(Next(w2, steps[2]), []) && Legal(w2, [steps[2]]) && Legal(w1, steps[1..]);
    assert Finally(w2, [steps[2]]) == Next(w2, steps[2]);
    assert Finally(w1, steps[1..]) == Finally(w2, [steps[2]]);
  }

  /** Spool durably, cap, deliver. */
  method SpoolAndDeliver(spool: Spool, entry: Entry, env: Environment) returns (evicted: seq<Key>, updated: Entry)
    requires spool.Valid() && Honest(env.fate)
    modifies spool, spool.server
    ensures spool.Valid()
    ensures spool.State() == Finally(old(spool.State()), FirstThree(entry, env, spool.sizes))
    ensures evicted == EvictedBy(AfterWrite(old(spool.State()), entry).files, spool.sizes,
                                 DEFAULT_MAX_FILES, DEFAULT_MAX_BYTES)
    ensures updated.state.Delivered? ==> entry.key in spool.server.held
    ensures !updated.state.Delivered? ==> entry.key in spool.files
  {
    FirstThreeAreLegal(spool.State(), entry, env, spool.sizes);
    spool.WriteEntry(entry);
    evicted := spool.EnforceCap(DEFAULT_MAX_FILES, DEFAULT_MAX_BYTES);
    DeliveredMeansHeld(spool.State(), entry, env.fate, env.error);
    updated := spool.Deliver(entry, env.fate, env.error);
  }

  /** A whole run is a run of the protocol that begins by spooling the capture: whatever the network, the cap and
      the clock do, nothing written before or now is lost track of. */
  method Run(spool: Spool, state: HookState, entry: Entry, env: Environment)
    returns (facts: RunFacts, ghost steps: seq<Step>)
    requires spool.Valid() && Conserved(spool.State()) && Fair(env)
    modifies spool, spool.server, state
    ensures spool.Valid() && Conserved(spool.State())
    ensures Legal(old(spool.State()), steps) && spool.State() == Finally(old(spool.State()), steps)
    ensures FirstThree(entry, env, spool.sizes) <= steps
    ensures facts.outcome.Delivered? ==> entry.key in spool.server.held
    ensures !facts.outcome.Delivered? ==> steps == FirstThree(entry, env, spool.sizes) && entry.key in spool.files
    ensures facts.evictions ==
              |EvictedBy(AfterWrite(old(spool.State()), entry).files, spool.sizes,
                         DEFAULT_MAX_FILES, DEFAULT_MAX_BYTES)|
    ensures state.Contents() == FoldRun(old(state.Contents()), facts)
  {
    ghost var start := spool.State();
    FirstThreeAreLegal(start, entry, env, spool.sizes);
    steps := FirstThree(entry, env, spool.sizes);
    RunsConserve(start, steps);
    var evicted, updated := SpoolAndDeliver(spool, entry, env);
    var drain: Option<EntryState> := None;
    if updated.state.Delivered? && env.timeToDrain {
      ghost var more, here := [], spool.State();
      drain, more := spool.DrainBacklog(entry.key, env.backlogFates, env.backlogError, env.slots);
      RunsCompose(start, steps, more);
      RunsOnlyGrow(here, more);
      steps := steps + more;
    }
    facts := RunFacts(|evicted|, updated.state, env.error, drain, env.backlogError, |spool.files|, env.now);
    state.FoldOutcomes(facts);
  }

  /** What was written stays written and what the server holds stays held. */
  lemma {:induction false} RunsOnlyGrow(w: World, steps: seq<Step>)
    requires Legal(w, steps)
    ensures w.written <= Finally(w, steps).written
    ensures forall k :: k in w.held ==> k in Finally(w, steps).held
    decreases |steps|
  {
    if steps == [] {
    } else {
      StepLeavesNothingBehind(w, steps[0]);
      RunsOnlyGrow(Next(w, steps[0]), steps[1..]);
    }
  }

  /** When the delivery of the newest capture fails, the run still ends within the file cap exactly when the cap
      admits one file, and the capture is pending and named in a gap at once exactly when it was evicted in its own
      run or named before; evicted, it is written back alone, for nothing else survived that eviction. */
  lemma CapAfterFailedRunIff(w: World, e: Entry, sizes: Sizes, fate: Fate, error: Option<string>,
                             maxFiles: int, maxBytes: int)
    requires maxFiles >= 0 && maxBytes >= 0
    requires Conserved(w) && Honest(fate)
    requires forall k :: k in w.files && k != e.key ==> OlderThan(AfterWrite(w, e).files, k, e.key)
    ensures var w1 := AfterEvict(AfterWrite(w, e), sizes, maxFiles, maxBytes);
            var w2 := AfterDelivery(w1, e, fate, error);
            var evicted := e.key in EvictedBy(AfterWrite(w, e).files, sizes, maxFiles, maxBytes);
            !ClassifyHttp(StatusSeen(w1.held, e.key, fate)).Delivered? ==>
              && (|w2.files| <= maxFiles <==> maxFiles >= 1)
              && (e.key in w2.files && InGaps(w2.gaps, e.key) <==> evicted || InGaps(w.gaps, e.key))
              && (evicted ==> w2.files.Keys == {e.key})
  {
    var w1 := AfterEvict(AfterWrite(w, e), sizes, maxFiles, maxBytes);
    FailedRunFiles(w, e, sizes, maxFiles, maxBytes);
    FailedRunGaps(w, e, sizes, maxFiles, maxBytes);
    if !ClassifyHttp(StatusSeen(w1.held, e.key, fate)).Delivered? { UndeliveredStays(w1, e, fate, error); }
  }

  /** An undelivered capture is written back, and no gap names it for that. */
  lemma UndeliveredStays(w: World, e: Entry, fate: Fate, error: Option<string>)
    requires Honest(fate) && !ClassifyHttp(StatusSeen(w.held, e.key, fate)).Delivered?
    ensures var after := AfterDelivery(w, e, fate, error);
            after.files.Keys == w.files.Keys + {e.key} && |after.files| == |w.files.Keys + {e.key}|
            && after.gaps == w.gaps
  {
    DeliveredMeansHeld(w, e, fate, error);
    var after := AfterDelivery(w, e, fate, error);
    assert after.files.Keys == w.files.Keys + {e.key};
    assert |after.files| == |after.files.Keys|;
  }

  /** The files that the capture is written back to: within the cap again exactly when one is admitted at all. */
  lemma FailedRunFiles(w: World, e: Entry, sizes: Sizes, maxFiles: int, maxBytes: int)
    requires maxFiles >= 0 && maxBytes >= 0
    requires forall k :: k in w.files && k != e.key ==> OlderThan(AfterWrite(w, e).files, k, e.key)
    ensures var left := AfterEvict(AfterWrite(w, e), sizes, maxFiles, maxBytes).files.Keys;
            && (|left + {e.key}| <= maxFiles <==> maxFiles >= 1)
            && (e.key in EvictedBy(AfterWrite(w, e).files, sizes, maxFiles, maxBytes) ==> left + {e.key} == {e.key})
  {
    var files := AfterWrite(w, e).files;
    var evicted := EvictedBy(files, sizes, maxFiles, maxBytes);
    NewestIsEvictedIff(files, e.key, sizes, maxFiles, maxBytes);
    LeftAfterEviction(files, sizes, maxFiles, maxBytes);
    AddedBack((files - ToSet(evicted)).Keys, e.key, files.Keys - ToSet(evicted));
  }

  lemma FailedRunGaps(w: World, e: Entry, sizes: Sizes, maxFiles: int, maxBytes: int)
    ensures InGaps(AfterEvict(AfterWrite(w, e), sizes, maxFiles, maxBytes).gaps, e.key) <==>
            e.key in EvictedBy(AfterWrite(w, e).files, sizes, maxFiles, maxBytes) || InGaps(w.gaps, e.key)
  {
    GapsForCovers(w.gaps, EvictedBy(AfterWrite(w, e).files, sizes, maxFiles, maxBytes), EvictedFull);
  }

  lemma AddedBack(left: set<Key>, key: Key, kept: set<Key>)
    requires left == kept
    ensures key in kept ==> left + {key} == kept
    ensures left == {} ==> left + {key} == {key}
  {
  }

  lemma LeftAfterEviction(files: map<Key, File>, sizes: Sizes, maxFiles: int, maxBytes: int)
    requires maxFiles >= 0 && maxBytes >= 0
    ensures |(files - ToSet(EvictedBy(files, sizes, maxFiles, maxBytes))).Keys| <= maxFiles
  {
    var order := OldestFirst(files);
    OldestFirstFacts(files);
    EvictionIsShortest(order, files, sizes, maxFiles, maxBytes);
    LeftAreListed(order, files, Evictions(order, files, sizes, maxFiles, maxBytes));
  }

  lemma LeftAreListed(order: seq<Key>, files: map<Key, File>, n: nat)
    requires n <= |order| && forall k :: k in files ==> k in order
    ensures |(files - ToSet(order[..n])).Keys| <= |order| - n
  {
    var rest := files - ToSet(order[..n]);
    forall k | k in rest.Keys ensures k in ToSet(order[n..]) {
      assert k in order;
      assert order == order[..n] + order[n..];
    }
    DistinctCount(order[n..]);
    SubsetCount(rest.Keys, ToSet(order[n..]));
  }
}
