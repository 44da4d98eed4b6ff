/** The closed transition table and every log that can be grown under it. */
module DreamRuns {
  import opened Ordering
  import opened DreamLog
  import opened DreamReplay
  import opened DreamLossless

  predicate InTable(current: Status, kind: Kind) {
    match current
    case Proposed => OpenMove(kind) || kind.Surface? || kind.Snooze? || kind.Supersede?
    case Surfaced => OpenMove(kind) || kind.Surface? || kind.Snooze? || kind.Supersede?
    case Snoozed => OpenMove(kind) || kind.Unsnooze?
    case Accepted => kind.BindObjective? || kind.StartPursuit? || kind.AbandonPursuit? || kind.Reject? || kind.Withdraw?
    case Pursued => kind.Complete? || kind.AbandonPursuit? || kind.Withdraw?
    case Abandoned => kind.Accept?
    case Completed => false
    case Rejected => false
    case Withdrawn => false
    case Expired => false
  }

  /** What every undecided proposal admits. */
  predicate OpenMove(kind: Kind) {
    kind.Accept? || kind.Reject? || kind.Withdraw? || kind.Expire?
  }

  predicate TransitionAllowed(current: Status, kind: Kind) {
    if kind.RevalidateEvidence? then true
    else if kind.Mint? then false
    else InTable(current, kind)
  }

  /** How an admitted event can bring a proposal into the statuses of the pursuit. */
  lemma WaysIn(current: Status, e: Event)
    requires TransitionAllowed(current, e.kind)
    ensures StatusAfter(current, e).Accepted? <==>
              e.kind.Accept? || (current.Accepted? && (e.kind.BindObjective? || e.kind.RevalidateEvidence?))
    ensures StatusAfter(current, e).Pursued? ==> current.Pursued? || (current.Accepted? && e.kind.StartPursuit?)
    ensures StatusAfter(current, e).Completed? ==> current.Completed? || (current.Pursued? && e.kind.Complete?)
    ensures e.kind.StartPursuit? ==> current.Accepted? && StatusAfter(current, e).Pursued?
    ensures e.kind.Complete? ==> current.Pursued? && StatusAfter(current, e).Completed?
  {
  }

  // ---- runs ---------------------------------------------------------------------------------

  /** The status after the first `n` events, one event at a time. */
  ghost function StatusThrough(s: seq<Event>, n: nat): Status
    requires n <= |s|
  {
    if n == 0 then Proposed else StatusAfter(StatusThrough(s, n - 1), s[n - 1])
  }

  ghost predicate Admitted(s: seq<Event>, n: nat)
    requires n < |s|
  {
    TransitionAllowed(StatusThrough(s, n), s[n].kind)
  }

  /** A mint followed by events that the table admitted when they were appended. */
  ghost predicate Run(s: seq<Event>) {
    && s != [] && s[0].kind.Mint?
    && forall n :: 1 <= n < |s| ==> Admitted(s, n)
  }

  /** The status of an uncapped replay is the step-by-step status, at every moment of the log. */
  lemma {:induction false} ReplayedStatusIsStepwise(s: seq<Event>, n: nat)
    requires n <= |s|
    ensures Replay(s[..n]).status == StatusThrough(s, n)
  {
    if n == 0 {
    } else {
      ReplayedStatusIsStepwise(s, n - 1);
      assert s[..n][..n - 1] == s[..n - 1];
      StepIsOverlay(Replay(s[..n - 1]), s[n - 1]);
    }
  }

  /** The status that a fold reads, under any cap and of any listing of any events, is the one that the whole ordered
      log reaches step by step: the window never loses it. */
  lemma FoldedStatusIsStepwise(events: seq<Event>, afterSurfaces: int, maxEvents: int)
    ensures var s := Ordered(events);
            Fold(events, afterSurfaces, maxEvents).projection.status == StatusThrough(s, |s|)
  {
    var s, w := Ordered(events), Window(events, maxEvents);
    WindowRetains(events, maxEvents);
    VerdictsKept(w, s);
    ReplayIsLatestSays(w);
    ReplayIsLatestSays(s);
    assert s[..|s|] == s;
    ReplayedStatusIsStepwise(s, |s|);
  }

  /** So a log written under the table, folded under any cap as often as it grows, reads the status of each moment. */
  lemma FoldedRunIsStepwise(s: seq<Event>, n: nat, afterSurfaces: int, maxEvents: int)
    requires Chronological(s) && n <= |s|
    ensures Fold(s[..n], afterSurfaces, maxEvents).projection.status == StatusThrough(s, n)
  {
    OrderedOfChronological(s[..n]);
    FoldedStatusIsStepwise(s[..n], afterSurfaces, maxEvents);
    StatusOfPrefix(s, n, n);
  }

  lemma {:induction false} StatusOfPrefix(s: seq<Event>, n: nat, i: nat)
    requires i <= n <= |s|
    ensures StatusThrough(s[..n], i) == StatusThrough(s, i)
  {
    if i > 0 { StatusOfPrefix(s, n, i - 1); }
  }

  predicate Final(status: Status) {
    status.Completed? || status.Rejected? || status.Withdrawn? || status.Expired?
  }

  /** The four final statuses never change, whatever is appended later. */
  lemma {:induction false} FinalStatusIsForever(s: seq<Event>, n: nat, m: nat)
    requires Run(s) && 1 <= n <= m <= |s| && Final(StatusThrough(s, n))
    ensures StatusThrough(s, m) == StatusThrough(s, n)
  {
    if n < m {
      FinalStatusIsForever(s, n, m - 1);
      assert Admitted(s, m - 1);
    }
  }

  /** Abandoned is listed as terminal too, yet an accept leaves it; nothing else does. */
  lemma AbandonedIsLeftOnlyByAccept(s: seq<Event>, n: nat)
    requires Run(s) && 1 <= n < |s| && StatusThrough(s, n).Abandoned?
    ensures StatusThrough(s, n + 1) == if s[n].kind.Accept? then Accepted else Abandoned
    ensures s[n].kind.Accept? || s[n].kind.RevalidateEvidence?
  {
    assert Admitted(s, n);
  }

  /** The status is `status` after every event from number `i` up to the `n`-th. */
  ghost predicate Stays(s: seq<Event>, i: nat, n: nat, status: Status)
    requires n <= |s|
  {
    n <= i || (StatusThrough(s, n) == status && Stays(s, i, n - 1, status))
  }

  /** Accepted at `i`, still accepted when the pursuit started at `j`. */
  ghost predicate PursuedBecause(s: seq<Event>, i: nat, j: nat) {
    && i < j < |s| && s[i].kind.Accept? && s[j].kind.StartPursuit?
    && Stays(s, i, j, Accepted)
  }

  lemma {:induction false} AcceptedHasAnAccept(s: seq<Event>, n: nat) returns (i: nat)
    requires Run(s) && 1 <= n <= |s| && StatusThrough(s, n).Accepted?
    ensures i < n && s[i].kind.Accept? && Stays(s, i, n, Accepted)
  {
    if n > 1 {
      assert Admitted(s, n - 1);
      WaysIn(StatusThrough(s, n - 1), s[n - 1]);
    }
    if s[n - 1].kind.Accept? {
      i := n - 1;
    } else {
      i := AcceptedHasAnAccept(s, n - 1);
    }
  }

  lemma {:induction false} PursuedHasAPursuit(s: seq<Event>, n: nat) returns (i: nat, j: nat)
    requires Run(s) && 1 <= n <= |s| && StatusThrough(s, n).Pursued?
    ensures j < n && PursuedBecause(s, i, j) && Stays(s, j, n, Pursued)
  {
    if n > 1 {
      assert Admitted(s, n - 1);
      WaysIn(StatusThrough(s, n - 1), s[n - 1]);
    }
    if s[n - 1].kind.StartPursuit? {
      i := AcceptedHasAnAccept(s, n - 1);
      j := n - 1;
    } else {
      i, j := PursuedHasAPursuit(s, n - 1);
    }
  }

  /** Completion is never inferred: an accept, then a started pursuit standing until the completion. */
  lemma {:induction false} CompletedWasPursued(s: seq<Event>, n: nat) returns (i: nat, j: nat, c: nat)
    requires Run(s) && 1 <= n <= |s| && StatusThrough(s, n).Completed?
    ensures j < c < n && s[c].kind.Complete? && PursuedBecause(s, i, j)
    ensures Stays(s, j, c, Pursued)
  {
    if n > 1 {
      assert Admitted(s, n - 1);
      WaysIn(StatusThrough(s, n - 1), s[n - 1]);
    }
    if s[n - 1].kind.Complete? {
      c := n - 1;
      i, j := PursuedHasAPursuit(s, n - 1);
    } else {
      i, j, c := CompletedWasPursued(s, n - 1);
    }
  }

  /** What the two lemmas above say of a status, a fold under any cap says of its reading: completed only by an
      accept, a pursuit that stood until the completion, and the completion itself, all in the log. */
  lemma FoldedCompletionWasPursued(s: seq<Event>, afterSurfaces: int, maxEvents: int)
    returns (i: nat, j: nat, c: nat)
    requires Run(s) && Chronological(s) && Fold(s, afterSurfaces, maxEvents).projection.status.Completed?
    ensures j < c < |s| && s[c].kind.Complete? && PursuedBecause(s, i, j) && Stays(s, j, c, Pursued)
  {
    assert s[..|s|] == s;
    FoldedRunIsStepwise(s, |s|, afterSurfaces, maxEvents);
    i, j, c := CompletedWasPursued(s, |s|);
  }

  /** And a final status once read is read for good, whatever the caps of the two folds. */
  lemma FoldedFinalStatusIsForever(s: seq<Event>, n: nat, afterSurfaces: int, firstCap: int, secondCap: int)
    requires Run(s) && Chronological(s) && 1 <= n <= |s|
    requires Final(Fold(s[..n], afterSurfaces, firstCap).projection.status)
    ensures Fold(s, afterSurfaces, secondCap).projection.status
            == Fold(s[..n], afterSurfaces, firstCap).projection.status
  {
    assert s[..|s|] == s;
    FoldedRunIsStepwise(s, n, afterSurfaces, firstCap);
    FoldedRunIsStepwise(s, |s|, afterSurfaces, secondCap);
    FinalStatusIsForever(s, n, |s|);
  }

  // ---- logs that grow under the lock --------------------------------------------------------

  ghost predicate Supplied<T>(log: seq<Event>, kind: Kind, read: Event -> Option<T>) {
    exists i :: 0 <= i < |log| && log[i].kind == kind && read(log[i]).Some?
  }

  ghost predicate KeepsSupplying<T>(log: seq<Event>, e: Event, read: Event -> Option<T>) {
    Supplied(log, e.kind, read) ==> read(e).Some?
  }

  /** A showing built from the locked row, as the stores build it. */
  ghost predicate BuiltFrom(row: Surfacing, e: Event) {
    e.kind.Surface? ==>
      e == SurfacedEvent(row.count + 1, row.firstAt.GetOr(e.occurredAt), e.occurredAt, e.actorClass, row.attested,
                         e.payload.canonical).(seqNo := e.seqNo)
  }

  /** One append: a fresh sequence number, a stamped showing, and no field withheld that its kind once gave. */
  ghost predicate Appends(log: seq<Event>, e: Event) {
    && (forall f :: f in log ==> f.seqNo < e.seqNo)
    && BuiltFrom(Replay(log).surfacing, e)
    && KeepsSupplying(log, e, ReadPlanRoot) && KeepsSupplying(log, e, ReadExpiry)
    && KeepsSupplying(log, e, ReadBasis) && KeepsSupplying(log, e, ReadRevision) && KeepsSupplying(log, e, ReadCutoff)
  }

  ghost predicate Grown(s: seq<Event>) {
    s == [] || (Grown(s[..|s| - 1]) && Appends(s[..|s| - 1], s[|s| - 1]))
  }

  function ShowingCount(s: seq<Event>): nat {
    if s == [] then 0 else ShowingCount(s[..|s| - 1]) + if s[|s| - 1].kind.Surface? then 1 else 0
  }

  lemma PersistsGrows<T>(s: seq<Event>, read: Event -> Option<T>)
    requires s != [] && Persists(s[..|s| - 1], read) && KeepsSupplying(s[..|s| - 1], s[|s| - 1], read)
    requires forall e: Event :: read(e).Some? ==> KnownKind(e.kind)
    ensures Persists(s, read)
  {
    var r := s[..|s| - 1];
    forall i, j | 0 <= i < j < |s| && s[i].kind == s[j].kind && read(s[i]).Some? ensures read(s[j]).Some? {
      assert r[i] == s[i];
      if j < |r| { assert r[j] == s[j]; }
    }
  }

  lemma {:induction false} GrownIsChronological(s: seq<Event>)
    requires Grown(s)
    ensures Chronological(s)
  {
    if s == [] {
    } else {
      var r := s[..|s| - 1];
      GrownIsChronological(r);
      forall i, j | 0 <= i < j < |s| ensures EventLess(s[i], s[j]) {
        assert s[i] == r[i] && s[i] in r;
        if j < |r| { assert s[j] == r[j]; }
      }
    }
  }

  lemma ReplayShowings(s: seq<Event>)
    ensures Replay(s).surfacing == Showings(s)
  {
    ReplayIsLatestSays(s);
  }

  /** One more showing of the running values: counted, first stamped, and carried by the event itself. */
  lemma OneMoreShowing(g: Surfacing, e: Event)
    requires e.kind.Surface? && BuiltFrom(g, e) && g.count >= 0 && (g.firstAt.Some? <==> g.count > 0)
    ensures Show(g, e).count == g.count + 1 == Show(UNSHOWN, e).count
    ensures Show(g, e).attested == Show(UNSHOWN, e).attested
    ensures e.payload.Get("first_surfaced_at").instant.Some? && Show(g, e).firstAt.Some?
  {
  }

  /** The running values really run: the row's count is the number of showings, and the latest carries it. */
  lemma {:induction false} GrownShowings(s: seq<Event>)
    requires Grown(s)
    ensures LatestShowingCarries(s)
    ensures Showings(s).count == ShowingCount(s)
    ensures Showings(s).firstAt.Some? <==> ShowingCount(s) > 0
  {
    if s == [] {
    } else {
      var r, e := s[..|s| - 1], s[|s| - 1];
      GrownShowings(r);
      ReplayShowings(r);
      assert BuiltFrom(Showings(r), e);
      if e.kind.Surface? { OneMoreShowing(Showings(r), e); }
    }
  }

  lemma {:induction false} GrownPersistsRoots(s: seq<Event>)
    requires Grown(s)
    ensures Persists(s, ReadPlanRoot) && Persists(s, ReadExpiry)
  {
    if s == [] {
    } else {
      GrownPersistsRoots(s[..|s| - 1]);
      PersistsGrows(s, ReadPlanRoot);
      PersistsGrows(s, ReadExpiry);
    }
  }

  lemma {:induction false} GrownPersistsEvidence(s: seq<Event>)
    requires Grown(s)
    ensures Persists(s, ReadBasis) && Persists(s, ReadRevision) && Persists(s, ReadCutoff)
  {
    if s == [] {
    } else {
      GrownPersistsEvidence(s[..|s| - 1]);
      PersistsGrows(s, ReadBasis);
      PersistsGrows(s, ReadRevision);
      PersistsGrows(s, ReadCutoff);
    }
  }

  lemma GrownIsStamped(s: seq<Event>)
    requires Grown(s)
    ensures Chronological(s) && Stamped(s)
  {
    GrownShowings(s);
    GrownIsChronological(s);
    GrownPersistsRoots(s);
    GrownPersistsEvidence(s);
  }

  /** What the table and the caps promise together: a grown log reads the same under every cap. */
  lemma GrownReadsTheSameUnderEveryCap(s: seq<Event>, afterSurfaces: int, maxEvents: int)
    requires Grown(s)
    ensures Fold(s, afterSurfaces, maxEvents).projection == Replay(s)
    ensures Fold(s, afterSurfaces, maxEvents).projection.surfacing.count == ShowingCount(s)
    ensures Fold(s, afterSurfaces, maxEvents).nonresponse == NonresponseState(ShowingCount(s), afterSurfaces)
  {
    GrownIsStamped(s);
    OrderedOfChronological(s);
    CapIsLossless(s, maxEvents);
    GrownShowings(s);
    ReplayShowings(s);
  }

  /** A writer holding only the truncated window writes what a writer holding the whole log writes. */
  lemma WriterOnWindowAgrees(log: seq<Event>, more: seq<Event>, highestSeq: int,
                             afterSurfaces: int, cap: int, readCap: int)
    requires Grown(log + StampFrom(more, highestSeq))
    ensures Fold(Window(log, readCap) + StampFrom(more, highestSeq), afterSurfaces, cap).projection
         == Fold(log + StampFrom(more, highestSeq), afterSurfaces, cap).projection
         == Replay(log + StampFrom(more, highestSeq))
  {
    var whole := log + StampFrom(more, highestSeq);
    GrownIsStamped(whole);
    ChronologicalIdentifies(whole);
    OrderedOfChronological(whole);
    WindowThenAppendIsLossless(log, StampFrom(more, highestSeq), readCap, cap);
    CapIsLossless(whole, cap);
  }
}
