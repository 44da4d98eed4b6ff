/** What the replay means: a reference reading of every field, and the canonical order beneath it. */
module DreamReplay {
  import opened Ordering
  import opened DreamLog

  // ---- the canonical order ------------------------------------------------------------------

  ghost predicate Chronological(s: seq<Event>) { StrictlySorted(s, EventLess) }

  ghost predicate SameEvents(s: seq<Event>, t: seq<Event>) { forall e :: e in s <==> e in t }

  /** No two different events share a sort key, although `occurredAt` is not part of it. */
  ghost predicate KeysIdentify(s: seq<Event>) {
    forall a, b :: a in s && b in s && KeyOf(a) == KeyOf(b) ==> a == b
  }

  lemma {:induction false} FirstOfEachKeyMembers(s: seq<Event>)
    ensures forall e :: e in FirstOfEachKey(s) ==> e in s
    ensures forall a, b :: a in FirstOfEachKey(s) && b in FirstOfEachKey(s) && KeyOf(a) == KeyOf(b) ==> a == b
  {
    if s == [] {
    } else {
      FirstOfEachKeyMembers(s[..|s| - 1]);
    }
  }

  lemma {:induction false} FirstOfEachKeyCovers(s: seq<Event>, e: Event)
    requires e in s
    ensures HasKey(FirstOfEachKey(s), KeyOf(e))
  {
    var front, last := FirstOfEachKey(s[..|s| - 1]), s[|s| - 1];
    if e in s[..|s| - 1] {
      FirstOfEachKeyCovers(s[..|s| - 1], e);
      var f :| f in front && KeyOf(f) == KeyOf(e);
      assert f in FirstOfEachKey(s);
    } else if HasKey(front, KeyOf(last)) {
    } else {
      assert last in FirstOfEachKey(s);
    }
  }

  lemma {:induction false} FirstOfEachKeyIncreases(s: seq<Event>)
    requires Sorted(s, EventLess)
    ensures Chronological(FirstOfEachKey(s))
  {
    if s != [] {
      EventLessIsWeak();
      var front, e := FirstOfEachKey(s[..|s| - 1]), s[|s| - 1];
      FirstOfEachKeyIncreases(s[..|s| - 1]);
      FirstOfEachKeyMembers(s[..|s| - 1]);
      forall i | 0 <= i < |front| && !HasKey(front, KeyOf(e))
        ensures EventLess(front[i], e)
      {
        assert front[i] in s[..|s| - 1];
        assert !EventLess(e, front[i]);
        assert KeyOf(front[i]) != KeyOf(e);
      }
    }
  }

  lemma OrderedFacts(s: seq<Event>)
    ensures Chronological(Ordered(s))
    ensures forall e :: e in Ordered(s) ==> e in s
    ensures forall e :: e in s ==> HasKey(Ordered(s), KeyOf(e))
    ensures KeysIdentify(s) ==> SameEvents(Ordered(s), s)
  {
    EventLessIsWeak();
    SortIsSortedPermutation(s, EventLess);
    SortMembers(s, EventLess);
    FirstOfEachKeyIncreases(Sort(s, EventLess));
    FirstOfEachKeyMembers(Sort(s, EventLess));
    forall e | e in s ensures HasKey(Ordered(s), KeyOf(e)) { FirstOfEachKeyCovers(Sort(s, EventLess), e); }
    if KeysIdentify(s) {
      forall e | e in s ensures e in Ordered(s) {
        var f :| f in Ordered(s) && KeyOf(f) == KeyOf(e);
      }
    }
  }

  lemma ChronologicalIdentifies(s: seq<Event>)
    requires Chronological(s)
    ensures KeysIdentify(s)
  {
    EventLessIsWeak();
    forall a, b | a in s && b in s && KeyOf(a) == KeyOf(b) ensures a == b {
      var i :| 0 <= i < |s| && s[i] == a;
      var j :| 0 <= j < |s| && s[j] == b;
      assert !EventLess(a, b) && !EventLess(b, a);
    }
  }

  lemma ChronologicalUnique(s: seq<Event>, t: seq<Event>)
    requires Chronological(s) && Chronological(t) && SameEvents(s, t)
    ensures s == t
  {
    EventLessIsWeak();
    StrictlySortedUnique(s, t, EventLess);
  }

  lemma OrderedOfChronological(s: seq<Event>)
    requires Chronological(s)
    ensures Ordered(s) == s
  {
    ChronologicalIdentifies(s);
    OrderedFacts(s);
    ChronologicalUnique(Ordered(s), s);
  }

  /** Reordering or duplicating the same events changes nothing: two writers of one log agree. */
  lemma FoldCanonical(s: seq<Event>, t: seq<Event>, afterSurfaces: int, maxEvents: int)
    requires KeysIdentify(s) && SameEvents(s, t)
    ensures Ordered(s) == Ordered(t)
    ensures Fold(s, afterSurfaces, maxEvents) == Fold(t, afterSurfaces, maxEvents)
  {
    OrderedFacts(s);
    OrderedFacts(t);
    ChronologicalUnique(Ordered(s), Ordered(t));
  }

  lemma {:induction false} InsertedFirst(x: Event, s: seq<Event>) returns (u: seq<Event>, v: seq<Event>)
    ensures Insert(x, s, EventLess) == u + [x] + v
    ensures forall e :: e in u ==> EventLess(e, x)
  {
    if s != [] && EventLess(s[0], x) {
      u, v := InsertedFirst(x, s[1..]);
      assert [s[0]] + (u + [x] + v) == ([s[0]] + u) + [x] + v;
      u := [s[0]] + u;
    } else {
      u, v := [], s;
    }
  }

  lemma {:induction false} UnprecedentedKeyStays(u: seq<Event>, x: Event, v: seq<Event>)
    requires forall e :: e in u ==> KeyOf(e) != KeyOf(x)
    ensures x in FirstOfEachKey(u + [x] + v)
  {
    var s := u + [x] + v;
    if v == [] {
      assert s[..|s| - 1] == u;
      FirstOfEachKeyMembers(u);
      assert !HasKey(FirstOfEachKey(u), KeyOf(x));
    } else {
      assert s[..|s| - 1] == u + [x] + v[..|v| - 1];
      UnprecedentedKeyStays(u, x, v[..|v| - 1]);
    }
  }

  lemma HeadWinsTies(x: Event, s: seq<Event>)
    ensures x in Ordered([x] + s)
  {
    TextLessIsStrictTotal();
    assert ([x] + s)[1..] == s;
    var u, v := InsertedFirst(x, Sort(s, EventLess));
    UnprecedentedKeyStays(u, x, v);
  }

  /** Exactly when: the replayed order is a function of the set of events iff keys identify events. */
  lemma OrderIsCanonicalIff(s: seq<Event>)
    ensures KeysIdentify(s) <==> forall t :: SameEvents(s, t) ==> Ordered(t) == Ordered(s)
  {
    if KeysIdentify(s) {
      forall t {:trigger SameEvents(s, t)} | SameEvents(s, t) ensures Ordered(t) == Ordered(s) {
        FoldCanonical(s, t, 0, 0);
      }
    } else {
      var a, b :| a in s && b in s && KeyOf(a) == KeyOf(b) && a != b;
      TieMakesOrderMatter(s, a, b);
    }
  }

  lemma TieMakesOrderMatter(s: seq<Event>, a: Event, b: Event)
    requires a in s && b in s && KeyOf(a) == KeyOf(b) && a != b
    ensures exists t :: SameEvents(s, t) && Ordered(t) != Ordered(s)
  {
    var t := LeftOut(s, a, b);
  }

  lemma Reheaded(a: Event, s: seq<Event>) returns (t: seq<Event>)
    requires a in s
    ensures SameEvents(s, t) && a in Ordered(t)
  {
    t := [a] + s;
    HeadWinsTies(a, s);
  }

  lemma LeftOut(s: seq<Event>, a: Event, b: Event) returns (t: seq<Event>)
    requires a in s && b in s && KeyOf(a) == KeyOf(b) && a != b
    ensures SameEvents(s, t) && Ordered(t) != Ordered(s)
  {
    OrderedFacts(s);
    OneOfATie(Ordered(s), a, b);
    if a in Ordered(s) { t := Reheaded(b, s); } else { t := Reheaded(a, s); }
  }

  lemma OneOfATie(ordered: seq<Event>, a: Event, b: Event)
    requires Chronological(ordered) && KeyOf(a) == KeyOf(b) && a != b
    ensures !(a in ordered && b in ordered)
  {
    ChronologicalIdentifies(ordered);
  }

  // ---- last-writer reading ------------------------------------------------------------------

  ghost function LastReader<T>(s: seq<Event>, read: Event -> Option<T>): Option<Event> {
    if s == [] then None
    else if read(s[|s| - 1]).Some? then Some(s[|s| - 1])
    else LastReader(s[..|s| - 1], read)
  }

  ghost function LastRead<T>(s: seq<Event>, read: Event -> Option<T>, initial: T): T {
    match LastReader(s, read)
    case Some(e) => read(e).GetOr(initial)
    case None => initial
  }

  ghost function When<T>(condition: bool, value: T): Option<T> { if condition then Some(value) else None }

  ghost function Lift<T>(value: Option<T>): Option<Option<T>> { if value.Some? then Some(value) else None }

  ghost function At(e: Event, key: string): Option<Instant> {
    Some(e.payload.Get(key).instant.GetOr(e.occurredAt))
  }

  ghost function Reason(e: Event): string { Clip(e.payload.Get("reason").text.GetOr("")) }

  ghost function ReadPitch(e: Event): Option<Pitch> { When(e.kind.Mint?, PitchOf(e.payload)) }

  ghost function ReadCitations(e: Event): Option<seq<Citation>> {
    When(e.kind.Mint? || e.kind.RevalidateEvidence?, e.payload.Get("citations").citations)
  }

  ghost function ReadBasis(e: Event): Option<string> {
    if e.kind.Mint? then Some(NonEmpty(e.payload.Get("evidence_basis").text).GetOr(EVIDENCE_BASIS_TRUSTED))
    else if e.kind.RevalidateEvidence? then NonEmpty(e.payload.Get("evidence_basis").text) else None
  }

  ghost function ReadRevision(e: Event): Option<string> {
    if e.kind.Mint? then Some(e.payload.Get("evidence_revision").text.GetOr(""))
    else if e.kind.RevalidateEvidence? then e.payload.Get("evidence_revision").text else None
  }

  ghost function ReadCutoff(e: Event): Option<Option<Instant>> {
    if e.kind.Mint? then Some(e.payload.Get("evidence_cutoff_at").instant)
    else if e.kind.RevalidateEvidence? then Lift(e.payload.Get("evidence_cutoff_at").instant) else None
  }

  ghost function ReadExpiry(e: Event): Option<Option<Instant>> {
    if e.kind.Mint? then Some(e.payload.Get("expires_at").instant)
    else if e.kind.Unsnooze? then Lift(e.payload.Get("expires_at").instant) else None
  }

  ghost function ReadPlanRoot(e: Event): Option<Option<string>> {
    if e.kind.BindObjective? || e.kind.StartPursuit?
    then Lift(NonEmpty(e.payload.Get("plan_root_goal_id").text)) else None
  }

  ghost function ReadSnooze(e: Event): Option<Option<Instant>> {
    if e.kind.Snooze? then Some(e.payload.Get("snooze_until").instant)
    else if e.kind.Unsnooze? then Some(None) else None
  }

  ghost function ReadAccepted(e: Event): Option<Option<Instant>> { When(e.kind.Accept?, At(e, "accepted_at")) }

  ghost function ReadRejection(e: Event): Option<Stamp> {
    When(e.kind.Reject?, Stamp(At(e, "rejected_at"), Reason(e)))
  }

  ghost function ReadBinding(e: Event): Option<Binding> {
    When(e.kind.BindObjective?,
         Binding(NonEmpty(e.payload.Get("task_id").text), NonEmpty(e.payload.Get("objective_hash").text)))
  }

  ghost function ReadPursuit(e: Event): Option<Option<Instant>> {
    When(e.kind.StartPursuit?, At(e, "pursuit_started_at"))
  }

  ghost function ReadCompleted(e: Event): Option<Option<Instant>> {
    When(e.kind.Complete?, At(e, "completed_at"))
  }

  ghost function ReadAbandonment(e: Event): Option<Stamp> {
    When(e.kind.AbandonPursuit?, Stamp(At(e, "abandoned_at"), Reason(e)))
  }

  ghost function ReadWithdrawal(e: Event): Option<string> {
    if e.kind.Withdraw? then Some(Reason(e)) else When(e.kind.Supersede?, "superseded")
  }

  /** The status an event sets whatever came before it; a showing sets none. */
  ghost function ReadVerdict(e: Event): Option<Status> {
    if e.kind.Mint? || e.kind.Unsnooze? then Some(Proposed)
    else if e.kind.Accept? then Some(Accepted)
    else if e.kind.Reject? then Some(Rejected)
    else if e.kind.Snooze? then Some(Snoozed)
    else if e.kind.StartPursuit? then Some(Pursued)
    else if e.kind.AbandonPursuit? then Some(Abandoned)
    else if e.kind.Complete? then Some(Completed)
    else if e.kind.Withdraw? || e.kind.Supersede? then Some(Withdrawn)
    else When(e.kind.Expire?, Expired)
  }

  /** Whether an event is a showing, among those that bear on the status. */
  ghost function ReadShown(e: Event): Option<bool> {
    if e.kind.Surface? then Some(true) else if ReadVerdict(e).Some? then Some(false) else None
  }

  ghost function StatusFrom(verdict: Status, shownSince: bool): Status {
    if verdict == Proposed && shownSince then Surfaced else verdict
  }

  /** The showings alone. */
  ghost function Showings(s: seq<Event>): Surfacing {
    if s == [] then UNSHOWN
    else if s[|s| - 1].kind.Surface? then Show(Showings(s[..|s| - 1]), s[|s| - 1])
    else Showings(s[..|s| - 1])
  }

  /** The reference reading: every field is what its latest writer said. */
  ghost function LatestSays(s: seq<Event>): Projection {
    Projection(
      StatusFrom(LastRead(s, ReadVerdict, Proposed), LastRead(s, ReadShown, false)),
      LastRead(s, ReadPitch, INITIAL.pitch), LastRead(s, ReadCitations, []),
      LastRead(s, ReadBasis, EVIDENCE_BASIS_TRUSTED), LastRead(s, ReadRevision, ""), LastRead(s, ReadCutoff, None),
      Showings(s), LastRead(s, ReadSnooze, None), LastRead(s, ReadExpiry, None),
      LastRead(s, ReadAccepted, None), LastRead(s, ReadRejection, INITIAL.rejection),
      LastRead(s, ReadBinding, INITIAL.binding), LastRead(s, ReadPlanRoot, None),
      LastRead(s, ReadPursuit, None), LastRead(s, ReadCompleted, None),
      LastRead(s, ReadAbandonment, INITIAL.abandonment), LastRead(s, ReadWithdrawal, ""))
  }

  lemma LastReadStep<T>(s: seq<Event>, read: Event -> Option<T>, initial: T)
    requires s != []
    ensures LastRead(s, read, initial) == read(s[|s| - 1]).GetOr(LastRead(s[..|s| - 1], read, initial))
  {
  }

  ghost function StatusAfter(status: Status, e: Event): Status {
    if e.kind.Surface? && status == Proposed then Surfaced else ReadVerdict(e).GetOr(status)
  }

  /** One event read field by field, the rest left as it was. */
  ghost function Overlay(p: Projection, e: Event): Projection {
    Projection(
      StatusAfter(p.status, e), ReadPitch(e).GetOr(p.pitch), ReadCitations(e).GetOr(p.citations),
      ReadBasis(e).GetOr(p.evidenceBasis), ReadRevision(e).GetOr(p.evidenceRevision),
      ReadCutoff(e).GetOr(p.evidenceCutoffAt), if e.kind.Surface? then Show(p.surfacing, e) else p.surfacing,
      ReadSnooze(e).GetOr(p.snoozeUntil), ReadExpiry(e).GetOr(p.expiresAt), ReadAccepted(e).GetOr(p.acceptedAt),
      ReadRejection(e).GetOr(p.rejection), ReadBinding(e).GetOr(p.binding), ReadPlanRoot(e).GetOr(p.planRoot),
      ReadPursuit(e).GetOr(p.pursuitStartedAt), ReadCompleted(e).GetOr(p.completedAt),
      ReadAbandonment(e).GetOr(p.abandonment), ReadWithdrawal(e).GetOr(p.withdrawnReason))
  }

  lemma StepIsOverlay(p: Projection, e: Event)
    ensures Step(p, e) == Overlay(p, e)
  {
    match e.kind {
      case Mint => case Surface => case Accept => case Reject => case Snooze => case Unsnooze =>
      case BindObjective => case StartPursuit => case AbandonPursuit => case Complete => case Withdraw =>
      case Expire => case Supersede => case RevalidateEvidence => case Unknown(_) =>
    }
  }

  lemma StatusReadStep(s: seq<Event>)
    requires s != []
    ensures LatestSays(s).status == StatusAfter(LatestSays(s[..|s| - 1]).status, s[|s| - 1])
  {
    LastReadStep(s, ReadVerdict, Proposed);
    LastReadStep(s, ReadShown, false);
    VerdictIsNeverSurfaced(s[..|s| - 1]);
  }

  lemma VerdictIsNeverSurfaced(s: seq<Event>)
    ensures LastRead(s, ReadVerdict, Proposed) != Surfaced
  {
  }

  lemma LatestSaysStep(s: seq<Event>)
    requires s != []
    ensures LatestSays(s) == Overlay(LatestSays(s[..|s| - 1]), s[|s| - 1])
  {
    StatusReadStep(s);
    LastReadStep(s, ReadPitch, INITIAL.pitch);
    LastReadStep(s, ReadCitations, []);
    LastReadStep(s, ReadBasis, EVIDENCE_BASIS_TRUSTED);
    LastReadStep(s, ReadRevision, "");
    LastReadStep(s, ReadCutoff, None);
    LastReadStep(s, ReadSnooze, None);
    LastReadStep(s, ReadExpiry, None);
    LastReadStep(s, ReadAccepted, None);
    LastReadStep(s, ReadRejection, INITIAL.rejection);
    LastReadStep(s, ReadBinding, INITIAL.binding);
    LastReadStep(s, ReadPlanRoot, None);
    LastReadStep(s, ReadPursuit, None);
    LastReadStep(s, ReadCompleted, None);
    LastReadStep(s, ReadAbandonment, INITIAL.abandonment);
    LastReadStep(s, ReadWithdrawal, "");
  }

  /** The step-by-step replay is the reference reading, field by field, on every log. */
  lemma {:induction false} ReplayIsLatestSays(s: seq<Event>)
    ensures Replay(s) == LatestSays(s)
  {
    if s == [] {
    } else {
      ReplayIsLatestSays(s[..|s| - 1]);
      LatestSaysStep(s);
      StepIsOverlay(Replay(s[..|s| - 1]), s[|s| - 1]);
    }
  }
}
