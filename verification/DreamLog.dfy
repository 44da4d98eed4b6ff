/** The event log of a dream proposal: its canonical order, its truncation and its fold. */
module DreamLog {
  import opened Ordering

  type Instant = int

  /** The fourteen kinds, and whatever an older or newer build may have written. */
  datatype Kind =
    | Mint | Surface | Accept | Reject | Snooze | Unsnooze | BindObjective | StartPursuit | AbandonPursuit
    | Complete | Withdraw | Expire | Supersede | RevalidateEvidence | Unknown(name: string)
  {
    /** The value stored for the kind, which is what the sort key compares. */
    function Spelling(): string {
      match this
      case Mint => "proposed"
      case Surface => "surfaced"
      case Accept => "accepted"
      case Reject => "rejected"
      case Snooze => "snoozed"
      case Unsnooze => "unsnoozed"
      case BindObjective => "objective_bound"
      case StartPursuit => "pursuit_started"
      case AbandonPursuit => "pursuit_abandoned"
      case Complete => "completed"
      case Withdraw => "withdrawn"
      case Expire => "expired"
      case Supersede => "superseded"
      case RevalidateEvidence => "evidence_revalidated"
      case Unknown(name) => name
    }
  }

  /** Every kind, in the sorted order both backends bind into their query. */
  const PINNED_KINDS: seq<Kind> := [
    Accept, Complete, RevalidateEvidence, Expire, BindObjective, Mint, AbandonPursuit,
    StartPursuit, Reject, Snooze, Supersede, Surface, Unsnooze, Withdraw]

  const EVIDENCE_BASIS_TRUSTED := "trusted_current"
  const SCOPE_KIND_PROJECT := "project"
  const REASON_LIMIT := 400
  const MAX_EVENTS := 500

  predicate KnownKind(kind: Kind) { !kind.Unknown? }

  // ---- events -------------------------------------------------------------------------------

  datatype Citation = Citation(eventId: string, receiptId: string, contentSha256: string, quote: string)

  /** A payload entry, reduced to what the total readers make of it: `None` is the reader's fallback. */
  datatype Entry = Entry(
    text: Option<string>, integer: Option<int>, flag: Option<bool>, instant: Option<Instant>,
    citations: seq<Citation>, tokens: Option<seq<string>>)

  const MISSING := Entry(None, None, None, None, [], None)

  /** `canonical` is the canonical JSON of the payload, the part of it that the sort key sees. */
  datatype Payload = Payload(canonical: string, entries: map<string, Entry>) {
    function Get(key: string): Entry {
      if key in entries then entries[key] else MISSING
    }
  }

  datatype Event = Event(seqNo: int, kind: Kind, payload: Payload, occurredAt: Instant, actorClass: string)

  datatype Key = Key(seqNo: int, spelling: string, canonical: string)

  function KeyOf(e: Event): Key { Key(e.seqNo, e.kind.Spelling(), e.payload.canonical) }

  predicate KeyLess(a: Key, b: Key) {
    if a.seqNo != b.seqNo then a.seqNo < b.seqNo
    else if a.spelling != b.spelling then TextLess(a.spelling, b.spelling)
    else TextLess(a.canonical, b.canonical)
  }

  predicate EventLess(a: Event, b: Event) { KeyLess(KeyOf(a), KeyOf(b)) }

  lemma EventLessIsWeak()
    ensures StrictWeak(EventLess)
    ensures forall a, b :: !EventLess(a, b) && !EventLess(b, a) ==> KeyOf(a) == KeyOf(b)
  {
    TextLessIsStrictTotal();
  }

  // ---- canonical order ----------------------------------------------------------------------

  predicate HasKey(events: seq<Event>, key: Key) {
    exists e :: e in events && KeyOf(e) == key
  }

  /** The first event of every key, in order. */
  function FirstOfEachKey(events: seq<Event>): (r: seq<Event>) {
    if events == [] then []
    else
      var front := FirstOfEachKey(events[..|events| - 1]);
      var e := events[|events| - 1];
      if HasKey(front, KeyOf(e)) then front else front + [e]
  }

  method Dedupe(events: seq<Event>) returns (out: seq<Event>)
    ensures out == FirstOfEachKey(events)
  {
    var seen: set<Key> := {};
    out := [];
    for i := 0 to |events|
      invariant out == FirstOfEachKey(events[..i])
      invariant forall k :: k in seen <==> HasKey(out, k)
    {
      assert events[..i + 1][..i] == events[..i];
      var key := KeyOf(events[i]);
      if key !in seen {
        assert forall k :: HasKey(out + [events[i]], k) <==> HasKey(out, k) || k == key by {
          assert events[i] in out + [events[i]];
        }
        seen := seen + {key};
        out := out + [events[i]];
      }
    }
    assert events[..|events|] == events;
  }

  /** The order the fold replays: sorted by key, one event a key. */
  function Ordered(events: seq<Event>): seq<Event> {
    FirstOfEachKey(Sort(events, EventLess))
  }

  // ---- truncation ---------------------------------------------------------------------------

  function LatestOfKind(events: seq<Event>, kind: Kind): (r: Option<Event>) {
    if events == [] then None
    else if events[|events| - 1].kind == kind then Some(events[|events| - 1])
    else LatestOfKind(events[..|events| - 1], kind)
  }

  function Pinned(events: seq<Event>, kinds: seq<Kind>): (r: seq<Event>) {
    if kinds == [] then []
    else
      var front := Pinned(events, kinds[..|kinds| - 1]);
      match LatestOfKind(events, kinds[|kinds| - 1])
      case Some(e) => front + [e]
      case None => front
  }

  function TailSize(maxEvents: int): nat {
    if maxEvents > |PINNED_KINDS| then maxEvents - |PINNED_KINDS| else 0
  }

  /** `events[-n:]`, with `[]` for `n == 0`. */
  function Tail(events: seq<Event>, n: nat): seq<Event> {
    if n >= |events| then events else events[|events| - n..]
  }

  /** The window the fold replays: all of a short log, the latest of every kind plus a tail of a long one. */
  function Window(events: seq<Event>, maxEvents: int): seq<Event> {
    var ordered := Ordered(events);
    if |ordered| <= maxEvents then ordered
    else Ordered(Pinned(ordered, PINNED_KINDS) + Tail(ordered, TailSize(maxEvents)))
  }

  method PinnedEvents(ordered: seq<Event>) returns (pinned: seq<Event>)
    ensures pinned == Pinned(ordered, PINNED_KINDS)
  {
    pinned := [];
    for k := 0 to |PINNED_KINDS|
      invariant pinned == Pinned(ordered, PINNED_KINDS[..k])
    {
      var latest: Option<Event> := None;
      for i := 0 to |ordered|
        invariant latest == LatestOfKind(ordered[..i], PINNED_KINDS[k])
      {
        assert ordered[..i + 1][..i] == ordered[..i];
        if ordered[i].kind == PINNED_KINDS[k] { latest := Some(ordered[i]); }
      }
      assert ordered[..|ordered|] == ordered;
      assert PINNED_KINDS[..k + 1][..k] == PINNED_KINDS[..k];
      if latest.Some? { pinned := pinned + [latest.value]; }
    }
    assert PINNED_KINDS[..|PINNED_KINDS|] == PINNED_KINDS;
  }

  // ---- the fold -----------------------------------------------------------------------------

  datatype Status =
    Proposed | Surfaced | Accepted | Rejected | Snoozed | Pursued | Completed | Abandoned | Withdrawn | Expired

  datatype Nonresponse = NeverSurfaced | AwaitingResponse | Ignored

  /** What only a mint writes. `themeTokens == None` stands for the tokens derived from title and first step. */
  datatype Pitch = Pitch(
    title: string, connection: string, benefit: string, firstStep: string, themeTokens: Option<seq<string>>,
    projectId: Option<string>, scopeKind: string, supersedes: Option<string>, reproposeDepth: int)

  datatype Surfacing = Surfacing(
    count: int, attested: bool, firstAt: Option<Instant>, lastAt: Option<Instant>)

  datatype Stamp = Stamp(at: Option<Instant>, reason: string)

  datatype Binding = Binding(taskId: Option<string>, objectiveHash: Option<string>)

  datatype Projection = Projection(
    status: Status, pitch: Pitch, citations: seq<Citation>,
    evidenceBasis: string, evidenceRevision: string, evidenceCutoffAt: Option<Instant>,
    surfacing: Surfacing, snoozeUntil: Option<Instant>, expiresAt: Option<Instant>,
    acceptedAt: Option<Instant>, rejection: Stamp, binding: Binding, planRoot: Option<string>,
    pursuitStartedAt: Option<Instant>, completedAt: Option<Instant>, abandonment: Stamp, withdrawnReason: string)

  const UNSHOWN := Surfacing(0, false, None, None)

  const INITIAL := Projection(
    Proposed, Pitch("", "", "", "", Some([]), None, SCOPE_KIND_PROJECT, None, 0), [],
    EVIDENCE_BASIS_TRUSTED, "", None, UNSHOWN, None, None, None, Stamp(None, ""), Binding(None, None), None,
    None, None, Stamp(None, ""), "")

  function NonEmpty(text: Option<string>): Option<string> {
    if text == Some("") then None else text
  }

  function OrElse<T>(a: Option<T>, b: Option<T>): Option<T> {
    if a.Some? then a else b
  }

  function Clip(s: string): string {
    if |s| <= REASON_LIMIT then s else s[..REASON_LIMIT]
  }

  function PitchOf(p: Payload): Pitch {
    Pitch(p.Get("title").text.GetOr(""), p.Get("connection_text").text.GetOr(""),
          p.Get("benefit_text").text.GetOr(""), p.Get("first_step").text.GetOr(""),
          p.Get("theme_tokens").tokens, NonEmpty(p.Get("project_id").text),
          NonEmpty(p.Get("scope_kind").text).GetOr(SCOPE_KIND_PROJECT),
          NonEmpty(p.Get("supersedes_proposal_id").text), p.Get("repropose_depth").integer.GetOr(0))
  }

  function Show(s: Surfacing, e: Event): Surfacing {
    Surfacing(
      Max(s.count, e.payload.Get("ordinal").integer.GetOr(s.count + 1)),
      s.attested || e.payload.Get("attested_ever").flag.GetOr(false),
      Some(OrElse(e.payload.Get("first_surfaced_at").instant, s.firstAt).GetOr(e.occurredAt)),
      Some(e.occurredAt))
  }

  /** One event's contribution, branch by branch. */
  function Step(p: Projection, e: Event): Projection {
    var get := (key: string) => e.payload.Get(key);
    var stamped := (key: string) => Some(get(key).instant.GetOr(e.occurredAt));
    match e.kind
    case Mint =>
      p.(status := Proposed, pitch := PitchOf(e.payload), citations := get("citations").citations,
         evidenceBasis := NonEmpty(get("evidence_basis").text).GetOr(EVIDENCE_BASIS_TRUSTED),
         evidenceRevision := get("evidence_revision").text.GetOr(""),
         evidenceCutoffAt := get("evidence_cutoff_at").instant,
         expiresAt := get("expires_at").instant)
    case Surface =>
      p.(surfacing := Show(p.surfacing, e), status := if p.status.Proposed? then Surfaced else p.status)
    case Accept =>
      p.(acceptedAt := stamped("accepted_at"), status := Accepted)
    case Reject =>
      p.(rejection := Stamp(stamped("rejected_at"), Clip(get("reason").text.GetOr(""))), status := Rejected)
    case Snooze =>
      p.(snoozeUntil := get("snooze_until").instant, status := Snoozed)
    case Unsnooze =>
      p.(snoozeUntil := None, expiresAt := OrElse(get("expires_at").instant, p.expiresAt), status := Proposed)
    case BindObjective =>
      p.(binding := Binding(NonEmpty(get("task_id").text), NonEmpty(get("objective_hash").text)),
         planRoot := OrElse(NonEmpty(get("plan_root_goal_id").text), p.planRoot))
    case StartPursuit =>
      p.(pursuitStartedAt := stamped("pursuit_started_at"),
         planRoot := OrElse(NonEmpty(get("plan_root_goal_id").text), p.planRoot), status := Pursued)
    case AbandonPursuit =>
      p.(abandonment := Stamp(stamped("abandoned_at"), Clip(get("reason").text.GetOr(""))), status := Abandoned)
    case Complete =>
      p.(completedAt := stamped("completed_at"), status := Completed)
    case Withdraw =>
      p.(withdrawnReason := Clip(get("reason").text.GetOr("")), status := Withdrawn)
    case Supersede =>
      p.(withdrawnReason := "superseded", status := Withdrawn)
    case Expire =>
      p.(status := Expired)
    case RevalidateEvidence =>
      p.(citations := get("citations").citations,
         evidenceBasis := NonEmpty(get("evidence_basis").text).GetOr(p.evidenceBasis),
         evidenceRevision := get("evidence_revision").text.GetOr(p.evidenceRevision),
         evidenceCutoffAt := OrElse(get("evidence_cutoff_at").instant, p.evidenceCutoffAt))
    case Unknown(_) => p
  }

  function Replay(events: seq<Event>): Projection {
    if events == [] then INITIAL
    else Step(Replay(events[..|events| - 1]), events[|events| - 1])
  }

  function UnknownKinds(events: seq<Event>): seq<string> {
    if events == [] then []
    else
      var front := UnknownKinds(events[..|events| - 1]);
      var kind := events[|events| - 1].kind;
      if KnownKind(kind) then front else front + [kind.name]
  }

  function NonresponseState(count: int, afterSurfaces: int): Nonresponse {
    if Max(0, count) == 0 then NeverSurfaced
    else if Max(0, count) < Max(1, afterSurfaces) then AwaitingResponse
    else Ignored
  }

  /** `sourceRevision` is the list of keys that the revision digest is taken over. */
  datatype FoldResult = FoldResult(
    projection: Projection, nonresponse: Nonresponse, sourceRevision: seq<Key>, unknownKinds: seq<string>,
    truncated: bool)

  function KeysOf(events: seq<Event>): (r: seq<Key>)
    ensures |r| == |events| && forall i :: 0 <= i < |r| ==> r[i] == KeyOf(events[i])
  {
    seq(|events|, i requires 0 <= i < |events| => KeyOf(events[i]))
  }

  function Fold(events: seq<Event>, afterSurfaces: int, maxEvents: int): FoldResult {
    var window := Window(events, maxEvents);
    var p := Replay(window);
    FoldResult(p, NonresponseState(p.surfacing.count, afterSurfaces), KeysOf(window), UnknownKinds(window),
               |Ordered(events)| > maxEvents)
  }

  lemma ReplayOneMore(ordered: seq<Event>, i: nat)
    requires i < |ordered|
    ensures Replay(ordered[..i + 1]) == Step(Replay(ordered[..i]), ordered[i])
    ensures UnknownKinds(ordered[..i + 1]) ==
            UnknownKinds(ordered[..i]) + if KnownKind(ordered[i].kind) then [] else [ordered[i].kind.name]
  {
    assert ordered[..i + 1][..i] == ordered[..i];
  }

  lemma UnknownStep(p: Projection, e: Event)
    requires !KnownKind(e.kind)
    ensures Step(p, e) == p
  {
  }

  method ReplayWindow(ordered: seq<Event>) returns (p: Projection, unknown: seq<string>)
    ensures p == Replay(ordered) && unknown == UnknownKinds(ordered)
  {
    p := INITIAL;
    unknown := [];
    for i := 0 to |ordered|
      invariant p == Replay(ordered[..i])
      invariant unknown == UnknownKinds(ordered[..i])
    {
      var e := ordered[i];
      ReplayOneMore(ordered, i);
      if KnownKind(e.kind) {
        p := Step(p, e);
      } else {
        UnknownStep(p, e);
        unknown := unknown + [e.kind.name];
      }
    }
    assert ordered[..|ordered|] == ordered;
  }

  method FoldDreamProposal(events: seq<Event>, afterSurfaces: int, maxEvents: int) returns (r: FoldResult)
    ensures r == Fold(events, afterSurfaces, maxEvents)
  {
    var ordered := Dedupe(Sort(events, EventLess));
    var truncated := false;
    if |ordered| > maxEvents {
      truncated := true;
      var pinned := PinnedEvents(ordered);
      ordered := Dedupe(Sort(pinned + Tail(ordered, TailSize(maxEvents)), EventLess));
    }
    var p, unknown := ReplayWindow(ordered);
    r := FoldResult(p, NonresponseState(p.surfacing.count, afterSurfaces), KeysOf(ordered), unknown, truncated);
  }

  // ---- constructors and writes --------------------------------------------------------------

  /** The only constructor of a `surfaced` event: the running values travel in the payload. */
  function SurfacedEvent(
    ordinal: int, firstSurfacedAt: Instant, occurredAt: Instant, actorClass: string, priorAttested: bool,
    canonical: string): Event
  {
    Event(0, Surface,
      Payload(canonical, map[
        "ordinal" := MISSING.(integer := Some(Max(1, ordinal))),
        "first_surfaced_at" := MISSING.(instant := Some(firstSurfacedAt)),
        "attested_ever" := MISSING.(flag := Some(priorAttested || actorClass == "human"))]),
      occurredAt, actorClass)
  }

  function StampFrom(events: seq<Event>, highestSeq: int): (r: seq<Event>)
    ensures |r| == |events|
    ensures forall i :: 0 <= i < |r| ==> r[i] == events[i].(seqNo := highestSeq + 1 + i)
  {
    seq(|events|, i requires 0 <= i < |events| => events[i].(seqNo := highestSeq + 1 + i))
  }

  method PrepareDreamWrite(prior: seq<Event>, added: seq<Event>, highestSeq: int, afterSurfaces: int, maxEvents: int)
    returns (stamped: seq<Event>, folded: FoldResult)
    ensures stamped == StampFrom(added, highestSeq)
    ensures folded == Fold(prior + stamped, afterSurfaces, maxEvents)
  {
    stamped := [];
    var next := highestSeq;
    for i := 0 to |added|
      invariant next == highestSeq + i
      invariant stamped == StampFrom(added, highestSeq)[..i]
    {
      next := next + 1;
      stamped := stamped + [added[i].(seqNo := next)];
    }
    folded := FoldDreamProposal(prior + stamped, afterSurfaces, maxEvents);
  }
}
