/** Events that share a sort key. Two writers that stamped one sequence number fold alike exactly when the tied events
    that matter say the same time. */
module DreamTies {
  import opened Ordering
  import opened DreamLog
  import opened DreamReplay
  import opened DreamLossless

  // ---- twins --------------------------------------------------------------------------------

  /** Alike in everything but when they occurred and who acted. */
  predicate Twins(a: Event, b: Event) { a.seqNo == b.seqNo && a.kind == b.kind && a.payload == b.payload }

  ghost predicate TwinLogs(u: seq<Event>, v: seq<Event>) {
    |u| == |v| && forall i :: 0 <= i < |u| ==> Twins(u[i], v[i])
  }

  /** What a key says of an event: its kind by the spelling and its payload by the canonical text. */
  ghost predicate KeysTellContent(s: seq<Event>) {
    forall a, b :: a in s && b in s && KeyOf(a) == KeyOf(b) ==> Twins(a, b)
  }

  lemma {:induction false} InsertTwins(x: Event, y: Event, u: seq<Event>, v: seq<Event>)
    requires Twins(x, y) && TwinLogs(u, v)
    ensures TwinLogs(Insert(x, u, EventLess), Insert(y, v, EventLess))
  {
    if u == [] {
    } else {
      assert Twins(u[0], v[0]);
      InsertTwins(x, y, u[1..], v[1..]);
    }
  }

  lemma {:induction false} SortTwins(u: seq<Event>, v: seq<Event>)
    requires TwinLogs(u, v)
    ensures TwinLogs(Sort(u, EventLess), Sort(v, EventLess))
  {
    if u == [] {
    } else {
      SortTwins(u[1..], v[1..]);
      InsertTwins(u[0], v[0], Sort(u[1..], EventLess), Sort(v[1..], EventLess));
    }
  }

  lemma HasKeyTwins(u: seq<Event>, v: seq<Event>, k: Key)
    requires TwinLogs(u, v) && HasKey(u, k)
    ensures HasKey(v, k)
  {
    var e :| e in u && KeyOf(e) == k;
    var i :| 0 <= i < |u| && u[i] == e;
    assert Twins(u[i], v[i]) && v[i] in v;
  }

  lemma TwinsAreMutual(u: seq<Event>, v: seq<Event>)
    requires TwinLogs(u, v)
    ensures TwinLogs(v, u)
  {
  }

  lemma {:induction false} FirstOfEachKeyTwins(u: seq<Event>, v: seq<Event>)
    requires TwinLogs(u, v)
    ensures TwinLogs(FirstOfEachKey(u), FirstOfEachKey(v))
  {
    if u == [] {
    } else {
      var front, other := FirstOfEachKey(u[..|u| - 1]), FirstOfEachKey(v[..|v| - 1]);
      FirstOfEachKeyTwins(u[..|u| - 1], v[..|v| - 1]);
      var k := KeyOf(u[|u| - 1]);
      assert Twins(u[|u| - 1], v[|v| - 1]) && k == KeyOf(v[|v| - 1]);
      TwinsAreMutual(front, other);
      if HasKey(front, k) { HasKeyTwins(front, other, k); }
      if HasKey(other, k) { HasKeyTwins(other, front, k); }
    }
  }

  lemma OrderedTwins(u: seq<Event>, v: seq<Event>)
    requires TwinLogs(u, v)
    ensures TwinLogs(Ordered(u), Ordered(v))
  {
    SortTwins(u, v);
    FirstOfEachKeyTwins(Sort(u, EventLess), Sort(v, EventLess));
  }

  lemma {:induction false} LatestTwins(u: seq<Event>, v: seq<Event>, k: Kind)
    requires TwinLogs(u, v)
    ensures LatestOfKind(u, k).Some? <==> LatestOfKind(v, k).Some?
    ensures LatestOfKind(u, k).Some? ==> Twins(LatestOfKind(u, k).value, LatestOfKind(v, k).value)
  {
    if u == [] {
    } else {
      assert Twins(u[|u| - 1], v[|v| - 1]);
      LatestTwins(u[..|u| - 1], v[..|v| - 1], k);
    }
  }

  lemma {:induction false} PinnedTwins(u: seq<Event>, v: seq<Event>, kinds: seq<Kind>)
    requires TwinLogs(u, v)
    ensures TwinLogs(Pinned(u, kinds), Pinned(v, kinds))
  {
    if kinds == [] {
    } else {
      PinnedTwins(u, v, kinds[..|kinds| - 1]);
      LatestTwins(u, v, kinds[|kinds| - 1]);
    }
  }

  lemma KeptTwins(u: seq<Event>, v: seq<Event>, n: nat)
    requires TwinLogs(u, v)
    ensures TwinLogs(Kept(u, n), Kept(v, n))
  {
    PinnedTwins(u, v, PINNED_KINDS);
    OrderedTwins(Pinned(u, PINNED_KINDS) + Tail(u, n), Pinned(v, PINNED_KINDS) + Tail(v, n));
  }

  // ---- arrangements of one set of events ----------------------------------------------------

  lemma KeyLessIsWeak()
    ensures StrictWeak(KeyLess)
  {
    TextLessIsStrictTotal();
  }

  lemma OrderedKeys(s: seq<Event>)
    ensures StrictlySorted(KeysOf(Ordered(s)), KeyLess)
    ensures forall k :: k in KeysOf(Ordered(s)) <==> HasKey(s, k)
  {
    OrderedFacts(s);
    var o := Ordered(s);
    forall i, j | 0 <= i < j < |o| ensures KeyLess(KeysOf(o)[i], KeysOf(o)[j]) { assert EventLess(o[i], o[j]); }
    forall k ensures k in KeysOf(o) <==> HasKey(s, k) {
      if k in KeysOf(o) {
        var i :| 0 <= i < |o| && KeysOf(o)[i] == k;
        assert o[i] in s;
      }
      if HasKey(s, k) {
        var e :| e in s && KeyOf(e) == k;
        var f :| f in o && KeyOf(f) == k;
        var i :| 0 <= i < |o| && o[i] == f;
        assert KeysOf(o)[i] == k;
      }
    }
  }

  /** Two arrangements of one set of events order into logs that differ in nothing their keys tell. */
  lemma ArrangementsAreTwins(s: seq<Event>, t: seq<Event>)
    requires KeysTellContent(s) && SameEvents(s, t)
    ensures TwinLogs(Ordered(s), Ordered(t))
  {
    OrderedKeys(s);
    OrderedKeys(t);
    KeyLessIsWeak();
    var u, v := Ordered(s), Ordered(t);
    StrictlySortedUnique(KeysOf(u), KeysOf(v), KeyLess);
    OrderedFacts(s);
    OrderedFacts(t);
    forall i | 0 <= i < |u| ensures Twins(u[i], v[i]) {
      assert u[i] in s && v[i] in s;
      assert KeysOf(u)[i] == KeysOf(v)[i];
    }
  }

  lemma WindowsAreTwins(s: seq<Event>, t: seq<Event>, maxEvents: int)
    requires KeysTellContent(s) && SameEvents(s, t)
    ensures TwinLogs(Window(s, maxEvents), Window(t, maxEvents))
    ensures |Ordered(s)| == |Ordered(t)|
  {
    ArrangementsAreTwins(s, t);
    KeptTwins(Ordered(s), Ordered(t), TailSize(maxEvents));
  }

  // ---- the fields that read the clock -------------------------------------------------------

  /** The time an event stamps on its field, for the six kinds that fall back on when they occurred. */
  ghost function StampOf(e: Event): Option<Instant> {
    match e.kind
    case Surface => Some(e.occurredAt)
    case Accept => At(e, "accepted_at")
    case Reject => At(e, "rejected_at")
    case StartPursuit => At(e, "pursuit_started_at")
    case AbandonPursuit => At(e, "abandoned_at")
    case Complete => At(e, "completed_at")
    case _ => None
  }

  function StampField(p: Projection, kind: Kind): Option<Instant> {
    match kind
    case Surface => p.surfacing.lastAt
    case Accept => p.acceptedAt
    case Reject => p.rejection.at
    case StartPursuit => p.pursuitStartedAt
    case AbandonPursuit => p.abandonment.at
    case Complete => p.completedAt
    case _ => None
  }

  lemma {:induction false} StampIsShown(s: seq<Event>, e: Event)
    requires LatestOfKind(s, e.kind) == Some(e) && StampOf(e).Some?
    ensures StampField(Replay(s), e.kind) == StampOf(e)
  {
    var last, front := s[|s| - 1], s[..|s| - 1];
    StampStep(Replay(front), last, e.kind);
    if last.kind != e.kind { StampIsShown(front, e); }
  }

  lemma StampStep(p: Projection, e: Event, kind: Kind)
    ensures StampField(Step(p, e), kind) ==
            if e.kind == kind && StampOf(e).Some? then StampOf(e) else StampField(p, kind)
  {
    StepIsOverlay(p, e);
  }

  /** An event of `s` that no event of its kind comes after. */
  ghost predicate Latest(s: seq<Event>, e: Event) {
    e in s && forall f :: f in s && f.kind == e.kind ==> !EventLess(e, f)
  }

  /** Whatever is tied with the latest event of its kind stamps the same time. */
  ghost predicate StampsAgree(s: seq<Event>) {
    forall a, b :: Latest(s, a) && b in s && KeyOf(a) == KeyOf(b) ==> StampOf(a) == StampOf(b)
  }

  lemma {:induction false} LatestInOrder(s: seq<Event>, e: Event)
    requires Chronological(s) && Latest(s, e)
    ensures LatestOfKind(s, e.kind) == Some(e)
  {
    var last, front := s[|s| - 1], s[..|s| - 1];
    assert last in s;
    if last.kind == e.kind {
      var i :| 0 <= i < |s| && s[i] == e;
      PositionIsOrder(s, i, |s| - 1);
    } else {
      FrontStays(s, e);
      LatestInOrder(front, e);
    }
  }

  lemma FrontStays(s: seq<Event>, e: Event)
    requires Chronological(s) && Latest(s, e) && s[|s| - 1].kind != e.kind
    ensures Chronological(s[..|s| - 1]) && Latest(s[..|s| - 1], e)
  {
    assert s == s[..|s| - 1] + [s[|s| - 1]];
  }

  /** The latest event of a kind in the window, whichever of its ties got there, is a latest one of the input. */
  lemma WindowShowsALatest(s: seq<Event>, maxEvents: int, k: Kind)
    requires KnownKind(k) && KeysTellContent(s) && LatestOfKind(Window(s, maxEvents), k).Some?
    ensures Latest(s, LatestOfKind(Window(s, maxEvents), k).value)
  {
    var o := Ordered(s);
    WindowRetains(s, maxEvents);
    LatestKept(Window(s, maxEvents), o, k);
    OrderedFacts(s);
    LatestIsMember(o, k);
    LatestIsLastReader(o, k);
    var e := LatestOfKind(o, k).value;
    forall f | f in s && f.kind == k ensures !EventLess(e, f) {
      var g :| g in o && KeyOf(g) == KeyOf(f);
      assert Twins(g, f);
      LastReaderIsLast(o, OfKind(k), g);
      EventLessIsAsymmetric(e, g);
    }
  }

  // ---- when every arrangement folds alike ---------------------------------------------------

  lemma {:induction false} TwinsReadAlike<T>(u: seq<Event>, v: seq<Event>, read: Event -> Option<T>, initial: T)
    requires TwinLogs(u, v) && forall a, b :: Twins(a, b) ==> read(a) == read(b)
    ensures LastRead(u, read, initial) == LastRead(v, read, initial)
  {
    if u == [] {
    } else {
      assert Twins(u[|u| - 1], v[|v| - 1]);
      TwinsReadAlike(u[..|u| - 1], v[..|v| - 1], read, initial);
    }
  }

  /** A field written by one kind alone, from the clock: equal once the latest of that kind read equal. */
  lemma ClockReadsAlike<T>(u: seq<Event>, v: seq<Event>, k: Kind, read: Event -> Option<T>, initial: T)
    requires forall e: Event :: read(e).Some? <==> e.kind == k
    requires LatestOfKind(u, k).Some? <==> LatestOfKind(v, k).Some?
    requires LatestOfKind(u, k).Some? ==> read(LatestOfKind(u, k).value) == read(LatestOfKind(v, k).value)
    ensures LastRead(u, read, initial) == LastRead(v, read, initial)
  {
    LastReaderIsLatest(u, k, read);
    LastReaderIsLatest(v, k, read);
  }

  lemma {:induction false} LastReaderIsLatest<T>(u: seq<Event>, k: Kind, read: Event -> Option<T>)
    requires forall e: Event :: read(e).Some? <==> e.kind == k
    ensures LastReader(u, read) == LatestOfKind(u, k)
  {
    if u == [] {
    } else {
      LastReaderIsLatest(u[..|u| - 1], k, read);
    }
  }

  ghost predicate SameStamps(u: seq<Event>, v: seq<Event>) {
    forall k: Kind :: KnownKind(k) && LatestOfKind(u, k).Some? && LatestOfKind(v, k).Some? ==>
      StampOf(LatestOfKind(u, k).value) == StampOf(LatestOfKind(v, k).value)
  }

  lemma ClockFieldAlike<T>(u: seq<Event>, v: seq<Event>, k: Kind, read: Event -> Option<T>, initial: T)
    requires TwinLogs(u, v) && SameStamps(u, v) && KnownKind(k)
    requires forall e: Event :: read(e).Some? <==> e.kind == k
    requires forall a, b :: Twins(a, b) && StampOf(a) == StampOf(b) ==> read(a) == read(b)
    ensures LastRead(u, read, initial) == LastRead(v, read, initial)
  {
    LatestTwins(u, v, k);
    ClockReadsAlike(u, v, k, read, initial);
  }

  lemma TimesAlike(u: seq<Event>, v: seq<Event>)
    requires TwinLogs(u, v) && SameStamps(u, v)
    ensures LastRead(u, ReadAccepted, None) == LastRead(v, ReadAccepted, None)
    ensures LastRead(u, ReadPursuit, None) == LastRead(v, ReadPursuit, None)
    ensures LastRead(u, ReadCompleted, None) == LastRead(v, ReadCompleted, None)
  {
    ClockFieldAlike(u, v, Accept, ReadAccepted, None);
    ClockFieldAlike(u, v, StartPursuit, ReadPursuit, None);
    ClockFieldAlike(u, v, Complete, ReadCompleted, None);
  }

  lemma ReasonedTimesAlike(u: seq<Event>, v: seq<Event>)
    requires TwinLogs(u, v) && SameStamps(u, v)
    ensures LastRead(u, ReadRejection, INITIAL.rejection) == LastRead(v, ReadRejection, INITIAL.rejection)
    ensures LastRead(u, ReadAbandonment, INITIAL.abandonment) == LastRead(v, ReadAbandonment, INITIAL.abandonment)
  {
    ClockFieldAlike(u, v, Reject, ReadRejection, INITIAL.rejection);
    ClockFieldAlike(u, v, AbandonPursuit, ReadAbandonment, INITIAL.abandonment);
  }

  lemma ContentFieldsAlike(u: seq<Event>, v: seq<Event>)
    requires TwinLogs(u, v)
    ensures LastRead(u, ReadVerdict, Proposed) == LastRead(v, ReadVerdict, Proposed)
    ensures LastRead(u, ReadShown, false) == LastRead(v, ReadShown, false)
    ensures LastRead(u, ReadPitch, INITIAL.pitch) == LastRead(v, ReadPitch, INITIAL.pitch)
    ensures LastRead(u, ReadCitations, []) == LastRead(v, ReadCitations, [])
  {
    TwinsReadAlike(u, v, ReadVerdict, Proposed);
    TwinsReadAlike(u, v, ReadShown, false);
    TwinsReadAlike(u, v, ReadPitch, INITIAL.pitch);
    TwinsReadAlike(u, v, ReadCitations, []);
  }

  lemma HandlingFieldsAlike(u: seq<Event>, v: seq<Event>)
    requires TwinLogs(u, v)
    ensures LastRead(u, ReadSnooze, None) == LastRead(v, ReadSnooze, None)
    ensures LastRead(u, ReadBinding, INITIAL.binding) == LastRead(v, ReadBinding, INITIAL.binding)
    ensures LastRead(u, ReadWithdrawal, "") == LastRead(v, ReadWithdrawal, "")
  {
    TwinsReadAlike(u, v, ReadSnooze, None);
    TwinsReadAlike(u, v, ReadBinding, INITIAL.binding);
    TwinsReadAlike(u, v, ReadWithdrawal, "");
  }

  lemma InheritedFieldsAlike(u: seq<Event>, v: seq<Event>)
    requires TwinLogs(u, v)
    ensures LastRead(u, ReadPlanRoot, None) == LastRead(v, ReadPlanRoot, None)
    ensures LastRead(u, ReadExpiry, None) == LastRead(v, ReadExpiry, None)
    ensures LastRead(u, ReadBasis, EVIDENCE_BASIS_TRUSTED) == LastRead(v, ReadBasis, EVIDENCE_BASIS_TRUSTED)
    ensures LastRead(u, ReadRevision, "") == LastRead(v, ReadRevision, "")
    ensures LastRead(u, ReadCutoff, None) == LastRead(v, ReadCutoff, None)
  {
    TwinsReadAlike(u, v, ReadPlanRoot, None);
    TwinsReadAlike(u, v, ReadExpiry, None);
    TwinsReadAlike(u, v, ReadBasis, EVIDENCE_BASIS_TRUSTED);
    TwinsReadAlike(u, v, ReadRevision, "");
    TwinsReadAlike(u, v, ReadCutoff, None);
  }

  lemma {:induction false} ShowingsAlike(u: seq<Event>, v: seq<Event>)
    requires TwinLogs(u, v) && ShowingsAreConstructed(u)
    ensures Showings(u).(lastAt := None) == Showings(v).(lastAt := None)
    ensures Showings(u).lastAt == match LatestOfKind(u, Surface) case Some(e) => Some(e.occurredAt) case None => None
  {
    if u == [] {
    } else {
      var x, y := u[|u| - 1], v[|v| - 1];
      assert Twins(x, y) && x in u;
      ShowingsAlike(u[..|u| - 1], v[..|v| - 1]);
    }
  }

  lemma TwinsReplayAlike(u: seq<Event>, v: seq<Event>)
    requires TwinLogs(u, v) && SameStamps(u, v) && ShowingsAreConstructed(u)
    ensures Replay(u) == Replay(v)
  {
    ReplayIsLatestSays(u);
    ReplayIsLatestSays(v);
    ContentFieldsAlike(u, v);
    HandlingFieldsAlike(u, v);
    InheritedFieldsAlike(u, v);
    TimesAlike(u, v);
    ReasonedTimesAlike(u, v);
    LatestTwins(u, v, Surface);
    TwinsAreMutual(u, v);
    forall e | e in v && e.kind.Surface? ensures e.payload.Get("first_surfaced_at").instant.Some? {
      var i :| 0 <= i < |v| && v[i] == e;
      assert Twins(u[i], v[i]) && u[i] in u;
    }
    ShowingsAlike(u, v);
    ShowingsAlike(v, u);
    LatestIsMember(u, Surface);
    LatestIsMember(v, Surface);
  }

  lemma {:induction false} TwinsListUnknownsAlike(u: seq<Event>, v: seq<Event>)
    requires TwinLogs(u, v)
    ensures UnknownKinds(u) == UnknownKinds(v)
  {
    if u == [] {
    } else {
      assert Twins(u[|u| - 1], v[|v| - 1]);
      TwinsListUnknownsAlike(u[..|u| - 1], v[..|v| - 1]);
    }
  }

  lemma AgreeingStampsFoldAlike(s: seq<Event>, t: seq<Event>, afterSurfaces: int, maxEvents: int)
    requires KeysTellContent(s) && ShowingsAreConstructed(s) && StampsAgree(s) && SameEvents(s, t)
    ensures Fold(s, afterSurfaces, maxEvents) == Fold(t, afterSurfaces, maxEvents)
  {
    var u, v := Window(s, maxEvents), Window(t, maxEvents);
    WindowsAreTwins(s, t, maxEvents);
    WindowRetains(s, maxEvents);
    OrderedFacts(s);
    forall k: Kind | KnownKind(k) && LatestOfKind(u, k).Some? && LatestOfKind(v, k).Some?
      ensures StampOf(LatestOfKind(u, k).value) == StampOf(LatestOfKind(v, k).value)
    {
      WindowShowsALatest(s, maxEvents, k);
      WindowShowsALatest(t, maxEvents, k);
      LatestTwins(u, v, k);
    }
    TwinsReplayAlike(u, v);
    TwinsListUnknownsAlike(u, v);
    assert KeysOf(u) == KeysOf(v);
  }

  lemma FrontedIsLatest(a: Event, s: seq<Event>, maxEvents: int)
    requires Latest([a] + s, a) && KnownKind(a.kind)
    ensures LatestOfKind(Window([a] + s, maxEvents), a.kind) == Some(a)
  {
    var t := [a] + s;
    HeadWinsTies(a, s);
    OrderedFacts(t);
    assert Latest(Ordered(t), a);
    LatestInOrder(Ordered(t), a);
    WindowRetains(t, maxEvents);
    LatestKept(Window(t, maxEvents), Ordered(t), a.kind);
  }

  /** Put in front, the tied event is the one that the window shows. */
  lemma FrontedStamp(a: Event, s: seq<Event>, maxEvents: int)
    requires Latest([a] + s, a) && StampOf(a).Some?
    ensures StampField(Replay(Window([a] + s, maxEvents)), a.kind) == StampOf(a)
  {
    FrontedIsLatest(a, s, maxEvents);
    StampIsShown(Window([a] + s, maxEvents), a);
  }

  lemma SplitStamps(s: seq<Event>, a: Event, b: Event, afterSurfaces: int, maxEvents: int) returns (t: seq<Event>)
    requires Latest(s, a) && Latest(s, b) && Twins(a, b) && StampOf(a) != StampOf(b)
    ensures SameEvents(s, t) && Fold(t, afterSurfaces, maxEvents) != Fold(s, afterSurfaces, maxEvents)
  {
    TiedStamps(a, b);
    FrontedStays(a, s);
    FrontedStays(b, s);
    FrontedStamp(a, s, maxEvents);
    FrontedStamp(b, s, maxEvents);
    t := if StampField(Replay(Window(s, maxEvents)), a.kind) == StampOf(a) then [b] + s else [a] + s;
    assert StampField(Replay(Window(t, maxEvents)), a.kind) != StampField(Replay(Window(s, maxEvents)), a.kind);
    FoldsDiffer(s, t, a.kind, afterSurfaces, maxEvents);
  }

  lemma TiedStamps(a: Event, b: Event)
    requires Twins(a, b) && StampOf(a) != StampOf(b)
    ensures StampOf(a).Some? && StampOf(b).Some?
  {
  }

  lemma FoldsDiffer(s: seq<Event>, t: seq<Event>, k: Kind, afterSurfaces: int, maxEvents: int)
    requires StampField(Replay(Window(t, maxEvents)), k) != StampField(Replay(Window(s, maxEvents)), k)
    ensures Fold(t, afterSurfaces, maxEvents) != Fold(s, afterSurfaces, maxEvents)
  {
    assert Fold(s, afterSurfaces, maxEvents).projection == Replay(Window(s, maxEvents));
    assert Fold(t, afterSurfaces, maxEvents).projection == Replay(Window(t, maxEvents));
  }

  lemma FrontedStays(a: Event, s: seq<Event>)
    requires Latest(s, a)
    ensures SameEvents(s, [a] + s) && Latest([a] + s, a)
  {
  }

  /** Exactly when: under any cap, every arrangement of the same events folds alike iff whatever is tied with the latest
      event of its kind stamps the same time. */
  lemma FoldIsCanonicalIff(s: seq<Event>, afterSurfaces: int, maxEvents: int)
    requires KeysTellContent(s) && ShowingsAreConstructed(s)
    ensures (forall t :: SameEvents(s, t) ==> Fold(t, afterSurfaces, maxEvents) == Fold(s, afterSurfaces, maxEvents))
            <==> StampsAgree(s)
  {
    if StampsAgree(s) {
      forall t {:trigger SameEvents(s, t)} | SameEvents(s, t)
        ensures Fold(t, afterSurfaces, maxEvents) == Fold(s, afterSurfaces, maxEvents)
      {
        AgreeingStampsFoldAlike(s, t, afterSurfaces, maxEvents);
      }
    } else {
      var a, b :| Latest(s, a) && b in s && KeyOf(a) == KeyOf(b) && StampOf(a) != StampOf(b);
      assert Twins(a, b);
      var t := SplitStamps(s, a, b, afterSurfaces, maxEvents);
    }
  }

  /** Two showings written under one sequence number, alike but for when they occurred, fold to two projections,
      at the cap the stores fold with. */
  lemma TwoWritersDisagree(canonical: string, first: Instant, early: Instant, late: Instant, afterSurfaces: int)
    returns (a: Event, b: Event)
    requires early != late
    ensures KeyOf(a) == KeyOf(b) && KeysTellContent([a, b]) && ShowingsAreConstructed([a, b])
    ensures Fold([a, b], afterSurfaces, MAX_EVENTS).projection != Fold([b, a], afterSurfaces, MAX_EVENTS).projection
  {
    a := SurfacedEvent(1, first, early, "human", false, canonical);
    b := SurfacedEvent(1, first, late, "human", false, canonical);
    EitherOrder(a, b, afterSurfaces, MAX_EVENTS);
  }

  /** Of two tied events, the one listed first is shown. */
  lemma EitherOrder(a: Event, b: Event, afterSurfaces: int, maxEvents: int)
    requires Twins(a, b) && StampOf(a).Some? && StampOf(b).Some? && StampOf(a) != StampOf(b)
    ensures Fold([a, b], afterSurfaces, maxEvents).projection != Fold([b, a], afterSurfaces, maxEvents).projection
  {
    assert [a] + [b] == [a, b] && [b] + [a] == [b, a];
    EventLessIsAsymmetric(a, b);
    FrontedStamp(a, [b], maxEvents);
    FrontedStamp(b, [a], maxEvents);
  }
}
