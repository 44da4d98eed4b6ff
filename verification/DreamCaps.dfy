/** One cap at a time: exactly which logs a given cap truncates without loss, and one that the stores' own cap does
    not. */
module DreamCaps {
  import opened Ordering
  import opened DreamLog
  import opened DreamReplay
  import opened DreamLossless
  import opened DreamRuns

  /** An event of the log that a tail of `n` spares, by its place or as the latest of its kind. */
  ghost predicate Spared(s: seq<Event>, n: nat, e: Event) {
    e in s && (e in Tail(s, n) || (KnownKind(e.kind) && LatestOfKind(s, e.kind) == Some(e)))
  }

  ghost function SparedBy(s: seq<Event>, n: nat): Event -> bool { (e: Event) => Spared(s, n, e) }

  lemma KeptAreSpared(s: seq<Event>, n: nat, e: Event)
    requires Chronological(s)
    ensures e in Kept(s, n) <==> Spared(s, n, e)
  {
    KeptRetains(s, n);
    PinnedMembers(s, PINNED_KINDS);
    PinnedHaveKinds(s, PINNED_KINDS);
    if KnownKind(e.kind) { EveryKnownKindIsPinned(e.kind); }
  }

  lemma {:induction false} PinnedHaveKinds(s: seq<Event>, kinds: seq<Kind>)
    requires forall k :: k in kinds ==> KnownKind(k)
    ensures forall e :: e in Pinned(s, kinds) ==> KnownKind(e.kind)
  {
    if kinds == [] {
    } else {
      PinnedHaveKinds(s, kinds[..|kinds| - 1]);
      LatestIsMember(s, kinds[|kinds| - 1]);
    }
  }

  // ---- inherited fields ---------------------------------------------------------------------

  /** The last event to supply a field is spared, or the last of these others to supply it says the same. */
  ghost predicate SupplierSpared<T>(s: seq<Event>, spared: Event -> bool, others: seq<Event>, read: Event -> Option<T>,
                                    initial: T)
  {
    match LastReader(s, read)
    case None => true
    case Some(e) => spared(e) || LastRead(others, read, initial) == read(e).GetOr(initial)
  }

  /** A sub-log agrees on a field exactly when it holds the last supplier, or what else answers says the same. */
  lemma FieldKeptIff<T>(t: seq<Event>, s: seq<Event>, spared: Event -> bool, others: seq<Event>,
                        read: Event -> Option<T>, initial: T)
    requires Within(t, s) && forall e :: e in t <==> spared(e)
    requires LastReader(s, read).Some? && !spared(LastReader(s, read).value) ==>
               LastRead(t, read, initial) == LastRead(others, read, initial)
    ensures LastRead(t, read, initial) == LastRead(s, read, initial) <==>
              SupplierSpared(s, spared, others, read, initial)
  {
    LastReaderIsMember(t, read);
    LastReaderIsMember(s, read);
    match LastReader(s, read) {
      case None =>
        if LastReader(t, read).Some? { LastReaderIsLast(s, read, LastReader(t, read).value); }
      case Some(e) =>
        if spared(e) { LastReaderKept(t, s, read); }
    }
  }

  lemma InheritedAtIff<T>(s: seq<Event>, n: nat, read: Event -> Option<T>, initial: T)
    requires Chronological(s)
    ensures LastRead(Kept(s, n), read, initial) == LastRead(s, read, initial) <==>
              SupplierSpared(s, SparedBy(s, n), Heads(s), read, initial)
  {
    KeptRetains(s, n);
    forall e ensures e in Kept(s, n) <==> SparedBy(s, n)(e) { KeptAreSpared(s, n, e); }
    match LastReader(s, read) {
      case None =>
      case Some(e) =>
        LastReaderIsMember(s, read);
        if !Spared(s, n, e) { HeadsAnswer(s, n, read, initial, e); }
    }
    FieldKeptIff(Kept(s, n), s, SparedBy(s, n), Heads(s), read, initial);
  }

  /** Once the tail misses the last supplier it misses every supplier, and the latest events answer alone. */
  lemma HeadsAnswer<T>(s: seq<Event>, n: nat, read: Event -> Option<T>, initial: T, e: Event)
    requires Chronological(s) && LastReader(s, read) == Some(e) && e !in Tail(s, n)
    ensures LastRead(Kept(s, n), read, initial) == LastRead(Heads(s), read, initial)
  {
    KeptRetains(s, n);
    PinnedMembers(s, PINNED_KINDS);
    SubLogOrdered(Pinned(s, PINNED_KINDS), s);
    LastReaderIsMember(s, read);
    var t := Kept(s, n);
    LastReaderIsMember(t, read);
    if LastReader(t, read).Some? {
      var f := LastReader(t, read).value;
      LastReaderIsLast(s, read, f);
      if f in Tail(s, n) { TailIsSuffix(s, n, f, e); }
    }
    LastReaderKept(Heads(s), t, read);
  }

  // ---- showings -----------------------------------------------------------------------------

  /** Every showing came from the one constructor: an ordinal of at least one and the time of the first showing. */
  ghost predicate ShowingsAreStamped(s: seq<Event>) {
    forall e :: e in s && e.kind.Surface? ==> StampedShowing(e)
  }

  function Ordinal(e: Event): int { e.payload.Get("ordinal").integer.GetOr(0) }

  predicate Attests(e: Event) { e.payload.Get("attested_ever").flag.GetOr(false) }

  predicate StampedShowing(e: Event) {
    e.kind.Surface? && Ordinal(e) >= 1 && e.payload.Get("first_surfaced_at").instant.Some?
  }

  lemma ConstructorStamps(ordinal: int, firstAt: Instant, at: Instant, actor: string, prior: bool, canonical: string)
    ensures StampedShowing(SurfacedEvent(ordinal, firstAt, at, actor, prior, canonical))
  {
  }

  /** The count is the greatest ordinal and the flag the disjunction of the flags. */
  ghost predicate Reaches(s: seq<Event>, ordinal: int) {
    exists e :: e in s && e.kind.Surface? && Ordinal(e) == ordinal
  }

  ghost predicate SomeAttest(s: seq<Event>) { exists e :: e in s && e.kind.Surface? && Attests(e) }

  lemma OneMoreShowing(s: seq<Event>, e: Event, ordinal: int)
    ensures Reaches(s + [e], ordinal) <==> Reaches(s, ordinal) || (e.kind.Surface? && Ordinal(e) == ordinal)
    ensures SomeAttest(s + [e]) <==> SomeAttest(s) || (e.kind.Surface? && Attests(e))
  {
    assert e in s + [e] && forall x :: x in s ==> x in s + [e];
  }

  lemma {:induction false} ShowingsSumUp(s: seq<Event>)
    requires ShowingsAreStamped(s)
    ensures forall e :: e in s && e.kind.Surface? ==> Ordinal(e) <= Showings(s).count
    ensures Showings(s).count > 0 ==> Reaches(s, Showings(s).count)
    ensures Showings(s).attested <==> SomeAttest(s)
    ensures Showings(s).count >= 0
  {
    if s == [] {
    } else {
      var front, last := s[..|s| - 1], s[|s| - 1];
      assert s == front + [last];
      ShowingsSumUp(front);
      OneMoreShowing(front, last, Showings(s).count);
    }
  }

  /** A showing whose ordinal no showing of the log exceeds. */
  ghost predicate Top(s: seq<Event>, f: Event) {
    f in s && f.kind.Surface? && forall e :: e in s && e.kind.Surface? ==> Ordinal(e) <= Ordinal(f)
  }

  ghost predicate OrdinalsSpared(s: seq<Event>, spared: Event -> bool) {
    (exists e :: e in s && e.kind.Surface?) ==> exists f :: Top(s, f) && spared(f)
  }

  ghost predicate FlagsSpared(s: seq<Event>, spared: Event -> bool) {
    (exists e :: e in s && e.kind.Surface? && Attests(e)) ==> exists f :: spared(f) && f.kind.Surface? && Attests(f)
  }

  /** Some spared showing has the greatest ordinal, and some spared one attests if any does. */
  ghost predicate ShowingsSpared(s: seq<Event>, spared: Event -> bool) {
    OrdinalsSpared(s, spared) && FlagsSpared(s, spared)
  }

  lemma ShowingsKeptIff(t: seq<Event>, s: seq<Event>, spared: Event -> bool)
    requires Within(t, s) && KeepsLatest(t, s) && ShowingsAreStamped(s) && forall e :: e in t <==> spared(e)
    ensures Showings(t) == Showings(s) <==> ShowingsSpared(s, spared)
  {
    TimesKept(t, s);
    CountKeptIff(t, s, spared);
    FlagKeptIff(t, s, spared);
  }

  lemma ShowingsAtIff(s: seq<Event>, n: nat)
    requires Chronological(s) && ShowingsAreStamped(s)
    ensures Showings(Kept(s, n)) == Showings(s) <==> ShowingsSpared(s, SparedBy(s, n))
  {
    KeptRetains(s, n);
    forall e ensures e in Kept(s, n) <==> SparedBy(s, n)(e) { KeptAreSpared(s, n, e); }
    ShowingsKeptIff(Kept(s, n), s, SparedBy(s, n));
  }

  lemma CountKeptIff(t: seq<Event>, s: seq<Event>, spared: Event -> bool)
    requires Within(t, s) && ShowingsAreStamped(s) && forall e :: e in t <==> spared(e)
    ensures Showings(t).count == Showings(s).count <==> OrdinalsSpared(s, spared)
  {
    ShowingsSumUp(s);
    ShowingsSumUp(t);
    ShowingsGrow(t, s);
    if Showings(s).count > 0 {
      if Showings(t).count == Showings(s).count {
        var f :| f in t && f.kind.Surface? && Ordinal(f) == Showings(t).count;
        assert Top(s, f) && spared(f);
      }
      if f :| Top(s, f) && spared(f) {
        var e :| e in s && e.kind.Surface? && Ordinal(e) == Showings(s).count;
        assert f in t && Ordinal(f) >= Ordinal(e);
      }
    }
  }

  lemma FlagKeptIff(t: seq<Event>, s: seq<Event>, spared: Event -> bool)
    requires Within(t, s) && ShowingsAreStamped(s) && forall e :: e in t <==> spared(e)
    ensures Showings(t).attested == Showings(s).attested <==> FlagsSpared(s, spared)
  {
    ShowingsSumUp(s);
    ShowingsSumUp(t);
  }

  lemma TimesKept(t: seq<Event>, s: seq<Event>)
    requires Within(t, s) && KeepsLatest(t, s) && ShowingsAreConstructed(s)
    ensures Showings(t).firstAt == Showings(s).firstAt && Showings(t).lastAt == Showings(s).lastAt
  {
    LatestKept(t, s, Surface);
    LatestIsMember(s, Surface);
    if LatestOfKind(s, Surface).Some? {
      LatestShowingSays(s);
      LatestShowingSays(t);
    } else {
      NoShowings(s);
      NoShowings(t);
    }
  }

  // ---- one cap ------------------------------------------------------------------------------

  /** What a log must satisfy for what is spared, with what else answers, to lose nothing. */
  ghost predicate Carries(s: seq<Event>, spared: Event -> bool, others: seq<Event>) {
    && ShowingsSpared(s, spared)
    && SupplierSpared(s, spared, others, ReadPlanRoot, None) && SupplierSpared(s, spared, others, ReadExpiry, None)
    && SupplierSpared(s, spared, others, ReadBasis, EVIDENCE_BASIS_TRUSTED)
    && SupplierSpared(s, spared, others, ReadRevision, "") && SupplierSpared(s, spared, others, ReadCutoff, None)
  }

  lemma FieldsDecide(t: seq<Event>, s: seq<Event>)
    requires SameRegisters(t, s)
    ensures LatestSays(t) == LatestSays(s) <==>
              && Showings(t) == Showings(s)
              && LastRead(t, ReadPlanRoot, None) == LastRead(s, ReadPlanRoot, None)
              && LastRead(t, ReadExpiry, None) == LastRead(s, ReadExpiry, None)
              && LastRead(t, ReadBasis, EVIDENCE_BASIS_TRUSTED) == LastRead(s, ReadBasis, EVIDENCE_BASIS_TRUSTED)
              && LastRead(t, ReadRevision, "") == LastRead(s, ReadRevision, "")
              && LastRead(t, ReadCutoff, None) == LastRead(s, ReadCutoff, None)
  {
    var p, q := LatestSays(t), LatestSays(s);
    assert p == q ==>
        p.planRoot == q.planRoot && p.expiresAt == q.expiresAt && p.evidenceBasis == q.evidenceBasis
        && p.evidenceRevision == q.evidenceRevision && p.evidenceCutoffAt == q.evidenceCutoffAt
        && p.surfacing == q.surfacing;
  }

  lemma KeptAtIff(s: seq<Event>, n: nat)
    requires Chronological(s) && ShowingsAreStamped(s)
    ensures Replay(Kept(s, n)) == Replay(s) <==> Carries(s, SparedBy(s, n), Heads(s))
  {
    KeptRetains(s, n);
    RegistersKept(Kept(s, n), s);
    ReplayIsLatestSays(Kept(s, n));
    ReplayIsLatestSays(s);
    FieldsDecide(Kept(s, n), s);
    ShowingsAtIff(s, n);
    InheritedAtIff(s, n, ReadPlanRoot, None);
    InheritedAtIff(s, n, ReadExpiry, None);
    InheritedAtIff(s, n, ReadBasis, EVIDENCE_BASIS_TRUSTED);
    InheritedAtIff(s, n, ReadRevision, "");
    InheritedAtIff(s, n, ReadCutoff, None);
  }

  /** At a given cap, truncation is lossless iff the log fits under it or what it spares carries the seven readings. */
  lemma LosslessAtIff(events: seq<Event>, maxEvents: int)
    requires ShowingsAreStamped(Ordered(events))
    ensures Replay(Window(events, maxEvents)) == Replay(Ordered(events)) <==>
              var s, n := Ordered(events), TailSize(maxEvents);
              |s| <= maxEvents || Carries(s, SparedBy(s, n), Heads(s))
  {
    OrderedFacts(events);
    if |Ordered(events)| > maxEvents { KeptAtIff(Ordered(events), TailSize(maxEvents)); }
  }

  // ---- a log that the stores' own cap does not carry ----------------------------------------

  lemma {:induction false} OnlyReader<T>(s: seq<Event>, read: Event -> Option<T>, e: Event)
    requires e in s && read(e).Some? && forall f :: f in s && read(f).Some? ==> f == e
    ensures LastReader(s, read) == Some(e)
  {
    var last := s[|s| - 1];
    assert last in s;
    if read(last).None? {
      assert s == s[..|s| - 1] + [last];
      OnlyReader(s[..|s| - 1], read, e);
    }
  }

  /** A mint, a revalidation that gives a cutoff, showings, and a revalidation without one. */
  function Inheriting(mint: Event, first: Event, showings: seq<Event>, second: Event): seq<Event> {
    [mint, first] + showings + [second]
  }

  ghost predicate Inherits(mint: Event, first: Event, showings: seq<Event>, second: Event) {
    && Chronological(Inheriting(mint, first, showings, second))
    && mint.kind.Mint? && first.kind.RevalidateEvidence? && second.kind.RevalidateEvidence?
    && (forall e :: e in showings ==> e.kind.Surface?)
    && ReadCutoff(mint) != ReadCutoff(first) && ReadCutoff(first).Some? && ReadCutoff(second).None?
  }

  lemma {:induction false} InheritingStatus(s: seq<Event>, n: nat)
    requires 1 <= n <= |s| && s[0].kind.Mint?
    requires forall i :: 1 <= i < |s| ==> s[i].kind.Surface? || s[i].kind.RevalidateEvidence?
    ensures StatusThrough(s, n).Proposed? || StatusThrough(s, n).Surfaced?
  {
    if n == 1 {
      assert StatusThrough(s, 0) == Proposed;
    } else {
      InheritingStatus(s, n - 1);
    }
  }

  /** A mint, and then showings and revalidations in any order, is a permitted run. */
  lemma MixedRuns(s: seq<Event>)
    requires s != [] && s[0].kind.Mint?
    requires forall i :: 1 <= i < |s| ==> s[i].kind.Surface? || s[i].kind.RevalidateEvidence?
    ensures Run(s)
  {
    forall n | 1 <= n < |s| ensures Admitted(s, n) { InheritingStatus(s, n); }
  }

  lemma InheritingRuns(mint: Event, first: Event, showings: seq<Event>, second: Event)
    requires Inherits(mint, first, showings, second)
    ensures Run(Inheriting(mint, first, showings, second))
  {
    var s := Inheriting(mint, first, showings, second);
    forall i | 1 <= i < |s| ensures s[i].kind.Surface? || s[i].kind.RevalidateEvidence? {
      if 2 <= i < |s| - 1 { assert s[i] == showings[i - 2]; }
    }
    MixedRuns(s);
  }

  lemma InheritedRead(mint: Event, first: Event, showings: seq<Event>, second: Event)
    requires Inherits(mint, first, showings, second)
    ensures LastReader(Inheriting(mint, first, showings, second), ReadCutoff) == Some(first)
    ensures LatestOfKind(Inheriting(mint, first, showings, second), RevalidateEvidence) == Some(second)
    ensures LatestOfKind(Inheriting(mint, first, showings, second), Mint) == Some(mint)
  {
    var s := Inheriting(mint, first, showings, second);
    assert s[..|s| - 1] == [mint, first] + showings;
    SilentAfter([mint, first], showings);
    assert [mint, first][..1] == [mint];
  }

  lemma {:induction false} SilentAfter(s: seq<Event>, showings: seq<Event>)
    requires forall e :: e in showings ==> e.kind.Surface?
    ensures LastReader(s + showings, ReadCutoff) == LastReader(s, ReadCutoff)
    ensures LatestOfKind(s + showings, Mint) == LatestOfKind(s, Mint)
  {
    if showings == [] {
      assert s + showings == s;
    } else {
      assert (s + showings)[..|s + showings| - 1] == s + showings[..|showings| - 1];
      SilentAfter(s, showings[..|showings| - 1]);
    }
  }

  /** Such a log is a permitted run, and every cap whose tail stops short of the first revalidation loses its cutoff. */
  lemma InheritedCutoffIsLost(mint: Event, first: Event, showings: seq<Event>, second: Event, maxEvents: int)
    requires Inherits(mint, first, showings, second)
    requires |showings| + 3 > maxEvents && TailSize(maxEvents) <= |showings| + 1
    ensures var s := Inheriting(mint, first, showings, second);
            && Run(s) && Ordered(s) == s
            && Replay(Window(s, maxEvents)).evidenceCutoffAt != Replay(s).evidenceCutoffAt
  {
    var s := Inheriting(mint, first, showings, second);
    InheritingRuns(mint, first, showings, second);
    InheritedRead(mint, first, showings, second);
    OrderedOfChronological(s);
    MintAnswers(mint, first, showings, second, TailSize(maxEvents));
    ReplayIsLatestSays(Kept(s, TailSize(maxEvents)));
    ReplayIsLatestSays(s);
  }

  lemma MintAnswers(mint: Event, first: Event, showings: seq<Event>, second: Event, n: nat)
    requires Inherits(mint, first, showings, second) && n <= |showings| + 1
    ensures LastReader(Kept(Inheriting(mint, first, showings, second), n), ReadCutoff) == Some(mint)
  {
    var s := Inheriting(mint, first, showings, second);
    var t := Kept(s, n);
    InheritedRead(mint, first, showings, second);
    assert mint == s[0];
    KeptAreSpared(s, n, mint);
    KeptRetains(s, n);
    FirstIsDropped(mint, first, showings, second, n);
    forall f | f in t && ReadCutoff(f).Some? ensures f == mint {
      assert f in s;
      assert f in showings ==> f.kind.Surface?;
    }
    OnlyReader(t, ReadCutoff, mint);
  }

  lemma FirstIsDropped(mint: Event, first: Event, showings: seq<Event>, second: Event, n: nat)
    requires Inherits(mint, first, showings, second) && n <= |showings| + 1
    ensures first !in Kept(Inheriting(mint, first, showings, second), n)
  {
    var s := Inheriting(mint, first, showings, second);
    InheritedRead(mint, first, showings, second);
    KeptAreSpared(s, n, first);
    assert s[1] == first && s[|s| - 1] == second;
    if first in Tail(s, n) {
      var j :| |s| - n <= j < |s| && s[j] == first;
      PositionIsOrder(s, 1, j);
      EventLessIsAsymmetric(first, first);
      assert false;
    }
    PositionIsOrder(s, 1, |s| - 1);
    EventLessIsAsymmetric(first, second);
  }

  function ShownAt(i: nat, text: string): (e: Event)
    ensures e.seqNo == i + 2 && StampedShowing(e)
  {
    ConstructorStamps(i + 1, 0, i, "human", false, text);
    SurfacedEvent(i + 1, 0, i, "human", false, text).(seqNo := i + 2)
  }

  /** `n` showings as their constructor makes them, numbered from the second event on. */
  function Shown(n: nat, texts: nat -> string): (showings: seq<Event>)
    ensures |showings| == n
    ensures forall i :: 0 <= i < n ==> showings[i].seqNo == i + 2 && StampedShowing(showings[i])
  {
    if n == 0 then [] else Shown(n - 1, texts) + [ShownAt(n - 1, texts(n - 1))]
  }

  lemma NumberedIsChronological(s: seq<Event>)
    requires forall i :: 0 <= i < |s| ==> s[i].seqNo == i
    ensures Chronological(s)
  {
  }

  function Bare(seqNo: int, kind: Kind, text: string): (e: Event)
    ensures e.seqNo == seqNo && e.kind == kind
    ensures e.payload.Get("evidence_cutoff_at").instant.None?
  {
    Event(seqNo, kind, Payload(text, map[]), 0, "")
  }

  function Dated(seqNo: int, text: string): (e: Event)
    ensures e.seqNo == seqNo && e.kind.RevalidateEvidence? && e.payload.Get("evidence_cutoff_at").instant == Some(7)
  {
    Event(seqNo, RevalidateEvidence, Payload(text, map["evidence_cutoff_at" := MISSING.(instant := Some(7))]), 0, "")
  }

  lemma InheritingInOrder(mint: Event, first: Event, showings: seq<Event>, second: Event)
    requires mint.seqNo == 0 && first.seqNo == 1 && second.seqNo == |showings| + 2
    requires forall i :: 0 <= i < |showings| ==> showings[i].seqNo == i + 2
    ensures Chronological(Inheriting(mint, first, showings, second))
  {
    var s := Inheriting(mint, first, showings, second);
    forall i | 0 <= i < |s| ensures s[i].seqNo == i {
      if 2 <= i < |s| - 1 { assert s[i] == showings[i - 2]; }
    }
    NumberedIsChronological(s);
  }

  /** Enough showings between the two revalidations, and any cap loses the cutoff. */
  lemma LossBeyond(n: nat, maxEvents: int, bare: string, dated: string, texts: nat -> string) returns (s: seq<Event>)
    requires n + 3 > maxEvents && TailSize(maxEvents) <= n + 1
    ensures Run(s) && ShowingsAreStamped(s) && Ordered(s) == s
    ensures Replay(Window(s, maxEvents)).evidenceCutoffAt != Replay(s).evidenceCutoffAt
  {
    var mint, first, second := Bare(0, Mint, bare), Dated(1, dated), Bare(n + 2, RevalidateEvidence, bare);
    var showings := Shown(n, texts);
    s := Inheriting(mint, first, showings, second);
    InheritingInOrder(mint, first, showings, second);
    forall e | e in s && e.kind.Surface? ensures StampedShowing(e) {
      var i :| 0 <= i < |showings| && showings[i] == e;
    }
    InheritedCutoffIsLost(mint, first, showings, second, maxEvents);
  }

  /** The stores fold with a cap of 500, and 498 showings between the two are enough. */
  lemma LossAtTheStoresCap(bare: string, dated: string, texts: nat -> string) returns (s: seq<Event>)
    ensures Run(s) && ShowingsAreStamped(s) && Ordered(s) == s
    ensures Replay(Window(s, MAX_EVENTS)).evidenceCutoffAt != Replay(s).evidenceCutoffAt
  {
    s := LossBeyond(498, MAX_EVENTS, bare, dated, texts);
  }
}
