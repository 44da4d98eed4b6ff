/** Two caps in a row: a writer that holds the window of a truncated log and adds events to it. */
module DreamWriters {
  import opened Ordering
  import opened DreamLog
  import opened DreamReplay
  import opened DreamLossless
  import opened DreamCaps
  import opened DreamRuns

  /** In the window of an ordered log under this cap. */
  ghost predicate SparedAt(s: seq<Event>, cap: int, e: Event) {
    e in s && (|s| <= cap || Spared(s, TailSize(cap), e))
  }

  lemma WindowHolds(events: seq<Event>, cap: int, e: Event)
    ensures e in Window(events, cap) <==> SparedAt(Ordered(events), cap, e)
  {
    OrderedFacts(events);
    KeptAreSpared(Ordered(events), TailSize(cap), e);
  }

  /** What the writer sees: added by itself, or spared by the first window, and then by the second. */
  ghost predicate SparedTwice(log: seq<Event>, more: seq<Event>, firstCap: int, secondCap: int, e: Event) {
    && (e in more || SparedAt(Ordered(log), firstCap, e))
    && SparedAt(Ordered(Window(log, firstCap) + more), secondCap, e)
  }

  ghost function SparedTwiceBy(log: seq<Event>, more: seq<Event>, firstCap: int, secondCap: int): Event -> bool {
    (e: Event) => SparedTwice(log, more, firstCap, secondCap, e)
  }

  ghost function Seen(log: seq<Event>, more: seq<Event>, firstCap: int, secondCap: int): seq<Event> {
    Window(Window(log, firstCap) + more, secondCap)
  }

  lemma SeenIsSparedTwice(log: seq<Event>, more: seq<Event>, firstCap: int, secondCap: int, e: Event)
    requires KeysIdentify(log + more)
    ensures e in Seen(log, more, firstCap, secondCap) <==> SparedTwice(log, more, firstCap, secondCap, e)
  {
    WindowHolds(log, firstCap, e);
    WindowHolds(Window(log, firstCap) + more, secondCap, e);
    WindowThenAppendRetains(log, more, firstCap);
    assert SameEvents(Ordered(Window(log, firstCap) + more), Window(log, firstCap) + more);
  }

  // ---- what answers in place of a lost supplier ---------------------------------------------

  /** Every addition is stamped above the log. */
  ghost predicate After(log: seq<Event>, more: seq<Event>) { forall a, b :: a in log && b in more ==> EventLess(a, b) }

  /** A supplier that a window spares although it loses a later one is spared as the latest of its kind. */
  lemma SparedAsLatest(s: seq<Event>, cap: int, f: Event, e: Event)
    requires Chronological(s) && SparedAt(s, cap, f) && e in s && !SparedAt(s, cap, e)
    requires EventLess(f, e)
    ensures KnownKind(f.kind) && LatestOfKind(s, f.kind) == Some(f)
  {
    if f in Tail(s, TailSize(cap)) { TailIsSuffix(s, TailSize(cap), f, e); }
  }

  /** Only latest events are left to answer for a supplier that is lost: the latest of their kind in the log that the
      first window was cut from, or in the whole. */
  lemma OnlyLatestAnswer<T>(log: seq<Event>, more: seq<Event>, firstCap: int, secondCap: int,
                            read: Event -> Option<T>, e: Event, f: Event)
    requires KeysIdentify(log + more) && After(log, more)
    requires LastReader(Ordered(log + more), read) == Some(e) && !SparedTwice(log, more, firstCap, secondCap, e)
    requires SparedTwice(log, more, firstCap, secondCap, f) && read(f).Some?
    ensures KnownKind(f.kind)
    ensures LatestOfKind(Ordered(log + more), f.kind) == Some(f) || LatestOfKind(Ordered(log), f.kind) == Some(f)
  {
    var s, u := Ordered(log + more), Ordered(Window(log, firstCap) + more);
    OrderedFacts(log);
    OrderedFacts(log + more);
    WindowThenAppendRetains(log, more, firstCap);
    LastReaderIsMember(s, read);
    assert f in u && f in s && e in log + more;
    LastReaderIsLast(s, read, f);
    WindowHolds(log, firstCap, e);
    WindowHolds(log, firstCap, f);
    if e in u {
      SparedAsLatest(u, secondCap, f, e);
      LatestKept(u, s, f.kind);
    } else {
      SubLogOrdered(log, s);
      FirstWindowLost(log, more, firstCap, e, f);
    }
  }

  lemma FirstWindowLost(log: seq<Event>, more: seq<Event>, firstCap: int, e: Event, f: Event)
    requires Chronological(Ordered(log)) && e in Ordered(log) && SameEvents(Ordered(log), log) && After(log, more)
    requires EventLess(f, e) && !SparedAt(Ordered(log), firstCap, e)
    requires f in more || SparedAt(Ordered(log), firstCap, f)
    ensures KnownKind(f.kind) && LatestOfKind(Ordered(log), f.kind) == Some(f)
  {
    EventLessIsAsymmetric(e, f);
    SparedAsLatest(Ordered(log), firstCap, f, e);
  }

  /** The latest of every kind, in the log and in the whole. */
  ghost function TwiceLatest(log: seq<Event>, more: seq<Event>): seq<Event> {
    Pinned(Ordered(log), PINNED_KINDS) + Pinned(Ordered(log + more), PINNED_KINDS)
  }

  /** Those of them that the writer sees: at most two of a kind. */
  ghost function Answerers(log: seq<Event>, more: seq<Event>, firstCap: int, secondCap: int): seq<Event> {
    Ordered(Select(TwiceLatest(log, more), SparedTwiceBy(log, more, firstCap, secondCap)))
  }

  lemma AnswerersAre(log: seq<Event>, more: seq<Event>, firstCap: int, secondCap: int)
    requires KeysIdentify(log + more)
    ensures Within(Answerers(log, more, firstCap, secondCap), Seen(log, more, firstCap, secondCap))
    ensures forall e :: e in Answerers(log, more, firstCap, secondCap) <==>
              e in TwiceLatest(log, more) && SparedTwice(log, more, firstCap, secondCap, e)
  {
    var spared, t := SparedTwiceBy(log, more, firstCap, secondCap), Seen(log, more, firstCap, secondCap);
    var chosen := Select(TwiceLatest(log, more), spared);
    SelectMembers(TwiceLatest(log, more), spared);
    WindowTwiceRetains(log, more, firstCap, secondCap);
    forall e | e in chosen ensures e in t { SeenIsSparedTwice(log, more, firstCap, secondCap, e); }
    SubLogOrdered(chosen, t);
  }

  lemma LatestAreTwice(log: seq<Event>, more: seq<Event>, f: Event)
    requires KnownKind(f.kind)
    requires LatestOfKind(Ordered(log + more), f.kind) == Some(f) || LatestOfKind(Ordered(log), f.kind) == Some(f)
    ensures f in TwiceLatest(log, more)
  {
    EveryKnownKindIsPinned(f.kind);
    PinnedMembers(Ordered(log), PINNED_KINDS);
    PinnedMembers(Ordered(log + more), PINNED_KINDS);
  }

  /** Once the last supplier is lost, what the writer reads is what these few answer. */
  lemma LostIsAnswered<T>(log: seq<Event>, more: seq<Event>, firstCap: int, secondCap: int,
                          read: Event -> Option<T>, initial: T, e: Event)
    requires KeysIdentify(log + more) && After(log, more)
    requires LastReader(Ordered(log + more), read) == Some(e) && !SparedTwice(log, more, firstCap, secondCap, e)
    ensures LastRead(Seen(log, more, firstCap, secondCap), read, initial)
            == LastRead(Answerers(log, more, firstCap, secondCap), read, initial)
  {
    var t := Seen(log, more, firstCap, secondCap);
    AnswerersAre(log, more, firstCap, secondCap);
    LastReaderIsMember(t, read);
    match LastReader(t, read) {
      case None =>
      case Some(f) =>
        SeenIsSparedTwice(log, more, firstCap, secondCap, f);
        OnlyLatestAnswer(log, more, firstCap, secondCap, read, e, f);
        LatestAreTwice(log, more, f);
    }
    LastReaderKept(Answerers(log, more, firstCap, secondCap), t, read);
  }

  // ---- exactly when -------------------------------------------------------------------------

  /** One inherited field: what the writer reads is what the whole log reads iff the last supplier is spared twice, or
      those few say the same. */
  lemma FieldSeenIff<T>(log: seq<Event>, more: seq<Event>, firstCap: int, secondCap: int,
                        read: Event -> Option<T>, initial: T)
    requires KeysIdentify(log + more) && After(log, more)
    ensures LastRead(Seen(log, more, firstCap, secondCap), read, initial)
            == LastRead(Ordered(log + more), read, initial) <==>
              SupplierSpared(Ordered(log + more), SparedTwiceBy(log, more, firstCap, secondCap),
                             Answerers(log, more, firstCap, secondCap), read, initial)
  {
    var t, s := Seen(log, more, firstCap, secondCap), Ordered(log + more);
    var spared := SparedTwiceBy(log, more, firstCap, secondCap);
    WindowTwiceRetains(log, more, firstCap, secondCap);
    forall e ensures e in t <==> spared(e) { SeenIsSparedTwice(log, more, firstCap, secondCap, e); }
    match LastReader(s, read) {
      case None =>
      case Some(e) =>
        if !spared(e) { LostIsAnswered(log, more, firstCap, secondCap, read, initial, e); }
    }
    FieldKeptIff(t, s, spared, Answerers(log, more, firstCap, secondCap), read, initial);
  }

  lemma ShowingsSeenIff(log: seq<Event>, more: seq<Event>, firstCap: int, secondCap: int)
    requires KeysIdentify(log + more) && ShowingsAreStamped(Ordered(log + more))
    ensures Showings(Seen(log, more, firstCap, secondCap)) == Showings(Ordered(log + more)) <==>
              ShowingsSpared(Ordered(log + more), SparedTwiceBy(log, more, firstCap, secondCap))
  {
    var t := Seen(log, more, firstCap, secondCap);
    var spared := SparedTwiceBy(log, more, firstCap, secondCap);
    WindowTwiceRetains(log, more, firstCap, secondCap);
    forall e ensures e in t <==> spared(e) { SeenIsSparedTwice(log, more, firstCap, secondCap, e); }
    ShowingsKeptIff(t, Ordered(log + more), spared);
  }

  lemma ReplaysDecide(t: seq<Event>, s: seq<Event>)
    requires Within(t, s) && KeepsLatest(t, s)
    ensures SameRegisters(t, s) && (Replay(t) == Replay(s) <==> LatestSays(t) == LatestSays(s))
  {
    RegistersKept(t, s);
    ReplayIsLatestSays(t);
    ReplayIsLatestSays(s);
  }

  /** Exactly when a writer on a window writes what a writer on the whole log does: each inherited field's last supplier
      was added or spared by the first window, and spared by the second, or the latest events of the log and of the
      whole that the writer sees say the same; and so for the showings. */
  lemma WriterOnWindowIff(log: seq<Event>, more: seq<Event>, firstCap: int, secondCap: int)
    requires KeysIdentify(log + more) && After(log, more) && ShowingsAreStamped(Ordered(log + more))
    ensures Replay(Seen(log, more, firstCap, secondCap)) == Replay(Ordered(log + more)) <==>
              Carries(Ordered(log + more), SparedTwiceBy(log, more, firstCap, secondCap),
                      Answerers(log, more, firstCap, secondCap))
  {
    var t, s := Seen(log, more, firstCap, secondCap), Ordered(log + more);
    WindowTwiceRetains(log, more, firstCap, secondCap);
    ReplaysDecide(t, s);
    FieldsDecide(t, s);
    ShowingsSeenIff(log, more, firstCap, secondCap);
    FieldSeenIff(log, more, firstCap, secondCap, ReadPlanRoot, None);
    FieldSeenIff(log, more, firstCap, secondCap, ReadExpiry, None);
    FieldSeenIff(log, more, firstCap, secondCap, ReadBasis, EVIDENCE_BASIS_TRUSTED);
    FieldSeenIff(log, more, firstCap, secondCap, ReadRevision, "");
    FieldSeenIff(log, more, firstCap, secondCap, ReadCutoff, None);
  }

  /** The additions are after the log when they are stamped above its highest number. */
  lemma StampedAreAfter(log: seq<Event>, added: seq<Event>, highestSeq: int)
    requires forall e :: e in log ==> e.seqNo <= highestSeq
    ensures After(log, StampFrom(added, highestSeq))
  {
  }

  // ---- two writers that lose ----------------------------------------------------------------

  /** The cutoff comes from `first` in the whole log, and from `mint` in any log that has lost it. */
  ghost predicate CutoffFrom(whole: seq<Event>, mint: Event, first: Event) {
    && Chronological(whole) && LastReader(whole, ReadCutoff) == Some(first) && ReadCutoff(first) != ReadCutoff(mint)
    && ReadCutoff(first).Some? && mint.kind.Mint? && LatestOfKind(whole, Mint) == Some(mint) && ReadCutoff(mint).Some?
    && forall f :: f in whole && ReadCutoff(f).Some? ==> f == mint || f == first
  }

  lemma CutoffIsRead(s: seq<Event>)
    ensures Replay(s).evidenceCutoffAt == LastRead(s, ReadCutoff, None)
  {
    ReplayIsLatestSays(s);
  }

  lemma LostOnTheWay(log: seq<Event>, more: seq<Event>, firstCap: int, secondCap: int, mint: Event, first: Event)
    requires CutoffFrom(log + more, mint, first) && !SparedTwice(log, more, firstCap, secondCap, first)
    ensures Replay(Seen(log, more, firstCap, secondCap)).evidenceCutoffAt != Replay(log + more).evidenceCutoffAt
  {
    MintIsLeft(log, more, firstCap, secondCap, mint, first);
    CutoffsDiffer(Seen(log, more, firstCap, secondCap), log + more, mint, first);
  }

  lemma CutoffsDiffer(t: seq<Event>, s: seq<Event>, mint: Event, first: Event)
    requires LastReader(t, ReadCutoff) == Some(mint) && LastReader(s, ReadCutoff) == Some(first)
    requires ReadCutoff(mint) != ReadCutoff(first) && ReadCutoff(mint).Some? && ReadCutoff(first).Some?
    ensures Replay(t).evidenceCutoffAt != Replay(s).evidenceCutoffAt
  {
    CutoffIsRead(t);
    CutoffIsRead(s);
  }

  lemma MintIsLeft(log: seq<Event>, more: seq<Event>, firstCap: int, secondCap: int, mint: Event, first: Event)
    requires CutoffFrom(log + more, mint, first) && !SparedTwice(log, more, firstCap, secondCap, first)
    ensures LastReader(Seen(log, more, firstCap, secondCap), ReadCutoff) == Some(mint)
  {
    var t := Seen(log, more, firstCap, secondCap);
    OrderedOfChronological(log + more);
    ChronologicalIdentifies(log + more);
    WindowTwiceRetains(log, more, firstCap, secondCap);
    SeenIsSparedTwice(log, more, firstCap, secondCap, first);
    OnlyReader(t, ReadCutoff, mint);
  }

  /** Two revalidations, the second bare, with numbered showings between them, and one showing to come after. */
  ghost predicate Numbered(mint: Event, first: Event, showings: seq<Event>, second: Event, x: Event) {
    && mint.seqNo == 0 && first.seqNo == 1 && second.seqNo == |showings| + 2 && x.seqNo == |showings| + 3
    && mint.kind.Mint? && first.kind.RevalidateEvidence? && second.kind.RevalidateEvidence? && StampedShowing(x)
    && (forall i :: 0 <= i < |showings| ==> showings[i].seqNo == i + 2 && StampedShowing(showings[i]))
    && ReadCutoff(mint) != ReadCutoff(first) && ReadCutoff(first).Some? && ReadCutoff(second).None?
    && ReadCutoff(mint).Some?
  }

  lemma NumberedInherits(mint: Event, first: Event, showings: seq<Event>, second: Event, x: Event)
    requires Numbered(mint, first, showings, second, x)
    ensures var log := Inheriting(mint, first, showings, second);
            && Inherits(mint, first, showings, second) && CutoffFrom(log, mint, first)
            && Run(log) && ShowingsAreStamped(log)
  {
    var log := Inheriting(mint, first, showings, second);
    InheritingInOrder(mint, first, showings, second);
    InheritedRead(mint, first, showings, second);
    InheritingRuns(mint, first, showings, second);
    forall e | e in log ensures e.kind.Surface? ==> e in showings && StampedShowing(e) {
      assert e in showings ==> exists i :: 0 <= i < |showings| && showings[i] == e;
    }
  }

  lemma NumberedWhole(mint: Event, first: Event, showings: seq<Event>, second: Event, x: Event)
    requires Numbered(mint, first, showings, second, x)
    ensures var log := Inheriting(mint, first, showings, second);
            && Chronological(log + [x]) && After(log, [x])
            && forall i :: 1 <= i <= |log| ==> (log + [x])[i].kind.Surface? || (log + [x])[i].kind.RevalidateEvidence?
  {
    var log := Inheriting(mint, first, showings, second);
    var whole := log + [x];
    forall i | 0 <= i < |whole|
      ensures whole[i].seqNo == i && (i >= 1 ==> whole[i].kind.Surface? || whole[i].kind.RevalidateEvidence?)
    {
      if 2 <= i < |log| - 1 { assert whole[i] == showings[i - 2]; }
    }
    NumberedIsChronological(whole);
    forall a | a in log ensures EventLess(a, x) {
      var i :| 0 <= i < |log| && log[i] == a;
      assert whole[i] == a && whole[|log|] == x;
    }
  }

  /** Such a log with the showing on top is a permitted run that still reads its cutoff from the first revalidation. */
  lemma OneShowingMore(mint: Event, first: Event, showings: seq<Event>, second: Event, x: Event)
    requires Numbered(mint, first, showings, second, x)
    ensures var log := Inheriting(mint, first, showings, second);
            && CutoffFrom(log + [x], mint, first) && After(log, [x])
            && Run(log + [x]) && ShowingsAreStamped(log + [x])
  {
    var log := Inheriting(mint, first, showings, second);
    NumberedInherits(mint, first, showings, second, x);
    NumberedWhole(mint, first, showings, second, x);
    SilentAfter(log, [x]);
    MixedRuns(log + [x]);
  }

  /** The first window of a log of this shape misses the first revalidation, and with one showing added on top the
      cutoff stays lost, under any cap of the writer's own. */
  lemma FirstWindowLoses(mint: Event, first: Event, showings: seq<Event>, second: Event, x: Event, firstCap: int,
                         secondCap: int)
    requires Numbered(mint, first, showings, second, x)
    requires |showings| + 3 > firstCap && TailSize(firstCap) <= |showings| + 1
    ensures var log := Inheriting(mint, first, showings, second);
            Replay(Seen(log, [x], firstCap, secondCap)).evidenceCutoffAt != Replay(log + [x]).evidenceCutoffAt
  {
    var log := Inheriting(mint, first, showings, second);
    NumberedInherits(mint, first, showings, second, x);
    OneShowingMore(mint, first, showings, second, x);
    FirstIsDropped(mint, first, showings, second, TailSize(firstCap));
    OrderedOfChronological(log);
    WindowHolds(log, firstCap, first);
    LostOnTheWay(log, [x], firstCap, secondCap, mint, first);
  }

  /** A log that fits under the first cap, with the bare revalidation added on top: the first window is the log, and the
      second misses the first revalidation. */
  lemma SecondWindowLoses(mint: Event, first: Event, showings: seq<Event>, second: Event, x: Event, cap: int)
    requires Numbered(mint, first, showings, second, x)
    requires |showings| + 2 == cap && TailSize(cap) <= |showings| + 1
    ensures var log := [mint, first] + showings;
            && Window(log, cap) == log
            && Replay(Seen(log, [second], cap, cap)).evidenceCutoffAt != Replay(log + [second]).evidenceCutoffAt
  {
    var log := [mint, first] + showings;
    var whole := Inheriting(mint, first, showings, second);
    assert log + [second] == whole && log == whole[..|whole| - 1];
    NumberedInherits(mint, first, showings, second, x);
    OrderedOfChronological(log);
    OrderedOfChronological(whole);
    FirstIsDropped(mint, first, showings, second, TailSize(cap));
    WindowHolds(whole, cap, first);
    LostOnTheWay(log, [second], cap, cap, mint, first);
  }

  lemma NumberedExample(n: nat, bare: string, dated: string, texts: nat -> string)
    returns (mint: Event, first: Event, showings: seq<Event>, second: Event, x: Event)
    ensures Numbered(mint, first, showings, second, x) && |showings| == n
  {
    mint, first, showings := Bare(0, Mint, bare), Dated(1, dated), Shown(n, texts);
    second, x := Bare(n + 2, RevalidateEvidence, bare), ShownAt(n + 1, bare);
  }

  /** At the stores' cap: 501 events, and one showing added on top of their window, under any cap of the writer's. */
  lemma FirstWindowLosesAtTheStoresCap(bare: string, dated: string, texts: nat -> string, secondCap: int)
    returns (log: seq<Event>, x: Event)
    ensures |log| == 501 && Run(log + [x]) && ShowingsAreStamped(log + [x]) && After(log, [x])
    ensures Replay(Seen(log, [x], MAX_EVENTS, secondCap)).evidenceCutoffAt != Replay(log + [x]).evidenceCutoffAt
  {
    var mint, first, showings, second, y := NumberedExample(MAX_EVENTS - 2, bare, dated, texts);
    log, x := Inheriting(mint, first, showings, second), y;
    OneShowingMore(mint, first, showings, second, x);
    FirstWindowLoses(mint, first, showings, second, x, MAX_EVENTS, secondCap);
  }

  /** And 500 events, which fit, with one bare revalidation added on top. */
  lemma SecondWindowLosesAtTheStoresCap(bare: string, dated: string, texts: nat -> string)
    returns (log: seq<Event>, second: Event)
    ensures |log| == 500 && Run(log + [second]) && ShowingsAreStamped(log + [second])
    ensures Window(log, MAX_EVENTS) == log
    ensures Replay(Seen(log, [second], MAX_EVENTS, MAX_EVENTS)).evidenceCutoffAt
            != Replay(log + [second]).evidenceCutoffAt
  {
    var mint, first, showings, bareOne, y := NumberedExample(MAX_EVENTS - 2, bare, dated, texts);
    log, second := [mint, first] + showings, bareOne;
    assert log + [second] == Inheriting(mint, first, showings, second);
    NumberedInherits(mint, first, showings, second, y);
    SecondWindowLoses(mint, first, showings, second, y, MAX_EVENTS);
  }
}
