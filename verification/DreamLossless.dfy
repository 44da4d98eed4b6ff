/** Truncation. "Keep the latest of every kind plus a tail" loses nothing exactly when the latest events
    carry what the projection would otherwise accumulate. */
module DreamLossless {
  import opened Ordering
  import opened DreamLog
  import opened DreamReplay

  // ---- sub-logs -----------------------------------------------------------------------------

  ghost predicate Within(t: seq<Event>, s: seq<Event>) {
    Chronological(t) && Chronological(s) && forall e :: e in t ==> e in s
  }

  /** The latest event of every known kind survives. */
  ghost predicate KeepsLatest(t: seq<Event>, s: seq<Event>) {
    forall k: Kind :: KnownKind(k) && LatestOfKind(s, k).Some? ==> LatestOfKind(s, k).value in t
  }

  lemma EventLessIsAsymmetric(a: Event, b: Event)
    ensures !(EventLess(a, b) && EventLess(b, a)) && !EventLess(a, a)
  {
    EventLessIsWeak();
  }

  lemma PositionIsOrder(s: seq<Event>, i: nat, j: nat)
    requires Chronological(s) && i < |s| && j < |s|
    ensures EventLess(s[i], s[j]) <==> i < j
  {
    EventLessIsAsymmetric(s[i], s[j]);
  }

  lemma DropLast(t: seq<Event>, s: seq<Event>)
    requires Within(t, s) && s != []
    ensures s[|s| - 1] in t ==>
              t != [] && t[|t| - 1] == s[|s| - 1] && Within(t[..|t| - 1], s[..|s| - 1])
    ensures s[|s| - 1] !in t ==> Within(t, s[..|s| - 1])
  {
    var last := s[|s| - 1];
    assert s == s[..|s| - 1] + [last];
    if last in t {
      LastIsLast(t, s);
      forall k | 0 <= k < |t| - 1 ensures t[k] in s[..|s| - 1] {
        assert t[k] in s;
        EventLessIsAsymmetric(t[k], t[|t| - 1]);
      }
    }
  }

  lemma LastIsLast(t: seq<Event>, s: seq<Event>)
    requires Within(t, s) && s != [] && s[|s| - 1] in t
    ensures t != [] && t[|t| - 1] == s[|s| - 1]
  {
    var i :| 0 <= i < |t| && t[i] == s[|s| - 1];
    if i < |t| - 1 {
      assert t[|t| - 1] in s;
      var j :| 0 <= j < |s| && s[j] == t[|t| - 1];
      PositionIsOrder(t, i, |t| - 1);
      PositionIsOrder(s, |s| - 1, j);
      assert false;
    }
  }

  lemma {:induction false} LastReaderKept<T>(t: seq<Event>, s: seq<Event>, read: Event -> Option<T>)
    requires Within(t, s)
    requires LastReader(s, read).Some? ==> LastReader(s, read).value in t
    ensures LastReader(t, read) == LastReader(s, read)
  {
    assert t != [] ==> t[0] in s;
    if s == [] {
    } else {
      var last := s[|s| - 1];
      DropLast(t, s);
      if read(last).None? {
        var r := if last in t then t[..|t| - 1] else t;
        LastReaderIsMember(s[..|s| - 1], read);
        LastReaderKept(r, s[..|s| - 1], read);
      }
    }
  }

  lemma {:induction false} LastReaderIsMember<T>(s: seq<Event>, read: Event -> Option<T>)
    ensures LastReader(s, read).Some? ==> LastReader(s, read).value in s && read(LastReader(s, read).value).Some?
    ensures LastReader(s, read).Some? ==> read(s[|s| - 1]).None? ==> LastReader(s, read).value in s[..|s| - 1]
    ensures LastReader(s, read).Some? && Chronological(s) ==>
              read(s[|s| - 1]).None? ==> LastReader(s, read).value != s[|s| - 1]
  {
    if s == [] {
    } else {
      LastReaderIsMember(s[..|s| - 1], read);
    }
  }

  /** Nobody reads after the last reader. */
  lemma {:induction false} LastReaderIsLast<T>(s: seq<Event>, read: Event -> Option<T>, e: Event)
    requires Chronological(s) && e in s && read(e).Some?
    ensures LastReader(s, read).Some?
    ensures e == LastReader(s, read).value || EventLess(e, LastReader(s, read).value)
  {
    if read(s[|s| - 1]).Some? {
    } else {
      assert e in s[..|s| - 1];
      LastReaderIsLast(s[..|s| - 1], read, e);
    }
  }

  ghost function OfKind(k: Kind): Event -> Option<bool> { (e: Event) => When(e.kind == k, true) }

  lemma {:induction false} LatestIsLastReader(s: seq<Event>, k: Kind)
    ensures LatestOfKind(s, k) == LastReader(s, OfKind(k))
  {
    if s == [] {
    } else {
      LatestIsLastReader(s[..|s| - 1], k);
    }
  }

  lemma LatestKept(t: seq<Event>, s: seq<Event>, k: Kind)
    requires Within(t, s) && KeepsLatest(t, s) && KnownKind(k)
    ensures LatestOfKind(t, k) == LatestOfKind(s, k)
  {
    LatestIsLastReader(s, k);
    LatestIsLastReader(t, k);
    LastReaderKept(t, s, OfKind(k));
  }

  lemma LatestIsMember(s: seq<Event>, k: Kind)
    ensures LatestOfKind(s, k).Some? ==> LatestOfKind(s, k).value in s && LatestOfKind(s, k).value.kind == k
  {
    LatestIsLastReader(s, k);
    LastReaderIsMember(s, OfKind(k));
  }

  lemma KeepsLatestTransitive(u: seq<Event>, t: seq<Event>, s: seq<Event>)
    requires Within(u, t) && KeepsLatest(u, t) && Within(t, s) && KeepsLatest(t, s)
    ensures Within(u, s) && KeepsLatest(u, s)
  {
    forall k: Kind | KnownKind(k) && LatestOfKind(s, k).Some? ensures LatestOfKind(s, k).value in u {
      LatestKept(t, s, k);
    }
  }

  // ---- which logs the latest events carry ---------------------------------------------------

  /** Once an event of a kind supplies a field, every later event of that kind does. */
  ghost predicate Persists<T>(s: seq<Event>, read: Event -> Option<T>) {
    && (forall e :: e in s && read(e).Some? ==> KnownKind(e.kind))
    && forall i, j :: 0 <= i < j < |s| && s[i].kind == s[j].kind && read(s[i]).Some? ==> read(s[j]).Some?
  }

  /** The latest showing alone says what all the showings together say. */
  ghost predicate LatestShowingCarries(s: seq<Event>) {
    match LatestOfKind(s, Surface)
    case None => true
    case Some(e) =>
      && Showings(s).count == Show(UNSHOWN, e).count
      && Showings(s).attested == Show(UNSHOWN, e).attested
      && e.payload.Get("first_surfaced_at").instant.Some?
  }

  ghost predicate Stamped(s: seq<Event>) {
    && LatestShowingCarries(s)
    && Persists(s, ReadPlanRoot) && Persists(s, ReadExpiry)
    && Persists(s, ReadBasis) && Persists(s, ReadRevision) && Persists(s, ReadCutoff)
  }

  lemma {:induction false} PersistentReaderIsLatest<T>(s: seq<Event>, read: Event -> Option<T>)
    requires Persists(s, read) && LastReader(s, read).Some?
    ensures var e := LastReader(s, read).value; KnownKind(e.kind) && LatestOfKind(s, e.kind) == Some(e)
  {
    var last := s[|s| - 1];
    if read(last).Some? {
      assert last in s;
    } else {
      var front := s[..|s| - 1];
      PersistentReaderIsLatest(front, read);
      LastReaderIsMember(front, read);
      var e := LastReader(s, read).value;
      var i :| 0 <= i < |front| && front[i] == e;
      assert s[i] == e && last.kind != e.kind;
    }
  }

  lemma PersistentReadKept<T>(t: seq<Event>, s: seq<Event>, read: Event -> Option<T>, initial: T)
    requires Within(t, s) && KeepsLatest(t, s) && Persists(s, read)
    ensures LastRead(t, read, initial) == LastRead(s, read, initial)
  {
    if LastReader(s, read).Some? { PersistentReaderIsLatest(s, read); }
    LastReaderKept(t, s, read);
  }

  lemma {:induction false} ShowingsGrow(t: seq<Event>, s: seq<Event>)
    requires Within(t, s)
    ensures 0 <= Showings(t).count <= Showings(s).count
    ensures Showings(t).attested ==> Showings(s).attested
  {
    assert t != [] ==> t[0] in s;
    if s == [] {
    } else {
      DropLast(t, s);
      ShowingsGrow(if s[|s| - 1] in t then t[..|t| - 1] else t, s[..|s| - 1]);
    }
  }

  /** What the latest showing guarantees on its own. */
  lemma {:induction false} LatestShowingSays(s: seq<Event>)
    requires LatestOfKind(s, Surface).Some?
    ensures var e, g := LatestOfKind(s, Surface).value, Showings(s);
            && g.count >= Show(UNSHOWN, e).count && g.lastAt == Some(e.occurredAt)
            && (Show(UNSHOWN, e).attested ==> g.attested)
            && (e.payload.Get("first_surfaced_at").instant.Some? ==>
                  g.firstAt == e.payload.Get("first_surfaced_at").instant)
  {
    if s[|s| - 1].kind.Surface? {
      ShowingsCountIsNatural(s[..|s| - 1]);
    } else {
      LatestShowingSays(s[..|s| - 1]);
    }
  }

  lemma ShowingsCountIsNatural(s: seq<Event>)
    ensures Showings(s).count >= 0
  {
  }

  lemma NoShowings(s: seq<Event>)
    requires LatestOfKind(s, Surface).None?
    ensures Showings(s) == UNSHOWN
  {
  }

  lemma ShowingsKept(t: seq<Event>, s: seq<Event>)
    requires Within(t, s) && KeepsLatest(t, s) && LatestShowingCarries(s)
    ensures Showings(t) == Showings(s)
  {
    LatestKept(t, s, Surface);
    if LatestOfKind(s, Surface).Some? {
      LatestShowingSays(s);
      LatestShowingSays(t);
      ShowingsGrow(t, s);
    } else {
      NoShowings(s);
      NoShowings(t);
    }
  }

  lemma KindReadKept<T>(t: seq<Event>, s: seq<Event>, read: Event -> Option<T>, initial: T)
    requires Within(t, s) && KeepsLatest(t, s)
    requires forall e: Event, f: Event :: e.kind == f.kind ==> (read(e).Some? <==> read(f).Some?)
    requires forall e: Event :: read(e).Some? ==> KnownKind(e.kind)
    ensures LastRead(t, read, initial) == LastRead(s, read, initial)
  {
    PersistentReadKept(t, s, read, initial);
  }

  /** What the registers that are written by kind alone hold: these survive in any log. */
  ghost predicate SameRegisters(t: seq<Event>, s: seq<Event>) {
    && LastRead(t, ReadVerdict, Proposed) == LastRead(s, ReadVerdict, Proposed)
    && LastRead(t, ReadShown, false) == LastRead(s, ReadShown, false)
    && LastRead(t, ReadPitch, INITIAL.pitch) == LastRead(s, ReadPitch, INITIAL.pitch)
    && LastRead(t, ReadCitations, []) == LastRead(s, ReadCitations, [])
    && LastRead(t, ReadSnooze, None) == LastRead(s, ReadSnooze, None)
    && LastRead(t, ReadAccepted, None) == LastRead(s, ReadAccepted, None)
    && LastRead(t, ReadRejection, INITIAL.rejection) == LastRead(s, ReadRejection, INITIAL.rejection)
    && LastRead(t, ReadBinding, INITIAL.binding) == LastRead(s, ReadBinding, INITIAL.binding)
    && LastRead(t, ReadPursuit, None) == LastRead(s, ReadPursuit, None)
    && LastRead(t, ReadCompleted, None) == LastRead(s, ReadCompleted, None)
    && LastRead(t, ReadAbandonment, INITIAL.abandonment) == LastRead(s, ReadAbandonment, INITIAL.abandonment)
    && LastRead(t, ReadWithdrawal, "") == LastRead(s, ReadWithdrawal, "")
  }

  lemma VerdictsKept(t: seq<Event>, s: seq<Event>)
    requires Within(t, s) && KeepsLatest(t, s)
    ensures LastRead(t, ReadVerdict, Proposed) == LastRead(s, ReadVerdict, Proposed)
    ensures LastRead(t, ReadShown, false) == LastRead(s, ReadShown, false)
    ensures LastRead(t, ReadWithdrawal, "") == LastRead(s, ReadWithdrawal, "")
    ensures LastRead(t, ReadSnooze, None) == LastRead(s, ReadSnooze, None)
  {
    KindReadKept(t, s, ReadVerdict, Proposed);
    KindReadKept(t, s, ReadShown, false);
    KindReadKept(t, s, ReadWithdrawal, "");
    KindReadKept(t, s, ReadSnooze, None);
  }

  lemma ContentKept(t: seq<Event>, s: seq<Event>)
    requires Within(t, s) && KeepsLatest(t, s)
    ensures LastRead(t, ReadPitch, INITIAL.pitch) == LastRead(s, ReadPitch, INITIAL.pitch)
    ensures LastRead(t, ReadCitations, []) == LastRead(s, ReadCitations, [])
  {
    KindReadKept(t, s, ReadPitch, INITIAL.pitch);
    KindReadKept(t, s, ReadCitations, []);
  }

  lemma RecordsKept(t: seq<Event>, s: seq<Event>)
    requires Within(t, s) && KeepsLatest(t, s)
    ensures LastRead(t, ReadRejection, INITIAL.rejection) == LastRead(s, ReadRejection, INITIAL.rejection)
    ensures LastRead(t, ReadBinding, INITIAL.binding) == LastRead(s, ReadBinding, INITIAL.binding)
  {
    KindReadKept(t, s, ReadRejection, INITIAL.rejection);
    KindReadKept(t, s, ReadBinding, INITIAL.binding);
  }

  lemma StampsKept(t: seq<Event>, s: seq<Event>)
    requires Within(t, s) && KeepsLatest(t, s)
    ensures LastRead(t, ReadAccepted, None) == LastRead(s, ReadAccepted, None)
    ensures LastRead(t, ReadPursuit, None) == LastRead(s, ReadPursuit, None)
    ensures LastRead(t, ReadCompleted, None) == LastRead(s, ReadCompleted, None)
    ensures LastRead(t, ReadAbandonment, INITIAL.abandonment) == LastRead(s, ReadAbandonment, INITIAL.abandonment)
  {
    KindReadKept(t, s, ReadAccepted, None);
    KindReadKept(t, s, ReadPursuit, None);
    KindReadKept(t, s, ReadCompleted, None);
    KindReadKept(t, s, ReadAbandonment, INITIAL.abandonment);
  }

  lemma RegistersKept(t: seq<Event>, s: seq<Event>)
    requires Within(t, s) && KeepsLatest(t, s)
    ensures SameRegisters(t, s)
  {
    VerdictsKept(t, s);
    ContentKept(t, s);
    RecordsKept(t, s);
    StampsKept(t, s);
  }

  /** Any retention that keeps the latest of every kind of a stamped log replays to the same projection. */
  lemma RetentionIsLossless(t: seq<Event>, s: seq<Event>)
    requires Within(t, s) && KeepsLatest(t, s) && Stamped(s)
    ensures Replay(t) == Replay(s)
  {
    ReplayIsLatestSays(t);
    ReplayIsLatestSays(s);
    RegistersKept(t, s);
    ShowingsKept(t, s);
    PersistentReadKept(t, s, ReadPlanRoot, None);
    PersistentReadKept(t, s, ReadExpiry, None);
    PersistentReadKept(t, s, ReadBasis, EVIDENCE_BASIS_TRUSTED);
    PersistentReadKept(t, s, ReadRevision, "");
    PersistentReadKept(t, s, ReadCutoff, None);
  }

  // ---- the window ---------------------------------------------------------------------------

  lemma {:induction false} PinnedMembers(s: seq<Event>, kinds: seq<Kind>)
    ensures forall e :: e in Pinned(s, kinds) ==> e in s && LatestOfKind(s, e.kind) == Some(e)
    ensures forall k :: k in kinds && LatestOfKind(s, k).Some? ==> LatestOfKind(s, k).value in Pinned(s, kinds)
  {
    if kinds == [] {
    } else {
      var last := kinds[|kinds| - 1];
      PinnedMembers(s, kinds[..|kinds| - 1]);
      LatestIsMember(s, last);
      assert kinds == kinds[..|kinds| - 1] + [last];
    }
  }

  lemma EveryKnownKindIsPinned(k: Kind)
    requires KnownKind(k)
    ensures k in PINNED_KINDS
  {
    assert PINNED_KINDS[0] == Accept && PINNED_KINDS[1] == Complete && PINNED_KINDS[2] == RevalidateEvidence;
    assert PINNED_KINDS[3] == Expire && PINNED_KINDS[4] == BindObjective && PINNED_KINDS[5] == Mint;
    assert PINNED_KINDS[6] == AbandonPursuit && PINNED_KINDS[7] == StartPursuit && PINNED_KINDS[8] == Reject;
    assert PINNED_KINDS[9] == Snooze && PINNED_KINDS[10] == Supersede && PINNED_KINDS[11] == Surface;
    assert PINNED_KINDS[12] == Unsnooze && PINNED_KINDS[13] == Withdraw;
  }

  /** The pinned events in order: what is left of a long log when there is no room for a tail. */
  ghost function Heads(s: seq<Event>): seq<Event> { Ordered(Pinned(s, PINNED_KINDS)) }

  ghost function Kept(s: seq<Event>, tail: nat): seq<Event> { Ordered(Pinned(s, PINNED_KINDS) + Tail(s, tail)) }

  lemma SubLogOrdered(r: seq<Event>, s: seq<Event>)
    requires Chronological(s) && forall e :: e in r ==> e in s
    ensures Within(Ordered(r), s) && SameEvents(Ordered(r), r)
  {
    ChronologicalIdentifies(s);
    OrderedFacts(r);
  }

  lemma KeptRetains(s: seq<Event>, tail: nat)
    requires Chronological(s)
    ensures Within(Kept(s, tail), s) && KeepsLatest(Kept(s, tail), s)
    ensures forall e :: e in Kept(s, tail) <==> e in Pinned(s, PINNED_KINDS) || e in Tail(s, tail)
  {
    PinnedMembers(s, PINNED_KINDS);
    var r := Pinned(s, PINNED_KINDS) + Tail(s, tail);
    SubLogOrdered(r, s);
    forall k: Kind | KnownKind(k) && LatestOfKind(s, k).Some? ensures LatestOfKind(s, k).value in Kept(s, tail) {
      EveryKnownKindIsPinned(k);
      assert LatestOfKind(s, k).value in r;
    }
  }

  lemma WindowRetains(events: seq<Event>, maxEvents: int)
    ensures Within(Window(events, maxEvents), Ordered(events))
    ensures KeepsLatest(Window(events, maxEvents), Ordered(events))
  {
    var s := Ordered(events);
    OrderedFacts(events);
    if |s| <= maxEvents {
      forall k: Kind | KnownKind(k) && LatestOfKind(s, k).Some? ensures LatestOfKind(s, k).value in s {
        LatestIsMember(s, k);
      }
    } else {
      KeptRetains(s, TailSize(maxEvents));
    }
  }

  /** Under any cap, the projection of a stamped log is the uncapped one. */
  lemma CapIsLossless(events: seq<Event>, maxEvents: int)
    requires Stamped(Ordered(events))
    ensures Replay(Window(events, maxEvents)) == Replay(Ordered(events))
  {
    WindowRetains(events, maxEvents);
    RetentionIsLossless(Window(events, maxEvents), Ordered(events));
  }

  lemma LatestAmongFewer(t: seq<Event>, s: seq<Event>, k: Kind)
    requires Within(t, s) && LatestOfKind(s, k).Some? && LatestOfKind(s, k).value in t
    ensures LatestOfKind(t, k) == LatestOfKind(s, k)
  {
    LatestIsLastReader(s, k);
    LatestIsLastReader(t, k);
    LastReaderKept(t, s, OfKind(k));
  }

  /** What a writer on a truncated window folds keeps the latest of every kind of the whole log. */
  lemma WindowThenAppendRetains(log: seq<Event>, more: seq<Event>, firstCap: int)
    requires KeysIdentify(log + more)
    ensures var t, s := Ordered(Window(log, firstCap) + more), Ordered(log + more);
            && Within(t, s) && KeepsLatest(t, s) && SameEvents(t, Window(log, firstCap) + more)
  {
    var w, s := Window(log, firstCap), Ordered(log + more);
    OrderedFacts(log);
    OrderedFacts(log + more);
    WindowRetains(log, firstCap);
    assert KeysIdentify(log);
    var t := Ordered(w + more);
    SubLogOrdered(w + more, s);
    SubLogOrdered(log, s);
    forall k: Kind | KnownKind(k) && LatestOfKind(s, k).Some? ensures LatestOfKind(s, k).value in t {
      LatestIsMember(s, k);
      var e := LatestOfKind(s, k).value;
      if e !in more {
        assert e in log && e in Ordered(log);
        LatestAmongFewer(Ordered(log), s, k);
        assert e in w + more;
      } else {
        assert e in w + more;
      }
    }
  }

  lemma WindowTwiceRetains(log: seq<Event>, more: seq<Event>, firstCap: int, secondCap: int)
    requires KeysIdentify(log + more)
    ensures var t, s := Window(Window(log, firstCap) + more, secondCap), Ordered(log + more);
            Within(t, s) && KeepsLatest(t, s)
  {
    var w := Window(log, firstCap) + more;
    WindowThenAppendRetains(log, more, firstCap);
    WindowRetains(w, secondCap);
    KeepsLatestTransitive(Window(w, secondCap), Ordered(w), Ordered(log + more));
  }

  /** Writing on top of a truncated window is writing on top of the whole log, at any pair of caps. */
  lemma WindowThenAppendIsLossless(log: seq<Event>, more: seq<Event>, firstCap: int, secondCap: int)
    requires KeysIdentify(log + more) && Stamped(Ordered(log + more))
    ensures Replay(Window(Window(log, firstCap) + more, secondCap)) == Replay(Ordered(log + more))
  {
    WindowTwiceRetains(log, more, firstCap, secondCap);
    RetentionIsLossless(Window(Window(log, firstCap) + more, secondCap), Ordered(log + more));
  }

  // ---- exactly when -------------------------------------------------------------------------

  /** Every showing came from the one constructor, which always stamps the first showing's time. */
  ghost predicate ShowingsAreConstructed(s: seq<Event>) {
    forall e :: e in s && e.kind.Surface? ==> e.payload.Get("first_surfaced_at").instant.Some?
  }

  /** The two running values and the five inherited fields read the same from the heads as from the log. */
  ghost predicate HeadsCarry(s: seq<Event>) {
    var h := Heads(s);
    && Showings(h).count == Showings(s).count && Showings(h).attested == Showings(s).attested
    && LastRead(h, ReadPlanRoot, None) == LastRead(s, ReadPlanRoot, None)
    && LastRead(h, ReadExpiry, None) == LastRead(s, ReadExpiry, None)
    && LastRead(h, ReadBasis, EVIDENCE_BASIS_TRUSTED) == LastRead(s, ReadBasis, EVIDENCE_BASIS_TRUSTED)
    && LastRead(h, ReadRevision, "") == LastRead(s, ReadRevision, "")
    && LastRead(h, ReadCutoff, None) == LastRead(s, ReadCutoff, None)
  }

  lemma TailAt(s: seq<Event>, n: nat, e: Event) returns (i: nat)
    requires e in Tail(s, n)
    ensures i < |s| && s[i] == e && forall j :: i <= j < |s| ==> s[j] in Tail(s, n)
  {
    var t := Tail(s, n);
    var start := |s| - |t|;
    var k :| 0 <= k < |t| && t[k] == e;
    i := start + k;
    forall j | i <= j < |s| ensures s[j] in t { assert t[j - start] == s[j]; }
  }

  lemma TailIsSuffix(s: seq<Event>, n: nat, a: Event, b: Event)
    requires Chronological(s) && a in Tail(s, n) && b in s && (a == b || EventLess(a, b))
    ensures b in Tail(s, n)
  {
    var i := TailAt(s, n, a);
    if a != b {
      var j :| 0 <= j < |s| && s[j] == b;
      PositionIsOrder(s, i, j);
    }
  }

  /** A tail either reaches the true last reader or reaches no reader at all. */
  lemma TailReadsAllOrNothing<T>(s: seq<Event>, n: nat, read: Event -> Option<T>, initial: T)
    requires Chronological(s)
    requires LastRead(Heads(s), read, initial) == LastRead(s, read, initial)
    ensures LastRead(Kept(s, n), read, initial) == LastRead(s, read, initial)
  {
    KeptRetains(s, n);
    PinnedMembers(s, PINNED_KINDS);
    SubLogOrdered(Pinned(s, PINNED_KINDS), s);
    var t, h := Kept(s, n), Heads(s);
    LastReaderIsMember(t, read);
    LastReaderIsMember(s, read);
    if LastReader(t, read).Some? && LastReader(t, read).value in Tail(s, n) {
      var e := LastReader(t, read).value;
      LastReaderIsLast(s, read, e);
      TailIsSuffix(s, n, e, LastReader(s, read).value);
      LastReaderKept(t, s, read);
    } else {
      LastReaderKept(h, t, read);
    }
  }

  lemma ShowingsSandwiched(s: seq<Event>, n: nat)
    requires Chronological(s) && ShowingsAreConstructed(s)
    requires Showings(Heads(s)).count == Showings(s).count && Showings(Heads(s)).attested == Showings(s).attested
    ensures Showings(Kept(s, n)) == Showings(s)
  {
    KeptRetains(s, n);
    PinnedMembers(s, PINNED_KINDS);
    SubLogOrdered(Pinned(s, PINNED_KINDS), s);
    ShowingsGrow(Heads(s), Kept(s, n));
    ShowingsGrow(Kept(s, n), s);
    LatestKept(Kept(s, n), s, Surface);
    LatestIsMember(s, Surface);
    if LatestOfKind(s, Surface).Some? {
      LatestShowingSays(s);
      LatestShowingSays(Kept(s, n));
    } else {
      NoShowings(s);
      NoShowings(Kept(s, n));
    }
  }

  lemma HeadsCarryEveryCap(events: seq<Event>, maxEvents: int)
    requires ShowingsAreConstructed(Ordered(events)) && HeadsCarry(Ordered(events))
    ensures Replay(Window(events, maxEvents)) == Replay(Ordered(events))
  {
    var s := Ordered(events);
    OrderedFacts(events);
    if |s| > maxEvents {
      var n := TailSize(maxEvents);
      KeptRetains(s, n);
      RegistersKept(Kept(s, n), s);
      ShowingsSandwiched(s, n);
      TailReadsAllOrNothing(s, n, ReadPlanRoot, None);
      TailReadsAllOrNothing(s, n, ReadExpiry, None);
      TailReadsAllOrNothing(s, n, ReadBasis, EVIDENCE_BASIS_TRUSTED);
      TailReadsAllOrNothing(s, n, ReadRevision, "");
      TailReadsAllOrNothing(s, n, ReadCutoff, None);
      ReplayIsLatestSays(Kept(s, n));
      ReplayIsLatestSays(s);
    }
  }

  /** Truncation is lossless at every cap iff seven readings of the at most fourteen heads are the log's. */
  lemma LosslessIff(events: seq<Event>)
    requires ShowingsAreConstructed(Ordered(events))
    ensures (forall m: int :: Replay(Window(events, m)) == Replay(Ordered(events))) <==> HeadsCarry(Ordered(events))
  {
    var s := Ordered(events);
    if HeadsCarry(s) {
      forall m: int ensures Replay(Window(events, m)) == Replay(s) { HeadsCarryEveryCap(events, m); }
    }
    if forall m: int :: Replay(Window(events, m)) == Replay(s) {
      assert Replay(Window(events, 0)) == Replay(s);
      assert Pinned(s, PINNED_KINDS) + Tail(s, 0) == Pinned(s, PINNED_KINDS) || s == [];
      PinnedMembers(s, PINNED_KINDS);
      OrderedFacts(Pinned(s, PINNED_KINDS));
      assert Heads(s) != [] ==> Heads(s)[0] in s;
      ReplayIsLatestSays(s);
      ReplayIsLatestSays(Heads(s));
    }
  }
}
