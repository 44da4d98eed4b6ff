/** The stored narrowings of a charter, each for as long as it lasts, and what is resolved from them over time. */
module CharterStore {
  import opened Ordering
  import opened Actions
  import opened Authority = Charter

  /** A narrowing as it is stored: a row that lapses is no longer read from that instant on. */
  datatype Kept = Kept(row: NarrowingRow, lapsesAt: Option<int>) {
    predicate LiveAt(now: int) { lapsesAt.Some? ==> lapsesAt.value > now }
  }

  datatype Loaded = NoCharter | Raised | Found(charter: Charter)

  function Live(now: int): Kept -> bool { (k: Kept) => k.LiveAt(now) }

  function Rows(kept: seq<Kept>): (rows: seq<NarrowingRow>)
    ensures |rows| == |kept| && forall i :: 0 <= i < |rows| ==> rows[i] == kept[i].row
  {
    seq(|kept|, i requires 0 <= i < |kept| => kept[i].row)
  }

  function LivePayloads(kept: seq<Kept>, now: int): seq<Narrowing> { Payloads(Rows(Select(kept, Live(now)))) }

  /** The one resolver: no charter unless the stored one is active, and then the fold of the live narrowings. */
  function LoadActive(base: Charter, kept: seq<Kept>, now: int): Loaded {
    if !base.IsActive(now) then NoCharter
    else
      match Resolution(base, Rows(Select(kept, Live(now))))
      case None => Raised
      case Some(c) => Found(c)
  }

  lemma PayloadIsOfLive(kept: seq<Kept>, now: int, n: Narrowing)
    ensures n in LivePayloads(kept, now) <==> exists k :: k in kept && k.LiveAt(now) && k.row.payload == n
  {
    var live := Select(kept, Live(now));
    SelectMembers(kept, Live(now));
    if n in LivePayloads(kept, now) {
      var i :| 0 <= i < |live| && LivePayloads(kept, now)[i] == n;
      assert live[i] in live;
    }
    if k :| k in kept && k.LiveAt(now) && k.row.payload == n {
      assert k in live;
      var i :| 0 <= i < |live| && live[i] == k;
      assert LivePayloads(kept, now)[i] == n;
    }
  }

  lemma FoundIsShrunk(base: Charter, kept: seq<Kept>, now: int)
    requires LoadActive(base, kept, now).Found?
    ensures LoadActive(base, kept, now).charter.(narrowingIds := []) ==
            ShrinkAll(base, LivePayloads(kept, now)).(narrowingIds := [])
  {
    FoldRaisesIff(base, LivePayloads(kept, now));
  }

  /** Loading raises exactly while some live narrowing raises on the stored charter. */
  lemma LoadRaisesIff(base: Charter, kept: seq<Kept>, now: int)
    ensures LoadActive(base, kept, now).Raised? <==>
            base.IsActive(now) && exists k :: k in kept && k.LiveAt(now) && k.row.payload.Raises(base.zoned)
  {
    FoldRaisesIff(base, LivePayloads(kept, now));
    forall n ensures n in LivePayloads(kept, now) <==> exists k :: k in kept && k.LiveAt(now) && k.row.payload == n {
      PayloadIsOfLive(kept, now, n);
    }
    if k :| k in kept && k.LiveAt(now) && k.row.payload.Raises(base.zoned) {
      assert k.row.payload in LivePayloads(kept, now);
    }
  }

  // ---- what narrowings add to what is left --------------------------------------------------

  lemma AtMostIsTransitive(a: Charter, b: Charter, c: Charter)
    requires AtMost(a, b) && AtMost(b, c)
    ensures AtMost(a, c)
  {
  }

  predicate Spares(limit: Limit, current: int) { limit.To? ==> current <= limit.limit }

  /** A narrowing that takes nothing from a charter, by its parts. */
  predicate Redundant(c: Charter, n: Narrowing) {
    && (forall root :: root in c.roots ==> !Removes(n.removeRoots.Names(), root))
    && (forall x :: x in n.removeCapabilities.Names() ==> x !in c.capabilities)
    && (forall p :: p in n.addProtected.Names() ==> p in c.protectedPrefixes)
    && (forall p :: p in n.addDenied.Names() ==> p in c.deniedReads)
    && Spares(n.maxAttempts, c.caps.maxAttempts)
    && Spares(n.maxConcurrentDispatches, c.caps.maxConcurrentDispatches)
    && Spares(n.maxWallSeconds, c.caps.maxWallSeconds) && Spares(n.budgetMinorUnits, c.caps.budgetMinorUnits)
    && (n.tier.Some? ==> c.tier.Strength() <= n.tier.value.Strength())
    && (n.denyAllEgress ==> c.egress.DenyAll?)
    && (n.expiry.At? ==> c.expiresAt <= n.expiry.instant)
  }

  lemma RedundantIff(c: Charter, n: Narrowing)
    ensures AtMost(c, Shrink(c, n)) <==> Redundant(c, n)
  {
    KeptRoots(c.roots, n.removeRoots.Names());
    SortDistinctKeeps(c.protectedPrefixes + n.addProtected.Names());
    SortDistinctKeeps(c.deniedReads + n.addDenied.Names());
  }

  lemma RedundantAlike(c: Charter, d: Charter, n: Narrowing)
    requires AtMost(c, d) && AtMost(d, c) && Redundant(c, n)
    ensures Redundant(d, n)
  {
  }

  lemma ShrinkLaws()
    ensures Commute(Shrink) && Idempotent(Shrink)
  {
    forall d, a, b ensures Shrink(Shrink(d, a), b) == Shrink(Shrink(d, b), a) { ShrinkCommutes(d, a, b); }
    forall d, a ensures Shrink(Shrink(d, a), a) == Shrink(d, a) { ShrinkIsIdempotent(d, a); }
  }

  lemma {:induction false} AllRedundant(c: Charter, ns: seq<Narrowing>)
    requires forall n :: n in ns ==> Redundant(c, n)
    ensures AtMost(c, ShrinkAll(c, ns))
  {
    if ns == [] {
    } else {
      var front, last := ns[..|ns| - 1], ns[|ns| - 1];
      AllRedundant(c, front);
      ShrinkAllShrinks(c, front);
      RedundantAlike(c, ShrinkAll(c, front), last);
      RedundantIff(ShrinkAll(c, front), last);
      AtMostIsTransitive(c, ShrinkAll(c, front), ShrinkAll(c, ns));
    }
  }

  lemma NoneTakes(c: Charter, ns: seq<Narrowing>, n: Narrowing)
    requires n in ns && AtMost(c, ShrinkAll(c, ns))
    ensures Redundant(c, n)
  {
    ShrinkLaws();
    FoldPassesThrough(Shrink, c, ns, n);
    FoldSwallows(Shrink, c, ns, n);
    ShrinkAllShrinks(Shrink(c, n), ns);
    AtMostIsTransitive(c, ShrinkAll(c, ns), Shrink(c, n));
    RedundantIff(c, n);
  }

  /** With fewer narrowings left, the rest comes on top of what they leave. */
  lemma MoreOnTop(base: Charter, all: seq<Narrowing>, left: seq<Narrowing>)
    requires forall n :: n in left ==> n in all
    ensures ShrinkAll(base, all) == ShrinkAll(ShrinkAll(base, left), all)
    ensures forall n :: n in left ==> Redundant(ShrinkAll(base, left), n)
  {
    ShrinkLaws();
    FoldsCommute(Shrink, base, left, all);
    FoldAgain(Shrink, base, all, left);
    forall n | n in left ensures Redundant(ShrinkAll(base, left), n) {
      FoldSwallows(Shrink, base, left, n);
      RedundantIff(ShrinkAll(base, left), n);
    }
  }

  // ---- over time ----------------------------------------------------------------------------

  /** In force at the earlier instant, and lapsed by the later. */
  predicate Lapses(k: Kept, earlier: int, later: int) { k.LiveAt(earlier) && !k.LiveAt(later) }

  lemma LiveShrinks(kept: seq<Kept>, earlier: int, later: int)
    requires earlier <= later
    ensures forall n :: n in LivePayloads(kept, later) ==> n in LivePayloads(kept, earlier)
  {
    forall n | n in LivePayloads(kept, later) ensures n in LivePayloads(kept, earlier) {
      PayloadIsOfLive(kept, later, n);
      PayloadIsOfLive(kept, earlier, n);
    }
  }

  /** Time alone never takes authority away while the stored charter lasts: it only gives back. */
  lemma LaterIsNoLess(base: Charter, kept: seq<Kept>, earlier: int, later: int)
    requires earlier <= later && LoadActive(base, kept, earlier).Found? && LoadActive(base, kept, later).Found?
    ensures AtMost(LoadActive(base, kept, earlier).charter, LoadActive(base, kept, later).charter)
  {
    var all, left := LivePayloads(kept, earlier), LivePayloads(kept, later);
    LiveShrinks(kept, earlier, later);
    FoundIsShrunk(base, kept, earlier);
    FoundIsShrunk(base, kept, later);
    MoreOnTop(base, all, left);
    ShrinkAllShrinks(ShrinkAll(base, left), all);
  }

  /** Resolution is monotone between two instants exactly when whatever lapsed in between is redundant beside what
      did not. */
  lemma MonotoneIff(base: Charter, kept: seq<Kept>, earlier: int, later: int)
    requires earlier <= later && LoadActive(base, kept, earlier).Found? && LoadActive(base, kept, later).Found?
    ensures var after := LoadActive(base, kept, later).charter;
            AtMost(after, LoadActive(base, kept, earlier).charter) <==>
            forall k :: k in kept && Lapses(k, earlier, later) ==> Redundant(after, k.row.payload)
  {
    var all, left := LivePayloads(kept, earlier), LivePayloads(kept, later);
    var after, shrunk := LoadActive(base, kept, later).charter, ShrinkAll(base, left);
    LiveShrinks(kept, earlier, later);
    FoundIsShrunk(base, kept, earlier);
    FoundIsShrunk(base, kept, later);
    MoreOnTop(base, all, left);
    IdsDoNotMatter(after, shrunk, ShrinkAll(base, all), LoadActive(base, kept, earlier).charter);
    LapsedIff(kept, earlier, later, shrunk);
    if AtMost(shrunk, ShrinkAll(base, all)) {
      forall n | n in all ensures Redundant(shrunk, n) { NoneTakes(shrunk, all, n); }
    }
    if forall n :: n in all ==> Redundant(shrunk, n) { AllRedundant(shrunk, all); }
  }

  lemma IdsDoNotMatter(c: Charter, d: Charter, e: Charter, f: Charter)
    requires c.(narrowingIds := []) == d.(narrowingIds := []) && e.(narrowingIds := []) == f.(narrowingIds := [])
    ensures AtMost(c, f) <==> AtMost(d, e)
    ensures forall n :: Redundant(c, n) <==> Redundant(d, n)
  {
    assert c.roots == d.roots && c.capabilities == d.capabilities && c.protectedPrefixes == d.protectedPrefixes;
    assert c.deniedReads == d.deniedReads && c.caps == d.caps && c.tier == d.tier && c.egress == d.egress;
  }

  /** Where what is left is redundant, all of it is iff what lapsed is. */
  lemma LapsedIff(kept: seq<Kept>, earlier: int, later: int, c: Charter)
    requires forall n :: n in LivePayloads(kept, later) ==> Redundant(c, n)
    ensures (forall n :: n in LivePayloads(kept, earlier) ==> Redundant(c, n)) <==>
            forall k :: k in kept && Lapses(k, earlier, later) ==> Redundant(c, k.row.payload)
  {
    forall k | k in kept && k.LiveAt(earlier) ensures k.row.payload in LivePayloads(kept, earlier) {
      PayloadIsOfLive(kept, earlier, k.row.payload);
    }
    forall n ensures n in LivePayloads(kept, earlier) ==>
                       n in LivePayloads(kept, later)
                       || exists k :: k in kept && Lapses(k, earlier, later) && k.row.payload == n
    {
      PayloadIsOfLive(kept, earlier, n);
      PayloadIsOfLive(kept, later, n);
    }
  }

  /** The store that writes the date of a narrowing both into its payload and onto its row. */
  predicate DatedTwice(k: Kept) {
    match k.row.payload.expiry
    case Absent => k.lapsesAt == None
    case Unreadable => false
    case At(t, _) => k.lapsesAt == Some(t)
  }

  /** There, as long as the charter that comes out is active, resolution is monotone exactly when nothing lapses: the
      lifetime that a narrowing imposes goes when the narrowing does. */
  lemma DatedTwiceIsMonotoneIff(base: Charter, kept: seq<Kept>, earlier: int, later: int)
    requires forall k :: k in kept ==> DatedTwice(k)
    requires earlier <= later && LoadActive(base, kept, earlier).Found? && LoadActive(base, kept, later).Found?
    requires LoadActive(base, kept, later).charter.IsActive(later)
    ensures AtMost(LoadActive(base, kept, later).charter, LoadActive(base, kept, earlier).charter) <==>
            !exists k :: k in kept && Lapses(k, earlier, later)
  {
    MonotoneIff(base, kept, earlier, later);
  }

  /** A charter until 100 and a narrowing until 50 that takes a capability and imposes its own date: active without
      the capability at 49, with a lifetime of 50, and active with it, and its old lifetime, from 50 on. */
  lemma AuthorityComesBack(base: Charter, id: string, capability: string)
    requires base.IsActive(49) && base.expiresAt == 100 && base.zoned && capability in base.capabilities
    ensures var kept := [Kept(StoredRow(id, Expiring(50, true).(removeCapabilities := Items([capability]))), Some(50))];
            && DatedTwice(kept[0])
            && (var before := LoadActive(base, kept, 49);
                before.Found? && before.charter.expiresAt == 50 && !before.charter.AllowsCapability(capability))
            && (var after := LoadActive(base, kept, 50);
                after.Found? && after.charter.IsActive(50) && after.charter.AllowsCapability(capability))
  {
    var n := Expiring(50, true).(removeCapabilities := Items([capability]));
    var k := Kept(StoredRow(id, n), Some(50));
    WhileItLasts(base, k, 49);
    OnceItLapsed(base, k, 50);
  }

  lemma WhileItLasts(base: Charter, k: Kept, now: int)
    requires base.IsActive(now) && k.LiveAt(now) && !k.row.payload.Raises(base.zoned)
    ensures LoadActive(base, [k], now) == Found(Shrink(base, k.row.payload).(narrowingIds := [k.row.id]))
  {
    SelectOfOne(k, Live(now));
    var rows := Rows([k]);
    assert Payloads(rows) == [k.row.payload] && Ids(rows) == [k.row.id];
    FoldRaisesIff(base, [k.row.payload]);
    FoldOfOne(Shrink, base, k.row.payload);
  }

  lemma OnceItLapsed(base: Charter, k: Kept, now: int)
    requires base.IsActive(now) && !k.LiveAt(now)
    ensures LoadActive(base, [k], now) == Found(base.(narrowingIds := []))
  {
    SelectOfOne(k, Live(now));
    var rows := Rows([]);
    assert Payloads(rows) == [] && Ids(rows) == [];
  }
}
