/** The authority charter: narrowing as an action that only shrinks, and the permit ladder it feeds. */
module Charter {
  import opened Ordering
  import opened CharterPaths
  import opened Actions

  // ---- entities -----------------------------------------------------------------------------

  datatype Tier = OsSandbox | Container | Advisory {
    /** Lower is stronger. */
    function Strength(): nat {
      match this case OsSandbox => 0 case Container => 1 case Advisory => 2
    }
  }

  datatype Egress = DenyAll | HttpsOnly

  datatype Caps = Caps(
    maxAttempts: int, maxConcurrentDispatches: int, maxWallSeconds: int, budgetMinorUnits: int,
    currency: string, spendEnforcement: string)

  /** `identity` stands for the fields that a narrowing copies and no rule reads; `zoned` says that the expiry has an
      offset, without which it cannot be compared with one that has. */
  datatype Charter = Charter(
    identity: seq<string>, status: string, tier: Tier, roots: seq<string>, protectedPrefixes: seq<string>,
    deniedReads: seq<string>, capabilities: set<string>, confirmRequired: set<string>, egress: Egress,
    runtimes: seq<(string, string, string)>, caps: Caps, expiresAt: int, zoned: bool,
    revokedAt: Option<int>, narrowingIds: seq<string>)
  {
    predicate IsActive(now: int) { status == "active" && revokedAt.None? && now < expiresAt }

    predicate AllowsCapability(capability: string) { capability in capabilities }

    predicate AllowsPath(path: string) { exists root :: root in roots && Under(path, root) }

    predicate IsProtectedWrite(path: string) {
      exists prefix :: prefix in protectedPrefixes && Under(path, prefix)
    }
  }

  /** A value that should be a list of strings. A single string is a list of one. */
  datatype Listed = Items(items: seq<string>) | NotIterable {
    function Names(): seq<string> { match this case Items(items) => items case NotIterable => [] }
  }

  /** A value that should be a number. What is no number at all is ignored, and an infinite one overflows. */
  datatype Limit = Ignored | To(limit: int) | Infinite {
    function Lower(current: int): int { match this case To(n) => Min(current, n) case _ => current }
  }

  datatype Expiry = Absent | Unreadable | At(instant: int, zoned: bool)

  /** A narrowing payload as its readers see it. */
  datatype Narrowing = Narrowing(
    removeRoots: Listed, removeCapabilities: Listed, addProtected: Listed, addDenied: Listed,
    maxAttempts: Limit, maxConcurrentDispatches: Limit, maxWallSeconds: Limit, budgetMinorUnits: Limit,
    tier: Option<Tier>, denyAllEgress: bool, expiry: Expiry)
  {
    predicate ListsRead() {
      removeRoots.Items? && removeCapabilities.Items? && addProtected.Items? && addDenied.Items?
    }

    predicate LimitsRead() {
      !maxAttempts.Infinite? && !maxConcurrentDispatches.Infinite? && !maxWallSeconds.Infinite?
      && !budgetMinorUnits.Infinite?
    }

    /** The expiry can be compared with that of a charter. */
    predicate Comparable(charterZoned: bool) {
      match expiry case Absent => true case Unreadable => false case At(_, zoned) => zoned == charterZoned
    }

    /** Applying it to such a charter raises. */
    predicate Raises(charterZoned: bool) { !ListsRead() || !LimitsRead() || !Comparable(charterZoned) }
  }

  // ---- narrowing ----------------------------------------------------------------------------

  /** A removal names a root by the spelling of either or by the normal form of either. */
  predicate NamesRoot(removal: string, root: string) {
    || (Strip(removal) != "" && Strip(removal) == Strip(root))
    || (NormRel(removal) != "" && NormRel(removal) == Strip(root))
    || (NormRel(root) != "" && ((Strip(removal) != "" && Strip(removal) == NormRel(root))
                                || NormRel(removal) == NormRel(root)))
  }

  predicate Removes(requested: seq<string>, root: string) {
    requested != [] && (NamesRoot(requested[0], root) || Removes(requested[1..], root))
  }

  lemma {:induction false} RemovesIff(requested: seq<string>, root: string)
    ensures Removes(requested, root) <==> exists r :: r in requested && NamesRoot(r, root)
  {
    if requested == [] {
    } else {
      RemovesIff(requested[1..], root);
      assert requested == [requested[0]] + requested[1..];
      assert forall r :: r in requested <==> r == requested[0] || r in requested[1..];
    }
  }

  function KeepRoots(roots: seq<string>, requested: seq<string>): seq<string> {
    if roots == [] then []
    else if Removes(requested, roots[0]) then KeepRoots(roots[1..], requested)
    else [roots[0]] + KeepRoots(roots[1..], requested)
  }

  function NarrowCaps(c: Caps, n: Narrowing): Caps {
    Caps(n.maxAttempts.Lower(c.maxAttempts), n.maxConcurrentDispatches.Lower(c.maxConcurrentDispatches),
         n.maxWallSeconds.Lower(c.maxWallSeconds), n.budgetMinorUnits.Lower(c.budgetMinorUnits),
         c.currency, c.spendEnforcement)
  }

  function NarrowTier(current: Tier, requested: Option<Tier>): Tier {
    match requested
    case None => current
    case Some(t) => if t.Strength() > current.Strength() then current else t
  }

  function AsSet(names: seq<string>): set<string> { set x | x in names }

  /** What a narrowing that does not raise makes of a charter. */
  function Shrink(c: Charter, n: Narrowing): Charter {
    c.(roots := KeepRoots(c.roots, n.removeRoots.Names()),
       capabilities := c.capabilities - AsSet(n.removeCapabilities.Names()),
       protectedPrefixes := SortDistinct(c.protectedPrefixes + n.addProtected.Names()),
       deniedReads := SortDistinct(c.deniedReads + n.addDenied.Names()),
       caps := NarrowCaps(c.caps, n),
       tier := NarrowTier(c.tier, n.tier),
       egress := if n.denyAllEgress then DenyAll else c.egress,
       expiresAt := match n.expiry case At(t, _) => Min(c.expiresAt, t) case _ => c.expiresAt)
  }

  function ShrinkAll(c: Charter, ns: seq<Narrowing>): Charter { FoldAll(Shrink, c, ns) }

  /** One narrowing: `None` when it raises. */
  function Narrow(c: Charter, n: Narrowing): Option<Charter> {
    if n.Raises(c.zoned) then None else Some(Shrink(c, n))
  }

  /** The fold of the narrowings, which ends at the first that raises. */
  function NarrowAll(c: Charter, ns: seq<Narrowing>): Option<Charter> { ApplyAll(Narrow, c, ns) }

  type NarrowingRow = StoredRow<Narrowing>

  /** What the reader returns: the fold of the payloads, with the rows recorded that went into it. */
  function Resolution(base: Charter, rows: seq<NarrowingRow>): Option<Charter> {
    match NarrowAll(base, Payloads(rows))
    case None => None
    case Some(c) => Some(c.(narrowingIds := Ids(rows)))
  }

  /** The reader of the stored narrowings: fold them in order and record which were applied; `None` when one raises. */
  method ResolveCharter(base: Charter, rows: seq<NarrowingRow>) returns (resolved: Option<Charter>)
    requires base.narrowingIds == []
    ensures resolved == Resolution(base, rows)
  {
    var c, applied := FoldRows(Narrow, base, rows);
    if c.Some? && applied != [] {
      return Some(c.value.(narrowingIds := applied));
    }
    resolved := c;
    FoldRaisesIff(base, Payloads(rows));
  }

  // ---- exactly when the fold raises ---------------------------------------------------------

  lemma ShrinkCopies(c: Charter, n: Narrowing)
    ensures Shrink(c, n).zoned == c.zoned && Shrink(c, n).narrowingIds == c.narrowingIds
  {
  }

  /** A fold raises exactly when some payload of it does, on a charter with the expiry that the fold began with: to
      have an offset or not is never changed on the way. A fold that does not raise is the plain composition. */
  lemma FoldRaisesIff(c: Charter, ns: seq<Narrowing>)
    ensures NarrowAll(c, ns).None? <==> exists n :: n in ns && n.Raises(c.zoned)
    ensures NarrowAll(c, ns).Some? ==> NarrowAll(c, ns).value == ShrinkAll(c, ns)
    ensures ShrinkAll(c, ns).zoned == c.zoned && ShrinkAll(c, ns).narrowingIds == c.narrowingIds
  {
    var raises := (n: Narrowing) => n.Raises(c.zoned);
    var copied := (d: Charter) => d.zoned == c.zoned && d.narrowingIds == c.narrowingIds;
    forall d, n ensures copied(d) ==> copied(Shrink(d, n)) { ShrinkCopies(d, n); }
    RefusedIff(Narrow, Shrink, raises, copied, c, ns);
    assert forall n :: n in ns ==> raises(n) == n.Raises(c.zoned);
  }

  /** A payload as the request model admits it: lists of strings, finite numbers, and a date or none. */
  predicate Validated(n: Narrowing) { n.ListsRead() && n.LimitsRead() && !n.expiry.Unreadable? }

  /** Of validated payloads, exactly an expiry that has an offset where the charter's has none, or the other way
      round, makes the fold raise. */
  lemma ValidatedFoldRaisesIff(c: Charter, ns: seq<Narrowing>)
    requires forall n :: n in ns ==> Validated(n)
    ensures NarrowAll(c, ns).None? <==> exists n :: n in ns && n.expiry.At? && n.expiry.zoned != c.zoned
  {
    FoldRaisesIff(c, ns);
  }

  function Expiring(at: int, zoned: bool): Narrowing {
    Narrowing(Items([]), Items([]), Items([]), Items([]), Ignored, Ignored, Ignored, Ignored, None, false,
              At(at, zoned))
  }

  /** A validated date without an offset, stored for a charter whose expiry has one: every fold that reads it raises,
      and with the offset none would. */
  lemma OffsetlessExpiryRaises(c: Charter, at: int, before: seq<Narrowing>, after: seq<Narrowing>)
    requires c.zoned
    ensures Validated(Expiring(at, false))
    ensures NarrowAll(c, before + [Expiring(at, false)] + after).None?
    ensures NarrowAll(c, [Expiring(at, true)]).Some?
  {
    var n := Expiring(at, false);
    var ns := before + [n] + after;
    assert ns[|before|] == n && n in ns;
    FoldRaisesIff(c, ns);
    FoldRaisesIff(c, [Expiring(at, true)]);
  }

  // ---- narrowing is an action that only shrinks ---------------------------------------------

  /** `d` grants nothing that `c` does not. */
  ghost predicate AtMost(d: Charter, c: Charter) {
    && (forall r :: r in d.roots ==> r in c.roots) && d.capabilities <= c.capabilities
    && (forall p :: p in c.protectedPrefixes ==> p in d.protectedPrefixes)
    && (forall p :: p in c.deniedReads ==> p in d.deniedReads)
    && d.caps.maxAttempts <= c.caps.maxAttempts
    && d.caps.maxConcurrentDispatches <= c.caps.maxConcurrentDispatches
    && d.caps.maxWallSeconds <= c.caps.maxWallSeconds && d.caps.budgetMinorUnits <= c.caps.budgetMinorUnits
    && d.tier.Strength() <= c.tier.Strength()
    && (c.egress.DenyAll? ==> d.egress.DenyAll?) && d.expiresAt <= c.expiresAt && d.zoned == c.zoned
    && d.status == c.status && d.revokedAt == c.revokedAt && d.identity == c.identity
    && d.confirmRequired == c.confirmRequired && d.runtimes == c.runtimes
  }

  lemma {:induction false} KeptRoots(roots: seq<string>, requested: seq<string>)
    ensures forall r :: r in KeepRoots(roots, requested) <==> r in roots && !Removes(requested, r)
  {
    if roots == [] {
    } else {
      KeptRoots(roots[1..], requested);
      assert roots == [roots[0]] + roots[1..];
    }
  }

  lemma ShrinkShrinks(c: Charter, n: Narrowing)
    ensures AtMost(Shrink(c, n), c)
  {
    KeptRoots(c.roots, n.removeRoots.Names());
    SortDistinctKeeps(c.protectedPrefixes + n.addProtected.Names());
    SortDistinctKeeps(c.deniedReads + n.addDenied.Names());
  }

  lemma {:induction false} ShrinkAllShrinks(c: Charter, ns: seq<Narrowing>)
    ensures AtMost(ShrinkAll(c, ns), c)
  {
    if ns == [] {
    } else {
      ShrinkAllShrinks(c, ns[..|ns| - 1]);
      ShrinkShrinks(ShrinkAll(c, ns[..|ns| - 1]), ns[|ns| - 1]);
    }
  }

  lemma NarrowShrinks(c: Charter, n: Narrowing)
    requires Narrow(c, n).Some?
    ensures AtMost(Narrow(c, n).value, c)
  {
    ShrinkShrinks(c, n);
  }

  /** Any sequence of narrowings that does not raise leaves at most what was there. */
  lemma NarrowingsOnlyShrink(c: Charter, ns: seq<Narrowing>)
    requires NarrowAll(c, ns).Some?
    ensures AtMost(NarrowAll(c, ns).value, c)
  {
    FoldRaisesIff(c, ns);
    ShrinkAllShrinks(c, ns);
  }

  /** What "at most" means to a caller: every answer moves the safe way. */
  lemma AtMostAnswers(d: Charter, c: Charter, path: string, capability: string, now: int)
    requires AtMost(d, c)
    ensures d.AllowsPath(path) ==> c.AllowsPath(path)
    ensures c.IsProtectedWrite(path) ==> d.IsProtectedWrite(path)
    ensures d.AllowsCapability(capability) ==> c.AllowsCapability(capability)
    ensures d.IsActive(now) ==> c.IsActive(now)
  {
  }

  // ---- order and repetition do not matter ---------------------------------------------------

  lemma {:induction false} KeepRootsCommutes(roots: seq<string>, a: seq<string>, b: seq<string>)
    ensures KeepRoots(KeepRoots(roots, a), b) == KeepRoots(KeepRoots(roots, b), a)
    ensures KeepRoots(KeepRoots(roots, a), a) == KeepRoots(roots, a)
  {
    if roots == [] {
    } else {
      KeepRootsCommutes(roots[1..], a, b);
      assert ([roots[0]] + KeepRoots(roots[1..], a))[1..] == KeepRoots(roots[1..], a);
      assert ([roots[0]] + KeepRoots(roots[1..], b))[1..] == KeepRoots(roots[1..], b);
    }
  }

  lemma AddedPrefixes(p: seq<string>, a: seq<string>, b: seq<string>)
    ensures SortDistinct(SortDistinct(p + a) + b) == SortDistinct(SortDistinct(p + b) + a)
    ensures SortDistinct(SortDistinct(p + a) + a) == SortDistinct(p + a)
  {
    SortDistinctKeeps(p + a);
    SortDistinctKeeps(p + b);
    SortDistinctCanonical(SortDistinct(p + a) + b, SortDistinct(p + b) + a);
    SortDistinctCanonical(SortDistinct(p + a) + a, p + a);
  }

  lemma ShrinkCommutes(c: Charter, a: Narrowing, b: Narrowing)
    ensures Shrink(Shrink(c, a), b) == Shrink(Shrink(c, b), a)
  {
    KeepRootsCommutes(c.roots, a.removeRoots.Names(), b.removeRoots.Names());
    AddedPrefixes(c.protectedPrefixes, a.addProtected.Names(), b.addProtected.Names());
    AddedPrefixes(c.deniedReads, a.addDenied.Names(), b.addDenied.Names());
    CapsCommute(c.caps, a, b);
    TiersCommute(c.tier, a.tier, b.tier);
    CapabilitiesCommute(c.capabilities, AsSet(a.removeCapabilities.Names()),
                        AsSet(b.removeCapabilities.Names()));
  }

  lemma CapsCommute(c: Caps, a: Narrowing, b: Narrowing)
    ensures NarrowCaps(NarrowCaps(c, a), b) == NarrowCaps(NarrowCaps(c, b), a)
  {
  }

  lemma TiersCommute(current: Tier, a: Option<Tier>, b: Option<Tier>)
    ensures NarrowTier(NarrowTier(current, a), b) == NarrowTier(NarrowTier(current, b), a)
  {
  }

  lemma CapabilitiesCommute(c: set<string>, a: set<string>, b: set<string>)
    ensures c - a - b == c - b - a
  {
  }

  lemma ShrinkIsIdempotent(c: Charter, a: Narrowing)
    ensures Shrink(Shrink(c, a), a) == Shrink(c, a)
  {
    KeepRootsCommutes(c.roots, a.removeRoots.Names(), a.removeRoots.Names());
    AddedPrefixes(c.protectedPrefixes, a.addProtected.Names(), a.addProtected.Names());
    AddedPrefixes(c.deniedReads, a.addDenied.Names(), a.addDenied.Names());
  }

  /** Two narrowings in either order give one charter, or raise in both. */
  lemma NarrowCommutes(c: Charter, a: Narrowing, b: Narrowing)
    ensures NarrowAll(c, [a, b]) == NarrowAll(c, [b, a])
  {
    NarrowingsAreASet(c, [a, b], [b, a]);
  }

  lemma NarrowIsIdempotent(c: Charter, a: Narrowing)
    ensures NarrowAll(c, [a, a]) == Narrow(c, a)
  {
    NarrowingsAreASet(c, [a, a], [a]);
    assert [a][..0] == [] && NarrowAll(c, []) == Some(c);
  }

  /** What is resolved, and whether it can be, depends on which narrowings were stored, not on their order or
      repetition. */
  lemma NarrowingsAreASet(c: Charter, ns: seq<Narrowing>, ms: seq<Narrowing>)
    requires forall n :: n in ns <==> n in ms
    ensures NarrowAll(c, ns) == NarrowAll(c, ms)
  {
    FoldRaisesIff(c, ns);
    FoldRaisesIff(c, ms);
    forall d, a, b ensures Shrink(Shrink(d, a), b) == Shrink(Shrink(d, b), a) { ShrinkCommutes(d, a, b); }
    forall d, a ensures Shrink(Shrink(d, a), a) == Shrink(d, a) { ShrinkIsIdempotent(d, a); }
    FoldIsOfASet(Shrink, c, ns, ms);
  }

  // ---- a removal that silently removes nothing ----------------------------------------------

  /** Two spellings that grant the same paths. */
  predicate SameRoot(a: string, b: string) {
    NormRel(a) == NormRel(b) && (NormRel(a) != "" || (RootToken(a) && RootToken(b)))
  }

  lemma SameRootGrantsTheSame(a: string, b: string, path: string)
    requires SameRoot(a, b)
    ensures Under(path, a) <==> Under(path, b)
  {
  }

  lemma RootTokensNormaliseToNothing(a: string)
    requires RootToken(a)
    ensures NormRel(a) == ""
  {
    assert Split("") == [""] && Clean([""]) == Some([]) by { assert [""][1..] == []; }
    assert ["", ""][1..] == [""] && "." + "" == ".";
    if Strip(a) == "." {
      assert ForwardSlashes(".") == "." && "." + "" == ".";
      SplitOfPlain(".", "");
      assert Split(".") == ["."];
      assert ["."][1..] == [];
    } else if Strip(a) == "./" {
      assert ForwardSlashes("./") == "./" && "." + "/" == "./" && "/"[1..] == "";
      SplitOfPlain(".", "/");
      assert Split("/") == ["", ""];
      assert Split("./") == [".", ""] && [".", ""][1..] == [""];
    } else {
      assert ForwardSlashes("") == "";
    }
  }

  /** What survives a list of removals although it names the whole tree. */
  predicate RootSurvives(root: string, requested: seq<string>) {
    RootToken(root) && forall r :: r in requested ==> Strip(r) == "" || Strip(r) != Strip(root)
  }

  lemma RootTokensAreMissed(root: string, requested: seq<string>)
    requires RootToken(root)
    ensures Removes(requested, root) <==> !RootSurvives(root, requested)
  {
    RootTokensNormaliseToNothing(root);
    forall r ensures NamesRoot(r, root) <==> Strip(r) != "" && Strip(r) == Strip(root) { NormRelIsNoRootToken(r); }
    RemovesIff(requested, root);
  }

  /** A removal leaves an equivalent root behind exactly when both name the whole tree and no removal spells the
      one left behind. */
  lemma RemovalMissesIff(c: Charter, n: Narrowing, requested: string)
    requires Narrow(c, n).Some? && requested in n.removeRoots.items
    ensures (exists root :: root in Narrow(c, n).value.roots && SameRoot(root, requested)) <==>
            RootToken(requested) && exists root :: root in c.roots && RootSurvives(root, n.removeRoots.items)
  {
    var requests := n.removeRoots.items;
    var kept := Narrow(c, n).value.roots;
    KeptRoots(c.roots, requests);
    if RootToken(requested) {
      RootTokensNormaliseToNothing(requested);
      forall root ensures root in kept && SameRoot(root, requested) <==> root in c.roots && RootSurvives(root, requests)
      {
        if RootToken(root) {
          RootTokensNormaliseToNothing(root);
          RootTokensAreMissed(root, requests);
        }
      }
    } else {
      forall root | SameRoot(root, requested) ensures root !in kept {
        RemovesIff(requests, root);
        assert NamesRoot(requested, root);
      }
    }
  }

  /** Removing the tree by its other spelling takes nothing away. */
  lemma RemovalOfTheTreeMisses(c: Charter, n: Narrowing)
    requires c.roots == ["."] && n.removeRoots == Items(["./"]) && Narrow(c, n).Some?
    ensures SameRoot(".", "./") && Narrow(c, n).value.roots == ["."]
  {
    assert Strip(".") == "." && Strip("./") == "./";
    RootTokensNormaliseToNothing(".");
    RootTokensNormaliseToNothing("./");
    RootTokensAreMissed(".", n.removeRoots.items);
    assert ["."][1..] == [] && KeepRoots([], n.removeRoots.items) == [];
  }

  // ---- permits ------------------------------------------------------------------------------

  datatype Decision = Allow | ConfirmRequired | Blocked {
    function Strictness(): nat {
      match this case Allow => 0 case ConfirmRequired => 1 case Blocked => 2
    }
  }

  datatype Profile = HumanSafe | HumanConsultative | HumanAggressive | OtherProfile

  datatype Risk = Low | Medium | High | Critical

  datatype Request = Request(
    profile: Profile, risk: Risk, changeSize: int, advisorRole: bool, actionKind: string, paths: seq<string>)

  function CapabilityFor(kind: string): string {
    if kind == "takeover_step" || kind == "execute" then "process.execute"
    else if kind == "edit" || kind == "write" || kind == "delete" then "filesystem.write"
    else if kind == "commit" then "git.write"
    else if kind == "read" || kind == "review" then "filesystem.read"
    else "process.execute"
  }

  predicate Mutating(kind: string) {
    kind == "takeover_step" || kind == "execute" || kind == "edit" || kind == "write" || kind == "delete"
    || kind == "commit"
  }

  function BaseLadder(r: Request, sensitiveHit: bool): Decision {
    if r.advisorRole then Blocked
    else if r.risk.Critical? then Blocked
    else if sensitiveHit then ConfirmRequired
    else if r.risk.High? then ConfirmRequired
    else if r.risk.Medium? then
      if r.profile.HumanAggressive? then Allow
      else if r.profile.HumanConsultative? && r.changeSize <= 20 then Allow
      else ConfirmRequired
    else if r.profile.HumanSafe? && r.changeSize > 30 then ConfirmRequired
    else Allow
  }

  predicate OutOfScope(c: Charter, path: string) { c.IsProtectedWrite(path) || !c.AllowsPath(path) }

  /** The charter's own clause: blocked for want of a capability, or for a mutation off its ground. */
  predicate ScopeBlocked(c: Charter, r: Request) {
    if !c.AllowsCapability(CapabilityFor(r.actionKind)) then true
    else Mutating(r.actionKind) && exists p :: p in r.paths && OutOfScope(c, p)
  }

  predicate SensitiveHit(c: Charter, paths: seq<string>) { exists p :: p in paths && OutOfScope(c, p) }

  function Permit(r: Request, sensitiveHit: bool, charter: Option<Charter>): Decision {
    match charter
    case None => BaseLadder(r, sensitiveHit)
    case Some(c) =>
      if ScopeBlocked(c, r) then Blocked
      else if CapabilityFor(r.actionKind) in c.confirmRequired then
        var base := BaseLadder(r, sensitiveHit);
        if base != Allow then base else ConfirmRequired
      else BaseLadder(r, sensitiveHit)
  }

  /** With the sensitivity answer held fixed, a charter only ever makes the answer stricter. */
  lemma CharterNeverLoosens(r: Request, sensitiveHit: bool, c: Charter)
    ensures Permit(r, sensitiveHit, Some(c)).Strictness() >= Permit(r, sensitiveHit, None).Strictness()
  {
  }

  lemma AtMostNeverLoosens(r: Request, d: Charter, c: Charter, hit: bool, laterHit: bool)
    requires AtMost(d, c) && (hit ==> laterHit)
    ensures SensitiveHit(c, r.paths) ==> SensitiveHit(d, r.paths)
    ensures Permit(r, laterHit, Some(d)).Strictness() >= Permit(r, hit, Some(c)).Strictness()
  {
    forall p ensures OutOfScope(c, p) ==> OutOfScope(d, p) { AtMostAnswers(d, c, p, "", 0); }
    AtMostAnswers(d, c, "", CapabilityFor(r.actionKind), 0);
  }

  /** Every further sequence of narrowings that does not raise keeps the answer at least as strict, with the
      sensitivity answer held fixed and with it recomputed from the narrowed charter. */
  lemma PermitsNeverLoosen(r: Request, c: Charter, ns: seq<Narrowing>, hit: bool)
    requires NarrowAll(c, ns).Some?
    ensures var d := NarrowAll(c, ns).value;
            && Permit(r, hit, Some(d)).Strictness() >= Permit(r, hit, Some(c)).Strictness()
            && Permit(r, hit, Some(d)).Strictness() >= Permit(r, hit, None).Strictness()
            && Permit(r, SensitiveHit(d, r.paths), Some(d)).Strictness()
               >= Permit(r, SensitiveHit(c, r.paths), Some(c)).Strictness()
  {
    var d := NarrowAll(c, ns).value;
    NarrowingsOnlyShrink(c, ns);
    AtMostNeverLoosens(r, d, c, hit, hit);
    AtMostNeverLoosens(r, d, c, SensitiveHit(c, r.paths), SensitiveHit(d, r.paths));
    CharterNeverLoosens(r, hit, c);
  }
}
