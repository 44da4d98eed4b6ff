/** At-least-once delivery of captures: a bounded spool, a gap log and a de-duplicating server, as one state and
    the steps that can change it. */
module CaptureProtocol {
  import opened Ordering

  type Key = string

  const MAX_FAILED_ATTEMPTS := 3

  datatype EntryState = Spooled | Delivered | Failed | DroppedFull

  datatype Entry = Entry(
    key: Key, contentSha256: string, createdAt: int, attempts: int, lastError: Option<string>, state: EntryState)

  /** A file of the spool directory: an entry, or bytes that do not parse to the entry their name promises. */
  datatype File = Readable(entry: Entry) | Garbled(mtime: int, bytes: nat)

  datatype GapReason = EvictedFull | Corrupt

  datatype Gap = Gap(key: Key, reason: GapReason)

  /** `written` is history: every key that was ever spooled. `held` is the server's accepted log. */
  datatype World = World(
    files: map<Key, File>, quarantined: set<Key>, gaps: seq<Gap>, held: seq<Key>, written: set<Key>)

  type Sizes = Entry -> nat

  function SizeOf(f: File, sizes: Sizes): nat {
    match f case Readable(e) => sizes(e) case Garbled(_, bytes) => bytes
  }

  // ---- delivery -----------------------------------------------------------------------------

  /** What happens to a request. `refusal` is the status of a server that declines to store the capture. */
  datatype Fate =
    | NeverArrives
    | ReplyLost(refusal: Option<int>)
    | Replies(refusal: Option<int>, accepted: int)

  predicate Success(status: int) { 200 <= status < 300 }

  /** An honest server: success and "duplicate" are said only of a capture it holds. */
  predicate Honest(fate: Fate) {
    match fate
    case NeverArrives => true
    case ReplyLost(refusal) => refusal.Some? ==> !Success(refusal.value) && refusal.value != 409
    case Replies(refusal, accepted) =>
      (refusal.Some? ==> !Success(refusal.value) && refusal.value != 409) && Success(accepted)
  }

  function HeldAfter(held: seq<Key>, key: Key, fate: Fate): seq<Key> {
    if fate.NeverArrives? || fate.refusal.Some? || key in held then held else held + [key]
  }

  /** The status that reaches the hook, if any does. */
  function StatusSeen(held: seq<Key>, key: Key, fate: Fate): Option<int> {
    match fate
    case NeverArrives => None
    case ReplyLost(_) => None
    case Replies(refusal, accepted) =>
      if refusal.Some? then refusal else if key in held then Some(409) else Some(accepted)
  }

  function ClassifyHttp(status: Option<int>): EntryState {
    match status
    case None => Spooled
    case Some(s) =>
      if Success(s) || s == 409 then Delivered
      else if s == 401 || s == 403 || s == 422 then Failed
      else Spooled
  }

  predicate Retryable(e: Entry) { e.state.Failed? ==> e.attempts < MAX_FAILED_ATTEMPTS }

  function Updated(e: Entry, outcome: EntryState, error: Option<string>): Entry {
    e.(attempts := e.attempts + 1, state := outcome, lastError := if outcome.Delivered? then None else error)
  }

  // ---- age ----------------------------------------------------------------------------------

  function Age(files: map<Key, File>, k: Key): int {
    if k !in files then 0
    else match files[k] case Readable(e) => e.createdAt case Garbled(mtime, _) => mtime
  }

  predicate OlderThan(files: map<Key, File>, a: Key, b: Key) {
    if Age(files, a) != Age(files, b) then Age(files, a) < Age(files, b) else TextLess(a, b)
  }

  function ByAge(files: map<Key, File>): (Key, Key) -> bool { (a, b) => OlderThan(files, a, b) }

  lemma ByAgeIsStrictTotal(files: map<Key, File>)
    ensures StrictWeak(ByAge(files))
    ensures forall a, b :: !ByAge(files)(a, b) && !ByAge(files)(b, a) ==> a == b
  {
    TextLessIsStrictTotal();
  }

  ghost function Listing(keys: set<Key>): seq<Key> {
    if keys == {} then []
    else
      var k :| k in keys;
      [k] + Listing(keys - {k})
  }

  lemma {:induction false} ListingIsExact(keys: set<Key>)
    ensures multiset(Listing(keys)) == multiset(keys)
  {
    if keys == {} {
    } else {
      var l := Listing(keys);
      var k := l[0];
      assert l == [k] + Listing(keys - {k});
      ListingIsExact(keys - {k});
    }
  }

  /** The files of the spool, oldest first by creation time, then key. */
  ghost function OldestFirst(files: map<Key, File>): seq<Key> { Sort(Listing(files.Keys), ByAge(files)) }

  /** However the directory was listed, sorting the listing gives the same sequence. */
  lemma AnyListingSorts(listing: seq<Key>, files: map<Key, File>)
    requires multiset(listing) == multiset(files.Keys)
    ensures Sort(listing, ByAge(files)) == OldestFirst(files)
  {
    ByAgeIsStrictTotal(files);
    ListingIsExact(files.Keys);
    SortCanonical(listing, Listing(files.Keys), ByAge(files));
  }

  lemma OldestFirstFacts(files: map<Key, File>)
    ensures forall k :: k in OldestFirst(files) <==> k in files
    ensures StrictlySorted(OldestFirst(files), ByAge(files))
    ensures |OldestFirst(files)| == |files|
  {
    var order := OldestFirst(files);
    ByAgeIsStrictTotal(files);
    ListingIsExact(files.Keys);
    SortIsSortedPermutation(Listing(files.Keys), ByAge(files));
    assert multiset(order) == multiset(files.Keys);
    assert |order| == |multiset(order)| == |files.Keys|;
    forall k ensures k in order <==> k in files {
      assert k in order <==> k in multiset(order);
    }
    forall i, j | 0 <= i < j < |order| ensures ByAge(files)(order[i], order[j]) {
      if order[i] == order[j] {
        TwiceCounts(order, i, j);
      }
    }
  }

  // ---- the cap ------------------------------------------------------------------------------

  function TotalSize(keys: seq<Key>, files: map<Key, File>, sizes: Sizes): nat {
    if keys == [] then 0
    else (if keys[0] in files then SizeOf(files[keys[0]], sizes) else 0) + TotalSize(keys[1..], files, sizes)
  }

  ghost predicate UnderCaps(keys: seq<Key>, files: map<Key, File>, sizes: Sizes, maxFiles: int, maxBytes: int) {
    |keys| <= maxFiles && TotalSize(keys, files, sizes) <= maxBytes
  }

  /** How many of the oldest have to go. */
  ghost function Evictions(order: seq<Key>, files: map<Key, File>, sizes: Sizes, maxFiles: int, maxBytes: int): (n: nat)
    ensures n <= |order|
  {
    if order == [] || UnderCaps(order, files, sizes, maxFiles, maxBytes) then 0
    else 1 + Evictions(order[1..], files, sizes, maxFiles, maxBytes)
  }

  /** The eviction is the shortest oldest-first prefix that brings the rest under both caps. */
  lemma {:induction false} EvictionIsShortest(order: seq<Key>, files: map<Key, File>, sizes: Sizes, maxFiles: int,
                                              maxBytes: int)
    ensures var n := Evictions(order, files, sizes, maxFiles, maxBytes);
            && (forall m :: 0 <= m < n ==> !UnderCaps(order[m..], files, sizes, maxFiles, maxBytes))
            && (maxFiles >= 0 && maxBytes >= 0 ==> UnderCaps(order[n..], files, sizes, maxFiles, maxBytes))
            && (n < |order| ==> UnderCaps(order[n..], files, sizes, maxFiles, maxBytes))
  {
    assert order[0..] == order;
    if order == [] || UnderCaps(order, files, sizes, maxFiles, maxBytes) {
    } else {
      var n := Evictions(order[1..], files, sizes, maxFiles, maxBytes);
      EvictionIsShortest(order[1..], files, sizes, maxFiles, maxBytes);
      assert order[1..][n..] == order[n + 1..];
      forall m | 0 <= m < n + 1 ensures !UnderCaps(order[m..], files, sizes, maxFiles, maxBytes) {
        if m > 0 { assert order[m..] == order[1..][m - 1..]; }
      }
    }
  }

  lemma EvictOne(order: seq<Key>, i: nat, files: map<Key, File>, sizes: Sizes, maxFiles: int, maxBytes: int)
    requires i < |order| && order[i] in files
    ensures TotalSize(order[i..], files, sizes)
            == SizeOf(files[order[i]], sizes) + TotalSize(order[i + 1..], files, sizes)
    ensures !UnderCaps(order[i..], files, sizes, maxFiles, maxBytes) ==>
              Evictions(order[i..], files, sizes, maxFiles, maxBytes)
              == 1 + Evictions(order[i + 1..], files, sizes, maxFiles, maxBytes)
  {
    assert order[i..][1..] == order[i + 1..];
  }

  function GapsFor(keys: seq<Key>, reason: GapReason): (g: seq<Gap>)
    ensures |g| == |keys| && forall i :: 0 <= i < |g| ==> g[i] == Gap(keys[i], reason)
  {
    seq(|keys|, i requires 0 <= i < |keys| => Gap(keys[i], reason))
  }

  function ToSet(keys: seq<Key>): set<Key> { set k | k in keys }

  lemma {:induction false} DistinctCount(keys: seq<Key>)
    ensures |ToSet(keys)| <= |keys|
  {
    if keys == [] {
      assert ToSet(keys) == {};
    } else {
      DistinctCount(keys[1..]);
      assert keys == [keys[0]] + keys[1..];
      assert ToSet(keys) == {keys[0]} + ToSet(keys[1..]);
    }
  }

  lemma {:induction false} SubsetCount(a: set<Key>, b: set<Key>)
    requires a <= b
    ensures |a| <= |b|
  {
    if a == {} {
    } else {
      var k :| k in a;
      SubsetCount(a - {k}, b - {k});
    }
  }

  // ---- steps --------------------------------------------------------------------------------

  datatype Step =
    | Write(entry: Entry)
    | Deliver(target: Entry, fate: Fate, error: Option<string>)
    | Evict(sizes: Sizes, maxFiles: int, maxBytes: int)
    | Quarantine(order: seq<Key>)
    | Damage(key: Key, mtime: int, bytes: nat)

  function AfterWrite(w: World, e: Entry): World {
    w.(files := w.files[e.key := Readable(e)], written := w.written + {e.key})
  }

  function AfterAttempt(w: World, e: Entry, outcome: EntryState, error: Option<string>): World {
    match outcome
    case Delivered => w.(files := w.files - {e.key})
    case DroppedFull => w.(files := w.files - {e.key}, gaps := w.gaps + [Gap(e.key, EvictedFull)])
    case _ => AfterWrite(w, Updated(e, outcome, error))
  }

  function AfterDelivery(w: World, e: Entry, fate: Fate, error: Option<string>): World {
    AfterAttempt(w.(held := HeldAfter(w.held, e.key, fate)), e, ClassifyHttp(StatusSeen(w.held, e.key, fate)), error)
  }

  function AfterQuarantine(w: World, order: seq<Key>): World {
    w.(files := w.files - ToSet(order), quarantined := w.quarantined + ToSet(order),
       gaps := w.gaps + GapsFor(order, Corrupt))
  }

  ghost function EvictedBy(files: map<Key, File>, sizes: Sizes, maxFiles: int, maxBytes: int): seq<Key> {
    OldestFirst(files)[..Evictions(OldestFirst(files), files, sizes, maxFiles, maxBytes)]
  }

  ghost function AfterEvict(w: World, sizes: Sizes, maxFiles: int, maxBytes: int): World {
    var evicted := EvictedBy(w.files, sizes, maxFiles, maxBytes);
    w.(files := w.files - ToSet(evicted), gaps := w.gaps + GapsFor(evicted, EvictedFull))
  }

  predicate GarbledKey(w: World, k: Key) { k in w.files && w.files[k].Garbled? }

  ghost predicate Enabled(w: World, s: Step) {
    match s
    case Write(_) => true
    case Deliver(e, fate, _) => e.key in w.written && Honest(fate)
    case Evict(_, _, _) => true
    case Quarantine(order) => forall k :: k in order <==> GarbledKey(w, k)
    case Damage(k, _, _) => k in w.files
  }

  ghost function Next(w: World, s: Step): World {
    match s
    case Write(e) => AfterWrite(w, e)
    case Deliver(e, fate, error) => AfterDelivery(w, e, fate, error)
    case Evict(sizes, maxFiles, maxBytes) => AfterEvict(w, sizes, maxFiles, maxBytes)
    case Quarantine(order) => AfterQuarantine(w, order)
    case Damage(k, mtime, bytes) => w.(files := w.files[k := Garbled(mtime, bytes)])
  }

  ghost predicate Legal(w: World, steps: seq<Step>)
    decreases |steps|
  {
    steps == [] || (Enabled(w, steps[0]) && Legal(Next(w, steps[0]), steps[1..]))
  }

  ghost function Finally(w: World, steps: seq<Step>): World
    decreases |steps|
  {
    if steps == [] then w else Finally(Next(w, steps[0]), steps[1..])
  }

  lemma {:induction false} RunsCompose(w: World, a: seq<Step>, b: seq<Step>)
    requires Legal(w, a) && Legal(Finally(w, a), b)
    ensures Legal(w, a + b) && Finally(w, a + b) == Finally(Finally(w, a), b)
    decreases |a|
  {
    if a == [] {
      assert a + b == b;
    } else {
      assert (a + b)[0] == a[0] && (a + b)[1..] == a[1..] + b;
      RunsCompose(Next(w, a[0]), a[1..], b);
    }
  }

  // ---- conservation -------------------------------------------------------------------------

  predicate InGaps(gaps: seq<Gap>, k: Key) { exists g :: g in gaps && g.key == k }

  predicate Accounted(w: World, k: Key) { k in w.files || k in w.held || InGaps(w.gaps, k) }

  predicate NoDuplicates(s: seq<Key>) { forall i, j :: 0 <= i < j < |s| ==> s[i] != s[j] }

  /** Nothing written is lost track of; the server holds nothing twice and nothing unwritten. */
  ghost predicate Conserved(w: World) {
    && (forall k :: k in w.written ==> Accounted(w, k))
    && NoDuplicates(w.held)
    && (forall k :: k in w.held ==> k in w.written)
    && (forall k :: k in w.files ==> k in w.written)
    && (forall g :: g in w.gaps ==> g.key in w.written)
  }

  const EMPTY := World(map[], {}, [], [], {})

  lemma GapsForCovers(gaps: seq<Gap>, keys: seq<Key>, reason: GapReason)
    ensures forall k :: InGaps(gaps + GapsFor(keys, reason), k) <==> InGaps(gaps, k) || k in keys
  {
    var more := GapsFor(keys, reason);
    forall k ensures InGaps(gaps + more, k) <==> InGaps(gaps, k) || k in keys {
      if k in keys {
        var i :| 0 <= i < |keys| && keys[i] == k;
        assert more[i] in gaps + more;
      }
      if InGaps(gaps, k) {
        var g :| g in gaps && g.key == k;
        assert g in gaps + more;
      }
    }
  }

  /** A file disappears only because the server holds its key or a gap now names it. */
  lemma StepLeavesNothingBehind(w: World, s: Step)
    requires Enabled(w, s)
    ensures forall k :: k in w.files && k !in Next(w, s).files ==> k in Next(w, s).held || InGaps(Next(w, s).gaps, k)
    ensures forall k :: k in w.held ==> k in Next(w, s).held
    ensures forall k :: InGaps(w.gaps, k) ==> InGaps(Next(w, s).gaps, k)
    ensures w.written <= Next(w, s).written
  {
    match s {
      case Write(_) =>
      case Deliver(e, fate, error) =>
      case Evict(sizes, maxFiles, maxBytes) =>
        GapsForCovers(w.gaps, EvictedBy(w.files, sizes, maxFiles, maxBytes), EvictedFull);
      case Quarantine(order) =>
        GapsForCovers(w.gaps, order, Corrupt);
      case Damage(_, _, _) =>
    }
  }

  /** Naming files of the spool in gaps, and unlinking them, names nothing that was not written. */
  lemma GapsStayWritten(w: World, keys: seq<Key>, reason: GapReason)
    requires Conserved(w) && forall k :: k in keys ==> k in w.files
    ensures forall g :: g in w.gaps + GapsFor(keys, reason) ==> g.key in w.written
  {
    forall g | g in w.gaps + GapsFor(keys, reason) ensures g.key in w.written {
      if g !in w.gaps {
        assert g in GapsFor(keys, reason);
        assert g.key in keys;
      }
    }
  }

  lemma EvictConserves(w: World, sizes: Sizes, maxFiles: int, maxBytes: int)
    requires Conserved(w)
    ensures Conserved(AfterEvict(w, sizes, maxFiles, maxBytes))
  {
    var evicted := EvictedBy(w.files, sizes, maxFiles, maxBytes);
    OldestFirstFacts(w.files);
    assert forall k :: k in evicted ==> k in OldestFirst(w.files);
    GapsStayWritten(w, evicted, EvictedFull);
    GapsForCovers(w.gaps, evicted, EvictedFull);
    assert forall k :: k in w.written ==> Accounted(w, k);
  }

  lemma QuarantineConserves(w: World, order: seq<Key>)
    requires Conserved(w) && forall k :: k in order <==> GarbledKey(w, k)
    ensures Conserved(AfterQuarantine(w, order))
  {
    GapsStayWritten(w, order, Corrupt);
    GapsForCovers(w.gaps, order, Corrupt);
    assert forall k :: k in w.written ==> Accounted(w, k);
  }

  lemma DeliveryConserves(w: World, e: Entry, fate: Fate, error: Option<string>)
    requires Conserved(w) && e.key in w.written && Honest(fate)
    ensures Conserved(AfterDelivery(w, e, fate, error))
  {
    DeliveredMeansHeld(w, e, fate, error);
    assert forall k :: k in w.written ==> Accounted(w, k);
  }

  lemma StepConserves(w: World, s: Step)
    requires Conserved(w) && Enabled(w, s)
    ensures Conserved(Next(w, s))
  {
    match s {
      case Write(e) =>
        assert forall k :: k in w.written ==> Accounted(w, k);
      case Deliver(e, fate, error) =>
        DeliveryConserves(w, e, fate, error);
      case Evict(sizes, maxFiles, maxBytes) =>
        EvictConserves(w, sizes, maxFiles, maxBytes);
      case Quarantine(order) =>
        QuarantineConserves(w, order);
      case Damage(k, _, _) =>
        assert forall j :: j in w.written ==> Accounted(w, j);
    }
  }

  /** Over any run: every key ever written is still pending, held by the server, or named in a gap. */
  lemma {:induction false} RunsConserve(w: World, steps: seq<Step>)
    requires Conserved(w) && Legal(w, steps)
    ensures Conserved(Finally(w, steps))
    decreases |steps|
  {
    if steps == [] {
    } else {
      StepConserves(w, steps[0]);
      RunsConserve(Next(w, steps[0]), steps[1..]);
    }
  }

  lemma RunsExtend(w: World, steps: seq<Step>, s: Step)
    requires Conserved(w) && Legal(w, steps) && Enabled(Finally(w, steps), s)
    ensures Legal(w, steps + [s]) && Finally(w, steps + [s]) == Next(Finally(w, steps), s)
    ensures Conserved(Finally(w, steps + [s]))
  {
    var here := Finally(w, steps);
    assert [s][1..] == [] && Legal(Next(here, s), []) && Finally(here, [s]) == Next(here, s);
    RunsCompose(w, steps, [s]);
    RunsConserve(w, steps + [s]);
  }

  lemma ConservedFromTheStart(steps: seq<Step>)
    requires Legal(EMPTY, steps)
    ensures Conserved(Finally(EMPTY, steps))
  {
    RunsConserve(EMPTY, steps);
  }

  /** Delivery is at least once and stored once: whatever the network loses, a report of success means held. */
  lemma DeliveredMeansHeld(w: World, e: Entry, fate: Fate, error: Option<string>)
    requires Honest(fate)
    ensures ClassifyHttp(StatusSeen(w.held, e.key, fate)).Delivered? ==> e.key in AfterDelivery(w, e, fate, error).held
    ensures NoDuplicates(w.held) ==> NoDuplicates(AfterDelivery(w, e, fate, error).held)
    ensures !ClassifyHttp(StatusSeen(w.held, e.key, fate)).Delivered? ==>
        e.key in AfterDelivery(w, e, fate, error).files
    ensures !ClassifyHttp(StatusSeen(w.held, e.key, fate)).DroppedFull?
  {
  }

  // ---- when the newest capture is the one that does not fit ---------------------------------

  lemma {:induction false} LastIsEvictedIff(order: seq<Key>, files: map<Key, File>, sizes: Sizes, maxFiles: int,
                                            maxBytes: int)
    requires order != []
    ensures Evictions(order, files, sizes, maxFiles, maxBytes) == |order| <==>
            !UnderCaps(order[|order| - 1..], files, sizes, maxFiles, maxBytes)
  {
    if |order| == 1 {
      assert order[0..] == order;
    } else {
      LastIsEvictedIff(order[1..], files, sizes, maxFiles, maxBytes);
      assert order[1..][|order| - 2..] == order[|order| - 1..];
      SuffixFits(order, files, sizes, maxFiles, maxBytes, |order| - 1);
    }
  }

  lemma {:induction false} SuffixFits(order: seq<Key>, files: map<Key, File>, sizes: Sizes, maxFiles: int,
                                      maxBytes: int, n: nat)
    requires n <= |order|
    ensures UnderCaps(order, files, sizes, maxFiles, maxBytes) ==>
        UnderCaps(order[n..], files, sizes, maxFiles, maxBytes)
  {
    if n == 0 {
      assert order[0..] == order;
    } else {
      SuffixFits(order[1..], files, sizes, maxFiles, maxBytes, n - 1);
      assert order[1..][n - 1..] == order[n..];
    }
  }

  lemma NewestIsLast(files: map<Key, File>, newest: Key)
    requires newest in files
    requires forall k :: k in files && k != newest ==> OlderThan(files, k, newest)
    ensures var order := OldestFirst(files);
            order != [] && forall i :: 0 <= i < |order| ==> (order[i] == newest <==> i == |order| - 1)
  {
    var order := OldestFirst(files);
    OldestFirstFacts(files);
    var lt := ByAge(files);
    assert newest in order;
    assert StrictWeak(lt) by { ByAgeIsStrictTotal(files); }
    var last := order[|order| - 1];
    assert last in order && last in files;
    assert last == newest || lt(last, newest);
    var i :| 0 <= i < |order| && order[i] == newest;
    assert i == |order| - 1 || lt(newest, last);
    assert last == newest;
  }

  /** The newest file is evicted exactly when it does not fit on its own, and then the whole spool goes with it. */
  lemma NewestIsEvictedIff(files: map<Key, File>, newest: Key, sizes: Sizes, maxFiles: int, maxBytes: int)
    requires newest in files
    requires forall k :: k in files && k != newest ==> OlderThan(files, k, newest)
    ensures var evicted := EvictedBy(files, sizes, maxFiles, maxBytes);
            && (newest in evicted <==> maxFiles < 1 || SizeOf(files[newest], sizes) > maxBytes)
            && (newest in evicted ==> files - ToSet(evicted) == map[])
  {
    var order := OldestFirst(files);
    var n := Evictions(order, files, sizes, maxFiles, maxBytes);
    NewestIsLast(files, newest);
    LastIsEvictedIff(order, files, sizes, maxFiles, maxBytes);
    assert order[|order| - 1..] == [newest] && [newest][1..] == [];
    assert TotalSize([newest], files, sizes) == SizeOf(files[newest], sizes);
    if n == |order| { assert order[..n][n - 1] == newest; }
    assert newest in order[..n] <==> n == |order|;
    if n == |order| {
      assert order[..n] == order;
      OldestFirstFacts(files);
    }
  }
}
