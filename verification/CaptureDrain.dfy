/** Who is ever redelivered: a drain reads only the oldest entries, so exhausted ones at the head can hide the rest. */
module CaptureDrain {
  import opened Ordering
  import opened CaptureProtocol
  import opened CaptureSpool
  import opened Actions

  const READ_LIMIT := DRAIN_MAX_ENTRIES + 1

  /** A spool after quarantine: every file reads, and as the entry its name promises. */
  ghost predicate Filed(files: map<Key, File>) {
    forall k :: k in files ==> files[k].Readable? && files[k].entry.key == k
  }

  predicate Exhausted(files: map<Key, File>, k: Key) { k in files && files[k].Readable? && !Retryable(files[k].entry) }

  ghost function ExhaustedBefore(files: map<Key, File>, k: Key): set<Key> {
    set j | j in files && Exhausted(files, j) && OlderThan(files, j, k)
  }

  // ---- positions ----------------------------------------------------------------------------

  lemma {:induction false} EntriesInOrder(keys: seq<Key>, files: map<Key, File>)
    requires Filed(files) && forall k :: k in keys ==> k in files
    ensures |EntriesOf(keys, files)| == |keys|
    ensures forall i :: 0 <= i < |keys| ==> EntriesOf(keys, files)[i] == files[keys[i]].entry
  {
    if keys == [] {
    } else {
      assert keys[0] in keys && forall k :: k in keys[1..] ==> k in keys;
      EntriesInOrder(keys[1..], files);
    }
  }

  lemma OldestAre(files: map<Key, File>, limit: nat)
    requires Filed(files)
    ensures |Oldest(files, limit)| == if limit <= |OldestFirst(files)| then limit else |OldestFirst(files)|
    ensures forall i :: 0 <= i < |Oldest(files, limit)| ==>
              OldestFirst(files)[i] in files && Oldest(files, limit)[i] == files[OldestFirst(files)[i]].entry
  {
    OldestFirstFacts(files);
    assert forall i :: 0 <= i < |OldestFirst(files)| ==> OldestFirst(files)[i] in OldestFirst(files);
    EntriesInOrder(OldestFirst(files), files);
  }

  lemma {:induction false} DistinctExactly(keys: seq<Key>)
    requires forall i :: 0 <= i < |keys| ==> keys[i] !in keys[..i]
    ensures |ToSet(keys)| == |keys|
  {
    if keys == [] {
      assert ToSet(keys) == {};
    } else {
      var front, last := keys[..|keys| - 1], keys[|keys| - 1];
      forall i | 0 <= i < |front| ensures front[i] !in front[..i] { assert front[..i] == keys[..i]; }
      DistinctExactly(front);
      assert keys == front + [last];
      assert ToSet(keys) == ToSet(front) + {last};
    }
  }

  ghost predicate ByAgeIn(order: seq<Key>, files: map<Key, File>) {
    && (forall k :: k in order <==> k in files)
    && (forall i, j :: 0 <= i < j < |order| ==> OlderThan(files, order[i], order[j]))
  }

  lemma OldestFirstIsByAge(files: map<Key, File>)
    ensures ByAgeIn(OldestFirst(files), files)
  {
    OldestFirstFacts(files);
    assert forall a, b :: ByAge(files)(a, b) <==> OlderThan(files, a, b);
  }

  lemma OlderIsStrict(files: map<Key, File>, a: Key, b: Key, c: Key)
    ensures !OlderThan(files, a, a)
    ensures OlderThan(files, a, b) && OlderThan(files, b, c) ==> OlderThan(files, a, c)
  {
    ByAgeIsStrictTotal(files);
    var lt := ByAge(files);
    assert lt(a, b) == OlderThan(files, a, b) && lt(b, c) == OlderThan(files, b, c);
    assert lt(a, c) == OlderThan(files, a, c) && lt(a, a) == OlderThan(files, a, a);
  }

  lemma PositionIsAge(order: seq<Key>, files: map<Key, File>, i: nat, p: nat)
    requires i < |order| && p < |order| && ByAgeIn(order, files)
    ensures OlderThan(files, order[i], order[p]) <==> i < p
  {
    OlderIsStrict(files, order[i], order[p], order[i]);
  }

  /** The keys ahead of a position are exactly the older ones. */
  lemma AheadIsOlder(order: seq<Key>, files: map<Key, File>, p: nat, k: Key)
    requires p < |order| && ByAgeIn(order, files)
    ensures k in order[..p] <==> k in files && OlderThan(files, k, order[p])
  {
    assert forall i :: 0 <= i < p ==> order[..p][i] == order[i] && order[i] in order;
    if k in files {
      assert k in order;
      var i :| 0 <= i < |order| && order[i] == k;
      PositionIsAge(order, files, i, p);
      if i < p { assert order[..p][i] == k; }
    }
  }

  /** And as many as the position says. */
  lemma AheadCount(order: seq<Key>, files: map<Key, File>, p: nat)
    requires p <= |order| && ByAgeIn(order, files)
    ensures |ToSet(order[..p])| == p
  {
    forall i | 0 <= i < p ensures order[..p][i] !in order[..p][..i] {
      AheadIsOlder(order, files, i, order[i]);
      OlderIsStrict(files, order[i], order[i], order[i]);
      assert order[..p][..i] == order[..i];
    }
    DistinctExactly(order[..p]);
  }

  // ---- one drain ----------------------------------------------------------------------------

  /** What a drain with time to spare and a network that holds attempts, and removes. */
  ghost function Plan(files: map<Key, File>, skip: Key): seq<Entry> {
    var plan := Select(Oldest(files, READ_LIMIT), Drainable(skip));
    if |plan| > DRAIN_MAX_ENTRIES then plan[..DRAIN_MAX_ENTRIES] else plan
  }

  ghost function KeysOfPlan(plan: seq<Entry>): set<Key> { set e | e in plan :: e.key }

  ghost function AfterDrain(files: map<Key, File>, skip: Key): map<Key, File> { files - KeysOfPlan(Plan(files, skip)) }

  /** With enough slots, and every request answered, a drain attempts the whole plan. */
  lemma UnhinderedDrain(files: map<Key, File>, skip: Key, fates: seq<Fate>, slots: nat)
    requires |fates| >= DRAIN_MAX_ENTRIES && slots >= DRAIN_MAX_ENTRIES && forall f :: f in fates ==> Arrives(f)
    ensures Attempted(Oldest(files, READ_LIMIT), skip, fates, slots) == Plan(files, skip)
  {
    var most := AtMost(|Select(Oldest(files, READ_LIMIT), Drainable(skip))|, slots);
    assert forall j :: 0 <= j < most ==> fates[j] in fates;
    AttemptsAre(most, fates, most);
  }

  /** Whatever the slots and whatever becomes of the requests, what is attempted begins the plan. */
  lemma AttemptedIsPlanned(files: map<Key, File>, skip: Key, fates: seq<Fate>, slots: nat)
    requires |fates| >= DRAIN_MAX_ENTRIES
    ensures Attempted(Oldest(files, READ_LIMIT), skip, fates, slots) <= Plan(files, skip)
  {
  }

  /** And every file of the plan goes, and no other. */
  lemma {:induction false} DeliveredAway(w: World, plan: seq<Entry>, fates: seq<Fate>, error: Option<string>)
    requires |fates| >= |plan| && forall f :: f in fates ==> Honest(f) && Arrives(f)
    ensures Finally(w, DeliverSteps(plan, fates, error)).files == w.files - KeysOfPlan(plan)
    decreases |plan|
  {
    if plan == [] {
      assert KeysOfPlan(plan) == {};
    } else {
      var steps := DeliverSteps(plan, fates, error);
      assert fates[0] in fates && forall f :: f in fates[1..] ==> f in fates;
      DeliveryRemoves(w, plan[0], fates[0], error);
      assert steps[1..] == DeliverSteps(plan[1..], fates[1..], error);
      DeliveredAway(Next(w, steps[0]), plan[1..], fates[1..], error);
      OneMoreKey(plan);
    }
  }

  lemma DeliveryRemoves(w: World, e: Entry, fate: Fate, error: Option<string>)
    requires Honest(fate) && Arrives(fate)
    ensures Next(w, Step.Deliver(e, fate, error)).files == w.files - {e.key}
  {
    ArrivalIsDelivery(w.held, e.key, fate);
  }

  lemma OneMoreKey(plan: seq<Entry>)
    requires plan != []
    ensures KeysOfPlan(plan) == {plan[0].key} + KeysOfPlan(plan[1..])
  {
    assert plan == [plan[0]] + plan[1..];
  }

  lemma PlanIsDrainable(files: map<Key, File>, skip: Key)
    requires Filed(files)
    ensures forall k :: k in KeysOfPlan(Plan(files, skip)) ==> k in files && !Exhausted(files, k)
    ensures forall k :: k in KeysOfPlan(Plan(files, skip)) ==>
              exists p :: 0 <= p < READ_LIMIT && p < |OldestFirst(files)| && OldestFirst(files)[p] == k
  {
    OldestAre(files, READ_LIMIT);
    var read := Oldest(files, READ_LIMIT);
    SelectMembers(read, Drainable(skip));
    forall k | k in KeysOfPlan(Plan(files, skip))
      ensures k in files && !Exhausted(files, k)
      ensures exists p :: 0 <= p < READ_LIMIT && p < |OldestFirst(files)| && OldestFirst(files)[p] == k
    {
      var e :| e in Plan(files, skip) && e.key == k;
      assert e in Select(read, Drainable(skip)) && e in read;
      var p :| 0 <= p < |read| && read[p] == e;
      assert OldestFirst(files)[p] in files && OldestFirst(files)[p] == k;
    }
  }

  /** Six exhausted entries ahead: not read. */
  lemma SixAheadHide(files: map<Key, File>, skip: Key, k: Key)
    requires Filed(files) && |ExhaustedBefore(files, k)| >= READ_LIMIT
    ensures k !in KeysOfPlan(Plan(files, skip))
  {
    PlanIsDrainable(files, skip);
    OldestFirstIsByAge(files);
    var order := OldestFirst(files);
    if k in KeysOfPlan(Plan(files, skip)) {
      var p :| 0 <= p < READ_LIMIT && p < |order| && order[p] == k;
      forall j | j in ExhaustedBefore(files, k) ensures j in ToSet(order[..p]) { AheadIsOlder(order, files, p, j); }
      AheadCount(order, files, p);
      SubsetCount(ExhaustedBefore(files, k), ToSet(order[..p]));
      assert false;
    }
  }

  /** The first entry in order that may be retried; all ahead of it are exhausted. */
  lemma FirstRetryable(order: seq<Key>, files: map<Key, File>, k: Key) returns (p: nat)
    requires ByAgeIn(order, files) && k in files && !Exhausted(files, k)
    ensures p < |order| && !Exhausted(files, order[p]) && (order[p] == k || OlderThan(files, order[p], k))
    ensures forall q :: 0 <= q < p ==> Exhausted(files, order[q])
    ensures ToSet(order[..p]) <= ExhaustedBefore(files, k)
  {
    assert k in order;
    var i :| 0 <= i < |order| && order[i] == k;
    p := 0;
    while Exhausted(files, order[p])
      invariant 0 <= p <= i
      invariant forall q :: 0 <= q < p ==> Exhausted(files, order[q])
      decreases i - p
    {
      assert p != i;
      p := p + 1;
    }
    assert p == i || OlderThan(files, order[p], order[i]);
    forall j | j in ToSet(order[..p]) ensures j in ExhaustedBefore(files, k) {
      var q :| 0 <= q < p && order[q] == j;
      assert Exhausted(files, order[q]) && OlderThan(files, order[q], order[i]);
    }
  }

  /** Fewer than six exhausted entries ahead: something no newer is attempted first, and goes. */
  lemma FewerLetThrough(files: map<Key, File>, skip: Key, k: Key) returns (j: Key)
    requires Filed(files) && k in files && !Exhausted(files, k) && skip !in files
    requires |ExhaustedBefore(files, k)| < READ_LIMIT
    ensures j in files && !Exhausted(files, j) && j in KeysOfPlan(Plan(files, skip))
    ensures j == k || OlderThan(files, j, k)
  {
    var order := OldestFirst(files);
    OldestFirstIsByAge(files);
    var p := FirstRetryable(order, files, k);
    j := order[p];
    assert j in order;
    AheadCount(order, files, p);
    SubsetCount(ToSet(order[..p]), ExhaustedBefore(files, k));
    FirstIsPlanned(files, skip, p);
  }

  lemma FirstIsPlanned(files: map<Key, File>, skip: Key, p: nat)
    requires Filed(files) && skip !in files && p < |OldestFirst(files)| && p < READ_LIMIT
    requires OldestFirst(files)[p] in files && !Exhausted(files, OldestFirst(files)[p])
    requires forall q :: 0 <= q < p ==> Exhausted(files, OldestFirst(files)[q])
    ensures OldestFirst(files)[p] in KeysOfPlan(Plan(files, skip))
  {
    OldestAre(files, READ_LIMIT);
    var read := Oldest(files, READ_LIMIT);
    SelectFirst(read, Drainable(skip), p);
    assert Plan(files, skip)[0] == read[p];
    assert read[p] in Plan(files, skip) && read[p].key == OldestFirst(files)[p];
  }

  // ---- many drains --------------------------------------------------------------------------

  ghost function DrainedBy(skip: Key): map<Key, File> -> map<Key, File> {
    (files: map<Key, File>) => AfterDrain(files, skip)
  }

  ghost function AfterDrains(files: map<Key, File>, skip: Key, n: nat): map<Key, File> {
    Repeat(DrainedBy(skip), files, n)
  }

  /** A drain leaves the exhausted entries where they are. */
  lemma DrainKeepsExhausted(files: map<Key, File>, skip: Key, k: Key)
    requires Filed(files)
    ensures Filed(AfterDrain(files, skip))
    ensures k in AfterDrain(files, skip) ==> ExhaustedBefore(AfterDrain(files, skip), k) == ExhaustedBefore(files, k)
  {
    PlanIsDrainable(files, skip);
  }

  ghost function WaitingUpTo(files: map<Key, File>, k: Key): set<Key> {
    set j | j in files && !Exhausted(files, j) && (j == k || OlderThan(files, j, k))
  }

  ghost predicate Hidden(files: map<Key, File>, k: Key) {
    Filed(files) && k in files && |ExhaustedBefore(files, k)| >= READ_LIMIT
  }

  lemma StaysHidden(files: map<Key, File>, skip: Key, k: Key)
    requires Hidden(files, k)
    ensures Hidden(AfterDrain(files, skip), k)
  {
    SixAheadHide(files, skip, k);
    assert k in AfterDrain(files, skip);
    DrainKeepsExhausted(files, skip, k);
  }

  lemma HiddenForever(files: map<Key, File>, skip: Key, k: Key, n: nat)
    requires Hidden(files, k)
    ensures k in AfterDrains(files, skip, n)
  {
    var hidden := (fs: map<Key, File>) => Hidden(fs, k);
    forall fs | hidden(fs) ensures hidden(DrainedBy(skip)(fs)) { StaysHidden(fs, skip, k); }
    RepeatKeeps(DrainedBy(skip), hidden, files, n);
  }

  lemma OneDrain(files: map<Key, File>, skip: Key)
    ensures AfterDrains(files, skip, 1) == AfterDrain(files, skip)
  {
    assert AfterDrains(AfterDrain(files, skip), skip, 0) == AfterDrain(files, skip);
  }

  /** Each drain brings fewer to wait in front. */
  lemma DrainAdvances(files: map<Key, File>, skip: Key, k: Key)
    requires Filed(files) && k in files && !Exhausted(files, k) && skip !in files
    requires |ExhaustedBefore(files, k)| < READ_LIMIT
    ensures |WaitingUpTo(files, k)| > 0
    ensures k in AfterDrain(files, skip) ==> |WaitingUpTo(AfterDrain(files, skip), k)| < |WaitingUpTo(files, k)|
  {
    var j := FewerLetThrough(files, skip, k);
    assert j in WaitingUpTo(files, k) && j !in AfterDrain(files, skip);
    Fewer({}, WaitingUpTo(files, k), j);
    if k in AfterDrain(files, skip) { Fewer(WaitingUpTo(AfterDrain(files, skip), k), WaitingUpTo(files, k), j); }
  }

  lemma {:induction false} ReachedInTime(files: map<Key, File>, skip: Key, k: Key) returns (n: nat)
    requires Filed(files) && k in files && !Exhausted(files, k) && skip !in files
    requires |ExhaustedBefore(files, k)| < READ_LIMIT
    ensures k !in AfterDrains(files, skip, n) && 0 < n <= |WaitingUpTo(files, k)|
    decreases |WaitingUpTo(files, k)|
  {
    var rest := AfterDrain(files, skip);
    DrainAdvances(files, skip, k);
    if k in rest {
      DrainKeepsExhausted(files, skip, k);
      var m := ReachedInTime(rest, skip, k);
      n := m + 1;
    } else {
      OneDrain(files, skip);
      n := 1;
    }
  }

  lemma Fewer(a: set<Key>, b: set<Key>, j: Key)
    requires a <= b && j in b && j !in a
    ensures |a| < |b|
  {
    SubsetCount(a, b - {j});
  }

  /** Exactly when a waiting entry is ever redelivered by drains that all go through: when fewer than six exhausted
      entries are older. Then it takes no more drains than there are entries waiting up to it. */
  lemma ReachedIff(files: map<Key, File>, skip: Key, k: Key)
    requires Filed(files) && k in files && !Exhausted(files, k) && skip !in files
    ensures (exists n: nat :: k !in AfterDrains(files, skip, n)) <==> |ExhaustedBefore(files, k)| <= DRAIN_MAX_ENTRIES
    ensures |ExhaustedBefore(files, k)| <= DRAIN_MAX_ENTRIES ==>
              exists n: nat :: n <= |WaitingUpTo(files, k)| && k !in AfterDrains(files, skip, n)
  {
    if |ExhaustedBefore(files, k)| <= DRAIN_MAX_ENTRIES {
      var n := ReachedInTime(files, skip, k);
    } else {
      forall n: nat ensures k in AfterDrains(files, skip, n) { HiddenForever(files, skip, k, n); }
    }
  }

  // ---- any run ------------------------------------------------------------------------------

  /** The step evicts or damages the file of this key, writes it again, or attempts it. */
  ghost predicate Touches(w: World, s: Step, k: Key) {
    match s
    case Write(e) => e.key == k
    case Deliver(e, _, _) => e.key == k
    case Evict(sizes, maxFiles, maxBytes) => k in EvictedBy(w.files, sizes, maxFiles, maxBytes)
    case Quarantine(_) => false
    case Damage(key, _, _) => key == k
  }

  ghost predicate Untouched(w: World, steps: seq<Step>, k: Key)
    decreases |steps|
  {
    steps == [] || (!Touches(w, steps[0], k) && Untouched(Next(w, steps[0]), steps[1..], k))
  }

  lemma {:induction false} UntouchedStays(w: World, steps: seq<Step>, k: Key)
    requires Legal(w, steps) && Untouched(w, steps, k) && k in w.files && w.files[k].Readable?
    ensures k in Finally(w, steps).files && Finally(w, steps).files[k] == w.files[k]
    decreases |steps|
  {
    if steps != [] {
      UntouchedStays(Next(w, steps[0]), steps[1..], k);
    }
  }

  /** Over any legal run, of other captures written, delivered, evicted and set aside: while six exhausted entries
      that are older escape eviction, damage and rewriting, no drain attempts the one they hide. */
  lemma HiddenUntilEvicted(w: World, steps: seq<Step>, six: set<Key>, k: Key, skip: Key, fates: seq<Fate>, slots: nat)
    requires Legal(w, steps) && k in w.files && w.files[k].Readable? && Untouched(w, steps, k)
    requires |six| >= READ_LIMIT
    requires forall j :: j in six ==> Exhausted(w.files, j) && OlderThan(w.files, j, k) && Untouched(w, steps, j)
    requires Filed(Finally(w, steps).files) && |fates| >= DRAIN_MAX_ENTRIES
    ensures k in Finally(w, steps).files
    ensures forall e :: e in Attempted(Oldest(Finally(w, steps).files, READ_LIMIT), skip, fates, slots) ==> e.key != k
  {
    var later := Finally(w, steps).files;
    UntouchedStays(w, steps, k);
    forall j | j in six ensures j in ExhaustedBefore(later, k) { UntouchedStays(w, steps, j); }
    SubsetCount(six, ExhaustedBefore(later, k));
    SixAheadHide(later, skip, k);
    AttemptedIsPlanned(later, skip, fates, slots);
    var plan := Plan(later, skip);
    forall e | e in Attempted(Oldest(later, READ_LIMIT), skip, fates, slots) ensures e.key != k {
      assert e in plan;
      assert e.key in KeysOfPlan(plan);
    }
  }

  // ---- the stall ----------------------------------------------------------------------------

  function Stuck(key: Key, at: int): Entry { Entry(key, "", at, MAX_FAILED_ATTEMPTS, None, Failed) }

  /** Six refused captures at the head of the spool hide a seventh that has never been tried. */
  lemma SixStall(a: Key, b: Key, c: Key, d: Key, e: Key, f: Key, waiting: Key, skip: Key)
    returns (files: map<Key, File>)
    requires |{a, b, c, d, e, f}| == 6 && waiting !in {a, b, c, d, e, f} && skip !in {a, b, c, d, e, f, waiting}
    ensures Filed(files) && waiting in files && !Exhausted(files, waiting)
    ensures forall n: nat :: waiting in AfterDrains(files, skip, n)
  {
    var stuck := {a, b, c, d, e, f};
    var all := stuck + {waiting};
    files := map k | k in all :: Readable(if k == waiting then Entry(k, "", 1, 0, None, Spooled) else Stuck(k, 0));
    assert ExhaustedBefore(files, waiting) == stuck;
    forall n: nat ensures waiting in AfterDrains(files, skip, n) { HiddenForever(files, skip, waiting, n); }
  }
}
