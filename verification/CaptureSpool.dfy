/** The spool directory, the server and the hook that drives them, each a mutable object whose every method is a
    run of the protocol's steps. */
module CaptureSpool {
  import opened Ordering
  import opened CaptureProtocol

  const DRAIN_MAX_ENTRIES := 5

  class Server {
    var held: seq<Key>

    constructor ()
      ensures held == []
    {
      held := [];
    }

    /** Store once; answer 409 for a capture already held. */
    method Receive(key: Key, refusal: Option<int>, accepted: int) returns (status: int)
      modifies this
      ensures held == HeldAfter(old(held), key, Replies(refusal, accepted))
      ensures Some(status) == StatusSeen(old(held), key, Replies(refusal, accepted))
    {
      if refusal.Some? {
        status := refusal.value;
      } else if key in held {
        status := 409;
      } else {
        held := held + [key];
        status := accepted;
      }
    }
  }

  function EntriesOf(keys: seq<Key>, files: map<Key, File>): seq<Entry> {
    if keys == [] then []
    else
      var rest := EntriesOf(keys[1..], files);
      if keys[0] in files && files[keys[0]].Readable? then [files[keys[0]].entry] + rest else rest
  }

  /** The oldest readable entries, at most `limit` of them. */
  ghost function Oldest(files: map<Key, File>, limit: nat): seq<Entry> {
    var all := EntriesOf(OldestFirst(files), files);
    if limit <= |all| then all[..limit] else all
  }

  ghost function WithoutGarbled(files: map<Key, File>): map<Key, File> {
    map k | k in files && files[k].Readable? :: files[k]
  }

  predicate CanDrain(e: Entry, skip: Key) { e.key != skip && Retryable(e) }

  function Drainable(skip: Key): Entry -> bool { (e: Entry) => CanDrain(e, skip) }

  /** A request that is stored and answered: under an honest server, exactly the one that counts as delivered. */
  predicate Arrives(fate: Fate) { fate.Replies? && fate.refusal.None? }

  lemma ArrivalIsDelivery(held: seq<Key>, key: Key, fate: Fate)
    requires Honest(fate)
    ensures ClassifyHttp(StatusSeen(held, key, fate)).Delivered? <==> Arrives(fate)
  {
  }

  /** Of at most `most` attempts, those up to and including the first that does not arrive. */
  function Attempts(most: nat, fates: seq<Fate>): (n: nat)
    requires most <= |fates|
    ensures n <= most
  {
    if most == 0 then 0 else if !Arrives(fates[0]) then 1 else 1 + Attempts(most - 1, fates[1..])
  }

  lemma {:induction false} AttemptsAre(most: nat, fates: seq<Fate>, n: nat)
    requires n <= most <= |fates| && forall j :: 0 <= j < n ==> Arrives(fates[j])
    ensures n == most ==> Attempts(most, fates) == n
    ensures n < most && !Arrives(fates[n]) ==> Attempts(most, fates) == n + 1
  {
    if n > 0 { AttemptsAre(most - 1, fates[1..], n - 1); }
  }

  function AtMost(n: nat, slots: nat): nat {
    var allowed := if slots < DRAIN_MAX_ENTRIES then slots else DRAIN_MAX_ENTRIES;
    if n < allowed then n else allowed
  }

  /** The entries a drain attempts among those it read. */
  function Attempted(entries: seq<Entry>, skip: Key, fates: seq<Fate>, slots: nat): seq<Entry>
    requires |fates| >= DRAIN_MAX_ENTRIES
  {
    Select(entries, Drainable(skip))[..AttemptCount(entries, skip, fates, slots)]
  }

  function AttemptCount(entries: seq<Entry>, skip: Key, fates: seq<Fate>, slots: nat): nat
    requires |fates| >= DRAIN_MAX_ENTRIES
  {
    Attempts(AtMost(|Select(entries, Drainable(skip))|, slots), fates)
  }

  /** Where a drain stands before entry `i`, everything drainable so far having arrived. */
  ghost predicate Reached(entries: seq<Entry>, skip: Key, fates: seq<Fate>, slots: nat, i: nat, drained: nat)
    requires i <= |entries| && |fates| >= DRAIN_MAX_ENTRIES
  {
    && drained == |Select(entries[..i], Drainable(skip))| <= |Select(entries, Drainable(skip))|
    && drained <= DRAIN_MAX_ENTRIES && drained <= slots
    && forall j :: 0 <= j < drained ==> Arrives(fates[j])
  }

  lemma ReachedStep(entries: seq<Entry>, skip: Key, fates: seq<Fate>, slots: nat, i: nat, drained: nat)
    requires i < |entries| && |fates| >= DRAIN_MAX_ENTRIES && Reached(entries, skip, fates, slots, i, drained)
    ensures !CanDrain(entries[i], skip) ==> Reached(entries, skip, fates, slots, i + 1, drained)
    ensures CanDrain(entries[i], skip) ==>
              && drained < |Select(entries, Drainable(skip))| && Select(entries, Drainable(skip))[drained] == entries[i]
              && if drained >= DRAIN_MAX_ENTRIES || drained >= slots
                 then AttemptCount(entries, skip, fates, slots) == drained
                 else if Arrives(fates[drained]) then Reached(entries, skip, fates, slots, i + 1, drained + 1)
                 else AttemptCount(entries, skip, fates, slots) == drained + 1
  {
    SelectSplits(entries, Drainable(skip), i);
    AttemptsAre(AtMost(|Select(entries, Drainable(skip))|, slots), fates, drained);
  }

  lemma ReachedEnd(entries: seq<Entry>, skip: Key, fates: seq<Fate>, slots: nat, drained: nat)
    requires |fates| >= DRAIN_MAX_ENTRIES && Reached(entries, skip, fates, slots, |entries|, drained)
    ensures AttemptCount(entries, skip, fates, slots) == drained
  {
    assert entries[..|entries|] == entries;
    AttemptsAre(AtMost(|Select(entries, Drainable(skip))|, slots), fates, drained);
  }

  function DeliverSteps(entries: seq<Entry>, fates: seq<Fate>, error: Option<string>): (steps: seq<Step>)
    requires |entries| <= |fates|
    ensures |steps| == |entries|
    ensures forall i :: 0 <= i < |steps| ==> steps[i] == Step.Deliver(entries[i], fates[i], error)
  {
    seq(|entries|, i requires 0 <= i < |entries| => Step.Deliver(entries[i], fates[i], error))
  }

  lemma {:induction false} EntriesComeFromFiles(keys: seq<Key>, files: map<Key, File>)
    requires forall k :: k in files && files[k].Readable? ==> files[k].entry.key == k
    ensures forall e :: e in EntriesOf(keys, files) ==> e.key in files
  {
    if keys == [] {
    } else {
      EntriesComeFromFiles(keys[1..], files);
    }
  }

  lemma NoRepeats(order: seq<Key>, files: map<Key, File>)
    requires StrictlySorted(order, ByAge(files))
    ensures forall i :: 0 <= i < |order| ==> order[i] !in order[..i]
  {
    ByAgeIsStrictTotal(files);
    var lt := ByAge(files);
    forall i | 0 <= i < |order| ensures order[i] !in order[..i] {
      assert forall j :: 0 <= j < i ==> lt(order[j], order[i]);
    }
  }

  /** A directory listing, in no particular order. */
  method ListKeys(files: map<Key, File>) returns (listing: seq<Key>)
    ensures multiset(listing) == multiset(files.Keys)
  {
    listing := [];
    var todo := files.Keys;
    while todo != {}
      invariant todo <= files.Keys
      invariant multiset(listing) == multiset(files.Keys - todo)
      decreases todo
    {
      var k :| k in todo;
      assert files.Keys - (todo - {k}) == files.Keys - todo + {k};
      todo := todo - {k};
      listing := listing + [k];
    }
    assert files.Keys - {} == files.Keys;
  }

  class Spool {
    var files: map<Key, File>
    var quarantined: set<Key>
    var gaps: seq<Gap>
    ghost var written: set<Key>
    const server: Server
    const sizes: Sizes

    constructor (server: Server, sizes: Sizes)
      requires server.held == []
      ensures this.server == server && this.sizes == sizes
      ensures State() == EMPTY && Valid()
    {
      this.server, this.sizes := server, sizes;
      files, quarantined, gaps, written := map[], {}, [], {};
    }

    ghost function State(): World
      reads this, server
    {
      World(files, quarantined, gaps, server.held, written)
    }

    /** An entry is filed under its own key: a file that says otherwise counts as garbled. */
    ghost predicate Valid()
      reads this
    {
      forall k :: k in files && files[k].Readable? ==> files[k].entry.key == k
    }

    method WriteEntry(entry: Entry)
      requires Valid()
      modifies this
      ensures Valid() && State() == AfterWrite(old(State()), entry)
    {
      files := files[entry.key := Readable(entry)];
      written := written + {entry.key};
    }

    method RecordAttempt(entry: Entry, outcome: EntryState, error: Option<string>) returns (updated: Entry)
      requires Valid()
      modifies this
      ensures Valid() && State() == AfterAttempt(old(State()), entry, outcome, error)
      ensures updated == Updated(entry, outcome, error)
    {
      updated := Updated(entry, outcome, error);
      if outcome.Delivered? {
        files := files - {entry.key};
      } else if outcome.DroppedFull? {
        files := files - {entry.key};
        gaps := gaps + [Gap(entry.key, EvictedFull)];
      } else {
        WriteEntry(updated);
      }
    }

    /** Every garbled file is moved aside and named in a gap, in whatever order the directory is listed. */
    method SetAsideGarbled() returns (ghost order: seq<Key>)
      requires Valid()
      modifies this
      ensures Valid() && State() == AfterQuarantine(old(State()), order)
      ensures forall k :: k in order <==> GarbledKey(old(State()), k)
      ensures files == WithoutGarbled(old(files))
    {
      ghost var start := files;
      var todo := files.Keys;
      order := [];
      assert GapsFor(order, Corrupt) == [];
      while todo != {}
        invariant todo <= start.Keys
        invariant forall k :: k in order <==> k in start && k !in todo && start[k].Garbled?
        invariant files == start - ToSet(order)
        invariant quarantined == old(quarantined) + ToSet(order)
        invariant gaps == old(gaps) + GapsFor(order, Corrupt)
        invariant unchanged(server) && written == old(written)
        decreases todo
      {
        var k :| k in todo;
        todo := todo - {k};
        assert k in files;
        if files[k].Garbled? {
          assert ToSet(order + [k]) == ToSet(order) + {k};
          assert GapsFor(order + [k], Corrupt) == GapsFor(order, Corrupt) + [Gap(k, Corrupt)];
          files := files - {k};
          quarantined := quarantined + {k};
          gaps := gaps + [Gap(k, Corrupt)];
          order := order + [k];
        }
      }
    }

    /** The readable entries, oldest first. */
    method ReadEntries(limit: nat) returns (entries: seq<Entry>, ghost order: seq<Key>)
      requires Valid()
      modifies this
      ensures Valid() && State() == AfterQuarantine(old(State()), order)
      ensures limit == 0 ==> order == [] && entries == []
      ensures limit > 0 ==> forall k :: k in order <==> GarbledKey(old(State()), k)
      ensures limit > 0 ==> files == WithoutGarbled(old(files)) && entries == Oldest(files, limit)
    {
      if limit == 0 {
        entries, order := [], [];
        assert State() == AfterQuarantine(State(), []) by { assert GapsFor([], Corrupt) == []; }
      } else {
        order := SetAsideGarbled();
        var listing := ListKeys(files);
        AnyListingSorts(listing, files);
        var all := EntriesOf(Sort(listing, ByAge(files)), files);
        entries := if limit <= |all| then all[..limit] else all;
      }
    }

    /** Evict the shortest oldest-first prefix that brings the rest under both caps, one gap an eviction. */
    method EnforceCap(maxFiles: int, maxBytes: int) returns (evicted: seq<Key>)
      requires Valid()
      modifies this
      ensures Valid() && State() == AfterEvict(old(State()), sizes, maxFiles, maxBytes)
      ensures evicted == EvictedBy(old(files), sizes, maxFiles, maxBytes)
    {
      var listing := ListKeys(files);
      var order := Sort(listing, ByAge(files));
      AnyListingSorts(listing, files);
      OldestFirstFacts(files);
      NoRepeats(order, files);
      evicted := EvictInOrder(order, maxFiles, maxBytes);
    }

    method EvictInOrder(order: seq<Key>, maxFiles: int, maxBytes: int) returns (evicted: seq<Key>)
      requires forall i :: 0 <= i < |order| ==> order[i] in files && order[i] !in order[..i]
      modifies this`files, this`gaps
      ensures evicted == order[..Evictions(order, old(files), sizes, maxFiles, maxBytes)]
      ensures files == old(files) - ToSet(evicted) && gaps == old(gaps) + GapsFor(evicted, EvictedFull)
    {
      ghost var start := files;
      var count, total := |order|, TotalSize(order, files, sizes);
      var i := 0;
      evicted := [];
      assert order[0..] == order && GapsFor([], EvictedFull) == [];
      while i < |order| && !(count <= maxFiles && total <= maxBytes)
        invariant 0 <= i <= |order| && evicted == order[..i]
        invariant count == |order| - i && total == TotalSize(order[i..], start, sizes)
        invariant Evictions(order, start, sizes, maxFiles, maxBytes)
               == i + Evictions(order[i..], start, sizes, maxFiles, maxBytes)
        invariant files == start - ToSet(order[..i])
        invariant gaps == old(gaps) + GapsFor(order[..i], EvictedFull)
      {
        var k := order[i];
        assert k !in order[..i] && k in start;
        EvictOne(order, i, start, sizes, maxFiles, maxBytes);
        count := count - 1;
        total := total - SizeOf(files[k], sizes);
        evicted := evicted + [k];
        assert order[..i + 1] == order[..i] + [k];
        Unlink(order[..i], k, start, old(gaps));
        i := i + 1;
      }
    }

    method Unlink(ghost done: seq<Key>, k: Key, ghost start: map<Key, File>, ghost before: seq<Gap>)
      requires files == start - ToSet(done) && gaps == before + GapsFor(done, EvictedFull)
      modifies this`files, this`gaps
      ensures files == start - ToSet(done + [k]) && gaps == before + GapsFor(done + [k], EvictedFull)
    {
      files := files - {k};
      gaps := gaps + [Gap(k, EvictedFull)];
      assert ToSet(done + [k]) == ToSet(done) + {k};
      assert GapsFor(done + [k], EvictedFull) == GapsFor(done, EvictedFull) + [Gap(k, EvictedFull)];
    }

    /** One delivery attempt under a given fate of the request. */
    method Deliver(entry: Entry, fate: Fate, error: Option<string>) returns (updated: Entry)
      requires Valid()
      modifies this, server
      ensures Valid() && State() == AfterDelivery(old(State()), entry, fate, error)
      ensures updated == Updated(entry, ClassifyHttp(StatusSeen(old(server.held), entry.key, fate)), error)
    {
      var status: Option<int> := None;
      match fate {
        case NeverArrives =>
        case ReplyLost(refusal) =>
          var _ := server.Receive(entry.key, refusal, 200);
        case Replies(refusal, accepted) =>
          var s := server.Receive(entry.key, refusal, accepted);
          status := Some(s);
      }
      updated := RecordAttempt(entry, ClassifyHttp(status), error);
    }

    /** The run so far: these steps, and the first `n` redeliveries of the plan. */
    ghost predicate Drained(start: World, before: seq<Step>, plan: seq<Entry>, n: nat, fates: seq<Fate>,
                            error: Option<string>)
      requires n <= |plan| && n <= |fates|
      reads this, server
    {
      var steps := before + DeliverSteps(plan[..n], fates, error);
      Valid() && Legal(start, steps) && State() == Finally(start, steps)
    }

    /** One redelivery, as one more step of the run so far. */
    method Redeliver(entry: Entry, n: nat, fates: seq<Fate>, error: Option<string>,
                     ghost plan: seq<Entry>, ghost start: World, ghost before: seq<Step>)
      returns (updated: Entry)
      requires n < |plan| && n < |fates| && plan[n] == entry && entry.key in written && Honest(fates[n])
      requires Conserved(start) && Drained(start, before, plan, n, fates, error)
      modifies this, server
      ensures Drained(start, before, plan, n + 1, fates, error)
      ensures old(written) <= written && (updated.state.Delivered? <==> Arrives(fates[n]))
    {
      RunsExtend(start, before + DeliverSteps(plan[..n], fates, error), Step.Deliver(plan[n], fates[n], error));
      OneMoreStep(before, plan, n, fates, error);
      ArrivalIsDelivery(server.held, entry.key, fates[n]);
      updated := Deliver(entry, fates[n], error);
    }

    /** The next redelivery of the plan, if there is a slot for it. */
    method RedeliverNext(entry: Entry, n: nat, fates: seq<Fate>, error: Option<string>, slots: nat,
                         ghost plan: seq<Entry>, ghost start: World, ghost before: seq<Step>)
      returns (outcome: Option<EntryState>)
      requires n < |plan| && plan[n] == entry && entry.key in written
      requires |fates| >= DRAIN_MAX_ENTRIES && n <= DRAIN_MAX_ENTRIES && forall f :: f in fates ==> Honest(f)
      requires Conserved(start) && Drained(start, before, plan, n, fates, error)
      modifies this, server
      ensures old(written) <= written && (outcome.None? <==> n >= DRAIN_MAX_ENTRIES || n >= slots)
      ensures outcome.None? ==> Drained(start, before, plan, n, fates, error)
      ensures outcome.Some? ==> Drained(start, before, plan, n + 1, fates, error)
                                && (outcome.value.Delivered? <==> Arrives(fates[n]))
    {
      if n >= DRAIN_MAX_ENTRIES || n >= slots {
        return None;
      }
      assert fates[n] in fates;
      var updated := Redeliver(entry, n, fates, error, plan, start, before);
      outcome := Some(updated.state);
    }

    /** Redeliver these entries, oldest first, stopping at the first that is not delivered. */
    method DrainEntries(entries: seq<Entry>, skip: Key, fates: seq<Fate>, error: Option<string>, slots: nat,
                        ghost start: World, ghost before: seq<Step>)
      returns (lastState: Option<EntryState>)
      requires Valid() && Conserved(start) && Legal(start, before) && State() == Finally(start, before)
      requires forall e :: e in entries ==> e.key in written
      requires |fates| >= DRAIN_MAX_ENTRIES && forall f :: f in fates ==> Honest(f)
      modifies this, server
      ensures Drained(start, before, Select(entries, Drainable(skip)), AttemptCount(entries, skip, fates, slots),
                      fates, error)
      ensures lastState.Some? <==> AttemptCount(entries, skip, fates, slots) > 0
    {
      ghost var plan := Select(entries, Drainable(skip));
      lastState := None;
      var drained := 0;
      assert before + DeliverSteps(plan[..0], fates, error) == before;
      for i := 0 to |entries|
        invariant Reached(entries, skip, fates, slots, i, drained)
        invariant old(written) <= written && Drained(start, before, plan, drained, fates, error)
        invariant lastState.Some? <==> drained > 0
      {
        ReachedStep(entries, skip, fates, slots, i, drained);
        if entries[i].key == skip || !Retryable(entries[i]) {
          continue;
        }
        assert entries[i] in entries;
        var outcome := RedeliverNext(entries[i], drained, fates, error, slots, plan, start, before);
        if outcome.None? {
          return;
        }
        drained := drained + 1;
        lastState := outcome;
        if !outcome.value.Delivered? {
          return;
        }
      }
      ReachedEnd(entries, skip, fates, slots, drained);
    }

    /** Redeliver older entries while the clock allows. `slots` is how many attempts the time budget admits and
        `fates` what becomes of each. What is attempted is decided by the oldest entries that can be read. */
    method DrainBacklog(skip: Key, fates: seq<Fate>, error: Option<string>, slots: nat)
      returns (lastState: Option<EntryState>, ghost steps: seq<Step>)
      requires Valid() && Conserved(State())
      requires |fates| >= DRAIN_MAX_ENTRIES && forall f :: f in fates ==> Honest(f)
      modifies this, server
      ensures Valid() && Conserved(State())
      ensures Legal(old(State()), steps) && State() == Finally(old(State()), steps)
      ensures var read := Oldest(WithoutGarbled(old(files)), DRAIN_MAX_ENTRIES + 1);
              && |steps| > 0 && steps[0].Quarantine?
              && steps[1..] == DeliverSteps(Attempted(read, skip, fates, slots), fates, error)
              && (lastState.Some? <==> Attempted(read, skip, fates, slots) != [])
    {
      ghost var start := State();
      var entries, order := ReadEntries(DRAIN_MAX_ENTRIES + 1);
      RunsExtend(start, [], Quarantine(order));
      EntriesComeFromFiles(OldestFirst(files), files);
      ghost var first := [] + [Quarantine(order)];
      lastState := DrainEntries(entries, skip, fates, error, slots, start, first);
      steps := first + DeliverSteps(Attempted(entries, skip, fates, slots), fates, error);
      assert steps[1..] == DeliverSteps(Attempted(entries, skip, fates, slots), fates, error);
      RunsConserve(start, steps);
    }
  }

  lemma OneMoreStep(before: seq<Step>, plan: seq<Entry>, n: nat, fates: seq<Fate>, error: Option<string>)
    requires n < |plan| && n < |fates|
    ensures before + DeliverSteps(plan[..n + 1], fates, error)
            == before + DeliverSteps(plan[..n], fates, error) + [Step.Deliver(plan[n], fates[n], error)]
  {
    assert DeliverSteps(plan[..n + 1], fates, error)
        == DeliverSteps(plan[..n], fates, error) + [Step.Deliver(plan[n], fates[n], error)];
  }
}
