/** What the spool weighs, and what a failed delivery adds to it. */
module CaptureBytes {
  import opened Ordering
  import opened CaptureProtocol
  import opened CaptureHook

  /** The bytes on disk. */
  ghost function Bytes(files: map<Key, File>, sizes: Sizes): nat { TotalSize(OldestFirst(files), files, sizes) }

  lemma {:induction false} TotalOfParts(a: seq<Key>, b: seq<Key>, files: map<Key, File>, sizes: Sizes)
    ensures TotalSize(a + b, files, sizes) == TotalSize(a, files, sizes) + TotalSize(b, files, sizes)
  {
    if a == [] {
      assert a + b == b;
    } else {
      TotalOfParts(a[1..], b, files, sizes);
      assert (a + b)[1..] == a[1..] + b;
    }
  }

  lemma TakenOut(a: seq<Key>, b: seq<Key>, i: nat)
    requires multiset(a) == multiset(b) && a != [] && i < |b| && b[i] == a[0]
    ensures multiset(a[1..]) == multiset(b[..i] + b[i + 1..])
  {
    assert a == [a[0]] + a[1..] && b == b[..i] + [b[i]] + b[i + 1..];
    assert multiset(b[..i] + b[i + 1..]) == multiset(b) - multiset{b[i]};
    assert multiset(a[1..]) == multiset(a) - multiset{a[0]};
  }

  lemma TotalWithout(b: seq<Key>, i: nat, files: map<Key, File>, sizes: Sizes)
    requires i < |b|
    ensures TotalSize(b, files, sizes)
            == TotalSize([b[i]], files, sizes) + TotalSize(b[..i] + b[i + 1..], files, sizes)
  {
    assert b == b[..i] + ([b[i]] + b[i + 1..]);
    TotalOfParts(b[..i], [b[i]] + b[i + 1..], files, sizes);
    TotalOfParts([b[i]], b[i + 1..], files, sizes);
    TotalOfParts(b[..i], b[i + 1..], files, sizes);
  }

  /** The total does not depend on how the files are listed. */
  lemma {:induction false} TotalOfAnyListing(a: seq<Key>, b: seq<Key>, files: map<Key, File>, sizes: Sizes)
    requires multiset(a) == multiset(b)
    ensures TotalSize(a, files, sizes) == TotalSize(b, files, sizes)
  {
    if a == [] {
      assert |b| == |multiset(b)| == 0;
    } else {
      assert a[0] in multiset(a) && a[0] in multiset(b);
      var i :| 0 <= i < |b| && b[i] == a[0];
      TakenOut(a, b, i);
      TotalOfAnyListing(a[1..], b[..i] + b[i + 1..], files, sizes);
      TotalWithout(b, i, files, sizes);
      TotalWithout(a, 0, files, sizes);
      assert a[..0] + a[1..] == a[1..];
    }
  }

  lemma {:induction false} TotalReads(keys: seq<Key>, files: map<Key, File>, other: map<Key, File>, sizes: Sizes)
    requires forall k :: k in keys ==> k in files && k in other && files[k] == other[k]
    ensures TotalSize(keys, files, sizes) == TotalSize(keys, other, sizes)
  {
    if keys == [] {
    } else {
      assert keys == [keys[0]] + keys[1..];
      TotalReads(keys[1..], files, other, sizes);
    }
  }

  lemma OldestFirstLists(files: map<Key, File>)
    ensures multiset(OldestFirst(files)) == multiset(files.Keys)
  {
    ByAgeIsStrictTotal(files);
    ListingIsExact(files.Keys);
    SortIsSortedPermutation(Listing(files.Keys), ByAge(files));
  }

  lemma OneMoreFile(files: map<Key, File>, k: Key, f: File, sizes: Sizes)
    requires k !in files
    ensures Bytes(files[k := f], sizes) == Bytes(files, sizes) + SizeOf(f, sizes)
  {
    var more, order := files[k := f], OldestFirst(files);
    OneMoreListed(files, k, f);
    TotalOfAnyListing(OldestFirst(more), [k] + order, more, sizes);
    assert ([k] + order)[1..] == order;
    OldestFirstFacts(files);
    TotalReads(order, more, files, sizes);
  }

  lemma OneMoreListed(files: map<Key, File>, k: Key, f: File)
    requires k !in files
    ensures multiset(OldestFirst(files[k := f])) == multiset([k] + OldestFirst(files))
  {
    OldestFirstLists(files);
    OldestFirstLists(files[k := f]);
    assert files[k := f].Keys == files.Keys + {k};
  }

  /** Files that all weigh the same. */
  lemma {:induction false} BytesOfAlike(files: map<Key, File>, sizes: Sizes, weight: nat)
    requires forall k :: k in files ==> SizeOf(files[k], sizes) == weight
    ensures Bytes(files, sizes) == |files| * weight
    decreases |files|
  {
    if files == map[] {
      OldestFirstFacts(files);
    } else {
      var k :| k in files;
      var rest := files - {k};
      OneApart(files, k);
      BytesOfAlike(rest, sizes, weight);
      OneMoreFile(rest, k, files[k], sizes);
      OneMoreTime(|rest|, weight);
    }
  }

  lemma OneMoreTime(n: nat, weight: nat)
    ensures (n + 1) * weight == n * weight + weight
  {
  }

  lemma OneApart(files: map<Key, File>, k: Key)
    requires k in files
    ensures (files - {k})[k := files[k]] == files && |files| == |files - {k}| + 1
  {
    assert files.Keys == (files - {k}).Keys + {k};
    assert |files| == |files.Keys| && |files - {k}| == |(files - {k}).Keys|;
  }

  /** After eviction the spool is within the byte cap. */
  lemma EvictionFits(files: map<Key, File>, sizes: Sizes, maxFiles: int, maxBytes: int)
    requires maxFiles >= 0 && maxBytes >= 0
    ensures Bytes(files - ToSet(EvictedBy(files, sizes, maxFiles, maxBytes)), sizes) <= maxBytes
  {
    var order := OldestFirst(files);
    var n := Evictions(order, files, sizes, maxFiles, maxBytes);
    EvictionIsShortest(order, files, sizes, maxFiles, maxBytes);
    RestIsSuffix(files, n);
    var rest := files - ToSet(order[..n]);
    TotalOfAnyListing(OldestFirst(rest), order[n..], rest, sizes);
    TotalReads(order[n..], rest, files, sizes);
  }

  lemma SuffixCounts(order: seq<Key>, n: nat, k: Key)
    requires n <= |order| && multiset(order)[k] <= 1
    ensures multiset(order[n..])[k] == if k in order && k !in order[..n] then 1 else 0
  {
    assert order == order[..n] + order[n..];
    assert multiset(order)[k] == multiset(order[..n])[k] + multiset(order[n..])[k];
    assert k in order <==> multiset(order)[k] > 0;
    assert k in order[..n] <==> multiset(order[..n])[k] > 0;
  }

  lemma SuffixIsRest(order: seq<Key>, files: map<Key, File>, rest: map<Key, File>, n: nat)
    requires n <= |order| && multiset(order) == multiset(files.Keys) && rest == files - ToSet(order[..n])
    ensures multiset(order[n..]) == multiset(rest.Keys)
  {
    forall k ensures multiset(order[n..])[k] == multiset(rest.Keys)[k] {
      SuffixCounts(order, n, k);
      assert k in order <==> k in multiset(order);
      assert k in rest <==> k in files && k !in order[..n];
    }
  }

  lemma RestIsSuffix(files: map<Key, File>, n: nat)
    requires n <= |OldestFirst(files)|
    ensures var order, rest := OldestFirst(files), files - ToSet(OldestFirst(files)[..n]);
            && multiset(OldestFirst(rest)) == multiset(order[n..])
            && forall k :: k in order[n..] ==> k in rest && k in files && rest[k] == files[k]
  {
    var order := OldestFirst(files);
    var rest := files - ToSet(order[..n]);
    OldestFirstLists(files);
    OldestFirstLists(rest);
    SuffixIsRest(order, files, rest, n);
    forall k | k in order[n..] ensures k in rest { assert k in multiset(order[n..]); }
  }

  /** Exactly when a failed run ends within the byte cap: what the eviction spared of the other files and the rewritten
      capture, which now carries its error, fit together. */
  lemma ByteCapAfterFailedRunIff(w: World, e: Entry, sizes: Sizes, fate: Fate, error: Option<string>,
                                 maxFiles: int, maxBytes: int)
    requires maxFiles >= 0 && maxBytes >= 0 && Honest(fate)
    ensures var w1 := AfterEvict(AfterWrite(w, e), sizes, maxFiles, maxBytes);
            var w2 := AfterDelivery(w1, e, fate, error);
            var outcome := ClassifyHttp(StatusSeen(w1.held, e.key, fate));
            && Bytes(w1.files, sizes) <= maxBytes
            && (e.key in w1.files ==> Bytes(w1.files, sizes) == Bytes(w1.files - {e.key}, sizes) + sizes(e))
            && (!outcome.Delivered? ==>
                  (Bytes(w2.files, sizes) <= maxBytes <==>
                     Bytes(w1.files - {e.key}, sizes) + sizes(Updated(e, outcome, error)) <= maxBytes))
  {
    var w1 := AfterEvict(AfterWrite(w, e), sizes, maxFiles, maxBytes);
    var w2 := AfterDelivery(w1, e, fate, error);
    var outcome := ClassifyHttp(StatusSeen(w1.held, e.key, fate));
    var others := w1.files - {e.key};
    EvictionFits(AfterWrite(w, e).files, sizes, maxFiles, maxBytes);
    DeliveredMeansHeld(w1, e, fate, error);
    if e.key in w1.files {
      OneMoreFile(others, e.key, Readable(e), sizes);
      assert others[e.key := Readable(e)] == w1.files;
    }
    if !outcome.Delivered? {
      OneMoreFile(others, e.key, Readable(Updated(e, outcome, error)), sizes);
      assert others[e.key := Readable(Updated(e, outcome, error))] == w2.files;
    }
  }

  // ---- ordinary captures --------------------------------------------------------------------

  function Spooling(key: Key, at: int): Entry { Entry(key, "", at, 0, None, Spooled) }

  /** A spool of captures that were never tried, all from one instant. */
  ghost function Waiting(keys: set<Key>): World {
    World(map k | k in keys :: Readable(Spooling(k, 0)), {}, [], [], keys)
  }

  lemma WaitingFacts(keys: set<Key>, newer: Key)
    requires newer !in keys
    ensures var files := AfterWrite(Waiting(keys), Spooling(newer, 1)).files;
            && Conserved(Waiting(keys)) && |Waiting(keys).files| == |keys|
            && |files| == |keys| + 1 && files.Keys == keys + {newer} && files - {newer} == Waiting(keys).files
            && forall k :: k in files && k != newer ==> OlderThan(files, k, newer)
  {
    var w := Waiting(keys);
    var files := AfterWrite(w, Spooling(newer, 1)).files;
    assert w.files.Keys == keys && files.Keys == keys + {newer};
    assert |files| == |files.Keys| && |w.files| == |w.files.Keys|;
  }

  const ORDINARY := 32 * 1024

  /** Captures of 32 KiB, and a byte more where a failure is recorded. */
  function OrdinarySizes(): Sizes { (x: Entry) => if x.lastError.Some? then ORDINARY + 1 else ORDINARY }

  /** 256 ordinary captures fill the spool to the byte. None of them is evicted, and once the last fails to arrive,
      its copy, longer by the error, no longer fits. */
  lemma ByteCapBreaks(older: set<Key>, key: Key, error: string)
    requires |older| == 255 && key !in older
    ensures var w, e, sizes := Waiting(older), Spooling(key, 1), OrdinarySizes();
            var w1 := AfterEvict(AfterWrite(w, e), sizes, DEFAULT_MAX_FILES, DEFAULT_MAX_BYTES);
            && Conserved(w) && w1.files == AfterWrite(w, e).files && Bytes(w1.files, sizes) == DEFAULT_MAX_BYTES
            && Bytes(AfterDelivery(w1, e, NeverArrives, Some(error)).files, sizes) == DEFAULT_MAX_BYTES + 1
  {
    var w, e, sizes := Waiting(older), Spooling(key, 1), OrdinarySizes();
    WaitingFacts(older, key);
    OrdinaryWeight(older, key);
    NothingGoes(AfterWrite(w, e), sizes, DEFAULT_MAX_FILES, DEFAULT_MAX_BYTES);
    LongerByOne(w, AfterEvict(AfterWrite(w, e), sizes, DEFAULT_MAX_FILES, DEFAULT_MAX_BYTES), e, error);
  }

  lemma OrdinaryWeight(older: set<Key>, key: Key)
    requires |older| == 255 && key !in older
    ensures var files := AfterWrite(Waiting(older), Spooling(key, 1)).files;
            |files| == 256 && Bytes(files, OrdinarySizes()) == DEFAULT_MAX_BYTES
  {
    var files := AfterWrite(Waiting(older), Spooling(key, 1)).files;
    WaitingFacts(older, key);
    forall k | k in files ensures SizeOf(files[k], OrdinarySizes()) == ORDINARY {}
    BytesOfAlike(files, OrdinarySizes(), ORDINARY);
  }

  /** An undelivered ordinary capture weighs one more for its error. */
  lemma LongerByOne(w: World, w1: World, e: Entry, error: string)
    requires w1.files == w.files[e.key := Readable(e)] && e.key !in w.files && e.lastError.None?
    ensures Bytes(AfterDelivery(w1, e, NeverArrives, Some(error)).files, OrdinarySizes())
            == Bytes(w1.files, OrdinarySizes()) + 1
  {
    var f := Readable(Updated(e, Spooled, Some(error)));
    assert AfterDelivery(w1, e, NeverArrives, Some(error)).files == w.files[e.key := f];
    OneMoreFile(w.files, e.key, f, OrdinarySizes());
    OneMoreFile(w.files, e.key, Readable(e), OrdinarySizes());
  }

  lemma NothingGoes(w: World, sizes: Sizes, maxFiles: int, maxBytes: int)
    requires |w.files| <= maxFiles && Bytes(w.files, sizes) <= maxBytes
    ensures AfterEvict(w, sizes, maxFiles, maxBytes).files == w.files
  {
    OldestFirstFacts(w.files);
    assert ToSet([]) == {};
  }

  lemma OldestGoes(files: map<Key, File>, newest: Key, sizes: Sizes, maxFiles: int, maxBytes: int) returns (k: Key)
    requires newest in files && maxFiles >= 1 && SizeOf(files[newest], sizes) <= maxBytes
    requires |files| > maxFiles || Bytes(files, sizes) > maxBytes
    requires forall j :: j in files && j != newest ==> OlderThan(files, j, newest)
    ensures k in files && k != newest && k in EvictedBy(files, sizes, maxFiles, maxBytes)
    ensures newest !in EvictedBy(files, sizes, maxFiles, maxBytes)
  {
    NewestIsEvictedIff(files, newest, sizes, maxFiles, maxBytes);
    OldestFirstFacts(files);
    var evicted := EvictedBy(files, sizes, maxFiles, maxBytes);
    assert OldestFirst(files) != [] && !UnderCaps(OldestFirst(files), files, sizes, maxFiles, maxBytes);
    k := evicted[0];
    assert k in evicted && k in OldestFirst(files);
  }

  /** The facts of a run that writes this capture into this spool and has it delivered, with no time left to drain. */
  ghost function DeliveredRun(w: World, e: Entry, sizes: Sizes, now: int): RunFacts {
    RunFacts(|EvictedBy(AfterWrite(w, e).files, sizes, DEFAULT_MAX_FILES, DEFAULT_MAX_BYTES)|, Delivered, None, None,
             None, |(AfterEvict(AfterWrite(w, e), sizes, DEFAULT_MAX_FILES, DEFAULT_MAX_BYTES).files - {e.key})|, now)
  }

  /** With 500 captures waiting, each of a thousand bytes, a run that delivers one more evicts one of them: the state
      then says delivered, with no gap open, although the evicted capture is neither pending nor held. */
  lemma LostQuietly(older: set<Key>, newer: Key, r: Record, now: int) returns (lost: Key)
    requires |older| == DEFAULT_MAX_FILES && newer !in older
    ensures lost in older
    ensures var w, e, sizes := Waiting(older), Spooling(newer, 1), (x: Entry) => 1000;
            var w1 := AfterEvict(AfterWrite(w, e), sizes, DEFAULT_MAX_FILES, DEFAULT_MAX_BYTES);
            var w2 := AfterDelivery(w1, e, Replies(None, 200), None);
            var after := FoldRun(r, DeliveredRun(w, e, sizes, now));
            && Conserved(w) && newer in w2.held
            && lost !in w2.files && lost !in w2.held && InGaps(w2.gaps, lost)
            && after.visible == Last(Delivered) && after.gapSince.None?
  {
    var w, e, sizes := Waiting(older), Spooling(newer, 1), (x: Entry) => 1000;
    WaitingFacts(older, newer);
    var files := AfterWrite(w, e).files;
    lost := OldestGoes(files, newer, sizes, DEFAULT_MAX_FILES, DEFAULT_MAX_BYTES);
    EvictedIsNamed(AfterWrite(w, e), lost, sizes);
    ArrivesAndGoes(AfterEvict(AfterWrite(w, e), sizes, DEFAULT_MAX_FILES, DEFAULT_MAX_BYTES), e, lost);
    ReadsDelivered(r, w, e, sizes, now);
  }

  lemma EvictedIsNamed(w: World, k: Key, sizes: Sizes)
    requires k in EvictedBy(w.files, sizes, DEFAULT_MAX_FILES, DEFAULT_MAX_BYTES)
    ensures var after := AfterEvict(w, sizes, DEFAULT_MAX_FILES, DEFAULT_MAX_BYTES);
            k !in after.files && InGaps(after.gaps, k) && after.held == w.held
  {
    GapsForCovers(w.gaps, EvictedBy(w.files, sizes, DEFAULT_MAX_FILES, DEFAULT_MAX_BYTES), EvictedFull);
  }

  lemma ArrivesAndGoes(w: World, e: Entry, other: Key)
    requires w.held == [] && other != e.key && other !in w.files && InGaps(w.gaps, other)
    ensures var after := AfterDelivery(w, e, Replies(None, 200), None);
            e.key in after.held && other !in after.held && other !in after.files && InGaps(after.gaps, other)
  {
  }

  lemma ReadsDelivered(r: Record, w: World, e: Entry, sizes: Sizes, now: int)
    ensures var after := FoldRun(r, DeliveredRun(w, e, sizes, now));
            after.visible == Last(Delivered) && after.gapSince.None?
  {
  }
}
