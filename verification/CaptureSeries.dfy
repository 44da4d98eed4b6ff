/** Drains that do not all go through: few slots, requests that get no answer, and refusals. */
module CaptureSeries {
  import opened Ordering
  import opened CaptureProtocol
  import opened CaptureSpool
  import opened CaptureDrain

  /** One drain: the capture just delivered, what becomes of the requests, and how many the clock admits. */
  datatype Drain = Drain(skip: Key, fates: seq<Fate>, slots: nat, error: Option<string>)

  ghost function AttemptedBy(files: map<Key, File>, d: Drain): seq<Entry>
    requires |d.fates| >= DRAIN_MAX_ENTRIES
  {
    Attempted(Oldest(files, READ_LIMIT), d.skip, d.fates, d.slots)
  }

  ghost function AfterOne(w: World, d: Drain): World
    requires |d.fates| >= DRAIN_MAX_ENTRIES
  {
    Finally(w, DeliverSteps(AttemptedBy(w.files, d), d.fates, d.error))
  }

  /** A status that counts against the capture: after three of those it is not tried again. */
  predicate CountsAgainst(fate: Fate) { fate.Replies? && ClassifyHttp(fate.refusal).Failed? }

  /** Requests of an honest server that arrive, or get lost, or meet a refusal that does not count. */
  predicate Mild(d: Drain) {
    |d.fates| >= DRAIN_MAX_ENTRIES && forall f :: f in d.fates ==> Honest(f) && !CountsAgainst(f)
  }

  /** The first request is made, and arrives. */
  predicate Opens(d: Drain) { d.slots > 0 && |d.fates| > 0 && Arrives(d.fates[0]) }

  // ---- what mild drains leave as it was -----------------------------------------------------

  /** Fewer files, of the same age, and as exhausted as before; the exhausted all still there. */
  ghost predicate Eased(before: map<Key, File>, after: map<Key, File>) {
    && Filed(after) && after.Keys <= before.Keys
    && (forall k :: k in after ==> Age(after, k) == Age(before, k) && (Exhausted(after, k) <==> Exhausted(before, k)))
    && (forall k :: k in before && Exhausted(before, k) ==> k in after)
  }

  lemma EasedTwice(a: map<Key, File>, b: map<Key, File>, c: map<Key, File>)
    requires Eased(a, b) && Eased(b, c)
    ensures Eased(a, c)
  {
  }

  /** An entry of the spool that may be retried. */
  ghost predicate MayTry(files: map<Key, File>, e: Entry) {
    e.key in files && Age(files, e.key) == e.createdAt && !Exhausted(files, e.key)
  }

  lemma MildDelivery(before: map<Key, File>, w: World, e: Entry, fate: Fate, error: Option<string>)
    requires Eased(before, w.files) && MayTry(before, e) && Honest(fate) && !CountsAgainst(fate)
    ensures Eased(before, AfterDelivery(w, e, fate, error).files)
    ensures forall k :: k != e.key && k !in w.files ==> k !in AfterDelivery(w, e, fate, error).files
  {
    var outcome := ClassifyHttp(StatusSeen(w.held, e.key, fate));
    assert outcome.Delivered? || outcome.Spooled?;
    assert Readable(Updated(e, outcome, error)).entry.createdAt == e.createdAt;
  }

  lemma {:induction false} MildSteps(before: map<Key, File>, w: World, tried: seq<Entry>, fates: seq<Fate>,
                                     error: Option<string>)
    requires Eased(before, w.files) && |fates| >= |tried|
    requires forall e :: e in tried ==> MayTry(before, e)
    requires forall f :: f in fates ==> Honest(f) && !CountsAgainst(f)
    ensures var after := Finally(w, DeliverSteps(tried, fates, error)).files;
            && Eased(before, after)
            && forall k :: k !in w.files && (forall e :: e in tried ==> e.key != k) ==> k !in after
    decreases |tried|
  {
    if tried == [] {
    } else {
      var steps := DeliverSteps(tried, fates, error);
      assert tried[0] in tried && fates[0] in fates && steps[0] == Step.Deliver(tried[0], fates[0], error);
      assert (forall e :: e in tried[1..] ==> e in tried) && forall f :: f in fates[1..] ==> f in fates;
      MildDelivery(before, w, tried[0], fates[0], error);
      assert steps[1..] == DeliverSteps(tried[1..], fates[1..], error);
      MildSteps(before, Next(w, steps[0]), tried[1..], fates[1..], error);
    }
  }

  lemma TriedMayBe(files: map<Key, File>, d: Drain)
    requires Filed(files) && |d.fates| >= DRAIN_MAX_ENTRIES
    ensures forall e :: e in AttemptedBy(files, d) ==> MayTry(files, e)
    ensures |AttemptedBy(files, d)| <= DRAIN_MAX_ENTRIES
  {
    var read := Oldest(files, READ_LIMIT);
    OldestAre(files, READ_LIMIT);
    SelectMembers(read, Drainable(d.skip));
    forall e | e in AttemptedBy(files, d) ensures MayTry(files, e) {
      assert e in Select(read, Drainable(d.skip)) && e in read;
      var p :| 0 <= p < |read| && read[p] == e;
      assert OldestFirst(files)[p] in files && files[OldestFirst(files)[p]].entry == e;
    }
  }

  /** A mild drain leaves the rest as it was. */
  lemma MildDrainEases(w: World, d: Drain)
    requires Filed(w.files) && Mild(d)
    ensures Eased(w.files, AfterOne(w, d).files)
  {
    TriedMayBe(w.files, d);
    MildSteps(w.files, w, AttemptedBy(w.files, d), d.fates, d.error);
  }

  // ---- a drain that opens makes room --------------------------------------------------------

  /** Fewer than six exhausted entries ahead: the first of the plan is no newer, and the others have other keys. */
  lemma FirstOfPlan(files: map<Key, File>, skip: Key, k: Key) returns (j: Key)
    requires Filed(files) && k in files && !Exhausted(files, k) && skip !in files
    requires |ExhaustedBefore(files, k)| < READ_LIMIT
    ensures j in files && !Exhausted(files, j) && (j == k || OlderThan(files, j, k))
    ensures var plan := Select(Oldest(files, READ_LIMIT), Drainable(skip));
            |plan| > 0 && plan[0].key == j && forall e :: e in plan[1..] ==> e.key != j
  {
    var order := OldestFirst(files);
    OldestFirstIsByAge(files);
    var p := FirstRetryable(order, files, k);
    j := order[p];
    assert j in order;
    AheadCount(order, files, p);
    SubsetCount(ToSet(order[..p]), ExhaustedBefore(files, k));
    PlanFrom(files, skip, p);
  }

  lemma PlanFrom(files: map<Key, File>, skip: Key, p: nat)
    requires Filed(files) && skip !in files && p < |OldestFirst(files)| && p < READ_LIMIT
    requires ByAgeIn(OldestFirst(files), files) && !Exhausted(files, OldestFirst(files)[p])
    requires forall q :: 0 <= q < p ==> Exhausted(files, OldestFirst(files)[q])
    ensures var plan, j := Select(Oldest(files, READ_LIMIT), Drainable(skip)), OldestFirst(files)[p];
            |plan| > 0 && plan[0].key == j && forall e :: e in plan[1..] ==> e.key != j
  {
    var read := Oldest(files, READ_LIMIT);
    OldestAre(files, READ_LIMIT);
    SelectFirst(read, Drainable(skip), p);
    OtherKeysAfter(OldestFirst(files), files, read, skip, p);
  }

  lemma OtherKeysAfter(order: seq<Key>, files: map<Key, File>, read: seq<Entry>, skip: Key, p: nat)
    requires ByAgeIn(order, files) && p < |read| <= |order|
    requires forall i :: 0 <= i < |read| ==> read[i].key == order[i]
    ensures forall e :: e in Select(read[p + 1..], Drainable(skip)) ==> e.key != order[p]
  {
    SelectMembers(read[p + 1..], Drainable(skip));
    forall e | e in read[p + 1..] ensures e.key != order[p] {
      var i :| p < i < |read| && read[i] == e;
      PositionsDiffer(order, files, p, i);
    }
  }

  lemma PositionsDiffer(order: seq<Key>, files: map<Key, File>, p: nat, q: nat)
    requires p < q < |order| && ByAgeIn(order, files)
    ensures order[p] != order[q]
  {
    OlderIsStrict(files, order[p], order[p], order[p]);
  }

  lemma OpenDrainRemovesFirst(w: World, d: Drain, k: Key) returns (j: Key)
    requires Filed(w.files) && k in w.files && !Exhausted(w.files, k) && d.skip !in w.files
    requires |ExhaustedBefore(w.files, k)| < READ_LIMIT && Mild(d) && Opens(d)
    ensures j in WaitingUpTo(w.files, k) && j !in AfterOne(w, d).files
  {
    j := FirstOfPlan(w.files, d.skip, k);
    var plan := Select(Oldest(w.files, READ_LIMIT), Drainable(d.skip));
    var tried := AttemptedBy(w.files, d);
    assert |tried| > 0 && tried[0] == plan[0] && forall i :: 0 < i < |tried| ==> tried[i] in plan[1..] by {
      assert forall i :: 0 < i < |plan| ==> plan[1..][i - 1] == plan[i];
    }
    TriedMayBe(w.files, d);
    FirstGoes(w, tried, d.fates, d.error);
  }

  lemma FirstGoes(w: World, tried: seq<Entry>, fates: seq<Fate>, error: Option<string>)
    requires Filed(w.files) && 0 < |tried| <= |fates| && Arrives(fates[0])
    requires forall e :: e in tried ==> MayTry(w.files, e)
    requires forall f :: f in fates ==> Honest(f) && !CountsAgainst(f)
    requires forall i :: 0 < i < |tried| ==> tried[i].key != tried[0].key
    ensures tried[0].key !in Finally(w, DeliverSteps(tried, fates, error)).files
  {
    var steps := DeliverSteps(tried, fates, error);
    assert tried[0] in tried && fates[0] in fates && steps[0] == Step.Deliver(tried[0], fates[0], error);
    DeliveryRemoves(w, tried[0], fates[0], error);
    MildDelivery(w.files, w, tried[0], fates[0], error);
    assert steps[1..] == DeliverSteps(tried[1..], fates[1..], error);
    assert (forall e :: e in tried[1..] ==> e in tried) && forall f :: f in fates[1..] ==> f in fates;
    MildSteps(w.files, Next(w, steps[0]), tried[1..], fates[1..], error);
  }

  // ---- a series of drains -------------------------------------------------------------------

  ghost predicate Series(files: map<Key, File>, ds: seq<Drain>) {
    forall d :: d in ds ==> Mild(d) && d.skip !in files
  }

  ghost function AfterSeries(w: World, ds: seq<Drain>): World
    requires forall d :: d in ds ==> Mild(d)
    decreases |ds|
  {
    if ds == [] then w
    else
      assert ds[0] in ds && Mild(ds[0]);
      AfterSeries(AfterOne(w, ds[0]), ds[1..])
  }

  function Openings(ds: seq<Drain>): nat {
    if ds == [] then 0 else (if Opens(ds[0]) then 1 else 0) + Openings(ds[1..])
  }

  lemma EasedWaiting(before: map<Key, File>, after: map<Key, File>, k: Key)
    requires Eased(before, after) && k in after
    ensures WaitingUpTo(after, k) <= WaitingUpTo(before, k)
    ensures ExhaustedBefore(after, k) == ExhaustedBefore(before, k)
  {
    forall j | j in after ensures OlderThan(after, j, k) <==> OlderThan(before, j, k) {}
  }

  lemma {:induction false} SeriesEases(w: World, ds: seq<Drain>)
    requires Filed(w.files) && forall d :: d in ds ==> Mild(d)
    ensures Eased(w.files, AfterSeries(w, ds).files)
    decreases |ds|
  {
    if ds == [] {
    } else {
      assert ds[0] in ds && forall d :: d in ds[1..] ==> d in ds;
      MildDrainEases(w, ds[0]);
      SeriesEases(AfterOne(w, ds[0]), ds[1..]);
      EasedTwice(w.files, AfterOne(w, ds[0]).files, AfterSeries(w, ds).files);
    }
  }

  /** Each drain that opens brings it nearer, and one that does not sets nothing back. */
  lemma OneNearer(w: World, d: Drain, k: Key)
    requires Filed(w.files) && k in w.files && !Exhausted(w.files, k) && d.skip !in w.files && Mild(d)
    requires |ExhaustedBefore(w.files, k)| < READ_LIMIT && k in AfterOne(w, d).files
    ensures |WaitingUpTo(AfterOne(w, d).files, k)| + (if Opens(d) then 1 else 0) <= |WaitingUpTo(w.files, k)|
  {
    var after := AfterOne(w, d).files;
    MildDrainEases(w, d);
    EasedWaiting(w.files, after, k);
    SubsetCount(WaitingUpTo(after, k), WaitingUpTo(w.files, k));
    if Opens(d) {
      var j := OpenDrainRemovesFirst(w, d, k);
      Fewer(WaitingUpTo(after, k), WaitingUpTo(w.files, k), j);
    }
  }

  lemma {:induction false} ReachedInSeries(w: World, ds: seq<Drain>, k: Key)
    requires Filed(w.files) && k in w.files && !Exhausted(w.files, k) && Series(w.files, ds)
    requires |ExhaustedBefore(w.files, k)| < READ_LIMIT && Openings(ds) >= |WaitingUpTo(w.files, k)|
    ensures k !in AfterSeries(w, ds).files
    decreases |ds|
  {
    Fewer({}, WaitingUpTo(w.files, k), k);
    if ds != [] {
      assert ds[0] in ds && forall d :: d in ds[1..] ==> d in ds;
      var next := AfterOne(w, ds[0]);
      MildDrainEases(w, ds[0]);
      if k in next.files {
        OneNearer(w, ds[0], k);
        EasedWaiting(w.files, next.files, k);
        ReachedInSeries(next, ds[1..], k);
      } else {
        SeriesEases(next, ds[1..]);
      }
    }
  }

  lemma {:induction false} HiddenInSeries(w: World, ds: seq<Drain>, k: Key)
    requires Hidden(w.files, k) && forall d :: d in ds ==> Mild(d)
    ensures k in AfterSeries(w, ds).files
    decreases |ds|
  {
    if ds != [] {
      assert ds[0] in ds && forall d :: d in ds[1..] ==> d in ds;
      MildDrainEases(w, ds[0]);
      HiddenStays(w, ds[0], k);
      EasedWaiting(w.files, AfterOne(w, ds[0]).files, k);
      HiddenInSeries(AfterOne(w, ds[0]), ds[1..], k);
    }
  }

  /** What no drain attempts, no drain removes. */
  lemma HiddenStays(w: World, d: Drain, k: Key)
    requires Hidden(w.files, k) && |d.fates| >= DRAIN_MAX_ENTRIES
    ensures k in AfterOne(w, d).files
  {
    var tried := AttemptedBy(w.files, d);
    SixAheadHide(w.files, d.skip, k);
    AttemptedIsPlanned(w.files, d.skip, d.fates, d.slots);
    forall e | e in tried ensures e.key != k {
      assert e in Plan(w.files, d.skip);
      assert e.key in KeysOfPlan(Plan(w.files, d.skip));
    }
    TriedMayBe(w.files, d);
    UntriedStays(w, tried, d.fates, d.error, k);
  }

  lemma {:induction false} UntriedStays(w: World, tried: seq<Entry>, fates: seq<Fate>, error: Option<string>, k: Key)
    requires k in w.files && |tried| <= |fates| && forall e :: e in tried ==> e.key != k
    ensures k in Finally(w, DeliverSteps(tried, fates, error)).files
    ensures Finally(w, DeliverSteps(tried, fates, error)).files[k] == w.files[k]
    decreases |tried|
  {
    if tried != [] {
      var steps := DeliverSteps(tried, fates, error);
      assert tried[0] in tried && forall e :: e in tried[1..] ==> e in tried;
      assert steps[0] == Step.Deliver(tried[0], fates[0], error);
      assert steps[1..] == DeliverSteps(tried[1..], fates[1..], error);
      UntriedStays(Next(w, steps[0]), tried[1..], fates[1..], error, k);
    }
  }

  function Unhindered(skip: Key): Drain {
    Drain(skip, seq(DRAIN_MAX_ENTRIES, _ => Replies(None, 200)), DRAIN_MAX_ENTRIES, None)
  }

  lemma {:induction false} AllOpen(skip: Key, n: nat) returns (ds: seq<Drain>)
    ensures Openings(ds) == n && forall d :: d in ds ==> Mild(d) && d.skip == skip
  {
    if n == 0 {
      ds := [];
    } else {
      var rest := AllOpen(skip, n - 1);
      ds := [Unhindered(skip)] + rest;
      assert ds[1..] == rest;
    }
  }

  /** Exactly when a waiting entry is reached for certain by drains of which enough open, whatever the slots and the
      losses: when fewer than six exhausted entries are older. Enough is as many as there are entries waiting up to
      it. */
  lemma ReachedInSeriesIff(w: World, k: Key, skip: Key)
    requires Filed(w.files) && k in w.files && !Exhausted(w.files, k) && skip !in w.files
    ensures (forall ds :: Series(w.files, ds) && Openings(ds) >= |WaitingUpTo(w.files, k)| ==>
                            k !in AfterSeries(w, ds).files)
            <==> |ExhaustedBefore(w.files, k)| <= DRAIN_MAX_ENTRIES
  {
    if |ExhaustedBefore(w.files, k)| <= DRAIN_MAX_ENTRIES {
      forall ds | Series(w.files, ds) && Openings(ds) >= |WaitingUpTo(w.files, k)|
        ensures k !in AfterSeries(w, ds).files
      {
        ReachedInSeries(w, ds, k);
      }
    } else {
      var ds := AllOpen(skip, |WaitingUpTo(w.files, k)|);
      assert Series(w.files, ds);
      HiddenInSeries(w, ds, k);
    }
  }

  // ---- refusals that count ------------------------------------------------------------------

  /** A capture refused for the third time, the sixth that is older and exhausted, hides the rest from then on. */
  lemma RefusalHides(w: World, e: Entry, refusal: int, accepted: int, error: Option<string>, k: Key)
    requires Filed(w.files) && k in w.files && k != e.key && OlderThan(w.files, e.key, k)
    requires e.key in w.files && w.files[e.key].entry == e && !Exhausted(w.files, e.key)
    requires e.attempts >= MAX_FAILED_ATTEMPTS - 1 && (refusal == 401 || refusal == 403 || refusal == 422)
    requires |ExhaustedBefore(w.files, k)| == DRAIN_MAX_ENTRIES
    ensures Hidden(AfterDelivery(w, e, Replies(Some(refusal), accepted), error).files, k)
  {
    var fate := Replies(Some(refusal), accepted);
    var after := AfterDelivery(w, e, fate, error).files;
    assert after == w.files[e.key := Readable(Updated(e, Failed, error))];
    forall j | j in w.files ensures OlderThan(after, j, k) <==> OlderThan(w.files, j, k) {}
    assert ExhaustedBefore(after, k) == ExhaustedBefore(w.files, k) + {e.key};
  }
}
