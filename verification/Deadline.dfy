/** One turn, one budget. Times are seconds on one monotonic clock, budgets whole milliseconds. */
module Deadline {
  import opened Ordering

  const ADVISOR_TIMEOUT_BUCKET_MS := 250

  datatype Budget = Budget(
    startedAt: real, budgetMs: int, backendBudgetMs: int, floorMs: int, parent: Option<Budget>)
  {
    function ElapsedMs(now: real): int { Max(0, ((now - startedAt) * 1000.0).Floor) }

    function OwnRemainingMs(now: real): int { Max(0, budgetMs - ElapsedMs(now)) }

    function RemainingMs(now: real): int {
      match parent
      case None => OwnRemainingMs(now)
      case Some(p) => Min(OwnRemainingMs(now), p.RemainingMs(now))
    }

    predicate Expired(now: real) { RemainingMs(now) <= 0 }

    predicate Allows(minimumMs: int, now: real) { RemainingMs(now) >= Max(minimumMs, floorMs) }

    function SliceMs(requestedMs: int, now: real): int {
      Max(0, Min(requestedMs, Min(backendBudgetMs, RemainingMs(now))))
    }

    function Child(now: real, budget: Option<int>, backend: Option<int>, floor: Option<int>): Budget {
      var remaining := RemainingMs(now);
      var requested := match budget case None => remaining case Some(b) => Max(0, b);
      Budget(now, Min(requested, remaining),
             Min(match backend case None => backendBudgetMs case Some(b) => Max(1, b), backendBudgetMs),
             match floor case None => floorMs case Some(f) => Max(0, f),
             Some(this))
    }

    function Root(): Budget {
      match parent
      case None => this
      case Some(p) => p.Root()
    }
  }

  function RetrievalChild(turn: Budget, now: real, enabled: bool, budgetMs: int): Budget {
    if enabled then turn.Child(now, Some(Max(0, budgetMs)), None, None) else turn
  }

  function AdvisorTimeoutBucketMs(remainingMs: int): int {
    Max(ADVISOR_TIMEOUT_BUCKET_MS, remainingMs / ADVISOR_TIMEOUT_BUCKET_MS * ADVISOR_TIMEOUT_BUCKET_MS)
  }

  // ---- children only shrink -----------------------------------------------------------------

  /** `d` is `a`, or was cut from something that descends from `a`. */
  ghost predicate Descends(d: Budget, a: Budget) {
    d == a || (d.parent.Some? && Descends(d.parent.value, a))
  }

  /** At every moment a descendant has no more left than any ancestor, and is never negative. */
  lemma {:induction false} DescendantNeverOutlives(d: Budget, a: Budget, now: real)
    requires Descends(d, a)
    ensures d.RemainingMs(now) <= a.RemainingMs(now)
    ensures a.Expired(now) ==> d.Expired(now)
  {
    if d == a {
    } else {
      DescendantNeverOutlives(d.parent.value, a, now);
    }
  }

  lemma {:induction false} DescendsFromRoot(d: Budget)
    ensures Descends(d, d.Root()) && d.Root().parent.None?
  {
    if d.parent.Some? {
      DescendsFromRoot(d.parent.value);
    }
  }

  lemma FloorSum(x: real, y: real)
    requires x >= 0.0 && y >= 0.0
    ensures x.Floor + y.Floor <= (x + y).Floor <= x.Floor + y.Floor + 1
  {
  }

  /** Cut one after another, on one clock that does not go back. */
  ghost predicate BornBy(b: Budget, t: real) {
    b.startedAt <= t && (b.parent.Some? ==> BornBy(b.parent.value, b.startedAt))
  }

  lemma {:induction false} ClockLagsByAtMostOne(p: Budget, start: real, born: real, now: real)
    requires BornBy(p, start) && start <= born <= now
    ensures p.RemainingMs(born) - ((now - born) * 1000.0).Floor <= p.RemainingMs(now) + 1
    ensures p.RemainingMs(now) >= 0
  {
    FloorSum((born - p.startedAt) * 1000.0, (now - born) * 1000.0);
    assert (born - p.startedAt) * 1000.0 + (now - born) * 1000.0 == (now - p.startedAt) * 1000.0;
    if p.parent.Some? {
      ClockLagsByAtMostOne(p.parent.value, p.startedAt, born, now);
    }
  }

  /** Why the parent is consulted at all: a child's own clock, restarted at its birth, may run one millisecond behind
      what its parent has left, at any depth, and never more. */
  lemma OwnClockLagsByAtMostOne(p: Budget, born: real, now: real, budget: Option<int>)
    requires BornBy(p, born) && born <= now
    ensures p.Child(born, budget, None, None).OwnRemainingMs(now) <= p.RemainingMs(now) + 1
  {
    ClockLagsByAtMostOne(p, born, born, now);
  }

  /** Born 0.6 ms into a budget of 10 ms and read 0.6 ms later, the child's clock says 10 ms and the parent's 9. */
  lemma OwnClockLagsByOne(p: Budget)
    requires p.startedAt == 0.0 && p.budgetMs == 10 && p.parent.None?
    ensures p.Child(0.0006, None, None, None).OwnRemainingMs(0.0012) == 10 && p.RemainingMs(0.0012) == 9
  {
  }

  /** A child cut at `born` never gets back what its parent had spent by then. */
  lemma ChildNeverRegrants(p: Budget, born: real, now: real, budget: Option<int>, backend: Option<int>,
                           floor: Option<int>, requestedMs: int)
    requires born <= now
    ensures var c := p.Child(born, budget, backend, floor);
            && c.RemainingMs(now) <= p.RemainingMs(now)
            && c.RemainingMs(now) <= Max(0, p.RemainingMs(born) - ((now - born) * 1000.0).Floor)
            && c.SliceMs(requestedMs, now) <= p.SliceMs(requestedMs, now)
  {
  }

  /** The retrieval budget never exceeds what the turn has left, and is the turn itself when the guard is off. */
  lemma RetrievalNeverOutlives(turn: Budget, born: real, now: real, enabled: bool, budgetMs: int)
    requires born <= now
    ensures RetrievalChild(turn, born, enabled, budgetMs).RemainingMs(now) <= turn.RemainingMs(now)
    ensures enabled ==> RetrievalChild(turn, born, enabled, budgetMs).RemainingMs(now) <= Max(0, budgetMs)
    ensures !enabled ==> RetrievalChild(turn, born, enabled, budgetMs) == turn
  {
  }

  // ---- a whole schedule ---------------------------------------------------------------------

  /** One dispatch under some budget of the tree, given the slice that budget had at the start. */
  datatype Dispatch = Dispatch(budget: Budget, requestedMs: int, start: real, finish: real) {
    function Slice(): int { budget.SliceMs(requestedMs, start) }
  }

  ghost predicate Obeys(d: Dispatch, root: Budget) {
    && Descends(d.budget, root) && root.startedAt <= d.start
    && d.Slice() > 0
    && d.start <= d.finish && (d.finish - d.start) * 1000.0 <= d.Slice() as real
  }

  ghost predicate Schedule(ds: seq<Dispatch>, root: Budget) {
    && root.parent.None?
    && (forall i :: 0 <= i < |ds| ==> Obeys(ds[i], root))
    && forall i :: 0 < i < |ds| ==> ds[i - 1].finish <= ds[i].start
  }

  function SpentMs(ds: seq<Dispatch>): real {
    if ds == [] then 0.0
    else SpentMs(ds[..|ds| - 1]) + (ds[|ds| - 1].finish - ds[|ds| - 1].start) * 1000.0
  }

  /** A single dispatch ends less than a millisecond past the root budget, however deep its budget is nested. */
  lemma DispatchBound(d: Dispatch, root: Budget)
    requires root.parent.None? && Obeys(d, root)
    ensures (d.finish - root.startedAt) * 1000.0 < (root.budgetMs + 1) as real
  {
    DescendantNeverOutlives(d.budget, root, d.start);
    var x := (d.start - root.startedAt) * 1000.0;
    assert d.Slice() <= root.RemainingMs(d.start) == root.budgetMs - x.Floor;
    assert (d.finish - root.startedAt) * 1000.0 == x + (d.finish - d.start) * 1000.0;
  }

  /** A whole schedule: every dispatch ends in time, and all of them together spend no more than the span. */
  lemma {:induction false} ScheduleBound(ds: seq<Dispatch>, root: Budget)
    requires Schedule(ds, root) && ds != []
    ensures forall i :: 0 <= i < |ds| ==> (ds[i].finish - root.startedAt) * 1000.0 < (root.budgetMs + 1) as real
    ensures SpentMs(ds) <= (ds[|ds| - 1].finish - root.startedAt) * 1000.0
    ensures SpentMs(ds) < (root.budgetMs + 1) as real
  {
    var front, last := ds[..|ds| - 1], ds[|ds| - 1];
    DispatchBound(last, root);
    if front == [] {
    } else {
      ScheduleBound(front, root);
      assert front[|front| - 1].finish <= last.start;
    }
  }

  /** Bucketing rounds down to a multiple of the bucket and exceeds what is left exactly below the gate. */
  lemma BucketFitsIff(remainingMs: int)
    ensures AdvisorTimeoutBucketMs(remainingMs) <= remainingMs <==> remainingMs >= ADVISOR_TIMEOUT_BUCKET_MS
    ensures AdvisorTimeoutBucketMs(remainingMs) % ADVISOR_TIMEOUT_BUCKET_MS == 0
    ensures remainingMs >= ADVISOR_TIMEOUT_BUCKET_MS ==>
              remainingMs - ADVISOR_TIMEOUT_BUCKET_MS < AdvisorTimeoutBucketMs(remainingMs)
  {
  }

  /** Gate on the minimum, then bucket: the advisor's timeout fits the root at any depth. */
  lemma GatedBucketFits(d: Budget, root: Budget, now: real)
    requires Descends(d, root) && d.Allows(ADVISOR_TIMEOUT_BUCKET_MS, now)
    ensures AdvisorTimeoutBucketMs(d.RemainingMs(now)) <= d.RemainingMs(now) <= root.RemainingMs(now)
  {
    DescendantNeverOutlives(d, root, now);
    BucketFitsIff(d.RemainingMs(now));
  }
}
