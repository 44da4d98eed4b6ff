/** What a benchmark report may be trusted for. */
module FidelityLaws {
  import opened Ordering
  import opened Evidence
  import opened DecisionPolicy
  import opened FidelityEvaluator
  import DecisionLaws

  // ---- no case sees its own future ----------------------------------------------------------

  lemma {:induction false} VotersAreRows(bs: seq<Ballot>, id: string)
    requires id in Voters(bs)
    ensures exists b :: b in bs && b.row.id == id
  {
    var front, last := bs[..|bs| - 1], bs[|bs| - 1];
    assert bs == front + [last];
    if id in Voters(front) {
      VotersAreRows(front, id);
      var b :| b in front && b.row.id == id;
      assert b in bs;
    } else {
      assert last in bs;
    }
  }

  /** Among these rows one has this id and was in force at this instant. */
  ghost predicate SpokenBy(rows: seq<Row>, id: string, at: int) {
    exists r :: r in rows && r.id == id && InForce(r, at)
  }

  /** A prediction cites only rows it was given, each in force at the instant asked about. */
  lemma CitationsAreGiven(rows: seq<Row>, q: Query, at: int, offered: seq<Choice>,
                          minConfidence: real, id: string)
    ensures id in Predicted(rows, q, at, offered, minConfidence).citations ==> SpokenBy(rows, id, at)
  {
    var eligible := Eligible(rows, at, true);
    if id in Predicted(rows, q, at, offered, minConfidence).citations {
      var scored := Neighbours(q, at, eligible, MAX_NEIGHBOURS);
      var bs := Ballots(q, at, AtMost(offered, 20), scored);
      assert id in Voters(bs);
      VotersAreRows(bs, id);
      var b :| b in bs && b.row.id == id;
      var i :| 0 <= i < |bs| && bs[i] == b;
      assert scored[i] == b.row;
      DecisionLaws.NeighboursAreEligible(q, at, eligible, MAX_NEIGHBOURS);
      EligibleIsInForce(rows, at, true, b.row);
    }
  }

  lemma CaseBeforeIsWeak()
    ensures StrictWeak(CaseBefore)
  {
    TextLessIsStrictTotal();
  }

  lemma ChronologicalIsSorted(cases: seq<Case>, limit: nat)
    ensures Sorted(Chronological(cases, limit), CaseBefore)
  {
    CaseBeforeIsWeak();
    SortIsSortedPermutation(Select(cases, ActiveAtOwnTime(RowsById(RowsOf(cases)))), CaseBefore);
  }

  /** Some case before position `k` has this id, does not come after the case there, and was in force at its instant. */
  ghost predicate SpokenBefore(rows: seq<Case>, k: nat, id: string)
    requires k < |rows|
  {
    exists j :: 0 <= j < k && rows[j].row.id == id && !CaseBefore(rows[k], rows[j])
                && InForce(rows[j].row, rows[k].row.ts)
  }

  /** A way of scoring that cites only rows it was given, each in force at the instant of the case. */
  ghost predicate CitesWhatItWasGiven(score: Scoring) {
    forall train, c, id :: id in score(train, c).citations ==> SpokenBy(train, id, c.row.ts)
  }

  lemma RowsComeFrom(rows: seq<Case>, k: nat, id: string)
    requires Sorted(rows, CaseBefore) && k < |rows| && SpokenBy(RowsOf(rows[..k]), id, rows[k].row.ts)
    ensures SpokenBefore(rows, k, id)
  {
    var train := RowsOf(rows[..k]);
    var r :| r in train && r.id == id && InForce(r, rows[k].row.ts);
    var j :| 0 <= j < |train| && train[j] == r;
    assert rows[..k][j].row == r && rows[j] == rows[..k][j];
  }

  /** Scored from what comes before, nothing is cited that does not. */
  lemma CitesItsPast(rows: seq<Case>, split: nat, score: Scoring, i: nat, id: string)
    requires CitesWhatItWasGiven(score) && Sorted(rows, CaseBefore) && split + i < |rows|
    ensures id in ScoredFrom(rows, split, score)[i].citations ==> SpokenBefore(rows, split + i, id)
  {
    if id in ScoredFrom(rows, split, score)[i].citations { RowsComeFrom(rows, split + i, id); }
  }

  lemma ScorerCitesWhatItWasGiven(decay: int -> real, minConfidence: real)
    ensures CitesWhatItWasGiven(Scorer(decay, minConfidence))
  {
    forall train, c, id ensures id in Scorer(decay, minConfidence)(train, c).citations ==>
                                  SpokenBy(train, id, c.row.ts)
    {
      CitationsAreGiven(train, QueryOf(c, decay), c.row.ts, c.available, minConfidence, id);
    }
  }

  /** Each case cites only rows that come earlier in the order of time and id and were in force at its instant. */
  lemma NeverLooksAhead(cases: seq<Case>, limit: nat, split: nat, decay: int -> real,
                        minConfidence: real, i: nat, id: string)
    requires split + i < |Chronological(cases, limit)|
    ensures var rows := Chronological(cases, limit);
            id in Results(rows, split, decay, minConfidence)[i].citations ==> SpokenBefore(rows, split + i, id)
  {
    ChronologicalIsSorted(cases, limit);
    ScorerCitesWhatItWasGiven(decay, minConfidence);
    CitesItsPast(Chronological(cases, limit), split, Scorer(decay, minConfidence), i, id);
  }

  /** The window is the newest of the usable cases. */
  lemma ChronologicalKeepsTheNewest(cases: seq<Case>, limit: nat, kept: Case, other: Case)
    requires kept in Chronological(cases, limit) && other in cases && other !in Chronological(cases, limit)
    requires ActiveAtOwnTime(RowsById(RowsOf(cases)))(other)
    ensures kept in cases && ActiveAtOwnTime(RowsById(RowsOf(cases)))(kept) && !CaseBefore(kept, other)
  {
    var p := ActiveAtOwnTime(RowsById(RowsOf(cases)));
    var all := Sort(Select(cases, p), CaseBefore);
    UsableInOrder(cases, p);
    LastAreNewest(all, limit, kept, other);
  }

  lemma UsableInOrder(cases: seq<Case>, p: Case -> bool)
    ensures Sorted(Sort(Select(cases, p), CaseBefore), CaseBefore)
    ensures forall c :: c in Sort(Select(cases, p), CaseBefore) <==> c in cases && p(c)
  {
    CaseBeforeIsWeak();
    SelectMembers(cases, p);
    SortMembers(Select(cases, p), CaseBefore);
    SortIsSortedPermutation(Select(cases, p), CaseBefore);
  }

  lemma LastAreNewest(all: seq<Case>, limit: nat, kept: Case, other: Case)
    requires Sorted(all, CaseBefore)
    requires kept in LastOf(all, limit) && other in all && other !in LastOf(all, limit)
    ensures kept in all && !CaseBefore(kept, other)
  {
    var start := if |all| > limit then |all| - limit else 0;
    assert LastOf(all, limit) == all[start..];
    var i :| 0 <= i < |all[start..]| && all[start..][i] == kept;
    var j :| 0 <= j < |all| && all[j] == other;
    assert all[start + i] == kept;
    assert j < start;
  }

  lemma RankedSharesAreUnit(bs: seq<Ballot>)
    requires RankedKeys(bs) != []
    ensures 0.0 <= RankedOptions(bs)[0].share <= 1.0
  {
    RankedKeysFacts(bs);
    var keys := RankedKeys(bs);
    var total := VotesOver(bs, keys);
    DecisionLaws.TotalIsPositive(bs);
    DecisionLaws.VotesAreFloored(bs, keys[0]);
    DecisionLaws.VotesOverBounds(bs, keys, keys[0]);
    Quotient(VotesFor(bs, keys[0]), total);
    AtMostQuotient(VotesFor(bs, keys[0]), total, total);
    DecisionLaws.WholeIsOne(total);
  }

  lemma ScaledDown(share: real, factor: real)
    requires share >= 0.0 && 0.0 <= factor <= 1.0
    ensures 0.0 <= share * factor <= share
  {
  }

  lemma ConfidenceIsDiscounted(share: real, nearest: real)
    requires 0.0 <= share <= 1.0 && nearest >= 0.0
    ensures 0.0 <= Confidence(share, nearest) <= share
  {
    ScaledDown(share, Least(1.0, nearest));
  }

  lemma PredictFromIsBounded(bs: seq<Ballot>, ranked: seq<RankedOption>, citations: seq<string>, minConfidence: real)
    requires bs != [] && bs[0].similarity >= 0.0 && (ranked != [] ==> 0.0 <= ranked[0].share <= 1.0)
    ensures var p := PredictFrom(bs, ranked, citations, minConfidence);
            && 0.0 <= p.confidence <= 1.0 && (ranked == [] <==> p.ranked == [])
            && (ranked == [] ==> p.confidence == 0.0)
            && (ranked != [] ==> p.ranked[0] == ranked[0] && p.confidence <= ranked[0].share)
  {
    ConfidenceIsDiscounted(if ranked == [] then 0.0 else ranked[0].share, bs[0].similarity);
  }

  /** A confidence is a number between nothing and the winner's own share of the vote. */
  lemma ConfidenceIsBounded(rows: seq<Row>, q: Query, at: int, offered: seq<Choice>,
                            minConfidence: real)
    requires Decays(q)
    ensures var p := Predicted(rows, q, at, offered, minConfidence);
            && 0.0 <= p.confidence <= 1.0 && (p.ranked == [] ==> p.confidence == 0.0)
            && (p.ranked != [] ==> p.confidence <= p.ranked[0].share)
  {
    var eligible := Eligible(rows, at, true);
    if eligible != [] {
      var scored := Neighbours(q, at, eligible, MAX_NEIGHBOURS);
      DecisionLaws.NeighboursAreEligible(q, at, eligible, MAX_NEIGHBOURS);
      var bs := Ballots(q, at, AtMost(offered, 20), scored);
      SimilarityIsUnit(q, scored[0], at);
      if RankedKeys(bs) != [] { RankedSharesAreUnit(bs); }
      PredictFromIsBounded(bs, RankedOptions(bs), Voters(bs), minConfidence);
    }
  }

  /** A case's result is settled once it has been replayed: later rows leave it as it was. */
  lemma LaterRowsChangeNothing(cases: seq<Case>, more: seq<Case>, split: nat, decay: int -> real,
                               minConfidence: real)
    requires split <= |cases|
    ensures Results(cases + more, split, decay, minConfidence)[..|cases| - split]
            == Results(cases, split, decay, minConfidence)
  {
    LaterRowsScoreNothing(cases, more, split, Scorer(decay, minConfidence));
  }

  lemma LaterRowsScoreNothing(cases: seq<Case>, more: seq<Case>, split: nat, score: Scoring)
    requires split <= |cases|
    ensures ScoredFrom(cases + more, split, score)[..|cases| - split] == ScoredFrom(cases, split, score)
  {
    var all := ScoredFrom(cases + more, split, score);
    forall i | 0 <= i < |cases| - split ensures all[i] == ScoredFrom(cases, split, score)[i] {
      assert (cases + more)[..split + i] == cases[..split + i];
    }
  }

  // ---- the counters cohere ------------------------------------------------------------------

  ghost predicate Coherent(r: CaseResult) {
    && (r.correct ==> !r.abstained && r.top3 && r.pairHits == r.pairTotal)
    && r.pairHits <= r.pairTotal
  }

  lemma {:induction false} BeatenAtMost(available: seq<Choice>, actual: string, keys: seq<string>)
    ensures Beaten(available, actual, keys) <= Alternatives(available, actual)
    ensures keys != [] && keys[0] == actual ==> Beaten(available, actual, keys) == Alternatives(available, actual)
  {
    if available == [] {
    } else {
      BeatenAtMost(available[..|available| - 1], actual, keys);
      if keys != [] { FirstBeatsAll(keys, available[|available| - 1].key); }
    }
  }

  lemma FirstBeatsAll(keys: seq<string>, other: string)
    requires keys != []
    ensures other != keys[0] ==> RankIn(keys, keys[0]) < RankIn(keys, other)
  {
  }

  lemma PredictFromShape(bs: seq<Ballot>, ranked: seq<RankedOption>, citations: seq<string>, minConfidence: real)
    requires bs != []
    ensures var p := PredictFrom(bs, ranked, citations, minConfidence);
            && (p.abstained <==> p.choice.None?)
            && (!p.abstained ==> p.ranked != [] && p.choice == Some(p.ranked[0].option))
  {
  }

  lemma PredictionShape(rows: seq<Row>, q: Query, at: int, offered: seq<Choice>, minConfidence: real)
    ensures var p := Predicted(rows, q, at, offered, minConfidence);
            && (p.abstained <==> p.choice.None?)
            && (!p.abstained ==> p.ranked != [] && p.choice == Some(p.ranked[0].option))
  {
    var eligible := Eligible(rows, at, true);
    if eligible != [] {
      var bs := Ballots(q, at, AtMost(offered, 20), Neighbours(q, at, eligible, MAX_NEIGHBOURS));
      PredictFromShape(bs, RankedOptions(bs), Voters(bs), minConfidence);
    }
  }

  lemma ResultIsCoherent(train: seq<Row>, c: Case, decay: int -> real, minConfidence: real)
    ensures Coherent(ResultOf(train, c, decay, minConfidence))
  {
    var p := Predicted(train, QueryOf(c, decay), c.row.ts, c.available, minConfidence);
    assert KeysOf(p.ranked) == [] <==> p.ranked == [];
    PredictionShape(train, QueryOf(c, decay), c.row.ts, c.available, minConfidence);
    var keys, actual := KeysOf(p.ranked), ChoiceKey(c.row);
    BeatenAtMost(c.available, actual, keys);
    assert keys != [] ==> AtMost(keys, 3)[0] == keys[0];
  }

  /** Top-1 hits are exactly the answered cases that were right, and are among the top-3 hits; every abstention is
      a wrong case. */
  lemma {:induction false} CountersCohere(rs: seq<CaseResult>)
    requires forall r :: r in rs ==> Coherent(r)
    ensures var c := CountersOf(rs);
            && c.top1 == c.answeredCorrect <= c.answered <= |rs|
            && c.top1 <= c.top3 <= |rs|
            && c.wrong == |rs| - c.top1 && c.wrongAbstained == |rs| - c.answered
            && c.majority <= |rs| && c.pairHits <= c.pairTotal
  {
    if rs == [] {
    } else {
      assert rs[|rs| - 1] in rs;
      CountersCohere(rs[..|rs| - 1]);
    }
  }

  lemma ResultsCohere(cases: seq<Case>, split: nat, decay: int -> real, minConfidence: real)
    requires split <= |cases|
    ensures forall r :: r in Results(cases, split, decay, minConfidence) ==> Coherent(r)
  {
    forall train, c ensures Coherent(Scorer(decay, minConfidence)(train, c)) {
      ResultIsCoherent(train, c, decay, minConfidence);
    }
    AllCohere(cases, split, Scorer(decay, minConfidence));
  }

  lemma AllCohere(cases: seq<Case>, split: nat, score: Scoring)
    requires split <= |cases| && forall train, c :: Coherent(score(train, c))
    ensures forall r :: r in ScoredFrom(cases, split, score) ==> Coherent(r)
  {
  }

  // ---- the majority baseline ----------------------------------------------------------------

  lemma {:induction false} LeaderLeads(keys: seq<string>, n: nat)
    requires 0 < n <= |keys|
    ensures Leader(keys, n) in keys
    ensures forall k :: k in keys[..n] ==> CountOf(keys, k) <= CountOf(keys, Leader(keys, n))
  {
    if n == 1 {
    } else {
      LeaderLeads(keys, n - 1);
      assert keys[..n] == keys[..n - 1] + [keys[n - 1]];
    }
  }

  lemma {:induction false} AbsentIsUncounted(keys: seq<string>, k: string)
    requires k !in keys
    ensures CountOf(keys, k) == 0
  {
    if keys == [] {
    } else {
      AbsentIsUncounted(keys[1..], k);
    }
  }

  /** No constant answer would have been right more often in training than the baseline's. */
  lemma MostCommonIsMost(keys: seq<string>, k: string)
    ensures CountOf(keys, k) <= CountOf(keys, MostCommon(keys))
  {
    if k !in keys {
      AbsentIsUncounted(keys, k);
    } else {
      LeaderLeads(keys, |keys|);
      assert keys[..|keys|] == keys;
    }
  }

  // ---- the interval -------------------------------------------------------------------------

  lemma Sides(x: real, y: real)
    requires y >= 0.0 && x * x <= y * y
    ensures -y <= x <= y
  {
    assert (x - y) * (x + y) == x * x - y * y;
    Same(x - y, x + y);
  }

  lemma Same(a: real, b: real)
    requires a * b <= 0.0
    ensures a <= 0.0 || b <= 0.0
    ensures a >= 0.0 || b >= 0.0
  {
  }

  lemma Nonneg(a: real, b: real)
    requires a >= 0.0 && b >= 0.0
    ensures a * b >= 0.0
  {
  }

  lemma QuotientIs(x: real, y: real, q: real)
    requires y > 0.0 && q * y == x
    ensures x / y == q
  {
    var r := x / y;
    assert r * y == x;
    assert (r - q) * y == 0.0;
  }

  lemma SquareOfProduct(k: real, t: real)
    ensures (k * t) * (k * t) == (k * k) * (t * t)
  {
  }

  lemma ShiftSquared(p: real, n: real)
    requires 0.0 <= p <= 1.0 && n > 0.0
    ensures var shift := Z / n * (0.5 - p);
            shift * shift <= Variance(p, n)
  {
    var k, m, t := Z / n, p * (1.0 - p), 0.5 - p;
    Nonneg(p, 1.0 - p);
    assert t * t == 0.25 - m;
    SquareOfProduct(k, t);
    Nonneg(k, k);
    Nonneg(k * k, m);
    assert (k * k) * (0.25 - m) == 0.25 * (k * k) - (k * k) * m;
    QuarterSquare(n);
    Quotient(m, n);
  }

  lemma Quotient(m: real, n: real)
    requires m >= 0.0 && n > 0.0
    ensures m / n >= 0.0
  {
  }

  lemma QuarterSquare(n: real)
    requires n > 0.0
    ensures Z * Z / (4.0 * n * n) == 0.25 * ((Z / n) * (Z / n))
  {
    var k := Z / n;
    assert k * n == Z;
    assert 4.0 * n * n > 0.0;
    SquareOfProduct(k, n);
    assert 0.25 * (k * k) * (4.0 * n * n) == (k * k) * (n * n);
    QuotientIs(Z * Z, 4.0 * n * n, 0.25 * (k * k));
  }

  /** The heart of it: the shift of the center towards one half never exceeds the margin. */
  lemma ShiftWithinMargin(p: real, n: real, root: real)
    requires 0.0 <= p <= 1.0 && n > 0.0 && root >= 0.0 && root * root == Variance(p, n)
    ensures var shift := Z / n * (0.5 - p);
            -root <= shift <= root
  {
    var shift := Z / n * (0.5 - p);
    ShiftSquared(p, n);
    Sides(shift, root);
  }

  lemma AtMostQuotient(x: real, y: real, d: real)
    requires d > 0.0 && x <= y
    ensures x / d <= y / d
  {
    var a, b := x / d, y / d;
    assert a * d == x && b * d == y;
    assert a > b ==> (a - b) * d > 0.0;
  }

  lemma SplitQuotient(x: real, y: real, d: real)
    requires d > 0.0
    ensures x / d - y / d == (x - y) / d && x / d + y / d == (x + y) / d
  {
  }

  lemma Cancel(p: real, d: real)
    requires d > 0.0
    ensures p * d / d == p
  {
  }

  lemma ScaledBound(s: real, root: real)
    requires -root <= s <= root
    ensures -(Z * root) <= Z * s <= Z * root
  {
  }

  lemma CenterWithin(p: real, n: real, root: real)
    requires n > 0.0
    requires var shift := Z / n * (0.5 - p);
            -root <= shift <= root
    ensures var d := 1.0 + Z * Z / n;
            d > 0.0 &&
            var center, margin := (p + Z * Z / (2.0 * n)) / d, Z * root / d;
            center - margin <= p <= center + margin
  {
    var k := Z / n;
    var shift := k * (0.5 - p);
    var a := Z * k;
    assert Z * Z / n == a;
    assert k > 0.0;
    var d := 1.0 + a;
    HalfOf(n);
    var x := p + 0.5 * a;
    assert x - p * d == a * (0.5 - p);
    assert a * (0.5 - p) == Z * shift;
    ScaledBound(shift, root);
    var e := Z * root;
    assert x - e <= p * d <= x + e;
    AtMostQuotient(x - e, p * d, d);
    AtMostQuotient(p * d, x + e, d);
    Cancel(p, d);
    SplitQuotient(x, e, d);
  }

  lemma HalfOf(n: real)
    requires n > 0.0
    ensures Z * Z / (2.0 * n) == 0.5 * (Z * (Z / n))
  {
    var k := Z / n;
    assert k * n == Z;
    var q := Z * Z / (2.0 * n);
    assert q * (2.0 * n) == Z * Z;
    assert (q - 0.5 * (Z * k)) * (2.0 * n) == 0.0;
  }

  lemma VarianceIsPositive(p: real, n: real)
    requires 0.0 <= p <= 1.0 && n > 0.0
    ensures Variance(p, n) >= 0.0
  {
    Nonneg(p, 1.0 - p);
    Quotient(p * (1.0 - p), n);
    ProductAddsUp(n, n, 0.0);
    Quotient(Z * Z, 4.0 * n * n);
  }

  lemma RateIsUnit(hits: nat, total: nat)
    requires hits <= total
    ensures 0.0 <= Rate(hits, total) <= 1.0
  {
    var q, n := Rate(hits, total), (if total > 1 then total else 1) as real;
    assert q * n == hits as real;
    assert q > 1.0 ==> (q - 1.0) * n > 0.0;
    assert q < 0.0 ==> (0.0 - q) * n > 0.0;
  }

  /** The interval always contains the rate it was computed from. */
  lemma WilsonContainsTheRate(successes: nat, total: nat, sqrt: real -> real)
    requires IsRoot(sqrt) && successes <= total
    ensures var i := Wilson(successes, total, sqrt);
            && 0.0 <= i.lower <= Rate(successes, total) <= i.upper <= 1.0
  {
    if total > 0 {
      var n := total as real;
      var p := successes as real / n;
      RateIsUnit(successes, total);
      VarianceIsPositive(p, n);
      var root := sqrt(Variance(p, n));
      ShiftWithinMargin(p, n, root);
      CenterWithin(p, n, root);
    }
  }

  // ---- the gate -----------------------------------------------------------------------------

  lemma MoreHitsRateHigher(hits: nat, others: nat, total: nat)
    requires hits <= others
    ensures Rate(hits, total) <= Rate(others, total)
  {
    AtMostQuotient(hits as real, others as real, (if total > 1 then total else 1) as real);
  }

  /** A passed gate means what its floors say of the sample itself: the point accuracy and the lift over the baseline
      clear their floors, and, a right answer being an answer, so does the share of cases answered at all. */
  lemma PassedGateMeans(cases: seq<Case>, minTrain: nat, maxCases: nat, holdout: real,
                        minConfidence: real, decay: int -> real, sqrt: real -> real)
    requires IsRoot(sqrt)
    ensures var r := ReportOf(cases, minTrain, maxCases, holdout, minConfidence, decay, sqrt);
            r.Evaluated? && r.passed ==>
              && r.contexts >= MINIMUM_CONTEXTS
              && FloorsCleared(r.counters, |r.results|)
  {
    var rows := Chronological(cases, Limit(minTrain, maxCases));
    if |rows| > minTrain {
      var rs := Results(rows, SplitAt(|rows|, minTrain, holdout), decay, minConfidence);
      ResultsCohere(rows, SplitAt(|rows|, minTrain, holdout), decay, minConfidence);
      CountersCohere(rs);
      PassedCountersMean(CountersOf(rs), |rs|, |ContextsOf(rs)|, sqrt);
    }
  }

  /** The floors of the gate, on the sample itself rather than on its interval. */
  ghost predicate FloorsCleared(c: Counters, n: nat) {
    && n >= MINIMUM_SAMPLES
    && Rate(c.top1, n) >= 0.65 && Rate(c.top3, n) >= 0.65
    && Rate(c.answered, n) >= 0.65 && Rate(c.answeredCorrect, c.answered) >= 0.70
    && Rate(c.top1, n) - Rate(c.majority, n) >= 0.05
  }

  lemma PassedCountersMean(c: Counters, n: nat, contexts: nat, sqrt: real -> real)
    requires IsRoot(sqrt)
    requires c.top1 == c.answeredCorrect <= c.answered <= n && c.top1 <= c.top3 && c.majority <= n
    ensures Gate(c, n, contexts, sqrt) ==> contexts >= MINIMUM_CONTEXTS && FloorsCleared(c, n)
  {
    WilsonContainsTheRate(c.top1, n, sqrt);
    WilsonContainsTheRate(c.majority, n, sqrt);
    WilsonContainsTheRate(c.answeredCorrect, c.answered, sqrt);
    MoreHitsRateHigher(c.top1, c.top3, n);
    MoreHitsRateHigher(c.top1, c.answered, n);
  }
}
