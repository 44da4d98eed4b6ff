/** Predicting a past choice from what came before it, and scoring a predictor over an expanding window. */
module FidelityEvaluator {
  import opened Ordering
  import opened Evidence
  import opened DecisionPolicy
  import DecisionEngine

  // ---- prediction ---------------------------------------------------------------------------

  datatype Prediction = Prediction(choice: Option<Choice>, ranked: seq<RankedOption>, confidence: real,
                                   abstained: bool, citations: seq<string>)

  function AtMost<T>(s: seq<T>, n: nat): seq<T> { if |s| > n then s[..n] else s }

  function Least(a: real, b: real): real { if a < b then a else b }

  /** The ids of the neighbours that voted. */
  function Voters(bs: seq<Ballot>): seq<string> {
    if bs == [] then []
    else
      Voters(bs[..|bs| - 1])
      + (if bs[|bs| - 1].vote.Some? && bs[|bs| - 1].row.id != "" then [bs[|bs| - 1].row.id] else [])
  }

  /** The winner's share, discounted by how near the nearest neighbour is. */
  function Confidence(share: real, nearest: real): real {
    Least(1.0, share * (0.45 + 0.55 * Least(1.0, nearest)))
  }

  function PredictFrom(bs: seq<Ballot>, ranked: seq<RankedOption>, citations: seq<string>,
                       minConfidence: real): Prediction
    requires bs != []
  {
    var share := if ranked == [] then 0.0 else ranked[0].share;
    var confidence := Confidence(share, bs[0].similarity);
    var abstained := ranked == [] || confidence < Clamp(minConfidence);
    Prediction(if abstained then None else Some(ranked[0].option), AtMost(ranked, 5), confidence, abstained,
               AtMost(citations, 20))
  }

  const NO_PREDICTION := Prediction(None, [], 0.0, true, [])

  /** The prediction these rows make for a query at an instant. */
  ghost function Predicted(rows: seq<Row>, q: Query, at: int, offered: seq<Choice>, minConfidence: real): Prediction {
    var eligible := Eligible(rows, at, true);
    if eligible == [] then NO_PREDICTION
    else
      var bs := Ballots(q, at, AtMost(offered, 20), Neighbours(q, at, eligible, MAX_NEIGHBOURS));
      PredictFrom(bs, RankedOptions(bs), Voters(bs), minConfidence)
  }

  method CollectVoters(bs: seq<Ballot>) returns (citations: seq<string>)
    ensures citations == Voters(bs)
  {
    citations := [];
    for i := 0 to |bs|
      invariant citations == Voters(bs[..i])
    {
      assert bs[..i + 1][..i] == bs[..i];
      if bs[i].vote.Some? && bs[i].row.id != "" { citations := citations + [bs[i].row.id]; }
    }
    assert bs[..|bs|] == bs;
  }

  method RankBallots(bs: seq<Ballot>) returns (ranked: seq<RankedOption>)
    ensures ranked == RankedOptions(bs)
  {
    var c, d := DecisionEngine.CountVotes(bs);
    var keys;
    keys, ranked := DecisionEngine.Rank(c, bs);
  }

  method PredictBehavior(rows: seq<Row>, q: Query, at: int, offered: seq<Choice>, minConfidence: real)
    returns (prediction: Prediction)
    ensures prediction == Predicted(rows, q, at, offered, minConfidence)
  {
    var eligible := EligibleEvidenceRows(rows, at, true);
    if eligible == [] { return NO_PREDICTION; }
    var bs := Ballots(q, at, AtMost(offered, 20), Neighbours(q, at, eligible, MAX_NEIGHBOURS));
    var ranked := RankBallots(bs);
    var citations := CollectVoters(bs);
    prediction := PredictFrom(bs, ranked, citations, minConfidence);
  }

  // ---- cases --------------------------------------------------------------------------------

  /** A past decision to replay: its row, the tokens of the query made from it, and the choices it had. */
  datatype Case = Case(row: Row, queryTokens: set<string>, available: seq<Choice>, context: string)

  datatype CaseResult = CaseResult(confidence: real, abstained: bool, correct: bool, top3: bool, pairHits: nat,
                                   pairTotal: nat, majorityHit: bool, citations: seq<string>, context: string)

  predicate CaseBefore(a: Case, b: Case) {
    if a.row.ts != b.row.ts then a.row.ts < b.row.ts else TextLess(a.row.id, b.row.id)
  }

  function RowsOf(cases: seq<Case>): (rows: seq<Row>)
    ensures |rows| == |cases| && forall i :: 0 <= i < |cases| ==> rows[i] == cases[i].row
  {
    if cases == [] then [] else RowsOf(cases[..|cases| - 1]) + [cases[|cases| - 1].row]
  }

  function ChoiceKey(r: Row): string { if r.choice.Some? then r.choice.value.key else "" }

  function KeysOf(ranked: seq<RankedOption>): (keys: seq<string>)
    ensures |keys| == |ranked| && forall i :: 0 <= i < |ranked| ==> keys[i] == ranked[i].option.key
  {
    seq(|ranked|, i requires 0 <= i < |ranked| => ranked[i].option.key)
  }

  /** `index`, with anything unlisted ranking one past the end. */
  function RankIn(keys: seq<string>, key: string): nat {
    if key !in keys then |keys| + 1 else FirstIndex(keys, key)
  }

  function FirstIndex(keys: seq<string>, key: string): (i: nat)
    requires key in keys
    ensures i < |keys| && keys[i] == key && key !in keys[..i]
  {
    if keys[0] == key then 0
    else
      var i := 1 + FirstIndex(keys[1..], key);
      assert keys[..i] == [keys[0]] + keys[1..][..i - 1];
      i
  }

  /** The alternatives that were not taken, and those of them the ranking put below the one that was. */
  function Alternatives(available: seq<Choice>, actual: string): nat {
    if available == [] then 0
    else
      Alternatives(available[..|available| - 1], actual) + (if available[|available| - 1].key != actual then 1 else 0)
  }

  function Beaten(available: seq<Choice>, actual: string, keys: seq<string>): nat {
    if available == [] then 0
    else
      var last := available[|available| - 1].key;
      Beaten(available[..|available| - 1], actual, keys)
      + (if last != actual && RankIn(keys, actual) < RankIn(keys, last) then 1 else 0)
  }

  function CountOf(keys: seq<string>, key: string): nat {
    if keys == [] then 0 else (if keys[0] == key then 1 else 0) + CountOf(keys[1..], key)
  }

  /** Among the first `n` keys, the one occurring most often overall, the earliest when several do. */
  function Leader(keys: seq<string>, n: nat): string
    requires 0 < n <= |keys|
  {
    if n == 1 then keys[0]
    else
      var before := Leader(keys, n - 1);
      if CountOf(keys, keys[n - 1]) > CountOf(keys, before) then keys[n - 1] else before
  }

  function MostCommon(keys: seq<string>): string { if keys == [] then "" else Leader(keys, |keys|) }

  function SameType(rows: seq<Row>, situationType: string): seq<string> {
    if rows == [] then []
    else
      SameType(rows[..|rows| - 1], situationType)
      + (if rows[|rows| - 1].situationType == situationType then [ChoiceKey(rows[|rows| - 1])] else [])
  }

  function AllKeys(rows: seq<Row>): seq<string> {
    if rows == [] then [] else AllKeys(rows[..|rows| - 1]) + [ChoiceKey(rows[|rows| - 1])]
  }

  function Majority(train: seq<Row>, test: Row): string {
    var same := SameType(train, test.situationType);
    MostCommon(if same == [] then AllKeys(train) else same)
  }

  function QueryOf(c: Case, decay: int -> real): Query { Query(c.queryTokens, c.row.situationType, decay) }

  function Score(p: Prediction, train: seq<Row>, c: Case, pairHits: nat, pairTotal: nat): CaseResult {
    var actual, keys := ChoiceKey(c.row), KeysOf(p.ranked);
    var predicted := if p.choice.Some? then p.choice.value.key else "";
    CaseResult(p.confidence, p.abstained, predicted != "" && predicted == actual, actual in AtMost(keys, 3), pairHits,
               pairTotal, Majority(train, c.row) == actual, p.citations, c.context)
  }

  /** How one case is scored against the rows before it. */
  ghost function ResultOf(train: seq<Row>, c: Case, decay: int -> real, minConfidence: real): CaseResult {
    var p := Predicted(train, QueryOf(c, decay), c.row.ts, c.available, minConfidence);
    var actual := ChoiceKey(c.row);
    Score(p, train, c, Beaten(c.available, actual, KeysOf(p.ranked)), Alternatives(c.available, actual))
  }

  /** A way of scoring a case against rows to train on. */
  type Scoring = (seq<Row>, Case) -> CaseResult

  ghost function Scorer(decay: int -> real, minConfidence: real): Scoring {
    (train: seq<Row>, c: Case) => ResultOf(train, c, decay, minConfidence)
  }

  /** The results of the cases from `split` on, each scored against the rows before it and no other. */
  ghost function ScoredFrom(cases: seq<Case>, split: nat, score: Scoring): (rs: seq<CaseResult>)
    requires split <= |cases|
    ensures |rs| == |cases| - split
    ensures forall i :: 0 <= i < |rs| ==> rs[i] == score(RowsOf(cases[..split + i]), cases[split + i])
  {
    seq(|cases| - split, i requires 0 <= i < |cases| - split => score(RowsOf(cases[..split + i]), cases[split + i]))
  }

  ghost function Results(cases: seq<Case>, split: nat, decay: int -> real, minConfidence: real): (rs: seq<CaseResult>)
    requires split <= |cases|
    ensures |rs| == |cases| - split
  {
    ScoredFrom(cases, split, Scorer(decay, minConfidence))
  }

  // ---- counters -----------------------------------------------------------------------------

  datatype Counters = Counters(top1: nat, top3: nat, pairHits: nat, pairTotal: nat, answered: nat, answeredCorrect: nat,
                               wrong: nat, wrongAbstained: nat, majority: nat, brier: real)

  function One(b: bool): nat { if b then 1 else 0 }

  function SquaredError(r: CaseResult): real {
    var miss := r.confidence - One(r.correct) as real;
    miss * miss
  }

  function AddResult(c: Counters, r: CaseResult): Counters {
    Counters(c.top1 + One(r.correct), c.top3 + One(r.top3), c.pairHits + r.pairHits, c.pairTotal + r.pairTotal,
             c.answered + One(!r.abstained), c.answeredCorrect + One(!r.abstained && r.correct),
             c.wrong + One(!r.correct), c.wrongAbstained + One(!r.correct && r.abstained),
             c.majority + One(r.majorityHit), c.brier + SquaredError(r))
  }

  const NOTHING_COUNTED := Counters(0, 0, 0, 0, 0, 0, 0, 0, 0, 0.0)

  ghost function CountersOf(rs: seq<CaseResult>): Counters {
    if rs == [] then NOTHING_COUNTED else AddResult(CountersOf(rs[..|rs| - 1]), rs[|rs| - 1])
  }

  ghost function ContextsOf(rs: seq<CaseResult>): set<string> { set r | r in rs :: r.context }

  // ---- the Wilson interval ------------------------------------------------------------------

  const Z := 1.96

  datatype Interval = Interval(lower: real, upper: real)

  /** A square root, as far as the interval needs one. */
  ghost predicate IsRoot(sqrt: real -> real) {
    forall x: real :: x >= 0.0 ==> sqrt(x) >= 0.0 && sqrt(x) * sqrt(x) == x
  }

  function Variance(p: real, n: real): real
    requires n > 0.0
  {
    p * (1.0 - p) / n + Z * Z / (4.0 * n * n)
  }

  function Wilson(successes: nat, total: nat, sqrt: real -> real): Interval {
    if total == 0 then Interval(0.0, 1.0)
    else
      var n := total as real;
      var p, d := successes as real / n, 1.0 + Z * Z / n;
      var center, margin := (p + Z * Z / (2.0 * n)) / d, Z * sqrt(Variance(p, n)) / d;
      Interval(if center - margin > 0.0 then center - margin else 0.0,
               if center + margin < 1.0 then center + margin else 1.0)
  }

  // ---- the evaluator ------------------------------------------------------------------------

  datatype Report =
    | Insufficient(eligible: nat)
    | Evaluated(results: seq<CaseResult>, counters: Counters, contexts: nat, trained: nat, passed: bool)

  function Rate(hits: nat, total: nat): real { hits as real / (if total > 1 then total else 1) as real }

  const MINIMUM_SAMPLES := 30
  const MINIMUM_CONTEXTS := 10

  /** The promotion gate. */
  function Gate(c: Counters, evaluated: nat, contexts: nat, sqrt: real -> real): bool {
    var top1, majority := Wilson(c.top1, evaluated, sqrt), Wilson(c.majority, evaluated, sqrt);
    var precision := Wilson(c.answeredCorrect, c.answered, sqrt);
    && evaluated >= MINIMUM_SAMPLES && contexts >= MINIMUM_CONTEXTS
    && top1.lower >= 0.65
    && c.brier / (if evaluated > 1 then evaluated else 1) as real <= 0.25
    && precision.lower >= 0.70
    && top1.lower - majority.upper >= 0.05
  }

  function ActiveAtOwnTime(byId: map<string, Row>): Case -> bool {
    (c: Case) => IsActive(c.row, c.row.ts, true, byId) && c.row.choice.Some?
  }

  /** The cases worth replaying, oldest first, the last `limit` of them. */
  function Chronological(cases: seq<Case>, limit: nat): seq<Case> {
    LastOf(Sort(Select(cases, ActiveAtOwnTime(RowsById(RowsOf(cases)))), CaseBefore), limit)
  }

  function LastOf(cases: seq<Case>, limit: nat): seq<Case> {
    if |cases| > limit then cases[|cases| - limit..] else cases
  }

  function Limit(minTrain: nat, maxCases: nat): nat { Max(minTrain + 1, if maxCases < 5000 then maxCases else 5000) }

  function Ceiling(x: real): int { if x.Floor as real == x then x.Floor else x.Floor + 1 }

  /** Where training ends and replay begins. */
  function SplitAt(n: nat, minTrain: nat, holdout: real): (split: nat)
    requires n > minTrain
    ensures minTrain <= split < n
  {
    var ratio := if holdout < 0.05 then 0.05 else if holdout > 0.50 then 0.50 else holdout;
    Max(minTrain, n - Max(1, Ceiling(n as real * ratio)))
  }

  ghost function ReportOf(cases: seq<Case>, minTrain: nat, maxCases: nat, holdout: real, minConfidence: real,
                          decay: int -> real, sqrt: real -> real): Report {
    var rows := Chronological(cases, Limit(minTrain, maxCases));
    if |rows| <= minTrain then Insufficient(|rows|)
    else
      var split := SplitAt(|rows|, minTrain, holdout);
      var rs := Results(rows, split, decay, minConfidence);
      Evaluated(rs, CountersOf(rs), |ContextsOf(rs)|, split,
                Gate(CountersOf(rs), |rs|, |ContextsOf(rs)|, sqrt))
  }

  method PairwiseHits(available: seq<Choice>, actual: string, keys: seq<string>) returns (hits: nat, total: nat)
    ensures hits == Beaten(available, actual, keys) && total == Alternatives(available, actual)
  {
    hits, total := 0, 0;
    for i := 0 to |available|
      invariant hits == Beaten(available[..i], actual, keys) && total == Alternatives(available[..i], actual)
    {
      assert available[..i + 1][..i] == available[..i];
      if available[i].key != actual {
        if RankIn(keys, actual) < RankIn(keys, available[i].key) { hits := hits + 1; }
        total := total + 1;
      }
    }
    assert available[..|available|] == available;
  }

  ghost predicate Tallied(counters: Counters, contexts: set<string>, rs: seq<CaseResult>) {
    counters == CountersOf(rs) && contexts == ContextsOf(rs)
  }

  lemma OneMoreResult(counters: Counters, contexts: set<string>, rs: seq<CaseResult>, r: CaseResult)
    requires Tallied(counters, contexts, rs)
    ensures Tallied(AddResult(counters, r), contexts + {r.context}, rs + [r])
  {
    assert (rs + [r])[..|rs|] == rs;
    forall x ensures x in ContextsOf(rs + [r]) <==> x in ContextsOf(rs) + {r.context} {
      if x in ContextsOf(rs) {
        var earlier :| earlier in rs && earlier.context == x;
        assert earlier in rs + [r];
      }
      assert r in rs + [r];
    }
  }

  lemma OneMoreCase(cases: seq<Case>, split: nat, score: Scoring, i: nat)
    requires split <= i < |cases|
    ensures ScoredFrom(cases, split, score)[i - split] == score(RowsOf(cases[..i]), cases[i])
  {
    assert split + (i - split) == i;
  }

  lemma OneMoreRow(cases: seq<Case>, i: nat)
    requires i < |cases|
    ensures RowsOf(cases[..i + 1]) == RowsOf(cases[..i]) + [cases[i].row]
  {
    assert cases[..i + 1][..i] == cases[..i];
  }

  method ScoreCase(train: seq<Row>, test: Case, decay: int -> real, minConfidence: real) returns (r: CaseResult)
    ensures r == Scorer(decay, minConfidence)(train, test)
  {
    var p := PredictBehavior(train, QueryOf(test, decay), test.row.ts, test.available, minConfidence);
    var hits, total := PairwiseHits(test.available, ChoiceKey(test.row), KeysOf(p.ranked));
    r := Score(p, train, test, hits, total);
  }

  /** Where the replay stands before case `i`: trained on what came before it, and every earlier case scored. */
  ghost predicate ReplayedTo(i: nat, cases: seq<Case>, split: nat, all: seq<CaseResult>, train: seq<Row>,
                             results: seq<CaseResult>)
    requires split <= i <= |cases| && |all| == |cases| - split
  {
    train == RowsOf(cases[..i]) && results == all[..i - split]
  }

  lemma ReplayAdvances(i: nat, cases: seq<Case>, split: nat, all: seq<CaseResult>, train: seq<Row>,
                       results: seq<CaseResult>, r: CaseResult)
    requires split <= i < |cases| && |all| == |cases| - split && r == all[i - split]
    requires ReplayedTo(i, cases, split, all, train, results)
    ensures ReplayedTo(i + 1, cases, split, all, train + [cases[i].row], results + [r])
  {
    OneMoreRow(cases, i);
  }

  /** The replay loop: `train` grows by each case only after that case has been predicted. */
  method Replay(cases: seq<Case>, split: nat, decay: int -> real, minConfidence: real)
    returns (results: seq<CaseResult>, counters: Counters, contexts: set<string>)
    requires split <= |cases|
    ensures results == Results(cases, split, decay, minConfidence)
    ensures Tallied(counters, contexts, results)
  {
    ghost var score := Scorer(decay, minConfidence);
    ghost var all := ScoredFrom(cases, split, score);
    var train := RowsOf(cases[..split]);
    results, counters, contexts := [], NOTHING_COUNTED, {};
    for i := split to |cases|
      invariant ReplayedTo(i, cases, split, all, train, results)
      invariant Tallied(counters, contexts, results)
    {
      var r := ScoreCase(train, cases[i], decay, minConfidence);
      OneMoreCase(cases, split, score, i);
      OneMoreResult(counters, contexts, results, r);
      ReplayAdvances(i, cases, split, all, train, results, r);
      counters, contexts := AddResult(counters, r), contexts + {r.context};
      results := results + [r];
      train := train + [cases[i].row];
    }
  }

  /** The expanding-window benchmark. */
  method EvaluateBehaviorFidelity(cases: seq<Case>, minTrain: nat, maxCases: nat, holdout: real, minConfidence: real,
                                  decay: int -> real, sqrt: real -> real) returns (report: Report)
    ensures report == ReportOf(cases, minTrain, maxCases, holdout, minConfidence, decay, sqrt)
  {
    var rows := Chronological(cases, Limit(minTrain, maxCases));
    if |rows| <= minTrain { return Insufficient(|rows|); }
    var split := SplitAt(|rows|, minTrain, holdout);
    var results, counters, contexts := Replay(rows, split, decay, minConfidence);
    report := Evaluated(results, counters, |contexts|, split, Gate(counters, |results|, |contexts|, sqrt));
  }
}
