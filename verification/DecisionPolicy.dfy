/** The decision policy: rules, eligibility, neighbours, votes, adequacy, conflict, and an advisor
    that may only veto. */
module DecisionPolicy {
  import opened Ordering
  import opened Evidence

  const SIMILARITY_FLOOR := 0.30
  const OOD_OVERLAP_FLOOR := 0.20
  const CONFLICT_SHARE_RATIO := 0.80
  const MIN_AGREEMENT_SHARE := 0.60
  const MIN_EFFECTIVE_SAMPLE := 1.5
  const MAX_NEIGHBOURS := 12
  const MIN_WEIGHT := 0.001
  const MIN_TOTAL := 0.000000001

  datatype Rule = Rule(id: string, statement: Choice, priority: int, scope: Option<string>)

  /** A model's contribution. `parsed` is false when the call failed or could not be read. */
  datatype Advisor = Advisor(parsed: bool, abstained: bool, recommendedKey: string,
                             cited: seq<string>, conflicting: seq<string>)

  datatype Request = Request(
    rows: seq<Row>, at: int, query: Query, options: seq<Choice>, rules: seq<Rule>, project: Option<string>,
    allowUnscoped: bool, family: string, advisorRequired: set<string>, advisor: Option<Advisor>)

  datatype Reason = NoEligibleEvidence | NoCandidateMatch | InadequateEvidence | OutOfDistribution
                  | ConflictingEvidence | AdvisorForced

  datatype Status = Selected(option: Choice) | Abstained(reason: Reason) | RuleApplied(ruleId: string, option: Choice)

  datatype Distribution = InDistribution | OutsideDistribution | UnknownDistribution

  datatype Conflict = NoConflict | SplitVote | ExplicitContradiction

  datatype Agreement = AdvisorAbsent | AdvisorUnavailable | AdvisorAbstained | AdvisorAgreed | AdvisorDisagreed

  datatype Shortfall = NoOptions | NoEvidence | NoMappedNeighbour | FewAboveFloor | SmallSample | LowShare

  datatype RankedOption = RankedOption(option: Choice, share: real, supporters: seq<string>)

  datatype Adequacy = Adequacy(
    eligible: nat, neighbours: nat, aboveFloor: nat, sampleSize: real, topSimilarity: real, topOverlap: real,
    share: real, learning: nat, adequate: bool, shortfalls: seq<Shortfall>)

  datatype Verdict = Verdict(
    status: Status, ranked: seq<RankedOption>, evidence: seq<string>, conflicting: seq<string>,
    distribution: Distribution, conflict: Conflict, score: real, adequacy: Adequacy, agreement: Agreement,
    citationOverlap: Option<real>)

  // ---- ballots ------------------------------------------------------------------------------

  /** One neighbour's vote: the offered choice its own maps onto, or nothing. */
  datatype Ballot = Ballot(row: Row, similarity: real, overlap: real, vote: Option<Choice>) {
    function Weight(): (w: real)
      ensures w > 0.0
    {
      if similarity > MIN_WEIGHT then similarity else MIN_WEIGHT
    }

    predicate For(key: string) { vote.Some? && vote.value.key == key }
  }

  function BallotOf(q: Query, at: int, options: seq<Choice>, row: Row): Ballot {
    Ballot(row, Similarity(q, row, at), TopicalOverlap(q, row),
           if row.choice.Some? then MapChoice(row.choice.value, options) else None)
  }

  function Ballots(q: Query, at: int, options: seq<Choice>, rows: seq<Row>): (bs: seq<Ballot>)
    ensures |bs| == |rows|
    ensures forall i :: 0 <= i < |rows| ==> bs[i] == BallotOf(q, at, options, rows[i])
  {
    if rows == [] then []
    else Ballots(q, at, options, rows[..|rows| - 1]) + [BallotOf(q, at, options, rows[|rows| - 1])]
  }

  function KeysSeen(bs: seq<Ballot>): seq<string> {
    if bs == [] then []
    else
      var seen := KeysSeen(bs[..|bs| - 1]);
      if bs[|bs| - 1].vote.Some? && bs[|bs| - 1].vote.value.key !in seen then seen + [bs[|bs| - 1].vote.value.key]
      else seen
  }

  function WeightsFor(bs: seq<Ballot>, key: string): seq<real> {
    if bs == [] then []
    else WeightsFor(bs[..|bs| - 1], key) + (if bs[|bs| - 1].For(key) then [bs[|bs| - 1].Weight()] else [])
  }

  function VotesFor(bs: seq<Ballot>, key: string): real { Sum(WeightsFor(bs, key)) }

  function SupportersFor(bs: seq<Ballot>, key: string): seq<string> {
    if bs == [] then []
    else
      SupportersFor(bs[..|bs| - 1], key)
      + (if bs[|bs| - 1].For(key) && bs[|bs| - 1].row.id != "" then [bs[|bs| - 1].row.id] else [])
  }

  /** The first choice that was voted for under this key. */
  function LabelFor(bs: seq<Ballot>, key: string): Choice
    requires key in KeysSeen(bs)
  {
    if key in KeysSeen(bs[..|bs| - 1]) then LabelFor(bs[..|bs| - 1], key) else bs[|bs| - 1].vote.value
  }

  function Considered(bs: seq<Ballot>): seq<string> {
    if bs == [] then []
    else Considered(bs[..|bs| - 1]) + (if bs[|bs| - 1].row.id != "" then [bs[|bs| - 1].row.id] else [])
  }

  predicate MoreVotes(votes: string -> real, a: string, b: string) {
    if votes(a) != votes(b) then votes(a) > votes(b) else TextLess(a, b)
  }

  function ByVotes(votes: string -> real): (string, string) -> bool { (a, b) => MoreVotes(votes, a, b) }

  function Tally(bs: seq<Ballot>): string -> real { key => VotesFor(bs, key) }

  function RankedKeys(bs: seq<Ballot>): seq<string> { Sort(KeysSeen(bs), ByVotes(Tally(bs))) }

  /** Votes summed over a list of keys. */
  function VotesOver(bs: seq<Ballot>, keys: seq<string>): real {
    if keys == [] then 0.0 else VotesFor(bs, keys[0]) + VotesOver(bs, keys[1..])
  }

  function ShareOf(votes: real, total: real): real { votes / (if total > MIN_TOTAL then total else MIN_TOTAL) }

  /** How one option stands. */
  function OptionAt(bs: seq<Ballot>, key: string, total: real): RankedOption
    requires key in KeysSeen(bs)
  {
    RankedOption(LabelFor(bs, key), ShareOf(VotesFor(bs, key), total), SupportersFor(bs, key))
  }

  /** What the ballots say, option by option, best first. */
  function Standing(bs: seq<Ballot>, keys: seq<string>, total: real): (ranked: seq<RankedOption>)
    requires forall k :: k in keys ==> k in KeysSeen(bs)
    ensures |ranked| == |keys|
    ensures forall i :: 0 <= i < |keys| ==> ranked[i] == OptionAt(bs, keys[i], total)
  {
    seq(|keys|, i requires 0 <= i < |keys| => OptionAt(bs, keys[i], total))
  }

  function TopOverlap(bs: seq<Ballot>): real {
    if bs == [] then 0.0
    else
      var rest := TopOverlap(bs[1..]);
      if bs[0].overlap > rest then bs[0].overlap else rest
  }

  predicate ClearsFloor(b: Ballot, projectBound: bool) {
    b.similarity >= SIMILARITY_FLOOR && (projectBound ==> b.row.projectScoped)
  }

  function AboveFloor(bs: seq<Ballot>, projectBound: bool): nat {
    if bs == [] then 0
    else AboveFloor(bs[..|bs| - 1], projectBound) + (if ClearsFloor(bs[|bs| - 1], projectBound) then 1 else 0)
  }

  function LearningRows(bs: seq<Ballot>): nat {
    if bs == [] then 0 else (if bs[0].row.learningEligible then 1 else 0) + LearningRows(bs[1..])
  }

  // ---- conflict -----------------------------------------------------------------------------

  function IdsSeen(bs: seq<Ballot>): seq<string> {
    if bs == [] then []
    else
      var seen := IdsSeen(bs[..|bs| - 1]);
      if bs[|bs| - 1].row.id != "" && bs[|bs| - 1].row.id !in seen then seen + [bs[|bs| - 1].row.id] else seen
  }

  /** The row last seen under an id. */
  function RowOf(bs: seq<Ballot>, id: string): Row
    requires id in IdsSeen(bs)
  {
    if bs[|bs| - 1].row.id == id then bs[|bs| - 1].row else RowOf(bs[..|bs| - 1], id)
  }

  /** The key a row with this id last voted for. */
  function OptionOf(bs: seq<Ballot>, id: string): Option<string> {
    if bs == [] then None
    else if bs[|bs| - 1].row.id == id && id != "" && bs[|bs| - 1].vote.Some? then Some(bs[|bs| - 1].vote.value.key)
    else OptionOf(bs[..|bs| - 1], id)
  }

  /** Two neighbours that voted for different options, one naming the other as contradicted. */
  predicate Disputes(bs: seq<Ballot>, id: string, target: string) {
    && OptionOf(bs, id).Some? && OptionOf(bs, target).Some? && OptionOf(bs, id) != OptionOf(bs, target)
  }

  function AddNew(ids: seq<string>, id: string): seq<string> { if id in ids then ids else ids + [id] }

  /** The conflicting ids after one row's list of contradicted ids has been read. */
  function AddDisputes(ids: seq<string>, bs: seq<Ballot>, id: string, targets: seq<string>): seq<string> {
    if targets == [] then ids
    else
      var front := AddDisputes(ids, bs, id, targets[..|targets| - 1]);
      if Disputes(bs, id, targets[|targets| - 1]) then AddNew(AddNew(front, id), targets[|targets| - 1]) else front
  }

  function AddAllDisputes(ids: seq<string>, bs: seq<Ballot>, rowIds: seq<string>): seq<string>
    requires forall id :: id in rowIds ==> id in IdsSeen(bs)
  {
    if rowIds == [] then ids
    else
      var last := rowIds[|rowIds| - 1];
      AddDisputes(AddAllDisputes(ids, bs, rowIds[..|rowIds| - 1]), bs, last, RowOf(bs, last).contradicts)
  }

  predicate HasDispute(bs: seq<Ballot>) {
    exists id :: id in IdsSeen(bs) && exists target :: target in RowOf(bs, id).contradicts && Disputes(bs, id, target)
  }

  predicate IsSplit(bs: seq<Ballot>, keys: seq<string>) {
    && |keys| >= 2 && VotesFor(bs, keys[0]) > 0.0
    && VotesFor(bs, keys[1]) / VotesFor(bs, keys[0]) >= CONFLICT_SHARE_RATIO
  }

  ghost function ConflictOf(bs: seq<Ballot>): Conflict {
    if HasDispute(bs) then ExplicitContradiction else if IsSplit(bs, RankedKeys(bs)) then SplitVote else NoConflict
  }

  // ---- the advisor --------------------------------------------------------------------------

  /** The cited ids that were offered, each once, in the order first claimed. */
  function Kept(claimed: seq<string>, offered: seq<string>): seq<string> {
    if claimed == [] then []
    else
      var front := Kept(claimed[..|claimed| - 1], offered);
      var last := claimed[|claimed| - 1];
      if last != "" && last in offered && last !in front then front + [last] else front
  }

  function Dropped(claimed: seq<string>, offered: seq<string>): nat {
    if claimed == [] then 0
    else
      Dropped(claimed[..|claimed| - 1], offered)
      + (if claimed[|claimed| - 1] != "" && claimed[|claimed| - 1] !in offered then 1 else 0)
  }

  method ValidateCitedIds(claimed: seq<string>, offered: seq<string>) returns (kept: seq<string>, dropped: nat)
    ensures kept == Kept(claimed, offered) && dropped == Dropped(claimed, offered)
  {
    var allowed: set<string> := set id | id in offered && id != "";
    var seen: set<string> := {};
    kept, dropped := [], 0;
    for i := 0 to |claimed|
      invariant kept == Kept(claimed[..i], offered) && dropped == Dropped(claimed[..i], offered)
      invariant forall id :: id in seen <==> id in kept
    {
      assert claimed[..i + 1][..i] == claimed[..i];
      var candidate := claimed[i];
      if candidate == "" {
      } else if candidate !in allowed {
        dropped := dropped + 1;
      } else if candidate !in seen {
        seen := seen + {candidate};
        kept := kept + [candidate];
      }
    }
    assert claimed[..|claimed|] == claimed;
  }

  function CountIn(ids: seq<string>, among: seq<string>): nat {
    if ids == [] then 0 else (if ids[0] in among then 1 else 0) + CountIn(ids[1..], among)
  }

  datatype Advice = Advice(agreement: Agreement, forces: bool, conflicting: seq<string>, overlap: Option<real>)

  function AdvisorStage(req: Request, winnerKey: string, supporting: seq<string>, offered: seq<string>): Advice {
    match req.advisor
    case None => Advice(AdvisorAbsent, req.family in req.advisorRequired, [], None)
    case Some(a) =>
      if !a.parsed then Advice(AdvisorUnavailable, true, [], None)
      else
        var conflicting, kept := Kept(a.conflicting, offered), Kept(a.cited, offered);
        var overlap := if kept == [] then None else Some(CountIn(kept, supporting) as real / |kept| as real);
        if a.abstained then Advice(AdvisorAbstained, true, conflicting, overlap)
        else if a.recommendedKey == winnerKey then Advice(AdvisorAgreed, false, conflicting, overlap)
        else Advice(AdvisorDisagreed, true, conflicting, overlap)
  }

  function Presence(req: Request): Agreement {
    if req.advisor.None? || req.advisor.value.parsed then AdvisorAbsent else AdvisorUnavailable
  }

  // ---- rules --------------------------------------------------------------------------------

  predicate RuleBefore(a: Rule, b: Rule) {
    if a.priority != b.priority then a.priority < b.priority else TextLess(a.id, b.id)
  }

  predicate InScope(r: Rule, project: Option<string>) { r.scope.None? || r.scope == project }

  function ScopedTo(project: Option<string>): Rule -> bool { (r: Rule) => InScope(r, project) }

  function Walked(req: Request): seq<Rule> { Sort(Select(req.rules, ScopedTo(req.project)), RuleBefore) }

  function FirstHit(rules: seq<Rule>, options: seq<Choice>): Option<(Rule, Choice)> {
    if rules == [] then None
    else if MapChoice(rules[0].statement, options).Some?
      then Some((rules[0], MapChoice(rules[0].statement, options).value))
    else FirstHit(rules[1..], options)
  }

  function RuleHit(req: Request): Option<(Rule, Choice)> {
    if req.options == [] then None else FirstHit(Walked(req), req.options)
  }

  method ApplyExplicitRules(req: Request) returns (hit: Option<(Rule, Choice)>)
    ensures hit == RuleHit(req)
  {
    if req.options == [] { return None; }
    var walked := Walked(req);
    for i := 0 to |walked|
      invariant FirstHit(walked, req.options) == FirstHit(walked[i..], req.options)
    {
      var mapped := MapChoice(walked[i].statement, req.options);
      if mapped.Some? { return Some((walked[i], mapped.value)); }
    }
    return None;
  }

  // ---- the policy ---------------------------------------------------------------------------

  function EmptyAdequacy(shortfalls: seq<Shortfall>): Adequacy {
    Adequacy(0, 0, 0, 0.0, 0.0, 0.0, 0.0, 0, false, shortfalls)
  }

  function Early(req: Request, reason: Reason, shortfalls: seq<Shortfall>): Verdict {
    Verdict(Abstained(reason), [], [], [], UnknownDistribution, NoConflict, 0.0, EmptyAdequacy(shortfalls),
            Presence(req), None)
  }

  function ByRule(req: Request, hit: (Rule, Choice)): Verdict {
    Verdict(RuleApplied(hit.0.id, hit.1), [RankedOption(hit.1, 1.0, [])], [], [], UnknownDistribution, NoConflict,
            1.0, EmptyAdequacy([]), Presence(req), None)
  }

  predicate ProjectBound(req: Request) { req.project.Some? && !req.allowUnscoped }

  function Shortfalls(aboveFloor: nat, sampleSize: real, share: real): seq<Shortfall> {
    (if aboveFloor < 2 then [FewAboveFloor] else [])
    + (if sampleSize < MIN_EFFECTIVE_SAMPLE then [SmallSample] else [])
    + (if share < MIN_AGREEMENT_SHARE then [LowShare] else [])
  }

  function Clamp(x: real): real { if x < 0.0 then 0.0 else if x > 1.0 then 1.0 else x }

  function PolicyScore(share: real, topSimilarity: real): real {
    Clamp(share * (0.45 + 0.55 * (if topSimilarity < 1.0 then topSimilarity else 1.0)))
  }

  function UnmappedAdequacy(projectBound: bool, eligible: nat, bs: seq<Ballot>): Adequacy
    requires bs != []
  {
    Adequacy(eligible, |bs|, AboveFloor(bs, projectBound), 0.0, bs[0].similarity, TopOverlap(bs), 0.0,
             LearningRows(bs), false, [NoMappedNeighbour])
  }

  function VotedAdequacy(projectBound: bool, eligible: nat, bs: seq<Ballot>, winnerKey: string, share: real): Adequacy
    requires bs != []
  {
    var above, ess := AboveFloor(bs, projectBound), EffectiveSampleSize(WeightsFor(bs, winnerKey));
    var shortfalls := Shortfalls(above, ess, share);
    Adequacy(eligible, |bs|, above, ess, bs[0].similarity, TopOverlap(bs), share, LearningRows(bs),
             shortfalls == [], shortfalls)
  }

  /** Everything the vote settles, before anyone is asked. */
  datatype Poll = Poll(ranked: seq<RankedOption>, winnerKey: string, considered: seq<string>, conflict: Conflict,
                       conflicting: seq<string>, adequacy: Adequacy)

  function DistributionOf(adequacy: Adequacy): Distribution {
    if adequacy.topOverlap < OOD_OVERLAP_FLOOR then OutsideDistribution else InDistribution
  }

  /** The last stages, once there is a winner: conflict, then distribution, then adequacy, then the advisor. */
  function Conclude(req: Request, poll: Poll): Verdict
    requires poll.ranked != []
  {
    var winner, distribution := poll.ranked[0], DistributionOf(poll.adequacy);
    var held := Verdict(Abstained(ConflictingEvidence), poll.ranked, poll.considered, poll.conflicting, distribution,
                        poll.conflict, PolicyScore(winner.share, poll.adequacy.topSimilarity), poll.adequacy,
                        Presence(req), None);
    if poll.conflict != NoConflict then held
    else if distribution.OutsideDistribution? then held.(status := Abstained(OutOfDistribution))
    else if !poll.adequacy.adequate then held.(status := Abstained(InadequateEvidence))
    else
      var advice := AdvisorStage(req, poll.winnerKey, winner.supporters, poll.considered);
      var heard := held.(conflicting := AddEach(poll.conflicting, advice.conflicting), agreement := advice.agreement,
                         citationOverlap := advice.overlap);
      if advice.forces then heard.(status := Abstained(AdvisorForced))
      else heard.(status := Selected(winner.option), evidence := winner.supporters)
  }

  function AddEach(ids: seq<string>, more: seq<string>): seq<string> {
    if more == [] then ids else AddNew(AddEach(ids, more[..|more| - 1]), more[|more| - 1])
  }

  function RankedOptions(bs: seq<Ballot>): (ranked: seq<RankedOption>)
    ensures |ranked| == |RankedKeys(bs)|
  {
    RankedKeysFacts(bs);
    Standing(bs, RankedKeys(bs), VotesOver(bs, RankedKeys(bs)))
  }

  ghost function PollOf(projectBound: bool, eligible: nat, bs: seq<Ballot>): (poll: Poll)
    requires RankedKeys(bs) != []
    ensures poll.ranked != []
  {
    var keys, ranked := RankedKeys(bs), RankedOptions(bs);
    var split := if IsSplit(bs, keys) then ranked[1].supporters else [];
    Poll(ranked, keys[0], Considered(bs), ConflictOf(bs), AddAllDisputes(split, bs, IdsSeen(bs)),
         VotedAdequacy(projectBound, eligible, bs, keys[0], ranked[0].share))
  }

  ghost function Settle(req: Request, eligible: nat, bs: seq<Ballot>): Verdict
    requires bs != []
  {
    if RankedKeys(bs) == [] then
      Early(req, NoCandidateMatch, [])
        .(evidence := Considered(bs), adequacy := UnmappedAdequacy(ProjectBound(req), eligible, bs))
    else Conclude(req, PollOf(ProjectBound(req), eligible, bs))
  }

  /** The policy as a function of the request. */
  ghost function Decision(req: Request): Verdict {
    if RuleHit(req).Some? then ByRule(req, RuleHit(req).value)
    else if req.options == [] then Early(req, NoCandidateMatch, [NoOptions])
    else
      var eligible := Eligible(req.rows, req.at, true);
      if eligible == [] then Early(req, NoEligibleEvidence, [NoEvidence])
      else
        var scored := Neighbours(req.query, req.at, eligible, MAX_NEIGHBOURS);
        Settle(req, |eligible|, Ballots(req.query, req.at, req.options, scored))
  }

  // ---- ranking facts ------------------------------------------------------------------------

  lemma {:induction false} KeysSeenFacts(bs: seq<Ballot>)
    ensures forall k :: k in KeysSeen(bs) <==> exists b :: b in bs && b.For(k)
    ensures forall i, j :: 0 <= i < j < |KeysSeen(bs)| ==> KeysSeen(bs)[i] != KeysSeen(bs)[j]
  {
    if bs == [] {
    } else {
      var front, last := bs[..|bs| - 1], bs[|bs| - 1];
      KeysSeenFacts(front);
      assert bs == front + [last];
      forall k ensures k in KeysSeen(bs) <==> exists b :: b in bs && b.For(k) {
        if k in KeysSeen(bs) && k !in KeysSeen(front) { assert last in bs && last.For(k); }
        if b :| b in bs && b.For(k) {
          if b in front { assert k in KeysSeen(front); } else { assert b == last; }
        }
      }
    }
  }

  lemma ByVotesIsTotal(votes: string -> real)
    ensures StrictWeak(ByVotes(votes))
    ensures forall a: string, b: string :: !MoreVotes(votes, a, b) && !MoreVotes(votes, b, a) ==> a == b
  {
    TextLessIsStrictTotal();
  }

  lemma RankedKeysFacts(bs: seq<Ballot>)
    ensures forall k :: k in RankedKeys(bs) <==> k in KeysSeen(bs)
    ensures multiset(RankedKeys(bs)) == multiset(KeysSeen(bs))
    ensures Sorted(RankedKeys(bs), ByVotes(Tally(bs)))
  {
    ByVotesIsTotal(Tally(bs));
    SortMembers(KeysSeen(bs), ByVotes(Tally(bs)));
    SortIsSortedPermutation(KeysSeen(bs), ByVotes(Tally(bs)));
  }

  lemma {:induction false} IdsSeenFacts(bs: seq<Ballot>)
    ensures forall id :: id in IdsSeen(bs) <==> id != "" && exists b :: b in bs && b.row.id == id
  {
    if bs == [] {
    } else {
      var front, last := bs[..|bs| - 1], bs[|bs| - 1];
      IdsSeenFacts(front);
      assert bs == front + [last];
      forall id ensures id in IdsSeen(bs) <==> id != "" && exists b :: b in bs && b.row.id == id {
        if id in IdsSeen(bs) && id !in IdsSeen(front) { assert last in bs && last.row.id == id; }
        if b :| b in bs && b.row.id == id {
          if b in front { } else { assert b == last; }
        }
      }
    }
  }
}
