/** What every decision obeys, whatever the request. */
module DecisionLaws {
  import opened Ordering
  import opened Evidence
  import opened DecisionPolicy
  import DecisionEngine

  // ---- the vote -----------------------------------------------------------------------------

  /** The weight of every neighbour whose choice mapped onto an offer. */
  function MappedWeight(bs: seq<Ballot>): real {
    if bs == [] then 0.0
    else MappedWeight(bs[..|bs| - 1]) + (if bs[|bs| - 1].vote.Some? then bs[|bs| - 1].Weight() else 0.0)
  }

  ghost predicate Distinct(keys: seq<string>) { forall i, j :: 0 <= i < j < |keys| ==> keys[i] != keys[j] }

  /** What one ballot adds to the votes over these keys. */
  function Gain(b: Ballot, keys: seq<string>): real {
    if b.vote.Some? && b.vote.value.key in keys then b.Weight() else 0.0
  }

  lemma GainSplits(b: Ballot, keys: seq<string>)
    requires keys != [] && Distinct(keys)
    ensures Gain(b, keys) == (if b.For(keys[0]) then b.Weight() else 0.0) + Gain(b, keys[1..])
  {
    assert keys == [keys[0]] + keys[1..];
    assert keys[0] !in keys[1..];
  }

  lemma {:induction false} OneKeyGains(bs: seq<Ballot>, b: Ballot, keys: seq<string>)
    requires Distinct(keys)
    ensures VotesOver(bs + [b], keys) == VotesOver(bs, keys) + Gain(b, keys)
  {
    if keys == [] {
    } else {
      OneKeyGains(bs, b, keys[1..]);
      DecisionEngine.OneMoreBallot(bs, b, keys[0]);
      GainSplits(b, keys);
    }
  }

  lemma {:induction false} NoBallotsNoVotes(keys: seq<string>)
    ensures VotesOver([], keys) == 0.0
  {
    if keys == [] {
    } else {
      NoBallotsNoVotes(keys[1..]);
    }
  }

  /** Over any list of keys that has every key voted for once, the votes add up to the mapped weight. */
  lemma {:induction false} VotesAddUp(bs: seq<Ballot>, keys: seq<string>)
    requires Distinct(keys) && forall b :: b in bs && b.vote.Some? ==> b.vote.value.key in keys
    ensures VotesOver(bs, keys) == MappedWeight(bs)
  {
    if bs == [] {
      NoBallotsNoVotes(keys);
    } else {
      var front, last := bs[..|bs| - 1], bs[|bs| - 1];
      assert bs == front + [last];
      VotesAddUp(front, keys);
      OneKeyGains(front, last, keys);
      assert last in bs;
    }
  }

  lemma {:induction false} DistinctCounts(keys: seq<string>, x: string)
    requires Distinct(keys)
    ensures multiset(keys)[x] <= 1
  {
    if keys == [] {
    } else {
      DistinctCounts(keys[1..], x);
      assert keys == [keys[0]] + keys[1..];
      assert keys[0] !in keys[1..];
    }
  }

  lemma DistinctSurvives(keys: seq<string>, others: seq<string>)
    requires Distinct(keys) && multiset(keys) == multiset(others)
    ensures Distinct(others)
  {
    forall i, j | 0 <= i < j < |others| ensures others[i] != others[j] {
      DistinctCounts(keys, others[i]);
      if others[i] == others[j] {
        TwiceCounts(others, i, j);
        assert false;
      }
    }
  }

  lemma RankingIsDistinct(bs: seq<Ballot>)
    ensures Distinct(RankedKeys(bs))
    ensures forall b :: b in bs && b.vote.Some? ==> b.vote.value.key in RankedKeys(bs)
  {
    RankedKeysFacts(bs);
    KeysSeenFacts(bs);
    DistinctSurvives(KeysSeen(bs), RankedKeys(bs));
    forall b | b in bs && b.vote.Some? ensures b.vote.value.key in KeysSeen(bs) {
      assert b.For(b.vote.value.key);
    }
  }

  /** No vote is lost or counted twice: the ranked options carry the weight of the mapped neighbours, no more. */
  lemma VotesConserve(bs: seq<Ballot>)
    ensures VotesOver(bs, RankedKeys(bs)) == MappedWeight(bs)
  {
    RankingIsDistinct(bs);
    VotesAddUp(bs, RankedKeys(bs));
  }

  function SharesOf(ranked: seq<RankedOption>): real {
    if ranked == [] then 0.0 else ranked[0].share + SharesOf(ranked[1..])
  }

  lemma {:induction false} WeightsArePositive(bs: seq<Ballot>, key: string)
    ensures forall i :: 0 <= i < |WeightsFor(bs, key)| ==> WeightsFor(bs, key)[i] > 0.0
    ensures |WeightsFor(bs, key)| <= |bs|
    ensures WeightsFor(bs, key) != [] <==> key in KeysSeen(bs)
  {
    if bs == [] {
    } else {
      WeightsArePositive(bs[..|bs| - 1], key);
      assert bs == bs[..|bs| - 1] + [bs[|bs| - 1]];
    }
  }

  lemma VotesAreFloored(bs: seq<Ballot>, key: string)
    ensures VotesFor(bs, key) >= 0.0
    ensures key in KeysSeen(bs) ==> VotesFor(bs, key) >= MIN_WEIGHT
  {
    if bs == [] {
    } else {
      var front, last := bs[..|bs| - 1], bs[|bs| - 1];
      assert bs == front + [last];
      DecisionEngine.OneMoreBallot(front, last, key);
      VotesAreFloored(front, key);
    }
  }

  lemma {:induction false} VotesOverBounds(bs: seq<Ballot>, keys: seq<string>, key: string)
    ensures VotesOver(bs, keys) >= 0.0
    ensures key in keys ==> VotesFor(bs, key) <= VotesOver(bs, keys)
  {
    if keys == [] {
    } else {
      VotesAreFloored(bs, keys[0]);
      VotesOverBounds(bs, keys[1..], key);
      assert keys == [keys[0]] + keys[1..];
    }
  }

  lemma {:induction false} SharesAddUp(bs: seq<Ballot>, keys: seq<string>, total: real)
    requires total > MIN_TOTAL && forall k :: k in keys ==> k in KeysSeen(bs)
    ensures SharesOf(Standing(bs, keys, total)) == ShareOf(VotesOver(bs, keys), total)
  {
    if keys == [] {
      ShareOfNothing(total);
    } else {
      var ranked := Standing(bs, keys, total);
      SharesAddUp(bs, keys[1..], total);
      assert ranked[1..] == Standing(bs, keys[1..], total);
      TwoShares(VotesFor(bs, keys[0]), VotesOver(bs, keys[1..]), total);
    }
  }

  lemma ShareOfNothing(total: real)
    requires total > MIN_TOTAL
    ensures ShareOf(0.0, total) == 0.0
  {
  }

  lemma TwoShares(a: real, b: real, total: real)
    requires total > MIN_TOTAL
    ensures ShareOf(a, total) + ShareOf(b, total) == ShareOf(a + b, total)
  {
  }

  /** The shares of a vote sum to one. */
  lemma SharesSumToOne(bs: seq<Ballot>)
    requires RankedKeys(bs) != []
    ensures SharesOf(RankedOptions(bs)) == 1.0
  {
    RankedKeysFacts(bs);
    TotalIsPositive(bs);
    SharesAddUpToWhole(bs, RankedKeys(bs), VotesOver(bs, RankedKeys(bs)));
  }

  lemma SharesAddUpToWhole(bs: seq<Ballot>, keys: seq<string>, total: real)
    requires total > MIN_TOTAL && total == VotesOver(bs, keys) && forall k :: k in keys ==> k in KeysSeen(bs)
    ensures SharesOf(Standing(bs, keys, total)) == 1.0
  {
    SharesAddUp(bs, keys, total);
    WholeIsOne(total);
  }

  lemma WholeIsOne(total: real)
    requires total > 0.0
    ensures total / total == 1.0
  {
  }

  lemma TotalIsPositive(bs: seq<Ballot>)
    requires RankedKeys(bs) != []
    ensures VotesOver(bs, RankedKeys(bs)) >= MIN_WEIGHT
  {
    RankedKeysFacts(bs);
    var keys := RankedKeys(bs);
    VotesAreFloored(bs, keys[0]);
    VotesOverBounds(bs, keys, keys[0]);
  }

  /** The winner's share of the vote, as the policy reads it. */
  function WinningShare(bs: seq<Ballot>): real
    requires RankedKeys(bs) != []
  {
    ShareOf(VotesFor(bs, RankedKeys(bs)[0]), VotesOver(bs, RankedKeys(bs)))
  }

  lemma ShareTimesTotal(votes: real, total: real, share: real)
    requires total > MIN_TOTAL && share == votes / total
    ensures share >= MIN_AGREEMENT_SHARE ==> votes >= MIN_AGREEMENT_SHARE * total
  {
    assert share * total == votes;
    assert share >= MIN_AGREEMENT_SHARE ==> (share - MIN_AGREEMENT_SHARE) * total >= 0.0;
  }

  /** Meeting the agreement floor leaves every other option at most two thirds of the winner's votes. */
  lemma AgreementIsMajority(bs: seq<Ballot>, key: string)
    requires RankedKeys(bs) != [] && WinningShare(bs) >= MIN_AGREEMENT_SHARE
    requires key in KeysSeen(bs) && key != RankedKeys(bs)[0]
    ensures 3.0 * VotesFor(bs, key) <= 2.0 * VotesFor(bs, RankedKeys(bs)[0])
    ensures VotesFor(bs, key) < VotesFor(bs, RankedKeys(bs)[0])
  {
    RankedKeysFacts(bs);
    TotalIsPositive(bs);
    var keys := RankedKeys(bs);
    var total := VotesOver(bs, keys);
    ShareTimesTotal(VotesFor(bs, keys[0]), total, WinningShare(bs));
    assert keys == [keys[0]] + keys[1..];
    VotesOverBounds(bs, keys[1..], key);
    VotesAreFloored(bs, keys[0]);
    VotesAreFloored(bs, key);
  }

  /** The option ranked first has the most votes. */
  lemma WinnerLeads(bs: seq<Ballot>, key: string)
    requires RankedKeys(bs) != [] && key in KeysSeen(bs)
    ensures VotesFor(bs, key) <= VotesFor(bs, RankedKeys(bs)[0])
  {
    RankedKeysFacts(bs);
    var keys, lt := RankedKeys(bs), ByVotes(Tally(bs));
    assert key in keys;
    var j :| 0 <= j < |keys| && keys[j] == key;
    assert j > 0 ==> !lt(keys[j], keys[0]);
  }

  lemma RatioOf(second: real, top: real)
    requires top > 0.0 && 3.0 * second <= 2.0 * top
    ensures second / top < CONFLICT_SHARE_RATIO
  {
    var ratio := second / top;
    assert ratio * top == second;
    assert ratio >= CONFLICT_SHARE_RATIO ==> (ratio - CONFLICT_SHARE_RATIO) * top >= 0.0;
  }

  /** With a split at 0.80 and a floor at 0.60, no split vote can meet the agreement floor. */
  lemma SplitNeverAgrees(bs: seq<Ballot>)
    requires RankedKeys(bs) != [] && IsSplit(bs, RankedKeys(bs))
    ensures WinningShare(bs) < MIN_AGREEMENT_SHARE
  {
    var keys := RankedKeys(bs);
    if WinningShare(bs) >= MIN_AGREEMENT_SHARE {
      RankingIsDistinct(bs);
      RankedKeysFacts(bs);
      assert keys[1] in keys && keys[0] != keys[1];
      AgreementIsMajority(bs, keys[1]);
      RatioOf(VotesFor(bs, keys[1]), VotesFor(bs, keys[0]));
      assert false;
    }
  }

  /** The winner's effective sample lies between one and the number of neighbours that voted for it. */
  lemma WinnersSample(bs: seq<Ballot>, key: string)
    requires key in KeysSeen(bs)
    ensures 1.0 <= EffectiveSampleSize(WeightsFor(bs, key)) <= |WeightsFor(bs, key)| as real <= |bs| as real
  {
    WeightsArePositive(bs, key);
    SampleSizeBounds(WeightsFor(bs, key));
  }

  lemma RatioAtLeast(x: real, y: real, r: real)
    requires y > 0.0
    ensures x / y >= r <==> x >= r * y
  {
    var q := x / y;
    assert q * y == x;
    assert q >= r ==> (q - r) * y >= 0.0;
    assert q < r ==> (r - q) * y > 0.0;
  }

  /** Two voters are sample enough exactly when neither outweighs the other about fourfold. */
  lemma PairIsEnoughIff(a: real, b: real)
    requires a > 0.0 && b > 0.0
    ensures EffectiveSampleSize([a, b]) >= MIN_EFFECTIVE_SAMPLE <==> a * a + b * b <= 4.0 * (a * b)
  {
    assert [a, b][1..] == [b] && [b][1..] == [];
    assert Sum([b]) == b && Squares([b]) == b * b;
    assert Sum([a, b]) == a + b && Squares([a, b]) == a * a + b * b;
    ProductAddsUp(a, a, b * b);
    SquareOfSum(a, b);
    RatioAtLeast((a + b) * (a + b), a * a + b * b, MIN_EFFECTIVE_SAMPLE);
  }

  // ---- labels and supporters ----------------------------------------------------------------

  lemma {:induction false} LabelIsAVote(bs: seq<Ballot>, key: string)
    requires key in KeysSeen(bs)
    ensures LabelFor(bs, key).key == key
    ensures exists b :: b in bs && b.vote == Some(LabelFor(bs, key))
  {
    var front, last := bs[..|bs| - 1], bs[|bs| - 1];
    assert bs == front + [last];
    if key in KeysSeen(front) {
      LabelIsAVote(front, key);
      var b :| b in front && b.vote == Some(LabelFor(front, key));
      assert b in bs;
    } else {
      assert last in bs && last.vote == Some(LabelFor(bs, key));
    }
  }

  lemma {:induction false} SupportersVoted(bs: seq<Ballot>, key: string)
    ensures forall id :: id in SupportersFor(bs, key) <==>
              id != "" && exists b :: b in bs && b.row.id == id && b.For(key)
  {
    if bs == [] {
    } else {
      var front, last := bs[..|bs| - 1], bs[|bs| - 1];
      assert bs == front + [last];
      SupportersVoted(front, key);
      forall id ensures id in SupportersFor(bs, key) <==>
                        id != "" && exists b :: b in bs && b.row.id == id && b.For(key)
      {
        if id in SupportersFor(bs, key) && id !in SupportersFor(front, key) {
          assert last in bs && last.row.id == id && last.For(key);
        }
        if b :| b in bs && b.row.id == id && b.For(key) {
          if b in front { } else { assert b == last; }
        }
      }
    }
  }

  lemma NeighboursAreEligible(q: Query, at: int, rows: seq<Row>, limit: nat)
    ensures forall r :: r in Neighbours(q, at, rows, limit) ==> r in rows
    ensures |Neighbours(q, at, rows, limit)| <= limit
    ensures rows != [] && limit > 0 ==> Neighbours(q, at, rows, limit) != []
  {
    ByRankIsWeak(q, at);
    SortMembers(rows, ByRank(q, at));
  }

  // ---- selection ----------------------------------------------------------------------------

  /** The ballots a request comes down to once a rule, an empty offer and an empty history are out of the way. */
  ghost predicate ReachesVote(req: Request) {
    RuleHit(req).None? && req.options != [] && Eligible(req.rows, req.at, true) != []
  }

  ghost function BallotsFor(req: Request): (bs: seq<Ballot>)
    requires ReachesVote(req)
    ensures bs != []
  {
    var eligible := Eligible(req.rows, req.at, true);
    NeighboursAreEligible(req.query, req.at, eligible, MAX_NEIGHBOURS);
    Ballots(req.query, req.at, req.options, Neighbours(req.query, req.at, eligible, MAX_NEIGHBOURS))
  }

  lemma Reached(req: Request)
    ensures Decision(req).status.Selected? ==> ReachesVote(req)
    ensures ReachesVote(req) ==> Decision(req) == Settle(req, |Eligible(req.rows, req.at, true)|, BallotsFor(req))
  {
  }

  lemma SelectedFacts(req: Request, eligible: nat, bs: seq<Ballot>)
    requires bs != []
    ensures var v := Settle(req, eligible, bs);
            v.status.Selected? ==>
              && RankedKeys(bs) != [] && RankedKeys(bs)[0] in KeysSeen(bs)
              && SelectedOn(v, ProjectBound(req), eligible, bs, RankedKeys(bs)[0])
  {
    RankedKeysFacts(bs);
    if RankedKeys(bs) != [] { SelectedPoll(req, PollOf(ProjectBound(req), eligible, bs)); }
  }

  /** A verdict that selects this key on these ballots. */
  ghost predicate SelectedOn(v: Verdict, projectBound: bool, eligible: nat, bs: seq<Ballot>, key: string)
    requires bs != [] && RankedKeys(bs) != [] && key in KeysSeen(bs)
  {
    && v.status == Selected(LabelFor(bs, key)) && v.evidence == SupportersFor(bs, key)
    && v.adequacy == VotedAdequacy(projectBound, eligible, bs, key, WinningShare(bs))
    && v.adequacy.adequate && v.distribution.InDistribution? && v.conflict.NoConflict?
    && v.conflict == ConflictOf(bs) && v.adequacy.topOverlap >= OOD_OVERLAP_FLOOR
  }

  lemma SelectedPoll(req: Request, poll: Poll)
    requires poll.ranked != []
    ensures var v := Conclude(req, poll);
            v.status.Selected? ==>
            && v.status.option == poll.ranked[0].option && v.evidence == poll.ranked[0].supporters
            && v.adequacy == poll.adequacy && poll.adequacy.adequate && v.conflict == poll.conflict == NoConflict
            && v.distribution.InDistribution? && poll.adequacy.topOverlap >= OOD_OVERLAP_FLOOR
  {
  }

  /** An eligible row, in force at decision time, whose own choice maps onto this option. */
  ghost predicate SpokeFor(req: Request, id: string, key: string) {
    exists r :: r in Eligible(req.rows, req.at, true) && r.id == id && r.choice.Some? && InForce(r, req.at)
                && MapChoice(r.choice.value, req.options).Some?
                && MapChoice(r.choice.value, req.options).value.key == key
  }

  lemma BallotSpoke(req: Request, b: Ballot, key: string)
    ensures ReachesVote(req) && b in BallotsFor(req) && b.For(key) ==>
              SpokeFor(req, b.row.id, key) && b.vote.value in req.options
  {
    if ReachesVote(req) && b in BallotsFor(req) && b.For(key) {
      var eligible := Eligible(req.rows, req.at, true);
      var scored := Neighbours(req.query, req.at, eligible, MAX_NEIGHBOURS);
      NeighboursAreEligible(req.query, req.at, eligible, MAX_NEIGHBOURS);
      var bs := BallotsFor(req);
      var i :| 0 <= i < |bs| && bs[i] == b;
      assert scored[i] in scored && b == BallotOf(req.query, req.at, req.options, scored[i]);
      EligibleIsInForce(req.rows, req.at, true, b.row);
      MapChoiceIsOffered(b.row.choice.value, req.options);
    }
  }

  /** An offered option, adequate, in distribution and unconflicted, citing exactly the identified neighbours that
      voted for it, each an eligible row in force. */
  ghost predicate SoundSelection(req: Request, v: Verdict) {
    && ReachesVote(req) && v.status.Selected? && v.status.option in req.options
    && v.adequacy.adequate && v.distribution.InDistribution? && v.conflict.NoConflict?
    && v.adequacy.topOverlap >= OOD_OVERLAP_FLOOR
    && (forall id :: id in v.evidence ==> SpokeFor(req, id, v.status.option.key))
    && (forall b :: b in BallotsFor(req) && b.row.id != "" && b.For(v.status.option.key) ==> b.row.id in v.evidence)
  }

  /** Every selection is sound. */
  lemma SelectionIsSound(req: Request)
    ensures Decision(req).status.Selected? ==> SoundSelection(req, Decision(req))
  {
    Reached(req);
    if Decision(req).status.Selected? {
      var bs := BallotsFor(req);
      SelectedFacts(req, |Eligible(req.rows, req.at, true)|, bs);
      var key := RankedKeys(bs)[0];
      LabelIsAVote(bs, key);
      SupportersVoted(bs, key);
      var winner :| winner in bs && winner.vote == Some(LabelFor(bs, key));
      BallotSpoke(req, winner, key);
      forall id | id in SupportersFor(bs, key) ensures SpokeFor(req, id, key) {
        var b :| b in bs && b.row.id == id && b.For(key);
        BallotSpoke(req, b, key);
      }
    }
  }

  lemma {:induction false} AboveFloorCounts(bs: seq<Ballot>, projectBound: bool)
    ensures AboveFloor(bs, projectBound) >= 1 ==> exists i :: 0 <= i < |bs| && ClearsFloor(bs[i], projectBound)
    ensures AboveFloor(bs, projectBound) >= 2 ==>
              exists i, j :: 0 <= i < j < |bs| && ClearsFloor(bs[i], projectBound) && ClearsFloor(bs[j], projectBound)
  {
    if bs == [] {
    } else {
      var front := bs[..|bs| - 1];
      AboveFloorCounts(front, projectBound);
      assert forall i :: 0 <= i < |front| ==> bs[i] == front[i];
      if AboveFloor(front, projectBound) >= 2 {
        var i, j :| 0 <= i < j < |front| && ClearsFloor(front[i], projectBound) && ClearsFloor(front[j], projectBound);
        assert ClearsFloor(bs[i], projectBound) && ClearsFloor(bs[j], projectBound);
      } else if AboveFloor(front, projectBound) == 1 {
        var i :| 0 <= i < |front| && ClearsFloor(front[i], projectBound);
        assert ClearsFloor(bs[i], projectBound);
      }
    }
  }

  /** Two neighbours clear the similarity floor, at least two voted for this key, and any other option has at most
      two thirds of its votes. */
  ghost predicate ClearMajority(bs: seq<Ballot>, key: string, projectBound: bool) {
    && |WeightsFor(bs, key)| >= 2
    && (exists i, j :: 0 <= i < j < |bs| && ClearsFloor(bs[i], projectBound) && ClearsFloor(bs[j], projectBound))
    && (forall k :: k in KeysSeen(bs) && k != key ==> 3.0 * VotesFor(bs, k) <= 2.0 * VotesFor(bs, key))
  }

  /** A selection never rests on the tie-break or on one witness. */
  lemma SelectionIsAMajority(req: Request)
    ensures Decision(req).status.Selected? ==>
              && ReachesVote(req)
              && ClearMajority(BallotsFor(req), Decision(req).status.option.key, ProjectBound(req))
  {
    Reached(req);
    if Decision(req).status.Selected? {
      SelectedFacts(req, |Eligible(req.rows, req.at, true)|, BallotsFor(req));
      LabelIsAVote(BallotsFor(req), RankedKeys(BallotsFor(req))[0]);
      AdequateIsAMajority(BallotsFor(req), ProjectBound(req), |Eligible(req.rows, req.at, true)|);
    }
  }

  lemma AdequateIsAMajority(bs: seq<Ballot>, projectBound: bool, eligible: nat)
    requires bs != [] && RankedKeys(bs) != []
    ensures VotedAdequacy(projectBound, eligible, bs, RankedKeys(bs)[0], WinningShare(bs)).adequate ==>
              ClearMajority(bs, RankedKeys(bs)[0], projectBound)
  {
    var key := RankedKeys(bs)[0];
    RankedKeysFacts(bs);
    WinnersSample(bs, key);
    AboveFloorCounts(bs, projectBound);
    if WinningShare(bs) >= MIN_AGREEMENT_SHARE {
      forall k | k in KeysSeen(bs) && k != key ensures 3.0 * VotesFor(bs, k) <= 2.0 * VotesFor(bs, key) {
        AgreementIsMajority(bs, k);
      }
    }
  }

  lemma TwoBallots(x: Ballot, y: Ballot, key: string)
    requires x.For(key) && y.For(key)
    ensures KeysSeen([x, y]) == [key] && RankedKeys([x, y]) == [key] && LabelFor([x, y], key) == x.vote.value
    ensures WeightsFor([x, y], key) == [x.Weight(), y.Weight()] && WinningShare([x, y]) == 1.0
  {
    assert [x, y] == ([] + [x]) + [y];
    DecisionEngine.OneMoreBallot([], x, key);
    DecisionEngine.OneMoreBallot([] + [x], y, key);
    assert [key][1..] == [] && Sort([], ByVotes(Tally([x, y]))) == [];
    TotalIsPositive([x, y]);
    WholeIsOne(VotesFor([x, y], key));
    assert VotesOver([x, y], [key]) == VotesFor([x, y], key);
  }

  lemma TwoBallotsAgree(x: Ballot, y: Ballot, key: string)
    requires x.For(key) && y.For(key)
    ensures !HasDispute([x, y]) && ConflictOf([x, y]) == NoConflict
  {
    TwoBallots(x, y, key);
    assert [x, y] == ([] + [x]) + [y];
    forall id ensures OptionOf([x, y], id).Some? ==> OptionOf([x, y], id) == Some(key) {
      DecisionEngine.OneMoreId([], x, id);
      DecisionEngine.OneMoreId([] + [x], y, id);
    }
  }

  lemma TwoBallotsMeasure(x: Ballot, y: Ballot, projectBound: bool)
    ensures AboveFloor([x, y], projectBound) >= 2 <==> ClearsFloor(x, projectBound) && ClearsFloor(y, projectBound)
    ensures TopOverlap([x, y]) >= OOD_OVERLAP_FLOOR <==>
              x.overlap >= OOD_OVERLAP_FLOOR || y.overlap >= OOD_OVERLAP_FLOOR
  {
    assert [x, y][..1] == [x] && [x][..0] == [] && [x, y][1..] == [y] && [y][1..] == [];
    assert AboveFloor([x], projectBound) == if ClearsFloor(x, projectBound) then 1 else 0;
    assert TopOverlap([y]) == if y.overlap > 0.0 then y.overlap else 0.0;
  }

  /** Two witnesses suffice exactly when both clear the floor, neither outweighs the other about fourfold, one of
      them is about the matter at hand, and whoever has a veto endorses the option. */
  lemma TwoWitnessesSufficeIff(req: Request, eligible: nat, x: Ballot, y: Ballot, key: string)
    requires x.For(key) && y.For(key)
    ensures Settle(req, eligible, [x, y]).status == Selected(x.vote.value) <==>
              && ClearsFloor(x, ProjectBound(req)) && ClearsFloor(y, ProjectBound(req))
              && x.Weight() * x.Weight() + y.Weight() * y.Weight() <= 4.0 * (x.Weight() * y.Weight())
              && (x.overlap >= OOD_OVERLAP_FLOOR || y.overlap >= OOD_OVERLAP_FLOOR)
              && Endorses(req, key)
  {
    TwoBallots(x, y, key);
    TwoBallotsAgree(x, y, key);
    TwoBallotsMeasure(x, y, ProjectBound(req));
    TwoBallotsAdequate(x, y, key, ProjectBound(req), eligible);
    RankedKeysFacts([x, y]);
    SelectsIff(req, PollOf(ProjectBound(req), eligible, [x, y]));
  }

  lemma TwoBallotsAdequate(x: Ballot, y: Ballot, key: string, projectBound: bool, eligible: nat)
    requires x.For(key) && y.For(key)
    ensures VotedAdequacy(projectBound, eligible, [x, y], key, 1.0).adequate <==>
              && ClearsFloor(x, projectBound) && ClearsFloor(y, projectBound)
              && x.Weight() * x.Weight() + y.Weight() * y.Weight() <= 4.0 * (x.Weight() * y.Weight())
  {
    TwoBallots(x, y, key);
    TwoBallotsMeasure(x, y, projectBound);
    PairIsEnoughIff(x.Weight(), y.Weight());
  }

  lemma SelectsIff(req: Request, poll: Poll)
    requires poll.ranked != []
    ensures Conclude(req, poll).status == Selected(poll.ranked[0].option) <==>
              && poll.conflict == NoConflict && poll.adequacy.topOverlap >= OOD_OVERLAP_FLOOR && poll.adequacy.adequate
              && Endorses(req, poll.winnerKey)
  {
  }

  // ---- the reasons --------------------------------------------------------------------------

  lemma ConcludeSaysWhy(req: Request, poll: Poll)
    requires poll.ranked != []
    ensures var s := Conclude(req, poll).status;
            && (s == Abstained(ConflictingEvidence) <==> poll.conflict != NoConflict)
            && (s == Abstained(OutOfDistribution) <==>
                  poll.conflict == NoConflict && poll.adequacy.topOverlap < OOD_OVERLAP_FLOOR)
            && (s == Abstained(InadequateEvidence) <==>
                  poll.conflict == NoConflict && poll.adequacy.topOverlap >= OOD_OVERLAP_FLOOR
                      && !poll.adequacy.adequate)
  {
  }

  /** Evidence that disagrees is reported as disagreement, never as too little evidence, although a split vote always
      falls short of the agreement floor too. */
  lemma DisagreementIsNeverShortage(req: Request)
    requires ReachesVote(req) && RankedKeys(BallotsFor(req)) != []
    ensures var bs, v := BallotsFor(req), Decision(req);
            && (v.status == Abstained(ConflictingEvidence) <==> IsSplit(bs, RankedKeys(bs)) || HasDispute(bs))
            && (v.status == Abstained(InadequateEvidence) ==> !IsSplit(bs, RankedKeys(bs)) && !HasDispute(bs))
            && (IsSplit(bs, RankedKeys(bs)) ==> !v.adequacy.adequate)
  {
    Reached(req);
    var bs := BallotsFor(req);
    var poll := PollOf(ProjectBound(req), |Eligible(req.rows, req.at, true)|, bs);
    ConcludeSaysWhy(req, poll);
    ConcludeKeepsAdequacy(req, poll);
    RankedKeysFacts(bs);
    if IsSplit(bs, RankedKeys(bs)) { SplitNeverAgrees(bs); }
  }

  // ---- rules --------------------------------------------------------------------------------

  lemma {:induction false} FirstHitIsFirst(rules: seq<Rule>, options: seq<Choice>)
    ensures FirstHit(rules, options).None? ==> forall r :: r in rules ==> MapChoice(r.statement, options).None?
    ensures FirstHit(rules, options).Some? ==>
              exists i :: 0 <= i < |rules| && FirstHit(rules, options).value.0 == rules[i]
                          && MapChoice(rules[i].statement, options) == Some(FirstHit(rules, options).value.1)
                          && forall j :: 0 <= j < i ==> MapChoice(rules[j].statement, options).None?
  {
    if rules == [] {
    } else if MapChoice(rules[0].statement, options).Some? {
    } else {
      FirstHitIsFirst(rules[1..], options);
      assert rules == [rules[0]] + rules[1..];
      if FirstHit(rules, options).Some? {
        var i :| 0 <= i < |rules| - 1 && FirstHit(rules[1..], options).value.0 == rules[1..][i]
                 && MapChoice(rules[1..][i].statement, options) == Some(FirstHit(rules[1..], options).value.1)
                 && forall j :: 0 <= j < i ==> MapChoice(rules[1..][j].statement, options).None?;
        forall j | 0 <= j < i + 1 ensures MapChoice(rules[j].statement, options).None? {
          if j > 0 { assert rules[j] == rules[1..][j - 1]; }
        }
        assert rules[i + 1] == rules[1..][i];
      }
    }
  }

  lemma RuleBeforeIsWeak()
    ensures StrictWeak(RuleBefore)
  {
    TextLessIsStrictTotal();
  }

  /** A rule decides exactly when one in scope maps onto an offer; the one that does is in scope, and no other rule
      that maps comes before it. */
  lemma RuleThatApplies(req: Request)
    requires req.options != []
    ensures Decision(req).status.RuleApplied? <==>
              exists r :: r in req.rules && InScope(r, req.project) && MapChoice(r.statement, req.options).Some?
    ensures RuleHit(req).Some? ==>
              var (rule, option) := RuleHit(req).value;
              && rule in req.rules && InScope(rule, req.project)
              && MapChoice(rule.statement, req.options) == Some(option)
              && forall r :: r in req.rules && InScope(r, req.project) && MapChoice(r.statement, req.options).Some? ==>
                   !RuleBefore(r, rule)
  {
    RuleBeforeIsWeak();
    var scoped := Select(req.rules, ScopedTo(req.project));
    SelectMembers(req.rules, ScopedTo(req.project));
    SortMembers(scoped, RuleBefore);
    SortIsSortedPermutation(scoped, RuleBefore);
    FirstHitIsBest(Walked(req), req.options);
    OnlyRulesApply(req);
  }

  lemma FirstHitIsBest(walked: seq<Rule>, options: seq<Choice>)
    requires StrictWeak(RuleBefore) && Sorted(walked, RuleBefore)
    ensures FirstHit(walked, options).Some? <==> exists r :: r in walked && MapChoice(r.statement, options).Some?
    ensures FirstHit(walked, options).Some? ==>
              var (rule, option) := FirstHit(walked, options).value;
              && rule in walked && MapChoice(rule.statement, options) == Some(option)
              && forall r :: r in walked && MapChoice(r.statement, options).Some? ==> !RuleBefore(r, rule)
  {
    FirstHitIsFirst(walked, options);
    if FirstHit(walked, options).Some? {
      var i :| 0 <= i < |walked| && FirstHit(walked, options).value.0 == walked[i]
               && MapChoice(walked[i].statement, options) == Some(FirstHit(walked, options).value.1)
               && forall j :: 0 <= j < i ==> MapChoice(walked[j].statement, options).None?;
      assert walked[i] in walked;
      forall r | r in walked && MapChoice(r.statement, options).Some? ensures !RuleBefore(r, walked[i]) {
        var j :| 0 <= j < |walked| && walked[j] == r;
        assert j >= i;
      }
    }
  }

  lemma OnlyRulesApply(req: Request)
    ensures Decision(req).status.RuleApplied? <==> RuleHit(req).Some?
  {
    if ReachesVote(req) {
      Reached(req);
      SettleAppliesNoRule(req, |Eligible(req.rows, req.at, true)|, BallotsFor(req));
    }
  }

  lemma SettleAppliesNoRule(req: Request, eligible: nat, bs: seq<Ballot>)
    requires bs != []
    ensures !Settle(req, eligible, bs).status.RuleApplied?
  {
    if RankedKeys(bs) != [] { ConcludeAppliesNoRule(req, PollOf(ProjectBound(req), eligible, bs)); }
  }

  lemma ConcludeAppliesNoRule(req: Request, poll: Poll)
    requires poll.ranked != []
    ensures !Conclude(req, poll).status.RuleApplied?
  {
  }

  // ---- the order of the rows ----------------------------------------------------------------

  /** What the order of listing must not decide: whether a successor is in effect, and which row an id means. */
  ghost predicate OrderIsIdle(rows: seq<Row>, at: int) {
    SuccessorsAgree(rows, at, true) && IdsIdentify(Eligible(rows, at, true))
  }

  lemma IdentifiedIsIdle(rows: seq<Row>, at: int)
    requires IdsIdentify(rows)
    ensures OrderIsIdle(rows, at)
  {
    IdentifiedAgree(rows, at, true);
    forall r | r in Eligible(rows, at, true) ensures r in rows { EligibleExactly(rows, at, true, r); }
  }

  /** Listing the same rows in another order changes nothing in the decision. */
  lemma DecisionIgnoresRowOrder(req: Request, others: seq<Row>)
    requires OrderIsIdle(req.rows, req.at) && multiset(req.rows) == multiset(others)
    ensures Decision(req.(rows := others)) == Decision(req)
  {
    var again := req.(rows := others);
    SameVote(req, others);
    if ReachesVote(req) {
      Reached(req);
      Reached(again);
      SettleIgnoresRows(req, others, |Eligible(req.rows, req.at, true)|, BallotsFor(req));
    } else {
      NoVoteIgnoresRows(req, others);
    }
  }

  lemma NoVoteIgnoresRows(req: Request, others: seq<Row>)
    requires !ReachesVote(req) && !ReachesVote(req.(rows := others))
    requires |Eligible(others, req.at, true)| == |Eligible(req.rows, req.at, true)|
    ensures Decision(req.(rows := others)) == Decision(req)
  {
    assert RuleHit(req.(rows := others)) == RuleHit(req);
  }

  /** The same rule applies, the same vote is reached, and the same ballots are cast in it. */
  lemma SameVote(req: Request, others: seq<Row>)
    requires OrderIsIdle(req.rows, req.at) && multiset(req.rows) == multiset(others)
    ensures var again := req.(rows := others);
            && RuleHit(again) == RuleHit(req) && (ReachesVote(again) ==> ReachesVote(req))
            && (ReachesVote(req) ==> ReachesVote(again) && BallotsFor(again) == BallotsFor(req))
            && |Eligible(others, req.at, true)| == |Eligible(req.rows, req.at, true)|
  {
    SameNeighbours(req.query, req.at, req.rows, others);
  }

  lemma SameNeighbours(q: Query, at: int, rows: seq<Row>, others: seq<Row>)
    requires OrderIsIdle(rows, at) && multiset(rows) == multiset(others)
    ensures |Eligible(rows, at, true)| == |Eligible(others, at, true)|
    ensures Neighbours(q, at, Eligible(rows, at, true), MAX_NEIGHBOURS)
            == Neighbours(q, at, Eligible(others, at, true), MAX_NEIGHBOURS)
  {
    EligiblePermutes(rows, others, at, true);
    var a, b := Eligible(rows, at, true), Eligible(others, at, true);
    assert |a| == |multiset(a)| == |multiset(b)| == |b|;
    NeighboursPermute(q, at, a, b, MAX_NEIGHBOURS);
  }

  lemma SettleIgnoresRows(req: Request, others: seq<Row>, eligible: nat, bs: seq<Ballot>)
    requires bs != []
    ensures Settle(req.(rows := others), eligible, bs) == Settle(req, eligible, bs)
  {
    if RankedKeys(bs) != [] { ConcludeIgnoresRows(req, others, PollOf(ProjectBound(req), eligible, bs)); }
  }

  lemma ConcludeIgnoresRows(req: Request, others: seq<Row>, poll: Poll)
    requires poll.ranked != []
    ensures Conclude(req.(rows := others), poll) == Conclude(req, poll)
  {
  }

  // ---- the advisor --------------------------------------------------------------------------

  /** The same request with nobody to ask and nobody to wait for. */
  function Unadvised(req: Request): Request { req.(advisor := None, advisorRequired := {}) }

  predicate Endorses(req: Request, key: string) {
    match req.advisor
    case None => req.family !in req.advisorRequired
    case Some(a) => a.parsed && !a.abstained && a.recommendedKey == key
  }

  ghost predicate VetoedOnly(req: Request, v: Verdict, w: Verdict) {
    && v.ranked == w.ranked && v.adequacy == w.adequacy && v.score == w.score
    && v.distribution == w.distribution && v.conflict == w.conflict
    && (!w.status.Selected? ==> v.status == w.status)
    && (w.status.Selected? ==>
          v.status == if Endorses(req, w.status.option.key) then w.status else Abstained(AdvisorForced))
  }

  lemma ConcludeUnderAdvice(req: Request, poll: Poll)
    requires poll.ranked != [] && poll.ranked[0].option.key == poll.winnerKey
    ensures VetoedOnly(req, Conclude(req, poll), Conclude(Unadvised(req), poll))
  {
  }

  lemma SettleUnderAdvice(req: Request, eligible: nat, bs: seq<Ballot>)
    requires bs != []
    ensures VetoedOnly(req, Settle(req, eligible, bs), Settle(Unadvised(req), eligible, bs))
  {
    if RankedKeys(bs) != [] {
      RankedKeysFacts(bs);
      LabelIsAVote(bs, RankedKeys(bs)[0]);
      ConcludeUnderAdvice(req, PollOf(ProjectBound(req), eligible, bs));
    }
  }

  /** An advisor may only veto: ranking, adequacy and score are those of the unadvised decision, and so is the
      outcome, except that a selection stands exactly when the advisor endorses the very option selected. */
  lemma AdvisorOnlyVetoes(req: Request)
    ensures VetoedOnly(req, Decision(req), Decision(Unadvised(req)))
  {
    assert RuleHit(Unadvised(req)) == RuleHit(req);
    if ReachesVote(req) {
      Reached(req);
      Reached(Unadvised(req));
      SettleUnderAdvice(req, |Eligible(req.rows, req.at, true)|, BallotsFor(req));
    }
  }

  /** Two advisors that both let a selection through let the same one through; and where a family does not require
      an advisor, hearing one never turns an abstention into a selection. */
  lemma AdvisorsNeverSteer(req: Request, a: Option<Advisor>, b: Option<Advisor>)
    ensures var v, w := Decision(req.(advisor := a)), Decision(req.(advisor := b));
            v.status.Selected? && w.status.Selected? ==> v.status == w.status
    ensures var v, w := Decision(req.(advisor := a)), Decision(req.(advisor := None));
            req.family !in req.advisorRequired && v.status.Selected? ==> w.status == v.status
  {
    AdvisorOnlyVetoes(req.(advisor := a));
    AdvisorOnlyVetoes(req.(advisor := b));
    AdvisorOnlyVetoes(req.(advisor := None));
    assert Unadvised(req.(advisor := a)) == Unadvised(req) == Unadvised(req.(advisor := b));
    assert Unadvised(req.(advisor := None)) == Unadvised(req);
  }

  /** What an advisor cites counts only where it was offered, and only once. */
  lemma {:induction false} KeptIsTheIntersection(claimed: seq<string>, offered: seq<string>)
    ensures forall id :: id in Kept(claimed, offered) <==> id in claimed && id in offered && id != ""
    ensures Distinct(Kept(claimed, offered))
    ensures |Kept(claimed, offered)| + Dropped(claimed, offered) <= |claimed|
    ensures Dropped(claimed, offered) == 0 <==> forall id :: id in claimed && id != "" ==> id in offered
  {
    if claimed == [] {
    } else {
      KeptIsTheIntersection(claimed[..|claimed| - 1], offered);
      assert claimed == claimed[..|claimed| - 1] + [claimed[|claimed| - 1]];
    }
  }

  // ---- conflict -----------------------------------------------------------------------------

  lemma {:induction false} AddedDisputes(ids: seq<string>, bs: seq<Ballot>, id: string, targets: seq<string>)
    ensures forall x :: x in AddDisputes(ids, bs, id, targets) <==>
              x in ids || exists t :: t in targets && Disputes(bs, id, t) && (x == id || x == t)
  {
    if targets == [] {
    } else {
      var front, last := targets[..|targets| - 1], targets[|targets| - 1];
      AddedDisputes(ids, bs, id, front);
      assert targets == front + [last];
      forall x ensures x in AddDisputes(ids, bs, id, targets) <==>
              x in ids || exists t :: t in targets && Disputes(bs, id, t) && (x == id || x == t)
      {
        if t :| t in targets && Disputes(bs, id, t) && (x == id || x == t) {
          if t in front { } else { assert t == last; }
        }
        if Disputes(bs, id, last) && (x == id || x == last) { assert last in targets; }
      }
    }
  }

  // ---- strength -----------------------------------------------------------------------------

  datatype Strength = Strong | Moderate | Weak

  function EvidenceStrength(a: Adequacy): Strength {
    if a.aboveFloor >= 4 && a.sampleSize >= 3.0 && a.share >= 0.75 && a.learning >= 3 then Strong
    else if a.aboveFloor >= 2 && a.sampleSize >= MIN_EFFECTIVE_SAMPLE && a.share >= MIN_AGREEMENT_SHARE then Moderate
    else Weak
  }

  lemma VotedStrength(projectBound: bool, eligible: nat, bs: seq<Ballot>, key: string, share: real)
    requires bs != []
    ensures var a := VotedAdequacy(projectBound, eligible, bs, key, share);
            EvidenceStrength(a).Weak? <==> !a.adequate
  {
  }

  lemma SettledStrength(req: Request, eligible: nat, bs: seq<Ballot>)
    requires bs != []
    ensures var a := Settle(req, eligible, bs).adequacy;
            EvidenceStrength(a).Weak? <==> !a.adequate
  {
    if RankedKeys(bs) != [] {
      VotedStrength(ProjectBound(req), eligible, bs, RankedKeys(bs)[0], RankedOptions(bs)[0].share);
      ConcludeKeepsAdequacy(req, PollOf(ProjectBound(req), eligible, bs));
    }
  }

  lemma ConcludeKeepsAdequacy(req: Request, poll: Poll)
    requires poll.ranked != []
    ensures Conclude(req, poll).adequacy == poll.adequacy
  {
  }

  /** The label a human reads and the gate the policy uses never disagree. */
  lemma WeakExactlyWhenInadequate(req: Request)
    ensures EvidenceStrength(Decision(req).adequacy).Weak? <==> !Decision(req).adequacy.adequate
  {
    if ReachesVote(req) {
      Reached(req);
      SettledStrength(req, |Eligible(req.rows, req.at, true)|, BallotsFor(req));
    } else {
      NoVoteNoAdequacy(req);
    }
  }

  lemma NoVoteNoAdequacy(req: Request)
    requires !ReachesVote(req)
    ensures !Decision(req).adequacy.adequate && Decision(req).adequacy.aboveFloor == 0
  {
  }
}
