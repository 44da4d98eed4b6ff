/** The policy as it runs: the vote and the scans fill dictionaries and lists in place. */
module DecisionEngine {
  import opened Ordering
  import opened Evidence
  import opened DecisionPolicy

  function ListAt<T>(m: map<string, seq<T>>, key: string): seq<T> { if key in m then m[key] else [] }

  /** The dictionaries one pass over the neighbours fills, by option. */
  datatype VoteCount = VoteCount(
    keys: seq<string>, votes: map<string, real>, labels: map<string, Choice>, weights: map<string, seq<real>>,
    supporters: map<string, seq<string>>, unmappable: nat)

  /** The dictionaries the same pass fills by row id. */
  datatype IdCount = IdCount(
    considered: seq<string>, ids: seq<string>, rowById: map<string, Row>, optionById: map<string, string>)

  ghost predicate KeyCounted(c: VoteCount, bs: seq<Ballot>, k: string) {
    && (k in c.votes <==> k in KeysSeen(bs)) && (k in c.labels <==> k in KeysSeen(bs))
    && (k in KeysSeen(bs) ==> c.votes[k] == VotesFor(bs, k) && c.labels[k] == LabelFor(bs, k))
    && ListAt(c.weights, k) == WeightsFor(bs, k)
    && ListAt(c.supporters, k) == SupportersFor(bs, k)
  }

  ghost predicate VotesCounted(c: VoteCount, bs: seq<Ballot>) {
    c.keys == KeysSeen(bs) && forall k :: KeyCounted(c, bs, k)
  }

  ghost predicate IdCounted(c: IdCount, bs: seq<Ballot>, id: string) {
    && (id in c.rowById <==> id in IdsSeen(bs)) && (id in IdsSeen(bs) ==> c.rowById[id] == RowOf(bs, id))
    && (id in c.optionById <==> OptionOf(bs, id).Some?)
    && (id in c.optionById ==> OptionOf(bs, id) == Some(c.optionById[id]))
  }

  ghost predicate IdsCounted(c: IdCount, bs: seq<Ballot>) {
    c.considered == Considered(bs) && c.ids == IdsSeen(bs) && forall id :: IdCounted(c, bs, id)
  }

  function Unmapped(bs: seq<Ballot>): nat {
    if bs == [] then 0 else Unmapped(bs[..|bs| - 1]) + (if bs[|bs| - 1].vote.None? then 1 else 0)
  }

  lemma {:induction false} NoWeightsUnseen(bs: seq<Ballot>, key: string)
    requires key !in KeysSeen(bs)
    ensures WeightsFor(bs, key) == []
  {
    if bs == [] {
    } else {
      NoWeightsUnseen(bs[..|bs| - 1], key);
    }
  }

  lemma {:induction false} SumAppend(w: seq<real>, x: real)
    ensures Sum(w + [x]) == Sum(w) + x
  {
    if w == [] {
    } else {
      SumAppend(w[1..], x);
      assert (w + [x])[1..] == w[1..] + [x];
    }
  }

  lemma OneMoreBallot(bs: seq<Ballot>, b: Ballot, k: string)
    ensures KeysSeen(bs + [b]) ==
            if b.vote.Some? && b.vote.value.key !in KeysSeen(bs) then KeysSeen(bs) + [b.vote.value.key]
            else KeysSeen(bs)
    ensures WeightsFor(bs + [b], k) == if b.For(k) then WeightsFor(bs, k) + [b.Weight()] else WeightsFor(bs, k)
    ensures VotesFor(bs + [b], k) == if b.For(k) then VotesFor(bs, k) + b.Weight() else VotesFor(bs, k)
    ensures SupportersFor(bs + [b], k) ==
            if b.For(k) && b.row.id != "" then SupportersFor(bs, k) + [b.row.id] else SupportersFor(bs, k)
    ensures k in KeysSeen(bs + [b]) ==>
              LabelFor(bs + [b], k) == if k in KeysSeen(bs) then LabelFor(bs, k) else b.vote.value
  {
    var all := bs + [b];
    assert all[..|all| - 1] == bs && all[|all| - 1] == b;
    SumAppend(WeightsFor(bs, k), b.Weight());
  }

  /** One neighbour added to the vote dictionaries. */
  function AddVote(c: VoteCount, b: Ballot): VoteCount {
    if b.vote.None? then c.(unmappable := c.unmappable + 1)
    else
      var key := b.vote.value.key;
      VoteCount(AddNew(c.keys, key),
                c.votes[key := (if key in c.votes then c.votes[key] else 0.0) + b.Weight()],
                if key in c.labels then c.labels else c.labels[key := b.vote.value],
                c.weights[key := ListAt(c.weights, key) + [b.Weight()]],
                if b.row.id == "" then c.supporters
                else c.supporters[key := ListAt(c.supporters, key) + [b.row.id]],
                c.unmappable)
  }

  lemma OtherKeyKept(c: VoteCount, bs: seq<Ballot>, b: Ballot, k: string)
    requires KeyCounted(c, bs, k) && !b.For(k)
    ensures KeyCounted(AddVote(c, b), bs + [b], k)
  {
    OneMoreBallot(bs, b, k);
    var next := AddVote(c, b);
    assert k in next.votes <==> k in c.votes;
    assert k in next.labels <==> k in c.labels;
  }

  lemma OwnKeyAdvances(c: VoteCount, bs: seq<Ballot>, b: Ballot, k: string)
    requires KeyCounted(c, bs, k) && b.For(k)
    ensures KeyCounted(AddVote(c, b), bs + [b], k)
  {
    OneMoreBallot(bs, b, k);
    if k !in KeysSeen(bs) { NoWeightsUnseen(bs, k); }
    var next := AddVote(c, b);
    assert next.votes[k] == VotesFor(bs + [b], k);
    assert next.labels[k] == LabelFor(bs + [b], k);
  }

  lemma AddVoteCounts(c: VoteCount, bs: seq<Ballot>, b: Ballot)
    requires VotesCounted(c, bs)
    ensures VotesCounted(AddVote(c, b), bs + [b])
  {
    OneMoreBallot(bs, b, "");
    forall k ensures KeyCounted(AddVote(c, b), bs + [b], k) {
      assert KeyCounted(c, bs, k);
      if b.For(k) { OwnKeyAdvances(c, bs, b, k); } else { OtherKeyKept(c, bs, b, k); }
    }
  }

  lemma OneMoreId(bs: seq<Ballot>, b: Ballot, id: string)
    ensures Considered(bs + [b]) == if b.row.id != "" then Considered(bs) + [b.row.id] else Considered(bs)
    ensures IdsSeen(bs + [b]) == if b.row.id != "" then AddNew(IdsSeen(bs), b.row.id) else IdsSeen(bs)
    ensures id in IdsSeen(bs + [b]) && id != "" ==>
              RowOf(bs + [b], id) == if b.row.id == id then b.row else RowOf(bs, id)
    ensures OptionOf(bs + [b], id) ==
            if b.row.id == id && id != "" && b.vote.Some? then Some(b.vote.value.key) else OptionOf(bs, id)
  {
    var all := bs + [b];
    assert all[..|all| - 1] == bs && all[|all| - 1] == b;
  }

  /** One neighbour added to the dictionaries by id. */
  method CountId(c: IdCount, ghost bs: seq<Ballot>, b: Ballot) returns (next: IdCount)
    requires IdsCounted(c, bs)
    ensures IdsCounted(next, bs + [b])
  {
    IdsSeenFacts(bs);
    IdsSeenFacts(bs + [b]);
    var id := b.row.id;
    OneMoreId(bs, b, id);
    if id == "" {
      next := c;
    } else {
      next := IdCount(c.considered + [id], AddNew(c.ids, id), c.rowById[id := b.row],
                      if b.vote.Some? then c.optionById[id := b.vote.value.key] else c.optionById);
    }
    forall other ensures IdCounted(next, bs + [b], other) {
      OneMoreId(bs, b, other);
      assert IdCounted(c, bs, other);
    }
  }

  /** One ballot added to both. */
  method CountBallot(c: VoteCount, d: IdCount, ghost bs: seq<Ballot>, b: Ballot)
    returns (votes: VoteCount, ids: IdCount)
    requires VotesCounted(c, bs) && IdsCounted(d, bs) && c.unmappable == Unmapped(bs)
    ensures VotesCounted(votes, bs + [b]) && IdsCounted(ids, bs + [b]) && votes.unmappable == Unmapped(bs + [b])
  {
    assert (bs + [b])[..|bs|] == bs;
    AddVoteCounts(c, bs, b);
    votes := AddVote(c, b);
    ids := CountId(d, bs, b);
  }

  /** The vote. Every dictionary ends as the per-key and per-id definitions say. */
  method CountVotes(bs: seq<Ballot>) returns (c: VoteCount, d: IdCount)
    ensures VotesCounted(c, bs) && IdsCounted(d, bs) && c.unmappable == Unmapped(bs)
  {
    c, d := VoteCount([], map[], map[], map[], map[], 0), IdCount([], [], map[], map[]);
    for i := 0 to |bs|
      invariant VotesCounted(c, bs[..i]) && IdsCounted(d, bs[..i]) && c.unmappable == Unmapped(bs[..i])
    {
      assert bs[..i + 1] == bs[..i] + [bs[i]];
      c, d := CountBallot(c, d, bs[..i], bs[i]);
    }
    assert bs[..|bs|] == bs;
  }

  /** The disputes of one neighbour, target by target. */
  method FindDisputesOf(c: IdCount, ghost bs: seq<Ballot>, id: string, start: seq<string>)
    returns (found: bool, ids: seq<string>)
    requires IdsCounted(c, bs) && id in c.ids
    ensures found <==> exists target :: target in RowOf(bs, id).contradicts && Disputes(bs, id, target)
    ensures ids == AddDisputes(start, bs, id, RowOf(bs, id).contradicts)
  {
    assert IdCounted(c, bs, id);
    var targets := c.rowById[id].contradicts;
    assert targets == RowOf(bs, id).contradicts;
    found, ids := false, start;
    if id !in c.optionById {
      NoDisputes(ids, bs, id, targets);
      return;
    }
    for i := 0 to |targets|
      invariant ids == AddDisputes(start, bs, id, targets[..i])
      invariant found <==> exists target :: target in targets[..i] && Disputes(bs, id, target)
    {
      assert targets[..i + 1][..i] == targets[..i];
      assert targets[..i + 1] == targets[..i] + [targets[i]];
      assert IdCounted(c, bs, targets[i]);
      if targets[i] in c.optionById && c.optionById[targets[i]] != c.optionById[id] {
        found := true;
        ids := AddNew(AddNew(ids, id), targets[i]);
      }
    }
    assert targets[..|targets|] == targets;
  }

  /** The scan for residual contradictions between neighbours that voted for different options. */
  method FindDisputes(c: IdCount, ghost bs: seq<Ballot>, start: seq<string>) returns (found: bool, ids: seq<string>)
    requires IdsCounted(c, bs)
    ensures found == HasDispute(bs)
    ensures ids == AddAllDisputes(start, bs, IdsSeen(bs))
  {
    found, ids := false, start;
    for i := 0 to |c.ids|
      invariant ids == AddAllDisputes(start, bs, c.ids[..i])
      invariant found <==> exists id, target ::
                  id in c.ids[..i] && target in RowOf(bs, id).contradicts && Disputes(bs, id, target)
    {
      var id := c.ids[i];
      assert c.ids[..i + 1][..i] == c.ids[..i];
      assert c.ids[..i + 1] == c.ids[..i] + [id];
      var more;
      more, ids := FindDisputesOf(c, bs, id, ids);
      found := found || more;
    }
    assert c.ids[..|c.ids|] == c.ids;
  }

  lemma {:induction false} NoDisputes(ids: seq<string>, bs: seq<Ballot>, id: string, targets: seq<string>)
    requires OptionOf(bs, id).None?
    ensures AddDisputes(ids, bs, id, targets) == ids
  {
    if targets == [] {
    } else {
      NoDisputes(ids, bs, id, targets[..|targets| - 1]);
    }
  }

  method CountAboveFloor(bs: seq<Ballot>, projectBound: bool) returns (n: nat)
    ensures n == AboveFloor(bs, projectBound)
  {
    n := 0;
    for i := 0 to |bs|
      invariant n == AboveFloor(bs[..i], projectBound)
    {
      assert bs[..i + 1][..i] == bs[..i];
      if bs[i].similarity < SIMILARITY_FLOOR {
      } else if projectBound && !bs[i].row.projectScoped {
      } else {
        n := n + 1;
      }
    }
    assert bs[..|bs|] == bs;
  }

  lemma {:induction false} InsertAgrees(x: string, s: seq<string>, lt: (string, string) -> bool,
                                        gt: (string, string) -> bool)
    requires forall y :: y in s ==> lt(y, x) == gt(y, x)
    ensures Insert(x, s, lt) == Insert(x, s, gt)
  {
    if s == [] {
    } else {
      InsertAgrees(x, s[1..], lt, gt);
    }
  }

  lemma {:induction false} InsertHolds(x: string, s: seq<string>, lt: (string, string) -> bool)
    ensures forall y :: y in Insert(x, s, lt) ==> y == x || y in s
  {
    if s == [] {
    } else {
      InsertHolds(x, s[1..], lt);
    }
  }

  lemma {:induction false} SortAgrees(s: seq<string>, lt: (string, string) -> bool, gt: (string, string) -> bool)
    requires forall x, y :: x in s && y in s ==> lt(x, y) == gt(x, y)
    ensures Sort(s, lt) == Sort(s, gt)
    ensures forall y :: y in Sort(s, lt) ==> y in s
  {
    if s == [] {
    } else {
      SortAgrees(s[1..], lt, gt);
      InsertAgrees(s[0], Sort(s[1..], lt), lt, gt);
      InsertHolds(s[0], Sort(s[1..], lt), lt);
    }
  }

  method TotalVotes(c: VoteCount, ghost bs: seq<Ballot>, keys: seq<string>) returns (total: real)
    requires VotesCounted(c, bs) && forall k :: k in keys ==> k in KeysSeen(bs)
    ensures total == VotesOver(bs, keys)
  {
    total := 0.0;
    for i := |keys| downto 0
      invariant total == VotesOver(bs, keys[i..])
    {
      assert keys[i..][1..] == keys[i + 1..];
      assert KeyCounted(c, bs, keys[i]);
      total := c.votes[keys[i]] + total;
    }
    assert keys[0..] == keys;
  }

  lemma CountRanksAlike(c: VoteCount, bs: seq<Ballot>, counted: string -> real)
    requires VotesCounted(c, bs) && forall k :: k in c.votes ==> counted(k) == c.votes[k]
    ensures Sort(c.keys, ByVotes(counted)) == RankedKeys(bs)
  {
    forall x, y | x in c.keys && y in c.keys
      ensures ByVotes(counted)(x, y) == ByVotes(Tally(bs))(x, y)
    {
      assert KeyCounted(c, bs, x) && KeyCounted(c, bs, y);
    }
    SortAgrees(c.keys, ByVotes(counted), ByVotes(Tally(bs)));
  }

  /** The ranking read off the dictionaries is the ranking of the ballots. */
  method Rank(c: VoteCount, ghost bs: seq<Ballot>) returns (keys: seq<string>, ranked: seq<RankedOption>)
    requires VotesCounted(c, bs)
    ensures keys == RankedKeys(bs) && forall k :: k in keys ==> k in KeysSeen(bs)
    ensures ranked == RankedOptions(bs)
  {
    var votes := c.votes;
    var counted: string -> real := key => if key in votes then votes[key] else 0.0;
    keys := Sort(c.keys, ByVotes(counted));
    CountRanksAlike(c, bs, counted);
    RankedKeysFacts(bs);
    var total := TotalVotes(c, bs, keys);
    ranked := Stand(c, bs, keys, total);
  }

  method Stand(c: VoteCount, ghost bs: seq<Ballot>, keys: seq<string>, total: real) returns (ranked: seq<RankedOption>)
    requires VotesCounted(c, bs) && forall k :: k in keys ==> k in KeysSeen(bs)
    ensures ranked == Standing(bs, keys, total)
  {
    ghost var standing := Standing(bs, keys, total);
    ranked := [];
    for i := 0 to |keys|
      invariant ranked == standing[..i]
    {
      assert KeyCounted(c, bs, keys[i]);
      assert standing[..i + 1] == standing[..i] + [standing[i]];
      ranked := ranked + [RankedOption(c.labels[keys[i]], ShareOf(c.votes[keys[i]], total),
                                       ListAt(c.supporters, keys[i]))];
    }
  }

  /** The two conflict tests, together. */
  method FindConflict(c: VoteCount, d: IdCount, ghost bs: seq<Ballot>, keys: seq<string>, ranked: seq<RankedOption>)
    returns (conflict: Conflict, conflicting: seq<string>)
    requires VotesCounted(c, bs) && IdsCounted(d, bs) && keys == RankedKeys(bs) && |ranked| == |keys|
    requires forall k :: k in keys ==> k in KeysSeen(bs)
    ensures conflict == ConflictOf(bs)
    ensures conflicting == AddAllDisputes(if IsSplit(bs, keys) then ranked[1].supporters else [], bs, IdsSeen(bs))
  {
    conflict, conflicting := NoConflict, [];
    if |keys| >= 2 {
      assert KeyCounted(c, bs, keys[0]) && KeyCounted(c, bs, keys[1]);
      var top, second := c.votes[keys[0]], c.votes[keys[1]];
      if top > 0.0 && second / top >= CONFLICT_SHARE_RATIO {
        conflict, conflicting := SplitVote, ranked[1].supporters;
      }
    }
    var found;
    found, conflicting := FindDisputes(d, bs, conflicting);
    if found { conflict := ExplicitContradiction; }
  }

  /** Everything from the vote on. */
  method SettleVotes(req: Request, eligible: nat, bs: seq<Ballot>) returns (verdict: Verdict)
    requires bs != []
    ensures verdict == Settle(req, eligible, bs)
  {
    var c, d := CountVotes(bs);
    var above := CountAboveFloor(bs, ProjectBound(req));
    var keys, ranked := Rank(c, bs);
    if |keys| == 0 {
      var adequacy := Adequacy(eligible, |bs|, above, 0.0, bs[0].similarity, TopOverlap(bs), 0.0, LearningRows(bs),
                               false, [NoMappedNeighbour]);
      return Early(req, NoCandidateMatch, []).(evidence := d.considered, adequacy := adequacy);
    }
    assert KeyCounted(c, bs, keys[0]);
    var sampleSize := EffectiveSampleSize(ListAt(c.weights, keys[0]));
    var shortfalls := Shortfalls(above, sampleSize, ranked[0].share);
    var adequacy := Adequacy(eligible, |bs|, above, sampleSize, bs[0].similarity, TopOverlap(bs), ranked[0].share,
                             LearningRows(bs), shortfalls == [], shortfalls);
    assert adequacy == VotedAdequacy(ProjectBound(req), eligible, bs, keys[0], ranked[0].share);
    var conflict, conflicting := FindConflict(c, d, bs, keys, ranked);
    var poll := Poll(ranked, keys[0], d.considered, conflict, conflicting, adequacy);
    assert poll == PollOf(ProjectBound(req), eligible, bs);
    verdict := Conclude(req, poll);
  }

  /** The ten stages in order. */
  method Decide(req: Request) returns (verdict: Verdict)
    ensures verdict == Decision(req)
  {
    var hit := ApplyExplicitRules(req);
    if hit.Some? { return ByRule(req, hit.value); }
    if req.options == [] { return Early(req, NoCandidateMatch, [NoOptions]); }
    var eligible := EligibleEvidenceRows(req.rows, req.at, true);
    if eligible == [] { return Early(req, NoEligibleEvidence, [NoEvidence]); }
    var scored := Neighbours(req.query, req.at, eligible, MAX_NEIGHBOURS);
    verdict := SettleVotes(req, |eligible|, Ballots(req.query, req.at, req.options, scored));
  }
}
