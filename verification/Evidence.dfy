/** The evidence kernel: which rows may speak at an instant, how near they are, and what they say. */
module Evidence {
  import opened Ordering

  // ---- rows ---------------------------------------------------------------------------------

  /** A choice text with the two readings taken of it: its normalised key and its token set. */
  datatype Choice = Choice(text: string, key: string, tokens: set<string>)

  datatype Lifecycle = Active | Superseded | Rejected | OtherLifecycle

  datatype Source = Explicit | Correction | Calibration | Inferred | OtherSource

  /** `tokens` are those of the evidence text; `choice` is `None` for a blank one. */
  datatype Row = Row(
    id: string, lifecycle: Lifecycle, learningEligible: bool, supersededBy: string,
    validFrom: Option<int>, validUntil: Option<int>, ts: int, source: Source, contradicts: seq<string>,
    choice: Option<Choice>, situationType: string, tokens: set<string>, projectScoped: bool)

  /** Rows by id: the last one wins, as in a dictionary comprehension. */
  function RowsById(rows: seq<Row>): map<string, Row> {
    if rows == [] then map[]
    else
      var front := RowsById(rows[..|rows| - 1]);
      if rows[|rows| - 1].id == "" then front else front[rows[|rows| - 1].id := rows[|rows| - 1]]
  }

  function EffectiveAt(r: Row): int { r.validFrom.GetOr(r.ts) }

  predicate IsActive(r: Row, at: int, historical: bool, byId: map<string, Row>) {
    if !r.lifecycle.Active? && !r.lifecycle.Superseded? then false
    else if !r.learningEligible then false
    else if r.supersededBy != "" && !historical then false
    else if r.supersededBy != "" && r.supersededBy in byId && EffectiveAt(byId[r.supersededBy]) <= at then false
    else if r.supersededBy == "" && r.lifecycle.Superseded? then false
    else !(r.validFrom.Some? && r.validFrom.value > at) && !(r.validUntil.Some? && r.validUntil.value <= at)
  }

  function Live(at: int, historical: bool, byId: map<string, Row>): Row -> bool {
    (r: Row) => IsActive(r, at, historical, byId)
  }

  function ActiveRows(rows: seq<Row>, at: int, historical: bool): seq<Row> {
    Select(rows, Live(at, historical, RowsById(rows)))
  }

  predicate Confirmed(s: Source) { s.Explicit? || s.Correction? || s.Calibration? }

  ghost predicate Contradicted(id: string, active: seq<Row>) {
    exists r :: r in active && Confirmed(r.source) && id in r.contradicts && id != ""
  }

  ghost function Uncontradicted(active: seq<Row>): Row -> bool { (r: Row) => !Contradicted(r.id, active) }

  ghost function Eligible(rows: seq<Row>, at: int, historical: bool): seq<Row> {
    var active := ActiveRows(rows, at, historical);
    Select(active, Uncontradicted(active))
  }

  /** Eligibility with its accumulating scan for contradicted ids. */
  method EligibleEvidenceRows(rows: seq<Row>, at: int, historical: bool) returns (eligible: seq<Row>)
    ensures eligible == Eligible(rows, at, historical)
  {
    var active := ActiveRows(rows, at, historical);
    var contradicted: set<string> := {};
    for i := 0 to |active|
      invariant forall id :: id in contradicted <==> Contradicted(id, active[..i])
    {
      assert active[..i + 1] == active[..i] + [active[i]];
      if Confirmed(active[i].source) {
        contradicted := contradicted + set id | id in active[i].contradicts && id != "";
      }
    }
    assert active[..|active|] == active;
    eligible := Select(active, (r: Row) => r.id !in contradicted);
    SelectSame(active, (r: Row) => r.id !in contradicted, Uncontradicted(active));
  }

  /** A row speaks exactly when it is active and no active confirmed row names it as contradicted. */
  lemma EligibleExactly(rows: seq<Row>, at: int, historical: bool, r: Row)
    ensures r in Eligible(rows, at, historical) <==>
              && r in rows && IsActive(r, at, historical, RowsById(rows))
              && !exists c :: c in rows && IsActive(c, at, historical, RowsById(rows)) && Confirmed(c.source)
                              && r.id in c.contradicts && r.id != ""
  {
    var active := ActiveRows(rows, at, historical);
    SelectMembers(rows, Live(at, historical, RowsById(rows)));
    SelectMembers(active, Uncontradicted(active));
  }

  /** In force at an instant: begun, not ended, and still allowed to teach. */
  predicate InForce(r: Row, at: int) {
    && (r.validFrom.Some? ==> r.validFrom.value <= at) && (r.validUntil.Some? ==> at < r.validUntil.value)
    && r.learningEligible && !r.lifecycle.Rejected?
  }

  lemma EligibleIsInForce(rows: seq<Row>, at: int, historical: bool, r: Row)
    requires r in Eligible(rows, at, historical)
    ensures r in rows && InForce(r, at)
  {
    EligibleExactly(rows, at, historical, r);
  }

  // ---- order and repetition -----------------------------------------------------------------

  /** Rows that share an id are one row, listed more than once. */
  predicate IdsIdentify(rows: seq<Row>) {
    forall r, s :: r in rows && s in rows && r.id == s.id ==> r == s
  }

  lemma {:induction false} RowsByIdFacts(rows: seq<Row>)
    ensures forall id :: id in RowsById(rows) ==> RowsById(rows)[id] in rows && RowsById(rows)[id].id == id && id != ""
    ensures forall r :: r in rows && r.id != "" ==> r.id in RowsById(rows)
  {
    if rows == [] {
    } else {
      var front, last := rows[..|rows| - 1], rows[|rows| - 1];
      RowsByIdFacts(front);
      assert rows == front + [last];
    }
  }

  lemma SameRows(rows: seq<Row>, others: seq<Row>)
    requires multiset(rows) == multiset(others)
    ensures forall r :: r in rows <==> r in others
  {
    forall r ensures r in rows <==> r in others {
      assert r in rows <==> r in multiset(rows);
      assert r in others <==> r in multiset(others);
    }
  }

  /** Waits only for its successor to take effect. */
  predicate Awaits(r: Row, at: int, historical: bool) {
    && (r.lifecycle.Active? || r.lifecycle.Superseded?) && r.learningEligible && r.supersededBy != "" && historical
    && !(r.validFrom.Some? && r.validFrom.value > at) && !(r.validUntil.Some? && r.validUntil.value <= at)
  }

  /** Rows that share the id of a successor somebody waits for agree on whether it has taken effect. */
  ghost predicate SuccessorsAgree(rows: seq<Row>, at: int, historical: bool) {
    forall r, x, y :: r in rows && x in rows && y in rows && Awaits(r, at, historical)
                      && x.id == r.supersededBy && y.id == r.supersededBy
                      ==> (EffectiveAt(x) <= at <==> EffectiveAt(y) <= at)
  }

  lemma ActiveUnlessSuperseded(r: Row, at: int, historical: bool, byId: map<string, Row>)
    ensures Awaits(r, at, historical) ==>
              (IsActive(r, at, historical, byId) <==>
                 !(r.supersededBy in byId && EffectiveAt(byId[r.supersededBy]) <= at))
    ensures r.supersededBy != "" && !Awaits(r, at, historical) ==> !IsActive(r, at, historical, byId)
  {
  }

  lemma ActiveAlike(rows: seq<Row>, others: seq<Row>, at: int, historical: bool, r: Row)
    requires SuccessorsAgree(rows, at, historical) && r in rows && forall s :: s in rows <==> s in others
    ensures IsActive(r, at, historical, RowsById(rows)) <==> IsActive(r, at, historical, RowsById(others))
  {
    var b := r.supersededBy;
    RowsByIdFacts(rows);
    RowsByIdFacts(others);
    ActiveUnlessSuperseded(r, at, historical, RowsById(rows));
    ActiveUnlessSuperseded(r, at, historical, RowsById(others));
    assert b in RowsById(rows) <==> b in RowsById(others);
  }

  lemma ActivePermutes(rows: seq<Row>, others: seq<Row>, at: int, historical: bool)
    requires SuccessorsAgree(rows, at, historical) && multiset(rows) == multiset(others)
    ensures multiset(ActiveRows(rows, at, historical)) == multiset(ActiveRows(others, at, historical))
  {
    SameRows(rows, others);
    var p, q := Live(at, historical, RowsById(rows)), Live(at, historical, RowsById(others));
    forall r | r in rows ensures p(r) == q(r) { ActiveAlike(rows, others, at, historical, r); }
    SelectPermutes(rows, others, p, q);
  }

  /** Some listing of the same rows ends with this one. */
  lemma ListedLast(rows: seq<Row>, x: Row) returns (others: seq<Row>)
    requires x in rows && x.id != ""
    ensures multiset(others) == multiset(rows) && x.id in RowsById(others) && RowsById(others)[x.id] == x
  {
    var i :| 0 <= i < |rows| && rows[i] == x;
    var rest := rows[..i] + rows[i + 1..];
    others := rest + [x];
    assert rows == rows[..i] + [x] + rows[i + 1..];
    ReadOneMore(rest, x);
  }

  lemma DisagreementShows(rows: seq<Row>, at: int, historical: bool, r: Row, x: Row, y: Row)
    returns (others: seq<Row>)
    requires r in rows && x in rows && y in rows && Awaits(r, at, historical)
    requires x.id == r.supersededBy && y.id == r.supersededBy
    requires EffectiveAt(x) <= at && EffectiveAt(y) > at
    ensures multiset(others) == multiset(rows)
    ensures multiset(ActiveRows(others, at, historical)) != multiset(ActiveRows(rows, at, historical))
  {
    var live := IsActive(r, at, historical, RowsById(rows));
    if live { others := ListedLast(rows, x); } else { others := ListedLast(rows, y); }
    ActiveUnlessSuperseded(r, at, historical, RowsById(others));
    SameRows(rows, others);
    SelectCount(rows, Live(at, historical, RowsById(rows)), r);
    SelectCount(others, Live(at, historical, RowsById(others)), r);
    assert r in multiset(rows);
  }

  /** Exactly when the order of the listing does not matter to which rows are active. */
  lemma ActivePermutesIff(rows: seq<Row>, at: int, historical: bool)
    ensures (forall others :: multiset(others) == multiset(rows) ==>
               multiset(ActiveRows(others, at, historical)) == multiset(ActiveRows(rows, at, historical)))
            <==> SuccessorsAgree(rows, at, historical)
  {
    if SuccessorsAgree(rows, at, historical) {
      forall others | multiset(others) == multiset(rows)
        ensures multiset(ActiveRows(others, at, historical)) == multiset(ActiveRows(rows, at, historical))
      {
        ActivePermutes(rows, others, at, historical);
      }
    } else {
      var r, x, y :| r in rows && x in rows && y in rows && Awaits(r, at, historical)
                     && x.id == r.supersededBy && y.id == r.supersededBy
                     && EffectiveAt(x) <= at && EffectiveAt(y) > at;
      var others := DisagreementShows(rows, at, historical, r, x, y);
    }
  }

  /** However the rows were listed, the same rows are eligible, where those that share a successor's id agree on it. */
  lemma EligiblePermutes(rows: seq<Row>, others: seq<Row>, at: int, historical: bool)
    requires SuccessorsAgree(rows, at, historical) && multiset(rows) == multiset(others)
    ensures multiset(Eligible(rows, at, historical)) == multiset(Eligible(others, at, historical))
  {
    ActivePermutes(rows, others, at, historical);
    var a, b := ActiveRows(rows, at, historical), ActiveRows(others, at, historical);
    SameRows(a, b);
    SelectPermutes(a, b, Uncontradicted(a), Uncontradicted(b));
  }

  /** They do where ids identify rows. */
  lemma IdentifiedAgree(rows: seq<Row>, at: int, historical: bool)
    requires IdsIdentify(rows)
    ensures SuccessorsAgree(rows, at, historical)
  {
  }

  lemma ReadOneMore(rows: seq<Row>, r: Row)
    requires r.id != ""
    ensures RowsById(rows + [r]) == RowsById(rows)[r.id := r]
  {
    assert (rows + [r])[..|rows|] == rows;
  }

  /** The three rows of the example below, in either order of the last two. */
  function ExampleRow(id: string, from: int, successor: string): Row {
    Row(id, if successor == "" then Active else Superseded, true, successor, Some(from), None, from, Explicit, [],
        None, "", {}, true)
  }

  lemma ReadThree(x: Row, y: Row, z: Row)
    requires x.id != "" && y.id != "" && z.id != ""
    ensures RowsById([x, y, z]) == map[][x.id := x][y.id := y][z.id := z]
  {
    assert [x, y, z] == (([] + [x]) + [y]) + [z];
    ReadOneMore([], x);
    ReadOneMore([] + [x], y);
    ReadOneMore(([] + [x]) + [y], z);
  }

  lemma LastSuccessorDecides(a: string, b: string, first: Row, last: Row)
    requires a != "" && b != "" && first.id == b && last.id == b
    ensures var predecessor := ExampleRow(a, 0, b);
            IsActive(predecessor, 10, true, RowsById([predecessor, first, last])) <==> EffectiveAt(last) > 10
  {
    ReadThree(ExampleRow(a, 0, b), first, last);
  }

  /** With one id on two rows the order does matter: the last of them decides whether their predecessor speaks. */
  lemma SharedIdMakesOrderMatter() returns (rows: seq<Row>, others: seq<Row>)
    ensures multiset(rows) == multiset(others) && !IdsIdentify(rows)
    ensures multiset(ActiveRows(rows, 10, true)) != multiset(ActiveRows(others, 10, true))
  {
    var predecessor, now, later := ExampleRow("a", 0, "b"), ExampleRow("b", 5, ""), ExampleRow("b", 20, "");
    rows, others := [predecessor, now, later], [predecessor, later, now];
    assert rows[1].id == rows[2].id;
    LastSuccessorDecides("a", "b", now, later);
    LastSuccessorDecides("a", "b", later, now);
    var p, q := Live(10, true, RowsById(rows)), Live(10, true, RowsById(others));
    SelectCount(rows, p, predecessor);
    SelectCount(others, q, predecessor);
    assert p(predecessor) && !q(predecessor);
    assert predecessor in multiset(rows);
  }

  /** The three rows, the last of them not yet in effect: the first two are eligible and the last is not. */
  lemma FilteredOnce(predecessor: Row, now: Row, later: Row)
    requires predecessor == ExampleRow("a", 0, "b") && now == ExampleRow("b", 5, "") && later == ExampleRow("b", 20, "")
    ensures var once := Eligible([predecessor, now, later], 10, true);
            predecessor in once && forall r :: r in once && r.id == "b" <==> r == now
  {
    var rows := [predecessor, now, later];
    LastSuccessorDecides("a", "b", now, later);
    forall r ensures r in Eligible(rows, 10, true) <==> r in rows && IsActive(r, 10, true, RowsById(rows)) {
      EligibleExactly(rows, 10, true, r);
    }
    assert now in rows && predecessor in rows && forall r :: r in rows ==> r == predecessor || r == now || r == later;
  }

  /** A row whose one successor among those listed is in effect is not eligible among them. */
  lemma SuccessorHides(rows: seq<Row>, r: Row, successor: Row, at: int)
    requires successor in rows && successor.id != "" && r.supersededBy == successor.id
    requires (forall s :: s in rows && s.id == successor.id ==> s == successor) && EffectiveAt(successor) <= at
    ensures r !in Eligible(rows, at, true)
  {
    RowsByIdFacts(rows);
    EligibleExactly(rows, at, true, r);
  }

  /** And filtering a second time drops a row: the successor that hid the one in effect is gone by then. */
  lemma SharedIdIsFilteredTwice() returns (rows: seq<Row>, r: Row)
    ensures !IdsIdentify(rows) && r in Eligible(rows, 10, true)
    ensures r !in Eligible(Eligible(rows, 10, true), 10, true)
  {
    var now, later := ExampleRow("b", 5, ""), ExampleRow("b", 20, "");
    r := ExampleRow("a", 0, "b");
    rows := [r, now, later];
    assert rows[1].id == rows[2].id;
    FilteredOnce(r, now, later);
    SuccessorHides(Eligible(rows, 10, true), r, now, 10);
  }

  /** Filtering what was already filtered, at the same instant, drops nothing more. */
  lemma EligibleIsIdempotent(rows: seq<Row>, at: int, historical: bool)
    requires SuccessorsAgree(rows, at, historical)
    ensures Eligible(Eligible(rows, at, historical), at, historical) == Eligible(rows, at, historical)
  {
    var active := ActiveRows(rows, at, historical);
    var once := Eligible(rows, at, historical);
    SelectMembers(rows, Live(at, historical, RowsById(rows)));
    SelectMembers(active, Uncontradicted(active));
    forall r | r in once ensures IsActive(r, at, historical, RowsById(once)) {
      StaysActive(rows, once, at, historical, r);
    }
    SelectAll(once, Live(at, historical, RowsById(once)));
    assert ActiveRows(once, at, historical) == once;
    SelectAll(once, Uncontradicted(once));
  }

  /** Among fewer rows, an active row stays active. */
  lemma StaysActive(rows: seq<Row>, fewer: seq<Row>, at: int, historical: bool, r: Row)
    requires SuccessorsAgree(rows, at, historical) && r in rows && forall s :: s in fewer ==> s in rows
    requires IsActive(r, at, historical, RowsById(rows))
    ensures IsActive(r, at, historical, RowsById(fewer))
  {
    RowsByIdFacts(rows);
    RowsByIdFacts(fewer);
    ActiveUnlessSuperseded(r, at, historical, RowsById(rows));
    ActiveUnlessSuperseded(r, at, historical, RowsById(fewer));
  }

  // ---- version chains -----------------------------------------------------------------------

  /** Each row superseded by the next, every row present, taking effect strictly later and later. */
  ghost predicate VersionChain(chain: seq<Row>, byId: map<string, Row>) {
    && (forall i :: 0 <= i < |chain| ==> chain[i].validFrom.Some?)
    && (forall i, j :: 0 <= i < j < |chain| && j == i + 1 ==>
          chain[i].supersededBy == chain[j].id && chain[j].id in byId && byId[chain[j].id] == chain[j])
    && (forall i :: 0 < i < |chain| ==> chain[i].id != "")
    && (forall i, j :: 0 <= i < j < |chain| ==> chain[i].validFrom.value < chain[j].validFrom.value)
  }

  /** Version `i` has taken effect and the next one has not. */
  ghost predicate LatestInEffect(chain: seq<Row>, i: nat, at: int)
    requires i < |chain| && forall k :: 0 <= k < |chain| ==> chain[k].validFrom.Some?
  {
    && chain[i].validFrom.value <= at
    && (i + 1 < |chain| ==> at < chain[i + 1].validFrom.value)
  }

  /** A row that nothing but its place in the chain could silence. */
  ghost predicate Speaks(chain: seq<Row>, i: nat)
    requires i < |chain|
  {
    && chain[i].learningEligible && chain[i].validUntil.None?
    && (chain[i].lifecycle.Active? || (chain[i].lifecycle.Superseded? && i + 1 < |chain|))
    && (i + 1 == |chain| ==> chain[i].supersededBy == "")
  }

  /** At any instant, read historically, a version chain has at most one active row: the latest in effect. */
  lemma OneVersionIsActive(chain: seq<Row>, byId: map<string, Row>, at: int, i: nat, j: nat)
    requires VersionChain(chain, byId) && i < |chain| && j < |chain|
    ensures IsActive(chain[i], at, true, byId) ==> LatestInEffect(chain, i, at)
    ensures IsActive(chain[i], at, true, byId) && IsActive(chain[j], at, true, byId) ==> i == j
    ensures Speaks(chain, i) ==> (IsActive(chain[i], at, true, byId) <==> LatestInEffect(chain, i, at))
  {
    assert i + 1 < |chain| && i + 1 < j ==> chain[i + 1].validFrom.value < chain[j].validFrom.value;
    assert j + 1 < |chain| && j + 1 < i ==> chain[j + 1].validFrom.value < chain[i].validFrom.value;
  }

  // ---- nearness -----------------------------------------------------------------------------

  /** `decay` is the recency factor at an age; it is used through its bounds only. */
  datatype Query = Query(tokens: set<string>, situationType: string, decay: int -> real)

  function Jaccard(a: set<string>, b: set<string>): (r: real)
    ensures 0.0 <= r <= 1.0
  {
    assert a * b <= a + b;
    OverlapIsSmaller(a, b);
    var union := if |a + b| > 1 then |a + b| else 1;
    assert |a * b| <= union;
    |a * b| as real / union as real
  }

  lemma OverlapIsSmaller(a: set<string>, b: set<string>)
    ensures |a * b| <= |a + b|
  {
    assert (a + b) - ((a + b) - a * b) == a * b;
    assert |(a + b) - a * b| == |a + b| - |a * b|;
  }

  function TopicalOverlap(q: Query, r: Row): real { Jaccard(q.tokens, r.tokens) }

  function SourceQuality(s: Source): real {
    match s
    case Correction => 1.0
    case Explicit => 0.95
    case Calibration => 0.85
    case Inferred => 0.65
    case OtherSource => 0.55
  }

  function Similarity(q: Query, r: Row, at: int): real {
    var age := if at > r.ts then at - r.ts else 0;
    0.60 * TopicalOverlap(q, r) + (if q.situationType == r.situationType then 0.18 else 0.0)
    + 0.12 * q.decay(age) + 0.10 * SourceQuality(r.source)
  }

  predicate RanksBefore(q: Query, at: int, a: Row, b: Row) {
    if Similarity(q, a, at) != Similarity(q, b, at) then Similarity(q, a, at) > Similarity(q, b, at)
    else if a.ts != b.ts then a.ts > b.ts
    else TextLess(a.id, b.id)
  }

  function ByRank(q: Query, at: int): (Row, Row) -> bool { (a, b) => RanksBefore(q, at, a, b) }

  function Neighbours(q: Query, at: int, rows: seq<Row>, limit: nat): seq<Row> {
    var ranked := Sort(rows, ByRank(q, at));
    if limit <= |ranked| then ranked[..limit] else ranked
  }

  lemma ByRankIsWeak(q: Query, at: int)
    ensures StrictWeak(ByRank(q, at))
    ensures forall a: Row, b: Row :: !RanksBefore(q, at, a, b) && !RanksBefore(q, at, b, a) ==> a.id == b.id
  {
    TextLessIsStrictTotal();
  }

  /** The neighbours of the same eligible rows are the same sequence, whatever order those came in. */
  lemma NeighboursPermute(q: Query, at: int, rows: seq<Row>, others: seq<Row>, limit: nat)
    requires IdsIdentify(rows) && multiset(rows) == multiset(others)
    ensures Neighbours(q, at, rows, limit) == Neighbours(q, at, others, limit)
  {
    ByRankIsWeak(q, at);
    forall x, y | x in rows && y in rows && !RanksBefore(q, at, x, y) && !RanksBefore(q, at, y, x) ensures x == y {
      assert x.id == y.id;
    }
    SortCanonical(rows, others, ByRank(q, at));
  }

  /** No eligible row that was left out is nearer than one that was kept. */
  lemma NeighboursAreNearest(q: Query, at: int, rows: seq<Row>, limit: nat, kept: Row, other: Row)
    requires kept in Neighbours(q, at, rows, limit) && other in rows && other !in Neighbours(q, at, rows, limit)
    ensures Similarity(q, other, at) <= Similarity(q, kept, at)
  {
    ByRankIsWeak(q, at);
    var lt, ranked := ByRank(q, at), Sort(rows, ByRank(q, at));
    SortIsSortedPermutation(rows, lt);
    SortMembers(rows, lt);
    var i :| 0 <= i < |ranked| && i < limit && ranked[i] == kept;
    assert other in ranked;
    var j :| 0 <= j < |ranked| && ranked[j] == other;
    assert j >= limit;
    assert !lt(ranked[j], ranked[i]);
  }

  ghost predicate Decays(q: Query) { forall age :: 0.0 <= q.decay(age) <= 1.0 }

  /** The ranking score is a mark out of one, of which everything but topical overlap can give 0.40 at most. */
  lemma SimilarityIsUnit(q: Query, r: Row, at: int)
    requires Decays(q)
    ensures 0.0 <= Similarity(q, r, at) <= 1.0
    ensures 0.60 * TopicalOverlap(q, r) + 0.055 <= Similarity(q, r, at) <= 0.60 * TopicalOverlap(q, r) + 0.40
    ensures Similarity(q, r, at) == 1.0 <==>
              && TopicalOverlap(q, r) == 1.0 && q.situationType == r.situationType && r.source.Correction?
              && q.decay(if at > r.ts then at - r.ts else 0) == 1.0
  {
    var age := if at > r.ts then at - r.ts else 0;
    assert 0.0 <= q.decay(age) <= 1.0;
  }

  // ---- mapping a past choice onto an offer --------------------------------------------------

  const MAP_FLOOR := 0.25

  function Overlap(c: Choice, offer: Choice): real {
    if c.key == offer.key then 1.0 else Jaccard(c.tokens, offer.tokens)
  }

  predicate FitsBetter(c: Choice, a: Choice, b: Choice) {
    if Overlap(c, a) != Overlap(c, b) then Overlap(c, a) > Overlap(c, b) else TextLess(a.key, b.key)
  }

  function ByFit(c: Choice): (Choice, Choice) -> bool { (a, b) => FitsBetter(c, a, b) }

  function MapChoice(c: Choice, allowed: seq<Choice>): Option<Choice> {
    if allowed == [] then Some(c)
    else
      var best := Sort(allowed, ByFit(c))[0];
      if Overlap(c, best) >= MAP_FLOOR then Some(best) else None
  }

  lemma ByFitIsWeak(c: Choice)
    ensures StrictWeak(ByFit(c))
  {
    TextLessIsStrictTotal();
  }

  lemma BestFit(c: Choice, allowed: seq<Choice>)
    requires allowed != []
    ensures var best := Sort(allowed, ByFit(c))[0];
            best in allowed && forall d :: d in allowed ==> !FitsBetter(c, d, best)
  {
    ByFitIsWeak(c);
    var ranked := Sort(allowed, ByFit(c));
    SortIsSortedPermutation(allowed, ByFit(c));
    SortMembers(allowed, ByFit(c));
    forall d | d in allowed ensures !FitsBetter(c, d, ranked[0]) {
      assert d in ranked;
      var j :| 0 <= j < |ranked| && ranked[j] == d;
      var lt := ByFit(c);
      if j > 0 { assert !lt(ranked[j], ranked[0]); } else { assert !lt(d, d); }
    }
  }

  /** A mapping never invents: with something on offer, it answers with an offered choice near enough, and it
      fails only when nothing offered is. */
  lemma MapChoiceIsOffered(c: Choice, allowed: seq<Choice>)
    requires allowed != []
    ensures match MapChoice(c, allowed)
            case Some(d) => d in allowed && Overlap(c, d) >= MAP_FLOOR
                            && forall e :: e in allowed ==> Overlap(c, e) <= Overlap(c, d)
            case None => forall e :: e in allowed ==> Overlap(c, e) < MAP_FLOOR
  {
    BestFit(c, allowed);
  }

  /** A choice that is on offer word for word maps to itself unless an offer with the same tokens sorts first. */
  lemma ExactTextMapsToItselfIff(c: Choice, allowed: seq<Choice>)
    requires exists d :: d in allowed && d.key == c.key
    ensures MapChoice(c, allowed).Some?
    ensures MapChoice(c, allowed).value.key == c.key <==>
              !exists d :: d in allowed && Overlap(c, d) == 1.0 && TextLess(d.key, c.key)
  {
    TextLessIsStrictTotal();
    BestFit(c, allowed);
    var best := Sort(allowed, ByFit(c))[0];
    var own :| own in allowed && own.key == c.key;
    assert !FitsBetter(c, own, best) && Overlap(c, own) == 1.0;
    assert Overlap(c, best) == 1.0;
  }

  /** It is lost to an offer of the same words in another order. */
  lemma ExactTextIsLost(c: Choice, d: Choice)
    requires c == Choice("ship it", "ship it", {"ship", "it"}) && d == Choice("it, ship", "it, ship", {"ship", "it"})
    ensures MapChoice(c, [c, d]) == Some(d)
  {
    assert TextLess(d.key, c.key) by { assert d.key[0] < c.key[0]; }
    assert c.tokens * d.tokens == c.tokens && c.tokens + d.tokens == c.tokens && "it" in c.tokens;
    assert c in [c, d] && d in [c, d] && Overlap(c, d) == 1.0;
    ExactTextMapsToItselfIff(c, [c, d]);
    MapChoiceIsOffered(c, [c, d]);
  }

  // ---- sample sizes and intervals -----------------------------------------------------------

  function Squares(w: seq<real>): real {
    if w == [] then 0.0 else w[0] * w[0] + Squares(w[1..])
  }

  function EffectiveSampleSize(w: seq<real>): real {
    if Sum(w) <= 0.0 || Squares(w) <= 0.0 then 0.0 else Sum(w) * Sum(w) / Squares(w)
  }

  lemma {:induction false} SumOfPositives(w: seq<real>)
    requires forall i :: 0 <= i < |w| ==> w[i] > 0.0
    ensures Sum(w) >= 0.0 && Squares(w) >= 0.0 && (w != [] ==> Sum(w) > 0.0 && Squares(w) > 0.0)
  {
    if w == [] {
    } else {
      SumOfPositives(w[1..]);
      ProductAddsUp(w[0], w[0], Squares(w[1..]));
    }
  }

  lemma ProductAddsUp(x: real, y: real, q: real)
    requires x > 0.0 && y > 0.0 && q >= 0.0
    ensures x * y + q > 0.0
  {
    assert x * y > 0.0;
  }

  lemma SquareOfSum(a: real, s: real)
    ensures (a + s) * (a + s) == a * a + 2.0 * a * s + s * s
  {
  }

  lemma CrossTerm(a: real, s: real, n: real, q: real)
    requires n >= 1.0 && s * s <= n * q
    ensures 2.0 * a * s <= n * a * a + q
  {
    var d := n * a - s;
    assert d * d >= 0.0;
    assert d * d == n * n * a * a - 2.0 * n * a * s + s * s by {
      assert (n * a) * (n * a) == n * n * a * a;
      assert (n * a) * s == n * a * s;
    }
    assert n * (n * a * a + q - 2.0 * a * s) >= 0.0 by {
      assert n * (n * a * a + q - 2.0 * a * s) == n * n * a * a + n * q - 2.0 * n * a * s;
    }
    if n * a * a + q - 2.0 * a * s < 0.0 {
      Negative(n, n * a * a + q - 2.0 * a * s);
    }
  }

  lemma Negative(n: real, x: real)
    requires n >= 1.0 && x < 0.0
    ensures n * x < 0.0
  {
  }

  /** Cauchy and Schwarz on a sequence of positive weights. */
  lemma {:induction false} CauchySchwarz(w: seq<real>)
    requires forall i :: 0 <= i < |w| ==> w[i] > 0.0
    ensures Squares(w) <= Sum(w) * Sum(w) <= |w| as real * Squares(w)
  {
    if w == [] {
    } else {
      var a, r := w[0], w[1..];
      var s, q, n := Sum(r), Squares(r), |r| as real;
      CauchySchwarz(r);
      SumOfPositives(r);
      SquareOfSum(a, s);
      assert a * s >= 0.0;
      if r == [] {
        assert s == 0.0 && q == 0.0;
      } else {
        CrossTerm(a, s, n, q);
        assert (n + 1.0) * (a * a + q) == n * a * a + n * q + a * a + q by {
          assert n * (a * a + q) == n * a * a + n * q;
        }
      }
    }
  }

  lemma DivideBounds(x: real, y: real, n: real)
    requires y > 0.0 && y <= x <= n * y
    ensures 1.0 <= x / y <= n
  {
    var z := x / y;
    assert z * y == x;
    assert z < 1.0 ==> (1.0 - z) * y > 0.0;
    assert z > n ==> (z - n) * y > 0.0;
  }

  /** Between one voter and all of them. */
  lemma SampleSizeBounds(w: seq<real>)
    requires w != [] && forall i :: 0 <= i < |w| ==> w[i] > 0.0
    ensures 1.0 <= EffectiveSampleSize(w) <= |w| as real
  {
    SumOfPositives(w);
    CauchySchwarz(w);
    DivideBounds(Sum(w) * Sum(w), Squares(w), |w| as real);
  }
}
