/** What extraction and promotion guarantee together, and what neither guarantees alone. */
module CapturePromotion {
  import opened Ordering
  import opened DecisionCapture

  // ---- the unique target --------------------------------------------------------------------

  predicate OpenMatch(c: Candidate, q: Question) { q.open && CouldMatch(c, q) }

  /** Position `t` is the first with this id, and the only open question the candidate could match. */
  ghost predicate UniqueAt(c: Candidate, questions: seq<Question>, t: int) {
    && 0 <= t < |questions| && c.question == Some(questions[t].id)
    && OpenMatch(c, questions[t])
    && (forall j :: 0 <= j < t ==> questions[j].id != questions[t].id)
    && (forall j :: 0 <= j < |questions| && j != t ==> !OpenMatch(c, questions[j]))
  }

  lemma {:induction false} NoMatchCountsNothing(c: Candidate, questions: seq<Question>)
    ensures CouldMatchCount(c, questions) == 0 <==> forall j :: 0 <= j < |questions| ==> !OpenMatch(c, questions[j])
  {
    if questions == [] {
    } else {
      NoMatchCountsNothing(c, questions[1..]);
      assert forall j :: 0 < j < |questions| ==> questions[j] == questions[1..][j - 1];
      if CouldMatchCount(c, questions) == 0 {
        forall j | 0 <= j < |questions| ensures !OpenMatch(c, questions[j]) {
          if j > 0 { assert !OpenMatch(c, questions[1..][j - 1]); }
        }
      }
    }
  }

  /** A count of one, at a position that matches, means nothing else does. */
  lemma {:induction false} CountIsOneIff(c: Candidate, questions: seq<Question>, t: nat)
    requires t < |questions| && OpenMatch(c, questions[t])
    ensures CouldMatchCount(c, questions) >= 1
    ensures CouldMatchCount(c, questions) == 1 <==>
              forall j :: 0 <= j < |questions| && j != t ==> !OpenMatch(c, questions[j])
  {
    NoMatchCountsNothing(c, questions[1..]);
    if t == 0 {
      assert forall j :: 0 < j < |questions| ==> questions[j] == questions[1..][j - 1];
      forall j | 0 <= j < |questions| - 1 ensures questions[1..][j] == questions[j + 1] { }
    } else {
      CountIsOneIff(c, questions[1..], t - 1);
      assert questions[0] == questions[0] && OpenMatch(c, questions[1..][t - 1]);
      if CouldMatchCount(c, questions) == 1 {
        forall j | 0 <= j < |questions| && j != t ensures !OpenMatch(c, questions[j]) {
          if j > 0 { assert questions[j] == questions[1..][j - 1]; }
        }
      }
      if forall j :: 0 <= j < |questions| && j != t ==> !OpenMatch(c, questions[j]) {
        forall j | 0 <= j < |questions| - 1 && j != t - 1 ensures !OpenMatch(c, questions[1..][j]) {
          assert questions[1..][j] == questions[j + 1];
        }
      }
    }
  }

  lemma {:induction false} FirstWithIdIs(questions: seq<Question>, id: string)
    ensures FirstWithId(questions, id).None? ==> forall j :: 0 <= j < |questions| ==> questions[j].id != id
    ensures FirstWithId(questions, id).Some? ==>
              exists t :: 0 <= t < |questions| && questions[t] == FirstWithId(questions, id).value
                          && questions[t].id == id && forall j :: 0 <= j < t ==> questions[j].id != id
  {
    if questions == [] {
    } else if questions[0].id == id {
    } else {
      FirstWithIdIs(questions[1..], id);
      assert forall j :: 0 < j < |questions| ==> questions[j] == questions[1..][j - 1];
      if FirstWithId(questions, id).Some? {
        var t :| 0 <= t < |questions| - 1 && questions[1..][t] == FirstWithId(questions[1..], id).value
                 && questions[1..][t].id == id && forall j :: 0 <= j < t ==> questions[1..][j].id != id;
        assert questions[t + 1] == questions[1..][t];
        forall j | 0 <= j < t + 1 ensures questions[j].id != id {
          if j > 0 { assert questions[1..][j - 1].id != id; }
        }
      }
    }
  }

  /** Unexpired at the later of the two moments, and frozen by the time the human spoke. */
  predicate Timely(q: Question, now: int, expiryNow: Option<int>) {
    !Expired(q, Later(now, expiryNow)) && q.frozenAt <= now
  }

  /** An answer is promoted exactly when it is uncontradicted, not from a transcript, chose something, and names the
      only open question it could match, live and asked before the answer. */
  lemma AnswerIsPromotedIff(c: Candidate, questions: seq<Question>, now: int, expiryNow: Option<int>)
    requires c.kind.Answer?
    ensures PromotionOf(c, questions, now, expiryNow).Promote? <==>
              && !c.contradicted && !c.origin.ImportedTranscript? && Chose(c)
              && exists t :: UniqueAt(c, questions, t) && Timely(questions[t], now, expiryNow)
  {
    if c.question.Some? {
      var id := c.question.value;
      FirstWithIdIs(questions, id);
      if FirstWithId(questions, id).Some? {
        var t :| 0 <= t < |questions| && questions[t] == FirstWithId(questions, id).value && questions[t].id == id
                 && forall j :: 0 <= j < t ==> questions[j].id != id;
        if OpenMatch(c, questions[t]) { CountIsOneIff(c, questions, t); }
        assert forall u :: UniqueAt(c, questions, u) ==> u == t;
        if HitsUniqueTarget(c, questions[t], questions, Later(now, expiryNow)) {
          assert UniqueAt(c, questions, t);
        }
      }
    }
  }

  // ---- only a human is promoted -------------------------------------------------------------

  lemma {:induction false} SaidHasOrigin(lex: Lexicon, m: Message, open: seq<Question>)
    ensures forall c :: c in AllSaid(lex, m, open) ==>
              c.origin == m.origin && (c.kind.Answer? || c.kind.Rejection?) && c.question.Some?
  {
    if open == [] {
    } else {
      SaidHasOrigin(lex, m, open[..|open| - 1]);
    }
  }

  lemma ExtractedHasOrigin(lex: Lexicon, m: Message, resolved: seq<Question>, questions: seq<Question>, c: Candidate)
    requires c in Extracted(lex, m, resolved, questions)
    ensures c.origin == m.origin && (m.origin.HumanInput? || m.origin.ImportedTranscript?)
  {
    var open := Select(questions, IsOpen());
    SaidHasOrigin(lex, m, open);
    RulesKeepOrigin(lex, m, open, Hits(lex, m.kept, resolved));
  }

  /** The other rules of the cascade copy the origin of the message as well. */
  lemma RulesKeepOrigin(lex: Lexicon, m: Message, open: seq<Question>, hits: seq<(Question, Option<string>)>)
    ensures forall c :: c in Acknowledged(lex, m, open) ==> c.origin == m.origin
    ensures forall c :: c in Correcting(m, hits) ==> c.origin == m.origin
    ensures forall c :: c in Otherwise(lex, m, open) ==> c.origin == m.origin
  {
  }

  /** Whatever is extracted and then promoted was said by the human. */
  lemma PromotedIsHuman(lex: Lexicon, m: Message, resolved: seq<Question>, questions: seq<Question>, c: Candidate,
                        now: int, expiryNow: Option<int>)
    requires c in Extracted(lex, m, resolved, questions) && PromotionOf(c, questions, now, expiryNow).Promote?
    ensures m.origin.HumanInput?
  {
    ExtractedHasOrigin(lex, m, resolved, questions, c);
  }

  /** The gate alone does not look: handed an answer from a program, it promotes it. */
  lemma GateAloneTrustsAnyone() returns (c: Candidate, questions: seq<Question>)
    ensures c.origin.ExecutorOutput? && PromotionOf(c, questions, 0, None).Promote?
  {
    var q := Question("q", true, ["yes"], 0, None);
    c, questions := Candidate(Answer, ExecutorOutput, Some("yes"), [], Some("q"), false, false, false), [q];
    assert questions[1..] == [];
    assert CouldMatchCount(c, questions) == 1;
  }

  // ---- a promoted answer is grounded in the text --------------------------------------------

  lemma {:induction false} MatchesAre(lex: Lexicon, text: string, alternatives: seq<string>)
    ensures forall p :: p in Matches(lex, text, alternatives) ==>
              p.0 in alternatives && Mentioned(lex.tokens(text), lex.tokens(p.0))
              && p.1 == !Affirms(lex.tokens(text), lex.tokens(p.0))
  {
    if alternatives == [] {
    } else {
      MatchesAre(lex, text, alternatives[..|alternatives| - 1]);
      assert alternatives == alternatives[..|alternatives| - 1] + [alternatives[|alternatives| - 1]];
    }
  }

  lemma {:induction false} WithNegationAre(matches: seq<(string, bool)>, negated: bool)
    ensures forall a :: a in WithNegation(matches, negated) ==> (a, negated) in matches
  {
    if matches == [] {
    } else {
      WithNegationAre(matches[..|matches| - 1], negated);
      assert matches == matches[..|matches| - 1] + [matches[|matches| - 1]];
    }
  }

  ghost predicate OnlyDenied(lex: Lexicon, text: string, option: string) {
    Mentioned(lex.tokens(text), lex.tokens(option)) && !Affirms(lex.tokens(text), lex.tokens(option))
  }

  /** The option was affirmed somewhere in the text, or it is the one left of two when the other was only denied. */
  ghost predicate Grounded(lex: Lexicon, text: string, q: Question, option: string) {
    && option in q.alternatives
    && (|| Affirms(lex.tokens(text), lex.tokens(option))
        || (|q.alternatives| == 2
            && exists other :: other in q.alternatives && other != option && OnlyDenied(lex, text, other)))
  }

  lemma AnswerIsGrounded(lex: Lexicon, m: Message, q: Question)
    requires SaidTo(lex, m, q).Some? && SaidTo(lex, m, q).value.selected.Some?
    ensures Grounded(lex, m.kept, q, SaidTo(lex, m, q).value.selected.value)
  {
    var matches := Matches(lex, m.kept, q.alternatives);
    var affirmed, denied := Affirmed(lex, m.kept, q), Denied(lex, m.kept, q);
    MatchesAre(lex, m.kept, q.alternatives);
    WithNegationAre(matches, false);
    WithNegationAre(matches, true);
    if |affirmed| == 1 {
      assert (affirmed[0], false) in matches;
    } else {
      assert denied[0] in denied && (denied[0], true) in matches;
    }
  }

  lemma {:induction false} DeniedTwice(lex: Lexicon, text: string, alternatives: seq<string>, x: string)
    requires forall i :: 0 <= i < |alternatives| ==> alternatives[i] == x
    requires Mentioned(lex.tokens(text), lex.tokens(x)) && !Affirms(lex.tokens(text), lex.tokens(x))
    ensures |WithNegation(Matches(lex, text, alternatives), true)| == |alternatives|
  {
    if alternatives == [] {
    } else {
      var last := alternatives[|alternatives| - 1];
      DeniedTwice(lex, text, alternatives[..|alternatives| - 1], x);
      var front := Matches(lex, text, alternatives[..|alternatives| - 1]);
      assert (front + [(last, true)])[..|front|] == front;
    }
  }

  /** With one of two alternatives denied there is always another to select. */
  lemma TheOtherExists(lex: Lexicon, m: Message, q: Question)
    requires |q.alternatives| == 2 && |Denied(lex, m.kept, q)| == 1
    ensures FirstWhere(q.alternatives, (a: string) => a != Denied(lex, m.kept, q)[0]).Some?
  {
    var x := Denied(lex, m.kept, q)[0];
    MatchesAre(lex, m.kept, q.alternatives);
    WithNegationAre(Matches(lex, m.kept, q.alternatives), true);
    assert x in Denied(lex, m.kept, q);
    if q.alternatives[0] == q.alternatives[1] == x {
      DeniedTwice(lex, m.kept, q.alternatives, x);
      assert false;
    }
  }

  // ---- corrections --------------------------------------------------------------------------

  /** A correction keyword never outranks a live question that the message answers. */
  lemma LiveQuestionOutranksCorrection(lex: Lexicon, m: Message, resolved: seq<Question>, questions: seq<Question>,
                                       c: Candidate)
    requires AnswersOpen(lex, m.kept, Select(questions, IsOpen()))
    requires c in Extracted(lex, m, resolved, questions)
    ensures !c.kind.Correction?
  {
    SaidHasOrigin(lex, m, Select(questions, IsOpen()));
  }

  lemma {:induction false} HitsComeFrom(lex: Lexicon, kept: string, resolved: seq<Question>)
    ensures forall h :: h in Hits(lex, kept, resolved) ==> h.0 in resolved && HitOn(lex, kept, h.0) == Some(h)
  {
    if resolved == [] {
    } else {
      HitsComeFrom(lex, kept, resolved[..|resolved| - 1]);
      assert resolved == resolved[..|resolved| - 1] + [resolved[|resolved| - 1]];
    }
  }

  lemma AffirmedIsAffirmed(lex: Lexicon, kept: string, q: Question)
    requires Affirmed(lex, kept, q) != []
    ensures Affirmed(lex, kept, q)[0] in q.alternatives
    ensures Affirms(lex.tokens(kept), lex.tokens(Affirmed(lex, kept, q)[0]))
  {
    MatchesAre(lex, kept, q.alternatives);
    WithNegationAre(Matches(lex, kept, q.alternatives), false);
    assert (Affirmed(lex, kept, q)[0], false) in Matches(lex, kept, q.alternatives);
  }

  /** Only answers and corrections are ever promoted, and a promoted correction revises the one resolved question it
      hits, with an alternative of that question that the text affirms or spells out. */
  lemma PromotedCorrectionIsGrounded(lex: Lexicon, m: Message, resolved: seq<Question>, questions: seq<Question>,
                                     c: Candidate, now: int, expiryNow: Option<int>)
    requires c in Extracted(lex, m, resolved, questions) && PromotionOf(c, questions, now, expiryNow).Promote?
    ensures c.kind.Answer? || c.kind.Correction?
    ensures c.kind.Correction? ==>
              && |Hits(lex, m.kept, resolved)| == 1 && c.selected.Some?
              && var q := Hits(lex, m.kept, resolved)[0].0;
                 && q in resolved && c.question == Some(q.id) && c.selected.value in q.alternatives
                 && Affirms(lex.tokens(m.kept), lex.tokens(c.selected.value))
  {
    if c.kind.Correction? {
      SaidHasOrigin(lex, m, Select(questions, IsOpen()));
      var hits := Hits(lex, m.kept, resolved);
      assert c in Correcting(m, hits);
      HitsComeFrom(lex, m.kept, resolved);
      assert hits[0] in hits;
      var q := hits[0].0;
      if q.alternatives != [] { AffirmedIsAffirmed(lex, m.kept, q); }
    }
  }

  // ---- acknowledgements ---------------------------------------------------------------------

  lemma VocabulariesAreApart(word: string)
    ensures !(word in CONFIRM_LIKE && word in DENY_LIKE)
  {
  }

  /** A yes that repeats no alternative picks a denying word exactly when both alternatives deny, and a no picks a
      confirming one exactly when both confirm. */
  lemma AckFlipsIff(lex: Lexicon, ack: string, alternatives: seq<string>)
    requires forall a :: a in alternatives ==> lex.words(a) != lex.words(ack)
    requires MapAck(lex, ack, alternatives).Some?
    ensures Polarity(lex.words(ack)).Some?
    ensures var picked := MapAck(lex, ack, alternatives).value;
            && (Polarity(lex.words(ack)) == Some(true) ==>
                  (WordIn(lex, picked, DENY_LIKE) <==>
                     |alternatives| == 2 && forall a :: a in alternatives ==> WordIn(lex, a, DENY_LIKE)))
            && (Polarity(lex.words(ack)) == Some(false) ==>
                  (WordIn(lex, picked, CONFIRM_LIKE) <==>
                     |alternatives| == 2 && forall a :: a in alternatives ==> WordIn(lex, a, CONFIRM_LIKE)))
  {
    forall a ensures !(WordIn(lex, a, CONFIRM_LIKE) && WordIn(lex, a, DENY_LIKE)) {
      if |lex.words(a)| == 1 { VocabulariesAreApart(lex.words(a)[0]); }
    }
  }

  /** "yes" cancels when the alternatives are to cancel and to stop, and "no" continues when they are to proceed and to
      continue. */
  lemma AcksFlip(lex: Lexicon)
    requires forall w :: w in ["yes", "no", "cancel", "stop", "proceed", "continue"] ==> lex.words(w) == [w]
    ensures MapAck(lex, "yes", ["cancel", "stop"]) == Some("cancel")
    ensures MapAck(lex, "no", ["proceed", "continue"]) == Some("continue")
  {
    AckPicks(lex, "yes", "cancel", "stop");
    AckPicks(lex, "no", "proceed", "continue");
  }

  lemma AckPicks(lex: Lexicon, ack: string, first: string, second: string)
    requires lex.words(ack) == [ack] && lex.words(first) == [first] && lex.words(second) == [second]
    requires ack != first && ack != second
    ensures ack in AFFIRMATIVE_ACKS && ack !in NEGATIVE_ACKS && first in DENY_LIKE && second in DENY_LIKE ==>
              MapAck(lex, ack, [first, second]) == Some(first)
    ensures ack !in AFFIRMATIVE_ACKS && ack in NEGATIVE_ACKS && first in CONFIRM_LIKE && second in CONFIRM_LIKE ==>
              MapAck(lex, ack, [first, second]) == Some(second)
  {
    VocabulariesAreApart(first);
    VocabulariesAreApart(second);
    assert ack in [ack];
  }

  // ---- one question, one promotion ----------------------------------------------------------

  /** Where each of the answers in one message came from: strictly later questions for later answers. */
  lemma {:induction false} SaidBySource(lex: Lexicon, m: Message, open: seq<Question>, i: nat) returns (s: nat)
    requires i < |AllSaid(lex, m, open)|
    ensures s < |open| && SaidTo(lex, m, open[s]) == Some(AllSaid(lex, m, open)[i])
    ensures |AllSaid(lex, m, open[..s])| == i
  {
    var front := open[..|open| - 1];
    if i < |AllSaid(lex, m, front)| {
      s := SaidBySource(lex, m, front, i);
      assert open[..s] == front[..s];
    } else {
      s := |open| - 1;
    }
  }

  lemma {:induction false} SelectPosition<T(!new)>(s: seq<T>, p: T -> bool, i: nat) returns (t: nat)
    requires i < |Select(s, p)|
    ensures t < |s| && s[t] == Select(s, p)[i] && p(s[t]) && |Select(s[..t], p)| == i
  {
    var front := s[..|s| - 1];
    if i < |Select(front, p)| {
      t := SelectPosition(front, p, i);
      assert s[..t] == front[..t];
    } else {
      t := |s| - 1;
    }
  }

  /** An answer promoted against a list that still holds, open and matching, the question it came from, names it. */
  lemma SourceIsTarget(c: Candidate, questions: seq<Question>, source: nat, now: int, expiryNow: Option<int>)
    requires c.kind.Answer? && PromotionOf(c, questions, now, expiryNow).Promote?
    requires source < |questions| && OpenMatch(c, questions[source])
    ensures UniqueAt(c, questions, source) && Timely(questions[source], now, expiryNow)
  {
    AnswerIsPromotedIff(c, questions, now, expiryNow);
    var t :| UniqueAt(c, questions, t) && Timely(questions[t], now, expiryNow);
    assert t == source;
  }

  /** Two matching questions at different places: nothing can be promoted. */
  lemma TwoMatchesBlock(c: Candidate, questions: seq<Question>, s: nat, t: nat, now: int, expiryNow: Option<int>)
    requires c.kind.Answer? && s < |questions| && t < |questions| && s != t
    requires OpenMatch(c, questions[s]) && OpenMatch(c, questions[t])
    ensures !PromotionOf(c, questions, now, expiryNow).Promote?
  {
    if PromotionOf(c, questions, now, expiryNow).Promote? {
      SourceIsTarget(c, questions, s, now, expiryNow);
      assert false;
    }
  }

  /** Two promoted answers from different sources answer different questions, even where ids repeat. */
  lemma DifferentSourcesDifferentQuestions(c: Candidate, d: Candidate, questions: seq<Question>, s: nat, t: nat,
                                           now: int, expiryNow: Option<int>)
    requires c.kind.Answer? && PromotionOf(c, questions, now, expiryNow).Promote?
    requires d.kind.Answer? && PromotionOf(d, questions, now, expiryNow).Promote?
    requires s < |questions| && t < |questions| && s != t
    requires OpenMatch(c, questions[s]) && OpenMatch(d, questions[t])
    ensures c.question != d.question
  {
    SourceIsTarget(c, questions, s, now, expiryNow);
    SourceIsTarget(d, questions, t, now, expiryNow);
    if s < t { assert questions[s].id != questions[t].id; } else { assert questions[t].id != questions[s].id; }
  }

  /** Where an answer that named an alternative came from, among all the questions. */
  lemma SaidSource(lex: Lexicon, m: Message, questions: seq<Question>, i: nat)
    returns (s: nat, t: nat)
    requires i < |AllSaid(lex, m, Select(questions, IsOpen()))|
    ensures var open := Select(questions, IsOpen());
            && s < |open| && |AllSaid(lex, m, open[..s])| == i
            && t < |questions| && questions[t] == open[s] && questions[t].open
            && |Select(questions[..t], IsOpen())| == s
            && SaidTo(lex, m, questions[t]) == Some(AllSaid(lex, m, open)[i])
  {
    s := SaidBySource(lex, m, Select(questions, IsOpen()), i);
    t := SelectPosition(questions, IsOpen(), s);
  }

  lemma SaidMatchesSource(lex: Lexicon, m: Message, q: Question)
    requires SaidTo(lex, m, q).Some? && q.open && SaidTo(lex, m, q).value.selected.Some?
    ensures OpenMatch(SaidTo(lex, m, q).value, q)
    ensures Grounded(lex, m.kept, q, SaidTo(lex, m, q).value.selected.value)
  {
    AnswerIsGrounded(lex, m, q);
  }

  /** The place among all the questions of the one that a promoted answer came from, and the number of open ones
      before it. */
  lemma PromotedSource(lex: Lexicon, m: Message, questions: seq<Question>, i: nat, now: int, expiryNow: Option<int>)
    returns (s: nat, t: nat)
    requires i < |AllSaid(lex, m, Select(questions, IsOpen()))|
    requires var c := AllSaid(lex, m, Select(questions, IsOpen()))[i];
             c.kind.Answer? && PromotionOf(c, questions, now, expiryNow).Promote?
    ensures var open := Select(questions, IsOpen());
            && s < |open| && |AllSaid(lex, m, open[..s])| == i
            && t < |questions| && |Select(questions[..t], IsOpen())| == s
            && OpenMatch(AllSaid(lex, m, open)[i], questions[t])
  {
    s, t := SaidSource(lex, m, questions, i);
    SaidMatchesSource(lex, m, questions[t]);
  }

  lemma SaidPairDiffers(lex: Lexicon, m: Message, questions: seq<Question>, i: nat, j: nat,
                        now: int, expiryNow: Option<int>)
    requires i < j < |AllSaid(lex, m, Select(questions, IsOpen()))|
    requires var cs := AllSaid(lex, m, Select(questions, IsOpen()));
             && cs[i].kind.Answer? && PromotionOf(cs[i], questions, now, expiryNow).Promote?
             && cs[j].kind.Answer? && PromotionOf(cs[j], questions, now, expiryNow).Promote?
    ensures var cs := AllSaid(lex, m, Select(questions, IsOpen()));
            cs[i].question != cs[j].question
  {
    var cs := AllSaid(lex, m, Select(questions, IsOpen()));
    var s, t := PromotedSource(lex, m, questions, i, now, expiryNow);
    var u, v := PromotedSource(lex, m, questions, j, now, expiryNow);
    assert s != u && t != v;
    DifferentSourcesDifferentQuestions(cs[i], cs[j], questions, t, v, now, expiryNow);
  }

  /** Two open-ended questions at once: an instruction answers neither. */
  lemma TwoOpenEndedBlock(m: Message, questions: seq<Question>, i: nat, j: nat, now: int, expiryNow: Option<int>)
    requires var openEnded := Select(Select(questions, IsOpen()), OpenEnded());
             i < |openEnded| && j < |openEnded| && i != j
    ensures var openEnded := Select(Select(questions, IsOpen()), OpenEnded());
            !PromotionOf(AnswerEach(m, openEnded)[i], questions, now, expiryNow).Promote?
  {
    var open := Select(questions, IsOpen());
    var openEnded := Select(open, OpenEnded());
    var s := SelectPosition(open, OpenEnded(), i);
    var t := SelectPosition(questions, IsOpen(), s);
    var u := SelectPosition(open, OpenEnded(), j);
    var v := SelectPosition(questions, IsOpen(), u);
    TwoMatchesBlock(AnswerEach(m, openEnded)[i], questions, t, v, now, expiryNow);
  }

  /** No two promoted candidates of one message answer the same question. */
  lemma OnePromotionPerQuestion(lex: Lexicon, m: Message, resolved: seq<Question>, questions: seq<Question>,
                                i: nat, j: nat, now: int, expiryNow: Option<int>)
    requires i < j < |Extracted(lex, m, resolved, questions)|
    requires var cs := Extracted(lex, m, resolved, questions);
             PromotionOf(cs[i], questions, now, expiryNow).Promote?
                 && PromotionOf(cs[j], questions, now, expiryNow).Promote?
    ensures var cs := Extracted(lex, m, resolved, questions);
            cs[i].question.Some? && cs[j].question.Some? && cs[i].question != cs[j].question
  {
    var open := Select(questions, IsOpen());
    var cs := Extracted(lex, m, resolved, questions);
    if cs == AllSaid(lex, m, open) {
      SaidHasOrigin(lex, m, open);
      assert cs[i] in cs && cs[j] in cs;
      SaidPairDiffers(lex, m, questions, i, j, now, expiryNow);
    } else {
      SeveralAreOpenEnded(lex, m, resolved, questions);
      TwoOpenEndedBlock(m, questions, i, j, now, expiryNow);
      assert false;
    }
  }

  /** More than one candidate comes only from naming alternatives or from instructing open-ended questions. */
  lemma SeveralAreOpenEnded(lex: Lexicon, m: Message, resolved: seq<Question>, questions: seq<Question>)
    requires |Extracted(lex, m, resolved, questions)| >= 2
    ensures var open := Select(questions, IsOpen());
            || Extracted(lex, m, resolved, questions) == AllSaid(lex, m, open)
            || Extracted(lex, m, resolved, questions) == AnswerEach(m, Select(open, OpenEnded()))
  {
  }

  // ---- the whole path -----------------------------------------------------------------------

  /** The question a message's answer was extracted for is in the list, open, and could be matched by it. */
  lemma AnswerHasSource(lex: Lexicon, m: Message, resolved: seq<Question>, questions: seq<Question>, i: nat)
    returns (t: nat)
    requires i < |Extracted(lex, m, resolved, questions)|
    requires var c := Extracted(lex, m, resolved, questions)[i];
             c.kind.Answer? && c.selected.Some?
    ensures var c := Extracted(lex, m, resolved, questions)[i];
            && t < |questions| && OpenMatch(c, questions[t])
            && (|| questions[t].alternatives == [] || IsAckOnly(lex.words(m.kept))
                || Grounded(lex, m.kept, questions[t], c.selected.value))
  {
    var open := Select(questions, IsOpen());
    var cs := Extracted(lex, m, resolved, questions);
    if IsAckOnly(lex.words(m.kept)) {
      t := AckSource(lex, m, questions, i);
    } else if cs == AllSaid(lex, m, open) {
      var s;
      s, t := SaidSource(lex, m, questions, i);
      SaidMatchesSource(lex, m, questions[t]);
    } else {
      t := InstructionSource(m, questions, i);
    }
  }

  lemma AckSource(lex: Lexicon, m: Message, questions: seq<Question>, i: nat) returns (t: nat)
    requires var cs := Acknowledged(lex, m, Select(questions, IsOpen()));
             i < |cs| && cs[i].kind.Answer?
    ensures t < |questions| && OpenMatch(Acknowledged(lex, m, Select(questions, IsOpen()))[i], questions[t])
  {
    t := SelectPosition(questions, IsOpen(), 0);
    MapAckIsOffered(lex, m.kept, questions[t].alternatives);
  }

  lemma InstructionSource(m: Message, questions: seq<Question>, i: nat) returns (t: nat)
    requires i < |Select(Select(questions, IsOpen()), OpenEnded())|
    ensures var openEnded := Select(Select(questions, IsOpen()), OpenEnded());
            && t < |questions| && questions[t].alternatives == []
            && OpenMatch(AnswerEach(m, openEnded)[i], questions[t])
  {
    var s := SelectPosition(Select(questions, IsOpen()), OpenEnded(), i);
    t := SelectPosition(questions, IsOpen(), s);
  }

  lemma MapAckIsOffered(lex: Lexicon, ack: string, alternatives: seq<string>)
    ensures MapAck(lex, ack, alternatives).Some? ==> MapAck(lex, ack, alternatives).value in alternatives
  {
  }

  /** A promoted answer was given by the human, to the only open question it could answer, live and asked before it;
      its option was offered and, unless the message was a bare acknowledgement, stands in the text. */
  lemma PromotedAnswerIsSafe(lex: Lexicon, m: Message, resolved: seq<Question>, questions: seq<Question>, i: nat,
                             now: int, expiryNow: Option<int>) returns (t: nat)
    requires i < |Extracted(lex, m, resolved, questions)|
    requires var c := Extracted(lex, m, resolved, questions)[i];
             c.kind.Answer? && PromotionOf(c, questions, now, expiryNow).Promote?
    ensures var c := Extracted(lex, m, resolved, questions)[i];
            && m.origin.HumanInput?
            && UniqueAt(c, questions, t) && Timely(questions[t], now, expiryNow)
            && (|| questions[t].alternatives == []
                || (c.selected.value in questions[t].alternatives
                    && (IsAckOnly(lex.words(m.kept)) || Grounded(lex, m.kept, questions[t], c.selected.value))))
  {
    var c := Extracted(lex, m, resolved, questions)[i];
    PromotedIsHuman(lex, m, resolved, questions, c, now, expiryNow);
    AnswerIsPromotedIff(c, questions, now, expiryNow);
    t := AnswerHasSource(lex, m, resolved, questions, i);
    SourceIsTarget(c, questions, t, now, expiryNow);
  }

  // ---- time and company only demote ---------------------------------------------------------

  /** An answer that arrives later is never promoted where the same one arriving earlier was not. */
  lemma LaterArrivalOnlyDemotes(c: Candidate, questions: seq<Question>, now: int, earlier: Option<int>, later: int)
    requires earlier.Some? ==> earlier.value <= later
    requires PromotionOf(c, questions, now, Some(later)).Promote?
    ensures PromotionOf(c, questions, now, earlier).Promote?
  {
    if c.kind.Answer? {
      AnswerIsPromotedIff(c, questions, now, Some(later));
      AnswerIsPromotedIff(c, questions, now, earlier);
      var t :| UniqueAt(c, questions, t) && Timely(questions[t], now, Some(later));
      assert Timely(questions[t], now, earlier);
    }
  }

  /** One more question under another id never gets a candidate promoted that was not. */
  lemma AnotherQuestionOnlyDemotes(c: Candidate, questions: seq<Question>, k: nat, extra: Question, now: int,
                                   expiryNow: Option<int>)
    requires k <= |questions| && c.question != Some(extra.id)
    requires PromotionOf(c, questions[..k] + [extra] + questions[k..], now, expiryNow).Promote?
    ensures PromotionOf(c, questions, now, expiryNow).Promote?
  {
    if c.kind.Answer? {
      var more := questions[..k] + [extra] + questions[k..];
      AnswerIsPromotedIff(c, questions, now, expiryNow);
      AnswerIsPromotedIff(c, more, now, expiryNow);
      var t :| UniqueAt(c, more, t) && Timely(more[t], now, expiryNow);
      assert t != k;
      UniqueWithout(c, questions, k, extra, t);
    }
  }

  lemma UniqueWithout(c: Candidate, questions: seq<Question>, k: nat, extra: Question, t: int)
    requires k <= |questions| && t != k && UniqueAt(c, questions[..k] + [extra] + questions[k..], t)
    ensures UniqueAt(c, questions, if t < k then t else t - 1)
    ensures questions[if t < k then t else t - 1] == (questions[..k] + [extra] + questions[k..])[t]
  {
    var more := questions[..k] + [extra] + questions[k..];
    assert forall j :: 0 <= j < k ==> questions[j] == more[j];
    assert forall j :: k <= j < |questions| ==> questions[j] == more[j + 1];
  }

  /** Under the same id the clause matters: a fresh question in front of a closed one revives the answer. */
  lemma SameIdCanPromote() returns (c: Candidate, questions: seq<Question>, extra: Question)
    ensures c.question == Some(extra.id)
    ensures !PromotionOf(c, questions, 0, None).Promote? && PromotionOf(c, [extra] + questions, 0, None).Promote?
  {
    extra := Question("q", true, ["yes"], 0, None);
    c, questions := Candidate(Answer, HumanInput, Some("yes"), ["yes"], Some("q"), false, false, false),
                    [extra.(open := false)];
    AnswerIsPromotedIff(c, questions, 0, None);
    AnswerIsPromotedIff(c, [extra] + questions, 0, None);
    assert UniqueAt(c, [extra] + questions, 0);
    assert forall t :: UniqueAt(c, questions, t) ==> t == 0;
  }
}
