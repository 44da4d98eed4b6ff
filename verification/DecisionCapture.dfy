/** Extracting decision candidates from one message, and the gate that promotes them. */
module DecisionCapture {
  import opened Ordering

  datatype Origin = HumanInput | ManagerInstruction | ExecutorOutput | ImportedTranscript | ToolResult | UnknownOrigin

  datatype Kind = Answer | Preference | Correction | Rejection | FreeText | Acknowledgement | Interrupt | Noise

  datatype Question = Question(id: string, open: bool, alternatives: seq<string>, frozenAt: int, expiresAt: Option<int>)

  datatype Candidate = Candidate(kind: Kind, origin: Origin, selected: Option<string>, observed: seq<string>,
                                 question: Option<string>, negated: bool, correction: bool, contradicted: bool)

  /** The readings of a text: `tokens` keep clause breaks, `words` are the normalised ones. */
  datatype Lexicon = Lexicon(tokens: string -> seq<string>, words: string -> seq<string>, concrete: string -> bool,
                             corrects: string -> bool, interrupts: string -> bool,
                             preference: string -> Option<(string, Option<string>)>)

  /** `kept` is what remains once quoted, pasted and echoed material is gone. */
  datatype Message = Message(origin: Origin, blank: bool, kept: string, dropped: bool)

  // ---- pasted agent output ------------------------------------------------------------------

  /** A line in a run of two or more marked lines. */
  predicate InRun(marked: seq<bool>, i: nat)
    requires i < |marked|
  {
    marked[i] && ((i > 0 && marked[i - 1]) || (i + 1 < |marked| && marked[i + 1]))
  }

  /** Lines that become neighbours once the runs are gone are never both marked: one pass leaves no run behind. */
  lemma NoRunSurvives(marked: seq<bool>, k: nat, l: nat)
    requires k < l < |marked| && !InRun(marked, k) && !InRun(marked, l)
    requires forall i :: k < i < l ==> InRun(marked, i)
    ensures !(marked[k] && marked[l])
  {
    assert k + 1 < l ==> InRun(marked, k + 1);
  }

  /** The marker-run loop: exactly the lines in a run of two or more are flagged for removal. */
  method FlagMarkerRuns(marked: seq<bool>) returns (remove: seq<bool>)
    ensures |remove| == |marked|
    ensures forall i :: 0 <= i < |marked| ==> remove[i] == InRun(marked, i)
    ensures forall i :: 0 <= i && i + 1 < |marked| && marked[i] && marked[i + 1] ==> remove[i] && remove[i + 1]
  {
    remove := seq(|marked|, i => false);
    var idx := 0;
    while idx < |marked|
      invariant 0 <= idx <= |marked| && |remove| == |marked|
      invariant forall i :: 0 <= i < idx ==> remove[i] == InRun(marked, i)
      invariant forall i :: idx <= i < |marked| ==> !remove[i]
      invariant 0 < idx < |marked| ==> !(marked[idx - 1] && marked[idx])
    {
      if marked[idx] {
        var end := idx;
        while end < |marked| && marked[end]
          invariant idx <= end <= |marked|
          invariant forall i :: idx <= i < end ==> marked[i]
        {
          end := end + 1;
        }
        if end - idx >= 2 {
          ghost var before := remove;
          for pos := idx to end
            invariant |remove| == |marked|
            invariant forall i :: 0 <= i < |marked| ==> remove[i] == (if idx <= i < pos then true else before[i])
          {
            remove := remove[pos := true];
          }
        }
        idx := end;
      } else {
        idx := idx + 1;
      }
    }
  }

  // ---- matching alternatives ----------------------------------------------------------------

  const NEGATION_TOKENS: set<string> := {
    "not", "don't", "dont", "never", "no", "cannot", "can't", "cant", "won't", "wont", "without", "isn't", "isnt",
    "shouldn't", "shouldnt", "rather than", "instead of" }
  const NEGATION_BIGRAMS: set<(string, string)> := {("rather", "than"), ("instead", "of")}
  const CLAUSE_BREAKS: set<string> := {",", ";", ":"}
  const NEGATION_WINDOW := 3

  predicate Breaks(token: string) { token in CLAUSE_BREAKS }

  /** Position `p` is among the last three tokens before `idx`, with no clause break from it to there. */
  predicate InWindow(tokens: seq<string>, p: int, idx: nat)
    requires idx <= |tokens|
  {
    0 <= p < idx && idx - NEGATION_WINDOW <= p && forall r :: p <= r < idx ==> !Breaks(tokens[r])
  }

  predicate NegatesFrom(tokens: seq<string>, p: int, idx: nat)
    requires idx <= |tokens|
  {
    InWindow(tokens, p, idx)
    && (tokens[p] in NEGATION_TOKENS || (p + 1 < idx && (tokens[p], tokens[p + 1]) in NEGATION_BIGRAMS))
  }

  ghost predicate Negated(tokens: seq<string>, idx: nat)
    requires idx <= |tokens|
  {
    exists p :: NegatesFrom(tokens, p, idx)
  }

  /** The window walked backwards: the tokens from `start` on, and no others, are in it. */
  method CollectWindow(tokens: seq<string>, idx: nat) returns (window: seq<string>, start: nat)
    requires idx <= |tokens|
    ensures start <= idx && window == tokens[start..idx]
    ensures forall p :: InWindow(tokens, p, idx) <==> start <= p < idx
  {
    window := [];
    var pos := idx - 1;
    while pos >= 0 && |window| < NEGATION_WINDOW && !Breaks(tokens[pos])
      invariant -1 <= pos < idx && window == tokens[pos + 1..idx] && |window| <= NEGATION_WINDOW
      invariant NoBreakFrom(tokens, pos + 1, idx)
    {
      OneMoreBack(tokens, pos, idx);
      window, pos := [tokens[pos]] + window, pos - 1;
    }
    start := pos + 1;
    WindowStarts(tokens, idx, start);
  }

  predicate NoBreakFrom(tokens: seq<string>, start: nat, idx: nat)
    requires idx <= |tokens|
  {
    forall r :: start <= r < idx ==> !Breaks(tokens[r])
  }

  lemma OneMoreBack(tokens: seq<string>, pos: nat, idx: nat)
    requires pos < idx <= |tokens|
    ensures [tokens[pos]] + tokens[pos + 1..idx] == tokens[pos..idx]
    ensures !Breaks(tokens[pos]) && NoBreakFrom(tokens, pos + 1, idx) ==> NoBreakFrom(tokens, pos, idx)
  {
  }

  lemma WindowStarts(tokens: seq<string>, idx: nat, start: nat)
    requires idx - NEGATION_WINDOW <= start <= idx <= |tokens| && NoBreakFrom(tokens, start, idx)
    requires start == 0 || idx - NEGATION_WINDOW == start || Breaks(tokens[start - 1])
    ensures forall p :: InWindow(tokens, p, idx) <==> start <= p < idx
  {
  }

  predicate NegatesWithin(window: seq<string>, i: nat)
    requires i < |window|
  {
    window[i] in NEGATION_TOKENS || (i + 1 < |window| && (window[i], window[i + 1]) in NEGATION_BIGRAMS)
  }

  /** A negating token anywhere in the window, or else a negating pair. */
  method ScanWindow(window: seq<string>) returns (negated: bool)
    ensures negated <==> exists i :: 0 <= i < |window| && NegatesWithin(window, i)
  {
    for i := 0 to |window|
      invariant forall j :: 0 <= j < i ==> window[j] !in NEGATION_TOKENS
    {
      if window[i] in NEGATION_TOKENS {
        assert NegatesWithin(window, i);
        return true;
      }
    }
    for i := 0 to |window|
      invariant forall j :: 0 <= j < i ==> !NegatesWithin(window, j)
    {
      if i + 1 < |window| && (window[i], window[i + 1]) in NEGATION_BIGRAMS {
        assert NegatesWithin(window, i);
        return true;
      }
    }
    return false;
  }

  lemma WindowDecides(tokens: seq<string>, idx: nat, start: nat)
    requires start <= idx <= |tokens|
    requires forall p :: InWindow(tokens, p, idx) <==> start <= p < idx
    ensures Negated(tokens, idx) <==>
              exists i :: 0 <= i < idx - start && NegatesWithin(tokens[start..idx], i)
  {
    var window := tokens[start..idx];
    if p :| NegatesFrom(tokens, p, idx) {
      assert window[p - start] == tokens[p];
      assert NegatesWithin(window, p - start);
    }
    if i :| 0 <= i < |window| && NegatesWithin(window, i) {
      assert InWindow(tokens, start + i, idx);
      assert NegatesFrom(tokens, start + i, idx);
    }
  }

  method NegatedAt(tokens: seq<string>, idx: nat) returns (negated: bool)
    requires idx <= |tokens|
    ensures negated == Negated(tokens, idx)
  {
    var window, start := CollectWindow(tokens, idx);
    WindowDecides(tokens, idx, start);
    negated := ScanWindow(window);
  }

  /** The phrase stands whole at this position. */
  predicate StandsAt(tokens: seq<string>, phrase: seq<string>, i: int) {
    phrase != [] && 0 <= i <= |tokens| - |phrase| && tokens[i..i + |phrase|] == phrase
  }

  ghost predicate Mentioned(tokens: seq<string>, phrase: seq<string>) { exists i :: StandsAt(tokens, phrase, i) }

  /** Some occurrence escapes negation. */
  ghost predicate Affirms(tokens: seq<string>, phrase: seq<string>) {
    exists i :: StandsAt(tokens, phrase, i) && !Negated(tokens, i)
  }

  /** The alternatives mentioned, in their own order, each with whether every mention is negated. */
  ghost function Matches(lex: Lexicon, text: string, alternatives: seq<string>): seq<(string, bool)> {
    if alternatives == [] then []
    else
      var front, last := Matches(lex, text, alternatives[..|alternatives| - 1]), alternatives[|alternatives| - 1];
      if Mentioned(lex.tokens(text), lex.tokens(last))
      then front + [(last, !Affirms(lex.tokens(text), lex.tokens(last)))]
      else front
  }

  method MatchOne(tokens: seq<string>, phrase: seq<string>) returns (mentioned: bool, affirmed: bool)
    ensures mentioned == Mentioned(tokens, phrase) && affirmed == Affirms(tokens, phrase)
  {
    mentioned, affirmed := false, false;
    if phrase == [] { return; }
    var i := 0;
    while i <= |tokens| - |phrase|
      invariant 0 <= i
      invariant mentioned <==> exists j :: 0 <= j < i && StandsAt(tokens, phrase, j)
      invariant affirmed <==> exists j :: 0 <= j < i && StandsAt(tokens, phrase, j) && !Negated(tokens, j)
    {
      if tokens[i..i + |phrase|] == phrase {
        assert StandsAt(tokens, phrase, i);
        mentioned := true;
        var negated := NegatedAt(tokens, i);
        if !negated { affirmed := true; }
      }
      i := i + 1;
    }
  }

  method MatchAlternatives(lex: Lexicon, text: string, alternatives: seq<string>) returns (matches: seq<(string, bool)>)
    ensures matches == Matches(lex, text, alternatives)
  {
    matches := [];
    var tokens := lex.tokens(text);
    for i := 0 to |alternatives|
      invariant matches == Matches(lex, text, alternatives[..i])
    {
      assert alternatives[..i + 1][..i] == alternatives[..i];
      var mentioned, affirmed := MatchOne(tokens, lex.tokens(alternatives[i]));
      if mentioned { matches := matches + [(alternatives[i], !affirmed)]; }
    }
    assert alternatives[..|alternatives|] == alternatives;
  }

  function WithNegation(matches: seq<(string, bool)>, negated: bool): seq<string> {
    if matches == [] then []
    else
      var last := matches[|matches| - 1];
      WithNegation(matches[..|matches| - 1], negated) + (if last.1 == negated then [last.0] else [])
  }

  // ---- acknowledgements ---------------------------------------------------------------------

  const ACK_PHRASES: set<(string, string)> := {("go", "on"), ("thank", "you"), ("got", "it"), ("go", "ahead")}
  const ACK_SINGLE: set<string> := {
    "ok", "okay", "k", "kk", "hmm", "sure", "continue", "next", "yes", "yeah", "yep", "y", "no", "nope", "n",
    "thanks", "done", "fine", "alright", "right", "cool", "proceed", "confirm", "abort", "approve", "deny" }
  const AFFIRMATIVE_ACKS: set<string> := {
    "yes", "yeah", "yep", "y", "ok", "okay", "k", "kk", "sure", "proceed", "go ahead", "confirm", "approve", "fine",
    "alright", "right", "cool" }
  const NEGATIVE_ACKS: set<string> := {"no", "nope", "n", "abort", "deny", "cancel", "stop"}
  const CONFIRM_LIKE: set<string> := {"confirm", "yes", "approve", "allow", "proceed", "continue"}
  const DENY_LIKE: set<string> := {"abort", "no", "deny", "block", "cancel", "stop"}

  /** A sequence of acknowledgement words and two-word phrases. */
  predicate AllAcks(words: seq<string>) {
    || words == []
    || (|words| >= 2 && (words[0], words[1]) in ACK_PHRASES && AllAcks(words[2..]))
    || ((|words| < 2 || (words[0], words[1]) !in ACK_PHRASES) && words[0] in ACK_SINGLE && AllAcks(words[1..]))
  }

  predicate IsAckOnly(words: seq<string>) { 1 <= |words| <= 3 && AllAcks(words) }

  method ReadsAsAck(words: seq<string>) returns (ack: bool)
    ensures ack == IsAckOnly(words)
  {
    if words == [] || |words| > 3 { return false; }
    var idx := 0;
    while idx < |words|
      invariant 0 <= idx <= |words|
      invariant AllAcks(words) == AllAcks(words[idx..])
    {
      if idx + 1 < |words| && (words[idx], words[idx + 1]) in ACK_PHRASES {
        assert words[idx..][2..] == words[idx + 2..];
        idx := idx + 2;
      } else if words[idx] in ACK_SINGLE {
        assert words[idx..][1..] == words[idx + 1..];
        idx := idx + 1;
      } else {
        return false;
      }
    }
    return true;
  }

  predicate SaysGoAhead(words: seq<string>) {
    exists i :: 0 <= i && i + 1 < |words| && words[i] == "go" && words[i + 1] == "ahead"
  }

  function Polarity(words: seq<string>): Option<bool> {
    var affirmative := (exists w :: w in words && w in AFFIRMATIVE_ACKS) || SaysGoAhead(words);
    var negative := exists w :: w in words && w in NEGATIVE_ACKS;
    if negative && !affirmative then Some(false) else if affirmative && !negative then Some(true) else None
  }

  /** A one-word alternative from a vocabulary. */
  predicate WordIn(lex: Lexicon, alternative: string, vocabulary: set<string>) {
    |lex.words(alternative)| == 1 && lex.words(alternative)[0] in vocabulary
  }

  function FirstWhere(alternatives: seq<string>, p: string -> bool): (found: Option<string>)
    ensures found.Some? ==> found.value in alternatives && p(found.value)
    ensures found.None? ==> forall a :: a in alternatives ==> !p(a)
  {
    if alternatives == [] then None
    else if p(alternatives[0]) then Some(alternatives[0])
    else
      assert alternatives == [alternatives[0]] + alternatives[1..];
      FirstWhere(alternatives[1..], p)
  }

  function MapAck(lex: Lexicon, ack: string, alternatives: seq<string>): Option<string> {
    var same := FirstWhere(alternatives, (a: string) => lex.words(a) == lex.words(ack));
    if alternatives == [] then None
    else if same.Some? then same
    else
      match Polarity(lex.words(ack))
      case None => None
      case Some(true) =>
        var yes := FirstWhere(alternatives, (a: string) => WordIn(lex, a, CONFIRM_LIKE));
        if yes.Some? then yes
        else if |alternatives| == 2 && WordIn(lex, alternatives[1], DENY_LIKE) then Some(alternatives[0])
        else None
      case Some(false) =>
        var no := FirstWhere(alternatives, (a: string) => WordIn(lex, a, DENY_LIKE));
        if no.Some? then no
        else if |alternatives| == 2 && WordIn(lex, alternatives[0], CONFIRM_LIKE) then Some(alternatives[1])
        else None
  }

  // ---- extraction ---------------------------------------------------------------------------

  function Cut(text: string): string { if |text| > 500 then text[..500] else text }

  function Plain(kind: Kind, origin: Origin): Candidate { Candidate(kind, origin, None, [], None, false, false, false) }

  function Answering(origin: Origin, q: Question, selected: Option<string>): Candidate {
    Candidate(Answer, origin, selected, q.alternatives, Some(q.id), false, false, false)
  }

  function IsOpen(): Question -> bool { (q: Question) => q.open }

  function OpenEnded(): Question -> bool { (q: Question) => q.alternatives == [] }

  ghost function Affirmed(lex: Lexicon, kept: string, q: Question): seq<string> {
    WithNegation(Matches(lex, kept, q.alternatives), false)
  }

  ghost function Denied(lex: Lexicon, kept: string, q: Question): seq<string> {
    WithNegation(Matches(lex, kept, q.alternatives), true)
  }

  /** What the message says to one question with alternatives. */
  function Said(origin: Origin, q: Question, affirmed: seq<string>, denied: seq<string>): Option<Candidate> {
    if affirmed == [] && denied == [] then None
    else if |affirmed| == 1 then Some(Answering(origin, q, Some(affirmed[0])))
    else if |affirmed| >= 2 then Some(Answering(origin, q, None).(contradicted := true))
    else if |denied| == 1 && |q.alternatives| == 2
      then Some(Answering(origin, q, FirstWhere(q.alternatives, (a: string) => a != denied[0])).(negated := true))
    else Some(Answering(origin, q, None).(kind := Rejection, negated := true))
  }

  ghost function SaidTo(lex: Lexicon, m: Message, q: Question): Option<Candidate> {
    if q.alternatives == [] then None else Said(m.origin, q, Affirmed(lex, m.kept, q), Denied(lex, m.kept, q))
  }

  ghost function AllSaid(lex: Lexicon, m: Message, open: seq<Question>): seq<Candidate> {
    if open == [] then []
    else
      var front, last := AllSaid(lex, m, open[..|open| - 1]), SaidTo(lex, m, open[|open| - 1]);
      if last.Some? then front + [last.value] else front
  }

  /** A recently resolved question the message revises, and with which alternative. */
  ghost function HitOn(lex: Lexicon, kept: string, q: Question): Option<(Question, Option<string>)> {
    if q.alternatives == [] then if lex.concrete(kept) then Some((q, None)) else None
    else if Affirmed(lex, kept, q) != [] then Some((q, Some(Affirmed(lex, kept, q)[0])))
    else None
  }

  ghost function Hits(lex: Lexicon, kept: string, resolved: seq<Question>): seq<(Question, Option<string>)> {
    if resolved == [] then []
    else
      var front, last := Hits(lex, kept, resolved[..|resolved| - 1]), HitOn(lex, kept, resolved[|resolved| - 1]);
      if last.Some? then front + [last.value] else front
  }

  ghost predicate AnswersOpen(lex: Lexicon, kept: string, open: seq<Question>) {
    exists q :: q in open && Affirmed(lex, kept, q) != []
  }

  function Correcting(m: Message, hits: seq<(Question, Option<string>)>): seq<Candidate> {
    if hits == [] then []
    else if |hits| == 1 then
      [Candidate(Kind.Correction, m.origin, Some(hits[0].1.GetOr(Cut(m.kept))), hits[0].0.alternatives,
                 Some(hits[0].0.id), false, true, false)]
    else [Plain(Kind.Correction, m.origin).(correction := true, contradicted := true)]
  }

  function AnswerEach(m: Message, open: seq<Question>): (cs: seq<Candidate>)
    ensures |cs| == |open| && forall i :: 0 <= i < |open| ==> cs[i] == Answering(m.origin, open[i], Some(Cut(m.kept)))
  {
    seq(|open|, i requires 0 <= i < |open| => Answering(m.origin, open[i], Some(Cut(m.kept))))
  }

  function Acknowledged(lex: Lexicon, m: Message, open: seq<Question>): seq<Candidate> {
    if |open| == 1 && open[0].alternatives != [] && MapAck(lex, m.kept, open[0].alternatives).Some?
    then [Answering(m.origin, open[0], MapAck(lex, m.kept, open[0].alternatives))]
    else [Plain(Acknowledgement, m.origin)]
  }

  /** The rules that apply when nothing in the message names an alternative. */
  function Otherwise(lex: Lexicon, m: Message, open: seq<Question>): seq<Candidate> {
    var openEnded := Select(open, OpenEnded());
    if openEnded != [] && lex.concrete(m.kept) then AnswerEach(m, openEnded)
    else if open != [] then if |lex.words(m.kept)| > 3 then [Plain(FreeText, m.origin)] else []
    else
      match lex.preference(m.kept)
      case None => []
      case Some(p) =>
        [Plain(Preference, m.origin)
         .(selected := Some(p.0), observed := if p.1.Some? then [p.0, p.1.value] else [p.0])]
  }

  predicate ContextOnly(o: Origin) { !o.HumanInput? && !o.ImportedTranscript? }

  /** The rule cascade. */
  ghost function Extracted(lex: Lexicon, m: Message, resolved: seq<Question>,
                           questions: seq<Question>): seq<Candidate> {
    var open, words := Select(questions, IsOpen()), lex.words(m.kept);
    if ContextOnly(m.origin) || m.blank then []
    else if m.kept == "" then if m.dropped then [Plain(Noise, m.origin)] else []
    else if IsAckOnly(words) then Acknowledged(lex, m, open)
    else if lex.interrupts(m.kept) && |words| <= 5 then [Plain(Interrupt, m.origin)]
    else if !AnswersOpen(lex, m.kept, open) && lex.corrects(m.kept) && Hits(lex, m.kept, resolved) != []
      then Correcting(m, Hits(lex, m.kept, resolved))
    else if AllSaid(lex, m, open) != [] then AllSaid(lex, m, open)
    else Otherwise(lex, m, open)
  }

  method CollectHits(lex: Lexicon, kept: string, resolved: seq<Question>)
    returns (hits: seq<(Question, Option<string>)>)
    ensures hits == Hits(lex, kept, resolved)
  {
    hits := [];
    for i := 0 to |resolved|
      invariant hits == Hits(lex, kept, resolved[..i])
    {
      assert resolved[..i + 1][..i] == resolved[..i];
      var q := resolved[i];
      if q.alternatives == [] {
        if lex.concrete(kept) { hits := hits + [(q, None)]; }
      } else {
        var matches := MatchAlternatives(lex, kept, q.alternatives);
        var affirmed := WithNegation(matches, false);
        if affirmed != [] { hits := hits + [(q, Some(affirmed[0]))]; }
      }
    }
    assert resolved[..|resolved|] == resolved;
  }

  method AnswersAnyOpen(lex: Lexicon, kept: string, open: seq<Question>) returns (answers: bool)
    ensures answers == AnswersOpen(lex, kept, open)
  {
    for i := 0 to |open|
      invariant forall j :: 0 <= j < i ==> Affirmed(lex, kept, open[j]) == []
    {
      var matches := MatchAlternatives(lex, kept, open[i].alternatives);
      assert open[i] in open && Affirmed(lex, kept, open[i]) == WithNegation(matches, false);
      if WithNegation(matches, false) != [] { return true; }
    }
    return false;
  }

  method CollectAnswers(lex: Lexicon, m: Message, open: seq<Question>) returns (results: seq<Candidate>)
    ensures results == AllSaid(lex, m, open)
  {
    results := [];
    for i := 0 to |open|
      invariant results == AllSaid(lex, m, open[..i])
    {
      assert open[..i + 1][..i] == open[..i];
      if open[i].alternatives != [] {
        var matches := MatchAlternatives(lex, m.kept, open[i].alternatives);
        var said := Said(m.origin, open[i], WithNegation(matches, false), WithNegation(matches, true));
        if said.Some? { results := results + [said.value]; }
      }
    }
    assert open[..|open|] == open;
  }

  method ExtractCandidates(lex: Lexicon, m: Message, resolved: seq<Question>, questions: seq<Question>)
    returns (candidates: seq<Candidate>)
    ensures candidates == Extracted(lex, m, resolved, questions)
  {
    if ContextOnly(m.origin) || m.blank { return []; }
    var open, words := Select(questions, IsOpen()), lex.words(m.kept);
    if m.kept == "" {
      if m.dropped { return [Plain(Noise, m.origin)]; }
      return [];
    }
    var ack := ReadsAsAck(words);
    if ack { return Acknowledged(lex, m, open); }
    if lex.interrupts(m.kept) && |words| <= 5 { return [Plain(Interrupt, m.origin)]; }
    var answersOpen := AnswersAnyOpen(lex, m.kept, open);
    if !answersOpen && lex.corrects(m.kept) {
      var hits := CollectHits(lex, m.kept, resolved);
      if hits != [] { return Correcting(m, hits); }
    }
    var results := CollectAnswers(lex, m, open);
    if results != [] { return results; }
    return Otherwise(lex, m, open);
  }

  // ---- promotion ----------------------------------------------------------------------------

  datatype Promotion = Promote | PendingReview | Discard

  predicate CouldMatch(c: Candidate, q: Question) {
    q.alternatives == [] || (c.selected.Some? && c.selected.value in q.alternatives)
  }

  predicate Expired(q: Question, now: int) { q.expiresAt.Some? && q.expiresAt.value <= now }

  function Later(now: int, expiryNow: Option<int>): int {
    if expiryNow.Some? && expiryNow.value > now then expiryNow.value else now
  }

  function FirstWithId(questions: seq<Question>, id: string): Option<Question> {
    if questions == [] then None
    else if questions[0].id == id then Some(questions[0])
    else FirstWithId(questions[1..], id)
  }

  function CouldMatchCount(c: Candidate, questions: seq<Question>): nat {
    if questions == [] then 0
    else (if questions[0].open && CouldMatch(c, questions[0]) then 1 else 0) + CouldMatchCount(c, questions[1..])
  }

  predicate Chose(c: Candidate) { c.selected.Some? && c.selected.value != "" }

  /** The target is open, live and could be matched, and nothing else open could be. */
  predicate HitsUniqueTarget(c: Candidate, target: Question, questions: seq<Question>, expiry: int) {
    && target.open && !Expired(target, expiry)
    && (target.alternatives == [] || (c.selected.Some? && c.selected.value in target.alternatives))
    && CouldMatchCount(c, questions) == 1
  }

  function AnswerPromotion(c: Candidate, questions: seq<Question>, now: int, expiryNow: Option<int>): Promotion
    requires c.question.Some?
  {
    match FirstWithId(questions, c.question.value)
    case None => PendingReview
    case Some(target) =>
      if !HitsUniqueTarget(c, target, questions, Later(now, expiryNow)) then PendingReview
      else if target.frozenAt > now then PendingReview
      else Promote
  }

  /** The gate. `now` is when the human spoke, `expiryNow` when the answer reached the server. */
  function PromotionOf(c: Candidate, questions: seq<Question>, now: int, expiryNow: Option<int>): Promotion {
    if c.contradicted then Discard
    else if c.kind.Acknowledgement? || c.kind.Interrupt? || c.kind.Noise? then Discard
    else if c.origin.ImportedTranscript? then PendingReview
    else if c.kind.Preference? || c.kind.Rejection? || c.kind.FreeText? then PendingReview
    else if c.kind.Answer? && c.question.Some? && Chose(c) then AnswerPromotion(c, questions, now, expiryNow)
    else if c.kind.Correction? && c.question.Some? then
      if Chose(c) && c.selected.value in c.observed then Promote else PendingReview
    else PendingReview
  }
}
