/** The effect journal: did the world change, and do we know? An actor-indexed state machine over each
    effect, and the pause rule over a journal of any size. */
module EffectJournal {
  import opened Ordering

  datatype State = Prepared | Running | Confirmed | Failed | Unknown | Foreign(name: string)

  datatype Reversibility = Reversible | Irreversible | Undetermined

  datatype Rejection = UnknownState | Terminal | InvalidTransition | SystemOnly | IrreversibleActor

  const RECONCILER := "system:reconciler"
  const VERIFIER := "system:verifier"
  const OWNER := "system:owner"

  predicate SystemActor(actor: string) { actor == RECONCILER || actor == VERIFIER || actor == OWNER }

  predicate IsTerminal(s: State) { s.Confirmed? || s.Failed? }

  predicate Reopens(from: State, to: State) { from.Failed? && to.Unknown? }

  predicate InTransitions(from: State, to: State) {
    match from
    case Prepared => to.Running? || to.Failed? || to.Unknown?
    case Running => to.Confirmed? || to.Failed? || to.Unknown?
    case Unknown => to.Confirmed? || to.Failed?
    case _ => false
  }

  /** The reason a move is refused, in the order the reasons are tried; `None` when it is permitted. */
  function Validate(from: State, to: State, actor: string, reversibility: Reversibility): Option<Rejection> {
    if from.Foreign? || to.Foreign? then Some(UnknownState)
    else if IsTerminal(from) && !Reopens(from, to) then Some(Terminal)
    else if !InTransitions(from, to) && !Reopens(from, to) then Some(InvalidTransition)
    else if (from.Unknown? || Reopens(from, to)) && !SystemActor(actor) then Some(SystemOnly)
    else if reversibility.Irreversible? && IsTerminal(to) && !SystemActor(actor) then Some(IrreversibleActor)
    else None
  }

  // ---- runs ---------------------------------------------------------------------------------

  datatype Move = Move(actor: string, target: State)

  /** Where a history leaves an effect that was prepared, or `None` when some move was refused. */
  function After(history: seq<Move>, reversibility: Reversibility): Option<State> {
    if history == [] then Some(Prepared)
    else
      var last := history[|history| - 1];
      match After(history[..|history| - 1], reversibility)
      case None => None
      case Some(s) => if Validate(s, last.target, last.actor, reversibility).None? then Some(last.target) else None
  }

  function WorkerMoves(history: seq<Move>): nat {
    if history == [] then 0
    else WorkerMoves(history[..|history| - 1]) + if SystemActor(history[|history| - 1].actor) then 0 else 1
  }

  /** How many moves an ordinary worker may still make from a state. */
  function WorkerBudget(s: State): nat {
    match s
    case Prepared => 2
    case Running => 1
    case _ => 0
  }

  /** In any run at all, whoever else moves, ordinary workers make at most two moves. */
  lemma {:induction false} WorkersMoveAtMostTwice(history: seq<Move>, reversibility: Reversibility)
    requires After(history, reversibility).Some?
    ensures WorkerMoves(history) + WorkerBudget(After(history, reversibility).value) <= 2
  {
    if history == [] {
    } else {
      WorkersMoveAtMostTwice(history[..|history| - 1], reversibility);
    }
  }

  lemma ConfirmedIsAbsorbing(history: seq<Move>, move: Move, reversibility: Reversibility)
    requires After(history, reversibility) == Some(Confirmed)
    ensures After(history + [move], reversibility).None?
  {
    assert (history + [move])[..|history|] == history;
  }

  /** Leaving `unknown`, or reopening `failed`, takes a system actor; and it is how an effect leaves either. */
  lemma OnlyTheSystemLeavesUnknown(history: seq<Move>, move: Move, reversibility: Reversibility)
    requires After(history, reversibility) == Some(Unknown) || After(history, reversibility) == Some(Failed)
    ensures After(history + [move], reversibility).Some? ==> SystemActor(move.actor)
    ensures After(history + [move], reversibility).Some? <==>
              SystemActor(move.actor)
              && if After(history, reversibility) == Some(Unknown) then IsTerminal(move.target)
                 else move.target.Unknown?
  {
    assert (history + [move])[..|history|] == history;
  }

  /** Every entry of an irreversible effect into a terminal state was a system actor's. */
  lemma {:induction false} IrreversibleIsClosedBySystem(history: seq<Move>, n: nat)
    requires After(history, Irreversible).Some? && n < |history| && IsTerminal(history[n].target)
    ensures SystemActor(history[n].actor)
  {
    if n == |history| - 1 {
    } else {
      IrreversibleIsClosedBySystem(history[..|history| - 1], n);
    }
  }

  predicate WorkersOnly(history: seq<Move>) { forall i :: 0 <= i < |history| ==> !SystemActor(history[i].actor) }

  predicate Closes(history: seq<Move>, reversibility: Reversibility) {
    After(history, reversibility).Some? && IsTerminal(After(history, reversibility).value)
  }

  /** Workers alone can close an effect exactly when it is not declared irreversible: a default command is. */
  lemma WorkersCanCloseIff(reversibility: Reversibility)
    ensures (exists h: seq<Move> :: WorkersOnly(h) && Closes(h, reversibility)) <==> !reversibility.Irreversible?
  {
    if reversibility.Irreversible? {
      forall h: seq<Move> | WorkersOnly(h) ensures !Closes(h, reversibility) {
        if After(h, reversibility).Some? && h != [] && IsTerminal(h[|h| - 1].target) {
          IrreversibleIsClosedBySystem(h, |h| - 1);
        }
      }
    } else {
      var h := [Move("worker", Failed)];
      assert h[..0] == [];
      assert WorkersOnly(h) && Closes(h, reversibility);
    }
  }

  // ---- the journal --------------------------------------------------------------------------

  datatype Kind = Directive | Write | Command | Commit | External

  datatype Effect = Effect(
    id: string, directiveId: string, kind: Kind, resource: string, description: string,
    reversibility: Reversibility, state: State)

  datatype Pause = Proceed | UnresolvedIrreversible | StillOpen

  predicate NeedsWitness(e: Effect) { e.state.Unknown? && !e.reversibility.Reversible? }

  predicate IsOpen(e: Effect) { e.state.Prepared? || e.state.Running? }

  function PauseRequired(records: seq<Effect>): Pause {
    if exists e :: e in records && NeedsWitness(e) then UnresolvedIrreversible
    else if exists e :: e in records && IsOpen(e) then StillOpen
    else Proceed
  }

  /** Every record of the journal is where its recorded history leaves it. */
  ghost predicate Justified(records: seq<Effect>, histories: seq<seq<Move>>) {
    && |records| == |histories|
    && forall i :: 0 <= i < |records| ==> After(histories[i], records[i].reversibility) == Some(records[i].state)
  }

  lemma {:induction false} HistoriesStayInVocabulary(history: seq<Move>, reversibility: Reversibility)
    requires After(history, reversibility).Some?
    ensures !After(history, reversibility).value.Foreign?
    ensures IsTerminal(After(history, reversibility).value) ==>
              history != [] && history[|history| - 1].target == After(history, reversibility).value
  {
    if history == [] {
    } else {
      HistoriesStayInVocabulary(history[..|history| - 1], reversibility);
    }
  }

  /** When nothing pauses, every irreversible effect, in a journal of any size, was last closed by the system,
      and whatever is still unresolved is known to be reversible. */
  lemma ProceedMeansWitnessed(records: seq<Effect>, histories: seq<seq<Move>>, i: nat)
    requires Justified(records, histories) && PauseRequired(records).Proceed? && i < |records|
    ensures IsTerminal(records[i].state) || (records[i].state.Unknown? && records[i].reversibility.Reversible?)
    ensures records[i].reversibility.Irreversible? ==>
              && IsTerminal(records[i].state) && histories[i] != []
              && SystemActor(histories[i][|histories[i]| - 1].actor)
  {
    var e, h := records[i], histories[i];
    assert e in records;
    assert After(h, e.reversibility) == Some(e.state);
    HistoriesStayInVocabulary(h, e.reversibility);
    if e.reversibility.Irreversible? { IrreversibleIsClosedBySystem(h, |h| - 1); }
  }

  // ---- the bridge to the task-state projection ----------------------------------------------

  datatype ProjectionKind = AsDirective | AsWrite | AsExternal

  datatype Unresolved = Unresolved(
    id: string, kind: ProjectionKind, description: string, directiveId: string, paths: seq<string>, state: State)

  function ProjectionKindOf(k: Kind): ProjectionKind {
    match k
    case Directive => AsDirective
    case Write => AsWrite
    case Commit => AsWrite
    case Command => AsExternal
    case External => AsExternal
  }

  function Row(e: Effect): Unresolved {
    Unresolved(e.id, ProjectionKindOf(e.kind), if e.description != "" then e.description else e.resource,
               e.directiveId, if e.resource != "" then [e.resource] else [], e.state)
  }

  function UnresolvedRows(records: seq<Effect>): seq<Unresolved> {
    if records == [] then []
    else
      var front, last := UnresolvedRows(records[..|records| - 1]), records[|records| - 1];
      if IsTerminal(last.state) then front else front + [Row(last)]
  }

  method UnresolvedEffects(records: seq<Effect>) returns (rows: seq<Unresolved>)
    ensures rows == UnresolvedRows(records)
    ensures forall u :: u in rows <==> exists e :: e in records && !IsTerminal(e.state) && Row(e) == u
  {
    rows := [];
    for i := 0 to |records|
      invariant rows == UnresolvedRows(records[..i])
    {
      assert records[..i + 1][..i] == records[..i];
      if !IsTerminal(records[i].state) {
        rows := rows + [Row(records[i])];
      }
    }
    assert records[..|records|] == records;
    forall u ensures u in rows <==> exists e :: e in records && !IsTerminal(e.state) && Row(e) == u {
      RowsAreTheUnresolved(records, u);
    }
  }

  lemma {:induction false} RowsAreTheUnresolved(records: seq<Effect>, u: Unresolved)
    ensures u in UnresolvedRows(records) <==> exists e :: e in records && !IsTerminal(e.state) && Row(e) == u
  {
    if records == [] {
    } else {
      var front, last := records[..|records| - 1], records[|records| - 1];
      assert records == front + [last];
      RowsAreTheUnresolved(front, u);
      if exists e :: e in front && !IsTerminal(e.state) && Row(e) == u {
        var e :| e in front && !IsTerminal(e.state) && Row(e) == u;
        assert e in records;
      }
      assert last in records;
    }
  }

  /** The pause verdict can be read off the emitted rows and each record's reversibility: a row that carried no
      state, or an unknown one left out, would switch the pause off. */
  lemma ProceedIffRowsAreReversibleUnknowns(records: seq<Effect>)
    requires forall e :: e in records ==> !e.state.Foreign?
    ensures PauseRequired(records).Proceed? <==>
              && (forall u :: u in UnresolvedRows(records) ==> u.state.Unknown?)
              && forall e :: e in records && e.state.Unknown? ==> e.reversibility.Reversible?
  {
    forall e | e in records && !IsTerminal(e.state) ensures Row(e) in UnresolvedRows(records) {
      RowsAreTheUnresolved(records, Row(e));
    }
    forall u | u in UnresolvedRows(records)
      ensures exists e :: e in records && !IsTerminal(e.state) && Row(e) == u
    {
      RowsAreTheUnresolved(records, u);
    }
  }
}
