/** Folds of actions on a state: plain ones, ones that stop at the first action that is refused, and repetition. */
module Actions {
  import opened Ordering

  function FoldAll<S, T>(act: (S, T) -> S, s: S, ts: seq<T>): S {
    if ts == [] then s else act(FoldAll(act, s, ts[..|ts| - 1]), ts[|ts| - 1])
  }

  /** `None` from the first refused action on. */
  function ApplyAll<S, T>(act: (S, T) -> Option<S>, s: S, ts: seq<T>): Option<S> {
    if ts == [] then Some(s)
    else
      match ApplyAll(act, s, ts[..|ts| - 1])
      case None => None
      case Some(x) => act(x, ts[|ts| - 1])
  }

  /** The same action, a number of times. */
  function Repeat<S>(act: S -> S, s: S, n: nat): S { if n == 0 then s else Repeat(act, act(s), n - 1) }

  lemma {:induction false} RepeatKeeps<S(!new)>(act: S -> S, inv: S -> bool, s: S, n: nat)
    requires inv(s) && forall x :: inv(x) ==> inv(act(x))
    ensures inv(Repeat(act, s, n))
    decreases n
  {
    if n > 0 { RepeatKeeps(act, inv, act(s), n - 1); }
  }

  lemma FoldOfOne<S, T>(act: (S, T) -> S, s: S, t: T)
    ensures FoldAll(act, s, [t]) == act(s, t)
  {
    assert [t][..0] == [];
  }

  // ---- stored rows --------------------------------------------------------------------------

  datatype StoredRow<T> = StoredRow(id: string, payload: T)

  function Payloads<T>(rows: seq<StoredRow<T>>): (ts: seq<T>)
    ensures |ts| == |rows| && forall i :: 0 <= i < |rows| ==> ts[i] == rows[i].payload
  {
    seq(|rows|, i requires 0 <= i < |rows| => rows[i].payload)
  }

  function Ids<T>(rows: seq<StoredRow<T>>): (ids: seq<string>)
    ensures |ids| == |rows| && forall i :: 0 <= i < |rows| ==> ids[i] == rows[i].id
  {
    seq(|rows|, i requires 0 <= i < |rows| => rows[i].id)
  }

  /** Fold the rows in order and record which were applied; stop at the first that is refused. */
  method FoldRows<S, T>(act: (S, T) -> Option<S>, s: S, rows: seq<StoredRow<T>>)
    returns (result: Option<S>, applied: seq<string>)
    ensures result == ApplyAll(act, s, Payloads(rows))
    ensures result.Some? ==> applied == Ids(rows)
  {
    result, applied := Some(s), [];
    ghost var ts := Payloads(rows);
    for i := 0 to |rows|
      invariant result == ApplyAll(act, s, ts[..i]) && result.Some?
      invariant applied == Ids(rows)[..i]
    {
      assert ts[..i + 1][..i] == ts[..i];
      result := act(result.value, rows[i].payload);
      if result.None? {
        RefusedForGood(act, s, ts, i + 1);
        return;
      }
      applied := applied + [rows[i].id];
    }
    assert ts[..|rows|] == ts && Ids(rows)[..|rows|] == Ids(rows);
  }

  lemma {:induction false} RefusedForGood<S, T>(act: (S, T) -> Option<S>, s: S, ts: seq<T>, i: nat)
    requires i <= |ts| && ApplyAll(act, s, ts[..i]).None?
    ensures ApplyAll(act, s, ts).None?
    decreases |ts| - i
  {
    if i == |ts| {
      assert ts[..i] == ts;
    } else {
      assert ts[..i + 1][..i] == ts[..i];
      RefusedForGood(act, s, ts, i + 1);
    }
  }

  /** Where an action is refused for what it is alone, as long as something stays true of the state, the fold is
      refused exactly when one of its actions is, and is otherwise the plain one. */
  lemma {:induction false} RefusedIff<S(!new), T(!new)>(act: (S, T) -> Option<S>, plain: (S, T) -> S,
                                                        refused: T -> bool, inv: S -> bool, s: S, ts: seq<T>)
    requires inv(s)
    requires forall x, t :: inv(x) ==> act(x, t) == if refused(t) then None else Some(plain(x, t))
    requires forall x, t :: inv(x) ==> inv(plain(x, t))
    ensures ApplyAll(act, s, ts) ==
            if exists t :: t in ts && refused(t) then None else Some(FoldAll(plain, s, ts))
    ensures inv(FoldAll(plain, s, ts))
  {
    if ts == [] {
    } else {
      var front, last := ts[..|ts| - 1], ts[|ts| - 1];
      RefusedIff(act, plain, refused, inv, s, front);
      assert ts == front + [last];
      assert forall t :: t in ts <==> t in front || t == last;
    }
  }

  // ---- order and repetition -----------------------------------------------------------------

  ghost predicate Commute<S(!new), T(!new)>(act: (S, T) -> S) {
    forall s, a, b :: act(act(s, a), b) == act(act(s, b), a)
  }

  ghost predicate Idempotent<S(!new), T(!new)>(act: (S, T) -> S) { forall s, a :: act(act(s, a), a) == act(s, a) }

  lemma {:induction false} FoldPassesThrough<S(!new), T(!new)>(act: (S, T) -> S, s: S, ts: seq<T>, a: T)
    requires Commute(act)
    ensures FoldAll(act, act(s, a), ts) == act(FoldAll(act, s, ts), a)
  {
    if ts == [] {
    } else {
      FoldPassesThrough(act, s, ts[..|ts| - 1], a);
    }
  }

  lemma {:induction false} FoldSwallows<S(!new), T(!new)>(act: (S, T) -> S, s: S, ts: seq<T>, a: T)
    requires Commute(act) && Idempotent(act) && a in ts
    ensures act(FoldAll(act, s, ts), a) == FoldAll(act, s, ts)
  {
    var front, last := ts[..|ts| - 1], ts[|ts| - 1];
    assert ts == front + [last];
    if a != last { FoldSwallows(act, s, front, a); }
  }

  lemma {:induction false} FoldAgain<S(!new), T(!new)>(act: (S, T) -> S, s: S, ts: seq<T>, us: seq<T>)
    requires Commute(act) && Idempotent(act) && forall u :: u in us ==> u in ts
    ensures FoldAll(act, FoldAll(act, s, ts), us) == FoldAll(act, s, ts)
  {
    if us == [] {
    } else {
      var last := us[|us| - 1];
      assert last in us && us == us[..|us| - 1] + [last];
      FoldAgain(act, s, ts, us[..|us| - 1]);
      FoldSwallows(act, s, ts, last);
    }
  }

  lemma {:induction false} FoldsCommute<S(!new), T(!new)>(act: (S, T) -> S, s: S, ts: seq<T>, us: seq<T>)
    requires Commute(act)
    ensures FoldAll(act, FoldAll(act, s, ts), us) == FoldAll(act, FoldAll(act, s, us), ts)
  {
    if ts == [] {
    } else {
      FoldsCommute(act, s, ts[..|ts| - 1], us);
      FoldPassesThrough(act, FoldAll(act, s, ts[..|ts| - 1]), us, ts[|ts| - 1]);
    }
  }

  /** A fold of actions that commute and repeat without effect depends on the set of them. */
  lemma FoldIsOfASet<S(!new), T(!new)>(act: (S, T) -> S, s: S, ts: seq<T>, us: seq<T>)
    requires Commute(act) && Idempotent(act) && forall t :: t in ts <==> t in us
    ensures FoldAll(act, s, ts) == FoldAll(act, s, us)
  {
    FoldAgain(act, s, ts, us);
    FoldAgain(act, s, us, ts);
    FoldsCommute(act, s, ts, us);
  }
}
