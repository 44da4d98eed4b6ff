/** Sorting by a comparison, as `sorted(..., key=...)` does it, and the facts about sorted sequences
    that every other module leans on: a stable sort, and the uniqueness of a sorted arrangement. */
module Ordering {

  datatype Option<+T> = None | Some(value: T) {
    function GetOr(default: T): T {
      match this
      case Some(v) => v
      case None => default
    }
  }

  /** A strict weak order: the shape a comparison of sort keys always has. */
  ghost predicate StrictWeak<T(!new)>(lt: (T, T) -> bool) {
    && (forall a :: !lt(a, a))
    && (forall a, b, c :: lt(a, b) && lt(b, c) ==> lt(a, c))
    && (forall a, b, c :: lt(a, c) ==> lt(a, b) || lt(b, c))
  }

  function Insert<T>(x: T, s: seq<T>, lt: (T, T) -> bool): (r: seq<T>)
    ensures |r| == |s| + 1
  {
    if s == [] then [x]
    else if lt(s[0], x) then [s[0]] + Insert(x, s[1..], lt)
    else [x] + s
  }

  /** The stable sort: an element goes in front of those it ties with that came after it. */
  function Sort<T>(s: seq<T>, lt: (T, T) -> bool): (r: seq<T>)
    ensures |r| == |s|
  {
    if s == [] then [] else Insert(s[0], Sort(s[1..], lt), lt)
  }

  ghost predicate Sorted<T>(s: seq<T>, lt: (T, T) -> bool) {
    forall i, j :: 0 <= i < j < |s| ==> !lt(s[j], s[i])
  }

  ghost predicate StrictlySorted<T>(s: seq<T>, lt: (T, T) -> bool) {
    forall i, j :: 0 <= i < j < |s| ==> lt(s[i], s[j])
  }

  lemma {:induction false} InsertAdds<T(!new)>(x: T, s: seq<T>, lt: (T, T) -> bool)
    ensures multiset(Insert(x, s, lt)) == multiset(s) + multiset{x}
  {
    if s == [] {
    } else if lt(s[0], x) {
      InsertAdds(x, s[1..], lt);
      assert s == [s[0]] + s[1..];
    }
  }

  lemma ConsSorted<T>(x: T, s: seq<T>, lt: (T, T) -> bool)
    requires Sorted(s, lt) && forall j :: 0 <= j < |s| ==> !lt(s[j], x)
    ensures Sorted([x] + s, lt)
  {
  }

  lemma {:induction false} InsertSorts<T(!new)>(x: T, s: seq<T>, lt: (T, T) -> bool)
    requires StrictWeak(lt) && Sorted(s, lt)
    ensures Sorted(Insert(x, s, lt), lt)
  {
    if s == [] {
    } else if lt(s[0], x) {
      var t := Insert(x, s[1..], lt);
      InsertSorts(x, s[1..], lt);
      InsertAdds(x, s[1..], lt);
      forall j | 0 <= j < |t| ensures !lt(t[j], s[0]) {
        assert t[j] in multiset(t);
        assert t[j] == x || t[j] in s[1..];
      }
      ConsSorted(s[0], t, lt);
    } else {
      ConsSorted(x, s, lt);
    }
  }

  lemma InsertKeeps<T(!new)>(x: T, s: seq<T>, lt: (T, T) -> bool)
    requires StrictWeak(lt) && Sorted(s, lt)
    ensures Sorted(Insert(x, s, lt), lt)
    ensures multiset(Insert(x, s, lt)) == multiset(s) + multiset{x}
  {
    InsertSorts(x, s, lt);
    InsertAdds(x, s, lt);
  }

  lemma SortIsSortedPermutation<T(!new)>(s: seq<T>, lt: (T, T) -> bool)
    requires StrictWeak(lt)
    ensures Sorted(Sort(s, lt), lt)
    ensures multiset(Sort(s, lt)) == multiset(s)
  {
    if s != [] {
      SortIsSortedPermutation(s[1..], lt);
      InsertKeeps(s[0], Sort(s[1..], lt), lt);
      assert s == [s[0]] + s[1..];
    }
  }

  lemma SortMembers<T(!new)>(s: seq<T>, lt: (T, T) -> bool)
    requires StrictWeak(lt)
    ensures forall x :: x in Sort(s, lt) <==> x in s
  {
    SortIsSortedPermutation(s, lt);
    forall x ensures x in Sort(s, lt) <==> x in s {
      assert x in Sort(s, lt) <==> x in multiset(Sort(s, lt));
      assert x in s <==> x in multiset(s);
    }
  }

  lemma SameHead<T(!new)>(s: seq<T>, t: seq<T>, lt: (T, T) -> bool)
    requires Sorted(s, lt) && Sorted(t, lt) && s != [] && t != []
    requires (forall a :: !lt(a, a)) && s[0] in t && t[0] in s
    requires forall x, y :: x in s && y in s && !lt(x, y) && !lt(y, x) ==> x == y
    ensures s[0] == t[0]
  {
    assert !lt(t[0], s[0]) && !lt(s[0], t[0]);
  }

  /** Two sorted arrangements of the same elements agree once ties are equalities. */
  lemma {:induction false} SortedUnique<T(!new)>(s: seq<T>, t: seq<T>, lt: (T, T) -> bool)
    requires (forall a :: !lt(a, a)) && Sorted(s, lt) && Sorted(t, lt)
    requires multiset(s) == multiset(t)
    requires forall x, y :: x in s && y in s && !lt(x, y) && !lt(y, x) ==> x == y
    ensures s == t
  {
    SameSize(s, t);
    if s == [] {
    } else {
      assert s[0] in multiset(t) && t[0] in multiset(s);
      SameHead(s, t, lt);
      SameRest(s, t);
      SortedUnique(s[1..], t[1..], lt);
      assert s == [s[0]] + s[1..] && t == [t[0]] + t[1..];
    }
  }

  lemma SameSize<T>(s: seq<T>, t: seq<T>)
    requires multiset(s) == multiset(t)
    ensures |s| == |t|
  {
    assert |s| == |multiset(s)| == |multiset(t)| == |t|;
  }

  lemma SameRest<T(!new)>(s: seq<T>, t: seq<T>)
    requires s != [] && t != [] && s[0] == t[0] && multiset(s) == multiset(t)
    ensures multiset(s[1..]) == multiset(t[1..]) && forall x :: x in s[1..] ==> x in s
  {
    assert s == [s[0]] + s[1..] && t == [t[0]] + t[1..];
    assert multiset(s[1..]) == multiset(s) - multiset{s[0]};
    assert multiset(t[1..]) == multiset(t) - multiset{t[0]};
  }

  /** Sorting forgets the order of its input when no two different elements tie. */
  lemma SortCanonical<T(!new)>(s: seq<T>, t: seq<T>, lt: (T, T) -> bool)
    requires StrictWeak(lt) && multiset(s) == multiset(t)
    requires forall x, y :: x in s && y in s && !lt(x, y) && !lt(y, x) ==> x == y
    ensures Sort(s, lt) == Sort(t, lt)
  {
    SortIsSortedPermutation(s, lt);
    SortIsSortedPermutation(t, lt);
    SortMembers(s, lt);
    SortedUnique(Sort(s, lt), Sort(t, lt), lt);
  }

  lemma TwiceCounts<T>(s: seq<T>, i: nat, j: nat)
    requires i < j < |s| && s[i] == s[j]
    ensures multiset(s)[s[i]] >= 2
  {
    assert s == s[..j] + [s[j]] + s[j + 1..];
    assert s[..j][i] == s[i];
    assert s[i] in multiset(s[..j]);
  }

  /** A strictly sorted sequence is determined by the set of its elements. */
  lemma StrictlySortedUnique<T(!new)>(s: seq<T>, t: seq<T>, lt: (T, T) -> bool)
    requires StrictWeak(lt) && StrictlySorted(s, lt) && StrictlySorted(t, lt)
    requires forall x :: x in s <==> x in t
    ensures s == t
  {
    assert t != [] ==> t[0] in s;
    if s == [] {
    } else {
      assert s[0] in t && t != [];
      assert s[0] == t[0];
      forall x ensures x in s[1..] <==> x in t[1..] {
        if x in s[1..] { assert x in t; assert lt(s[0], x); }
        if x in t[1..] { assert x in s; assert lt(t[0], x); }
      }
      StrictlySortedUnique(s[1..], t[1..], lt);
      assert s == [s[0]] + s[1..] && t == [t[0]] + t[1..];
    }
  }

  function Max(a: int, b: int): int { if a > b then a else b }

  function Min(a: int, b: int): int { if a < b then a else b }

  // ---- filtering ----------------------------------------------------------------------------

  function Select<T>(s: seq<T>, p: T -> bool): seq<T> {
    if s == [] then []
    else Select(s[..|s| - 1], p) + (if p(s[|s| - 1]) then [s[|s| - 1]] else [])
  }

  /** Selecting from a prefix gives a prefix, and the next element chosen comes next. */
  lemma {:induction false} SelectSplits<T>(s: seq<T>, p: T -> bool, i: nat)
    requires i < |s|
    ensures Select(s[..i + 1], p) == Select(s[..i], p) + (if p(s[i]) then [s[i]] else [])
    ensures Select(s[..i + 1], p) <= Select(s, p)
    ensures p(s[i]) ==>
              |Select(s[..i], p)| < |Select(s, p)| && Select(s, p)[|Select(s[..i], p)|] == s[i]
    decreases |s| - i
  {
    assert s[..i + 1][..i] == s[..i];
    if i + 1 == |s| {
      assert s[..i + 1] == s;
    } else {
      SelectSplits(s, p, i + 1);
    }
  }

  lemma SelectOfOne<T>(x: T, p: T -> bool)
    ensures Select([x], p) == if p(x) then [x] else []
  {
    assert [x][..0] == [] && Select([x][..0], p) == [];
  }

  lemma {:induction false} SelectNone<T>(s: seq<T>, p: T -> bool)
    requires forall i :: 0 <= i < |s| ==> !p(s[i])
    ensures Select(s, p) == []
  {
    if s != [] { SelectNone(s[..|s| - 1], p); }
  }

  /** Past a prefix with nothing to choose, the next element chosen comes first. */
  lemma {:induction false} SelectFirst<T>(s: seq<T>, p: T -> bool, i: nat)
    requires i < |s| && p(s[i]) && forall j :: 0 <= j < i ==> !p(s[j])
    ensures Select(s, p) == [s[i]] + Select(s[i + 1..], p)
  {
    var front := s[..|s| - 1];
    if i == |s| - 1 {
      SelectNone(front, p);
      assert s[i + 1..] == [];
    } else {
      var rest := s[i + 1..];
      SelectFirst(front, p, i);
      assert rest[..|rest| - 1] == front[i + 1..] && rest[|rest| - 1] == s[|s| - 1];
    }
  }

  lemma {:induction false} SelectSame<T(!new)>(s: seq<T>, p: T -> bool, q: T -> bool)
    requires forall x :: x in s ==> p(x) == q(x)
    ensures Select(s, p) == Select(s, q)
  {
    if s == [] {
    } else {
      assert s[|s| - 1] in s;
      SelectSame(s[..|s| - 1], p, q);
    }
  }

  lemma {:induction false} SelectMembers<T(!new)>(s: seq<T>, p: T -> bool)
    ensures forall x :: x in Select(s, p) <==> x in s && p(x)
  {
    if s == [] {
    } else {
      SelectMembers(s[..|s| - 1], p);
      assert s == s[..|s| - 1] + [s[|s| - 1]];
    }
  }

  lemma {:induction false} SelectAll<T(!new)>(s: seq<T>, p: T -> bool)
    requires forall x :: x in s ==> p(x)
    ensures Select(s, p) == s
  {
    if s == [] {
    } else {
      assert s[|s| - 1] in s;
      SelectAll(s[..|s| - 1], p);
      assert s == s[..|s| - 1] + [s[|s| - 1]];
    }
  }

  lemma {:induction false} SelectCount<T(!new)>(s: seq<T>, p: T -> bool, x: T)
    ensures multiset(Select(s, p))[x] == if p(x) then multiset(s)[x] else 0
  {
    if s == [] {
    } else {
      SelectCount(s[..|s| - 1], p, x);
      assert s == s[..|s| - 1] + [s[|s| - 1]];
    }
  }

  lemma SelectPermutes<T(!new)>(s: seq<T>, t: seq<T>, p: T -> bool, q: T -> bool)
    requires multiset(s) == multiset(t) && forall x :: x in s ==> p(x) == q(x)
    ensures multiset(Select(s, p)) == multiset(Select(t, q))
  {
    forall x ensures multiset(Select(s, p))[x] == multiset(Select(t, q))[x] {
      SelectCount(s, p, x);
      SelectCount(t, q, x);
      if x in s {
      } else {
        assert x !in multiset(s) && x !in multiset(t);
      }
    }
  }

  // ---- strings ------------------------------------------------------------------------------

  /** String comparison by code point. */
  predicate TextLess(a: string, b: string) {
    if b == [] then false
    else if a == [] then true
    else if a[0] != b[0] then a[0] < b[0]
    else TextLess(a[1..], b[1..])
  }

  lemma {:induction false} TextLessTransitive(a: string, b: string, c: string)
    requires TextLess(a, b) && TextLess(b, c)
    ensures TextLess(a, c)
  {
    if a != [] && b != [] && c != [] && a[0] == b[0] == c[0] {
      TextLessTransitive(a[1..], b[1..], c[1..]);
    }
  }

  lemma TextLessTotal(a: string, b: string)
    ensures a == b || TextLess(a, b) || TextLess(b, a)
  {
    if a != [] && b != [] && a[0] == b[0] {
      TextLessTotal(a[1..], b[1..]);
      assert a == [a[0]] + a[1..] && b == [b[0]] + b[1..];
    }
  }

  lemma TextLessIrreflexive(a: string)
    ensures !TextLess(a, a)
  {
    if a != [] { TextLessIrreflexive(a[1..]); }
  }

  lemma TextLessIsStrictTotal()
    ensures StrictWeak(TextLess)
    ensures forall a, b :: !TextLess(a, b) && !TextLess(b, a) ==> a == b
  {
    forall a ensures !TextLess(a, a) { TextLessIrreflexive(a); }
    forall a, b, c | TextLess(a, b) && TextLess(b, c) ensures TextLess(a, c) { TextLessTransitive(a, b, c); }
    forall a, b | !TextLess(a, b) && !TextLess(b, a) ensures a == b { TextLessTotal(a, b); }
    forall a, b, c | TextLess(a, c) ensures TextLess(a, b) || TextLess(b, c) {
      TextLessTotal(a, b);
      if TextLess(b, a) { TextLessTransitive(b, a, c); }
    }
  }

  function InsertDistinct(x: string, s: seq<string>): seq<string> {
    if s == [] then [x]
    else if s[0] == x then s
    else if TextLess(s[0], x) then [s[0]] + InsertDistinct(x, s[1..])
    else [x] + s
  }

  /** `sorted(set(s))`. */
  function SortDistinct(s: seq<string>): seq<string> {
    if s == [] then [] else InsertDistinct(s[0], SortDistinct(s[1..]))
  }

  lemma {:induction false} InsertDistinctKeeps(x: string, s: seq<string>)
    requires StrictlySorted(s, TextLess)
    ensures StrictlySorted(InsertDistinct(x, s), TextLess)
    ensures forall y :: y in InsertDistinct(x, s) <==> y == x || y in s
  {
    TextLessIsStrictTotal();
    if s == [] || s[0] == x {
    } else if TextLess(s[0], x) {
      InsertDistinctKeeps(x, s[1..]);
      assert s == [s[0]] + s[1..];
      var t := InsertDistinct(x, s[1..]);
      forall j | 0 <= j < |t| ensures TextLess(s[0], t[j]) {
        assert t[j] in t;
        assert t[j] == x || t[j] in s[1..];
      }
    } else {
      assert TextLess(x, s[0]);
      forall j | 0 <= j < |s| ensures TextLess(x, s[j]) {
        assert j == 0 || TextLess(s[0], s[j]);
      }
    }
  }

  lemma {:induction false} SortDistinctKeeps(s: seq<string>)
    ensures StrictlySorted(SortDistinct(s), TextLess)
    ensures forall y :: y in SortDistinct(s) <==> y in s
  {
    if s == [] {
    } else {
      SortDistinctKeeps(s[1..]);
      InsertDistinctKeeps(s[0], SortDistinct(s[1..]));
      assert s == [s[0]] + s[1..];
    }
  }

  lemma SortDistinctCanonical(s: seq<string>, t: seq<string>)
    requires forall y :: y in s <==> y in t
    ensures SortDistinct(s) == SortDistinct(t)
  {
    TextLessIsStrictTotal();
    SortDistinctKeeps(s);
    SortDistinctKeeps(t);
    StrictlySortedUnique(SortDistinct(s), SortDistinct(t), TextLess);
  }

  // ---- sums ---------------------------------------------------------------------------------

  function Sum(w: seq<real>): real {
    if w == [] then 0.0 else w[0] + Sum(w[1..])
  }
}
