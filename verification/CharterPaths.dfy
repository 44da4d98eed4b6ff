/** Repo-relative paths: a string test that has to mean segment containment. */
module CharterPaths {
  import opened Ordering

  // ---- strings ------------------------------------------------------------------------------

  /** White space as `str.strip()` sees it. */
  predicate IsSpace(c: char) {
    || c == ' ' || '\U{0009}' <= c <= '\U{000D}' || '\U{001C}' <= c <= '\U{001F}'
    || c == '\U{0085}' || c == '\U{00A0}' || c == '\U{1680}' || '\U{2000}' <= c <= '\U{200A}'
    || c == '\U{2028}' || c == '\U{2029}' || c == '\U{202F}' || c == '\U{205F}' || c == '\U{3000}'
  }

  function StripLeft(s: string): (r: string)
    ensures |r| <= |s|
  {
    if s != "" && IsSpace(s[0]) then StripLeft(s[1..]) else s
  }

  function StripRight(s: string): (r: string)
    ensures |r| <= |s|
  {
    if s != "" && IsSpace(s[|s| - 1]) then StripRight(s[..|s| - 1]) else s
  }

  function Strip(s: string): (r: string)
    ensures |r| <= |s|
  {
    StripRight(StripLeft(s))
  }

  function ForwardSlashes(s: string): (r: string)
    ensures |r| == |s| && forall i :: 0 <= i < |s| ==> r[i] == if s[i] == '\\' then '/' else s[i]
  {
    seq(|s|, i requires 0 <= i < |s| => if s[i] == '\\' then '/' else s[i])
  }

  /** `s.split("/")`: never empty. */
  function Split(s: string): (r: seq<string>)
    ensures r != []
  {
    if s == "" then [""]
    else
      var rest := Split(s[1..]);
      if s[0] == '/' then [""] + rest else [[s[0]] + rest[0]] + rest[1..]
  }

  function Join(parts: seq<string>): string {
    if parts == [] then "" else if |parts| == 1 then parts[0] else parts[0] + "/" + Join(parts[1..])
  }

  predicate StartsWith(s: string, p: string) { |p| <= |s| && s[..|p|] == p }

  // ---- normalisation ------------------------------------------------------------------------

  /** The chunks that name something, or `None` when one of them climbs. */
  function Clean(chunks: seq<string>): Option<seq<string>> {
    if chunks == [] then Some([])
    else if chunks[0] == "" || chunks[0] == "." then Clean(chunks[1..])
    else if chunks[0] == ".." then None
    else
      match Clean(chunks[1..])
      case None => None
      case Some(rest) => Some([chunks[0]] + rest)
  }

  /** The segments of a path, or none at all for a path that is absolute, home-relative, climbing or empty. */
  function Segments(path: string): seq<string> {
    var raw := ForwardSlashes(Strip(path));
    if raw == "" || raw[0] == '/' || raw[0] == '~' then [] else Clean(Split(raw)).GetOr([])
  }

  function NormRel(path: string): string { Join(Segments(path)) }

  method NormaliseRelative(path: string) returns (r: string)
    ensures r == NormRel(path)
  {
    var raw := ForwardSlashes(Strip(path));
    if raw == "" || raw[0] == '/' || raw[0] == '~' {
      return "";
    }
    var parts: seq<string> := [];
    var chunks := Split(raw);
    assert chunks[0..] == chunks;
    assert forall rest: seq<string> :: parts + rest == rest;
    for i := 0 to |chunks|
      invariant Clean(chunks) == match Clean(chunks[i..]) case None => None case Some(rest) => Some(parts + rest)
    {
      var chunk := chunks[i];
      assert chunks[i..] == [chunk] + chunks[i + 1..];
      if chunk == "" || chunk == "." {
        continue;
      }
      if chunk == ".." {
        return "";
      }
      assert forall rest: seq<string> :: parts + ([chunk] + rest) == (parts + [chunk]) + rest;
      parts := parts + [chunk];
    }
    assert parts + [] == parts;
    r := Join(parts);
  }

  predicate RootToken(prefix: string) { Strip(prefix) == "." || Strip(prefix) == "./" || Strip(prefix) == "" }

  /** The string test. */
  predicate Under(path: string, prefix: string) {
    var p, q := NormRel(path), NormRel(prefix);
    if p == "" then false
    else if q == "" then RootToken(prefix)
    else p == q || StartsWith(p, q + "/")
  }

  // ---- segments -----------------------------------------------------------------------------

  predicate Plain(segment: string) { segment != "" && '/' !in segment }

  predicate Names(segment: string) { segment != "." && segment != ".." }

  predicate AllName(parts: seq<string>) { forall x :: x in parts ==> Names(x) }

  predicate AllPlain(parts: seq<string>) { forall x :: x in parts ==> Plain(x) }

  /** Every segment closed by a slash. */
  function Closed(parts: seq<string>): string {
    if parts == [] then "" else parts[0] + "/" + Closed(parts[1..])
  }

  lemma {:induction false} ClosedIsJoin(parts: seq<string>)
    requires parts != []
    ensures Closed(parts) == Join(parts) + "/"
  {
    if |parts| == 1 {
      assert Closed(parts[1..]) == "";
    } else {
      ClosedIsJoin(parts[1..]);
    }
  }

  /** The first slash of each of two strings ends the same segment when one starts with the other. */
  lemma FirstSegmentAgrees(x: string, u: string, y: string, v: string)
    requires '/' !in x && '/' !in y
    ensures StartsWith(x + "/" + u, y + "/" + v) <==> x == y && StartsWith(u, v)
  {
    var s, p := x + "/" + u, y + "/" + v;
    assert forall i :: 0 <= i < |x| ==> s[i] == x[i] && x[i] != '/';
    assert forall i :: 0 <= i < |y| ==> p[i] == y[i] && y[i] != '/';
    assert s[|x|] == '/' && p[|y|] == '/';
    if StartsWith(s, p) {
      assert forall i :: 0 <= i < |p| ==> s[i] == s[..|p|][i] == p[i];
      assert s[|y|] == p[|y|];
      assert |x| < |p| ==> s[|x|] == p[|x|];
      assert |x| == |y|;
      assert x == s[..|x|] == p[..|x|] == y;
      assert u[..|v|] == s[|x| + 1..|p|] == p[|x| + 1..] == v;
    }
    if x == y && StartsWith(u, v) {
      assert s[..|p|] == x + "/" + u[..|v|];
    }
  }

  lemma {:induction false} ClosedPrefix(ps: seq<string>, qs: seq<string>)
    requires AllPlain(ps) && AllPlain(qs)
    ensures StartsWith(Closed(ps), Closed(qs)) <==> qs <= ps
  {
    if qs == [] {
    } else if ps == [] {
    } else {
      assert ps == [ps[0]] + ps[1..] && qs == [qs[0]] + qs[1..];
      assert ps[0] in ps && qs[0] in qs;
      FirstSegmentAgrees(ps[0], Closed(ps[1..]), qs[0], Closed(qs[1..]));
      ClosedPrefix(ps[1..], qs[1..]);
    }
  }

  lemma JoinPrefix(ps: seq<string>, qs: seq<string>)
    requires AllPlain(ps) && AllPlain(qs) && ps != [] && qs != []
    ensures Join(ps) == Join(qs) || StartsWith(Join(ps), Join(qs) + "/") <==> qs <= ps
  {
    ClosedIsJoin(ps);
    ClosedIsJoin(qs);
    ClosedPrefix(ps, qs);
    var s, p := Join(ps), Join(qs) + "/";
    if StartsWith(s, p) { assert (s + "/")[..|p|] == s[..|p|]; }
    if StartsWith(s + "/", p) {
      if |p| <= |s| {
        assert (s + "/")[..|p|] == s[..|p|];
      } else {
        assert (s + "/")[..|p|] == s + "/";
        assert s == (s + "/")[..|s|] && Join(qs) == p[..|s|];
      }
    }
    if s == Join(qs) { assert (s + "/")[..|p|] == p; }
  }

  lemma {:induction false} SplitIsSlashFree(s: string)
    ensures forall x :: x in Split(s) ==> '/' !in x
  {
    if s == "" {
    } else {
      SplitIsSlashFree(s[1..]);
    }
  }

  lemma {:induction false} CleanIsPlain(chunks: seq<string>)
    requires forall x :: x in chunks ==> '/' !in x
    ensures Clean(chunks).Some? ==>
              AllPlain(Clean(chunks).value) && AllName(Clean(chunks).value)
  {
    if chunks == [] {
    } else {
      CleanIsPlain(chunks[1..]);
    }
  }

  lemma SegmentsArePlain(path: string)
    ensures AllPlain(Segments(path))
    ensures AllName(Segments(path))
    ensures NormRel(path) == "" <==> Segments(path) == []
  {
    SplitIsSlashFree(ForwardSlashes(Strip(path)));
    CleanIsPlain(Split(ForwardSlashes(Strip(path))));
    if Segments(path) != [] { assert Segments(path)[0] in Segments(path); }
  }

  /** The refinement: the string test holds exactly when the prefix's segments begin the path's. */
  lemma UnderIsSegmentPrefix(path: string, prefix: string)
    ensures Under(path, prefix) <==>
              && Segments(path) != []
              && if Segments(prefix) == [] then RootToken(prefix) else Segments(prefix) <= Segments(path)
  {
    SegmentsArePlain(path);
    SegmentsArePlain(prefix);
    if Segments(path) != [] && Segments(prefix) != [] {
      JoinPrefix(Segments(path), Segments(prefix));
    }
  }

  lemma JoinIsLong(parts: seq<string>)
    requires AllPlain(parts) && |parts| >= 2
    ensures |Join(parts)| >= 3
  {
    assert parts[0] in parts && parts[1] in parts;
    assert parts[1..][0] == parts[1];
    assert Join(parts[1..]) != "";
  }

  /** A normal form never spells the whole tree. */
  lemma NormRelIsNoRootToken(path: string)
    ensures NormRel(path) != "" ==> NormRel(path) != "." && NormRel(path) != "./"
  {
    SegmentsArePlain(path);
    var parts := Segments(path);
    if |parts| == 1 {
      assert parts[0] in parts;
      assert '/' in "./" by { assert "./"[1] == '/'; }
    } else if |parts| >= 2 {
      JoinIsLong(parts);
    }
  }

  lemma UnderIsReflexive(path: string)
    ensures Under(path, path) <==> Segments(path) != []
  {
    UnderIsSegmentPrefix(path, path);
  }

  lemma UnderIsTransitive(a: string, b: string, c: string)
    requires Under(a, b) && Under(b, c)
    ensures Under(a, c)
  {
    UnderIsSegmentPrefix(a, b);
    UnderIsSegmentPrefix(b, c);
    UnderIsSegmentPrefix(a, c);
  }

  predicate NamesNothing(chunks: seq<string>) { forall chunk :: chunk in chunks ==> chunk == "" || chunk == "." }

  /** Blank, absolute, home-relative, climbing at any point, or made of dots and slashes only. */
  predicate Escapes(path: string) {
    var raw := ForwardSlashes(Strip(path));
    || raw == "" || raw[0] == '/' || raw[0] == '~' || ".." in Split(raw)
    || NamesNothing(Split(raw))
  }

  /** A path is under something exactly when it stays inside the tree and names something there. */
  lemma EscapingPathIsUnderNothing(path: string)
    ensures Escapes(path) <==> forall prefix :: !Under(path, prefix)
  {
    var raw := ForwardSlashes(Strip(path));
    CleanIs(Split(raw));
    assert Escapes(path) <==> Segments(path) == [];
    UnderIsReflexive(path);
    forall prefix ensures Segments(path) == [] ==> !Under(path, prefix) { UnderIsSegmentPrefix(path, prefix); }
  }

  lemma {:induction false} CleanIs(chunks: seq<string>)
    ensures Clean(chunks).None? <==> ".." in chunks
    ensures Clean(chunks) == Some([]) <==> NamesNothing(chunks)
  {
    if chunks == [] {
    } else {
      assert chunks == [chunks[0]] + chunks[1..];
      CleanIs(chunks[1..]);
      assert chunks[0] in chunks && forall chunk :: chunk in chunks[1..] ==> chunk in chunks;
      assert forall chunk :: chunk in chunks ==> chunk == chunks[0] || chunk in chunks[1..];
      assert NamesNothing(chunks) <==> (chunks[0] == "" || chunks[0] == ".") && NamesNothing(chunks[1..]);
    }
  }

  // ---- normalising twice --------------------------------------------------------------------

  lemma {:induction false} SplitOfJoin(parts: seq<string>)
    requires parts != [] && AllPlain(parts)
    ensures Split(Join(parts)) == parts
  {
    var x := parts[0];
    assert x in parts;
    if |parts| == 1 {
      SplitOfPlain(x, "");
      assert x + "" == x;
    } else {
      SplitOfJoin(parts[1..]);
      SplitAfter(x, Join(parts[1..]));
      assert parts == [x] + parts[1..];
    }
  }

  lemma SplitAfter(x: string, rest: string)
    requires '/' !in x
    ensures Split(x + "/" + rest) == [x] + Split(rest)
  {
    SplitOfPlain(x, "/" + rest);
    assert ("/" + rest)[1..] == rest;
    assert x + "" == x;
    assert x + "/" + rest == x + ("/" + rest);
  }

  lemma {:induction false} SplitOfPlain(x: string, rest: string)
    requires '/' !in x
    ensures Split(x + rest) == [x + Split(rest)[0]] + Split(rest)[1..]
  {
    if x == "" {
      assert x + rest == rest && x + Split(rest)[0] == Split(rest)[0];
      assert Split(rest) == [Split(rest)[0]] + Split(rest)[1..];
    } else {
      assert (x + rest)[1..] == x[1..] + rest;
      SplitOfPlain(x[1..], rest);
      assert [x[0]] + (x[1..] + Split(rest)[0]) == x + Split(rest)[0];
    }
  }

  lemma {:induction false} CleanOfClean(parts: seq<string>)
    requires AllPlain(parts) && AllName(parts)
    ensures Clean(parts) == Some(parts)
  {
    if parts == [] {
    } else {
      assert parts == [parts[0]] + parts[1..];
      assert Names(parts[0]) && Plain(parts[0]);
      CleanOfClean(parts[1..]);
    }
  }

  lemma {:induction false} ClosedSplit(s: string)
    ensures Closed(Split(s)) == s + "/"
  {
    if s == "" {
      assert Closed([""][1..]) == "";
    } else {
      var rest := Split(s[1..]);
      ClosedSplit(s[1..]);
      assert s == [s[0]] + s[1..];
      assert rest == [rest[0]] + rest[1..];
      if s[0] == '/' {
        assert ([""] + rest)[1..] == rest;
      } else {
        var r := [[s[0]] + rest[0]] + rest[1..];
        assert r[1..] == rest[1..];
        assert Closed(r) == [s[0]] + (rest[0] + "/" + Closed(rest[1..]));
      }
    }
  }

  lemma {:induction false} CleanShrinks(chunks: seq<string>)
    requires Clean(chunks).Some?
    ensures |Closed(Clean(chunks).value)| <= |Closed(chunks)|
  {
    if chunks == [] {
    } else {
      CleanShrinks(chunks[1..]);
      if chunks[0] != "" && chunks[0] != "." {
        var rest := Clean(chunks[1..]).value;
        assert ([chunks[0]] + rest)[1..] == rest;
      }
    }
  }

  lemma NormRelShrinks(path: string)
    ensures |NormRel(path)| <= |Strip(path)|
  {
    var raw := ForwardSlashes(Strip(path));
    if Segments(path) != [] {
      ClosedSplit(raw);
      CleanShrinks(Split(raw));
      ClosedIsJoin(Segments(path));
    }
  }

  lemma {:induction false} JoinHasOnly(parts: seq<string>, c: char)
    requires c in Join(parts) && c != '/'
    ensures exists x :: x in parts && c in x
  {
    if |parts| == 1 {
      assert parts[0] in parts;
    } else if c in parts[0] {
      assert parts[0] in parts;
    } else {
      JoinHasOnly(parts[1..], c);
      var x :| x in parts[1..] && c in x;
      assert x in parts;
    }
  }

  lemma {:induction false} SplitHasOnly(s: string, x: string, c: char)
    requires x in Split(s) && c in x
    ensures c in s
  {
    if s == "" {
    } else {
      var rest := Split(s[1..]);
      if x in rest {
        SplitHasOnly(s[1..], x, c);
      } else if s[0] != '/' && c in rest[0] {
        SplitHasOnly(s[1..], rest[0], c);
      }
    }
  }

  lemma {:induction false} CleanSelects(chunks: seq<string>)
    requires Clean(chunks).Some?
    ensures forall x :: x in Clean(chunks).value ==> x in chunks
  {
    if chunks == [] {
    } else {
      CleanSelects(chunks[1..]);
    }
  }

  lemma NormRelHasNoBackslash(path: string)
    ensures '\\' !in NormRel(path)
  {
    var raw := ForwardSlashes(Strip(path));
    if '\\' in NormRel(path) {
      JoinHasOnly(Segments(path), '\\');
      var x :| x in Segments(path) && '\\' in x;
      CleanSelects(Split(raw));
      SplitHasOnly(raw, x, '\\');
      assert false;
    }
  }

  /** Normalising twice is normalising once exactly when the first result neither starts a home path nor has
      white space at an end; "./~x" normalises to "~x", and that to nothing. */
  lemma NormRelIdempotentIff(path: string)
    ensures var r := NormRel(path);
            NormRel(r) == r <==> r == "" || (r[0] != '~' && Strip(r) == r)
  {
    var r, ps := NormRel(path), Segments(path);
    SegmentsArePlain(path);
    if r == "" {
      assert Strip("") == "";
    } else if Strip(r) != r {
      NormRelShrinks(r);
      StripIsPrefixFree(r);
    } else {
      NormRelHasNoBackslash(path);
      assert ForwardSlashes(r) == r;
      assert ps[0] in ps;
      assert r[0] == ps[0][0] && ps[0][0] in ps[0];
      SplitOfJoin(ps);
      CleanOfClean(ps);
    }
  }

  /** A name in the tree that looks like a home path is kept once and lost the second time. */
  lemma HomeLookIsLost(name: string)
    requires Plain(name) && name[0] == '~' && '\\' !in name && !IsSpace(name[|name| - 1])
    ensures NormRel("./" + name) == name && NormRel(name) == ""
  {
    var path := "./" + name;
    assert path[0] == '.' && path[|path| - 1] == name[|name| - 1];
    StripKeeps(path);
    StripKeeps(name);
    DottedSplit(path, name);
    DotIsDropped(Split(path), name);
    SegmentsAre(path, [name]);
    assert ForwardSlashes(name)[0] == '~';
  }

  lemma StripKeeps(s: string)
    requires s != "" ==> !IsSpace(s[0]) && !IsSpace(s[|s| - 1])
    ensures Strip(s) == s
  {
  }

  lemma SegmentsAre(path: string, parts: seq<string>)
    requires Strip(path) == path && '\\' !in path && path != "" && path[0] != '/' && path[0] != '~'
    requires Clean(Split(path)) == Some(parts)
    ensures Segments(path) == parts
  {
    assert ForwardSlashes(path) == path;
  }

  lemma DottedSplit(path: string, name: string)
    requires path == "./" + name && '/' !in name
    ensures Split(path) == ["."] + [name]
  {
    assert path == "." + "/" + name;
    SplitAfter(".", name);
    SplitOfName(name);
  }

  lemma SplitOfName(name: string)
    requires '/' !in name
    ensures Split(name) == [name]
  {
    SplitOfPlain(name, "");
    assert name + "" == name && Split("") == [""];
  }

  lemma DotIsDropped(chunks: seq<string>, name: string)
    requires chunks == ["."] + [name] && name != "" && Names(name)
    ensures Clean(chunks) == Some([name])
  {
    assert chunks[1..] == [name] && chunks[0] == "." && Clean([name][1..]) == Some([]);
    assert Clean(chunks) == Clean(chunks[1..]);
    assert Clean([name]) == Some([name] + []) && [name] + [] == [name];
  }

  lemma StripIsPrefixFree(s: string)
    requires Strip(s) != s
    ensures |Strip(s)| < |s|
  {
    if |StripLeft(s)| == |s| {
      StripLeftKeeps(s);
      StripRightKeeps(s);
    }
  }

  lemma StripLeftKeeps(s: string)
    ensures |StripLeft(s)| == |s| ==> StripLeft(s) == s
  {
  }

  lemma StripRightKeeps(s: string)
    ensures |StripRight(s)| == |s| ==> StripRight(s) == s
  {
  }
}
