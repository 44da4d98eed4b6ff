/** The permit endpoint: risk read off the words of a request, and the sensitivity question put to the charter when
    there is one and to a list of tokens when there is none. */
module PermitEndpoint {
  import opened Ordering
  import opened CharterPaths
  import opened Authority = Charter

  // ---- words --------------------------------------------------------------------------------

  predicate Contains(text: string, term: string) { exists i :: 0 <= i <= |text| && StartsWith(text[i..], term) }

  predicate Mentions(text: string, terms: seq<string>) { exists term :: term in terms && Contains(text, term) }

  const LEGACY_SENSITIVE_TOKENS: seq<string> := ["services/tce_mcp", "infra/", "secrets", ".env"]
  const CRITICAL_TERMS: seq<string> := [
    "rm -rf", "drop table", "truncate ", "delete all", "reset --hard", "force push", "production deploy",
    "rotate key", "secret", "credential"]
  const HIGH_TERMS: seq<string> := ["delete ", "rename ", "migrate", "schema", "infra", "deploy", "rollback"]
  const DESTRUCTIVE: set<string> := {"delete", "drop", "truncate", "erase", "wipe", "destroy", "purge", "nuke"}
  const OBJECTS: set<string> := {"database", "db", "prod", "production", "cluster", "bucket", "table", "tables"}
  const NEGATIONS: set<string> := {"not", "never", "dont", "don't", "without", "avoid"}

  /** White space, slashes and hyphens all separate words. */
  function Separated(text: string): string {
    seq(|text|, i requires 0 <= i < |text| => if text[i] == '-' || IsSpace(text[i]) then '/' else text[i])
  }

  function Tokens(text: string): seq<string> { Select(Split(Separated(text)), (word: string) => word != "") }

  /** A destructive word that no negation precedes within three. */
  predicate Unguarded(tokens: seq<string>, i: nat)
    requires i < |tokens|
  {
    tokens[i] in DESTRUCTIVE && forall p :: 0 <= p < i && i - 3 <= p ==> tokens[p] !in NEGATIONS
  }

  predicate ActionObject(tokens: seq<string>) {
    (exists word :: word in tokens && word in OBJECTS) && exists i :: 0 <= i < |tokens| && Unguarded(tokens, i)
  }

  method ContainsActionObject(tokens: seq<string>) returns (found: bool)
    ensures found == ActionObject(tokens)
  {
    if !(exists word :: word in tokens && word in DESTRUCTIVE) {
      return false;
    }
    if !(exists word :: word in tokens && word in OBJECTS) {
      return false;
    }
    for i := 0 to |tokens|
      invariant forall j :: 0 <= j < i ==> !Unguarded(tokens, j)
    {
      if tokens[i] !in DESTRUCTIVE {
        continue;
      }
      if exists p :: 0 <= p < i && i - 3 <= p && tokens[p] in NEGATIONS {
        continue;
      }
      assert Unguarded(tokens, i);
      return true;
    }
    return false;
  }

  // ---- the endpoint -------------------------------------------------------------------------

  datatype Body = Body(actionKind: string, paths: seq<string>, command: string, changeSize: int)

  datatype Caller = Caller(profile: Profile, advisorRole: bool)

  function Spaced(parts: seq<string>): string {
    if parts == [] then "" else if |parts| == 1 then parts[0] else parts[0] + " " + Spaced(parts[1..])
  }

  function Lowered(paths: seq<string>, lower: string -> string): seq<string> {
    seq(|paths|, i requires 0 <= i < |paths| => lower(paths[i]))
  }

  /** Everything the risk is read from; `lower` is the lower-casing of the language. */
  function Text(b: Body, lower: string -> string): string {
    Spaced([lower(Strip(b.actionKind)), lower(Strip(b.command)), Spaced(Lowered(b.paths, lower))])
  }

  function RiskOf(text: string, changeSize: int): Risk {
    if ActionObject(Tokens(text)) then Critical
    else if Mentions(text, CRITICAL_TERMS) then Critical
    else if Mentions(text, HIGH_TERMS) then High
    else if changeSize >= 100 then High
    else if changeSize >= 25 then Medium
    else Low
  }

  function RequestOf(b: Body, caller: Caller, lower: string -> string): Request {
    Request(caller.profile, RiskOf(Text(b, lower), b.changeSize), b.changeSize, caller.advisorRole,
            lower(Strip(b.actionKind)), b.paths)
  }

  predicate LegacyHit(paths: seq<string>, lower: string -> string) {
    exists p :: p in paths && Mentions(lower(p), LEGACY_SENSITIVE_TOKENS)
  }

  function Issue(b: Body, caller: Caller, charter: Option<Charter>, lower: string -> string): Decision {
    var hit := match charter case None => LegacyHit(b.paths, lower) case Some(c) => SensitiveHit(c, b.paths);
    Permit(RequestOf(b, caller, lower), hit, charter)
  }

  // ---- what it allows -----------------------------------------------------------------------

  /** The words and the size of the request leave the ladder nothing to stop. */
  predicate Harmless(b: Body, lower: string -> string) {
    var text := Text(b, lower);
    !ActionObject(Tokens(text)) && !Mentions(text, CRITICAL_TERMS) && !Mentions(text, HIGH_TERMS)
    && b.changeSize < 100
  }

  /** Without a charter: only the aggressive profile gets 25 or more changes through, and below that the profile makes
      no difference. The ladder's own bounds of 20 and 30 decide nothing, as the tier has decided by then. */
  lemma AllowedIff(b: Body, caller: Caller, lower: string -> string)
    ensures Issue(b, caller, None, lower).Allow? <==>
            && !caller.advisorRole && !LegacyHit(b.paths, lower) && Harmless(b, lower)
            && (b.changeSize < 25 || caller.profile.HumanAggressive?)
  {
  }

  /** With one: the same bounds, on the ground that the charter covers. So at no endpoint do 20 and 30 decide. */
  lemma AllowedUnderCharterIff(b: Body, caller: Caller, c: Charter, lower: string -> string)
    ensures var capability := CapabilityFor(lower(Strip(b.actionKind)));
            Issue(b, caller, Some(c), lower).Allow? <==>
            && !caller.advisorRole && !SensitiveHit(c, b.paths) && Harmless(b, lower)
            && (b.changeSize < 25 || caller.profile.HumanAggressive?)
            && c.AllowsCapability(capability) && capability !in c.confirmRequired
  {
    LadderAllowsIff(b, caller, lower);
    PermitAllowsIff(RequestOf(b, caller, lower), c);
  }

  lemma PermitAllowsIff(r: Request, c: Charter)
    ensures Permit(r, SensitiveHit(c, r.paths), Some(c)).Allow? <==>
            && BaseLadder(r, false).Allow? && !SensitiveHit(c, r.paths)
            && c.AllowsCapability(CapabilityFor(r.actionKind)) && CapabilityFor(r.actionKind) !in c.confirmRequired
  {
  }

  /** Further narrowings keep the endpoint's answer at least as strict. */
  lemma NarrowedNeverLoosens(b: Body, caller: Caller, c: Charter, ns: seq<Narrowing>, lower: string -> string)
    requires NarrowAll(c, ns).Some?
    ensures Issue(b, caller, NarrowAll(c, ns), lower).Strictness() >= Issue(b, caller, Some(c), lower).Strictness()
  {
    PermitsNeverLoosen(RequestOf(b, caller, lower), c, ns, false);
  }

  // ---- when a charter loosens ---------------------------------------------------------------

  lemma PrefixContains(text: string, tail: string, term: string)
    requires Contains(text, term)
    ensures Contains(text + tail, term)
  {
    var i :| 0 <= i <= |text| && StartsWith(text[i..], term);
    assert (text + tail)[i..] == text[i..] + tail;
  }

  lemma SuffixContains(head: string, text: string, term: string)
    requires Contains(text, term)
    ensures Contains(head + text, term)
  {
    var i :| 0 <= i <= |text| && StartsWith(text[i..], term);
    assert (head + text)[|head| + i..] == text[i..];
  }

  lemma {:induction false} SpacedContains(parts: seq<string>, i: nat, term: string)
    requires i < |parts| && Contains(parts[i], term)
    ensures Contains(Spaced(parts), term)
  {
    if |parts| == 1 {
    } else if i == 0 {
      PrefixContains(parts[0], " " + Spaced(parts[1..]), term);
      assert Spaced(parts) == parts[0] + (" " + Spaced(parts[1..]));
    } else {
      SpacedContains(parts[1..], i - 1, term);
      SuffixContains(parts[0] + " ", Spaced(parts[1..]), term);
    }
  }

  /** A term that begins a token is contained wherever the token is. */
  lemma TermOfToken(text: string, token: string, term: string)
    requires Contains(text, token) && StartsWith(token, term)
    ensures Contains(text, term)
  {
    var i :| 0 <= i <= |text| && StartsWith(text[i..], token);
    assert text[i..][..|term|] == token[..|term|];
  }

  /** What a path contains, the text that the risk is read from contains. */
  lemma PathIsRead(b: Body, p: string, term: string, lower: string -> string)
    requires p in b.paths && Contains(lower(p), term)
    ensures Contains(Text(b, lower), term)
  {
    var i :| 0 <= i < |b.paths| && b.paths[i] == p;
    SpacedContains(Lowered(b.paths, lower), i, term);
    SpacedContains([lower(Strip(b.actionKind)), lower(Strip(b.command)), Spaced(Lowered(b.paths, lower))], 2, term);
  }

  /** Two of the four legacy tokens are also risk terms, so a request they hit is not allowed under any charter. */
  lemma TwoTokensAreRisks(b: Body, p: string, lower: string -> string)
    requires p in b.paths && (Contains(lower(p), "infra/") || Contains(lower(p), "secrets"))
    ensures !Harmless(b, lower)
  {
    if Contains(lower(p), "infra/") {
      TermOfToken(lower(p), "infra/", "infra");
      PathIsRead(b, p, "infra", lower);
      assert HIGH_TERMS[4] == "infra";
    } else {
      TermOfToken(lower(p), "secrets", "secret");
      PathIsRead(b, p, "secret", lower);
      assert CRITICAL_TERMS[8] == "secret";
    }
  }

  /** A path that only the legacy list finds sensitive: neither token is among the risk terms. */
  predicate OnlyLegacyToken(paths: seq<string>, lower: string -> string) {
    exists p :: p in paths && (Contains(lower(p), "services/tce_mcp") || Contains(lower(p), ".env"))
  }

  lemma LegacyTokens(text: string)
    ensures Mentions(text, LEGACY_SENSITIVE_TOKENS) <==>
            || Contains(text, "services/tce_mcp") || Contains(text, ".env")
            || Contains(text, "infra/") || Contains(text, "secrets")
  {
    var tokens := LEGACY_SENSITIVE_TOKENS;
    assert tokens[0] in tokens && tokens[1] in tokens && tokens[2] in tokens && tokens[3] in tokens;
  }

  lemma LegacyHitIs(b: Body, lower: string -> string)
    ensures Harmless(b, lower) ==> (LegacyHit(b.paths, lower) <==> OnlyLegacyToken(b.paths, lower))
  {
    forall p | p in b.paths && Harmless(b, lower)
      ensures Mentions(lower(p), LEGACY_SENSITIVE_TOKENS) <==>
              Contains(lower(p), "services/tce_mcp") || Contains(lower(p), ".env")
    {
      LegacyTokens(lower(p));
      if Contains(lower(p), "infra/") || Contains(lower(p), "secrets") { TwoTokensAreRisks(b, p, lower); }
    }
  }

  /** Having a charter loosens the endpoint's answer exactly when one of the two tokens that are not also risk terms
      was all that asked for confirmation, and the charter covers the request without confirmation. */
  lemma IssueLoosensIff(b: Body, caller: Caller, c: Charter, lower: string -> string)
    ensures var capability := CapabilityFor(lower(Strip(b.actionKind)));
            Issue(b, caller, Some(c), lower).Strictness() < Issue(b, caller, None, lower).Strictness() <==>
            && OnlyLegacyToken(b.paths, lower) && !SensitiveHit(c, b.paths)
            && c.AllowsCapability(capability) && capability !in c.confirmRequired
            && !caller.advisorRole && Harmless(b, lower)
            && (b.changeSize < 25 || caller.profile.HumanAggressive?)
  {
    LegacyHitIs(b, lower);
    LadderAllowsIff(b, caller, lower);
    PermitLoosensIff(RequestOf(b, caller, lower), LegacyHit(b.paths, lower), c);
  }

  lemma LadderAllowsIff(b: Body, caller: Caller, lower: string -> string)
    ensures BaseLadder(RequestOf(b, caller, lower), false).Allow? <==>
            !caller.advisorRole && Harmless(b, lower) && (b.changeSize < 25 || caller.profile.HumanAggressive?)
  {
  }

  /** The same of the ladder alone, whatever the two sensitivity answers come from. */
  lemma PermitLoosensIff(r: Request, legacyHit: bool, c: Charter)
    ensures Permit(r, SensitiveHit(c, r.paths), Some(c)).Strictness() < Permit(r, legacyHit, None).Strictness() <==>
            && legacyHit && !SensitiveHit(c, r.paths)
            && c.AllowsCapability(CapabilityFor(r.actionKind))
            && CapabilityFor(r.actionKind) !in c.confirmRequired
            && BaseLadder(r, false).Allow?
  {
  }

  // ---- such a request -----------------------------------------------------------------------

  /** A contained term brings its letters. */
  lemma LettersOf(text: string, term: string, c: char)
    requires Contains(text, term) && c in term
    ensures c in text
  {
    var i :| 0 <= i <= |text| && StartsWith(text[i..], term);
    var k :| 0 <= k < |term| && term[k] == c;
    assert text[i + k] == text[i..][..|term|][k];
  }

  lemma LettersOfTokens(text: string, word: string, c: char)
    requires word in Tokens(text) && c in word && c != '/'
    ensures c in text
  {
    SelectMembers(Split(Separated(text)), (word: string) => word != "");
    SplitHasOnly(Separated(text), word, c);
    var i :| 0 <= i < |text| && Separated(text)[i] == c;
    assert text[i] == c;
  }

  /** A one-segment path, closed by a slash or not, normalises to itself. */
  lemma OneSegment(path: string, tail: string)
    requires Plain(path) && Names(path) && path[0] != '~' && (tail == "" || tail == "/")
    requires Strip(path + tail) == path + tail && '\\' !in path
    ensures Segments(path + tail) == [path]
  {
    var raw := path + tail;
    assert ForwardSlashes(raw) == raw && raw[0] == path[0];
    SplitOfPlain(path, tail);
    assert path + "" == path;
    if tail == "" {
      assert Split(raw) == [path];
      assert Clean([path][1..]) == Some([]);
    } else {
      assert "/"[1..] == "";
      assert Split(raw) == [path, ""];
      assert [path, ""][1..] == [""] && Clean([""][1..]) == Some([]);
      assert Clean([""]) == Some([]);
    }
  }

  /** Words written with none of these four letters are no terms of risk: every term has one of them. */
  lemma TermLetters(term: string)
    requires term in CRITICAL_TERMS || term in HIGH_TERMS || term in OBJECTS
    ensures 'r' in term || 'l' in term || 's' in term || 'b' in term
  {
    assert "rm -rf"[0] == "drop table"[1] == "truncate "[1] == "reset --hard"[0] == "force push"[2] == 'r';
    assert "production deploy"[1] == "rotate key"[0] == "credential"[1] == 'r' && "secret"[0] == 's';
    assert "delete all"[2] == "delete "[2] == "deploy"[3] == 'l' && "schema"[0] == 's';
    assert "rename "[0] == "migrate"[3] == "infra"[3] == "rollback"[0] == 'r';
    assert "database"[4] == "db"[1] == "bucket"[0] == "table"[2] == "tables"[2] == 'b';
    assert "prod"[1] == "production"[1] == "cluster"[6] == 'r';
  }

  lemma PlainWordsAreHarmless(text: string)
    requires forall c :: c in text ==> c != 'r' && c != 'l' && c != 's' && c != 'b'
    ensures !ActionObject(Tokens(text)) && !Mentions(text, CRITICAL_TERMS) && !Mentions(text, HIGH_TERMS)
  {
    forall term | term in CRITICAL_TERMS || term in HIGH_TERMS ensures !Contains(text, term) {
      TermLetters(term);
      if Contains(text, term) {
        var c :| c in "rlsb" && c in term;
        LettersOf(text, term, c);
      }
    }
    forall word | word in Tokens(text) ensures word !in OBJECTS {
      if word in OBJECTS {
        TermLetters(word);
        var c :| c in "rlsb" && c in word;
        LettersOfTokens(text, word, c);
      }
    }
  }

  lemma TextOf(b: Body, lower: string -> string, kind: string, path: string)
    requires b.paths == [path] && b.actionKind == kind && b.command == "" && Strip(kind) == kind
    requires lower(kind) == kind && lower("") == "" && lower(path) == path
    ensures Text(b, lower) == kind + (" " + (" " + path))
  {
    assert Lowered(b.paths, lower) == [path] && Strip(b.command) == "";
    assert Spaced([path]) == path;
    var last := ["", path];
    assert last[1..] == [path] && "" + " " + path == " " + path;
    assert Spaced(last) == " " + path;
    assert [kind, "", path][1..] == last;
  }

  /** A one-segment file, with the whole tree permitted and these prefixes protected. */
  lemma FileIsCovered(c: Charter, path: string, root: string)
    requires Segments(path) == [path] && root in c.roots && RootToken(root)
    requires forall prefix :: prefix in c.protectedPrefixes ==> !RootToken(prefix)
    requires forall prefix :: prefix in c.protectedPrefixes ==> Segments(prefix) != [path]
    ensures !OutOfScope(c, path)
  {
    forall prefix | prefix in c.protectedPrefixes ensures !Under(path, prefix) {
      UnderIsSegmentPrefix(path, prefix);
      assert Segments(prefix) <= [path] ==> Segments(prefix) == [] || Segments(prefix) == [path];
    }
    RootTokensNormaliseToNothing(root);
    UnderIsSegmentPrefix(path, root);
    SegmentsArePlain(root);
  }

  lemma Prefix(name: string)
    requires Plain(name) && Names(name) && name[0] != '~' && '\\' !in name && !IsSpace(name[0])
    ensures Segments(name + "/") == [name] && !RootToken(name + "/")
  {
    StripKeeps(name + "/");
    OneSegment(name, "/");
    RootHasNoName(name + "/");
  }

  lemma RootHasNoName(prefix: string)
    requires Segments(prefix) != []
    ensures !RootToken(prefix)
  {
    SegmentsArePlain(prefix);
    if RootToken(prefix) { RootTokensNormaliseToNothing(prefix); }
  }

  lemma DefaultPrefixes(prefix: string)
    requires prefix in ["tests/", ".github/", ".local/"]
    ensures !RootToken(prefix) && Segments(prefix) != [".env"]
  {
    var name :| name in ["tests", ".github", ".local"] && prefix == name + "/";
    Prefix(name);
  }

  /** Editing one line of `.env`, with the whole tree permitted and the default prefixes protected: without a charter
      it has to be confirmed, under this charter it is allowed. */
  lemma CharterLoosensEnvironmentFile(b: Body, caller: Caller, c: Charter, lower: string -> string)
    requires b == Body("edit", [".env"], "", 1) && !caller.advisorRole
    requires c.roots == ["."] && c.protectedPrefixes == ["tests/", ".github/", ".local/"]
    requires "filesystem.write" in c.capabilities && "filesystem.write" !in c.confirmRequired
    requires lower("edit") == "edit" && lower("") == "" && lower(".env") == ".env"
    ensures Issue(b, caller, None, lower).ConfirmRequired? && Issue(b, caller, Some(c), lower).Allow?
  {
    forall prefix | prefix in c.protectedPrefixes ensures !RootToken(prefix) && Segments(prefix) != [".env"] {
      DefaultPrefixes(prefix);
    }
    assert ".env"[0..] == ".env" && StartsWith(".env"[0..], ".env");
    FileLoosens(b, caller, c, lower, "edit", ".env", ".");
  }

  lemma FileLoosens(b: Body, caller: Caller, c: Charter, lower: string -> string, kind: string, path: string,
                    root: string)
    requires b == Body(kind, [path], "", 1) && !caller.advisorRole && root in c.roots && root == "."
    requires kind != "" && Plain(path) && Names(path) && path[0] != '~' && Contains(path, ".env")
    requires forall x :: x in kind + path ==> !IsSpace(x) && x != '\\'
    requires forall x :: x in kind + path ==> x != 'r' && x != 'l' && x != 's' && x != 'b'
    requires forall prefix :: prefix in c.protectedPrefixes ==> !RootToken(prefix) && Segments(prefix) != [path]
    requires CapabilityFor(kind) in c.capabilities && CapabilityFor(kind) !in c.confirmRequired
    requires lower(kind) == kind && lower("") == "" && lower(path) == path
    ensures Issue(b, caller, None, lower).ConfirmRequired? && Issue(b, caller, Some(c), lower).Allow?
  {
    FileIsHarmless(b, lower, kind, path);
    StripKeeps(path);
    StripKeeps(root);
    assert path + "" == path && forall x :: x in path ==> x in kind + path;
    OneSegment(path, "");
    FileIsCovered(c, path, root);
    assert path in b.paths && Contains(lower(path), ".env");
    HarmlessLoosens(b, caller, c, lower);
  }

  lemma FileIsHarmless(b: Body, lower: string -> string, kind: string, path: string)
    requires b == Body(kind, [path], "", 1) && kind != "" && path != ""
    requires forall x :: x in kind + path ==> !IsSpace(x)
    requires forall x :: x in kind + path ==> x != 'r' && x != 'l' && x != 's' && x != 'b'
    requires lower(kind) == kind && lower("") == "" && lower(path) == path
    ensures Harmless(b, lower) && Strip(b.actionKind) == kind
    ensures !IsSpace(path[0]) && !IsSpace(path[|path| - 1]) && path[0] in kind + path
  {
    assert kind[0] in kind + path && kind[|kind| - 1] in kind + path;
    assert path[0] in kind + path && path[|path| - 1] in kind + path;
    StripKeeps(kind);
    TextOf(b, lower, kind, path);
    assert forall x :: x in Text(b, lower) ==> x == ' ' || x in kind + path;
    PlainWordsAreHarmless(Text(b, lower));
  }

  lemma HarmlessLoosens(b: Body, caller: Caller, c: Charter, lower: string -> string)
    requires Harmless(b, lower) && b.changeSize < 25 && !caller.advisorRole && OnlyLegacyToken(b.paths, lower)
    requires !SensitiveHit(c, b.paths)
    requires var capability := CapabilityFor(lower(Strip(b.actionKind)));
             capability in c.capabilities && capability !in c.confirmRequired
    ensures Issue(b, caller, None, lower).ConfirmRequired? && Issue(b, caller, Some(c), lower).Allow?
  {
    LegacyHitIs(b, lower);
    IssueLoosensIff(b, caller, c, lower);
  }
}
