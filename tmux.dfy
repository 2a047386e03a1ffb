/** `src/tmux.rs`: turning worktree and repository names into tmux session
    names, and the tmux client that the setup command drives. */
module Tmux {
  import opened Wrappers
  import opened Text

  // ---------------------------------------------------------------------
  // sanitize_session_name

  /** `char::is_ascii_alphanumeric`. */
  predicate IsAsciiAlphanumeric(c: char) {
    ('a' <= c <= 'z') || ('A' <= c <= 'Z') || ('0' <= c <= '9')
  }

  /** The characters `sanitize_session_name` keeps as they are. */
  predicate IsSafe(c: char) {
    IsAsciiAlphanumeric(c) || c == '-' || c == '_' || c == '.'
  }

  predicate AllSafe(s: string) {
    forall i :: 0 <= i < |s| ==> IsSafe(s[i])
  }

  predicate AllDashes(s: string) {
    forall i :: 0 <= i < |s| ==> s[i] == '-'
  }

  /** What the character loop builds: each character that is not safe,
      ASCII or not, becomes one `-`. */
  function Replaced(s: string): (r: string)
    ensures |r| == |s|
  {
    if s == [] then []
    else Replaced(s[..|s| - 1]) + [if IsSafe(s[|s| - 1]) then s[|s| - 1] else '-']
  }

  /** Character `i` of the loop's output is character `i` of the input, or
      `-` when that one is not safe. */
  lemma {:induction false} ReplacedAt(s: string, i: nat)
    requires i < |s|
    ensures Replaced(s)[i] == if IsSafe(s[i]) then s[i] else '-'
  {
    if i < |s| - 1 {
      ReplacedAt(s[..|s| - 1], i);
    }
  }

  lemma ReplacedIsSafe(s: string)
    ensures AllSafe(Replaced(s))
  {
    forall i | 0 <= i < |s|
      ensures IsSafe(Replaced(s)[i])
    {
      ReplacedAt(s, i);
    }
  }

  /** A string of safe characters passes the loop unchanged. */
  lemma {:induction false} ReplacedOfSafe(s: string)
    requires AllSafe(s)
    ensures Replaced(s) == s
  {
    if s != [] {
      ReplacedOfSafe(s[..|s| - 1]);
      assert s[..|s| - 1] + [s[|s| - 1]] == s;
    }
  }

  lemma {:induction false} ReplacedAppend(a: string, b: string)
    ensures Replaced(a + b) == Replaced(a) + Replaced(b)
  {
    if b == [] {
      assert a + b == a;
    } else {
      var b' := b[..|b| - 1];
      assert (a + b)[..|a + b| - 1] == a + b';
      assert (a + b)[|a + b| - 1] == b[|b| - 1];
      ReplacedAppend(a, b');
    }
  }

  /** `trim_start_matches('-')`. */
  function TrimLeadingDashes(s: string): (r: string)
    ensures |r| <= |s|
    ensures r == [] || r[0] != '-'
  {
    if s != [] && s[0] == '-' then TrimLeadingDashes(s[1..]) else s
  }

  /** What `trim_start_matches('-')` leaves is a suffix of its input. */
  lemma {:induction false} LeadingDashesSuffix(s: string)
    ensures TrimLeadingDashes(s) == s[|s| - |TrimLeadingDashes(s)|..]
  {
    if s != [] && s[0] == '-' {
      LeadingDashesSuffix(s[1..]);
    }
  }

  /** `trim_end_matches('-')`. */
  function TrimTrailingDashes(s: string): (r: string)
    ensures |r| <= |s|
    ensures r == [] || r[|r| - 1] != '-'
  {
    if s != [] && s[|s| - 1] == '-' then TrimTrailingDashes(s[..|s| - 1]) else s
  }

  /** What `trim_end_matches('-')` leaves is a prefix of its input. */
  lemma {:induction false} TrailingDashesPrefix(s: string)
    ensures TrimTrailingDashes(s) == s[..|TrimTrailingDashes(s)|]
  {
    if s != [] && s[|s| - 1] == '-' {
      TrailingDashesPrefix(s[..|s| - 1]);
    }
  }

  /** `trim_matches('-')`: every `-` at either end removed. */
  function TrimDashes(s: string): (r: string)
    ensures |r| <= |s|
  {
    TrimTrailingDashes(TrimLeadingDashes(s))
  }

  lemma {:induction false} LeadingDashesEmpty(s: string)
    ensures TrimLeadingDashes(s) == [] <==> AllDashes(s)
  {
    if s != [] && s[0] == '-' {
      LeadingDashesEmpty(s[1..]);
      assert forall i :: 0 < i < |s| ==> s[i] == s[1..][i - 1];
    }
  }

  lemma {:induction false} TrailingDashesEmpty(s: string)
    ensures TrimTrailingDashes(s) == [] <==> AllDashes(s)
  {
    if s != [] && s[|s| - 1] == '-' {
      TrailingDashesEmpty(s[..|s| - 1]);
      assert forall i :: 0 <= i < |s| - 1 ==> s[i] == s[..|s| - 1][i];
    }
  }

  lemma TrimDashesEmpty(s: string)
    ensures TrimDashes(s) == [] <==> AllDashes(s)
  {
    var t := TrimLeadingDashes(s);
    TrailingDashesEmpty(t);
    LeadingDashesEmpty(s);
  }

  lemma TrimDashesSafe(s: string)
    requires AllSafe(s)
    ensures AllSafe(TrimDashes(s))
  {
    var t := TrimLeadingDashes(s);
    var r := TrimTrailingDashes(t);
    var k := |s| - |t|;
    LeadingDashesSuffix(s);
    TrailingDashesPrefix(t);
    forall i | 0 <= i < |r|
      ensures IsSafe(r[i])
    {
      assert r[i] == t[i] == s[k + i];
    }
  }

  lemma TrimDashesEnds(s: string)
    ensures var r := TrimDashes(s); r == [] || (r[0] != '-' && r[|r| - 1] != '-')
  {
    var t := TrimLeadingDashes(s);
    var r := TrimTrailingDashes(t);
    if r != [] {
      TrailingDashesPrefix(t);
      assert r[0] == t[0];
    }
  }

  const Fallback: string := "worktree"

  /** `sanitize_session_name`. */
  function Sanitize(name: string): string {
    var t := TrimDashes(Replaced(name));
    if t == [] then Fallback else t
  }

  /** The loop of `sanitize_session_name`, then its trim and fallback. */
  method SanitizeSessionName(name: string) returns (r: string)
    ensures r == Sanitize(name)
  {
    var sanitized := "";
    var i := 0;
    while i < |name|
      invariant 0 <= i <= |name|
      invariant sanitized == Replaced(name[..i])
    {
      var ch := name[i];
      assert name[..i + 1][..i] == name[..i];
      if IsAsciiAlphanumeric(ch) || ch == '-' || ch == '_' || ch == '.' {
        sanitized := sanitized + [ch];
      } else {
        sanitized := sanitized + ['-'];
      }
      i := i + 1;
    }
    assert name[..i] == name;
    var trimmed := TrimDashes(sanitized);
    if trimmed == [] {
      r := Fallback;
    } else {
      r := trimmed;
    }
  }

  /** What a sanitised name looks like: non-empty, made of safe characters,
      with no `-` at either end. */
  predicate IsSanitized(s: string) {
    s != [] && AllSafe(s) && s[0] != '-' && s[|s| - 1] != '-'
  }

  /** Every result is a sanitised name. */
  lemma SanitizeIsSanitized(name: string)
    ensures IsSanitized(Sanitize(name))
  {
    ReplacedIsSafe(name);
    TrimDashesSafe(Replaced(name));
    TrimDashesEnds(Replaced(name));
  }

  /** The fallback is taken exactly when the name has no safe character
      other than `-`. */
  lemma SanitizeFallsBack(name: string)
    ensures TrimDashes(Replaced(name)) == [] <==>
            forall i :: 0 <= i < |name| ==> name[i] == '-' || !IsSafe(name[i])
  {
    TrimDashesEmpty(Replaced(name));
    forall i | 0 <= i < |name|
      ensures Replaced(name)[i] == '-' <==> name[i] == '-' || !IsSafe(name[i])
    {
      ReplacedAt(name, i);
    }
  }

  /** The sanitised names are exactly the strings sanitising leaves alone. */
  lemma SanitizeFixedPoints(s: string)
    ensures Sanitize(s) == s <==> IsSanitized(s)
  {
    if IsSanitized(s) {
      ReplacedOfSafe(s);
    } else {
      SanitizeIsSanitized(s);
    }
  }

  /** Sanitising twice is sanitising once. */
  lemma SanitizeIdempotent(name: string)
    ensures Sanitize(Sanitize(name)) == Sanitize(name)
  {
    SanitizeIsSanitized(name);
    SanitizeFixedPoints(Sanitize(name));
  }

  lemma AllSafeAppend(a: string, b: string)
    requires AllSafe(a) && AllSafe(b)
    ensures AllSafe(a + b)
  {
    assert forall i :: |a| <= i < |a + b| ==> (a + b)[i] == b[i - |a|];
  }

  lemma ReplacedFramed(p: string, m: string, q: string)
    requires AllSafe(p) && AllSafe(q)
    ensures Replaced(p + m + q) == p + Replaced(m) + q
  {
    ReplacedAppend(p + m, q);
    ReplacedAppend(p, m);
    ReplacedOfSafe(p);
    ReplacedOfSafe(q);
  }

  /** A string with no `-` at either end has none to trim. */
  lemma NoDashesToTrim(r: string)
    requires r != [] && r[0] != '-' && r[|r| - 1] != '-'
    ensures TrimDashes(r) == r
  {
    assert TrimLeadingDashes(r) == r;
  }

  /** Between a safe head that does not start with `-` and a safe tail that
      does not end with one, sanitising only replaces the unsafe characters. */
  lemma SanitizeFramed(p: string, m: string, q: string)
    requires p != [] && AllSafe(p) && p[0] != '-'
    requires q != [] && AllSafe(q) && q[|q| - 1] != '-'
    ensures Sanitize(p + m + q) == p + Replaced(m) + q
  {
    ReplacedFramed(p, m, q);
    var r := p + Replaced(m) + q;
    assert r[0] == p[0];
    assert r[|r| - 1] == q[|q| - 1];
    NoDashesToTrim(r);
  }

  /** Unsafe characters and dashes at either end of a sanitised name are dropped. */
  lemma SanitizePadded(d: string, s: string, e: string)
    requires IsSanitized(s)
    requires forall i :: 0 <= i < |d| ==> d[i] == '-' || !IsSafe(d[i])
    requires forall i :: 0 <= i < |e| ==> e[i] == '-' || !IsSafe(e[i])
    ensures Sanitize(d + s + e) == s
  {
    assert AllDashes(Replaced(d)) && AllDashes(Replaced(e)) by {
      forall i | 0 <= i < |d| ensures Replaced(d)[i] == '-' { ReplacedAt(d, i); }
      forall i | 0 <= i < |e| ensures Replaced(e)[i] == '-' { ReplacedAt(e, i); }
    }
    ReplacedAppend(d + s, e);
    ReplacedAppend(d, s);
    ReplacedOfSafe(s);
    LeadingPastDashes(Replaced(d), s + Replaced(e));
    assert Replaced(d) + s + Replaced(e) == Replaced(d) + (s + Replaced(e));
    TrailingPastDashes(s, Replaced(e));
    assert TrimTrailingDashes(s) == s;
  }

  lemma {:induction false} LeadingPastDashes(d: string, t: string)
    requires AllDashes(d) && (t == [] || t[0] != '-')
    ensures TrimLeadingDashes(d + t) == t
  {
    if d == [] {
      assert d + t == t;
    } else {
      assert (d + t)[1..] == d[1..] + t;
      LeadingPastDashes(d[1..], t);
    }
  }

  lemma {:induction false} TrailingPastDashes(t: string, e: string)
    requires AllDashes(e)
    ensures TrimTrailingDashes(t + e) == TrimTrailingDashes(t)
  {
    if e == [] {
      assert t + e == t;
    } else {
      assert (t + e)[..|t + e| - 1] == t + e[..|e| - 1];
      TrailingPastDashes(t, e[..|e| - 1]);
    }
  }

  /** The cases of the unit test `sanitizes_to_tmux_safe_string`. */
  lemma SanitizeExampleSlash()
    ensures Sanitize("worktree-feature/foo") == "worktree-feature-foo"
  {
    var a, b := "worktree-feature", "foo";
    assert IsSanitized(a) && IsSanitized(b);
    assert Replaced("/") == "-";
    SanitizeFramed(a, "/", b);
    assert a + "/" + b == "worktree-feature/foo";
    assert a + "-" + b == "worktree-feature-foo";
  }

  lemma SanitizeExampleColon()
    ensures Sanitize("branch:name") == "branch-name"
  {
    var c, d := "branch", "name";
    assert IsSanitized(c) && IsSanitized(d);
    assert Replaced(":") == "-";
    SanitizeFramed(c, ":", d);
    assert c + ":" + d == "branch:name";
    assert c + "-" + d == "branch-name";
  }

  lemma SanitizeExampleSpaced()
    ensures Sanitize("  spaced  ") == "spaced"
  {
    var s := "spaced";
    assert IsSanitized(s);
    SanitizePadded("  ", s, "  ");
    assert "  " + s + "  " == "  spaced  ";
  }

  lemma SanitizeExampleDots()
    ensures Sanitize("..") == ".."
  {
    var s := "..";
    assert IsSanitized(s);
    SanitizeFixedPoints(s);
  }

  lemma SanitizeExampleEmpty()
    ensures Sanitize("") == "worktree"
  {
    assert Replaced("") == "";
  }

  // ---------------------------------------------------------------------
  // session_name_with_hash

  /** The index of the first `/` in `s`, or `|s|`. */
  function IndexOfSlash(s: string): (i: nat)
    ensures i <= |s|
  {
    if s == [] || s[0] == '/' then 0 else 1 + IndexOfSlash(s[1..])
  }

  /** The names of `Path::components`: the pieces between `/`, without the
      empty pieces and the `.` pieces, which are not reported. */
  function Components(p: string): seq<string>
    decreases |p|
  {
    if p == [] then []
    else
      var i := IndexOfSlash(p);
      var piece := p[..i];
      (if piece == "" || piece == "." then [] else [piece])
        + (if i == |p| then [] else Components(p[i + 1..]))
  }

  /** `Path::file_name`: the last component, unless there is none or it is `..`. */
  function FileName(p: string): Option<string> {
    var cs := Components(p);
    if cs == [] || cs[|cs| - 1] == ".." then None else Some(cs[|cs| - 1])
  }

  /** The repository segment: the root's file name, or `repo` without one. */
  function RepoSegment(root: string): string {
    match FileName(root)
    case Some(n) => if n != "" then n else "repo"
    case None => "repo"
  }

  /** `session_name_with_hash`; `session_name` and `legacy_session_name`
      call it with the SHA-1 and the `DefaultHasher` hash of the root. */
  function SessionNameWithHash(root: string, identifier: string, hash: string): string {
    Sanitize("wb-" + Sanitize(RepoSegment(root)) + "-" + hash + "-" + Sanitize(identifier))
  }

  lemma HeadPiece(a: string)
    requires IsSanitized(a)
    ensures var p := "wb-" + a + "-"; p != [] && AllSafe(p) && p[0] != '-'
  {
    AllSafeAppend("wb-", a);
    AllSafeAppend("wb-" + a, "-");
  }

  lemma TailPiece(b: string)
    requires IsSanitized(b)
    ensures var q := "-" + b; q != [] && AllSafe(q) && q[|q| - 1] != '-'
  {
    AllSafeAppend("-", b);
  }

  /** The format string of `session_name_with_hash` between two sanitised
      names: the outer sanitising only replaces the unsafe characters of the hash. */
  lemma JoinPieces(a: string, h: string, b: string)
    ensures "wb-" + a + "-" + h + "-" + b == ("wb-" + a + "-") + h + ("-" + b)
  {
  }

  lemma SanitizeJoined(a: string, hash: string, b: string)
    requires IsSanitized(a) && IsSanitized(b)
    ensures Sanitize("wb-" + a + "-" + hash + "-" + b) == "wb-" + a + "-" + Replaced(hash) + "-" + b
  {
    var p := "wb-" + a + "-";
    var q := "-" + b;
    HeadPiece(a);
    TailPiece(b);
    SanitizeFramed(p, hash, q);
    JoinPieces(a, hash, b);
    JoinPieces(a, Replaced(hash), b);
  }

  /** The name is `wb-`, the repository slug, the hash (its unsafe
      characters replaced) and the identifier slug, joined by `-`. */
  lemma SessionNameShape(root: string, identifier: string, hash: string)
    ensures SessionNameWithHash(root, identifier, hash)
         == "wb-" + Sanitize(RepoSegment(root)) + "-" + Replaced(hash) + "-" + Sanitize(identifier)
  {
    SanitizeIsSanitized(RepoSegment(root));
    SanitizeIsSanitized(identifier);
    SanitizeJoined(Sanitize(RepoSegment(root)), hash, Sanitize(identifier));
  }

  lemma JoinHead(a: string, h: string, b: string)
    ensures var n := "wb-" + a + "-" + h + "-" + b;
      |n| == |a| + |h| + |b| + 5 && n[..3] == "wb-" && n[3..3 + |a|] == a
  {
    var n := "wb-" + a + "-" + h + "-" + b;
    assert n == "wb-" + (a + ("-" + h + "-" + b));
  }

  /** Every session name begins with `wb-`, whatever the hash. */
  lemma SessionNameStartsWithWb(root: string, identifier: string, hash: string)
    ensures StartsWith(SessionNameWithHash(root, identifier, hash), "wb-")
  {
    SessionNameShape(root, identifier, hash);
    JoinHead(Sanitize(RepoSegment(root)), Replaced(hash), Sanitize(identifier));
  }

  /** A hash of hexadecimal digits, as both hash functions print, appears
      in the name unchanged. */
  lemma SessionNameKeepsSafeHash(root: string, identifier: string, hash: string)
    requires AllSafe(hash)
    ensures SessionNameWithHash(root, identifier, hash)
         == "wb-" + Sanitize(RepoSegment(root)) + "-" + hash + "-" + Sanitize(identifier)
  {
    SessionNameShape(root, identifier, hash);
    ReplacedOfSafe(hash);
  }

  /** The name begins with `wb-`, the repository slug and a `-`. */
  lemma SessionNameStartsWithSlug(root: string, identifier: string, hash: string)
    ensures StartsWith(SessionNameWithHash(root, identifier, hash), "wb-" + Sanitize(RepoSegment(root)) + "-")
  {
    SessionNameShape(root, identifier, hash);
    JoinSlug(Sanitize(RepoSegment(root)), Replaced(hash), Sanitize(identifier));
  }

  lemma JoinSlug(a: string, h: string, b: string)
    ensures StartsWith("wb-" + a + "-" + h + "-" + b, "wb-" + a + "-")
  {
    var head := "wb-" + a + "-";
    var n := "wb-" + a + "-" + h + "-" + b;
    assert n == head + (h + "-" + b);
    assert n[..|head|] == head;
  }

  /** A root without a file name (`/`, `..`, the empty path) gives the
      `repo` slug, so its session names begin with `wb-repo-`. */
  lemma RepoSegmentFallback(root: string)
    requires FileName(root) == None
    ensures Sanitize(RepoSegment(root)) == "repo"
  {
    var r := "repo";
    assert RepoSegment(root) == r;
    assert IsSanitized(r);
    SanitizeFixedPoints(r);
  }

  /** Two roots whose repository slugs differ give different session names
      for hashes of one length, as the eight-digit hashes are. */
  lemma SessionNamesSeparateRepos(root1: string, root2: string, identifier: string, hash1: string, hash2: string)
    requires |hash1| == |hash2|
    requires Sanitize(RepoSegment(root1)) != Sanitize(RepoSegment(root2))
    ensures SessionNameWithHash(root1, identifier, hash1) != SessionNameWithHash(root2, identifier, hash2)
  {
    var a1, a2 := Sanitize(RepoSegment(root1)), Sanitize(RepoSegment(root2));
    SessionNameShape(root1, identifier, hash1);
    SessionNameShape(root2, identifier, hash2);
    JoinHead(a1, Replaced(hash1), Sanitize(identifier));
    JoinHead(a2, Replaced(hash2), Sanitize(identifier));
  }

  lemma {:induction false} IndexOfSlashAt(piece: string, rest: string)
    requires '/' !in piece
    ensures IndexOfSlash(piece + rest) == |piece| + IndexOfSlash(rest)
  {
    if piece != [] {
      assert (piece + rest)[1..] == piece[1..] + rest;
      IndexOfSlashAt(piece[1..], rest);
    } else {
      assert piece + rest == rest;
    }
  }

  /** A piece that `Path::components` reports as a name of its own. */
  predicate IsPlainName(piece: string) {
    '/' !in piece && piece != "" && piece != "."
  }

  /** A leading `/` (the root component) contributes no name. */
  lemma ComponentsOfRooted(rest: string)
    ensures Components("/" + rest) == Components(rest)
  {
    var p := "/" + rest;
    assert IndexOfSlash(p) == 0;
    assert p[1..] == rest;
  }

  /** A plain name followed by `/` is one component. */
  lemma ComponentsOfPiece(piece: string, rest: string)
    requires IsPlainName(piece)
    ensures Components(piece + "/" + rest) == [piece] + Components(rest)
  {
    var p := piece + "/" + rest;
    IndexOfSlashAt(piece, "/" + rest);
    assert p == piece + ("/" + rest);
    assert p[..|piece|] == piece;
    assert p[|piece| + 1..] == rest;
  }

  /** A plain name without `/` is the last component. */
  lemma ComponentsOfLast(piece: string)
    requires IsPlainName(piece)
    ensures Components(piece) == [piece]
  {
    IndexOfSlashAt(piece, "");
    assert piece + "" == piece;
  }

  lemma TmpComponents(name: string)
    requires IsPlainName(name)
    ensures Components("tmp/" + name) == ["tmp", name]
  {
    assert IsPlainName("tmp");
    ComponentsOfPiece("tmp", name);
    ComponentsOfLast(name);
    assert "tmp/" + name == "tmp" + "/" + name;
  }

  lemma FileNameInTmp(name: string)
    requires IsPlainName(name) && name != ".."
    ensures FileName("/tmp/" + name) == Some(name)
  {
    var rest := "tmp/" + name;
    assert "/tmp/" + name == "/" + rest;
    ComponentsOfRooted(rest);
    TmpComponents(name);
  }

  /** A root `/tmp/<name>` whose name is already a sanitised name has that
      name as its slug. */
  lemma SlugInTmp(name: string)
    requires IsPlainName(name) && name != ".." && IsSanitized(name)
    ensures Sanitize(RepoSegment("/tmp/" + name)) == name
  {
    FileNameInTmp(name);
    SanitizeFixedPoints(name);
  }

  /** Two repositories under `/tmp` with different sanitised names get
      different session names (the test `session_names_include_repo_hash`
      uses `repo-a` and `repo-b`). */
  lemma SessionNamesDifferInTmp(a: string, b: string, identifier: string, hashA: string, hashB: string)
    requires IsPlainName(a) && a != ".." && IsSanitized(a)
    requires IsPlainName(b) && b != ".." && IsSanitized(b)
    requires a != b && |hashA| == |hashB|
    ensures SessionNameWithHash("/tmp/" + a, identifier, hashA) != SessionNameWithHash("/tmp/" + b, identifier, hashB)
  {
    SlugInTmp(a);
    SlugInTmp(b);
    SessionNamesSeparateRepos("/tmp/" + a, "/tmp/" + b, identifier, hashA, hashB);
  }

  // ---------------------------------------------------------------------
  // The tmux client

  /** A `TmuxClient` as the setup tests' mock keeps it: the live sessions and
      the `created` and `attached` logs. The failure sets stand for a real
      client whose `has-session` or `new-session` call goes wrong. */
  class TmuxClient {
    const available: bool
    const queryFailures: set<string>
    const createFailures: set<string>
    var sessions: set<string>
    var created: seq<string>
    var attached: seq<string>

    constructor (available: bool, queryFailures: set<string>, createFailures: set<string>, sessions: set<string>)
      ensures this.available == available && this.queryFailures == queryFailures
      ensures this.createFailures == createFailures && this.sessions == sessions
      ensures created == [] && attached == []
    {
      this.available := available;
      this.queryFailures := queryFailures;
      this.createFailures := createFailures;
      this.sessions := sessions;
      created := [];
      attached := [];
    }

    function IsAvailable(): bool {
      available
    }

    /** `session_exists`. */
    function SessionExists(name: string): Result<bool>
      reads this
    {
      if name in queryFailures then Err else Ok(name in sessions)
    }

    /** `create_session`: the session is started in `directory` and logged. */
    method CreateSession(name: string, directory: string) returns (r: Result<()>)
      modifies this
      ensures r.Ok? <==> name !in createFailures
      ensures sessions == if r.Ok? then old(sessions) + {name} else old(sessions)
      ensures created == if r.Ok? then old(created) + [name] else old(created)
      ensures attached == old(attached)
    {
      if name in createFailures {
        r := Err;
      } else {
        sessions := sessions + {name};
        created := created + [name];
        r := Ok(());
      }
    }

    /** `attach_session`: only a live session can be attached to. */
    method AttachSession(name: string) returns (r: Result<()>)
      modifies this
      ensures r.Ok? <==> name in old(sessions)
      ensures attached == if r.Ok? then old(attached) + [name] else old(attached)
      ensures sessions == old(sessions) && created == old(created)
    {
      if name !in sessions {
        r := Err;
      } else {
        attached := attached + [name];
        r := Ok(());
      }
    }
  }
}
