/** `update_env_with_ports` of `src/file_ops.rs`, with the read of `.env`
    and the write back taken away: the existing content goes in as a
    string, the new content comes out as one. */
module EnvFile {
  import opened Wrappers
  import opened Text

  /** The three variables the rewrite owns. */
  datatype Key = Frontend | Backend | Database

  /** The three port values written; the third is whatever the caller passes
      as the database port. */
  datatype EnvPorts = EnvPorts(frontend: nat, backend: nat, database: nat)

  function Prefix(k: Key): string {
    match k
    case Frontend => "FRONTEND_PORT="
    case Backend => "BACKEND_PORT="
    case Database => "DATABASE_PORT="
  }

  function PortOf(k: Key, ports: EnvPorts): nat {
    match k
    case Frontend => ports.frontend
    case Backend => ports.backend
    case Database => ports.database
  }

  /** `format!("KEY={}", port)`. */
  function Assignment(k: Key, ports: EnvPorts): string {
    Prefix(k) + NatToString(PortOf(k, ports))
  }

  /** The variable a line sets, as the three `trim_start().starts_with`
      tests decide it, tried in the order frontend, backend, database. */
  function KeyOf(line: string): Option<Key> {
    var t := TrimStart(line);
    if StartsWith(t, Prefix(Frontend)) then Some(Frontend)
    else if StartsWith(t, Prefix(Backend)) then Some(Backend)
    else if StartsWith(t, Prefix(Database)) then Some(Database)
    else None
  }

  /** What the reading loop pushes for one existing line. */
  function RewriteLine(line: string, ports: EnvPorts): string {
    match KeyOf(line)
    case Some(k) => Assignment(k, ports)
    case None => line
  }

  /** The reading loop's `lines`, one entry per existing line. */
  function RewriteAll(ls: seq<string>, ports: EnvPorts): seq<string> {
    if ls == [] then []
    else RewriteAll(ls[..|ls| - 1], ports) + [RewriteLine(ls[|ls| - 1], ports)]
  }

  /** The variable line `i` sets. */
  function KeyAt(ls: seq<string>, i: nat): Option<Key>
    requires i < |ls|
  {
    KeyOf(ls[i])
  }

  /** Some existing line sets `k`: the loop's `has_*` flag for `k`. */
  predicate HasKey(ls: seq<string>, k: Key) {
    exists i :: 0 <= i < |ls| && KeyAt(ls, i) == Some(k)
  }

  /** The content does not end in a line break, so a blank line separates
      it from what is appended. */
  predicate NeedsSeparator(content: string) {
    content != [] && content[|content| - 1] != '\n'
  }

  /** The assignments appended for the variables no line sets, in the order
      frontend, backend, database. */
  function Missing(ls: seq<string>, ports: EnvPorts): seq<string> {
    (if HasKey(ls, Frontend) then [] else [Assignment(Frontend, ports)])
    + (if HasKey(ls, Backend) then [] else [Assignment(Backend, ports)])
    + (if HasKey(ls, Database) then [] else [Assignment(Database, ports)])
  }

  /** The `lines` vector once the missing variables were appended. */
  function UpdatedLines(content: string, ports: EnvPorts): seq<string> {
    var ls := Lines(content);
    RewriteAll(ls, ports) + (if NeedsSeparator(content) then [""] else []) + Missing(ls, ports)
  }

  /** The lines joined by `\n`, as the write loop emits them before the final newline. */
  function Joined(ls: seq<string>): string {
    if ls == [] then []
    else if |ls| == 1 then ls[0]
    else Joined(ls[..|ls| - 1]) + "\n" + ls[|ls| - 1]
  }

  /** The new content of `.env`. */
  function UpdateEnv(content: string, ports: EnvPorts): string {
    Terminated(UpdatedLines(content, ports))
  }

  // ---------------------------------------------------------------------
  // The method

  lemma RewriteAllStep(ls: seq<string>, ports: EnvPorts, i: nat)
    requires i < |ls|
    ensures RewriteAll(ls[..i + 1], ports) == RewriteAll(ls[..i], ports) + [RewriteLine(ls[i], ports)]
  {
    assert ls[..i + 1][..i] == ls[..i];
  }

  lemma HasKeyStep(ls: seq<string>, i: nat, k: Key)
    requires i < |ls|
    ensures HasKey(ls[..i + 1], k) <==> HasKey(ls[..i], k) || KeyOf(ls[i]) == Some(k)
  {
    if HasKey(ls[..i + 1], k) && KeyOf(ls[i]) != Some(k) {
      var j :| 0 <= j < i + 1 && KeyAt(ls[..i + 1], j) == Some(k);
      assert ls[..i][j] == ls[..i + 1][j];
      assert KeyAt(ls[..i], j) == Some(k);
    }
    if HasKey(ls[..i], k) {
      var j :| 0 <= j < i && KeyAt(ls[..i], j) == Some(k);
      assert ls[..i + 1][j] == ls[..i][j];
      assert KeyAt(ls[..i + 1], j) == Some(k);
    }
    if KeyOf(ls[i]) == Some(k) {
      assert ls[..i + 1][i] == ls[i];
      assert KeyAt(ls[..i + 1], i) == Some(k);
    }
  }

  /** One turn of the reading loop: the line read decides the entry pushed
      and which flag, if any, is raised. */
  lemma ScanStep(ls: seq<string>, ports: EnvPorts, i: nat)
    requires i < |ls|
    ensures KeyOf(ls[i]).None? ==> RewriteAll(ls[..i + 1], ports) == RewriteAll(ls[..i], ports) + [ls[i]]
    ensures KeyOf(ls[i]).Some? ==>
              RewriteAll(ls[..i + 1], ports) == RewriteAll(ls[..i], ports) + [Assignment(KeyOf(ls[i]).value, ports)]
    ensures forall k :: HasKey(ls[..i + 1], k) == (HasKey(ls[..i], k) || KeyOf(ls[i]) == Some(k))
  {
    RewriteAllStep(ls, ports, i);
    HasKeyStep(ls, i, Frontend);
    HasKeyStep(ls, i, Backend);
    HasKeyStep(ls, i, Database);
    forall k ensures HasKey(ls[..i + 1], k) == (HasKey(ls[..i], k) || KeyOf(ls[i]) == Some(k)) {
      HasKeyStep(ls, i, k);
    }
  }

  lemma {:induction false} JoinedTerminated(ls: seq<string>)
    requires ls != []
    ensures Joined(ls) + "\n" == Terminated(ls)
  {
    if |ls| == 1 {
      assert ls[1..] == [];
    } else {
      var init := ls[..|ls| - 1];
      var last := ls[|ls| - 1];
      JoinedTerminated(init);
      TerminatedAppend(init, [last]);
      assert init + [last] == ls;
      assert [last][1..] == [];
    }
  }

  /** `update_env_with_ports`: the reading loop, the appends, then the
      write loop. */
  method UpdateEnvWithPorts(existingContent: string, ports: EnvPorts) returns (written: string)
    ensures written == UpdateEnv(existingContent, ports)
  {
    var existing := Lines(existingContent);
    var lines, hasFrontendPort, hasBackendPort, hasDatabasePort := ReadExisting(existing, ports);
    if existingContent != [] && existingContent[|existingContent| - 1] != '\n' {
      lines := lines + [""];
    }
    ghost var kept := lines;
    ghost var appended: seq<string> := [];
    assert lines == kept + appended;
    if !hasFrontendPort {
      AppendOne(kept, appended, Assignment(Frontend, ports));
      lines, appended := lines + [Assignment(Frontend, ports)], appended + [Assignment(Frontend, ports)];
    }
    if !hasBackendPort {
      AppendOne(kept, appended, Assignment(Backend, ports));
      lines, appended := lines + [Assignment(Backend, ports)], appended + [Assignment(Backend, ports)];
    }
    if !hasDatabasePort {
      AppendOne(kept, appended, Assignment(Database, ports));
      lines, appended := lines + [Assignment(Database, ports)], appended + [Assignment(Database, ports)];
    }
    assert appended == Missing(existing, ports);
    written := WriteLines(lines);
  }

  /** The reading loop of `update_env_with_ports`: each line that sets one
      of the three variables is replaced by its new assignment and raises
      that variable's flag; any other line is kept. */
  method ReadExisting(existing: seq<string>, ports: EnvPorts)
    returns (lines: seq<string>, hasFrontendPort: bool, hasBackendPort: bool, hasDatabasePort: bool)
    ensures lines == RewriteAll(existing, ports)
    ensures hasFrontendPort == HasKey(existing, Frontend)
    ensures hasBackendPort == HasKey(existing, Backend)
    ensures hasDatabasePort == HasKey(existing, Database)
  {
    lines := [];
    hasFrontendPort, hasBackendPort, hasDatabasePort := false, false, false;
    var i := 0;
    while i < |existing|
      invariant 0 <= i <= |existing|
      invariant lines == RewriteAll(existing[..i], ports)
      invariant hasFrontendPort == HasKey(existing[..i], Frontend)
      invariant hasBackendPort == HasKey(existing[..i], Backend)
      invariant hasDatabasePort == HasKey(existing[..i], Database)
    {
      var line := existing[i];
      ScanStep(existing, ports, i);
      var trimmed := TrimStart(line);
      if StartsWith(trimmed, "FRONTEND_PORT=") {
        assert KeyOf(line) == Some(Frontend);
        hasFrontendPort := true;
        lines := lines + [Assignment(Frontend, ports)];
      } else if StartsWith(trimmed, "BACKEND_PORT=") {
        assert KeyOf(line) == Some(Backend);
        hasBackendPort := true;
        lines := lines + [Assignment(Backend, ports)];
      } else if StartsWith(trimmed, "DATABASE_PORT=") {
        assert KeyOf(line) == Some(Database);
        hasDatabasePort := true;
        lines := lines + [Assignment(Database, ports)];
      } else {
        assert KeyOf(line) == None;
        lines := lines + [line];
      }
      i := i + 1;
    }
    assert existing[..i] == existing;
  }

  /** The write loop: `\n` between lines, and one more after the last. */
  method WriteLines(lines: seq<string>) returns (written: string)
    ensures written == Terminated(lines)
  {
    written := [];
    var j := 0;
    while j < |lines|
      invariant 0 <= j <= |lines|
      invariant written == Joined(lines[..j])
    {
      assert lines[..j + 1][..j] == lines[..j];
      if j > 0 {
        written := written + "\n";
      }
      written := written + lines[j];
      j := j + 1;
    }
    assert lines[..j] == lines;
    if |lines| > 0 {
      written := written + "\n";
      JoinedTerminated(lines);
    }
  }

  // ---------------------------------------------------------------------
  // What the rewrite promises

  /** Entry `i` of the rewritten lines comes from existing line `i`. */
  lemma {:induction false} RewriteAllAt(ls: seq<string>, ports: EnvPorts, i: nat)
    requires i < |ls|
    ensures |RewriteAll(ls, ports)| == |ls|
    ensures RewriteAll(ls, ports)[i] == RewriteLine(ls[i], ports)
  {
    if i < |ls| - 1 {
      RewriteAllAt(ls[..|ls| - 1], ports, i);
    } else if |ls| > 1 {
      RewriteAllAt(ls[..|ls| - 1], ports, 0);
    }
  }

  /** Each existing line keeps its place: a line whose left-trimmed text
      starts with one of the three prefixes becomes that variable's
      assignment, any other line is kept verbatim. */
  lemma ExistingLinesRewritten(content: string, ports: EnvPorts, i: nat)
    requires i < |Lines(content)|
    ensures var line := Lines(content)[i];
            && |UpdatedLines(content, ports)| >= |Lines(content)|
            && UpdatedLines(content, ports)[i]
               == match KeyOf(line) case Some(k) => Assignment(k, ports) case None => line
  {
    RewriteAllAt(Lines(content), ports, i);
  }

  /** After the existing lines come the separator, when the content does
      not end in a newline, and then the missing assignments in the order
      frontend, backend, database. */
  lemma AppendedLines(content: string, ports: EnvPorts)
    ensures var n := |Lines(content)|;
            && |UpdatedLines(content, ports)| >= n
            && UpdatedLines(content, ports)[n..]
               == (if content != [] && content[|content| - 1] != '\n' then [""] else []) + Missing(Lines(content), ports)
  {
    var ls := Lines(content);
    RewriteAllLength(ls, ports);
    var rw := RewriteAll(ls, ports);
    var tail := (if NeedsSeparator(content) then [""] else []) + Missing(ls, ports);
    assert (rw + (if NeedsSeparator(content) then [""] else [])) + Missing(ls, ports)
        == rw + ((if NeedsSeparator(content) then [""] else []) + Missing(ls, ports));
    assert (rw + tail)[|rw|..] == tail;
  }

  /** Appending one line after `b` is appending it to `a + b`: kept as a
      lemma so that the update loop's proof does not unfold the concatenation. */
  lemma AppendOne(a: seq<string>, b: seq<string>, x: string)
    ensures (a + b) + [x] == a + (b + [x])
  {
  }

  lemma {:induction false} RewriteAllLength(ls: seq<string>, ports: EnvPorts)
    ensures |RewriteAll(ls, ports)| == |ls|
  {
    if ls != [] {
      RewriteAllLength(ls[..|ls| - 1], ports);
    }
  }

  /** A variable is appended exactly when no existing line sets it. */
  lemma MissingMembers(ls: seq<string>, ports: EnvPorts, k: Key)
    ensures Assignment(k, ports) in Missing(ls, ports) <==> !HasKey(ls, k)
  {
    forall k' | k' != k ensures Assignment(k', ports) != Assignment(k, ports) {
      AssignmentsDiffer(k', k, ports);
    }
  }

  lemma AssignmentsDiffer(k1: Key, k2: Key, ports: EnvPorts)
    requires k1 != k2
    ensures Assignment(k1, ports) != Assignment(k2, ports)
  {
    var a1, a2 := Assignment(k1, ports), Assignment(k2, ports);
    assert a1[0] == Prefix(k1)[0] && a2[0] == Prefix(k2)[0];
  }

  lemma AssignedWhenPresent(content: string, ports: EnvPorts, k: Key, i: nat)
    requires i < |Lines(content)| && KeyOf(Lines(content)[i]) == Some(k)
    ensures Assignment(k, ports) in UpdatedLines(content, ports)
  {
    var ls := Lines(content);
    RewriteAllAt(ls, ports, i);
    var rw := RewriteAll(ls, ports);
    var sep: seq<string> := if NeedsSeparator(content) then [""] else [];
    assert rw[i] == Assignment(k, ports);
    assert (rw + sep)[i] == rw[i];
    assert (rw + sep + Missing(ls, ports))[i] == rw[i];
  }

  lemma AssignedWhenMissing(content: string, ports: EnvPorts, k: Key)
    requires !HasKey(Lines(content), k)
    ensures Assignment(k, ports) in UpdatedLines(content, ports)
  {
    var ls := Lines(content);
    MissingMembers(ls, ports, k);
    var sep: seq<string> := if NeedsSeparator(content) then [""] else [];
    assert UpdatedLines(content, ports) == RewriteAll(ls, ports) + (sep + Missing(ls, ports));
  }

  /** Every one of the three variables is assigned in the result. */
  lemma EveryKeyAssigned(content: string, ports: EnvPorts, k: Key)
    ensures Assignment(k, ports) in UpdatedLines(content, ports)
  {
    var ls := Lines(content);
    if HasKey(ls, k) {
      var i :| 0 <= i < |ls| && KeyAt(ls, i) == Some(k);
      AssignedWhenPresent(content, ports, k, i);
    } else {
      AssignedWhenMissing(content, ports, k);
    }
  }

  /** The result is never empty and ends with a newline. */
  lemma UpdateEnvEndsWithNewline(content: string, ports: EnvPorts)
    ensures var out := UpdateEnv(content, ports); out != [] && out[|out| - 1] == '\n'
  {
    EveryKeyAssigned(content, ports, Frontend);
  }

  // ---------------------------------------------------------------------
  // Idempotence

  lemma {:induction false} LinesKeepCharacters(s: string, k: nat, c: char)
    requires k < |Lines(s)| && c in Lines(s)[k]
    ensures c in s
    decreases |s|
  {
    var i := IndexOfNewline(s);
    if i < |s| {
      if k == 0 {
        var l := StripCarriageReturn(s[..i]);
        var j :| 0 <= j < |l| && l[j] == c;
        assert s[..i][j] == c;
      } else {
        LinesKeepCharacters(s[i + 1..], k - 1, c);
      }
    }
  }

  lemma AssignmentIsPlain(k: Key, ports: EnvPorts)
    ensures IsPlainLine(Assignment(k, ports))
  {
    var digits := NatToString(PortOf(k, ports));
    NatToStringDigits(PortOf(k, ports));
    assert IsPlainLine(digits) by {
      forall c | c in digits ensures IsDigit(c) {
        var j :| 0 <= j < |digits| && digits[j] == c;
      }
    }
    PrefixIsPlain(k);
    PlainAppend(Prefix(k), digits);
  }

  lemma PrefixIsPlain(k: Key)
    ensures IsPlainLine(Prefix(k))
  {
    match k
    case Frontend =>
    case Backend =>
    case Database =>
  }

  lemma PlainAppend(a: string, b: string)
    requires IsPlainLine(a) && IsPlainLine(b)
    ensures IsPlainLine(a + b)
  {
    forall c | c in a + b ensures c in a || c in b {
      var j :| 0 <= j < |a + b| && (a + b)[j] == c;
      if j < |a| {
        assert c == a[j];
      } else {
        assert c == b[j - |a|];
      }
    }
  }

  lemma KeyOfAssignment(k: Key, ports: EnvPorts)
    ensures KeyOf(Assignment(k, ports)) == Some(k)
  {
    var a := Assignment(k, ports);
    assert !IsWhitespace(a[0]);
    assert TrimStart(a) == a;
    assert a[..|Prefix(k)|] == Prefix(k);
  }

  /** Every line of the result is plain and is left as it is by a second
      rewrite. */
  lemma UpdatedLinesStable(content: string, ports: EnvPorts, i: nat)
    requires '\r' !in content
    requires i < |UpdatedLines(content, ports)|
    ensures var l := UpdatedLines(content, ports)[i]; IsPlainLine(l) && RewriteLine(l, ports) == l
  {
    if i < |Lines(content)| {
      ExistingLineStable(content, ports, i);
    } else {
      AppendedLineStable(content, ports, i);
    }
  }

  lemma ExistingLineStable(content: string, ports: EnvPorts, i: nat)
    requires '\r' !in content
    requires i < |Lines(content)|
    ensures |Lines(content)| <= |UpdatedLines(content, ports)|
    ensures var l := UpdatedLines(content, ports)[i]; IsPlainLine(l) && RewriteLine(l, ports) == l
  {
    var ls := Lines(content);
    ExistingLinesRewritten(content, ports, i);
    match KeyOf(ls[i])
    case Some(k) =>
      AssignmentIsPlain(k, ports);
      KeyOfAssignment(k, ports);
    case None =>
      LinesHaveNoNewline(content, i);
      assert '\r' !in ls[i] by {
        if '\r' in ls[i] { LinesKeepCharacters(content, i, '\r'); }
      }
  }

  lemma AppendedLineStable(content: string, ports: EnvPorts, i: nat)
    requires |Lines(content)| <= i < |UpdatedLines(content, ports)|
    ensures var l := UpdatedLines(content, ports)[i]; IsPlainLine(l) && RewriteLine(l, ports) == l
  {
    var n := |Lines(content)|;
    var all := UpdatedLines(content, ports);
    var sep: seq<string> := if NeedsSeparator(content) then [""] else [];
    var m := Missing(Lines(content), ports);
    AppendedLines(content, ports);
    var l := all[i];
    assert l == (sep + m)[i - n];
    if i - n < |sep| {
      assert l == "";
      assert TrimStart(l) == l;
    } else {
      assert l == m[i - n - |sep|];
      MissingAreAssignments(Lines(content), ports, i - n - |sep|);
      var k :| l == Assignment(k, ports);
      AssignmentIsPlain(k, ports);
      KeyOfAssignment(k, ports);
    }
  }

  /** Every appended line is the assignment of one of the three variables. */
  lemma MissingAreAssignments(ls: seq<string>, ports: EnvPorts, j: nat)
    requires j < |Missing(ls, ports)|
    ensures exists k :: Missing(ls, ports)[j] == Assignment(k, ports)
  {
    var f := if HasKey(ls, Frontend) then [] else [Assignment(Frontend, ports)];
    var b := if HasKey(ls, Backend) then [] else [Assignment(Backend, ports)];
    var d := if HasKey(ls, Database) then [] else [Assignment(Database, ports)];
    var m := Missing(ls, ports);
    if j < |f| {
      assert m[j] == Assignment(Frontend, ports);
    } else if j < |f| + |b| {
      assert m[j] == Assignment(Backend, ports);
    } else {
      assert m[j] == Assignment(Database, ports);
    }
  }

  lemma {:induction false} RewriteAllFixed(ls: seq<string>, ports: EnvPorts)
    requires forall i :: 0 <= i < |ls| ==> RewriteLine(ls[i], ports) == ls[i]
    ensures RewriteAll(ls, ports) == ls
  {
    if ls != [] {
      RewriteAllFixed(ls[..|ls| - 1], ports);
      assert ls[..|ls| - 1] + [ls[|ls| - 1]] == ls;
    }
  }

  /** The result sets each of the three variables. */
  lemma UpdatedLinesHaveKeys(content: string, ports: EnvPorts, k: Key)
    ensures HasKey(UpdatedLines(content, ports), k)
  {
    var all := UpdatedLines(content, ports);
    EveryKeyAssigned(content, ports, k);
    var i :| 0 <= i < |all| && all[i] == Assignment(k, ports);
    KeyOfAssignment(k, ports);
    assert KeyAt(all, i) == Some(k);
  }

  /** Reading the result back gives the lines it was written from, and
      rewriting them again leaves them as they are. */
  lemma UpdatedLinesReread(content: string, ports: EnvPorts)
    requires '\r' !in content
    ensures Lines(UpdateEnv(content, ports)) == UpdatedLines(content, ports)
    ensures RewriteAll(UpdatedLines(content, ports), ports) == UpdatedLines(content, ports)
  {
    var all := UpdatedLines(content, ports);
    forall i | 0 <= i < |all| ensures IsPlainLine(all[i]) && RewriteLine(all[i], ports) == all[i] {
      UpdatedLinesStable(content, ports, i);
    }
    LinesOfTerminated(all);
    RewriteAllFixed(all, ports);
  }

  /** Content whose lines are all left alone, that ends in a newline and
      sets all three variables gets no line changed and none added. */
  lemma UpdatedLinesOfComplete(c: string, ports: EnvPorts)
    requires RewriteAll(Lines(c), ports) == Lines(c) && !NeedsSeparator(c)
    requires HasKey(Lines(c), Frontend) && HasKey(Lines(c), Backend) && HasKey(Lines(c), Database)
    ensures UpdatedLines(c, ports) == Lines(c)
  {
    assert Missing(Lines(c), ports) == [];
  }

  /** Rewriting a file that has no carriage return, then rewriting the
      result with the same ports, changes nothing more. */
  lemma UpdateEnvIdempotent(content: string, ports: EnvPorts)
    requires '\r' !in content
    ensures UpdateEnv(UpdateEnv(content, ports), ports) == UpdateEnv(content, ports)
  {
    var all := UpdatedLines(content, ports);
    var out := UpdateEnv(content, ports);
    UpdatedLinesReread(content, ports);
    UpdateEnvEndsWithNewline(content, ports);
    UpdatedLinesHaveKeys(content, ports, Frontend);
    UpdatedLinesHaveKeys(content, ports, Backend);
    UpdatedLinesHaveKeys(content, ports, Database);
    UpdatedLinesOfComplete(out, ports);
  }

  /** An empty or absent `.env` becomes the three assignments. */
  lemma UpdateEmpty(content: string, ports: EnvPorts)
    requires content == []
    ensures UpdateEnv(content, ports)
         == Assignment(Frontend, ports) + "\n" + Assignment(Backend, ports) + "\n" + Assignment(Database, ports) + "\n"
  {
    var f, b, d := Assignment(Frontend, ports), Assignment(Backend, ports), Assignment(Database, ports);
    UpdatedLinesOfEmpty(content, ports);
    TerminatedThree(f, b, d);
  }

  lemma UpdatedLinesOfEmpty(content: string, ports: EnvPorts)
    requires content == []
    ensures UpdatedLines(content, ports) == [Assignment(Frontend, ports), Assignment(Backend, ports), Assignment(Database, ports)]
  {
    var ls := Lines(content);
    assert ls == [];
    assert !HasKey(ls, Frontend) && !HasKey(ls, Backend) && !HasKey(ls, Database);
  }

  lemma TerminatedThree(f: string, b: string, d: string)
    ensures Terminated([f, b, d]) == f + "\n" + b + "\n" + d + "\n"
  {
    var nl := "\n";
    var all := [f, b, d];
    assert all[1..] == [b, d] && all[1..][1..] == [d] && all[1..][1..][1..] == [];
    assert Terminated([d]) == d + nl;
    assert Terminated([b, d]) == b + nl + (d + nl);
    assert Terminated(all) == f + nl + (b + nl + (d + nl));
  }
}
