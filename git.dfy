/** `src/git.rs`: the repository handle, the parser of
    `git worktree list --porcelain`, the filter over `git branch --merged main`
    and the reading of `git rev-list --count`.

    Every git subprocess is replaced by a field of `Repo`: the text a query
    prints is a constant (an oracle), and the refs and worktrees that removal
    and branch commands change are mutable fields. */
module Git {
  import opened Wrappers
  import opened Text

  /** One working tree as listed by git. */
  datatype WorktreeInfo = WorktreeInfo(path: string, branch: Option<string>, isDetached: bool)

  const WorktreeMarker: string := "worktree "
  const BranchMarker: string := "branch refs/heads/"
  const DetachedMarker: string := "detached"

  predicate IsRecordStart(line: string) {
    StartsWith(line, WorktreeMarker)
  }

  predicate NoRecordStart(lines: seq<string>) {
    forall i :: 0 <= i < |lines| ==> !IsRecordStart(lines[i])
  }

  /** The number of lines that open a record. */
  function CountRecordStarts(lines: seq<string>): nat {
    if lines == [] then 0
    else CountRecordStarts(lines[..|lines| - 1]) + (if IsRecordStart(lines[|lines| - 1]) then 1 else 0)
  }

  // ---------------------------------------------------------------------
  // The worktree-list parser as a state machine over lines

  /** The parser's three variables and the records pushed so far. */
  datatype ParserState = ParserState(
    worktrees: seq<WorktreeInfo>,
    currentPath: Option<string>,
    currentBranch: Option<string>,
    isDetached: bool)

  const InitialState := ParserState([], None, None, false)

  /** The records of `st`, the open one included. */
  function Finish(st: ParserState): seq<WorktreeInfo> {
    if st.currentPath.Some? then
      st.worktrees + [WorktreeInfo(st.currentPath.value, st.currentBranch, st.isDetached)]
    else st.worktrees
  }

  /** One line of input. A `worktree ` line pushes the open record, taking
      its branch with it; the branch survives only when there was no open
      record. */
  function Step(st: ParserState, line: string): ParserState {
    if IsRecordStart(line) then
      ParserState(
        Finish(st),
        Some(TrimStartMatches(line, WorktreeMarker)),
        if st.currentPath.Some? then None else st.currentBranch,
        false)
    else if StartsWith(line, BranchMarker) then
      st.(currentBranch := Some(TrimStartMatches(line, BranchMarker)))
    else if line == DetachedMarker then
      st.(isDetached := true)
    else st
  }

  function RunFrom(st: ParserState, lines: seq<string>): ParserState {
    if lines == [] then st else Step(RunFrom(st, lines[..|lines| - 1]), lines[|lines| - 1])
  }

  /** The records `parse_worktree_list` returns for these lines. */
  function ParseLines(lines: seq<string>): seq<WorktreeInfo> {
    Finish(RunFrom(InitialState, lines))
  }

  /** `parse_worktree_list` (it never fails, so the `Result` is dropped). */
  method ParseWorktreeList(output: string) returns (worktrees: seq<WorktreeInfo>)
    ensures worktrees == ParseLines(Lines(output))
  {
    var lines := Lines(output);
    worktrees := [];
    var currentPath: Option<string> := None;
    var currentBranch: Option<string> := None;
    var isDetached := false;
    var i := 0;
    while i < |lines|
      invariant 0 <= i <= |lines|
      invariant ParserState(worktrees, currentPath, currentBranch, isDetached) == RunFrom(InitialState, lines[..i])
    {
      var line := lines[i];
      assert lines[..i + 1][..i] == lines[..i];
      if StartsWith(line, WorktreeMarker) {
        if currentPath.Some? {
          worktrees := worktrees + [WorktreeInfo(currentPath.value, currentBranch, isDetached)];
          currentBranch := None;
        }
        currentPath := Some(TrimStartMatches(line, WorktreeMarker));
        isDetached := false;
      } else if StartsWith(line, BranchMarker) {
        currentBranch := Some(TrimStartMatches(line, BranchMarker));
      } else if line == DetachedMarker {
        isDetached := true;
      }
      i := i + 1;
    }
    assert lines[..i] == lines;
    if currentPath.Some? {
      worktrees := worktrees + [WorktreeInfo(currentPath.value, currentBranch, isDetached)];
    }
  }

  // ---------------------------------------------------------------------
  // What the parser promises

  /** The branch named by the last `branch refs/heads/` line of `lines`, or `d`. */
  function LastBranchOr(lines: seq<string>, d: Option<string>): Option<string> {
    if lines == [] then d
    else
      var last := lines[|lines| - 1];
      if !IsRecordStart(last) && StartsWith(last, BranchMarker) then Some(TrimStartMatches(last, BranchMarker))
      else LastBranchOr(lines[..|lines| - 1], d)
  }

  lemma {:induction false} RunFromAppend(st: ParserState, a: seq<string>, b: seq<string>)
    ensures RunFrom(st, a + b) == RunFrom(RunFrom(st, a), b)
  {
    if b == [] {
      assert a + b == a;
    } else {
      assert (a + b)[..|a + b| - 1] == a + b[..|b| - 1];
      RunFromAppend(st, a, b[..|b| - 1]);
    }
  }

  /** Lines inside a record only ever touch its branch and its detached flag. */
  lemma {:induction false} RunBody(st: ParserState, body: seq<string>)
    requires NoRecordStart(body)
    ensures RunFrom(st, body) == st.(currentBranch := LastBranchOr(body, st.currentBranch),
                                     isDetached := st.isDetached || DetachedMarker in body)
  {
    if body != [] {
      var prefix := body[..|body| - 1];
      assert body == prefix + [body[|body| - 1]];
      RunBody(st, prefix);
    }
  }

  lemma {:induction false} LastBranchOrAppend(a: seq<string>, b: seq<string>, d: Option<string>)
    ensures LastBranchOr(a + b, d) == LastBranchOr(b, LastBranchOr(a, d))
  {
    if b == [] {
      assert a + b == a;
    } else {
      assert (a + b)[..|a + b| - 1] == a + b[..|b| - 1];
      LastBranchOrAppend(a, b[..|b| - 1], d);
    }
  }

  lemma {:induction false} RunFromOpensRecord(st: ParserState, lines: seq<string>)
    requires !NoRecordStart(lines)
    ensures RunFrom(st, lines).currentPath.Some?
  {
    var prefix := lines[..|lines| - 1];
    if !IsRecordStart(lines[|lines| - 1]) {
      assert !NoRecordStart(prefix) by {
        var i :| 0 <= i < |lines| && IsRecordStart(lines[i]);
        assert prefix[i] == lines[i];
      }
      RunFromOpensRecord(st, prefix);
    }
  }

  /** No `worktree ` line, no record: nothing is emitted without a path. */
  lemma ParseWithoutRecords(lines: seq<string>)
    requires NoRecordStart(lines)
    ensures ParseLines(lines) == []
  {
    RunBody(InitialState, lines);
  }

  /** A `worktree ` line and the lines up to the next one contribute exactly
      one record, appended after those of the earlier lines: its path is the
      line with the prefix stripped, its branch the last branch line inside
      it, and it is detached iff a line `detached` occurs inside it. */
  lemma ParseAppendRecord(pre: seq<string>, w: string, body: seq<string>)
    requires !NoRecordStart(pre) && IsRecordStart(w) && NoRecordStart(body)
    ensures ParseLines(pre + [w] + body)
         == ParseLines(pre) + [WorktreeInfo(TrimStartMatches(w, WorktreeMarker), LastBranchOr(body, None),
                                            DetachedMarker in body)]
  {
    RunFromAppend(InitialState, pre + [w], body);
    RunFromAppend(InitialState, pre, [w]);
    assert RunFrom(RunFrom(InitialState, pre), [w]) == Step(RunFrom(InitialState, pre), w) by {
      assert [w][..0] == [];
    }
    RunFromOpensRecord(InitialState, pre);
    RunBody(RunFrom(InitialState, pre + [w]), body);
  }

  /** The first record: a branch line that comes before any `worktree ` line
      is still pending when the first record opens, and counts for it unless
      the record has a branch line of its own. */
  lemma ParseFirstRecord(pre: seq<string>, w: string, body: seq<string>)
    requires NoRecordStart(pre) && IsRecordStart(w) && NoRecordStart(body)
    ensures ParseLines(pre + [w] + body)
         == [WorktreeInfo(TrimStartMatches(w, WorktreeMarker), LastBranchOr(pre + body, None),
                          DetachedMarker in body)]
  {
    RunFromAppend(InitialState, pre + [w], body);
    RunFromAppend(InitialState, pre, [w]);
    assert RunFrom(RunFrom(InitialState, pre), [w]) == Step(RunFrom(InitialState, pre), w) by {
      assert [w][..0] == [];
    }
    RunBody(InitialState, pre);
    RunBody(RunFrom(InitialState, pre + [w]), body);
    LastBranchOrAppend(pre, body, None);
  }

  /** Exactly one record per `worktree ` line. */
  lemma {:induction false} ParseCount(lines: seq<string>)
    ensures |ParseLines(lines)| == CountRecordStarts(lines)
  {
    CountFrom(InitialState, lines);
  }

  lemma {:induction false} CountFrom(st: ParserState, lines: seq<string>)
    ensures |Finish(RunFrom(st, lines))| == |Finish(st)| + CountRecordStarts(lines)
  {
    if lines != [] {
      CountFrom(st, lines[..|lines| - 1]);
    }
  }

  /** A line that is none of the three markers (`HEAD …`, `bare`, `locked`,
      `prunable`, blank) changes nothing. */
  lemma ParseIgnoresUnknownLine(a: seq<string>, x: string, b: seq<string>)
    requires !IsRecordStart(x) && !StartsWith(x, BranchMarker) && x != DetachedMarker
    ensures ParseLines(a + [x] + b) == ParseLines(a + b)
  {
    RunFromAppend(InitialState, a + [x], b);
    RunFromAppend(InitialState, a, [x]);
    assert RunFrom(RunFrom(InitialState, a), [x]) == Step(RunFrom(InitialState, a), x) by {
      assert [x][..0] == [];
    }
    RunFromAppend(InitialState, a, b);
  }

  // ---------------------------------------------------------------------
  // `git branch --merged main` and `git rev-list --count`

  /** The filters of `get_merged_branches`: blank lines, lines with `*` (the
      checked-out branch) and lines reading `main` or `master` are dropped. */
  predicate KeepsMergedLine(line: string) {
    Trim(line) != [] && '*' !in line && Trim(line) != "main" && Trim(line) != "master"
  }

  /** The map of `get_merged_branches`: trim, then strip leading `+ ` (a
      branch checked out in another worktree). */
  function MergedBranchName(line: string): string {
    TrimStartMatches(Trim(line), "+ ")
  }

  lemma MergedBranchNameWellFormed(line: string)
    requires KeepsMergedLine(line)
    ensures MergedBranchName(line) != [] && '*' !in MergedBranchName(line)
  {
    var t := Trim(line);
    var r := MergedBranchName(line);
    TrimKeepsCharacters(line);
    if r == [] {
      RepetitionLast(t[..|t|], "+ ");
    }
    assert forall c :: c in r ==> c in t by {
      forall c | c in r ensures c in t {
        var i :| 0 <= i < |r| && r[i] == c;
        assert t[|t| - |r| + i] == c;
      }
    }
  }

  /** The branch names listed, in output order. */
  function FilterMergedLines(lines: seq<string>): (names: seq<string>)
    ensures |names| <= |lines|
    ensures forall i :: 0 <= i < |names| ==> names[i] != [] && '*' !in names[i]
  {
    if lines == [] then []
    else
      var rest := FilterMergedLines(lines[1..]);
      if KeepsMergedLine(lines[0]) then
        MergedBranchNameWellFormed(lines[0]);
        var names := [MergedBranchName(lines[0])] + rest;
        assert forall i :: 0 < i < |names| ==> names[i] == rest[i - 1];
        names
      else rest
  }

  /** A name is listed iff some kept line carries it. */
  lemma {:induction false} FilterMergedLinesMembers(lines: seq<string>, b: string)
    ensures b in FilterMergedLines(lines) <==> exists i :: 0 <= i < |lines| && KeepsMergedLine(lines[i]) && MergedBranchName(lines[i]) == b
  {
    if lines != [] {
      FilterMergedLinesMembers(lines[1..], b);
      if exists i :: 0 <= i < |lines| && KeepsMergedLine(lines[i]) && MergedBranchName(lines[i]) == b {
        var i :| 0 <= i < |lines| && KeepsMergedLine(lines[i]) && MergedBranchName(lines[i]) == b;
        if i > 0 {
          assert lines[1..][i - 1] == lines[i];
        }
      }
      if exists i :: 0 <= i < |lines| - 1 && KeepsMergedLine(lines[1..][i]) && MergedBranchName(lines[1..][i]) == b {
        var i :| 0 <= i < |lines| - 1 && KeepsMergedLine(lines[1..][i]) && MergedBranchName(lines[1..][i]) == b;
        assert lines[i + 1] == lines[1..][i];
      }
    }
  }

  /** What `get_merged_branches` returns for this output of `git branch --merged main`. */
  function MergedBranchNames(output: string): seq<string> {
    FilterMergedLines(Lines(output))
  }

  /** `has_unmerged_commits` once git has printed `out`:
      `out.trim().parse::<i32>().unwrap_or(0) > 0`. */
  function CountIsPositive(out: string): bool {
    match ParseI32(Trim(out))
    case Some(n) => n > 0
    case None => false
  }

  /** For the count git prints, the check is true iff the count is positive
      and fits in an `i32`; a count of 2^31 or more reads as an error and so
      as "no unmerged commits". */
  lemma RevListCountRoundTrip(n: nat)
    ensures CountIsPositive(NatToString(n) + "\n") == (0 < n <= I32Max)
  {
    var s := NatToString(n);
    NatToStringDigits(n);
    TrimDigitsLine(s);
    ParseI32Digits(s);
  }

  /** A line of digits read back through `trim` is its digits. */
  lemma TrimDigitsLine(s: string)
    requires s != [] && AllDigits(s)
    ensures Trim(s + "\n") == s
  {
    var out := s + "\n";
    assert IsDigit(out[0]);
    assert TrimStart(out) == out;
    assert out[..|out| - 1] == s;
    assert TrimEnd(out) == TrimEnd(s);
    assert IsDigit(s[|s| - 1]);
  }

  // ---------------------------------------------------------------------
  // The repository

  /** `GitRepo`: the root directory plus what git would answer and do. */
  class Repo {
    /** The main checkout's path, spelled as `git worktree list --porcelain` spells it. */
    const rootDir: string
    /** What `git branch --merged main` prints. */
    const mergedOutput: string
    /** What `git rev-list --count main..<branch>` prints; a branch without
        an entry is one for which git cannot be run. */
    const revListOutput: map<string, string>
    /** The branches for which `git merge-base --is-ancestor <branch> main`
        cannot be run, and those it reports as ancestors of `main`. */
    const ancestryFailures: set<string>
    const ancestorsOfMain: set<string>
    /** The paths for which `git worktree remove --force` cannot be run. */
    const removeFailures: set<string>
    /** The paths for which it runs but exits non-zero (a locked worktree,
        say): the exit status is not checked, so the call reports success
        and nothing changes. */
    const removeRefusals: set<string>
    /** The branches for which `git branch -D` cannot be run, and those for
        which it runs but exits non-zero, again reported as success. */
    const deleteFailures: set<string>
    const deleteRefusals: set<string>
    /** The branches for which `git show-ref` cannot be run. */
    const branchQueryFailures: set<string>
    /** The branches on the remote, and whether asking for them fails. */
    const remoteBranches: set<string>
    const remoteQueryFails: bool

    /** The working trees git knows, the local branches, and the branches fetched from the remote. */
    var worktrees: seq<WorktreeInfo>
    var branches: set<string>
    var fetched: set<string>

    constructor (rootDir: string, mergedOutput: string, revListOutput: map<string, string>,
                 ancestryFailures: set<string>, ancestorsOfMain: set<string>,
                 removeFailures: set<string>, removeRefusals: set<string>,
                 deleteFailures: set<string>, deleteRefusals: set<string>, branchQueryFailures: set<string>,
                 remoteBranches: set<string>, remoteQueryFails: bool,
                 worktrees: seq<WorktreeInfo>, branches: set<string>)
      ensures this.rootDir == rootDir && this.mergedOutput == mergedOutput
      ensures this.revListOutput == revListOutput
      ensures this.ancestryFailures == ancestryFailures && this.ancestorsOfMain == ancestorsOfMain
      ensures this.removeFailures == removeFailures && this.deleteFailures == deleteFailures
      ensures this.removeRefusals == removeRefusals && this.deleteRefusals == deleteRefusals
      ensures this.branchQueryFailures == branchQueryFailures
      ensures this.remoteBranches == remoteBranches && this.remoteQueryFails == remoteQueryFails
      ensures this.worktrees == worktrees && this.branches == branches && this.fetched == {}
    {
      this.rootDir := rootDir;
      this.mergedOutput := mergedOutput;
      this.revListOutput := revListOutput;
      this.ancestryFailures := ancestryFailures;
      this.ancestorsOfMain := ancestorsOfMain;
      this.removeFailures := removeFailures;
      this.deleteFailures := deleteFailures;
      this.removeRefusals := removeRefusals;
      this.deleteRefusals := deleteRefusals;
      this.branchQueryFailures := branchQueryFailures;
      this.remoteBranches := remoteBranches;
      this.remoteQueryFails := remoteQueryFails;
      this.worktrees := worktrees;
      this.branches := branches;
      this.fetched := {};
    }

    predicate RemoveSucceeds(path: string) {
      path !in removeFailures
    }

    predicate DeleteSucceeds(branch: string) {
      branch !in deleteFailures
    }

    /** The call reports success and git really removed the worktree. */
    predicate RemoveTakesEffect(path: string) {
      RemoveSucceeds(path) && path !in removeRefusals
    }

    /** The call reports success and git really deleted the branch. */
    predicate DeleteTakesEffect(branch: string) {
      DeleteSucceeds(branch) && branch !in deleteRefusals
    }

    predicate BranchQueryFails(branch: string) {
      branch in branchQueryFailures
    }

    /** `get_merged_branches`. */
    function GetMergedBranches(): seq<string> {
      MergedBranchNames(mergedOutput)
    }

    /** `has_unmerged_commits`: an error only when git cannot be run. */
    function HasUnmergedCommits(branch: string): Result<bool> {
      if branch in revListOutput then Ok(CountIsPositive(revListOutput[branch])) else Err
    }

    /** `is_branch_merged`. */
    function IsBranchMerged(branch: string): Result<bool> {
      if branch in ancestryFailures then Err else Ok(branch in ancestorsOfMain)
    }

    /** `branch_exists`. */
    function BranchExists(branch: string): Result<bool>
      reads this
    {
      if BranchQueryFails(branch) then Err else Ok(branch in branches)
    }

    /** `remote_branch_exists` (called by setup, not defined in `src/git.rs`). */
    function RemoteBranchExists(branch: string): Result<bool> {
      if remoteQueryFails then Err else Ok(branch in remoteBranches)
    }

    /** `remove_worktree(path, true)`: an error only when git cannot be run;
        when git also exits zero it forgets every worktree at `path`. */
    method RemoveWorktree(path: string) returns (ok: bool)
      modifies this
      ensures ok == RemoveSucceeds(path)
      ensures worktrees == if RemoveTakesEffect(path) then WithoutPath(old(worktrees), path) else old(worktrees)
      ensures branches == old(branches) && fetched == old(fetched)
    {
      ok := RemoveSucceeds(path);
      if ok && path !in removeRefusals {
        worktrees := WithoutPath(worktrees, path);
      }
    }

    /** `delete_branch`: an error only when git cannot be run; when git also
        exits zero the branch is gone. */
    method DeleteBranch(branch: string) returns (ok: bool)
      modifies this
      ensures ok == DeleteSucceeds(branch)
      ensures branches == if DeleteTakesEffect(branch) then old(branches) - {branch} else old(branches)
      ensures worktrees == old(worktrees) && fetched == old(fetched)
    {
      ok := DeleteSucceeds(branch);
      if ok && branch !in deleteRefusals {
        branches := branches - {branch};
      }
    }

    /** `create_branch`: `git checkout -b <branch>` and back. */
    method CreateBranch(branch: string)
      modifies this
      ensures branches == old(branches) + {branch}
      ensures worktrees == old(worktrees) && fetched == old(fetched)
    {
      branches := branches + {branch};
    }

    /** `fetch_remote_branch` (called by setup, not defined in `src/git.rs`). */
    method FetchRemoteBranch(branch: string)
      modifies this
      ensures fetched == old(fetched) + {branch}
      ensures worktrees == old(worktrees) && branches == old(branches)
    {
      fetched := fetched + {branch};
    }

    /** `create_tracking_branch` (called by setup, not defined in `src/git.rs`). */
    method CreateTrackingBranch(branch: string)
      modifies this
      ensures branches == old(branches) + {branch}
      ensures worktrees == old(worktrees) && fetched == old(fetched)
    {
      branches := branches + {branch};
    }
  }

  /** The worktrees not at `p`, in order. */
  function WithoutPath(ws: seq<WorktreeInfo>, p: string): (r: seq<WorktreeInfo>)
    ensures |r| <= |ws|
  {
    DropPaths(ws, {p})
  }

  /** Removing the worktree at `p` keeps exactly the others. */
  lemma WithoutPathMembers(ws: seq<WorktreeInfo>, p: string, w: WorktreeInfo)
    ensures w in WithoutPath(ws, p) <==> w in ws && w.path != p
  {
    DropPathsMembers(ws, {p}, w);
  }

  /** The worktrees whose path is not in `ps`, in order. */
  function DropPaths(ws: seq<WorktreeInfo>, ps: set<string>): (r: seq<WorktreeInfo>)
    ensures |r| <= |ws|
  {
    if ws == [] then []
    else (if ws[0].path in ps then [] else [ws[0]]) + DropPaths(ws[1..], ps)
  }

  lemma {:induction false} DropPathsMembers(ws: seq<WorktreeInfo>, ps: set<string>, w: WorktreeInfo)
    ensures w in DropPaths(ws, ps) <==> w in ws && w.path !in ps
  {
    if ws != [] {
      DropPathsMembers(ws[1..], ps, w);
      assert ws == [ws[0]] + ws[1..];
    }
  }

  lemma {:induction false} DropPathsTwice(ws: seq<WorktreeInfo>, ps: set<string>, qs: set<string>)
    ensures DropPaths(DropPaths(ws, ps), qs) == DropPaths(ws, ps + qs)
  {
    if ws != [] {
      DropPathsTwice(ws[1..], ps, qs);
      var w := ws[0];
      var inner := DropPaths(ws[1..], ps);
      if w.path in ps {
        assert DropPaths(ws, ps) == inner;
      } else {
        assert DropPaths(ws, ps) == [w] + inner;
        assert ([w] + inner)[1..] == inner;
      }
    }
  }

  lemma {:induction false} DropNoPaths(ws: seq<WorktreeInfo>)
    ensures DropPaths(ws, {}) == ws
  {
    if ws != [] {
      DropNoPaths(ws[1..]);
    }
  }
}
