/** `src/commands/cleanup.rs`: which worktrees the `cleanup` command removes,
    skips or ignores in each of its four modes. */
module Cleanup {
  import opened Wrappers
  import opened Text
  import opened Git

  datatype CleanupMode = Merged | Pattern(pattern: string) | Interactive | Status

  /** `WorktreeAction`: the fate of one worktree in merged mode. */
  datatype WorktreeAction = Removed | Skipped | Ignored

  // ---------------------------------------------------------------------
  // The merged-branch list

  /** `unwrap_or(true)` on the unique-commit check: a branch stays a
      candidate when it has commits not in `main` or when the check failed. */
  predicate KeptByUniqueCommitCheck(check: Result<bool>) {
    check != Ok(false)
  }

  predicate IsCandidateBranch(repo: Repo, b: string, exclude: Option<string>) {
    exclude != Some(b) && KeptByUniqueCommitCheck(repo.HasUnmergedCommits(b))
  }

  /** The first `retain`: every branch but the excluded one, in order. */
  function Excluding(bs: seq<string>, exclude: Option<string>): seq<string> {
    if bs == [] then []
    else
      var last := bs[|bs| - 1];
      Excluding(bs[..|bs| - 1], exclude) + (if exclude != Some(last) then [last] else [])
  }

  /** The second `retain`: the branches the unique-commit check keeps, in order. */
  function WithUniqueCommits(repo: Repo, bs: seq<string>): seq<string> {
    if bs == [] then []
    else
      var last := bs[|bs| - 1];
      WithUniqueCommits(repo, bs[..|bs| - 1])
        + (if KeptByUniqueCommitCheck(repo.HasUnmergedCommits(last)) then [last] else [])
  }

  /** Both filters in one pass: the branches merged-mode cleanup considers. */
  function CandidateBranches(repo: Repo, bs: seq<string>, exclude: Option<string>): (r: seq<string>)
    ensures |r| <= |bs|
  {
    if bs == [] then []
    else
      var last := bs[|bs| - 1];
      CandidateBranches(repo, bs[..|bs| - 1], exclude)
        + (if IsCandidateBranch(repo, last, exclude) then [last] else [])
  }

  /** Filtering twice is filtering once by both tests. */
  lemma {:induction false} RetainTwice(repo: Repo, bs: seq<string>, exclude: Option<string>)
    ensures WithUniqueCommits(repo, Excluding(bs, exclude)) == CandidateBranches(repo, bs, exclude)
  {
    if bs != [] {
      var last := bs[|bs| - 1];
      var inner := Excluding(bs[..|bs| - 1], exclude);
      RetainTwice(repo, bs[..|bs| - 1], exclude);
      if exclude != Some(last) {
        assert (inner + [last])[..|inner + [last]| - 1] == inner;
      } else {
        assert Excluding(bs, exclude) == inner;
      }
    }
  }

  /** A branch is a candidate exactly when git lists it as merged, it is not
      the excluded one, and its unique-commit check is not `Ok(false)`. */
  lemma {:induction false} CandidateBranchesMembers(repo: Repo, bs: seq<string>, exclude: Option<string>, b: string)
    ensures b in CandidateBranches(repo, bs, exclude) <==> b in bs && IsCandidateBranch(repo, b, exclude)
  {
    if bs != [] {
      var init := bs[..|bs| - 1];
      CandidateBranchesMembers(repo, init, exclude, b);
      assert bs == init + [bs[|bs| - 1]];
    }
  }

  /** The candidates keep the order of `git branch --merged`. */
  lemma {:induction false} CandidateBranchesInOrder(repo: Repo, bs: seq<string>, exclude: Option<string>)
    ensures IsSubsequence(CandidateBranches(repo, bs, exclude), bs)
  {
    if bs != [] {
      var last := bs[|bs| - 1];
      var init := bs[..|bs| - 1];
      CandidateBranchesInOrder(repo, init, exclude);
      SubsequenceStep(CandidateBranches(repo, init, exclude), init, last, IsCandidateBranch(repo, last, exclude));
      assert init + [last] == bs;
    }
  }

  /** What the filtered list is: the candidates, in git's order. */
  lemma CandidateBranchesFacts(repo: Repo, all: seq<string>, exclude: Option<string>)
    ensures IsSubsequence(CandidateBranches(repo, all, exclude), all)
    ensures forall b :: b in CandidateBranches(repo, all, exclude) <==> b in all && IsCandidateBranch(repo, b, exclude)
  {
    CandidateBranchesInOrder(repo, all, exclude);
    forall b | true
      ensures b in CandidateBranches(repo, all, exclude) <==> b in all && IsCandidateBranch(repo, b, exclude)
    {
      CandidateBranchesMembers(repo, all, exclude, b);
    }
  }

  /** The first `retain`, over the list in place. */
  method RetainNotExcluded(all: seq<string>, exclude: Option<string>) returns (kept: seq<string>)
    ensures kept == Excluding(all, exclude)
  {
    kept := [];
    var i := 0;
    while i < |all|
      invariant 0 <= i <= |all|
      invariant kept == Excluding(all[..i], exclude)
    {
      assert all[..i + 1][..i] == all[..i];
      if exclude != Some(all[i]) {
        kept := kept + [all[i]];
      }
      i := i + 1;
    }
    assert all[..i] == all;
  }

  /** The second `retain`, over the list in place. */
  method RetainWithUniqueCommits(repo: Repo, kept: seq<string>) returns (merged: seq<string>)
    ensures merged == WithUniqueCommits(repo, kept)
  {
    merged := [];
    var j := 0;
    while j < |kept|
      invariant 0 <= j <= |kept|
      invariant merged == WithUniqueCommits(repo, kept[..j])
    {
      assert kept[..j + 1][..j] == kept[..j];
      var check := repo.HasUnmergedCommits(kept[j]);
      if check.Err? || check.value {
        merged := merged + [kept[j]];
      }
      j := j + 1;
    }
    assert kept[..j] == kept;
  }

  /** `get_filtered_merged_branches`: git's merged list with `exclude_branch`
      dropped and then every branch whose unique-commit check is `Ok(false)`
      dropped. */
  method GetFilteredMergedBranches(repo: Repo, exclude: Option<string>) returns (merged: seq<string>)
    ensures merged == CandidateBranches(repo, repo.GetMergedBranches(), exclude)
    ensures IsSubsequence(merged, repo.GetMergedBranches())
    ensures forall b :: b in merged <==> b in repo.GetMergedBranches() && IsCandidateBranch(repo, b, exclude)
  {
    var all := repo.GetMergedBranches();
    var kept := RetainNotExcluded(all, exclude);
    merged := RetainWithUniqueCommits(repo, kept);
    RetainTwice(repo, all, exclude);
    CandidateBranchesFacts(repo, all, exclude);
  }

  // ---------------------------------------------------------------------
  // One worktree in merged mode

  /** `process_single_worktree` together with `remove_worktree_and_report`:
      a detached worktree is skipped before its branch is even looked up; a
      branch not in the list is ignored; a listed branch with unique commits,
      or whose check failed, is skipped; otherwise removal is attempted and a
      failed removal is a skip. */
  function Classify(repo: Repo, wt: WorktreeInfo, branch: string, merged: seq<string>): (a: WorktreeAction)
    ensures wt.isDetached ==> a == Skipped
    ensures a == Ignored <==> !wt.isDetached && branch !in merged
    ensures a == Removed <==> !wt.isDetached && branch in merged
                              && repo.HasUnmergedCommits(branch) == Ok(false) && repo.RemoveSucceeds(wt.path)
  {
    if wt.isDetached then Skipped
    else if branch !in merged then Ignored
    else match repo.HasUnmergedCommits(branch)
      case Ok(true) => Skipped
      case Err => Skipped
      case Ok(false) => if repo.RemoveSucceeds(wt.path) then Removed else Skipped
  }

  /** `remove_worktree_and_report`. */
  method RemoveWorktreeAndReport(repo: Repo, wt: WorktreeInfo, branch: string) returns (a: WorktreeAction)
    modifies repo
    ensures a == if repo.RemoveSucceeds(wt.path) then Removed else Skipped
    ensures repo.worktrees == if repo.RemoveTakesEffect(wt.path) then WithoutPath(old(repo.worktrees), wt.path)
                              else old(repo.worktrees)
    ensures repo.branches == old(repo.branches) && repo.fetched == old(repo.fetched)
  {
    var ok := repo.RemoveWorktree(wt.path);
    a := if ok then Removed else Skipped;
  }

  /** `process_single_worktree`: removal is attempted only for `Ok(false)`. */
  method ProcessSingleWorktree(repo: Repo, wt: WorktreeInfo, branch: string, merged: seq<string>)
    returns (a: WorktreeAction)
    modifies repo
    ensures a == Classify(repo, wt, branch, merged)
    ensures repo.worktrees == if a == Removed && repo.RemoveTakesEffect(wt.path) then WithoutPath(old(repo.worktrees), wt.path)
                              else old(repo.worktrees)
    ensures repo.branches == old(repo.branches) && repo.fetched == old(repo.fetched)
  {
    if wt.isDetached {
      return Skipped;
    }
    if branch !in merged {
      return Ignored;
    }
    match repo.HasUnmergedCommits(branch)
    case Ok(true) =>
      a := Skipped;
    case Err =>
      a := Skipped;
    case Ok(false) =>
      a := RemoveWorktreeAndReport(repo, wt, branch);
  }

  // ---------------------------------------------------------------------
  // All worktrees in merged mode

  /** A worktree that a cleanup mode may look at: not the main checkout, and on a branch.
      Paths are compared as text. */
  predicate IsCandidateWorktree(repo: Repo, w: WorktreeInfo) {
    w.path != repo.rootDir && w.branch.Some?
  }

  function ActionOf(repo: Repo, w: WorktreeInfo, merged: seq<string>): WorktreeAction
    requires IsCandidateWorktree(repo, w)
  {
    Classify(repo, w, w.branch.value, merged)
  }

  /** How many worktrees of `ws` merged mode classifies as `a`. */
  function Tally(repo: Repo, ws: seq<WorktreeInfo>, merged: seq<string>, a: WorktreeAction): nat {
    if ws == [] then 0
    else
      var w := ws[|ws| - 1];
      Tally(repo, ws[..|ws| - 1], merged, a)
        + (if IsCandidateWorktree(repo, w) && ActionOf(repo, w, merged) == a then 1 else 0)
  }

  function CountCandidateWorktrees(repo: Repo, ws: seq<WorktreeInfo>): nat {
    if ws == [] then 0
    else CountCandidateWorktrees(repo, ws[..|ws| - 1]) + (if IsCandidateWorktree(repo, ws[|ws| - 1]) then 1 else 0)
  }

  /** The paths merged mode really removes (those counted as removed whose
      removal git did not refuse); the main checkout is never among them. */
  function RemovedPaths(repo: Repo, ws: seq<WorktreeInfo>, merged: seq<string>): (ps: set<string>)
    ensures repo.rootDir !in ps
  {
    if ws == [] then {}
    else
      var w := ws[|ws| - 1];
      RemovedPaths(repo, ws[..|ws| - 1], merged)
        + (if IsCandidateWorktree(repo, w) && ActionOf(repo, w, merged) == Removed && repo.RemoveTakesEffect(w.path)
           then {w.path} else {})
  }

  /** What handling the `i`-th worktree adds to the counts and the removed paths. */
  lemma MergedStep(repo: Repo, ws: seq<WorktreeInfo>, merged: seq<string>, i: nat)
    requires i < |ws|
    ensures var w := ws[i];
            var hit := IsCandidateWorktree(repo, w);
            && Tally(repo, ws[..i + 1], merged, Removed)
               == Tally(repo, ws[..i], merged, Removed) + (if hit && ActionOf(repo, w, merged) == Removed then 1 else 0)
            && Tally(repo, ws[..i + 1], merged, Skipped)
               == Tally(repo, ws[..i], merged, Skipped) + (if hit && ActionOf(repo, w, merged) == Skipped then 1 else 0)
            && RemovedPaths(repo, ws[..i + 1], merged)
               == RemovedPaths(repo, ws[..i], merged)
                  + (if hit && ActionOf(repo, w, merged) == Removed && repo.RemoveTakesEffect(w.path) then {w.path} else {})
  {
    assert ws[..i + 1][..i] == ws[..i];
  }

  /** `process_worktrees`: every worktree but the main one that is on a
      branch is classified; `Removed` and `Skipped` are counted. */
  method ProcessWorktrees(repo: Repo, merged: seq<string>) returns (cleaned: nat, skipped: nat)
    modifies repo
    ensures cleaned == Tally(repo, old(repo.worktrees), merged, Removed)
    ensures skipped == Tally(repo, old(repo.worktrees), merged, Skipped)
    ensures repo.worktrees == DropPaths(old(repo.worktrees), RemovedPaths(repo, old(repo.worktrees), merged))
    ensures repo.branches == old(repo.branches) && repo.fetched == old(repo.fetched)
  {
    var worktrees := repo.worktrees;
    cleaned, skipped := 0, 0;
    DropNoPaths(worktrees);
    var i := 0;
    while i < |worktrees|
      invariant 0 <= i <= |worktrees|
      invariant cleaned == Tally(repo, worktrees[..i], merged, Removed)
      invariant skipped == Tally(repo, worktrees[..i], merged, Skipped)
      invariant repo.worktrees == DropPaths(worktrees, RemovedPaths(repo, worktrees[..i], merged))
      invariant repo.branches == old(repo.branches) && repo.fetched == old(repo.fetched)
    {
      var w := worktrees[i];
      MergedStep(repo, worktrees, merged, i);
      ghost var removed := RemovedPaths(repo, worktrees[..i], merged);
      ghost var removed' := RemovedPaths(repo, worktrees[..i + 1], merged);
      if IsCandidateWorktree(repo, w) {
        var a := ProcessSingleWorktree(repo, w, w.branch.value, merged);
        if a == Removed && repo.RemoveTakesEffect(w.path) {
          assert removed' == removed + {w.path};
          DropPathsTwice(worktrees, removed, {w.path});
        } else {
          assert removed' == removed;
        }
        if a == Removed {
          cleaned := cleaned + 1;
        } else if a == Skipped {
          skipped := skipped + 1;
        }
      } else {
        assert removed' == removed;
      }
      i := i + 1;
    }
    assert worktrees[..i] == worktrees;
  }

  /** Removed and skipped together never exceed the candidate worktrees. */
  lemma {:induction false} TallyBound(repo: Repo, ws: seq<WorktreeInfo>, merged: seq<string>)
    ensures Tally(repo, ws, merged, Removed) + Tally(repo, ws, merged, Skipped) <= CountCandidateWorktrees(repo, ws)
  {
    if ws != [] {
      TallyBound(repo, ws[..|ws| - 1], merged);
    }
  }

  /** With the merged list as filtered, nothing is ever removed: a listed
      branch passed the unique-commit check as `Ok(true)` or as an error, and
      the second, identical check then skips it. */
  lemma {:induction false} FilteredListRemovesNothing(repo: Repo, ws: seq<WorktreeInfo>, exclude: Option<string>)
    ensures Tally(repo, ws, CandidateBranches(repo, repo.GetMergedBranches(), exclude), Removed) == 0
    ensures RemovedPaths(repo, ws, CandidateBranches(repo, repo.GetMergedBranches(), exclude)) == {}
  {
    if ws != [] {
      FilteredListRemovesNothing(repo, ws[..|ws| - 1], exclude);
      var w := ws[|ws| - 1];
      if w.branch.Some? {
        CandidateBranchesMembers(repo, repo.GetMergedBranches(), exclude, w.branch.value);
      }
    }
  }

  // ---------------------------------------------------------------------
  // The merged-mode command

  datatype SummaryBanner = NothingToClean | CleanupCompleted

  /** The closing line of `display_cleanup_summary`. */
  function SummaryBannerFor(cleaned: nat, skipped: nat): (b: SummaryBanner)
    ensures b == NothingToClean <==> cleaned == 0 && skipped == 0
  {
    if cleaned == 0 && skipped == 0 then NothingToClean else CleanupCompleted
  }

  datatype MergedReport = NoMergedBranches | Summary(cleaned: nat, skipped: nat)

  /** `cleanup_merged_worktrees_with_exclude`: find the candidates, stop if
      there are none, otherwise process every worktree and report counts. */
  method CleanupMergedWorktreesWithExclude(repo: Repo, exclude: Option<string>) returns (report: MergedReport)
    modifies repo
    ensures var candidates := CandidateBranches(repo, repo.GetMergedBranches(), exclude);
            report == if candidates == [] then NoMergedBranches
                      else Summary(0, Tally(repo, old(repo.worktrees), candidates, Skipped))
    ensures report.Summary? ==> (SummaryBannerFor(report.cleaned, report.skipped) == NothingToClean
                                 <==> report.skipped == 0)
    ensures repo.worktrees == old(repo.worktrees)
    ensures repo.branches == old(repo.branches) && repo.fetched == old(repo.fetched)
  {
    var merged := GetFilteredMergedBranches(repo, exclude);
    if merged == [] {
      return NoMergedBranches;
    }
    FilteredListRemovesNothing(repo, repo.worktrees, exclude);
    DropNoPaths(repo.worktrees);
    var cleaned, skipped := ProcessWorktrees(repo, merged);
    report := Summary(cleaned, skipped);
  }

  // ---------------------------------------------------------------------
  // Removing a worktree and its branch (pattern and interactive modes)

  /** Every one of `ts` is a worktree a cleanup mode may touch. */
  predicate AllCandidates(repo: Repo, ts: seq<WorktreeInfo>) {
    forall i :: 0 <= i < |ts| ==> IsCandidateWorktree(repo, ts[i])
  }

  /** The branch lookup fails after the worktree is gone: the `?` in
      `remove_worktree_with_branch` then aborts the whole command. */
  predicate AbortsOn(repo: Repo, t: WorktreeInfo) {
    t.branch.Some? && repo.RemoveSucceeds(t.path) && repo.BranchQueryFails(t.branch.value)
  }

  predicate NoAbort(repo: Repo, ts: seq<WorktreeInfo>) {
    forall i :: 0 <= i < |ts| ==> !AbortsOn(repo, ts[i])
  }

  /** The paths git forgets when each of `ts` is removed in turn. */
  function RemovedBy(repo: Repo, ts: seq<WorktreeInfo>): set<string> {
    if ts == [] then {}
    else
      var t := ts[|ts| - 1];
      RemovedBy(repo, ts[..|ts| - 1]) + (if repo.RemoveTakesEffect(t.path) then {t.path} else {})
  }

  /** The branches deleted when each of `ts` is removed in turn: deletion is
      tried only once the removal reported success. */
  function DeletedBy(repo: Repo, ts: seq<WorktreeInfo>): set<string> {
    if ts == [] then {}
    else
      var t := ts[|ts| - 1];
      DeletedBy(repo, ts[..|ts| - 1])
        + (if t.branch.Some? && repo.RemoveSucceeds(t.path) && repo.DeleteTakesEffect(t.branch.value)
           then {t.branch.value} else {})
  }

  /** Only the targets' own paths are removed, so the main checkout never is. */
  lemma {:induction false} RemovedByAvoidsMain(repo: Repo, ts: seq<WorktreeInfo>)
    requires AllCandidates(repo, ts)
    ensures repo.rootDir !in RemovedBy(repo, ts)
  {
    if ts != [] {
      RemovedByAvoidsMain(repo, ts[..|ts| - 1]);
    }
  }

  /** The repository once every one of `ts` was removed with its branch, from
      worktrees `ws0` and branches `bs0`. */
  predicate CompletedRun(repo: Repo, ts: seq<WorktreeInfo>, ws0: seq<WorktreeInfo>, bs0: set<string>,
                         ws: seq<WorktreeInfo>, bs: set<string>)
  {
    && NoAbort(repo, ts)
    && ws == DropPaths(ws0, RemovedBy(repo, ts))
    && bs == bs0 - DeletedBy(repo, ts)
  }

  /** The repository once the run stopped at `ts[k]`: the targets before it
      were handled, its worktree was removed, and its branch lookup failed. */
  predicate AbortedRun(repo: Repo, ts: seq<WorktreeInfo>, k: nat, ws0: seq<WorktreeInfo>, bs0: set<string>,
                       ws: seq<WorktreeInfo>, bs: set<string>)
  {
    && k < |ts|
    && NoAbort(repo, ts[..k])
    && AbortsOn(repo, ts[k])
    && ws == DropPaths(ws0, RemovedBy(repo, ts[..k + 1]))
    && bs == bs0 - DeletedBy(repo, ts[..k])
  }

  /** What a removal run over `ts` leaves behind; `ok` says whether it
      returned `Ok`. */
  ghost predicate RunOutcome(repo: Repo, ts: seq<WorktreeInfo>, ws0: seq<WorktreeInfo>, bs0: set<string>,
                       ws: seq<WorktreeInfo>, bs: set<string>, ok: bool)
  {
    if ok then CompletedRun(repo, ts, ws0, bs0, ws, bs)
    else exists k :: AbortedRun(repo, ts, k, ws0, bs0, ws, bs)
  }

  /** A run returns `Ok` exactly when no target aborts it. */
  lemma RunOutcomeOk(repo: Repo, ts: seq<WorktreeInfo>, ws0: seq<WorktreeInfo>, bs0: set<string>,
                     ws: seq<WorktreeInfo>, bs: set<string>, ok: bool)
    requires RunOutcome(repo, ts, ws0, bs0, ws, bs, ok)
    ensures ok <==> NoAbort(repo, ts)
  {
    if !ok {
      var k: nat :| AbortedRun(repo, ts, k, ws0, bs0, ws, bs);
      assert AbortsOn(repo, ts[k]);
    }
  }

  /** Whether a run over candidates completes or stops, the main checkout is
      still there. */
  lemma RunKeepsMainWorktree(repo: Repo, ts: seq<WorktreeInfo>, ws0: seq<WorktreeInfo>, bs0: set<string>,
                             ws: seq<WorktreeInfo>, bs: set<string>, ok: bool, w: WorktreeInfo)
    requires AllCandidates(repo, ts)
    requires w in ws0 && w.path == repo.rootDir
    requires RunOutcome(repo, ts, ws0, bs0, ws, bs, ok)
    ensures w in ws
  {
    if ok {
      RemovedByAvoidsMain(repo, ts);
      DropPathsMembers(ws0, RemovedBy(repo, ts), w);
    } else {
      var k :| AbortedRun(repo, ts, k, ws0, bs0, ws, bs);
      assert AllCandidates(repo, ts[..k + 1]);
      RemovedByAvoidsMain(repo, ts[..k + 1]);
      DropPathsMembers(ws0, RemovedBy(repo, ts[..k + 1]), w);
    }
  }

  /** `remove_worktree_with_branch`: remove the worktree; only if that
      worked, look the branch up and delete it if it still exists. A failed
      removal or deletion is reported and swallowed; a failed lookup is
      returned as an error. */
  method RemoveWorktreeWithBranch(repo: Repo, path: string, branch: string) returns (r: Result<()>)
    modifies repo
    ensures r.Err? <==> repo.RemoveSucceeds(path) && repo.BranchQueryFails(branch)
    ensures repo.worktrees == if repo.RemoveTakesEffect(path) then WithoutPath(old(repo.worktrees), path)
                              else old(repo.worktrees)
    ensures repo.branches == if repo.RemoveSucceeds(path) && !repo.BranchQueryFails(branch) && repo.DeleteTakesEffect(branch)
                             then old(repo.branches) - {branch} else old(repo.branches)
    ensures repo.fetched == old(repo.fetched)
  {
    var removed := repo.RemoveWorktree(path);
    if !removed {
      return Ok(());
    }
    match repo.BranchExists(branch)
    case Err =>
      r := Err;
    case Ok(present) =>
      if present {
        var _ := repo.DeleteBranch(branch);
      } else {
        assert repo.branches - {branch} == repo.branches;
      }
      r := Ok(());
  }

  /** What handling one more target adds to a run. */
  lemma RunStep(repo: Repo, done: seq<WorktreeInfo>, t: WorktreeInfo)
    ensures (done + [t])[..|done|] == done
    ensures RemovedBy(repo, done + [t]) == RemovedBy(repo, done) + (if repo.RemoveTakesEffect(t.path) then {t.path} else {})
    ensures DeletedBy(repo, done + [t])
         == DeletedBy(repo, done) + (if t.branch.Some? && repo.RemoveSucceeds(t.path) && repo.DeleteTakesEffect(t.branch.value)
                                      then {t.branch.value} else {})
    ensures NoAbort(repo, done + [t]) <==> NoAbort(repo, done) && !AbortsOn(repo, t)
  {
    var dt := done + [t];
    assert dt[..|done|] == done;
    assert dt[|done|] == t;
  }

  /** One more target of a run, removed with `remove_worktree_with_branch`. */
  method RemoveNextTarget(repo: Repo, ghost ws0: seq<WorktreeInfo>, ghost bs0: set<string>,
                          ghost done: seq<WorktreeInfo>, t: WorktreeInfo) returns (r: Result<()>)
    requires t.branch.Some?
    requires CompletedRun(repo, done, ws0, bs0, repo.worktrees, repo.branches)
    modifies repo
    ensures r.Err? <==> AbortsOn(repo, t)
    ensures r.Ok? ==> CompletedRun(repo, done + [t], ws0, bs0, repo.worktrees, repo.branches)
    ensures r.Err? ==> && repo.worktrees == DropPaths(ws0, RemovedBy(repo, done + [t]))
                       && repo.branches == bs0 - DeletedBy(repo, done)
    ensures repo.fetched == old(repo.fetched)
  {
    RunStep(repo, done, t);
    ghost var removed := RemovedBy(repo, done);
    ghost var deleted := DeletedBy(repo, done);
    var b := t.branch.value;
    r := RemoveWorktreeWithBranch(repo, t.path, b);
    if repo.RemoveTakesEffect(t.path) {
      assert RemovedBy(repo, done + [t]) == removed + {t.path};
      DropPathsTwice(ws0, removed, {t.path});
    } else {
      assert RemovedBy(repo, done + [t]) == removed;
    }
    if repo.RemoveSucceeds(t.path) && !repo.BranchQueryFails(b) && repo.DeleteTakesEffect(b) {
      assert DeletedBy(repo, done + [t]) == deleted + {b};
      assert repo.branches == bs0 - (deleted + {b});
    } else {
      assert DeletedBy(repo, done + [t]) == deleted || AbortsOn(repo, t);
    }
  }

  /** The run over all targets stops at `t` when it stops at `t` having
      handled `done`, and `done + [t]` begins the targets. */
  lemma StopsAt(repo: Repo, all: seq<WorktreeInfo>, done: seq<WorktreeInfo>, t: WorktreeInfo,
                ws0: seq<WorktreeInfo>, bs0: set<string>, ws: seq<WorktreeInfo>, bs: set<string>)
    requires IsPrefix(done + [t], all)
    requires NoAbort(repo, done) && AbortsOn(repo, t)
    requires ws == DropPaths(ws0, RemovedBy(repo, done + [t])) && bs == bs0 - DeletedBy(repo, done)
    ensures RunOutcome(repo, all, ws0, bs0, ws, bs, false)
  {
    var k := |done|;
    assert all[..k + 1] == done + [t];
    assert all[..k] == (done + [t])[..k] == done;
    assert all[k] == (done + [t])[k] == t;
    assert AbortedRun(repo, all, k, ws0, bs0, ws, bs);
  }

  // ---------------------------------------------------------------------
  // Pattern mode

  predicate IsPatternTarget(repo: Repo, w: WorktreeInfo, pattern: string) {
    IsCandidateWorktree(repo, w) && Contains(w.path, pattern)
  }

  /** The worktrees pattern mode removes, in order. */
  function PatternTargets(repo: Repo, ws: seq<WorktreeInfo>, pattern: string): (ts: seq<WorktreeInfo>)
    ensures |ts| <= |ws|
  {
    if ws == [] then []
    else
      var w := ws[|ws| - 1];
      PatternTargets(repo, ws[..|ws| - 1], pattern) + (if IsPatternTarget(repo, w, pattern) then [w] else [])
  }

  /** A worktree is a target exactly when it is not the main checkout, is on
      a branch, and its path contains the pattern. */
  lemma {:induction false} PatternTargetsMembers(repo: Repo, ws: seq<WorktreeInfo>, pattern: string, w: WorktreeInfo)
    ensures w in PatternTargets(repo, ws, pattern) <==> w in ws && IsPatternTarget(repo, w, pattern)
  {
    if ws != [] {
      var init := ws[..|ws| - 1];
      PatternTargetsMembers(repo, init, pattern, w);
      assert ws == init + [ws[|ws| - 1]];
    }
  }

  lemma {:induction false} PatternTargetsAreCandidates(repo: Repo, ws: seq<WorktreeInfo>, pattern: string)
    ensures AllCandidates(repo, PatternTargets(repo, ws, pattern))
  {
    if ws != [] {
      PatternTargetsAreCandidates(repo, ws[..|ws| - 1], pattern);
    }
  }

  lemma PatternTargetsStep(repo: Repo, ws: seq<WorktreeInfo>, pattern: string, i: nat)
    requires i < |ws|
    ensures PatternTargets(repo, ws[..i + 1], pattern)
         == PatternTargets(repo, ws[..i], pattern) + (if IsPatternTarget(repo, ws[i], pattern) then [ws[i]] else [])
  {
    assert ws[..i + 1][..i] == ws[..i];
  }

  lemma {:induction false} PatternTargetsPrefix(repo: Repo, ws: seq<WorktreeInfo>, pattern: string, j: nat)
    requires j <= |ws|
    ensures IsPrefix(PatternTargets(repo, ws[..j], pattern), PatternTargets(repo, ws, pattern))
    decreases |ws|
  {
    if j < |ws| {
      var init := ws[..|ws| - 1];
      assert init[..j] == ws[..j];
      PatternTargetsPrefix(repo, init, pattern, j);
    } else {
      assert ws[..j] == ws;
    }
  }

  /** One turn of `cleanup_by_pattern`'s loop, over the `i`-th worktree: a
      target is removed with its branch, anything else is passed over. */
  method VisitForPattern(repo: Repo, ws: seq<WorktreeInfo>, pattern: string, i: nat, count: nat,
                         ghost bs0: set<string>, ghost done: seq<WorktreeInfo>)
      returns (r: Result<()>, count': nat)
    requires i < |ws|
    requires done == PatternTargets(repo, ws[..i], pattern) && count == |done|
    requires CompletedRun(repo, done, ws, bs0, repo.worktrees, repo.branches)
    modifies repo
    ensures count' == |PatternTargets(repo, ws[..i + 1], pattern)|
    ensures r.Ok? ==> CompletedRun(repo, PatternTargets(repo, ws[..i + 1], pattern), ws, bs0,
                                   repo.worktrees, repo.branches)
    ensures r.Err? ==> RunOutcome(repo, PatternTargets(repo, ws, pattern), ws, bs0, repo.worktrees, repo.branches, false)
    ensures repo.fetched == old(repo.fetched)
  {
    var w := ws[i];
    PatternTargetsStep(repo, ws, pattern, i);
    r := Ok(());
    count' := count;
    if IsPatternTarget(repo, w, pattern) {
      assert PatternTargets(repo, ws[..i + 1], pattern) == done + [w];
      r := RemoveNextTarget(repo, ws, bs0, done, w);
      if r.Err? {
        PatternTargetsPrefix(repo, ws, pattern, i + 1);
        StopsAt(repo, PatternTargets(repo, ws, pattern), done, w, ws, bs0, repo.worktrees, repo.branches);
      }
      count' := count + 1;
    } else {
      assert PatternTargets(repo, ws[..i + 1], pattern) == done;
    }
  }

  /** `cleanup_by_pattern`. Every target counts as removed, whether or not
      git managed to remove it; the command fails only when a branch lookup
      fails after a removal, and then stops at that worktree. */
  method CleanupByPattern(repo: Repo, pattern: string) returns (r: Result<nat>)
    modifies repo
    ensures RunOutcome(repo, PatternTargets(repo, old(repo.worktrees), pattern), old(repo.worktrees), old(repo.branches),
                       repo.worktrees, repo.branches, r.Ok?)
    ensures r.Ok? ==> r.value == |PatternTargets(repo, old(repo.worktrees), pattern)|
    ensures repo.fetched == old(repo.fetched)
  {
    var worktrees := repo.worktrees;
    ghost var start := repo.branches;
    ghost var done: seq<WorktreeInfo> := [];
    var removedCount := 0;
    DropNoPaths(worktrees);
    var i := 0;
    while i < |worktrees|
      invariant 0 <= i <= |worktrees|
      invariant done == PatternTargets(repo, worktrees[..i], pattern) && removedCount == |done|
      invariant CompletedRun(repo, done, worktrees, start, repo.worktrees, repo.branches)
      invariant repo.fetched == old(repo.fetched)
    {
      var res;
      res, removedCount := VisitForPattern(repo, worktrees, pattern, i, removedCount, start, done);
      if res.Err? {
        return Err;
      }
      done := PatternTargets(repo, worktrees[..i + 1], pattern);
      i := i + 1;
    }
    assert worktrees[..i] == worktrees;
    r := Ok(removedCount);
  }

  // ---------------------------------------------------------------------
  // Interactive mode

  /** `input.trim().to_lowercase() == "y"`: only `y` and `Y` lower-case to `y`. */
  predicate IsYes(input: string) {
    var t := Trim(input);
    |t| == 1 && (t[0] == 'y' || t[0] == 'Y')
  }

  /** The line read for the `j`-th prompt; at end of input `read_line`
      leaves the buffer empty. */
  function AnswerAt(answers: seq<string>, j: nat): string {
    if j < |answers| then answers[j] else ""
  }

  /** The worktrees the user is asked about, in order. */
  function Prompted(repo: Repo, ws: seq<WorktreeInfo>): (cs: seq<WorktreeInfo>)
    ensures |cs| <= |ws|
  {
    if ws == [] then []
    else
      var w := ws[|ws| - 1];
      Prompted(repo, ws[..|ws| - 1]) + (if IsCandidateWorktree(repo, w) then [w] else [])
  }

  /** Every worktree but the main checkout that is on a branch is prompted for. */
  lemma {:induction false} PromptedMembers(repo: Repo, ws: seq<WorktreeInfo>, w: WorktreeInfo)
    ensures w in Prompted(repo, ws) <==> w in ws && IsCandidateWorktree(repo, w)
  {
    if ws != [] {
      var init := ws[..|ws| - 1];
      PromptedMembers(repo, init, w);
      assert ws == init + [ws[|ws| - 1]];
    }
  }

  lemma {:induction false} PromptedAreCandidates(repo: Repo, ws: seq<WorktreeInfo>)
    ensures AllCandidates(repo, Prompted(repo, ws))
  {
    if ws != [] {
      PromptedAreCandidates(repo, ws[..|ws| - 1]);
    }
  }

  /** For every line read, whether it answers yes. */
  function Replies(answers: seq<string>): (ys: seq<bool>)
    ensures |ys| == |answers|
  {
    seq(|answers|, j requires 0 <= j < |answers| => IsYes(answers[j]))
  }

  /** Whether the `j`-th prompt was answered yes; past the end of the input
      the answer is no. */
  predicate RepliedYes(replies: seq<bool>, j: nat) {
    j < |replies| && replies[j]
  }

  /** The reply to the `j`-th prompt is yes exactly when the line read for
      it, empty at end of input, trims to `y` or `Y`. */
  lemma RepliedYesAt(answers: seq<string>, j: nat)
    ensures RepliedYes(Replies(answers), j) <==> IsYes(AnswerAt(answers, j))
  {
    if j >= |answers| {
      assert |Trim("")| == 0;
    }
  }

  /** The prompted worktrees whose answer is yes, in order. */
  function Chosen(cs: seq<WorktreeInfo>, replies: seq<bool>): (ts: seq<WorktreeInfo>)
    ensures |ts| <= |cs|
  {
    if cs == [] then []
    else
      Chosen(cs[..|cs| - 1], replies) + (if RepliedYes(replies, |cs| - 1) then [cs[|cs| - 1]] else [])
  }

  /** A prompt answered yes chooses its worktree. */
  lemma {:induction false} ChosenIfYes(cs: seq<WorktreeInfo>, replies: seq<bool>, j: nat)
    requires j < |cs| && RepliedYes(replies, j)
    ensures cs[j] in Chosen(cs, replies)
  {
    var n := |cs| - 1;
    if j < n {
      ChosenIfYes(cs[..n], replies, j);
    }
  }

  /** Only a prompt answered yes chooses a worktree. */
  lemma {:induction false} ChosenOnlyIfYes(cs: seq<WorktreeInfo>, replies: seq<bool>, t: WorktreeInfo)
    requires t in Chosen(cs, replies)
    ensures exists j :: 0 <= j < |cs| && cs[j] == t && RepliedYes(replies, j)
  {
    var n := |cs| - 1;
    if t in Chosen(cs[..n], replies) {
      ChosenOnlyIfYes(cs[..n], replies, t);
      var j :| 0 <= j < n && cs[..n][j] == t && RepliedYes(replies, j);
      assert cs[j] == t;
    } else {
      assert cs[n] == t && RepliedYes(replies, n);
    }
  }

  lemma {:induction false} ChosenAreCandidates(repo: Repo, cs: seq<WorktreeInfo>, replies: seq<bool>)
    requires AllCandidates(repo, cs)
    ensures AllCandidates(repo, Chosen(cs, replies))
  {
    if cs != [] {
      ChosenAreCandidates(repo, cs[..|cs| - 1], replies);
    }
  }

  lemma {:induction false} PromptedPrefix(repo: Repo, ws: seq<WorktreeInfo>, j: nat)
    requires j <= |ws|
    ensures IsPrefix(Prompted(repo, ws[..j]), Prompted(repo, ws))
    decreases |ws|
  {
    if j < |ws| {
      var init := ws[..|ws| - 1];
      assert init[..j] == ws[..j];
      PromptedPrefix(repo, init, j);
    } else {
      assert ws[..j] == ws;
    }
  }

  lemma {:induction false} ChosenPrefix(cs: seq<WorktreeInfo>, m: nat, replies: seq<bool>)
    requires m <= |cs|
    ensures IsPrefix(Chosen(cs[..m], replies), Chosen(cs, replies))
    decreases |cs|
  {
    if m < |cs| {
      var init := cs[..|cs| - 1];
      assert init[..m] == cs[..m];
      ChosenPrefix(init, m, replies);
    } else {
      assert cs[..m] == cs;
    }
  }

  lemma PromptedStep(repo: Repo, ws: seq<WorktreeInfo>, i: nat)
    requires i < |ws|
    ensures Prompted(repo, ws[..i + 1])
         == Prompted(repo, ws[..i]) + (if IsCandidateWorktree(repo, ws[i]) then [ws[i]] else [])
  {
    assert ws[..i + 1][..i] == ws[..i];
  }

  lemma ChosenStep(cs: seq<WorktreeInfo>, w: WorktreeInfo, replies: seq<bool>)
    ensures Chosen(cs + [w], replies)
         == Chosen(cs, replies) + (if RepliedYes(replies, |cs|) then [w] else [])
  {
    assert (cs + [w])[..|cs|] == cs;
  }

  /** What is chosen up to and including the `i`-th worktree begins what the
      whole session chooses. */
  lemma ChosenSoFar(repo: Repo, ws: seq<WorktreeInfo>, replies: seq<bool>, i: nat, prompted: seq<WorktreeInfo>)
    requires i < |ws| && IsCandidateWorktree(repo, ws[i])
    requires prompted == Prompted(repo, ws[..i])
    ensures IsPrefix(Chosen(prompted + [ws[i]], replies), Chosen(Prompted(repo, ws), replies))
  {
    var cs := Prompted(repo, ws);
    PromptedStep(repo, ws, i);
    PromptedPrefix(repo, ws, i + 1);
    ChosenPrefix(cs, |prompted| + 1, replies);
    assert cs[..|prompted| + 1] == prompted + [ws[i]];
  }

  /** One turn of `interactive_cleanup`'s loop, over the `i`-th worktree:
      a candidate is prompted for, reading the next answer, and removed with
      its branch on a yes. */
  method VisitInteractively(repo: Repo, ws: seq<WorktreeInfo>, answers: seq<string>, i: nat, asked: nat,
                            ghost bs0: set<string>, ghost done: seq<WorktreeInfo>)
      returns (r: Result<()>, asked': nat)
    requires i < |ws|
    requires asked == |Prompted(repo, ws[..i])|
    requires done == Chosen(Prompted(repo, ws[..i]), Replies(answers))
    requires CompletedRun(repo, done, ws, bs0, repo.worktrees, repo.branches)
    modifies repo
    ensures asked' == |Prompted(repo, ws[..i + 1])|
    ensures r.Ok? ==> CompletedRun(repo, Chosen(Prompted(repo, ws[..i + 1]), Replies(answers)), ws, bs0,
                                   repo.worktrees, repo.branches)
    ensures r.Err? ==> RunOutcome(repo, Chosen(Prompted(repo, ws), Replies(answers)), ws, bs0, repo.worktrees, repo.branches, false)
    ensures repo.fetched == old(repo.fetched)
  {
    ghost var prompted := Prompted(repo, ws[..i]);
    var w := ws[i];
    PromptedStep(repo, ws, i);
    r := Ok(());
    asked' := asked;
    if IsCandidateWorktree(repo, w) {
      assert Prompted(repo, ws[..i + 1]) == prompted + [w];
      ChosenStep(prompted, w, Replies(answers));
      var input := AnswerAt(answers, asked);
      RepliedYesAt(answers, asked);
      if IsYes(input) {
        assert Chosen(prompted + [w], Replies(answers)) == done + [w];
        r := RemoveNextTarget(repo, ws, bs0, done, w);
        if r.Err? {
          ChosenSoFar(repo, ws, Replies(answers), i, prompted);
          StopsAt(repo, Chosen(Prompted(repo, ws), Replies(answers)), done, w, ws, bs0, repo.worktrees, repo.branches);
        }
      } else {
        assert Chosen(prompted + [w], Replies(answers)) == done;
      }
      asked' := asked + 1;
    } else {
      assert Prompted(repo, ws[..i + 1]) == prompted;
    }
  }

  /** `interactive_cleanup`: one prompt per worktree that is not the main
      checkout and is on a branch, in order; a yes removes it with its branch.
      The standard input is the sequence of lines `answers`. */
  method InteractiveCleanup(repo: Repo, answers: seq<string>) returns (r: Result<()>)
    modifies repo
    ensures RunOutcome(repo, Chosen(Prompted(repo, old(repo.worktrees)), Replies(answers)), old(repo.worktrees),
                       old(repo.branches), repo.worktrees, repo.branches, r.Ok?)
    ensures repo.fetched == old(repo.fetched)
  {
    var worktrees := repo.worktrees;
    ghost var start := repo.branches;
    ghost var prompted: seq<WorktreeInfo> := [];
    ghost var done: seq<WorktreeInfo> := [];
    var asked := 0;
    DropNoPaths(worktrees);
    var i := 0;
    while i < |worktrees|
      invariant 0 <= i <= |worktrees|
      invariant prompted == Prompted(repo, worktrees[..i])
      invariant asked == |prompted| && done == Chosen(prompted, Replies(answers))
      invariant CompletedRun(repo, done, worktrees, start, repo.worktrees, repo.branches)
      invariant repo.fetched == old(repo.fetched)
    {
      var res;
      res, asked := VisitInteractively(repo, worktrees, answers, i, asked, start, done);
      if res.Err? {
        return Err;
      }
      prompted := Prompted(repo, worktrees[..i + 1]);
      done := Chosen(prompted, Replies(answers));
      i := i + 1;
    }
    assert worktrees[..i] == worktrees;
    r := Ok(());
  }

  // ---------------------------------------------------------------------
  // Status mode

  datatype StatusLine = MainLine | BranchLine(branch: string, merged: bool)

  /** `show_status`: one line for the main checkout and one per other
      worktree on a branch, in order; the first failed ancestry check aborts. */
  function StatusReport(repo: Repo, ws: seq<WorktreeInfo>): (r: Result<seq<StatusLine>>)
    ensures r.Err? <==> exists i :: 0 <= i < |ws| && ws[i].path != repo.rootDir && ws[i].branch.Some?
                                    && repo.IsBranchMerged(ws[i].branch.value).Err?
    ensures r.Ok? ==> |r.value| <= |ws|
    ensures r.Ok? ==> forall k :: 0 <= k < |r.value| && r.value[k].BranchLine?
                                  ==> repo.IsBranchMerged(r.value[k].branch) == Ok(r.value[k].merged)
  {
    if ws == [] then Ok([])
    else
      var w := ws[0];
      var rest := StatusReport(repo, ws[1..]);
      assert forall i :: 0 <= i < |ws| - 1 ==> ws[1..][i] == ws[i + 1];
      if w.path == repo.rootDir then
        (if rest.Ok? then Ok([MainLine] + rest.value) else Err)
      else if w.branch.Some? then
        match repo.IsBranchMerged(w.branch.value)
        case Err => Err
        case Ok(m) => if rest.Ok? then Ok([BranchLine(w.branch.value, m)] + rest.value) else Err
      else rest
  }

  /** Whether `show_status` prints a line for `w`: the main checkout, or
      another worktree on a branch. */
  predicate IsReported(repo: Repo, w: WorktreeInfo) {
    w.path == repo.rootDir || w.branch.Some?
  }

  /** The worktrees `show_status` prints a line for, in order. */
  function Reported(repo: Repo, ws: seq<WorktreeInfo>): (rs: seq<WorktreeInfo>)
    ensures |rs| <= |ws|
    ensures forall k :: 0 <= k < |rs| ==> IsReported(repo, rs[k])
  {
    if ws == [] then []
    else
      var rest := Reported(repo, ws[1..]);
      var rs := (if IsReported(repo, ws[0]) then [ws[0]] else []) + rest;
      assert forall k :: |rs| - |rest| <= k < |rs| ==> rs[k] == rest[k - (|rs| - |rest|)];
      rs
  }

  /** A worktree is reported iff it is the main checkout or on a branch. */
  lemma {:induction false} ReportedMembers(repo: Repo, ws: seq<WorktreeInfo>, w: WorktreeInfo)
    ensures w in Reported(repo, ws) <==> w in ws && IsReported(repo, w)
  {
    if ws != [] {
      ReportedMembers(repo, ws[1..], w);
      assert ws == [ws[0]] + ws[1..];
    }
  }

  /** The line printed for a reported worktree: the main checkout's line,
      or the branch with the answer of its ancestry check. */
  function LineFor(repo: Repo, w: WorktreeInfo): StatusLine
    requires IsReported(repo, w)
  {
    if w.path == repo.rootDir then MainLine
    else BranchLine(w.branch.value, repo.IsBranchMerged(w.branch.value) == Ok(true))
  }

  /** A successful report has one line per reported worktree, in list order,
      and each line is the one for its worktree. */
  lemma {:induction false} StatusReportLines(repo: Repo, ws: seq<WorktreeInfo>)
    ensures var r := StatusReport(repo, ws);
            r.Ok? ==> && |r.value| == |Reported(repo, ws)|
                      && forall k :: 0 <= k < |r.value| ==> r.value[k] == LineFor(repo, Reported(repo, ws)[k])
  {
    if ws != [] {
      StatusReportLines(repo, ws[1..]);
      var r := StatusReport(repo, ws);
      var rest := StatusReport(repo, ws[1..]);
      var reported := Reported(repo, ws);
      var tail := Reported(repo, ws[1..]);
      if r.Ok? {
        assert rest.Ok?;
        if IsReported(repo, ws[0]) {
          assert reported == [ws[0]] + tail;
          assert r.value == [LineFor(repo, ws[0])] + rest.value;
          forall k | 0 < k < |r.value|
            ensures r.value[k] == LineFor(repo, reported[k])
          {
            assert r.value[k] == rest.value[k - 1];
            assert reported[k] == tail[k - 1];
          }
        } else {
          assert reported == tail;
          assert r.value == rest.value;
        }
      }
    }
  }

  // ---------------------------------------------------------------------
  // The command

  datatype CleanupReport =
    | MergedDone(report: MergedReport)
    | PatternDone(removed: nat)
    | InteractiveDone
    | StatusDone(lines: seq<StatusLine>)

  /** `execute`: dispatch on the mode. No mode removes the main checkout,
      and only pattern and interactive modes change the repository. */
  method Execute(repo: Repo, mode: CleanupMode, answers: seq<string>) returns (r: Result<CleanupReport>)
    modifies repo
    ensures forall w :: w in old(repo.worktrees) && w.path == repo.rootDir ==> w in repo.worktrees
    ensures mode.Merged? || mode.Status? ==> repo.worktrees == old(repo.worktrees) && repo.branches == old(repo.branches)
    ensures mode.Merged? ==>
              var candidates := CandidateBranches(repo, repo.GetMergedBranches(), None);
              r == Ok(MergedDone(if candidates == [] then NoMergedBranches
                                 else Summary(0, Tally(repo, old(repo.worktrees), candidates, Skipped))))
    ensures mode.Pattern? ==>
              && RunOutcome(repo, PatternTargets(repo, old(repo.worktrees), mode.pattern), old(repo.worktrees),
                            old(repo.branches), repo.worktrees, repo.branches, r.Ok?)
              && (r.Ok? ==> r.value == PatternDone(|PatternTargets(repo, old(repo.worktrees), mode.pattern)|))
    ensures mode.Interactive? ==>
              && RunOutcome(repo, Chosen(Prompted(repo, old(repo.worktrees)), Replies(answers)), old(repo.worktrees),
                            old(repo.branches), repo.worktrees, repo.branches, r.Ok?)
              && (r.Ok? ==> r.value == InteractiveDone)
    ensures mode.Status? ==> r == (match StatusReport(repo, old(repo.worktrees))
                                   case Ok(lines) => Ok(StatusDone(lines))
                                   case Err => Err)
    ensures repo.fetched == old(repo.fetched)
  {
    ghost var ws0 := repo.worktrees;
    ghost var bs0 := repo.branches;
    match mode
    case Merged =>
      var report := CleanupMergedWorktreesWithExclude(repo, None);
      r := Ok(MergedDone(report));
    case Pattern(p) =>
      var res := CleanupByPattern(repo, p);
      r := if res.Ok? then Ok(PatternDone(res.value)) else Err;
      PatternTargetsAreCandidates(repo, ws0, p);
      forall w | w in ws0 && w.path == repo.rootDir
        ensures w in repo.worktrees
      {
        RunKeepsMainWorktree(repo, PatternTargets(repo, ws0, p), ws0, bs0, repo.worktrees, repo.branches, res.Ok?, w);
      }
    case Interactive =>
      var res := InteractiveCleanup(repo, answers);
      r := if res.Ok? then Ok(InteractiveDone) else Err;
      PromptedAreCandidates(repo, ws0);
      ChosenAreCandidates(repo, Prompted(repo, ws0), Replies(answers));
      forall w | w in ws0 && w.path == repo.rootDir
        ensures w in repo.worktrees
      {
        RunKeepsMainWorktree(repo, Chosen(Prompted(repo, ws0), Replies(answers)), ws0, bs0, repo.worktrees, repo.branches, res.Ok?, w);
      }
    case Status =>
      r := match StatusReport(repo, repo.worktrees)
           case Ok(lines) => Ok(StatusDone(lines))
           case Err => Err;
  }
}
