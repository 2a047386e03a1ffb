/** The decisions of `src/commands/setup.rs`: the worktree directory name,
    making sure the branch exists, and what happens once the worktree is
    ready (print the path, open a tmux session, or fall back to a shell). */
module Setup {
  import opened Wrappers
  import opened Text
  import opened Git
  import opened Tmux

  // ---------------------------------------------------------------------
  // The worktree directory

  /** `branch_name.replace('/', "-")`. */
  function SlashesToDashes(s: string): (r: string)
    ensures |r| == |s|
    ensures forall i :: 0 <= i < |s| ==> r[i] == (if s[i] == '/' then '-' else s[i])
  {
    if s == [] then []
    else
      var r := SlashesToDashes(s[..|s| - 1]) + [if s[|s| - 1] == '/' then '-' else s[|s| - 1]];
      assert forall i :: 0 <= i < |s| - 1 ==> r[i] == SlashesToDashes(s[..|s| - 1])[i];
      r
  }

  const DirPrefix: string := "worktree-"

  /** `format!("worktree-{}", branch_name.replace('/', "-"))`. */
  function WorktreeDirName(branch: string): (name: string)
    ensures StartsWith(name, DirPrefix) && |name| == |DirPrefix| + |branch|
    ensures '/' !in name
    ensures forall i :: 0 <= i < |branch| ==> name[|DirPrefix| + i] == (if branch[i] == '/' then '-' else branch[i])
  {
    var tail := SlashesToDashes(branch);
    var name := DirPrefix + tail;
    assert name[..|DirPrefix|] == DirPrefix;
    assert forall i :: 0 <= i < |branch| ==> name[|DirPrefix| + i] == tail[i];
    assert '/' !in tail by {
      forall c | c in tail ensures c != '/' {
        var i :| 0 <= i < |tail| && tail[i] == c;
      }
    }
    name
  }

  /** A branch without `/` keeps its name in the directory. */
  lemma {:induction false} DirNameOfPlainBranch(branch: string)
    requires '/' !in branch
    ensures WorktreeDirName(branch) == DirPrefix + branch
  {
    var name := WorktreeDirName(branch);
    assert name[|DirPrefix|..] == branch;
    assert name == name[..|DirPrefix|] + name[|DirPrefix|..];
  }

  /** Two branches that differ only in `/` against `-` share a directory:
      `feature/x` and `feature-x` both become `worktree-feature-x`. */
  lemma DirNamesCollide()
    ensures WorktreeDirName("feature/x") == WorktreeDirName("feature-x")
  {
    var a, b := WorktreeDirName("feature/x"), WorktreeDirName("feature-x");
    assert |a| == |b|;
    forall i | 0 <= i < |a| ensures a[i] == b[i] {
      if i >= |DirPrefix| {
        assert a[i] == b[i];
      } else {
        assert a[..|DirPrefix|] == DirPrefix == b[..|DirPrefix|];
        assert a[i] == a[..|DirPrefix|][i];
        assert b[i] == b[..|DirPrefix|][i];
      }
    }
  }

  // ---------------------------------------------------------------------
  // ensure_branch_ready

  /** `ensure_branch_ready`: nothing to do for a local branch; a branch that
      only the remote has is fetched and tracked; any other is created.
      A failed lookup stops with an error before anything changes. */
  method EnsureBranchReady(repo: Repo, branch: string) returns (r: Result<()>)
    modifies repo
    ensures r.Err? <==> (repo.BranchQueryFails(branch)
                         || (branch !in old(repo.branches) && repo.remoteQueryFails))
    ensures r.Ok? ==> branch in repo.branches
    ensures branch in old(repo.branches) || r.Err? ==> repo.branches == old(repo.branches) && repo.fetched == old(repo.fetched)
    ensures repo.branches == old(repo.branches) || repo.branches == old(repo.branches) + {branch}
    ensures repo.fetched == if r.Ok? && branch !in old(repo.branches) && branch in repo.remoteBranches
                            then old(repo.fetched) + {branch} else old(repo.fetched)
    ensures repo.worktrees == old(repo.worktrees)
  {
    var exists_ := repo.BranchExists(branch);
    if exists_.Err? {
      return Err;
    }
    if exists_.value {
      return Ok(());
    }
    var remote := repo.RemoteBranchExists(branch);
    if remote.Err? {
      return Err;
    }
    if remote.value {
      repo.FetchRemoteBranch(branch);
      repo.CreateTrackingBranch(branch);
    } else {
      repo.CreateBranch(branch);
    }
    r := Ok(());
  }

  // ---------------------------------------------------------------------
  // The tmux session

  /** `start_tmux_session`: attach to a live session, or create it and then
      attach. A failed query, creation or attach is an error. */
  method StartTmuxSession(client: TmuxClient, name: string, directory: string) returns (r: Result<()>)
    modifies client
    ensures r.Ok? <==> name !in client.queryFailures && (name in old(client.sessions) || name !in client.createFailures)
    ensures client.sessions == if r.Ok? then old(client.sessions) + {name} else old(client.sessions)
    ensures client.created == if r.Ok? && name !in old(client.sessions) then old(client.created) + [name]
                              else old(client.created)
    ensures client.attached == if r.Ok? then old(client.attached) + [name] else old(client.attached)
  {
    var live := client.SessionExists(name);
    if live.Err? {
      return Err;
    }
    if live.value {
      r := client.AttachSession(name);
      return;
    }
    var created := client.CreateSession(name, directory);
    if created.Err? {
      return Err;
    }
    r := client.AttachSession(name);
  }

  /** `manage_tmux_session`: tmux is used only when asked for, when not
      already inside tmux and when tmux is available; then whether it
      started decides, and a failure to start falls back to a plain shell
      (`false`) rather than failing. */
  method ManageTmuxSession(client: TmuxClient, useTmux: bool, insideTmux: bool, directory: string, name: string)
    returns (started: bool)
    modifies client
    ensures !useTmux || insideTmux || !client.available ==>
              !started && client.sessions == old(client.sessions)
              && client.created == old(client.created) && client.attached == old(client.attached)
    ensures started <==> useTmux && !insideTmux && client.available && name !in client.queryFailures
                         && (name in old(client.sessions) || name !in client.createFailures)
    ensures started ==> client.attached == old(client.attached) + [name]
                        && client.created == (if name in old(client.sessions) then old(client.created)
                                              else old(client.created) + [name])
    ensures !started ==> client.sessions == old(client.sessions)
                         && client.created == old(client.created) && client.attached == old(client.attached)
  {
    if !useTmux {
      return false;
    }
    if insideTmux {
      return false;
    }
    if !client.IsAvailable() {
      return false;
    }
    var r := StartTmuxSession(client, name, directory);
    started := r.Ok?;
  }

  /** `env::var("TMUX")` set to a non-empty value; `None` stands for an
      unset or non-Unicode variable. */
  function InsideTmux(tmux: Option<string>): (inside: bool)
    ensures inside <==> tmux.Some? && |tmux.value| > 0
  {
    match tmux
    case Some(v) => v != ""
    case None => false
  }

  // ---------------------------------------------------------------------
  // After setup

  datatype PostSetup = PrintedPath | TmuxStarted | ShellStarted | CdHintShown

  /** `handle_post_setup`: with `print_path` only the path is printed; with
      `start_shell` a tmux session is tried and a plain shell launched when
      none started (`shellStarts` says whether the shell could be spawned);
      otherwise a `cd` hint is shown. */
  method HandlePostSetup(client: TmuxClient, printPath: bool, startShell: bool, useTmux: bool,
                         tmuxVar: Option<string>, shellStarts: bool, directory: string, name: string)
    returns (r: Result<PostSetup>)
    modifies client
    ensures printPath ==> r == Ok(PrintedPath)
    ensures !printPath && !startShell ==> r == Ok(CdHintShown)
    ensures r == Ok(TmuxStarted) ==> !printPath && startShell && useTmux && !InsideTmux(tmuxVar)
    ensures r == Ok(TmuxStarted) || r == Ok(ShellStarted) || r.Err? ==> !printPath && startShell
    ensures r.Err? ==> !shellStarts
    ensures !printPath && startShell ==>
              (r == Ok(TmuxStarted) <==> useTmux && !InsideTmux(tmuxVar) && client.available
                                         && name !in client.queryFailures
                                         && (name in old(client.sessions) || name !in client.createFailures))
    ensures !printPath && startShell && r != Ok(TmuxStarted) ==> r == (if shellStarts then Ok(ShellStarted) else Err)
    ensures r != Ok(TmuxStarted) ==>
              client.sessions == old(client.sessions) && client.created == old(client.created)
              && client.attached == old(client.attached)
  {
    if printPath {
      return Ok(PrintedPath);
    }
    if startShell {
      var insideTmux := InsideTmux(tmuxVar);
      var started := ManageTmuxSession(client, useTmux, insideTmux, directory, name);
      if !started {
        if !shellStarts {
          return Err;
        }
        return Ok(ShellStarted);
      }
      return Ok(TmuxStarted);
    }
    r := Ok(CdHintShown);
  }

  // ---------------------------------------------------------------------
  // The three tmux tests of `src/commands/setup.rs`

  /** `manage_tmux_session_reattaches_existing_session`. */
  method ReattachesExistingSession() returns (started: bool, created: seq<string>, attached: seq<string>)
    ensures started && created == [] && attached == ["session-a"]
  {
    var mock := new TmuxClient(true, {}, {}, {"session-a"});
    started := ManageTmuxSession(mock, true, false, "/tmp/worktree", "session-a");
    created, attached := mock.created, mock.attached;
  }

  /** `manage_tmux_session_creates_new_session_when_missing`. */
  method CreatesNewSessionWhenMissing() returns (started: bool, created: seq<string>, attached: seq<string>)
    ensures started && created == ["session-b"] && attached == ["session-b"]
  {
    var mock := new TmuxClient(true, {}, {}, {});
    started := ManageTmuxSession(mock, true, false, "/tmp/worktree", "session-b");
    created, attached := mock.created, mock.attached;
  }

  /** `manage_tmux_session_skips_when_unavailable`. */
  method SkipsWhenUnavailable() returns (started: bool, created: seq<string>, attached: seq<string>)
    ensures !started && created == [] && attached == []
  {
    var mock := new TmuxClient(false, {}, {}, {});
    started := ManageTmuxSession(mock, true, false, "/tmp/worktree", "session-c");
    created, attached := mock.created, mock.attached;
  }
}
