# workbloom core, modelled in Dafny

workbloom is a command-line tool that manages git worktrees. `workbloom setup <branch>`
creates a worktree directory for a branch and gives it its own ports in `.env`. It can
also open a tmux session or a shell there. `workbloom cleanup` removes worktrees. It has
four modes: merged, by path pattern, interactive, and a read-only status report.

This project models the decision and text-processing core of the tool:

- `git.dfy` (module `Git`) models `src/git.rs`:
  - the `git worktree list --porcelain` parser, as an imperative loop proved equal to a
    line-by-line state machine;
  - the line filter over `git branch --merged main`;
  - the reading of `git rev-list --count`;
  - a `Repo` class. Its mutable fields are the worktrees, branches and fetched remote
    branches that git commands change. Its constant fields are what git queries would
    answer.
- `cleanup.dfy` (module `Cleanup`) models `src/commands/cleanup.rs`:
  - the two in-place `retain` filters over the merged-branch list;
  - the per-worktree classification into removed, skipped or ignored, and the counting
    loop;
  - the summary decision;
  - pattern mode and interactive mode, each a loop of "remove the worktree, then delete
    its branch";
  - status mode and the dispatch on the mode.
- `tmux.dfy` (module `Tmux`) models `src/tmux.rs`:
  - the session-name sanitiser, as a loop proved equal to a function;
  - the session-name composition, with the hash as a parameter;
  - a `TmuxClient` class that mirrors the test mock: a set of live sessions plus the
    `created` and `attached` call sequences.
- `envfile.dfy` (module `EnvFile`) models `update_env_with_ports` of `src/file_ops.rs`.
  The read loop, the appends and the write loop stay imperative and are proved equal to
  a pure rewrite of the file's text.
- `ports.dfy` (module `Ports`) models `calculate_ports` of `src/port.rs`, with the 64-bit
  hash as the input.
- `setup.dfy` (module `Setup`) models `src/commands/setup.rs`:
  - the worktree directory name;
  - `ensure_branch_ready`;
  - the tmux start, attach and fallback decision, and the three tests that exercise it;
  - `handle_post_setup`.
- `cli.dfy` (module `Cli`) models `src/main.rs`: the cleanup-mode selection from the flags
  and the colour rule.
- `text.dfy` and `wrappers.dfy` hold the Rust string and number helpers the core relies on
  (`lines`, `trim`, `starts_with`, `trim_start_matches`, `contains`, `parse::<i32>`), and
  `Option` and `Result`.

Every git, tmux, shell and filesystem call is an oracle or a field of the `Repo` and
`TmuxClient` classes. A call that can fail has a constant set of inputs on which it
fails.

Behaviour of the code that the model keeps as written:

- **Merged mode never removes a worktree.** The filtered branch list keeps a branch only
  when its unique-commit check is `Ok(true)` or an error. The per-worktree step attempts
  removal only on `Ok(false)`. `Cleanup.FilteredListRemovesNothing` proves that the
  removed count is 0.
- **A stray branch line is inherited.** A `branch refs/heads/` line before the first
  `worktree ` line is still pending when the first record opens. That record takes it
  when it has no branch line of its own (`Git.ParseFirstRecord`).
- **`+ main` passes the merged filter.** The `main`/`master` test looks at the trimmed
  line before `+ ` is stripped, so the line `+ main` yields the name `main`.
- **Large counts read as "no unique commits".** A commit count of 2^31 or more does not
  fit `parse::<i32>`. It therefore reads as `false` (`Git.RevListCountRoundTrip`).
- **Postgres sits 259 above the frontend port.** For every hash the postgres port is the
  frontend port plus 259, and the backend port is the frontend port plus 2907. The
  frontend and postgres ranges overlap (`Ports.FrontendMeetsPostgres`).
- **Directory names can collide.** `feature/x` and `feature-x` share one worktree
  directory (`Setup.DirNamesCollide`).
- **A refused removal or deletion still reports success.** `remove_worktree` and
  `delete_branch` return an error only when git cannot be started; a non-zero exit status
  is not checked. The repository therefore has two oracle sets per operation. On the
  first the call fails. On the second, git runs and refuses (a locked worktree, say): the
  call returns `Ok` and nothing changes. Cleanup counts such a worktree as removed and
  goes on to look its branch up.
- **The files do not build together as given.** The model follows each function's body:
  - `src/main.rs` calls `setup::execute` with two arguments, while `src/commands/setup.rs`
    declares four.
  - `ensure_branch_ready` calls `remote_branch_exists`, `fetch_remote_branch` and
    `create_tracking_branch`. `GitRepo` does not define them, so they are modelled from
    their names and call sites.
  - `update_env_with_ports` reads `ports.database`, while `PortAllocation` names its third
    port `postgres`. The `.env` model takes three plain port numbers.

## Model

| member | source | states |
|---|---|---|
| Git.ParseWorktreeList | src/git.rs:171-204 | The parsing loop returns exactly the records of the line state machine `ParseLines` run over the output's lines. |
| Git.ParseCount | src/git.rs:177-201 | The parser emits exactly one record per line that starts with `worktree `. |
| Git.ParseWithoutRecords | src/git.rs:177-201 | Output without a `worktree ` line gives no records: no record is emitted without a path. |
| Git.ParseAppendRecord | src/git.rs:175-201 | A `worktree ` line and the lines up to the next one add exactly one record after the earlier ones. Its path is the line with the prefix stripped repeatedly. Its branch is the last `branch refs/heads/` line inside it, or none. It is detached iff a line equal to `detached` occurs inside it. |
| Git.ParseFirstRecord | src/git.rs:175-191 | For the first record, a branch line before any `worktree ` line counts as its branch unless the record has its own branch line. |
| Git.ParseIgnoresUnknownLine | src/git.rs:177-192 | A line that is not a `worktree `, `branch refs/heads/` or `detached` line does not change the parse. |
| Git.MergedBranchNameWellFormed | src/git.rs:70-76 | A line the filter keeps yields a non-empty name without `*`. |
| Git.FilterMergedLines | src/git.rs:70-76 | The filter returns no more names than lines, and every name is non-empty and has no `*`. |
| Git.FilterMergedLinesMembers | src/git.rs:70-76 | A name is listed iff some line that is not blank, has no `*`, and does not trim to `main` or `master` yields it after trimming and stripping `+ `. |
| Git.RevListCountRoundTrip | src/git.rs:115-127 | For a count `n` printed by git with a newline, the unique-commit check is true iff `0 < n <= 2^31 - 1`. So a fresh branch (count 0) gives false. |
| Git.Repo.RemoveWorktree | src/git.rs:79-93 | Reports success iff git can be run for the path. Git forgets every worktree at that path iff it also does not refuse; a refusal still reports success and changes nothing. The branches are unchanged. |
| Git.Repo.DeleteBranch | src/git.rs:95-103 | Reports success iff git can be run for the branch. The branch is gone iff git also does not refuse; a refusal still reports success. The worktrees are unchanged. |
| Git.Repo.CreateBranch | src/git.rs:25-39 | The branch set gains the branch and nothing else changes. |
| Git.Repo.FetchRemoteBranch | src/commands/setup.rs:161 | The branch is recorded as fetched, and the worktrees and local branches are unchanged. |
| Git.Repo.CreateTrackingBranch | src/commands/setup.rs:162 | The branch set gains the branch and nothing else changes. |
| Git.WithoutPathMembers | src/git.rs:79-93 | After removal at a path, a worktree remains iff it was there and is at another path. |
| Cleanup.GetFilteredMergedBranches | src/commands/cleanup.rs:48-62 | The two `retain` passes leave an order-preserving subsequence of the merged list. A branch is kept iff it is not the excluded one and its unique-commit check is `Ok(true)` or an error. |
| Cleanup.RetainNotExcluded | src/commands/cleanup.rs:51-53 | The first `retain` loop keeps every branch but the excluded one, in order. |
| Cleanup.RetainWithUniqueCommits | src/commands/cleanup.rs:57-59 | The second `retain` loop keeps, in order, the branches whose check is not `Ok(false)`. |
| Cleanup.RetainTwice | src/commands/cleanup.rs:48-62 | Filtering by exclusion and then by unique commits equals filtering once by both tests. |
| Cleanup.CandidateBranchesMembers | src/commands/cleanup.rs:48-62 | A branch is in the filtered list iff it is in the merged list, is not excluded, and passes the unique-commit check. |
| Cleanup.CandidateBranchesInOrder | src/commands/cleanup.rs:48-62 | The filtered list is a subsequence of the merged list. |
| Cleanup.Classify | src/commands/cleanup.rs:103-132 | A detached worktree is skipped before any other test. A branch outside the list is ignored. The worktree is removed iff its branch is listed, its check is `Ok(false)` and the removal succeeds. |
| Cleanup.ProcessSingleWorktree | src/commands/cleanup.rs:103-132 | Returns `Classify`'s action. It removes the worktree exactly when the action is `Removed` and git does not refuse. The branches are unchanged. |
| Cleanup.RemoveWorktreeAndReport | src/commands/cleanup.rs:134-152 | A removal that reports success is `Removed`, even when git refused it; it forgets the worktree only when git did not refuse. A failed one is `Skipped` and changes nothing. |
| Cleanup.ProcessWorktrees | src/commands/cleanup.rs:75-95 | The counters equal the numbers of non-root worktrees with a branch classified `Removed` and `Skipped`. The repository loses exactly the paths counted `Removed` whose removal git did not refuse. |
| Cleanup.RemovedPaths | src/commands/cleanup.rs:81-85 | The main checkout is never among the paths merged mode removes. |
| Cleanup.TallyBound | src/commands/cleanup.rs:86-90 | Removed plus skipped never exceeds the number of non-root worktrees that have a branch; ignored changes neither counter. |
| Cleanup.FilteredListRemovesNothing | src/commands/cleanup.rs:57-59 | With the filtered list, no worktree is classified `Removed` and no path is removed. |
| Cleanup.SummaryBannerFor | src/commands/cleanup.rs:154-167 | "Nothing to clean" is shown iff both counts are zero. |
| Cleanup.CleanupMergedWorktreesWithExclude | src/commands/cleanup.rs:29-46 | An empty filtered list reports "no merged branches". Otherwise the summary has 0 cleaned and the skipped count of the worktrees. The repository is unchanged. |
| Cleanup.RemoveWorktreeWithBranch | src/commands/cleanup.rs:251-270 | The branch is deleted only after a removal that reports success, a successful lookup and a deletion git does not refuse. The call fails iff the removal reported success and the branch lookup failed. A failed removal changes nothing and is not an error. |
| Cleanup.RemoveNextTarget | src/commands/cleanup.rs:251-270 | One more target extends a completed run, or aborts it exactly when the branch lookup fails after the removal. |
| Cleanup.RunOutcomeOk | src/commands/cleanup.rs:251-270 | A removal run returns `Ok` iff no target's branch lookup fails after its worktree was removed. |
| Cleanup.RunKeepsMainWorktree | src/commands/cleanup.rs:180-226 | A run over non-root targets never removes the main checkout. |
| Cleanup.RemovedByAvoidsMain | src/commands/cleanup.rs:181-186 | Removing non-root targets never removes the root path. |
| Cleanup.StopsAt | src/commands/cleanup.rs:180-226 | The first target whose lookup fails ends the run with the state left at that point. |
| Cleanup.PatternTargetsMembers | src/commands/cleanup.rs:180-191 | A worktree is a pattern target iff it is not the main checkout, has a branch, and its path contains the pattern. |
| Cleanup.PatternTargetsAreCandidates | src/commands/cleanup.rs:181-186 | Every pattern target is a non-root worktree on a branch. |
| Cleanup.PatternTargetsPrefix | src/commands/cleanup.rs:180-191 | The targets of a prefix of the list are a prefix of the targets, so targets are visited in list order. |
| Cleanup.CleanupByPattern | src/commands/cleanup.rs:173-195 | The repository ends in the outcome of removing the pattern targets in order: completed, or stopped at the first failed lookup. On success the count is the number of targets, failed removals included. |
| Cleanup.VisitForPattern | src/commands/cleanup.rs:180-191 | One iteration of the pattern loop keeps the count and the repository equal to the run over the targets seen so far. |
| Cleanup.PromptedMembers | src/commands/cleanup.rs:203-210 | The user is asked about a worktree iff it is not the main checkout and has a branch. |
| Cleanup.RepliedYesAt | src/commands/cleanup.rs:215-218 | A prompt is answered yes iff the line read trims to `y` or `Y`. At end of input the line is empty, so the answer is no. |
| Cleanup.ChosenIfYes | src/commands/cleanup.rs:218-219 | A prompted worktree answered yes is removed. |
| Cleanup.ChosenOnlyIfYes | src/commands/cleanup.rs:218-222 | A worktree is removed only if its prompt was answered yes. |
| Cleanup.ChosenAreCandidates | src/commands/cleanup.rs:203-208 | Interactive mode only removes non-root worktrees on a branch. |
| Cleanup.InteractiveCleanup | src/commands/cleanup.rs:197-228 | The repository ends in the outcome of removing, in order, the prompted worktrees answered yes: completed, or stopped at the first failed lookup. |
| Cleanup.VisitInteractively | src/commands/cleanup.rs:203-225 | One iteration of the interactive loop keeps the prompt count and the repository equal to the run over the worktrees seen so far. |
| Cleanup.StatusReport | src/commands/cleanup.rs:230-249 | The report fails iff some non-root worktree on a branch has a failing ancestry check. Each branch line carries the check's answer, and the report has at most one line per worktree. |
| Cleanup.StatusReportLines | src/commands/cleanup.rs:236-246 | A successful report has exactly one line per worktree that is the main checkout or on a branch, in list order. The main checkout gets the main line, and any other gets its branch with the check's answer. |
| Cleanup.ReportedMembers | src/commands/cleanup.rs:236-245 | A worktree gets a status line iff it is the main checkout or is on a branch. |
| Cleanup.Execute | src/commands/cleanup.rs:7-16 | No mode removes the main checkout. Merged mode returns the merged report and leaves the repository unchanged. Pattern and interactive modes leave the repository as their removal runs do, and return `Ok` with the count, or unit, iff the run completes. Status mode returns the status report and changes nothing. |
| Tmux.SanitizeSessionName | src/tmux.rs:155-171 | The character loop, the dash trim and the fallback compute `Sanitize`. |
| Tmux.SanitizeIsSanitized | src/tmux.rs:155-171 | The output is never empty, has only ASCII alphanumerics, `-`, `_` and `.`, and neither starts nor ends with `-`. |
| Tmux.ReplacedAt | src/tmux.rs:157-163 | Each character is kept when safe and becomes exactly one `-` otherwise. |
| Tmux.SanitizeFallsBack | src/tmux.rs:165-170 | The fallback `worktree` is taken iff every character of the input is `-` or unsafe. |
| Tmux.SanitizeFixedPoints | src/tmux.rs:155-171 | A string is left unchanged iff it is already sanitized. |
| Tmux.SanitizeIdempotent | src/tmux.rs:155-171 | Sanitizing twice equals sanitizing once. |
| Tmux.SanitizePadded | src/tmux.rs:155-171 | Dashes and unsafe characters around a sanitized string are trimmed away. |
| Tmux.SanitizeExampleSlash | src/tmux.rs:214 | `worktree-feature/foo` becomes `worktree-feature-foo`. |
| Tmux.SanitizeExampleColon | src/tmux.rs:215 | `branch:name` becomes `branch-name`. |
| Tmux.SanitizeExampleSpaced | src/tmux.rs:216 | `  spaced  ` becomes `spaced`. |
| Tmux.SanitizeExampleDots | src/tmux.rs:217 | `..` stays `..`. |
| Tmux.SanitizeExampleEmpty | src/tmux.rs:218 | The empty string becomes `worktree`. |
| Tmux.SessionNameShape | src/tmux.rs:181-190 | The name is `wb-`, the repository slug, `-`, the hash with unsafe characters replaced, `-`, and the identifier slug. |
| Tmux.SessionNameStartsWithWb | src/tmux.rs:189 | Every session name starts with `wb-`, whatever the hash. |
| Tmux.SessionNameStartsWithSlug | src/tmux.rs:181-189 | Every session name starts with `wb-`, the repository slug and `-`. |
| Tmux.SessionNameKeepsSafeHash | src/tmux.rs:181-190 | A hash of safe characters, such as a hex digest, appears in the name unchanged. |
| Tmux.RepoSegmentFallback | src/tmux.rs:182-187 | A path without a final component gives the repository slug `repo`. |
| Tmux.SessionNamesSeparateRepos | src/tmux.rs:181-190 | Repositories with different slugs get different session names for hashes of equal length. |
| Tmux.SessionNamesDifferInTmp | src/tmux.rs:227-234 | `/tmp/<a>` and `/tmp/<b>` for different sanitized names get different session names for hashes of equal length. |
| Tmux.TmuxClient.CreateSession | src/tmux.rs:137-139 | Creation fails only for the names the client refuses. On success the session is live and recorded in `created`. |
| Tmux.TmuxClient.AttachSession | src/tmux.rs:141-143 | Attaching succeeds iff the session is live, and only then is it recorded in `attached`. |
| EnvFile.UpdateEnvWithPorts | src/file_ops.rs:113-178 | The read loop, the appends and the write loop produce exactly `UpdateEnv` of the old content. |
| EnvFile.ReadExisting | src/file_ops.rs:124-142 | The loop rewrites every key line and keeps every other line. Each `has_*` flag is set iff some line carries that key. |
| EnvFile.WriteLines | src/file_ops.rs:163-173 | The lines are joined with newlines, and a final newline is written when there is a line. |
| EnvFile.ExistingLinesRewritten | src/file_ops.rs:129-141 | Each existing line becomes `KEY=<port>` when its left-trimmed text starts with one of the three keys, and is kept verbatim otherwise, in its place. |
| EnvFile.AppendedLines | src/file_ops.rs:145-157 | After the existing lines come an empty separator iff the content is non-empty and lacks a final newline, then the missing keys. |
| EnvFile.MissingMembers | src/file_ops.rs:149-157 | A key is appended iff no existing line carries it. |
| EnvFile.EveryKeyAssigned | src/file_ops.rs:129-157 | Each of the three keys is assigned its port in the output. |
| EnvFile.UpdateEnvEndsWithNewline | src/file_ops.rs:171-173 | The written file ends with a newline. |
| EnvFile.UpdatedLinesReread | src/file_ops.rs:129-173 | For content without `\r`, reading the written file back gives the same lines, and rewriting them changes nothing. |
| EnvFile.UpdateEnvIdempotent | src/file_ops.rs:113-178 | For content without `\r`, updating the output again returns the same text. |
| EnvFile.UpdateEmpty | src/file_ops.rs:117-173 | A missing or empty `.env` becomes the three assignments, each on its own line, in the order frontend, backend, database. |
| EnvFile.KeyOfAssignment | src/file_ops.rs:130-138 | An assignment written for a key is recognised as that key. |
| EnvFile.AssignmentsDiffer | src/file_ops.rs:132-138 | The three assignments are different lines. |
| Ports.Offset | src/port.rs:15 | The offset is `hash % 1000 + 1`, in 1..=1000. |
| Ports.CalculatePorts | src/port.rs:10-22 | Frontend lies in 5174..=6173, backend in 8081..=9080 and postgres in 5433..=6432. Backend minus frontend is 2907 and postgres minus frontend is 259. |
| Ports.SamePortsIffSameOffset | src/port.rs:10-22 | Two hashes give the same ports iff they agree modulo 1000. |
| Ports.PortsDistinct | src/port.rs:17-21 | The three ports of one allocation differ. No backend port is the frontend or postgres port of any allocation. |
| Ports.FrontendMeetsPostgres | src/port.rs:17-21 | The frontend port of one hash can equal the postgres port of another. |
| Setup.WorktreeDirName | src/commands/setup.rs:23 | The name is `worktree-` followed by the branch with each `/` replaced by `-`. It has no `/`. |
| Setup.DirNameOfPlainBranch | src/commands/setup.rs:23 | A branch without `/` keeps its name after `worktree-`. |
| Setup.DirNamesCollide | src/commands/setup.rs:23 | `feature/x` and `feature-x` get the same directory. |
| Setup.EnsureBranchReady | src/commands/setup.rs:150-173 | A local branch is left alone. A branch only the remote has is fetched and tracked. Any other is created. A failed lookup is an error that changes nothing. |
| Setup.StartTmuxSession | src/commands/setup.rs:250-269 | A live session is attached without creating anything. A missing one is created and then attached. A failed query or creation is an error. |
| Setup.ManageTmuxSession | src/commands/setup.rs:211-248 | Returns false with no tmux calls when tmux is not requested, already inside tmux, or unavailable. Otherwise it returns true iff the session started, and any start error falls back to false. |
| Setup.InsideTmux | src/commands/setup.rs:190 | Inside tmux iff `TMUX` is set to a non-empty value. |
| Setup.HandlePostSetup | src/commands/setup.rs:175-209 | With `print_path` only the path is printed. Without a shell request a `cd` hint is shown. Otherwise the tmux session is started iff tmux is requested, not already running and available, and the session starts. When it is not started, a plain shell is launched, and the result is an error iff the shell cannot start. |
| Setup.ReattachesExistingSession | src/commands/setup.rs:420-435 | An existing session is attached and nothing is created. |
| Setup.CreatesNewSessionWhenMissing | src/commands/setup.rs:437-452 | A missing session is created, then attached. |
| Setup.SkipsWhenUnavailable | src/commands/setup.rs:454-469 | With tmux unavailable nothing is created or attached, and the result is false. |
| Cli.SelectMode | src/main.rs:61-69 | `--merged` or no flag gives merged. Then a pattern gives `Pattern(p)`, then `--interactive` gives interactive, and anything else gives status. |
| Cli.AcceptedFlagsSelectTheirMode | src/main.rs:30-69 | With the parser's conflicts at most one flag is set, and then that flag's mode is selected, or merged when there is none. |
| Cli.FlagsFor | src/main.rs:30-69 | Every mode is selected by an accepted set of flags, and that set is unique among accepted sets with the same `--merged` bit as the returned one. |
| Cli.ShouldUseColor | src/main.rs:78-83 | Colour is off iff `NO_COLOR` is set or `CLICOLOR` equals `0`. |

## Left out

- Subprocess calls (`git`, `tmux`, `bash`, `direnv`, `$SHELL`), their exit codes and their output are not modelled. Each becomes an oracle field of `Git.Repo` or `Tmux.TmuxClient`, or, for the shell, the parameter `shellStarts` of `Setup.HandlePostSetup`.
- `git worktree list` failures are not modelled. The cleanup modes start from the worktree list the repository holds.
- Hashing is not modelled. SHA-1 in `stable_hash` and `DefaultHasher` in `legacy_hash` and `calculate_ports` are foreign code, so the hash is an input. As a result, `session_name` and `legacy_session_name` are both `Tmux.SessionNameWithHash` with some hash, and the test that the current and legacy names differ is not modelled.
- The process-wide tmux client store, the test lock, `kill_session` and the real client are not modelled. The client is passed explicitly.
- `get_current_branch`, `add_worktree`, `GitRepo::new` and `get_main_repo_dir` are not modelled. They are plain git calls outside the decision logic.
- File copying, `setup_direnv`, the setup script, display-path resolution, progress bars, coloured output and `src/output.rs` are I/O only.
- `setup::execute` as a whole is not modelled. Its steps that decide something are modelled: the directory name, `ensure_branch_ready`, `calculate_ports`, `update_env_with_ports` and `handle_post_setup`.
- The read of `.env` is not modelled. A missing file is the empty content, and read and write errors are left out.
- Errors from `read_line` and `flush` in interactive mode are not modelled. The answers are a sequence of lines, and lines past its end are empty.
- Printed text is not modelled. Status mode returns its lines as values. Merged mode returns its counts and the choice of banner.
- `src/config.rs`, `build.rs`, `src/lib.rs` and the binary-level tests are not part of this model.
- Git.Repo.CreateBranch: cannot fail in the model. In the code it fails only when git cannot be started, and a refusing `git checkout -b` (an invalid name, say) reports success without creating the branch.
- Git.Repo.FetchRemoteBranch: cannot fail in the model, and neither can `Git.Repo.CreateTrackingBranch`. `GitRepo` does not define either, so there is no failure behaviour to follow.
- Cleanup.IsCandidateWorktree: compares a worktree's path with `rootDir` as strings, where the code compares `PathBuf`s component by component. The two agree because git prints both paths in one normal form; a path listed as `/repo/` or `/repo/.` would be the main checkout to the code and a candidate to the model.
- Cleanup.IsReported: compares paths as strings too, so `Cleanup.StatusReport` and `Cleanup.LineFor` give the main line only to a worktree whose path is spelled exactly as `rootDir`.
- Cleanup.Execute: "no mode removes the main checkout" assumes `rootDir` is the main checkout's path as the porcelain output spells it. `get_main_repo_dir` keeps only the first whitespace-separated token of `git worktree list`, so for a main checkout whose path contains whitespace the code's root test never matches: status then lists that checkout as a branch, and the pattern and interactive modes offer it for removal. The model does not capture this.
- `get_merged_branches` failing to start git is not modelled. The merged list is the oracle's output, read through the filter.
