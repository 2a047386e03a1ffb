/** The two decisions of `src/main.rs`: which cleanup mode the flags of
    `workbloom cleanup` select, and whether output is coloured. */
module Cli {
  import opened Wrappers
  import opened Cleanup

  /** The flags of the `cleanup` subcommand as the argument parser hands them over. */
  datatype CleanupFlags = CleanupFlags(merged: bool, pattern: Option<string>, interactive: bool, status: bool)

  /** The number of mode flags given. */
  function FlagCount(f: CleanupFlags): nat {
    (if f.merged then 1 else 0) + (if f.pattern.Some? then 1 else 0)
    + (if f.interactive then 1 else 0) + (if f.status then 1 else 0)
  }

  /** What the parser lets through: each flag conflicts with the three
      others, so at most one is set. */
  predicate Accepted(f: CleanupFlags) {
    FlagCount(f) <= 1
  }

  /** The `if` chain that picks the mode: `--merged`, or no flag at all,
      means merged; then a pattern, then interactive; anything else is status. */
  function SelectMode(f: CleanupFlags): (m: CleanupMode)
    ensures m == Merged <==> f.merged || (f.pattern.None? && !f.interactive && !f.status)
    ensures m.Pattern? <==> !f.merged && f.pattern.Some?
    ensures m.Pattern? ==> f.pattern == Some(m.pattern)
    ensures m == Interactive <==> !f.merged && f.pattern.None? && f.interactive
    ensures m == Status <==> !f.merged && f.pattern.None? && !f.interactive && f.status
  {
    if f.merged || (f.pattern.None? && !f.interactive && !f.status) then Merged
    else if f.pattern.Some? then Pattern(f.pattern.value)
    else if f.interactive then Interactive
    else Status
  }

  /** For the flags the parser accepts, the mode is the one flag given, or
      merged when none is: no flag is ever overridden by another. */
  lemma AcceptedFlagsSelectTheirMode(f: CleanupFlags)
    requires Accepted(f)
    ensures f.merged || FlagCount(f) == 0 <==> SelectMode(f) == Merged
    ensures f.pattern.Some? <==> SelectMode(f).Pattern?
    ensures f.pattern.Some? ==> SelectMode(f) == Pattern(f.pattern.value)
    ensures f.interactive <==> SelectMode(f) == Interactive
    ensures f.status <==> SelectMode(f) == Status
  {
  }

  /** Every mode is reachable from exactly one accepted set of flags. */
  function FlagsFor(m: CleanupMode): (f: CleanupFlags)
    ensures Accepted(f) && SelectMode(f) == m
    ensures forall g :: Accepted(g) && SelectMode(g) == m && g.merged == f.merged ==> g == f
  {
    match m
    case Merged => CleanupFlags(true, None, false, false)
    case Pattern(p) => CleanupFlags(false, Some(p), false, false)
    case Interactive => CleanupFlags(false, None, true, false)
    case Status => CleanupFlags(false, None, false, true)
  }

  /** `should_use_color`: colour is off when `NO_COLOR` is set to anything,
      or when `CLICOLOR` is `0`. A variable that is unset, or whose value is
      not Unicode (so `env::var` fails), is `None`. */
  function ShouldUseColor(noColor: Option<string>, cliColor: Option<string>): (color: bool)
    ensures !color <==> noColor.Some? || cliColor == Some("0")
    ensures noColor.None? && cliColor.None? ==> color
  {
    if noColor.Some? || (match cliColor case Some(v) => v == "0" case None => false) then false
    else true
  }
}
