/**
 * git as the core sees it: the answers of the commands it runs, scripted in
 * advance, and the argument vectors it passes to them.
 */
module Git {
  import opened Wrappers
  import opened Paths

  /**
   * The answers git gives for one run of the tool. A failing command is
   * represented by its diagnostic (Err) or, for a command whose exit status
   * alone matters, by membership in a set.
   */
  datatype GitAnswers = GitAnswers(
    head: Result<string, string>,        // git rev-parse --abbrev-ref HEAD, trimmed
    branches: set<string>,               // the names refs/heads/<name> that show-ref --verify finds
    listing: Result<seq<string>, string>, // the lines of git worktree list --porcelain
    addFailure: Option<string>,          // the diagnostic of a failing git worktree add
    moveFailures: set<Path>,             // the worktrees whose git worktree move fails
    ignored: Result<seq<string>, string>) // the lines of git ls-files -i -o --exclude-standard

  function RevParseArgs(): seq<string> {
    ["rev-parse", "--abbrev-ref", "HEAD"]
  }

  function ShowRefArgs(name: string): seq<string> {
    ["show-ref", "--verify", "--quiet", "refs/heads/" + name]
  }

  function ListArgs(): seq<string> {
    ["worktree", "list", "--porcelain"]
  }

  function LsIgnoredArgs(): seq<string> {
    ["ls-files", "-i", "-o", "--exclude-standard"]
  }

  /** git worktree add: `-b <branch> <path>` creates the branch, `<path> <branch>` checks it out. */
  function AddArgs(path: Path, branch: string, createBranch: bool): seq<string> {
    if createBranch then ["worktree", "add", "-b", branch, Render(path)]
    else ["worktree", "add", Render(path), branch]
  }

  function MoveArgs(from: Path, to: Path): seq<string> {
    ["worktree", "move", Render(from), Render(to)]
  }
}
