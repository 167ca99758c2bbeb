/**
 * The managed worktrees: the ones git lists below root/.epi/trees. Listing
 * them, naming the one the user stands in, the main-branch guard, creating
 * one (add_worktree) and re-linking one (relink_worktree).
 */
module Worktrees {
  import opened Wrappers
  import opened Paths
  import opened Fs
  import opened Config
  import opened Porcelain
  import opened Git
  import opened Links

  /** A managed worktree: its name is the last component of its path. */
  datatype Worktree = Worktree(name: string, path: Path, branch: string)

  datatype Error =
    | GitFailed(message: string)
    | NotOnMainBranch(current: string, expected: string)
    | WorktreeExists(name: string)
    | NoSuchWorktree(name: string)
    | NotInsideWorktree
    | UnnamedWorktree
    | Io(cause: FsError)

  /** The outcome of an operation that changes the filesystem and may fail. */
  datatype Run = Run(tree: Tree, error: Option<Error>)

  function NameOf(p: Path): string {
    FileName(p).GetOr("")
  }

  function AsManaged(g: GitWorktree): Worktree {
    Worktree(NameOf(g.path), g.path, g.branch)
  }

  // ---- list_worktrees ----

  /** The records below trees, in listing order, named after their last component. */
  function Managed(records: seq<GitWorktree>, trees: Path): seq<Worktree>
    decreases |records|
  {
    if records == [] then []
    else
      var init := Managed(records[..|records| - 1], trees);
      var last := records[|records| - 1];
      if IsPrefix(trees, last.path) then init + [AsManaged(last)] else init
  }

  /** list_worktrees: nothing, and no git query, when the trees directory is absent. */
  function ListWorktreesSpec(t: Tree, git: GitAnswers, root: Path): Result<seq<Worktree>, Error> {
    if !Exists(t, TreesDir(root)) then Ok([])
    else if git.listing.Err? then Err(GitFailed(git.listing.error))
    else Ok(Managed(Records(git.listing.value), TreesDir(root)))
  }

  method ListWorktrees(fs: FileSystem, git: GitAnswers, root: Path) returns (r: Result<seq<Worktree>, Error>, calls: seq<seq<string>>)
    ensures r == ListWorktreesSpec(fs.nodes, git, root)
    ensures calls == if Exists(fs.nodes, TreesDir(root)) then [ListArgs()] else []
  {
    var trees := TreesDir(root);
    if !Exists(fs.nodes, trees) {
      return Ok([]), [];
    }
    calls := [ListArgs()];
    var listed := ListGitWorktrees(git.listing);
    if listed.Err? {
      return Err(GitFailed(listed.error)), calls;
    }
    var worktrees := listed.value;
    var managed: seq<Worktree> := [];
    var i := 0;
    while i < |worktrees|
      invariant 0 <= i <= |worktrees|
      invariant managed == Managed(worktrees[..i], trees)
    {
      var wt := worktrees[i];
      assert worktrees[..i + 1][..i] == worktrees[..i];
      if IsPrefix(trees, wt.path) {
        managed := managed + [Worktree(NameOf(wt.path), wt.path, wt.branch)];
      }
      i := i + 1;
    }
    assert worktrees[..i] == worktrees;
    return Ok(managed), calls;
  }

  /** The filter distributes over concatenation: listing order is kept. */
  lemma {:induction false} ManagedAppend(a: seq<GitWorktree>, b: seq<GitWorktree>, trees: Path)
    ensures Managed(a + b, trees) == Managed(a, trees) + Managed(b, trees)
    decreases |b|
  {
    if b == [] {
      assert a + b == a;
    } else {
      var ab := a + b;
      assert ab[..|ab| - 1] == a + b[..|b| - 1];
      assert ab[|ab| - 1] == b[|b| - 1];
      ManagedAppend(a, b[..|b| - 1], trees);
    }
  }

  /** Every record below trees, and nothing else, appears among the managed worktrees. */
  lemma {:induction false} ManagedExactly(records: seq<GitWorktree>, trees: Path)
    ensures forall w | w in Managed(records, trees) ::
      IsPrefix(trees, w.path) && w.name == NameOf(w.path) && GitWorktree(w.path, w.branch) in records
    ensures forall g | g in records && IsPrefix(trees, g.path) :: AsManaged(g) in Managed(records, trees)
    ensures |Managed(records, trees)| <= |records|
    decreases |records|
  {
    if records != [] {
      var init := records[..|records| - 1];
      ManagedExactly(init, trees);
      assert records == init + [records[|records| - 1]];
    }
  }

  /** A listing record that is not below trees is dropped. */
  lemma ManagedSkipsOutside(records: seq<GitWorktree>, g: GitWorktree, trees: Path)
    requires !IsPrefix(trees, g.path)
    ensures Managed(records + [g], trees) == Managed(records, trees)
  {
    assert (records + [g])[..|records|] == records;
  }

  // ---- Worktree's Display ----

  /** "name  path", or "name  [branch]  path" when there is a branch. */
  function Display(w: Worktree): string {
    if w.branch == "" then w.name + "  " + Render(w.path)
    else w.name + "  [" + w.branch + "]  " + Render(w.path)
  }

  /** The path can be read back from the end of the displayed line. */
  lemma DisplayEndsWithPath(w: Worktree)
    requires ValidPath(w.path)
    ensures var s := Display(w); var n := |Render(w.path)|;
      n <= |s| && Parse(s[|s| - n..]) == w.path
  {
    ParseRender(w.path);
    var s := Display(w);
    var n := |Render(w.path)|;
    assert s[|s| - n..] == Render(w.path);
  }

  /** The branch is shown, in brackets, exactly when there is one. */
  lemma DisplayShowsBranch(w: Worktree)
    ensures Display(w) == w.name + "  " + Render(w.path) <==> w.branch == ""
    ensures w.branch != "" ==> StartsWith(Display(w)[|w.name| + 2..], "[" + w.branch + "]")
  {
    var s := Display(w);
    if w.branch != "" {
      assert |s| > |w.name + "  " + Render(w.path)|;
      assert s[|w.name| + 2..] == "[" + w.branch + "]  " + Render(w.path);
      assert s[|w.name| + 2..][..|w.branch| + 2] == "[" + w.branch + "]";
    }
  }

  // ---- detect_current_worktree and resolve_worktree_name ----

  /** The first component of cwd below the trees directory, when that worktree exists. */
  function DetectCurrentWorktree(t: Tree, root: Path, cwd: Path): (r: Option<string>)
    ensures r.Some? <==>
      IsPrefix(TreesDir(root), cwd) && |cwd| > |TreesDir(root)| &&
      Exists(t, Join(TreesDir(root), cwd[|TreesDir(root)|]))
    ensures r.Some? ==> r.value == cwd[|TreesDir(root)|]
  {
    var trees := TreesDir(root);
    if !IsPrefix(trees, cwd) then None
    else
      var relative := cwd[|trees|..];
      if relative != [] && Exists(t, Join(trees, relative[0])) then Some(relative[0]) else None
  }

  /** Standing anywhere inside an existing managed worktree detects that worktree's name. */
  lemma DetectInsideWorktree(t: Tree, root: Path, name: string, cwd: Path)
    requires ValidComponent(name)
    requires Exists(t, TreesDir(root) + [name])
    requires IsPrefix(TreesDir(root) + [name], cwd)
    ensures DetectCurrentWorktree(t, root, cwd) == Some(name)
  {
    var trees := TreesDir(root);
    assert cwd[|trees|] == (trees + [name])[|trees|];
    ParseComponent(name);
  }

  /** The detected name, joined to the trees directory, is a prefix of cwd. */
  lemma DetectedContainsCwd(t: Tree, root: Path, cwd: Path)
    requires ValidPath(cwd)
    requires DetectCurrentWorktree(t, root, cwd).Some?
    ensures var name := DetectCurrentWorktree(t, root, cwd).value;
      IsPrefix(Join(TreesDir(root), name), cwd)
  {
    var trees := TreesDir(root);
    var name := cwd[|trees|];
    ParseComponent(name);
    assert cwd[..|trees| + 1] == trees + [name];
  }

  /** An explicit name wins; otherwise the current worktree; otherwise an error. */
  function ResolveWorktreeName(t: Tree, root: Path, cwd: Path, name: Option<string>): (r: Result<string, Error>)
    ensures name.Some? ==> r == Ok(name.value)
    ensures name.None? ==> (r.Ok? <==> DetectCurrentWorktree(t, root, cwd).Some?)
    ensures name.None? && r.Ok? ==> r.value == DetectCurrentWorktree(t, root, cwd).value
    ensures r.Err? ==> r.error == NotInsideWorktree
  {
    match name
    case Some(n) => Ok(n)
    case None =>
      match DetectCurrentWorktree(t, root, cwd)
      case Some(n) => Ok(n)
      case None => Err(NotInsideWorktree)
  }

  /**
   * get_worktree_path: trees/name, which must exist. A relative name stays
   * below the trees directory; an absolute one replaces it (Path::join). For
   * a missing worktree the source lists the worktrees for its message, so a
   * failing listing replaces the "does not exist" error.
   */
  function GetWorktreePath(t: Tree, git: GitAnswers, root: Path, name: string): (r: Result<Path, Error>)
    ensures r.Ok? <==> Exists(t, Join(TreesDir(root), name))
    ensures r.Ok? && !IsAbsolute(name) ==> IsPrefix(TreesDir(root), r.value) && r.value[|TreesDir(root)|..] == Parse(name)
    ensures r.Ok? && IsAbsolute(name) ==> r.value == Parse(name)
    ensures r.Err? && Exists(t, TreesDir(root)) && git.listing.Err? ==> r.error == GitFailed(git.listing.error)
    ensures r.Err? && (!Exists(t, TreesDir(root)) || git.listing.Ok?) ==> r.error == NoSuchWorktree(name)
  {
    var path := Join(TreesDir(root), name);
    if Exists(t, path) then Ok(path)
    else
      match ListWorktreesSpec(t, git, root)
      case Err(e) => Err(e)
      case Ok(_) => Err(NoSuchWorktree(name))
  }

  // ---- ensure_on_main_branch ----

  function EnsureOnMainBranch(git: GitAnswers, mainBranch: string): (r: Option<Error>)
    ensures r.None? <==> git.head == Ok(mainBranch)
    ensures git.head.Err? ==> r == Some(GitFailed(git.head.error))
    ensures git.head.Ok? && git.head.value != mainBranch ==> r == Some(NotOnMainBranch(git.head.value, mainBranch))
  {
    match git.head
    case Err(e) => Some(GitFailed(e))
    case Ok(current) => if current != mainBranch then Some(NotOnMainBranch(current, mainBranch)) else None
  }

  // ---- add_worktree ----

  /** The branch to check out and whether to create it: explicit, then existing `name`, then new `name`. */
  function BranchChoice(name: string, branch: Option<string>, nameExists: bool): (c: (string, bool))
    ensures branch.Some? ==> c == (branch.value, false)
    ensures branch.None? ==> c == (name, !nameExists)
  {
    if branch.Some? then (branch.value, false)
    else if nameExists then (name, false)
    else (name, true)
  }

  /** What add_worktree leaves: the tree, the git commands run, and the result. */
  datatype AddRun = AddRun(tree: Tree, calls: seq<seq<string>>, result: Result<Path, Error>)

  function AddWorktreeSpec(t: Tree, ro: set<Path>, git: GitAnswers, root: Path, name: string,
                           branch: Option<string>, config: Config): AddRun
  {
    var trees := TreesDir(root);
    var made := CreateDirAllEffect(t, ro, trees);
    if made.error.Some? then AddRun(made.tree, [], Err(Io(made.error.value)))
    else
      var path := Join(trees, name);
      if Exists(made.tree, path) then AddRun(made.tree, [], Err(WorktreeExists(name)))
      else
        var probe := if branch.Some? then [] else [ShowRefArgs(name)];
        var choice := BranchChoice(name, branch, name in git.branches);
        var calls := probe + [AddArgs(path, choice.0, choice.1)];
        if git.addFailure.Some? then AddRun(made.tree, calls, Err(GitFailed(git.addFailure.value)))
        else
          var linked := LinkFilesEffect(CreateDirAllEffect(made.tree, {}, path).tree, ro, root, path, config.files);
          AddRun(linked.tree, calls, if linked.error.Some? then Err(Io(linked.error.value)) else Ok(path))
  }

  method AddWorktree(fs: FileSystem, git: GitAnswers, root: Path, name: string, branch: Option<string>, config: Config)
    returns (r: Result<Path, Error>, calls: seq<seq<string>>)
    modifies fs
    ensures AddRun(fs.nodes, calls, r) == AddWorktreeSpec(old(fs.nodes), fs.readOnly, git, root, name, branch, config)
  {
    calls := [];
    var trees := TreesDir(root);
    var err := fs.CreateDirAll(trees);
    if err.Some? {
      return Err(Io(err.value)), calls;
    }
    var path := Join(trees, name);
    if Exists(fs.nodes, path) {
      return Err(WorktreeExists(name)), calls;
    }
    var branchName: string;
    var createBranch: bool;
    if branch.Some? {
      branchName, createBranch := branch.value, false;
    } else {
      calls := calls + [ShowRefArgs(name)];
      if name in git.branches {
        branchName, createBranch := name, false;
      } else {
        branchName, createBranch := name, true;
      }
    }
    calls := calls + [AddArgs(path, branchName, createBranch)];
    if git.addFailure.Some? {
      return Err(GitFailed(git.addFailure.value)), calls;
    }
    fs.Materialize(path);
    err := LinkFiles(fs, root, path, config);
    if err.Some? {
      return Err(Io(err.value)), calls;
    }
    return Ok(path), calls;
  }

  /** An existing trees/name is refused before git is asked anything, and nothing but the trees directory is created. */
  lemma AddRefusesExisting(t: Tree, ro: set<Path>, git: GitAnswers, root: Path, name: string,
                           branch: Option<string>, config: Config)
    requires Exists(t, Join(TreesDir(root), name))
    ensures var run := AddWorktreeSpec(t, ro, git, root, name, branch, config);
      run.calls == [] && run.result.Err? &&
      (run.result.error.WorktreeExists? || run.result.error.Io?) &&
      run.tree == CreateDirAllEffect(t, ro, TreesDir(root)).tree
  {
    CreateDirAllFrame(t, ro, TreesDir(root));
    StatGrows(t, CreateDirAllEffect(t, ro, TreesDir(root)).tree, Join(TreesDir(root), name));
  }

  /** The three-way branch policy, as seen in the git commands add_worktree runs. */
  lemma AddBranchPolicy(t: Tree, ro: set<Path>, git: GitAnswers, root: Path, name: string,
                        branch: Option<string>, config: Config)
    requires AddWorktreeSpec(t, ro, git, root, name, branch, config).calls != []
    ensures var run := AddWorktreeSpec(t, ro, git, root, name, branch, config);
      var path := Join(TreesDir(root), name);
      (branch.Some? ==> run.calls == [["worktree", "add", Render(path), branch.value]]) &&
      (branch.None? && name in git.branches ==>
        run.calls == [ShowRefArgs(name), ["worktree", "add", Render(path), name]]) &&
      (branch.None? && name !in git.branches ==>
        run.calls == [ShowRefArgs(name), ["worktree", "add", "-b", name, Render(path)]])
  {
  }

  /**
   * A successful add answers the path git was asked to create: trees/name for
   * a relative name, the name itself for an absolute one.
   */
  lemma AddCreates(t: Tree, ro: set<Path>, git: GitAnswers, root: Path, name: string,
                   branch: Option<string>, config: Config)
    requires AddWorktreeSpec(t, ro, git, root, name, branch, config).result.Ok?
    ensures var run := AddWorktreeSpec(t, ro, git, root, name, branch, config);
      git.addFailure.None? && |run.calls| >= 1 &&
      Render(run.result.value) in run.calls[|run.calls| - 1] &&
      (!IsAbsolute(name) ==> run.result.value == TreesDir(root) + Parse(name)) &&
      (IsAbsolute(name) ==> run.result.value == Parse(name))
  {
  }

  // ---- relink_worktree ----

  function RelinkSpec(t: Tree, ro: set<Path>, root: Path, name: string, config: Config): Run {
    var path := Join(TreesDir(root), name);
    if !Exists(t, path) then Run(t, Some(NoSuchWorktree(name)))
    else
      var linked := LinkFilesEffect(t, ro, root, path, config.files);
      Run(linked.tree, if linked.error.Some? then Some(Io(linked.error.value)) else None)
  }

  method Relink(fs: FileSystem, root: Path, name: string, config: Config) returns (err: Option<Error>)
    modifies fs
    ensures Run(fs.nodes, err) == RelinkSpec(old(fs.nodes), fs.readOnly, root, name, config)
  {
    var path := Join(TreesDir(root), name);
    if !Exists(fs.nodes, path) {
      return Some(NoSuchWorktree(name));
    }
    var e := LinkFiles(fs, root, path, config);
    if e.Some? {
      return Some(Io(e.value));
    }
    return None;
  }

  /** Relinking a worktree that does not exist changes nothing. */
  lemma RelinkMissing(t: Tree, ro: set<Path>, root: Path, name: string, config: Config)
    requires !Exists(t, Join(TreesDir(root), name))
    ensures RelinkSpec(t, ro, root, name, config) == Run(t, Some(NoSuchWorktree(name)))
  {
  }

  /** Relinking with one entry more either stops where the shorter list stopped or links that entry as well. */
  lemma RelinkExtends(t: Tree, ro: set<Path>, root: Path, name: string, config: Config, e: FileEntry)
    requires Exists(t, Join(TreesDir(root), name))
    ensures var longer := RelinkSpec(t, ro, root, name, config.(files := config.files + [e]));
      var shorter := LinkFilesEffect(t, ro, root, Join(TreesDir(root), name), config.files);
      shorter.error.Some? ==> longer == RelinkSpec(t, ro, root, name, config)
  {
    var path := Join(TreesDir(root), name);
    if LinkFilesEffect(t, ro, root, path, config.files).error.Some? {
      LinkFilesAborts(t, ro, root, path, config.files, [e]);
    }
  }
}
