/**
 * The command layer (src/main.rs): the edits `files add` and `files remove`
 * make to the configured file list, and the order in which `add`, `relink`
 * and `enter` consult the configuration, the current branch and the current
 * directory before touching a worktree.
 */
module Cli {
  import opened Wrappers
  import opened Paths
  import opened Fs
  import opened Config
  import opened Git
  import opened Worktrees

  datatype CommandError =
    | ConfigUnreadable(message: string)
    | Failed(cause: Error)
    | AlreadyConfigured(path: string)
    | NotConfigured(path: string)

  /** What a command leaves: the tree, the git commands run, and the result. */
  datatype CommandRun<T> = CommandRun(tree: Tree, calls: seq<seq<string>>, result: Result<T, CommandError>)

  function Lift<T>(r: Result<T, Error>): Result<T, CommandError> {
    if r.Ok? then Ok(r.value) else Err(Failed(r.error))
  }

  // ---- files add / files remove ----

  predicate Configured(files: seq<FileEntry>, path: string) {
    exists k | 0 <= k < |files| :: files[k].path == path
  }

  /** No two entries share a path. */
  predicate UniquePaths(files: seq<FileEntry>) {
    forall i, j | 0 <= i < j < |files| :: files[i].path != files[j].path
  }

  /** `files add`: refuse a path already listed, otherwise append it with the chosen link type. */
  function FilesAdd(config: Config, path: string, copy: bool): (r: Result<Config, CommandError>)
    ensures r.Err? <==> Configured(config.files, path)
    ensures r.Err? ==> r.error == AlreadyConfigured(path)
    ensures r.Ok? ==> r.value.mainBranch == config.mainBranch
    ensures r.Ok? ==> |r.value.files| == |config.files| + 1 && r.value.files[..|config.files|] == config.files
    ensures r.Ok? ==> r.value.files[|config.files|] == FileEntry(path, if copy then LinkType.Copy else LinkType.Symlink)
  {
    if Configured(config.files, path) then Err(AlreadyConfigured(path))
    else
      var entry := FileEntry(path, if copy then LinkType.Copy else LinkType.Symlink);
      assert (config.files + [entry])[..|config.files|] == config.files;
      Ok(Config(config.mainBranch, config.files + [entry]))
  }

  /** Vec::retain with the predicate `entry.path != path`. */
  function Retain(files: seq<FileEntry>, path: string): seq<FileEntry> {
    if files == [] then []
    else
      var last := files[|files| - 1];
      Retain(files[..|files| - 1], path) + (if last.path != path then [last] else [])
  }

  /** Retain keeps exactly the entries with another path. */
  lemma {:induction false} RetainMembers(files: seq<FileEntry>, path: string)
    ensures forall e :: e in Retain(files, path) <==> e in files && e.path != path
    decreases |files|
  {
    if files != [] {
      RetainMembers(files[..|files| - 1], path);
      assert files == files[..|files| - 1] + [files[|files| - 1]];
    }
  }

  /**
   * Retain works entry by entry: on a concatenation it retains each part, so
   * the kept entries stay in their order with their repetitions.
   */
  lemma {:induction false} RetainAppend(a: seq<FileEntry>, b: seq<FileEntry>, path: string)
    ensures Retain(a + b, path) == Retain(a, path) + Retain(b, path)
    decreases |b|
  {
    if b == [] {
      assert a + b == a;
    } else {
      var init := b[..|b| - 1];
      var last := b[|b| - 1];
      assert (a + b)[..|a + b| - 1] == a + init;
      assert (a + b)[|a + b| - 1] == last;
      RetainAppend(a, init, path);
    }
  }

  /** A single entry is kept exactly when its path differs. */
  lemma RetainSingle(e: FileEntry, path: string)
    ensures Retain([e], path) == if e.path != path then [e] else []
  {
    assert [e][..0] == [];
  }

  /** The length test of `files remove`: retain drops nothing exactly when no entry has the path. */
  lemma {:induction false} RetainLength(files: seq<FileEntry>, path: string)
    ensures |Retain(files, path)| <= |files|
    ensures |Retain(files, path)| == |files| <==> !Configured(files, path)
    ensures !Configured(files, path) ==> Retain(files, path) == files
    decreases |files|
  {
    if files != [] {
      var init := files[..|files| - 1];
      RetainLength(init, path);
      if Configured(init, path) {
        var k :| 0 <= k < |init| && init[k].path == path;
        assert files[k].path == path;
      }
      if !Configured(files, path) {
        assert files == init + [files[|files| - 1]];
      } else if !Configured(init, path) {
        assert files[|files| - 1].path == path;
      }
    }
  }

  /** Retaining keeps paths unique. */
  lemma {:induction false} RetainUnique(files: seq<FileEntry>, path: string)
    requires UniquePaths(files)
    ensures UniquePaths(Retain(files, path))
    decreases |files|
  {
    if files != [] {
      var init := files[..|files| - 1];
      var last := files[|files| - 1];
      RetainUnique(init, path);
      RetainMembers(init, path);
      var kept := Retain(init, path);
      var r := Retain(files, path);
      if last.path != path {
        forall i, j | 0 <= i < j < |r| ensures r[i].path != r[j].path {
          if j == |kept| {
            assert r[i] == kept[i] && r[i] in init;
            var m :| 0 <= m < |init| && init[m] == r[i];
            assert files[m] == r[i];
          } else {
            assert r[i] == kept[i] && r[j] == kept[j];
          }
        }
      }
    }
  }

  /** `files remove`: drop every entry with the path, or fail when there is none. */
  function FilesRemove(config: Config, path: string): (r: Result<Config, CommandError>)
    ensures r.Err? <==> !Configured(config.files, path)
    ensures r.Err? ==> r.error == NotConfigured(path)
    ensures r.Ok? ==> r.value.mainBranch == config.mainBranch && !Configured(r.value.files, path)
    ensures r.Ok? ==> forall e :: e in r.value.files <==> e in config.files && e.path != path
    ensures r.Ok? ==> r.value.files == Retain(config.files, path)
  {
    var kept := Retain(config.files, path);
    RetainLength(config.files, path);
    RetainMembers(config.files, path);
    if |kept| == |config.files| then Err(NotConfigured(path))
    else
      Ok(Config(config.mainBranch, kept))
  }

  /** Adding a path and removing it again gives back the configuration. */
  lemma FilesAddRemove(config: Config, path: string, copy: bool)
    requires FilesAdd(config, path, copy).Ok?
    ensures FilesRemove(FilesAdd(config, path, copy).value, path) == Ok(config)
  {
    var added := FilesAdd(config, path, copy).value;
    assert added.files[..|added.files| - 1] == config.files;
    RetainLength(config.files, path);
    assert Retain(added.files, path) == Retain(config.files, path) + [];
    assert Configured(added.files, path) by {
      assert added.files[|config.files|].path == path;
    }
    assert Retain(added.files, path) == config.files;
    var r := FilesRemove(added, path);
    assert r.Ok?;
    assert r.value.files == config.files;
  }

  /** Both edits keep the paths of the file list unique. */
  lemma FilesEditsKeepUnique(config: Config, path: string, copy: bool)
    requires UniquePaths(config.files)
    ensures FilesAdd(config, path, copy).Ok? ==> UniquePaths(FilesAdd(config, path, copy).value.files)
    ensures FilesRemove(config, path).Ok? ==> UniquePaths(FilesRemove(config, path).value.files)
  {
    RetainUnique(config.files, path);
    var r := FilesAdd(config, path, copy);
    if r.Ok? {
      var f := r.value.files;
      forall i, j | 0 <= i < j < |f| ensures f[i].path != f[j].path {
        assert f[i] == config.files[i];
        if j < |config.files| {
          assert f[j] == config.files[j];
        }
      }
    }
  }

  // ---- add ----

  /** Commands::Add: load the configuration, insist on the main branch, then add the worktree. */
  function AddCommandSpec(t: Tree, ro: set<Path>, git: GitAnswers, root: Path, stored: Result<Config, string>,
                          name: string, branch: Option<string>): CommandRun<Path>
  {
    var loaded := Load(t, root, stored);
    if loaded.Err? then CommandRun(t, [], Err(ConfigUnreadable(loaded.error)))
    else
      var guard := EnsureOnMainBranch(git, loaded.value.mainBranch);
      if guard.Some? then CommandRun(t, [RevParseArgs()], Err(Failed(guard.value)))
      else
        var run := AddWorktreeSpec(t, ro, git, root, name, branch, loaded.value);
        CommandRun(run.tree, [RevParseArgs()] + run.calls, Lift(run.result))
  }

  method AddCommand(fs: FileSystem, git: GitAnswers, root: Path, stored: Result<Config, string>,
                    name: string, branch: Option<string>)
    returns (r: Result<Path, CommandError>, calls: seq<seq<string>>)
    modifies fs
    ensures CommandRun(fs.nodes, calls, r) == AddCommandSpec(old(fs.nodes), fs.readOnly, git, root, stored, name, branch)
  {
    var loaded := Load(fs.nodes, root, stored);
    if loaded.Err? {
      return Err(ConfigUnreadable(loaded.error)), [];
    }
    calls := [RevParseArgs()];
    var guard := EnsureOnMainBranch(git, loaded.value.mainBranch);
    if guard.Some? {
      return Err(Failed(guard.value)), calls;
    }
    var added, more := AddWorktree(fs, git, root, name, branch, loaded.value);
    return Lift(added), calls + more;
  }

  predicate IsWorktreeAdd(call: seq<string>) {
    |call| >= 2 && call[0] == "worktree" && call[1] == "add"
  }

  /** Off the main branch, `add` changes nothing and never asks git to add a worktree. */
  lemma AddNeedsMainBranch(t: Tree, ro: set<Path>, git: GitAnswers, root: Path, stored: Result<Config, string>,
                           name: string, branch: Option<string>)
    requires Load(t, root, stored).Ok?
    requires git.head != Ok(Load(t, root, stored).value.mainBranch)
    ensures var run := AddCommandSpec(t, ro, git, root, stored, name, branch);
      run.tree == t && run.result.Err? && forall c | c in run.calls :: !IsWorktreeAdd(c)
  {
  }

  /** On the main branch, `add` is add_worktree preceded by the branch query. */
  lemma AddOnMainBranch(t: Tree, ro: set<Path>, git: GitAnswers, root: Path, stored: Result<Config, string>,
                        name: string, branch: Option<string>)
    requires Load(t, root, stored).Ok?
    requires git.head == Ok(Load(t, root, stored).value.mainBranch)
    ensures var run := AddCommandSpec(t, ro, git, root, stored, name, branch);
      var added := AddWorktreeSpec(t, ro, git, root, name, branch, Load(t, root, stored).value);
      run.calls[0] == RevParseArgs() && run.calls[1..] == added.calls && run.tree == added.tree &&
      (run.result.Ok? <==> added.result.Ok?)
  {
  }

  // ---- relink and enter ----

  /** Commands::Relink: resolve the name, load the configuration, relink. */
  function RelinkCommandSpec(t: Tree, ro: set<Path>, root: Path, cwd: Path, stored: Result<Config, string>,
                             name: Option<string>): CommandRun<string>
  {
    var resolved := ResolveWorktreeName(t, root, cwd, name);
    if resolved.Err? then CommandRun(t, [], Err(Failed(resolved.error)))
    else
      var loaded := Load(t, root, stored);
      if loaded.Err? then CommandRun(t, [], Err(ConfigUnreadable(loaded.error)))
      else
        var run := RelinkSpec(t, ro, root, resolved.value, loaded.value);
        CommandRun(run.tree, [], if run.error.Some? then Err(Failed(run.error.value)) else Ok(resolved.value))
  }

  method RelinkCommand(fs: FileSystem, root: Path, cwd: Path, stored: Result<Config, string>, name: Option<string>)
    returns (r: Result<string, CommandError>)
    modifies fs
    ensures CommandRun(fs.nodes, [], r) == RelinkCommandSpec(old(fs.nodes), fs.readOnly, root, cwd, stored, name)
  {
    var resolved := ResolveWorktreeName(fs.nodes, root, cwd, name);
    if resolved.Err? {
      return Err(Failed(resolved.error));
    }
    var loaded := Load(fs.nodes, root, stored);
    if loaded.Err? {
      return Err(ConfigUnreadable(loaded.error));
    }
    var err := Relink(fs, root, resolved.value, loaded.value);
    if err.Some? {
      return Err(Failed(err.value));
    }
    return Ok(resolved.value);
  }

  /** Without a name, `relink` run from inside a managed worktree relinks that worktree. */
  lemma RelinkFromInside(t: Tree, ro: set<Path>, root: Path, cwd: Path, stored: Result<Config, string>, w: string)
    requires ValidComponent(w) && Exists(t, TreesDir(root) + [w]) && IsPrefix(TreesDir(root) + [w], cwd)
    requires Load(t, root, stored).Ok?
    ensures var run := RelinkCommandSpec(t, ro, root, cwd, stored, None);
      var relinked := RelinkSpec(t, ro, root, w, Load(t, root, stored).value);
      run.tree == relinked.tree && (run.result == Ok(w) <==> relinked.error.None?)
  {
    DetectInsideWorktree(t, root, w, cwd);
  }

  /** Commands::Enter, up to spawning the shell: the path of the resolved worktree. */
  function EnterTarget(t: Tree, git: GitAnswers, root: Path, cwd: Path, name: Option<string>): (r: Result<Path, CommandError>)
    ensures r.Ok? ==> Exists(t, r.value)
    ensures r.Ok? && ((name.None? && ValidPath(cwd)) || (name.Some? && !IsAbsolute(name.value))) ==>
      IsPrefix(TreesDir(root), r.value)
    ensures r.Ok? && name.Some? && IsAbsolute(name.value) ==> r.value == Parse(name.value)
    ensures name.Some? ==> (r.Ok? <==> Exists(t, Join(TreesDir(root), name.value)))
    ensures name.None? ==> (r.Ok? <==> DetectCurrentWorktree(t, root, cwd).Some?)
    ensures r.Err? ==>
      r.error.Failed? &&
      (r.error.cause.NoSuchWorktree? || r.error.cause == NotInsideWorktree ||
       (r.error.cause.GitFailed? && git.listing == Err(r.error.cause.message)))
  {
    var resolved := ResolveWorktreeName(t, root, cwd, name);
    if resolved.Err? then Err(Failed(resolved.error))
    else
      assert name.None? && ValidPath(cwd) ==> !IsAbsolute(resolved.value) by {
        if name.None? && ValidPath(cwd) {
          ParseComponent(cwd[|TreesDir(root)|]);
        }
      }
      Lift(GetWorktreePath(t, git, root, resolved.value))
  }

  /** Without a name, `enter` goes to the worktree that holds the current directory. */
  lemma EnterContainsCwd(t: Tree, git: GitAnswers, root: Path, cwd: Path)
    requires ValidPath(cwd)
    requires EnterTarget(t, git, root, cwd, None).Ok?
    ensures IsPrefix(EnterTarget(t, git, root, cwd, None).value, cwd)
  {
    DetectedContainsCwd(t, root, cwd);
  }
}
