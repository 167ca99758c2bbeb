/**
 * The configuration record, its defaults, the managed trees directory and
 * the search for the repository root (src/config.rs).
 */
module Config {
  import opened Wrappers
  import opened Paths
  import opened Fs

  const ConfigDirName: string := ".epi"
  const ConfigFileName: string := "config.toml"
  const TreesDirName: string := "trees"
  const DefaultMainBranch: string := "main"

  /** How an entry is propagated; Symlink is the default. */
  datatype LinkType = Copy | Symlink

  /** A repository-relative path to propagate into every worktree. */
  datatype FileEntry = FileEntry(path: string, linkType: LinkType)

  datatype Config = Config(mainBranch: string, files: seq<FileEntry>)

  datatype RootError = NotInGitRepository

  /** LinkType::default() */
  function DefaultLinkType(): (l: LinkType)
    ensures l == LinkType.Symlink
  {
    LinkType.Symlink
  }

  /** Config::default() */
  function DefaultConfig(): (c: Config)
    ensures c.mainBranch == "main" && c.files == []
  {
    Config(DefaultMainBranch, [])
  }

  /** A file entry as deserialised: a missing link_type takes the default. */
  function FileEntryFromFields(path: string, linkType: Option<LinkType>): (e: FileEntry)
    ensures e.path == path
    ensures linkType.None? ==> e.linkType == LinkType.Symlink
    ensures linkType.Some? ==> e.linkType == linkType.value
  {
    FileEntry(path, linkType.GetOr(DefaultLinkType()))
  }

  /** A configuration as deserialised: missing fields take their defaults. */
  function ConfigFromFields(mainBranch: Option<string>, files: Option<seq<FileEntry>>): (c: Config)
    ensures mainBranch.None? ==> c.mainBranch == "main"
    ensures mainBranch.Some? ==> c.mainBranch == mainBranch.value
    ensures files.None? ==> c.files == []
    ensures files.Some? ==> c.files == files.value
  {
    Config(mainBranch.GetOr(DefaultMainBranch), files.GetOr([]))
  }

  /** get_trees_dir: root/.epi/trees */
  function TreesDir(root: Path): (d: Path)
    ensures IsPrefix(root, d) && |d| == |root| + 2
    ensures d[|root|..] == [".epi", "trees"]
  {
    root + [ConfigDirName, TreesDirName]
  }

  function ConfigPath(root: Path): Path {
    root + [ConfigDirName, ConfigFileName]
  }

  /**
   * Config::load. Reading and parsing the file is outside the model: `stored`
   * is what reading and deserialising .epi/config.toml gives when it exists.
   */
  function Load(t: Tree, root: Path, stored: Result<Config, string>): (r: Result<Config, string>)
    ensures !Exists(t, ConfigPath(root)) ==> r == Ok(DefaultConfig())
    ensures Exists(t, ConfigPath(root)) ==> r == stored
  {
    if !Exists(t, ConfigPath(root)) then Ok(DefaultConfig()) else stored
  }

  /** The repository root is never inside its own trees directory. */
  lemma RootOutsideTrees(root: Path)
    ensures !IsPrefix(TreesDir(root), root)
  {
  }

  /** A .git entry exists in the k-th ancestor of cwd (cwd[..k]). */
  predicate HasGitMarker(t: Tree, cwd: Path, k: nat)
    requires k <= |cwd|
  {
    Exists(t, cwd[..k] + [".git"])
  }

  predicate IsWhitespace(c: char) {
    c == ' ' || c == '\t' || c == '\n' || c == '\r' || c == '\U{B}' || c == '\U{C}'
  }

  function TrimStart(s: string): (r: string)
    ensures |r| <= |s| && r == s[|s| - |r|..]
    ensures r != [] ==> !IsWhitespace(r[0])
    ensures forall i | 0 <= i < |s| - |r| :: IsWhitespace(s[i])
  {
    if s != [] && IsWhitespace(s[0]) then TrimStart(s[1..]) else s
  }

  function TrimEnd(s: string): (r: string)
    ensures |r| <= |s| && r == s[..|r|]
    ensures r != [] ==> !IsWhitespace(r[|r| - 1])
    ensures forall i | |r| <= i < |s| :: IsWhitespace(s[i])
  {
    if s != [] && IsWhitespace(s[|s| - 1]) then TrimEnd(s[..|s| - 1]) else s
  }

  /** str::trim, for ASCII whitespace. */
  function Trim(s: string): string {
    TrimEnd(TrimStart(s))
  }

  const GitdirPrefix: string := "gitdir: "

  /**
   * The root named by a .git file found in dir: the gitdir path with its last
   * three components (.git/worktrees/<name>) removed, or dir itself when the
   * prefix is missing or the path has fewer than three parents.
   */
  function GitdirRoot(content: string, dir: Path): Path {
    if |content| >= |GitdirPrefix| && content[..|GitdirPrefix|] == GitdirPrefix then
      var g := Parse(Trim(content[|GitdirPrefix|..]));
      if |g| >= 3 then g[..|g| - 3] else dir
    else dir
  }

  /** A line with no whitespace at either edge, followed by a newline, trims back to the line. */
  lemma TrimTerminatedLine(line: string)
    requires line != [] && !IsWhitespace(line[0]) && !IsWhitespace(line[|line| - 1])
    ensures Trim(line + "\n") == line
  {
    assert (line + "\n")[0] == line[0];
    assert (line + "\n")[..|line|] == line;
    assert TrimEnd(line) == line;
  }

  /** The .git file git writes into a linked worktree names the main checkout's root. */
  lemma GitdirRootOfLinkedWorktree(r: Path, w: string, dir: Path)
    requires ValidPath(r) && ValidComponent(w) && !IsWhitespace(w[|w| - 1])
    ensures GitdirRoot(GitdirPrefix + (Render(r + [".git", "worktrees", w]) + "\n"), dir) == r
  {
    var g := r + [".git", "worktrees", w];
    var line := Render(g);
    var content := GitdirPrefix + (line + "\n");
    assert ValidPath(g) by {
      assert forall i | |r| <= i < |g| :: g[i] in [".git", "worktrees", w];
    }
    assert Trim(line + "\n") == line by {
      RenderEnds(g);
      assert g[|g| - 1] == w;
      TrimTerminatedLine(line);
    }
    assert Parse(line) == g by {
      ParseRender(g);
    }
    assert content[|GitdirPrefix|..] == line + "\n" by {
      assert |content| >= |GitdirPrefix|;
    }
    assert content[..|GitdirPrefix|] == GitdirPrefix;
    assert Parse(Trim(content[|GitdirPrefix|..])) == g;
    assert g[..|g| - 3] == r;
  }

  /** What find_project_root answers once dir/.git exists. */
  function RootFor(t: Tree, dir: Path): Path {
    var marker := Stat(t, dir + [".git"]);
    if marker.Ok? && marker.value.File? then GitdirRoot(marker.value.content, dir) else dir
  }

  /**
   * find_project_root, with the current directory passed in: the nearest
   * ancestor of cwd (cwd itself first) holding a .git entry decides the root.
   */
  method FindProjectRoot(fs: FileSystem, cwd: Path) returns (r: Result<Path, RootError>)
    ensures r.Err? <==> forall k | 0 <= k <= |cwd| :: !HasGitMarker(fs.nodes, cwd, k)
    ensures r.Ok? ==> exists k | 0 <= k <= |cwd| ::
      HasGitMarker(fs.nodes, cwd, k) &&
      (forall j | k < j <= |cwd| :: !HasGitMarker(fs.nodes, cwd, j)) &&
      r.value == RootFor(fs.nodes, cwd[..k])
  {
    var n := |cwd|;
    while true
      invariant 0 <= n <= |cwd|
      invariant forall j | n < j <= |cwd| :: !HasGitMarker(fs.nodes, cwd, j)
      decreases n
    {
      var dir := cwd[..n];
      var gitPath := dir + [".git"];
      if Exists(fs.nodes, gitPath) {
        var meta := Stat(fs.nodes, gitPath);
        var root := dir;
        if meta.value.File? {
          var content := meta.value.content;
          if |content| >= |GitdirPrefix| && content[..|GitdirPrefix|] == GitdirPrefix {
            var gitdir := Parse(Trim(content[|GitdirPrefix|..]));
            if |gitdir| >= 3 {
              root := gitdir[..|gitdir| - 3];
            }
          }
        }
        assert HasGitMarker(fs.nodes, cwd, n) && root == RootFor(fs.nodes, cwd[..n]);
        return Ok(root);
      }
      if n == 0 {
        assert forall k | 0 <= k <= |cwd| :: !HasGitMarker(fs.nodes, cwd, k) by {
          assert !HasGitMarker(fs.nodes, cwd, 0);
        }
        return Err(NotInGitRepository);
      }
      assert !HasGitMarker(fs.nodes, cwd, n);
      n := n - 1;
    }
  }
}
