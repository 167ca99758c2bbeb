/**
 * The filesystem as the source sees it through std::fs: a map from path to
 * node, with the std::fs operations the core calls written as functions on
 * that map, and a FileSystem object whose methods apply them in place.
 *
 * Symbolic links are followed one hop (a link to a link does not resolve).
 * Directories are only traversed when they are real directories: a symlink
 * on the way to a path blocks it. Permissions are reduced to a fixed set of
 * read-only directories, in which no entry can be added or removed.
 */
module Fs {
  import opened Wrappers
  import opened Paths

  datatype Node = File(content: string) | Dir | Symlink(target: Path)

  type Tree = map<Path, Node>

  datatype FsError =
    | NotFound(path: Path)
    | NotADirectory(path: Path)
    | AlreadyExists(path: Path)
    | IsADirectory(path: Path)
    | PermissionDenied(path: Path)
    | Unresolved(path: Path)
    | SourceInsideDestination(path: Path)  // the refusal of the guarded link_entry (Links)

  /** What a step leaves behind: the new tree, and the error it stopped on, if any. */
  datatype Effect = Effect(tree: Tree, error: Option<FsError>)

  /** The parent of p, with the root its own parent. */
  function Up(p: Path): Path {
    if p == [] then [] else p[..|p| - 1]
  }

  /** The outermost proper ancestor of p that is present and is not a real directory. */
  function Blocker(t: Tree, p: Path): Option<Path>
    decreases |p|
  {
    if |p| <= 1 then None
    else
      match Blocker(t, Up(p))
      case Some(b) => Some(b)
      case None => if Up(p) in t && !t[Up(p)].Dir? then Some(Up(p)) else None
  }

  /** Path::symlink_metadata: does not follow a link at p itself. */
  function Lstat(t: Tree, p: Path): Result<Node, FsError> {
    if p == [] then Ok(Dir)
    else
      match Blocker(t, p)
      case Some(b) => Err(NotADirectory(b))
      case None => if p in t then Ok(t[p]) else Err(NotFound(p))
  }

  /** Path::metadata: follows a link at p one hop. */
  function Stat(t: Tree, p: Path): Result<Node, FsError> {
    match Lstat(t, p)
    case Ok(Symlink(target)) =>
      (match Lstat(t, target)
       case Ok(Symlink(_)) => Err(Unresolved(target))
       case r => r)
    case r => r
  }

  /** Path::exists */
  predicate Exists(t: Tree, p: Path) {
    Stat(t, p).Ok?
  }

  /** Path::is_dir (follows a link) */
  predicate IsDir(t: Tree, p: Path) {
    Stat(t, p) == Ok(Dir)
  }

  /** No entry lies strictly below p unless p is a real directory. */
  predicate NoStrayEntries(t: Tree, p: Path) {
    forall q | q in t && IsPrefix(p, q) && q != p :: p in t && t[p].Dir?
  }

  /** Every proper ancestor of p except the root is a real directory. */
  predicate AncestorsAreDirs(t: Tree, p: Path) {
    forall k | 1 <= k < |p| :: p[..k] in t && t[p[..k]].Dir?
  }

  /** fs::create_dir_all: creates each missing ancestor and p itself, from the root down. */
  function CreateDirAllEffect(t: Tree, ro: set<Path>, p: Path): Effect
    decreases |p|
  {
    if p == [] then Effect(t, None)
    else
      var e := CreateDirAllEffect(t, ro, Up(p));
      if e.error.Some? then e
      else if p in e.tree then
        (if e.tree[p].Dir? then e else Effect(e.tree, Some(AlreadyExists(p))))
      else if Up(p) in ro then Effect(e.tree, Some(PermissionDenied(p)))
      else Effect(e.tree[p := Dir], None)
  }

  /** fs::remove_file: removes a single non-directory entry. */
  function RemoveFileEffect(t: Tree, ro: set<Path>, p: Path): Effect {
    match Lstat(t, p)
    case Err(e) => Effect(t, Some(e))
    case Ok(Dir) => Effect(t, Some(IsADirectory(p)))
    case Ok(_) =>
      if Up(p) in ro then Effect(t, Some(PermissionDenied(p))) else Effect(t - {p}, None)
  }

  /** Everything in t except p and what lies below it. */
  function Prune(t: Tree, p: Path): Tree {
    map q | q in t && !IsPrefix(p, q) :: t[q]
  }

  /** fs::remove_dir_all: removes a directory and everything below it (a link is removed as a link). */
  function RemoveDirAllEffect(t: Tree, ro: set<Path>, p: Path): Effect {
    match Lstat(t, p)
    case Err(e) => Effect(t, Some(e))
    case Ok(File(_)) => Effect(t, Some(NotADirectory(p)))
    case Ok(n) =>
      if Up(p) in ro || exists q :: q in ro && q in t && IsPrefix(p, q) then
        Effect(t, Some(PermissionDenied(p)))
      else if n.Symlink? then Effect(t - {p}, None)
      else Effect(Prune(t, p), None)
  }

  /** Adds a new entry n at dst inside an existing, writable directory. */
  function CreateEntry(t: Tree, ro: set<Path>, dst: Path, n: Node): Effect {
    if dst == [] then Effect(t, Some(AlreadyExists(dst)))
    else
      match Blocker(t, dst)
      case Some(b) => Effect(t, Some(NotADirectory(b)))
      case None =>
        if Up(dst) != [] && Up(dst) !in t then Effect(t, Some(NotFound(Up(dst))))
        else if Up(dst) in ro then Effect(t, Some(PermissionDenied(dst)))
        else Effect(t[dst := n], None)
  }

  /** std::os::unix::fs::symlink(src, dst) */
  function SymlinkEffect(t: Tree, ro: set<Path>, src: Path, dst: Path): Effect {
    if dst in t then Effect(t, Some(AlreadyExists(dst))) else CreateEntry(t, ro, dst, Symlink(src))
  }

  /** fs::copy(src, dst) for a source that is (or links to) a regular file. */
  function CopyEffect(t: Tree, ro: set<Path>, src: Path, dst: Path): Effect {
    match Stat(t, src)
    case Err(e) => Effect(t, Some(e))
    case Ok(File(c)) => if IsDir(t, dst) then Effect(t, Some(IsADirectory(dst))) else CreateEntry(t, ro, dst, File(c))
    case Ok(_) => Effect(t, Some(IsADirectory(src)))
  }

  /** The directory whose entries a read of src lists: the link target when src is a link. */
  function SourceRoot(t: Tree, src: Path): Path {
    if src in t && t[src].Symlink? then t[src].target else src
  }

  /** The subtree rooted at base, placed at dst; dst itself is a directory. */
  function CopyOf(t: Tree, base: Path, dst: Path): Tree {
    map q | q in (set k | k in t && IsPrefix(base, k) :: dst + k[|base|..]) ::
      if q != dst && IsPrefix(dst, q) && base + q[|dst|..] in t then t[base + q[|dst|..]] else Dir
  }

  /** copy_dir_recursive(src, dst): creates dst and duplicates the subtree of src below it. */
  function CopyDirEffect(t: Tree, ro: set<Path>, src: Path, dst: Path): Effect {
    var e := CreateDirAllEffect(t, ro, dst);
    if e.error.Some? then e
    else if exists q :: q in ro && IsPrefix(dst, q) then Effect(e.tree, Some(PermissionDenied(dst)))
    else Effect(e.tree + CopyOf(e.tree, SourceRoot(e.tree, src), dst), None)
  }

  /** The subtree at from relocated to to (what a successful `git worktree move` leaves). */
  function MoveTree(t: Tree, from: Path, to: Path): Tree {
    Prune(t, from) + CopyOf(t, from, to)
  }

  lemma ExistsHasMetadata(t: Tree, p: Path)
    ensures Exists(t, p) ==> Lstat(t, p).Ok?
  {
  }

  lemma CopyOfBelow(t: Tree, base: Path, dst: Path)
    ensures forall q | q in CopyOf(t, base, dst) :: IsPrefix(dst, q)
  {
    forall q | q in CopyOf(t, base, dst) ensures IsPrefix(dst, q) {
      var k :| k in t && IsPrefix(base, k) && q == dst + k[|base|..];
      assert q[..|dst|] == dst;
    }
  }

  /** On success create_dir_all leaves every non-root prefix of p a real directory. */
  lemma {:induction false} CreateDirAllMakesDirs(t: Tree, ro: set<Path>, p: Path)
    requires CreateDirAllEffect(t, ro, p).error.None?
    ensures AncestorsAreDirs(CreateDirAllEffect(t, ro, p).tree, p)
    ensures var t' := CreateDirAllEffect(t, ro, p).tree; p != [] ==> p in t' && t'[p].Dir?
    decreases |p|
  {
    if p != [] {
      CreateDirAllMakesDirs(t, ro, Up(p));
      var t' := CreateDirAllEffect(t, ro, p).tree;
      var e := CreateDirAllEffect(t, ro, Up(p));
      forall k | 1 <= k < |p| ensures p[..k] in t' && t'[p[..k]].Dir? {
        if k < |p| - 1 {
          assert p[..k] == Up(p)[..k];
        } else {
          assert p[..k] == Up(p);
        }
      }
    }
  }

  /** create_dir_all only adds directories, and only at absent prefixes of p. */
  lemma {:induction false} CreateDirAllFrame(t: Tree, ro: set<Path>, p: Path)
    ensures var t' := CreateDirAllEffect(t, ro, p).tree;
      (forall q | q in t :: q in t' && t'[q] == t[q]) &&
      (forall q | q in t' && q !in t :: IsPrefix(q, p) && q != [] && t'[q] == Dir)
    decreases |p|
  {
    if p != [] {
      CreateDirAllFrame(t, ro, Up(p));
      var t' := CreateDirAllEffect(t, ro, p).tree;
      forall q | q in t' && q !in t ensures IsPrefix(q, p) && q != [] && t'[q] == Dir {
        if q != p {
          assert IsPrefix(q, Up(p));
        }
      }
    }
  }

  /** create_dir_all changes nothing when every prefix is already a real directory. */
  lemma {:induction false} CreateDirAllIdle(t: Tree, ro: set<Path>, p: Path)
    requires AncestorsAreDirs(t, p)
    requires p != [] ==> p in t && t[p].Dir?
    ensures CreateDirAllEffect(t, ro, p) == Effect(t, None)
    decreases |p|
  {
    if p != [] {
      forall k | 1 <= k < |Up(p)| ensures Up(p)[..k] in t && t[Up(p)[..k]].Dir? {
        assert Up(p)[..k] == p[..k];
      }
      if Up(p) != [] {
        assert Up(p) == p[..|p| - 1];
      }
      CreateDirAllIdle(t, ro, Up(p));
    }
  }

  /** No blocker stands in the way of a path whose ancestors are real directories. */
  lemma {:induction false} NoBlocker(t: Tree, p: Path)
    requires AncestorsAreDirs(t, p)
    ensures Blocker(t, p) == None
    decreases |p|
  {
    if |p| > 1 {
      forall k | 1 <= k < |Up(p)| ensures Up(p)[..k] in t && t[Up(p)[..k]].Dir? {
        assert Up(p)[..k] == p[..k];
      }
      NoBlocker(t, Up(p));
      assert Up(p) == p[..|p| - 1];
    }
  }

  /** The ancestors of p keep being real directories when nothing at them changes. */
  lemma AncestorsKept(t: Tree, t': Tree, p: Path)
    requires AncestorsAreDirs(t, p)
    requires forall k | 1 <= k < |p| :: p[..k] in t' <==> p[..k] in t
    requires forall k | 1 <= k < |p| :: p[..k] in t ==> t'[p[..k]] == t[p[..k]]
    ensures AncestorsAreDirs(t', p)
  {
  }

  /** Adding directories at absent paths unblocks nothing and blocks nothing. */
  lemma {:induction false} BlockerGrows(t: Tree, t': Tree, p: Path)
    requires forall q | q in t :: q in t' && t'[q] == t[q]
    requires forall q | q in t' && q !in t :: t'[q] == Dir
    requires Blocker(t, p) == None
    ensures Blocker(t', p) == None
    decreases |p|
  {
    if |p| > 1 {
      BlockerGrows(t, t', Up(p));
    }
  }

  /** What exists keeps existing, with the same metadata, when only directories are added. */
  lemma StatGrows(t: Tree, t': Tree, p: Path)
    requires forall q | q in t :: q in t' && t'[q] == t[q]
    requires forall q | q in t' && q !in t :: t'[q] == Dir
    ensures Exists(t, p) ==> Stat(t', p) == Stat(t, p)
  {
    if Exists(t, p) && p != [] {
      BlockerGrows(t, t', p);
      if t[p].Symlink? && t[p].target != [] {
        BlockerGrows(t, t', t[p].target);
      }
    }
  }

  /** The filesystem the source changes in place through std::fs. */
  class FileSystem {
    var nodes: Tree
    const readOnly: set<Path>

    constructor (nodes: Tree, readOnly: set<Path>)
      ensures this.nodes == nodes && this.readOnly == readOnly
    {
      this.nodes := nodes;
      this.readOnly := readOnly;
    }

    method CreateDirAll(p: Path) returns (err: Option<FsError>)
      modifies this
      ensures Effect(nodes, err) == CreateDirAllEffect(old(nodes), readOnly, p)
    {
      var e := CreateDirAllEffect(nodes, readOnly, p);
      nodes, err := e.tree, e.error;
    }

    method RemoveFile(p: Path) returns (err: Option<FsError>)
      modifies this
      ensures Effect(nodes, err) == RemoveFileEffect(old(nodes), readOnly, p)
    {
      var e := RemoveFileEffect(nodes, readOnly, p);
      nodes, err := e.tree, e.error;
    }

    method RemoveDirAll(p: Path) returns (err: Option<FsError>)
      modifies this
      ensures Effect(nodes, err) == RemoveDirAllEffect(old(nodes), readOnly, p)
    {
      var e := RemoveDirAllEffect(nodes, readOnly, p);
      nodes, err := e.tree, e.error;
    }

    method Symlink(src: Path, dst: Path) returns (err: Option<FsError>)
      modifies this
      ensures Effect(nodes, err) == SymlinkEffect(old(nodes), readOnly, src, dst)
    {
      var e := SymlinkEffect(nodes, readOnly, src, dst);
      nodes, err := e.tree, e.error;
    }

    method Copy(src: Path, dst: Path) returns (err: Option<FsError>)
      modifies this
      ensures Effect(nodes, err) == CopyEffect(old(nodes), readOnly, src, dst)
    {
      var e := CopyEffect(nodes, readOnly, src, dst);
      nodes, err := e.tree, e.error;
    }

    method CopyDirRecursive(src: Path, dst: Path) returns (err: Option<FsError>)
      modifies this
      ensures Effect(nodes, err) == CopyDirEffect(old(nodes), readOnly, src, dst)
    {
      var e := CopyDirEffect(nodes, readOnly, src, dst);
      nodes, err := e.tree, e.error;
    }

    /** The subtree at from is now at to: the filesystem side of a successful `git worktree move`. */
    method Relocate(from: Path, to: Path)
      modifies this
      ensures nodes == MoveTree(old(nodes), from, to)
    {
      nodes := MoveTree(nodes, from, to);
    }

    /** A directory appears at p with its ancestors: the filesystem side of a successful `git worktree add`. */
    method Materialize(p: Path)
      modifies this
      ensures nodes == CreateDirAllEffect(old(nodes), {}, p).tree
    {
      nodes := CreateDirAllEffect(nodes, {}, p).tree;
    }
  }
}
