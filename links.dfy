/**
 * The link engine: link_entry replaces whatever occupies a destination by a
 * symbolic link to, or a copy of, a source; link_files applies it to every
 * configured entry of one worktree and stops at the first error.
 */
module Links {
  import opened Wrappers
  import opened Paths
  import opened Fs
  import opened Config

  /** Step 2 of link_entry: remove any occupant of dst, recursively when it is a real directory. */
  function ClearEffect(t: Tree, ro: set<Path>, dst: Path): Effect {
    if Lstat(t, dst).Ok? then
      (if Lstat(t, dst) == Ok(Dir) then RemoveDirAllEffect(t, ro, dst) else RemoveFileEffect(t, ro, dst))
    else Effect(t, None)
  }

  /** Steps 3 and 4 of link_entry: create the link, or copy the file or directory. */
  function PlaceEffect(t: Tree, ro: set<Path>, src: Path, dst: Path, linkType: LinkType): Effect {
    if linkType == LinkType.Symlink then SymlinkEffect(t, ro, src, dst)
    else if IsDir(t, src) then CopyDirEffect(t, ro, src, dst)
    else CopyEffect(t, ro, src, dst)
  }

  /** link_entry(src, dst, link_type) as written. */
  function LinkEntryAsWritten(t: Tree, ro: set<Path>, src: Path, dst: Path, linkType: LinkType): Effect {
    var made := if dst == [] then Effect(t, None) else CreateDirAllEffect(t, ro, Up(dst));
    if made.error.Some? then made
    else
      var cleared := ClearEffect(made.tree, ro, dst);
      if cleared.error.Some? then cleared
      else PlaceEffect(cleared.tree, ro, src, dst, linkType)
  }

  /**
   * link_entry with a guard the source lacks: a destination that is the source
   * or one of its ancestors is refused before anything changes. Without it an
   * absolute entry path, which makes src and dst the same path, removes the
   * source. Every caller in this model uses this version.
   */
  function LinkEntryEffect(t: Tree, ro: set<Path>, src: Path, dst: Path, linkType: LinkType): Effect {
    if IsPrefix(dst, src) then Effect(t, Some(SourceInsideDestination(dst)))
    else LinkEntryAsWritten(t, ro, src, dst, linkType)
  }

  method LinkEntry(fs: FileSystem, src: Path, dst: Path, linkType: LinkType) returns (err: Option<FsError>)
    modifies fs
    ensures Effect(fs.nodes, err) == LinkEntryEffect(old(fs.nodes), fs.readOnly, src, dst, linkType)
  {
    if IsPrefix(dst, src) {
      return Some(SourceInsideDestination(dst));
    }
    err := None;
    if dst != [] {
      err := fs.CreateDirAll(Up(dst));
      if err.Some? {
        return;
      }
    }
    if Exists(fs.nodes, dst) || Lstat(fs.nodes, dst).Ok? {
      if IsDir(fs.nodes, dst) && !Lstat(fs.nodes, dst).value.Symlink? {
        err := fs.RemoveDirAll(dst);
      } else {
        err := fs.RemoveFile(dst);
      }
      if err.Some? {
        return;
      }
    }
    if linkType == LinkType.Symlink {
      err := fs.Symlink(src, dst);
    } else if IsDir(fs.nodes, src) {
      err := fs.CopyDirRecursive(src, dst);
    } else {
      err := fs.Copy(src, dst);
    }
  }

  /** link_files: every entry whose source exists is linked into wt, up to the first failure. */
  function LinkFilesEffect(t: Tree, ro: set<Path>, root: Path, wt: Path, entries: seq<FileEntry>): Effect
    decreases |entries|
  {
    if entries == [] then Effect(t, None)
    else
      var e := entries[0];
      var src := Join(root, e.path);
      if !Exists(t, src) then LinkFilesEffect(t, ro, root, wt, entries[1..])
      else
        var r := LinkEntryEffect(t, ro, src, Join(wt, e.path), e.linkType);
        if r.error.Some? then r else LinkFilesEffect(r.tree, ro, root, wt, entries[1..])
  }

  method LinkFiles(fs: FileSystem, root: Path, wt: Path, config: Config) returns (err: Option<FsError>)
    modifies fs
    ensures Effect(fs.nodes, err) == LinkFilesEffect(old(fs.nodes), fs.readOnly, root, wt, config.files)
  {
    var files := config.files;
    var i := 0;
    while i < |files|
      invariant 0 <= i <= |files|
      invariant LinkFilesEffect(fs.nodes, fs.readOnly, root, wt, files[i..]) ==
                LinkFilesEffect(old(fs.nodes), fs.readOnly, root, wt, files)
    {
      var entry := files[i];
      var src := Join(root, entry.path);
      var dst := Join(wt, entry.path);
      assert files[i..][1..] == files[i + 1..];
      if !Exists(fs.nodes, src) {
        i := i + 1;
        continue;
      }
      err := LinkEntry(fs, src, dst, entry.linkType);
      if err.Some? {
        return;
      }
      i := i + 1;
    }
    return None;
  }

  // ---- link_files stops at the first error ----

  /** Linking a list in two parts: the second part runs only when the first did not fail. */
  lemma {:induction false} LinkFilesAppend(t: Tree, ro: set<Path>, root: Path, wt: Path, es1: seq<FileEntry>, es2: seq<FileEntry>)
    ensures LinkFilesEffect(t, ro, root, wt, es1 + es2) ==
      (var r := LinkFilesEffect(t, ro, root, wt, es1);
       if r.error.Some? then r else LinkFilesEffect(r.tree, ro, root, wt, es2))
    decreases |es1|
  {
    if es1 == [] {
      assert es1 + es2 == es2;
    } else {
      assert (es1 + es2)[0] == es1[0];
      assert (es1 + es2)[1..] == es1[1..] + es2;
      var e := es1[0];
      var src := Join(root, e.path);
      if !Exists(t, src) {
        LinkFilesAppend(t, ro, root, wt, es1[1..], es2);
      } else {
        var r := LinkEntryEffect(t, ro, src, Join(wt, e.path), e.linkType);
        if r.error.None? {
          LinkFilesAppend(r.tree, ro, root, wt, es1[1..], es2);
        }
      }
    }
  }

  /** Once an entry fails, the entries after it are never attempted. */
  lemma LinkFilesAborts(t: Tree, ro: set<Path>, root: Path, wt: Path, es1: seq<FileEntry>, es2: seq<FileEntry>)
    requires LinkFilesEffect(t, ro, root, wt, es1).error.Some?
    ensures LinkFilesEffect(t, ro, root, wt, es1 + es2) == LinkFilesEffect(t, ro, root, wt, es1)
  {
    LinkFilesAppend(t, ro, root, wt, es1, es2);
  }

  // ---- Frames of the steps ----

  /** t and t' agree on everything that is not p or below p. */
  ghost predicate SameOutside(t: Tree, t': Tree, p: Path) {
    forall q | !IsPrefix(p, q) :: (q in t <==> q in t') && (q in t ==> t[q] == t'[q])
  }

  lemma AncestorsKeptOutside(t: Tree, t': Tree, p: Path)
    requires AncestorsAreDirs(t, p)
    requires SameOutside(t, t', p)
    ensures AncestorsAreDirs(t', p)
  {
    forall k | 1 <= k < |p| ensures p[..k] in t' && t'[p[..k]].Dir? {
      assert !IsPrefix(p, p[..k]);
    }
  }

  lemma AncestorsOfUp(t: Tree, p: Path)
    requires p != [] && AncestorsAreDirs(t, p)
    ensures AncestorsAreDirs(t, Up(p))
    ensures Up(p) != [] ==> Up(p) in t && t[Up(p)].Dir?
  {
    forall k | 1 <= k < |Up(p)| ensures Up(p)[..k] in t && t[Up(p)[..k]].Dir? {
      assert Up(p)[..k] == p[..k];
    }
    if Up(p) != [] {
      assert Up(p) == p[..|p| - 1];
    }
  }

  lemma AncestorsFromUp(t: Tree, p: Path)
    requires p != [] && AncestorsAreDirs(t, Up(p))
    requires Up(p) != [] ==> Up(p) in t && t[Up(p)].Dir?
    ensures AncestorsAreDirs(t, p)
  {
    forall k | 1 <= k < |p| ensures p[..k] in t && t[p[..k]].Dir? {
      if k < |p| - 1 {
        assert p[..k] == Up(p)[..k];
      } else {
        assert p[..k] == Up(p);
      }
    }
  }

  /** With real directories above dst, the metadata of dst is just what the tree holds there. */
  lemma LstatBelowDirs(t: Tree, dst: Path)
    requires dst != [] && AncestorsAreDirs(t, dst)
    ensures Lstat(t, dst) == if dst in t then Ok(t[dst]) else Err(NotFound(dst))
  {
    NoBlocker(t, dst);
  }

  /** create_dir_all(dst) below real directories adds at most dst itself. */
  lemma CreateDirBelowDirs(t: Tree, ro: set<Path>, dst: Path)
    requires dst != [] && AncestorsAreDirs(t, dst)
    ensures CreateDirAllEffect(t, ro, dst) ==
      if dst in t then (if t[dst].Dir? then Effect(t, None) else Effect(t, Some(AlreadyExists(dst))))
      else if Up(dst) in ro then Effect(t, Some(PermissionDenied(dst)))
      else Effect(t[dst := Dir], None)
  {
    AncestorsOfUp(t, dst);
    CreateDirAllIdle(t, ro, Up(dst));
  }

  lemma ClearFrame(t: Tree, ro: set<Path>, dst: Path)
    ensures var c := ClearEffect(t, ro, dst);
      SameOutside(t, c.tree, dst) &&
      (forall q | q in c.tree :: q in t && c.tree[q] == t[q]) &&
      (c.error.Some? ==> c.tree == t)
  {
    var c := ClearEffect(t, ro, dst);
    if Lstat(t, dst).Ok? && Lstat(t, dst) == Ok(Dir) && c.error.None? {
      assert c.tree == Prune(t, dst);
    }
  }

  /** On success the occupant of dst is gone, and with no stray entries nothing is left below it. */
  lemma ClearEmpties(t: Tree, ro: set<Path>, dst: Path)
    requires dst != [] && AncestorsAreDirs(t, dst)
    requires ClearEffect(t, ro, dst).error.None?
    ensures dst !in ClearEffect(t, ro, dst).tree
    ensures NoStrayEntries(t, dst) ==>
      forall q | q in ClearEffect(t, ro, dst).tree :: !IsPrefix(dst, q)
  {
    LstatBelowDirs(t, dst);
    var c := ClearEffect(t, ro, dst);
    if dst in t && t[dst].Dir? {
      assert c.tree == Prune(t, dst);
    }
  }

  lemma PlaceFrame(t: Tree, ro: set<Path>, src: Path, dst: Path, linkType: LinkType)
    requires dst != [] && AncestorsAreDirs(t, dst)
    ensures SameOutside(t, PlaceEffect(t, ro, src, dst, linkType).tree, dst)
  {
    if linkType == LinkType.Copy && IsDir(t, src) {
      CreateDirBelowDirs(t, ro, dst);
      var e := CreateDirAllEffect(t, ro, dst);
      CopyOfBelow(e.tree, SourceRoot(e.tree, src), dst);
    }
  }

  // ---- What link_entry leaves behind ----

  /** Entries neither at nor below dst survive, and the only new ones are directories above dst. */
  lemma LinkEntryFrame(t: Tree, ro: set<Path>, src: Path, dst: Path, linkType: LinkType)
    requires dst != []
    ensures var t' := LinkEntryEffect(t, ro, src, dst, linkType).tree;
      (forall q | q in t && !IsPrefix(dst, q) :: q in t' && t'[q] == t[q]) &&
      (forall q | q in t' && q !in t && !IsPrefix(dst, q) :: IsPrefix(q, dst) && t'[q] == Dir)
  {
    var made := CreateDirAllEffect(t, ro, Up(dst));
    CreateDirAllFrame(t, ro, Up(dst));
    if made.error.None? {
      CreateDirAllMakesDirs(t, ro, Up(dst));
      AncestorsFromUp(made.tree, dst);
      var cleared := ClearEffect(made.tree, ro, dst);
      ClearFrame(made.tree, ro, dst);
      if cleared.error.None? {
        AncestorsKeptOutside(made.tree, cleared.tree, dst);
        PlaceFrame(cleared.tree, ro, src, dst, linkType);
      }
    }
  }

  /** The state link_entry reaches before its final step, on a successful call. */
  lemma LinkEntrySteps(t: Tree, ro: set<Path>, src: Path, dst: Path, linkType: LinkType)
    requires dst != []
    requires LinkEntryEffect(t, ro, src, dst, linkType).error.None?
    ensures var made := CreateDirAllEffect(t, ro, Up(dst));
      var cleared := ClearEffect(made.tree, ro, dst);
      made.error.None? && cleared.error.None? &&
      LinkEntryEffect(t, ro, src, dst, linkType) == PlaceEffect(cleared.tree, ro, src, dst, linkType) &&
      AncestorsAreDirs(cleared.tree, dst) && dst !in cleared.tree &&
      (NoStrayEntries(t, dst) ==> forall q | q in cleared.tree :: !IsPrefix(dst, q))
  {
    var made := CreateDirAllEffect(t, ro, Up(dst));
    CreateDirAllMakesDirs(t, ro, Up(dst));
    CreateDirAllFrame(t, ro, Up(dst));
    AncestorsFromUp(made.tree, dst);
    var cleared := ClearEffect(made.tree, ro, dst);
    if NoStrayEntries(t, dst) {
      forall q | q in made.tree && IsPrefix(dst, q) && q != dst ensures dst in made.tree && made.tree[dst].Dir? {
        assert q in t;
      }
    }
    ClearEmpties(made.tree, ro, dst);
    ClearFrame(made.tree, ro, dst);
    AncestorsKeptOutside(made.tree, cleared.tree, dst);
  }

  lemma PlaceSymlinkShape(c: Tree, ro: set<Path>, src: Path, dst: Path)
    requires dst != [] && AncestorsAreDirs(c, dst) && dst !in c
    requires SymlinkEffect(c, ro, src, dst).error.None?
    ensures Up(dst) !in ro && SymlinkEffect(c, ro, src, dst).tree == c[dst := Node.Symlink(src)]
  {
    NoBlocker(c, dst);
  }

  lemma PlaceFileShape(c: Tree, ro: set<Path>, src: Path, dst: Path)
    requires dst != [] && AncestorsAreDirs(c, dst) && dst !in c
    requires CopyEffect(c, ro, src, dst).error.None?
    ensures var t1 := CopyEffect(c, ro, src, dst).tree;
      Up(dst) !in ro && Stat(c, src).Ok? && Stat(c, src).value.File? && t1 == c[dst := Stat(c, src).value]
  {
    NoBlocker(c, dst);
  }

  lemma PlaceDirShape(c: Tree, ro: set<Path>, src: Path, dst: Path)
    requires dst != [] && AncestorsAreDirs(c, dst) && dst !in c
    requires CopyDirEffect(c, ro, src, dst).error.None?
    ensures var mk := c[dst := Dir];
      var t1 := CopyDirEffect(c, ro, src, dst).tree;
      Up(dst) !in ro && t1 == mk + CopyOf(mk, SourceRoot(mk, src), dst) &&
      dst in t1 && t1[dst] == Dir && !(exists q :: q in ro && IsPrefix(dst, q))
  {
    CreateDirBelowDirs(c, ro, dst);
    var mk := c[dst := Dir];
    var base := SourceRoot(mk, src);
    var cp := CopyOf(mk, base, dst);
    if dst in cp {
      assert cp[dst] == Dir;
    }
  }

  /** The final step of link_entry on an empty slot below real directories. */
  lemma PlaceShape(c: Tree, ro: set<Path>, src: Path, dst: Path, linkType: LinkType)
    requires dst != [] && AncestorsAreDirs(c, dst) && dst !in c
    requires PlaceEffect(c, ro, src, dst, linkType).error.None?
    ensures var t1 := PlaceEffect(c, ro, src, dst, linkType).tree;
      Up(dst) !in ro && dst in t1 &&
      (linkType == LinkType.Symlink ==> t1 == c[dst := Node.Symlink(src)]) &&
      (linkType == LinkType.Copy && !IsDir(c, src) ==>
        Stat(c, src).Ok? && Stat(c, src).value.File? && t1 == c[dst := Stat(c, src).value]) &&
      (linkType == LinkType.Copy && IsDir(c, src) ==>
        t1 == c[dst := Dir] + CopyOf(c[dst := Dir], SourceRoot(c[dst := Dir], src), dst) &&
        t1[dst] == Dir && !(exists q :: q in ro && IsPrefix(dst, q)))
  {
    if linkType == LinkType.Symlink {
      PlaceSymlinkShape(c, ro, src, dst);
    } else if IsDir(c, src) {
      PlaceDirShape(c, ro, src, dst);
    } else {
      PlaceFileShape(c, ro, src, dst);
    }
  }

  /** A successful link_entry leaves dst a link to src, or a file or directory (what a copy holds is stated below). */
  lemma LinkEntryPlaces(t: Tree, ro: set<Path>, src: Path, dst: Path, linkType: LinkType)
    requires dst != []
    requires LinkEntryEffect(t, ro, src, dst, linkType).error.None?
    ensures var t' := LinkEntryEffect(t, ro, src, dst, linkType).tree;
      dst in t' &&
      (linkType == LinkType.Symlink ==> t'[dst] == Node.Symlink(src)) &&
      (linkType == LinkType.Copy ==> t'[dst].Dir? || t'[dst].File?)
    ensures var t' := LinkEntryEffect(t, ro, src, dst, linkType).tree;
      NoStrayEntries(t, dst) && dst in t' && !t'[dst].Dir? ==>
      forall q | q in t' && IsPrefix(dst, q) :: q == dst
  {
    LinkEntrySteps(t, ro, src, dst, linkType);
    var made := CreateDirAllEffect(t, ro, Up(dst));
    var cleared := ClearEffect(made.tree, ro, dst);
    PlaceShape(cleared.tree, ro, src, dst, linkType);
  }

  /** Clearing a directory copied into an empty slot removes the whole copy. */
  lemma ClearRemovesCopiedDir(c: Tree, t1: Tree, ro: set<Path>, dst: Path)
    requires dst != [] && AncestorsAreDirs(t1, dst) && dst in t1 && t1[dst] == Dir
    requires Up(dst) !in ro && !(exists q :: q in ro && IsPrefix(dst, q))
    requires SameOutside(c, t1, dst) && forall q | q in c :: !IsPrefix(dst, q)
    ensures ClearEffect(t1, ro, dst) == Effect(c, None)
  {
    LstatBelowDirs(t1, dst);
    assert ClearEffect(t1, ro, dst) == Effect(Prune(t1, dst), None);
    forall q | q in Prune(t1, dst) ensures q in c && Prune(t1, dst)[q] == c[q] {
      assert !IsPrefix(dst, q);
    }
    assert Prune(t1, dst) == c;
  }

  /** Clearing a link or file placed into an empty slot removes just that entry. */
  lemma ClearRemovesLeaf(c: Tree, t1: Tree, ro: set<Path>, dst: Path)
    requires dst != [] && AncestorsAreDirs(t1, dst) && dst in t1 && !t1[dst].Dir? && Up(dst) !in ro
    requires dst !in c && t1 == c[dst := t1[dst]]
    ensures ClearEffect(t1, ro, dst) == Effect(c, None)
  {
    LstatBelowDirs(t1, dst);
    assert t1 - {dst} == c;
  }

  /** Removing what the final step placed gives back the slot it was placed in. */
  lemma ClearUndoesPlace(c: Tree, ro: set<Path>, src: Path, dst: Path, linkType: LinkType)
    requires dst != [] && AncestorsAreDirs(c, dst) && dst !in c
    requires forall q | q in c :: !IsPrefix(dst, q)
    requires PlaceEffect(c, ro, src, dst, linkType).error.None?
    ensures ClearEffect(PlaceEffect(c, ro, src, dst, linkType).tree, ro, dst) == Effect(c, None)
  {
    var t1 := PlaceEffect(c, ro, src, dst, linkType).tree;
    PlaceShape(c, ro, src, dst, linkType);
    assert SameOutside(c, t1, dst) && AncestorsAreDirs(t1, dst) by {
      PlaceFrame(c, ro, src, dst, linkType);
      AncestorsKeptOutside(c, t1, dst);
    }
    if linkType == LinkType.Copy && IsDir(c, src) {
      ClearRemovesCopiedDir(c, t1, ro, dst);
    } else {
      ClearRemovesLeaf(c, t1, ro, dst);
    }
  }

  /** A second, identical link_entry after a successful one changes nothing and succeeds. */
  lemma LinkEntryIdempotent(t: Tree, ro: set<Path>, src: Path, dst: Path, linkType: LinkType)
    requires dst != []
    requires NoStrayEntries(t, dst)
    requires LinkEntryEffect(t, ro, src, dst, linkType).error.None?
    ensures var once := LinkEntryEffect(t, ro, src, dst, linkType);
      LinkEntryEffect(once.tree, ro, src, dst, linkType) == once
  {
    LinkEntrySteps(t, ro, src, dst, linkType);
    var made := CreateDirAllEffect(t, ro, Up(dst));
    var c := ClearEffect(made.tree, ro, dst).tree;
    var once := PlaceEffect(c, ro, src, dst, linkType);
    var t1 := once.tree;
    PlaceFrame(c, ro, src, dst, linkType);
    AncestorsKeptOutside(c, t1, dst);
    AncestorsOfUp(t1, dst);
    CreateDirAllIdle(t1, ro, Up(dst));
    ClearUndoesPlace(c, ro, src, dst, linkType);
  }

  // ---- An entry path that is absolute ----

  /** An absolute entry path joins to itself under any root and any worktree. */
  lemma AbsoluteEntryJoins(root: Path, wt: Path)
    ensures Join(root, "/a/f") == ["a", "f"] == Join(wt, "/a/f")
  {
    assert Parse("/f") == ["f"] by {
      assert "/" + "f" + "" == "/f";
      ParseLeadingComponent("f", "");
      assert Split("") == [""];
    }
    assert Parse("/a/f") == ["a", "f"] by {
      assert "/" + "a" + "/f" == "/a/f";
      ParseLeadingComponent("a", "/f");
    }
  }

  /** As written, link_entry with src and dst both the file a/f first removes that file. */
  lemma AsWrittenRemovesSource(linkType: LinkType)
    ensures var t := map[["a"] := Dir, ["a", "f"] := File("data")];
      LinkEntryAsWritten(t, {}, ["a", "f"], ["a", "f"], linkType) ==
        PlaceEffect(map[["a"] := Dir], {}, ["a", "f"], ["a", "f"], linkType)
  {
    var t := map[["a"] := Dir, ["a", "f"] := File("data")];
    var af: Path := ["a", "f"];
    assert Up(af) == ["a"] && Up(["a"]) == [];
    assert CreateDirAllEffect(t, {}, ["a"]) == Effect(t, None);
    assert Lstat(t, af) == Ok(File("data"));
    assert t - {af} == map[["a"] := Dir];
  }

  /**
   * As written, link_entry on an absolute entry path removes the file it was
   * meant to propagate: Path::join gives the same path for src and dst, the
   * occupant of dst (the source itself) is removed, and what follows is a
   * link to itself, or a copy that fails because its source is gone.
   */
  lemma AsWrittenLinkEntryLosesSource(root: Path, wt: Path)
    ensures Join(root, "/a/f") == ["a", "f"] == Join(wt, "/a/f")
    ensures var t := map[["a"] := Dir, ["a", "f"] := File("data")];
      LinkEntryAsWritten(t, {}, ["a", "f"], ["a", "f"], LinkType.Symlink) ==
        Effect(map[["a"] := Dir, ["a", "f"] := Node.Symlink(["a", "f"])], None) &&
      LinkEntryAsWritten(t, {}, ["a", "f"], ["a", "f"], LinkType.Copy) ==
        Effect(map[["a"] := Dir], Some(NotFound(["a", "f"])))
  {
    AbsoluteEntryJoins(root, wt);
    AsWrittenRemovesSource(LinkType.Symlink);
    AsWrittenRemovesSource(LinkType.Copy);
    var c: Tree := map[["a"] := Dir];
    var af: Path := ["a", "f"];
    assert Up(af) == ["a"];
    assert Lstat(c, af) == Err(NotFound(af));
    assert c[af := Node.Symlink(af)] == map[["a"] := Dir, ["a", "f"] := Node.Symlink(["a", "f"])];
  }

  /** The guarded link_entry never removes or replaces its own source. */
  lemma LinkEntryKeepsSource(t: Tree, ro: set<Path>, src: Path, dst: Path, linkType: LinkType)
    ensures var t' := LinkEntryEffect(t, ro, src, dst, linkType).tree;
      src in t ==> src in t' && t'[src] == t[src]
  {
    if !IsPrefix(dst, src) {
      LinkEntryFrame(t, ro, src, dst, linkType);
    }
  }

  /** For a relative entry and a worktree below the root the guard never fires. */
  lemma GuardIdleForRelativeEntries(t: Tree, ro: set<Path>, root: Path, wt: Path, e: FileEntry)
    requires |root| < |wt| && !IsAbsolute(e.path)
    ensures LinkEntryEffect(t, ro, Join(root, e.path), Join(wt, e.path), e.linkType) ==
      LinkEntryAsWritten(t, ro, Join(root, e.path), Join(wt, e.path), e.linkType)
  {
  }

  // ---- What a copy holds ----

  /** Nothing at or below dst decides whether a path outside dst is blocked. */
  lemma {:induction false} BlockerOutside(t: Tree, t': Tree, p: Path, dst: Path)
    requires SameOutside(t, t', dst) && !IsPrefix(dst, p)
    ensures Blocker(t', p) == Blocker(t, p)
    decreases |p|
  {
    if |p| > 1 {
      assert IsPrefix(Up(p), p);
      PrefixTransitive(dst, Up(p), p);
      BlockerOutside(t, t', Up(p), dst);
    }
  }

  /** The metadata of a path outside dst, and of its link target, ignores what lies at or below dst. */
  lemma StatOutside(t: Tree, t': Tree, p: Path, dst: Path)
    requires SameOutside(t, t', dst) && !IsPrefix(dst, p)
    requires p in t && t[p].Symlink? ==> !IsPrefix(dst, t[p].target)
    ensures Lstat(t', p) == Lstat(t, p) && Stat(t', p) == Stat(t, p)
  {
    BlockerOutside(t, t', p, dst);
    if p in t && t[p].Symlink? {
      BlockerOutside(t, t', t[p].target, dst);
    }
  }

  /** The slot a successful link_entry fills still shows src as the tree before it did. */
  lemma CopyStartsFromSource(t: Tree, ro: set<Path>, src: Path, dst: Path, linkType: LinkType)
    requires LinkEntryEffect(t, ro, src, dst, linkType).error.None?
    requires Exists(t, src) && !IsPrefix(dst, SourceRoot(t, src))
    ensures var c := ClearEffect(CreateDirAllEffect(t, ro, Up(dst)).tree, ro, dst).tree;
      dst != [] && !IsPrefix(dst, src) &&
      Stat(c, src) == Stat(t, src) && SourceRoot(c, src) == SourceRoot(t, src) &&
      (forall q | q in t && !IsPrefix(dst, q) :: q in c && c[q] == t[q]) &&
      (forall q | q in c && q !in t :: IsPrefix(q, Up(dst)))
  {
    var made := CreateDirAllEffect(t, ro, Up(dst)).tree;
    var c := ClearEffect(made, ro, dst).tree;
    CreateDirAllFrame(t, ro, Up(dst));
    StatGrows(t, made, src);
    ClearFrame(made, ro, dst);
    assert src in t ==> src in made && made[src] == t[src];
    StatOutside(made, c, src, dst);
  }

  /** A successful copy of a file leaves at dst the file src names. */
  lemma LinkEntryCopiesFile(t: Tree, ro: set<Path>, src: Path, dst: Path)
    requires LinkEntryEffect(t, ro, src, dst, LinkType.Copy).error.None?
    requires Exists(t, src) && !IsDir(t, src) && !IsPrefix(dst, SourceRoot(t, src))
    ensures Stat(t, src).value.File?
    ensures LinkEntryEffect(t, ro, src, dst, LinkType.Copy).tree[dst] == Stat(t, src).value
  {
    CopyStartsFromSource(t, ro, src, dst, LinkType.Copy);
    LinkEntrySteps(t, ro, src, dst, LinkType.Copy);
  }

  /** An entry of the copied subtree sits at the matching place below dst. */
  lemma CopyOfHolds(mk: Tree, b: Path, dst: Path, k: Path)
    requires k in mk && IsPrefix(b, k) && k != b
    ensures dst + k[|b|..] in CopyOf(mk, b, dst) && CopyOf(mk, b, dst)[dst + k[|b|..]] == mk[k]
  {
    var q := dst + k[|b|..];
    assert q[|dst|..] == k[|b|..] && q[..|dst|] == dst;
    assert b + q[|dst|..] == k;
  }

  /** The tree a successful directory copy leaves: the emptied slot, dst, and the copy of the source's subtree. */
  lemma CopyDirResult(t: Tree, ro: set<Path>, src: Path, dst: Path)
    requires LinkEntryEffect(t, ro, src, dst, LinkType.Copy).error.None?
    requires IsDir(t, src) && !IsPrefix(dst, SourceRoot(t, src))
    ensures var c := ClearEffect(CreateDirAllEffect(t, ro, Up(dst)).tree, ro, dst).tree;
      var mk := c[dst := Dir];
      LinkEntryEffect(t, ro, src, dst, LinkType.Copy).tree == mk + CopyOf(mk, SourceRoot(t, src), dst) &&
      (forall q | q in t && !IsPrefix(dst, q) :: q in c && c[q] == t[q]) &&
      (forall q | q in c && q !in t :: IsPrefix(q, Up(dst))) &&
      Up(dst) !in ro && !(exists q :: q in ro && IsPrefix(dst, q)) &&
      AncestorsAreDirs(c, dst) && dst !in c &&
      (NoStrayEntries(t, dst) ==> forall q | q in c :: !IsPrefix(dst, q))
  {
    var c := ClearEffect(CreateDirAllEffect(t, ro, Up(dst)).tree, ro, dst).tree;
    CopyStartsFromSource(t, ro, src, dst, LinkType.Copy);
    LinkEntrySteps(t, ro, src, dst, LinkType.Copy);
    assert IsDir(c, src);
    PlaceShape(c, ro, src, dst, LinkType.Copy);
    assert SourceRoot(c[dst := Dir], src) == SourceRoot(c, src);
  }

  /** A successful copy of a directory holds, below dst, every entry of the source's subtree. */
  lemma LinkEntryCopiesDir(t: Tree, ro: set<Path>, src: Path, dst: Path)
    requires LinkEntryEffect(t, ro, src, dst, LinkType.Copy).error.None?
    requires IsDir(t, src)
    requires !IsPrefix(dst, SourceRoot(t, src)) && !IsPrefix(SourceRoot(t, src), dst)
    ensures var t' := LinkEntryEffect(t, ro, src, dst, LinkType.Copy).tree;
      var b := SourceRoot(t, src);
      dst in t' && t'[dst] == Dir &&
      forall k | k in t && IsPrefix(b, k) && k != b :: dst + k[|b|..] in t' && t'[dst + k[|b|..]] == t[k]
  {
    var t' := LinkEntryEffect(t, ro, src, dst, LinkType.Copy).tree;
    var b := SourceRoot(t, src);
    var c := ClearEffect(CreateDirAllEffect(t, ro, Up(dst)).tree, ro, dst).tree;
    var mk := c[dst := Dir];
    CopyDirResult(t, ro, src, dst);
    assert dst in t' && t'[dst] == Dir by {
      CopyOfBelow(mk, b, dst);
      if dst in CopyOf(mk, b, dst) {
        assert CopyOf(mk, b, dst)[dst] == Dir;
      }
    }
    forall k | k in t && IsPrefix(b, k) && k != b
      ensures dst + k[|b|..] in t' && t'[dst + k[|b|..]] == t[k]
    {
      PrefixesComparable(dst, b, k);
      assert k in mk && mk[k] == t[k];
      CopyOfHolds(mk, b, dst, k);
    }
  }

  /** With nothing stray below dst beforehand, everything below the copied dst comes from the source's subtree. */
  lemma LinkEntryCopiesOnlyDir(t: Tree, ro: set<Path>, src: Path, dst: Path)
    requires LinkEntryEffect(t, ro, src, dst, LinkType.Copy).error.None?
    requires IsDir(t, src) && NoStrayEntries(t, dst)
    requires !IsPrefix(dst, SourceRoot(t, src)) && !IsPrefix(SourceRoot(t, src), dst)
    ensures var t' := LinkEntryEffect(t, ro, src, dst, LinkType.Copy).tree;
      var b := SourceRoot(t, src);
      forall q | q in t' && IsPrefix(dst, q) && q != dst ::
        exists k | k in t && IsPrefix(b, k) && k != b :: q == dst + k[|b|..]
  {
    var t' := LinkEntryEffect(t, ro, src, dst, LinkType.Copy).tree;
    var b := SourceRoot(t, src);
    var c := ClearEffect(CreateDirAllEffect(t, ro, Up(dst)).tree, ro, dst).tree;
    var mk := c[dst := Dir];
    CopyDirResult(t, ro, src, dst);
    forall q | q in t' && IsPrefix(dst, q) && q != dst
      ensures exists k | k in t && IsPrefix(b, k) && k != b :: q == dst + k[|b|..]
    {
      assert q !in mk;
      CopyEntryOrigin(t, c, b, dst, q);
    }
  }

  /** An entry of the copy below dst stems from an entry the tree held before the link was prepared. */
  lemma CopyEntryOrigin(t: Tree, c: Tree, b: Path, dst: Path, q: Path)
    requires q in CopyOf(c[dst := Dir], b, dst) && q != dst
    requires forall p | p in c && p !in t :: IsPrefix(p, Up(dst))
    requires !IsPrefix(b, dst)
    ensures exists k | k in t && IsPrefix(b, k) && k != b :: q == dst + k[|b|..]
  {
    var k :| k in c[dst := Dir] && IsPrefix(b, k) && q == dst + k[|b|..];
    assert k != dst && IsPrefix(Up(dst), dst);
    PrefixTransitive(b, k, Up(dst));
    PrefixTransitive(b, Up(dst), dst);
    assert k in t && k != b;
  }
}
