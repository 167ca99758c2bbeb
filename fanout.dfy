/**
 * Propagating a change of the configured files to every managed worktree:
 * link_entries_to_worktrees links each entry into each worktree and records
 * every attempt; remove_symlinks_from_worktrees deletes the links an entry
 * left behind. Neither stops at a failure.
 */
module FanOut {
  import opened Wrappers
  import opened Paths
  import opened Fs
  import opened Config
  import opened Git
  import opened Links
  import opened Worktrees

  /** One (entry, worktree) pair that link_entry was run on, and how it ended. */
  datatype Attempt = Attempt(name: string, dst: Path, error: Option<FsError>)

  datatype LinkReport = LinkReport(linked: seq<(string, Path)>, failed: seq<(string, Path, FsError)>)

  /** The tree after some attempts, and the attempts in the order they were made. */
  datatype Sweep = Sweep(tree: Tree, attempts: seq<Attempt>)

  function Linked(attempts: seq<Attempt>): seq<(string, Path)> {
    if attempts == [] then []
    else
      var init := Linked(attempts[..|attempts| - 1]);
      var a := attempts[|attempts| - 1];
      if a.error.None? then init + [(a.name, a.dst)] else init
  }

  function Failed(attempts: seq<Attempt>): seq<(string, Path, FsError)> {
    if attempts == [] then []
    else
      var init := Failed(attempts[..|attempts| - 1]);
      var a := attempts[|attempts| - 1];
      if a.error.Some? then init + [(a.name, a.dst, a.error.value)] else init
  }

  /** The inner loop body: link the entry into worktree w and record the attempt. */
  function EntryStep(s: Sweep, ro: set<Path>, src: Path, rel: string, linkType: LinkType, w: Worktree): Sweep {
    var dst := Join(w.path, rel);
    var e := LinkEntryEffect(s.tree, ro, src, dst, linkType);
    Sweep(e.tree, s.attempts + [Attempt(w.name, dst, e.error)])
  }

  /** One entry linked into each worktree in turn. */
  function FanEntry(t: Tree, ro: set<Path>, src: Path, rel: string, linkType: LinkType, wts: seq<Worktree>): Sweep
    decreases |wts|, 1
  {
    if wts == [] then Sweep(t, []) else FanEntryLast(t, ro, src, rel, linkType, wts)
  }

  /** The sweep once the last of wts has had the entry linked in as well. */
  function FanEntryLast(t: Tree, ro: set<Path>, src: Path, rel: string, linkType: LinkType, wts: seq<Worktree>): Sweep
    requires wts != []
    decreases |wts|, 0
  {
    EntryStep(FanEntry(t, ro, src, rel, linkType, wts[..|wts| - 1]), ro, src, rel, linkType, wts[|wts| - 1])
  }

  /** The outer loop body: an entry whose source is missing is skipped, any other fans out. */
  function FanStep(s: Sweep, ro: set<Path>, root: Path, e: FileEntry, wts: seq<Worktree>): Sweep {
    var src := Join(root, e.path);
    if !Exists(s.tree, src) then s
    else
      var f := FanEntry(s.tree, ro, src, e.path, e.linkType, wts);
      Sweep(f.tree, s.attempts + f.attempts)
  }

  /** Every entry whose source exists when its turn comes, entry by entry. */
  function FanAll(t: Tree, ro: set<Path>, root: Path, entries: seq<FileEntry>, wts: seq<Worktree>): Sweep
    decreases |entries|
  {
    if entries == [] then Sweep(t, [])
    else FanStep(FanAll(t, ro, root, entries[..|entries| - 1], wts), ro, root, entries[|entries| - 1], wts)
  }

  lemma FanEntryStep(t: Tree, ro: set<Path>, src: Path, rel: string, linkType: LinkType, wts: seq<Worktree>, w: Worktree)
    ensures FanEntry(t, ro, src, rel, linkType, wts + [w]) == EntryStep(FanEntry(t, ro, src, rel, linkType, wts), ro, src, rel, linkType, w)
  {
    assert (wts + [w])[..|wts|] == wts;
    assert FanEntry(t, ro, src, rel, linkType, wts + [w]) == FanEntryLast(t, ro, src, rel, linkType, wts + [w]);
  }

  lemma FanAllStep(t: Tree, ro: set<Path>, root: Path, entries: seq<FileEntry>, e: FileEntry, wts: seq<Worktree>)
    ensures FanAll(t, ro, root, entries + [e], wts) == FanStep(FanAll(t, ro, root, entries, wts), ro, root, e, wts)
  {
    assert (entries + [e])[..|entries|] == entries;
  }

  /** A step only appends to the attempts already made. */
  lemma FanStepAppends(tree: Tree, a: seq<Attempt>, b: seq<Attempt>, ro: set<Path>, root: Path, e: FileEntry, wts: seq<Worktree>)
    ensures var later := FanStep(Sweep(tree, b), ro, root, e, wts);
      FanStep(Sweep(tree, a + b), ro, root, e, wts) == Sweep(later.tree, a + later.attempts)
  {
    var src := Join(root, e.path);
    if Exists(tree, src) {
      var f := FanEntry(tree, ro, src, e.path, e.linkType, wts);
      assert (a + b) + f.attempts == a + (b + f.attempts);
    }
  }

  method LinkEntriesToWorktrees(fs: FileSystem, git: GitAnswers, root: Path, entries: seq<FileEntry>)
    returns (r: Result<LinkReport, Error>)
    modifies fs
    ensures var listed := ListWorktreesSpec(old(fs.nodes), git, root);
      (listed.Err? ==> r == Err(listed.error) && fs.nodes == old(fs.nodes)) &&
      (listed.Ok? ==>
        var s := FanAll(old(fs.nodes), fs.readOnly, root, entries, listed.value);
        fs.nodes == s.tree && r == Ok(LinkReport(Linked(s.attempts), Failed(s.attempts))))
  {
    var listed, _ := ListWorktrees(fs, git, root);
    if listed.Err? {
      return Err(listed.error);
    }
    var worktrees := listed.value;
    if worktrees == [] || entries == [] {
      FanAllNothing(fs.nodes, fs.readOnly, root, entries, worktrees);
      return Ok(LinkReport([], []));
    }
    var linked, failed := LinkEachEntry(fs, root, entries, worktrees);
    return Ok(LinkReport(linked, failed));
  }

  /** The outer loop of link_entries_to_worktrees: every entry whose source exists, in order. */
  method LinkEachEntry(fs: FileSystem, root: Path, entries: seq<FileEntry>, worktrees: seq<Worktree>)
    returns (linked: seq<(string, Path)>, failed: seq<(string, Path, FsError)>)
    modifies fs
    ensures var s := FanAll(old(fs.nodes), fs.readOnly, root, entries, worktrees);
      fs.nodes == s.tree && linked == Linked(s.attempts) && failed == Failed(s.attempts)
  {
    linked, failed := [], [];
    ghost var attempts: seq<Attempt> := [];
    var i := 0;
    while i < |entries|
      invariant 0 <= i <= |entries|
      invariant Sweep(fs.nodes, attempts) == FanAll(old(fs.nodes), fs.readOnly, root, entries[..i], worktrees)
      invariant linked == Linked(attempts) && failed == Failed(attempts)
    {
      var entry := entries[i];
      assert FanAll(old(fs.nodes), fs.readOnly, root, entries[..i + 1], worktrees) ==
             FanStep(FanAll(old(fs.nodes), fs.readOnly, root, entries[..i], worktrees), fs.readOnly, root, entry, worktrees) by {
        assert entries[..i + 1] == entries[..i] + [entry];
        FanAllStep(old(fs.nodes), fs.readOnly, root, entries[..i], entry, worktrees);
      }
      var src := Join(root, entry.path);
      if !Exists(fs.nodes, src) {
        i := i + 1;
        continue;
      }
      ghost var start := fs.nodes;
      var more, moreFailed := LinkIntoEach(fs, src, entry, worktrees);
      ghost var made := FanEntry(start, fs.readOnly, src, entry.path, entry.linkType, worktrees).attempts;
      assert Linked(attempts + made) == Linked(attempts) + Linked(made) &&
             Failed(attempts + made) == Failed(attempts) + Failed(made) by {
        ReportAppend(attempts, made);
      }
      linked, failed := linked + more, failed + moreFailed;
      attempts := attempts + made;
      i := i + 1;
    }
    assert entries[..i] == entries;
  }

  /** The inner loop of link_entries_to_worktrees: one entry into every worktree, in order. */
  method LinkIntoEach(fs: FileSystem, src: Path, entry: FileEntry, worktrees: seq<Worktree>)
    returns (linked: seq<(string, Path)>, failed: seq<(string, Path, FsError)>)
    modifies fs
    ensures var s := FanEntry(old(fs.nodes), fs.readOnly, src, entry.path, entry.linkType, worktrees);
      fs.nodes == s.tree && linked == Linked(s.attempts) && failed == Failed(s.attempts)
  {
    linked, failed := [], [];
    ghost var made: seq<Attempt> := [];
    var j := 0;
    while j < |worktrees|
      invariant 0 <= j <= |worktrees|
      invariant Sweep(fs.nodes, made) == FanEntry(old(fs.nodes), fs.readOnly, src, entry.path, entry.linkType, worktrees[..j])
      invariant linked == Linked(made) && failed == Failed(made)
    {
      var wt := worktrees[j];
      assert FanEntry(old(fs.nodes), fs.readOnly, src, entry.path, entry.linkType, worktrees[..j + 1]) ==
             EntryStep(FanEntry(old(fs.nodes), fs.readOnly, src, entry.path, entry.linkType, worktrees[..j]),
                       fs.readOnly, src, entry.path, entry.linkType, wt) by {
        assert worktrees[..j + 1] == worktrees[..j] + [wt];
        FanEntryStep(old(fs.nodes), fs.readOnly, src, entry.path, entry.linkType, worktrees[..j], wt);
      }
      var dst := Join(wt.path, entry.path);
      var err := LinkEntry(fs, src, dst, entry.linkType);
      ghost var next := made + [Attempt(wt.name, dst, err)];
      assert Linked(next) == (if err.None? then Linked(made) + [(wt.name, dst)] else Linked(made)) &&
             Failed(next) == (if err.Some? then Failed(made) + [(wt.name, dst, err.value)] else Failed(made)) by {
        assert next[..|made|] == made;
      }
      made := next;
      if err.None? {
        linked := linked + [(wt.name, dst)];
      } else {
        failed := failed + [(wt.name, dst, err.value)];
      }
      j := j + 1;
    }
    assert worktrees[..j] == worktrees;
  }

  // ---- Properties of the link fan-out ----

  /** With no worktrees, or no entries, nothing is attempted and nothing changes. */
  lemma {:induction false} FanAllNothing(t: Tree, ro: set<Path>, root: Path, entries: seq<FileEntry>, wts: seq<Worktree>)
    requires wts == [] || entries == []
    ensures FanAll(t, ro, root, entries, wts) == Sweep(t, [])
    decreases |entries|
  {
    if entries != [] {
      FanAllNothing(t, ro, root, entries[..|entries| - 1], wts);
    }
  }

  /** One attempt per worktree, in worktree order, each at that worktree's copy of rel. */
  predicate OnePerWorktree(a: seq<Attempt>, wts: seq<Worktree>, rel: string) {
    |a| == |wts| && forall j | 0 <= j < |wts| :: a[j].name == wts[j].name && a[j].dst == Join(wts[j].path, rel)
  }

  lemma {:induction false} FanEntryShape(t: Tree, ro: set<Path>, src: Path, rel: string, linkType: LinkType, wts: seq<Worktree>)
    ensures OnePerWorktree(FanEntry(t, ro, src, rel, linkType, wts).attempts, wts, rel)
    decreases |wts|
  {
    if wts != [] {
      FanEntryShape(t, ro, src, rel, linkType, wts[..|wts| - 1]);
    }
  }

  /**
   * Entries are handled one after another, and a failure never stops the
   * sweep: the attempts for a list of entries are those of its first part
   * followed by those of its second part.
   */
  lemma {:induction false} FanAllAppend(t: Tree, ro: set<Path>, root: Path, es1: seq<FileEntry>, es2: seq<FileEntry>, wts: seq<Worktree>)
    ensures var s1 := FanAll(t, ro, root, es1, wts);
      var s2 := FanAll(s1.tree, ro, root, es2, wts);
      FanAll(t, ro, root, es1 + es2, wts) == Sweep(s2.tree, s1.attempts + s2.attempts)
    decreases |es2|
  {
    if es2 == [] {
      assert es1 + es2 == es1;
    } else {
      var init := es2[..|es2| - 1];
      var e := es2[|es2| - 1];
      assert es2 == init + [e];
      assert es1 + es2 == (es1 + init) + [e];
      FanAllAppend(t, ro, root, es1, init, wts);
      var s1 := FanAll(t, ro, root, es1, wts);
      var mid := FanAll(s1.tree, ro, root, init, wts);
      FanAllStep(t, ro, root, es1 + init, e, wts);
      FanAllStep(s1.tree, ro, root, init, e, wts);
      FanStepAppends(mid.tree, s1.attempts, mid.attempts, ro, root, e, wts);
    }
  }

  /** An entry whose source is missing adds no attempt for any worktree. */
  lemma MissingSourceSkipped(t: Tree, ro: set<Path>, root: Path, es: seq<FileEntry>, e: FileEntry, wts: seq<Worktree>)
    requires !Exists(FanAll(t, ro, root, es, wts).tree, Join(root, e.path))
    ensures FanAll(t, ro, root, es + [e], wts) == FanAll(t, ro, root, es, wts)
  {
    FanAllStep(t, ro, root, es, e, wts);
  }

  /** An entry whose source exists adds exactly one attempt per worktree, after the earlier ones. */
  lemma PresentSourceFansOut(t: Tree, ro: set<Path>, root: Path, es: seq<FileEntry>, e: FileEntry, wts: seq<Worktree>)
    requires Exists(FanAll(t, ro, root, es, wts).tree, Join(root, e.path))
    ensures var before := FanAll(t, ro, root, es, wts).attempts;
      var after := FanAll(t, ro, root, es + [e], wts).attempts;
      |before| <= |after| && after[..|before|] == before && OnePerWorktree(after[|before|..], wts, e.path)
  {
    var s := FanAll(t, ro, root, es, wts);
    var f := FanEntry(s.tree, ro, Join(root, e.path), e.path, e.linkType, wts).attempts;
    var after := FanAll(t, ro, root, es + [e], wts).attempts;
    assert after == s.attempts + f by {
      FanAllStep(t, ro, root, es, e, wts);
    }
    assert OnePerWorktree(f, wts, e.path) by {
      FanEntryShape(s.tree, ro, Join(root, e.path), e.path, e.linkType, wts);
    }
    assert after[..|s.attempts|] == s.attempts && after[|s.attempts|..] == f;
  }

  /** Every attempt lands in exactly one of the two lists. */
  lemma {:induction false} ReportCounts(a: seq<Attempt>)
    ensures |Linked(a)| + |Failed(a)| == |a|
  {
    if a != [] {
      ReportCounts(a[..|a| - 1]);
    }
  }

  /** Both lists keep the attempt order: reporting a + b reports a, then b. */
  lemma {:induction false} ReportAppend(a: seq<Attempt>, b: seq<Attempt>)
    ensures Linked(a + b) == Linked(a) + Linked(b) && Failed(a + b) == Failed(a) + Failed(b)
  {
    if b == [] {
      assert a + b == a;
    } else {
      var ab := a + b;
      assert ab[..|ab| - 1] == a + b[..|b| - 1];
      assert ab[|ab| - 1] == b[|b| - 1];
      ReportAppend(a, b[..|b| - 1]);
    }
  }

  // ---- remove_symlinks_from_worktrees ----

  datatype Removal = Removal(tree: Tree, removed: seq<(string, Path)>, failed: seq<(string, Path, FsError)>)

  /** The loop body: w's copy of rel is deleted when it is a symbolic link; NotFound is silent. */
  function UnlinkStep(s: Removal, ro: set<Path>, rel: string, w: Worktree): Removal {
    var dst := Join(w.path, rel);
    match Lstat(s.tree, dst)
    case Ok(n) =>
      if !n.Symlink? then s
      else
        var e := RemoveFileEffect(s.tree, ro, dst);
        if e.error.Some? then Removal(s.tree, s.removed, s.failed + [(w.name, dst, e.error.value)])
        else Removal(e.tree, s.removed + [(w.name, dst)], s.failed)
    case Err(err) =>
      if err.NotFound? then s else Removal(s.tree, s.removed, s.failed + [(w.name, dst, err)])
  }

  function UnlinkAll(t: Tree, ro: set<Path>, rel: string, wts: seq<Worktree>): Removal
    decreases |wts|
  {
    if wts == [] then Removal(t, [], [])
    else UnlinkStep(UnlinkAll(t, ro, rel, wts[..|wts| - 1]), ro, rel, wts[|wts| - 1])
  }

  method RemoveSymlinksFromWorktrees(fs: FileSystem, git: GitAnswers, root: Path, rel: string)
    returns (r: Result<(seq<(string, Path)>, seq<(string, Path, FsError)>), Error>)
    modifies fs
    ensures var listed := ListWorktreesSpec(old(fs.nodes), git, root);
      (listed.Err? ==> r == Err(listed.error) && fs.nodes == old(fs.nodes)) &&
      (listed.Ok? ==>
        var s := UnlinkAll(old(fs.nodes), fs.readOnly, rel, listed.value);
        fs.nodes == s.tree && r == Ok((s.removed, s.failed)))
  {
    var listed, _ := ListWorktrees(fs, git, root);
    if listed.Err? {
      return Err(listed.error);
    }
    var removed, failed := UnlinkEach(fs, rel, listed.value);
    return Ok((removed, failed));
  }

  /** The loop of remove_symlinks_from_worktrees over the listed worktrees. */
  method UnlinkEach(fs: FileSystem, rel: string, worktrees: seq<Worktree>)
    returns (removed: seq<(string, Path)>, failed: seq<(string, Path, FsError)>)
    modifies fs
    ensures Removal(fs.nodes, removed, failed) == UnlinkAll(old(fs.nodes), fs.readOnly, rel, worktrees)
  {
    removed, failed := [], [];
    var i := 0;
    while i < |worktrees|
      invariant 0 <= i <= |worktrees|
      invariant Removal(fs.nodes, removed, failed) == UnlinkAll(old(fs.nodes), fs.readOnly, rel, worktrees[..i])
    {
      assert UnlinkAll(old(fs.nodes), fs.readOnly, rel, worktrees[..i + 1]) ==
             UnlinkStep(UnlinkAll(old(fs.nodes), fs.readOnly, rel, worktrees[..i]), fs.readOnly, rel, worktrees[i]) by {
        assert worktrees[..i + 1][..i] == worktrees[..i];
      }
      removed, failed := UnlinkOne(fs, rel, worktrees[i], removed, failed);
      i := i + 1;
    }
    assert worktrees[..i] == worktrees;
  }

  /** The loop body of remove_symlinks_from_worktrees for one worktree. */
  method UnlinkOne(fs: FileSystem, rel: string, wt: Worktree,
                   removed: seq<(string, Path)>, failed: seq<(string, Path, FsError)>)
    returns (removed': seq<(string, Path)>, failed': seq<(string, Path, FsError)>)
    modifies fs
    ensures Removal(fs.nodes, removed', failed') == UnlinkStep(Removal(old(fs.nodes), removed, failed), fs.readOnly, rel, wt)
  {
    removed', failed' := removed, failed;
    var dst := Join(wt.path, rel);
    var meta := Lstat(fs.nodes, dst);
    if meta.Ok? {
      if meta.value.Symlink? {
        var err := fs.RemoveFile(dst);
        if err.Some? {
          failed' := failed + [(wt.name, dst, err.value)];
        } else {
          removed' := removed + [(wt.name, dst)];
        }
      }
    } else if !meta.error.NotFound? {
      failed' := failed + [(wt.name, dst, meta.error)];
    }
  }

  /**
   * Only symbolic links are deleted: every surviving entry is unchanged, every
   * vanished entry was a link, and every reported removal is gone.
   */
  lemma {:induction false} UnlinkOnlyLinks(t: Tree, ro: set<Path>, rel: string, wts: seq<Worktree>)
    ensures var s := UnlinkAll(t, ro, rel, wts);
      (forall q | q in s.tree :: q in t && s.tree[q] == t[q]) &&
      (forall q | q in t && q !in s.tree :: t[q].Symlink?) &&
      (forall k | 0 <= k < |s.removed| :: s.removed[k].1 in t && t[s.removed[k].1].Symlink? && s.removed[k].1 !in s.tree)
    decreases |wts|
  {
    if wts != [] {
      UnlinkOnlyLinks(t, ro, rel, wts[..|wts| - 1]);
      var s := UnlinkAll(t, ro, rel, wts[..|wts| - 1]);
      var dst := Join(wts[|wts| - 1].path, rel);
      if Lstat(s.tree, dst).Ok? && Lstat(s.tree, dst).value.Symlink? {
        assert dst != [] && dst in s.tree;
      }
    }
  }

  /** At most one report line per worktree (UnlinkOne says which worktrees give none). */
  lemma {:induction false} UnlinkReportsBounded(t: Tree, ro: set<Path>, rel: string, wts: seq<Worktree>)
    ensures var s := UnlinkAll(t, ro, rel, wts); |s.removed| + |s.failed| <= |wts|
    decreases |wts|
  {
    if wts != [] {
      UnlinkReportsBounded(t, ro, rel, wts[..|wts| - 1]);
    }
  }
}
