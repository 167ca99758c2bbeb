/**
 * Adopting worktrees created outside the tool (import_all_worktrees): each
 * listed worktree is skipped, moved below the trees directory under a name
 * that is not taken yet (unique_import_path), or reported as a failed move.
 */
module Import {
  import opened Wrappers
  import opened Paths
  import opened Fs
  import opened Config
  import opened Porcelain
  import opened Git
  import opened Links
  import opened Worktrees

  const FallbackName: string := "worktree"
  const MainWorktreeReason: string := "main worktree"
  const AlreadyManagedReason: string := "already managed"

  // ---- Decimal numerals ----

  function Digit(d: nat): char
    requires d < 10
  {
    "0123456789"[d]
  }

  /** The decimal numeral of n, as format!("{}", n) writes it. */
  function NatToString(n: nat): (s: string)
    ensures |s| >= 1
    ensures forall i | 0 <= i < |s| :: '0' <= s[i] <= '9'
  {
    if n < 10 then [Digit(n)] else NatToString(n / 10) + [Digit(n % 10)]
  }

  function Pow10(k: nat): (p: nat)
    ensures p >= 1
  {
    if k == 0 then 1 else 10 * Pow10(k - 1)
  }

  /** A number of at least 10^k has more than k digits. */
  lemma {:induction false} NatToStringLength(n: nat, k: nat)
    requires n >= Pow10(k)
    ensures |NatToString(n)| > k
  {
    if k > 0 {
      NatToStringLength(n / 10, k - 1);
    }
  }

  // ---- unique_import_path ----

  function ImportBase(baseName: string): string {
    if baseName == "" then FallbackName else baseName
  }

  function Candidate(trees: Path, base: string, index: nat): Path {
    Join(trees, base + "-" + NatToString(index))
  }

  /** The longest last component of any entry, bounding the names that can be taken. */
  ghost function MaxLast(keys: set<Path>): (m: nat)
    ensures forall k | k in keys && k != [] :: |k[|k| - 1]| <= m
    decreases keys
  {
    if keys == {} then 0
    else
      var x :| x in keys;
      var rest := MaxLast(keys - {x});
      var here := if x == [] then 0 else |x[|x| - 1]|;
      assert forall k | k in keys && k != [] :: k == x || k in keys - {x};
      if here > rest then here else rest
  }

  /** The numbered candidate `index` is already an entry of the tree. */
  predicate Taken(t: Tree, trees: Path, base: string, index: nat) {
    Exists(t, Candidate(trees, base, index))
  }

  /** A numbered candidate is a single component below trees. */
  lemma CandidateIsChild(trees: Path, base: string, index: nat)
    requires '/' !in base
    ensures Candidate(trees, base, index) == trees + [base + "-" + NatToString(index)]
  {
    var name := base + "-" + NatToString(index);
    assert forall i | 0 <= i < |name| :: name[i] != '/' by {
      forall i | 0 <= i < |name| ensures name[i] != '/' {
        if i < |base| {
          assert name[i] == base[i];
        } else if i > |base| {
          assert name[i] == NatToString(index)[i - |base| - 1];
        }
      }
    }
    assert |name| >= 2;
    ParseComponent(name);
  }

  /** Only candidates of a bounded length can exist, so the search ends. */
  lemma CandidateBounded(t: Tree, trees: Path, base: string, index: nat)
    requires '/' !in base
    ensures Taken(t, trees, base, index) ==> index < Pow10(MaxLast(t.Keys))
  {
    var c := Candidate(trees, base, index);
    var m := MaxLast(t.Keys);
    CandidateIsChild(trees, base, index);
    if index >= Pow10(m) {
      NatToStringLength(index, m);
    }
  }

  /** The first index from `index` on that `taken` does not hold for; `bound` exceeds every taken index. */
  function FirstFrom(taken: nat -> bool, ghost bound: nat, index: nat): nat
    requires forall i: nat :: taken(i) ==> i < bound
    decreases bound - index
  {
    if !taken(index) then index else FirstFrom(taken, bound, index + 1)
  }

  /** The index found is free, and every index before it, from the start, is taken. */
  lemma {:induction false} FirstFromLeast(taken: nat -> bool, bound: nat, index: nat)
    requires forall i: nat :: taken(i) ==> i < bound
    ensures var n := FirstFrom(taken, bound, index);
      n >= index && !taken(n) && forall m | index <= m < n :: taken(m)
    decreases bound - index
  {
    if taken(index) {
      FirstFromLeast(taken, bound, index + 1);
    }
  }

  lemma TakenBounded(t: Tree, trees: Path, base: string)
    requires '/' !in base
    ensures forall i: nat :: Taken(t, trees, base, i) ==> i < Pow10(MaxLast(t.Keys))
  {
    forall i: nat ensures Taken(t, trees, base, i) ==> i < Pow10(MaxLast(t.Keys)) {
      CandidateBounded(t, trees, base, i);
    }
  }

  function TakenBy(t: Tree, trees: Path, base: string): nat -> bool {
    (i: nat) => Taken(t, trees, base, i)
  }

  /** The first index, from `index` on, whose candidate does not exist yet. */
  function FirstFreeIndex(t: Tree, trees: Path, base: string, index: nat): nat
    requires '/' !in base
  {
    TakenBounded(t, trees, base);
    FirstFrom(TakenBy(t, trees, base), Pow10(MaxLast(t.Keys)), index)
  }

  /** unique_import_path: trees/base when free, else trees/base-N for the first free N >= 2. */
  function UniqueImportPathSpec(t: Tree, trees: Path, baseName: string): Path
    requires '/' !in baseName
  {
    var base := ImportBase(baseName);
    if !Exists(t, Join(trees, base)) then Join(trees, base)
    else Candidate(trees, base, FirstFreeIndex(t, trees, base, 2))
  }

  method UniqueImportPath(fs: FileSystem, trees: Path, baseName: string) returns (r: Path)
    requires '/' !in baseName
    ensures r == UniqueImportPathSpec(fs.nodes, trees, baseName)
  {
    var base := if baseName == "" then FallbackName else baseName;
    var candidate := Join(trees, base);
    if !Exists(fs.nodes, candidate) {
      return candidate;
    }
    r := NumberedCandidate(fs, trees, base);
  }

  /** The loop of unique_import_path: try base-2, base-3, ... until one is free. */
  method NumberedCandidate(fs: FileSystem, trees: Path, base: string) returns (r: Path)
    requires '/' !in base
    ensures r == Candidate(trees, base, FirstFreeIndex(fs.nodes, trees, base, 2))
  {
    var index := 2;
    ghost var bound := Pow10(MaxLast(fs.nodes.Keys));
    ghost var taken := TakenBy(fs.nodes, trees, base);
    TakenBounded(fs.nodes, trees, base);
    while true
      invariant 2 <= index <= bound + 2
      invariant FirstFrom(taken, bound, index) == FirstFrom(taken, bound, 2)
      decreases bound + 2 - index
    {
      var candidate := Candidate(trees, base, index);
      if !Taken(fs.nodes, trees, base, index) {
        assert !taken(index);
        return candidate;
      }
      assert taken(index);
      index := index + 1;
    }
  }

  /** The index found is free, and every index before it, from the start, is taken. */
  lemma FirstFreeIndexLeast(t: Tree, trees: Path, base: string, index: nat)
    requires '/' !in base
    ensures var n := FirstFreeIndex(t, trees, base, index);
      n >= index && !Taken(t, trees, base, n) &&
      forall m | index <= m < n :: Taken(t, trees, base, m)
  {
    TakenBounded(t, trees, base);
    var taken := TakenBy(t, trees, base);
    FirstFromLeast(taken, Pow10(MaxLast(t.Keys)), index);
    var n := FirstFreeIndex(t, trees, base, index);
    assert !taken(n);
    forall m | index <= m < n ensures Taken(t, trees, base, m) {
      assert taken(m);
    }
  }

  /**
   * The chosen path is free; it is trees/base when that is free, and otherwise
   * trees/base-N where base-2 .. base-(N-1) are all taken.
   */
  lemma UniqueImportPathLeast(t: Tree, trees: Path, baseName: string)
    requires '/' !in baseName
    ensures var r := UniqueImportPathSpec(t, trees, baseName);
      var base := ImportBase(baseName);
      !Exists(t, r) &&
      (!Exists(t, Join(trees, base)) ==> r == Join(trees, base)) &&
      (Exists(t, Join(trees, base)) ==>
        var n := FirstFreeIndex(t, trees, base, 2);
        n >= 2 && r == Candidate(trees, base, n) &&
        forall m | 2 <= m < n :: Taken(t, trees, base, m))
  {
    FirstFreeIndexLeast(t, trees, ImportBase(baseName), 2);
  }

  /** The chosen path is a direct child of trees, so the moved worktree becomes managed. */
  lemma UniqueImportPathIsChild(t: Tree, trees: Path, baseName: string)
    requires ValidComponent(baseName) || baseName == ""
    ensures var r := UniqueImportPathSpec(t, trees, baseName);
      |r| == |trees| + 1 && IsPrefix(trees, r)
  {
    var base := ImportBase(baseName);
    ParseComponent(base);
    if Exists(t, Join(trees, base)) {
      CandidateIsChild(trees, base, FirstFreeIndex(t, trees, base, 2));
    }
  }

  // ---- import_all_worktrees ----

  datatype Outcome =
    | Skipped(path: Path, reason: string)
    | MoveFailed(path: Path, message: string)
    | Moved(path: Path, to: Path, relinkError: Option<Error>)

  datatype ImportReport = ImportReport(
    moved: seq<(Path, Path, Option<Error>)>,
    skipped: seq<(Path, string)>,
    failed: seq<(Path, string)>)

  /** What handling one listed worktree leaves: the tree, its outcome, the git commands run. */
  datatype Step = Step(tree: Tree, outcome: Outcome, calls: seq<seq<string>>)

  function ImportBaseOf(p: Path): string {
    FileName(p).GetOr(FallbackName)
  }

  /** The loop body of import_all_worktrees for one listed worktree. */
  function ImportOneSpec(t: Tree, ro: set<Path>, git: GitAnswers, root: Path, config: Config, wt: GitWorktree): Step
    requires ValidPath(wt.path)
  {
    var trees := TreesDir(root);
    if wt.path == root then Step(t, Skipped(wt.path, MainWorktreeReason), [])
    else if IsPrefix(trees, wt.path) then Step(t, Skipped(wt.path, AlreadyManagedReason), [])
    else
      var dest := UniqueImportPathSpec(t, trees, ImportBaseOf(wt.path));
      var calls := [MoveArgs(wt.path, dest)];
      if wt.path in git.moveFailures then Step(t, MoveFailed(wt.path, "git worktree move failed"), calls)
      else
        var moved := MoveTree(t, wt.path, dest);
        var name := NameOf(dest);
        if name == "" then Step(moved, Moved(wt.path, dest, Some(UnnamedWorktree)), calls)
        else
          var relinked := RelinkSpec(moved, ro, root, name, config);
          Step(relinked.tree, Moved(wt.path, dest, relinked.error), calls)
  }

  datatype ImportState = ImportState(tree: Tree, outcomes: seq<Outcome>, calls: seq<seq<string>>)

  predicate AllValid(wts: seq<GitWorktree>) {
    forall k | 0 <= k < |wts| :: ValidPath(wts[k].path)
  }

  function ImportSteps(t: Tree, ro: set<Path>, git: GitAnswers, root: Path, config: Config, wts: seq<GitWorktree>): ImportState
    requires AllValid(wts)
    decreases |wts|, 1
  {
    if wts == [] then ImportState(t, [], []) else ImportAfterLast(t, ro, git, root, config, wts)
  }

  /** The state once the last of wts has been handled as well. */
  function ImportAfterLast(t: Tree, ro: set<Path>, git: GitAnswers, root: Path, config: Config, wts: seq<GitWorktree>): ImportState
    requires AllValid(wts) && wts != []
    decreases |wts|, 0
  {
    var s := ImportSteps(t, ro, git, root, config, wts[..|wts| - 1]);
    var one := ImportOneSpec(s.tree, ro, git, root, config, wts[|wts| - 1]);
    ImportState(one.tree, s.outcomes + [one.outcome], s.calls + one.calls)
  }

  function Moves(os: seq<Outcome>): seq<(Path, Path, Option<Error>)> {
    if os == [] then []
    else
      var init := Moves(os[..|os| - 1]);
      var o := os[|os| - 1];
      if o.Moved? then init + [(o.path, o.to, o.relinkError)] else init
  }

  function Skips(os: seq<Outcome>): seq<(Path, string)> {
    if os == [] then []
    else
      var init := Skips(os[..|os| - 1]);
      var o := os[|os| - 1];
      if o.Skipped? then init + [(o.path, o.reason)] else init
  }

  function Failures(os: seq<Outcome>): seq<(Path, string)> {
    if os == [] then []
    else
      var init := Failures(os[..|os| - 1]);
      var o := os[|os| - 1];
      if o.MoveFailed? then init + [(o.path, o.message)] else init
  }

  function ReportOf(os: seq<Outcome>): ImportReport {
    ImportReport(Moves(os), Skips(os), Failures(os))
  }

  /** The arm of the match in import_all_worktrees that files an outcome in its list. */
  function Record(r: ImportReport, o: Outcome): ImportReport {
    match o
    case Skipped(p, reason) => r.(skipped := r.skipped + [(p, reason)])
    case MoveFailed(p, message) => r.(failed := r.failed + [(p, message)])
    case Moved(p, to, relinkError) => r.(moved := r.moved + [(p, to, relinkError)])
  }

  lemma ReportOfAppend(os: seq<Outcome>, o: Outcome)
    ensures ReportOf(os + [o]) == Record(ReportOf(os), o)
    ensures Moves(os + [o]) == if o.Moved? then Moves(os) + [(o.path, o.to, o.relinkError)] else Moves(os)
    ensures Skips(os + [o]) == if o.Skipped? then Skips(os) + [(o.path, o.reason)] else Skips(os)
    ensures Failures(os + [o]) == if o.MoveFailed? then Failures(os) + [(o.path, o.message)] else Failures(os)
  {
    assert (os + [o])[..|os|] == os;
  }

  lemma ImportStepsStep(t: Tree, ro: set<Path>, git: GitAnswers, root: Path, config: Config, wts: seq<GitWorktree>, w: GitWorktree)
    requires AllValid(wts) && ValidPath(w.path)
    ensures AllValid(wts + [w])
    ensures var s := ImportSteps(t, ro, git, root, config, wts);
      var one := ImportOneSpec(s.tree, ro, git, root, config, w);
      ImportSteps(t, ro, git, root, config, wts + [w]) == ImportState(one.tree, s.outcomes + [one.outcome], s.calls + one.calls)
  {
    assert (wts + [w])[..|wts|] == wts;
    assert forall k | 0 <= k < |wts| :: wts[k] == (wts + [w])[k];
    assert ImportSteps(t, ro, git, root, config, wts + [w]) == ImportAfterLast(t, ro, git, root, config, wts + [w]);
  }

  /** The first i + 1 listed worktrees are the first i followed by one more step. */
  lemma ImportStepsPrefix(t: Tree, ro: set<Path>, git: GitAnswers, root: Path, config: Config, wts: seq<GitWorktree>, i: nat)
    requires AllValid(wts) && i < |wts|
    ensures var s := ImportSteps(t, ro, git, root, config, wts[..i]);
      var one := ImportOneSpec(s.tree, ro, git, root, config, wts[i]);
      ImportSteps(t, ro, git, root, config, wts[..i + 1]) == ImportState(one.tree, s.outcomes + [one.outcome], s.calls + one.calls)
  {
    assert wts[..i + 1] == wts[..i] + [wts[i]];
    assert AllValid(wts[..i]) by {
      forall k | 0 <= k < i ensures ValidPath(wts[..i][k].path) {
        assert wts[..i][k] == wts[k];
      }
    }
    ImportStepsStep(t, ro, git, root, config, wts[..i], wts[i]);
  }

  /** A skipped worktree costs no git command; any other costs exactly one move. */
  lemma ImportOneCalls(t: Tree, ro: set<Path>, git: GitAnswers, root: Path, config: Config, wt: GitWorktree)
    requires ValidPath(wt.path)
    ensures var one := ImportOneSpec(t, ro, git, root, config, wt);
      |one.calls| == if one.outcome.Skipped? then 0 else 1
  {
    var trees := TreesDir(root);
    if wt.path != root && !IsPrefix(trees, wt.path) {
      var one := ImportOneSpec(t, ro, git, root, config, wt);
      assert one.calls == [MoveArgs(wt.path, UniqueImportPathSpec(t, trees, ImportBaseOf(wt.path)))];
      assert one.outcome.MoveFailed? || one.outcome.Moved?;
    }
  }

  datatype ImportRun = ImportRun(tree: Tree, calls: seq<seq<string>>, result: Result<ImportReport, Error>)

  function ImportAllSpec(t: Tree, ro: set<Path>, git: GitAnswers, root: Path, config: Config): ImportRun {
    var made := CreateDirAllEffect(t, ro, TreesDir(root));
    if made.error.Some? then ImportRun(made.tree, [], Err(Io(made.error.value)))
    else if git.listing.Err? then ImportRun(made.tree, [ListArgs()], Err(GitFailed(git.listing.error)))
    else
      var wts := Records(git.listing.value);
      RecordsValid(git.listing.value);
      var s := ImportSteps(made.tree, ro, git, root, config, wts);
      ImportRun(s.tree, [ListArgs()] + s.calls, Ok(ReportOf(s.outcomes)))
  }

  /** One listed worktree, in place. */
  method ImportOne(fs: FileSystem, git: GitAnswers, root: Path, config: Config, wt: GitWorktree)
    returns (outcome: Outcome, calls: seq<seq<string>>)
    requires ValidPath(wt.path)
    modifies fs
    ensures Step(fs.nodes, outcome, calls) == ImportOneSpec(old(fs.nodes), fs.readOnly, git, root, config, wt)
  {
    var trees := TreesDir(root);
    if wt.path == root {
      return Skipped(wt.path, MainWorktreeReason), [];
    }
    if IsPrefix(trees, wt.path) {
      return Skipped(wt.path, AlreadyManagedReason), [];
    }
    var baseName := ImportBaseOf(wt.path);
    var dest := UniqueImportPath(fs, trees, baseName);
    calls := [MoveArgs(wt.path, dest)];
    if wt.path in git.moveFailures {
      return MoveFailed(wt.path, "git worktree move failed"), calls;
    }
    fs.Relocate(wt.path, dest);
    var name := NameOf(dest);
    var relinkError: Option<Error>;
    if name == "" {
      relinkError := Some(UnnamedWorktree);
    } else {
      relinkError := Relink(fs, root, name, config);
    }
    return Moved(wt.path, dest, relinkError), calls;
  }

  method ImportAllWorktrees(fs: FileSystem, git: GitAnswers, root: Path, config: Config)
    returns (r: Result<ImportReport, Error>, calls: seq<seq<string>>)
    modifies fs
    ensures ImportRun(fs.nodes, calls, r) == ImportAllSpec(old(fs.nodes), fs.readOnly, git, root, config)
  {
    var trees := TreesDir(root);
    var err := fs.CreateDirAll(trees);
    if err.Some? {
      return Err(Io(err.value)), [];
    }
    calls := [ListArgs()];
    var listed := ListGitWorktrees(git.listing);
    if listed.Err? {
      return Err(GitFailed(listed.error)), calls;
    }
    var worktrees := listed.value;
    RecordsValid(git.listing.value);
    var report, more := ImportListed(fs, git, root, config, worktrees);
    return Ok(report), calls + more;
  }

  /** One turn of the loop of import_all_worktrees: import the i-th listed worktree and record its outcome. */
  method ImportNext(fs: FileSystem, git: GitAnswers, root: Path, config: Config, ghost t0: Tree,
                    worktrees: seq<GitWorktree>, i: nat,
                    report: ImportReport, calls: seq<seq<string>>, ghost outcomes: seq<Outcome>)
    returns (report': ImportReport, calls': seq<seq<string>>, ghost outcomes': seq<Outcome>)
    requires AllValid(worktrees) && i < |worktrees|
    requires ImportState(fs.nodes, outcomes, calls) == ImportSteps(t0, fs.readOnly, git, root, config, worktrees[..i])
    requires report == ReportOf(outcomes)
    modifies fs
    ensures ImportState(fs.nodes, outcomes', calls') == ImportSteps(t0, fs.readOnly, git, root, config, worktrees[..i + 1])
    ensures report' == ReportOf(outcomes')
  {
    var wt := worktrees[i];
    ghost var one := ImportOneSpec(fs.nodes, fs.readOnly, git, root, config, wt);
    ImportStepsPrefix(t0, fs.readOnly, git, root, config, worktrees, i);
    var outcome, more := ImportOne(fs, git, root, config, wt);
    assert outcome == one.outcome && more == one.calls && fs.nodes == one.tree;
    assert ReportOf(outcomes + [outcome]) == Record(report, outcome) by {
      ReportOfAppend(outcomes, outcome);
    }
    report' := Record(report, outcome);
    outcomes' := outcomes + [outcome];
    calls' := calls + more;
  }

  /** The loop of import_all_worktrees over the listed worktrees. */
  method ImportListed(fs: FileSystem, git: GitAnswers, root: Path, config: Config, worktrees: seq<GitWorktree>)
    returns (report: ImportReport, calls: seq<seq<string>>)
    requires AllValid(worktrees)
    modifies fs
    ensures var s := ImportSteps(old(fs.nodes), fs.readOnly, git, root, config, worktrees);
      fs.nodes == s.tree && calls == s.calls && report == ReportOf(s.outcomes)
  {
    report := ImportReport([], [], []);
    ghost var outcomes: seq<Outcome> := [];
    calls := [];
    var i := 0;
    assert worktrees[..0] == [];
    while i < |worktrees|
      invariant 0 <= i <= |worktrees|
      invariant ImportState(fs.nodes, outcomes, calls) == ImportSteps(old(fs.nodes), fs.readOnly, git, root, config, worktrees[..i])
      invariant report == ReportOf(outcomes)
    {
      report, calls, outcomes := ImportNext(fs, git, root, config, old(fs.nodes), worktrees, i, report, calls, outcomes);
      i := i + 1;
    }
    assert worktrees[..i] == worktrees;
  }

  // ---- Properties of the classification ----

  /** How one listed worktree is classified: the tree decides only where a move goes. */
  predicate Classified(o: Outcome, wt: GitWorktree, root: Path, git: GitAnswers) {
    var trees := TreesDir(root);
    o.path == wt.path &&
    (wt.path == root <==> o == Skipped(wt.path, MainWorktreeReason)) &&
    (wt.path != root && IsPrefix(trees, wt.path) <==> o == Skipped(wt.path, AlreadyManagedReason)) &&
    (wt.path != root && !IsPrefix(trees, wt.path) && wt.path in git.moveFailures <==> o.MoveFailed?) &&
    (wt.path != root && !IsPrefix(trees, wt.path) && wt.path !in git.moveFailures <==>
      o.Moved? && IsPrefix(trees, o.to) && |o.to| == |trees| + 1)
  }

  lemma ImportOneClassified(t: Tree, ro: set<Path>, git: GitAnswers, root: Path, config: Config, wt: GitWorktree)
    requires ValidPath(wt.path)
    ensures Classified(ImportOneSpec(t, ro, git, root, config, wt).outcome, wt, root, git)
    ensures var one := ImportOneSpec(t, ro, git, root, config, wt);
      one.outcome.Moved? ==> !Exists(t, one.outcome.to)
  {
    if wt.path != root && !IsPrefix(TreesDir(root), wt.path) {
      if wt.path in git.moveFailures {
        FailedMoveClassified(t, ro, git, root, config, wt);
      } else {
        MovedClassified(t, ro, git, root, config, wt);
      }
    }
  }

  lemma FailedMoveClassified(t: Tree, ro: set<Path>, git: GitAnswers, root: Path, config: Config, wt: GitWorktree)
    requires ValidPath(wt.path)
    requires wt.path != root && !IsPrefix(TreesDir(root), wt.path) && wt.path in git.moveFailures
    ensures ImportOneSpec(t, ro, git, root, config, wt).outcome == MoveFailed(wt.path, "git worktree move failed")
    ensures Classified(ImportOneSpec(t, ro, git, root, config, wt).outcome, wt, root, git)
  {
  }

  /** The destination of an adopted worktree: a free direct child of trees. */
  lemma ImportDestination(t: Tree, root: Path, wt: GitWorktree)
    requires ValidPath(wt.path)
    ensures var trees := TreesDir(root);
      var dest := UniqueImportPathSpec(t, trees, ImportBaseOf(wt.path));
      IsPrefix(trees, dest) && |dest| == |trees| + 1 && !Exists(t, dest)
  {
    var trees := TreesDir(root);
    var base := ImportBaseOf(wt.path);
    assert ValidComponent(base) by {
      if FileName(wt.path).Some? {
        assert base == wt.path[|wt.path| - 1];
      }
    }
    UniqueImportPathIsChild(t, trees, base);
    UniqueImportPathLeast(t, trees, base);
  }

  lemma MovedClassified(t: Tree, ro: set<Path>, git: GitAnswers, root: Path, config: Config, wt: GitWorktree)
    requires ValidPath(wt.path)
    requires wt.path != root && !IsPrefix(TreesDir(root), wt.path) && wt.path !in git.moveFailures
    ensures var o := ImportOneSpec(t, ro, git, root, config, wt).outcome;
      o.Moved? && o.path == wt.path && o.to == UniqueImportPathSpec(t, TreesDir(root), ImportBaseOf(wt.path)) &&
      !Exists(t, o.to)
    ensures Classified(ImportOneSpec(t, ro, git, root, config, wt).outcome, wt, root, git)
  {
    var dest := UniqueImportPathSpec(t, TreesDir(root), ImportBaseOf(wt.path));
    assert IsPrefix(TreesDir(root), dest) && |dest| == |TreesDir(root)| + 1 && !Exists(t, dest) by {
      ImportDestination(t, root, wt);
    }
  }

  /**
   * One outcome per listed worktree, in listing order, each classified by the
   * rules above; a relink error never turns a move into a failure.
   */
  lemma {:induction false} ImportStepsClassified(t: Tree, ro: set<Path>, git: GitAnswers, root: Path, config: Config, wts: seq<GitWorktree>)
    requires AllValid(wts)
    ensures var os := ImportSteps(t, ro, git, root, config, wts).outcomes;
      |os| == |wts| && forall k | 0 <= k < |wts| :: Classified(os[k], wts[k], root, git)
    decreases |wts|
  {
    if wts != [] {
      var init := wts[..|wts| - 1];
      var w := wts[|wts| - 1];
      assert wts == init + [w];
      ImportStepsStep(t, ro, git, root, config, init, w);
      ImportStepsClassified(t, ro, git, root, config, init);
      var s := ImportSteps(t, ro, git, root, config, init);
      ImportOneClassified(s.tree, ro, git, root, config, w);
    }
  }

  /** Every outcome is reported in exactly one of the three lists. */
  lemma {:induction false} ReportCoversAll(os: seq<Outcome>)
    ensures |Moves(os)| + |Skips(os)| + |Failures(os)| == |os|
    decreases |os|
  {
    if os != [] {
      ReportCoversAll(os[..|os| - 1]);
    }
  }

  /** git worktree move runs once for each worktree that is neither the main one nor already managed. */
  lemma {:induction false} ImportMoveCalls(t: Tree, ro: set<Path>, git: GitAnswers, root: Path, config: Config, wts: seq<GitWorktree>)
    requires AllValid(wts)
    ensures var s := ImportSteps(t, ro, git, root, config, wts);
      |s.calls| == |s.outcomes| - |Skips(s.outcomes)|
    decreases |wts|
  {
    if wts != [] {
      var init := wts[..|wts| - 1];
      var w := wts[|wts| - 1];
      assert wts == init + [w];
      ImportStepsStep(t, ro, git, root, config, init, w);
      ImportMoveCalls(t, ro, git, root, config, init);
      var s := ImportSteps(t, ro, git, root, config, init);
      var one := ImportOneSpec(s.tree, ro, git, root, config, w);
      ImportOneCalls(s.tree, ro, git, root, config, w);
      ReportOfAppend(s.outcomes, one.outcome);
    }
  }
}
