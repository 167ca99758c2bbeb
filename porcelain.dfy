/**
 * The parser for the output of `git worktree list --porcelain`
 * (list_git_worktrees). A line "worktree <path>" opens a record; a later
 * line "branch <ref>" names its branch; the record ends at the next
 * "worktree " line or at the end of the input.
 */
module Porcelain {
  import opened Wrappers
  import opened Paths

  /** One working tree as git lists it; branch is "" when none is named (detached). */
  datatype GitWorktree = GitWorktree(path: Path, branch: string)

  const WorktreePrefix: string := "worktree "
  const BranchPrefix: string := "branch "
  const HeadsPrefix: string := "branch refs/heads/"

  predicate StartsWith(s: string, prefix: string) {
    |prefix| <= |s| && s[..|prefix|] == prefix
  }

  predicate IsWorktreeLine(line: string) {
    StartsWith(line, WorktreePrefix)
  }

  predicate IsBranchLine(line: string) {
    StartsWith(line, BranchPrefix)
  }

  function PathOf(line: string): Path
    requires IsWorktreeLine(line)
  {
    Parse(line[|WorktreePrefix|..])
  }

  /** "branch refs/heads/X" names X; any other "branch Y" names Y. */
  function BranchOf(line: string): string
    requires IsBranchLine(line)
  {
    if StartsWith(line, HeadsPrefix) then line[|HeadsPrefix|..] else line[|BranchPrefix|..]
  }

  // ---- The reference reading of a listing ----

  /** The index of the first "worktree " line, or |lines| when there is none. */
  function NextWorktree(lines: seq<string>): (j: nat)
    ensures j <= |lines|
    ensures forall i | 0 <= i < j :: !IsWorktreeLine(lines[i])
    ensures j < |lines| ==> IsWorktreeLine(lines[j])
  {
    if lines == [] || IsWorktreeLine(lines[0]) then 0 else 1 + NextWorktree(lines[1..])
  }

  /** The branch named by the last "branch " line of seg, or dflt when seg has none. */
  function LastBranchOr(seg: seq<string>, dflt: Option<string>): Option<string> {
    if seg == [] then dflt
    else if IsBranchLine(seg[|seg| - 1]) then Some(BranchOf(seg[|seg| - 1]))
    else LastBranchOr(seg[..|seg| - 1], dflt)
  }

  function LastBranch(seg: seq<string>): string {
    LastBranchOr(seg, None).GetOr("")
  }

  /**
   * One record per "worktree " line, in order; each takes its branch from the
   * last "branch " line before the next "worktree " line. Lines before the
   * first "worktree " line are ignored.
   */
  function Records(lines: seq<string>): seq<GitWorktree>
    decreases |lines|
  {
    if lines == [] then []
    else if !IsWorktreeLine(lines[0]) then Records(lines[1..])
    else
      var j := 1 + NextWorktree(lines[1..]);
      [GitWorktree(PathOf(lines[0]), LastBranch(lines[1..j]))] + Records(lines[j..])
  }

  /** The paths of the "worktree " lines, in input order. */
  function WorktreePaths(lines: seq<string>): seq<Path> {
    if lines == [] then []
    else if IsWorktreeLine(lines[0]) then [PathOf(lines[0])] + WorktreePaths(lines[1..])
    else WorktreePaths(lines[1..])
  }

  function RecordPaths(records: seq<GitWorktree>): seq<Path> {
    if records == [] then [] else [records[0].path] + RecordPaths(records[1..])
  }

  // ---- The line-driven state machine of the source ----

  /** The parser's variables between two lines: the records pushed so far and the pending record. */
  datatype ParserState = ParserState(done: seq<GitWorktree>, path: Option<Path>, branch: Option<string>)

  const Start: ParserState := ParserState([], None, None)

  /** The records once the pending one, if any, is pushed. */
  function Flush(st: ParserState): seq<GitWorktree> {
    if st.path.Some? then st.done + [GitWorktree(st.path.value, st.branch.GetOr(""))] else st.done
  }

  function Step(st: ParserState, line: string): ParserState {
    if IsWorktreeLine(line) then ParserState(Flush(st), Some(PathOf(line)), None)
    else if IsBranchLine(line) then st.(branch := Some(BranchOf(line)))
    else st
  }

  function Run(lines: seq<string>, st: ParserState): ParserState
    decreases |lines|
  {
    if lines == [] then st else Run(lines[1..], Step(st, lines[0]))
  }

  /**
   * list_git_worktrees, once git has run: `output` is the listing's lines, or
   * git's diagnostic when the command failed.
   */
  method ListGitWorktrees(output: Result<seq<string>, string>) returns (r: Result<seq<GitWorktree>, string>)
    ensures output.Err? ==> r == Err(output.error)
    ensures output.Ok? ==> r == Ok(Records(output.value))
  {
    if output.Err? {
      return Err(output.error);
    }
    var lines := output.value;
    var worktrees: seq<GitWorktree> := [];
    var currentPath: Option<Path> := None;
    var currentBranch: Option<string> := None;
    var i := 0;
    while i < |lines|
      invariant 0 <= i <= |lines|
      invariant Run(lines[i..], ParserState(worktrees, currentPath, currentBranch)) == Run(lines, Start)
    {
      var line := lines[i];
      assert lines[i..] == [line] + lines[i + 1..];
      if IsWorktreeLine(line) {
        if currentPath.Some? {
          worktrees := worktrees + [GitWorktree(currentPath.value, currentBranch.GetOr(""))];
        }
        currentPath := Some(PathOf(line));
        currentBranch := None;
      } else if IsBranchLine(line) {
        currentBranch := Some(BranchOf(line));
      }
      i := i + 1;
    }
    if currentPath.Some? {
      worktrees := worktrees + [GitWorktree(currentPath.value, currentBranch.GetOr(""))];
    }
    RunMatchesRecords(lines);
    return Ok(worktrees);
  }

  // ---- Lemmas ----

  lemma {:induction false} LastBranchOrFront(line: string, rest: seq<string>, dflt: Option<string>)
    ensures LastBranchOr([line] + rest, dflt) ==
            LastBranchOr(rest, if IsBranchLine(line) then Some(BranchOf(line)) else dflt)
    decreases |rest|
  {
    if rest != [] {
      var s := [line] + rest;
      assert s[|s| - 1] == rest[|rest| - 1];
      assert s[..|s| - 1] == [line] + rest[..|rest| - 1];
      LastBranchOrFront(line, rest[..|rest| - 1], dflt);
    } else {
      assert ([line] + rest)[..0] == [];
    }
  }

  lemma {:induction false} RunFromPending(lines: seq<string>, done: seq<GitWorktree>, path: Path, br: Option<string>)
    ensures var j := NextWorktree(lines);
      Flush(Run(lines, ParserState(done, Some(path), br))) ==
      done + [GitWorktree(path, LastBranchOr(lines[..j], br).GetOr(""))] + Records(lines[j..])
    decreases |lines|, 1
  {
    if lines == [] {
    } else if IsWorktreeLine(lines[0]) {
      PendingMeetsWorktree(lines, done, path, br);
    } else {
      PendingMeetsOther(lines, done, path, br);
    }
  }

  /** A "worktree " line pushes the pending record and opens a new one. */
  lemma {:induction false} PendingMeetsWorktree(lines: seq<string>, done: seq<GitWorktree>, path: Path, br: Option<string>)
    requires lines != [] && IsWorktreeLine(lines[0])
    ensures Flush(Run(lines, ParserState(done, Some(path), br))) ==
      done + [GitWorktree(path, br.GetOr(""))] + Records(lines)
    decreases |lines|, 0
  {
    var l := lines[0];
    var rest := lines[1..];
    var j' := NextWorktree(rest);
    var done' := done + [GitWorktree(path, br.GetOr(""))];
    var a := GitWorktree(PathOf(l), LastBranch(rest[..j']));
    var tail := Records(rest[j'..]);
    assert Run(lines, ParserState(done, Some(path), br)) == Run(rest, ParserState(done', Some(PathOf(l)), None)) by {
      assert Step(ParserState(done, Some(path), br), l) == ParserState(done', Some(PathOf(l)), None);
    }
    assert Records(lines) == [a] + tail by {
      assert rest[..j'] == lines[1..1 + j'];
      assert rest[j'..] == lines[1 + j'..];
    }
    assert Flush(Run(rest, ParserState(done', Some(PathOf(l)), None))) == done' + [a] + tail by {
      RunFromPending(rest, done', PathOf(l), None);
    }
    assert done' + [a] + tail == done + [GitWorktree(path, br.GetOr(""))] + ([a] + tail);
  }

  /** Any other line leaves the pending record open, a "branch " line renaming its branch. */
  lemma {:induction false} PendingMeetsOther(lines: seq<string>, done: seq<GitWorktree>, path: Path, br: Option<string>)
    requires lines != [] && !IsWorktreeLine(lines[0])
    ensures var j := NextWorktree(lines);
      Flush(Run(lines, ParserState(done, Some(path), br))) ==
      done + [GitWorktree(path, LastBranchOr(lines[..j], br).GetOr(""))] + Records(lines[j..])
    decreases |lines|, 0
  {
    var st := ParserState(done, Some(path), br);
    var l := lines[0];
    var rest := lines[1..];
    var j' := NextWorktree(rest);
    var br' := if IsBranchLine(l) then Some(BranchOf(l)) else br;
    var j := NextWorktree(lines);
    assert j == 1 + j';
    assert Run(lines, st) == Run(rest, ParserState(done, Some(path), br')) by {
      assert Step(st, l) == ParserState(done, Some(path), br');
    }
    assert LastBranchOr(lines[..j], br) == LastBranchOr(rest[..j'], br') by {
      assert lines[..j] == [l] + rest[..j'];
      LastBranchOrFront(l, rest[..j'], br);
    }
    assert lines[j..] == rest[j'..];
    assert Flush(Run(rest, ParserState(done, Some(path), br'))) ==
      done + [GitWorktree(path, LastBranchOr(rest[..j'], br').GetOr(""))] + Records(rest[j'..]) by {
      RunFromPending(rest, done, path, br');
    }
  }

  lemma {:induction false} RunFromIdle(lines: seq<string>, done: seq<GitWorktree>, br: Option<string>)
    ensures Flush(Run(lines, ParserState(done, None, br))) == done + Records(lines)
    decreases |lines|
  {
    var st := ParserState(done, None, br);
    if lines != [] {
      var l := lines[0];
      var rest := lines[1..];
      if IsWorktreeLine(l) {
        var j' := NextWorktree(rest);
        var a := GitWorktree(PathOf(l), LastBranch(rest[..j']));
        var tail := Records(rest[j'..]);
        assert Run(lines, st) == Run(rest, ParserState(done, Some(PathOf(l)), None)) by {
          assert Step(st, l) == ParserState(done, Some(PathOf(l)), None);
        }
        assert Records(lines) == [a] + tail by {
          assert rest[..j'] == lines[1..1 + j'];
          assert rest[j'..] == lines[1 + j'..];
        }
        assert Flush(Run(rest, ParserState(done, Some(PathOf(l)), None))) == done + [a] + tail by {
          RunFromPending(rest, done, PathOf(l), None);
        }
        assert done + [a] + tail == done + ([a] + tail);
      } else {
        var br' := if IsBranchLine(l) then Some(BranchOf(l)) else br;
        assert Run(lines, st) == Run(rest, ParserState(done, None, br')) by {
          assert Step(st, l) == ParserState(done, None, br');
        }
        assert Records(lines) == Records(rest);
        assert Flush(Run(rest, ParserState(done, None, br'))) == done + Records(rest) by {
          RunFromIdle(rest, done, br');
        }
      }
    }
  }

  /** The state machine, flushed after the last line, yields exactly the reference records. */
  lemma RunMatchesRecords(lines: seq<string>)
    ensures Flush(Run(lines, Start)) == Records(lines)
  {
    RunFromIdle(lines, [], None);
  }

  lemma {:induction false} WorktreePathsSkip(lines: seq<string>, j: nat)
    requires j <= |lines|
    requires forall i | 0 <= i < j :: !IsWorktreeLine(lines[i])
    ensures WorktreePaths(lines) == WorktreePaths(lines[j..])
  {
    if j > 0 {
      WorktreePathsSkip(lines[1..], j - 1);
      assert lines[1..][j - 1..] == lines[j..];
    }
  }

  /** Exactly one record per "worktree " line, in input order: the last record is never dropped. */
  lemma {:induction false} RecordsFollowWorktreeLines(lines: seq<string>)
    ensures RecordPaths(Records(lines)) == WorktreePaths(lines)
    ensures |Records(lines)| == |WorktreePaths(lines)|
    decreases |lines|
  {
    if lines != [] {
      if !IsWorktreeLine(lines[0]) {
        RecordsFollowWorktreeLines(lines[1..]);
      } else {
        var j := 1 + NextWorktree(lines[1..]);
        RecordsFollowWorktreeLines(lines[j..]);
        WorktreePathsSkip(lines[1..], j - 1);
        assert lines[1..][j - 1..] == lines[j..];
        var recs := Records(lines);
        assert recs[1..] == Records(lines[j..]);
      }
    }
  }

  /** Lines before the first "worktree " line, branch lines among them, have no effect. */
  lemma {:induction false} LeadingLinesIgnored(pre: seq<string>, rest: seq<string>)
    requires forall i | 0 <= i < |pre| :: !IsWorktreeLine(pre[i])
    ensures Records(pre + rest) == Records(rest)
    decreases |pre|
  {
    if pre != [] {
      assert (pre + rest)[1..] == pre[1..] + rest;
      assert (pre + rest)[0] == pre[0];
      assert !IsWorktreeLine(pre[0]);
      LeadingLinesIgnored(pre[1..], rest);
      assert Records(pre + rest) == Records(pre[1..] + rest);
    } else {
      assert pre + rest == rest;
    }
  }

  /** A record with no "branch " line in its segment has the empty branch (detached HEAD). */
  lemma {:induction false} NoBranchLineMeansDetached(seg: seq<string>)
    requires forall i | 0 <= i < |seg| :: !IsBranchLine(seg[i])
    ensures LastBranch(seg) == ""
    decreases |seg|
  {
    if seg != [] {
      NoBranchLineMeansDetached(seg[..|seg| - 1]);
    }
  }

  /** Every listed path consists of proper components. */
  lemma {:induction false} RecordsValid(lines: seq<string>)
    ensures forall k | 0 <= k < |Records(lines)| :: ValidPath(Records(lines)[k].path)
    decreases |lines|
  {
    if lines != [] {
      if !IsWorktreeLine(lines[0]) {
        RecordsValid(lines[1..]);
      } else {
        var j := 1 + NextWorktree(lines[1..]);
        RecordsValid(lines[j..]);
        ParseValid(lines[0][|WorktreePrefix|..]);
      }
    }
  }
}
