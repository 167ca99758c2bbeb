/**
 * The post-processing of list_ignored_files: of git's list of ignored,
 * untracked paths keep the non-empty ones at the top level (no '/'), then
 * sort them and drop repeats.
 */
module Ignored {
  import opened Wrappers
  import opened Git

  /** A line list_ignored_files keeps: non-empty and free of '/'. */
  predicate IsTopLevelName(line: string) {
    line != "" && '/' !in line
  }

  /** The order of Rust's String: lexicographic by character. */
  predicate LexLess(a: string, b: string)
    decreases |a|
  {
    if a == [] then b != []
    else if b == [] then false
    else if a[0] != b[0] then a[0] < b[0]
    else LexLess(a[1..], b[1..])
  }

  predicate LexLe(a: string, b: string) {
    a == b || LexLess(a, b)
  }

  lemma {:induction false} LexIrreflexive(a: string)
    ensures !LexLess(a, a)
    decreases |a|
  {
    if a != [] {
      LexIrreflexive(a[1..]);
    }
  }

  lemma {:induction false} LexTransitive(a: string, b: string, c: string)
    requires LexLess(a, b) && LexLess(b, c)
    ensures LexLess(a, c)
    decreases |a|
  {
    if a != [] && a[0] == b[0] && b[0] == c[0] {
      LexTransitive(a[1..], b[1..], c[1..]);
    }
  }

  lemma {:induction false} LexTotal(a: string, b: string)
    ensures a == b || LexLess(a, b) || LexLess(b, a)
    decreases |a|
  {
    if a != [] && b != [] && a[0] == b[0] {
      LexTotal(a[1..], b[1..]);
      if a[1..] == b[1..] {
        assert a == [a[0]] + a[1..] && b == [b[0]] + b[1..];
      }
    }
  }

  lemma LexLeTransitive(a: string, b: string, c: string)
    requires LexLe(a, b) && LexLe(b, c)
    ensures LexLe(a, c)
  {
    if LexLess(a, b) && LexLess(b, c) {
      LexTransitive(a, b, c);
    }
  }

  predicate Sorted(s: seq<string>) {
    forall i, j | 0 <= i < j < |s| :: LexLe(s[i], s[j])
  }

  predicate StrictlySorted(s: seq<string>) {
    forall i, j | 0 <= i < j < |s| :: LexLess(s[i], s[j])
  }

  // ---- Vec::sort ----

  function Insert(x: string, s: seq<string>): seq<string> {
    if s == [] then [x]
    else if LexLe(x, s[0]) then [x] + s
    else [s[0]] + Insert(x, s[1..])
  }

  function Sort(s: seq<string>): seq<string> {
    if s == [] then [] else Insert(s[0], Sort(s[1..]))
  }

  lemma {:induction false} InsertCounts(x: string, s: seq<string>)
    ensures multiset(Insert(x, s)) == multiset(s) + multiset{x}
    decreases |s|
  {
    if s != [] && !LexLe(x, s[0]) {
      InsertCounts(x, s[1..]);
      assert s == [s[0]] + s[1..];
    }
  }

  /** Every element Insert places before the end is bounded below by a common bound of x and s. */
  lemma {:induction false} InsertBounded(b: string, x: string, s: seq<string>)
    requires LexLe(b, x) && forall k | 0 <= k < |s| :: LexLe(b, s[k])
    ensures forall k | 0 <= k < |Insert(x, s)| :: LexLe(b, Insert(x, s)[k])
    decreases |s|
  {
    if s != [] && !LexLe(x, s[0]) {
      InsertBounded(b, x, s[1..]);
      var tail := Insert(x, s[1..]);
      forall k | 0 <= k < |Insert(x, s)| ensures LexLe(b, Insert(x, s)[k]) {
        if k > 0 {
          assert Insert(x, s)[k] == tail[k - 1];
        }
      }
    }
  }

  lemma {:induction false} InsertSorted(x: string, s: seq<string>)
    requires Sorted(s)
    ensures Sorted(Insert(x, s))
    decreases |s|, 1
  {
    if s != [] {
      if LexLe(x, s[0]) {
        InsertFrontSorted(x, s);
      } else {
        InsertLaterSorted(x, s);
      }
    }
  }

  /** x goes in front of a sorted list whose head it does not exceed. */
  lemma InsertFrontSorted(x: string, s: seq<string>)
    requires Sorted(s) && s != [] && LexLe(x, s[0])
    ensures Sorted(Insert(x, s))
  {
    var r := Insert(x, s);
    assert r == [x] + s;
    forall i, j | 0 <= i < j < |r| ensures LexLe(r[i], r[j]) {
      assert r[j] == s[j - 1];
      if i == 0 {
        assert r[i] == x;
        if j > 1 {
          assert LexLe(s[0], s[j - 1]);
          LexLeTransitive(x, s[0], s[j - 1]);
        }
      } else {
        assert r[i] == s[i - 1];
        assert LexLe(s[i - 1], s[j - 1]);
      }
    }
  }

  /** x goes behind the head of a sorted list whose head is below it. */
  lemma {:induction false} InsertLaterSorted(x: string, s: seq<string>)
    requires Sorted(s) && s != [] && !LexLe(x, s[0])
    ensures Sorted(Insert(x, s))
    decreases |s|, 0
  {
    var r := Insert(x, s);
    var tail := Insert(x, s[1..]);
    assert r == [s[0]] + tail;
    assert Sorted(tail) by {
      assert Sorted(s[1..]);
      InsertSorted(x, s[1..]);
    }
    assert forall k | 0 <= k < |tail| :: LexLe(s[0], tail[k]) by {
      LexTotal(x, s[0]);
      InsertBounded(s[0], x, s[1..]);
    }
    forall i, j | 0 <= i < j < |r| ensures LexLe(r[i], r[j]) {
      assert r[j] == tail[j - 1];
      if i > 0 {
        assert r[i] == tail[i - 1];
      }
    }
  }

  lemma {:induction false} SortSorted(s: seq<string>)
    ensures Sorted(Sort(s))
    decreases |s|
  {
    if s != [] {
      SortSorted(s[1..]);
      InsertSorted(s[0], Sort(s[1..]));
    }
  }

  lemma {:induction false} SortCounts(s: seq<string>)
    ensures multiset(Sort(s)) == multiset(s)
    decreases |s|
  {
    if s != [] {
      SortCounts(s[1..]);
      InsertCounts(s[0], Sort(s[1..]));
      assert s == [s[0]] + s[1..];
    }
  }

  /** Sorting orders the list and keeps every element as often as it was there. */
  lemma SortSpec(s: seq<string>)
    ensures Sorted(Sort(s)) && multiset(Sort(s)) == multiset(s)
  {
    SortSorted(s);
    SortCounts(s);
  }

  // ---- Vec::dedup ----

  /** Drops every element equal to the one before it. */
  function Dedup(s: seq<string>): seq<string> {
    if |s| <= 1 then s
    else if s[0] == s[1] then Dedup(s[1..])
    else [s[0]] + Dedup(s[1..])
  }

  lemma {:induction false} DedupSpec(s: seq<string>)
    ensures forall x :: x in Dedup(s) <==> x in s
    ensures s != [] ==> Dedup(s) != [] && Dedup(s)[0] == s[0]
    ensures Sorted(s) ==> StrictlySorted(Dedup(s))
    decreases |s|
  {
    if |s| > 1 {
      DedupSpec(s[1..]);
      var d := Dedup(s[1..]);
      assert s == [s[0]] + s[1..];
      if Sorted(s) {
        assert Sorted(s[1..]) by {
          forall i, j | 0 <= i < j < |s[1..]| ensures LexLe(s[1..][i], s[1..][j]) {
            assert s[1..][i] == s[i + 1] && s[1..][j] == s[j + 1];
          }
        }
        if s[0] != s[1] {
          var r := Dedup(s);
          assert r == [s[0]] + d;
          assert LexLess(s[0], s[1]);
          forall k | 0 <= k < |d| ensures LexLess(s[0], d[k]) {
            assert d[k] in s[1..];
            var m :| 0 <= m < |s[1..]| && s[1..][m] == d[k];
            if m > 0 {
              assert LexLe(s[1], s[m + 1]);
              if LexLess(s[1], s[m + 1]) {
                LexTransitive(s[0], s[1], s[m + 1]);
              }
            }
          }
          forall i, j | 0 <= i < j < |r| ensures LexLess(r[i], r[j]) {
            if i > 0 {
              assert r[i] == d[i - 1] && r[j] == d[j - 1];
            } else {
              assert r[j] == d[j - 1];
            }
          }
        }
      }
    }
  }

  /** list_ignored_files: ask git for the ignored, untracked paths, then filter, sort and dedup them. */
  method ListIgnoredFiles(git: GitAnswers) returns (r: Result<seq<string>, string>, calls: seq<seq<string>>)
    ensures calls == [LsIgnoredArgs()]
    ensures git.ignored.Err? ==> r == Err(git.ignored.error)
    ensures git.ignored.Ok? ==> r.Ok? && StrictlySorted(r.value)
    ensures git.ignored.Ok? ==> r.Ok? && (forall x :: x in r.value <==> x in git.ignored.value && IsTopLevelName(x))
  {
    calls := [LsIgnoredArgs()];
    var output := git.ignored;
    if output.Err? {
      return Err(output.error), calls;
    }
    var lines := output.value;
    var files: seq<string> := [];
    var i := 0;
    while i < |lines|
      invariant 0 <= i <= |lines|
      invariant forall x :: x in files <==> x in lines[..i] && IsTopLevelName(x)
    {
      assert lines[..i + 1] == lines[..i] + [lines[i]];
      if lines[i] != "" && '/' !in lines[i] {
        files := files + [lines[i]];
      }
      i := i + 1;
    }
    assert lines[..i] == lines;
    var sorted := Sort(files);
    SortSpec(files);
    assert forall x :: x in sorted <==> x in files by {
      forall x ensures x in sorted <==> x in files {
        assert x in sorted <==> x in multiset(sorted);
        assert x in files <==> x in multiset(files);
      }
    }
    var deduped := Dedup(sorted);
    DedupSpec(sorted);
    return Ok(deduped), calls;
  }
}
