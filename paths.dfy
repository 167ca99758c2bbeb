/**
 * Paths as sequences of components, the way std::path::Path::components
 * sees them. The root directory is the empty sequence; every path the
 * model handles is absolute.
 */
module Paths {
  import opened Wrappers

  type Path = seq<string>

  /** Path::starts_with: a component-wise prefix, not a string prefix. */
  predicate IsPrefix(p: Path, q: Path) {
    |p| <= |q| && q[..|p|] == p
  }

  /** Path::parent: None for the root. */
  function Parent(p: Path): Option<Path> {
    if p == [] then None else Some(p[..|p| - 1])
  }

  /** Path::file_name: the last component; None for the root or a path ending in "..". */
  function FileName(p: Path): Option<string> {
    if p == [] || p[|p| - 1] == ".." then None else Some(p[|p| - 1])
  }

  /** A component as Path::components yields it: non-empty, not ".", no separator. */
  predicate ValidComponent(c: string) {
    c != "" && c != "." && '/' !in c
  }

  predicate ValidPath(p: Path) {
    forall i | 0 <= i < |p| :: ValidComponent(p[i])
  }

  /** The pieces of s between separators ('/'); there is always at least one. */
  function Split(s: string): (parts: seq<string>)
    ensures |parts| >= 1
    decreases |s|
  {
    if s == [] then [""]
    else
      var rest := Split(s[1..]);
      if s[0] == '/' then [""] + rest else [[s[0]] + rest[0]] + rest[1..]
  }

  /** Drops the empty pieces (repeated or trailing separators) and "." pieces. */
  function Components(parts: seq<string>): Path {
    if parts == [] then []
    else if parts[0] == "" || parts[0] == "." then Components(parts[1..])
    else [parts[0]] + Components(parts[1..])
  }

  /** PathBuf::from(s), seen through its components. */
  function Parse(s: string): Path {
    Components(Split(s))
  }

  /** A path string that starts at the root, as Path::is_absolute sees it on Unix. */
  predicate IsAbsolute(s: string) {
    s != [] && s[0] == '/'
  }

  /** Path::join: an absolute argument replaces p; a relative one is appended to it. */
  function Join(p: Path, rel: string): Path {
    if IsAbsolute(rel) then Parse(rel) else p + Parse(rel)
  }

  /** Path::display for an absolute path. */
  function Render(p: Path): string {
    if p == [] then "/" else RenderFrom(p)
  }

  function RenderFrom(p: Path): string {
    if p == [] then "" else "/" + p[0] + RenderFrom(p[1..])
  }

  lemma {:induction false} SplitNoSeparator(s: string)
    ensures forall i | 0 <= i < |Split(s)| :: '/' !in Split(s)[i]
    decreases |s|
  {
    if s != [] {
      SplitNoSeparator(s[1..]);
    }
  }

  lemma {:induction false} ComponentsValid(parts: seq<string>)
    requires forall i | 0 <= i < |parts| :: '/' !in parts[i]
    ensures ValidPath(Components(parts))
  {
    if parts != [] {
      ComponentsValid(parts[1..]);
    }
  }

  /** Every component Parse yields is a proper component. */
  lemma ParseValid(s: string)
    ensures ValidPath(Parse(s))
  {
    SplitNoSeparator(s);
    ComponentsValid(Split(s));
  }

  lemma {:induction false} SplitPrefix(c: string, t: string)
    requires '/' !in c
    ensures Split(c + t) == [c + Split(t)[0]] + Split(t)[1..]
  {
    if c == [] {
      assert c + t == t;
      assert c + Split(t)[0] == Split(t)[0];
      assert Split(t) == [Split(t)[0]] + Split(t)[1..];
    } else {
      assert (c + t)[1..] == c[1..] + t;
      assert (c + t)[0] == c[0] && c[0] != '/';
      SplitPrefix(c[1..], t);
      assert [c[0]] + (c[1..] + Split(t)[0]) == c + Split(t)[0];
    }
  }

  lemma {:induction false} SplitRenderFrom(p: Path)
    requires ValidPath(p)
    ensures Split(RenderFrom(p)) == [""] + p
  {
    if p != [] {
      var tail := RenderFrom(p[1..]);
      SplitRenderFrom(p[1..]);
      assert RenderFrom(p) == "/" + (p[0] + tail);
      assert ("/" + (p[0] + tail))[1..] == p[0] + tail;
      SplitPrefix(p[0], tail);
      assert p[0] + "" == p[0];
      assert [""] + p == [""] + ([p[0]] + p[1..]);
    }
  }

  lemma {:induction false} ComponentsOfValid(p: Path)
    requires ValidPath(p)
    ensures Components(p) == p
  {
    if p != [] {
      ComponentsOfValid(p[1..]);
    }
  }

  /** Displaying a path and parsing the text back gives the same components. */
  lemma ParseRender(p: Path)
    requires ValidPath(p)
    ensures Parse(Render(p)) == p
  {
    if p == [] {
      assert Split("/") == ["", ""];
    } else {
      SplitRenderFrom(p);
      ComponentsOfValid(p);
    }
  }

  /** A single proper component parses to itself, and joining it appends it. */
  lemma ParseComponent(name: string)
    requires ValidComponent(name)
    ensures Parse(name) == [name] && !IsAbsolute(name)
    ensures forall p: Path :: Join(p, name) == p + [name]
  {
    assert name[0] in name;
    SplitPrefix(name, "");
    assert name + "" == name;
    assert Split("") == [""];
    assert Split(name) == [name];
    assert Components([name]) == [name] + Components([]);
  }

  /** Two prefixes of one path are prefixes of each other, one way or the other. */
  lemma PrefixesComparable(p: Path, q: Path, r: Path)
    ensures IsPrefix(p, r) && IsPrefix(q, r) ==> IsPrefix(p, q) || IsPrefix(q, p)
  {
    if IsPrefix(p, r) && IsPrefix(q, r) {
      if |p| <= |q| {
        assert q[..|p|] == r[..|p|];
      } else {
        assert p[..|q|] == r[..|q|];
      }
    }
  }

  lemma PrefixTransitive(p: Path, q: Path, r: Path)
    ensures IsPrefix(p, q) && IsPrefix(q, r) ==> IsPrefix(p, r)
  {
    if IsPrefix(p, q) && IsPrefix(q, r) {
      assert r[..|p|] == r[..|q|][..|p|];
    }
  }

  /** "/c" followed by the rest of an absolute path parses to c and the rest's components. */
  lemma ParseLeadingComponent(c: string, rest: string)
    requires ValidComponent(c) && (rest == [] || rest[0] == '/')
    ensures Parse("/" + c + rest) == [c] + Parse(rest)
  {
    assert ("/" + c + rest)[1..] == c + rest;
    SplitPrefix(c, rest);
    if rest == [] {
      assert c + rest == c && c + "" == c && "/" + c + rest == "/" + c;
      assert Split("") == [""] && Split(c) == [c];
      assert Split("/" + c) == ["", c];
      assert Components(["", c]) == [c] + Components([]);
    } else {
      var x := Split(rest[1..]);
      assert Split(rest) == [""] + x;
      assert Split(c + rest) == [c] + x by {
        assert c + "" == c;
      }
      var whole := [""] + ([c] + x);
      assert Split("/" + c + rest) == whole;
      assert whole[1..] == [c] + x && ([c] + x)[1..] == x;
      assert Components(whole) == [c] + Components(x);
      assert (([""] + x)[1..]) == x;
    }
  }

  /** The displayed form of a non-root path starts at the root and ends with its last component. */
  lemma {:induction false} RenderEnds(p: Path)
    requires p != [] && ValidPath(p)
    ensures |Render(p)| > 0 && Render(p)[0] == '/'
    ensures Render(p)[|Render(p)| - 1] == p[|p| - 1][|p[|p| - 1]| - 1]
    decreases |p|
  {
    var tail := RenderFrom(p[1..]);
    assert Render(p) == "/" + p[0] + tail;
    if p[1..] != [] {
      RenderEnds(p[1..]);
      assert Render(p[1..]) == tail;
    }
  }
}
