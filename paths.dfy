/**
 * The posix path operations the library uses on archive member names
 * (`posixpath.dirname`, `join`, `normpath` and `os.path.relpath` on a posix system),
 * computed over the list of '/'-separated segments.
 */
module Paths {
  import opened Wrappers
  import opened Strings

  /** `p.split('/')`: never empty, and no segment contains '/'. */
  function Split(p: string): (r: seq<string>)
    ensures |r| >= 1
    ensures forall i :: 0 <= i < |r| ==> '/' !in r[i]
  {
    if p == [] then [""]
    else
      var rest := Split(p[1..]);
      if p[0] == '/' then [""] + rest
      else [[p[0]] + rest[0]] + rest[1..]
  }

  /** `'/'.join(segs)`. */
  function JoinSegs(segs: seq<string>): string {
    JoinWith("/", segs)
  }

  function Repeat<T>(x: T, n: nat): (r: seq<T>)
    ensures |r| == n && forall i :: 0 <= i < n ==> r[i] == x
  {
    if n == 0 then [] else [x] + Repeat(x, n - 1)
  }

  /** A segment that normalisation keeps as it is. */
  predicate PlainSegment(s: string) { s != "" && s != "." && s != ".." }

  /**
   * A relative path of plain segments: no leading, trailing or doubled '/', no '.' or '..'.
   * Member names such as `Text/chap1.xhtml` are of this form.
   */
  predicate Plain(p: string) {
    forall i :: 0 <= i < |Split(p)| ==> PlainSegment(Split(p)[i])
  }

  /** `posixpath.dirname(p)`: everything before the last '/', trailing slashes stripped unless it is all slashes. */
  function Dirname(p: string): string {
    var segs := Split(p);
    if |segs| == 1 then ""
    else
      var init := segs[..|segs| - 1];
      if forall i :: 0 <= i < |init| ==> init[i] == "" then Repeat('/', |init|)
      else JoinSegs(DropTrailingEmpty(init))
  }

  function DropTrailingEmpty(segs: seq<string>): seq<string> {
    if segs != [] && segs[|segs| - 1] == "" then DropTrailingEmpty(segs[..|segs| - 1]) else segs
  }

  /** `posixpath.join(a, b)`. */
  function Join(a: string, b: string): string {
    if StartsWith(b, "/") then b
    else if a == "" || a[|a| - 1] == '/' then a + b
    else a + "/" + b
  }

  /** The loop of `posixpath.normpath` over the segments, `acc` being the segments kept so far. */
  function NormSegs(acc: seq<string>, comps: seq<string>, rooted: bool): seq<string>
    decreases |comps|
  {
    if comps == [] then acc
    else
      var c := comps[0];
      var acc' :=
        if c == "" || c == "." then acc
        else if c != ".." || (!rooted && acc == []) || (acc != [] && acc[|acc| - 1] == "..") then acc + [c]
        else if acc != [] then acc[..|acc| - 1]
        else acc;
      NormSegs(acc', comps[1..], rooted)
  }

  /** `posixpath.normpath(p)`. */
  function Normpath(p: string): string {
    if p == "" then "."
    else
      var slashes := if StartsWith(p, "//") && !StartsWith(p, "///") then 2 else if StartsWith(p, "/") then 1 else 0;
      var path := Repeat('/', slashes) + JoinSegs(NormSegs([], Split(p), slashes > 0));
      if path == "" then "." else path
  }

  /** `posixpath.abspath(p)` with `cwd` standing for the process's working directory. */
  function Abspath(p: string, cwd: string): string {
    Normpath(if StartsWith(p, "/") then p else Join(cwd, p))
  }

  function NonEmpty(segs: seq<string>): (r: seq<string>)
    ensures forall i :: 0 <= i < |r| ==> r[i] != ""
  {
    if segs == [] then []
    else if segs[0] == "" then NonEmpty(segs[1..])
    else [segs[0]] + NonEmpty(segs[1..])
  }

  function CommonPrefix(a: seq<string>, b: seq<string>): (n: nat)
    ensures n <= |a| && n <= |b| && a[..n] == b[..n]
    ensures n < |a| && n < |b| ==> a[n] != b[n]
  {
    if a == [] || b == [] || a[0] != b[0] then 0
    else
      var n := 1 + CommonPrefix(a[1..], b[1..]);
      assert a[..n] == a[..1] + a[1..][..n - 1];
      assert b[..n] == b[..1] + b[1..][..n - 1];
      n
  }

  /**
   * `os.path.relpath(path, start)`: the route from `start` to `path`, climbing with `..`;
   * an empty `path` is a ValueError.
   */
  function Relpath(path: string, start: string, cwd: string): Result<string> {
    if path == "" then Err(ValueError("no path specified"))
    else Ok(Route(NonEmpty(Split(Abspath(start, cwd))), NonEmpty(Split(Abspath(path, cwd)))))
  }

  /** The route between two absolute paths given by their segments. */
  function Route(startSegs: seq<string>, pathSegs: seq<string>): string {
    var i := CommonPrefix(startSegs, pathSegs);
    var rel := Repeat("..", |startSegs| - i) + pathSegs[i..];
    if rel == [] then "." else JoinSegs(rel)
  }

  // ---------------------------------------------------------------------------
  // Splitting and joining

  lemma {:induction false} SplitNoSlash(s: string)
    requires '/' !in s
    ensures Split(s) == [s]
  {
    if s != [] {
      SplitNoSlash(s[1..]);
      assert [s[0]] + s[1..] == s;
    }
  }

  /** Splitting distributes over a '/' between two parts. */
  lemma {:induction false} SplitAppend(a: string, b: string)
    ensures Split(a + "/" + b) == Split(a) + Split(b)
  {
    if a == [] {
      assert a + "/" + b == "/" + b;
      assert ("/" + b)[1..] == b;
    } else {
      assert (a + "/" + b)[1..] == a[1..] + "/" + b;
      SplitAppend(a[1..], b);
    }
  }

  /** Joining the segments of a path gives the path back. */
  lemma {:induction false} JoinSplit(p: string)
    ensures JoinSegs(Split(p)) == p
  {
    if p != [] {
      JoinSplit(p[1..]);
      var rest := Split(p[1..]);
      if p[0] == '/' {
        assert ([""] + rest)[1..] == rest;
      } else if |rest| > 1 {
        var r := [[p[0]] + rest[0]] + rest[1..];
        assert r[1..] == rest[1..];
        assert JoinSegs(rest) == rest[0] + "/" + JoinSegs(rest[1..]);
      }
    }
  }

  /** Splitting the join of '/'-free segments gives the segments back. */
  lemma {:induction false} SplitJoin(segs: seq<string>)
    requires |segs| >= 1
    requires forall i :: 0 <= i < |segs| ==> '/' !in segs[i]
    ensures Split(JoinSegs(segs)) == segs
  {
    if |segs| == 1 {
      SplitNoSlash(segs[0]);
    } else {
      SplitJoin(segs[1..]);
      SplitNoSlash(segs[0]);
      SplitAppend(segs[0], JoinSegs(segs[1..]));
    }
  }

  lemma JoinSegsFirst(segs: seq<string>)
    requires |segs| >= 1 && segs[0] != ""
    ensures JoinSegs(segs) != "" && JoinSegs(segs)[0] == segs[0][0]
  {
  }

  lemma {:induction false} JoinSegsLast(segs: seq<string>)
    requires |segs| >= 1 && segs[|segs| - 1] != ""
    ensures JoinSegs(segs) != "" && JoinSegs(segs)[|JoinSegs(segs)| - 1] == segs[|segs| - 1][|segs[|segs| - 1]| - 1]
  {
    if |segs| > 1 {
      JoinSegsLast(segs[1..]);
    }
  }

  // ---------------------------------------------------------------------------
  // Normalisation

  lemma {:induction false} NormSegsAppend(acc: seq<string>, a: seq<string>, b: seq<string>, rooted: bool)
    ensures NormSegs(acc, a + b, rooted) == NormSegs(NormSegs(acc, a, rooted), b, rooted)
    decreases |a|
  {
    if a != [] {
      assert (a + b)[0] == a[0] && (a + b)[1..] == a[1..] + b;
      var c := a[0];
      var acc' :=
        if c == "" || c == "." then acc
        else if c != ".." || (!rooted && acc == []) || (acc != [] && acc[|acc| - 1] == "..") then acc + [c]
        else if acc != [] then acc[..|acc| - 1]
        else acc;
      NormSegsAppend(acc', a[1..], b, rooted);
    } else {
      assert a + b == b;
    }
  }

  /** Plain segments are kept as they are. */
  lemma {:induction false} NormSegsPlain(acc: seq<string>, segs: seq<string>, rooted: bool)
    requires forall i :: 0 <= i < |segs| ==> PlainSegment(segs[i])
    ensures NormSegs(acc, segs, rooted) == acc + segs
    decreases |segs|
  {
    if segs != [] {
      NormSegsPlain(acc + [segs[0]], segs[1..], rooted);
      assert acc + [segs[0]] + segs[1..] == acc + segs;
    }
  }

  /** Each `..` removes the last plain segment kept so far. */
  lemma {:induction false} NormSegsClimb(acc: seq<string>, m: nat, rooted: bool)
    requires m <= |acc|
    requires forall i :: 0 <= i < |acc| ==> PlainSegment(acc[i])
    ensures NormSegs(acc, Repeat("..", m), rooted) == acc[..|acc| - m]
    decreases m
  {
    if m > 0 {
      assert Repeat("..", m)[0] == ".." && Repeat("..", m)[1..] == Repeat("..", m - 1);
      NormSegsClimb(acc[..|acc| - 1], m - 1, rooted);
      assert acc[..|acc| - 1][..|acc| - 1 - (m - 1)] == acc[..|acc| - m];
    } else {
      assert acc[..|acc|] == acc;
    }
  }

  /** A plain relative path is already normal. */
  lemma NormpathPlain(p: string)
    requires p != "" && Plain(p)
    ensures Normpath(p) == p
  {
    var segs := Split(p);
    assert segs[0] != "";
    assert !StartsWith(p, "/") by {
      JoinSplit(p);
      JoinSegsFirst(segs);
    }
    NormSegsPlain([], segs, false);
    assert [] + segs == segs;
    JoinSplit(p);
  }

  // ---------------------------------------------------------------------------
  // The route from a directory to a file and back

  /** An absolute working directory: the root or '/' followed by a plain path. */
  predicate AbsoluteDir(cwd: string) {
    cwd == "/" || (StartsWith(cwd, "/") && cwd[1..] != "" && Plain(cwd[1..]))
  }

  /** The segments of a working directory. */
  function CwdSegs(cwd: string): seq<string>
    requires AbsoluteDir(cwd)
  {
    if cwd == "/" then [] else Split(cwd[1..])
  }

  lemma {:induction false} NonEmptyPlain(segs: seq<string>)
    requires forall i :: 0 <= i < |segs| ==> PlainSegment(segs[i])
    ensures NonEmpty(segs) == segs
  {
    if segs != [] {
      NonEmptyPlain(segs[1..]);
    }
  }

  lemma {:induction false} NonEmptyAppend(a: seq<string>, b: seq<string>)
    ensures NonEmpty(a + b) == NonEmpty(a) + NonEmpty(b)
  {
    if a != [] {
      assert (a + b)[1..] == a[1..] + b;
      NonEmptyAppend(a[1..], b);
    } else {
      assert a + b == b;
    }
  }

  /** A plain path neither starts nor ends with '/'. */
  lemma PlainEnds(p: string)
    requires p != "" && Plain(p)
    ensures p[0] != '/' && p[|p| - 1] != '/'
  {
    JoinSplit(p);
    JoinSegsFirst(Split(p));
    JoinSegsLast(Split(p));
  }

  /** `Join` puts a single '/' between a directory that does not end in one and a relative path. */
  lemma JoinSlash(a: string, b: string)
    requires a != "" && a[|a| - 1] != '/'
    requires b == "" || b[0] != '/'
    ensures Join(a, b) == a + "/" + b
  {
    assert !StartsWith(b, "/") by {
      if b != "" {
        assert b[..1] == [b[0]];
      }
    }
  }

  /** The segments of the working directory joined with `p`. */
  lemma CwdJoinSegs(p: string, cwd: string)
    requires AbsoluteDir(cwd)
    requires p == "" || Plain(p)
    ensures Split(Join(cwd, p)) == [""] + CwdSegs(cwd) + Split(p)
  {
    if cwd == "/" {
      RootJoinSegs(p);
    } else {
      assert cwd == "/" + cwd[1..];
      DirJoinSegs(p, cwd[1..]);
    }
  }

  lemma RootJoinSegs(p: string)
    requires p == "" || Plain(p)
    ensures Split(Join("/", p)) == [""] + Split(p)
  {
    if p != "" {
      PlainEnds(p);
    }
    assert !StartsWith(p, "/") by {
      if p != "" {
        assert p[..1] == [p[0]];
      }
    }
    RootedSplit(p);
    assert Join("/", p) == "/" + p;
  }

  lemma DirJoinSegs(p: string, d: string)
    requires p == "" || Plain(p)
    requires d != "" && Plain(d)
    ensures Split(Join("/" + d, p)) == [""] + Split(d) + Split(p)
  {
    var cwd := "/" + d;
    var tail := d + "/" + p;
    assert Join(cwd, p) == "/" + tail by {
      if p != "" {
        PlainEnds(p);
      }
      PlainEnds(d);
      assert cwd[|cwd| - 1] == d[|d| - 1];
      JoinSlash(cwd, p);
      assert cwd + "/" + p == "/" + tail;
    }
    assert Split("/" + tail) == [""] + Split(tail) by { RootedSplit(tail); }
    assert Split(tail) == Split(d) + Split(p) by { SplitAppend(d, p); }
  }

  lemma RootedSplit(p: string)
    ensures Split("/" + p) == [""] + Split(p)
  {
    assert ("/" + p)[1..] == p;
  }

  /** The join of the working directory with "" or a plain path starts with exactly one '/'. */
  lemma CwdJoinRooted(p: string, cwd: string)
    requires AbsoluteDir(cwd)
    requires p == "" || Plain(p)
    ensures StartsWith(Join(cwd, p), "/") && !StartsWith(Join(cwd, p), "//")
  {
    if p != "" {
      PlainEnds(p);
    }
    if cwd == "/" {
      assert !StartsWith(p, "/") by {
        if p != "" {
          assert p[..1] == [p[0]];
        }
      }
      assert Join(cwd, p) == "/" + p;
      if p != "" {
        assert Join(cwd, p)[1] == p[0];
      }
    } else {
      var d := cwd[1..];
      PlainEnds(d);
      assert cwd[|cwd| - 1] == d[|d| - 1];
      JoinSlash(cwd, p);
      assert Join(cwd, p)[0] == '/' && Join(cwd, p)[1] == d[0];
    }
  }

  /** Normalising drops an empty first segment. */
  lemma NormSegsEmptyFirst(acc: seq<string>, rest: seq<string>, rooted: bool)
    ensures NormSegs(acc, [""] + rest, rooted) == NormSegs(acc, rest, rooted)
  {
    assert ([""] + rest)[1..] == rest;
  }

  /** Normalising keeps the plain segments after a leading '/'. */
  lemma NormSegsRooted(c: seq<string>, t: seq<string>)
    requires forall i :: 0 <= i < |c + t| ==> PlainSegment((c + t)[i])
    ensures NormSegs([], [""] + c + t, true) == c + t
  {
    assert [""] + c + t == [""] + (c + t);
    NormSegsEmptyFirst([], c + t, true);
    NormSegsPlain([], c + t, true);
    assert [] + (c + t) == c + t;
  }

  /** Normalising drops a trailing empty segment too. */
  lemma NormSegsRootedDir(c: seq<string>)
    requires forall i :: 0 <= i < |c| ==> PlainSegment(c[i])
    ensures NormSegs([], [""] + c + [""], true) == c
  {
    NormSegsAppend([], [""] + c, [""], true);
    NormSegsEmptyFirst([], c, true);
    NormSegsPlain([], c, true);
    assert [] + c == c;
    assert NormSegs(c, [""], true) == NormSegs(c, [], true);
  }

  /** The non-empty segments of "/" followed by the join of plain segments. */
  lemma RootedSegs(kept: seq<string>)
    requires forall i :: 0 <= i < |kept| ==> PlainSegment(kept[i]) && '/' !in kept[i]
    ensures NonEmpty(Split("/" + JoinSegs(kept))) == kept
  {
    RootedSplit(JoinSegs(kept));
    if kept == [] {
      assert NonEmpty(["", ""]) == [];
    } else {
      SplitJoin(kept);
      NonEmptyAppend([""], kept);
      NonEmptyPlain(kept);
    }
  }

  /** The segments `abspath` gives for `p` relative to the working directory, `p` being "" or plain. */
  lemma AbspathSegs(p: string, cwd: string)
    requires AbsoluteDir(cwd)
    requires p == "" || Plain(p)
    ensures NonEmpty(Split(Abspath(p, cwd))) == CwdSegs(cwd) + (if p == "" then [] else Split(p))
  {
    var c := CwdSegs(cwd);
    assert forall i :: 0 <= i < |c| ==> PlainSegment(c[i]) && '/' !in c[i];
    CwdJoinSegs(p, cwd);
    CwdJoinRooted(p, cwd);
    var kept := c + (if p == "" then [] else Split(p));
    if p == "" {
      NormSegsRootedDir(c);
      assert kept == c;
    } else {
      PlainEnds(p);
      NormSegsRooted(c, Split(p));
    }
    assert forall i :: 0 <= i < |kept| ==> PlainSegment(kept[i]) && '/' !in kept[i];
    assert !StartsWith(p, "/") by {
      if p != "" {
        assert p[..1] == [p[0]];
      }
    }
    NormpathRooted(Join(cwd, p), kept);
    RootedSegs(kept);
  }

  /** Normalising a path with exactly one leading '/'. */
  lemma NormpathRooted(x: string, kept: seq<string>)
    requires StartsWith(x, "/") && !StartsWith(x, "//")
    requires NormSegs([], Split(x), true) == kept
    ensures Normpath(x) == "/" + JoinSegs(kept)
  {
    assert Repeat('/', 1) == "/";
  }

  lemma {:induction false} CommonPrefixShared(c: seq<string>, a: seq<string>, b: seq<string>)
    ensures CommonPrefix(c + a, c + b) == |c| + CommonPrefix(a, b)
  {
    if c != [] {
      assert (c + a)[1..] == c[1..] + a;
      assert (c + b)[1..] == c[1..] + b;
      CommonPrefixShared(c[1..], a, b);
    } else {
      assert c + a == a && c + b == b;
    }
  }

  /**
   * The navigation document writes each href relative to its own directory
   * (epub.py:1114-1131); the navigation parser joins it to that directory and
   * normalises it (epub.py:1499, 1505). For plain names the href comes back unchanged.
   */
  lemma RelpathRoundTrip(href: string, dir: string, cwd: string)
    requires href != "" && Plain(href)
    requires dir == "" || Plain(dir)
    requires AbsoluteDir(cwd)
    ensures Relpath(href, dir, cwd).Ok?
    ensures Normpath(Join(dir, Relpath(href, dir, cwd).value)) == href
  {
    var d := if dir == "" then [] else Split(dir);
    RelpathRoute(href, dir, cwd);
    RouteBack(href, dir, d);
  }

  /** Following the route from the directory leads back to the href. */
  lemma RouteBack(href: string, dir: string, d: seq<string>)
    requires href != "" && Plain(href)
    requires dir == "" || Plain(dir)
    requires d == if dir == "" then [] else Split(dir)
    ensures Normpath(Join(dir, Route(d, Split(href)))) == href
  {
    var h := Split(href);
    var k := CommonPrefix(d, h);
    var rel := Repeat("..", |d| - k) + h[k..];
    if rel == [] {
      DirItself(dir, href);
    } else if dir == "" {
      assert k == 0 && rel == h;
      JoinSplit(href);
      assert Join(dir, JoinSegs(rel)) == "" + href == href;
      NormpathPlain(href);
    } else {
      ClimbAndDescend(dir, href, k);
    }
  }

  /** The route `relpath` computes between a plain directory and a plain href under a common working directory. */
  lemma RelpathRoute(href: string, dir: string, cwd: string)
    requires href != "" && Plain(href)
    requires dir == "" || Plain(dir)
    requires AbsoluteDir(cwd)
    ensures Relpath(href, dir, cwd) == Ok(Route(if dir == "" then [] else Split(dir), Split(href)))
  {
    var c := CwdSegs(cwd);
    var h := Split(href);
    var d := if dir == "" then [] else Split(dir);
    AbspathSegs(dir, cwd);
    AbspathSegs(href, cwd);
    RelpathBySegs(href, dir, cwd, c + d, c + h);
    RouteShared(c, d, h);
  }

  lemma RelpathBySegs(path: string, start: string, cwd: string, a: seq<string>, b: seq<string>)
    requires path != ""
    requires NonEmpty(Split(Abspath(start, cwd))) == a && NonEmpty(Split(Abspath(path, cwd))) == b
    ensures Relpath(path, start, cwd) == Ok(Route(a, b))
  {
  }

  /** A shared leading part of both paths does not change the route. */
  lemma RouteShared(c: seq<string>, d: seq<string>, h: seq<string>)
    ensures Route(c + d, c + h) == Route(d, h)
  {
    var k := CommonPrefix(d, h);
    var i := CommonPrefix(c + d, c + h);
    assert i == |c| + k by { CommonPrefixShared(c, d, h); }
    assert |c + d| - i == |d| - k;
    assert (c + h)[i..] == h[k..];
  }

  /** A relative route of nothing: the href names the directory itself. */
  lemma DirItself(dir: string, href: string)
    requires href != "" && Plain(href)
    requires dir == "" || Plain(dir)
    requires var d := if dir == "" then [] else Split(dir);
      var k := CommonPrefix(d, Split(href));
      |d| - k == 0 && Split(href)[k..] == []
    ensures Normpath(Join(dir, ".")) == href
  {
    var h := Split(href);
    var d := if dir == "" then [] else Split(dir);
    var k := CommonPrefix(d, h);
    assert |h| == k == |d|;
    assert dir != "";
    assert d == d[..k] == h[..k] == h;
    JoinSplit(dir);
    JoinSplit(href);
    NormpathDot(dir);
  }

  /** Normalising a relative path that does not start with '/'. */
  lemma NormpathRelative(x: string)
    requires x != "" && x[0] != '/'
    ensures Normpath(x) == (var r := JoinSegs(NormSegs([], Split(x), false)); if r == "" then "." else r)
  {
    assert !StartsWith(x, "/") && !StartsWith(x, "//") by {
      assert x[..1] == [x[0]];
    }
    assert Repeat('/', 0) == [];
  }

  /** `dir/.` normalises to `dir`. */
  lemma NormpathDot(dir: string)
    requires dir != "" && Plain(dir)
    ensures Normpath(Join(dir, ".")) == dir
  {
    var d := Split(dir);
    PlainEnds(dir);
    JoinSlash(dir, ".");
    var x := dir + "/" + ".";
    SplitAppend(dir, ".");
    SplitNoSlash(".");
    assert x[0] == dir[0];
    NormpathRelative(x);
    NormSegsAppend([], d, ["."], false);
    NormSegsPlain([], d, false);
    assert [] + d == d;
    assert NormSegs(d, ["."], false) == d;
    JoinSplit(dir);
  }

  /** Climbing out of `d` with `..` down to the shared prefix and descending gives `h`. */
  lemma ClimbSegs(d: seq<string>, h: seq<string>, k: nat)
    requires k <= |d| && k <= |h| && d[..k] == h[..k]
    requires forall i :: 0 <= i < |d| ==> PlainSegment(d[i])
    requires forall i :: 0 <= i < |h| ==> PlainSegment(h[i])
    ensures NormSegs([], d + Repeat("..", |d| - k) + h[k..], false) == h
  {
    assert forall i :: 0 <= i < |h[k..]| ==> PlainSegment(h[k..][i]);
    NormSegsAppend([], d + Repeat("..", |d| - k), h[k..], false);
    NormSegsAppend([], d, Repeat("..", |d| - k), false);
    NormSegsPlain([], d, false);
    assert [] + d == d;
    NormSegsClimb(d, |d| - k, false);
    NormSegsPlain(d[..k], h[k..], false);
    assert d[..k] + h[k..] == h[..k] + h[k..] == h;
  }

  /** The segments of a route of `..` steps and plain segments. */
  lemma RouteSplit(rel: seq<string>, m: nat, tail: seq<string>)
    requires rel == Repeat("..", m) + tail && rel != []
    requires forall i :: 0 <= i < |tail| ==> PlainSegment(tail[i]) && '/' !in tail[i]
    ensures Split(JoinSegs(rel)) == rel
    ensures JoinSegs(rel) != "" && JoinSegs(rel)[0] != '/'
  {
    forall i | 0 <= i < |rel| ensures rel[i] != "" && '/' !in rel[i] {
      if i >= m {
        assert rel[i] == tail[i - m];
      }
    }
    assert rel[0][0] in rel[0];
    JoinSegsFirst(rel);
    SplitJoin(rel);
  }

  /** Normalising `dir` joined with a relative path `r` works on the segments of `dir + "/" + r`. */
  lemma NormpathJoined(dir: string, r: string, segs: seq<string>)
    requires dir != "" && dir[0] != '/' && dir[|dir| - 1] != '/'
    requires r == "" || r[0] != '/'
    requires Split(dir + "/" + r) == segs
    ensures Normpath(Join(dir, r)) == (var n := JoinSegs(NormSegs([], segs, false)); if n == "" then "." else n)
  {
    JoinSlash(dir, r);
    assert Join(dir, r)[0] == dir[0];
    NormpathRelative(Join(dir, r));
  }

  /** When those segments normalise to the segments of `href`, the normalised join is `href`. */
  lemma NormpathRoute(dir: string, r: string, segs: seq<string>, h: seq<string>, href: string)
    requires dir != "" && dir[0] != '/' && dir[|dir| - 1] != '/'
    requires r == "" || r[0] != '/'
    requires Split(dir + "/" + r) == segs
    requires NormSegs([], segs, false) == h && JoinSegs(h) == href && href != ""
    ensures Normpath(Join(dir, r)) == href
  {
    NormpathJoined(dir, r, segs);
  }

  /** Normalising the directory's segments followed by the route gives the target's segments. */
  lemma ClimbRoute(d: seq<string>, h: seq<string>, k: nat, rel: seq<string>)
    requires k <= |d| && k <= |h| && d[..k] == h[..k]
    requires forall i :: 0 <= i < |d| ==> PlainSegment(d[i])
    requires forall i :: 0 <= i < |h| ==> PlainSegment(h[i])
    requires rel == Repeat("..", |d| - k) + h[k..]
    ensures NormSegs([], d + rel, false) == h
  {
    assert d + rel == d + Repeat("..", |d| - k) + h[k..];
    ClimbSegs(d, h, k);
  }

  /** The route climbs out of the directory with `..` and descends to the href. */
  lemma ClimbAndDescend(dir: string, href: string, k: nat)
    requires href != "" && Plain(href)
    requires dir != "" && Plain(dir)
    requires k == CommonPrefix(Split(dir), Split(href))
    requires Repeat("..", |Split(dir)| - k) + Split(href)[k..] != []
    ensures Normpath(Join(dir, JoinSegs(Repeat("..", |Split(dir)| - k) + Split(href)[k..]))) == href
  {
    var rel := Repeat("..", |Split(dir)| - k) + Split(href)[k..];
    RouteFacts(dir, href, k, rel);
    NormpathRoute(dir, JoinSegs(rel), Split(dir) + rel, Split(href), href);
  }

  /** What the route's parts satisfy: the joined path splits into the directory's segments then the route's. */
  lemma RouteFacts(dir: string, href: string, k: nat, rel: seq<string>)
    requires href != "" && Plain(href)
    requires dir != "" && Plain(dir)
    requires k == CommonPrefix(Split(dir), Split(href))
    requires rel == Repeat("..", |Split(dir)| - k) + Split(href)[k..] && rel != []
    ensures dir[0] != '/' && dir[|dir| - 1] != '/'
    ensures JoinSegs(rel) == "" || JoinSegs(rel)[0] != '/'
    ensures Split(dir + "/" + JoinSegs(rel)) == Split(dir) + rel
    ensures NormSegs([], Split(dir) + rel, false) == Split(href)
    ensures JoinSegs(Split(href)) == href
  {
    var h := Split(href);
    var d := Split(dir);
    var r := JoinSegs(rel);
    assert Split(r) == rel && r != "" && r[0] != '/' by {
      assert forall i :: 0 <= i < |h[k..]| ==> PlainSegment(h[k..][i]) && '/' !in h[k..][i];
      RouteSplit(rel, |d| - k, h[k..]);
    }
    PlainEnds(dir);
    SplitAppend(dir, r);
    ClimbRoute(d, h, k, rel);
    JoinSplit(href);
  }
}
