/** The POSIX flavour of Node's `path` module as far as the system uses it:
    `isAbsolute`, `normalize`, `join`, `resolve` and `basename`, over paths
    whose separator is `/`. Symbolic links play no part: these functions
    work on the text of a path only, as Node's do. */
module Paths {
  import opened Text

  predicate IsAbsolute(p: string) {
    |p| > 0 && p[0] == '/'
  }

  /** A segment that names a directory entry: not empty, not `.`, not `..`
      and free of separators. */
  predicate IsName(seg: string) {
    seg != "" && seg != "." && seg != ".." && '/' !in seg
  }

  /** The form a normalized list of segments has: names, preceded (only in a
      relative path, where going above the start is allowed) by `..`s. */
  predicate IsCanonical(segs: seq<string>, allowAboveRoot: bool) {
    && (forall k :: 0 <= k < |segs| ==> IsName(segs[k]) || (allowAboveRoot && segs[k] == ".."))
    && (forall i, j :: 0 <= i < j < |segs| && segs[j] == ".." ==> segs[i] == "..")
  }

  /** One segment of the scan in Node's `normalizeString`: empty segments and
      `.` vanish, `..` drops the last name (or is kept, above the start of a
      relative path), any other segment is appended. */
  function Step(stack: seq<string>, seg: string, allowAboveRoot: bool): seq<string> {
    if seg == "" || seg == "." then stack
    else if seg == ".." then
      if |stack| > 0 && stack[|stack| - 1] != ".." then stack[..|stack| - 1]
      else if allowAboveRoot then stack + [".."]
      else stack
    else stack + [seg]
  }

  function NormalizeSegments(segs: seq<string>, allowAboveRoot: bool): seq<string> {
    if segs == [] then []
    else Step(NormalizeSegments(segs[..|segs| - 1], allowAboveRoot), segs[|segs| - 1], allowAboveRoot)
  }

  /** Normalizing separator-free segments yields canonical segments. */
  lemma {:induction false} NormalizeSegmentsCanonical(segs: seq<string>, allowAboveRoot: bool)
    requires forall k :: 0 <= k < |segs| ==> '/' !in segs[k]
    ensures IsCanonical(NormalizeSegments(segs, allowAboveRoot), allowAboveRoot)
  {
    if segs != [] {
      var init := segs[..|segs| - 1];
      NormalizeSegmentsCanonical(init, allowAboveRoot);
      var st := NormalizeSegments(init, allowAboveRoot);
      var seg := segs[|segs| - 1];
      assert '/' !in seg;
      var r := Step(st, seg, allowAboveRoot);
      if seg == ".." && !(|st| > 0 && st[|st| - 1] != "..") && allowAboveRoot {
        assert r == st + [".."];
        forall i, j | 0 <= i < j < |r| && r[j] == ".." ensures r[i] == ".." {
          if j < |st| {
            assert st[i] == r[i] && st[j] == r[j];
          } else if |st| > 0 {
            assert st[|st| - 1] == "..";
            assert st[i] == "..";
          }
        }
      }
    }
  }

  /** Normalizing segments that are already canonical changes nothing. */
  lemma {:induction false} NormalizeCanonicalSegments(segs: seq<string>, allowAboveRoot: bool)
    requires IsCanonical(segs, allowAboveRoot)
    ensures NormalizeSegments(segs, allowAboveRoot) == segs
  {
    if segs != [] {
      var init := segs[..|segs| - 1];
      assert IsCanonical(init, allowAboveRoot);
      NormalizeCanonicalSegments(init, allowAboveRoot);
      var seg := segs[|segs| - 1];
      if seg == ".." {
        assert |init| > 0 ==> init[|init| - 1] == "..";
        assert init + [".."] == segs;
      } else {
        assert init + [seg] == segs;
      }
    }
  }

  /** Normalizing segments twice is normalizing them once. */
  lemma NormalizeSegmentsIdempotent(segs: seq<string>, allowAboveRoot: bool)
    requires forall k :: 0 <= k < |segs| ==> '/' !in segs[k]
    ensures var n := NormalizeSegments(segs, allowAboveRoot);
            NormalizeSegments(n, allowAboveRoot) == n
  {
    NormalizeSegmentsCanonical(segs, allowAboveRoot);
    NormalizeCanonicalSegments(NormalizeSegments(segs, allowAboveRoot), allowAboveRoot);
  }

  /** Appending a name to the segments appends it to their normal form. */
  lemma NormalizeAppendName(segs: seq<string>, name: string, allowAboveRoot: bool)
    requires IsName(name)
    ensures NormalizeSegments(segs + [name], allowAboveRoot)
            == NormalizeSegments(segs, allowAboveRoot) + [name]
  {
    assert (segs + [name])[..|segs|] == segs;
  }

  /** The segments of a path between its separators. */
  function Segments(p: string): (r: seq<string>)
    ensures forall k :: 0 <= k < |r| ==> '/' !in r[k]
  {
    SplitOn(p, '/')
  }

  /** Segments put back together with single separators, absolute or not. */
  function Render(absolute: bool, segs: seq<string>): string {
    (if absolute then "/" else "") + JoinWith(segs, "/")
  }

  /** `path.posix.normalize`. */
  function Normalize(p: string): string {
    if p == "" then "."
    else
      var absolute := p[0] == '/';
      var trailing := p[|p| - 1] == '/';
      var body := JoinWith(NormalizeSegments(Segments(p), !absolute), "/");
      if body == "" then (if absolute then "/" else if trailing then "./" else ".")
      else (if absolute then "/" else "") + body + (if trailing then "/" else "")
  }

  /** `path.posix.join` of two arguments: the non-empty ones joined by a
      separator, then normalized. */
  function Join(a: string, b: string): string {
    var joined := if a == "" then b else if b == "" then a else a + "/" + b;
    if joined == "" then "." else Normalize(joined)
  }

  /** Joining onto an absolute directory gives an absolute path. */
  lemma JoinAbsolute(dir: string, p: string)
    ensures IsAbsolute(dir) ==> IsAbsolute(Join(dir, p))
  {
    if IsAbsolute(dir) {
      var joined := if p == "" then dir else dir + "/" + p;
      assert joined[0] == '/';
    }
  }

  /** `..` joined to a directory names its parent: no new segment. */
  lemma JoinDotDot()
    ensures Join("/d", "..") == "/"
  {
    var p := "/d" + "/" + "..";
    assert Join("/d", "..") == Normalize(p);
    NormalizeAbsolute(p);
    ChildSegments("..");
    assert NormalizeSegments(["", "d", ".."], false) == [] by {
      assert ["", "d", ".."][..2] == ["", "d"] && ["", "d"][..1] == [""] && [""][..0] == [];
    }
  }

  /** `.` joined to a directory names the directory itself. */
  lemma JoinDot()
    ensures Join("/d", ".") == "/d"
  {
    var p := "/d" + "/" + ".";
    assert Join("/d", ".") == Normalize(p);
    NormalizeAbsolute(p);
    ChildSegments(".");
    assert NormalizeSegments(["", "d", "."], false) == ["d"] by {
      assert ["", "d", "."][..2] == ["", "d"] && ["", "d"][..1] == [""] && [""][..0] == [];
    }
    assert "/" + "d" == "/d";
  }

  /** An absolute path without a separator at its end normalizes to its
      normalized segments after a leading separator. */
  lemma NormalizeAbsolute(p: string)
    requires p != "" && p[0] == '/' && p[|p| - 1] != '/'
    ensures Normalize(p) == "/" + JoinWith(NormalizeSegments(Segments(p), false), "/")
  {
  }

  /** The segments of `/d/<name>` for a name without a separator. */
  lemma ChildSegments(name: string)
    requires name != "" && '/' !in name
    ensures Segments("/d" + "/" + name) == ["", "d", name]
  {
    assert SplitOn("", '/') == [""];
    assert SplitOn("d", '/') == ["d"];
    assert SplitOn(name, '/') == [name];
    SplitAround("", '/', "d");
    assert "" + ['/'] + "d" == "/d";
    SplitAround("/d", '/', name);
    assert "/d" + ['/'] + name == "/d" + "/" + name;
  }

  /** Joining a directory and a name gives the directory's normalized
      segments followed by that name. */
  lemma JoinName(dir: string, name: string)
    requires IsName(name)
    ensures Join(dir, name)
            == Render(IsAbsolute(dir), NormalizeSegments(Segments(dir), !IsAbsolute(dir)) + [name])
  {
    if dir == "" {
      JoinNameToEmpty(name);
    } else {
      JoinNameToDir(dir, name);
    }
  }

  /** With no directory, joining gives the name alone. */
  lemma JoinNameToEmpty(name: string)
    requires IsName(name)
    ensures Join("", name) == Render(false, NormalizeSegments(Segments(""), true) + [name])
  {
    assert Segments(name) == [name];
    assert Segments("") == [""];
    assert NormalizeSegments([""], true) == [];
  }

  /** With a directory, joining appends the name to its normalized segments. */
  lemma JoinNameToDir(dir: string, name: string)
    requires IsName(name) && dir != ""
    ensures Join(dir, name)
            == Render(IsAbsolute(dir), NormalizeSegments(Segments(dir), !IsAbsolute(dir)) + [name])
  {
    var abs := IsAbsolute(dir);
    var n := NormalizeSegments(Segments(dir), !abs);
    var joined := dir + "/" + name;
    SplitAround(dir, '/', name);
    assert Segments(name) == [name];
    assert Segments(joined) == Segments(dir) + [name];
    NormalizeAppendName(Segments(dir), name, !abs);
    JoinWithSnoc(n, name, "/");
    assert joined[0] == dir[0];
    assert joined[|joined| - 1] == name[|name| - 1];
    assert name[|name| - 1] != '/' by { assert name[|name| - 1] in name; }
    var body := JoinWith(n + [name], "/");
    assert |body| >= |name|;
  }

  /** `path.posix.resolve` of one path against the working directory `cwd`
      (the argument alone when it is absolute, `cwd` alone when it is
      empty). */
  function Resolve(cwd: string, p: string): string {
    var full := if IsAbsolute(p) || cwd == "" then p else if p == "" then cwd else cwd + "/" + p;
    var absolute := IsAbsolute(full);
    var body := JoinWith(NormalizeSegments(Segments(full), !absolute), "/");
    if absolute then "/" + body else if body == "" then "." else body
  }

  /** Node's `path.posix.basename`: the last segment after trailing
      separators are ignored. */
  function Basename(p: string): (r: string)
    ensures '/' !in r
    ensures '/' !in p ==> r == p
  {
    LastSegment(TrimTrailingSlashes(p))
  }

  function TrimTrailingSlashes(p: string): (r: string)
    ensures '/' !in p ==> r == p
  {
    if p != "" && p[|p| - 1] == '/' then TrimTrailingSlashes(p[..|p| - 1]) else p
  }

  /** The characters after the last separator. */
  function LastSegment(p: string): (r: string)
    ensures '/' !in r
    ensures '/' !in p ==> r == p
  {
    if p == "" then ""
    else if p[|p| - 1] == '/' then ""
    else LastSegment(p[..|p| - 1]) + [p[|p| - 1]]
  }

  /** A file name passes the `basename` test exactly when it holds no
      separator. */
  lemma BasenameFixedPoint(f: string)
    ensures Basename(f) == f <==> '/' !in f
  {
  }
}
