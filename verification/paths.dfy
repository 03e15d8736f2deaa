/** Go's path/filepath on a Unix host (separator '/', no volume names):
    Clean, Base, Dir and two-element Join, which the path mapping, the file
    grouping and the filename matcher are built on. */
module Paths {
  import opened Strs

  /** One step of Clean's lexical processing: drop empty and "." elements,
      let ".." cancel the element before it, and keep a leading ".." only
      when the path is not rooted. */
  function Normalize(elems: seq<string>, rooted: bool, acc: seq<string>): seq<string>
    decreases |elems|
  {
    if |elems| == 0 then acc
    else
      var e := elems[0];
      if e == "" || e == "." then Normalize(elems[1..], rooted, acc)
      else if e == ".." then
        if |acc| > 0 && acc[|acc| - 1] != ".." then Normalize(elems[1..], rooted, acc[..|acc| - 1])
        else if rooted then Normalize(elems[1..], rooted, acc)
        else Normalize(elems[1..], rooted, acc + [".."])
      else Normalize(elems[1..], rooted, acc + [e])
  }

  /** filepath.Clean: the shortest lexically equivalent path; "." for the
      empty path. */
  function Clean(p: string): (r: string)
    ensures r != ""
  {
    if p == "" then "."
    else
      var rooted := p[0] == '/';
      var kept := Normalize(Split(p, '/'), rooted, []);
      var out := (if rooted then "/" else "") + JoinWith(kept, "/");
      if out == "" then "." else out
  }

  /** filepath.Base: the last element after trailing slashes are removed;
      "." for the empty path and "/" for a path of slashes only. */
  function Base(p: string): (r: string)
    ensures r != ""
    ensures r == "/" || '/' !in r
  {
    if p == "" then "."
    else
      var t := TrimRightChar(p, '/');
      if t == "" then "/"
      else
        var i := LastIndexOf(t, '/');
        t[i + 1..]
  }

  /** filepath.Dir: everything up to the last separator, cleaned. */
  function Dir(p: string): (r: string)
    ensures r != ""
  {
    Clean(p[..LastIndexOf(p, '/') + 1])
  }

  /** filepath.Join of two elements: leading empty elements are ignored and
      the joined text is cleaned. */
  function Join(a: string, b: string): string {
    if a != "" then Clean(a + "/" + b)
    else if b != "" then Clean(b)
    else ""
  }

  /** A path element Clean keeps unchanged. */
  predicate Segment(s: string) {
    s != "" && s != "." && s != ".." && '/' !in s
  }

  predicate AllSegments(elems: seq<string>) {
    forall i :: 0 <= i < |elems| ==> Segment(elems[i])
  }

  /** A clean relative path without "." or ".." elements. */
  predicate PlainRel(s: string) {
    AllSegments(Split(s, '/'))
  }

  /** A clean absolute path without "." or ".." elements. */
  predicate PlainAbs(s: string) {
    s == "/" || (|s| > 1 && s[0] == '/' && PlainRel(s[1..]))
  }

  /** A directory path as a configuration would normally spell it. */
  predicate PlainDir(s: string) {
    PlainAbs(s) || PlainRel(s)
  }

  lemma {:induction false} NormalizeSegments(elems: seq<string>, rooted: bool, acc: seq<string>)
    requires AllSegments(elems)
    ensures Normalize(elems, rooted, acc) == acc + elems
    decreases |elems|
  {
    if |elems| > 0 {
      NormalizeSegments(elems[1..], rooted, acc + [elems[0]]);
      assert acc + [elems[0]] + elems[1..] == acc + elems;
    }
  }

  lemma {:induction false} NormalizeAppend(xs: seq<string>, ys: seq<string>, rooted: bool, acc: seq<string>)
    ensures Normalize(xs + ys, rooted, acc) == Normalize(ys, rooted, Normalize(xs, rooted, acc))
    decreases |xs|
  {
    if |xs| > 0 {
      assert (xs + ys)[0] == xs[0];
      assert (xs + ys)[1..] == xs[1..] + ys;
      var e := xs[0];
      if e == "" || e == "." {
        NormalizeAppend(xs[1..], ys, rooted, acc);
      } else if e == ".." {
        if |acc| > 0 && acc[|acc| - 1] != ".." {
          NormalizeAppend(xs[1..], ys, rooted, acc[..|acc| - 1]);
        } else if rooted {
          NormalizeAppend(xs[1..], ys, rooted, acc);
        } else {
          NormalizeAppend(xs[1..], ys, rooted, acc + [".."]);
        }
      } else {
        NormalizeAppend(xs[1..], ys, rooted, acc + [e]);
      }
    } else {
      assert xs + ys == ys;
    }
  }

  lemma PlainRelShape(s: string)
    ensures PlainRel(s) ==> s != "" && s[0] != '/' && s[|s| - 1] != '/'
  {
    if s == "" || s[0] == '/' {
      assert Split(s, '/')[0] == "";
    } else if s[|s| - 1] == '/' {
      var a := s[..|s| - 1];
      assert s == a + ['/'] + "";
      SplitAround(a, "", '/');
      assert Split(s, '/')[|Split(s, '/')| - 1] == "";
    }
  }

  /** Clean leaves a plain relative path unchanged. */
  lemma CleanPlainRel(s: string)
    requires PlainRel(s)
    ensures Clean(s) == s
  {
    PlainRelShape(s);
    NormalizeSegments(Split(s, '/'), false, []);
    CleanFromParts(s, s);
  }

  /** Clean leaves a plain absolute path unchanged. */
  lemma CleanPlainAbs(s: string)
    requires PlainAbs(s)
    ensures Clean(s) == s
  {
    if s == "/" {
      assert s == "" + ['/'] + "";
      SplitAround("", "", '/');
      NormalizeEmpties([""] + [""], true, []);
    } else {
      var t := s[1..];
      assert s == "" + ['/'] + t;
      SplitAround("", t, '/');
      NormalizeEmptiesThenSegments([""], Split(t, '/'), true);
      CleanFromParts(s, t);
    }
  }

  /** Two plain relative paths joined by a separator form one. */
  lemma PlainRelConcat(a: string, b: string)
    requires PlainRel(a) && PlainRel(b)
    ensures PlainRel(a + "/" + b)
  {
    SplitAround(a, b, '/');
  }

  /** Empty elements leave the kept elements as they are. */
  lemma {:induction false} NormalizeEmpties(es: seq<string>, rooted: bool, acc: seq<string>)
    requires forall i :: 0 <= i < |es| ==> es[i] == ""
    ensures Normalize(es, rooted, acc) == acc
    decreases |es|
  {
    if |es| > 0 {
      NormalizeEmpties(es[1..], rooted, acc);
    }
  }

  /** Empty elements followed by plain segments normalise to the segments. */
  lemma NormalizeEmptiesThenSegments(es: seq<string>, parts: seq<string>, rooted: bool)
    requires forall i :: 0 <= i < |es| ==> es[i] == ""
    requires AllSegments(parts)
    ensures Normalize(es + parts, rooted, []) == parts
  {
    NormalizeAppend(es, parts, rooted, []);
    NormalizeEmpties(es, rooted, []);
    NormalizeSegments(parts, rooted, []);
  }

  /** Clean of a path whose elements normalise to those of a plain relative
      path `t`: `t` itself, with the root put back when the path had one. */
  lemma CleanFromParts(p: string, t: string)
    requires p != "" && PlainRel(t)
    requires Normalize(Split(p, '/'), p[0] == '/', []) == Split(t, '/')
    ensures Clean(p) == (if p[0] == '/' then "/" + t else t)
  {
    PlainRelShape(t);
    JoinSplit(t, '/');
  }

  /** The elements of "//" + rel: two empty ones, then those of rel. */
  lemma SplitDoubleRoot(rel: string)
    ensures Split("//" + rel, '/') == [""] + [""] + Split(rel, '/')
  {
    assert "//" + rel == "" + ['/'] + ("/" + rel);
    SplitAround("", "/" + rel, '/');
    assert "/" + rel == "" + ['/'] + rel;
    SplitAround("", rel, '/');
  }

  /** A doubled root collapses: Clean("//" + rel) is "/" + rel. */
  lemma CleanDoubleRoot(rel: string)
    requires PlainRel(rel)
    ensures Clean("//" + rel) == "/" + rel
  {
    SplitDoubleRoot(rel);
    NormalizeEmptiesThenSegments([""] + [""], Split(rel, '/'), true);
    CleanFromParts("//" + rel, rel);
  }

  /** The elements of `t` + "/": those of `t`, then an empty one. */
  lemma SplitTrailing(t: string)
    ensures Split(t + "/", '/') == Split(t, '/') + [""]
  {
    assert t + "/" == t + ['/'] + "";
    SplitAround(t, "", '/');
  }

  /** A trailing separator after a plain directory is dropped by Clean. */
  lemma CleanTrailingSlash(dir: string)
    requires PlainDir(dir)
    ensures Clean(dir + "/") == dir
  {
    var p := dir + "/";
    if dir == "/" {
      SplitDoubleRoot("");
      assert p == "//" + "";
      NormalizeEmpties([""] + [""] + [""], true, []);
    } else if PlainAbs(dir) {
      var t := dir[1..];
      var parts := Split(t, '/');
      assert p == "" + ['/'] + (t + "/");
      SplitAround("", t + "/", '/');
      SplitTrailing(t);
      assert Split(p, '/') == [""] + (parts + [""]);
      NormalizeAppend([""], parts + [""], true, []);
      NormalizeAppend(parts, [""], true, []);
      NormalizeSegments(parts, true, []);
      CleanFromParts(p, t);
      assert dir == "/" + t;
    } else {
      PlainRelShape(dir);
      var parts := Split(dir, '/');
      SplitTrailing(dir);
      NormalizeAppend(parts, [""], false, []);
      NormalizeSegments(parts, false, []);
      CleanFromParts(p, dir);
    }
  }

  /** Joining a plain relative path onto a plain directory is plain
      concatenation with one separator. */
  lemma JoinPlain(dir: string, rel: string)
    requires PlainDir(dir) && PlainRel(rel)
    ensures Join(dir, rel) == (if dir == "/" then "/" + rel else dir + "/" + rel)
    ensures PlainDir(Join(dir, rel))
  {
    PlainRelShape(rel);
    if dir == "/" {
      assert dir + "/" + rel == "//" + rel;
      CleanDoubleRoot(rel);
      assert ("/" + rel)[1..] == rel;
    } else if PlainAbs(dir) {
      var t := dir[1..];
      PlainRelConcat(t, rel);
      assert (dir + "/" + rel)[1..] == t + "/" + rel;
      CleanPlainAbs(dir + "/" + rel);
    } else {
      PlainRelShape(dir);
      PlainRelConcat(dir, rel);
      CleanPlainRel(dir + "/" + rel);
    }
  }

  /** Joining the empty element onto a plain directory gives the directory. */
  lemma JoinEmpty(dir: string)
    requires PlainDir(dir)
    ensures Join(dir, "") == dir
  {
    PlainDirNonEmpty(dir);
    CleanTrailingSlash(dir);
    assert dir + "/" + "" == dir + "/";
  }

  lemma PlainDirNonEmpty(dir: string)
    requires PlainDir(dir)
    ensures dir != ""
  {
    if !PlainAbs(dir) {
      PlainRelShape(dir);
    }
  }

  /** The base of `prefix/name` is `name` whenever `name` is a non-empty
      element without separators. */
  lemma BaseAfterSlash(prefix: string, name: string)
    requires name != "" && '/' !in name
    ensures Base(prefix + "/" + name) == name
  {
    var p := prefix + "/" + name;
    assert p[|p| - 1] == name[|name| - 1];
    assert TrimRightChar(p, '/') == p;
    assert p[|prefix|] == '/';
    assert forall j :: |prefix| < j < |p| ==> p[j] == name[j - |prefix| - 1];
    assert p[|prefix| + 1..] == name;
  }

  /** The last separator of `prefix/name` is the one before `name`. */
  lemma LastSlashBeforeName(prefix: string, name: string)
    requires '/' !in name
    ensures LastIndexOf(prefix + "/" + name, '/') == |prefix|
  {
    var p := prefix + "/" + name;
    assert p[|prefix|] == '/';
    assert forall j :: |prefix| < j < |p| ==> p[j] == name[j - |prefix| - 1];
  }

  /** Dir and Base take apart what Join put together. */
  lemma DirBaseOfJoin(dir: string, name: string)
    requires PlainDir(dir) && Segment(name)
    ensures Base(Join(dir, name)) == name
    ensures Dir(Join(dir, name)) == dir
  {
    SplitNoSep(name, '/');
    JoinPlain(dir, name);
    var pre := if dir == "/" then "" else dir;
    var p := pre + "/" + name;
    assert Join(dir, name) == p;
    BaseAfterSlash(pre, name);
    LastSlashBeforeName(pre, name);
    assert p[..|pre| + 1] == pre + "/";
    if dir == "/" {
      CleanPlainAbs("/");
    } else {
      CleanTrailingSlash(dir);
    }
  }
}
