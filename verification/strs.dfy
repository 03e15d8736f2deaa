/** The parts of Go's `strings` package the sync engine relies on, over
    `string` = `seq<char>`. Each definition follows the Go function of the
    same name; the lemmas record the facts the other modules use. */
module Strs {

  predicate HasPrefix(s: string, p: string) {
    |p| <= |s| && s[..|p|] == p
  }

  predicate HasSuffix(s: string, p: string) {
    |p| <= |s| && s[|s| - |p|..] == p
  }

  /** strings.TrimPrefix: drops `p` once when `s` starts with it. */
  function TrimPrefix(s: string, p: string): (r: string)
    ensures HasPrefix(s, p) ==> s == p + r
    ensures !HasPrefix(s, p) ==> r == s
  {
    if HasPrefix(s, p) then s[|p|..] else s
  }

  /** Trimming a prefix off a concatenation leaves the rest. */
  lemma TrimPrefixConcat(p: string, x: string)
    ensures HasPrefix(p + x, p) && TrimPrefix(p + x, p) == x
  {
    assert (p + x)[..|p|] == p;
    assert (p + x)[|p|..] == x;
  }

  /** strings.TrimSuffix: drops `p` once when `s` ends with it. */
  function TrimSuffix(s: string, p: string): (r: string)
    ensures HasSuffix(s, p) ==> s == r + p
    ensures !HasSuffix(s, p) ==> r == s
  {
    if HasSuffix(s, p) then s[..|s| - |p|] else s
  }

  /** strings.TrimRight(s, string(c)): drops every trailing `c`. */
  function TrimRightChar(s: string, c: char): (r: string)
    ensures HasPrefix(s, r)
    ensures |r| == 0 || r[|r| - 1] != c
    ensures forall i :: |r| <= i < |s| ==> s[i] == c
    decreases |s|
  {
    if |s| > 0 && s[|s| - 1] == c then TrimRightChar(s[..|s| - 1], c) else s
  }

  /** strings.Contains. */
  predicate Contains(s: string, sub: string)
    decreases |s|
  {
    HasPrefix(s, sub) || (|s| > 0 && Contains(s[1..], sub))
  }

  /** strings.IndexByte: the first position of `c`, or -1. */
  function IndexOf(s: string, c: char): (r: int)
    ensures -1 <= r < |s|
    ensures r == -1 <==> c !in s
    ensures 0 <= r ==> s[r] == c && forall j :: 0 <= j < r ==> s[j] != c
  {
    IndexFrom(s, c, 0)
  }

  function IndexFrom(s: string, c: char, n: nat): (r: int)
    requires n <= |s|
    ensures r == -1 || n <= r < |s|
    ensures r == -1 <==> forall j :: n <= j < |s| ==> s[j] != c
    ensures 0 <= r ==> s[r] == c && forall j :: n <= j < r ==> s[j] != c
    decreases |s| - n
  {
    if n == |s| then -1 else if s[n] == c then n else IndexFrom(s, c, n + 1)
  }

  /** strings.LastIndexByte: the last position of `c`, or -1. */
  function LastIndexOf(s: string, c: char): (r: int)
    ensures -1 <= r < |s|
    ensures r == -1 <==> c !in s
    ensures 0 <= r ==> s[r] == c && forall j :: r < j < |s| ==> s[j] != c
  {
    LastIndexBelow(s, c, |s|)
  }

  function LastIndexBelow(s: string, c: char, n: nat): (r: int)
    requires n <= |s|
    ensures -1 <= r < n
    ensures r == -1 <==> forall j :: 0 <= j < n ==> s[j] != c
    ensures 0 <= r ==> s[r] == c && forall j :: r < j < n ==> s[j] != c
    decreases n
  {
    if n == 0 then -1 else if s[n - 1] == c then n - 1 else LastIndexBelow(s, c, n - 1)
  }

  /** strings.Split with a one-character separator: always at least one
      piece, and no piece contains the separator. */
  function Split(s: string, sep: char): (r: seq<string>)
    ensures |r| >= 1
    ensures forall i :: 0 <= i < |r| ==> sep !in r[i]
    decreases |s|
  {
    if |s| == 0 then [""]
    else
      var rest := Split(s[1..], sep);
      if s[0] == sep then [""] + rest
      else [[s[0]] + rest[0]] + rest[1..]
  }

  /** strings.Join. */
  function JoinWith(parts: seq<string>, sep: string): string
    decreases |parts|
  {
    if |parts| == 0 then ""
    else if |parts| == 1 then parts[0]
    else parts[0] + sep + JoinWith(parts[1..], sep)
  }

  /** Joining the pieces of a split with the separator gives the input back. */
  lemma {:induction false} JoinSplit(s: string, sep: char)
    ensures JoinWith(Split(s, sep), [sep]) == s
    decreases |s|
  {
    if |s| > 0 {
      JoinSplit(s[1..], sep);
      var rest := Split(s[1..], sep);
      if s[0] == sep {
        assert s == [sep] + s[1..];
      } else if |rest| == 1 {
        assert s == [s[0]] + s[1..];
      } else {
        assert JoinWith(rest, [sep]) == rest[0] + [sep] + JoinWith(rest[1..], [sep]);
        assert s == [s[0]] + s[1..];
      }
    }
  }

  /** A leading separator ends an empty first piece. */
  lemma SplitConsSep(t: string, sep: char)
    ensures Split([sep] + t, sep) == [""] + Split(t, sep)
  {
    assert ([sep] + t)[1..] == t;
  }

  /** Any other leading character joins the first piece. */
  lemma SplitConsOther(c: char, t: string, sep: char)
    requires c != sep
    ensures Split([c] + t, sep) == [[c] + Split(t, sep)[0]] + Split(t, sep)[1..]
  {
    assert ([c] + t)[1..] == t;
  }

  /** Splitting distributes over a separator placed between two strings. */
  lemma {:induction false} SplitAround(a: string, b: string, sep: char)
    ensures Split(a + [sep] + b, sep) == Split(a, sep) + Split(b, sep)
    decreases |a|
  {
    if |a| == 0 {
      assert a + [sep] + b == [sep] + b;
      SplitConsSep(b, sep);
    } else {
      var t := a[1..] + [sep] + b;
      assert a + [sep] + b == [a[0]] + t;
      assert a == [a[0]] + a[1..];
      SplitAround(a[1..], b, sep);
      if a[0] == sep {
        SplitConsSep(t, sep);
        SplitConsSep(a[1..], sep);
      } else {
        SplitConsOther(a[0], t, sep);
        SplitConsOther(a[0], a[1..], sep);
        ExtendFirst([a[0]], Split(a[1..], sep), Split(b, sep));
      }
    }
  }

  /** Extending the first piece of a concatenation extends the first piece
      of its left part. */
  lemma ExtendFirst(x: string, sa: seq<string>, sb: seq<string>)
    requires |sa| >= 1
    ensures [x + (sa + sb)[0]] + (sa + sb)[1..] == ([x + sa[0]] + sa[1..]) + sb
  {
    assert (sa + sb)[0] == sa[0];
    assert (sa + sb)[1..] == sa[1..] + sb;
  }

  /** A string without the separator splits into itself alone. */
  lemma {:induction false} SplitNoSep(a: string, sep: char)
    requires sep !in a
    ensures Split(a, sep) == [a]
    decreases |a|
  {
    if |a| > 0 {
      SplitNoSep(a[1..], sep);
      assert a == [a[0]] + a[1..];
    }
  }

  /** Splitting a join of separator-free pieces gives the pieces back. */
  lemma {:induction false} SplitJoin(parts: seq<string>, sep: char)
    requires |parts| >= 1
    requires forall i :: 0 <= i < |parts| ==> sep !in parts[i]
    ensures Split(JoinWith(parts, [sep]), sep) == parts
    decreases |parts|
  {
    SplitNoSep(parts[0], sep);
    if |parts| > 1 {
      assert forall j :: 0 <= j < |parts| - 1 ==> parts[1..][j] == parts[j + 1];
      SplitJoin(parts[1..], sep);
      SplitAround(parts[0], JoinWith(parts[1..], [sep]), sep);
      assert parts == [parts[0]] + parts[1..];
    }
  }

  /** Go's unicode.IsSpace: the characters strings.TrimSpace removes. */
  predicate IsSpace(c: char) {
    var n := c as int;
    n == 0x20 || (0x09 <= n <= 0x0D) || n == 0x85 || n == 0xA0 || n == 0x1680
    || (0x2000 <= n <= 0x200A) || n == 0x2028 || n == 0x2029 || n == 0x202F
    || n == 0x205F || n == 0x3000
  }

  predicate AllSpace(s: string) {
    forall i :: 0 <= i < |s| ==> IsSpace(s[i])
  }

  function TrimLeftSpace(s: string): (r: string)
    ensures HasSuffix(s, r) && AllSpace(s[..|s| - |r|])
    ensures |r| == 0 || !IsSpace(r[0])
    decreases |s|
  {
    if |s| > 0 && IsSpace(s[0]) then
      var r := TrimLeftSpace(s[1..]);
      assert s[|s| - |r|..] == s[1..][|s| - 1 - |r|..];
      assert s[..|s| - |r|] == [s[0]] + s[1..][..|s| - 1 - |r|];
      r
    else s
  }

  function TrimRightSpace(s: string): (r: string)
    ensures HasPrefix(s, r) && AllSpace(s[|r|..])
    ensures |r| == 0 || !IsSpace(r[|r| - 1])
    decreases |s|
  {
    if |s| > 0 && IsSpace(s[|s| - 1]) then
      var r := TrimRightSpace(s[..|s| - 1]);
      assert s[..|r|] == s[..|s| - 1][..|r|];
      assert s[|r|..] == s[..|s| - 1][|r|..] + [s[|s| - 1]];
      r
    else s
  }

  /** `s` is `r` with runs of white space added on either side. */
  predicate Padded(s: string, r: string) {
    exists i, j :: 0 <= i <= j <= |s| && r == s[i..j] && AllSpace(s[..i]) && AllSpace(s[j..])
  }

  /** strings.TrimSpace: `s` is the result with runs of white space added
      on either side, and the result neither starts nor ends with one. */
  function TrimSpace(s: string): (r: string)
    ensures Padded(s, r)
    ensures |r| == 0 || (!IsSpace(r[0]) && !IsSpace(r[|r| - 1]))
  {
    var left := TrimLeftSpace(s);
    var r := TrimRightSpace(left);
    PaddedTwice(s, left, r);
    r
  }

  /** White space trimmed off the left, then off the right. */
  lemma PaddedTwice(s: string, left: string, r: string)
    requires HasSuffix(s, left) && AllSpace(s[..|s| - |left|])
    requires HasPrefix(left, r) && AllSpace(left[|r|..])
    ensures Padded(s, r)
  {
    var i := |s| - |left|;
    assert s[i..] == left;
    assert s[i..i + |r|] == left[..|r|];
    assert s[i + |r|..] == left[|r|..];
  }

  lemma TrimSpaceOfNoSpace(s: string)
    requires |s| == 0 || (!IsSpace(s[0]) && !IsSpace(s[|s| - 1]))
    ensures TrimSpace(s) == s
  {
  }
}
