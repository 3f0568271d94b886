/** The parts of Go's `strings` and `path` packages that the generator relies on,
    re-specified over Dafny strings.  Case conversion is ASCII only. */
module GoStrings {

  /** strings.HasPrefix */
  predicate HasPrefix(s: string, prefix: string) {
    |prefix| <= |s| && s[..|prefix|] == prefix
  }

  /** strings.HasSuffix */
  predicate HasSuffix(s: string, suffix: string) {
    |suffix| <= |s| && s[|s| - |suffix|..] == suffix
  }

  /** strings.TrimPrefix: drops `prefix` once when `s` starts with it. */
  function TrimPrefix(s: string, prefix: string): (r: string)
    ensures HasPrefix(s, prefix) ==> prefix + r == s
    ensures !HasPrefix(s, prefix) ==> r == s
  {
    if HasPrefix(s, prefix) then s[|prefix|..] else s
  }

  /** The first position at or after `from` holding `c`, or -1. */
  function IndexFrom(s: string, c: char, from: nat): (i: int)
    requires from <= |s|
    ensures i == -1 || from <= i < |s|
    ensures 0 <= i ==> s[i] == c
    ensures forall k :: from <= k < |s| && (i == -1 || k < i) ==> s[k] != c
    decreases |s| - from
  {
    if from == |s| then -1
    else if s[from] == c then from
    else IndexFrom(s, c, from + 1)
  }

  /** strings.IndexByte: the first position of `c`, or -1. */
  function Index(s: string, c: char): (i: int)
    ensures -1 <= i < |s|
    ensures i == -1 <==> c !in s
    ensures 0 <= i ==> s[i] == c
    ensures forall k :: 0 <= k < i ==> s[k] != c
  {
    IndexFrom(s, c, 0)
  }

  /** The last position before `n` holding `c`, or -1. */
  function LastIndexBefore(s: string, c: char, n: nat): (i: int)
    requires n <= |s|
    ensures -1 <= i < n
    ensures 0 <= i ==> s[i] == c
    ensures forall k :: i < k < n ==> s[k] != c
  {
    if n == 0 then -1
    else if s[n - 1] == c then n - 1
    else LastIndexBefore(s, c, n - 1)
  }

  /** strings.LastIndexByte: the last position of `c`, or -1. */
  function LastIndex(s: string, c: char): (i: int)
    ensures -1 <= i < |s|
    ensures i == -1 <==> c !in s
    ensures 0 <= i ==> s[i] == c
    ensures forall k :: i < k < |s| ==> s[k] != c
  {
    LastIndexBefore(s, c, |s|)
  }

  /** strings.Join */
  function Join(parts: seq<string>, sep: string): string {
    if parts == [] then ""
    else if |parts| == 1 then parts[0]
    else Join(parts[..|parts| - 1], sep) + sep + parts[|parts| - 1]
  }

  /** strings.Split with a one-character separator: the pieces between the
      separators, at least one, none containing the separator, joining back to `s`. */
  function Split(s: string, sep: char): (parts: seq<string>)
    ensures |parts| >= 1
    ensures forall i :: 0 <= i < |parts| ==> sep !in parts[i]
    ensures Join(parts, [sep]) == s
    decreases |s|
  {
    var i := LastIndex(s, sep);
    if i < 0 then [s]
    else
      var front := Split(s[..i], sep);
      var last := s[i + 1..];
      AfterLast(s, sep);
      SplitStep(s[..i], front, last, sep);
      front + [last]
  }

  /** One more piece after the last separator keeps the properties Split promises. */
  lemma SplitStep(init: string, front: seq<string>, last: string, sep: char)
    requires |front| >= 1 && Join(front, [sep]) == init
    requires forall k :: 0 <= k < |front| ==> sep !in front[k]
    requires sep !in last
    ensures var parts := front + [last];
            && |parts| >= 1
            && (forall k :: 0 <= k < |parts| ==> sep !in parts[k])
            && Join(parts, [sep]) == init + [sep] + last
  {
    JoinSnoc(front, last, [sep]);
    var parts := front + [last];
    forall k | 0 <= k < |parts| ensures sep !in parts[k] {
      if k < |front| {
        assert parts[k] == front[k];
      }
    }
  }

  /** Around the last occurrence of `c`: what comes before it, `c`, and a rest
      without `c`. */
  lemma AfterLast(s: string, c: char)
    ensures var i := LastIndex(s, c);
            i >= 0 ==> s == s[..i] + [c] + s[i + 1..] && c !in s[i + 1..]
  {
    var i := LastIndex(s, c);
    if i >= 0 {
      var last := s[i + 1..];
      assert s == s[..i] + [c] + last;
      forall k | 0 <= k < |last| ensures last[k] != c {
        assert last[k] == s[i + 1 + k];
      }
    }
  }

  lemma JoinSnoc(front: seq<string>, last: string, sep: string)
    requires |front| >= 1
    ensures Join(front + [last], sep) == Join(front, sep) + sep + last
  {
    var parts := front + [last];
    assert parts[..|parts| - 1] == front;
    assert parts[|parts| - 1] == last;
  }

  /** The last piece of Split is what follows the last separator, or all of `s`. */
  lemma SplitLast(s: string, sep: char)
    ensures var parts := Split(s, sep);
      && HasSuffix(s, parts[|parts| - 1])
      && (|parts| == 1 <==> sep !in s)
      && (|parts| == 1 ==> parts[0] == s)
      && (|parts| > 1 ==> s[|s| - |parts[|parts| - 1]| - 1] == sep)
  {
    var parts := Split(s, sep);
    var i := LastIndex(s, sep);
    if i >= 0 {
      assert parts[|parts| - 1] == s[i + 1..];
      assert |parts| > 1;
    }
  }

  /** The last piece of Split, seen from `s`: a suffix without the separator, all of
      `s` exactly when `s` has no separator, preceded by a separator otherwise. */
  lemma LastPieceOfSplit(s: string, sep: char)
    ensures var parts := Split(s, sep);
            var r := parts[|parts| - 1];
            && sep !in r
            && HasSuffix(s, r)
            && (forall k :: |s| - |r| <= k < |s| ==> s[k] != sep)
            && (r == s || s[|s| - |r| - 1] == sep)
            && (r == s <==> sep !in s)
  {
    var parts := Split(s, sep);
    SplitLast(s, sep);
    var r := parts[|parts| - 1];
    SuffixWithout(s, r, sep);
  }

  lemma JoinPair(a: string, b: string)
    ensures Join([a, b], "") == a + b
  {
    assert [a, b][..1] == [a];
  }

  /** A string with exactly one separator splits into the two sides. */
  lemma SplitPair(a: string, b: string, sep: char)
    requires sep !in a && sep !in b
    ensures Split(a + [sep] + b, sep) == [a, b]
  {
    var s := a + [sep] + b;
    assert s[|a|] == sep;
    forall k | |a| < k < |s| ensures s[k] != sep {
      assert s[k] == b[k - |a| - 1];
    }
    assert LastIndex(s, sep) == |a|;
    assert s[..|a|] == a && s[|a| + 1..] == b;
    assert Split(a, sep) == [a];
  }

  /** strings.SplitN(s, sep, 2) for a one-character separator. */
  function SplitFirst(s: string, sep: char): (parts: seq<string>)
    ensures 1 <= |parts| <= 2
    ensures |parts| == 1 <==> sep !in s
    ensures |parts| == 1 ==> parts[0] == s
    ensures |parts| == 2 ==> sep !in parts[0] && parts[0] + [sep] + parts[1] == s
  {
    var i := Index(s, sep);
    if i < 0 then [s]
    else
      assert s == s[..i] + [sep] + s[i + 1..];
      [s[..i], s[i + 1..]]
  }

  /** strings.ReplaceAll with one-character old and new strings. */
  function ReplaceAll(s: string, from: char, to: char): (r: string)
    ensures |r| == |s|
    ensures forall i :: 0 <= i < |s| ==> r[i] == if s[i] == from then to else s[i]
  {
    if s == [] then []
    else [if s[0] == from then to else s[0]] + ReplaceAll(s[1..], from, to)
  }

  lemma {:induction false} ReplaceAllAppend(a: string, b: string, from: char, to: char)
    ensures ReplaceAll(a + b, from, to) == ReplaceAll(a, from, to) + ReplaceAll(b, from, to)
    decreases |a|
  {
    if a == [] {
      assert a + b == b;
    } else {
      assert (a + b)[1..] == a[1..] + b;
      ReplaceAllAppend(a[1..], b, from, to);
    }
  }

  function ToLowerChar(c: char): char {
    if 'A' <= c <= 'Z' then (c as int - 'A' as int + 'a' as int) as char else c
  }

  function ToUpperChar(c: char): char {
    if 'a' <= c <= 'z' then (c as int - 'a' as int + 'A' as int) as char else c
  }

  /** strings.ToLower, ASCII letters only. */
  function ToLower(s: string): (r: string)
    ensures |r| == |s|
    ensures forall i :: 0 <= i < |s| ==> r[i] == ToLowerChar(s[i])
  {
    if s == [] then [] else [ToLowerChar(s[0])] + ToLower(s[1..])
  }

  /** strings.ToUpper, ASCII letters only. */
  function ToUpper(s: string): (r: string)
    ensures |r| == |s|
    ensures forall i :: 0 <= i < |s| ==> r[i] == ToUpperChar(s[i])
  {
    if s == [] then [] else [ToUpperChar(s[0])] + ToUpper(s[1..])
  }

  /** The path with its trailing slashes removed (the loop at the start of path.Base). */
  function TrimTrailingSlashes(path: string): (r: string)
    ensures HasPrefix(path, r)
    ensures r == "" || r[|r| - 1] != '/'
    ensures path != "" && path[|path| - 1] != '/' ==> r == path
  {
    if path == "" || path[|path| - 1] != '/' then path
    else TrimTrailingSlashes(path[..|path| - 1])
  }

  /** path.Base: the last element of a slash-separated path. */
  function Base(path: string): (r: string)
    ensures r != ""
    ensures path == "" ==> r == "."
    ensures path != "" ==> |r| <= |path|
  {
    if path == "" then "."
    else
      var p := TrimTrailingSlashes(path);
      assert |p| <= |path|;
      var i := LastIndex(p, '/');
      var q := if i >= 0 then p[i + 1..] else p;
      assert |q| <= |p|;
      if q == "" then "/" else q
  }

  /** For a path that does not end in a slash, Base is the part after the last slash. */
  lemma BaseOfFilePath(path: string)
    requires path != "" && path[|path| - 1] != '/'
    ensures var b := Base(path);
            HasSuffix(path, b) && '/' !in b && (|b| == |path| || path[|path| - |b| - 1] == '/')
  {
    var i := LastIndex(path, '/');
    if i >= 0 {
      BaseOfSlashedPath(path, i);
    } else {
      BaseOfSlashlessPath(path);
      assert path[|path| - |path|..] == path;
    }
  }

  lemma BaseOfSlashedPath(path: string, i: int)
    requires path != "" && path[|path| - 1] != '/'
    requires i == LastIndex(path, '/') && i >= 0
    ensures var b := Base(path);
            HasSuffix(path, b) && '/' !in b && path[|path| - |b| - 1] == '/'
  {
    BaseIsAfterSlash(path, i);
    SuffixAfter(path, i, '/');
  }

  lemma BaseIsAfterSlash(path: string, i: int)
    requires path != "" && path[|path| - 1] != '/'
    requires i == LastIndex(path, '/') && i >= 0
    ensures Base(path) == path[i + 1..]
  {
    BaseAfterLastSlash(path);
  }

  lemma BaseOfSlashlessPath(path: string)
    requires path != "" && '/' !in path
    ensures Base(path) == path
  {
    BaseAfterLastSlash(path);
  }

  lemma BaseAfterLastSlash(path: string)
    requires path != "" && path[|path| - 1] != '/'
    ensures var i := LastIndex(path, '/');
            Base(path) == if i >= 0 then path[i + 1..] else path
  {
    assert TrimTrailingSlashes(path) == path;
  }

  /** What follows position i, when no later position holds `c`: a suffix without
      `c`, preceded by the character at i. */
  lemma SuffixAfter(s: string, i: int, c: char)
    requires 0 <= i < |s| && s[i] == c
    requires forall k :: i < k < |s| ==> s[k] != c
    ensures var q := s[i + 1..];
            HasSuffix(s, q) && c !in q && s[|s| - |q| - 1] == c
  {
    var q := s[i + 1..];
    assert s[|s| - |q|..] == q;
    forall k | 0 <= k < |q| ensures q[k] != c {
      assert q[k] == s[i + 1 + k];
    }
  }

  /** Where the extension of path[..n] starts: the last '.' after the last '/' (the loop
      of path.Ext, which scans backwards), or -1. */
  function ExtStart(path: string, n: nat): (i: int)
    requires n <= |path|
    ensures -1 <= i < n
    ensures 0 <= i ==> path[i] == '.'
    ensures 0 <= i ==> forall k :: i < k < n ==> path[k] != '/' && path[k] != '.'
  {
    if n == 0 || path[n - 1] == '/' then -1
    else if path[n - 1] == '.' then n - 1
    else ExtStart(path, n - 1)
  }

  /** path.Ext: the suffix of the last element that starts at its last dot, or "". */
  function Ext(path: string): (ext: string)
    ensures HasSuffix(path, ext)
    ensures ext == "" || (ext[0] == '.' && '/' !in ext && '.' !in ext[1..])
  {
    var i := ExtStart(path, |path|);
    if i < 0 then ""
    else
      var ext := path[i..];
      assert forall k :: 0 <= k < |ext| ==> ext[k] == path[i + k];
      assert '.' !in ext[1..] by {
        forall k | 0 <= k < |ext| - 1 ensures ext[1..][k] != '.' { assert ext[1..][k] == path[i + 1 + k]; }
      }
      ext
  }

  /** A piece-wise property of Join with the empty separator: a character that no piece
      contains is not in the concatenation. */
  lemma {:induction false} JoinWithoutChar(parts: seq<string>, c: char)
    requires forall i :: 0 <= i < |parts| ==> c !in parts[i]
    ensures c !in Join(parts, "")
  {
    if |parts| > 1 {
      var front := parts[..|parts| - 1];
      JoinWithoutChar(front, c);
      assert Join(parts, "") == Join(front, "") + parts[|parts| - 1];
    }
  }

  lemma {:induction false} ExtStartOfLastElement(dir: string, base: string, m: nat)
    requires m <= |base|
    requires '/' !in base
    requires dir == "" || dir[|dir| - 1] == '/'
    ensures var i := ExtStart(dir + base, |dir| + m);
      var j := ExtStart(base, m);
      (i == -1 && j == -1) || (j >= 0 && i == |dir| + j)
  {
    var s := dir + base;
    if m == 0 {
      assert |dir| > 0 ==> s[|dir| - 1] == '/';
    } else {
      assert s[|dir| + m - 1] == base[m - 1];
      assert base[m - 1] != '/' by { assert base[m - 1] in base; }
      ExtStartOfLastElement(dir, base, m - 1);
    }
  }

  /** Ext only looks at the last element of a path. */
  lemma ExtOfLastElement(dir: string, base: string)
    requires '/' !in base
    requires dir == "" || dir[|dir| - 1] == '/'
    ensures Ext(dir + base) == Ext(base)
  {
    var s := dir + base;
    assert |s| == |dir| + |base|;
    ExtStartOfLastElement(dir, base, |base|);
    var i := ExtStart(s, |s|);
    var j := ExtStart(base, |base|);
    if j >= 0 {
      assert i == |dir| + j;
      SliceOfAppend(dir, base, j);
      assert s[i..] == base[j..];
      assert Ext(s) == s[i..];
      assert Ext(base) == base[j..];
    } else {
      assert Ext(s) == "" && Ext(base) == "";
    }
  }

  /** A name ending in ".ts" has the extension ".ts". */
  lemma ExtOfTs(p: string)
    ensures Ext(p + ".ts") == ".ts"
  {
    var r := p + ".ts";
    var n := |r|;
    assert r[n - 1] == 's' && r[n - 2] == 't' && r[n - 3] == '.';
    assert ExtStart(r, n - 2) == n - 3;
    assert ExtStart(r, n - 1) == n - 3;
    assert ExtStart(r, n) == n - 3;
    assert r[n - 3..] == ".ts";
  }

  lemma SliceOfAppend(a: string, b: string, j: nat)
    requires j <= |b|
    ensures (a + b)[|a| + j..] == b[j..]
  {
  }

  lemma AppendAssoc(a: string, b: string, c: string)
    ensures (a + b) + c == a + (b + c)
  {
  }

  /** A suffix without `c` leaves `c` out of the last positions of `s`. */
  lemma SuffixWithout(s: string, suffix: string, c: char)
    requires HasSuffix(s, suffix) && c !in suffix
    ensures forall k :: |s| - |suffix| <= k < |s| ==> s[k] != c
  {
    forall k | |s| - |suffix| <= k < |s| ensures s[k] != c {
      assert s[k] == suffix[k - (|s| - |suffix|)];
    }
  }

  lemma SuffixSplit(s: string, suffix: string)
    requires HasSuffix(s, suffix)
    ensures s == s[..|s| - |suffix|] + suffix
  {
    assert s == s[..|s| - |suffix|] + s[|s| - |suffix|..];
  }
}
