/** `cleanTestName`: the display name of a raw test path. */
module TestNames {

  /** `strings.LastIndex` for a one-character needle: the last position of `c`, or -1. */
  function LastIndexOf(s: string, c: char): (r: int)
    ensures -1 <= r < |s|
    ensures r == -1 <==> c !in s
    ensures r >= 0 ==> s[r] == c
    ensures forall k :: r < k < |s| ==> s[k] != c
  {
    if |s| == 0 then -1
    else if s[|s| - 1] == c then |s| - 1
    else LastIndexOf(s[..|s| - 1], c)
  }

  /**
   * The text after the last '/', or, when there is no '/', after the last '\'.
   * A delimiter in final position is dropped and the name is looked up again.
   */
  function CleanTestName(path: string): (r: string)
    decreases |path|
    ensures |r| <= |path|
    ensures '/' !in r
    ensures '/' !in path ==> '\\' !in r
  {
    var unixIdx := LastIndexOf(path, '/');
    if unixIdx != -1 then
      if unixIdx == |path| - 1 then CleanTestName(path[..|path| - 1])
      else path[unixIdx + 1..]
    else
      var windowsIdx := LastIndexOf(path, '\\');
      if windowsIdx != -1 then
        if windowsIdx == |path| - 1 then CleanTestName(path[..|path| - 1])
        else path[windowsIdx + 1..]
      else path
  }

  /**
   * One step of `CleanTestName`: either the name is a suffix `path[k..]`, or
   * the path ends in a delimiter and the name is that of the path without it.
   */
  lemma CleanTestNameUnfold(path: string) returns (k: int)
    ensures k == -1 ==> |path| > 0 && CleanTestName(path) == CleanTestName(path[..|path| - 1])
    ensures k != -1 ==> 0 <= k <= |path| && CleanTestName(path) == path[k..]
  {
    var unixIdx := LastIndexOf(path, '/');
    var windowsIdx := LastIndexOf(path, '\\');
    if unixIdx != -1 {
      k := if unixIdx == |path| - 1 then -1 else unixIdx + 1;
    } else if windowsIdx != -1 {
      k := if windowsIdx == |path| - 1 then -1 else windowsIdx + 1;
    } else {
      k := 0;
    }
  }

  /** The name is a contiguous piece of the path. */
  lemma {:induction false} CleanTestNameIsSlice(path: string) returns (i: nat, j: nat)
    ensures i <= j <= |path|
    ensures CleanTestName(path) == path[i..j]
    decreases |path|
  {
    var k := CleanTestNameUnfold(path);
    if k == -1 {
      i, j := CleanTestNameIsSlice(path[..|path| - 1]);
      SliceOfPrefix(path, |path| - 1, i, j);
    } else {
      i, j := k, |path|;
    }
  }

  /** A slice of a prefix is the same slice of the whole. */
  lemma SliceOfPrefix(s: string, n: nat, i: nat, j: nat)
    requires i <= j <= n <= |s|
    ensures s[..n][i..j] == s[i..j]
  {
  }

  /** A path without either delimiter is already a name. */
  lemma CleanTestNameOfPlainName(path: string)
    requires '/' !in path && '\\' !in path
    ensures CleanTestName(path) == path
  {
  }

  /**
   * `name` is the last non-empty `d`-segment of `path`: the path is `p + name + t`
   * where `t` is a run of `d` and `p` is empty or ends in `d`, `name` has no `d`,
   * and `name` is empty only for a path made of `d` alone.
   */
  ghost predicate IsLastSegment(path: string, name: string, d: char, p: string, t: string)
  {
    && path == p + name + t
    && d !in name
    && (forall k :: 0 <= k < |t| ==> t[k] == d)
    && (p == [] || p[|p| - 1] == d)
    && (name == [] ==> forall k :: 0 <= k < |path| ==> path[k] == d)
  }

  /** With a single kind of delimiter `d`, the display name is the last non-empty segment. */
  lemma {:induction false} CleanTestNameIsLastSegment(path: string, d: char) returns (p: string, t: string)
    requires (d == '/' && '\\' !in path) || (d == '\\' && '/' !in path)
    ensures IsLastSegment(path, CleanTestName(path), d, p, t)
    decreases |path|
  {
    var idx := LastIndexOf(path, d);
    CleanTestNameStep(path, d);
    if idx == -1 {
      assert CleanTestName(path) == path;
      p, t := [], [];
      assert path == p + path + t;
    } else if idx == |path| - 1 {
      var init := path[..|path| - 1];
      assert CleanTestName(path) == CleanTestName(init);
      var p', t' := CleanTestNameIsLastSegment(init, d);
      p, t := p', t' + [d];
      AppendDelimiter(path, init, d, p, CleanTestName(init), t');
    } else {
      assert CleanTestName(path) == path[idx + 1..];
      p, t := path[..idx + 1], [];
      SplitAfterDelimiter(path, idx, d);
    }
  }

  /** Cutting after a delimiter that is not the last character gives a last segment. */
  lemma SplitAfterDelimiter(path: string, idx: int, d: char)
    requires 0 <= idx < |path| - 1 && path[idx] == d && d !in path[idx + 1..]
    ensures IsLastSegment(path, path[idx + 1..], d, path[..idx + 1], [])
  {
  }

  /** Adding one delimiter to the path adds it to the trailing run. */
  lemma AppendDelimiter(path: string, init: string, d: char, p: string, name: string, t: string)
    requires |path| > 0 && init == path[..|path| - 1] && path[|path| - 1] == d
    requires IsLastSegment(init, name, d, p, t)
    ensures IsLastSegment(path, name, d, p, t + [d])
  {
  }

  /** One unfolding of CleanTestName for a path with a single kind of delimiter `d`. */
  lemma CleanTestNameStep(path: string, d: char)
    requires (d == '/' && '\\' !in path) || (d == '\\' && '/' !in path)
    ensures LastIndexOf(path, d) == -1 ==> CleanTestName(path) == path
    ensures |path| > 0 && LastIndexOf(path, d) == |path| - 1 ==> CleanTestName(path) == CleanTestName(path[..|path| - 1])
    ensures 0 <= LastIndexOf(path, d) < |path| - 1 ==> CleanTestName(path) == path[LastIndexOf(path, d) + 1..]
  {
    if d == '\\' {
      assert LastIndexOf(path, '/') == -1;
    }
  }

  /** The last `c` of `p + [c] + s` is the one after `p` when `s` has no `c`. */
  lemma {:induction false} LastIndexOfBefore(p: string, c: char, s: string)
    requires c !in s
    ensures LastIndexOf(p + [c] + s, c) == |p|
    decreases |s|
  {
    if s != [] {
      var w := p + [c] + s;
      assert w[..|w| - 1] == p + [c] + s[..|s| - 1];
      LastIndexOfBefore(p, c, s[..|s| - 1]);
    }
  }

  /** Whatever precedes it, a final non-empty `/`-free segment after a `/` is the name. */
  lemma CleanTestNameAfterLastSlash(p: string, s: string)
    requires s != [] && '/' !in s
    ensures CleanTestName(p + ['/'] + s) == s
  {
    var w := p + ['/'] + s;
    LastIndexOfBefore(p, '/', s);
    assert w[|p| + 1..] == s;
  }

  /** Normalising twice changes nothing when the path uses only one kind of delimiter. */
  lemma CleanTestNameIdempotent(path: string)
    requires '/' !in path || '\\' !in path
    ensures CleanTestName(CleanTestName(path)) == CleanTestName(path)
  {
  }

  /** With mixed delimiters normalisation is not idempotent: "a/b\c" gives "b\c", which gives "c". */
  lemma CleanTestNameMixedDelimiters()
    ensures CleanTestName("a/b\\c") == "b\\c"
    ensures CleanTestName("b\\c") == "c"
  {
  }

  /** Worked cases: plain paths, trailing delimiters and the empty path. */
  lemma CleanTestNameExamples()
    ensures CleanTestName("") == ""
    ensures CleanTestName("/") == ""
    ensures CleanTestName("a/b/c") == "c"
    ensures CleanTestName("a\\b\\c") == "c"
    ensures CleanTestName("a/b/") == "b"
    ensures CleanTestName("a\\b\\") == "b"
  {
    assert "/"[..0] == "";
    assert LastIndexOf("a/b/c", '/') == 3 by { assert "a/b/c"[..4] == "a/b/"; }
    assert LastIndexOf("a\\b\\c", '/') == -1;
    assert LastIndexOf("a\\b\\c", '\\') == 3 by { assert "a\\b\\c"[..4] == "a\\b\\"; }
    assert "a/b/"[..3] == "a/b";
    assert LastIndexOf("a/b", '/') == 1 by { assert "a/b"[..2] == "a/"; }
    assert "a\\b\\"[..3] == "a\\b";
    assert LastIndexOf("a\\b\\", '/') == -1;
    assert LastIndexOf("a\\b", '/') == -1;
    assert LastIndexOf("a\\b", '\\') == 1 by { assert "a\\b"[..2] == "a\\"; }
  }
}
