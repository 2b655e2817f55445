/**
 Text helpers that mirror the two string operations the profiler relies on:
 Python's `str.endswith` and the POSIX `os.path.basename`.
 */
module Paths {

  /** `s` is some stem followed by `suffix`: the reference reading of "ends with". */
  ghost predicate HasStem(s: string, suffix: string) {
    exists stem: string :: stem + suffix == s
  }

  /**
   Python's `s.endswith(suffix)`: the last `|suffix|` characters of `s` are `suffix`.
   It agrees with the stem reading in both directions.
   */
  predicate EndsWith(s: string, suffix: string)
    ensures EndsWith(s, suffix) <==> HasStem(s, suffix)
  {
    var r := |suffix| <= |s| && s[|s| - |suffix|..] == suffix;
    assert r ==> HasStem(s, suffix) by {
      if r {
        assert s[..|s| - |suffix|] + suffix == s;
      }
    }
    assert HasStem(s, suffix) ==> r by {
      if HasStem(s, suffix) {
        var stem: string :| stem + suffix == s;
        assert s[|stem|..] == suffix;
      }
    }
    r
  }

  /**
   Python's `s.endswith((a, b, ...))`: `s` ends with at least one of the given suffixes,
   that is, it is a stem followed by one of them.
   */
  predicate EndsWithAny(s: string, suffixes: seq<string>)
    ensures EndsWithAny(s, suffixes) <==> exists k :: 0 <= k < |suffixes| && HasStem(s, suffixes[k])
  {
    exists k :: 0 <= k < |suffixes| && EndsWith(s, suffixes[k])
  }

  /** Appending a suffix to any stem gives a string that ends with it. */
  lemma EndsWithAppend(stem: string, suffix: string)
    ensures EndsWith(stem + suffix, suffix)
  {
    assert (stem + suffix)[|stem|..] == suffix;
  }

  /** POSIX `os.path.basename`: the part of `p` after its last '/', or all of `p` when it holds no '/'. */
  function Basename(p: string): (b: string)
    ensures '/' !in b && |b| <= |p|
    decreases |p|
  {
    if |p| == 0 then ""
    else if p[|p| - 1] == '/' then ""
    else Basename(p[..|p| - 1]) + [p[|p| - 1]]
  }

  /** The file name is the longest slash-free suffix: it holds no '/', ends the path, and is preceded by '/' unless it is the whole path. */
  lemma {:induction false} BasenameIsLastSegment(p: string)
    ensures '/' !in Basename(p)
    ensures EndsWith(p, Basename(p))
    ensures |Basename(p)| == |p| || p[|p| - |Basename(p)| - 1] == '/'
    decreases |p|
  {
    if |p| > 0 && p[|p| - 1] != '/' {
      var q := p[..|p| - 1];
      BasenameIsLastSegment(q);
      var b := Basename(p);
      assert b == Basename(q) + [p[|p| - 1]];
      assert p == q + [p[|p| - 1]];
      assert p[|p| - |b|..] == q[|q| - |Basename(q)|..] + [p[|p| - 1]];
    }
  }

  /** The three properties in `Basename`'s contract determine its result uniquely. */
  lemma BasenameUnique(p: string, b: string)
    requires '/' !in b
    requires EndsWith(p, b)
    requires |b| == |p| || p[|p| - |b| - 1] == '/'
    ensures b == Basename(p)
  {
    BasenameIsLastSegment(p);
    var c := Basename(p);
    assert |b| == |c|;
    assert b == p[|p| - |b|..] == c;
  }

  /** Joining a directory and a slash-free file name with '/' and taking the basename gives the name back. */
  lemma BasenameOfJoin(dir: string, name: string)
    requires '/' !in name
    ensures Basename(dir + "/" + name) == name
  {
    var p := dir + "/" + name;
    assert p[|p| - |name|..] == name;
    assert p[|p| - |name| - 1] == '/';
    BasenameUnique(p, name);
  }
}
