/**
  Paths as Unix path strings, with the one operation of Rust's
  `std::path::Path` the saver uses: `join`.
 */
module Paths {

  /**
    `Path::new(base).join(p)` on Unix: an absolute `p` replaces the base;
    otherwise a single '/' separates the two, unless the base is empty or
    already ends in '/'.
   */
  function Join(base: string, p: string): (r: string)
    ensures |p| <= |r| && r[|r| - |p|..] == p
    ensures p != [] && p[0] == '/' ==> r == p
    ensures !(p != [] && p[0] == '/') ==> base <= r
  {
    if p != [] && p[0] == '/' then p
    else if base != [] && base[|base| - 1] != '/' then
      var r := base + "/" + p;
      assert r[|r| - |p|..] == p && r[..|base|] == base;
      r
    else
      var r := base + p;
      assert r[|r| - |p|..] == p && r[..|base|] == base;
      r
  }

  /** The text after the last '/' of a path: its final component when the path does not end in '/'. */
  function LastSegment(s: string): (r: string)
    ensures '/' !in r
    ensures |r| <= |s| && r == s[|s| - |r|..]
  {
    if s == [] || s[|s| - 1] == '/' then [] else LastSegment(s[..|s| - 1]) + [s[|s| - 1]]
  }

  /** A file name without '/' placed after a directory part is the last segment of the result. */
  lemma {:induction false} LastSegmentAfterSlash(q: string, p: string)
    requires '/' !in p
    requires q == [] || q[|q| - 1] == '/'
    ensures LastSegment(q + p) == p
  {
    if p != [] {
      var init, x := p[..|p| - 1], p[|p| - 1];
      assert p == init + [x];
      assert x in p;
      var s := q + init + [x];
      assert q + p == s;
      assert s[..|s| - 1] == q + init;
      LastSegmentAfterSlash(q, init);
    } else {
      assert q + p == q;
    }
  }

  /** Joining never alters a relative file name: it is the last segment of the joined path. */
  lemma JoinKeepsFileName(base: string, p: string)
    requires '/' !in p
    ensures LastSegment(Join(base, p)) == p
  {
    if base != [] && base[|base| - 1] != '/' {
      assert base + "/" + p == (base + "/") + p;
      LastSegmentAfterSlash(base + "/", p);
    } else {
      LastSegmentAfterSlash(base, p);
    }
  }
}
