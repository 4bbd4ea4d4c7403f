/**
 * Path helpers the core calls: `util.splitPath`, `util.cleanPath`,
 * `util.trimPrefix`, `util.trimSuffix`, `util.splitBy`,
 * `util.isLikelyHttpURL` and the POSIX `basename` / `extname` of the
 * standard path module. lib/util.ts is not part of this model; these
 * definitions follow the way server/routing.ts and server/build.ts use them.
 */
module Paths {
  import opened Wrappers
  import opened Strings

  /** The segments of a path that carry a name: empty and `.` segments dropped. */
  function Significant(parts: seq<string>): (r: seq<string>)
    ensures forall i :: 0 <= i < |r| ==> r[i] != "" && r[i] != "."
    ensures forall i :: 0 <= i < |r| ==> r[i] in parts
    ensures |r| <= |parts|
  {
    if parts == [] then []
    else if parts[0] == "" || parts[0] == "." then Significant(parts[1..])
    else [parts[0]] + Significant(parts[1..])
  }

  predicate IsSegment(s: string) {
    s != "" && s != "." && '/' !in s
  }

  /** `util.splitPath`: the named segments of a `/`-separated path. */
  function SplitPath(p: string): (r: seq<string>)
    ensures forall i :: 0 <= i < |r| ==> IsSegment(r[i])
  {
    Significant(SplitOn(p, '/'))
  }

  lemma {:induction false} SignificantId(parts: seq<string>)
    requires forall i :: 0 <= i < |parts| ==> IsSegment(parts[i])
    ensures Significant(parts) == parts
  {
    if parts != [] {
      SignificantId(parts[1..]);
    }
  }

  /** Splitting a path written as `/`-joined segments gives back those segments. */
  lemma SplitPathJoin(segs: seq<string>)
    requires forall i :: 0 <= i < |segs| ==> IsSegment(segs[i])
    ensures SplitPath(Join(segs, "/")) == segs
  {
    if segs == [] {
      assert SplitOn("", '/') == [""];
    } else {
      SplitOnJoin(segs, '/');
      SignificantId(segs);
    }
  }

  /** A leading slash adds only an empty segment, which `SplitPath` drops. */
  lemma SplitPathLeadingSlash(p: string)
    ensures SplitPath("/" + p) == SplitPath(p)
  {
    var s := "/" + p;
    assert IndexOf(s, '/') == Some(0);
    assert s[1..] == p;
  }

  /** Drops each `..` together with the segment before it, as `cleanPath` does. */
  function Resolve(segs: seq<string>, acc: seq<string>): (r: seq<string>)
    ensures forall i :: 0 <= i < |r| ==> r[i] in segs || r[i] in acc
  {
    if segs == [] then acc
    else if segs[0] == ".." then Resolve(segs[1..], if acc == [] then [] else acc[..|acc| - 1])
    else Resolve(segs[1..], acc + [segs[0]])
  }

  /** `util.cleanPath`: a rooted path with empty and `.` segments removed and `..` resolved. */
  function CleanPath(p: string): (r: string)
    ensures |r| >= 1 && r[0] == '/'
  {
    "/" + Join(Resolve(SplitPath(p), []), "/")
  }

  /** Every character of a join is a separator character or comes from one of the parts. */
  lemma {:induction false} JoinChars(parts: seq<string>, sep: string, c: char)
    requires c in Join(parts, sep)
    ensures c in sep || exists i :: 0 <= i < |parts| && c in parts[i]
  {
    if |parts| > 1 {
      var rest := Join(parts[1..], sep);
      if c !in parts[0] && c !in sep {
        assert c in rest;
        JoinChars(parts[1..], sep, c);
        var i :| 0 <= i < |parts| - 1 && c in parts[1..][i];
        assert c in parts[i + 1];
      }
    }
  }

  /** `cleanPath` introduces no character other than `/`. */
  lemma CleanPathChars(p: string, c: char)
    requires c in CleanPath(p) && c != '/'
    ensures c in p
  {
    var segs := Resolve(SplitPath(p), []);
    assert c in Join(segs, "/");
    JoinChars(segs, "/", c);
    var i :| 0 <= i < |segs| && c in segs[i];
    assert segs[i] in SplitPath(p);
    var pieces := SplitOn(p, '/');
    assert segs[i] in pieces;
    JoinSplitOn(p, '/');
    var k :| 0 <= k < |pieces| && pieces[k] == segs[i];
    JoinHasPart(pieces, "/", k, c);
  }

  /** Each character of a part occurs in the join. */
  lemma {:induction false} JoinHasPart(parts: seq<string>, sep: string, k: nat, c: char)
    requires k < |parts| && c in parts[k]
    ensures c in Join(parts, sep)
  {
    if |parts| > 1 && k > 0 {
      JoinHasPart(parts[1..], sep, k - 1, c);
    }
  }

  /** `util.trimPrefix`. */
  function TrimPrefix(s: string, prefix: string): (r: string)
    ensures StartsWith(s, prefix) ==> prefix + r == s
    ensures !StartsWith(s, prefix) ==> r == s
  {
    if StartsWith(s, prefix) then s[|prefix|..] else s
  }

  /** `util.trimSuffix`. */
  function TrimSuffix(s: string, suffix: string): (r: string)
    ensures EndsWith(s, suffix) ==> r + suffix == s
    ensures !EndsWith(s, suffix) ==> r == s
  {
    if EndsWith(s, suffix) then s[..|s| - |suffix|] else s
  }

  /**
   * The standard `join` applied to an absolute directory and a path: the
   * two put together with `/` and normalised as `cleanPath` normalises.
   */
  function JoinPath(dir: string, p: string): (r: string)
    ensures |r| >= 1 && r[0] == '/'
  {
    CleanPath(dir + "/" + p)
  }

  /** `util.isLikelyHttpURL`: the text names a remote module. */
  predicate IsLikelyHttpURL(s: string) {
    StartsWith(s, "https://") || StartsWith(s, "http://")
  }

  /** `util.splitBy(s, c)`: the text before and after the first `c` (`[s, ""]` when there is none). */
  function SplitBy(s: string, c: char): (r: (string, string))
    ensures c !in r.0
    ensures c in s ==> r.0 + [c] + r.1 == s
    ensures c !in s ==> r == (s, "")
  {
    match IndexOf(s, c)
    case None => (s, "")
    case Some(i) =>
      assert s == s[..i] + [c] + s[i + 1..];
      (s[..i], s[i + 1..])
  }

  function TrimTrailingSlashes(p: string): (r: string)
    ensures StartsWith(p, r)
    ensures r == [] || r[|r| - 1] != '/'
  {
    if p != [] && p[|p| - 1] == '/' then TrimTrailingSlashes(p[..|p| - 1]) else p
  }

  /** POSIX `basename`: the last segment, trailing slashes ignored. */
  function Basename(p: string): (r: string)
    ensures '/' !in r
  {
    var t := TrimTrailingSlashes(p);
    match LastIndexOf(t, '/')
    case None => t
    case Some(i) => t[i + 1..]
  }

  /**
   * POSIX `extname`: the last segment from its last `.` on, or `""` when
   * that segment has no `.`, has it only in front (`.env`), or is `..`.
   */
  function Extname(p: string): (r: string)
    ensures r == "" || (r[0] == '.' && '.' !in r[1..] && EndsWith(Basename(p), r) && |r| < |Basename(p)|)
  {
    var b := Basename(p);
    match LastIndexOf(b, '.')
    case None => ""
    case Some(k) =>
      if k == 0 || b == ".." then ""
      else
        Suffix(b, k);
        b[k..]
  }

  /** The text of `b` from a `.` that is its last one on: a proper suffix that has no other `.`. */
  lemma Suffix(b: string, k: nat)
    requires 0 < k < |b| && b[k] == '.' && '.' !in b[k + 1..]
    ensures b[k..][0] == '.' && '.' !in b[k..][1..] && EndsWith(b, b[k..]) && |b[k..]| < |b|
  {
    assert b[k..][1..] == b[k + 1..];
  }

  /** A name without `/` is its own basename. */
  lemma BasenameOfSegment(b: string)
    requires b != "" && '/' !in b
    ensures Basename(b) == b
  {
    assert b[|b| - 1] != '/';
    assert TrimTrailingSlashes(b) == b;
  }

  /** A basename `stem + "." + e` has the extension `"." + e`. */
  lemma ExtnameOf(stem: string, e: string)
    requires '/' !in stem && '/' !in e && '.' !in e
    requires stem != "" && stem != "."
    ensures Extname(stem + "." + e) == "." + e
  {
    var b := stem + "." + e;
    BasenameOfSegment(b);
    LastIndexOfLast(stem, '.', e);
    assert b[|stem|..] == "." + e;
    assert b != "..";
  }
}
