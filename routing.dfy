/**
 * The route compiler of server/routing.ts: a routing configuration becomes
 * a prefix, a `test` predicate and an `exec` function from file names to
 * URL patterns; `initRoutes` turns a directory listing into the ordered,
 * annotated route table.
 */
module Routing {
  import opened Wrappers
  import opened Strings
  import opened Paths
  import opened Types
  import Graph

  // ---------------------------------------------------------------------------
  // toRouteRegExp: prefix and test
  // ---------------------------------------------------------------------------

  /** The directory named by the configuration: `dir`, or a glob's text before its first `*`. */
  function SourceDir(source: RouteSource): string {
    match source
    case Structured(c) => c.dir
    case Glob(g, _) => Before(g, '*')
  }

  /** `prefix`: `"." + cleanPath(dir)`, the directory the route files are listed from. */
  function Prefix(source: RouteSource): (r: string)
    ensures StartsWith(r, "./")
  {
    "." + CleanPath(SourceDir(source))
  }

  /** A glob's prefix stops before the first wildcard: it holds no `*`. */
  lemma GlobPrefixHasNoWildcard(glob: string, matches: string -> bool)
    ensures '*' !in Prefix(Glob(glob, matches))
  {
    var dir := Before(glob, '*');
    forall c | c in CleanPath(dir) && c != '/'
      ensures c in dir
    {
      CleanPathChars(dir, c);
    }
  }

  /** An extension as configured, with the leading dot supplied when it is missing. */
  function DottedExt(ext: string): string {
    if StartsWith(ext, ".") then ext else "." + ext
  }

  /** Whether the filename ends with the extension, the dot supplied when missing. */
  predicate HasExt(filename: string, ext: string) {
    EndsWith(filename, DottedExt(ext))
  }

  /** `test`: a structured configuration checks prefix and extension; a glob runs its matcher. */
  predicate Test(source: RouteSource, filename: string) {
    match source
    case Structured(c) => StartsWith(filename, Prefix(source)) && FindIndex(c.exts, ext => HasExt(filename, ext)).Some?
    case Glob(_, matches) => matches(filename)
  }

  /** A structured `test` holds exactly for the names under the prefix that end in a configured extension. */
  lemma TestStructured(c: RoutesConfig, filename: string)
    ensures Test(Structured(c), filename) <==>
      && StartsWith(filename, "." + CleanPath(c.dir))
      && exists i :: 0 <= i < |c.exts| && EndsWith(filename, DottedExt(c.exts[i]))
  {
    var found := FindIndex(c.exts, ext => HasExt(filename, ext));
    if i :| 0 <= i < |c.exts| && EndsWith(filename, DottedExt(c.exts[i])) {
      assert HasExt(filename, c.exts[i]);
    }
    if found.Some? {
      assert HasExt(filename, c.exts[found.value]);
    }
  }

  // ---------------------------------------------------------------------------
  // exec
  // ---------------------------------------------------------------------------

  /**
   * The segment rewrite of `exec`, tried in order: `[...name]` becomes
   * `:name+`, `[name]` becomes `:name`, `$name` becomes `:name`. Only the
   * first `]` is replaced; any text after it (an extension) stays.
   */
  function RewriteSegment(part: string): string {
    if StartsWith(part, "[...") && ']' in part && |part| > 5 then ":" + ReplaceFirst(part[4..], ']', "+")
    else if StartsWith(part, "[") && ']' in part && |part| > 2 then ":" + ReplaceFirst(part[1..], ']', "")
    else if StartsWith(part, "$") && |part| > 1 then ":" + part[1..]
    else part
  }

  /** `[...name]rest` becomes `:name+rest`, a catch-all parameter. */
  lemma RewriteCatchAll(name: string, rest: string)
    requires ']' !in name && |name| + |rest| > 0
    ensures RewriteSegment("[..." + name + "]" + rest) == ":" + name + "+" + rest
  {
    var part := "[..." + name + "]" + rest;
    assert RewriteSegment(part) == ":" + ReplaceFirst(part[4..], ']', "+") by {
      assert part[..4] == "[...";
      assert part[4 + |name|] == ']';
    }
    assert ReplaceFirst(part[4..], ']', "+") == name + "+" + rest by {
      assert part[4..] == name + [']'] + rest;
      ReplaceFirstAt(name, ']', rest, "+");
    }
    assert ":" + (name + "+" + rest) == ":" + name + "+" + rest;
  }

  /** `[name]rest`, where `name` does not open with `...`, becomes `:name rest`, a named parameter. */
  lemma RewriteParam(name: string, rest: string)
    requires ']' !in name && !StartsWith(name, "...") && |name| + |rest| > 0
    ensures RewriteSegment("[" + name + "]" + rest) == ":" + name + rest
  {
    var part := "[" + name + "]" + rest;
    NotCatchAll(name, rest);
    BracketOpens(name, rest);
    RewriteBracket(part);
    BracketBody(name, rest);
  }

  lemma BracketOpens(name: string, rest: string)
    ensures StartsWith("[" + name + "]" + rest, "[") && ']' in "[" + name + "]" + rest
  {
    var part := "[" + name + "]" + rest;
    assert part[..1] == "[";
    assert part[1 + |name|] == ']';
  }

  lemma BracketBody(name: string, rest: string)
    requires ']' !in name
    ensures ":" + ReplaceFirst(("[" + name + "]" + rest)[1..], ']', "") == ":" + name + rest
  {
    var part := "[" + name + "]" + rest;
    assert part[1..] == name + [']'] + rest;
    ReplaceFirstAt(name, ']', rest, "");
    assert name + "" + rest == name + rest;
  }

  /** The second rule of the rewrite applies to a `[`…`]` segment that is not a catch-all. */
  lemma RewriteBracket(part: string)
    requires !StartsWith(part, "[...") && StartsWith(part, "[") && ']' in part && |part| > 2
    ensures RewriteSegment(part) == ":" + ReplaceFirst(part[1..], ']', "")
  {
  }

  /** `[name]rest` opens with `[...` only when `name` opens with `...`. */
  lemma NotCatchAll(name: string, rest: string)
    requires ']' !in name && !StartsWith(name, "...")
    ensures !StartsWith("[" + name + "]" + rest, "[...")
  {
    var part := "[" + name + "]" + rest;
    if |part| >= 4 {
      if |name| >= 3 {
        assert part[1..4] == name[..3];
      } else {
        assert part[1..4][|name|] == ']';
      }
      assert part[..4] != "[...";
    }
  }

  /** `$name` becomes `:name`. */
  lemma RewriteDollar(name: string)
    requires name != ""
    ensures RewriteSegment("$" + name) == ":" + name
  {
    var part := "$" + name;
    assert RewriteSegment(part) == ":" + part[1..] by {
      assert part[0] == '$';
      FirstCharDiffers(part, "[");
      FirstCharDiffers(part, "[...");
      assert StartsWith(part, "$");
    }
    assert part[1..] == name;
  }

  /** A segment that opens with neither `[` nor `$` is kept as it is. */
  lemma RewriteLiteral(part: string)
    requires part == "" || (part[0] != '[' && part[0] != '$')
    ensures RewriteSegment(part) == part
  {
    if part != "" {
      FirstCharDiffers(part, "[");
      FirstCharDiffers(part, "[...");
      FirstCharDiffers(part, "$");
    }
  }

  /** The rewritten segments of the path below the prefix. */
  function RouteSegments(source: RouteSource, filename: string): (r: seq<string>)
    ensures |r| == |SplitPath(TrimPrefix(filename, Prefix(source)))|
    ensures forall i :: 0 <= i < |r| ==> r[i] == RewriteSegment(SplitPath(TrimPrefix(filename, Prefix(source)))[i])
  {
    var parts := SplitPath(TrimPrefix(filename, Prefix(source)));
    seq(|parts|, i requires 0 <= i < |parts| => RewriteSegment(parts[i]))
  }

  /** The last segment with its extension removed. */
  function Stem(base: string): string {
    TrimSuffix(base, Extname(base))
  }

  /** `/` followed by the segments, the last one without its extension; `/index` alone is `/`. */
  function Pathname(parts: seq<string>): (r: string)
    requires parts != []
    ensures |r| >= 1 && r[0] == '/' && r != "/index"
    ensures var joined := "/" + Join(parts[..|parts| - 1] + [Stem(parts[|parts| - 1])], "/");
      (joined == "/index" ==> r == "/") && (joined != "/index" ==> r == joined)
  {
    var pathname := "/" + Join(parts[..|parts| - 1] + [Stem(parts[|parts| - 1])], "/");
    if pathname == "/index" then "/" else pathname
  }

  /** What `exec` returns: `null`, a pattern, or the exception thrown when no segment is left. */
  datatype ExecResult = NoMatch | Matched(pattern: RoutePattern) | Throws

  /** Whether `exec` takes the first segment as the host: host-aware, two or more segments, `@` first. */
  predicate TakesHost(source: RouteSource, parts: seq<string>) {
    source.Structured? && source.config.host && |parts| > 1 && StartsWith(parts[0], "@")
  }

  /**
   * `exec`: `null` unless `test` holds; otherwise the pattern of the
   * rewritten segments, the first taken as the host when `TakesHost` holds.
   * With no segment left, `parts.pop()` is `undefined` and `extname` throws.
   */
  function Exec(source: RouteSource, filename: string): (r: ExecResult)
    ensures r.NoMatch? <==> !Test(source, filename)
    ensures r.Throws? <==> Test(source, filename) && SplitPath(TrimPrefix(filename, Prefix(source))) == []
    ensures r.Matched? ==> r.pattern.host.Some? ==> source.Structured? && source.config.host
    ensures r.Matched? ==> (r.pattern.host.Some? <==> TakesHost(source, RouteSegments(source, filename)))
    ensures r.Matched? && TakesHost(source, RouteSegments(source, filename)) ==>
      var parts := RouteSegments(source, filename);
      r.pattern == RoutePattern(Some(parts[0][1..]), Pathname(parts[1..]))
    ensures r.Matched? && !TakesHost(source, RouteSegments(source, filename)) ==>
      r.pattern == RoutePattern(None, Pathname(RouteSegments(source, filename)))
  {
    if !Test(source, filename) then NoMatch
    else
      var parts := RouteSegments(source, filename);
      if parts == [] then Throws
      else if TakesHost(source, parts) then
        Matched(RoutePattern(Some(parts[0][1..]), Pathname(parts[1..])))
      else
        Matched(RoutePattern(None, Pathname(parts)))
  }

  /**
   * `RouteRegExp`: what `toRouteRegExp` compiles a configuration into, and
   * what `initRoutes` works from (a caller may also hand one in directly).
   */
  datatype RouteRegExp = RouteRegExp(prefix: string, test: string -> bool, exec: string -> ExecResult)

  /** `toRouteRegExp`: the prefix, `test` and `exec` of a routing configuration. */
  function ToRouteRegExp(source: RouteSource): (r: RouteRegExp)
    ensures r.prefix == Prefix(source)
    ensures forall f :: r.test(f) == Test(source, f)
    ensures forall f :: r.exec(f) == Exec(source, f)
  {
    RouteRegExp(Prefix(source), f => Test(source, f), f => Exec(source, f))
  }

  // ---------------------------------------------------------------------------
  // exec on concrete route files
  // ---------------------------------------------------------------------------

  /** A file written as the prefix, `/` and named segments yields those segments, each rewritten. */
  lemma SegmentsBelowPrefix(source: RouteSource, segs: seq<string>)
    requires forall i :: 0 <= i < |segs| ==> IsSegment(segs[i])
    ensures |RouteSegments(source, Prefix(source) + "/" + Join(segs, "/"))| == |segs|
    ensures forall i :: 0 <= i < |segs| ==>
      RouteSegments(source, Prefix(source) + "/" + Join(segs, "/"))[i] == RewriteSegment(segs[i])
  {
    var filename := Prefix(source) + "/" + Join(segs, "/");
    assert filename == Prefix(source) + ("/" + Join(segs, "/"));
    TrimToRest(Prefix(source), "/" + Join(segs, "/"), filename);
    SplitRooted(segs);
  }

  /** Trimming a prefix from the text it opens leaves the rest. */
  lemma TrimToRest(prefix: string, rest: string, s: string)
    requires s == prefix + rest
    ensures TrimPrefix(s, prefix) == rest
  {
    PrefixOfConcat(prefix, rest);
    assert s[|prefix|..] == rest;
  }

  /** Named segments written after a `/` split back into themselves. */
  lemma SplitRooted(segs: seq<string>)
    requires forall i :: 0 <= i < |segs| ==> IsSegment(segs[i])
    ensures SplitPath("/" + Join(segs, "/")) == segs
  {
    SplitPathLeadingSlash(Join(segs, "/"));
    SplitPathJoin(segs);
  }

  /** The stem of `stem.e` is `stem`. */
  lemma StemOf(stem: string, e: string)
    requires '/' !in stem && '/' !in e && '.' !in e
    requires stem != "" && stem != "."
    ensures Stem(stem + "." + e) == stem
  {
    ExtnameOf(stem, e);
    TrimDotExt(stem, e);
  }

  lemma TrimDotExt(stem: string, e: string)
    ensures TrimSuffix(stem + "." + e, "." + e) == stem
  {
    assert stem + "." + e == stem + ("." + e);
    TrimSuffixConcat(stem, "." + e);
  }

  /** Trimming a suffix from the text it closes leaves the rest. */
  lemma TrimSuffixConcat(a: string, x: string)
    ensures TrimSuffix(a + x, x) == a
  {
    var b := a + x;
    assert b[|b| - |x|..] == x;
    assert b[..|b| - |x|] == a;
  }

  /** The configuration of a `routes` directory of `.tsx` files, host-aware or not. */
  function TsxRoutes(host: bool): RouteSource {
    Structured(RoutesConfig("routes", ["tsx"], host))
  }

  /** The prefix of the `routes` directory is `./routes`. */
  lemma RoutesPrefix(host: bool)
    ensures Prefix(TsxRoutes(host)) == "./routes"
  {
    CleanSegment("routes");
  }

  /** A single named segment other than `..` cleans to itself behind a `/`. */
  lemma CleanSegment(d: string)
    requires IsSegment(d) && d != ".."
    ensures CleanPath(d) == "/" + d
  {
    SplitPathJoin([d]);
    assert Join([d], "/") == d;
    assert Resolve([d], []) == [d] by {
      assert Resolve([d][1..], [] + [d]) == [d];
    }
  }

  /** `test` accepts a `.tsx` file under `./routes`. */
  lemma TsxTest(host: bool, f: string)
    requires StartsWith(f, "./routes") && EndsWith(f, ".tsx")
    ensures Test(TsxRoutes(host), f)
  {
    RoutesPrefix(host);
    assert HasExt(f, "tsx");
  }

  /** A `.tsx` file `./routes/` + segments: `test` accepts it and its segments are rewritten one by one. */
  lemma TsxRouteFile(host: bool, segs: seq<string>)
    requires forall i :: 0 <= i < |segs| ==> IsSegment(segs[i])
    requires EndsWith("./routes" + "/" + Join(segs, "/"), ".tsx")
    ensures Test(TsxRoutes(host), "./routes" + "/" + Join(segs, "/"))
    ensures |RouteSegments(TsxRoutes(host), "./routes" + "/" + Join(segs, "/"))| == |segs|
    ensures forall i :: 0 <= i < |segs| ==>
      RouteSegments(TsxRoutes(host), "./routes" + "/" + Join(segs, "/"))[i] == RewriteSegment(segs[i])
  {
    var f := "./routes" + "/" + Join(segs, "/");
    assert StartsWith(f, "./routes") by {
      assert f == "./routes" + ("/" + Join(segs, "/"));
      PrefixOfConcat("./routes", "/" + Join(segs, "/"));
    }
    TsxTest(host, f);
    RoutesPrefix(host);
    SegmentsBelowPrefix(TsxRoutes(host), segs);
  }

  /** `TsxRouteFile` for one segment. */
  lemma TsxRouteFileOne(host: bool, a: string)
    requires IsSegment(a)
    requires EndsWith("./routes" + "/" + Join([a], "/"), ".tsx")
    ensures Test(TsxRoutes(host), "./routes" + "/" + Join([a], "/"))
    ensures RouteSegments(TsxRoutes(host), "./routes" + "/" + Join([a], "/")) == [RewriteSegment(a)]
  {
    TsxRouteFile(host, [a]);
  }

  /** `TsxRouteFile` for two segments. */
  lemma TsxRouteFileTwo(host: bool, a: string, b: string)
    requires IsSegment(a) && IsSegment(b)
    requires EndsWith("./routes" + "/" + Join([a, b], "/"), ".tsx")
    ensures Test(TsxRoutes(host), "./routes" + "/" + Join([a, b], "/"))
    ensures RouteSegments(TsxRoutes(host), "./routes" + "/" + Join([a, b], "/")) == [RewriteSegment(a), RewriteSegment(b)]
  {
    TsxRouteFile(host, [a, b]);
    PairOf(RouteSegments(TsxRoutes(host), "./routes" + "/" + Join([a, b], "/")), RewriteSegment(a), RewriteSegment(b));
  }

  /** A list of length two is the pair of its elements. */
  lemma PairOf<T>(r: seq<T>, x: T, y: T)
    requires |r| == 2 && r[0] == x && r[1] == y
    ensures r == [x, y]
  {
  }

  /** A matched file whose first segment is not taken as the host has the pattern of all its segments. */
  lemma ExecWithHost(source: RouteSource, f: string, parts: seq<string>)
    requires Test(source, f) && RouteSegments(source, f) == parts && TakesHost(source, parts)
    ensures Exec(source, f) == Matched(RoutePattern(Some(parts[0][1..]), Pathname(parts[1..])))
  {
  }

  lemma ExecWithoutHost(source: RouteSource, f: string, parts: seq<string>)
    requires Test(source, f) && RouteSegments(source, f) == parts && parts != [] && !TakesHost(source, parts)
    ensures Exec(source, f) == Matched(RoutePattern(None, Pathname(parts)))
  {
  }

  /** A parameter file under a plain directory: `dir/[name].tsx` is the pattern `/dir/:name`. */
  lemma ExecParamRoute(host: bool, dir: string, name: string)
    requires IsSegment(dir) && dir[0] != '[' && dir[0] != '$' && dir[0] != '@'
    requires name != "" && '/' !in name && '.' !in name && ']' !in name && !StartsWith(name, "...")
    ensures Exec(TsxRoutes(host), "./routes/" + dir + "/[" + name + "].tsx")
      == Matched(RoutePattern(None, "/" + dir + "/:" + name))
  {
    ParamRouteSegments(host, dir, name);
    PathnameParam(dir, name);
    ColonJoin("/" + dir, name);
    assert !StartsWith(dir, "@") by {
      FirstCharDiffers(dir, "@");
    }
    ExecWithoutHost(TsxRoutes(host), "./routes/" + dir + "/[" + name + "].tsx", [dir, ":" + name + ".tsx"]);
  }

  lemma ParamRouteSegments(host: bool, dir: string, name: string)
    requires IsSegment(dir) && dir[0] != '[' && dir[0] != '$'
    requires name != "" && '/' !in name && '.' !in name && ']' !in name && !StartsWith(name, "...")
    ensures Test(TsxRoutes(host), "./routes/" + dir + "/[" + name + "].tsx")
    ensures RouteSegments(TsxRoutes(host), "./routes/" + dir + "/[" + name + "].tsx") == [dir, ":" + name + ".tsx"]
  {
    ParamName(dir, name);
    RouteFile(dir, "[" + name + "]");
    TsxRouteFileTwo(host, dir, "[" + name + "]" + ".tsx");
    RewriteParam(name, ".tsx");
    RewriteLiteral(dir);
  }

  /** `./routes/dir/page.tsx` is the routes directory and the two segments `dir` and `page.tsx`. */
  lemma RouteFile(dir: string, page: string)
    ensures "./routes/" + dir + "/" + page + ".tsx" == "./routes" + "/" + Join([dir, page + ".tsx"], "/")
    ensures EndsWith("./routes/" + dir + "/" + page + ".tsx", ".tsx")
  {
    var f := "./routes/" + dir + "/" + page + ".tsx";
    JoinTwo(dir, page + ".tsx");
    assert f[|f| - 4..] == ".tsx";
  }

  lemma ParamName(dir: string, name: string)
    ensures "./routes/" + dir + "/[" + name + "].tsx" == "./routes/" + dir + "/" + ("[" + name + "]") + ".tsx"
  {
  }

  lemma CatchAllName(dir: string, name: string)
    ensures "./routes/" + dir + "/[..." + name + "].tsx" == "./routes/" + dir + "/" + ("[..." + name + "]") + ".tsx"
  {
  }

  lemma PathnameParam(dir: string, name: string)
    requires '/' !in name && '.' !in name
    ensures Pathname([dir, ":" + name + ".tsx"]) == "/" + dir + "/" + (":" + name)
  {
    StemParam(name);
    PathnameTwo(dir, ":" + name + ".tsx");
  }

  lemma ColonJoin(a: string, name: string)
    ensures a + "/" + (":" + name) == a + "/:" + name
  {
    assert a + "/" + (":" + name) == a + ("/" + ":") + name;
  }

  lemma StemParam(name: string)
    requires '/' !in name && '.' !in name
    ensures Stem(":" + name + ".tsx") == ":" + name
  {
    assert ":" + name + ".tsx" == (":" + name) + "." + "tsx";
    assert (":" + name)[0] == ':';
    StemOf(":" + name, "tsx");
  }

  /** A catch-all file under a plain directory: `dir/[...name].tsx` is the pattern `/dir/:name+`. */
  lemma ExecCatchAllRoute(host: bool, dir: string, name: string)
    requires IsSegment(dir) && dir[0] != '[' && dir[0] != '$' && dir[0] != '@'
    requires name != "" && '/' !in name && '.' !in name && ']' !in name
    ensures Exec(TsxRoutes(host), "./routes/" + dir + "/[..." + name + "].tsx")
      == Matched(RoutePattern(None, "/" + dir + "/:" + name + "+"))
  {
    CatchAllRouteSegments(host, dir, name);
    PathnameCatchAll(dir, name);
    CatchAllJoin("/" + dir, name);
    assert !StartsWith(dir, "@") by {
      FirstCharDiffers(dir, "@");
    }
    ExecWithoutHost(TsxRoutes(host), "./routes/" + dir + "/[..." + name + "].tsx", [dir, ":" + name + "+" + ".tsx"]);
  }

  lemma CatchAllRouteSegments(host: bool, dir: string, name: string)
    requires IsSegment(dir) && dir[0] != '[' && dir[0] != '$'
    requires name != "" && '/' !in name && ']' !in name
    ensures Test(TsxRoutes(host), "./routes/" + dir + "/[..." + name + "].tsx")
    ensures RouteSegments(TsxRoutes(host), "./routes/" + dir + "/[..." + name + "].tsx") == [dir, ":" + name + "+" + ".tsx"]
  {
    CatchAllName(dir, name);
    RouteFile(dir, "[..." + name + "]");
    TsxRouteFileTwo(host, dir, "[..." + name + "]" + ".tsx");
    RewriteCatchAll(name, ".tsx");
    RewriteLiteral(dir);
  }

  lemma PathnameCatchAll(dir: string, name: string)
    requires '/' !in name && '.' !in name
    ensures Pathname([dir, ":" + name + "+" + ".tsx"]) == "/" + dir + "/" + (":" + name + "+")
  {
    StemCatchAll(name);
    PathnameTwo(dir, ":" + name + "+" + ".tsx");
  }

  lemma StemCatchAll(name: string)
    requires '/' !in name && '.' !in name
    ensures Stem(":" + name + "+" + ".tsx") == ":" + name + "+"
  {
    assert ":" + name + "+" + ".tsx" == (":" + name + "+") + "." + "tsx";
    assert (":" + name + "+")[0] == ':';
    StemOf(":" + name + "+", "tsx");
  }

  lemma CatchAllJoin(a: string, name: string)
    ensures a + "/" + (":" + name + "+") == a + "/:" + name + "+"
  {
    assert a + "/" + (":" + name + "+") == a + ("/" + ":") + name + "+";
  }

  /** `index.tsx` at the top of the routes directory is the pattern `/`. */
  lemma ExecIndex(host: bool)
    ensures Exec(TsxRoutes(host), "./routes/index.tsx") == Matched(RoutePattern(None, "/"))
  {
    assert "index.tsx" == "index." + "tsx";
    PathnameTopIndex("tsx");
    IndexRouteSegments(host);
    ExecWithoutHost(TsxRoutes(host), "./routes/index.tsx", ["index.tsx"]);
  }

  lemma IndexRouteSegments(host: bool)
    ensures Test(TsxRoutes(host), "./routes/index.tsx")
    ensures RouteSegments(TsxRoutes(host), "./routes/index.tsx") == ["index.tsx"]
  {
    assert "./routes/index.tsx" == "./routes" + "/" + Join(["index.tsx"], "/");
    assert EndsWith("./routes/index.tsx", ".tsx") by {
      assert "./routes/index.tsx"[14..] == ".tsx";
    }
    TsxRouteFileOne(host, "index.tsx");
    RewriteLiteral("index.tsx");
  }

  /** The one-segment pathname of `index.e` is `/`. */
  lemma PathnameTopIndex(e: string)
    requires '/' !in e && '.' !in e
    ensures Pathname(["index." + e]) == "/"
  {
    StemIndex(e);
    PathnameOne("index." + e);
    SlashIndex("index");
  }

  /** A one-segment pathname is `/` and the stem, or `/` alone for `/index`. */
  lemma PathnameOne(last: string)
    ensures Pathname([last]) == if "/" + Stem(last) == "/index" then "/" else "/" + Stem(last)
  {
    var parts := [last];
    assert parts[..0] + [Stem(last)] == [Stem(last)];
    assert Join([Stem(last)], "/") == Stem(last);
  }

  /** `/` and a name is `/index` only for the name `index`. */
  lemma SlashIndex(x: string)
    ensures "/" + x == "/index" <==> x == "index"
  {
    if "/" + x == "/index" {
      assert ("/" + x)[1..] == x;
    }
  }

  /**
   * A page under an `@host` directory: with `host` set, `@h/page.tsx` is
   * the pattern of host `h` and pathname `/page`; without it the `@h`
   * segment stays in the pathname.
   */
  lemma ExecHostRoute(h: string, page: string)
    requires h != "" && '/' !in h
    requires page != "" && page != "." && page != "index" && '/' !in page && page[0] != '[' && page[0] != '$'
    ensures Exec(TsxRoutes(true), "./routes/@" + h + "/" + page + ".tsx") == Matched(RoutePattern(Some(h), "/" + page))
    ensures Exec(TsxRoutes(false), "./routes/@" + h + "/" + page + ".tsx") == Matched(RoutePattern(None, "/@" + h + "/" + page))
  {
    var f := "./routes/@" + h + "/" + page + ".tsx";
    var parts := ["@" + h, page + ".tsx"];
    HostRouteSegments(true, h, page);
    HostRouteSegments(false, h, page);
    assert StartsWith("@" + h, "@") && ("@" + h)[1..] == h by {
      assert ("@" + h)[..1] == "@";
    }
    assert parts[1..] == [page + ".tsx"];
    PathnamePage(page);
    ExecWithHost(TsxRoutes(true), f, parts);
    PathnameUnderHost(h, page);
    AtJoin(h, page);
    ExecWithoutHost(TsxRoutes(false), f, parts);
  }

  lemma HostRouteSegments(host: bool, h: string, page: string)
    requires h != "" && '/' !in h
    requires page != "" && '/' !in page && page[0] != '[' && page[0] != '$'
    ensures Test(TsxRoutes(host), "./routes/@" + h + "/" + page + ".tsx")
    ensures RouteSegments(TsxRoutes(host), "./routes/@" + h + "/" + page + ".tsx") == ["@" + h, page + ".tsx"]
  {
    HostFile(h, page);
    TsxRouteFileTwo(host, "@" + h, page + ".tsx");
    RewriteLiteral("@" + h);
    RewriteLiteral(page + ".tsx");
  }

  lemma HostFile(h: string, page: string)
    ensures "./routes/@" + h + "/" + page + ".tsx" == "./routes" + "/" + Join(["@" + h, page + ".tsx"], "/")
    ensures EndsWith("./routes/@" + h + "/" + page + ".tsx", ".tsx")
  {
    var f := "./routes/@" + h + "/" + page + ".tsx";
    assert Join(["@" + h, page + ".tsx"], "/") == "@" + h + "/" + (page + ".tsx");
    assert f[|f| - 4..] == ".tsx";
  }

  lemma PathnamePage(page: string)
    requires page != "" && page != "." && page != "index" && '/' !in page
    ensures Pathname([page + ".tsx"]) == "/" + page
  {
    StemTsx(page);
    PathnameOne(page + ".tsx");
    SlashIndex(page);
  }

  lemma StemTsx(page: string)
    requires page != "" && page != "." && '/' !in page
    ensures Stem(page + ".tsx") == page
  {
    assert page + ".tsx" == page + "." + "tsx";
    StemOf(page, "tsx");
  }

  lemma PathnameUnderHost(h: string, page: string)
    requires page != "" && page != "." && '/' !in page
    ensures Pathname(["@" + h, page + ".tsx"]) == "/" + ("@" + h) + "/" + page
  {
    StemTsx(page);
    PathnameTwo("@" + h, page + ".tsx");
  }

  lemma AtJoin(h: string, page: string)
    ensures "/" + ("@" + h) + "/" + page == "/@" + h + "/" + page
  {
    assert "/" + ("@" + h) == "/@" + h;
  }

  /** `blog/[id].tsx` is the pattern `/blog/:id`. */
  lemma ExecBlog(host: bool)
    ensures Exec(TsxRoutes(host), "./routes/blog/[id].tsx") == Matched(RoutePattern(None, "/blog/:id"))
  {
    assert "./routes/blog/[id].tsx" == "./routes/" + "blog" + "/[" + "id" + "].tsx";
    assert "/blog/:id" == "/" + "blog" + "/:" + "id";
    ExecParamRoute(host, "blog", "id");
  }

  /** `docs/[...path].tsx` is the pattern `/docs/:path+`. */
  lemma ExecDocs(host: bool)
    ensures Exec(TsxRoutes(host), "./routes/docs/[...path].tsx") == Matched(RoutePattern(None, "/docs/:path+"))
  {
    assert "./routes/docs/[...path].tsx" == "./routes/" + "docs" + "/[..." + "path" + "].tsx";
    assert "/docs/:path+" == "/" + "docs" + "/:" + "path" + "+";
    ExecCatchAllRoute(host, "docs", "path");
  }

  /** `@admin/users.tsx` is host `admin` with pathname `/users` when `host` is set, and `/@admin/users` otherwise. */
  lemma ExecAdmin()
    ensures Exec(TsxRoutes(true), "./routes/@admin/users.tsx") == Matched(RoutePattern(Some("admin"), "/users"))
    ensures Exec(TsxRoutes(false), "./routes/@admin/users.tsx") == Matched(RoutePattern(None, "/@admin/users"))
  {
    assert "./routes/@admin/users.tsx" == "./routes/@" + "admin" + "/" + "users" + ".tsx";
    assert "/users" == "/" + "users";
    assert "/@admin/users" == "/@" + "admin" + "/" + "users";
    ExecHostRoute("admin", "users");
  }

  /** `foo/index.tsx` keeps its `index`: the pathname is `/foo/index`. */
  lemma PathnameFooIndex()
    ensures Pathname(["foo", "index.tsx"]) == "/foo/index"
  {
    assert "index.tsx" == "index." + "tsx";
    assert "/foo/index" == "/" + "foo" + "/" + "index";
    PathnameNestedIndex("foo", "tsx");
  }

  /** A two-segment pathname is never the bare `/index`, so it is returned as joined. */
  lemma PathnameTwo(dir: string, last: string)
    ensures Pathname([dir, last]) == "/" + dir + "/" + Stem(last)
  {
    var x := Stem(last);
    LastStem(dir, last);
    JoinTwo(dir, x);
    RootedTwo(dir, x);
  }

  lemma LastStem(dir: string, last: string)
    ensures [dir, last][..1] + [Stem(last)] == [dir, Stem(last)]
  {
  }

  /** Two parts joined with `/`. */
  lemma JoinTwo(a: string, b: string)
    ensures Join([a, b], "/") == a + "/" + b
  {
    assert [a, b][1..] == [b];
  }

  /** `/`, a directory, `/` and a name: never the bare `/index`. */
  lemma RootedTwo(dir: string, x: string)
    ensures "/" + (dir + "/" + x) == "/" + dir + "/" + x
    ensures "/" + dir + "/" + x != "/index"
  {
    var joined := "/" + dir + "/" + x;
    assert joined[1 + |dir|] == '/';
    if |joined| == |"/index"| {
      assert "/index"[1 + |dir|] != '/';
    }
  }


  /** A nested `index` stays in the pathname: only the whole pathname `/index` becomes `/`. */
  lemma PathnameNestedIndex(dir: string, e: string)
    requires '/' !in e && '.' !in e
    ensures Pathname([dir, "index." + e]) == "/" + dir + "/" + "index"
  {
    StemIndex(e);
    PathnameTwo(dir, "index." + e);
  }

  /** The stem of `index.e` is `index`. */
  lemma StemIndex(e: string)
    requires '/' !in e && '.' !in e
    ensures Stem("index." + e) == "index"
  {
    assert "index." + e == "index" + "." + e;
    StemOf("index", e);
  }
}
