/**
 * The decisions `build` of server/build.ts takes before it bundles: the
 * deploy target and output directory, the text of the synthesised server
 * entry (`serverEntryCode`) and the JSX shim injected next to it.
 */
module BuildEntry {
  import opened Wrappers
  import opened Strings
  import opened Paths
  import opened Types

  // ---------------------------------------------------------------------------
  // Platform and output directory
  // ---------------------------------------------------------------------------

  /** `supportedPlatforms`: the display name of each deploy target. */
  function PlatformName(p: Platform): string {
    match p
    case Deno => "Deno"
    case Cloudflare => "Cloudflare"
    case Vercel => "Vercel"
  }

  /** What a build works with once its configuration is accepted. */
  datatype Settings = Settings(platform: Platform, outputDir: string)

  /**
   * The first lines of `build`: the platform defaults to Deno and the
   * output directory to `dist` under the working directory; a Cloudflare
   * or Vercel target is fatal (`log.fatal` ends the process).
   */
  function BuildSettings(config: Option<AlephConfig>, workingDir: string): (r: Result<Settings>)
    ensures r.Ok? ==> r.value.platform == Deno
    ensures r.Ok? <==> ConfiguredPlatform(config) == Deno
    ensures r.Err? ==> r.error == "Deploy to " + PlatformName(ConfiguredPlatform(config)) + " is not supported yet"
    ensures r.Ok? ==> r.value.outputDir == JoinPath(workingDir, ConfiguredOutputDir(config))
  {
    match ConfiguredPlatform(config)
    case Deno => Ok(Settings(Deno, JoinPath(workingDir, ConfiguredOutputDir(config))))
    case platform => Err("Deploy to " + PlatformName(platform) + " is not supported yet")
  }

  /** `config?.build?.platform ?? "deno"`. */
  function ConfiguredPlatform(config: Option<AlephConfig>): Platform {
    if config.Some? && config.value.build.Some? && config.value.build.value.platform.Some? then
      config.value.build.value.platform.value
    else Deno
  }

  /** `config?.build?.outputDir ?? "dist"`. */
  function ConfiguredOutputDir(config: Option<AlephConfig>): string {
    if config.Some? && config.value.build.Some? && config.value.build.value.outputDir.Some? then
      config.value.build.value.outputDir.value
    else "dist"
  }

  /** Without a configuration the build targets Deno and writes to `<working dir>/dist`. */
  lemma DefaultSettings(workingDir: string)
    ensures BuildSettings(None, workingDir) == Ok(Settings(Deno, JoinPath(workingDir, "dist")))
  {
  }

  // ---------------------------------------------------------------------------
  // serverEntryCode
  // ---------------------------------------------------------------------------

  /** A route file with the names it exports, as `parseExportNames` reports them. */
  datatype RouteFile = RouteFile(filename: string, exportNames: seq<string>)

  predicate HasDefault(rf: RouteFile) { "default" in rf.exportNames }

  predicate HasData(rf: RouteFile) { "data" in rf.exportNames }

  /** Whether the route file contributes lines to the entry: it exports `default` or `data`. */
  predicate Contributes(rf: RouteFile) { HasDefault(rf) || HasData(rf) }

  /** The module URL of a route file on the modules proxy: `http://localhost:${port}${filename.slice(1)}`. */
  function ModuleUrl(port: Option<string>, filename: string): (r: string)
    ensures StartsWith(r, "http://localhost:" + Interpolate(port))
  {
    var prefix := "http://localhost:" + Interpolate(port);
    assert (prefix + Slice1(filename))[..|prefix|] == prefix;
    prefix + Slice1(filename)
  }

  /** `import _${idx} from "<url>";`, or `const _${idx} = undefined;` without a default export. */
  function DefaultLine(port: Option<string>, rf: RouteFile, idx: nat): string {
    if HasDefault(rf) then "import _" + (Dec(idx) + " from " + JsonQuote(ModuleUrl(port, rf.filename)) + ";")
    else "const _" + (Dec(idx) + " = undefined;")
  }

  /** `import { data as $${idx} } from "<url>";`, or `const $${idx} = undefined;` without a data export. */
  function DataLine(port: Option<string>, rf: RouteFile, idx: nat): string {
    if HasData(rf) then "import { data as $" + (Dec(idx) + " } from " + JsonQuote(ModuleUrl(port, rf.filename)) + ";")
    else "const $" + (Dec(idx) + " = undefined;")
  }

  /** `register("<filename>", { default: _${idx}, data: $${idx} });`. */
  function RegisterLine(rf: RouteFile, idx: nat): string {
    "register(" + (JsonQuote(rf.filename) + ", { default: _" + Dec(idx) + ", data: $" + Dec(idx) + " });")
  }

  /** The lines one route file adds at position `idx`: none, or its two bindings and its `register` call. */
  function RouteLines(port: Option<string>, rf: RouteFile, idx: nat): seq<string> {
    if Contributes(rf) then [DefaultLine(port, rf, idx), DataLine(port, rf, idx), RegisterLine(rf, idx)]
    else []
  }

  /** `xs.map((x, idx) => f(x, start + idx)).flat()`: the lists `f` gives, element after element. */
  function FlatMapIndexed<T, U>(xs: seq<T>, f: (T, nat) -> seq<U>, start: nat): seq<U> {
    if xs == [] then []
    else f(xs[0], start) + FlatMapIndexed(xs[1..], f, start + 1)
  }

  /** The lines of the route files from position `start` on, file after file. */
  function RouteBlock(port: Option<string>, rfs: seq<RouteFile>, start: nat): seq<string> {
    FlatMapIndexed(rfs, (rf, idx) => RouteLines(port, rf, idx), start)
  }

  /** The number of route files that export `default` or `data`. */
  function CountContributing(rfs: seq<RouteFile>): (n: nat)
    ensures n <= |rfs|
  {
    if rfs == [] then 0
    else (if Contributes(rfs[0]) then 1 else 0) + CountContributing(rfs[1..])
  }

  function Header(pkg: string): seq<string> {
    [ "import { DependencyGraph } from \"" + (pkg + "/server/graph.ts\";"),
      "import graph from " + "\"./server_dependency_graph.js\";",
      "globalThis.serverDependencyGraph = " + "new DependencyGraph(graph.modules);" ]
  }

  function RegisterImport(pkg: string): string {
    "import { register } from \"" + (pkg + "/server/routing.ts\";")
  }

  function ServeImport(pkg: string): string {
    "import { serve } from \"" + (pkg + "/server/mode.ts\";")
  }

  /** `import "http://localhost:${port}/${basename(serverEntry)}";`. */
  function UserEntryImport(port: Option<string>, serverEntry: string): string {
    "import \"http://localhost:" + (Interpolate(port) + "/" + Basename(serverEntry) + "\";")
  }

  /** Whether a user server entry is given: `serverEntry` is truthy, so an empty name counts as none. */
  predicate HasServerEntry(serverEntry: Option<string>) {
    serverEntry.Some? && serverEntry.value != ""
  }

  /** The user entry's import, or the `serve` import followed by `serve();`. */
  function Tail(pkg: string, port: Option<string>, serverEntry: Option<string>): seq<string> {
    if HasServerEntry(serverEntry) then [UserEntryImport(port, serverEntry.value)]
    else [ServeImport(pkg), "serve();"]
  }

  /** The lines of the server entry, after `filter(Boolean)` has dropped the `false` and empty items. */
  function EntryLines(pkg: string, port: Option<string>, rfs: seq<RouteFile>, serverEntry: Option<string>): seq<string> {
    Body(pkg, port, rfs) + Tail(pkg, port, serverEntry)
  }

  /** `serverEntryCode`: the lines joined with newlines. */
  function ServerEntryCode(pkg: string, port: Option<string>, rfs: seq<RouteFile>, serverEntry: Option<string>): string {
    Join(EntryLines(pkg, port, rfs, serverEntry), "\n")
  }

  /** The line kinds a route file can add. */
  predicate IsBlockLine(l: string) {
    StartsWith(l, "import _") || StartsWith(l, "const ") || StartsWith(l, "import { data as $") || StartsWith(l, "register(")
  }

  /**
   * A route file adds no line when it exports neither `default` nor `data`,
   * and otherwise exactly three: an import or an `undefined` binding for
   * each export, then its `register` call.
   */
  lemma RouteLinesShape(port: Option<string>, rf: RouteFile, idx: nat)
    ensures !Contributes(rf) ==> RouteLines(port, rf, idx) == []
    ensures Contributes(rf) ==> |RouteLines(port, rf, idx)| == 3
    ensures Contributes(rf) ==> (HasDefault(rf) <==> StartsWith(RouteLines(port, rf, idx)[0], "import _"))
    ensures Contributes(rf) ==> (HasData(rf) <==> StartsWith(RouteLines(port, rf, idx)[1], "import { data as $"))
    ensures Contributes(rf) ==> RouteLines(port, rf, idx)[2] == RegisterLine(rf, idx)
    ensures forall l :: l in RouteLines(port, rf, idx) ==> IsBlockLine(l)
  {
    var d, a, g := DefaultLine(port, rf, idx), DataLine(port, rf, idx), RegisterLine(rf, idx);
    var n := Dec(idx);
    if HasDefault(rf) {
      assert d[..8] == "import _";
    } else {
      assert d[..6] == "const ";
      assert d[0] != "import _"[0];
    }
    if HasData(rf) {
      assert a[..18] == "import { data as $";
    } else {
      assert a[..6] == "const ";
      assert a[0] != "import { data as $"[0];
    }
    assert g[..9] == "register(";
  }

  /** The block holds three lines for each route file that exports `default` or `data`, and no others. */
  lemma {:induction false} BlockLength(port: Option<string>, rfs: seq<RouteFile>, start: nat)
    ensures |RouteBlock(port, rfs, start)| == 3 * CountContributing(rfs)
    ensures forall l :: l in RouteBlock(port, rfs, start) ==> IsBlockLine(l)
  {
    if rfs != [] {
      RouteLinesShape(port, rfs[0], start);
      BlockLength(port, rfs[1..], start + 1);
      assert RouteBlock(port, rfs, start) == RouteLines(port, rfs[0], start) + RouteBlock(port, rfs[1..], start + 1);
    }
  }

  /** A non-empty block starts with the lines of its first route file. */
  lemma BlockCons(port: Option<string>, rfs: seq<RouteFile>, start: nat)
    requires rfs != []
    ensures RouteBlock(port, rfs, start) == RouteLines(port, rfs[0], start) + RouteBlock(port, rfs[1..], start + 1)
  {
  }

  /** Route file `i` of a block that starts at `start` is registered at position `start + i`. */
  lemma {:induction false} BlockRegisters(port: Option<string>, rfs: seq<RouteFile>, start: nat, i: nat)
    requires i < |rfs| && Contributes(rfs[i])
    ensures RegisterLine(rfs[i], start + i) in RouteBlock(port, rfs, start)
  {
    if i == 0 {
      assert RegisterLine(rfs[0], start) in RouteLines(port, rfs[0], start);
    } else {
      assert rfs[1..][i - 1] == rfs[i];
      BlockRegisters(port, rfs[1..], start + 1, i - 1);
    }
    BlockCons(port, rfs, start);
  }

  /** Every route file that exports `default` or `data` is registered under its filename and index. */
  lemma RegisteredRoutes(pkg: string, port: Option<string>, rfs: seq<RouteFile>, serverEntry: Option<string>, i: nat)
    requires i < |rfs| && Contributes(rfs[i])
    ensures RegisterLine(rfs[i], i) in EntryLines(pkg, port, rfs, serverEntry)
  {
    var block, g := RouteBlock(port, rfs, 0), RegisterLine(rfs[i], i);
    BlockRegisters(port, rfs, 0, i);
    InRight(Header(pkg) + (if |rfs| > 0 then [RegisterImport(pkg)] else []), block, g);
    InLeft(Body(pkg, port, rfs), Tail(pkg, port, serverEntry), g);
  }

  lemma InRight<T>(a: seq<T>, b: seq<T>, x: T)
    requires x in b
    ensures x in a + b
  {
  }

  lemma InLeft<T>(a: seq<T>, b: seq<T>, x: T)
    requires x in a
    ensures x in a + b
  {
  }

  /** The characters at indices 0, 7 and 9 that tell the entry's line kinds apart. */
  predicate Marked(l: string, c0: char, c7: char, c9: char) {
    |l| >= 10 && l[0] == c0 && l[7] == c7 && l[9] == c9
  }

  lemma HeaderMarks(pkg: string)
    ensures |Header(pkg)| == 3
    ensures Marked(Header(pkg)[0], 'i', '{', 'D')
    ensures Marked(Header(pkg)[1], 'i', 'g', 'a')
    ensures Marked(Header(pkg)[2], 'g', 'h', 's')
  {
  }

  lemma ImportMarks(pkg: string, port: Option<string>, serverEntry: string)
    ensures Marked(RegisterImport(pkg), 'i', '{', 'r')
    ensures Marked(ServeImport(pkg), 'i', '{', 's')
    ensures Marked(UserEntryImport(port, serverEntry), 'i', '"', 't')
  {
  }

  /**
   * A line that opens with neither `c` nor `r`, has no `_` at index 7 and
   * no `d` at index 9 is not a line a route file adds.
   */
  lemma NotBlockLine(l: string)
    requires |l| >= 10 && l[0] != 'c' && l[0] != 'r' && l[7] != '_' && l[9] != 'd'
    ensures !IsBlockLine(l)
  {
    assert !StartsWith(l, "import _") by { assert "import _"[7] == '_'; }
    assert !StartsWith(l, "const ") by { assert "const "[0] == 'c'; }
    assert !StartsWith(l, "import { data as $") by { assert "import { data as $"[9] == 'd'; }
    assert !StartsWith(l, "register(") by { assert "register("[0] == 'r'; }
  }

  /** A line with no `"` at index 7 does not open with `import "`. */
  lemma NotQuotedImport(l: string)
    requires |l| >= 8 && l[7] != '"'
    ensures !StartsWith(l, "import \"")
  {
    assert "import \""[7] == '"';
  }

  /** A header line is none of the lines the rest of the entry adds. */
  lemma HeaderLines(pkg: string, l: string)
    requires l in Header(pkg)
    ensures l != RegisterImport(pkg) && l != ServeImport(pkg) && l != "serve();"
    ensures !IsBlockLine(l) && !StartsWith(l, "import \"")
  {
    HeaderMarks(pkg);
    ImportMarks(pkg, None, "");
    assert "serve();"[0] == 's';
    NotBlockLine(l);
    NotQuotedImport(l);
  }

  /** A route file's line is neither the `register` import nor one of the closing lines. */
  lemma BlockLineDistinct(pkg: string, l: string)
    requires IsBlockLine(l)
    ensures l != RegisterImport(pkg) && l != ServeImport(pkg) && l != "serve();"
    ensures !StartsWith(l, "import \"")
  {
    ImportMarks(pkg, None, "");
    assert "serve();"[0] == 's';
    if StartsWith(l, "import _") {
      assert l[7] == "import _"[7];
    } else if StartsWith(l, "const ") {
      assert l[0] == "const "[0];
    } else if StartsWith(l, "import { data as $") {
      assert l[7] == '{' && l[9] == "import { data as $"[9];
    } else {
      assert l[0] == "register("[0];
    }
  }

  /** The entry imports `register` exactly when there are route files, whatever they export. */
  lemma RegisterImportIff(pkg: string, port: Option<string>, rfs: seq<RouteFile>, serverEntry: Option<string>)
    ensures RegisterImport(pkg) in EntryLines(pkg, port, rfs, serverEntry) <==> |rfs| > 0
  {
    var lines := EntryLines(pkg, port, rfs, serverEntry);
    if |rfs| > 0 {
      assert lines[3] == RegisterImport(pkg);
    } else {
      assert lines == Header(pkg) + Tail(pkg, port, serverEntry);
      forall l | l in Header(pkg)
        ensures l != RegisterImport(pkg)
      {
        HeaderLines(pkg, l);
      }
      ClosingLines(pkg, port, serverEntry);
    }
  }

  /** The closing lines are not the `register` import. */
  lemma ClosingLines(pkg: string, port: Option<string>, serverEntry: Option<string>)
    ensures RegisterImport(pkg) !in Tail(pkg, port, serverEntry)
  {
    ImportMarks(pkg, port, if serverEntry.Some? then serverEntry.value else "");
    assert "serve();"[0] == 's';
  }

  /** The lines before the closing ones: header, `register` import and route block. */
  function Body(pkg: string, port: Option<string>, rfs: seq<RouteFile>): seq<string> {
    Header(pkg) + (if |rfs| > 0 then [RegisterImport(pkg)] else []) + RouteBlock(port, rfs, 0)
  }

  /** No line before the closing ones imports or calls `serve`, or imports a user entry. */
  lemma BodyLines(pkg: string, port: Option<string>, rfs: seq<RouteFile>)
    ensures forall l :: l in Body(pkg, port, rfs) ==>
      l != ServeImport(pkg) && l != "serve();" && !StartsWith(l, "import \"")
  {
    var si := ServeImport(pkg);
    var block := RouteBlock(port, rfs, 0);
    BlockLength(port, rfs, 0);
    forall l | l in block
      ensures l != si && l != "serve();" && !StartsWith(l, "import \"")
    {
      BlockLineDistinct(pkg, l);
    }
    forall l | l in Header(pkg)
      ensures l != si && l != "serve();" && !StartsWith(l, "import \"")
    {
      HeaderLines(pkg, l);
    }
    var ri := RegisterImport(pkg);
    ImportMarks(pkg, port, "");
    assert "serve();"[0] == 's';
    NotQuotedImport(ri);
    var ris := if |rfs| > 0 then [ri] else [];
    assert Body(pkg, port, rfs) == Header(pkg) + ris + block;
  }

  /**
   * With a user server entry the entry ends with its import, and never
   * imports or calls `serve`.
   */
  lemma EntryTailWithServerEntry(pkg: string, port: Option<string>, rfs: seq<RouteFile>, serverEntry: Option<string>)
    requires HasServerEntry(serverEntry)
    ensures var lines := EntryLines(pkg, port, rfs, serverEntry);
      lines[|lines| - 1] == UserEntryImport(port, serverEntry.value) &&
      ServeImport(pkg) !in lines && "serve();" !in lines
  {
    var lines := EntryLines(pkg, port, rfs, serverEntry);
    var u := UserEntryImport(port, serverEntry.value);
    assert lines == Body(pkg, port, rfs) + [u];
    BodyLines(pkg, port, rfs);
    ImportMarks(pkg, port, serverEntry.value);
    assert "serve();"[0] == 's';
  }

  /**
   * Without a user server entry the entry ends with the `serve` import
   * followed by `serve();`, and imports no user entry.
   */
  lemma EntryTailWithoutServerEntry(pkg: string, port: Option<string>, rfs: seq<RouteFile>, serverEntry: Option<string>)
    requires !HasServerEntry(serverEntry)
    ensures var lines := EntryLines(pkg, port, rfs, serverEntry);
      |lines| >= 2 && lines[|lines| - 2] == ServeImport(pkg) && lines[|lines| - 1] == "serve();" &&
      forall l :: l in lines ==> !StartsWith(l, "import \"")
  {
    var lines := EntryLines(pkg, port, rfs, serverEntry);
    var si := ServeImport(pkg);
    assert lines == Body(pkg, port, rfs) + [si, "serve();"];
    BodyLines(pkg, port, rfs);
    ImportMarks(pkg, port, "");
    NotQuotedImport(si);
  }

  /** The entry has the three header lines, the `register` import when there are route files, the block and one or two closing lines. */
  lemma EntryLineCount(pkg: string, port: Option<string>, rfs: seq<RouteFile>, serverEntry: Option<string>)
    ensures |EntryLines(pkg, port, rfs, serverEntry)| ==
      3 + (if |rfs| > 0 then 1 else 0) + 3 * CountContributing(rfs) + (if HasServerEntry(serverEntry) then 1 else 2)
  {
    BlockLength(port, rfs, 0);
  }

  // ---------------------------------------------------------------------------
  // The JSX shim
  // ---------------------------------------------------------------------------

  /** The JSX settings of the import map: the runtime and the package JSX is imported from. */
  datatype JsxConfig = JsxConfig(jsxRuntime: Option<string>, jsxImportSource: Option<string>)

  predicate IsPreact(jsx: JsxConfig) {
    jsx.jsxRuntime == Some("preact")
  }

  /** Whether `build` writes `jsx-shim.js`: a JSX or TSX server entry and a non-empty import source. */
  predicate NeedsJsxShim(serverEntry: Option<string>, jsx: JsxConfig) {
    && HasServerEntry(serverEntry)
    && (EndsWith(serverEntry.value, ".jsx") || EndsWith(serverEntry.value, ".tsx"))
    && jsx.jsxImportSource.Some? && jsx.jsxImportSource.value != ""
  }

  /** The names the shim exports: `h` and `Fragment` for Preact, `React` otherwise. */
  function ShimExports(jsx: JsxConfig): seq<string> {
    if IsPreact(jsx) then ["h", "Fragment"] else ["React"]
  }

  /** The shim's last line: `export { <names> }` over the names it exports. */
  function ShimExportLine(jsx: JsxConfig): string {
    "export { " + Join(ShimExports(jsx), ", ") + " }"
  }

  /** `import <clause> from <source>;`. */
  function ImportLine(clause: string, source: string): string {
    "import " + clause + " from " + source + ";"
  }

  /** The two lines of the shim: the import from the configured source, then the export. */
  function ShimLines(jsx: JsxConfig, source: string): seq<string> {
    if IsPreact(jsx) then [ImportLine("{ h, Fragment }", source), "export { h, Fragment }"]
    else [ImportLine("React", source), "export { React }"]
  }

  /** The text of `jsx-shim.js`: an import line, then the line exporting exactly `ShimExports`. */
  function JsxShimCode(jsx: JsxConfig, importSource: string): (r: string)
    ensures StartsWith(r, "import ")
    ensures EndsWith(r, "\n" + ShimExportLine(jsx))
  {
    ShimText(jsx, JsonQuote(importSource));
    Join(ShimLines(jsx, JsonQuote(importSource)), "\n")
  }

  lemma ShimText(jsx: JsxConfig, source: string)
    ensures StartsWith(Join(ShimLines(jsx, source), "\n"), "import ")
    ensures EndsWith(Join(ShimLines(jsx, source), "\n"), "\n" + ShimExportLine(jsx))
  {
    var lines := ShimLines(jsx, source);
    var head, tail := lines[0], lines[1];
    ShimLastLine(jsx, source);
    ShimFirstLine(jsx, source);
    JoinPair(head, tail, "\n");
    assert head + "\n" + tail == head + ("\n" + tail);
    assert (head + ("\n" + tail))[..7] == head[..7];
    SuffixOfConcat(head, "\n" + tail);
  }

  /** The shim's second line exports the names of `ShimExports`. */
  lemma ShimLastLine(jsx: JsxConfig, source: string)
    ensures |ShimLines(jsx, source)| == 2 && ShimLines(jsx, source)[1] == ShimExportLine(jsx)
  {
    if IsPreact(jsx) {
      JoinPair("h", "Fragment", ", ");
      assert "export { " + ("h" + ", " + "Fragment") + " }" == "export { h, Fragment }";
    } else {
      assert Join(["React"], ", ") == "React";
    }
  }

  /** The shim's first line is an import line. */
  lemma ShimFirstLine(jsx: JsxConfig, source: string)
    ensures |ShimLines(jsx, source)| == 2 && StartsWith(ShimLines(jsx, source)[0], "import ")
  {
    ImportLineOpens(if IsPreact(jsx) then "{ h, Fragment }" else "React", source);
  }

  lemma ImportLineOpens(clause: string, source: string)
    ensures StartsWith(ImportLine(clause, source), "import ")
  {
    assert ImportLine(clause, source) == "import " + (clause + " from " + source + ";");
    PrefixOfConcat("import ", clause + " from " + source + ";");
  }

  /** The `jsxFactory` and `jsxFragment` esbuild is given. */
  function JsxFactory(jsx: JsxConfig): (string, string) {
    if IsPreact(jsx) then ("h", "Fragment") else ("React.createElement", "React.Fragment")
  }

  /** Whether `name` is the binding `root` or a member of it. */
  predicate Names(name: string, root: string) {
    name == root || StartsWith(name, root + ".")
  }

  /** The factory and fragment esbuild emits name a binding the shim exports, so the injected shim provides them. */
  lemma ShimProvidesFactory(jsx: JsxConfig)
    ensures exists k :: 0 <= k < |ShimExports(jsx)| && Names(JsxFactory(jsx).0, ShimExports(jsx)[k])
    ensures exists k :: 0 <= k < |ShimExports(jsx)| && Names(JsxFactory(jsx).1, ShimExports(jsx)[k])
  {
    if IsPreact(jsx) {
      assert Names(JsxFactory(jsx).0, ShimExports(jsx)[0]);
      assert Names(JsxFactory(jsx).1, ShimExports(jsx)[1]);
    } else {
      assert "React.createElement"[..6] == "React.";
      assert "React.Fragment"[..6] == "React.";
      assert Names(JsxFactory(jsx).0, ShimExports(jsx)[0]);
      assert Names(JsxFactory(jsx).1, ShimExports(jsx)[0]);
    }
  }
}
