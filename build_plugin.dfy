/**
 * The esbuild plugin `build` installs (server/build.ts): which imports are
 * bundled (`forceBundle`), how each import is resolved (`onResolve`) and
 * which loader a fetched remote module gets (`onLoad`).
 */
module BuildPlugin {
  import opened Wrappers
  import opened Strings
  import opened Paths
  import opened Helpers
  import BuildEntry

  // ---------------------------------------------------------------------------
  // forceBundle
  // ---------------------------------------------------------------------------

  /** The origin of the modules proxy: `http://localhost:${port}/`. */
  function ProxyOrigin(port: Option<string>): string {
    "http://localhost:" + Interpolate(port) + "/"
  }

  /**
   * `forceBundle`: the framework's server module and transformer, the
   * framework's React bindings and everything served by the modules proxy
   * are bundled instead of being left as remote imports.
   */
  predicate ForceBundle(pkg: string, port: Option<string>, url: string) {
    || url == pkg + "/server/mod.ts"
    || url == pkg + "/server/transformer.ts"
    || StartsWith(url, pkg + "/framework/react/")
    || StartsWith(url, ProxyOrigin(port))
  }

  /**
   * The route modules the server entry imports are bundled: their URL is on
   * the modules proxy whenever the filename opens with `./`, as every
   * collected route filename does.
   */
  lemma RouteModulesBundled(pkg: string, port: Option<string>, filename: string)
    requires StartsWith(filename, "./")
    ensures ForceBundle(pkg, port, BuildEntry.ModuleUrl(port, filename))
  {
    var rest := filename[2..];
    var url := BuildEntry.ModuleUrl(port, filename);
    assert url == ProxyOrigin(port) + rest by {
      var origin := "http://localhost:" + Interpolate(port);
      assert Slice1(filename) == "/" + rest by {
        assert filename == "./" + rest by {
          assert filename[..2] == "./";
        }
      }
      assert origin + ("/" + rest) == (origin + "/") + rest;
    }
    PrefixOfConcat(ProxyOrigin(port), rest);
  }

  /** The user server entry the generated entry imports is on the modules proxy, so it is bundled too. */
  lemma UserEntryBundled(pkg: string, port: Option<string>, serverEntry: string)
    ensures ForceBundle(pkg, port, ProxyOrigin(port) + Basename(serverEntry))
  {
    PrefixOfConcat(ProxyOrigin(port), Basename(serverEntry));
  }

  // ---------------------------------------------------------------------------
  // onResolve
  // ---------------------------------------------------------------------------

  /** What esbuild passes to `onResolve`. */
  datatype ResolveArgs = ResolveArgs(path: string, kind: string, namespace: string, importer: string)

  /** What `onResolve` returns: an external import, a module of the `http` namespace, or a plain path. */
  datatype Resolved = External(path: string) | Http(path: string) | Plain(path: string)

  /** The import map's rewrite: `importMap.imports[path]` when the path is a key of it. */
  function Mapped(imports: map<string, string>, path: string): string {
    if path in imports then imports[path] else path
  }

  /** The import URL without its `#` fragment, and without a `file://` scheme when it is not remote. */
  function StripUrl(importUrl: string): (r: string)
    ensures '#' !in r
  {
    SplitBy(if IsLikelyHttpURL(importUrl) then importUrl else TrimPrefix(importUrl, "file://"), '#').0
  }

  /** A remote import URL stays remote once its fragment is cut off. */
  lemma StripKeepsRemote(importUrl: string)
    requires IsLikelyHttpURL(importUrl)
    ensures IsLikelyHttpURL(StripUrl(importUrl))
  {
    var r := StripUrl(importUrl);
    if '#' in importUrl {
      assert importUrl == r + ['#'] + SplitBy(importUrl, '#').1;
      if StartsWith(importUrl, "https://") {
        assert r[..8] == importUrl[..8];
      } else {
        assert r[..7] == importUrl[..7];
      }
    }
  }

  /**
   * `onResolve`. `resolveUrl(path, importer)` stands for
   * `new URL(path, importer).href`, which is not part of this model.
   */
  function OnResolve(args: ResolveArgs, imports: map<string, string>, resolveUrl: (string, string) -> string,
                     pkg: string, port: Option<string>): (r: Resolved)
    ensures args.kind == "dynamic-import" ==> r == External(StripUrl(Mapped(imports, args.path)))
    ensures r.Http? ==> ForceBundle(pkg, port, r.path)
    ensures r.External? && args.kind != "dynamic-import" ==>
      !ForceBundle(pkg, port, r.path) || r.path == "./server_dependency_graph.js"
    ensures r.Plain? ==>
      && args.namespace != "http" && !IsLikelyHttpURL(Mapped(imports, args.path))
      && r.path == StripUrl(Mapped(imports, args.path)) && r.path != "./server_dependency_graph.js"
  {
    var importUrl := Mapped(imports, args.path);
    var isRemote := IsLikelyHttpURL(importUrl);
    var path := StripUrl(importUrl);
    if args.kind == "dynamic-import" then External(path)
    else if args.namespace == "http" then
      var href := resolveUrl(path, args.importer);
      if !ForceBundle(pkg, port, href) then External(href) else Http(href)
    else if isRemote && ForceBundle(pkg, port, path) then Http(path)
    else if isRemote || path == "./server_dependency_graph.js" then External(path)
    else Plain(path)
  }

  /**
   * Inside the `http` namespace every static import is resolved against
   * its importer, and stays in the namespace exactly when it is bundled.
   */
  lemma OnResolveHttpNamespace(args: ResolveArgs, imports: map<string, string>, resolveUrl: (string, string) -> string,
                               pkg: string, port: Option<string>)
    requires args.kind != "dynamic-import" && args.namespace == "http"
    ensures var href := resolveUrl(StripUrl(Mapped(imports, args.path)), args.importer);
      OnResolve(args, imports, resolveUrl, pkg, port) == if ForceBundle(pkg, port, href) then Http(href) else External(href)
  {
  }

  /** Outside the `http` namespace a remote static import is never left as a plain path: it is bundled or external. */
  lemma OnResolveRemote(args: ResolveArgs, imports: map<string, string>, resolveUrl: (string, string) -> string,
                        pkg: string, port: Option<string>)
    requires args.kind != "dynamic-import" && args.namespace != "http" && IsLikelyHttpURL(Mapped(imports, args.path))
    ensures var path := StripUrl(Mapped(imports, args.path));
      && IsLikelyHttpURL(path)
      && OnResolve(args, imports, resolveUrl, pkg, port) == if ForceBundle(pkg, port, path) then Http(path) else External(path)
  {
    StripKeepsRemote(Mapped(imports, args.path));
  }

  /**
   * Outside the `http` namespace a local static import is left to esbuild as
   * a plain path, except the server dependency graph snapshot, which stays external.
   */
  lemma OnResolveLocal(args: ResolveArgs, imports: map<string, string>, resolveUrl: (string, string) -> string,
                       pkg: string, port: Option<string>)
    requires args.kind != "dynamic-import" && args.namespace != "http" && !IsLikelyHttpURL(Mapped(imports, args.path))
    ensures var path := StripUrl(Mapped(imports, args.path));
      OnResolve(args, imports, resolveUrl, pkg, port)
        == if path == "./server_dependency_graph.js" then External(path) else Plain(path)
  {
  }

  // ---------------------------------------------------------------------------
  // onLoad
  // ---------------------------------------------------------------------------

  /** `onLoad` fetches the framework's `serve_dist.ts` in place of its transformer. */
  function LoadPathname(pkg: string, href: string, pathname: string): (r: string)
    ensures href != pkg + "/server/transformer.ts" ==> r == pathname
  {
    if href == pkg + "/server/transformer.ts" then TrimSuffix(pathname, "transformer.ts") + "serve_dist.ts"
    else pathname
  }

  /** `extname(pathname).slice(1)`: the extension without its dot, `""` when there is none. */
  function RawExt(pathname: string): (r: string)
    ensures '.' !in r
  {
    Slice1(Extname(pathname))
  }

  /** `ctype?.startsWith(p)`: the header is present and opens with `p`. */
  predicate Names(contentType: Option<string>, p: string) {
    contentType.Some? && StartsWith(contentType.value, p)
  }

  /**
   * The loader a Content-Type names, tried in order: `application/javascript`
   * is `js`, `application/typescript` is `ts`, `text/jsx` is `jsx`,
   * `text/tsx` is `tsx`; with none of them (or no header) `ext` is kept.
   */
  function ContentTypeLoader(contentType: Option<string>, ext: string): (r: string)
    ensures Names(contentType, "application/javascript") ==> r == "js"
    ensures !Names(contentType, "application/javascript") && Names(contentType, "application/typescript") ==> r == "ts"
    ensures (!Names(contentType, "application/javascript") && !Names(contentType, "application/typescript")
             && Names(contentType, "text/jsx")) ==> r == "jsx"
    ensures (!Names(contentType, "application/javascript") && !Names(contentType, "application/typescript")
             && !Names(contentType, "text/jsx") && Names(contentType, "text/tsx")) ==> r == "tsx"
    ensures (!Names(contentType, "application/javascript") && !Names(contentType, "application/typescript")
             && !Names(contentType, "text/jsx") && !Names(contentType, "text/tsx")) ==> r == ext
  {
    if contentType.None? then ext
    else if StartsWith(contentType.value, "application/javascript") then "js"
    else if StartsWith(contentType.value, "application/typescript") then "ts"
    else if StartsWith(contentType.value, "text/jsx") then "jsx"
    else if StartsWith(contentType.value, "text/tsx") then "tsx"
    else ext
  }

  /**
   * The loader `onLoad` hands esbuild: `mjs` as `js`, `mts` as `ts`, any
   * other built-in extension as it is; otherwise the Content-Type chooses,
   * and failing that the raw extension is kept.
   */
  function LoaderFor(pathname: string, contentType: Option<string>): (r: string)
    ensures RawExt(pathname) == "mjs" ==> r == "js"
    ensures RawExt(pathname) == "mts" ==> r == "ts"
    ensures IsBuiltinExt(RawExt(pathname)) && RawExt(pathname) != "mjs" && RawExt(pathname) != "mts" ==> r == RawExt(pathname)
    ensures IsBuiltinExt(RawExt(pathname)) ==> r in ["tsx", "ts", "jsx", "js"]
    ensures !IsBuiltinExt(RawExt(pathname)) ==> r == ContentTypeLoader(contentType, RawExt(pathname))
  {
    var ext := RawExt(pathname);
    if ext == "mjs" then "js"
    else if ext == "mts" then "ts"
    else if !IsBuiltinExt(ext) then ContentTypeLoader(contentType, ext)
    else ext
  }

  /** For a built-in extension the Content-Type is never consulted. */
  lemma LoaderIgnoresContentType(pathname: string, a: Option<string>, b: Option<string>)
    requires IsBuiltinExt(RawExt(pathname))
    ensures LoaderFor(pathname, a) == LoaderFor(pathname, b)
  {
  }

  /** The transformer is fetched as the TypeScript module `serve_dist.ts` next to it. */
  lemma TransformerLoadsServeDist(pkg: string, pathname: string)
    requires EndsWith(pathname, "/server/transformer.ts")
    ensures EndsWith(LoadPathname(pkg, pkg + "/server/transformer.ts", pathname), "/server/serve_dist.ts")
    ensures LoaderFor(LoadPathname(pkg, pkg + "/server/transformer.ts", pathname), None) == "ts"
  {
    var dir := pathname[..|pathname| - |"/server/transformer.ts"|];
    assert pathname == dir + "/server/" + "transformer.ts";
    assert TrimSuffix(pathname, "transformer.ts") == dir + "/server/" by {
      assert pathname[|pathname| - |"transformer.ts"|..] == "transformer.ts";
    }
    var p := dir + "/server/" + "serve_dist.ts";
    assert LoadPathname(pkg, pkg + "/server/transformer.ts", pathname) == p;
    assert p[|p| - |"/server/serve_dist.ts"|..] == "/server/serve_dist.ts";
    ServeDistExt(dir + "/server/");
  }

  lemma ServeDistExt(dir: string)
    requires EndsWith(dir, "/")
    ensures RawExt(dir + "serve_dist.ts") == "ts"
  {
    var b := "serve_dist" + "." + "ts";
    assert b == "serve_dist.ts";
    BasenameUnder(dir, b);
    BasenameOfSegment(b);
    ExtnameOf("serve_dist", "ts");
  }

  /** The basename of a name under a directory is the name. */
  lemma BasenameUnder(dir: string, b: string)
    requires EndsWith(dir, "/") && b != "" && '/' !in b
    ensures Basename(dir + b) == b
  {
    var p := dir + b;
    assert p[|p| - 1] == b[|b| - 1];
    assert TrimTrailingSlashes(p) == p;
    var head := dir[..|dir| - 1];
    assert p == head + ['/'] + b by {
      assert dir == head + ['/'];
    }
    LastIndexOfLast(head, '/', b);
  }
}
