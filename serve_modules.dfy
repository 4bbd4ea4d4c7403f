/**
 * The app-module server of server/serve_modules.ts: the loader dispatch of
 * `initLoader`, the CSS and ES module loaders with their writes to the
 * server dependency graph, and the port retry of `serveAppModules`.
 * `bundleCSS`, `fastTransform`, the atomic-CSS generator, file reads and
 * the MIME table are foreign and come in as function parameters.
 */
module ServeModules {
  import opened Wrappers
  import opened Strings
  import opened Paths
  import opened Helpers
  import opened Types
  import opened Graph

  // ---------------------------------------------------------------------------
  // Loader dispatch
  // ---------------------------------------------------------------------------

  /** What a custom loader hands back (`ModuleLoaderContent`). */
  datatype LoaderContent = LoaderContent(code: string, lang: Option<string>, inlineCSS: Option<string>)

  /** A custom module loader: `test` picks the pathnames it serves, `load` produces them. */
  datatype ModuleLoader = ModuleLoader(test: string -> bool, load: string -> LoaderContent)

  /** Which loader `initLoader` gives a pathname. */
  datatype Choice = CssLoader | EsLoader | Custom(index: nat) | NotServed

  /**
   * The dispatch of `initLoader`: CSS first, then the built-in module
   * extensions, then the first custom loader that accepts the pathname;
   * nothing is served otherwise.
   */
  function Dispatch(pathname: string, loaders: seq<ModuleLoader>): (r: Choice)
    ensures r == CssLoader <==> EndsWith(pathname, ".css")
    ensures r == EsLoader <==> !EndsWith(pathname, ".css") && EndsWithBuiltinExt(pathname)
    ensures r.Custom? ==> !EndsWith(pathname, ".css") && !EndsWithBuiltinExt(pathname)
    ensures r.Custom? ==> r.index < |loaders| && loaders[r.index].test(pathname)
    ensures r.Custom? ==> forall j :: 0 <= j < r.index ==> !loaders[j].test(pathname)
    ensures r == NotServed <==>
      !EndsWith(pathname, ".css") && !EndsWithBuiltinExt(pathname) && forall j :: 0 <= j < |loaders| ==> !loaders[j].test(pathname)
  {
    if EndsWith(pathname, ".css") then CssLoader
    else
      var builtin := FindIndex(BuiltinModuleExts, ext => EndsWith(pathname, "." + ext));
      assert builtin.Some? <==> EndsWithBuiltinExt(pathname) by {
        if builtin.Some? {
          assert EndsWith(pathname, "." + BuiltinModuleExts[builtin.value]);
        }
      }
      if builtin.Some? then EsLoader
      else
        match FindIndex(loaders, (l: ModuleLoader) => l.test(pathname))
        case Some(i) => Custom(i)
        case None => NotServed
  }

  /** A custom loader is consulted only for a pathname neither built-in loader takes. */
  lemma BuiltinLoadersFirst(pathname: string, loaders: seq<ModuleLoader>, i: nat)
    requires i < |loaders| && loaders[i].test(pathname)
    ensures EndsWith(pathname, ".css") ==> Dispatch(pathname, loaders) == CssLoader
    ensures !EndsWith(pathname, ".css") && EndsWithBuiltinExt(pathname) ==> Dispatch(pathname, loaders) == EsLoader
    ensures !EndsWith(pathname, ".css") && !EndsWithBuiltinExt(pathname) ==>
      Dispatch(pathname, loaders).Custom? && Dispatch(pathname, loaders).index <= i
  {
  }

  // ---------------------------------------------------------------------------
  // The loaders' environment
  // ---------------------------------------------------------------------------

  /** What `bundleCSS` returns: the CSS, the JSON of the CSS-module exports, the imported files. */
  datatype CssBundle = CssBundle(code: string, exportsJson: string, deps: Option<seq<string>>)

  /** What `fastTransform` returns: the JavaScript and its dependency specifiers. */
  datatype Transformed = Transformed(code: string, deps: seq<string>)

  /**
   * The foreign calls the loaders make and the server configuration they
   * read. `bundle(specifier, text, cssModules)` is `bundleCSS` with the
   * fixed browser targets and `minify: !isDev`; `transform(specifier, code,
   * graphVersions, initialGraphVersion)` is `fastTransform` with `isDev`
   * and the import map; `generate(code, specifier)` is the atomic-CSS
   * generator's `css`; `contentTypeOf` is `getContentType`.
   */
  datatype LoaderEnv = LoaderEnv(
    readFile: string -> string,
    bundle: (string, string, bool) -> CssBundle,
    transform: (string, string, map<string, string>, string) -> Transformed,
    generate: (string, string) -> string,
    contentTypeOf: string -> string,
    config: Option<AlephConfig>)

  /** A loader's answer: the content and its content type. */
  datatype Served = Served(content: string, contentType: Option<string>)

  // ---------------------------------------------------------------------------
  // cssModuleLoader
  // ---------------------------------------------------------------------------

  const JsContentType: string := "application/javascript; charset=utf-8"

  /** CSS modules mode: the class names of a `.module.css` file are scoped and exported. */
  predicate CssModulesMode(pathname: string) {
    EndsWith(pathname, ".module.css")
  }

  /** Only CSS pathnames are bundled in CSS modules mode. */
  lemma CssModulesModeIsCss(pathname: string)
    requires CssModulesMode(pathname)
    ensures EndsWith(pathname, ".css")
  {
    var n := |pathname|;
    assert pathname[n - 4..] == pathname[n - 11..][7..];
  }

  /** The bundle the CSS loader asks for: the file at `"." + pathname`, in modules mode when the name says so. */
  function CssBundleOf(pathname: string, env: LoaderEnv): CssBundle {
    var specifier := "." + pathname;
    env.bundle(specifier, env.readFile(specifier), CssModulesMode(pathname))
  }

  /** The CSS loader's answer: a JavaScript module whose default export is the class-name map. */
  function CssServed(b: CssBundle): (r: Served)
    ensures StartsWith(r.content, "export default ") && EndsWith(r.content, ";")
    ensures r.contentType == Some(JsContentType)
  {
    var r := Served("export default " + b.exportsJson + ";", Some(JsContentType));
    PrefixOfConcat("export default ", b.exportsJson + ";");
    assert r.content == "export default " + (b.exportsJson + ";");
    r
  }

  /**
   * `cssModuleLoader`. With a server graph, the CSS file is marked in it
   * with the bundler's dependencies (none when it reports none) and the
   * bundled CSS as its inline CSS.
   */
  method CssModuleLoader(pathname: string, env: LoaderEnv, graph: DependencyGraph?) returns (out: Served)
    requires graph != null ==> graph.Valid()
    modifies graph
    ensures out == CssServed(CssBundleOf(pathname, env))
    ensures graph != null ==> graph.Valid() && graph.lastVersion > old(graph.lastVersion)
    ensures graph != null ==> graph.modules == old(graph.modules)["." + pathname :=
      Module("." + pathname, graph.lastVersion, CssBundleOf(pathname, env).deps.GetOr([]), Some(CssBundleOf(pathname, env).code))]
  {
    var specifier := "." + pathname;
    var b := env.bundle(specifier, env.readFile(specifier), EndsWith(pathname, ".module.css"));
    if graph != null {
      var _ := graph.Mark(specifier, b.deps.GetOr([]), Some(b.code));
    }
    out := Served("export default " + b.exportsJson + ";", Some(JsContentType));
  }

  // ---------------------------------------------------------------------------
  // esModuleLoader
  // ---------------------------------------------------------------------------

  /** The ES loader's input: the pathname and what was loaded for it. */
  datatype LoaderInput = LoaderInput(pathname: string, code: string, lang: Option<string>, inlineCSS: Option<string>)

  /** A truthy optional string: present and not empty. */
  predicate Truthy(s: Option<string>) {
    s.Some? && s.value != ""
  }

  /** `isJSX`: the language is `tsx` or `jsx`, or the pathname ends with one of those extensions. */
  predicate IsJSX(lang: Option<string>, pathname: string) {
    lang == Some("tsx") || lang == Some("jsx") || EndsWith(pathname, ".jsx") || EndsWith(pathname, ".tsx")
  }

  /** The content type: the MIME type of a `file.<lang>` when a language is given, none otherwise. */
  function ContentTypeFor(lang: Option<string>, contentTypeOf: string -> string): (r: Option<string>)
    ensures r.Some? <==> Truthy(lang)
    ensures Truthy(lang) ==> r.value == contentTypeOf("file." + lang.value)
  {
    if Truthy(lang) then Some(contentTypeOf("file." + lang.value)) else None
  }

  /**
   * `graphVersions`: every local module other than the one being
   * transformed, with its version in hexadecimal; nothing when the
   * transformed specifier is itself remote.
   */
  function GraphVersions(modules: map<string, Module>, specifier: string): (r: map<string, string>)
    ensures forall s :: s in r ==> !IsLikelyHttpURL(specifier) && s in modules && !IsLikelyHttpURL(s) && s != specifier
    ensures forall s :: !IsLikelyHttpURL(specifier) && s in modules && !IsLikelyHttpURL(s) && s != specifier ==> s in r
    ensures forall s :: s in r ==> r[s] == Hex(modules[s].version)
  {
    if IsLikelyHttpURL(specifier) then map[]
    else map s | s in modules && !IsLikelyHttpURL(s) && s != specifier :: Hex(modules[s].version)
  }

  /** The transformer can read every version back from the snapshot. */
  lemma GraphVersionsDecode(modules: map<string, Module>, specifier: string)
    ensures forall s :: s in GraphVersions(modules, specifier) ==> FromBase(GraphVersions(modules, specifier)[s], 16) == modules[s].version
  {
    forall s | s in GraphVersions(modules, specifier)
      ensures FromBase(GraphVersions(modules, specifier)[s], 16) == modules[s].version
    {
      FromBaseToBase(modules[s].version, 16);
    }
  }

  /** A served file's specifier `"." + pathname` is local, so its snapshot holds every other local module. */
  lemma LocalSnapshot(modules: map<string, Module>, pathname: string)
    ensures !IsLikelyHttpURL("." + pathname)
    ensures forall s :: s in modules && !IsLikelyHttpURL(s) && s != "." + pathname ==> s in GraphVersions(modules, "." + pathname)
  {
    var p := "." + pathname;
    assert !StartsWith(p, "https://") by {
      if |p| >= 8 {
        assert p[..8][0] == '.';
      }
    }
    assert !StartsWith(p, "http://") by {
      if |p| >= 7 {
        assert p[..7][0] == '.';
      }
    }
  }

  /**
   * How the atomic CSS joins the inline CSS: an empty result changes
   * nothing, otherwise it is appended after a newline to truthy inline CSS
   * or becomes the inline CSS.
   */
  function MergeInlineCss(existing: Option<string>, css: string): (r: Option<string>)
    ensures css == "" ==> r == existing
    ensures css != "" ==> r.Some? && EndsWith(r.value, css)
    ensures css != "" && Truthy(existing) ==> r == Some(existing.value + "\n" + css)
    ensures css != "" && !Truthy(existing) ==> r == Some(css)
  {
    if css == "" then existing
    else if Truthy(existing) then
      var merged := existing.value + "\n" + css;
      assert merged[|merged| - |css|..] == css;
      Some(merged)
    else Some(css)
  }

  /** Merging never drops inline CSS that was already there: it stays a prefix. */
  lemma MergeKeepsExisting(existing: Option<string>, css: string)
    ensures Truthy(existing) ==> MergeInlineCss(existing, css).Some?
    ensures Truthy(existing) ==> StartsWith(MergeInlineCss(existing, css).value, existing.value)
  {
    if css != "" && Truthy(existing) {
      PrefixOfConcat(existing.value, "\n" + css);
      assert existing.value + "\n" + css == existing.value + ("\n" + css);
    }
  }

  /** Whether atomic CSS is generated: presets are configured. */
  predicate AtomicCssEnabled(config: Option<AlephConfig>) {
    config.Some? && config.value.atomicCss.Some? && |config.value.atomicCss.value.presets| > 0
  }

  /** The inline CSS the ES loader marks: the input's, with the atomic CSS merged in for a JSX module. */
  function InlineCssAfter(input: LoaderInput, env: LoaderEnv): (r: Option<string>)
    ensures !(AtomicCssEnabled(env.config) && IsJSX(input.lang, input.pathname)) ==> r == input.inlineCSS
    ensures Truthy(input.inlineCSS) ==> r.Some? && StartsWith(r.value, input.inlineCSS.value)
  {
    if AtomicCssEnabled(env.config) && IsJSX(input.lang, input.pathname) then
      MergeKeepsExisting(input.inlineCSS, env.generate(input.code, "." + input.pathname));
      MergeInlineCss(input.inlineCSS, env.generate(input.code, "." + input.pathname))
    else input.inlineCSS
  }

  /** What `fastTransform` is asked to do for a module, given the graph it sees. */
  function TransformOf(input: LoaderInput, env: LoaderEnv, modules: map<string, Module>, initialVersion: nat): Transformed {
    var specifier := "." + input.pathname;
    env.transform(specifier, input.code, GraphVersions(modules, specifier), Hex(initialVersion))
  }

  /**
   * `esModuleLoader`. With a server graph, the code is transformed against
   * the graph's version snapshot, and the module is marked with the
   * transformer's dependencies and its inline CSS; without one the raw code
   * is served as it is.
   */
  method EsModuleLoader(input: LoaderInput, env: LoaderEnv, graph: DependencyGraph?) returns (out: Served)
    requires graph != null ==> graph.Valid()
    modifies graph
    ensures out.contentType == ContentTypeFor(input.lang, env.contentTypeOf)
    ensures graph == null ==> out.content == input.code
    ensures graph != null ==> out.content == TransformOf(input, env, old(graph.modules), graph.initialVersion).code
    ensures graph != null ==> graph.Valid() && graph.lastVersion > old(graph.lastVersion)
    ensures graph != null ==> graph.modules == old(graph.modules)["." + input.pathname :=
      Module("." + input.pathname, graph.lastVersion,
             TransformOf(input, env, old(graph.modules), graph.initialVersion).deps, InlineCssAfter(input, env))]
  {
    var specifier := "." + input.pathname;
    var isJSX := input.lang == Some("tsx") || input.lang == Some("jsx") ||
                 EndsWith(input.pathname, ".jsx") || EndsWith(input.pathname, ".tsx");
    var contentType := if Truthy(input.lang) then Some(env.contentTypeOf("file." + input.lang.value)) else None;
    if graph != null {
      var graphVersions := GraphVersions(graph.modules, specifier);
      var t := env.transform(specifier, input.code, graphVersions, Hex(graph.initialVersion));
      var inlineCSS := input.inlineCSS;
      if AtomicCssEnabled(env.config) && isJSX {
        var css := env.generate(input.code, specifier);
        if css != "" {
          if Truthy(inlineCSS) {
            inlineCSS := Some(inlineCSS.value + "\n" + css);
          } else {
            inlineCSS := Some(css);
          }
        }
      }
      var _ := graph.Mark(specifier, t.deps, inlineCSS);
      return Served(t.code, contentType);
    }
    out := Served(input.code, contentType);
  }

  // ---------------------------------------------------------------------------
  // initLoader
  // ---------------------------------------------------------------------------

  /**
   * What the ES loader is handed for a dispatched pathname: the file as
   * read for a built-in extension, the custom loader's output otherwise.
   */
  function EsInput(pathname: string, loaders: seq<ModuleLoader>, env: LoaderEnv): (r: Option<LoaderInput>)
    ensures r.Some? <==> Dispatch(pathname, loaders) == EsLoader || Dispatch(pathname, loaders).Custom?
    ensures r.Some? ==> r.value.pathname == pathname
    ensures Dispatch(pathname, loaders) == EsLoader ==> r == Some(LoaderInput(pathname, env.readFile("." + pathname), None, None))
    ensures Dispatch(pathname, loaders).Custom? ==>
      var c := loaders[Dispatch(pathname, loaders).index].load(pathname);
      r == Some(LoaderInput(pathname, c.code, c.lang, c.inlineCSS))
  {
    match Dispatch(pathname, loaders)
    case EsLoader => Some(LoaderInput(pathname, env.readFile("." + pathname), None, None))
    case Custom(i) =>
      var c := loaders[i].load(pathname);
      Some(LoaderInput(pathname, c.code, c.lang, c.inlineCSS))
    case _ => None
  }

  /**
   * The loader `initLoader` builds, applied to a request's pathname: the
   * dispatched loader's answer; a custom loader's output is passed on to
   * the ES loader; `None` when no loader serves the pathname.
   */
  method Load(pathname: string, loaders: seq<ModuleLoader>, env: LoaderEnv, graph: DependencyGraph?)
    returns (out: Option<Served>)
    requires graph != null ==> graph.Valid()
    modifies graph
    ensures out.None? <==> Dispatch(pathname, loaders) == NotServed
    ensures Dispatch(pathname, loaders) == NotServed && graph != null ==> unchanged(graph)
    ensures Dispatch(pathname, loaders) == CssLoader ==> out == Some(CssServed(CssBundleOf(pathname, env)))
    ensures Dispatch(pathname, loaders) == CssLoader && graph != null ==>
      && graph.lastVersion > old(graph.lastVersion)
      && graph.modules == old(graph.modules)["." + pathname :=
        Module("." + pathname, graph.lastVersion, CssBundleOf(pathname, env).deps.GetOr([]), Some(CssBundleOf(pathname, env).code))]
    ensures Dispatch(pathname, loaders) == EsLoader && graph == null ==> out == Some(Served(env.readFile("." + pathname), None))
    ensures Dispatch(pathname, loaders).Custom? && graph == null ==>
      var c := loaders[Dispatch(pathname, loaders).index].load(pathname);
      out == Some(Served(c.code, ContentTypeFor(c.lang, env.contentTypeOf)))
    ensures graph != null && out.Some? ==> graph.Valid() && "." + pathname in graph.modules
    ensures EsInput(pathname, loaders, env).Some? && graph != null ==>
      var input := EsInput(pathname, loaders, env).value;
      var t := TransformOf(input, env, old(graph.modules), graph.initialVersion);
      && out == Some(Served(t.code, ContentTypeFor(input.lang, env.contentTypeOf)))
      && graph.lastVersion > old(graph.lastVersion)
      && graph.modules == old(graph.modules)["." + pathname := Module("." + pathname, graph.lastVersion, t.deps, InlineCssAfter(input, env))]
  {
    var choice := Dispatch(pathname, loaders);
    match choice
    case CssLoader =>
      var served := CssModuleLoader(pathname, env, graph);
      out := Some(served);
    case EsLoader =>
      var served := EsModuleLoader(LoaderInput(pathname, env.readFile("." + pathname), None, None), env, graph);
      out := Some(served);
    case Custom(i) =>
      var c := loaders[i].load(pathname);
      var served := EsModuleLoader(LoaderInput(pathname, c.code, c.lang, c.inlineCSS), env, graph);
      out := Some(served);
    case NotServed =>
      out := None;
  }

  // ---------------------------------------------------------------------------
  // serveAppModules
  // ---------------------------------------------------------------------------

  /** What starting the file server on a port gives: it serves, the port is taken, or another error. */
  datatype ListenOutcome = Listening | AddrInUse | Failed(error: string)

  /** The largest TCP port. */
  const MaxPort: nat := 65535

  /** Listening on a port: past the largest port the runtime refuses with an error other than `AddrInUse`. */
  function Attempt(listen: nat -> ListenOutcome, port: nat): (r: ListenOutcome)
    ensures port > MaxPort ==> r.Failed?
    ensures port <= MaxPort ==> r == listen(port)
  {
    if port > MaxPort then Failed("invalid port") else listen(port)
  }

  /** The process-wide state `serveAppModules` touches: the server graph and `ALEPH_APP_MODULES_PORT`. */
  class AppModulesServer {
    var graph: DependencyGraph?
    var modulesPort: Option<string>

    constructor ()
      ensures graph == null && modulesPort == None
    {
      graph := null;
      modulesPort := None;
    }

    /**
     * `serveAppModules`: a server graph is created only when none exists;
     * the port is published; a taken port moves on to the next one, and
     * any other error is rethrown. On success the result is the first port
     * from `port` on that was not taken.
     */
    method ServeAppModules(port: nat, listen: nat -> ListenOutcome, initialVersion: nat) returns (r: Result<nat>)
      modifies this
      decreases MaxPort + 1 - port
      ensures old(graph) != null ==> graph == old(graph)
      ensures old(graph) == null ==> graph != null && fresh(graph) && graph.Valid() && graph.modules == map[]
      ensures r.Ok? ==> port <= r.value && Attempt(listen, r.value) == Listening
      ensures r.Ok? ==> forall p :: port <= p < r.value ==> Attempt(listen, p) == AddrInUse
      ensures r.Ok? ==> modulesPort == Some(Dec(r.value))
      ensures r.Err? ==> exists p :: (port <= p && Attempt(listen, p) == Failed(r.error) &&
        forall q :: port <= q < p ==> Attempt(listen, q) == AddrInUse)
    {
      if graph == null {
        graph := new DependencyGraph(initialVersion);
      }
      modulesPort := Some(Dec(port));
      var outcome := Attempt(listen, port);
      match outcome
      case Listening =>
        r := Ok(port);
      case AddrInUse =>
        r := ServeAppModules(port + 1, listen, initialVersion);
        if r.Ok? {
          forall p | port <= p < r.value
            ensures Attempt(listen, p) == AddrInUse
          {
            if p != port {
              assert port + 1 <= p < r.value;
            }
          }
        }
      case Failed(e) =>
        r := Err(e);
        assert Attempt(listen, port) == Failed(r.error);
    }
  }
}
