/**
 * `build` (server/build.ts) as one method: the settings, the route table,
 * the server entry, the JSX shim and the client-module walk, each from the
 * modules that model them. What the build reads from the disk, the
 * environment and the running server comes in as a `BuildEnv`.
 */
module Builder {
  import opened Wrappers
  import opened Types
  import opened Paths
  import opened Routing
  import opened RouteTable
  import opened BuildEntry
  import opened BuildClosure
  import Graph

  /**
   * What the build reads from outside: the working directory, the
   * framework's package URL, `ALEPH_MODULES_PROXY_PORT`, the JSX settings
   * of the import map, the route directory's listing, the export names the
   * compiler finds in each route file, the links of `index.html` (`None`
   * without that file), whether a server handler is installed, the client
   * dependency graph, and the URL parsing of the walk.
   */
  datatype BuildEnv = BuildEnv(
    workingDir: string,
    pkg: string,
    port: Option<string>,
    jsx: JsxConfig,
    routeListing: seq<string>,
    exportNames: string -> seq<string>,
    indexLinks: Option<seq<string>>,
    hasHandler: bool,
    clientGraph: map<string, Graph.Module>,
    parse: string -> Url)

  /** What the build produces: its output directory, the files it writes itself, and `{ clientModules, routeFiles }`. */
  datatype BuildResult = BuildResult(
    outputDir: string,
    serverEntryCode: string,
    jsxShim: Option<(string, string)>,
    routeFiles: seq<RouteFile>,
    clientModules: set<string>,
    saved: map<string, string>)

  /** `config?.routeFiles` is set and truthy. */
  predicate RoutesConfigured(config: Option<AlephConfig>) {
    config.Some? && config.value.routeFiles.Some? && Truthy(config.value.routeFiles.value)
  }

  /** The route files in route order, each with the export names found in it. */
  function RouteFilesOf(entries: seq<RouteEntry>, exportNames: string -> seq<string>): (r: seq<RouteFile>)
    ensures |r| == |entries|
    ensures forall i :: 0 <= i < |entries| ==> r[i].filename == entries[i].filename
    ensures forall i :: 0 <= i < |entries| ==> r[i].exportNames == exportNames(entries[i].filename)
  {
    seq(|entries|, i requires 0 <= i < |entries| => RouteFile(entries[i].filename, exportNames(entries[i].filename)))
  }

  function Filenames(rfs: seq<RouteFile>): (r: seq<string>)
    ensures |r| == |rfs| && forall i :: 0 <= i < |rfs| ==> r[i] == rfs[i].filename
  {
    seq(|rfs|, i requires 0 <= i < |rfs| => rfs[i].filename)
  }

  /** The route entries of a configured build: collected from the listing and sorted by route order. */
  function ExpectedEntries(source: RouteSource, listing: seq<string>): Result<seq<RouteEntry>> {
    match Collect(Listing(ToRouteRegExp(source), listing))
    case Ok(es) => Ok(SortBy(es, EntryOrder))
    case Err(e) => Err(e)
  }

  /** The seeds of the client-module walk. */
  function Seeds(rfs: seq<RouteFile>, env: BuildEnv): seq<string> {
    Filenames(rfs) + LinkTasks(env.indexLinks.GetOr([])) + [StyleModule(env.pkg)]
  }

  /**
   * The route files of `build`: none without a truthy route configuration;
   * otherwise the routes `initRoutes` finds in the listing, in route order,
   * each with its export names. A failing route table fails the build.
   */
  method BuildRouteFiles(config: Option<AlephConfig>, env: BuildEnv) returns (r: Result<seq<RouteFile>>)
    ensures !RoutesConfigured(config) ==> r == Ok([])
    ensures RoutesConfigured(config) ==>
      (r.Err? <==> ExpectedEntries(config.value.routeFiles.value, env.routeListing).Err?)
    ensures RoutesConfigured(config) && r.Ok? ==>
      r.value == RouteFilesOf(ExpectedEntries(config.value.routeFiles.value, env.routeListing).value, env.exportNames)
  {
    if !RoutesConfigured(config) {
      return Ok([]);
    }
    var source := config.value.routeFiles.value;
    var routes := InitRoutes(ToRouteRegExp(source), env.routeListing);
    if routes.Err? {
      return Err(routes.error);
    }
    r := Ok(RouteFilesOf(Entries(routes.value.routes), env.exportNames));
  }

  /**
   * The client-module lookup of `build`: the seeds gathered from the route
   * files, `index.html` and the style runtime, then the walk.
   */
  method LookUpClientModules(routeFiles: seq<RouteFile>, env: BuildEnv, outputDir: string)
    returns (clientModules: set<string>, saved: map<string, string>)
    ensures !env.hasHandler ==> clientModules == {}
    ensures env.hasHandler ==>
      Elements(Seeds(routeFiles, env)) <= clientModules && Closed(clientModules, env.parse, env.clientGraph)
    ensures env.hasHandler ==> forall s ::
      Elements(Seeds(routeFiles, env)) <= s && Closed(s, env.parse, env.clientGraph) ==> clientModules <= s
    ensures saved.Keys == clientModules
    ensures forall x :: x in saved ==> saved[x] == SavePath(outputDir, x, env.parse(x))
  {
    var tasks := SeedTasks(Filenames(routeFiles), env.indexLinks, env.pkg);
    var order;
    clientModules, saved, order := ClientModules(tasks, env.hasHandler, env.clientGraph, env.parse, outputDir);
  }

  /**
   * `build`. An unsupported platform and a failing route table end it with
   * an error; otherwise the server entry is built from the route files in
   * route order, the JSX shim is written to `jsx-shim.js` in the output
   * directory when the entry needs it, and the client modules are the
   * least closed set over the seeds, each saved once.
   */
  method Build(config: Option<AlephConfig>, serverEntry: Option<string>, env: BuildEnv) returns (r: Result<BuildResult>)
    ensures BuildSettings(config, env.workingDir).Err? ==> r == Err(BuildSettings(config, env.workingDir).error)
    ensures RoutesConfigured(config) && BuildSettings(config, env.workingDir).Ok? ==>
      (r.Err? <==> ExpectedEntries(config.value.routeFiles.value, env.routeListing).Err?)
    ensures !RoutesConfigured(config) ==> (r.Ok? <==> BuildSettings(config, env.workingDir).Ok?)
    ensures r.Ok? ==> r.value.outputDir == BuildSettings(config, env.workingDir).value.outputDir
    ensures r.Ok? && !RoutesConfigured(config) ==> r.value.routeFiles == []
    ensures r.Ok? && RoutesConfigured(config) ==>
      r.value.routeFiles == RouteFilesOf(ExpectedEntries(config.value.routeFiles.value, env.routeListing).value, env.exportNames)
    ensures r.Ok? && NeedsJsxShim(serverEntry, env.jsx) ==>
      r.value.jsxShim == Some((JoinPath(r.value.outputDir, "jsx-shim.js"), JsxShimCode(env.jsx, env.jsx.jsxImportSource.value)))
    ensures r.Ok? && !NeedsJsxShim(serverEntry, env.jsx) ==> r.value.jsxShim == None
    ensures r.Ok? && !env.hasHandler ==> r.value.clientModules == {}
    ensures r.Ok? && env.hasHandler ==>
      Elements(Seeds(r.value.routeFiles, env)) <= r.value.clientModules &&
      Closed(r.value.clientModules, env.parse, env.clientGraph)
    ensures r.Ok? && env.hasHandler ==> forall s ::
      Elements(Seeds(r.value.routeFiles, env)) <= s && Closed(s, env.parse, env.clientGraph) ==> r.value.clientModules <= s
    ensures r.Ok? ==> r.value.saved.Keys == r.value.clientModules
    ensures r.Ok? ==> forall x :: x in r.value.saved ==> r.value.saved[x] == SavePath(r.value.outputDir, x, env.parse(x))
    ensures r.Ok? ==> r.value.serverEntryCode == ServerEntryCode(env.pkg, env.port, r.value.routeFiles, serverEntry)
  {
    var settings := BuildSettings(config, env.workingDir);
    if settings.Err? {
      return Err(settings.error);
    }
    var outputDir := settings.value.outputDir;
    var routeFiles := BuildRouteFiles(config, env);
    if routeFiles.Err? {
      return Err(routeFiles.error);
    }
    var rfs := routeFiles.value;
    var serverEntryCode := ServerEntryCode(env.pkg, env.port, rfs, serverEntry);
    var jsxShim: Option<(string, string)> := None;
    if NeedsJsxShim(serverEntry, env.jsx) {
      jsxShim := Some((JoinPath(outputDir, "jsx-shim.js"), JsxShimCode(env.jsx, env.jsx.jsxImportSource.value)));
    }
    var clientModules, saved := LookUpClientModules(rfs, env, outputDir);
    r := Ok(BuildResult(outputDir, serverEntryCode, jsxShim, rfs, clientModules, saved));
  }
}
