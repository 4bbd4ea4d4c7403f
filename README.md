# Aleph server core in Dafny

This project models the server core of the Aleph web framework (canary line) and proves properties of the model. The core has three parts:

- **Route compiler** (`server/routing.ts`).
  - `toRouteRegExp` turns a routing configuration into a prefix, a `test` predicate and an `exec` function. The configuration is either a structured `{dir, exts, host}` or a glob string. `exec` maps a route file's name to a URL pattern.
  - `initRoutes` turns a directory listing into the route table. The table is sorted by `getRouteOrder`. It keeps the `_app`, `_404` and `_error` slots and sets `nesting` flags in place.
  - `isRouteFile` decides whether a file is a route.
  - `register` and `importRouteModule` form the route-module registry.
- **Build** (`server/build.ts`).
  - The platform check and the output-directory default.
  - The text of the generated server entry, and the JSX shim.
  - The esbuild plugin decisions: `forceBundle`, `onResolve` and `onLoad`.
  - The breadth-first walk over the client dependency graph, which fetches and saves every reachable client module once.
- **App-module server** (`server/serve_modules.ts`).
  - The loader dispatch of `initLoader`.
  - The CSS and ES module loaders, with their writes to the server dependency graph.
  - The port retry of `serveAppModules`.

## Modules and files

Pure code is written as datatypes, functions and lemmas. Code that changes state is written as classes and methods with loops:

- `RouteMeta.nesting` is a field set in place.
- The route registry is a class holding a map.
- The dependency graph is a class with `Mark`.
- The client walk is a `while` loop over levels, with loop invariants.
- The server's process-wide state is a class.

| file | module | models |
|---|---|---|
| `wrappers.dfy` | `Wrappers` | `Option` and `Result` |
| `strings.dfy` | `Strings` | string helpers: prefix and suffix tests, `findIndex`, splitting and joining, hex and decimal numerals, JSON string quoting |
| `paths.dfy` | `Paths` | `util.splitPath`, `util.cleanPath`, `trimPrefix`/`trimSuffix`, `splitBy`, `isLikelyHttpURL`, and POSIX `basename`/`extname`/`join` |
| `types.dfy` | `Types` | the configuration records of `server/types.ts` that the core reads |
| `helpers.dfy` | `Helpers` | `builtinModuleExts` |
| `graph.dfy` | `Graph` | the dependency graph, as its call sites use it |
| `routing.dfy` | `Routing` | `toRouteRegExp`: `prefix`, `test`, `exec` |
| `route_table.dfy` | `RouteTable` | `getRouteOrder`, the sort, `initRoutes`, `isRouteFile`, `register`/`importRouteModule` |
| `build_entry.dfy` | `BuildEntry` | build settings, the server-entry text, the JSX shim |
| `build_plugin.dfy` | `BuildPlugin` | `forceBundle`, `onResolve`, `onLoad` |
| `build_closure.dfy` | `BuildClosure` | the seed tasks, the client-module walk, save paths |
| `build.dfy` | `Builder` | `build` as a whole |
| `serve_modules.dfy` | `ServeModules` | `initLoader`, `cssModuleLoader`, `esModuleLoader`, `serveAppModules` |

Some of the source's collaborators are not part of this model. Each one becomes a function-typed parameter or a datatype field:

- std `globToRegExp` becomes the glob's `matches` predicate.
- The directory listing becomes a sequence of file names.
- `parseExportNames`, `parseHtmlLinks` and URL parsing with `toLocalPath` become parameters.
- So do `bundleCSS`, `fastTransform`, the UnoCSS generator, `getContentType`, `Deno.readTextFile` and `new URL(path, importer).href`.
- Reading environment variables becomes a plain value.
- The state the core keeps on `globalThis` becomes parameters and fields:
  - `initRoutes` publishes `__ALEPH_ROUTES` (server/routing.ts:93-94). `isRouteFile` reads it as its `current` parameter.
  - `__ALEPH_CONFIG` becomes the `config` parameter of `IsRouteFile` and `Build`.
  - `__ALEPH_SERVER_CONFIG` becomes the `config` field of the loader environment.
  - `__ALEPH_SERVER` becomes the build's `hasHandler` flag.
  - `serverDependencyGraph` becomes the `graph` parameter or field.
  - `clientDependencyGraph` becomes the walk's `clientGraph` parameter.

`lib/util.ts`, `lib/helpers.ts` and `server/graph.ts` are not part of this model either. Their behaviour is stated in `paths.dfy`, `helpers.dfy` and `graph.dfy` from what the core relies on:

- `splitPath` splits on `/` and drops empty and `.` segments.
- `cleanPath` resolves `.` and `..` and yields one leading `/`.
- `isLikelyHttpURL` tests for an `http://` or `https://` prefix.
- `builtinModuleExts` is `tsx, ts, mts, jsx, js, mjs`.
- `mark` always hands out a larger version.

## Model

| member | source | states |
|---|---|---|
| Routing.Prefix | server/routing.ts:100-101 | the prefix is `"."` followed by a cleaned path, so it always opens with `./` |
| Routing.GlobPrefixHasNoWildcard | server/routing.ts:101 | a glob's prefix is cut before the first `*` and holds no wildcard |
| Routing.TestStructured | server/routing.ts:102-107 | a structured `test` holds iff the name starts with the prefix and ends with one of the extensions, with the dot supplied when an extension lacks it |
| Routing.RewriteCatchAll | server/routing.ts:116-119 | `[...name]rest` becomes `:name+rest` |
| Routing.RewriteParam | server/routing.ts:120-123 | `[name]rest`, when `name` does not open with `...`, becomes `:name rest` |
| Routing.RewriteDollar | server/routing.ts:124-127 | `$name` becomes `:name` |
| Routing.RewriteLiteral | server/routing.ts:128 | a segment that opens with neither `[` nor `$` is kept |
| Routing.RouteSegments | server/routing.ts:115-129 | one segment per named path segment below the prefix, and each is that segment put through the rewrite |
| Routing.Pathname | server/routing.ts:134-136 | the pathname is `/` and the segments joined with `/`, the last without its extension; the exact result `/index` becomes `/` and every other result is returned unchanged |
| Routing.Exec | server/routing.ts:113-139 | `exec` gives `null` iff `test` fails and throws iff `test` passes with no segment left; the first segment is the host iff the configuration is host-aware, two or more segments remain and the first opens with `@`, and then the host is that segment without `@` and the pathname is that of the other segments; otherwise there is no host and the pathname is that of all segments |
| Routing.ExecParamRoute | server/routing.ts:113-139 | under `./routes`, `dir/[name].tsx` for a plain directory is the pattern `/dir/:name`, with or without `host` |
| Routing.ExecCatchAllRoute | server/routing.ts:113-139 | `dir/[...name].tsx` is the pattern `/dir/:name+` |
| Routing.ExecHostRoute | server/routing.ts:130-136 | `@h/page.tsx` is host `h` with pathname `/page` when `host` is set, and pathname `/@h/page` with no host otherwise |
| Routing.ExecBlog | server/routing.ts:120-123 | `./routes/blog/[id].tsx` is `/blog/:id` |
| Routing.ExecDocs | server/routing.ts:116-119 | `./routes/docs/[...path].tsx` is `/docs/:path+` |
| Routing.ExecIndex | server/routing.ts:134-136 | `./routes/index.tsx` is `/` |
| Routing.ExecAdmin | server/routing.ts:130-136 | `./routes/@admin/users.tsx` is host `admin` and `/users` with `host` set, and `/@admin/users` without it |
| Routing.PathnameNestedIndex | server/routing.ts:134-136 | a nested `index.e` stays in the pathname: `dir/index.e` is `/dir/index` |
| Routing.PathnameFooIndex | server/routing.ts:134-136 | `foo/index.tsx` gives `/foo/index`, not `/foo` |
| Routing.ToRouteRegExp | server/routing.ts:99-141 | the compiled object's `prefix`, `test` and `exec` are `Prefix`, `Test` and `Exec` of the configuration |
| RouteTable.EntryOrder | server/routing.ts:149-158 | the order key is 0 for `/_404`, `/_app` and `/_error`, and at least 1 for every other route |
| RouteTable.ShallowerFirst | server/routing.ts:157 | of two ordinary routes, the one with fewer `/` in its filename sorts first (with fewer than 100 parameters) |
| RouteTable.FewerParamsFirst | server/routing.ts:157 | at equal depth, the route with fewer `/:` segments sorts first |
| RouteTable.SortBy | server/routing.ts:81 | `routes.sort` on the order key gives a list that is ascending and a permutation of the input |
| RouteTable.SortByStable | server/routing.ts:81 | the sort is stable: the routes with any one order key come out in their listing order |
| RouteTable.SortBySorted | server/routing.ts:81 | sorting an ordered list leaves it unchanged |
| RouteTable.SortByIdempotent | server/routing.ts:81 | sorting twice is sorting once |
| RouteTable.MagicFirst | server/routing.ts:149-157 | after the sort every magic route precedes every ordinary one |
| RouteTable.SortMetaEntries | server/routing.ts:81 | sorting the meta objects orders their entries as sorting the entries would |
| RouteTable.NestingIff | server/routing.ts:83-91 | a route nests iff it is `/_app`, or it is neither `/` nor an index route and some route's pathname extends it by `/` |
| RouteTable.NestingExamples | server/routing.ts:85-87 | `/blog` nests over `/blog/:id`; `/blog/:id` and `/about` do not nest |
| RouteTable.IndexNeverNests | server/routing.ts:85 | an index route never nests |
| RouteTable.FileName | server/routing.ts:62 | a listed file's name opens with the prefix |
| RouteTable.Collect | server/routing.ts:61-78 | at most one entry per listed file, each from a file `exec` matched, with `exec`'s pattern |
| RouteTable.CollectErr | server/routing.ts:61-63 | collection fails iff `exec` throws on some listed file |
| RouteTable.CollectMatched | server/routing.ts:62-69 | every collected route passes `test` and carries the pattern `exec` gives its filename |
| RouteTable.LastWith | server/routing.ts:70-76 | a slot holds the last collected route with its pathname, or nothing when no route has it |
| RouteTable.CollectRoutes | server/routing.ts:61-78 | the loop creates one fresh meta object per matched file, in listing order, with `nesting` unset, and fails when `exec` throws |
| RouteTable.MarkNesting | server/routing.ts:83-91 | after the loop each route's `nesting` is exactly the nesting rule over the final list |
| RouteTable.SortAndNest | server/routing.ts:79-92 | the routes are the same objects, their entries are sorted by order key, and nesting is set |
| RouteTable.InitRoutes | server/routing.ts:51-96 | fails iff collection fails; the routes are the collected entries sorted; each slot holds the last route with its pathname, as one of the routes; nesting is exact |
| RouteTable.IsRouteFile | server/routing.ts:36-48 | true iff a current route has exactly this filename, or else a truthy configuration's `test` accepts it |
| RouteTable.RouteRegistry.Register | server/routing.ts:18-20 | the module is stored under the filename, replacing an earlier one |
| RouteTable.RouteRegistry.ImportRouteModule | server/routing.ts:22-33 | covers each case: a registered module is returned without a graph write; otherwise the graph's truthy version, or a freshly marked version, or the hex time is the `?v=` query of the proxy URL loaded |
| RouteTable.RegisterThenImport | server/routing.ts:18-33 | a registered module is what importing it returns, with the graph unchanged |
| RouteTable.ProxyUrl | server/routing.ts:30 | the module URL is on `http://localhost:` |
| Graph.DependencyGraph.Get | server/build.ts:240 | `get` returns the record iff the specifier is in the graph |
| Graph.DependencyGraph.Mark | server/serve_modules.ts:74 | `mark` stores the given deps and inline CSS under the specifier, with a version above every earlier one, and changes no other record |
| Graph.MarkThenGet | server/serve_modules.ts:31 | `get` after `mark` returns what was marked, with a version larger than any earlier record's |
| BuildEntry.BuildSettings | server/build.ts:27-33 | Deno is accepted, with the output directory joined under the working directory; Cloudflare and Vercel are rejected with the message naming the platform |
| BuildEntry.DefaultSettings | server/build.ts:28-29 | without a configuration the platform is Deno and the output is `<working dir>/dist` |
| BuildEntry.ModuleUrl | server/build.ts:65 | a route module's URL is on `http://localhost:<port>` |
| BuildEntry.RouteLinesShape | server/build.ts:59-73 | a route file with neither `default` nor `data` adds no line; any other adds three: an import or `undefined` binding for `_idx`, then for `$idx`, then its `register` call |
| BuildEntry.BlockLength | server/build.ts:59-73 | the route block has three lines per contributing route file and only route-file lines |
| BuildEntry.RegisteredRoutes | server/build.ts:66-72 | every route file exporting `default` or `data` is registered under its filename and index |
| BuildEntry.RegisterImportIff | server/build.ts:58 | the entry imports `register` iff there are route files |
| BuildEntry.BodyLines | server/build.ts:54-73 | no line before the closing ones imports or calls `serve` or imports a user entry |
| BuildEntry.EntryTailWithServerEntry | server/build.ts:74 | with a server entry, the entry ends with its import and never imports or calls `serve` |
| BuildEntry.EntryTailWithoutServerEntry | server/build.ts:75-76 | without one, the entry ends with the `serve` import and `serve();` and imports no user entry |
| BuildEntry.EntryLineCount | server/build.ts:54-77 | the entry has 3 header lines, the optional `register` import, 3 lines per contributing route, and 1 or 2 closing lines |
| BuildEntry.JsxShimCode | server/build.ts:85-93 | the shim's text opens with its import line and ends with `export { … }` over exactly the names of `ShimExports`: `h, Fragment` for Preact, `React` otherwise |
| BuildEntry.ShimProvidesFactory | server/build.ts:85-120 | the JSX factory and fragment esbuild emits name bindings in `ShimExports`, which `JsxShimCode` proves are the shim text's exports |
| BuildPlugin.RouteModulesBundled | server/build.ts:97-103 | every route module the entry imports is on the modules proxy, so `forceBundle` holds for it |
| BuildPlugin.UserEntryBundled | server/build.ts:97-103 | the user server entry the entry imports is bundled too |
| BuildPlugin.StripUrl | server/build.ts:131-132 | the resolved path holds no `#` |
| BuildPlugin.StripKeepsRemote | server/build.ts:131-132 | a remote import URL stays remote once its fragment is cut |
| BuildPlugin.OnResolve | server/build.ts:125-155 | a dynamic import is external; a module kept in the `http` namespace is force-bundled; a static external is not force-bundled, or is the graph snapshot; a plain path is local |
| BuildPlugin.OnResolveHttpNamespace | server/build.ts:138-144 | in the `http` namespace an import resolves against its importer and stays in the namespace iff it is force-bundled |
| BuildPlugin.OnResolveRemote | server/build.ts:146-152 | outside it a remote import is bundled when forced and external otherwise |
| BuildPlugin.OnResolveLocal | server/build.ts:150-154 | a local static import outside the `http` namespace is a plain path, except `./server_dependency_graph.js`, which is external |
| BuildPlugin.LoadPathname | server/build.ts:157-160 | only the transformer's URL is redirected |
| BuildPlugin.RawExt | server/build.ts:163 | the raw extension holds no dot |
| BuildPlugin.ContentTypeLoader | server/build.ts:169-178 | the Content-Type prefixes, tried in order, give `js`, `ts`, `jsx` and `tsx`; with none of them, or no header, the extension is kept |
| BuildPlugin.LoaderFor | server/build.ts:163-179 | `mjs` loads as `js` and `mts` as `ts`; every other built-in extension loads as itself; any other extension gets the loader its Content-Type names |
| BuildPlugin.LoaderIgnoresContentType | server/build.ts:164-168 | for a built-in extension the Content-Type is never consulted |
| BuildPlugin.TransformerLoadsServeDist | server/build.ts:158-168 | the transformer is fetched as `serve_dist.ts` and loaded as TypeScript |
| BuildClosure.LinkTask | server/build.ts:207 | a link's task opens with `./` |
| BuildClosure.LinkTasksSpec | server/build.ts:203-211 | the link tasks are exactly the tasks of the local links with a `.css` or built-in extension |
| BuildClosure.SeedTasks | server/build.ts:199-213 | the seeds are the route filenames, then the link tasks, then the style runtime |
| BuildClosure.Tag | server/build.ts:241-245 | a CSS dependency is queued as `?module` and a queued dependency never ends with `.css` |
| BuildClosure.NextInAllDeps | server/build.ts:238-247 | a module's next tasks are tagged dependencies from the client graph |
| BuildClosure.SavePath | server/build.ts:222-230 | the save path is the URL path under the output directory, plus `.js` for esm.sh modules and CSS modules |
| BuildClosure.CssModuleSavedApart | server/build.ts:225-230 | a CSS file and its `?module` form are saved to different files |
| BuildClosure.HandleLevel | server/build.ts:220-249 | one level handles each task once and gathers every handled module's next tasks |
| BuildClosure.Walk | server/build.ts:219-250 | the walk handles the least set holding the seeds and closed under the next tasks, each member once |
| BuildClosure.ClientModules | server/build.ts:216-251 | with a handler the client modules are the least closed set over the seeds, each saved once under its save path, and only seeds can end with `.css`; without a handler none |
| Builder.RouteFilesOf | server/build.ts:47-51 | one route file per route, in route order, with the export names found in it |
| Builder.BuildRouteFiles | server/build.ts:44-52 | without a truthy route configuration there are no route files; otherwise they follow the sorted route table, and a failing table fails |
| Builder.LookUpClientModules | server/build.ts:198-251 | the client modules are the least closed set over the seeds the build gathers |
| Builder.Build | server/build.ts:22-259 | the build fails on an unsupported platform or a failing route table; otherwise it ties the output directory, route files, entry text, JSX shim and client modules to their specifications |
| ServeModules.Dispatch | server/serve_modules.ts:89-103 | `.css` goes to the CSS loader, then built-in extensions to the ES loader, then the first custom loader that accepts the path; otherwise nothing is served |
| ServeModules.BuiltinLoadersFirst | server/serve_modules.ts:89-95 | a custom loader is chosen only for a path neither built-in loader takes, and never after an accepting one |
| ServeModules.CssModulesModeIsCss | server/serve_modules.ts:26 | CSS-modules mode is only ever on for CSS paths |
| ServeModules.CssServed | server/serve_modules.ts:33-36 | the CSS loader serves `export default …;` as JavaScript |
| ServeModules.CssModuleLoader | server/serve_modules.ts:12-37 | bundles in modules mode iff the name ends `.module.css`; marks the graph with the bundle's deps and CSS |
| ServeModules.ContentTypeFor | server/serve_modules.ts:44 | a content type is given iff a language is given |
| ServeModules.GraphVersions | server/serve_modules.ts:47-52 | the snapshot holds exactly the local modules other than the one transformed, each at its hex version; it is empty for a remote specifier |
| ServeModules.GraphVersionsDecode | server/serve_modules.ts:50 | every version in the snapshot reads back as the module's version |
| ServeModules.LocalSnapshot | server/serve_modules.ts:42-48 | a served file's specifier is local, so its snapshot holds every other local module |
| ServeModules.MergeInlineCss | server/serve_modules.ts:66-72 | empty atomic CSS changes nothing; otherwise it is appended after a newline, or it becomes the inline CSS |
| ServeModules.MergeKeepsExisting | server/serve_modules.ts:66-72 | merging never drops existing inline CSS |
| ServeModules.InlineCssAfter | server/serve_modules.ts:59-73 | without presets or for a non-JSX module the inline CSS is kept; existing inline CSS always stays a prefix |
| ServeModules.EsModuleLoader | server/serve_modules.ts:39-84 | with a graph the code is transformed against the snapshot and the module is marked with its deps and inline CSS; without one the raw code is served |
| ServeModules.EsInput | server/serve_modules.ts:91-101 | the ES loader gets the file read from `.` + pathname for a built-in extension, and the custom loader's code, language and inline CSS otherwise |
| ServeModules.Load | server/serve_modules.ts:86-104 | nothing is served iff no loader takes the path, and then the graph is unchanged; CSS is served as bundled, and with a graph the path is marked with the bundle's deps and CSS at a larger version, every other record unchanged; an ES or custom dispatch serves its input transformed against the graph snapshot, with the content type of its language, and marks the module with the transform's deps and its inline CSS (or serves the raw code without a graph) |
| ServeModules.Attempt | server/serve_modules.ts:119-134 | listening past port 65535 fails with an error other than `AddrInUse` |
| ServeModules.AppModulesServer.ServeAppModules | server/serve_modules.ts:113-136 | the graph singleton is created only when absent; the result is the first free port from `port` on, with every earlier port in use; another error is returned |

## Behaviours of the code worth knowing

The model follows the code in each case:

- **`/foo/index`.** Only the exact pathname `/index` becomes `/` (server/routing.ts:136). A nested `index` file keeps its segment, so `foo/index.tsx` gives `/foo/index`, not `/foo`. `Routing.Pathname` states this, and `Routing.PathnameFooIndex` proves the `/foo/index` case.
- **Magic routes.** `/_app`, `/_404` and `/_error` stay in `routes`. They get order 0, so the sort puts them first (server/routing.ts:69, 152-155). `RouteTable.MagicFirst` proves this.
- **Export-name parsing.** There is no handler around `parseExportNames`, so a failing parse rejects the whole build (server/build.ts:47-51). The model takes the export names as a total function and does not model a failing parse.
- **Retry errors.** The retry after `AddrInUse` is not awaited (server/serve_modules.ts:131). So the first caller never sees the retry's port or error. The model returns the retry's outcome (see below).

## Left out

- **File system.** Cleaning and creating the output directory (server/build.ts:35-42), reading and writing files and `ensureDir` are left out.
- **esbuild bundling.** The bundle run itself (server/build.ts:105-187) is left out. Its plugin decisions are modelled as functions. `stop()` is left out.
- **Graph snapshot.** Writing `server_dependency_graph.js` as JSON (server/build.ts:189-196) is left out. JSON serialisation of the graph is not modelled.
- **Concurrency.** `Promise.all` inside a level of the walk and in the route-file map is left out. The model handles a level's tasks one at a time, in any order, and the result does not depend on the order.
- BuildClosure.ClientModules: a level is a set, so a seed listed twice is handled once. The source fetches it twice and writes the same file twice, with the same outcome.
- BuildClosure.ClientModules: the server handler is assumed to answer every request. In the source, a rejected `serverHandler(req)`, or a handler that returns nothing, rejects the `Promise.all` and with it the whole build (server/build.ts:232-236). That failure is not modelled, so `Builder.Build` never fails in the walk.
- BuildClosure.ClientModules: the client dependency graph is a fixed snapshot. Changes that the server handler makes to it during the walk are not modelled.
- ServeModules.AppModulesServer.ServeAppModules: the retry is modelled as returning its result. In the source it is not awaited. The cancellation signal, `serveDir` and the request/response plumbing are left out. A port past 65535 is assumed to fail with an error other than `AddrInUse`.
- ServeModules.CssModuleLoader: when `bundleCSS` reports no dependencies, the graph is marked with an empty list, because `server/graph.ts` is not part of this model. `JSON.stringify` of the CSS-module exports is an opaque string produced by the bundler parameter.
- ServeModules.Load: the spread `{ pathname, ...ret }` is not modelled. A custom loader that returns its own `pathname` would override the requested one in the source.
- RouteTable.EntryOrder: the order key is an exact rational number, not an IEEE double. The key differs from JavaScript's only in rounding, and only beyond 100 parameters per route.
- RouteTable.RouteRegistry.ImportRouteModule: `mark(filename, {})` is modelled as a mark with no dependencies and no inline CSS. The dynamic `import()` is the `load` parameter. `Date.now()` is the `now` parameter.
- BuildPlugin.Mapped: `importUrl in importMap.imports` is modelled as a key lookup. Keys inherited from `Object.prototype` are not modelled.
- Paths.JoinPath: models std `join` only for an absolute working directory, and always drops a trailing slash.
- **`isRouteRegExp`.** The runtime shape check (server/routing.ts:144-146) is replaced by the `RouteRegExp` datatype. `InitRoutes` receives a compiled `RouteRegExp`.
- **Glob matching.** The glob form of `test` is the configuration's `matches` predicate. `globToRegExp` is not part of this model.
- **Environment variables.** `ALEPH_ENV`, `ALEPH_DEV_PORT` and `ALEPH_MODULES_PROXY_PORT` are plain values. `log` calls are left out.
