/**
 * The configuration records of server/types.ts that the core reads, with
 * `undefined` made explicit as `None`.
 */
module Types {
  import opened Wrappers

  /** The structured routing configuration: a directory, the accepted extensions, host-aware or not. */
  datatype RoutesConfig = RoutesConfig(dir: string, exts: seq<string>, host: bool)

  /**
   * `string | RoutesConfig`. A glob string carries the predicate of the
   * regular expression the standard library's `globToRegExp` compiles from
   * it; that compiler is not part of this model.
   */
  datatype RouteSource =
    | Structured(config: RoutesConfig)
    | Glob(glob: string, matches: string -> bool)

  /** A route's URL pattern: an optional host and a pathname. */
  datatype RoutePattern = RoutePattern(host: Option<string>, pathname: string)

  /** The deploy targets a build may name. */
  datatype Platform = Deno | Cloudflare | Vercel

  datatype BuildOptions = BuildOptions(platform: Option<Platform>, outputDir: Option<string>)

  /** The atomic-CSS generator's configuration; only the number of presets matters to the core. */
  datatype AtomicCssConfig = AtomicCssConfig(presets: seq<string>)

  datatype AlephConfig = AlephConfig(
    build: Option<BuildOptions>,
    atomicCss: Option<AtomicCssConfig>,
    routeFiles: Option<RouteSource>)
}
