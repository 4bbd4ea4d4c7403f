/**
 * The client-module walk at the end of `build` (server/build.ts): the seed
 * tasks, then a breadth-first closure over the client dependency graph in
 * which every reached module is requested from the server handler once and
 * saved under the output directory.
 */
module BuildClosure {
  import opened Wrappers
  import opened Strings
  import opened Paths
  import opened Helpers
  import Graph

  // ---------------------------------------------------------------------------
  // Seed tasks
  // ---------------------------------------------------------------------------

  /** A link of `index.html` that is a client module: local, with a `.css` or built-in extension. */
  predicate IsClientLink(link: string) {
    !IsLikelyHttpURL(link) && (Extname(link) == ".css" || IsBuiltinExt(Slice1(Extname(link))))
  }

  /** The task a client link becomes: `"." + cleanPath(link)`. */
  function LinkTask(link: string): (r: string)
    ensures StartsWith(r, "./")
  {
    "." + CleanPath(link)
  }

  /** The elements of `xs` that `keep` accepts, each mapped by `f`, in order. */
  function FilterMap<T, U>(xs: seq<T>, keep: T -> bool, f: T -> U): seq<U> {
    if xs == [] then []
    else
      var init := FilterMap(xs[..|xs| - 1], keep, f);
      var last := xs[|xs| - 1];
      if keep(last) then init + [f(last)] else init
  }

  /** `FilterMap` yields exactly the images of the accepted elements. */
  lemma {:induction false} FilterMapSpec<T, U>(xs: seq<T>, keep: T -> bool, f: T -> U)
    ensures forall y :: y in FilterMap(xs, keep, f) ==> exists i :: 0 <= i < |xs| && keep(xs[i]) && y == f(xs[i])
    ensures forall i :: 0 <= i < |xs| && keep(xs[i]) ==> f(xs[i]) in FilterMap(xs, keep, f)
  {
    if xs != [] {
      var init := xs[..|xs| - 1];
      FilterMapSpec(init, keep, f);
      forall y | y in FilterMap(xs, keep, f)
        ensures exists i :: 0 <= i < |xs| && keep(xs[i]) && y == f(xs[i])
      {
        if y in FilterMap(init, keep, f) {
          var i :| 0 <= i < |init| && keep(init[i]) && y == f(init[i]);
          assert xs[i] == init[i];
        } else {
          assert y == f(xs[|xs| - 1]);
        }
      }
      forall i | 0 <= i < |xs| && keep(xs[i])
        ensures f(xs[i]) in FilterMap(xs, keep, f)
      {
        if i < |init| {
          assert xs[i] == init[i];
        }
      }
    }
  }

  /** The tasks the links of `index.html` add, in document order. */
  function LinkTasks(links: seq<string>): seq<string> {
    FilterMap(links, IsClientLink, LinkTask)
  }

  /** The link tasks are exactly the tasks of the client links, each opening with `./`. */
  lemma LinkTasksSpec(links: seq<string>)
    ensures forall t :: t in LinkTasks(links) ==> StartsWith(t, "./")
    ensures forall t :: t in LinkTasks(links) ==> exists i :: 0 <= i < |links| && IsClientLink(links[i]) && t == LinkTask(links[i])
    ensures forall i :: 0 <= i < |links| && IsClientLink(links[i]) ==> LinkTask(links[i]) in LinkTasks(links)
  {
    FilterMapSpec(links, IsClientLink, LinkTask);
    forall t | t in LinkTasks(links)
      ensures StartsWith(t, "./")
    {
      var i :| 0 <= i < |links| && IsClientLink(links[i]) && t == LinkTask(links[i]);
    }
  }

  /** The module every build walks last among its seeds: the framework's style runtime. */
  function StyleModule(pkg: string): string {
    pkg + "/framework/core/style.ts"
  }

  /**
   * The seed tasks: the route filenames, then the client links of
   * `index.html` (`links` is `None` when there is no such file), then the
   * style runtime.
   */
  method SeedTasks(routeFilenames: seq<string>, links: Option<seq<string>>, pkg: string) returns (tasks: seq<string>)
    ensures tasks == routeFilenames + LinkTasks(links.GetOr([])) + [StyleModule(pkg)]
  {
    tasks := routeFilenames;
    if links.Some? {
      var ls := links.value;
      for i := 0 to |ls|
        invariant tasks == routeFilenames + LinkTasks(ls[..i])
      {
        assert ls[..i + 1][..i] == ls[..i];
        if IsClientLink(ls[i]) {
          tasks := tasks + [LinkTask(ls[i])];
        }
      }
      assert ls[..|ls|] == ls;
    }
    tasks := tasks + [StyleModule(pkg)];
  }

  // ---------------------------------------------------------------------------
  // The client-module walk
  // ---------------------------------------------------------------------------

  /**
   * What the walk reads off `new URL(specifier, "http://localhost")` (a
   * remote specifier first mapped by `toLocalPath`): the pathname and
   * whether the query has a `module` parameter. URL parsing is not part of
   * this model; `parse` stands for it.
   */
  datatype Url = Url(pathname: string, hasModule: bool)

  predicate IsCss(u: Url) {
    EndsWith(u.pathname, ".css")
  }

  /** A dependency as it is queued: a CSS file gets `?module`, so it is fetched as a CSS module. */
  function Tag(dep: string): (r: string)
    ensures !EndsWith(r, ".css")
    ensures EndsWith(dep, ".css") ==> r == dep + "?module"
    ensures !EndsWith(dep, ".css") ==> r == dep
  {
    if EndsWith(dep, ".css") then
      var r := dep + "?module";
      assert r[|r| - 4..] == "dule";
      r
    else dep
  }

  /**
   * The tasks one handled specifier adds: nothing for CSS, otherwise its
   * dependencies in the client graph, tagged.
   */
  function Next(specifier: string, parse: string -> Url, graph: map<string, Graph.Module>): set<string> {
    if IsCss(parse(specifier)) || specifier !in graph then {}
    else set i | 0 <= i < |graph[specifier].deps| :: Tag(graph[specifier].deps[i])
  }

  /** A set of specifiers that holds the tasks of each of its members. */
  predicate Closed(s: set<string>, parse: string -> Url, graph: map<string, Graph.Module>) {
    forall x :: x in s ==> Next(x, parse, graph) <= s
  }

  /** Every tagged dependency in the client graph: the walk never leaves the seeds and these. */
  function AllDeps(graph: map<string, Graph.Module>): set<string> {
    set s, i | s in graph && 0 <= i < |graph[s].deps| :: Tag(graph[s].deps[i])
  }

  lemma NextInAllDeps(specifier: string, parse: string -> Url, graph: map<string, Graph.Module>)
    ensures Next(specifier, parse, graph) <= AllDeps(graph)
  {
    if !IsCss(parse(specifier)) && specifier in graph {
      forall x | x in Next(specifier, parse, graph)
        ensures x in AllDeps(graph)
      {
        var i :| 0 <= i < |graph[specifier].deps| && x == Tag(graph[specifier].deps[i]);
      }
    }
  }

  /**
   * Where a handled module is written: the output directory joined with
   * the URL's pathname, plus `.js` for an esm.sh module and for a CSS
   * module.
   */
  function SavePath(outputDir: string, specifier: string, u: Url): (r: string)
    ensures StartsWith(specifier, "https://esm.sh/") || (IsCss(u) && u.hasModule) ==>
      r == JoinPath(outputDir, u.pathname) + ".js"
    ensures !(StartsWith(specifier, "https://esm.sh/") || (IsCss(u) && u.hasModule)) ==>
      r == JoinPath(outputDir, u.pathname)
  {
    var p := JoinPath(outputDir, u.pathname);
    if StartsWith(specifier, "https://esm.sh/") then p + ".js"
    else if IsCss(u) && u.hasModule then p + ".js"
    else p
  }

  /** A CSS file and its `?module` form are saved to different files, so neither overwrites the other. */
  lemma CssModuleSavedApart(outputDir: string, plain: string, cssModule: string, parse: string -> Url)
    requires IsCss(parse(plain)) && !parse(plain).hasModule && !StartsWith(plain, "https://esm.sh/")
    requires parse(cssModule) == Url(parse(plain).pathname, true)
    ensures SavePath(outputDir, cssModule, parse(cssModule)) == SavePath(outputDir, plain, parse(plain)) + ".js"
  {
  }

  /** The specifiers of a list, as a set. */
  function Elements(s: seq<string>): set<string> {
    set x | x in s
  }

  /** A set holding the successors of each of its members. */
  predicate ClosedUnder(s: set<string>, next: string -> set<string>) {
    forall x :: x in s ==> next(x) <= s
  }

  /** What the walk keeps for the modules it has handled: the saved paths and the handling order. */
  predicate Recorded(handled: set<string>, saved: map<string, string>, order: seq<string>, save: string -> string) {
    && saved.Keys == handled
    && (forall x :: x in saved ==> saved[x] == save(x))
    && (forall i, j :: 0 <= i < j < |order| ==> order[i] != order[j])
    && (forall i :: 0 <= i < |order| ==> order[i] in handled)
    && (forall x :: x in handled ==> x in order)
  }

  /**
   * One level of the walk: every task is handled (saved under `save`) and
   * its successors are gathered into `deps`.
   */
  method HandleLevel(tasks: set<string>, next: string -> set<string>, save: string -> string, ghost bound: set<string>,
                     handled: set<string>, saved: map<string, string>, order: seq<string>)
    returns (handled': set<string>, saved': map<string, string>, order': seq<string>, deps: set<string>)
    requires forall x :: next(x) <= bound
    requires tasks !! handled
    requires Recorded(handled, saved, order, save)
    ensures handled' == handled + tasks
    ensures Recorded(handled', saved', order', save)
    ensures forall x :: x in tasks ==> next(x) <= deps
    ensures deps <= bound
    ensures forall s :: tasks <= s && ClosedUnder(s, next) ==> deps <= s
  {
    handled', saved', order', deps := handled, saved, order, {};
    var todo := tasks;
    while todo != {}
      invariant todo <= tasks
      invariant handled' == handled + (tasks - todo)
      invariant Recorded(handled', saved', order', save)
      invariant forall x :: x in tasks - todo ==> next(x) <= deps
      invariant deps <= bound
      invariant forall s :: tasks - todo <= s && ClosedUnder(s, next) ==> deps <= s
      decreases todo
    {
      var specifier :| specifier in todo;
      saved' := saved'[specifier := save(specifier)];
      order' := order' + [specifier];
      handled' := handled' + {specifier};
      deps := deps + next(specifier);
      todo := todo - {specifier};
    }
  }

  /**
   * The level-by-level walk from `seeds`: it handles the least set that
   * holds the seeds and is closed under `next`, each member once.
   */
  method Walk(seeds: set<string>, next: string -> set<string>, save: string -> string, ghost bound: set<string>)
    returns (handled: set<string>, saved: map<string, string>, order: seq<string>)
    requires forall x :: next(x) <= bound
    ensures seeds <= handled && ClosedUnder(handled, next)
    ensures forall s :: seeds <= s && ClosedUnder(s, next) ==> handled <= s
    ensures handled <= seeds + bound
    ensures Recorded(handled, saved, order, save)
  {
    handled, saved, order := {}, map[], [];
    ghost var universe := seeds + bound;
    var tasks := seeds;
    while tasks != {}
      invariant handled <= universe && tasks <= universe
      invariant handled !! tasks
      invariant seeds <= handled + tasks
      invariant forall x :: x in handled ==> next(x) <= handled + tasks
      invariant forall s :: seeds <= s && ClosedUnder(s, next) ==> handled + tasks <= s
      invariant Recorded(handled, saved, order, save)
      decreases universe - handled
    {
      ghost var before := handled;
      var deps;
      handled, saved, order, deps := HandleLevel(tasks, next, save, bound, handled, saved, order);
      var t :| t in tasks;
      assert t in universe - before && t !in universe - handled;
      tasks := deps - handled;
    }
  }

  /**
   * The walk. With a server handler, every task is handled once: its
   * module is fetched and saved, and the next level holds the tasks of the
   * level's non-CSS modules that were not handled yet. Without a handler
   * nothing is handled. `order` lists the modules in the order they were
   * handled; `saved` maps each to the file it was written to.
   */
  method ClientModules(seeds: seq<string>, hasHandler: bool, graph: map<string, Graph.Module>,
                       parse: string -> Url, outputDir: string)
    returns (clientModules: set<string>, saved: map<string, string>, order: seq<string>)
    ensures !hasHandler ==> clientModules == {} && order == []
    ensures hasHandler ==> Elements(seeds) <= clientModules && Closed(clientModules, parse, graph)
    ensures hasHandler ==> forall s :: Elements(seeds) <= s && Closed(s, parse, graph) ==> clientModules <= s
    ensures forall x :: x in clientModules && x !in seeds ==> !EndsWith(x, ".css")
    ensures saved.Keys == clientModules
    ensures forall x :: x in saved ==> saved[x] == SavePath(outputDir, x, parse(x))
    ensures forall i, j :: 0 <= i < j < |order| ==> order[i] != order[j]
    ensures forall i :: 0 <= i < |order| ==> order[i] in clientModules
    ensures forall x :: x in clientModules ==> x in order
  {
    clientModules, saved, order := {}, map[], [];
    if !hasHandler {
      return;
    }
    var next := x => Next(x, parse, graph);
    var save := x => SavePath(outputDir, x, parse(x));
    forall x
      ensures next(x) <= AllDeps(graph)
    {
      NextInAllDeps(x, parse, graph);
    }
    clientModules, saved, order := Walk(Elements(seeds), next, save, AllDeps(graph));
    forall s | Elements(seeds) <= s && Closed(s, parse, graph)
      ensures clientModules <= s
    {
      assert ClosedUnder(s, next);
    }
    forall x | x in clientModules && x !in seeds
      ensures !EndsWith(x, ".css")
    {
      assert x in AllDeps(graph);
      var s, i :| s in graph && 0 <= i < |graph[s].deps| && x == Tag(graph[s].deps[i]);
    }
  }
}
