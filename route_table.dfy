/**
 * The route table of server/routing.ts: `getRouteOrder`, `initRoutes`
 * (collection, magic slots, sort, nesting flags), `isRouteFile` and the
 * route-module registry behind `register` / `importRouteModule`.
 */
module RouteTable {
  import opened Wrappers
  import opened Strings
  import opened Types
  import opened Routing
  import Graph

  /** A route's `{ pattern, filename }` as collected, before the nesting flag is decided. */
  datatype RouteEntry = RouteEntry(pattern: RoutePattern, filename: string)

  /**
   * A route's meta record. It is one object shared by the `routes` list and
   * the `_app` / `_404` / `_error` slots, and `nesting` is set on it in place.
   */
  class RouteMeta {
    const entry: RouteEntry
    var nesting: bool

    constructor (entry: RouteEntry)
      ensures this.entry == entry && !nesting
    {
      this.entry := entry;
      nesting := false;
    }
  }

  /** The object `initRoutes` returns and publishes: the routes and the three magic slots. */
  datatype Routes = Routes(
    routes: seq<RouteMeta>,
    notFound: Option<RouteMeta>,
    app: Option<RouteMeta>,
    error: Option<RouteMeta>)

  // ---------------------------------------------------------------------------
  // getRouteOrder
  // ---------------------------------------------------------------------------

  /** The three pathnames with a fixed role: the app shell, the not-found page and the error page. */
  predicate IsMagic(pathname: string) {
    pathname == "/_404" || pathname == "/_app" || pathname == "/_error"
  }

  /**
   * `getRouteOrder`: 0 for a magic route, otherwise the number of pieces of
   * the filename split on `/` plus a hundredth per `/:` in the pathname.
   */
  function EntryOrder(e: RouteEntry): (r: real)
    ensures IsMagic(e.pattern.pathname) ==> r == 0.0
    ensures !IsMagic(e.pattern.pathname) ==> r >= 1.0
  {
    if IsMagic(e.pattern.pathname) then 0.0
    else |SplitOn(e.filename, '/')| as real + CountMatches(e.pattern.pathname, "/:") as real * 0.01
  }

  function MetaOrder(m: RouteMeta): real {
    EntryOrder(m.entry)
  }

  /**
   * Two ordinary routes whose filenames have different depths sort by depth,
   * however many parameters the shallower one has (fewer than a hundred).
   */
  lemma ShallowerFirst(a: RouteEntry, b: RouteEntry)
    requires !IsMagic(a.pattern.pathname) && !IsMagic(b.pattern.pathname)
    requires CountMatches(a.filename, "/") < CountMatches(b.filename, "/")
    requires CountMatches(a.pattern.pathname, "/:") < 100
    ensures EntryOrder(a) < EntryOrder(b)
  {
    CountMatchesSplitOn(a.filename, '/');
    CountMatchesSplitOn(b.filename, '/');
  }

  /** At the same depth, the route with fewer dynamic segments sorts first. */
  lemma FewerParamsFirst(a: RouteEntry, b: RouteEntry)
    requires !IsMagic(a.pattern.pathname) && !IsMagic(b.pattern.pathname)
    requires CountMatches(a.filename, "/") == CountMatches(b.filename, "/")
    requires CountMatches(a.pattern.pathname, "/:") < CountMatches(b.pattern.pathname, "/:")
    ensures EntryOrder(a) < EntryOrder(b)
  {
    CountMatchesSplitOn(a.filename, '/');
    CountMatchesSplitOn(b.filename, '/');
  }

  // ---------------------------------------------------------------------------
  // routes.sort: a stable sort on the order key
  // ---------------------------------------------------------------------------

  predicate SortedBy<T>(s: seq<T>, key: T -> real) {
    forall i, j :: 0 <= i < j < |s| ==> key(s[i]) <= key(s[j])
  }

  /** Puts `x` before the first element whose key is not smaller than its own. */
  function InsertBy<T>(x: T, s: seq<T>, key: T -> real): (r: seq<T>)
    requires SortedBy(s, key)
    ensures SortedBy(r, key)
    ensures multiset(r) == multiset(s) + multiset{x}
  {
    if s == [] then [x]
    else if key(x) <= key(s[0]) then [x] + s
    else
      var t := InsertBy(x, s[1..], key);
      assert s == [s[0]] + s[1..];
      InsertedBound(x, s[1..], t, key, key(s[0]));
      SortedCons(s[0], t, key);
      [s[0]] + t
  }

  /** Whatever bounds the keys of a list and of `x` from below bounds the keys of their permutation `t`. */
  lemma InsertedBound<T>(x: T, rest: seq<T>, t: seq<T>, key: T -> real, b: real)
    requires multiset(t) == multiset(rest) + multiset{x}
    requires b <= key(x) && forall k :: 0 <= k < |rest| ==> b <= key(rest[k])
    ensures forall k :: 0 <= k < |t| ==> b <= key(t[k])
  {
    forall k | 0 <= k < |t|
      ensures b <= key(t[k])
    {
      assert t[k] in multiset(t);
      if t[k] != x {
        assert t[k] in multiset(rest);
        var j :| 0 <= j < |rest| && rest[j] == t[k];
      }
    }
  }

  /** A sorted list stays sorted with an element in front that is not above any of its keys. */
  lemma SortedCons<T>(h: T, t: seq<T>, key: T -> real)
    requires SortedBy(t, key) && forall k :: 0 <= k < |t| ==> key(h) <= key(t[k])
    ensures SortedBy([h] + t, key)
  {
  }

  /**
   * `Array.prototype.sort` with the comparator `(a, b) => key(a) - key(b)`:
   * ascending on the key, a permutation of the input, and stable (the first
   * element stays ahead of every later one with the same key).
   */
  function SortBy<T>(s: seq<T>, key: T -> real): (r: seq<T>)
    ensures SortedBy(r, key)
    ensures multiset(r) == multiset(s)
  {
    if s == [] then []
    else
      assert s == [s[0]] + s[1..];
      InsertBy(s[0], SortBy(s[1..], key), key)
  }

  /** The elements of `s` whose key is `k`, in their order in `s`. */
  function WithKey<T>(s: seq<T>, key: T -> real, k: real): (r: seq<T>)
    ensures forall i :: 0 <= i < |r| ==> key(r[i]) == k && r[i] in s
  {
    if s == [] then []
    else (if key(s[0]) == k then [s[0]] else []) + WithKey(s[1..], key, k)
  }

  /** Filtering a list with a head is filtering the head, then the rest. */
  lemma WithKeyCons<T>(h: T, t: seq<T>, key: T -> real, k: real)
    ensures WithKey([h] + t, key, k) == (if key(h) == k then [h] else []) + WithKey(t, key, k)
  {
    assert ([h] + t)[1..] == t;
  }

  /** Inserting `x` puts it ahead of every element with its key, and disturbs no other key's order. */
  lemma {:induction false} InsertByWithKey<T>(x: T, s: seq<T>, key: T -> real, k: real)
    requires SortedBy(s, key)
    ensures WithKey(InsertBy(x, s, key), key, k) == (if key(x) == k then [x] else []) + WithKey(s, key, k)
  {
    if s == [] {
      assert InsertBy(x, s, key) == [x] + [];
      WithKeyCons(x, [], key, k);
    } else if key(x) <= key(s[0]) {
      assert InsertBy(x, s, key) == [x] + s;
      WithKeyCons(x, s, key, k);
    } else {
      InsertByWithKey(x, s[1..], key, k);
      InsertPastHead(x, s, key, k);
    }
  }

  /** The step of `InsertByWithKey` where `x` goes past the head, whose key is smaller. */
  lemma InsertPastHead<T>(x: T, s: seq<T>, key: T -> real, k: real)
    requires SortedBy(s, key) && s != [] && key(s[0]) < key(x)
    requires WithKey(InsertBy(x, s[1..], key), key, k) == (if key(x) == k then [x] else []) + WithKey(s[1..], key, k)
    ensures WithKey(InsertBy(x, s, key), key, k) == (if key(x) == k then [x] else []) + WithKey(s, key, k)
  {
    var t := InsertBy(x, s[1..], key);
    assert InsertBy(x, s, key) == [s[0]] + t;
    assert ([s[0]] + t)[1..] == t;
    var h0 := if key(s[0]) == k then [s[0]] else [];
    var hx := if key(x) == k then [x] else [];
    var rest := WithKey(s[1..], key, k);
    assert WithKey([s[0]] + t, key, k) == h0 + (hx + rest);
    assert WithKey(s, key, k) == h0 + rest;
    if key(x) == k {
      assert h0 == [];
      EmptyFront(hx + rest);
      EmptyFront(rest);
    } else {
      assert hx == [];
      EmptyFront(rest);
      EmptyFront(h0 + rest);
    }
  }

  lemma EmptyFront<T>(a: seq<T>)
    ensures [] + a == a
  {
  }

  /**
   * The sort is stable: for every key, the elements that carry it come out
   * in the order they went in.
   */
  lemma {:induction false} SortByStable<T>(s: seq<T>, key: T -> real, k: real)
    ensures WithKey(SortBy(s, key), key, k) == WithKey(s, key, k)
  {
    if s != [] {
      SortByStable(s[1..], key, k);
      InsertByWithKey(s[0], SortBy(s[1..], key), key, k);
    }
  }

  /** Sorting a list that is already in order leaves it as it is. */
  lemma {:induction false} SortBySorted<T>(s: seq<T>, key: T -> real)
    requires SortedBy(s, key)
    ensures SortBy(s, key) == s
  {
    if s != [] {
      SortBySorted(s[1..], key);
      assert s == [s[0]] + s[1..];
    }
  }

  /** A permutation holds the same elements. */
  lemma SameElements<T>(a: seq<T>, b: seq<T>)
    requires multiset(a) == multiset(b)
    ensures forall x :: x in a ==> x in b
    ensures forall x :: x in b ==> x in a
  {
    forall x
      ensures x in a <==> x in b
    {
      assert x in a <==> x in multiset(a);
      assert x in b <==> x in multiset(b);
    }
  }

  /** Sorting twice is sorting once. */
  lemma SortByIdempotent<T>(s: seq<T>, key: T -> real)
    ensures SortBy(SortBy(s, key), key) == SortBy(s, key)
  {
    SortBySorted(SortBy(s, key), key);
  }

  /** After the sort every magic route precedes every ordinary one. */
  lemma MagicFirst(rs: seq<RouteEntry>)
    requires SortedBy(rs, EntryOrder)
    ensures forall i, j :: 0 <= i < j < |rs| && IsMagic(rs[j].pattern.pathname) ==> IsMagic(rs[i].pattern.pathname)
  {
    forall i, j | 0 <= i < j < |rs| && IsMagic(rs[j].pattern.pathname)
      ensures IsMagic(rs[i].pattern.pathname)
    {
      assert EntryOrder(rs[i]) <= EntryOrder(rs[j]);
    }
  }

  /** The entries behind a list of meta objects. */
  function Entries(ms: seq<RouteMeta>): (r: seq<RouteEntry>)
    ensures |r| == |ms| && forall i :: 0 <= i < |ms| ==> r[i] == ms[i].entry
  {
    seq(|ms|, i requires 0 <= i < |ms| => ms[i].entry)
  }

  lemma EntriesCons(m: RouteMeta, ms: seq<RouteMeta>)
    ensures Entries([m] + ms) == [m.entry] + Entries(ms)
  {
  }

  lemma {:induction false} InsertMetaEntries(m: RouteMeta, ms: seq<RouteMeta>)
    requires SortedBy(ms, MetaOrder) && SortedBy(Entries(ms), EntryOrder)
    ensures Entries(InsertBy(m, ms, MetaOrder)) == InsertBy(m.entry, Entries(ms), EntryOrder)
  {
    if ms == [] {
      assert Entries([m]) == [m.entry];
    } else if MetaOrder(m) <= MetaOrder(ms[0]) {
      EntriesCons(m, ms);
    } else {
      var tail := ms[1..];
      assert ms == [ms[0]] + tail;
      EntriesCons(ms[0], tail);
      assert SortedBy(tail, MetaOrder);
      assert SortedBy(Entries(tail), EntryOrder);
      InsertMetaEntries(m, tail);
      EntriesCons(ms[0], InsertBy(m, tail, MetaOrder));
    }
  }

  /** Sorting the meta objects puts their entries in the order the entries alone would take. */
  lemma {:induction false} SortMetaEntries(ms: seq<RouteMeta>)
    ensures Entries(SortBy(ms, MetaOrder)) == SortBy(Entries(ms), EntryOrder)
  {
    if ms != [] {
      assert Entries(ms[1..]) == Entries(ms)[1..];
      SortMetaEntries(ms[1..]);
      var sorted := SortBy(ms[1..], MetaOrder);
      assert SortedBy(Entries(sorted), EntryOrder);
      InsertMetaEntries(ms[0], sorted);
    }
  }

  // ---------------------------------------------------------------------------
  // Nesting
  // ---------------------------------------------------------------------------

  function Pathnames(ms: seq<RouteMeta>): (r: seq<string>)
    ensures |r| == |ms| && forall i :: 0 <= i < |ms| ==> r[i] == ms[i].entry.pattern.pathname
  {
    seq(|ms|, i requires 0 <= i < |ms| => ms[i].entry.pattern.pathname)
  }

  /** The test of the `findIndex` in the nesting rule: `p` is another route's pathname below `pathname`. */
  predicate IsChild(pathname: string, p: string) {
    p != pathname && StartsWith(p, pathname + "/")
  }

  /** The `nesting` rule: `/_app`, or a non-index route with another route below it. */
  predicate IsNesting(pathname: string, paths: seq<string>) {
    pathname == "/_app" || (pathname != "/" && !EndsWith(pathname, "/index") && FindIndex(paths, p => IsChild(pathname, p)).Some?)
  }

  /**
   * A route nests exactly when it is `/_app`, or when it is neither `/` nor
   * an index route and some route's pathname extends it by a `/` segment.
   * (A pathname that starts with `pathname + "/"` is never `pathname` itself.)
   */
  lemma NestingIff(pathname: string, paths: seq<string>)
    ensures IsNesting(pathname, paths) <==>
      pathname == "/_app" ||
      (pathname != "/" && !EndsWith(pathname, "/index") &&
       exists j :: 0 <= j < |paths| && StartsWith(paths[j], pathname + "/"))
  {
    if pathname != "/_app" && pathname != "/" && !EndsWith(pathname, "/index") {
      if j :| 0 <= j < |paths| && StartsWith(paths[j], pathname + "/") {
        assert |paths[j]| > |pathname|;
        assert paths[j] != pathname;
      }
    }
  }

  /** `/blog` nests above `/blog/:id`; `/blog/:id` and `/about` do not nest. */
  lemma NestingExamples()
    ensures IsNesting("/blog", ["/blog", "/blog/:id", "/about"])
    ensures !IsNesting("/blog/:id", ["/blog", "/blog/:id", "/about"])
    ensures !IsNesting("/about", ["/blog", "/blog/:id", "/about"])
  {
    var paths := ["/blog", "/blog/:id", "/about"];
    assert StartsWith(paths[1], "/blog" + "/");
    NestingIff("/blog/:id", paths);
    NestingIff("/about", paths);
    assert !StartsWith(paths[0], "/blog/:id" + "/");
    assert !StartsWith(paths[2], "/blog/:id" + "/");
    assert !StartsWith(paths[1], "/blog/:id" + "/");
    assert !StartsWith(paths[0], "/about" + "/");
    assert paths[1][1] != ("/about" + "/")[1];
    assert !StartsWith(paths[1], "/about" + "/");
    assert !StartsWith(paths[2], "/about" + "/");
  }

  /** An index route never nests, whatever lies below it. */
  lemma IndexNeverNests(dir: string, paths: seq<string>)
    ensures !IsNesting(dir + "/index", paths)
  {
    var p := dir + "/index";
    assert p[|p| - 6..] == "/index";
  }

  // ---------------------------------------------------------------------------
  // initRoutes
  // ---------------------------------------------------------------------------

  /** The name a listed file is known by: the prefix followed by the file's path below the directory. */
  function FileName(prefix: string, file: string): (r: string)
    ensures StartsWith(r, prefix)
  {
    prefix + Slice1(file)
  }

  /** A listed file under the name `initRoutes` gives it, with what `exec` returns for that name. */
  datatype Listed = Listed(filename: string, outcome: ExecResult)

  /** The directory listing as `initRoutes` sees it: every file named and passed to `exec`. */
  function Listing(reg: RouteRegExp, files: seq<string>): (r: seq<Listed>)
    ensures |r| == |files|
  {
    seq(|files|, i requires 0 <= i < |files| => Outcome(reg, files[i]))
  }

  /** A listed file's name and what `exec` returns for it. */
  function Outcome(reg: RouteRegExp, file: string): Listed {
    var filename := FileName(reg.prefix, file);
    Listed(filename, reg.exec(filename))
  }

  /**
   * The entries `initRoutes` collects from the listing, in listing order:
   * one per matched file. Collection fails at a file on which `exec` throws.
   */
  function Collect(listing: seq<Listed>): (r: Result<seq<RouteEntry>>)
    ensures r.Ok? ==> |r.value| <= |listing|
    ensures r.Ok? ==> forall e :: e in r.value ==> Listed(e.filename, Matched(e.pattern)) in listing
  {
    if listing == [] then Ok([])
    else
      var init := listing[..|listing| - 1];
      var last := listing[|listing| - 1];
      var prev := Collect(init);
      assert forall l :: l in init ==> l in listing;
      if prev.Err? then Err(prev.error)
      else
        match last.outcome
        case Throws => Err("TypeError: the route file has no path segment")
        case NoMatch => Ok(prev.value)
        case Matched(pattern) =>
          var e := RouteEntry(pattern, last.filename);
          assert forall f :: f in prev.value + [e] ==> f in prev.value || f == e;
          Ok(prev.value + [e])
  }

  /** Collection fails exactly when `exec` throws on some listed file. */
  lemma {:induction false} CollectErr(listing: seq<Listed>)
    ensures Collect(listing).Err? <==> exists i :: 0 <= i < |listing| && listing[i].outcome.Throws?
  {
    if listing != [] {
      var init := listing[..|listing| - 1];
      CollectErr(init);
      if Collect(init).Err? {
        var i :| 0 <= i < |init| && init[i].outcome.Throws?;
        assert listing[i] == init[i];
      } else if !listing[|listing| - 1].outcome.Throws? {
        forall i | 0 <= i < |listing|
          ensures !listing[i].outcome.Throws?
        {
          if i < |init| {
            assert listing[i] == init[i];
          }
        }
      }
    }
  }

  /**
   * Every collected entry is a file `test` accepts, with the pattern `exec`
   * gives it.
   */
  lemma CollectMatched(source: RouteSource, files: seq<string>)
    requires Collect(Listing(ToRouteRegExp(source), files)).Ok?
    ensures forall e :: e in Collect(Listing(ToRouteRegExp(source), files)).value ==>
      Test(source, e.filename) && Exec(source, e.filename) == Matched(e.pattern)
  {
    var listing := Listing(ToRouteRegExp(source), files);
    forall e | e in Collect(listing).value
      ensures Test(source, e.filename) && Exec(source, e.filename) == Matched(e.pattern)
    {
      var i :| 0 <= i < |listing| && listing[i] == Listed(e.filename, Matched(e.pattern));
    }
  }

  /** One more file: collection extends by the file's entry, skips it, or fails. */
  lemma CollectStep(listing: seq<Listed>, i: nat)
    requires i < |listing| && Collect(listing[..i]).Ok?
    ensures listing[i].outcome.Throws? ==> Collect(listing[..i + 1]).Err?
    ensures listing[i].outcome.NoMatch? ==> Collect(listing[..i + 1]) == Collect(listing[..i])
    ensures listing[i].outcome.Matched? ==>
      Collect(listing[..i + 1]) == Ok(Collect(listing[..i]).value + [RouteEntry(listing[i].outcome.pattern, listing[i].filename)])
  {
    assert listing[..i + 1][..i] == listing[..i];
  }

  /** Once a prefix of the listing fails, the whole listing fails. */
  lemma CollectErrGrows(pre: seq<Listed>, listing: seq<Listed>)
    requires Collect(pre).Err? && pre <= listing
    ensures Collect(listing).Err?
  {
    CollectErr(pre);
    var i :| 0 <= i < |pre| && pre[i].outcome.Throws?;
    assert listing[i] == pre[i];
    CollectErr(listing);
  }

  /** The last collected meta whose pathname is `pathname`: what the slot for that pathname ends up holding. */
  function LastWith(ms: seq<RouteMeta>, pathname: string): (r: Option<RouteMeta>)
    ensures r.Some? ==> r.value in ms && r.value.entry.pattern.pathname == pathname
    ensures r.None? ==> forall m :: m in ms ==> m.entry.pattern.pathname != pathname
  {
    if ms == [] then None
    else if ms[|ms| - 1].entry.pattern.pathname == pathname then Some(ms[|ms| - 1])
    else LastWith(ms[..|ms| - 1], pathname)
  }

  /** The entry held by an optional slot. */
  function SlotEntry(slot: Option<RouteMeta>): Option<RouteEntry> {
    match slot
    case None => None
    case Some(m) => Some(m.entry)
  }

  /** The last collected entry whose pathname is `pathname`. */
  function LastEntry(es: seq<RouteEntry>, pathname: string): (r: Option<RouteEntry>)
    ensures r.Some? ==> r.value in es && r.value.pattern.pathname == pathname
    ensures r.None? ==> forall e :: e in es ==> e.pattern.pathname != pathname
  {
    if es == [] then None
    else if es[|es| - 1].pattern.pathname == pathname then Some(es[|es| - 1])
    else LastEntry(es[..|es| - 1], pathname)
  }

  lemma {:induction false} LastWithEntry(ms: seq<RouteMeta>, pathname: string)
    ensures SlotEntry(LastWith(ms, pathname)) == LastEntry(Entries(ms), pathname)
  {
    if ms != [] {
      assert Entries(ms[..|ms| - 1]) == Entries(ms)[..|ms| - 1];
      LastWithEntry(ms[..|ms| - 1], pathname);
    }
  }

  /** The slot for a pathname holds the last entry with it, as one of the routes. */
  lemma SlotOf(metas: seq<RouteMeta>, routes: seq<RouteMeta>, pathname: string)
    requires forall m :: m in metas ==> m in routes
    ensures SlotEntry(LastWith(metas, pathname)) == LastEntry(Entries(metas), pathname)
    ensures LastWith(metas, pathname).Some? ==> LastWith(metas, pathname).value in routes
  {
    LastWithEntry(metas, pathname);
  }

  /**
   * `initRoutes` on the listed files (the directory listing is a parameter).
   * The routes are the collected entries sorted by `EntryOrder`; each slot
   * holds the last route collected with its pathname, as one of the listed
   * objects; and every route's `nesting` flag is exactly `IsNesting` over
   * the final list. A throwing `exec` fails the whole call.
   */
  method InitRoutes(reg: RouteRegExp, files: seq<string>) returns (r: Result<Routes>)
    ensures r.Err? <==> Collect(Listing(reg, files)).Err?
    ensures r.Ok? ==> Entries(r.value.routes) == SortBy(Collect(Listing(reg, files)).value, EntryOrder)
    ensures r.Ok? ==> SlotEntry(r.value.app) == LastEntry(Collect(Listing(reg, files)).value, "/_app")
    ensures r.Ok? ==> SlotEntry(r.value.notFound) == LastEntry(Collect(Listing(reg, files)).value, "/_404")
    ensures r.Ok? ==> SlotEntry(r.value.error) == LastEntry(Collect(Listing(reg, files)).value, "/_error")
    ensures r.Ok? && r.value.app.Some? ==> r.value.app.value in r.value.routes
    ensures r.Ok? && r.value.notFound.Some? ==> r.value.notFound.value in r.value.routes
    ensures r.Ok? && r.value.error.Some? ==> r.value.error.value in r.value.routes
    ensures r.Ok? ==> forall m :: m in r.value.routes ==> m.nesting == IsNesting(m.entry.pattern.pathname, Pathnames(r.value.routes))
  {
    var collected := CollectRoutes(reg, files);
    if collected.Err? {
      return Err(collected.error);
    }
    var metas := collected.value;
    var routes := SortAndNest(metas);
    SlotOf(metas, routes, "/_app");
    SlotOf(metas, routes, "/_404");
    SlotOf(metas, routes, "/_error");
    r := Ok(Routes(routes, LastWith(metas, "/_404"), LastWith(metas, "/_app"), LastWith(metas, "/_error")));
  }

  /**
   * The second half of `initRoutes`: when any route was collected, the
   * routes are sorted on `EntryOrder` and their `nesting` flags are set.
   */
  method SortAndNest(metas: seq<RouteMeta>) returns (routes: seq<RouteMeta>)
    requires forall m :: m in metas ==> !m.nesting
    modifies set m | m in metas
    ensures Entries(routes) == SortBy(Entries(metas), EntryOrder)
    ensures forall m :: m in routes ==> m in metas
    ensures forall m :: m in metas ==> m in routes
    ensures forall m :: m in routes ==> m.nesting == IsNesting(m.entry.pattern.pathname, Pathnames(routes))
  {
    routes := [];
    if |metas| > 0 {
      routes := SortBy(metas, MetaOrder);
      SameElements(routes, metas);
      MarkNesting(routes);
    }
    SortMetaEntries(metas);
  }

  /**
   * The `files.forEach` of `initRoutes`: one fresh meta object per matched
   * file, in listing order, each with `nesting` unset.
   */
  method CollectRoutes(reg: RouteRegExp, files: seq<string>) returns (r: Result<seq<RouteMeta>>)
    ensures r.Err? <==> Collect(Listing(reg, files)).Err?
    ensures r.Ok? ==> Collect(Listing(reg, files)) == Ok(Entries(r.value))
    ensures r.Ok? ==> forall m :: m in r.value ==> fresh(m) && !m.nesting
  {
    ghost var listing := Listing(reg, files);
    var metas: seq<RouteMeta> := [];
    for i := 0 to |files|
      invariant Collect(listing[..i]) == Ok(Entries(metas))
      invariant forall m :: m in metas ==> fresh(m) && !m.nesting
    {
      var filename := FileName(reg.prefix, files[i]);
      var x := reg.exec(filename);
      if x.Throws? {
        assert Collect(listing).Err? by {
          CollectStep(listing, i);
          CollectErrGrows(listing[..i + 1], listing);
        }
        return Err("TypeError: the route file has no path segment");
      } else if x.Matched? {
        var m := new RouteMeta(RouteEntry(x.pattern, filename));
        assert Collect(listing[..i + 1]) == Ok(Entries(metas + [m])) by {
          CollectStep(listing, i);
          assert Entries(metas + [m]) == Entries(metas) + [m.entry];
        }
        metas := metas + [m];
      } else {
        assert Collect(listing[..i + 1]) == Ok(Entries(metas)) by {
          CollectStep(listing, i);
        }
      }
    }
    assert Collect(listing) == Ok(Entries(metas)) by {
      assert listing[..|files|] == listing;
    }
    r := Ok(metas);
  }

  /** The `routes.forEach` of `initRoutes`: sets `nesting` on exactly the routes `IsNesting` picks. */
  method MarkNesting(routes: seq<RouteMeta>)
    requires forall m :: m in routes ==> !m.nesting
    modifies set m | m in routes
    ensures forall m :: m in routes ==> m.nesting == IsNesting(m.entry.pattern.pathname, Pathnames(routes))
  {
    var paths := Pathnames(routes);
    for j := 0 to |routes|
      invariant forall m :: m in routes ==> m.nesting ==> IsNesting(m.entry.pattern.pathname, paths)
      invariant forall k :: 0 <= k < j ==> IsNesting(routes[k].entry.pattern.pathname, paths) ==> routes[k].nesting
    {
      if IsNesting(routes[j].entry.pattern.pathname, paths) {
        routes[j].nesting := true;
      }
    }
  }

  // ---------------------------------------------------------------------------
  // isRouteFile
  // ---------------------------------------------------------------------------

  /** Whether the route configuration is truthy: every object is, the empty glob string is not. */
  predicate Truthy(source: RouteSource) {
    !(source.Glob? && source.glob == "")
  }

  /**
   * `isRouteFile`: a route of the current table has exactly this filename,
   * or else the configured route files' `test` accepts it; false with
   * neither a table nor a truthy route configuration.
   */
  function IsRouteFile(current: Option<Routes>, config: Option<AlephConfig>, filename: string): (r: bool)
    ensures r <==>
      (current.Some? && exists j :: 0 <= j < |current.value.routes| && current.value.routes[j].entry.filename == filename) ||
      (config.Some? && config.value.routeFiles.Some? && Truthy(config.value.routeFiles.value) &&
       Test(config.value.routeFiles.value, filename))
  {
    if current.Some? && FindIndex(current.value.routes, (m: RouteMeta) => m.entry.filename == filename).Some? then true
    else if config.Some? && config.value.routeFiles.Some? && Truthy(config.value.routeFiles.value) then
      Test(config.value.routeFiles.value, filename)
    else false
  }

  // ---------------------------------------------------------------------------
  // register / importRouteModule
  // ---------------------------------------------------------------------------

  /**
   * The module-level `routeModules` map. `M` stands for a loaded module's
   * record; `import()` of a URL is the parameter `load`.
   */
  class RouteRegistry<M> {
    var routeModules: map<string, M>

    constructor ()
      ensures routeModules == map[]
    {
      routeModules := map[];
    }

    /** `register`: the module is stored under the filename, replacing any earlier one. */
    method Register(filename: string, record: M)
      modifies this
      ensures routeModules == old(routeModules)[filename := record]
    {
      routeModules := routeModules[filename := record];
    }

    /**
     * `importRouteModule`: a registered module is returned as it is;
     * otherwise the module is loaded from the modules proxy with a version
     * query, which may mark the graph.
     */
    method ImportRouteModule(filename: string, graph: Graph.DependencyGraph?, proxyPort: Option<string>,
                             now: nat, load: string -> M) returns (mod: M)
      requires graph != null ==> graph.Valid()
      modifies graph
      ensures graph != null ==> graph.Valid()
      ensures filename in routeModules ==> mod == routeModules[filename] && (graph != null ==> unchanged(graph))
      ensures filename !in routeModules && graph == null ==> mod == load(ProxyUrl(proxyPort, filename, Hex(now)))
      ensures filename !in routeModules && graph != null && HasVersion(old(graph.modules), filename) ==>
        unchanged(graph) && mod == load(ProxyUrl(proxyPort, filename, Dec(old(graph.modules)[filename].version)))
      ensures filename !in routeModules && graph != null && !HasVersion(old(graph.modules), filename) ==>
        && graph.lastVersion > old(graph.lastVersion)
        && graph.modules == old(graph.modules)[filename := Graph.Module(filename, graph.lastVersion, [], None)]
        && mod == load(ProxyUrl(proxyPort, filename, Dec(graph.lastVersion)))
    {
      if filename in routeModules {
        mod := routeModules[filename];
      } else {
        var version: string;
        if graph == null {
          version := Hex(now);
        } else {
          var cur := graph.Get(filename);
          if cur.Some? && cur.value.version != 0 {
            version := Dec(cur.value.version);
          } else {
            var marked := graph.Mark(filename, [], None);
            version := Dec(marked.version);
          }
        }
        mod := load(ProxyUrl(proxyPort, filename, version));
      }
    }
  }

  /** A registered module is what a later import of the same filename returns, without a load or a graph write. */
  method RegisterThenImport<M>(registry: RouteRegistry<M>, filename: string, record: M, graph: Graph.DependencyGraph?,
                               proxyPort: Option<string>, now: nat, load: string -> M) returns (mod: M)
    requires graph != null ==> graph.Valid()
    modifies registry, graph
    ensures mod == record
    ensures graph != null ==> unchanged(graph)
  {
    registry.Register(filename, record);
    mod := registry.ImportRouteModule(filename, graph, proxyPort, now, load);
  }

  /** Whether the graph holds the file with a truthy (non-zero) version. */
  predicate HasVersion(modules: map<string, Graph.Module>, filename: string) {
    filename in modules && modules[filename].version != 0
  }

  /** `http://localhost:${port}${filename.slice(1)}?v=${version}`. */
  function ProxyUrl(port: Option<string>, filename: string, version: string): (r: string)
    ensures StartsWith(r, "http://localhost:")
  {
    "http://localhost:" + Interpolate(port) + Slice1(filename) + "?v=" + version
  }
}
