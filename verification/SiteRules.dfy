/**
 The site-rules compiler: sites with origin pools and prioritised routes become
 named upstreams, named locations and one list of location names.

 The rules come as a list: the iteration order of the source's site map is the
 caller's choice.
 */
module SiteRules {
  import opened Prelude
  import opened Text
  import opened LocationMatch
  import opened StableSort

  datatype Pool = Pool(id: string, isDefault: bool, peers: nat)

  datatype MatchType = Exactly | ByRegex | ByPrefix

  datatype Route = Route(
    id: string,
    enabled: bool,
    poolId: string,
    matchType: MatchType,
    path: string,
    priority: Option<int>,
    ipRanges: seq<string>)

  datatype Login = NoLogin | Provider | Local | LocalAndProvider

  /** What else a site switches on: generated files, a sign-in gate, transport posture, body replacement. */
  datatype Extras = Extras(robots: bool, llms: bool, login: Login, hsts: bool, https: bool, replace: bool)

  datatype Site = Site(
    domain: string,
    alternates: seq<string>,
    pools: seq<Pool>,
    routes: seq<Route>,
    extras: Extras,
    cachePolicy: bool,
    unmatchedPage: bool)

  datatype Rules = Rules(sites: seq<(string, Site)>, cacheMaster: bool)

  /** Plugin instances, by what names them. */
  datatype Plugin =
    | Waf | Challenge | Rewrite | ErrorPage | Cache | FallbackPage
    | Robots(site: string) | Llms(site: string)
    | VisitorAuth(site: string) | Oidc(site: string)
    | Hsts(site: string) | Https(site: string)
    | SubFilter(site: string)

  datatype LocationConf = LocationConf(
    upstream: Option<string>,
    host: Option<string>,
    path: string,
    weight: Option<nat>,
    ipRanges: seq<string>,
    plugins: seq<Plugin>)

  /** The pool an upstream was built from. */
  datatype Origin = Origin(site: string, pool: nat)

  datatype Compiled = Compiled(
    upstreams: map<string, Origin>,
    locations: map<string, LocationConf>,
    names: seq<string>,
    plugins: set<Plugin>)

  const UNMATCHED_HOST := "pingwaf_unmatched_host"

  // ---- insertion in order ----

  type Entries<V> = seq<(string, V)>

  function InsertAll<V>(m: map<string, V>, entries: Entries<V>): map<string, V> {
    if entries == [] then m
    else
      var last := entries[|entries| - 1];
      InsertAll(m, entries[..|entries| - 1])[last.0 := last.1]
  }

  function Names<V>(entries: Entries<V>): (r: seq<string>)
    ensures |r| == |entries| && forall i :: 0 <= i < |r| ==> r[i] == entries[i].0
  {
    if entries == [] then [] else [entries[0].0] + Names(entries[1..])
  }

  lemma InsertOneMore<V>(m: map<string, V>, entries: Entries<V>, name: string, value: V)
    ensures InsertAll(m, entries + [(name, value)]) == InsertAll(m, entries)[name := value]
  {
    assert (entries + [(name, value)])[..|entries|] == entries;
  }

  lemma {:induction false} InsertConcat<V>(m: map<string, V>, a: Entries<V>, b: Entries<V>)
    ensures InsertAll(m, a + b) == InsertAll(InsertAll(m, a), b)
  {
    if b == [] {
      assert a + b == a;
    } else {
      var c, last := b[..|b| - 1], b[|b| - 1];
      InsertConcat(m, a, c);
      InsertOneMore(m, a + c, last.0, last.1);
      InsertOneMore(InsertAll(m, a), c, last.0, last.1);
      assert b == c + [(last.0, last.1)] && a + b == (a + c) + [(last.0, last.1)];
    }
  }

  /** Pushing an entry: what the map and the list of names become. */
  lemma Pushed<V>(m: map<string, V>, entries: Entries<V>, name: string, value: V)
    ensures InsertAll(m, entries + [(name, value)]) == InsertAll(m, entries)[name := value]
    ensures Names(entries + [(name, value)]) == Names(entries) + [name]
  {
    InsertOneMore(m, entries, name, value);
  }

  lemma NamesConcat<V>(a: Entries<V>, b: Entries<V>)
    ensures Names(a + b) == Names(a) + Names(b)
  {
  }

  // ---- pools ----

  function Decimal(n: nat): string {
    if n < 10 then ["0123456789"[n]] else Decimal(n / 10) + ["0123456789"[n % 10]]
  }

  function PoolName(id: string, site: Site, i: nat): string
    requires i < |site.pools|
  {
    if site.pools[i].id != "" then site.pools[i].id
    else if |site.pools| == 1 then id + "_upstream"
    else id + "_upstream_" + Decimal(i)
  }

  /** One upstream per pool that has peers, of the first `n` pools. */
  function PoolEntries(id: string, site: Site, n: nat): Entries<Origin>
    requires n <= |site.pools|
  {
    if n == 0 then []
    else if site.pools[n - 1].peers == 0 then PoolEntries(id, site, n - 1)
    else PoolEntries(id, site, n - 1) + [(PoolName(id, site, n - 1), Origin(id, n - 1))]
  }

  function PoolKeys(id: string, site: Site): seq<string> {
    Names(PoolEntries(id, site, |site.pools|))
  }

  /** The last usable pool marked default. */
  function DefaultKey(id: string, site: Site, n: nat): Option<string>
    requires n <= |site.pools|
  {
    if n == 0 then None
    else if site.pools[n - 1].peers > 0 && site.pools[n - 1].isDefault then Some(PoolName(id, site, n - 1))
    else DefaultKey(id, site, n - 1)
  }

  method CompilePools(id: string, site: Site, upstreams: map<string, Origin>)
    returns (keys: seq<string>, default: Option<string>, r: map<string, Origin>)
    ensures keys == PoolKeys(id, site)
    ensures default == DefaultKey(id, site, |site.pools|)
    ensures r == InsertAll(upstreams, PoolEntries(id, site, |site.pools|))
  {
    keys, default, r := [], None, upstreams;
    ghost var done: Entries<Origin> := [];
    for i := 0 to |site.pools|
      invariant done == PoolEntries(id, site, i)
      invariant keys == Names(done) && r == InsertAll(upstreams, done)
      invariant default == DefaultKey(id, site, i)
    {
      if site.pools[i].peers == 0 {
        continue;
      }
      var name := PoolName(id, site, i);
      if site.pools[i].isDefault {
        default := Some(name);
      }
      Pushed(upstreams, done, name, Origin(id, i));
      keys := keys + [name];
      r := r[name := Origin(id, i)];
      done := done + [(name, Origin(id, i))];
    }
  }

  // ---- locations of a site ----

  function FallbackOf(keys: seq<string>, default: Option<string>, site: Site): Option<string> {
    if default.Some? then default
    else if site.routes == [] && keys != [] then Some(keys[0])
    else None
  }

  /** The pool of a route; one that was not built falls back to the default, then the first pool. */
  function TargetOf(keys: seq<string>, default: Option<string>, route: Route): Option<string> {
    if route.poolId in keys then Some(route.poolId)
    else if default.Some? then default
    else if keys != [] then Some(keys[0])
    else None
  }

  function Fallback(id: string, site: Site): Option<string> {
    FallbackOf(PoolKeys(id, site), DefaultKey(id, site, |site.pools|), site)
  }

  function Target(id: string, site: Site, route: Route): Option<string> {
    TargetOf(PoolKeys(id, site), DefaultKey(id, site, |site.pools|), route)
  }

  function HostString(site: Site): string {
    if site.alternates == [] then site.domain else Join([site.domain] + site.alternates, ',')
  }

  function RoutePath(route: Route): string {
    match route.matchType
    case Exactly => "=" + route.path
    case ByRegex => "~" + route.path
    case ByPrefix => route.path
  }

  function Clamp(priority: int): nat {
    Max(1, Min(priority, 65535))
  }

  function RouteName(id: string, route: Route): string {
    id + "_route_" + route.id
  }

  function FallbackName(id: string): string {
    id + "_loc"
  }

  function RouteConf(site: Site, route: Route, target: string, plugins: seq<Plugin>): LocationConf {
    LocationConf(Some(target), Some(HostString(site)), RoutePath(route),
                 if route.priority.Some? then Some(Clamp(route.priority.value)) else None,
                 route.ipRanges, plugins)
  }

  function FallbackConf(site: Site, target: string, plugins: seq<Plugin>): LocationConf {
    LocationConf(Some(target), Some(HostString(site)), "/", Some(0), [], plugins)
  }

  function FilePlugins(id: string, extras: Extras): seq<Plugin> {
    (if extras.robots then [Robots(id)] else []) + (if extras.llms then [Llms(id)] else [])
  }

  function GatePlugins(id: string, login: Login): seq<Plugin> {
    match login
    case NoLogin => []
    case Local => [VisitorAuth(id)]
    case Provider => [Oidc(id)]
    case LocalAndProvider => [VisitorAuth(id), Oidc(id)]
  }

  function PosturePlugins(id: string, extras: Extras): seq<Plugin> {
    (if extras.hsts then [Hsts(id)] else []) + (if extras.https then [Https(id)] else [])
    + (if extras.replace then [SubFilter(id)] else [])
  }

  function SitePlugins(id: string, extras: Extras, cache: bool): seq<Plugin> {
    FilePlugins(id, extras) + [Waf, Challenge, Rewrite, ErrorPage] + GatePlugins(id, extras.login)
    + (if cache then [Cache] else []) + PosturePlugins(id, extras)
  }

  /** The plugin instances registered while those lists are built. */
  function OwnPlugins(id: string, extras: Extras): set<Plugin> {
    set p <- FilePlugins(id, extras) + GatePlugins(id, extras.login) + PosturePlugins(id, extras)
  }

  function SharedPlugins(cache: bool): set<Plugin> {
    {Waf, Challenge, Rewrite, ErrorPage} + if cache then {Cache} else {}
  }

  /** Does this route become a location? */
  predicate Routed(id: string, site: Site, route: Route) {
    route.enabled && Target(id, site, route).Some?
  }

  function RouteEntry(id: string, site: Site, plugins: seq<Plugin>, route: Route): Entries<LocationConf> {
    if Routed(id, site, route)
    then [(RouteName(id, route), RouteConf(site, route, Target(id, site, route).value, plugins))]
    else []
  }

  function RouteEntryOf(id: string, site: Site, plugins: seq<Plugin>): Route -> Entries<LocationConf> {
    (r: Route) => RouteEntry(id, site, plugins, r)
  }

  function RouteEntries(id: string, site: Site, plugins: seq<Plugin>, routes: seq<Route>): Entries<LocationConf> {
    FlatMap(routes, RouteEntryOf(id, site, plugins))
  }

  function FallbackEntry(id: string, site: Site, plugins: seq<Plugin>): Entries<LocationConf> {
    if Fallback(id, site).None? then []
    else [(FallbackName(id), FallbackConf(site, Fallback(id, site).value, plugins))]
  }

  function SiteEntries(id: string, site: Site, cache: bool): Entries<LocationConf> {
    if site.domain == "" then []
    else
      var plugins := SitePlugins(id, site.extras, cache);
      FallbackEntry(id, site, plugins) + RouteEntries(id, site, plugins, site.routes)
  }

  method CompileRoutes(id: string, site: Site, plugins: seq<Plugin>, keys: seq<string>, default: Option<string>,
                       locations: map<string, LocationConf>)
    returns (r: map<string, LocationConf>, names: seq<string>)
    requires keys == PoolKeys(id, site) && default == DefaultKey(id, site, |site.pools|)
    ensures r == InsertAll(locations, RouteEntries(id, site, plugins, site.routes))
    ensures names == Names(RouteEntries(id, site, plugins, site.routes))
  {
    r, names := locations, [];
    ghost var done: Entries<LocationConf> := [];
    for i := 0 to |site.routes|
      invariant done == RouteEntries(id, site, plugins, site.routes[..i])
      invariant names == Names(done) && r == InsertAll(locations, done)
    {
      var route := site.routes[i];
      OneMoreRoute(id, site, plugins, i);
      if !route.enabled {
        continue;
      }
      var target := TargetOf(keys, default, route);
      if target.None? {
        continue;
      }
      var name, conf := RouteName(id, route), RouteConf(site, route, target.value, plugins);
      Pushed(locations, done, name, conf);
      r := r[name := conf];
      names := names + [name];
      done := done + [(name, conf)];
    }
    assert site.routes[..|site.routes|] == site.routes;
  }

  lemma OneMoreRoute(id: string, site: Site, plugins: seq<Plugin>, i: nat)
    requires i < |site.routes|
    ensures var before, route := RouteEntries(id, site, plugins, site.routes[..i]), site.routes[i];
            RouteEntries(id, site, plugins, site.routes[..i + 1]) ==
              if Routed(id, site, route)
                then before + [(RouteName(id, route), RouteConf(site, route, Target(id, site, route).value, plugins))]
              else before
  {
    assert site.routes[..i + 1][..i] == site.routes[..i];
    var before := RouteEntries(id, site, plugins, site.routes[..i]);
    assert before + [] == before;
  }

  /** What a site adds; one without a domain adds nothing. */
  function SitePools(id: string, site: Site): Entries<Origin> {
    if site.domain == "" then [] else PoolEntries(id, site, |site.pools|)
  }

  function SiteOwn(id: string, site: Site): set<Plugin> {
    if site.domain == "" then {} else OwnPlugins(id, site.extras)
  }

  function Extended(c: Compiled, pools: Entries<Origin>, locations: Entries<LocationConf>,
                    plugins: set<Plugin>): Compiled {
    Compiled(InsertAll(c.upstreams, pools), InsertAll(c.locations, locations), c.names + Names(locations),
        c.plugins + plugins)
  }

  method CompileLocations(id: string, site: Site, plugins: seq<Plugin>, keys: seq<string>, default: Option<string>,
                          locations: map<string, LocationConf>)
    returns (r: map<string, LocationConf>, names: seq<string>)
    requires keys == PoolKeys(id, site) && default == DefaultKey(id, site, |site.pools|)
    ensures var added := FallbackEntry(id, site, plugins) + RouteEntries(id, site, plugins, site.routes);
            r == InsertAll(locations, added) && names == Names(added)
  {
    r, names := locations, [];
    ghost var first := FallbackEntry(id, site, plugins);
    var fallback := FallbackOf(keys, default, site);
    if fallback.Some? {
      var conf := FallbackConf(site, fallback.value, plugins);
      r := r[FallbackName(id) := conf];
      names := [FallbackName(id)];
      InsertOneMore(locations, [], FallbackName(id), conf);
      assert first == [] + [(FallbackName(id), conf)];
    }
    assert r == InsertAll(locations, first) && names == Names(first);
    InsertConcat(locations, first, RouteEntries(id, site, plugins, site.routes));
    NamesConcat(first, RouteEntries(id, site, plugins, site.routes));
    var more;
    r, more := CompileRoutes(id, site, plugins, keys, default, r);
    names := names + more;
  }

  method CompileSite(id: string, site: Site, cache: bool, c: Compiled) returns (r: Compiled)
    ensures r == Extended(c, SitePools(id, site), SiteEntries(id, site, cache), SiteOwn(id, site))
  {
    if site.domain == "" {
      return c;
    }
    var keys, default, upstreams := CompilePools(id, site, c.upstreams);
    var plugins := SitePlugins(id, site.extras, cache);
    var locations, names := CompileLocations(id, site, plugins, keys, default, c.locations);
    r := Compiled(upstreams, locations, c.names + names, c.plugins + OwnPlugins(id, site.extras));
  }

  // ---- all sites ----

  predicate CacheOn(rules: Rules) {
    rules.cacheMaster && exists i :: 0 <= i < |rules.sites| && rules.sites[i].1.cachePolicy
  }

  predicate AnyUnmatchedPage(rules: Rules) {
    exists i :: 0 <= i < |rules.sites| && rules.sites[i].1.unmatchedPage
  }

  function AllPools(sites: seq<(string, Site)>): Entries<Origin> {
    if sites == [] then []
    else AllPools(sites[..|sites| - 1]) + SitePools(sites[|sites| - 1].0, sites[|sites| - 1].1)
  }

  function SiteEntriesOf(cache: bool): ((string, Site)) -> Entries<LocationConf> {
    (x: (string, Site)) => SiteEntries(x.0, x.1, cache)
  }

  function AllSites(sites: seq<(string, Site)>, cache: bool): Entries<LocationConf> {
    FlatMap(sites, SiteEntriesOf(cache))
  }

  function AllOwn(sites: seq<(string, Site)>): set<Plugin> {
    if sites == [] then {}
    else AllOwn(sites[..|sites| - 1]) + SiteOwn(sites[|sites| - 1].0, sites[|sites| - 1].1)
  }

  /** No upstream, no host, weight 0, and last in the list. */
  function UnmatchedConf(): LocationConf {
    LocationConf(None, None, "/", Some(0), [], [FallbackPage])
  }

  function UnmatchedEntry(rules: Rules): Entries<LocationConf> {
    if AnyUnmatchedPage(rules) then [(UNMATCHED_HOST, UnmatchedConf())] else []
  }

  /** Every location in the order it is listed. */
  function Locations(rules: Rules): Entries<LocationConf> {
    AllSites(rules.sites, CacheOn(rules)) + UnmatchedEntry(rules)
  }

  function Start(cache: bool): Compiled {
    Compiled(map[], map[], [], SharedPlugins(cache))
  }

  function Unmatched(rules: Rules): set<Plugin> {
    if AnyUnmatchedPage(rules) then {FallbackPage} else {}
  }

  function Meaning(rules: Rules): Compiled {
    Extended(Start(CacheOn(rules)), AllPools(rules.sites), Locations(rules), AllOwn(rules.sites) + Unmatched(rules))
  }

  lemma ExtendedTwice(c: Compiled, pools: Entries<Origin>, locations: Entries<LocationConf>, plugins: set<Plugin>,
                      morePools: Entries<Origin>, moreLocations: Entries<LocationConf>, morePlugins: set<Plugin>)
    ensures Extended(Extended(c, pools, locations, plugins), morePools, moreLocations, morePlugins) ==
      Extended(c, pools + morePools, locations + moreLocations, plugins + morePlugins)
  {
    InsertConcat(c.upstreams, pools, morePools);
    InsertConcat(c.locations, locations, moreLocations);
    NamesConcat(locations, moreLocations);
    assert (c.names + Names(locations)) + Names(moreLocations) == c.names + (Names(locations) + Names(moreLocations));
    assert (c.plugins + plugins) + morePlugins == c.plugins + (plugins + morePlugins);
  }

  method Compile(rules: Rules) returns (r: Compiled)
    ensures r == Meaning(rules)
  {
    var cache := CacheOn(rules);
    r := CompileSites(rules.sites, cache);
    UnmatchedLast(rules, r);
    if AnyUnmatchedPage(rules) {
      r := Compiled(r.upstreams, r.locations[UNMATCHED_HOST := UnmatchedConf()],
                    r.names + [UNMATCHED_HOST], r.plugins + {FallbackPage});
    }
  }

  function SitesMeaning(sites: seq<(string, Site)>, cache: bool): Compiled {
    Extended(Start(cache), AllPools(sites), AllSites(sites, cache), AllOwn(sites))
  }

  lemma OneMoreSite(sites: seq<(string, Site)>, i: nat, cache: bool)
    requires i < |sites|
    ensures SitesMeaning(sites[..i + 1], cache) ==
      Extended(SitesMeaning(sites[..i], cache), SitePools(sites[i].0, sites[i].1),
               SiteEntries(sites[i].0, sites[i].1, cache), SiteOwn(sites[i].0, sites[i].1))
  {
    var before := sites[..i];
    assert sites[..i + 1][..i] == before;
    ExtendedTwice(Start(cache), AllPools(before), AllSites(before, cache), AllOwn(before),
                  SitePools(sites[i].0, sites[i].1), SiteEntries(sites[i].0, sites[i].1, cache),
                  SiteOwn(sites[i].0, sites[i].1));
  }

  method CompileSites(sites: seq<(string, Site)>, cache: bool) returns (r: Compiled)
    ensures r == SitesMeaning(sites, cache)
  {
    r := Start(cache);
    for i := 0 to |sites|
      invariant r == SitesMeaning(sites[..i], cache)
    {
      r := CompileSite(sites[i].0, sites[i].1, cache, r);
      OneMoreSite(sites, i, cache);
    }
    assert sites[..|sites|] == sites;
  }

  lemma ExtendedByOne(c: Compiled, name: string, conf: LocationConf, plugins: set<Plugin>)
    ensures Extended(c, [], [], {}) == c
    ensures Extended(c, [], [(name, conf)], plugins) ==
      Compiled(c.upstreams, c.locations[name := conf], c.names + [name], c.plugins + plugins)
  {
    InsertOneMore(c.locations, [], name, conf);
    assert [] + [(name, conf)] == [(name, conf)];
  }

  lemma UnmatchedLast(rules: Rules, c: Compiled)
    requires c == SitesMeaning(rules.sites, CacheOn(rules))
    ensures Meaning(rules) == if !AnyUnmatchedPage(rules) then c else
      Compiled(c.upstreams, c.locations[UNMATCHED_HOST := UnmatchedConf()], c.names + [UNMATCHED_HOST],
               c.plugins + {FallbackPage})
  {
    var sites, cache := rules.sites, CacheOn(rules);
    ExtendedTwice(Start(cache), AllPools(sites), AllSites(sites, cache), AllOwn(sites),
                  [], UnmatchedEntry(rules), Unmatched(rules));
    assert AllPools(sites) + [] == AllPools(sites);
    ExtendedByOne(c, UNMATCHED_HOST, UnmatchedConf(), Unmatched(rules));
  }
}
