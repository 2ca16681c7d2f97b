/**
 What holds of every compiled rule set: references are defined, upstreams are
 the site's own pools, names are distinct, paths keep their meaning, and routes
 rank above the fallback.
 */
module RoutingFacts {
  import opened Prelude
  import opened Text
  import opened LocationMatch
  import opened SiteRules
  import opened SiteRouting
  import opened StableSort

  // ---- membership in the compiled maps ----

  lemma {:induction false} InsertedKeys<V>(entries: Entries<V>, i: nat)
    requires i < |entries|
    ensures entries[i].0 in InsertAll(map[], entries)
  {
    if i < |entries| - 1 {
      InsertedKeys(entries[..|entries| - 1], i);
    }
  }

  lemma {:induction false} InsertedFrom<V>(entries: Entries<V>, name: string) returns (i: nat)
    requires name in InsertAll(map[], entries)
    ensures i < |entries| && entries[i] == (name, InsertAll(map[], entries)[name])
  {
    i := |entries| - 1;
    if entries[i].0 != name {
      i := InsertedFrom(entries[..|entries| - 1], name);
    }
  }

  // ---- pools ----

  /** An upstream built from this pool of this site. */
  predicate BuiltFrom(id: string, site: Site, e: (string, Origin)) {
    && e.1.site == id && e.1.pool < |site.pools|
    && site.pools[e.1.pool].peers > 0
    && e.0 == PoolName(id, site, e.1.pool)
  }

  lemma {:induction false} PoolEntriesBuilt(id: string, site: Site, n: nat)
    requires n <= |site.pools|
    ensures forall e :: e in PoolEntries(id, site, n) ==> BuiltFrom(id, site, e)
    ensures DefaultKey(id, site, n).Some? ==> DefaultKey(id, site, n).value in Names(PoolEntries(id, site, n))
  {
    if n > 0 {
      PoolEntriesBuilt(id, site, n - 1);
      if site.pools[n - 1].peers > 0 {
        NamesConcat(PoolEntries(id, site, n - 1), [(PoolName(id, site, n - 1), Origin(id, n - 1))]);
      }
    }
  }

  lemma TargetsAreKeys(id: string, site: Site, route: Route)
    ensures Target(id, site, route).Some? ==> Target(id, site, route).value in PoolKeys(id, site)
    ensures Fallback(id, site).Some? ==> Fallback(id, site).value in PoolKeys(id, site)
  {
    PoolEntriesBuilt(id, site, |site.pools|);
  }

  lemma {:induction false} PoolsAreListed(sites: seq<(string, Site)>, k: nat, e: (string, Origin))
    requires k < |sites| && e in SitePools(sites[k].0, sites[k].1)
    ensures e in AllPools(sites)
  {
    if k < |sites| - 1 {
      PoolsAreListed(sites[..|sites| - 1], k, e);
    }
  }

  lemma KeyIsListed(sites: seq<(string, Site)>, k: nat, name: string) returns (e: (string, Origin))
    requires k < |sites| && sites[k].1.domain != "" && name in PoolKeys(sites[k].0, sites[k].1)
    ensures e in AllPools(sites) && e.0 == name && BuiltFrom(sites[k].0, sites[k].1, e)
  {
    var id, site := sites[k].0, sites[k].1;
    var entries := PoolEntries(id, site, |site.pools|);
    var i :| 0 <= i < |Names(entries)| && Names(entries)[i] == name;
    e := entries[i];
    PoolEntriesBuilt(id, site, |site.pools|);
    PoolsAreListed(sites, k, e);
  }

  /** When upstream names are distinct, a pool name a site refers to leads to that site's own pool. */
  lemma UpstreamIsOwnPool(rules: Rules, k: nat, name: string)
    requires NoDuplicates(Names(AllPools(rules.sites)))
    requires k < |rules.sites| && rules.sites[k].1.domain != ""
    requires name in PoolKeys(rules.sites[k].0, rules.sites[k].1)
    ensures var u := Meaning(rules).upstreams;
            name in u && BuiltFrom(rules.sites[k].0, rules.sites[k].1, (name, u[name]))
  {
    var e := KeyIsListed(rules.sites, k, name);
    var i :| 0 <= i < |AllPools(rules.sites)| && AllPools(rules.sites)[i] == e;
    Inserted(AllPools(rules.sites), i);
  }

  // ---- every reference is defined ----

  /** The upstream is one of the site's pools and the plugins are the site's list. */
  predicate FromSite(id: string, site: Site, cache: bool, conf: LocationConf) {
    && conf.upstream.Some? && conf.upstream.value in PoolKeys(id, site)
    && conf.plugins == SitePlugins(id, site.extras, cache)
  }

  lemma {:induction false} RoutesFromSite(id: string, site: Site, cache: bool, routes: seq<Route>)
    ensures forall e :: e in RouteEntries(id, site, SitePlugins(id, site.extras, cache), routes) ==>
      FromSite(id, site, cache, e.1)
  {
    if routes != [] {
      RoutesFromSite(id, site, cache, routes[..|routes| - 1]);
      TargetsAreKeys(id, site, routes[|routes| - 1]);
    }
  }

  lemma SiteEntriesFromSite(id: string, site: Site, cache: bool, e: (string, LocationConf))
    requires e in SiteEntries(id, site, cache)
    ensures site.domain != "" && FromSite(id, site, cache, e.1)
  {
    RoutesFromSite(id, site, cache, site.routes);
    TargetsAreKeys(id, site, Route("", false, "", ByPrefix, "", None, []));
  }

  lemma {:induction false} ListedFrom(sites: seq<(string, Site)>, cache: bool, e: (string,
                                      LocationConf)) returns (k: nat)
    requires e in AllSites(sites, cache)
    ensures k < |sites| && e in SiteEntries(sites[k].0, sites[k].1, cache)
  {
    k := |sites| - 1;
    if e !in SiteEntries(sites[k].0, sites[k].1, cache) {
      k := ListedFrom(sites[..k], cache, e);
    }
  }

  lemma {:induction false} OwnAreListed(sites: seq<(string, Site)>, k: nat)
    requires k < |sites|
    ensures SiteOwn(sites[k].0, sites[k].1) <= AllOwn(sites)
  {
    if k < |sites| - 1 {
      OwnAreListed(sites[..|sites| - 1], k);
    }
  }

  lemma SitePluginsDefined(id: string, extras: Extras, cache: bool, p: Plugin)
    requires p in SitePlugins(id, extras, cache)
    ensures p in SharedPlugins(cache) + OwnPlugins(id, extras)
  {
  }

  /** Every listed name has a location, and every location's upstream and plugins exist. */
  lemma ReferencesAreDefined(rules: Rules, name: string)
    ensures var c := Meaning(rules);
            && (name in c.names ==> name in c.locations)
            && (name in c.locations ==>
                  && (c.locations[name].upstream.Some? ==> c.locations[name].upstream.value in c.upstreams)
                  && forall p :: p in c.locations[name].plugins ==> p in c.plugins)
  {
    var c, entries := Meaning(rules), Locations(rules);
    if name in c.names {
      var i :| 0 <= i < |Names(entries)| && Names(entries)[i] == name;
      InsertedKeys(entries, i);
    }
    if name in c.locations {
      var i := InsertedFrom(entries, name);
      EntryIsDefined(rules, entries[i]);
    }
  }

  lemma EntryIsDefined(rules: Rules, e: (string, LocationConf))
    requires e in Locations(rules)
    ensures var c := Meaning(rules);
            && (e.1.upstream.Some? ==> e.1.upstream.value in c.upstreams)
            && forall p :: p in e.1.plugins ==> p in c.plugins
  {
    var c, cache := Meaning(rules), CacheOn(rules);
    if e in AllSites(rules.sites, cache) {
      var k := ListedFrom(rules.sites, cache, e);
      var id, site := rules.sites[k].0, rules.sites[k].1;
      SiteEntriesFromSite(id, site, cache, e);
      var pool := KeyIsListed(rules.sites, k, e.1.upstream.value);
      var i :| 0 <= i < |AllPools(rules.sites)| && AllPools(rules.sites)[i] == pool;
      InsertedKeys(AllPools(rules.sites), i);
      OwnAreListed(rules.sites, k);
      forall p | p in e.1.plugins ensures p in c.plugins {
        SitePluginsDefined(id, site.extras, cache, p);
      }
    } else {
      assert e in UnmatchedEntry(rules);
    }
  }

  /** Generated files, shared plugins, the sign-in gate, the cache, the rest. */
  function Stage(p: Plugin): nat {
    match p
    case Robots(_) => 0
    case Llms(_) => 0
    case VisitorAuth(_) => 2
    case Oidc(_) => 2
    case Cache => 3
    case Hsts(_) => 4
    case Https(_) => 4
    case SubFilter(_) => 4
    case _ => 1
  }

  predicate Staged(s: seq<Plugin>, low: nat, high: nat) {
    && (forall i :: 0 <= i < |s| ==> low <= Stage(s[i]) <= high)
    && (forall i, j :: 0 <= i < j < |s| ==> Stage(s[i]) <= Stage(s[j]))
  }

  lemma StagedConcat(a: seq<Plugin>, b: seq<Plugin>, m: nat)
    requires Staged(a, 0, m) && Staged(b, m, m + 1)
    ensures Staged(a + b, 0, m + 1)
  {
  }

  /** Every site's plugins run in stages, so a cache hit cannot skip the sign-in gate. */
  lemma GateBeforeCache(id: string, extras: Extras, cache: bool)
    ensures var p := SitePlugins(id, extras, cache);
            Staged(p, 0, 4)
  {
    BlocksAreStaged(id, extras, cache);
    StagesInOrder(FilePlugins(id, extras), [Waf, Challenge, Rewrite, ErrorPage], GatePlugins(id, extras.login),
                  if cache then [Cache] else [], PosturePlugins(id, extras));
  }

  lemma EntryIsStaged(rules: Rules, e: (string, LocationConf))
    requires e in Locations(rules)
    ensures Staged(e.1.plugins, 0, 4)
  {
    var cache := CacheOn(rules);
    if e in AllSites(rules.sites, cache) {
      var k := ListedFrom(rules.sites, cache, e);
      SiteEntriesFromSite(rules.sites[k].0, rules.sites[k].1, cache, e);
      GateBeforeCache(rules.sites[k].0, rules.sites[k].1.extras, cache);
    } else {
      assert e in UnmatchedEntry(rules);
      assert e.1.plugins == [FallbackPage];
    }
  }

  /** So the plugins of whichever location answers a request run in stages: no cache hit skips a sign-in. */
  lemma CompiledPluginsAreStaged(rules: Rules, name: string)
    requires name in Meaning(rules).locations
    ensures Staged(Meaning(rules).locations[name].plugins, 0, 4)
  {
    var i := InsertedFrom(Locations(rules), name);
    EntryIsStaged(rules, Locations(rules)[i]);
  }

  predicate AllAt(s: seq<Plugin>, stage: nat) {
    forall p :: p in s ==> Stage(p) == stage
  }

  lemma BlocksAreStaged(id: string, extras: Extras, cache: bool)
    ensures Staged(FilePlugins(id, extras), 0, 0)
    ensures Staged([Waf, Challenge, Rewrite, ErrorPage], 1, 1)
    ensures Staged(GatePlugins(id, extras.login), 2, 2)
    ensures Staged(if cache then [Cache] else [], 3, 3)
    ensures Staged(PosturePlugins(id, extras), 4, 4)
  {
    var files, shared, gate := FilePlugins(id, extras), [Waf, Challenge, Rewrite, ErrorPage], GatePlugins(id,
        extras.login);
    var cached, posture := if cache then [Cache] else [], PosturePlugins(id, extras);
    assert AllAt(files, 0) && AllAt(shared, 1) && AllAt(gate, 2) && AllAt(cached, 3) && AllAt(posture, 4);
    AtOneStage(files, 0);
    AtOneStage(shared, 1);
    AtOneStage(gate, 2);
    AtOneStage(cached, 3);
    AtOneStage(posture, 4);
  }

  lemma AtOneStage(s: seq<Plugin>, stage: nat)
    requires AllAt(s, stage)
    ensures Staged(s, stage, stage)
  {
    assert forall i :: 0 <= i < |s| ==> s[i] in s;
  }

  lemma StagesInOrder(a: seq<Plugin>, b: seq<Plugin>, c: seq<Plugin>, d: seq<Plugin>, e: seq<Plugin>)
    requires Staged(a, 0, 0) && Staged(b, 1, 1) && Staged(c, 2, 2) && Staged(d, 3, 3) && Staged(e, 4, 4)
    ensures Staged(a + b + c + d + e, 0, 4)
  {
    StagedConcat(a, b, 0);
    StagedConcat(a + b, c, 1);
    StagedConcat(a + b + c, d, 2);
    StagedConcat(a + b + c + d, e, 3);
  }

  /** What a site asks to run, plugin by plugin. */
  predicate Asked(rules: Rules, id: string, extras: Extras, p: Plugin) {
    match p
    case Robots(s) => s == id && extras.robots
    case Llms(s) => s == id && extras.llms
    case VisitorAuth(s) => s == id && (extras.login == Local || extras.login == LocalAndProvider)
    case Oidc(s) => s == id && (extras.login == Provider || extras.login == LocalAndProvider)
    case Cache => rules.cacheMaster && exists i :: 0 <= i < |rules.sites| && rules.sites[i].1.cachePolicy
    case Hsts(s) => s == id && extras.hsts
    case Https(s) => s == id && extras.https
    case SubFilter(s) => s == id && extras.replace
    case FallbackPage => false
    case _ => true
  }

  lemma FilePluginsAre(id: string, extras: Extras, p: Plugin)
    ensures p in FilePlugins(id, extras) <==> (p == Robots(id) && extras.robots) || (p == Llms(id) && extras.llms)
  {
  }

  lemma GatePluginsAre(id: string, login: Login, p: Plugin)
    ensures p in GatePlugins(id, login) <==>
      || (p == VisitorAuth(id) && (login == Local || login == LocalAndProvider))
      || (p == Oidc(id) && (login == Provider || login == LocalAndProvider))
  {
  }

  lemma PosturePluginsAre(id: string, extras: Extras, p: Plugin)
    ensures p in PosturePlugins(id, extras) <==>
      (p == Hsts(id) && extras.hsts) || (p == Https(id) && extras.https) || (p == SubFilter(id) && extras.replace)
  {
  }

  lemma InOneOf<T>(a: seq<T>, b: seq<T>, c: seq<T>, d: seq<T>, e: seq<T>, x: T)
    ensures x in a + b + c + d + e <==> x in a || x in b || x in c || x in d || x in e
  {
  }

  /** A plugin every site shares, rather than an instance of one. */
  predicate IsShared(p: Plugin) {
    p.Waf? || p.Challenge? || p.Rewrite? || p.ErrorPage? || p.Cache? || p.FallbackPage?
  }

  lemma OwnPluginsAreAsked(rules: Rules, id: string, extras: Extras, p: Plugin)
    ensures p in OwnPlugins(id, extras) <==>
      p in FilePlugins(id, extras) || p in GatePlugins(id, extras.login) || p in PosturePlugins(id, extras)
    ensures p in OwnPlugins(id, extras) <==> !IsShared(p) && Asked(rules, id, extras, p)
  {
    InOneOf(FilePlugins(id, extras), GatePlugins(id, extras.login), PosturePlugins(id, extras), [], [], p);
    assert FilePlugins(id, extras) + GatePlugins(id, extras.login) + PosturePlugins(id, extras) + [] + []
        == FilePlugins(id, extras) + GatePlugins(id, extras.login) + PosturePlugins(id, extras);
    FilePluginsAre(id, extras, p);
    GatePluginsAre(id, extras.login, p);
    PosturePluginsAre(id, extras, p);
  }

  lemma SitePluginsAreAsked(rules: Rules, id: string, extras: Extras, p: Plugin)
    ensures p in SitePlugins(id, extras, CacheOn(rules)) <==> Asked(rules, id, extras, p)
  {
    var cache := if CacheOn(rules) then [Cache] else [];
    InOneOf(FilePlugins(id, extras), [Waf, Challenge, Rewrite, ErrorPage], GatePlugins(id, extras.login), cache,
            PosturePlugins(id, extras), p);
    OwnPluginsAreAsked(rules, id, extras, p);
    SharedAre(rules, p);
  }

  lemma SharedAre(rules: Rules, p: Plugin)
    ensures p in SharedPlugins(CacheOn(rules)) <==>
      p.Waf? || p.Challenge? || p.Rewrite? || p.ErrorPage? || (p.Cache? && CacheOn(rules))
  {
  }

  /**
   Every compiled location that proxies is some site's, and runs exactly what that site asks for: its
   generated files, its sign-in gates, the cache when it is on, its posture and replacement.
   */
  lemma CompiledPluginsAreAsked(rules: Rules, name: string) returns (k: nat)
    requires name in Meaning(rules).locations && Meaning(rules).locations[name].upstream.Some?
    ensures k < |rules.sites|
    ensures var conf, (id, site) := Meaning(rules).locations[name], rules.sites[k];
            && (name, conf) in SiteEntries(id, site, CacheOn(rules))
            && forall p :: p in conf.plugins <==> Asked(rules, id, site.extras, p)
  {
    var i := InsertedFrom(Locations(rules), name);
    var e := Locations(rules)[i];
    k := ListedFrom(rules.sites, CacheOn(rules), e);
    var (id, site) := rules.sites[k];
    SiteEntriesFromSite(id, site, CacheOn(rules), e);
    forall p ensures p in e.1.plugins <==> Asked(rules, id, site.extras, p) {
      SitePluginsAreAsked(rules, id, site.extras, p);
    }
  }

  /** Some site that is compiled asks for it. */
  predicate AskedBySome(rules: Rules, sites: seq<(string, Site)>, p: Plugin) {
    exists k :: 0 <= k < |sites| && sites[k].1.domain != "" && Asked(rules, sites[k].0, sites[k].1.extras, p)
  }

  lemma SomeAskedOneMore(rules: Rules, sites: seq<(string, Site)>, p: Plugin)
    requires sites != []
    ensures var last := sites[|sites| - 1];
            AskedBySome(rules, sites, p) <==>
              || AskedBySome(rules, sites[..|sites| - 1], p)
              || (last.1.domain != "" && Asked(rules, last.0, last.1.extras, p))
  {
    assert forall k :: 0 <= k < |sites| - 1 ==> sites[..|sites| - 1][k] == sites[k];
  }

  lemma {:induction false} AllOwnAreAsked(rules: Rules, sites: seq<(string, Site)>, p: Plugin)
    ensures p in AllOwn(sites) <==> !IsShared(p) && AskedBySome(rules, sites, p)
  {
    if sites != [] {
      var last := sites[|sites| - 1];
      AllOwnAreAsked(rules, sites[..|sites| - 1], p);
      SomeAskedOneMore(rules, sites, p);
      OwnPluginsAreAsked(rules, last.0, last.1.extras, p);
    }
  }

  /** Registered are the shared plugins, the cache and the unmatched-host page when on, and what some site asks for. */
  lemma RegisteredIff(rules: Rules, p: Plugin)
    ensures p in Meaning(rules).plugins <==>
      match p
      case Waf | Challenge | Rewrite | ErrorPage => true
      case Cache => rules.cacheMaster && exists i :: 0 <= i < |rules.sites| && rules.sites[i].1.cachePolicy
      case FallbackPage => exists i :: 0 <= i < |rules.sites| && rules.sites[i].1.unmatchedPage
      case _ => AskedBySome(rules, rules.sites, p)
  {
    AllOwnAreAsked(rules, rules.sites, p);
    SharedAre(rules, p);
  }

  // ---- the meaning of a compiled path ----

  /** What a route's path means: exactly this path, this pattern, or everything below it. */
  function Meant(route: Route): PathSelector {
    match route.matchType
    case Exactly => Equal(route.path)
    case ByRegex => Regex(route.path)
    case ByPrefix => if route.path == "" then Any else Prefix(route.path)
  }

  lemma MarkedPath(mark: char, path: string)
    requires mark == '=' || mark == '~'
    ensures Trim([mark] + path) == [mark] + TrimEnd(path)
    ensures Trim(TrimEnd(path)) == path <==> Trim(path) == path
  {
    assert !IsWhitespace(mark);
    TrimEndAfter(mark, path);
  }

  /** Unpadded, and a prefix that cannot be taken for a selector mark. */
  predicate PlainPath(route: Route) {
    && Trim(route.path) == route.path
    && (route.matchType.ByPrefix? && route.path != "" ==> route.path[0] != '=' && route.path[0] != '~')
  }

  lemma SelectorsEqualIff(route: Route)
    ensures PathSelectorOf(RoutePath(route)) == Meant(route) <==> PlainPath(route)
  {
    var p := route.path;
    if !route.matchType.ByPrefix? {
      var mark := if route.matchType.Exactly? then '=' else '~';
      MarkedPath(mark, p);
      assert RoutePath(route) == [mark] + p;
      assert ([mark] + TrimEnd(p))[1..] == TrimEnd(p);
    }
  }

  /** The compiled path and the route as written answer the same requests. */
  ghost predicate SameRequests(route: Route) {
    forall req :: PathMatches(PathSelectorOf(RoutePath(route)), req) <==> PathMatches(Meant(route), req)
  }

  function OnlyPattern(pattern: string): (string, string) -> bool {
    (p: string, text: string) => p == pattern
  }

  /** A request the two tell apart: the path itself, the trimmed path, or one longer than either. */
  function Distinguishing(route: Route): Request {
    var p, selector := route.path, PathSelectorOf(RoutePath(route));
    var path :=
      match selector
      case Equal(value) => if route.matchType.Exactly? then p else p + value + "/"
      case Prefix(prefix) => prefix
      case Regex(_) => p
      case Any => "";
    Request("", path, OnlyPattern(if route.matchType.ByRegex?
        then p else p + "~" + Trim(p)), (ranges: seq<string>) => true)
  }

  lemma ToldApart(route: Route)
    requires !PlainPath(route)
    ensures var req := Distinguishing(route);
            PathMatches(PathSelectorOf(RoutePath(route)), req) != PathMatches(Meant(route), req)
  {
    SelectorsEqualIff(route);
    var p, req := route.path, Distinguishing(route);
    if route.matchType.ByPrefix? {
      if p[0] == '=' || p[0] == '~' || Trim(p) != p {
        var t := Trim(p);
        assert |t| <= |p|;
        assert p <= p + (if PathSelectorOf(p).Equal? then PathSelectorOf(p).value else "") + "/";
      }
    } else {
      var mark := if route.matchType.Exactly? then '=' else '~';
      MarkedPath(mark, p);
      assert RoutePath(route) == [mark] + p;
      assert ([mark] + TrimEnd(p))[1..] == TrimEnd(p);
    }
  }

  /**
   A compiled path answers exactly the requests the route asks for if and only if it is unpadded and,
   as a prefix, starts with no selector mark; otherwise a request tells the two apart.
   */
  lemma PathMeaningIff(route: Route)
    ensures SameRequests(route) <==> PlainPath(route)
  {
    SelectorsEqualIff(route);
    if !PlainPath(route) {
      ToldApart(route);
    }
  }

  // ---- weights ----

  /** A stated priority is the weight, clamped; only a wrapped 16-bit sum over a regex host can reach zero. */
  lemma RouteWeightZeroIff(site: Site, route: Route)
    requires site.domain != ""
    ensures route.priority.Some? ==> RouteWeight(site, route) == Clamp(route.priority.value) >= 1
    ensures RouteWeight(site, route) == 0 <==>
      && route.priority.None? && HasRegexHost(HostString(site))
      && (PathWeight(RoutePath(route)) + |HostString(site)|) % 0x1_0000 == 0
  {
    assert HostString(site) != "";
    WrapsAlike(PathWeight(RoutePath(route)), |HostString(site)|);
  }

  lemma WrapsAlike(a: nat, b: nat)
    ensures (a + b % 0x1_0000) % 0x1_0000 == (a + b) % 0x1_0000
  {
  }

  // ---- distinct names ----

  /** A location name that starts with the site id and an underscore. */
  predicate NamedAfter(id: string, name: string) {
    |name| > |id| + 1 && id <= name && name[|id|] == '_' && (name[|id| + 1] == 'l' || name[|id| + 1] == 'r')
  }

  lemma OwnerIsNoLonger(a: string, b: string, name: string)
    requires !Has(b, '_') && NamedAfter(a, name) && NamedAfter(b, name)
    ensures |b| <= |a|
  {
    forall i | 0 <= i < |b| ensures name[i] != '_' {
      assert b[i] == name[i];
    }
  }

  lemma OwnerIsUnique(a: string, b: string, name: string)
    requires !Has(a, '_') && !Has(b, '_') && NamedAfter(a, name) && NamedAfter(b, name)
    ensures a == b
  {
    OwnerIsNoLonger(a, b, name);
    OwnerIsNoLonger(b, a, name);
    assert a == name[..|a|] && b == name[..|b|];
  }

  lemma UnmatchedIsNobodys(id: string)
    requires !Has(id, '_')
    ensures !NamedAfter(id, UNMATCHED_HOST)
  {
    var name := UNMATCHED_HOST;
    assert name[..7] == "pingwaf" && name[7] == '_' && name[8] == 'u';
    assert forall i :: 0 <= i < 7 ==> name[i] == name[..7][i] && name[i] != '_';
    assert id <= name ==> forall i :: 0 <= i < |id| ==> name[i] == id[i];
  }

  function RouteIds(routes: seq<Route>): (r: seq<string>)
    ensures |r| == |routes| && forall i :: 0 <= i < |r| ==> r[i] == routes[i].id
  {
    seq(|routes|, i requires 0 <= i < |routes| => routes[i].id)
  }

  lemma RouteNameShape(id: string, a: Route, b: Route)
    ensures NamedAfter(id, RouteName(id, a)) && RouteName(id, a)[|id| + 1] == 'r'
    ensures RouteName(id, a) == RouteName(id, b) ==> a.id == b.id
  {
    var n := |id| + 7;
    assert RouteName(id, a)[n..] == a.id && RouteName(id, b)[n..] == b.id;
  }

  lemma {:induction false} RouteNamesFrom(id: string, site: Site, plugins: seq<Plugin>, routes: seq<Route>)
    ensures forall n :: n in Names(RouteEntries(id, site, plugins, routes)) ==>
      exists r :: r in routes && n == RouteName(id, r)
  {
    if routes != [] {
      var before, last := routes[..|routes| - 1], routes[|routes| - 1];
      RouteNamesFrom(id, site, plugins, before);
      NamesConcat(RouteEntries(id, site, plugins, before), RouteEntry(id, site, plugins, last));
      forall n | n in Names(RouteEntries(id, site, plugins, routes))
        ensures exists r :: r in routes && n == RouteName(id, r)
      {
        if n in Names(RouteEntries(id, site, plugins, before)) {
          var r :| r in before && n == RouteName(id, r);
          assert r in routes;
        } else {
          assert last in routes && n == RouteName(id, last);
        }
      }
    }
  }

  lemma IdsOfPrefix(routes: seq<Route>, n: nat)
    requires n <= |routes|
    ensures RouteIds(routes[..n]) == RouteIds(routes)[..n]
  {
  }

  lemma LastIdIsNew(routes: seq<Route>)
    requires routes != [] && NoDuplicates(RouteIds(routes))
    ensures NoDuplicates(RouteIds(routes[..|routes| - 1]))
    ensures forall r :: r in routes[..|routes| - 1] ==> r.id != routes[|routes| - 1].id
  {
    var k := |routes| - 1;
    IdsOfPrefix(routes, k);
    DistinctPrefix(RouteIds(routes), k);
    assert forall i :: 0 <= i < k ==> routes[..k][i].id == RouteIds(routes)[i];
  }

  lemma {:induction false} RouteNamesDistinct(id: string, site: Site, plugins: seq<Plugin>, routes: seq<Route>)
    requires NoDuplicates(RouteIds(routes))
    ensures NoDuplicates(Names(RouteEntries(id, site, plugins, routes)))
  {
    if routes != [] {
      var before, last := routes[..|routes| - 1], routes[|routes| - 1];
      LastIdIsNew(routes);
      RouteNamesDistinct(id, site, plugins, before);
      RouteNamesFrom(id, site, plugins, before);
      var listed, added := RouteEntries(id, site, plugins, before), RouteEntry(id, site, plugins, last);
      NamesConcat(listed, added);
      forall n | n in Names(listed) ensures n !in Names(added) {
        var r :| r in before && n == RouteName(id, r);
        RouteNameShape(id, r, last);
      }
      NoDuplicatesConcat(Names(listed), Names(added));
    }
  }

  lemma SiteNamesDistinct(id: string, site: Site, cache: bool)
    requires NoDuplicates(RouteIds(site.routes))
    ensures NoDuplicates(Names(SiteEntries(id, site, cache)))
    ensures forall n :: n in Names(SiteEntries(id, site, cache)) ==> NamedAfter(id, n)
  {
    var plugins := SitePlugins(id, site.extras, cache);
    var first, rest := FallbackEntry(id, site, plugins), RouteEntries(id, site, plugins, site.routes);
    RouteNamesDistinct(id, site, plugins, site.routes);
    RouteNamesFrom(id, site, plugins, site.routes);
    NamesConcat(first, rest);
    forall n | n in Names(rest) ensures NamedAfter(id, n) && n[|id| + 1] == 'r' {
      var r :| r in site.routes && n == RouteName(id, r);
      RouteNameShape(id, r, r);
    }
    FallbackNameShape(id);
    NoDuplicatesConcat(Names(first), Names(rest));
  }

  lemma FallbackNameShape(id: string)
    ensures NamedAfter(id, FallbackName(id)) && FallbackName(id)[|id| + 1] == 'l'
  {
  }

  lemma NoDuplicatesConcat(a: seq<string>, b: seq<string>)
    requires NoDuplicates(a) && NoDuplicates(b) && forall x :: x in a ==> x !in b
    ensures NoDuplicates(a + b)
  {
    var c := a + b;
    forall i, j | 0 <= i < j < |c| ensures c[i] != c[j] {
      if i < |a| <= j {
        assert c[i] in a && c[j] in b;
      } else if j < |a| {
        assert c[i] == a[i] && c[j] == a[j];
      } else {
        assert c[i] == b[i - |a|] && c[j] == b[j - |a|];
      }
    }
  }

  /** Site ids are distinct and free of underscores; route ids are distinct within a site. */
  predicate PlainIds(sites: seq<(string, Site)>) {
    && (forall i, j :: 0 <= i < j < |sites| ==> sites[i].0 != sites[j].0)
    && (forall i :: 0 <= i < |sites| ==> !Has(sites[i].0, '_') && NoDuplicates(RouteIds(sites[i].1.routes)))
  }

  lemma {:induction false} AllNamesDistinct(sites: seq<(string, Site)>, cache: bool)
    requires PlainIds(sites)
    ensures NoDuplicates(Names(AllSites(sites, cache)))
    ensures forall n :: n in Names(AllSites(sites, cache)) ==> exists i :: 0 <= i < |sites| && NamedAfter(sites[i].0, n)
  {
    if sites != [] {
      var k := |sites| - 1;
      var before, last := AllSites(sites[..k], cache), SiteEntries(sites[k].0, sites[k].1, cache);
      AllNamesDistinct(sites[..k], cache);
      SiteNamesDistinct(sites[k].0, sites[k].1, cache);
      NamesConcat(before, last);
      forall n | n in Names(before) ensures n !in Names(last) {
        var i :| 0 <= i < k && NamedAfter(sites[i].0, n);
        if n in Names(last) {
          OwnerIsUnique(sites[i].0, sites[k].0, n);
        }
      }
      NoDuplicatesConcat(Names(before), Names(last));
      forall n | n in Names(before) + Names(last) ensures exists i :: 0 <= i < |sites| && NamedAfter(sites[i].0, n) {
        if n in Names(before) {
          var i :| 0 <= i < k && NamedAfter(sites[..k][i].0, n);
          assert NamedAfter(sites[i].0, n);
        } else {
          assert NamedAfter(sites[k].0, n);
        }
      }
    }
  }

  /** With such ids no two locations share a name, so none overwrites another. */
  lemma LocationNamesDistinct(rules: Rules)
    requires PlainIds(rules.sites)
    ensures NoDuplicates(Names(Locations(rules)))
  {
    var sites := AllSites(rules.sites, CacheOn(rules));
    AllNamesDistinct(rules.sites, CacheOn(rules));
    NamesConcat(sites, UnmatchedEntry(rules));
    forall n | n in Names(sites) ensures n !in Names(UnmatchedEntry(rules)) {
      var i :| 0 <= i < |rules.sites| && NamedAfter(rules.sites[i].0, n);
      UnmatchedIsNobodys(rules.sites[i].0);
    }
    NoDuplicatesConcat(Names(sites), Names(UnmatchedEntry(rules)));
  }
}
