/**
 What the compiled locations do with a request: the list sorted by descending
 weight and scanned for its first match picks the site's best route, else the
 site's fallback, else the unmatched-host page.
 */
module SiteRouting {
  import opened Prelude
  import opened Text
  import opened LocationMatch
  import opened SiteRules
  import opened StableSort

  type Entry = (string, LocationConf)

  function ConfWeight(conf: LocationConf): nat {
    WeightOf(conf.weight, conf.path, conf.host)
  }

  predicate HostServed(host: Option<string>, req: Request) {
    HostsOf(host).Ok? && HostMatches(HostsOf(host).value, req)
  }

  predicate InRanges(ranges: seq<string>, req: Request) {
    ranges == [] || req.inRanges(ranges)
  }

  /** The location answers the request: path, host and client address. */
  predicate Hit(conf: LocationConf, req: Request) {
    PathMatches(PathSelectorOf(conf.path), req) && HostServed(conf.host, req) && InRanges(conf.ipRanges, req)
  }

  function EntryHit(req: Request): Entry -> bool { (e: Entry) => Hit(e.1, req) }

  function EntryKey(): Entry -> int { (e: Entry) => 0 - ConfWeight(e.1) }

  function NameHit(locations: map<string, LocationConf>, req: Request): string -> bool {
    (n: string) => n in locations && Hit(locations[n], req)
  }

  function Weights(locations: map<string, LocationConf>): map<string, nat> {
    map n | n in locations :: ConfWeight(locations[n])
  }

  /** Greater weights first; a name without a location weighs nothing. */
  function NameKey(weights: map<string, nat>): string -> int {
    (n: string) => 0 - if n in weights then weights[n] as int else 0
  }

  /** The names in routing order. */
  function Ordered(c: Compiled): seq<string> {
    SortByKey(c.names, NameKey(Weights(c.locations)))
  }

  /** The location that answers, by name. */
  function Resolve(c: Compiled, req: Request): Option<string> {
    FirstMatch(Ordered(c), NameHit(c.locations, req))
  }

  // ---- names and entries ----

  lemma NamesOfPrefix<V>(entries: Entries<V>, n: nat)
    requires n <= |entries|
    ensures Names(entries[..n]) == Names(entries)[..n]
  {
  }

  lemma DistinctPrefix(names: seq<string>, n: nat)
    requires NoDuplicates(names) && n < |names|
    ensures NoDuplicates(names[..n]) && forall i :: 0 <= i < n ==> names[i] != names[n]
  {
  }

  lemma {:induction false} Inserted<V>(entries: Entries<V>, i: nat)
    requires NoDuplicates(Names(entries)) && i < |entries|
    ensures entries[i].0 in InsertAll(map[], entries) && InsertAll(map[], entries)[entries[i].0] == entries[i].1
  {
    var n := |entries| - 1;
    if i < n {
      NamesOfPrefix(entries, n);
      DistinctPrefix(Names(entries), n);
      Inserted(entries[..n], i);
    }
  }

  lemma {:induction false} BestNames(entries: Entries<LocationConf>, locations: map<string, LocationConf>, req: Request)
    requires forall i :: 0 <= i < |entries| ==> entries[i].0 in locations && locations[entries[i].0] == entries[i].1
    ensures var e := Best(entries, EntryHit(req), EntryKey());
            && Best(Names(entries), NameHit(locations, req), NameKey(Weights(locations))) ==
                 (if e.Some? then Some(e.value.0) else None)
            && (e.Some? ==> e.value.0 in locations && locations[e.value.0] == e.value.1)
  {
    if entries != [] {
      BestNames(entries[1..], locations, req);
      assert Names(entries)[1..] == Names(entries[1..]);
    }
  }

  /** Resolving the compiled rules is choosing the best of the listed locations. */
  lemma ResolveIsBest(rules: Rules, req: Request)
    requires NoDuplicates(Names(Locations(rules)))
    ensures var c, e := Meaning(rules), Best(Locations(rules), EntryHit(req), EntryKey());
            && Resolve(c, req) == (if e.Some? then Some(e.value.0) else None)
            && (e.Some? ==> e.value.0 in c.locations && c.locations[e.value.0] == e.value.1)
  {
    var c, entries := Meaning(rules), Locations(rules);
    forall i | 0 <= i < |entries| ensures entries[i].0 in c.locations && c.locations[entries[i].0] == entries[i].1 {
      Inserted(entries, i);
    }
    BestNames(entries, c.locations, req);
    FirstMatchOfSorted(c.names, NameHit(c.locations, req), NameKey(Weights(c.locations)));
    assert c.names == Names(entries);
  }

  // ---- one site ----

  /** The request is for this site's hosts. */
  predicate Serves(site: Site, req: Request) {
    site.domain != "" && HostServed(Some(HostString(site)), req)
  }

  /** An enabled route with a pool, whose path and address ranges match. */
  predicate Eligible(id: string, site: Site, route: Route, req: Request) {
    Routed(id, site, route) && PathMatches(PathSelectorOf(RoutePath(route)), req) && InRanges(route.ipRanges, req)
  }

  function RouteWeight(site: Site, route: Route): nat {
    WeightOf(if route.priority.Some? then Some(Clamp(route.priority.value)) else None,
             RoutePath(route), Some(HostString(site)))
  }

  function RouteHit(id: string, site: Site, req: Request): Route -> bool {
    (r: Route) => Eligible(id, site, r, req)
  }

  function RouteKey(site: Site): Route -> int {
    (r: Route) => 0 - RouteWeight(site, r)
  }

  function EntryOf(id: string, site: Site, plugins: seq<Plugin>): Route -> Entry {
    (r: Route) =>
      var target := Target(id, site, r);
      (RouteName(id, r), RouteConf(site, r, if target.Some? then target.value else "", plugins))
  }

  lemma RouteEntryBest(id: string, site: Site, plugins: seq<Plugin>, route: Route, req: Request)
    requires Serves(site, req)
    ensures Best(RouteEntry(id, site, plugins, route), EntryHit(req), EntryKey()) ==
      if Eligible(id, site, route, req) then Some(EntryOf(id, site, plugins)(route)) else None
    ensures EntryKey()(EntryOf(id, site, plugins)(route)) == RouteKey(site)(route)
  {
    if Routed(id, site, route) {
      BestOfOne(EntryOf(id, site, plugins)(route), EntryHit(req), EntryKey());
    }
  }

  /** Of the locations made from routes, the best is the one made from the best route. */
  lemma RoutesBest(id: string, site: Site, plugins: seq<Plugin>, req: Request)
    requires Serves(site, req)
    ensures var r := Best(site.routes, RouteHit(id, site, req), RouteKey(site));
            && (r.Some? ==> Eligible(id, site, r.value, req))
            && Best(RouteEntries(id, site, plugins, site.routes), EntryHit(req), EntryKey()) ==
                 (if r.Some? then Some(EntryOf(id, site, plugins)(r.value)) else None)
  {
    forall r | r in site.routes
      ensures Best(RouteEntryOf(id, site, plugins)(r), EntryHit(req), EntryKey()) ==
        if RouteHit(id, site, req)(r) then Some(EntryOf(id, site, plugins)(r)) else None
      ensures EntryKey()(EntryOf(id, site, plugins)(r)) == RouteKey(site)(r)
    {
      RouteEntryBest(id, site, plugins, r, req);
    }
    BestOfFlatMap(site.routes, RouteEntryOf(id, site, plugins), EntryHit(req), EntryKey(),
                  EntryOf(id, site, plugins), RouteHit(id, site, req), RouteKey(site));
  }

  /** The site's `/` location answers. */
  predicate FallbackHit(id: string, site: Site, req: Request) {
    Fallback(id, site).Some? && "/" <= req.path
  }

  lemma SlashIsPrefix(req: Request)
    ensures PathSelectorOf("/") == Prefix("/")
  {
    assert !IsWhitespace('/');
    assert Trim("/") == "/";
  }

  lemma SiteBest(id: string, site: Site, cache: bool, req: Request)
    requires Serves(site, req)
    ensures var plugins := SitePlugins(id, site.extras, cache);
            var r := Best(site.routes, RouteHit(id, site, req), RouteKey(site));
            && (r.Some? ==> Eligible(id, site, r.value, req))
            && Best(SiteEntries(id, site, cache), EntryHit(req), EntryKey()) ==
                 if FallbackHit(id, site, req) && (r.None? || RouteWeight(site, r.value) == 0)
                   then Some((FallbackName(id), FallbackConf(site, Fallback(id, site).value, plugins)))
                 else if r.Some? then Some(EntryOf(id, site, plugins)(r.value))
                 else None
  {
    var plugins := SitePlugins(id, site.extras, cache);
    var first := FallbackEntry(id, site, plugins);
    RoutesBest(id, site, plugins, req);
    BestOfConcat(first, RouteEntries(id, site, plugins, site.routes), EntryHit(req), EntryKey());
    SlashIsPrefix(req);
    assert Best(first, EntryHit(req), EntryKey()) ==
      if FallbackHit(id, site, req) then Some(first[0]) else None by {
      if first != [] {
        BestOfOne(first[0], EntryHit(req), EntryKey());
      }
    }
  }

  // ---- all sites ----

  /** No two sites serve the request's host. */
  predicate Disjoint(rules: Rules, req: Request) {
    forall i, j :: 0 <= i < j < |rules.sites| ==>
      !(Serves(rules.sites[i].1, req) && Serves(rules.sites[j].1, req))
  }

  lemma {:induction false} RouteEntryHosts(id: string, site: Site, plugins: seq<Plugin>, routes: seq<Route>)
    ensures forall e :: e in RouteEntries(id, site, plugins, routes) ==> e.1.host == Some(HostString(site))
  {
    if routes != [] {
      RouteEntryHosts(id, site, plugins, routes[..|routes| - 1]);
    }
  }

  lemma OthersAreSilent(id: string, site: Site, cache: bool, req: Request)
    requires !Serves(site, req)
    ensures Best(SiteEntries(id, site, cache), EntryHit(req), EntryKey()) == None
  {
    var entries := SiteEntries(id, site, cache);
    if site.domain != "" {
      RouteEntryHosts(id, site, SitePlugins(id, site.extras, cache), site.routes);
      forall i | 0 <= i < |entries| ensures !EntryHit(req)(entries[i]) {
        assert entries[i] in entries;
        assert entries[i].1.host == Some(HostString(site));
      }
    }
    var i := BestIsBest(entries, EntryHit(req), EntryKey());
  }

  /** The best of all sites' locations is the best of the one site serving the host. */
  lemma SitesBest(sites: seq<(string, Site)>, cache: bool, req: Request, k: nat)
    requires k <= |sites|
    requires forall i :: 0 <= i < |sites| && i != k ==> !Serves(sites[i].1, req)
    ensures Best(AllSites(sites, cache), EntryHit(req), EntryKey()) ==
      if k < |sites| then Best(SiteEntries(sites[k].0, sites[k].1, cache), EntryHit(req), EntryKey()) else None
  {
    forall i | 0 <= i < |sites| && i != k
      ensures Best(SiteEntriesOf(cache)(sites[i]), EntryHit(req), EntryKey()) == None
    {
      OthersAreSilent(sites[i].0, sites[i].1, cache, req);
    }
    BestOfOnePiece(sites, SiteEntriesOf(cache), EntryHit(req), EntryKey(), k);
  }

  /** Some site asks for the unmatched-host page, and the path is rooted. */
  predicate UnmatchedHit(rules: Rules, req: Request) {
    (exists i :: 0 <= i < |rules.sites| && rules.sites[i].1.unmatchedPage) && "/" <= req.path
  }

  /** The unmatched-host location answers only when no site location does. */
  lemma UnmatchedIsLast(rules: Rules, req: Request)
    ensures var s := Best(AllSites(rules.sites, CacheOn(rules)), EntryHit(req), EntryKey());
            Best(Locations(rules), EntryHit(req), EntryKey()) ==
              if s.Some? then s
              else if UnmatchedHit(rules, req) then Some((UNMATCHED_HOST, UnmatchedConf()))
              else None
  {
    var last := UnmatchedEntry(rules);
    BestOfConcat(AllSites(rules.sites, CacheOn(rules)), last, EntryHit(req), EntryKey());
    SlashIsPrefix(req);
    NoHostServesAll(req);
    if last != [] {
      BestOfOne(last[0], EntryHit(req), EntryKey());
    }
  }

  lemma NoHostServesAll(req: Request)
    ensures HostServed(None, req)
  {
    assert SplitOn("", ',') == [""];
    assert HostSelectorsOf([""]) == HostSelectorsOf([""][1..]);
  }

  // ---- routing is preserved ----

  /**
   The answer for a host one site serves: the route of greatest weight, the first
   of equals, whenever that weight is positive or the fallback cannot answer.
   */
  lemma RouteWins(rules: Rules, req: Request, k: nat, i: nat)
    requires NoDuplicates(Names(Locations(rules))) && Disjoint(rules, req)
    requires k < |rules.sites| && Serves(rules.sites[k].1, req)
    requires var (id, site) := rules.sites[k]; IsBest(site.routes, RouteHit(id, site, req), RouteKey(site), i)
    ensures var (id, site) := rules.sites[k];
            var c := Meaning(rules);
            var route := site.routes[i];
            if RouteWeight(site, route) > 0 || !FallbackHit(id, site, req) then
              && Resolve(c, req) == Some(RouteName(id, route))
              && RouteName(id, route) in c.locations
              && c.locations[RouteName(id, route)].upstream == Target(id, site, route)
              && c.locations[RouteName(id, route)].plugins == SitePlugins(id, site.extras, CacheOn(rules))
            else Resolve(c, req) == Some(FallbackName(id))
  {
    var id, site := rules.sites[k].0, rules.sites[k].1;
    ResolveIsBest(rules, req);
    UnmatchedIsLast(rules, req);
    SitesBest(rules.sites, CacheOn(rules), req, k);
    SiteBest(id, site, CacheOn(rules), req);
    var j := BestIsBest(site.routes, RouteHit(id, site, req), RouteKey(site));
    BestIsUnique(site.routes, RouteHit(id, site, req), RouteKey(site), i, j);
  }

  /** With no eligible route, the site's fallback answers every path below the root. */
  lemma FallbackWins(rules: Rules, req: Request, k: nat)
    requires NoDuplicates(Names(Locations(rules))) && Disjoint(rules, req)
    requires k < |rules.sites| && Serves(rules.sites[k].1, req)
    requires var (id, site) := rules.sites[k];
             NoMatch(site.routes, RouteHit(id, site, req)) && FallbackHit(id, site, req)
    ensures var (id, site) := rules.sites[k];
            var c := Meaning(rules);
            && Resolve(c, req) == Some(FallbackName(id))
            && FallbackName(id) in c.locations
            && c.locations[FallbackName(id)].upstream == Fallback(id, site)
            && c.locations[FallbackName(id)].plugins == SitePlugins(id, site.extras, CacheOn(rules))
  {
    var id, site := rules.sites[k].0, rules.sites[k].1;
    ResolveIsBest(rules, req);
    UnmatchedIsLast(rules, req);
    SitesBest(rules.sites, CacheOn(rules), req, k);
    SiteBest(id, site, CacheOn(rules), req);
    var j := BestIsBest(site.routes, RouteHit(id, site, req), RouteKey(site));
  }

  /** Some location of some site answers. */
  predicate SiteAnswers(rules: Rules, req: Request) {
    var entries := AllSites(rules.sites, CacheOn(rules));
    exists i :: 0 <= i < |entries| && Hit(entries[i].1, req)
  }

  lemma SiteAnswersIff(rules: Rules, req: Request)
    ensures SiteAnswers(rules, req) <==> Best(AllSites(rules.sites, CacheOn(rules)), EntryHit(req), EntryKey()).Some?
  {
    var entries := AllSites(rules.sites, CacheOn(rules));
    var i := BestIsBest(entries, EntryHit(req), EntryKey());
    assert forall j :: 0 <= j < |entries| ==> (EntryHit(req)(entries[j]) <==> Hit(entries[j].1, req));
  }

  lemma SiteNameIsOther(rules: Rules, e: Entry)
    requires NoDuplicates(Names(Locations(rules))) && AnyUnmatchedPage(rules)
    requires e in AllSites(rules.sites, CacheOn(rules))
    ensures e.0 != UNMATCHED_HOST
  {
    var entries, all := AllSites(rules.sites, CacheOn(rules)), Names(Locations(rules));
    var i :| 0 <= i < |entries| && entries[i] == e;
    assert all[i] == e.0 && all[|entries|] == UNMATCHED_HOST;
  }

  /** The unmatched-host page answers exactly when it exists, the path is rooted and no site location answers. */
  lemma UnmatchedPageIff(rules: Rules, req: Request)
    requires NoDuplicates(Names(Locations(rules)))
    ensures var c := Meaning(rules);
            && (Resolve(c, req) == Some(UNMATCHED_HOST) && AnyUnmatchedPage(rules) <==>
                  UnmatchedHit(rules, req) && !SiteAnswers(rules, req))
            && (Resolve(c, req) == None <==> !UnmatchedHit(rules, req) && !SiteAnswers(rules, req))
  {
    ResolveIsBest(rules, req);
    UnmatchedIsLast(rules, req);
    SiteAnswersIff(rules, req);
    if SiteAnswers(rules, req) && AnyUnmatchedPage(rules) {
      var entries := AllSites(rules.sites, CacheOn(rules));
      var i := BestIsBest(entries, EntryHit(req), EntryKey());
      SiteNameIsOther(rules, entries[i]);
    }
  }
}
