/**
 What the rules mean a request to reach, read off the sites, pools and routes
 alone, and that the compiled, sorted and scanned locations reach it.

 No definition of what is meant mentions the compiler.
 */
module RoutingIntent {
  import opened Prelude
  import opened Text
  import opened StableSort
  import opened LocationMatch
  import opened SiteRules
  import opened SiteRouting
  import opened RoutingFacts

  // ---- the pool that is meant ----

  predicate Usable(site: Site, j: nat) {
    j < |site.pools| && site.pools[j].peers > 0
  }

  predicate UsableDefault(site: Site, j: nat) {
    Usable(site, j) && site.pools[j].isDefault
  }

  /** A pool goes by its own id, or without one by the name generated for its position. */
  predicate GoesBy(id: string, site: Site, j: nat, name: string) {
    && j < |site.pools|
    && name == if site.pools[j].id != "" then site.pools[j].id
               else if |site.pools| == 1 then id + "_upstream"
               else id + "_upstream_" + Decimal(j)
  }

  /** The first of the first `n` pools that has peers. */
  function FirstUsable(site: Site, n: nat): (r: Option<nat>)
    requires n <= |site.pools|
    ensures r.None? ==> forall j :: 0 <= j < n ==> !Usable(site, j)
    ensures r.Some? ==> r.value < n && Usable(site, r.value) && forall j :: 0 <= j < r.value ==> !Usable(site, j)
  {
    if n == 0 then None
    else
      var earlier := FirstUsable(site, n - 1);
      if earlier.Some? then earlier else if Usable(site, n - 1) then Some(n - 1) else None
  }

  /** The last of the first `n` pools that has peers and is marked default. */
  function LastDefault(site: Site, n: nat): (r: Option<nat>)
    requires n <= |site.pools|
    ensures r.None? ==> forall j :: 0 <= j < n ==> !UsableDefault(site, j)
    ensures r.Some? ==>
      r.value < n && UsableDefault(site, r.value) && forall j :: r.value < j < n ==> !UsableDefault(site, j)
  {
    if n == 0 then None
    else if UsableDefault(site, n - 1) then Some(n - 1)
    else LastDefault(site, n - 1)
  }

  /** A pool among the first `n` that has peers and goes by `name`. */
  function PoolCalled(id: string, site: Site, name: string, n: nat): (r: Option<nat>)
    requires n <= |site.pools|
    ensures r.None? ==> forall j :: 0 <= j < n && Usable(site, j) ==> !GoesBy(id, site, j, name)
    ensures r.Some? ==> r.value < n && Usable(site, r.value) && GoesBy(id, site, r.value, name)
  {
    if n == 0 then None
    else if Usable(site, n - 1) && GoesBy(id, site, n - 1, name) then Some(n - 1)
    else PoolCalled(id, site, name, n - 1)
  }

  /** A route means the pool it names if that has peers, else the last default with peers, else the first. */
  function RoutePool(id: string, site: Site, route: Route): Option<nat> {
    var n := |site.pools|;
    if PoolCalled(id, site, route.poolId, n).Some? then PoolCalled(id, site, route.poolId, n)
    else if LastDefault(site, n).Some? then LastDefault(site, n)
    else FirstUsable(site, n)
  }

  /** Outside its routes a site means its last default with peers; a site without routes, else its first pool. */
  function FallbackPool(site: Site): Option<nat> {
    var n := |site.pools|;
    if LastDefault(site, n).Some? then LastDefault(site, n)
    else if site.routes == [] then FirstUsable(site, n)
    else None
  }

  /** The name of a pool, where there is one. */
  function NameOf(id: string, site: Site, j: Option<nat>): Option<string>
    requires j.Some? ==> j.value < |site.pools|
  {
    if j.Some? then Some(PoolName(id, site, j.value)) else None
  }

  lemma {:induction false} FirstKeyIs(id: string, site: Site, n: nat)
    requires n <= |site.pools|
    ensures var entries := PoolEntries(id, site, n);
            NameOf(id, site, FirstUsable(site, n)) == if entries == [] then None else Some(entries[0].0)
  {
    if n > 0 {
      FirstKeyIs(id, site, n - 1);
    }
  }

  lemma {:induction false} DefaultKeyIs(id: string, site: Site, n: nat)
    requires n <= |site.pools|
    ensures DefaultKey(id, site, n) == NameOf(id, site, LastDefault(site, n))
  {
    if n > 0 {
      DefaultKeyIs(id, site, n - 1);
    }
  }

  lemma {:induction false} KeyIff(id: string, site: Site, name: string, n: nat)
    requires n <= |site.pools|
    ensures name in Names(PoolEntries(id, site, n)) <==> PoolCalled(id, site, name, n).Some?
  {
    if n > 0 {
      KeyIff(id, site, name, n - 1);
      if site.pools[n - 1].peers > 0 {
        NamesConcat(PoolEntries(id, site, n - 1), [(PoolName(id, site, n - 1), Origin(id, n - 1))]);
      }
    }
  }

  /** The compiler's target of a route and its fallback of a site are the pools that are meant. */
  lemma CompiledTargets(id: string, site: Site, route: Route)
    ensures Target(id, site, route) == NameOf(id, site, RoutePool(id, site, route))
    ensures Fallback(id, site) == NameOf(id, site, FallbackPool(site))
  {
    var n := |site.pools|;
    FirstKeyIs(id, site, n);
    DefaultKeyIs(id, site, n);
    KeyIff(id, site, route.poolId, n);
  }

  predicate NoneCalled(id: string, site: Site, name: string) {
    forall j :: 0 <= j < |site.pools| && Usable(site, j) ==> !GoesBy(id, site, j, name)
  }

  predicate IsLastDefault(site: Site, j: nat) {
    UsableDefault(site, j) && forall i :: j < i < |site.pools| ==> !UsableDefault(site, i)
  }

  predicate IsFirstWithoutDefault(site: Site, j: nat) {
    && Usable(site, j) && (forall i :: 0 <= i < j ==> !Usable(site, i))
    && (forall i :: 0 <= i < |site.pools| ==> !UsableDefault(site, i))
  }

  lemma LastDefaultIs(site: Site, j: nat)
    requires IsLastDefault(site, j)
    ensures LastDefault(site, |site.pools|) == Some(j)
  {
  }

  lemma FirstUsableIs(site: Site, j: nat)
    requires IsFirstWithoutDefault(site, j)
    ensures LastDefault(site, |site.pools|) == None && FirstUsable(site, |site.pools|) == Some(j)
  {
  }

  /**
   In the terms of the rules: a route that names a pool by its id gets that pool whatever else is marked
   default; a route no pool with peers answers to gets the last default, and without one the first pool;
   so does what matches no route, except that a site with routes and no default has no fallback.
   */
  lemma TargetIs(id: string, site: Site, route: Route, j: nat)
    requires Usable(site, j)
    ensures site.pools[j].id == route.poolId != "" ==> Target(id, site, route) == Some(route.poolId)
    ensures NoneCalled(id, site, route.poolId) && (IsLastDefault(site, j) || IsFirstWithoutDefault(site, j)) ==>
      Target(id, site, route) == Some(PoolName(id, site, j))
    ensures IsLastDefault(site, j) ==> Fallback(id, site) == Some(PoolName(id, site, j))
    ensures IsFirstWithoutDefault(site, j) ==>
      Fallback(id, site) == if site.routes == [] then Some(PoolName(id, site, j)) else None
  {
    CompiledTargets(id, site, route);
    if site.pools[j].id == route.poolId != "" {
      assert GoesBy(id, site, j, route.poolId);
    }
    if IsLastDefault(site, j) {
      LastDefaultIs(site, j);
    }
    if IsFirstWithoutDefault(site, j) {
      FirstUsableIs(site, j);
    }
  }

  // ---- the route that is meant ----

  /** What the route asks for, before any compilation. */
  predicate Wanted(site: Site, route: Route, req: Request) {
    && route.enabled && (exists j :: 0 <= j < |site.pools| && Usable(site, j))
    && PathMatches(Meant(route), req) && (route.ipRanges == [] || req.inRanges(route.ipRanges))
  }

  function WantedBy(site: Site, req: Request): Route -> bool {
    (r: Route) => Wanted(site, r, req)
  }

  /** A stated priority, brought into 1..65535. */
  function Rank(route: Route): int {
    if route.priority.None? then 0
    else if route.priority.value < 1 then 1
    else if route.priority.value > 65535 then 65535
    else route.priority.value
  }

  /** Higher priority first. */
  function PriorityKey(): Route -> int {
    (r: Route) => 0 - Rank(r)
  }

  /** Stated priority and a path that keeps its meaning. */
  predicate Explicit(route: Route) {
    route.priority.Some? && PlainPath(route)
  }

  lemma TargetIffUsable(id: string, site: Site, route: Route)
    ensures Target(id, site, route).Some? <==> exists j :: 0 <= j < |site.pools| && Usable(site, j)
  {
    CompiledTargets(id, site, route);
  }

  lemma ExplicitRoute(id: string, site: Site, route: Route, req: Request)
    requires Explicit(route) && site.domain != ""
    ensures RouteHit(id, site, req)(route) == WantedBy(site, req)(route)
    ensures RouteKey(site)(route) == PriorityKey()(route)
    ensures RouteWeight(site, route) > 0
  {
    SelectorsEqualIff(route);
    RouteWeightZeroIff(site, route);
    TargetIffUsable(id, site, route);
  }

  /** The pool a site means for a request: its best wanted route's, else the fallback's for a rooted path. */
  function SitePool(id: string, site: Site, req: Request): Option<nat> {
    var route := Best(site.routes, WantedBy(site, req), PriorityKey());
    if route.Some? then RoutePool(id, site, route.value)
    else if "/" <= req.path then FallbackPool(site)
    else None
  }

  function ServingFrom(sites: seq<(string, Site)>, req: Request, i: nat): (r: Option<nat>)
    requires i <= |sites|
    ensures r.None? ==> forall j :: i <= j < |sites| ==> !Serves(sites[j].1, req)
    ensures r.Some? ==> i <= r.value < |sites| && Serves(sites[r.value].1, req)
    decreases |sites| - i
  {
    if i == |sites| then None
    else if Serves(sites[i].1, req) then Some(i)
    else ServingFrom(sites, req, i + 1)
  }

  /** The site that serves the request's host, if any. */
  function ServingSite(sites: seq<(string, Site)>, req: Request): Option<nat> {
    ServingFrom(sites, req, 0)
  }

  /** What the rules mean a request to reach: a pool of the site that serves its host. */
  function IntendedPool(rules: Rules, req: Request): Option<Origin> {
    var k := ServingSite(rules.sites, req);
    if k.None? then None
    else
      var (id, site) := rules.sites[k.value];
      var pool := SitePool(id, site, req);
      if pool.Some? then Some(Origin(id, pool.value)) else None
  }

  /** What the compiled configuration reaches: the pool behind the upstream of the location that answers. */
  function ReachedPool(c: Compiled, req: Request): Option<Origin> {
    var name := Resolve(c, req);
    if name.Some? && name.value in c.locations
    then
      var upstream := c.locations[name.value].upstream;
      if upstream.Some? && upstream.value in c.upstreams then Some(c.upstreams[upstream.value]) else None
    else None
  }

  lemma BestWanted(id: string, site: Site, req: Request)
    requires site.domain != "" && forall r :: r in site.routes ==> Explicit(r)
    ensures var best := Best(site.routes, RouteHit(id, site, req), RouteKey(site));
            && best == Best(site.routes, WantedBy(site, req), PriorityKey())
            && (best.Some? ==> Wanted(site, best.value, req) && RouteWeight(site, best.value) > 0)
  {
    forall r | r in site.routes
      ensures RouteHit(id, site, req)(r) == WantedBy(site, req)(r)
      ensures RouteKey(site)(r) == PriorityKey()(r) && RouteWeight(site, r) > 0
    {
      ExplicitRoute(id, site, r, req);
    }
    BestAgrees(site.routes, RouteHit(id, site, req), RouteKey(site), WantedBy(site, req), PriorityKey());
    var i := BestIsBest(site.routes, WantedBy(site, req), PriorityKey());
  }

  /** The best location of the serving site has the pool the site means, or there is none. */
  lemma SiteReaches(id: string, site: Site, cache: bool, req: Request)
    requires Serves(site, req) && forall r :: r in site.routes ==> Explicit(r)
    ensures var best := Best(SiteEntries(id, site, cache), EntryHit(req), EntryKey());
            && (if best.Some? then best.value.1.upstream else None) == NameOf(id, site, SitePool(id, site, req))
            && (best.None? <==> SitePool(id, site, req).None?)
  {
    SiteBest(id, site, cache, req);
    BestWanted(id, site, req);
    var route := Best(site.routes, WantedBy(site, req), PriorityKey());
    CompiledTargets(id, site, if route.Some? then route.value else Route("", false, "", ByPrefix, "", None, []));
    if route.Some? {
      TargetIffUsable(id, site, route.value);
    }
  }

  lemma SitePoolIsUsable(id: string, site: Site, req: Request)
    ensures SitePool(id, site, req).Some? ==> Usable(site, SitePool(id, site, req).value)
  {
  }

  lemma {:induction false} PoolIsListed(id: string, site: Site, j: nat, n: nat)
    requires Usable(site, j) && j < n <= |site.pools|
    ensures (PoolName(id, site, j), Origin(id, j)) in PoolEntries(id, site, n)
  {
    if j < n - 1 {
      PoolIsListed(id, site, j, n - 1);
    }
  }

  /** With distinct upstream names, the upstream of a pool with peers leads to that pool. */
  lemma UpstreamIsPool(rules: Rules, k: nat, j: nat)
    requires NoDuplicates(Names(AllPools(rules.sites)))
    requires k < |rules.sites| && rules.sites[k].1.domain != "" && Usable(rules.sites[k].1, j)
    ensures var (id, site) := rules.sites[k];
            var u := Meaning(rules).upstreams;
            PoolName(id, site, j) in u && u[PoolName(id, site, j)] == Origin(id, j)
  {
    var (id, site) := rules.sites[k];
    var e := (PoolName(id, site, j), Origin(id, j));
    PoolIsListed(id, site, j, |site.pools|);
    PoolsAreListed(rules.sites, k, e);
    var i :| 0 <= i < |AllPools(rules.sites)| && AllPools(rules.sites)[i] == e;
    Inserted(AllPools(rules.sites), i);
  }

  lemma DisjointMeansOthersSilent(rules: Rules, req: Request, k: nat)
    requires Disjoint(rules, req) && k < |rules.sites| && Serves(rules.sites[k].1, req)
    ensures forall i :: 0 <= i < |rules.sites| && i != k ==> !Serves(rules.sites[i].1, req)
  {
  }

  /**
   Routing means what the rules say, for every request: the compiled, sorted list reaches the very pool
   the rules mean - that of the wanted route of highest priority, the first listed among equals, else
   the site's fallback; where the rules mean no pool, the unmatched-host page answers rooted paths if
   there is one, and nothing else does.
   */
  lemma RoutingPreserved(rules: Rules, req: Request)
    requires NoDuplicates(Names(Locations(rules))) && NoDuplicates(Names(AllPools(rules.sites))) && Disjoint(rules, req)
    requires forall k, r ::
      0 <= k < |rules.sites| && Serves(rules.sites[k].1, req) && r in rules.sites[k].1.routes ==> Explicit(r)
    ensures ReachedPool(Meaning(rules), req) == IntendedPool(rules, req)
    ensures IntendedPool(rules, req).None? ==>
      Resolve(Meaning(rules), req) == if UnmatchedHit(rules, req) then Some(UNMATCHED_HOST) else None
  {
    var k, cache := ServingSite(rules.sites, req), CacheOn(rules);
    ResolveIsBest(rules, req);
    UnmatchedIsLast(rules, req);
    if k.None? {
      SitesBest(rules.sites, cache, req, |rules.sites|);
    } else {
      var id, site := rules.sites[k.value].0, rules.sites[k.value].1;
      DisjointMeansOthersSilent(rules, req, k.value);
      SitesBest(rules.sites, cache, req, k.value);
      SiteReaches(id, site, cache, req);
      SitePoolIsUsable(id, site, req);
      if SitePool(id, site, req).Some? {
        UpstreamIsPool(rules, k.value, SitePool(id, site, req).value);
      }
    }
  }
}
