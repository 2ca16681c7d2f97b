/**
 The per-server routing tables: names sorted by descending weight with their
 host index, and the lookup of a request through that index.
 */
module ServerLocations {
  import opened Prelude
  import Text
  import opened LocationMatch
  import opened SiteRules
  import opened SiteRouting
  import opened StableSort
  import opened HostIndex

  datatype ServerRoute = ServerRoute(ordered: seq<string>, index: Index)

  /** The host selectors of the named locations, absent where a name has no location. */
  function TableOf(names: seq<string>, locations: map<string, LocationConf>): Table {
    seq(|names|, i requires 0 <= i < |names| => HostsNamed(names[i], locations))
  }

  function HostsNamed(name: string, locations: map<string, LocationConf>): Option<seq<HostSelector>> {
    if name in locations && HostsOf(locations[name].host).Ok? then Some(HostsOf(locations[name].host).value) else None
  }

  /** What a match needs besides the host. */
  function RestOf(names: seq<string>, locations: map<string, LocationConf>, req: Request): nat -> bool {
    (i: nat) =>
      && i < |names| && names[i] in locations
      && PathMatches(PathSelectorOf(locations[names[i]].path), req)
      && InRanges(locations[names[i]].ipRanges, req)
  }

  /** The index of a route covers its names. */
  ghost predicate Covers(route: ServerRoute, locations: map<string, LocationConf>) {
    Indexes(route.index, TableOf(route.ordered, locations), |route.ordered|)
  }

  // ---- loading ----

  method WeighLocations(locations: map<string, LocationConf>) returns (weights: map<string, nat>)
    ensures weights == Weights(locations)
  {
    weights := map[];
    var left := locations.Keys;
    while left != {}
      invariant left <= locations.Keys
      invariant weights == map n | n in locations && n !in left :: ConfWeight(locations[n])
    {
      var name :| name in left;
      weights := weights[name := ConfWeight(locations[name])];
      left := left - {name};
    }
  }

  /** A server's list in routing order. */
  function InOrder(items: seq<string>, locations: map<string, LocationConf>): seq<string> {
    SortByKey(items, NameKey(Weights(locations)))
  }

  class Provider {
    var stored: map<string, ServerRoute>

    constructor ()
      ensures stored == map[]
    {
      stored := map[];
    }

    /** Rebuilds every table and reports the servers whose order changed. */
    method TryInit(servers: map<string, Option<seq<string>>>, locations: map<string, LocationConf>)
      returns (updated: seq<string>)
      modifies this
      ensures forall name :: name in stored <==> name in servers && servers[name].Some?
      ensures forall name :: name in stored ==>
        stored[name].ordered == InOrder(servers[name].value, locations) && Covers(stored[name], locations)
      ensures forall name :: name in updated <==>
        name in stored && (name !in old(stored) || old(stored)[name].ordered != stored[name].ordered)
    {
      var weights := WeighLocations(locations);
      var routes: map<string, ServerRoute> := map[];
      updated := [];
      var left := servers.Keys;
      while left != {}
        invariant left <= servers.Keys && stored == old(stored)
        invariant forall name :: name in routes <==> name in servers && name !in left && servers[name].Some?
        invariant forall name :: name in routes ==>
          routes[name].ordered == InOrder(servers[name].value, locations) && Covers(routes[name], locations)
        invariant forall name :: name in updated <==>
          name in routes && (name !in stored || stored[name].ordered != routes[name].ordered)
      {
        var name :| name in left;
        left := left - {name};
        if servers[name].Some? {
          var items := SortByKey(servers[name].value, NameKey(weights));
          if name !in stored || stored[name].ordered != items {
            updated := updated + [name];
          }
          var index := Build(TableOf(items, locations));
          routes := routes[name := ServerRoute(items, index)];
        }
      }
      stored := routes;
    }
  }

  // ---- lookup ----

  lemma AnswersIsHit(names: seq<string>, locations: map<string, LocationConf>, req: Request, i: nat)
    requires i < |names|
    ensures Answers(TableOf(names, locations), req, RestOf(names, locations, req), i) <==>
      NameHit(locations, req)(names[i])
  {
  }

  lemma TableIsLowered(names: seq<string>, locations: map<string, LocationConf>)
    ensures Lowered(TableOf(names, locations))
  {
    var table := TableOf(names, locations);
    forall k | 0 <= k < |table| && table[k].Some? ensures LoweredHosts(table[k].value) {
      var host := locations[names[k]].host;
      HostsAreLowered(Text.SplitOn(if host.Some? then host.value else "", ','));
    }
  }

  /** The linear scan is the first match of the ordered names. */
  lemma {:induction false} ScanIsFirstMatch(names: seq<string>, locations: map<string, LocationConf>, req: Request,
                                            i: nat)
    requires i <= |names|
    ensures var r := FirstFrom(TableOf(names, locations), req, RestOf(names, locations, req), i);
            && (r.Some? ==> r.value < |names|)
            && FirstMatch(names[i..], NameHit(locations, req)) == (if r.Some? then Some(names[r.value]) else None)
    decreases |names| - i
  {
    if i < |names| {
      AnswersIsHit(names, locations, req, i);
      ScanIsFirstMatch(names, locations, req, i + 1);
      assert names[i..][1..] == names[i + 1..] && names[i..][0] == names[i];
    }
  }

  lemma LookupEqualsFirstMatch(route: ServerRoute, locations: map<string, LocationConf>, req: Request,
                               candidates: seq<nat>)
    requires Covers(route, locations) && |route.ordered| <= U16
    requires Ascending(candidates) && forall v :: v in candidates <==> IsCandidate(route.index, req, v)
    ensures var r := ScanCandidates(TableOf(route.ordered, locations), req, RestOf(route.ordered, locations, req),
        candidates);
            && (r.Some? ==> r.value < |route.ordered|)
            && FirstMatch(route.ordered, NameHit(locations, req)) == (if r.Some?
                then Some(route.ordered[r.value]) else None)
  {
    TableIsLowered(route.ordered, locations);
    IndexedEqualsLinear(TableOf(route.ordered, locations), route.index, req, RestOf(route.ordered, locations, req),
        candidates);
    ScanIsFirstMatch(route.ordered, locations, req, 0);
    assert route.ordered[0..] == route.ordered;
  }

  /** The location that answers a request, found through the host index. */
  method FindLocation(route: ServerRoute, locations: map<string, LocationConf>,
                      req: Request) returns (r: Option<string>)
    requires Covers(route, locations)
    ensures |route.ordered| <= U16 ==> r == FirstMatch(route.ordered, NameHit(locations, req))
    ensures r.Some? ==> r.value in route.ordered && NameHit(locations, req)(r.value)
  {
    var candidates := CandidateIndices(route.index, req);
    ghost var table, rest := TableOf(route.ordered, locations), RestOf(route.ordered, locations, req);
    ghost var whole := ScanCandidates(table, req, rest, candidates);
    if |route.ordered| <= U16 {
      LookupEqualsFirstMatch(route, locations, req, candidates);
    }
    r := None;
    for i := 0 to |candidates|
      invariant ScanCandidates(table, req, rest, candidates[i..]) == whole
    {
      var idx := candidates[i];
      assert candidates[i..][0] == idx && candidates[i..][1..] == candidates[i + 1..];
      if idx < |route.ordered| {
        AnswersIsHit(route.ordered, locations, req, idx);
        var name := route.ordered[idx];
        if name in locations && Hit(locations[name], req) {
          return Some(name);
        }
      }
    }
  }

  /** From site rules to the answer: sorting, indexing and scanning resolve as the rules say. */
  method RouteRequest(rules: Rules, req: Request) returns (c: Compiled, r: Option<string>)
    ensures c == Meaning(rules)
    ensures |c.names| <= U16 ==> r == Resolve(c, req)
  {
    c := Compile(rules);
    var ordered := SortByKey(c.names, NameKey(Weights(c.locations)));
    var index := Build(TableOf(ordered, c.locations));
    SortByKeySorts(c.names, NameKey(Weights(c.locations)));
    r := FindLocation(ServerRoute(ordered, index), c.locations, req);
  }
}
