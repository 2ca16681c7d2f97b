/**
 What host patterns and computed weights mean, apart from how they are parsed:
 which hosts a pattern covers, which hosts a site's names cover together, and
 how locations without a stated weight rank.
 */
module HostPatterns {
  import opened Prelude
  import opened Text
  import opened LocationMatch
  import opened SiteRules
  import opened SiteRouting
  import opened RoutingFacts

  // ---- one pattern ----

  /** The host is one or more labels, a dot and the domain, letters compared without case. */
  predicate IsSubdomain(host: string, domain: string) {
    exists cut :: 0 < cut < |host| && host[cut] == '.' && Lower(host[cut + 1..]) == Lower(domain)
  }

  lemma SuffixIff(host: string, domain: string)
    ensures HostMatchesSuffix(host, domain) <==> IsSubdomain(host, domain)
  {
    if cut :| 0 < cut < |host| && host[cut] == '.' && Lower(host[cut + 1..]) == Lower(domain) {
      assert |host| - cut - 1 == |Lower(host[cut + 1..])| == |domain|;
    }
  }

  lemma LowerTwice(s: string)
    ensures Lower(Lower(s)) == Lower(s)
  {
  }

  /** The request's host is one this pattern names; a pattern that does not parse names none. */
  predicate Covers(pattern: string, req: Request) {
    HostSelectorOf(pattern).Ok? && SelectorMatches(HostSelectorOf(pattern).value, req)
  }

  /** A plain name covers itself, letters compared without case. */
  lemma PlainCoversIff(name: string, req: Request)
    requires Trim(name) == name && (name == "" || name[0] != '~') && !("*." <= name)
    ensures Covers(name, req) <==> Lower(req.host) == Lower(name)
  {
    LowerTwice(name);
  }

  /** A wildcard over a plain domain covers its proper subdomains, not the domain; over anything else, nothing. */
  lemma WildcardCoversIff(domain: string, req: Request)
    requires Trim(domain) == domain
    ensures Covers("*." + domain, req) <==> domain != "" && '*' !in domain && IsSubdomain(req.host, domain)
  {
    WildcardParses(domain);
    ParsedCovers("*." + domain, domain, req);
  }

  lemma ParsedCovers(pattern: string, domain: string, req: Request)
    requires HostSelectorOf(pattern) ==
             if domain == "" || '*' in domain then Err else Ok(HostSuffix(Lower(domain)))
    ensures Covers(pattern, req) <==> domain != "" && '*' !in domain && IsSubdomain(req.host, domain)
  {
    LoweredSuffix(req.host, domain);
    SuffixIff(req.host, domain);
  }

  lemma LoweredSuffix(host: string, domain: string)
    ensures HostMatchesSuffix(host, Lower(domain)) <==> HostMatchesSuffix(host, domain)
  {
    LowerTwice(domain);
  }

  lemma WildcardParses(domain: string)
    requires Trim(domain) == domain
    ensures HostSelectorOf("*." + domain) ==
      if domain == "" || '*' in domain then Err else Ok(HostSuffix(Lower(domain)))
  {
    var h := "*." + domain;
    TrimMarked("*.", domain);
    assert h[2..] == domain && "*." <= h && h[0] == '*';
  }

  lemma RegexCoversIff(pattern: string, req: Request)
    requires Trim(pattern) == pattern
    ensures Covers("~" + pattern, req) <==> req.regex(pattern, req.host)
  {
    TrimMarked("~", pattern);
    assert ("~" + pattern)[1..] == pattern;
  }

  lemma TrimMarked(mark: string, s: string)
    requires mark == "~" || mark == "*."
    requires Trim(s) == s
    ensures Trim(mark + s) == mark + s
  {
    TrimEndAfter('.', s);
    TrimEndAfter('*', "." + s);
    TrimEndAfter('~', s);
    assert "*." + s == ['*'] + ("." + s);
    assert "." + s == ['.'] + s && "~" + s == ['~'] + s;
    TrimBothEnds(s);
  }

  // ---- the names of a site ----

  predicate Blank(s: string) {
    Trim(s) == ""
  }

  function SiteNames(site: Site): seq<string> {
    [site.domain] + site.alternates
  }

  predicate AllParse(names: seq<string>) {
    forall n :: n in names && !Blank(n) ==> HostSelectorOf(n).Ok?
  }

  predicate AllBlank(names: seq<string>) {
    forall n :: n in names ==> Blank(n)
  }

  predicate SomeCovers(names: seq<string>, req: Request) {
    exists n :: n in names && !Blank(n) && Covers(n, req)
  }

  /** Every name that is not blank parses, and one of them covers the host, or all are blank. */
  predicate NamesCover(names: seq<string>, req: Request) {
    AllParse(names) && (AllBlank(names) || SomeCovers(names, req))
  }

  lemma OneMoreName(name: string, rest: seq<string>, req: Request)
    ensures AllParse([name] + rest) <==> (!Blank(name) ==> HostSelectorOf(name).Ok?) && AllParse(rest)
    ensures AllBlank([name] + rest) <==> Blank(name) && AllBlank(rest)
    ensures SomeCovers([name] + rest, req) <==> (!Blank(name) && Covers(name, req)) || SomeCovers(rest, req)
  {
    assert forall n :: n in [name] + rest <==> n == name || n in rest;
  }

  lemma OneMoreSelector(first: HostSelector, rest: seq<HostSelector>, req: Request)
    ensures SomeMatches([first] + rest, req) <==> SelectorMatches(first, req) || SomeMatches(rest, req)
  {
    assert forall x :: x in [first] + rest <==> x == first || x in rest;
  }

  predicate SomeMatches(selectors: seq<HostSelector>, req: Request) {
    exists x :: x in selectors && SelectorMatches(x, req)
  }

  lemma {:induction false} SelectorsCover(names: seq<string>, req: Request)
    ensures var r := HostSelectorsOf(names);
            && (r.Ok? <==> AllParse(names))
            && (r.Ok? ==> (r.value == [] <==> AllBlank(names)))
            && (r.Ok? ==> (SomeMatches(r.value, req) <==> SomeCovers(names, req)))
  {
    if names != [] {
      var name, rest := names[0], HostSelectorsOf(names[1..]);
      SelectorsCover(names[1..], req);
      TrimTwice(name);
      assert names == [name] + names[1..];
      OneMoreName(name, names[1..], req);
      var first := HostSelectorOf(name);
      assert HostSelectorOf(Trim(name)) == first;
      if first.Ok? && rest.Ok? {
        OneMoreSelector(first.value, rest.value, req);
      }
    }
  }

  /** A site serves exactly the hosts its domain and alternate domains cover. */
  lemma ServesIff(site: Site, req: Request)
    requires forall i :: 0 <= i < |SiteNames(site)| ==> !Has(SiteNames(site)[i], ',')
    ensures Serves(site, req) <==> site.domain != "" && NamesCover(SiteNames(site), req)
  {
    SplitUndoesJoin(SiteNames(site), ',');
    SelectorsCover(SiteNames(site), req);
  }

  // ---- computed weights ----

  /**
   Without stated priorities, on a site without regex hosts: an exact path outranks a prefix, a prefix
   outranks a regex, and of two alike the longer outranks the shorter, up to 64 characters.
   */
  lemma AutoWeightsRank(site: Site, a: Route, b: Route)
    requires site.domain != "" && !HasRegexHost(HostString(site))
    requires a.priority.None? && b.priority.None? && PlainPath(a) && PlainPath(b) && |a.path| > 1 && |b.path| > 1
    ensures a.matchType.Exactly? && !b.matchType.Exactly? ==> RouteWeight(site, a) > RouteWeight(site, b)
    ensures a.matchType.ByPrefix? && b.matchType.ByRegex? ==> RouteWeight(site, a) > RouteWeight(site, b)
    ensures a.matchType == b.matchType && |b.path| < |a.path| < 64 ==> RouteWeight(site, a) > RouteWeight(site, b)
  {
  }
}
