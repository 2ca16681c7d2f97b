/**
 How a location decides whether it answers a request: its path selector, its
 host selectors, and the weight that orders it among the others.

 Byte lengths are those of ASCII text.
 */
module LocationMatch {
  import opened Prelude
  import opened Text

  /** A request, with the answers of the regex engine and of the client-address check. */
  datatype Request = Request(
    host: string,
    path: string,
    regex: (string, string) -> bool,
    inRanges: seq<string> -> bool)

  // ---- paths ----

  datatype PathSelector = Regex(pattern: string) | Prefix(prefix: string) | Equal(value: string) | Any

  function PathSelectorOf(path: string): PathSelector {
    var p := Trim(path);
    if p == "" then Any
    else if p[0] == '~' then Regex(Trim(p[1..]))
    else if p[0] == '=' then Equal(Trim(p[1..]))
    else Prefix(p)
  }

  predicate PathMatches(selector: PathSelector, req: Request) {
    match selector
    case Equal(value) => value == req.path
    case Regex(pattern) => req.regex(pattern, req.path)
    case Prefix(prefix) => prefix <= req.path
    case Any => true
  }

  // ---- hosts ----

  datatype HostSelector = HostRegex(pattern: string) | HostEqual(value: string) | HostSuffix(domain: string)

  function LowerChar(c: char): char {
    if 'A' <= c <= 'Z' then (c as int + 32) as char else c
  }

  function Lower(s: string): (r: string)
    ensures |r| == |s| && forall i :: 0 <= i < |r| ==> r[i] == LowerChar(s[i])
  {
    if s == "" then "" else [LowerChar(s[0])] + Lower(s[1..])
  }

  /** One host pattern; a wildcard without a plain domain is an error. */
  function HostSelectorOf(host: string): Result<HostSelector> {
    var h := Trim(host);
    if h != "" && h[0] == '~' then Ok(HostRegex(Trim(h[1..])))
    else if "*." <= h then
      var domain := Trim(h[2..]);
      if domain == "" || Has(domain, '*') then Err else Ok(HostSuffix(Lower(domain)))
    else Ok(HostEqual(Lower(h)))
  }

  function HostSelectorsOf(parts: seq<string>): Result<seq<HostSelector>> {
    if parts == [] then Ok([])
    else
      var rest := HostSelectorsOf(parts[1..]);
      if Trim(parts[0]) == "" then rest
      else
        var first := HostSelectorOf(Trim(parts[0]));
        if first.Err? || rest.Err? then Err else Ok([first.value] + rest.value)
  }

  /** The host selectors of a location; an error refuses the configuration. */
  function HostsOf(host: Option<string>): Result<seq<HostSelector>> {
    HostSelectorsOf(SplitOn(if host.Some? then host.value else "", ','))
  }

  /** Exact patterns are kept in lower case. */
  predicate LoweredHosts(hosts: seq<HostSelector>) {
    forall i :: 0 <= i < |hosts| && hosts[i].HostEqual? ==> Lower(hosts[i].value) == hosts[i].value
  }

  lemma {:induction false} HostsAreLowered(parts: seq<string>)
    requires HostSelectorsOf(parts).Ok?
    ensures LoweredHosts(HostSelectorsOf(parts).value)
  {
    if parts != [] {
      HostsAreLowered(parts[1..]);
      var h := Trim(Trim(parts[0]));
      assert Lower(Lower(h)) == Lower(h);
    }
  }

  /** `*.domain`: a proper subdomain, letters compared without case. */
  predicate HostMatchesSuffix(host: string, domain: string) {
    var dot := |host| - |domain| - 1;
    dot > 0 && host[dot] == '.' && Lower(host[dot + 1..]) == Lower(domain)
  }

  predicate SelectorMatches(selector: HostSelector, req: Request) {
    match selector
    case HostEqual(value) => Lower(value) == Lower(req.host)
    case HostSuffix(domain) => HostMatchesSuffix(req.host, domain)
    case HostRegex(pattern) => req.regex(pattern, req.host)
  }

  /** No pattern means every host. */
  predicate HostMatches(hosts: seq<HostSelector>, req: Request) {
    hosts == [] || exists i :: 0 <= i < |hosts| && SelectorMatches(hosts[i], req)
  }

  // ---- weight ----

  predicate HasRegexHost(host: string) {
    var items := SplitOn(host, ',');
    exists i :: 0 <= i < |items| && "~" <= items[i]
  }

  function PathWeight(path: string): nat {
    if |path| <= 1 then 0
    else (if path[0] == '=' then 1024 else if path[0] == '~' then 256 else 512) + Min(|path|, 64)
  }

  /** The stated weight, else one computed in 16-bit arithmetic that wraps. */
  function WeightOf(weight: Option<nat>, path: string, host: Option<string>): nat {
    if weight.Some? then weight.value
    else if host.None? then PathWeight(path)
    else if !HasRegexHost(host.value) && host.value != "" then PathWeight(path) + 128
    else (PathWeight(path) + |host.value| % 0x1_0000) % 0x1_0000
  }
}
