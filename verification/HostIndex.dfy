/**
 The host-bucket index over a weight-ordered location list: building it,
 collecting the candidates of a request, and that the first full match among
 them is the one a linear scan finds.
 */
module HostIndex {
  import opened Prelude
  import opened LocationMatch
  import StableSort

  /** Positions are stored as 16-bit numbers. */
  const U16: nat := 0x1_0000

  datatype Bucket = Exact(host: string) | Suffix(domain: string) | RegexHosts | AnyHost

  /** The host selectors of each location in weight order; absent where the name does not resolve. */
  type Table = seq<Option<seq<HostSelector>>>

  datatype Index = Index(
    exact: map<string, seq<nat>>,
    suffixes: map<string, seq<nat>>,
    regex: seq<nat>,
    any: seq<nat>)

  const EMPTY: Index := Index(map[], map[], [], [])

  function BucketOf(selector: HostSelector): Bucket {
    match selector
    case HostEqual(value) => Exact(value)
    case HostSuffix(domain) => Suffix(domain)
    case HostRegex(_) => RegexHosts
  }

  function BucketsOf(hosts: seq<HostSelector>): seq<Bucket> {
    if hosts == [] then [AnyHost] else seq(|hosts|, i requires 0 <= i < |hosts| => BucketOf(hosts[i]))
  }

  /** What the index holds in a bucket. */
  function Posted(index: Index, bucket: Bucket): seq<nat> {
    match bucket
    case Exact(host) => if host in index.exact then index.exact[host] else []
    case Suffix(domain) => if domain in index.suffixes then index.suffixes[domain] else []
    case RegexHosts => index.regex
    case AnyHost => index.any
  }

  // ---- building ----

  method Post(index: Index, bucket: Bucket, position: nat) returns (r: Index)
    ensures forall b, v :: v in Posted(r, b) <==> v in Posted(index, b) || (b == bucket && v == position)
  {
    var before := Posted(index, bucket);
    r := index;
    match bucket
    case Exact(host) => r := r.(exact := r.exact[host := before + [position]]);
    case Suffix(domain) => r := r.(suffixes := r.suffixes[domain := before + [position]]);
    case RegexHosts =>
      if position !in r.regex {
        r := r.(regex := r.regex + [position]);
      }
    case AnyHost =>
      if position !in r.any {
        r := r.(any := r.any + [position]);
      }
  }

  /** Location `i` asks for this bucket. */
  predicate Asks(table: Table, i: nat, bucket: Bucket) {
    i < |table| && table[i].Some? && bucket in BucketsOf(table[i].value)
  }

  ghost predicate PostedBy(table: Table, n: nat, bucket: Bucket, v: nat) {
    exists i :: 0 <= i < n && Asks(table, i, bucket) && i % U16 == v
  }

  /** Every bucket holds the truncated positions of the locations asking for it. */
  ghost predicate Indexes(index: Index, table: Table, n: nat) {
    forall b, v :: v in Posted(index, b) <==> PostedBy(table, n, b, v)
  }

  method PostLocation(index: Index, table: Table, i: nat) returns (r: Index)
    requires i < |table| && Indexes(index, table, i)
    ensures Indexes(r, table, i + 1)
  {
    r := index;
    if table[i].Some? {
      var buckets := BucketsOf(table[i].value);
      for j := 0 to |buckets|
        invariant forall b, v :: v in Posted(r, b) <==> v in Posted(index, b) || (b in buckets[..j] && v == i % U16)
      {
        r := Post(r, buckets[j], i % U16);
        assert buckets[..j + 1] == buckets[..j] + [buckets[j]];
      }
      assert buckets[..|buckets|] == buckets;
    }
    forall b, v ensures v in Posted(r, b) <==> PostedBy(table, i + 1, b, v) {
      OneMorePosition(table, i, b, v);
    }
  }

  lemma OneMorePosition(table: Table, n: nat, bucket: Bucket, v: nat)
    ensures PostedBy(table, n + 1, bucket, v) <==>
      PostedBy(table, n, bucket, v) || (Asks(table, n, bucket) && v == n % U16)
  {
  }

  method Build(table: Table) returns (index: Index)
    ensures Indexes(index, table, |table|)
  {
    index := EMPTY;
    for i := 0 to |table|
      invariant Indexes(index, table, i)
    {
      index := PostLocation(index, table, i);
    }
  }

  // ---- candidates ----

  predicate Relevant(bucket: Bucket, req: Request) {
    match bucket
    case Exact(host) => host == Lower(req.host)
    case Suffix(domain) => HostMatchesSuffix(req.host, domain)
    case RegexHosts => true
    case AnyHost => true
  }

  ghost predicate IsCandidate(index: Index, req: Request, v: nat) {
    exists b :: Relevant(b, req) && v in Posted(index, b)
  }

  predicate Ascending(s: seq<nat>) {
    forall i, j :: 0 <= i < j < |s| ==> s[i] < s[j]
  }

  function Identity(): nat -> int { (v: nat) => v }

  /** `dedup`: neighbours that are equal collapse. */
  function Dedup(s: seq<nat>): (r: seq<nat>)
    ensures forall v :: v in r <==> v in s
    ensures StableSort.Sorted(s, Identity()) ==> Ascending(r)
    ensures s != [] ==> r != [] && r[0] == s[0]
  {
    if |s| <= 1 then s
    else
      var rest := Dedup(s[1..]);
      assert s == [s[0]] + s[1..];
      assert StableSort.Sorted(s, Identity()) ==>
          StableSort.Sorted(s[1..], Identity()) && Identity()(s[0]) <= Identity()(s[1]);
      if s[0] == s[1] then rest else [s[0]] + rest
  }

  method SuffixCandidates(index: Index, req: Request) returns (found: seq<nat>)
    ensures forall v :: v in found <==> exists d :: HostMatchesSuffix(req.host, d) && v in Posted(index, Suffix(d))
  {
    found := [];
    var left := index.suffixes.Keys;
    while left != {}
      invariant left <= index.suffixes.Keys
      invariant forall v :: v in found <==>
        exists d :: d !in left && HostMatchesSuffix(req.host, d) && v in Posted(index, Suffix(d))
    {
      var domain :| domain in left;
      if HostMatchesSuffix(req.host, domain) {
        found := found + index.suffixes[domain];
      }
      left := left - {domain};
    }
  }

  method CandidateIndices(index: Index, req: Request) returns (r: seq<nat>)
    ensures Ascending(r)
    ensures forall v :: v in r <==> IsCandidate(index, req, v)
  {
    var exact := Posted(index, Exact(Lower(req.host)));
    var suffixes := SuffixCandidates(index, req);
    var all := exact + suffixes + index.regex + index.any;
    forall v ensures v in all <==> IsCandidate(index, req, v) {
      CandidateBuckets(index, req, v);
    }
    StableSort.SortByKeySorts(all, Identity());
    StableSort.SortKeepsMembers(all, Identity());
    r := Dedup(StableSort.SortByKey(all, Identity()));
  }

  lemma CandidateBuckets(index: Index, req: Request, v: nat)
    ensures IsCandidate(index, req, v) <==>
      || v in Posted(index, Exact(Lower(req.host)))
      || (exists d :: HostMatchesSuffix(req.host, d) && v in Posted(index, Suffix(d)))
      || v in index.regex || v in index.any
  {
    if v in Posted(index, Exact(Lower(req.host))) {
      assert Relevant(Exact(Lower(req.host)), req);
    }
    if d :| HostMatchesSuffix(req.host, d) && v in Posted(index, Suffix(d)) {
      assert Relevant(Suffix(d), req);
    }
    if v in index.regex {
      assert Relevant(RegexHosts, req) && v in Posted(index, RegexHosts);
    }
    if v in index.any {
      assert Relevant(AnyHost, req) && v in Posted(index, AnyHost);
    }
  }

  // ---- the first full match ----

  /** Location `i` answers: its hosts match, and so does everything else about it. */
  predicate Answers(table: Table, req: Request, rest: nat -> bool, i: nat) {
    i < |table| && table[i].Some? && HostMatches(table[i].value, req) && rest(i)
  }

  function FirstFrom(table: Table, req: Request, rest: nat -> bool, i: nat): (r: Option<nat>)
    requires i <= |table|
    decreases |table| - i
  {
    if i == |table| then None else if Answers(table, req, rest, i) then Some(i) else FirstFrom(table, req, rest, i + 1)
  }

  /** The linear scan of the ordered list. */
  function LinearScan(table: Table, req: Request, rest: nat -> bool): Option<nat> {
    FirstFrom(table, req, rest, 0)
  }

  function ScanCandidates(table: Table, req: Request, rest: nat -> bool, candidates: seq<nat>): Option<nat> {
    if candidates == [] then None
    else if Answers(table, req, rest, candidates[0]) then Some(candidates[0])
    else ScanCandidates(table, req, rest, candidates[1..])
  }

  /** The least answering position, or none. */
  ghost predicate IsFirst(table: Table, req: Request, rest: nat -> bool, r: Option<nat>) {
    && (r.Some? ==> Answers(table, req, rest, r.value))
    && (forall i :: Answers(table, req, rest, i) ==> r.Some? && r.value <= i)
  }

  lemma {:induction false} FirstFromIsFirst(table: Table, req: Request, rest: nat -> bool, i: nat)
    requires i <= |table|
    requires forall j :: 0 <= j < i ==> !Answers(table, req, rest, j)
    ensures IsFirst(table, req, rest, FirstFrom(table, req, rest, i))
    decreases |table| - i
  {
    if i < |table| && !Answers(table, req, rest, i) {
      FirstFromIsFirst(table, req, rest, i + 1);
    }
  }

  lemma {:induction false} ScanIsFirst(table: Table, req: Request, rest: nat -> bool, candidates: seq<nat>)
    requires Ascending(candidates)
    ensures var r := ScanCandidates(table, req, rest, candidates);
            && (r.Some? ==> r.value in candidates && Answers(table, req, rest, r.value))
            && (forall v :: v in candidates && Answers(table, req, rest, v) ==> r.Some? && r.value <= v)
  {
    if candidates != [] && !Answers(table, req, rest, candidates[0]) {
      ScanIsFirst(table, req, rest, candidates[1..]);
      assert candidates == [candidates[0]] + candidates[1..];
    }
  }

  /** A location whose hosts match stands in a bucket that is looked up. */
  lemma MatchIsRelevant(hosts: seq<HostSelector>, req: Request) returns (bucket: Bucket)
    requires HostMatches(hosts, req)
    requires LoweredHosts(hosts)
    ensures bucket in BucketsOf(hosts) && Relevant(bucket, req)
  {
    if hosts == [] {
      bucket := AnyHost;
    } else {
      var i :| 0 <= i < |hosts| && SelectorMatches(hosts[i], req);
      bucket := BucketOf(hosts[i]);
      assert BucketsOf(hosts)[i] == bucket;
    }
  }

  /** Exact patterns are stored in lower case. */
  predicate Lowered(table: Table) {
    forall k :: 0 <= k < |table| && table[k].Some? ==> LoweredHosts(table[k].value)
  }

  lemma AnswerIsCandidate(table: Table, index: Index, req: Request, rest: nat -> bool, i: nat)
    requires Lowered(table) && Indexes(index, table, |table|)
    requires Answers(table, req, rest, i) && i < U16
    ensures IsCandidate(index, req, i)
  {
    var bucket := MatchIsRelevant(table[i].value, req);
    assert Asks(table, i, bucket) && i % U16 == i;
    assert PostedBy(table, |table|, bucket, i);
  }

  /** Up to 65536 locations, the first match among the candidates is the first match of the list. */
  lemma IndexedEqualsLinear(table: Table, index: Index, req: Request, rest: nat -> bool, candidates: seq<nat>)
    requires Lowered(table) && Indexes(index, table, |table|)
    requires Ascending(candidates) && forall v :: v in candidates <==> IsCandidate(index, req, v)
    requires |table| <= U16
    ensures ScanCandidates(table, req, rest, candidates) == LinearScan(table, req, rest)
  {
    FirstFromIsFirst(table, req, rest, 0);
    ScanIsFirst(table, req, rest, candidates);
    var r := LinearScan(table, req, rest);
    if r.Some? {
      AnswerIsCandidate(table, index, req, rest, r.value);
    }
  }

  // ---- beyond 65536 locations ----

  /** Everything asks for host "a" but the last location, which asks for "b". */
  function OddLast(n: nat): Table
    requires n > 0
  {
    seq(n, i => Some([HostEqual(if i == n - 1 then "b" else "a")]))
  }

  function Always(): nat -> bool { (i: nat) => true }

  /** With more, the truncated position sends the last location's requests elsewhere. */
  lemma TruncationLosesTheLast(n: nat, index: Index, req: Request, candidates: seq<nat>)
    requires n > U16 && Lower(req.host) == "b"
    requires Indexes(index, OddLast(n), n)
    requires Ascending(candidates) && forall v :: v in candidates <==> IsCandidate(index, req, v)
    ensures LinearScan(OddLast(n), req, Always()) == Some(n - 1)
    ensures ScanCandidates(OddLast(n), req, Always(), candidates) == None
  {
    var table := OddLast(n);
    var rest := Always();
    assert Lower("b") == "b" && Lower("a") == "a";
    forall i | 0 <= i < n ensures Answers(table, req, rest, i) <==> i == n - 1 {
      var hosts := table[i].value;
      assert SelectorMatches(hosts[0], req) <==> i == n - 1;
    }
    FirstFromIsFirst(table, req, rest, 0);
    ScanIsFirst(table, req, rest, candidates);
    assert Answers(table, req, rest, n - 1);
    forall b ensures n - 1 !in Posted(index, b) {
      assert !PostedBy(table, n, b, n - 1);
    }
  }
}
