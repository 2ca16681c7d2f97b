/**
 The SNI table across configuration reloads: freshly loaded certificates, plus
 those carried over for entries whose certificate is still being issued.

 Loading and parsing PEMs is outside: a reload is handed the table of the
 certificates that did load.
 */
module SniTable {
  import opened Prelude
  import opened Text

  /** A certificate entry as the carry-over sees it; `domains` is the comma-separated list. */
  datatype Conf = Conf(domains: Option<string>, hasCert: bool, hasKey: bool)

  /** A loaded certificate, told apart by its hash. */
  datatype TlsCert = TlsCert(hashKey: string)

  type Table = map<string, TlsCert>

  // ---- the domain list of an entry ----

  function NonEmptyTrimmed(parts: seq<string>): seq<string> {
    if parts == [] then []
    else
      var domain := Trim(parts[0]);
      (if domain == "" then [] else [domain]) + NonEmptyTrimmed(parts[1..])
  }

  function DomainsOf(conf: Conf): seq<string> {
    if conf.domains.None? then [] else NonEmptyTrimmed(SplitOn(conf.domains.value, ','))
  }

  /** An entry without a complete certificate and key pair: the ones the load skips. */
  predicate Incomplete(conf: Conf) {
    !(conf.hasCert && conf.hasKey)
  }

  lemma {:induction false} TrimmedIff(parts: seq<string>, domain: string)
    ensures domain in NonEmptyTrimmed(parts) <==> domain != "" && exists part :: part in parts && Trim(part) == domain
  {
    if parts != [] {
      TrimmedIff(parts[1..], domain);
      assert forall part :: part in parts <==> part == parts[0] || part in parts[1..];
    }
  }

  // ---- the carry-over ----

  predicate Awaits(conf: Conf, domain: string) {
    Incomplete(conf) && domain in DomainsOf(conf)
  }

  /** An entry awaits a certificate for what its comma-separated list names, until it has both PEM and key. */
  lemma AwaitsIff(conf: Conf, domain: string)
    ensures Awaits(conf, domain) <==>
      && (!conf.hasCert || !conf.hasKey) && conf.domains.Some? && domain != ""
      && exists part :: part in SplitOn(conf.domains.value, ',') && Trim(part) == domain
  {
    if conf.domains.Some? {
      TrimmedIff(SplitOn(conf.domains.value, ','), domain);
    }
  }

  /** Some incomplete entry lists the domain. */
  predicate Awaited(confs: seq<Conf>, domain: string) {
    exists conf :: conf in confs && Awaits(conf, domain)
  }

  /** What the reloaded table is: fresh where loaded, else previous where awaited, else absent. */
  function Reloaded(loaded: Table, previous: Table, confs: seq<Conf>): Table {
    map domain | domain in loaded.Keys + previous.Keys && (domain in loaded || Awaited(confs, domain)) ::
      if domain in loaded then loaded[domain] else previous[domain]
  }

  /** The domains of one entry, in list order. */
  method CarryOverEntry(table: Table, previous: Table, domains: seq<string>) returns (r: Table)
    ensures forall d :: d in r <==> d in table || (d in domains && d in previous)
    ensures forall d :: d in r ==> r[d] == if d in table then table[d] else previous[d]
  {
    r := table;
    for i := 0 to |domains|
      invariant forall d :: d in r <==> d in table || (d in domains[..i] && d in previous)
      invariant forall d :: d in r ==> r[d] == if d in table then table[d] else previous[d]
    {
      if domains[i] !in r && domains[i] in previous {
        r := r[domains[i] := previous[domains[i]]];
      }
      assert domains[..i + 1] == domains[..i] + [domains[i]];
    }
    assert domains[..|domains|] == domains;
  }

  /** `try_update_certificates`: the entries are visited in whatever order the map yields them. */
  method TryUpdateCertificates(loaded: Table, previous: Table, confs: seq<Conf>) returns (table: Table)
    ensures table == Reloaded(loaded, previous, confs)
  {
    table := loaded;
    assert Reloaded(loaded, previous, confs[..0]) == loaded;
    for i := 0 to |confs|
      invariant table == Reloaded(loaded, previous, confs[..i])
    {
      ghost var before := table;
      if Incomplete(confs[i]) && confs[i].domains.Some? {
        table := CarryOverEntry(table, previous, DomainsOf(confs[i]));
      }
      OneMoreEntry(loaded, previous, confs, i, before, table);
    }
    assert confs[..|confs|] == confs;
  }

  lemma AwaitedOneMore(confs: seq<Conf>, i: nat, domain: string)
    requires i < |confs|
    ensures Awaited(confs[..i + 1], domain) <==> Awaited(confs[..i], domain) || Awaits(confs[i], domain)
  {
    assert confs[..i + 1] == confs[..i] + [confs[i]];
    assert forall conf :: conf in confs[..i + 1] <==> conf in confs[..i] || conf == confs[i];
  }

  lemma OneMoreEntry(loaded: Table, previous: Table, confs: seq<Conf>, i: nat, before: Table, after: Table)
    requires i < |confs| && before == Reloaded(loaded, previous, confs[..i])
    requires forall d :: d in after <==> d in before || (Awaits(confs[i], d) && d in previous)
    requires forall d :: d in after ==> after[d] == if d in before then before[d] else previous[d]
    ensures after == Reloaded(loaded, previous, confs[..i + 1])
  {
    var target := Reloaded(loaded, previous, confs[..i + 1]);
    forall d
      ensures d in after <==> d in target
      ensures d in after && d in target ==> after[d] == target[d]
    {
      AwaitedOneMore(confs, i, d);
      ReloadedAt(loaded, previous, confs[..i], d);
      ReloadedAt(loaded, previous, confs[..i + 1], d);
    }
  }

  lemma ReloadedAt(loaded: Table, previous: Table, confs: seq<Conf>, d: string)
    ensures var t := Reloaded(loaded, previous, confs);
            && (d in t <==> d in loaded || (d in previous && Awaited(confs, d)))
            && (d in t ==> t[d] == if d in loaded then loaded[d] else previous[d])
  {
  }

  // ---- order does not matter ----

  /** The table depends on which entries there are, not on the order they are visited in. */
  lemma OrderDoesNotMatter(loaded: Table, previous: Table, confs1: seq<Conf>, confs2: seq<Conf>)
    requires forall c :: c in confs1 <==> c in confs2
    ensures Reloaded(loaded, previous, confs1) == Reloaded(loaded, previous, confs2)
  {
  }

  // ---- runs of reloads and renewals ----

  /** What rebuilds the table: a configuration reload, or the ACME task after a renewal, which carries nothing over. */
  datatype Rebuild =
    | Reload(loaded: Table, confs: seq<Conf>)
    | Renewal(loaded: Table)

  function Rebuilt(table: Table, r: Rebuild): Table {
    match r
    case Reload(loaded, confs) => Reloaded(loaded, table, confs)
    case Renewal(loaded) => loaded
  }

  function TableAfter(table: Table, rebuilds: seq<Rebuild>): Table {
    if rebuilds == [] then table
    else Rebuilt(TableAfter(table, rebuilds[..|rebuilds| - 1]), rebuilds[|rebuilds| - 1])
  }

  /** A reload some entry of which still waits for a certificate for the domain. */
  predicate Waiting(r: Rebuild, domain: string) {
    r.Reload? && Awaited(r.confs, domain)
  }

  /** The rebuild loads a certificate for the domain, or carries the old one over. */
  predicate Covers(r: Rebuild, domain: string) {
    domain in r.loaded || Waiting(r, domain)
  }

  lemma RebuiltAt(table: Table, r: Rebuild, d: string)
    ensures var t := Rebuilt(table, r);
            && (d in t <==> d in r.loaded || (d in table && Waiting(r, d)))
            && (d in t ==> t[d] == if d in r.loaded then r.loaded[d] else table[d])
  {
    if r.Reload? {
      ReloadedAt(r.loaded, table, r.confs, d);
    }
  }

  /** Point `i` of the run brings a certificate for the domain: the initial table, or the rebuild before it. */
  predicate Enters(table: Table, rebuilds: seq<Rebuild>, i: nat, domain: string)
    requires i <= |rebuilds|
  {
    if i == 0 then domain in table else domain in rebuilds[i - 1].loaded
  }

  function Entered(table: Table, rebuilds: seq<Rebuild>, i: nat, domain: string): TlsCert
    requires i <= |rebuilds| && Enters(table, rebuilds, i, domain)
  {
    if i == 0 then table[domain] else rebuilds[i - 1].loaded[domain]
  }

  /** Every rebuild from point `i` on covers the domain. */
  ghost predicate CoveredFrom(rebuilds: seq<Rebuild>, i: nat, domain: string) {
    forall j :: i <= j < |rebuilds| ==> Covers(rebuilds[j], domain)
  }

  /** No rebuild from point `i` on loads a certificate for the domain: each is a reload that still awaits one. */
  ghost predicate AwaitedFrom(rebuilds: seq<Rebuild>, i: nat, domain: string) {
    forall j :: i <= j < |rebuilds| ==> domain !in rebuilds[j].loaded && Waiting(rebuilds[j], domain)
  }

  lemma OneMoreAwaits(rebuilds: seq<Rebuild>, i: nat, domain: string)
    requires rebuilds != [] && AwaitedFrom(rebuilds[..|rebuilds| - 1], i, domain)
    requires domain !in rebuilds[|rebuilds| - 1].loaded && Waiting(rebuilds[|rebuilds| - 1], domain)
    ensures AwaitedFrom(rebuilds, i, domain)
  {
    var n := |rebuilds| - 1;
    forall j | i <= j < |rebuilds| ensures domain !in rebuilds[j].loaded && Waiting(rebuilds[j], domain) {
      if j < n {
        assert rebuilds[..n][j] == rebuilds[j];
      }
    }
  }

  /**
   A served certificate came in at some point of the run, and every rebuild since is a reload that
   awaited a new one in vain.
   */
  lemma {:induction false} ServedSince(table: Table, rebuilds: seq<Rebuild>, domain: string) returns (i: nat)
    requires domain in TableAfter(table, rebuilds)
    ensures i <= |rebuilds| && Enters(table, rebuilds, i, domain)
    ensures TableAfter(table, rebuilds)[domain] == Entered(table, rebuilds, i, domain)
    ensures AwaitedFrom(rebuilds, i, domain)
  {
    i := |rebuilds|;
    if rebuilds != [] {
      var front, last := rebuilds[..|rebuilds| - 1], rebuilds[|rebuilds| - 1];
      RebuiltAt(TableAfter(table, front), last, domain);
      if domain !in last.loaded {
        i := ServedSince(table, front, domain);
        OneMoreAwaits(rebuilds, i, domain);
      }
    }
  }

  lemma {:induction false} CoveredStaysServed(table: Table, rebuilds: seq<Rebuild>, i: nat, domain: string)
    requires i <= |rebuilds| && Enters(table, rebuilds, i, domain) && CoveredFrom(rebuilds, i, domain)
    ensures domain in TableAfter(table, rebuilds)
  {
    if rebuilds != [] {
      var n := |rebuilds| - 1;
      if i <= n {
        assert Covers(rebuilds[n], domain);
        assert forall j :: i <= j < n ==> rebuilds[..n][j] == rebuilds[j];
        CoveredStaysServed(table, rebuilds[..n], i, domain);
      }
    }
  }

  /**
   After any run of reloads and renewals a domain is served exactly when a certificate for it came in
   and every rebuild since loads one or is a reload that awaits one.
   */
  lemma ServedIff(table: Table, rebuilds: seq<Rebuild>, domain: string)
    ensures domain in TableAfter(table, rebuilds) <==>
      exists i :: 0 <= i <= |rebuilds| && Enters(table, rebuilds, i, domain) && CoveredFrom(rebuilds, i, domain)
  {
    if domain in TableAfter(table, rebuilds) {
      var i := ServedSince(table, rebuilds, domain);
      assert CoveredFrom(rebuilds, i, domain);
    }
    if i :| 0 <= i <= |rebuilds| && Enters(table, rebuilds, i, domain) && CoveredFrom(rebuilds, i, domain) {
      CoveredStaysServed(table, rebuilds, i, domain);
    }
  }

  /**
   Over any run of rebuilds that each cover it a served domain stays served, by the certificate loaded
   last or, if none was loaded, by the one it started with.
   */
  lemma {:induction false} ServedThroughRuns(table: Table, rebuilds: seq<Rebuild>, domain: string)
    requires domain in table
    requires forall i :: 0 <= i < |rebuilds| ==> Covers(rebuilds[i], domain)
    ensures domain in TableAfter(table, rebuilds)
    ensures TableAfter(table, rebuilds)[domain] == LastLoaded(table[domain], rebuilds, domain)
  {
    if rebuilds != [] {
      var front := rebuilds[..|rebuilds| - 1];
      forall i | 0 <= i < |front| ensures Covers(front[i], domain) {
        assert front[i] == rebuilds[i];
      }
      ServedThroughRuns(table, front, domain);
      assert Covers(rebuilds[|rebuilds| - 1], domain);
    }
  }

  /** So a certificate served only by carry-over is gone with the next renewal, whichever entry that is for. */
  lemma RenewalEndsCarryOver(table: Table, rebuilds: seq<Rebuild>, loaded: Table, domain: string)
    requires domain !in loaded
    ensures domain !in TableAfter(table, rebuilds + [Renewal(loaded)])
  {
    var all := rebuilds + [Renewal(loaded)];
    assert all[..|all| - 1] == rebuilds && all[|all| - 1] == Renewal(loaded);
  }

  function LastLoaded(initial: TlsCert, rebuilds: seq<Rebuild>, domain: string): TlsCert {
    if rebuilds == [] then initial
    else
      var last := rebuilds[|rebuilds| - 1];
      if domain in last.loaded then last.loaded[domain]
      else LastLoaded(initial, rebuilds[..|rebuilds| - 1], domain)
  }

  // ---- lookup ----

  function AfterFirstDot(sni: string): Option<string> {
    if sni == "" then None
    else if sni[0] == '.' then Some(sni[1..])
    else AfterFirstDot(sni[1..])
  }

  /** The names that can answer for an SNI, most specific first. */
  function Candidates(sni: string): seq<string> {
    [sni] + (if AfterFirstDot(sni).Some? then ["*." + AfterFirstDot(sni).value] else []) + ["*"]
  }

  /** `Provider::get`: exact name, then one wildcard level, then the default. */
  function Lookup(table: Table, sni: string): Option<TlsCert> {
    if sni in table then Some(table[sni])
    else
      var parent := AfterFirstDot(sni);
      if parent.Some? && ("*." + parent.value) in table then Some(table["*." + parent.value])
      else if "*" in table then Some(table["*"])
      else None
  }

  lemma {:induction false} AfterFirstDotIs(first: string, rest: string)
    requires '.' !in first
    ensures AfterFirstDot(first + "." + rest) == Some(rest) && AfterFirstDot(first) == None
  {
    if first != "" {
      assert first[0] in first && forall c :: c in first[1..] ==> c in first;
      AfterFirstDotIs(first[1..], rest);
      assert (first + "." + rest)[1..] == first[1..] + "." + rest;
    } else {
      assert (first + "." + rest)[1..] == rest;
    }
  }

  /** The name itself, the wildcard over everything after its first label, the default. */
  lemma CandidatesAre(first: string, rest: string)
    requires '.' !in first
    ensures Candidates(first + "." + rest) == [first + "." + rest, "*." + rest, "*"]
    ensures Candidates(first) == [first, "*"]
  {
    AfterFirstDotIs(first, rest);
  }

  /** Candidate `i` is in the table and no more specific one is. */
  predicate IsMostSpecific(table: Table, sni: string, i: nat) {
    && i < |Candidates(sni)| && Candidates(sni)[i] in table
    && forall j :: 0 <= j < i ==> Candidates(sni)[j] !in table
  }

  /** The answer is the certificate of the most specific candidate the table has. */
  lemma LookupIsMostSpecific(table: Table, sni: string, i: nat)
    requires IsMostSpecific(table, sni, i)
    ensures Lookup(table, sni) == Some(table[Candidates(sni)[i]])
  {
    if i == 1 {
      assert Candidates(sni)[0] == sni;
    } else if i == 2 {
      assert Candidates(sni)[0] == sni && Candidates(sni)[1] == "*." + AfterFirstDot(sni).value;
    }
  }

  lemma LookupMissesIff(table: Table, sni: string)
    ensures Lookup(table, sni) == None <==> forall c :: c in Candidates(sni) ==> c !in table
  {
    assert sni in Candidates(sni) && "*" in Candidates(sni);
    if AfterFirstDot(sni).Some? {
      assert Candidates(sni)[1] == "*." + AfterFirstDot(sni).value;
    }
  }

  lemma MostSpecificOf(table: Table, sni: string, k: nat) returns (i: nat)
    requires k < |Candidates(sni)| && Candidates(sni)[k] in table
    ensures i <= k && IsMostSpecific(table, sni, i)
  {
    i := 0;
    while Candidates(sni)[i] !in table
      invariant i <= k && forall j :: 0 <= j < i ==> Candidates(sni)[j] !in table
      decreases k - i
    {
      i := i + 1;
    }
  }

  /**
   A handshake that found a certificate under candidate `k` still finds one after rebuilds that cover
   that name: the certificate of the most specific candidate then served, no less specific than `k`, and
   of that candidate the one that came in last.
   */
  lemma HandshakesKeepWorking(table: Table, rebuilds: seq<Rebuild>, sni: string, k: nat) returns (i: nat, since: nat)
    requires k < |Candidates(sni)| && Candidates(sni)[k] in table
    requires forall j :: 0 <= j < |rebuilds| ==> Covers(rebuilds[j], Candidates(sni)[k])
    ensures i <= k && IsMostSpecific(TableAfter(table, rebuilds), sni, i)
    ensures since <= |rebuilds| && Enters(table, rebuilds, since, Candidates(sni)[i])
    ensures AwaitedFrom(rebuilds, since, Candidates(sni)[i])
    ensures Lookup(TableAfter(table, rebuilds), sni) == Some(Entered(table, rebuilds, since, Candidates(sni)[i]))
    ensures i == k ==>
      var name := Candidates(sni)[k];
      Lookup(TableAfter(table, rebuilds), sni) == Some(LastLoaded(table[name], rebuilds, name))
  {
    ServedThroughRuns(table, rebuilds, Candidates(sni)[k]);
    i := MostSpecificOf(TableAfter(table, rebuilds), sni, k);
    since := ServedSince(table, rebuilds, Candidates(sni)[i]);
    LookupIsMostSpecific(TableAfter(table, rebuilds), sni, i);
  }
}
