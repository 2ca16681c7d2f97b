/**
 The configuration document, the merge a hot reload applies to it, and the
 interleaving of reloads with certificate issuance.

 `update_raw` and `update` hold the same write lock, so each is one step.
 */
module HotReload {
  import opened Prelude

  /** A certificate entry; `rest` stands for the fields neither side of the protocol touches. */
  datatype Cert = Cert(tlsCert: Option<string>, tlsKey: Option<string>, rest: string)

  /** The remarks the ACME task writes, and whatever a person wrote. */
  datatype Remark = Http01Token | ManualDnsValue | AccountCredentials | Other(text: string)

  datatype StorageEntry = StorageEntry(value: string, remark: Option<Remark>, createdAt: Option<nat>)

  datatype Doc = Doc(certs: Option<map<string, Cert>>, storages: Option<map<string, StorageEntry>>, rest: string)

  /** The stored text: nothing, not a TOML table, or a document. */
  datatype Raw = Blank | Malformed | Parsed(doc: Doc)

  predicate HasPem(c: Cert) {
    c.tlsCert.Some? && c.tlsCert.value != ""
  }

  function CertsOf(doc: Doc): map<string, Cert> {
    if doc.certs.Some? then doc.certs.value else map[]
  }

  function StoragesOf(raw: Raw): map<string, StorageEntry> {
    if raw.Parsed? && raw.doc.storages.Some? then raw.doc.storages.value else map[]
  }

  // ---- merge_config_state ----

  function MergeCert(generated: Cert, previous: Cert): Cert {
    if HasPem(previous) && !HasPem(generated) then
      generated.(tlsCert := previous.tlsCert, tlsKey := if previous.tlsKey.Some?
          then previous.tlsKey else generated.tlsKey)
    else generated
  }

  function MergeCerts(generated: map<string, Cert>, previous: map<string, Cert>): map<string, Cert> {
    map name | name in generated ::
      if name in previous then MergeCert(generated[name], previous[name]) else generated[name]
  }

  function Merge(generated: Doc, previous: Raw): Doc {
    if !previous.Parsed? then generated
    else
      var p := previous.doc;
      generated.(certs := if p.certs.Some? then Some(MergeCerts(CertsOf(generated), p.certs.value))
          else generated.certs,
                 storages := if p.storages.Some? then p.storages else generated.storages)
  }

  /** The merge as the source runs it: over the previous entries, editing the new table in place. */
  method MergeConfigState(generated: Doc, previous: Raw) returns (doc: Doc)
    ensures doc == Merge(generated, previous)
  {
    if !previous.Parsed? {
      return generated;
    }
    doc := generated;
    var prev := previous.doc;
    if prev.certs.Some? {
      var certs := CertsOf(doc);
      var todo := prev.certs.value.Keys;
      while todo != {}
        invariant todo <= prev.certs.value.Keys
        invariant certs.Keys == CertsOf(generated).Keys
        invariant forall name :: name in certs ==>
          certs[name] == if name in prev.certs.value && name !in todo
                         then MergeCert(CertsOf(generated)[name], prev.certs.value[name])
                         else CertsOf(generated)[name]
        decreases todo
      {
        var name :| name in todo;
        todo := todo - {name};
        var prevCert := prev.certs.value[name];
        var pem := if prevCert.tlsCert.Some? then prevCert.tlsCert.value else "";
        if pem == "" || name !in certs {
          continue;
        }
        var cert := certs[name];
        if cert.tlsCert.Some? && cert.tlsCert.value != "" {
          continue;
        }
        cert := cert.(tlsCert := Some(pem));
        if prevCert.tlsKey.Some? {
          cert := cert.(tlsKey := prevCert.tlsKey);
        }
        certs := certs[name := cert];
      }
      assert certs == MergeCerts(CertsOf(generated), prev.certs.value);
      doc := doc.(certs := Some(certs));
    }
    if prev.storages.Some? {
      doc := doc.(storages := prev.storages);
    }
  }

  // ---- what one merge guarantees ----

  /** Written out: neither absent nor empty. */
  predicate Filled(pem: Option<string>) {
    pem != None && pem != Some("")
  }

  /** A stored entry whose PEM the reload has to carry over into an entry without one. */
  predicate CarriesOver(generated: Doc, previous: Raw, name: string)
    requires name in CertsOf(generated)
  {
    && !Filled(CertsOf(generated)[name].tlsCert)
    && previous.Parsed? && name in CertsOf(previous.doc) && Filled(CertsOf(previous.doc)[name].tlsCert)
  }

  /**
   The merged document is the new configuration: everything in it but the storages and the PEM pairs is
   the new configuration's, entry by entry, and a PEM pair is the stored one only where the new entry
   has no PEM and the stored one does.
   */
  lemma MergeKeepsConfiguration(generated: Doc, previous: Raw)
    ensures var m := Merge(generated, previous);
            && m.rest == generated.rest
            && m.storages == (if previous.Parsed? && previous.doc.storages.Some? then previous.doc.storages
                              else generated.storages)
            && CertsOf(m).Keys == CertsOf(generated).Keys
            && forall name :: name in CertsOf(generated) ==>
                 CertsOf(m)[name].rest == CertsOf(generated)[name].rest
    ensures forall name :: name in CertsOf(generated) ==>
      var m, g := CertsOf(Merge(generated, previous))[name], CertsOf(generated)[name];
      if CarriesOver(generated, previous, name) then
        var p := CertsOf(previous.doc)[name];
        m.tlsCert == p.tlsCert && m.tlsKey == if p.tlsKey.Some? then p.tlsKey else g.tlsKey
      else m == g
  {
  }

  /** A PEM the new configuration brings itself is never replaced. */
  lemma GeneratedPemWins(generated: Doc, previous: Raw, name: string)
    requires name in CertsOf(generated) && HasPem(CertsOf(generated)[name])
    ensures name in CertsOf(Merge(generated, previous))
    ensures CertsOf(Merge(generated, previous))[name] == CertsOf(generated)[name]
  {
  }

  /** A reload has exactly the entries of the new configuration: it brings no deleted one back. */
  lemma ReloadDoesNotResurrect(generated: Doc, previous: Raw)
    ensures CertsOf(Merge(generated, previous)).Keys == CertsOf(generated).Keys
  {
  }

  /** A certificate and key are never mixed from two sources, if stored PEMs came with their key. */
  lemma PairsStayTogether(generated: Doc, previous: Raw, name: string)
    requires name in CertsOf(generated)
    requires previous.Parsed? && name in CertsOf(previous.doc) && HasPem(CertsOf(previous.doc)[name])
             ==> CertsOf(previous.doc)[name].tlsKey.Some?
    ensures name in CertsOf(Merge(generated, previous))
    ensures var m, g := CertsOf(Merge(generated, previous))[name], CertsOf(generated)[name];
            || (m.tlsCert == g.tlsCert && m.tlsKey == g.tlsKey)
            || (previous.Parsed? && name in CertsOf(previous.doc) &&
                m.tlsCert == CertsOf(previous.doc)[name].tlsCert && m.tlsKey == CertsOf(previous.doc)[name].tlsKey)
  {
  }

  /** Reloading the same configuration again changes nothing. */
  lemma MergeIsIdempotent(generated: Doc, previous: Raw)
    ensures Merge(generated, Parsed(Merge(generated, previous))) == Merge(generated, previous)
  {
    if previous.Parsed? {
      var once := Merge(generated, previous);
      assert CertsOf(Merge(generated, Parsed(once))) == CertsOf(once);
    } else if generated.certs.Some? {
      assert MergeCerts(CertsOf(generated), CertsOf(generated)) == CertsOf(generated);
    }
  }

  // ---- interleavings ----

  datatype Step =
    | Reload(generated: Doc)
    | ReloadFails                     // the merged text is not accepted: nothing is saved
    | Issue(name: string, conf: Cert, pem: string, key: string)   // `conf` was read before the order
    | WriteStorage(name: string, entry: StorageEntry)
    | DeleteStorage(name: string)

  /** `load_all` of the stored text; a write on top of unreadable text fails. */
  function Loaded(raw: Raw): Option<Doc> {
    match raw
    case Blank => Some(Doc(None, None, ""))
    case Malformed => None
    case Parsed(doc) => Some(doc)
  }

  function Apply(raw: Raw, step: Step): Raw {
    match step
    case Reload(generated) => Parsed(Merge(generated, raw))
    case ReloadFails => raw
    case Issue(name, conf, pem, key) =>
      if Loaded(raw).None? then raw
      else
        var doc := Loaded(raw).value;
        Parsed(doc.(certs := Some(CertsOf(doc)[name := conf.(tlsCert := Some(pem), tlsKey := Some(key))])))
    case WriteStorage(name, entry) =>
      if Loaded(raw).None? then raw
      else Parsed(Loaded(raw).value.(storages := Some(StoragesOf(raw)[name := entry])))
    case DeleteStorage(name) =>
      if Loaded(raw).None? then raw
      else Parsed(Loaded(raw).value.(storages := Some(StoragesOf(raw) - {name})))
  }

  predicate Serves(raw: Raw, name: string) {
    raw.Parsed? && name in CertsOf(raw.doc) && HasPem(CertsOf(raw.doc)[name])
  }

  /** Reloads keep the entry and issued PEMs are not empty. */
  predicate Keeps(step: Step, name: string) {
    && (step.Reload? ==> name in CertsOf(step.generated))
    && (step.Issue? ==> step.pem != "")
  }

  ghost predicate IsRun(states: seq<Raw>, steps: seq<Step>) {
    |states| == |steps| + 1 && forall i :: 0 <= i < |steps| ==> states[i + 1] == Apply(states[i], steps[i])
  }

  lemma StepKeepsPem(raw: Raw, step: Step, name: string)
    requires Serves(raw, name) && Keeps(step, name)
    ensures Serves(Apply(raw, step), name)
  {
  }

  /**
   Once an entry has a PEM it keeps one, at every later point of every interleaving of issuance,
   reloads and storage writes, while each reloaded configuration still contains the entry.
   */
  lemma {:induction false} PemSurvives(states: seq<Raw>, steps: seq<Step>, name: string, from: nat, to: nat)
    requires IsRun(states, steps) && from <= to < |states|
    requires Serves(states[from], name)
    requires forall i :: from <= i < to ==> Keeps(steps[i], name)
    ensures Serves(states[to], name)
  {
    if from < to {
      PemSurvives(states, steps, name, from, to - 1);
      StepKeepsPem(states[to - 1], steps[to - 1], name);
    }
  }

  /**
   The same reload split into a fetch and a later save: the entry still has a PEM exactly when the new
   configuration or the fetched snapshot had one. A PEM issued in between is lost otherwise.
   */
  lemma SplitReloadLosesPem(generated: Doc, snapshot: Raw, name: string)
    requires name in CertsOf(generated)
    ensures Serves(Parsed(Merge(generated, snapshot)), name) <==>
      HasPem(CertsOf(generated)[name]) || Serves(snapshot, name)
  {
  }

  /** The interleaving the atomic reload rules out: fetch, issue, save. */
  lemma SplitReloadRun(name: string, conf: Cert, pem: string, key: string)
    requires !HasPem(conf) && pem != ""
    ensures var generated := Doc(Some(map[name := conf]), None, "");
            var fetched := Parsed(generated);
            var issued := Apply(fetched, Issue(name, conf, pem, key));
            && Serves(issued, name)
            && !Serves(Parsed(Merge(generated, fetched)), name)
            && Serves(Apply(issued, Reload(generated)), name)
  {
    SplitReloadLosesPem(Doc(Some(map[name := conf]), None, ""), Parsed(Doc(Some(map[name := conf]), None, "")), name);
  }

  /**
   What a reload does not do an issuance in flight still can: the entry comes back with the
   configuration read before.
   */
  lemma IssueInFlightResurrects(raw: Raw, generated: Doc, name: string, conf: Cert, pem: string, key: string)
    requires raw.Parsed? && name !in CertsOf(generated)
    ensures var reloaded := Apply(raw, Reload(generated));
            && name !in CertsOf(reloaded.doc)
            && name in CertsOf(Apply(reloaded, Issue(name, conf, pem, key)).doc)
  {
    ReloadDoesNotResurrect(generated, raw);
  }

  // ---- when a deleted entry comes back ----

  predicate HasEntry(raw: Raw, name: string) {
    raw.Parsed? && name in CertsOf(raw.doc)
  }

  /** The step brings the entry: a reload that contains it, or an issuance of it on readable text. */
  predicate Adds(raw: Raw, step: Step, name: string) {
    || (step.Reload? && name in CertsOf(step.generated))
    || (step.Issue? && step.name == name && Loaded(raw).Some?)
  }

  predicate Deletes(step: Step, name: string) {
    step.Reload? && name !in CertsOf(step.generated)
  }

  /** After a step the entry is there if the step brings it, or it was there and the step does not delete it. */
  lemma EntryAfterStep(raw: Raw, step: Step, name: string)
    ensures HasEntry(Apply(raw, step), name) <==> Adds(raw, step, name) || (HasEntry(raw, name) && !Deletes(step, name))
  {
    if step.Reload? {
      ReloadDoesNotResurrect(step.generated, raw);
    }
  }

  ghost predicate NotDeleted(steps: seq<Step>, name: string, from: nat, to: nat) {
    forall j :: from <= j < to && j < |steps| ==> !Deletes(steps[j], name)
  }

  /** Some step since `from` brought the entry and no later reload lacks it. */
  ghost predicate BroughtBack(states: seq<Raw>, steps: seq<Step>, name: string, from: nat, to: nat) {
    exists i :: from <= i < to && i < |steps| && i < |states|
                && Adds(states[i], steps[i], name) && NotDeleted(steps, name, i + 1, to)
  }

  /**
   A deleted entry is back at a later point exactly when some step since brought it - a reload that
   contains it, or an issuance still in flight - and no reload after that one lacks it.
   */
  lemma {:induction false} DeletedEntryIsBackIff(states: seq<Raw>, steps: seq<Step>, name: string, from: nat, to: nat)
    requires IsRun(states, steps) && from <= to < |states| && !HasEntry(states[from], name)
    ensures HasEntry(states[to], name) <==> BroughtBack(states, steps, name, from, to)
  {
    if from < to {
      var n := to - 1;
      DeletedEntryIsBackIff(states, steps, name, from, n);
      EntryAfterStep(states[n], steps[n], name);
      if Adds(states[n], steps[n], name) {
        assert NotDeleted(steps, name, n + 1, to);
      }
      if BroughtBack(states, steps, name, from, n) && !Deletes(steps[n], name) {
        var i :| from <= i < n && Adds(states[i], steps[i], name) && NotDeleted(steps, name, i + 1, n);
        assert NotDeleted(steps, name, i + 1, to);
      }
      if BroughtBack(states, steps, name, from, to) && !Adds(states[n], steps[n], name) {
        var i :| from <= i < to && Adds(states[i], steps[i], name) && NotDeleted(steps, name, i + 1, to);
        assert i < n && NotDeleted(steps, name, i + 1, n) && !Deletes(steps[n], name);
      }
    }
  }

  // ---- when an uploaded PEM is still the stored one ----

  function StoredPem(raw: Raw, name: string): Option<string> {
    if HasEntry(raw, name) then CertsOf(raw.doc)[name].tlsCert else None
  }

  /** The step decides the PEM of the entry: an issuance, a reload with a PEM of its own, or one that deletes it. */
  predicate Decides(step: Step, name: string) {
    || (step.Issue? && step.name == name)
    || (step.Reload? && (name !in CertsOf(step.generated) || HasPem(CertsOf(step.generated)[name])))
  }

  /** What it decides. */
  function Decided(step: Step, name: string): Option<string> {
    if step.Issue? then Some(step.pem)
    else if step.Reload? && name in CertsOf(step.generated) then CertsOf(step.generated)[name].tlsCert
    else None
  }

  lemma PemAfterStep(raw: Raw, step: Step, name: string, pem: string)
    requires raw.Parsed? && pem != ""
    ensures Apply(raw, step).Parsed?
    ensures StoredPem(Apply(raw, step), name) == Some(pem) <==>
      if Decides(step, name) then Decided(step, name) == Some(pem) else StoredPem(raw, name) == Some(pem)
  {
  }

  ghost predicate Undecided(steps: seq<Step>, name: string, from: nat, to: nat) {
    forall j :: from <= j < to && j < |steps| ==> !Decides(steps[j], name)
  }

  /** The last step since `from` that decides the PEM decides this one, or none does and it was stored. */
  ghost predicate LastDecided(raw: Raw, steps: seq<Step>, name: string, pem: string, from: nat, to: nat) {
    || (StoredPem(raw, name) == Some(pem) && Undecided(steps, name, from, to))
    || (exists i :: from <= i < to && i < |steps|
                    && Decides(steps[i], name) && Decided(steps[i], name) == Some(pem)
                        && Undecided(steps, name, i + 1, to))
  }

  /**
   A PEM is the stored one at a later point exactly when no issuance, no reload with its own PEM and no
   reload lacking the entry came since, or the last of these brought that very PEM. So an upload wins
   over what was stored before it, and not over an order that was in flight when it arrived.
   */
  lemma {:induction false} StoredPemIff(states: seq<Raw>, steps: seq<Step>, name: string, pem: string, from: nat,
                                        to: nat)
    requires IsRun(states, steps) && from <= to < |states| && states[from].Parsed? && pem != ""
    ensures states[to].Parsed?
    ensures StoredPem(states[to], name) == Some(pem) <==> LastDecided(states[from], steps, name, pem, from, to)
  {
    if from < to {
      var n := to - 1;
      StoredPemIff(states, steps, name, pem, from, n);
      PemAfterStep(states[n], steps[n], name, pem);
      OneMoreDecision(states[from], steps, name, pem, from, n);
    }
  }

  lemma OneMoreDecision(raw: Raw, steps: seq<Step>, name: string, pem: string, from: nat, n: nat)
    requires from <= n < |steps|
    ensures LastDecided(raw, steps, name, pem, from, n + 1) <==>
      if Decides(steps[n], name) then Decided(steps[n], name) == Some(pem)
          else LastDecided(raw, steps, name, pem, from, n)
  {
    if Decides(steps[n], name) {
      assert Undecided(steps, name, n + 1, n + 1);
      assert !Undecided(steps, name, from, n + 1);
    } else {
      forall i: nat | i <= n ensures Undecided(steps, name, i, n + 1) <==> Undecided(steps, name, i, n) {
      }
    }
  }

  /** The failing case: the order finishes after the upload and replaces it. */
  lemma IssueInFlightReplacesUpload(raw: Raw, generated: Doc, name: string, conf: Cert, pem: string, key: string)
    requires name in CertsOf(generated) && HasPem(CertsOf(generated)[name])
    ensures var uploaded := Apply(raw, Reload(generated));
            && StoredPem(uploaded, name) == CertsOf(generated)[name].tlsCert
            && StoredPem(Apply(uploaded, Issue(name, conf, pem, key)), name) == Some(pem)
  {
    GeneratedPemWins(generated, raw, name);
  }

  // ---- which configuration is stored ----

  ghost predicate NoReload(steps: seq<Step>, from: nat, to: nat) {
    forall j :: from <= j < to && j < |steps| ==> !steps[j].Reload?
  }

  ghost predicate NotIssued(steps: seq<Step>, name: string, from: nat, to: nat) {
    forall j :: from <= j < to && j < |steps| ==> !(steps[j].Issue? && steps[j].name == name)
  }

  lemma StepKeepsConfiguration(raw: Raw, step: Step)
    requires raw.Parsed? && !step.Reload?
    ensures Apply(raw, step).Parsed? && Apply(raw, step).doc.rest == raw.doc.rest
    ensures forall name :: !(step.Issue? && step.name == name) ==>
      && (name in CertsOf(Apply(raw, step).doc) <==> name in CertsOf(raw.doc))
      && (name in CertsOf(raw.doc) ==> CertsOf(Apply(raw, step).doc)[name] == CertsOf(raw.doc)[name])
  {
  }

  lemma {:induction false} ConfigurationStays(states: seq<Raw>, steps: seq<Step>, from: nat, to: nat, name: string)
    requires IsRun(states, steps) && from <= to < |states| && states[from].Parsed? && NoReload(steps, from, to)
    ensures states[to].Parsed? && states[to].doc.rest == states[from].doc.rest
    ensures NotIssued(steps, name, from, to) ==>
      && (name in CertsOf(states[to].doc) <==> name in CertsOf(states[from].doc))
      && (name in CertsOf(states[from].doc) ==>
            CertsOf(states[to].doc)[name] == CertsOf(states[from].doc)[name])
  {
    if from < to {
      ConfigurationStays(states, steps, from, to - 1, name);
      StepKeepsConfiguration(states[to - 1], steps[to - 1]);
    }
  }

  /**
   At every point after a reload and before the next one the stored configuration is the reloaded one:
   its other sections, and for every name no order finished for in between, its entry - there if and
   only if the reload had it, with all its other fields.
   */
  lemma LastReloadIsStored(states: seq<Raw>, steps: seq<Step>, i: nat, to: nat, name: string)
    requires IsRun(states, steps) && i < to < |states| && steps[i].Reload? && NoReload(steps, i + 1, to)
    ensures states[to].Parsed? && states[to].doc.rest == steps[i].generated.rest
    ensures NotIssued(steps, name, i + 1, to) ==>
      && (name in CertsOf(states[to].doc) <==> name in CertsOf(steps[i].generated))
      && (name in CertsOf(steps[i].generated) ==>
            CertsOf(states[to].doc)[name].rest == CertsOf(steps[i].generated)[name].rest)
  {
    MergeKeepsConfiguration(steps[i].generated, states[i]);
    ConfigurationStays(states, steps, i + 1, to, name);
  }

  /** An issued entry is what the order read, with the new pair, until a reload or another order for it. */
  lemma IssuedEntryStays(states: seq<Raw>, steps: seq<Step>, i: nat, to: nat)
    requires IsRun(states, steps) && i < to < |states| && steps[i].Issue? && states[i] != Malformed
    requires NoReload(steps, i + 1, to) && NotIssued(steps, steps[i].name, i + 1, to)
    ensures HasEntry(states[to], steps[i].name)
    ensures CertsOf(states[to].doc)[steps[i].name] ==
      Cert(Some(steps[i].pem), Some(steps[i].key), steps[i].conf.rest)
  {
    ConfigurationStays(states, steps, i + 1, to, steps[i].name);
  }

  predicate HoldsPair(raw: Raw, name: string, pem: string, key: string) {
    HasEntry(raw, name) && CertsOf(raw.doc)[name].tlsCert == Some(pem) && CertsOf(raw.doc)[name].tlsKey == Some(key)
  }

  lemma UndecidedKeepsPair(raw: Raw, step: Step, name: string, pem: string, key: string)
    requires HoldsPair(raw, name, pem, key) && pem != "" && !Decides(step, name)
    ensures HoldsPair(Apply(raw, step), name, pem, key)
  {
  }

  /** An issued certificate is stored with its own key, and both stay until the entry's PEM is decided again. */
  lemma {:induction false} IssuedPairStays(states: seq<Raw>, steps: seq<Step>, i: nat, to: nat)
    requires IsRun(states, steps) && i < to < |states| && steps[i].Issue? && steps[i].pem != ""
    requires states[i] != Malformed && Undecided(steps, steps[i].name, i + 1, to)
    ensures HoldsPair(states[to], steps[i].name, steps[i].pem, steps[i].key)
  {
    if i + 1 < to {
      IssuedPairStays(states, steps, i, to - 1);
      UndecidedKeepsPair(states[to - 1], steps[to - 1], steps[i].name, steps[i].pem, steps[i].key);
    }
  }

  /** Only its own writes and deletions change a storage entry, in every interleaving with reloads and issuance. */
  lemma {:induction false} StorageSurvives(states: seq<Raw>, steps: seq<Step>, name: string, from: nat, to: nat)
    requires IsRun(states, steps) && from <= to < |states|
    requires name in StoragesOf(states[from])
    requires forall i :: from <= i < to ==>
      !(steps[i].WriteStorage? && steps[i].name == name) && steps[i] != DeleteStorage(name)
    ensures name in StoragesOf(states[to]) && StoragesOf(states[to])[name] == StoragesOf(states[from])[name]
  {
    if from < to {
      StorageSurvives(states, steps, name, from, to - 1);
      var raw, step := states[to - 1], steps[to - 1];
      if step.Reload? {
        ReloadKeepsStorages(raw, step.generated);
      }
    }
  }

  /** Reloads carry every storage entry over. */
  lemma ReloadKeepsStorages(raw: Raw, generated: Doc)
    requires raw.Parsed? && raw.doc.storages.Some?
    ensures StoragesOf(Apply(raw, Reload(generated))) == StoragesOf(raw)
  {
  }
}
