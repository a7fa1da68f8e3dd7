/**
 * The create/cleanup lifecycle of a challenge record, as functions of the
 * registry (`cleanup_maps`) and of what the DNS provider answers. Each step
 * returns its outcome, the new registry and the provider requests it issued.
 */
module Lifecycle {
  import opened Wrappers
  import opened Labels
  import opened BaseDomain
  import opened RecordLines
  import opened Subdomain

  /** What `cleanup_maps` stores per validation name: `(base_domain, RecordId)`. */
  datatype Provisioned = Provisioned(baseDomain: string, recordId: string)

  type Registry = map<string, Provisioned>

  /** The fields of a `CreateTXTRecordRequest`. */
  datatype TxtRequest = TxtRequest(domain: string, subDomain: string, value: string, recordLine: string)

  /** A request sent to the DNS provider's record API. A create is logged with
      the provider's answer: the new record's id, or None when it failed. */
  datatype ProviderCall =
    | CreateTxt(request: TxtRequest, answer: Option<string>)
    | DeleteTxt(domain: string, recordId: string)

  /** The failures `_perform` turns into its one plugin error. */
  datatype PerformFailure =
    | BaseDomainNotFound(tried: seq<string>)
    | NoRecordLine
    | CreateRejected

  /** The plugin errors `_perform` and `_cleanup` raise. */
  datatype PluginError =
    | ApplyFailed(cause: PerformFailure)
    | DeleteFailed(domain: string, recordId: string)

  datatype Step = Step(outcome: Outcome<PluginError>, registry: Registry, issued: seq<ProviderCall>)

  /** The create request `_perform` sends for a challenge, or why it sends none:
      a request exists exactly when a base domain is found and a line is
      listed; it goes to a registered domain, carries the validation token,
      and asks for the subdomain sliced from the validation name. */
  function CreateRequest(domain: string, validationName: string, validation: string,
                         domainList: seq<string>, lines: seq<RecordLine>): (r: Result<TxtRequest, PerformFailure>)
    ensures r.Ok? <==> ResolveBase(domain, domainList).Ok? && |lines| > 0
    ensures r.Ok? ==> && r.value.domain in domainList
                      && r.value.subDomain == SubDomain(validationName, r.value.domain)
                      && r.value.value == validation
    ensures r.Err? ==> r.error != CreateRejected
  {
    match ResolveBase(domain, domainList)
    case Err(tried) => Err(BaseDomainNotFound(tried))
    case Ok(base) =>
      match SelectLine(lines)
      case None => Err(NoRecordLine)
      case Some(line) => Ok(TxtRequest(base, SubDomain(validationName, base), validation, line.name))
  }

  /** `_perform`: `created` is the provider's answer to the create request,
      the new record's id or a failure. It sends at most one request, logged
      with that answer; it removes no key, changes nothing on failure, and on
      success stores the returned id under the validation name. */
  function PerformStep(registry: Registry, domain: string, validationName: string, validation: string,
                       domainList: seq<string>, lines: seq<RecordLine>, created: Option<string>): (s: Step)
    ensures |s.issued| <= 1
    ensures forall j :: 0 <= j < |s.issued| ==> s.issued[j].CreateTxt? && s.issued[j].answer == created
    ensures registry.Keys <= s.registry.Keys
    ensures s.outcome.Fail? ==> s.registry == registry
    ensures s.outcome.Pass? ==> created.Some? && validationName in s.registry
                                && s.registry[validationName].recordId == created.value
  {
    match CreateRequest(domain, validationName, validation, domainList, lines)
    case Err(cause) => Step(Fail(ApplyFailed(cause)), registry, [])
    case Ok(request) =>
      match created
      case None => Step(Fail(ApplyFailed(CreateRejected)), registry, [CreateTxt(request, None)])
      case Some(id) => Step(Pass, registry[validationName := Provisioned(request.domain, id)], [CreateTxt(request, created)])
  }

  /** `_cleanup`: `deleteAccepted` is the provider's answer to the delete
      request. It never changes the registry, sends one request for a known
      name and none for an unknown one, and fails only if a delete failed. */
  function CleanupStep(registry: Registry, validationName: string, deleteAccepted: bool): (s: Step)
    ensures s.registry == registry
    ensures |s.issued| == if validationName in registry then 1 else 0
    ensures s.outcome.Fail? ==> validationName in registry && !deleteAccepted
  {
    if validationName in registry then
      var p := registry[validationName];
      Step(if deleteAccepted then Pass else Fail(DeleteFailed(p.baseDomain, p.recordId)),
           registry, [DeleteTxt(p.baseDomain, p.recordId)])
    else Step(Pass, registry, [])
  }

  /** The number of create requests in a log. */
  function CreateCount(log: seq<ProviderCall>): nat
  {
    if |log| == 0 then 0 else (if log[0].CreateTxt? then 1 else 0) + CreateCount(log[1..])
  }

  /** The number of delete requests in a log. */
  function DeleteCount(log: seq<ProviderCall>): nat
  {
    if |log| == 0 then 0 else (if log[0].DeleteTxt? then 1 else 0) + DeleteCount(log[1..])
  }

  /** Counting requests is additive over concatenated logs. */
  lemma {:induction false} CountsAppend(a: seq<ProviderCall>, b: seq<ProviderCall>)
    ensures CreateCount(a + b) == CreateCount(a) + CreateCount(b)
    ensures DeleteCount(a + b) == DeleteCount(a) + DeleteCount(b)
    decreases |a|
  {
    if |a| > 0 {
      CountsAppend(a[1..], b);
      assert (a + b)[1..] == a[1..] + b;
    } else {
      assert a + b == b;
    }
  }

  /** `_perform` succeeds exactly when a base domain is found, the provider
      lists at least one line, and the create request is accepted. */
  lemma PerformSucceeds(registry: Registry, domain: string, validationName: string, validation: string,
                        domainList: seq<string>, lines: seq<RecordLine>, created: Option<string>)
    ensures PerformStep(registry, domain, validationName, validation, domainList, lines, created).outcome.Pass?
        <==> ResolveBase(domain, domainList).Ok? && |lines| > 0 && created.Some?
  {
    SelectLineSpec(lines);
  }

  /** `_perform` sends at most one request, a create; it sends it exactly when
      base domain and line are found, under the base domain, for the sliced
      subdomain, with the validation token and the selected line's name, and
      logs it with the provider's answer. */
  lemma PerformRequest(registry: Registry, domain: string, validationName: string, validation: string,
                       domainList: seq<string>, lines: seq<RecordLine>, created: Option<string>)
    ensures var s := PerformStep(registry, domain, validationName, validation, domainList, lines, created);
      && |s.issued| <= 1
      && (|s.issued| == 1 <==> ResolveBase(domain, domainList).Ok? && |lines| > 0)
      && (|s.issued| == 1 ==>
            var b := ResolveBase(domain, domainList).value;
            && s.issued[0] == CreateTxt(s.issued[0].request, created)
            && s.issued[0].request.domain == b && b in domainList
            && s.issued[0].request.subDomain == SubDomain(validationName, b)
            && s.issued[0].request.value == validation
            && s.issued[0].request.recordLine == SelectLine(lines).value.name)
  {
    SelectLineSpec(lines);
    if ResolveBase(domain, domainList).Ok? {
      ResolveBaseFound(domain, domainList);
    }
  }

  /** The registry after `_perform`: on success the validation name maps to the
      base domain and the new record id, replacing any earlier entry; on failure
      nothing changes; no key is ever removed and no other key is touched. */
  lemma PerformRegistry(registry: Registry, domain: string, validationName: string, validation: string,
                        domainList: seq<string>, lines: seq<RecordLine>, created: Option<string>)
    ensures var s := PerformStep(registry, domain, validationName, validation, domainList, lines, created);
      && (s.outcome.Pass? ==>
            s.registry == registry[validationName := Provisioned(ResolveBase(domain, domainList).value, created.value)])
      && (s.outcome.Fail? ==> s.registry == registry)
      && registry.Keys <= s.registry.Keys
      && forall k :: k != validationName ==>
           (k in s.registry <==> k in registry) && (k in registry ==> s.registry[k] == registry[k])
  {
  }

  /** `_cleanup` never changes the registry; it sends one delete request for
      exactly the stored record when the name is known, and otherwise sends
      nothing and succeeds. */
  lemma CleanupSpec(registry: Registry, validationName: string, deleteAccepted: bool)
    ensures var s := CleanupStep(registry, validationName, deleteAccepted);
      && s.registry == registry
      && (validationName in registry ==>
            && s.issued == [DeleteTxt(registry[validationName].baseDomain, registry[validationName].recordId)]
            && (s.outcome.Pass? <==> deleteAccepted))
      && (validationName !in registry ==> s.issued == [] && s.outcome == Pass)
  {
  }

  /** Creating then cleaning up one validation name sends exactly one create
      and one delete, and the delete names the domain of the create and the id
      the provider returned for it. */
  lemma CreateThenCleanup(registry: Registry, domain: string, validationName: string, validation: string,
                          domainList: seq<string>, lines: seq<RecordLine>, id: string, deleteAccepted: bool)
    requires PerformStep(registry, domain, validationName, validation, domainList, lines, Some(id)).outcome.Pass?
    ensures var p := PerformStep(registry, domain, validationName, validation, domainList, lines, Some(id));
      var c := CleanupStep(p.registry, validationName, deleteAccepted);
      && CreateCount(p.issued + c.issued) == 1
      && DeleteCount(p.issued + c.issued) == 1
      && p.issued[0].CreateTxt? && p.issued[0].answer == Some(id)
      && c.issued == [DeleteTxt(p.issued[0].request.domain, id)]
  {
    var p := PerformStep(registry, domain, validationName, validation, domainList, lines, Some(id));
    var c := CleanupStep(p.registry, validationName, deleteAccepted);
    assert |p.issued| == 1 && p.issued[0].CreateTxt?;
    CountsAppend(p.issued, c.issued);
    assert p.issued[1..] == [] && c.issued[1..] == [];
  }

  /** Cleanup of a name with no entry, e.g. after a failed create, sends no
      delete and succeeds. */
  lemma CleanupUnknown(registry: Registry, validationName: string, deleteAccepted: bool)
    requires validationName !in registry
    ensures var c := CleanupStep(registry, validationName, deleteAccepted);
      DeleteCount(c.issued) == 0 && c.outcome == Pass
  {
  }

  /** Since cleanup keeps the entry, a second cleanup of the same name sends
      the same delete request again. */
  lemma CleanupTwice(registry: Registry, validationName: string, first: bool, second: bool)
    requires validationName in registry
    ensures var c1 := CleanupStep(registry, validationName, first);
      var c2 := CleanupStep(c1.registry, validationName, second);
      c2.issued == c1.issued && DeleteCount(c1.issued + c2.issued) == 2
  {
    var c1 := CleanupStep(registry, validationName, first);
    CountsAppend(c1.issued, c1.issued);
    assert c1.issued[1..] == [];
  }

  /** Some create logged in `log` went to `domain` for `subDomain` and the
      provider answered it with the record id `id`. */
  ghost predicate CreatedIn(log: seq<ProviderCall>, domain: string, subDomain: string, id: string)
  {
    exists i :: 0 <= i < |log| && log[i].CreateTxt? && log[i].answer == Some(id)
      && log[i].request.domain == domain && log[i].request.subDomain == subDomain
  }

  /** Every registry entry goes back to a successful create in the log, sent
      under the entry's base domain for the subdomain sliced from its key and
      answered with the entry's record id. */
  ghost predicate Provenance(registry: Registry, log: seq<ProviderCall>)
  {
    forall k :: k in registry ==>
      CreatedIn(log, registry[k].baseDomain, SubDomain(k, registry[k].baseDomain), registry[k].recordId)
  }

  /** A create found in a log is still found once more requests follow. */
  lemma CreatedInGrows(log: seq<ProviderCall>, more: seq<ProviderCall>, domain: string, subDomain: string, id: string)
    requires CreatedIn(log, domain, subDomain, id)
    ensures CreatedIn(log + more, domain, subDomain, id)
  {
    var i :| 0 <= i < |log| && log[i].CreateTxt? && log[i].answer == Some(id)
      && log[i].request.domain == domain && log[i].request.subDomain == subDomain;
    assert (log + more)[i] == log[i];
  }

  /** Appending requests to the log keeps every entry backed. */
  lemma ProvenanceGrows(registry: Registry, log: seq<ProviderCall>, more: seq<ProviderCall>)
    requires Provenance(registry, log)
    ensures Provenance(registry, log + more)
  {
    forall k | k in registry
      ensures CreatedIn(log + more, registry[k].baseDomain, SubDomain(k, registry[k].baseDomain), registry[k].recordId)
    {
      CreatedInGrows(log, more, registry[k].baseDomain, SubDomain(k, registry[k].baseDomain), registry[k].recordId);
    }
  }

  /** `_perform` keeps every registry entry backed by a successful create:
      an entry exists only once the provider returned its record id. */
  lemma PerformKeepsProvenance(registry: Registry, log: seq<ProviderCall>, domain: string, validationName: string,
                               validation: string, domainList: seq<string>, lines: seq<RecordLine>, created: Option<string>)
    requires Provenance(registry, log)
    ensures var s := PerformStep(registry, domain, validationName, validation, domainList, lines, created);
      Provenance(s.registry, log + s.issued)
  {
    var s := PerformStep(registry, domain, validationName, validation, domainList, lines, created);
    forall k | k in s.registry
      ensures CreatedIn(log + s.issued, s.registry[k].baseDomain, SubDomain(k, s.registry[k].baseDomain), s.registry[k].recordId)
    {
      if s.outcome.Pass? && k == validationName {
        assert (log + s.issued)[|log|] == s.issued[0];
      } else {
        CreatedInGrows(log, s.issued, registry[k].baseDomain, SubDomain(k, registry[k].baseDomain), registry[k].recordId);
      }
    }
  }

  /** When every entry is backed, the delete `_cleanup` sends names a record
      that a logged create returned, under that create's domain, for the
      validation name's subdomain: cleanup deletes exactly what was created. */
  lemma CleanupDeletesCreated(registry: Registry, log: seq<ProviderCall>, validationName: string, deleteAccepted: bool)
    requires Provenance(registry, log)
    ensures var s := CleanupStep(registry, validationName, deleteAccepted);
      forall j :: 0 <= j < |s.issued| ==>
        && s.issued[j].DeleteTxt?
        && CreatedIn(log, s.issued[j].domain, SubDomain(validationName, s.issued[j].domain), s.issued[j].recordId)
  {
  }

  /** End to end: for a certbot validation name (a prefix, a dot and the
      subject domain) the create `_perform` sends asks for a subdomain that,
      with a dot and the domain it is sent to, gives the validation name back. */
  lemma PerformRoundTrip(registry: Registry, prefix: string, domain: string, validation: string,
                         domainList: seq<string>, lines: seq<RecordLine>, created: Option<string>)
    ensures var s := PerformStep(registry, domain, prefix + [Dot] + domain, validation, domainList, lines, created);
      |s.issued| == 1 ==>
        s.issued[0].request.subDomain + [Dot] + s.issued[0].request.domain == prefix + [Dot] + domain
  {
    var vn := prefix + [Dot] + domain;
    if ResolveBase(domain, domainList).Ok? {
      var b := ResolveBase(domain, domainList).value;
      ResolvedIsSuffix(domain, domainList);
      UnderBaseOfDomain(prefix, domain, b);
      SubDomainRoundTrip(vn, b);
    }
  }

  /** The concrete run: "example.com" registered, default line listed first,
      challenge for "_acme-challenge.sub.example.com". */
  lemma ExampleRun(validation: string, id: string)
    ensures PerformStep(map[], "example.com", "_acme-challenge.sub.example.com", validation,
                        ["example.com"], [RecordLine("Default", "0"), RecordLine("China", "10")], Some(id))
         == Step(Pass, map["_acme-challenge.sub.example.com" := Provisioned("example.com", id)],
                 [CreateTxt(TxtRequest("example.com", "_acme-challenge.sub", validation, "Default"), Some(id))])
  {
    ExampleRequest(validation);
  }

  /** The create request of the concrete run. */
  lemma ExampleRequest(validation: string)
    ensures CreateRequest("example.com", "_acme-challenge.sub.example.com", validation,
                          ["example.com"], [RecordLine("Default", "0"), RecordLine("China", "10")])
         == Ok(TxtRequest("example.com", "_acme-challenge.sub", validation, "Default"))
  {
    ExampleResolves();
    DefaultLineChosen();
    ExampleSlice();
  }

  /** The subdomain sliced from the concrete validation name. */
  lemma ExampleSlice()
    ensures SubDomain("_acme-challenge.sub.example.com", "example.com") == "_acme-challenge.sub"
  {
    var vn := "_acme-challenge.sub.example.com";
    assert |vn| == 31;
    assert vn[..19] == "_acme-challenge.sub";
  }

  /** "example.com" is its own base domain when it is registered. */
  lemma ExampleResolves()
    ensures ResolveBase("example.com", ["example.com"]) == Ok("example.com")
  {
    var labels := ["example", "com"];
    assert Join(labels, Dot) == "example.com";
    SplitJoin(labels, Dot);
    ResolveBaseTwoLabels("example.com", ["example.com"]);
  }
}
