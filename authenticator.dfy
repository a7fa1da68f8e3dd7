/**
 * The DNSPod authenticator: its one piece of mutable state is the map from
 * validation name to the record created for it (`cleanup_maps`). The DNS
 * provider is not called; each provider answer is a parameter, and a ghost
 * log records every create and delete request sent.
 */
module Plugin {
  import opened Wrappers
  import opened Labels
  import opened BaseDomain
  import opened RecordLines
  import opened Subdomain
  import opened Lifecycle

  class Authenticator {
    var cleanupMaps: Registry
    ghost var issued: seq<ProviderCall>

    /** Every entry of the map is backed by a logged create that the provider
        answered with the entry's record id. */
    ghost predicate Valid()
      reads this
    {
      Provenance(cleanupMaps, issued)
    }

    constructor ()
      ensures Valid()
      ensures cleanupMaps == map[] && issued == []
    {
      cleanupMaps := map[];
      issued := [];
    }

    /** `determine_base_domain`: walks the label suffixes of `domain` from the
        two rightmost labels outwards and returns the first one in the
        provider's domain list, or the list of every name tried. */
    method DetermineBaseDomain(domain: string, domainList: seq<string>) returns (r: Result<string, seq<string>>)
      ensures r == ResolveBase(domain, domainList)
    {
      var segments := Split(domain, Dot);
      ghost var cands := Candidates(segments);
      ghost var first := FirstRegistered(cands, domainList);
      var tried: seq<string> := [];
      var i := |segments| - 2;
      while i >= 0
        invariant -1 <= i <= |segments| - 2
        invariant |tried| == |segments| - 2 - i
        invariant tried == cands[..|tried|]
        invariant first >= |tried|
      {
        var dt := Join(segments[i..], Dot);
        ghost var at := |tried|;
        assert dt == cands[at];
        tried := tried + [dt];
        i := i - 1;
        if dt in domainList {
          assert first == at;
          return Ok(dt);
        }
      }
      assert tried == cands;
      return Err(tried);
    }

    /** `determain_rec_line_of_base`: the first line whose id is the default
        id, else the first line; None for the empty list, where the source's
        `line_infos[0]` raises. */
    method DetermineRecordLine(lineInfos: seq<RecordLine>) returns (r: Option<RecordLine>)
      ensures r == SelectLine(lineInfos)
    {
      var k := 0;
      while k < |lineInfos|
        invariant 0 <= k <= |lineInfos|
        invariant forall i :: 0 <= i < k ==> lineInfos[i].id != DefaultLineId
      {
        if lineInfos[k].id == DefaultLineId {
          return Some(lineInfos[k]);
        }
        k := k + 1;
      }
      if |lineInfos| == 0 {
        return None;
      }
      return Some(lineInfos[0]);
    }

    /** `_perform`: resolves the base domain and the record line, sends one
        create request for the sliced subdomain and, once the provider returns
        a record id, stores it under the validation name. Any failure leaves
        the map as it was. */
    method Perform(domain: string, validationName: string, validation: string,
                   domainList: seq<string>, lineInfos: seq<RecordLine>, created: Option<string>)
      returns (r: Outcome<PluginError>)
      requires Valid()
      modifies this
      ensures Valid()
      ensures var s := PerformStep(old(cleanupMaps), domain, validationName, validation, domainList, lineInfos, created);
        && r == s.outcome
        && cleanupMaps == s.registry
        && issued == old(issued) + s.issued
    {
      PerformKeepsProvenance(cleanupMaps, issued, domain, validationName, validation, domainList, lineInfos, created);
      var base := DetermineBaseDomain(domain, domainList);
      if base.Err? {
        return Fail(ApplyFailed(BaseDomainNotFound(base.error)));
      }
      var line := DetermineRecordLine(lineInfos);
      if line.None? {
        return Fail(ApplyFailed(NoRecordLine));
      }
      var subDomain := SubDomain(validationName, base.value);
      issued := issued + [CreateTxt(TxtRequest(base.value, subDomain, validation, line.value.name), created)];
      if created.None? {
        return Fail(ApplyFailed(CreateRejected));
      }
      cleanupMaps := cleanupMaps[validationName := Provisioned(base.value, created.value)];
      r := Pass;
    }

    /** `delete_record`: sends one delete request; `accepted` is the
        provider's answer. */
    method DeleteRecord(domain: string, recordId: string, accepted: bool) returns (ok: bool)
      requires Valid()
      modifies this`issued
      ensures Valid()
      ensures issued == old(issued) + [DeleteTxt(domain, recordId)]
      ensures ok == accepted
    {
      ProvenanceGrows(cleanupMaps, issued, [DeleteTxt(domain, recordId)]);
      issued := issued + [DeleteTxt(domain, recordId)];
      ok := accepted;
    }

    /** `_cleanup`: deletes the record stored for the validation name; a name
        with no entry is not an error. The map is left as it was, and the
        delete it sends names a record id that a logged create returned. */
    method Cleanup(validationName: string, deleteAccepted: bool) returns (r: Outcome<PluginError>)
      requires Valid()
      modifies this`issued
      ensures Valid()
      ensures var s := CleanupStep(cleanupMaps, validationName, deleteAccepted);
        && r == s.outcome
        && issued == old(issued) + s.issued
      ensures cleanupMaps == old(cleanupMaps)
      ensures forall j :: |old(issued)| <= j < |issued| ==>
        && issued[j].DeleteTxt?
        && CreatedIn(old(issued), issued[j].domain, SubDomain(validationName, issued[j].domain), issued[j].recordId)
    {
      CleanupDeletesCreated(cleanupMaps, issued, validationName, deleteAccepted);
      if validationName in cleanupMaps {
        var p := cleanupMaps[validationName];
        var ok := DeleteRecord(p.baseDomain, p.recordId, deleteAccepted);
        if !ok {
          return Fail(DeleteFailed(p.baseDomain, p.recordId));
        }
      }
      r := Pass;
    }
  }
}
