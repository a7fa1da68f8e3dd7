# DNSPod authenticator: challenge-record logic

A model of the core of the certbot DNSPod authenticator plugin, which fulfils
the ACME DNS-01 challenge (section 8.4 of RFC 8555) by creating a TXT record
on DNSPod and deleting it again after validation. The model keeps the
plugin's decisions and its bookkeeping and replaces every call to the
Tencent Cloud SDK by an input:

- **Labels** (`labels.dfy`): Python's `str.split(".")`, `".".join(...)` and
  `str.endswith(...)` on host names, with the round trips between split and
  join.
- **BaseDomain** (`base_domain.dfy`): `determine_base_domain` as a
  function `ResolveBase`. It tries the label suffixes of the
  subject domain, starting with the two rightmost labels and adding one label
  to the left at each step up to the whole domain. It returns the first one
  in the provider's domain list, or fails with every name it tried.
- **RecordLines** (`record_lines.dfy`): `determain_rec_line_of_base` as
  `SelectLine`. It picks the first line whose id is `"0"`, else the first
  line, and fails on an empty list.
- **Subdomain** (`subdomain.dfy`): the suffix check `chk_base_domain` and the
  slice `validation_name[:-(len(base_domain)+1)]`, with Python's clamping of
  an over-long negative slice.
- **Lifecycle** (`lifecycle.dfy`): `_perform` and `_cleanup` as functions
  from the registry (`cleanup_maps`) and the provider's answers to an
  outcome, a new registry and the list of provider requests sent. The lemmas
  about the create/cleanup lifecycle are stated on these functions.
- **Plugin** (`authenticator.dfy`): the `Authenticator` class. Its field
  `cleanupMaps` is updated in place, and a ghost field `issued` logs every
  create and delete request, each create with the provider's answer to it.
  The class invariant says that every map entry comes from a logged create
  that the provider answered with the entry's record id. Its two loops (`DetermineBaseDomain`,
  `DetermineRecordLine`) and its state-changing methods (`Perform`,
  `DeleteRecord`, `Cleanup`) are proved against the functions above.

The provider is modelled by parameters:
- the domain list, as a `seq<string>`;
- the record lines of the base domain, as a `seq<RecordLine>`;
- the answer to the create request, as `Option<string>` (the new record id, or a failure);
- the answer to the delete request, as a `bool`.

On these points the model follows what the code does:
- The code tries the SHORTEST suffix first (the two rightmost labels), not the
  most specific one. So with `example.com` and `a.example.com` both
  registered, a name under `a.example.com` resolves to `example.com`
  (`ShortestSuffixFirst`).
- The candidates end with the whole domain. A one-label domain has no
  candidates and always fails.
- `_perform` never calls `chk_base_domain`, so the slice runs unchecked. The
  model proves that the slice gives the subdomain back exactly when the name
  ends with `"." + base` (`SubDomainRoundTrip`). It also proves that this
  always holds when the validation name is a prefix, a dot and the subject
  domain (`UnderBaseOfDomain`).
- There is no separate "no line available" error. The empty-list index error
  is caught with every other failure and becomes one plugin error.
- `_cleanup` never removes the entry. A second cleanup sends the same delete
  again (`CleanupTwice`).

## Model

| member | source | states |
|---|---|---|
| `Labels.Split` | certbot_dnspod/certbot_dnspod_plugins.py:88 | Python's `domain.split(".")`: at least one piece, none containing a dot (empty pieces kept) |
| `Labels.EndsWith` | certbot_dnspod/certbot_dnspod_plugins.py:74 | Python's `endswith`: true iff the suffix is no longer than the string and matches its last characters one by one |
| `Labels.JoinAppend` | certbot_dnspod/certbot_dnspod_plugins.py:92 | Python's `".".join` of two non-empty runs of labels is the join of the first, a dot, and the join of the second |
| `Labels.JoinSplit` | certbot_dnspod/certbot_dnspod_plugins.py:88-92 | joining the pieces of `split(".")` with `"."` gives the domain back |
| `Labels.SplitJoin` | certbot_dnspod/certbot_dnspod_plugins.py:88-92 | splitting a join of dot-free labels gives the labels back |
| `BaseDomain.Candidates` | certbot_dnspod/certbot_dnspod_plugins.py:88-94 | the names the loop appends to `tried`, in order: one per label but the first, the j-th being the last j+2 labels |
| `BaseDomain.ResolveBase` | certbot_dnspod/certbot_dnspod_plugins.py:88-99 | the first candidate in the domain list, or the error with every candidate; a found name is in the list, no tried name is |
| `BaseDomain.ResolveBaseFound` | certbot_dnspod/certbot_dnspod_plugins.py:88-96 | resolution succeeds iff some suffix of k labels (2 ≤ k ≤ label count) is in the domain list; the result is in the list, is such a suffix, and no shorter suffix of at least two labels is in the list |
| `BaseDomain.ResolveBaseNotFound` | certbot_dnspod/certbot_dnspod_plugins.py:88-99 | on failure the tried list has label count − 1 names, the j-th being the last j+2 labels (shortest first), none of them registered |
| `BaseDomain.ResolveBaseSingleLabel` | certbot_dnspod/certbot_dnspod_plugins.py:88-99 | a domain without a dot always fails with an empty tried list |
| `BaseDomain.ResolveBaseTwoLabels` | certbot_dnspod/certbot_dnspod_plugins.py:88-99 | a two-label domain resolves to itself if registered, else fails with tried == [domain] |
| `BaseDomain.LabelSuffixOfDomain` | certbot_dnspod/certbot_dnspod_plugins.py:88-92 | the last k labels form the whole domain (k = label count) or a suffix that follows a dot |
| `BaseDomain.ResolvedIsSuffix` | certbot_dnspod/certbot_dnspod_plugins.py:88-96 | a resolved base domain is the domain itself or ends it after a dot |
| `BaseDomain.ShortestSuffixFirst` | certbot_dnspod/certbot_dnspod_plugins.py:90-96 | with example.com and a.example.com registered, x.a.example.com resolves to example.com |
| `BaseDomain.UnregisteredTwoLabels` | certbot_dnspod/certbot_dnspod_plugins.py:88-99 | unregistered.org against [example.com] fails having tried [unregistered.org] |
| `Plugin.Authenticator.DetermineBaseDomain` | certbot_dnspod/certbot_dnspod_plugins.py:80-99 | the while loop over i with its early return computes exactly `ResolveBase` (found name or the full tried list) |
| `RecordLines.SelectLine` | certbot_dnspod/certbot_dnspod_plugins.py:105-109 | the selected line; it fails iff the list is empty, and a selected line is an element of the list |
| `RecordLines.SelectLineSpec` | certbot_dnspod/certbot_dnspod_plugins.py:105-109 | selection fails iff the list is empty; it returns the first line with id "0" wherever it sits, else the first line, and always an element of the list |
| `RecordLines.DefaultLineChosen` | certbot_dnspod/certbot_dnspod_plugins.py:106-107 | [Default/"0", China/"10"] selects Default |
| `Plugin.Authenticator.DetermineRecordLine` | certbot_dnspod/certbot_dnspod_plugins.py:100-109 | the for loop with its early return computes exactly `SelectLine`, None standing for the index error on an empty list |
| `Subdomain.ChkBaseDomain` | certbot_dnspod/certbot_dnspod_plugins.py:73-78 | passes iff the name is longer than the base, has a dot right before the base's length from the end, and ends with the base; on failure it carries both strings |
| `Subdomain.SubDomain` | certbot_dnspod/certbot_dnspod_plugins.py:144 | the slice is a prefix of the validation name, len(base)+1 shorter, or empty when the name is not longer than the base |
| `Subdomain.SubDomainRoundTrip` | certbot_dnspod/certbot_dnspod_plugins.py:144 | sub + "." + base == validation name iff the name ends with "." + base |
| `Subdomain.UnderBaseOfDomain` | certbot_dnspod/certbot_dnspod_plugins.py:140-144 | for a validation name that is a prefix, a dot and the domain, a base that is the domain or a dot-suffix of it passes the suffix check, so the unchecked slice is correct |
| `Lifecycle.CreateRequest` | certbot_dnspod/certbot_dnspod_plugins.py:140-150 | a create request exists iff a base domain is found and a line is listed; it goes to a listed domain, with the subdomain sliced from the validation name and the validation token |
| `Lifecycle.PerformStep` | certbot_dnspod/certbot_dnspod_plugins.py:139-159 | `_perform` on the map: at most one request, a create logged with the provider's answer; no key removed; map unchanged on failure; on success the returned id stored under the validation name |
| `Lifecycle.CleanupStep` | certbot_dnspod/certbot_dnspod_plugins.py:175-184 | `_cleanup` on the map: the map unchanged; one request for a known name, none for an unknown one; a failure only when a delete failed |
| `Lifecycle.PerformSucceeds` | certbot_dnspod/certbot_dnspod_plugins.py:139-159 | `_perform` succeeds iff a base domain is found, the line list is non-empty and the create is accepted; every other case is one plugin error |
| `Lifecycle.PerformRequest` | certbot_dnspod/certbot_dnspod_plugins.py:140-152 | at most one request is sent, a create, exactly when base domain and line are found, with (registered base domain, sliced subdomain, validation token, selected line name), logged with the provider's answer |
| `Lifecycle.PerformRegistry` | certbot_dnspod/certbot_dnspod_plugins.py:152-159 | on success the map gains or overwrites validation name ↦ (base domain, record id); on failure it is unchanged; no key is removed and no other key changes |
| `Lifecycle.PerformKeepsProvenance` | certbot_dnspod/certbot_dnspod_plugins.py:152-154 | every map entry stays backed by a logged create, sent under its base domain for the subdomain sliced from its key, that the provider answered with the entry's record id: an entry exists only after a successful create |
| `Lifecycle.CleanupDeletesCreated` | certbot_dnspod/certbot_dnspod_plugins.py:175-178 | when every entry is backed, the delete cleanup sends names a record id that a logged create returned, under that create's domain, for the validation name's subdomain |
| `Lifecycle.PerformRoundTrip` | certbot_dnspod/certbot_dnspod_plugins.py:140-150 | for a validation name that is a prefix, a dot and the subject domain, the create's subdomain, a dot and its domain give the validation name back |
| `Lifecycle.ExampleRun` | certbot_dnspod/certbot_dnspod_plugins.py:139-154 | example.com / _acme-challenge.sub.example.com with a default line sends one create (example.com, _acme-challenge.sub, token, Default) and stores the returned id |
| `Lifecycle.CleanupSpec` | certbot_dnspod/certbot_dnspod_plugins.py:175-184 | cleanup leaves the map unchanged; for a known name it sends exactly one delete with the stored (base domain, record id) and fails iff that delete fails; for an unknown name it sends nothing and succeeds |
| `Lifecycle.CreateThenCleanup` | certbot_dnspod/certbot_dnspod_plugins.py:152-178 | a successful create followed by cleanup sends one create and one delete in all, the create logged with the returned id and the delete naming the create's domain and that id |
| `Lifecycle.CleanupUnknown` | certbot_dnspod/certbot_dnspod_plugins.py:175-184 | cleanup of a name never stored sends no delete and does not fail |
| `Lifecycle.CleanupTwice` | certbot_dnspod/certbot_dnspod_plugins.py:175-178 | since the entry is kept, a second cleanup sends the same delete again (two deletes in all) |
| `Plugin.Authenticator.constructor` | certbot_dnspod/certbot_dnspod_plugins.py:29-35 | the map starts empty and no request has been sent |
| `Plugin.Authenticator.Perform` | certbot_dnspod/certbot_dnspod_plugins.py:136-159 | outcome, new map and appended requests are those of `PerformStep` on the old map; the provenance invariant is kept |
| `Plugin.Authenticator.DeleteRecord` | certbot_dnspod/certbot_dnspod_plugins.py:161-166 | appends exactly one delete request with the given domain and record id; fails iff the provider refuses; the class invariant is kept |
| `Plugin.Authenticator.Cleanup` | certbot_dnspod/certbot_dnspod_plugins.py:167-184 | outcome and appended requests are those of `CleanupStep`; the map is unchanged; the delete it sends names a record id a logged create returned, for the validation name's subdomain |

## Left out

- Credential handling (`_setup_credentials`, `_validate_credentials`, `chk_exist`, `chk_environ_exist`): configuration-file and environment I/O.
- Plugin registration and command line (`add_parser_arguments`, `more_info`, `description`) and `setup.py`: packaging and host plumbing.
- The Tencent Cloud SDK request/response objects and the `DnspodClient` network calls: replaced by the input parameters listed above.
- Failures of the two listing calls (`DescribeDomainList`, `DescribeRecordLineCategoryList`): the lists are taken as given. Such a failure would be caught like every other failure before the create request.
- Debug `print` output, the `debug` option and the unused credential built in `_cleanup`: observational only.
- Exception message text: failures are tagged values (`PerformFailure`, `PluginError`) carrying the data the messages show (tried names, the two strings of the suffix check) instead of the underlying exception text. `DeleteFailed` also carries the stored (domain, record id), which the source's delete-failure message does not show.
