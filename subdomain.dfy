/**
 * The validation name seen against the resolved base domain: the suffix
 * check and the slice that extracts the subdomain part.
 */
module Subdomain {
  import opened Wrappers
  import opened Labels

  /** `validation_name[:-(len(base_domain) + 1)]` with Python's clamping: a
      cut longer than the name leaves the empty string. */
  function SubDomain(validationName: string, baseDomain: string): (sub: string)
    ensures |sub| == if |validationName| > |baseDomain| then |validationName| - |baseDomain| - 1 else 0
    ensures sub <= validationName
  {
    var cut := |baseDomain| + 1;
    if cut <= |validationName| then validationName[..|validationName| - cut] else ""
  }

  /** Does the validation name end with "." followed by the base domain? */
  predicate UnderBase(validationName: string, baseDomain: string)
  {
    EndsWith(validationName, [Dot] + baseDomain)
  }

  /** The check `chk_base_domain` performs: it fails, naming both strings,
      exactly when the validation name is not the base domain with at least
      a dot in front of it. */
  function ChkBaseDomain(baseDomain: string, validationName: string): (r: Outcome<(string, string)>)
    ensures r.Pass? <==>
      (&& |validationName| > |baseDomain|
       && validationName[|validationName| - |baseDomain| - 1] == Dot
       && validationName[|validationName| - |baseDomain|..] == baseDomain)
    ensures r.Fail? ==> r.error == (baseDomain, validationName)
  {
    UnderBaseAt(validationName, baseDomain);
    if UnderBase(validationName, baseDomain) then Pass else Fail((baseDomain, validationName))
  }

  /** Ending with "." + base means: longer than base, a dot just before the
      last |base| characters, and those characters are base. */
  lemma UnderBaseAt(validationName: string, baseDomain: string)
    ensures UnderBase(validationName, baseDomain) <==>
      (&& |validationName| > |baseDomain|
       && validationName[|validationName| - |baseDomain| - 1] == Dot
       && validationName[|validationName| - |baseDomain|..] == baseDomain)
  {
    if |validationName| > |baseDomain| {
      var n := |validationName| - |baseDomain| - 1;
      assert validationName[n..] == [validationName[n]] + validationName[n + 1..];
    }
  }

  /** The slice gives the subdomain back exactly when the check would pass:
      `sub + "." + base == validation_name` if and only if the name ends with
      "." + base. */
  lemma SubDomainRoundTrip(validationName: string, baseDomain: string)
    ensures SubDomain(validationName, baseDomain) + [Dot] + baseDomain == validationName
        <==> UnderBase(validationName, baseDomain)
  {
    var sub := SubDomain(validationName, baseDomain);
    var tail := [Dot] + baseDomain;
    if UnderBase(validationName, baseDomain) {
      assert validationName == validationName[..|validationName| - |tail|] + validationName[|validationName| - |tail|..];
    }
  }

  /** Certbot's validation names are a prefix, a dot and the subject domain; a
      dot-suffix of the domain (or the domain itself) is then a dot-suffix of
      the validation name, so the unchecked slice is the right one. */
  lemma UnderBaseOfDomain(prefix: string, domain: string, baseDomain: string)
    requires baseDomain == domain || EndsWith(domain, [Dot] + baseDomain)
    ensures UnderBase(prefix + [Dot] + domain, baseDomain)
  {
    var vn := prefix + [Dot] + domain;
    var tail := [Dot] + baseDomain;
    if baseDomain == domain {
      assert vn[|vn| - |tail|..] == tail;
    } else {
      assert vn[|vn| - |tail|..] == domain[|domain| - |tail|..];
    }
  }
}
