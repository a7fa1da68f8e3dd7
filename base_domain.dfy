/**
 * Base-domain resolution: which of the subject domain's label suffixes is a
 * domain registered with the DNS provider. The candidates are tried from the
 * two rightmost labels outwards, one more label each step, ending with the
 * whole domain; the first registered one wins.
 */
module BaseDomain {
  import opened Wrappers
  import opened Labels

  /** The name made of the last k labels. */
  function LabelSuffix(labels: seq<string>, k: nat): string
    requires k <= |labels|
  {
    Join(labels[|labels| - k..], Dot)
  }

  /** Every name the resolver tries, in the order it tries them: the last two
      labels, then the last three, and so on up to all of them. */
  function Candidates(labels: seq<string>): (cands: seq<string>)
    ensures |labels| >= 1 ==> |cands| == |labels| - 1
    ensures forall j :: 0 <= j < |cands| ==> j + 2 <= |labels| && cands[j] == LabelSuffix(labels, j + 2)
  {
    if |labels| < 2 then []
    else seq(|labels| - 1, j requires 0 <= j < |labels| - 1 => Join(labels[|labels| - 2 - j..], Dot))
  }

  /** The position of the first candidate that is in the provider's domain
      list, or |cands| when there is none. */
  function FirstRegistered(cands: seq<string>, domainList: seq<string>): (j: nat)
    ensures j <= |cands|
    ensures j < |cands| ==> cands[j] in domainList
    ensures forall i :: 0 <= i < j ==> cands[i] !in domainList
    decreases |cands|
  {
    if |cands| == 0 then 0
    else if cands[0] in domainList then 0
    else 1 + FirstRegistered(cands[1..], domainList)
  }

  /** The base domain of `domain`, or every candidate tried when none of them
      is registered: a found name is in the domain list, a tried one is not. */
  function ResolveBase(domain: string, domainList: seq<string>): (r: Result<string, seq<string>>)
    ensures r.Ok? ==> r.value in domainList
    ensures r.Err? ==> forall t :: t in r.error ==> t !in domainList
  {
    var cands := Candidates(Split(domain, Dot));
    var j := FirstRegistered(cands, domainList);
    if j < |cands| then Ok(cands[j]) else Err(cands)
  }

  /** Resolution succeeds exactly when some suffix of at least two labels is
      registered, and then returns the SHORTEST registered one. */
  lemma ResolveBaseFound(domain: string, domainList: seq<string>)
    ensures var labels := Split(domain, Dot);
      ResolveBase(domain, domainList).Ok? <==>
        exists k :: 2 <= k <= |labels| && LabelSuffix(labels, k) in domainList
    ensures var labels := Split(domain, Dot);
      ResolveBase(domain, domainList).Ok? ==>
        var b := ResolveBase(domain, domainList).value;
        && b in domainList
        && exists k :: 2 <= k <= |labels| && b == LabelSuffix(labels, k)
             && forall k' :: 2 <= k' < k ==> LabelSuffix(labels, k') !in domainList
  {
    var labels := Split(domain, Dot);
    var cands := Candidates(labels);
    var j := FirstRegistered(cands, domainList);
    if j < |cands| {
      var k := j + 2;
      assert LabelSuffix(labels, k) == cands[j];
      forall k' | 2 <= k' < k ensures LabelSuffix(labels, k') !in domainList {
        assert cands[k' - 2] == LabelSuffix(labels, k');
      }
    } else {
      forall k | 2 <= k <= |labels| ensures LabelSuffix(labels, k) !in domainList {
        assert cands[k - 2] == LabelSuffix(labels, k);
      }
    }
  }

  /** On failure the error lists one candidate per label but the first, from
      the shortest to the whole domain, and none of them is registered. */
  lemma ResolveBaseNotFound(domain: string, domainList: seq<string>)
    ensures var labels := Split(domain, Dot);
      ResolveBase(domain, domainList).Err? ==>
        var tried := ResolveBase(domain, domainList).error;
        && |tried| == |labels| - 1
        && forall j :: 0 <= j < |tried| ==> tried[j] == LabelSuffix(labels, j + 2) && tried[j] !in domainList
  {
  }

  /** A one-label domain has no candidate, so resolution always fails with an
      empty list of tried names. */
  lemma ResolveBaseSingleLabel(domain: string, domainList: seq<string>)
    requires Dot !in domain
    ensures ResolveBase(domain, domainList) == Err([])
  {
    SplitFree(domain, Dot);
  }

  /** A two-label domain has exactly one candidate, the domain itself. */
  lemma ResolveBaseTwoLabels(domain: string, domainList: seq<string>)
    requires LabelCount(domain) == 2
    ensures ResolveBase(domain, domainList) == if domain in domainList then Ok(domain) else Err([domain])
  {
    var labels := Split(domain, Dot);
    JoinSplit(domain, Dot);
    assert labels[0..] == labels;
    assert Candidates(labels) == [domain];
  }

  /** Every candidate is the whole domain or follows a dot at its end: it is a
      suffix of the domain on a label boundary. */
  lemma LabelSuffixOfDomain(domain: string, k: nat)
    requires 1 <= k <= LabelCount(domain)
    ensures var b := LabelSuffix(Split(domain, Dot), k);
      if k == LabelCount(domain) then b == domain else EndsWith(domain, [Dot] + b)
  {
    var labels := Split(domain, Dot);
    JoinSplit(domain, Dot);
    if k == |labels| {
      assert labels[0..] == labels;
    } else {
      InnerLabelSuffix(labels, k);
    }
  }

  /** Fewer than all labels: their join follows a dot at the end of the join
      of all labels. */
  lemma InnerLabelSuffix(labels: seq<string>, k: nat)
    requires 1 <= k < |labels|
    ensures EndsWith(Join(labels, Dot), [Dot] + LabelSuffix(labels, k))
  {
    var i := |labels| - k;
    JoinAt(labels, i, Dot);
    EndsWithAfterDot(Join(labels, Dot), Join(labels[..i], Dot), Join(labels[i..], Dot));
  }

  /** A name made of a prefix, a dot and b ends with "." + b. */
  lemma EndsWithAfterDot(name: string, p: string, b: string)
    requires name == p + [Dot] + b
    ensures EndsWith(name, [Dot] + b)
  {
    assert name == p + ([Dot] + b);
    assert name[|p|..] == [Dot] + b;
  }

  /** A resolved base domain is the domain itself or a dot-suffix of it. */
  lemma ResolvedIsSuffix(domain: string, domainList: seq<string>)
    requires ResolveBase(domain, domainList).Ok?
    ensures var b := ResolveBase(domain, domainList).value;
      b == domain || EndsWith(domain, [Dot] + b)
  {
    var labels := Split(domain, Dot);
    var cands := Candidates(labels);
    var j := FirstRegistered(cands, domainList);
    LabelSuffixOfDomain(domain, j + 2);
  }

  /** With both "example.com" and "a.example.com" registered, a name under
      "a.example.com" resolves to the shorter "example.com", because shorter
      suffixes are tried first. */
  lemma ShortestSuffixFirst()
    ensures ResolveBase("x.a.example.com", ["example.com", "a.example.com"]) == Ok("example.com")
  {
    var labels := ["x", "a", "example", "com"];
    assert Join(["example", "com"], Dot) == "example.com";
    assert labels[2..] == ["example", "com"] && labels[1..] == ["a", "example", "com"];
    assert Join(labels[1..], Dot) == "a.example.com";
    assert Join(labels, Dot) == "x.a.example.com";
    SplitJoin(labels, Dot);
    var cands := Candidates(labels);
    assert cands[0] == "example.com";
    assert FirstRegistered(cands, ["example.com", "a.example.com"]) == 0;
  }

  /** A two-label domain that is not registered fails having tried only itself. */
  lemma UnregisteredTwoLabels()
    ensures ResolveBase("unregistered.org", ["example.com"]) == Err(["unregistered.org"])
  {
    var labels := ["unregistered", "org"];
    assert Join(labels, Dot) == "unregistered.org";
    SplitJoin(labels, Dot);
    ResolveBaseTwoLabels("unregistered.org", ["example.com"]);
  }
}
