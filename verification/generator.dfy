/** The two domain-generating mutations of the server: `generateDomains`,
    which pairs every stored prefix with every stored suffix, and
    `generateDomain`, which expands one name over four extensions. */
module Generator {
  import opened Options
  import opened Ascii
  import Checkout
  import opened Availability
  import opened Items
  import Cartesian

  /** A candidate domain. `extension` is absent from `generateDomains` records. */
  datatype Domain = Domain(name: string, extension: Option<string>, checkout: string, available: bool)

  /** The one extension `generateDomains` checks. */
  const ComBr: string := ".com.br"

  /** The extensions `generateDomain` expands a name over, in output order. */
  const Extensions: seq<string> := [".com.br", ".com", ".net", ".org"]

  /** The record built for one prefix/suffix pair: the name is the plain
      concatenation of the two descriptions; only the label and host are
      lower-cased. */
  function Combine(prefix: Item, suffix: Item, resolve: Resolver): (d: Domain)
    ensures d.name == prefix.description + suffix.description
    ensures Built(d, resolve)
  {
    var name := prefix.description + suffix.description;
    var url := Lower(name);
    Domain(name, None, Checkout.Url(url, ComBr), IsDomainAvailable(resolve, url + ComBr))
  }

  /** `Combine` under one resolver, as the pair function of the nested loops. */
  function Pairing(resolve: Resolver): (Item, Item) -> Domain {
    (prefix, suffix) => Combine(prefix, suffix, resolve)
  }

  /** What `generateDomains` returns for a given store content: the nested
      loops over the prefix group and the suffix group, one record per pair. */
  function GenerateDomainsSpec(items: seq<Item>, resolve: Resolver): (r: seq<Domain>)
    ensures |r| == |Tagged(items, PrefixTag)| * |Tagged(items, SuffixTag)|
  {
    Cartesian.Product(Tagged(items, PrefixTag), Tagged(items, SuffixTag), Pairing(resolve))
  }

  /** The record `generateDomain` builds for one extension. */
  function Candidate(name: string, extension: string, resolve: Resolver): (d: Domain)
    ensures d.name == name
    ensures d.extension == Some(extension)
    ensures d.checkout == Checkout.Url(Lower(name), extension)
    ensures d.available <==> resolve(Lower(name) + extension).ResolveError?
  {
    var url := Lower(name);
    Domain(name, Some(extension), Checkout.Url(url, extension), IsDomainAvailable(resolve, url + extension))
  }

  /** The host generateDomains looks up for a record. */
  function Host(d: Domain): string {
    Lower(d.name) + ComBr
  }

  /** A generateDomains record: no extension, checkout link and availability
      both taken over the lower-cased name under ".com.br". */
  predicate Built(d: Domain, resolve: Resolver) {
    && d.extension == None
    && d.checkout == Checkout.Url(Lower(d.name), ComBr)
    && (d.available <==> resolve(Host(d)).ResolveError?)
  }

  // ---------------------------------------------------------------------------
  // Properties of generateDomains

  /** generateDomains returns (#items tagged "prefixe") * (#items tagged
      "sufixe") records. */
  lemma GenerateDomainsCount(items: seq<Item>, resolve: Resolver)
    ensures |GenerateDomainsSpec(items, resolve)| == |TaggedIndices(items, PrefixTag)| * |TaggedIndices(items, SuffixTag)|
  {
    TaggedLength(items, PrefixTag);
    TaggedLength(items, SuffixTag);
  }

  /** With P and S the prefix and suffix groups in store order, the record at
      `i*|S| + j` is built from P[i] and S[j]: its name is their descriptions
      concatenated as they are. */
  lemma GenerateDomainsOrder(items: seq<Item>, resolve: Resolver, i: nat, j: nat)
    requires i < |Tagged(items, PrefixTag)| && j < |Tagged(items, SuffixTag)|
    ensures i * |Tagged(items, SuffixTag)| + j < |GenerateDomainsSpec(items, resolve)|
    ensures GenerateDomainsSpec(items, resolve)[i * |Tagged(items, SuffixTag)| + j]
      == Combine(Tagged(items, PrefixTag)[i], Tagged(items, SuffixTag)[j], resolve)
    ensures GenerateDomainsSpec(items, resolve)[i * |Tagged(items, SuffixTag)| + j].name
      == Tagged(items, PrefixTag)[i].description + Tagged(items, SuffixTag)[j].description
  {
    Cartesian.ProductCell(Tagged(items, PrefixTag), Tagged(items, SuffixTag), Pairing(resolve), i, j);
  }

  /** The result is empty exactly when there is no prefix item or no suffix item. */
  lemma GenerateDomainsEmpty(items: seq<Item>, resolve: Resolver)
    ensures GenerateDomainsSpec(items, resolve) == [] <==>
      (forall x :: x in items ==> x.tag != PrefixTag) || (forall x :: x in items ==> x.tag != SuffixTag)
  {
    var P := Tagged(items, PrefixTag);
    var S := Tagged(items, SuffixTag);
    if |P| > 0 {
      TaggedMembers(items, PrefixTag, P[0]);
    } else {
      forall x | x in items ensures x.tag != PrefixTag {
        TaggedMembers(items, PrefixTag, x);
      }
    }
    if |S| > 0 {
      TaggedMembers(items, SuffixTag, S[0]);
    } else {
      forall x | x in items ensures x.tag != SuffixTag {
        TaggedMembers(items, SuffixTag, x);
      }
    }
    if |P| > 0 && |S| > 0 {
      assert |P| * |S| > 0;
    }
  }

  /** An item whose tag is neither exactly "prefixe" nor exactly "sufixe"
      (so also "Prefixe", "prefix", "suffix") never changes the output,
      wherever it sits in the store. */
  lemma UntaggedItemIgnored(before: seq<Item>, x: Item, after: seq<Item>, resolve: Resolver)
    requires x.tag != PrefixTag && x.tag != SuffixTag
    ensures GenerateDomainsSpec(before + [x] + after, resolve) == GenerateDomainsSpec(before + after, resolve)
  {
    TaggedSkip(before, x, after, PrefixTag);
    TaggedSkip(before, x, after, SuffixTag);
  }

  /** Every generateDomains record is built over its own name. */
  lemma GenerateDomainsBuilt(items: seq<Item>, resolve: Resolver)
    ensures forall k :: 0 <= k < |GenerateDomainsSpec(items, resolve)| ==> Built(GenerateDomainsSpec(items, resolve)[k], resolve)
  {
    var P := Tagged(items, PrefixTag);
    var S := Tagged(items, SuffixTag);
    forall k | 0 <= k < |GenerateDomainsSpec(items, resolve)|
      ensures Built(GenerateDomainsSpec(items, resolve)[k], resolve)
    {
      Cartesian.ProductCover(P, S, Pairing(resolve), k);
    }
  }

  /** Every generateDomains checkout parses back to the lower-cased pair name
      and ".com.br", provided neither description lower-cases to text with `&`. */
  lemma GenerateDomainsCheckoutParses(prefix: Item, suffix: Item, resolve: Resolver)
    requires '&' !in Lower(prefix.description) && '&' !in Lower(suffix.description)
    ensures Checkout.Parse(Combine(prefix, suffix, resolve).checkout)
      == Some((Lower(prefix.description) + Lower(suffix.description), ComBr))
  {
    LowerAppend(prefix.description, suffix.description);
    Checkout.ParseUrl(Lower(prefix.description) + Lower(suffix.description), ComBr);
  }

  /** A store of Sun (prefix) and Flower (suffix) gives one record: the name
      kept as typed, the checkout label and host lower-cased. */
  lemma SunFlowerExample(resolve: Resolver)
    ensures GenerateDomainsSpec([Item(1, "prefixe", "Sun"), Item(2, "sufixe", "Flower")], resolve)
      == [Domain("SunFlower", None, Checkout.Url("sunflower", ".com.br"), IsDomainAvailable(resolve, "sunflower.com.br"))]
  {
    var sun := Item(1, "prefixe", "Sun");
    var flower := Item(2, "sufixe", "Flower");
    SunFlowerGroups(sun, flower);
    SunFlowerRecord(sun, flower, resolve);
    assert GenerateDomainsSpec([sun, flower], resolve) == Cartesian.Product([sun], [flower], Pairing(resolve));
    assert [sun][..0] == [] && [flower][..0] == [];
    assert Cartesian.Row(sun, [flower], Pairing(resolve)) == [Combine(sun, flower, resolve)];
    assert Cartesian.Product([sun], [flower], Pairing(resolve)) == Cartesian.Row(sun, [flower], Pairing(resolve));
  }

  /** The example store splits into one prefix and one suffix. */
  lemma SunFlowerGroups(sun: Item, flower: Item)
    requires sun == Item(1, "prefixe", "Sun") && flower == Item(2, "sufixe", "Flower")
    ensures Tagged([sun, flower], PrefixTag) == [sun]
    ensures Tagged([sun, flower], SuffixTag) == [flower]
  {
  }

  /** The one record of the example. */
  lemma SunFlowerRecord(sun: Item, flower: Item, resolve: Resolver)
    requires sun == Item(1, "prefixe", "Sun") && flower == Item(2, "sufixe", "Flower")
    ensures Combine(sun, flower, resolve)
      == Domain("SunFlower", None, Checkout.Url("sunflower", ".com.br"), IsDomainAvailable(resolve, "sunflower.com.br"))
  {
    SunFlowerLower();
    var d := Combine(sun, flower, resolve);
    assert d.name == "SunFlower";
    assert Lower(d.name) == "sunflower";
    assert d.available == IsDomainAvailable(resolve, "sunflower.com.br");
  }

  /** The name and lower-cased host of the example pair. */
  lemma SunFlowerLower()
    ensures "Sun" + "Flower" == "SunFlower"
    ensures Lower("Sun" + "Flower") == "sunflower"
    ensures Lower("Sun" + "Flower") + ComBr == "sunflower.com.br"
  {
  }

  /** Appending a row and its hosts keeps every host next to its record. */
  lemma HostsAppend(domains: seq<Domain>, lookups: seq<string>, row: seq<Domain>, hosts: seq<string>)
    requires |lookups| == |domains| && |hosts| == |row|
    requires forall k :: 0 <= k < |domains| ==> lookups[k] == Host(domains[k])
    requires forall k :: 0 <= k < |row| ==> hosts[k] == Host(row[k])
    ensures forall k :: 0 <= k < |domains + row| ==> (lookups + hosts)[k] == Host((domains + row)[k])
  {
  }

  /** The inner loop of generateDomains: one prefix against every suffix in
      order. `hosts` lists the names handed to the resolver, in the order they
      are awaited. */
  method PairWithSuffixes(prefix: Item, suffixes: seq<Item>, resolve: Resolver) returns (row: seq<Domain>, hosts: seq<string>)
    ensures row == Cartesian.Row(prefix, suffixes, Pairing(resolve))
    ensures |hosts| == |row|
    ensures forall k :: 0 <= k < |row| ==> hosts[k] == Host(row[k])
  {
    row := [];
    hosts := [];
    var j := 0;
    while j < |suffixes|
      invariant 0 <= j <= |suffixes|
      invariant row == Cartesian.Row(prefix, suffixes[..j], Pairing(resolve))
      invariant |hosts| == |row|
      invariant forall k :: 0 <= k < |row| ==> hosts[k] == Host(row[k])
    {
      var suffix := suffixes[j];
      var name := prefix.description + suffix.description;
      var url := Lower(name);
      var checkout := Checkout.Url(url, ComBr);
      var host := url + ComBr;
      var available := IsDomainAvailable(resolve, host);
      assert suffixes[..j + 1][..j] == suffixes[..j];
      row := row + [Domain(name, None, checkout, available)];
      hosts := hosts + [host];
      j := j + 1;
    }
    assert suffixes[..j] == suffixes;
  }

  /** The generateDomains resolver: filters the store into prefixes and
      suffixes, then loops over prefixes (outer) and suffixes (inner), looking
      up `lower(name) + ".com.br"` once per pair. `lookups` lists the hosts
      handed to the resolver, in the order they are awaited. */
  method GenerateDomains(items: seq<Item>, resolve: Resolver) returns (domains: seq<Domain>, lookups: seq<string>)
    ensures domains == GenerateDomainsSpec(items, resolve)
    ensures |domains| == |lookups|
    ensures forall k :: 0 <= k < |domains| ==>
      && domains[k].extension == None
      && domains[k].checkout == Checkout.Url(Lower(domains[k].name), ComBr)
      && lookups[k] == Lower(domains[k].name) + ComBr
      && (domains[k].available <==> resolve(lookups[k]).ResolveError?)
  {
    var prefixes := Tagged(items, PrefixTag);
    var suffixes := Tagged(items, SuffixTag);
    domains := [];
    lookups := [];
    var i := 0;
    while i < |prefixes|
      invariant 0 <= i <= |prefixes|
      invariant domains == Cartesian.Product(prefixes[..i], suffixes, Pairing(resolve))
      invariant |lookups| == |domains|
      invariant forall k :: 0 <= k < |domains| ==> lookups[k] == Host(domains[k])
    {
      var row, hosts := PairWithSuffixes(prefixes[i], suffixes, resolve);
      assert prefixes[..i + 1][..i] == prefixes[..i];
      HostsAppend(domains, lookups, row, hosts);
      domains := domains + row;
      lookups := lookups + hosts;
      i := i + 1;
    }
    assert prefixes[..i] == prefixes;
    GenerateDomainsRecords(items, resolve, domains, lookups);
  }

  /** The product of the two groups, paired with one host per record, states
      every record's extension, checkout, looked-up host and flag. */
  lemma GenerateDomainsRecords(items: seq<Item>, resolve: Resolver, domains: seq<Domain>, lookups: seq<string>)
    requires domains == GenerateDomainsSpec(items, resolve)
    requires |lookups| == |domains|
    requires forall k :: 0 <= k < |domains| ==> lookups[k] == Host(domains[k])
    ensures forall k :: 0 <= k < |domains| ==>
      && domains[k].extension == None
      && domains[k].checkout == Checkout.Url(Lower(domains[k].name), ComBr)
      && lookups[k] == Lower(domains[k].name) + ComBr
      && (domains[k].available <==> resolve(lookups[k]).ResolveError?)
  {
    GenerateDomainsBuilt(items, resolve);
  }

  // ---------------------------------------------------------------------------
  // Properties of generateDomain

  /** The generateDomain resolver: one record per extension, in the order
      .com.br, .com, .net, .org; the name is kept as given, the label and host
      are lower-cased. `lookups` lists the hosts handed to the resolver. */
  method GenerateDomain(name: string, resolve: Resolver) returns (domains: seq<Domain>, lookups: seq<string>)
    ensures |domains| == 4 && |lookups| == 4
    ensures forall k :: 0 <= k < 4 ==>
      && domains[k].name == name
      && domains[k].extension == Some(Extensions[k])
      && domains[k].checkout == Checkout.Url(Lower(name), Extensions[k])
      && lookups[k] == Lower(name) + Extensions[k]
      && (domains[k].available <==> resolve(lookups[k]).ResolveError?)
    ensures forall k :: 0 <= k < 4 ==> domains[k] == Candidate(name, Extensions[k], resolve)
  {
    domains := [];
    lookups := [];
    var k := 0;
    while k < |Extensions|
      invariant 0 <= k <= |Extensions|
      invariant |domains| == k && |lookups| == k
      invariant forall m :: 0 <= m < k ==>
        && domains[m] == Domain(name, Some(Extensions[m]), Checkout.Url(Lower(name), Extensions[m]), domains[m].available)
        && lookups[m] == Lower(name) + Extensions[m]
        && (domains[m].available <==> resolve(lookups[m]).ResolveError?)
    {
      var extension := Extensions[k];
      var url := Lower(name);
      var checkout := Checkout.Url(url, extension);
      var host := url + extension;
      var available := IsDomainAvailable(resolve, host);
      domains := domains + [Domain(name, Some(extension), checkout, available)];
      lookups := lookups + [host];
      k := k + 1;
    }
  }

  /** The four checkout links of generateDomain are pairwise distinct. */
  lemma GenerateDomainCheckoutsDistinct(name: string, resolve: Resolver, a: nat, b: nat)
    requires a < b < |Extensions|
    ensures Candidate(name, Extensions[a], resolve).checkout != Candidate(name, Extensions[b], resolve).checkout
  {
    Checkout.UrlDistinguishesTld(Lower(name), Extensions[a], Extensions[b]);
  }

  /** When the lower-cased name holds no `&`, each generateDomain checkout
      link parses back to that name and its own extension. */
  lemma GenerateDomainCheckoutParses(name: string, resolve: Resolver, k: nat)
    requires k < |Extensions| && '&' !in Lower(name)
    ensures Checkout.Parse(Candidate(name, Extensions[k], resolve).checkout) == Some((Lower(name), Extensions[k]))
  {
    Checkout.ParseUrl(Lower(name), Extensions[k]);
  }

  /** No host generateDomain looks up holds an upper-case letter: the label is
      lower-cased and the four extensions are lower-case already. */
  lemma GenerateDomainHostsLowerCase(name: string, k: nat)
    requires k < |Extensions|
    ensures forall i :: 0 <= i < |Lower(name) + Extensions[k]| ==> !IsUpper((Lower(name) + Extensions[k])[i])
  {
    LowerHasNoUpper(name);
  }

  /** Lower-casing the name first changes nothing but the `name` field: the
      checkout link, the looked-up host and the availability are the same. */
  lemma GenerateDomainIgnoresCase(name: string, resolve: Resolver, k: nat)
    requires k < |Extensions|
    ensures Candidate(Lower(name), Extensions[k], resolve).checkout == Candidate(name, Extensions[k], resolve).checkout
    ensures Lower(Lower(name)) + Extensions[k] == Lower(name) + Extensions[k]
    ensures Candidate(Lower(name), Extensions[k], resolve).available == Candidate(name, Extensions[k], resolve).available
  {
    LowerIdempotent(name);
  }

  /** A name typed without upper-case letters is used verbatim as the
      checkout label and as the host. */
  lemma GenerateDomainLowerCaseName(name: string, resolve: Resolver, k: nat)
    requires k < |Extensions|
    requires forall i :: 0 <= i < |name| ==> !IsUpper(name[i])
    ensures Candidate(name, Extensions[k], resolve).checkout == Checkout.Url(name, Extensions[k])
    ensures Candidate(name, Extensions[k], resolve).available <==> resolve(name + Extensions[k]).ResolveError?
  {
    LowerFixesLowerCase(name);
  }

}
