/** The HostGator checkout link both generator resolvers build:
    a fixed prefix, the second-level label (`sld`), the `&tld=` key and the
    extension. The template substitutes both values verbatim, without
    escaping, so `Parse` can recover them only when the label holds no `&`. */
module Checkout {
  import opened Options

  const Prefix: string := "https://checkout.hostgator.com.br/?a=add&sld="
  const TldKey: string := "&tld="

  /** The checkout URL for label `sld` under extension `tld`. */
  function Url(sld: string, tld: string): (url: string)
    ensures |url| == |Prefix| + |sld| + |TldKey| + |tld|
    ensures url[..|Prefix|] == Prefix
    ensures url[|Prefix|..|Prefix| + |sld|] == sld
    ensures url[|Prefix| + |sld|..|Prefix| + |sld| + |TldKey|] == TldKey
    ensures url[|Prefix| + |sld| + |TldKey|..] == tld
  {
    Prefix + sld + TldKey + tld
  }

  /** Position of the first `c` in `s`, or `|s|` when there is none. */
  function IndexOf(s: string, c: char): (k: nat)
    ensures k <= |s|
    ensures forall i :: 0 <= i < k ==> s[i] != c
    ensures k < |s| ==> s[k] == c
    decreases |s|
  {
    if s == [] then 0
    else if s[0] == c then 0
    else 1 + IndexOf(s[1..], c)
  }

  /** Splits a checkout URL back into its label and extension: the label runs
      from the end of the fixed prefix up to the first `&`, which must start
      the `&tld=` key. Anything else is rejected. */
  function Parse(url: string): (r: Option<(string, string)>)
    ensures r.Some? ==> '&' !in r.value.0 && Url(r.value.0, r.value.1) == url
  {
    if |url| < |Prefix| || url[..|Prefix|] != Prefix then None
    else
      var rest := url[|Prefix|..];
      var k := IndexOf(rest, '&');
      var tail := rest[k..];
      if |tail| < |TldKey| || tail[..|TldKey|] != TldKey then None
      else
        assert url == Prefix + rest[..k] + TldKey + tail[|TldKey|..];
        Some((rest[..k], tail[|TldKey|..]))
  }

  /** Round trip: a label without `&` and any extension come back out of the
      URL built from them. */
  lemma ParseUrl(sld: string, tld: string)
    requires '&' !in sld
    ensures Parse(Url(sld, tld)) == Some((sld, tld))
  {
    var url := Url(sld, tld);
    var rest := url[|Prefix|..];
    assert rest == sld + TldKey + tld;
    var k := IndexOf(rest, '&');
    assert rest[|sld|] == '&';
    assert k == |sld|;
  }

  /** Two checkout URLs over `&`-free labels are equal only when both the
      label and the extension are. */
  lemma UrlInjective(sld1: string, tld1: string, sld2: string, tld2: string)
    requires '&' !in sld1 && '&' !in sld2
    requires Url(sld1, tld1) == Url(sld2, tld2)
    ensures sld1 == sld2 && tld1 == tld2
  {
    ParseUrl(sld1, tld1);
    ParseUrl(sld2, tld2);
  }

  /** For one label, distinct extensions always give distinct URLs, whatever
      characters the label holds. */
  lemma UrlDistinguishesTld(sld: string, tld1: string, tld2: string)
    requires tld1 != tld2
    ensures Url(sld, tld1) != Url(sld, tld2)
  {
  }

}
