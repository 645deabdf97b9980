# Domain-candidate generator

A Dafny model of the domain-name suggestion server. The user stores word fragments
tagged `"prefixe"` or `"sufixe"`. The server then offers two GraphQL mutations.

- `generateDomains` pairs every stored prefix with every stored suffix. Prefixes are
  the outer loop and suffixes the inner loop. Each pair becomes one candidate record:
  - the name, which is the two descriptions concatenated as they are;
  - a HostGator checkout link for `.com.br`;
  - an availability flag.
- `generateDomain(name)` expands one name over the extensions `.com.br`, `.com`, `.net`
  and `.org`, in that order.

A candidate counts as available when the DNS lookup of its lower-cased host fails.

Modules, one per concept:

- `Options` (options.dfy): the optional `extension` field.
- `Ascii` (ascii.dfy): lower-casing of the label and host.
- `Checkout` (checkout.dfy): the checkout-URL template and its inverse `Parse`.
- `Availability` (availability.dfy): the DNS lookup as an oracle and its mapping to a flag.
- `Items` (items.dfy): stored fragments and the exact-tag filter.
- `Cartesian` (cartesian.dfy): the nested loops as a generic product with index lemmas.
- `Generator` (generator.dfy): the two resolvers as methods, with reference
  definitions and the properties that relate them.

The DNS lookup is a parameter `resolve: string -> Resolution`. A `Resolution` says only
whether the lookup's callback received an error (`ResolveError`) or not (`Resolved`).
Which of the two a host gets is up to the oracle, and, being a function, it gives one
fixed answer per host across all lookups and calls. Both methods also return
`lookups`, the host names in the order the resolvers await them. This is how the model
states which host each record's flag comes from.

Two points of the code shape the model:

- A candidate's `name` is the two fragments concatenated as typed
  (server/server.js:64, 69, 87, 96). Only the checkout label and the DNS host are
  lower-cased (server/server.js:65, 92). `SunFlowerExample` pins this down: `"Sun"` +
  `"Flower"` gives the name `"SunFlower"` with the label `sunflower`.
- Every error passed to the lookup callback resolves to `true`
  (server/server.js:42-43), so no such error aborts a resolver. The other
  ways a resolver can reject (a failing store read, a thrown `toLowerCase`) are listed
  under "Left out".

## Model

| member | source | states |
|---|---|---|
| Availability.IsDomainAvailable | server/server.js:39-49 | a lookup whose callback receives an error of any kind reports available; a lookup without an error reports unavailable |
| Ascii.Lower | server/server.js:65 | lower-casing keeps the length and maps each character on its own, A-Z to a-z, everything else unchanged |
| Ascii.LowerHasNoUpper | server/server.js:65 | a lower-cased label contains no upper-case letter |
| Ascii.LowerAppend | server/server.js:64-65 | lower-casing the concatenated name equals concatenating the lower-cased prefix and suffix |
| Ascii.LowerIdempotent | server/server.js:92 | lower-casing an already lower-cased name changes nothing |
| Ascii.LowerFixesLowerCase | server/server.js:92 | a name with no upper-case letter is its own label |
| Checkout.Url | server/server.js:66 | the checkout link is the fixed HostGator prefix, then the label, then `&tld=`, then the extension, each at its exact position |
| Checkout.Parse | server/server.js:66 | whatever Parse accepts is exactly the template applied to the label and extension it returns, with an `&`-free label |
| Checkout.ParseUrl | server/server.js:66 | round trip: an `&`-free label and any extension come back out of the link built from them |
| Checkout.UrlInjective | server/server.js:66 | two links over `&`-free labels coincide only when label and extension both coincide |
| Checkout.UrlDistinguishesTld | server/server.js:93 | one label under two different extensions gives two different links |
| Items.Tagged | server/server.js:62-63 | the filter keeps only items whose type is exactly the tag and is never longer than the store |
| Items.TaggedMembers | server/server.js:62-63 | an item is in the filtered group if and only if it is stored and its type equals the tag exactly |
| Items.TaggedAppend | server/server.js:62-63 | filtering keeps store order: filtering a concatenation concatenates the filtered parts |
| Items.TaggedSkip | server/server.js:62-63 | removing an item with another type leaves the filtered group unchanged |
| Items.TaggedLength | server/server.js:62-63 | the group has exactly as many members as the store has positions holding that type |
| Cartesian.Row | server/server.js:63-73 | the inner loop builds one entry per inner element, the j-th from the outer element paired with the j-th inner element |
| Cartesian.Product | server/server.js:62-74 | the nested loops build exactly outer-count times inner-count entries |
| Cartesian.ProductCell | server/server.js:62-73 | the entry at i*\|S\|+j is built from the i-th outer and j-th inner element |
| Cartesian.ProductCover | server/server.js:62-73 | every entry of the nested loops is built from some outer/inner pair |
| Generator.Combine | server/server.js:64-72 | one pair builds the record named prefix description + suffix description as typed, with no extension, the `.com.br` checkout over the lower-cased name, and availability from looking up that host |
| Generator.GenerateDomainsSpec | server/server.js:59-76 | generateDomains builds one record per (prefix, suffix) pair of the filtered groups: (#prefix items) times (#suffix items) records |
| Generator.Candidate | server/server.js:92-100 | one extension builds the record with the name as given, that extension, the checkout over the lower-cased name and that extension, and availability from looking up lower(name)+extension |
| Generator.GenerateDomainsCount | server/server.js:59-76 | generateDomains returns (#items typed "prefixe") times (#items typed "sufixe") records |
| Generator.GenerateDomainsOrder | server/server.js:62-72 | the record at i*\|S\|+j comes from the i-th prefix and j-th suffix in store order; its name is their descriptions concatenated, not lower-cased |
| Generator.GenerateDomainsEmpty | server/server.js:62-75 | the result is empty if and only if the store holds no prefix item or no suffix item |
| Generator.UntaggedItemIgnored | server/server.js:62-63 | an item typed anything but exactly "prefixe" or "sufixe" (e.g. "Prefixe") never changes the result, wherever it is stored |
| Generator.GenerateDomainsBuilt | server/server.js:64-72 | every generateDomains record has no extension, a `.com.br` checkout over its lower-cased name, and availability from looking up that host |
| Generator.GenerateDomainsCheckoutParses | server/server.js:64-66 | a pair's checkout link parses back to lower(prefix)+lower(suffix) and `.com.br` when neither holds `&` |
| Generator.GenerateDomainsRecords | server/server.js:64-72 | in the product, each record has no extension, the `.com.br` checkout of its lower-cased name, and a flag that is true if and only if the lookup of its paired host lower(name)+".com.br" fails |
| Generator.SunFlowerExample | server/server.js:64-72 | the store Sun/Flower yields the single record named "SunFlower" with label `sunflower` and host `sunflower.com.br` |
| Generator.PairWithSuffixes | server/server.js:63-73 | the inner loop returns the row for one prefix and looks up each record's lower-cased name + `.com.br` |
| Generator.GenerateDomains | server/server.js:59-76 | the resolver returns the reference product of the filtered groups; each record has no extension, the `.com.br` checkout of its lower-cased name, and is available if and only if the lookup of lower(name)+".com.br" fails; one lookup per record, in output order |
| Generator.GenerateDomain | server/server.js:86-103 | exactly four records, extensions .com.br, .com, .net, .org in that order, name unchanged, checkout over the lower-cased name and that extension, available if and only if lower(name)+extension fails to resolve; record k is `Candidate(name, extension k)`, the record the generateDomain lemmas speak about |
| Generator.GenerateDomainCheckoutsDistinct | server/server.js:88-93 | the four checkout links generateDomain builds for one name are pairwise distinct |
| Generator.GenerateDomainHostsLowerCase | server/server.js:88-94 | no host generateDomain looks up contains an upper-case letter |
| Generator.GenerateDomainIgnoresCase | server/server.js:92-94 | lower-casing the name beforehand leaves every checkout link, host and availability flag unchanged |
| Generator.GenerateDomainLowerCaseName | server/server.js:92-94 | a name with no upper-case letter is used verbatim as checkout label and host |
| Generator.GenerateDomainCheckoutParses | server/server.js:88-93 | each generateDomain checkout link parses back to the lower-cased name and its own extension when that name has no `&` |

## Left out

- Apollo server construction, the GraphQL schema string and `listen()` (server/server.js:1, 5-35, 108-109): framework plumbing with no logic.
- The `items`, `saveItem` and `deleteItem` resolvers (server/server.js:53-56, 77-85) are left out. Each one only forwards to `./service`, and that module is not part of this model. `deleteItem` always returns `true`. The store content is an input of `GenerateDomains`.
- The module-level `items` array (server/server.js:37) is never used.
- The real `dns.resolve` call and the Promise/await sequencing (server/server.js:39-48, 67, 94) are network I/O. They are replaced by the `resolve` oracle. The lookups are awaited one at a time, so list order is the only observable ordering, and the `lookups` output records it.
- The oracle gives one fixed answer per host, across all lookups and calls. The code makes a fresh `dns.resolve` call for every record (server/server.js:67, 94). When one generateDomains call looks up a host twice (a duplicated item, or `"a"` + `"bc"` and `"ab"` + `"c"`, both `abc.com.br`), a transient resolver error on only one of the lookups gives the two records different flags. The model cannot express that.
- Generator.GenerateDomainIgnoresCase: its third ensures (equal flags) compares two separate generateDomain calls, and it holds only under the one-answer-per-host oracle above. Its checkout and host ensures do not depend on that.
- A synchronous throw from `dns.resolve` itself (server/server.js:41), for instance a host name the resolver cannot convert to ASCII, rejects `isDomainAvailable`'s promise. The `await` at server/server.js:67 or 94 then rejects the whole generateDomains or generateDomain call. The two-valued oracle cannot express this.
- A rejected `service.getItems()` (server/server.js:61) rejects generateDomains. The model leaves this out because the store content is an input of `GenerateDomains`.
- The suffix filter is evaluated again on each outer iteration (server/server.js:63). It always yields the same list, so `GenerateDomains` computes it once.
- Ascii.Lower: maps only A-Z. JavaScript's `toLowerCase` also lower-cases non-ASCII letters and can change a string's length (e.g. `'İ'`). Every lower-casing property here is stated for this ASCII approximation.
- Ascii.LowerAppend: holds for the ASCII `Lower`, but not for JavaScript's `toLowerCase`. The final-sigma rule makes `"AΣ".toLowerCase()` `"aς"`, while `"A".toLowerCase() + "Σ".toLowerCase()` is `"aσ"`. `Generator.GenerateDomainsCheckoutParses`, which uses it, carries the same restriction.
- JavaScript `null`/`undefined` values are not modelled; every field is a string. In the code, a `null` description concatenates as `"null"` and a single missing one as `"undefined"` (server/server.js:64). When both descriptions of a pair are missing, `undefined + undefined` is `NaN`, so `toLowerCase` throws at server/server.js:65 and generateDomains rejects. A missing `name` makes server/server.js:92 throw.
- The checkout template substitutes the label without URL-escaping. The round-trip lemmas therefore require a label without `&`, and a label containing `&` is not analysed further.
- The item `id` is carried but not used by the generator.
- frontend/src/main.js: Vue bootstrap with no logic.
