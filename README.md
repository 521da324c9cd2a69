# Alias url provider

This project models Umbraco's `AliasUrlProvider`, the url provider that answers
"which other urls should also lead to this content node?" from the node's
`umbracoUrlAlias` property. It never proposes the node's main url (`GetUrl`
always returns null). `GetOtherUrls` does the work:

- it returns nothing when the find-by-alias feature is off;
- it returns nothing when the node has no alias property, or the value is null or blank;
- it walks from the node up through its parents until it finds a node with registered domains;
- with no domains up to the root, it returns one relative url, `"/" + alias`;
- otherwise it returns one url per domain, in order, each the domain's base path joined
  to `"/" + alias` by `CombinePaths`.

Modules:

- `Wrappers` holds `Option`, which stands for the source's `null`.
- `Content` holds the read-only collaborators:
  - the published content cache, a map from id to node, where each node carries its
    parent, its Umbraco `level` and its alias property;
  - the domain registry, a map from node id to that node's ordered domains, as
    `DomainsForNode` returns them for the current request;
  - the two kinds of `System.Uri` the provider builds;
  - .NET's `string.IsNullOrWhiteSpace`, with `char.IsWhiteSpace`'s character set written out as
    .NET Framework 4.0-4.5 has it. That set follows Unicode before version 6.3, so U+180E counts
    as whitespace.
- `AliasUrlProvider` holds the provider:
  - `GetUrl`;
  - `TrimEndSlashes` (`TrimEnd('/')`) and `CombinePaths`;
  - `UrlsForDomains` (the LINQ projection);
  - `DomainsFound`, a recursive definition of the ancestor walk;
  - `OtherUrls`, the specification of `GetOtherUrls`;
  - `GetOtherUrls`, a method with the source's `while` loop over `Parent`, proved equal to `OtherUrls`;
  - lemmas relating `OtherUrls` to the chain of ancestors (`Content.AncestorsOrSelf`).

Two inputs are collaborator functions, passed as parameters and left arbitrary,
so every property holds whatever they compute:

- `leftPart`, for `domainUri.Uri.GetLeftPart(UriPartial.Path)`;
- `normalize`, for `UriUtility.UriFromUmbraco(uri).ToString()`.

The ancestor walk terminates because a well-formed cache gives every parent a
smaller `level` than its child.

`CombinePaths` never adds a trailing slash of its own. An alias made only of
slashes joins to the domain's base with its trailing slashes removed
(`SlashOnlyAliasYieldsBase`). For example, an alias of `"/"` on a domain whose
base is `http://site.example/` joins to `http://site.example`
(`RootAliasOnRootDomain`). Any trailing slash in the published url comes from
`System.Uri` and the normalization. The `"/"` branch of `CombinePaths` is
never taken for the paths `GetOtherUrls` builds, because the alias is never
empty (`AliasPathIsTrimmed`).

## Model

| member | source | states |
|---|---|---|
| `AliasUrlProvider.GetUrl` | src/Umbraco.Web/Routing/AliasUrlProvider.cs:33-36 | The provider never proposes a main url: the result is always null, for every node, cache and request. |
| `AliasUrlProvider.TrimEndSlashes` | src/Umbraco.Web/Routing/AliasUrlProvider.cs:107-108 | `TrimEnd('/')` returns a prefix of its input that does not end with '/'. Everything it removed is '/'. |
| `AliasUrlProvider.CombinePaths` | src/Umbraco.Web/Routing/AliasUrlProvider.cs:105-109 | The result is exactly "/" or does not end with '/'. It is "/" exactly when the trimmed base followed by the path is "/". Otherwise it is that join with only slashes removed from its end. |
| `AliasUrlProvider.TrimEndSlashesAppendSlash` | src/Umbraco.Web/Routing/AliasUrlProvider.cs:107 | Adding one '/' to a string does not change what `TrimEnd('/')` gives. |
| `AliasUrlProvider.TrimEndSlashesAppend` | src/Umbraco.Web/Routing/AliasUrlProvider.cs:108 | Trimming `s + t`, where `t` has a non-slash character, keeps `s` whole and only trims `t`. |
| `AliasUrlProvider.CombinePathsIgnoresTrailingSlash` | src/Umbraco.Web/Routing/AliasUrlProvider.cs:105-109 | `CombinePaths(p + "/", q) == CombinePaths(p, q)`: trailing slashes on the base path make no difference. |
| `AliasUrlProvider.CombinePathsJoin` | src/Umbraco.Web/Routing/AliasUrlProvider.cs:105-109 | When the second path has a non-slash character, the result is the trimmed base followed by the trimmed path. For example, base `.../base/` or `.../base` with `/foo` gives `.../base/foo`. |
| `AliasUrlProvider.AliasPathIsTrimmed` | src/Umbraco.Web/Routing/AliasUrlProvider.cs:105-109 | For `"/" + alias` with a non-empty alias, the root-collapse case never applies and the joined url is always trimmed. Every non-blank alias is non-empty (`Content.IsNullOrWhiteSpace`). |
| `AliasUrlProvider.TrimEndSlashesAppendOnlySlashes` | src/Umbraco.Web/Routing/AliasUrlProvider.cs:108 | Trimming a string that does not end with '/', followed by any number of slashes, gives back that string. |
| `AliasUrlProvider.SlashOnlyAliasYieldsBase` | src/Umbraco.Web/Routing/AliasUrlProvider.cs:105-109 | For a non-empty alias made only of '/', joining `"/" + alias` to any base gives the base without its trailing slashes. No slash is kept at the end. |
| `AliasUrlProvider.RootAliasOnRootDomain` | src/Umbraco.Web/Routing/AliasUrlProvider.cs:105-109 | An instance of `SlashOnlyAliasYieldsBase`: base `http://site.example/` joined with alias path `"//"` gives `http://site.example`. |
| `AliasUrlProvider.UrlsForDomains` | src/Umbraco.Web/Routing/AliasUrlProvider.cs:83-85 | The projection gives exactly one url per domain, in the same position. Url i is `normalize(Uri(CombinePaths(leftPart(domain i), path)))`. |
| `AliasUrlProvider.UrlsForDomainsAppend` | src/Umbraco.Web/Routing/AliasUrlProvider.cs:83-85 | The projection keeps the domains' order and drops nothing: the urls of `a + b` are those of `a` followed by those of `b`. |
| `Content.UrlAlias` | src/Umbraco.Web/Routing/AliasUrlProvider.cs:60-62 | The alias read is a string exactly when the node has the `umbracoUrlAlias` property and its value is not null. That string is the property's value. |
| `Content.IsNullOrWhiteSpace` | src/Umbraco.Web/Routing/AliasUrlProvider.cs:63 | An alias that is not blank is a non-null, non-empty string. A string whose first character is not whitespace is not blank. |
| `AliasUrlProvider.DomainsFound` | src/Umbraco.Web/Routing/AliasUrlProvider.cs:66-73 | The recursive definition of the walk. It uses the node's own domains when it has any, and what it finds is always one node's registered list. `DomainsFoundIsNearest` characterises it against the chain of ancestors. |
| `Content.AncestorsOrSelf` | src/Umbraco.Web/Routing/AliasUrlProvider.cs:66-73 | The chain starts at the node, ends at a node with no parent, and every element is the parent of the one before it. |
| `AliasUrlProvider.DomainsFoundIsNearest` | src/Umbraco.Web/Routing/AliasUrlProvider.cs:66-73 | The walk finds "none" exactly when no node from the node up to its root has domains. Otherwise it yields the domains of the nearest ancestor-or-self that has any. |
| `AliasUrlProvider.OtherUrls` | src/Umbraco.Web/Routing/AliasUrlProvider.cs:54-86 | The specification of `GetOtherUrls`. It gives urls only when the gate is on and the alias is not blank. Then it gives one url when the walk finds no domains, and one per found domain otherwise. `DisabledYieldsNothing`, `BlankAliasYieldsNothing`, `OwnDomainsFirst`, `NoDomainsYieldsRelativeUrl` and `NearestDomainsYieldOneUrlEach` characterise it case by case. |
| `AliasUrlProvider.GetOtherUrls` | src/Umbraco.Web/Routing/AliasUrlProvider.cs:54-86 | The method has the gate, the alias read, the `while` walk over `Parent` (which terminates) and the url construction. Its result equals `OtherUrls`, the specification the lemmas below characterise. |
| `AliasUrlProvider.DisabledYieldsNothing` | src/Umbraco.Web/Routing/AliasUrlProvider.cs:56-57 | With the feature off there are no other urls, whatever the node and the domains. |
| `AliasUrlProvider.BlankAliasYieldsNothing` | src/Umbraco.Web/Routing/AliasUrlProvider.cs:59-64 | A node without the alias property, or with a null or whitespace-only value, has no other urls, whatever the domains. |
| `AliasUrlProvider.OwnDomainsFirst` | src/Umbraco.Web/Routing/AliasUrlProvider.cs:67-68 | A node with domains of its own uses them. Any registry that agrees on the node gives the same urls, so no ancestor is consulted. |
| `AliasUrlProvider.NoDomainsYieldsRelativeUrl` | src/Umbraco.Web/Routing/AliasUrlProvider.cs:75-80 | When no node up to the root has domains, the result is exactly one url, `normalize(RelativeUri("/" + alias))`. |
| `AliasUrlProvider.NearestDomainsYieldOneUrlEach` | src/Umbraco.Web/Routing/AliasUrlProvider.cs:83-85 | With the nearest ancestor-or-self that has domains, there is one url per domain of that node, in order and with no deduplication. Url i is that domain's base joined to `"/" + alias`. |

## Left out

- Content.IsNullOrWhiteSpace: follows the whitespace set of .NET Framework 4.0-4.5, which counts U+180E. From .NET Framework 4.6 on, U+180E is not whitespace, so an alias made only of U+180E yields urls there, while the model yields none.
- `FindByUrlAliasEnabled` (lines 94-103) becomes a boolean input. It reads process-wide registries of content finders and not-found handlers.
- `System.Uri` parsing: `GetLeftPart(UriPartial.Path)` is the function parameter `leftPart`. The model keeps only which kind of uri, relative or absolute, is built from which string.
- `UriUtility.UriFromUmbraco` and `ToString` are the function parameter `normalize`. The model therefore does not show that no url is empty, which depends on them.
- `contentCache.GetDocumentById` is a lookup in the `ContentCache` map. `GetOtherUrls` requires the id to be in the cache once the feature gate is passed. Past that point the source dereferences the node without a null check.
- `DomainHelper.DomainsForNode(id, current)` is a lookup in a `DomainRegistry` map. The map already holds the result for the current request's uri, so the `current` argument and the domain filtering by scheme and host are not modelled.
- Exceptions from the collaborators, such as a malformed uri in `new Uri(...)`, are not modelled. The provider does not handle them.
- The provider has no state, so concurrency does not arise. Caching belongs to the collaborators.
