/**
 * The read-only collaborators of the alias url provider: the published
 * content cache (nodes, their parents and their `umbracoUrlAlias`
 * property), the domain registry, the two kinds of `System.Uri` the
 * provider builds, and .NET's `string.IsNullOrWhiteSpace`.
 */
module Content {
  import opened Wrappers

  /**
   * A published content node as the provider sees it. `level` is the
   * node's depth in the content tree (Umbraco numbers roots 1 and every
   * child one more than its parent); it bounds the walk towards the root.
   * `hasUrlAlias` is `HasProperty("umbracoUrlAlias")` and `urlAliasValue`
   * the property's string value, `None` when it is null.
   */
  datatype PublishedContent = PublishedContent(
    id: int,
    level: nat,
    parent: Option<int>,
    hasUrlAlias: bool,
    urlAliasValue: Option<string>)

  /** The published content cache: every node it holds, by id. */
  datatype ContentCache = ContentCache(nodes: map<int, PublishedContent>)

  /**
   * A cache is a finite forest: every node is stored under its own id, and
   * a node's parent is in the cache at a strictly smaller level.
   */
  ghost predicate WellFormed(cache: ContentCache) {
    forall id | id in cache.nodes ::
      && cache.nodes[id].id == id
      && (cache.nodes[id].parent.Some? ==>
            && cache.nodes[id].parent.value in cache.nodes
            && cache.nodes[cache.nodes[id].parent.value].level < cache.nodes[id].level)
  }

  /**
   * The ids met walking from `id` up to its root, `id` first and the root
   * last: each one is the parent of the one before it.
   */
  ghost function AncestorsOrSelf(cache: ContentCache, id: int): (chain: seq<int>)
    requires WellFormed(cache) && id in cache.nodes
    ensures |chain| >= 1 && chain[0] == id
    ensures forall k | 0 <= k < |chain| :: chain[k] in cache.nodes
    ensures forall k | 0 <= k < |chain| - 1 :: cache.nodes[chain[k]].parent == Some(chain[k + 1])
    ensures cache.nodes[chain[|chain| - 1]].parent.None?
    decreases cache.nodes[id].level
  {
    match cache.nodes[id].parent
    case None => [id]
    case Some(p) => [id] + AncestorsOrSelf(cache, p)
  }

  /** The value the provider reads for the alias: null unless the property exists. */
  function UrlAlias(node: PublishedContent): (alias: Option<string>)
    ensures alias.Some? <==> node.hasUrlAlias && node.urlAliasValue.Some?
    ensures alias.Some? ==> alias == node.urlAliasValue
  {
    if node.hasUrlAlias then node.urlAliasValue else None
  }

  /** A domain registered on a node, with the base uri it is served at. */
  datatype DomainAndUri = DomainAndUri(domainName: string, uri: string)

  /**
   * The domain registry as seen from the current request: the ordered
   * domains of a node, already filtered for the request's uri. A node id
   * that is not a key has no domains.
   */
  type DomainRegistry = map<int, seq<DomainAndUri>>

  /** The registry lookup for one node: `None` stands for the null it returns. */
  function DomainsForNode(domains: DomainRegistry, id: int): Option<seq<DomainAndUri>> {
    if id in domains then Some(domains[id]) else None
  }

  /** A `System.Uri` built either from a relative path or from an absolute url. */
  datatype Uri = RelativeUri(path: string) | AbsoluteUri(url: string)

  /**
   * `char.IsWhiteSpace` of .NET Framework 4.0-4.5: U+0009-U+000D, U+0085,
   * and the space, line and paragraph separators of Unicode before version
   * 6.3, which still counted U+180E MONGOLIAN VOWEL SEPARATOR as a space.
   * From .NET Framework 4.6 on, U+180E is a format character instead.
   */
  predicate IsWhiteSpace(c: char) {
    var n := c as int;
    || 0x09 <= n <= 0x0D
    || n == 0x20 || n == 0x85 || n == 0xA0 || n == 0x1680 || n == 0x180E
    || 0x2000 <= n <= 0x200A
    || n == 0x2028 || n == 0x2029 || n == 0x202F || n == 0x205F || n == 0x3000
  }

  /** .NET's `string.IsNullOrWhiteSpace`: a string that is not blank has a character. */
  predicate IsNullOrWhiteSpace(s: Option<string>)
    ensures !IsNullOrWhiteSpace(s) ==> s.Some? && |s.value| > 0
    ensures s.Some? && |s.value| > 0 && !IsWhiteSpace(s.value[0]) ==> !IsNullOrWhiteSpace(s)
  {
    s.None? || forall i | 0 <= i < |s.value| :: IsWhiteSpace(s.value[i])
  }
}
