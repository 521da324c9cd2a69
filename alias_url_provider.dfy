/**
 * The alias url provider: it never proposes a node's main url, and it
 * derives the node's other urls from its `umbracoUrlAlias` property and
 * from the domains of the nearest ancestor-or-self that has any.
 *
 * Two collaborators are parameters: `leftPart` is the base uri of a domain
 * with query and fragment removed (`Uri.GetLeftPart(UriPartial.Path)`), and
 * `normalize` is the host's public form of a uri
 * (`UriUtility.UriFromUmbraco(uri).ToString()`). Both are arbitrary, so
 * every property below holds whatever they compute.
 */
module AliasUrlProvider {
  import opened Wrappers
  import opened Content

  // ---------------------------------------------------------------------
  // GetUrl

  /** The provider has nothing to say about a node's main url. */
  function GetUrl(cache: ContentCache, id: int, current: Uri, absolute: bool): (url: Option<string>)
    ensures url == None
  {
    None
  }

  // ---------------------------------------------------------------------
  // Paths

  predicate EndsWithSlash(s: string) {
    |s| > 0 && s[|s| - 1] == '/'
  }

  predicate HasNonSlash(s: string) {
    exists i | 0 <= i < |s| :: s[i] != '/'
  }

  /** `s.TrimEnd('/')`: `s` without its trailing slashes, however many. */
  function TrimEndSlashes(s: string): (r: string)
    ensures r <= s
    ensures !EndsWithSlash(r)
    ensures forall i | |r| <= i < |s| :: s[i] == '/'
    decreases |s|
  {
    if EndsWithSlash(s) then TrimEndSlashes(s[..|s| - 1]) else s
  }

  /**
   * Joins a base path and a path: the base loses its trailing slashes, and
   * so does the joined path unless it is exactly "/".
   */
  function CombinePaths(path1: string, path2: string): (path: string)
    ensures path == "/" || !EndsWithSlash(path)
    ensures path == "/" <==> TrimEndSlashes(path1) + path2 == "/"
    ensures path <= TrimEndSlashes(path1) + path2
    ensures forall i | |path| <= i < |TrimEndSlashes(path1) + path2| :: (TrimEndSlashes(path1) + path2)[i] == '/'
  {
    var joined := TrimEndSlashes(path1) + path2;
    if joined == "/" then joined else TrimEndSlashes(joined)
  }

  lemma TrimEndSlashesAppendSlash(s: string)
    ensures TrimEndSlashes(s + "/") == TrimEndSlashes(s)
  {
  }

  /** Trimming after appending a path that has a non-slash character only trims that path. */
  lemma {:induction false} TrimEndSlashesAppend(s: string, t: string)
    requires HasNonSlash(t)
    ensures TrimEndSlashes(s + t) == s + TrimEndSlashes(t)
    decreases |t|
  {
    if EndsWithSlash(t) {
      var t' := t[..|t| - 1];
      var i :| 0 <= i < |t| && t[i] != '/';
      assert i < |t'| && t'[i] != '/';
      assert (s + t)[..|s + t| - 1] == s + t';
      TrimEndSlashesAppend(s, t');
    } else {
      assert EndsWithSlash(s + t) == EndsWithSlash(t);
    }
  }

  /** Trailing slashes on the base path make no difference. */
  lemma CombinePathsIgnoresTrailingSlash(path1: string, path2: string)
    ensures CombinePaths(path1 + "/", path2) == CombinePaths(path1, path2)
  {
  }

  /**
   * When the second path has a non-slash character, the result is the two
   * paths, each without its trailing slashes, one after the other.
   */
  lemma CombinePathsJoin(path1: string, path2: string)
    requires HasNonSlash(path2)
    ensures CombinePaths(path1, path2) == TrimEndSlashes(path1) + TrimEndSlashes(path2)
  {
    var i :| 0 <= i < |path2| && path2[i] != '/';
    var joined := TrimEndSlashes(path1) + path2;
    assert joined[|TrimEndSlashes(path1)| + i] != '/';
    TrimEndSlashesAppend(TrimEndSlashes(path1), path2);
  }

  /**
   * For a path "/" + alias longer than "/" (as every non-blank alias gives),
   * the "/" case of CombinePaths is never taken: the join is always trimmed.
   */
  lemma AliasPathIsTrimmed(base: string, alias: string)
    requires |alias| > 0
    ensures CombinePaths(base, "/" + alias) == TrimEndSlashes(TrimEndSlashes(base) + "/" + alias)
  {
    assert TrimEndSlashes(base) + ("/" + alias) == TrimEndSlashes(base) + "/" + alias;
  }

  /** Slashes appended to a string that does not end with one are all trimmed again. */
  lemma {:induction false} TrimEndSlashesAppendOnlySlashes(s: string, t: string)
    requires !EndsWithSlash(s)
    requires forall i | 0 <= i < |t| :: t[i] == '/'
    ensures TrimEndSlashes(s + t) == s
    decreases |t|
  {
    if t == [] {
      assert s + t == s;
    } else {
      assert (s + t)[..|s + t| - 1] == s + t[..|t| - 1];
      TrimEndSlashesAppendOnlySlashes(s, t[..|t| - 1]);
    }
  }

  /**
   * An alias made only of slashes adds nothing: the url is the domain's base
   * without its trailing slashes, never with one.
   */
  lemma SlashOnlyAliasYieldsBase(base: string, alias: string)
    requires |alias| > 0
    requires forall i | 0 <= i < |alias| :: alias[i] == '/'
    ensures CombinePaths(base, "/" + alias) == TrimEndSlashes(base)
  {
    TrimEndSlashesAppendOnlySlashes(TrimEndSlashes(base), "/" + alias);
  }

  /** An alias of "/" on a domain at the site root loses every slash. */
  lemma RootAliasOnRootDomain()
    ensures CombinePaths("http://site.example/", "/" + "/") == "http://site.example"
  {
    var host := "http://site.example";
    assert !EndsWithSlash(host);
    assert "http://site.example/" == host + "/";
    TrimEndSlashesAppendSlash(host);
    SlashOnlyAliasYieldsBase("http://site.example/", "/");
  }

  // ---------------------------------------------------------------------
  // GetOtherUrls

  /** One url per domain, in the domains' order: the alias path joined to the domain's base uri. */
  function UrlsForDomains(domainUris: seq<DomainAndUri>, path: string,
                          leftPart: DomainAndUri -> string, normalize: Uri -> string): (urls: seq<string>)
    ensures |urls| == |domainUris|
    ensures forall i | 0 <= i < |domainUris| ::
      urls[i] == normalize(AbsoluteUri(CombinePaths(leftPart(domainUris[i]), path)))
  {
    if domainUris == [] then []
    else
      [normalize(AbsoluteUri(CombinePaths(leftPart(domainUris[0]), path)))]
        + UrlsForDomains(domainUris[1..], path, leftPart, normalize)
  }

  /** The urls of a concatenation of domain lists are the urls of each list, in order. */
  lemma UrlsForDomainsAppend(a: seq<DomainAndUri>, b: seq<DomainAndUri>, path: string,
                              leftPart: DomainAndUri -> string, normalize: Uri -> string)
    ensures UrlsForDomains(a + b, path, leftPart, normalize)
         == UrlsForDomains(a, path, leftPart, normalize) + UrlsForDomains(b, path, leftPart, normalize)
  {
  }

  /** The domains of the node itself or else of its nearest ancestor that has any. */
  ghost function DomainsFound(cache: ContentCache, domains: DomainRegistry, id: int): (found: Option<seq<DomainAndUri>>)
    requires WellFormed(cache) && id in cache.nodes
    ensures id in domains ==> found == Some(domains[id])
    ensures found.Some? ==> found.value in domains.Values
    decreases cache.nodes[id].level
  {
    if id in domains then Some(domains[id])
    else
      match cache.nodes[id].parent
      case None => None
      case Some(p) => DomainsFound(cache, domains, p)
  }

  /** `chain[k]` is the first node of `chain` that has domains. */
  ghost predicate IsNearestWithDomains(chain: seq<int>, domains: DomainRegistry, k: int) {
    && 0 <= k < |chain|
    && chain[k] in domains
    && forall j | 0 <= j < k :: chain[j] !in domains
  }

  /**
   * The walk finds nothing exactly when no node from `id` up to its root
   * has domains, and otherwise finds those of the nearest one.
   */
  lemma {:induction false} DomainsFoundIsNearest(cache: ContentCache, domains: DomainRegistry, id: int)
    requires WellFormed(cache) && id in cache.nodes
    ensures var chain := AncestorsOrSelf(cache, id);
      DomainsFound(cache, domains, id).None? <==> forall k | 0 <= k < |chain| :: chain[k] !in domains
    ensures var chain := AncestorsOrSelf(cache, id);
      forall k | IsNearestWithDomains(chain, domains, k) :: DomainsFound(cache, domains, id) == Some(domains[chain[k]])
    decreases cache.nodes[id].level
  {
    var chain := AncestorsOrSelf(cache, id);
    if id in domains {
      assert forall k | IsNearestWithDomains(chain, domains, k) :: k == 0;
    } else {
      match cache.nodes[id].parent
      case None =>
        assert chain == [id];
      case Some(p) =>
        var rest := AncestorsOrSelf(cache, p);
        assert chain == [id] + rest;
        DomainsFoundIsNearest(cache, domains, p);
        forall k | IsNearestWithDomains(chain, domains, k)
          ensures IsNearestWithDomains(rest, domains, k - 1)
        {
          assert k != 0;
          forall j | 0 <= j < k - 1 ensures rest[j] !in domains {
            assert rest[j] == chain[j + 1];
          }
        }
        if forall k | 0 <= k < |rest| :: rest[k] !in domains {
          forall k | 0 <= k < |chain| ensures chain[k] !in domains {
            if k > 0 { assert chain[k] == rest[k - 1]; }
          }
        }
        if forall k | 0 <= k < |chain| :: chain[k] !in domains {
          forall k | 0 <= k < |rest| ensures rest[k] !in domains {
            assert rest[k] == chain[k + 1];
          }
        }
    }
  }

  /**
   * The other urls of node `id`: none when the feature is off or the alias
   * is blank; else the alias path, relative when no ancestor-or-self has
   * domains, or joined to each of the nearest domains.
   */
  ghost function OtherUrls(findByUrlAliasEnabled: bool, cache: ContentCache, domains: DomainRegistry, id: int,
                           leftPart: DomainAndUri -> string, normalize: Uri -> string): (urls: seq<string>)
    requires WellFormed(cache)
    requires findByUrlAliasEnabled ==> id in cache.nodes
    ensures urls != [] ==> findByUrlAliasEnabled && !IsNullOrWhiteSpace(UrlAlias(cache.nodes[id]))
    ensures findByUrlAliasEnabled && !IsNullOrWhiteSpace(UrlAlias(cache.nodes[id])) ==>
      |urls| == if DomainsFound(cache, domains, id).None? then 1 else |DomainsFound(cache, domains, id).value|
  {
    if !findByUrlAliasEnabled then []
    else
      var alias := UrlAlias(cache.nodes[id]);
      if IsNullOrWhiteSpace(alias) then []
      else
        var path := "/" + alias.value;
        match DomainsFound(cache, domains, id)
        case None => [normalize(RelativeUri(path))]
        case Some(domainUris) => UrlsForDomains(domainUris, path, leftPart, normalize)
  }

  /**
   * The provider's other urls for node `id`. The feature gate is an input;
   * the node must be in the cache once the gate is passed.
   */
  method GetOtherUrls(findByUrlAliasEnabled: bool, cache: ContentCache, domains: DomainRegistry, id: int,
                      leftPart: DomainAndUri -> string, normalize: Uri -> string) returns (urls: seq<string>)
    requires WellFormed(cache)
    requires findByUrlAliasEnabled ==> id in cache.nodes
    ensures urls == OtherUrls(findByUrlAliasEnabled, cache, domains, id, leftPart, normalize)
  {
    if !findByUrlAliasEnabled {
      return [];
    }

    var node := cache.nodes[id];
    var umbracoUrlName: Option<string> := None;
    if node.hasUrlAlias {
      umbracoUrlName := node.urlAliasValue;
    }
    if IsNullOrWhiteSpace(umbracoUrlName) {
      return [];
    }

    var n: Option<int> := Some(id);
    var domainUris := DomainsForNode(domains, id);
    while domainUris.None? && n.Some?
      invariant n.Some? ==> n.value in cache.nodes
      invariant n.Some? ==> domainUris == DomainsForNode(domains, n.value)
      invariant n.Some? ==> DomainsFound(cache, domains, n.value) == DomainsFound(cache, domains, id)
      invariant n.None? ==> domainUris.None? && DomainsFound(cache, domains, id).None?
      decreases if n.Some? then cache.nodes[n.value].level + 1 else 0
    {
      n := cache.nodes[n.value].parent;
      domainUris := if n.None? then None else DomainsForNode(domains, n.value);
    }

    var path := "/" + umbracoUrlName.value;
    if domainUris.None? {
      return [normalize(RelativeUri(path))];
    }
    urls := UrlsForDomains(domainUris.value, path, leftPart, normalize);
  }

  // ---------------------------------------------------------------------
  // What the other urls are

  /** With the feature off there are no other urls, whatever the node and the domains. */
  lemma DisabledYieldsNothing(cache: ContentCache, domains: DomainRegistry, id: int,
                              leftPart: DomainAndUri -> string, normalize: Uri -> string)
    requires WellFormed(cache)
    ensures OtherUrls(false, cache, domains, id, leftPart, normalize) == []
  {
  }

  /** A node without an alias, or with a blank one, has no other urls, whatever the domains. */
  lemma BlankAliasYieldsNothing(cache: ContentCache, domains: DomainRegistry, id: int,
                                leftPart: DomainAndUri -> string, normalize: Uri -> string)
    requires WellFormed(cache) && id in cache.nodes
    requires IsNullOrWhiteSpace(UrlAlias(cache.nodes[id]))
    ensures OtherUrls(true, cache, domains, id, leftPart, normalize) == []
  {
  }

  /**
   * Domains on the node itself are used and its ancestors are never looked
   * at: a registry that agrees on the node gives the same urls.
   */
  lemma OwnDomainsFirst(cache: ContentCache, domains: DomainRegistry, other: DomainRegistry, id: int,
                        leftPart: DomainAndUri -> string, normalize: Uri -> string)
    requires WellFormed(cache) && id in cache.nodes
    requires id in domains && id in other && domains[id] == other[id]
    ensures DomainsFound(cache, domains, id) == Some(domains[id])
    ensures OtherUrls(true, cache, domains, id, leftPart, normalize)
         == OtherUrls(true, cache, other, id, leftPart, normalize)
  {
  }

  /**
   * No domains anywhere from the node up to its root: one url, the
   * normalized relative path "/" + alias.
   */
  lemma NoDomainsYieldsRelativeUrl(cache: ContentCache, domains: DomainRegistry, id: int,
                                   leftPart: DomainAndUri -> string, normalize: Uri -> string)
    requires WellFormed(cache) && id in cache.nodes
    requires !IsNullOrWhiteSpace(UrlAlias(cache.nodes[id]))
    requires var chain := AncestorsOrSelf(cache, id); forall k | 0 <= k < |chain| :: chain[k] !in domains
    ensures OtherUrls(true, cache, domains, id, leftPart, normalize)
         == [normalize(RelativeUri("/" + UrlAlias(cache.nodes[id]).value))]
  {
    DomainsFoundIsNearest(cache, domains, id);
  }

  /**
   * When `chain[k]` is the nearest ancestor-or-self with domains: one url
   * per domain of that node, in order, each the domain's base joined to
   * "/" + alias; no duplicates are removed.
   */
  lemma NearestDomainsYieldOneUrlEach(cache: ContentCache, domains: DomainRegistry, id: int, k: int,
                                      leftPart: DomainAndUri -> string, normalize: Uri -> string)
    requires WellFormed(cache) && id in cache.nodes
    requires !IsNullOrWhiteSpace(UrlAlias(cache.nodes[id]))
    requires IsNearestWithDomains(AncestorsOrSelf(cache, id), domains, k)
    ensures var urls := OtherUrls(true, cache, domains, id, leftPart, normalize);
            var domainUris := domains[AncestorsOrSelf(cache, id)[k]];
            var path := "/" + UrlAlias(cache.nodes[id]).value;
            && |urls| == |domainUris|
            && forall i | 0 <= i < |domainUris| ::
                 urls[i] == normalize(AbsoluteUri(CombinePaths(leftPart(domainUris[i]), path)))
  {
    DomainsFoundIsNearest(cache, domains, id);
  }
}
