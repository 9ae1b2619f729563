/**
 * The directory search layer as the rest of the core sees it: directory entries,
 * the directory itself as an oracle from filter to entries, and the shared
 * search cache that doLDAPSearch keeps in front of it.
 */
module Search {
  import opened Results

  /** A multi-valued attribute as ldap_get_entries returns it: its values and, when present, its 'count'. */
  datatype MultiValue = MultiValue(count: Option<int>, values: seq<string>)

  /** One directory entry: its DN, its memberof attribute when it has one, and its other attributes. */
  datatype DirEntry = DirEntry(dn: string, memberof: Option<MultiValue>, attributes: map<string, MultiValue>)

  /**
   * The directory: a search filter either yields the matching entries (the
   * 'count' of ldap_get_entries is their number) or fails with the transport's
   * error message. Connecting and binding are folded into the failure.
   */
  type Directory = string -> Result<seq<DirEntry>, string>

  /** Seconds a search result stays in the cache (3600 * 24). */
  const SearchTtl: nat := 3600 * 24

  /** A cache slot: the stored search result and the time-to-live it was stored with. */
  datatype Cached = Cached(entries: seq<DirEntry>, ttl: nat)

  type CacheMap = map<string, Cached>

  /** The host's shared cache service, keyed by search filter. Expiry is the host's business. */
  class SearchCache {
    var entries: CacheMap

    constructor (initial: CacheMap)
      ensures entries == initial
    {
      entries := initial;
    }
  }

  /** What a search for `filter` yields: the cached result on a hit, the directory's answer on a miss. */
  function Resolve(cache: CacheMap, dir: Directory, filter: string): Result<seq<DirEntry>, string> {
    if filter in cache then Ok(cache[filter].entries) else dir(filter)
  }

  /**
   * `after` is `before` plus entries stored by searches: no slot is changed or
   * dropped, and every new slot holds the directory's own answer with the search TTL.
   */
  ghost predicate Extends(before: CacheMap, after: CacheMap, dir: Directory) {
    && (forall k :: k in before ==> k in after && after[k] == before[k])
    && (forall k :: k in after && k !in before ==> dir(k) == Ok(after[k].entries) && after[k].ttl == SearchTtl)
  }

  lemma ExtendsReflexive(c: CacheMap, dir: Directory)
    ensures Extends(c, c, dir)
  {
  }

  lemma ExtendsTransitive(a: CacheMap, b: CacheMap, c: CacheMap, dir: Directory)
    requires Extends(a, b, dir) && Extends(b, c, dir)
    ensures Extends(a, c, dir)
  {
  }

  /** Filling the cache never changes what any search yields. */
  lemma ResolveStable(before: CacheMap, after: CacheMap, dir: Directory, filter: string)
    requires Extends(before, after, dir)
    ensures Resolve(after, dir, filter) == Resolve(before, dir, filter)
  {
  }
}
