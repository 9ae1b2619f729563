/**
 * The LdapGroups object: the two group maps built once at construction, the
 * per-user store of directory entries, and the operations that search the
 * directory through the shared cache, resolve an account's memberships and
 * compute the changes that bring its wiki groups in line with the directory.
 */
module LdapGroups {
  import opened Results
  import opened Text
  import opened Search
  import opened GroupMapping
  import opened Guard
  import opened Membership
  import opened Reconcile

  class LdapGroups {
    /** The host's main cache, shared with every other LdapGroups object. */
    const cache: SearchCache
    /** The directory server behind the connection (server, bind user and base DN are its business). */
    const directory: Directory
    /** The 'searchattr' parameter: the attribute the account's email is matched against. */
    const searchAttr: string
    /** The 'UseMatchingRuleInChainQuery' setting. */
    const useChain: bool

    var mwGroupMap: map<string, seq<string>>
    var ldapGroupMap: map<string, string>
    /** The key order of ldapGroupMap, which PHP keeps and doGroupMapUsingChain follows. */
    var ldapGroupOrder: seq<string>
    /** Directory entries already fetched, by user id. */
    var ldapData: map<nat, DirEntry>
    /** The filters sent to the directory so far, oldest first. */
    ghost var issued: seq<string>

    ghost predicate Valid()
      reads this`mwGroupMap, this`ldapGroupMap, this`ldapGroupOrder
    {
      WellFormed(GroupMaps(mwGroupMap, ldapGroupMap, ldapGroupOrder))
    }

    /** __construct: build the group maps from the configured table and guard the permission globals. */
    constructor (table: GroupTable, site: SiteRights, cache: SearchCache, directory: Directory,
                 searchAttr: string, useChain: bool)
      modifies site
      ensures Valid()
      ensures GroupMaps(mwGroupMap, ldapGroupMap, ldapGroupOrder) == Build(table)
      ensures ldapData == map[] && issued == []
      ensures this.cache == cache && this.directory == directory
      ensures this.searchAttr == searchAttr && this.useChain == useChain
      ensures site.permissions == GuardedPermissions(old(site.permissions), table)
      ensures site.addGroups == GuardedGrants(old(site.addGroups), old(site.permissions), table)
      ensures site.removeGroups == GuardedGrants(old(site.removeGroups), old(site.permissions), table)
    {
      this.cache := cache;
      this.directory := directory;
      this.searchAttr := searchAttr;
      this.useChain := useChain;
      mwGroupMap := map[];
      ldapGroupMap := map[];
      ldapGroupOrder := [];
      ldapData := map[];
      issued := [];
      new;
      SetupGroupMap(table, site);
      assert Valid() by { BuildWellFormed(table); }
    }

    /**
     * setupGroupMap: fill both maps row by row, DN by DN, lower-casing each DN,
     * then guard the permission globals. Runs once, on the empty maps.
     */
    method SetupGroupMap(table: GroupTable, site: SiteRights)
      requires mwGroupMap == map[] && ldapGroupMap == map[] && ldapGroupOrder == []
      modifies this`mwGroupMap, this`ldapGroupMap, this`ldapGroupOrder, site
      ensures GroupMaps(mwGroupMap, ldapGroupMap, ldapGroupOrder) == Build(table)
      ensures site.permissions == GuardedPermissions(old(site.permissions), table)
      ensures site.addGroups == GuardedGrants(old(site.addGroups), old(site.permissions), table)
      ensures site.removeGroups == GuardedGrants(old(site.removeGroups), old(site.permissions), table)
    {
      var i := 0;
      while i < |table|
        invariant 0 <= i <= |table|
        invariant GroupMaps(mwGroupMap, ldapGroupMap, ldapGroupOrder) == Build(table[..i])
        invariant unchanged(site)
      {
        var (name, dns) := table[i];
        BuildSnoc(table, i);
        var j := 0;
        while j < |dns|
          invariant 0 <= j <= |dns|
          invariant GroupMaps(mwGroupMap, ldapGroupMap, ldapGroupOrder) == InsertRow(Build(table[..i]), name, dns[..j])
          invariant unchanged(site)
        {
          InsertRowSnoc(Build(table[..i]), name, dns, j);
          var lowLdap := Lower(dns[j]);
          mwGroupMap := mwGroupMap[name := Get(mwGroupMap, name) + [lowLdap]];
          if lowLdap !in ldapGroupMap {
            ldapGroupOrder := ldapGroupOrder + [lowLdap];
          }
          ldapGroupMap := ldapGroupMap[lowLdap := name];
          j := j + 1;
        }
        assert dns[..j] == dns;
        i := i + 1;
      }
      assert table[..i] == table;
      SetGroupRestrictions(site, table);
    }

    /**
     * setGroupRestrictions: mapped groups without permissions inherit those of
     * 'user'; every group granting userrights loses it, and unless already set,
     * may from then on add and remove only the groups outside the table.
     */
    method SetGroupRestrictions(site: SiteRights, groupMap: GroupTable)
      modifies site
      ensures site.permissions == GuardedPermissions(old(site.permissions), groupMap)
      ensures site.addGroups == GuardedGrants(old(site.addGroups), old(site.permissions), groupMap)
      ensures site.removeGroups == GuardedGrants(old(site.removeGroups), old(site.permissions), groupMap)
    {
      InheritUserRights(site, groupMap);
      RevokeUserRights(site, MappedNames(groupMap));
    }

    /** The first loop of setGroupRestrictions: each mapped group without an entry copies 'user'. */
    method InheritUserRights(site: SiteRights, groupMap: GroupTable)
      modifies site`permissions
      ensures site.permissions == WithInherited(old(site.permissions), groupMap)
    {
      var i := 0;
      while i < |groupMap|
        invariant 0 <= i <= |groupMap|
        invariant site.permissions == WithInherited(old(site.permissions), groupMap[..i])
      {
        InheritStep(old(site.permissions), groupMap, i);
        var name := groupMap[i].0;
        if name !in site.permissions {
          site.permissions := site.permissions[name := UserTemplate(site.permissions)];
        }
        i := i + 1;
      }
      assert groupMap[..i] == groupMap;
    }

    /**
     * The second loop of setGroupRestrictions: every group granting userrights
     * loses it and, where not already set, may add and remove only the groups
     * outside `groups`.
     */
    method RevokeUserRights(site: SiteRights, groups: set<string>)
      modifies site
      ensures site.permissions == RevokedExcept(old(site.permissions), {})
      ensures site.addGroups
              == GrantedExcept(old(site.addGroups), old(site.permissions), {}, old(site.permissions).Keys - groups)
      ensures site.removeGroups
              == GrantedExcept(old(site.removeGroups), old(site.permissions), {}, old(site.permissions).Keys - groups)
    {
      var nonLdapGroups := site.permissions.Keys - groups;
      ghost var inherited := site.permissions;
      SecondLoopStart(inherited, old(site.addGroups), nonLdapGroups);
      SecondLoopStart(inherited, old(site.removeGroups), nonLdapGroups);
      var todo := site.permissions.Keys;
      while todo != {}
        invariant todo <= inherited.Keys
        invariant site.permissions == RevokedExcept(inherited, todo)
        invariant site.addGroups == GrantedExcept(old(site.addGroups), inherited, todo, nonLdapGroups)
        invariant site.removeGroups == GrantedExcept(old(site.removeGroups), inherited, todo, nonLdapGroups)
        decreases todo
      {
        var group :| group in todo;
        RevokeStep(inherited, todo, group);
        GrantStep(old(site.addGroups), inherited, todo, nonLdapGroups, group);
        GrantStep(old(site.removeGroups), inherited, todo, nonLdapGroups, group);
        var rights := site.permissions[group];
        if "userrights" in rights && rights["userrights"] {
          site.permissions := site.permissions[group := rights["userrights" := false]];
          if group !in site.addGroups {
            site.addGroups := site.addGroups[group := nonLdapGroups];
          }
          if group !in site.removeGroups {
            site.removeGroups := site.removeGroups[group := nonLdapGroups];
          }
        }
        todo := todo - {group};
      }
    }

    /**
     * doLDAPSearch: on a cache hit return the stored result without touching the
     * directory; on a miss search, store a successful result for a day and
     * return it; a failed search raises its error and stores nothing.
     */
    method DoLdapSearch(filter: string) returns (r: Result<seq<DirEntry>, string>)
      modifies this`issued, cache
      ensures r == Resolve(old(cache.entries), directory, filter)
      ensures filter in old(cache.entries) ==>
                r == Ok(old(cache.entries)[filter].entries)
                && cache.entries == old(cache.entries) && issued == old(issued)
      ensures filter !in old(cache.entries) ==> issued == old(issued) + [filter] && r == directory(filter)
      ensures filter !in old(cache.entries) && r.Ok? ==>
                cache.entries == old(cache.entries)[filter := Cached(r.value, SearchTtl)]
      ensures filter !in old(cache.entries) && r.Err? ==> cache.entries == old(cache.entries)
      ensures Extends(old(cache.entries), cache.entries, directory)
    {
      if filter in cache.entries {
        return Ok(cache.entries[filter].entries);
      }
      issued := issued + [filter];
      r := directory(filter);
      if r.Ok? {
        cache.entries := cache.entries[filter := Cached(r.value, SearchTtl)];
      }
    }

    /**
     * The same filter searched twice: both calls agree, and once the first has
     * succeeded the second is served from the cache, so the directory sees the
     * filter at most once. A failed search is not cached and is tried again.
     */
    method SearchTwice(filter: string) returns (first: Result<seq<DirEntry>, string>, second: Result<seq<DirEntry>, string>)
      modifies this`issued, cache
      ensures first == second
      ensures first.Ok? ==> issued == old(issued) + (if filter in old(cache.entries) then [] else [filter])
      ensures first.Err? ==> issued == old(issued) + [filter, filter]
    {
      first := DoLdapSearch(filter);
      second := DoLdapSearch(filter);
    }

    /** addMemberof: append a group DN to the stored entry's memberof. */
    method AddMemberof(user: User, groupDn: string)
      requires user.id in ldapData
      modifies this`ldapData
      ensures ldapData == old(ldapData)[user.id := Membership.AddMemberof(old(ldapData)[user.id], groupDn)]
    {
      var entry := ldapData[user.id];
      ldapData := ldapData[user.id := Membership.AddMemberof(entry, groupDn)];
    }

    /**
     * doGroupMapUsingChain: for each DN of ldapGroupMap, in order, ask whether the
     * account is a (nested) member; a single hit appends the DN to the stored
     * entry's memberof. A failed search stops the loop and is reported.
     */
    method DoGroupMapUsingChain(user: User, userDn: string) returns (failure: Option<string>)
      requires user.id in ldapData
      modifies this`ldapData, this`issued, cache
      ensures var c := ChainScan(ldapGroupOrder, FirstRdn(userDn), old(cache.entries), directory);
              failure == c.failure && ldapData == old(ldapData)[user.id := AppendAll(old(ldapData)[user.id], c.hits)]
      ensures Extends(old(cache.entries), cache.entries, directory)
    {
      var cn := FirstRdn(userDn);
      ghost var start := cache.entries;
      ghost var entry := ldapData[user.id];
      ghost var scan := ChainOutcome([], None);
      ExtendsReflexive(start, directory);
      var i := 0;
      while i < |ldapGroupOrder|
        invariant 0 <= i <= |ldapGroupOrder|
        invariant Extends(start, cache.entries, directory)
        invariant scan == ChainScan(ldapGroupOrder[..i], cn, start, directory) && scan.failure == None
        invariant ldapData == old(ldapData)[user.id := AppendAll(entry, scan.hits)]
      {
        var groupDn := ldapGroupOrder[i];
        ghost var before := cache.entries;
        ChainAdvance(ldapGroupOrder, i, cn, start, directory, entry);
        assert Resolve(before, directory, ChainFilter(cn, groupDn)) == Resolve(start, directory, ChainFilter(cn, groupDn)) by {
          ResolveStable(start, before, directory, ChainFilter(cn, groupDn));
        }
        var error := ChainQuery(user, cn, groupDn);
        assert Extends(start, cache.entries, directory) by {
          ExtendsTransitive(start, before, cache.entries, directory);
        }
        if error.Some? {
          return error;
        }
        scan := ChainScan(ldapGroupOrder[..i + 1], cn, start, directory);
        i := i + 1;
      }
      assert ldapGroupOrder[..i] == ldapGroupOrder;
      return None;
    }

    /**
     * One key of doGroupMapUsingChain: the chain query for `groupDn`; a single
     * hit appends the DN to the stored entry, a failed search is reported.
     */
    method ChainQuery(user: User, cn: string, groupDn: string) returns (error: Option<string>)
      requires user.id in ldapData
      modifies this`ldapData, this`issued, cache
      ensures var r := Resolve(old(cache.entries), directory, ChainFilter(cn, groupDn));
              && error == (if r.Err? then Some(r.error) else None)
              && ldapData == if r.Ok? && |r.value| == 1
                             then old(ldapData)[user.id := Membership.AddMemberof(old(ldapData)[user.id], groupDn)]
                             else old(ldapData)
      ensures Extends(old(cache.entries), cache.entries, directory)
    {
      var found := DoLdapSearch(ChainFilter(cn, groupDn));
      if found.Err? {
        return Some(found.error);
      }
      if |found.value| == 1 {
        AddMemberof(user, groupDn);
      }
      return None;
    }

    /**
     * getLDAPData: the stored entry for the user if there is one; otherwise
     * search by email, insist on exactly one entry, store it and, when chain
     * queries are on, expand its nested memberships.
     */
    method GetLdapData(user: User) returns (r: Result<DirEntry, LdapError>)
      modifies this`ldapData, this`issued, cache
      ensures var f := Fetch(old(ldapData), old(cache.entries), directory, searchAttr, useChain, ldapGroupOrder, user);
              r == f.result && ldapData == f.data
      ensures Extends(old(cache.entries), cache.entries, directory)
      ensures user.id in old(ldapData) || !Truthy(user.email) ==>
                issued == old(issued) && cache.entries == old(cache.entries)
    {
      ExtendsReflexive(cache.entries, directory);
      if user.id in ldapData {
        return Ok(ldapData[user.id]);
      }
      var email := user.email;
      if !Truthy(email) {
        return Err(MissingEmail(user.id));
      }
      var found := SearchAccount(user);
      if found.Err? {
        return Err(found.error);
      }
      var entry := found.value;
      ldapData := ldapData[user.id := entry];
      if useChain {
        ghost var mid := cache.entries;
        ghost var c := ChainScan(ldapGroupOrder, FirstRdn(entry.dn), old(cache.entries), directory);
        assert ChainScan(ldapGroupOrder, FirstRdn(entry.dn), mid, directory) == c by {
          ChainScanStable(ldapGroupOrder, FirstRdn(entry.dn), old(cache.entries), mid, directory);
        }
        var failure := DoGroupMapUsingChain(user, entry.dn);
        assert ldapData == old(ldapData)[user.id := AppendAll(entry, c.hits)];
        assert Extends(old(cache.entries), cache.entries, directory) by {
          ExtendsTransitive(old(cache.entries), mid, cache.entries, directory);
        }
        if failure.Some? {
          return Err(SearchFailed(failure.value));
        }
      }
      return Ok(ldapData[user.id]);
    }

    /**
     * The account search of getLDAPData: search by email through the cache and
     * insist on exactly one entry.
     */
    method SearchAccount(user: User) returns (r: Result<DirEntry, LdapError>)
      modifies this`issued, cache
      ensures r == Lookup(old(cache.entries), directory, searchAttr, user)
      ensures Extends(old(cache.entries), cache.entries, directory)
    {
      var found := DoLdapSearch(AccountFilter(searchAttr, user.email));
      if found.Err? {
        return Err(SearchFailed(found.error));
      }
      if |found.value| == 0 {
        return Err(NotFound(user.email));
      }
      if |found.value| != 1 {
        return Err(Ambiguous(user.id));
      }
      return Ok(found.value[0]);
    }

    /** getLdapMemberships: the normalised memberof values of the user's entry. */
    method GetLdapMemberships(user: User) returns (r: Result<seq<string>, LdapError>)
      modifies this`ldapData, this`issued, cache
      ensures var f := Fetch(old(ldapData), old(cache.entries), directory, searchAttr, useChain, ldapGroupOrder, user);
              && ldapData == f.data
              && r == (if f.result.Ok? then Ok(Memberships(f.result.value)) else Err(f.result.error))
      ensures Extends(old(cache.entries), cache.entries, directory)
    {
      var entry := GetLdapData(user);
      if entry.Err? {
        return Err(entry.error);
      }
      return Ok(Memberships(entry.value));
    }

    /** getGroups: the wiki groups the user's memberships map to, each once. */
    method GetGroups(user: User) returns (r: Result<seq<string>, LdapError>)
      modifies this`ldapData, this`issued, cache
      ensures var f := Fetch(old(ldapData), old(cache.entries), directory, searchAttr, useChain, ldapGroupOrder, user);
              && ldapData == f.data
              && (r.Err? <==> f.result.Err?)
              && (r.Err? ==> r.error == f.result.error)
              && (r.Ok? ==>
                    && (forall i, j :: 0 <= i < j < |r.value| ==> r.value[i] != r.value[j])
                    && forall g :: g in r.value <==>
                         exists d :: d in Memberships(f.result.value) && d in ldapGroupMap && ldapGroupMap[d] == g)
      ensures Extends(old(cache.entries), cache.entries, directory)
    {
      var memberof := GetLdapMemberships(user);
      if memberof.Err? {
        return Err(memberof.error);
      }
      var groups := CollectGroups(ldapGroupMap, memberof.value);
      return Ok(groups);
    }

    /**
     * mapGroups, reading the user's own memberships (see MembershipAsWritten)
     * and adding the groups it computes (see MapGroupsAsWritten): the groups to
     * add and to remove for this user. A lookup error aborts before any change.
     */
    method MapGroups(user: User) returns (r: Result<SyncDelta, LdapError>)
      requires Valid()
      modifies this`ldapData, this`issued, cache
      ensures var f := Fetch(old(ldapData), old(cache.entries), directory, searchAttr, useChain, ldapGroupOrder, user);
              && ldapData == f.data
              && r == (if f.result.Ok?
                       then Ok(Delta(mwGroupMap, ldapGroupMap, user.groups, Elements(Memberships(f.result.value))))
                       else Err(f.result.error))
      ensures r.Ok? ==> r.value.toAdd !! r.value.toRemove
      ensures r.Ok? ==> forall g :: g !in mwGroupMap ==> (g in Apply(user.groups, r.value) <==> g in user.groups)
      ensures Extends(old(cache.entries), cache.entries, directory)
    {
      var memberships := GetLdapMemberships(user);
      if memberships.Err? {
        return Err(memberships.error);
      }
      var memberOf := Elements(memberships.value);
      // $hasControlledGroups: computed by the source and never used.
      var hasControlledGroups := AlreadyInControlledGroups(ldapGroupMap, user.groups);
      var notControlledGroups := NotInControlledGroups(ldapGroupMap, user.groups);
      var addThese := AddControlledGroups(memberOf, notControlledGroups);
      var removeThese := MarkRemovals(mwGroupMap, memberOf);
      r := Ok(SyncDelta(addThese, removeThese));
      DeltaDisjoint(mwGroupMap, ldapGroupMap, user.groups, memberOf);
      forall g | g !in mwGroupMap
        ensures g in Apply(user.groups, r.value) <==> g in user.groups
      {
        UntouchedLocalGroups(mwGroupMap, ldapGroupMap, user.groups, memberOf, g);
      }
    }
  }
}
