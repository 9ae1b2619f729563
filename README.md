# LdapGroups in Dafny

A model of the LdapGroups MediaWiki extension (`src/LdapGroups.php`).
The extension keeps an account's wiki groups in line with its groups in an LDAP
or Active Directory server. It does this in five parts:

- **Group maps.** The configured map (local group → directory group DNs) is
  turned into two lookup tables: `mwGroupMap`, from group to lower-cased DNs,
  and `ldapGroupMap`, from DN to group, where the last write wins.
- **Permission guard.** The wiki's permission globals are changed once, so
  that directory-controlled groups cannot be handed out by hand.
- **Account lookup.** The account's directory entry is looked up by email
  through a shared search cache. Nested memberships can optionally be expanded
  with in-chain queries.
- **Memberships.** The entry's `memberof` values are normalised.
- **Sync.** The groups to add and the groups to remove are computed.

Modules, one per part of the core:

| module | file | what it holds |
|---|---|---|
| `Results` | results.dfy | `Option`, `Result` |
| `Text` | text.dfy | ASCII `strtolower`, PHP string truthiness, the first part of `explode(",", dn)` |
| `Search` | search.dfy | Directory entries. The directory, as a function from filter to entries or an error. The search cache, a class over a map from filter to stored result and TTL. |
| `GroupMapping` | group_mapping.dfy | setupGroupMap's two loops as functions (`Build`), with an independent reading of the table to check them against |
| `Guard` | guard.dfy | setGroupRestrictions as functions on the three globals. The `SiteRights` class holds those globals. |
| `Membership` | membership.dfy | `addMemberof`, the memberships normalisation, the chain scan and `Fetch`, the state change of getLDAPData |
| `Reconcile` | reconcile.dfy | getGroups' loop, the controlled-group helpers, the delta of mapGroups and mapGroups as written |
| `LdapGroups` | ldap_groups.dfy | The `LdapGroups` class. Its methods run the loops of the source in place and are proved against the functions above. |

Modelling choices:

- **Directory.** The server is a function from a search filter to a list of
  entries or an error message. The `count` that `ldap_get_entries` adds is the
  length of that list.
- **Search cache.** It is an object shared by every `LdapGroups` object,
  keyed by filter. A ghost log `issued` records the filters that reached the
  directory, so "served from the cache" can be stated.
- **Key order.** PHP arrays keep insertion order, and doGroupMapUsingChain
  walks `ldapGroupMap` in that order. The class therefore keeps the key order
  of `ldapGroupMap` in `ldapGroupOrder`.
- **Host globals.** `$wgGroupPermissions`, `$wgAddGroups` and
  `$wgRemoveGroups` are the fields of a `SiteRights` object that the
  constructor changes in place.
- **Host account.** The account is a value: an id, an email and the set of
  groups it holds. "No email" is PHP falsiness: the empty string or `"0"`.

Behaviour of the code that its own comments or names leave open, modelled as
the code does it:

- setGroupRestrictions is documented as restricting what can be done with
  the mapped groups on Special:UserRights (src/LdapGroups.php:93-94, :109).
  Its second loop, however, revokes `userrights` from every group that has
  it, mapped or not. Such a group also gets `$wgAddGroups` and
  `$wgRemoveGroups` set to the unmapped groups, but only when those entries
  are unset.
- The removal loop of mapGroups is commented as removing the groups "the
  user doesn't have any of" the directory groups for (src/LdapGroups.php:350-351).
  It marks every mapped group none of whose DNs is a membership, whether the
  account holds it or not. Removing a group that is not held changes nothing,
  and `SyncConverges` shows no held group is removed a second time.
- getLdapMemberships returns a list and keeps duplicates. mapGroups turns it
  into a set (`array_flip`, `Elements`).
- getLDAPData stores the account's entry before the chain queries run. A chain
  query that fails raises an error, but the entry stays stored with the DNs
  appended so far.

## Model

| member | source | states |
|---|---|---|
| `Text.Lower` | src/LdapGroups.php:157 | strtolower leaves no upper-case letter and keeps the length, and a string that is already lower-case comes back unchanged, so a normalised DN normalises to itself |
| `Text.LowerAll` | src/LdapGroups.php:285 | `array_map('strtolower', …)` keeps the length, lower-cases every value, and every result is lower-case |
| `Text.FirstRdn` | src/LdapGroups.php:133 | `$cn` is a prefix of the DN with no comma, and it ends where the DN's first comma is |
| `Search.ResolveStable` | src/LdapGroups.php:194-213 | storing further search results never changes what any search yields |
| `GroupMapping.BuildWellFormed` | src/LdapGroups.php:155-161 | Both maps are lower-case. Every DN points at a group that lists it. No group has an empty list. The key order of `ldapGroupMap` is duplicate-free and holds exactly its keys. |
| `GroupMapping.BuildForward` | src/LdapGroups.php:155-158 | `mwGroupMap[name]` is exactly the lower-cased DNs configured under `name` over all rows, in table order, and a key exists only when there is one |
| `GroupMapping.ConfiguredDnListed` | src/LdapGroups.php:155-158 | `lower(k)` is in `mwGroupMap[name]` for every DN `k` configured under `name` |
| `GroupMapping.BuildInverse` | src/LdapGroups.php:155-159 | `ldapGroupMap` has exactly the configured lower-cased DNs, each pointing at the group of the last row that lists it |
| `GroupMapping.LastWriteWins` | src/LdapGroups.php:155-159 | `ldapGroupMap[lower(k)]` is the last group in the table that configures `k`, up to case |
| `Guard.InheritedEntries` | src/LdapGroups.php:99-103 | the first loop adds an entry for exactly the mapped groups that had none, a copy of the 'user' entry, and keeps every existing entry |
| `Guard.NonMappedExact` | src/LdapGroups.php:105-107 | `$nonLDAPGroups` holds no mapped group and holds every group with permissions that is not mapped |
| `Guard.GuardedPermissionsSpec` | src/LdapGroups.php:99-123 | Afterwards no group grants userrights. A group that granted it loses exactly that right. Other groups are unchanged. A mapped group that had no entry gets the 'user' rights without userrights. |
| `Guard.GuardedGrantsSpec` | src/LdapGroups.php:110-123 | existing `$wgAddGroups`/`$wgRemoveGroups` entries are kept; each group that lost userrights and had none gets the unmapped groups, never a mapped one |
| `Guard.GuardFixesGuarded` | src/LdapGroups.php:97-124 | on tables where no group grants userrights and every mapped group has an entry, the guard changes nothing |
| `Guard.GuardIdempotent` | src/LdapGroups.php:97-124 | running the guard a second time changes none of the three tables |
| `Membership.AddMemberof` | src/LdapGroups.php:273-275 | appending a DN extends memberof by that DN only, creates the attribute when absent and keeps the DN, the other attributes and the count |
| `Membership.AppendAllEffect` | src/LdapGroups.php:273-275 | appending several DNs extends memberof by exactly those DNs in order and changes nothing else in the entry |
| `Membership.Memberships` | src/LdapGroups.php:277-291 | the normalised memberships are the memberof values lower-cased, one per value with the count left out, and none when the attribute is missing |
| `Membership.MembershipsAfterChain` | src/LdapGroups.php:274-288 | DNs appended by the chain show up lower-cased after the entry's own memberships |
| `Membership.SelectedMembers` | src/LdapGroups.php:135-141 | a DN is selected exactly when it is a mapped key whose chain query has exactly one result |
| `Membership.ChainScanFails` | src/LdapGroups.php:135-141 | the chain loop ends with an error exactly when some chain query fails |
| `Membership.ChainScanHits` | src/LdapGroups.php:135-141 | without errors the chain loop appends exactly the keys whose query returns one entry, in key order |
| `Membership.ChainScanFailureAt` | src/LdapGroups.php:135-141 | an error comes from the first failing key; the DNs appended are the selected keys before it |
| `Membership.ChainScanSelects` | src/LdapGroups.php:132-143 | the three facts above together, against the reference reading `Selected` |
| `Membership.ChainScanStable` | src/LdapGroups.php:136-138 | the chain loop finds the same hits and error whatever the cache stored meanwhile |
| `Membership.Fetch` | src/LdapGroups.php:231-265 | a successful lookup leaves the returned entry stored under the user id; only that id can be added; no stored entry is changed |
| `Membership.FetchErrors` | src/LdapGroups.php:232-252 | no email, a failed search, no entry and several entries each raise their own error and store nothing; success needs exactly one entry |
| `Membership.FetchFound` | src/LdapGroups.php:240-261 | With exactly one entry, that entry is stored. With chain queries on and no failure, its memberships are the entry's own followed by the selected chain keys, and nothing else in it changes. |
| `Membership.FetchMemoised` | src/LdapGroups.php:232-264 | once an entry is stored, a later call returns it and changes nothing |
| `Reconcile.CollectGroups` | src/LdapGroups.php:293-302 | getGroups returns each group at most once, and a group exactly when some membership DN maps to it |
| `Reconcile.AlreadyInControlledGroups` | src/LdapGroups.php:304-306 | the part of the inverse map whose entries point at groups the account holds: every value it yields is a held group |
| `Reconcile.NotInControlledGroups` | src/LdapGroups.php:304-310 | the part of the inverse map pointing at groups the account lacks: none of its values is held, it shares no DN with alreadyInControlledGroups, and the two together are the whole inverse map |
| `Reconcile.AddControlledGroups` | src/LdapGroups.php:312-316 | every group returned is a value of the given entries, and a group is returned exactly when a membership DN maps to it there |
| `Reconcile.AddsOnlyMissingGroups` | src/LdapGroups.php:308-316 | addControlledGroups over notInControlledGroups never yields a group the account already holds |
| `Reconcile.MarkRemovals` | src/LdapGroups.php:352-359 | a mapped group is marked for removal exactly when none of its DNs is a membership |
| `Reconcile.AddTheseExact` | src/LdapGroups.php:337-348 | a group is added exactly when it is not held and some membership DN maps to it |
| `Reconcile.DeltaDisjoint` | src/LdapGroups.php:341-359 | no group is both added and removed |
| `Reconcile.UntouchedLocalGroups` | src/LdapGroups.php:352-359 | groups outside the mapping are neither added nor removed |
| `Reconcile.OrRetention` | src/LdapGroups.php:346-359 | one membership DN that maps to a group is enough to keep it or to add it |
| `Reconcile.SyncConverges` | src/LdapGroups.php:322-359 | after the delta is applied, recomputing it with the same memberships adds nothing, removes nothing held and changes nothing |
| `Reconcile.SyncMatchesDirectory` | src/LdapGroups.php:322-359 | with no DN shared between groups, the groups after the sync are the unmapped held groups plus exactly the mapped groups one of whose DNs is a membership |
| `Reconcile.SharedDnShadowsGroup` | src/LdapGroups.php:159 | For any group `a` listing a membership DN that the inverse map gives to another group (last write wins): a held `a` is kept, and an unheld `a` is not added unless some other membership DN maps to it. |
| `Reconcile.StaffAdminsScenario` | src/LdapGroups.php:155-359 | staff ↦ cn=staff,dc=x and admins ↦ cn=admins,dc=x, with staff held and membership CN=Admins,DC=X: add admins, remove staff. As written, the account is left with no group. |
| `Reconcile.MembershipAsWritten` | src/LdapGroups.php:324-333 | the membership mapGroups reads as written differs from any non-empty membership stored for any user |
| `Reconcile.AsWrittenStripsControlledGroups` | src/LdapGroups.php:324-359 | as written, every sync removes every directory-controlled group from the account |
| `Reconcile.AsWrittenNeverAdds` | src/LdapGroups.php:361-365 | as written, a group the intended delta adds is never added |
| `LdapGroups.LdapGroups.constructor` | src/LdapGroups.php:40-44 | the maps are `Build` of the table and well-formed, nothing is stored or searched yet, and the three globals are guarded |
| `LdapGroups.LdapGroups.SetupGroupMap` | src/LdapGroups.php:150-164 | the nested loops leave both maps and the key order equal to `Build` of the table, then guard the globals |
| `LdapGroups.LdapGroups.SetGroupRestrictions` | src/LdapGroups.php:97-124 | the three globals become their guarded forms (see `Guard.GuardedPermissionsSpec`, `Guard.GuardedGrantsSpec`) |
| `LdapGroups.LdapGroups.InheritUserRights` | src/LdapGroups.php:99-103 | the first loop leaves `$wgGroupPermissions` as `WithInherited` of the old table |
| `LdapGroups.LdapGroups.RevokeUserRights` | src/LdapGroups.php:105-123 | the second loop revokes userrights everywhere and fills unset grant entries with the unmapped groups |
| `LdapGroups.LdapGroups.DoLdapSearch` | src/LdapGroups.php:191-223 | A hit returns the stored result and neither searches nor stores. A miss searches once. A successful search is stored with TTL 86400. A failed one raises and stores nothing. The cache only grows with the directory's own answers. |
| `LdapGroups.LdapGroups.SearchTwice` | src/LdapGroups.php:191-223 | the same filter searched twice yields the same result, and reaches the directory at most once unless the search fails |
| `LdapGroups.LdapGroups.AddMemberof` | src/LdapGroups.php:273-275 | only the user's stored entry changes, by one appended DN |
| `LdapGroups.LdapGroups.ChainQuery` | src/LdapGroups.php:136-141 | one chain query: a single hit appends the DN, a failure is reported and appends nothing |
| `LdapGroups.LdapGroups.DoGroupMapUsingChain` | src/LdapGroups.php:132-143 | The loop appends exactly the hits of the chain scan over the key order and reports its error. Only the user's entry changes. |
| `LdapGroups.LdapGroups.SearchAccount` | src/LdapGroups.php:240-252 | the account search through the cache yields the one entry found or the not-found, ambiguous or search error |
| `LdapGroups.LdapGroups.GetLdapData` | src/LdapGroups.php:231-265 | Result and stored entries are those of `Fetch`. The cache only grows. A stored entry or a missing email means no search at all. |
| `LdapGroups.LdapGroups.GetLdapMemberships` | src/LdapGroups.php:277-291 | the normalised memberships of the fetched entry, or the lookup's error |
| `LdapGroups.LdapGroups.GetGroups` | src/LdapGroups.php:293-302 | The groups the fetched memberships map to, each once, or the lookup's error. The stored entries are those of `Fetch`. |
| `LdapGroups.LdapGroups.MapGroups` | src/LdapGroups.php:322-359 | For the user's own memberships, the delta is `Delta`: disjoint, and unmapped groups are left alone. A lookup error aborts before any change. |

## Left out

- The LDAP transport: connecting, protocol options, binding and `ldap_search`/`ldap_get_entries`. The directory is a function from filter to entries or an error message, and a connection or bind failure is one more such error.
- Reading the configuration: the ini file, `ConfigFactory` and the `self::$lg` singleton. The map, the search attribute and the chain flag are constructor parameters.
- Profiling, debug logging and the `microtime` timing in doLDAPSearch and getLDAPData.
- Cache expiry and the cache key prefix of `wfMemcKey`. The cache is keyed by filter and stores the TTL (86400 seconds) with each result. The host's expiry is outside the model, so "after expiry a second search is made" is not stated.
- The host `User` object: `getId`, `getEmail`, `getGroups`, `addGroup`, `removeGroup`. An account is a value with an id, an email and a group set. MapGroups returns the delta rather than calling `addGroup`/`removeGroup`, and `Apply` states the result.
- A missing 'user' entry in `$wgGroupPermissions`, which PHP copies as null, is modelled as empty rights.
- `$wgAddGroups`/`$wgRemoveGroups` values are sets of group names. The order of the `array_diff` list and the value `true` (any group) are not modelled.
- `Reconcile.CollectGroups`: does not state the order of the result (first appearance), only that the groups are distinct and which they are.
- `Text.Lower`: ASCII lower-casing only, as PHP ≥ 8.2's `strtolower`, or any version under the C locale. Locale-dependent case mapping (`LC_CTYPE`) is not modelled.
- `Text.FirstRdn`: for a DN without a comma, PHP's `list()` also raises a notice for the missing second part. The model just takes the whole DN.
- A directory whose answers change between calls: the directory is one fixed function for the object's lifetime, so there are no transient errors that clear on a retry and no entry changes after it was cached. `LdapGroups.LdapGroups.SearchTwice` agrees on both calls only because of this.
- `$hasControlledGroups` in mapGroups is computed and never used. MapGroups computes it too and nothing depends on it.

## Findings

| source | as written | input that shows it | evidently intended | confidence | as-written member | corrected member |
|---|---|---|---|---|---|---|
| src/LdapGroups.php:324-333 | mapGroups reads `$this->ldapData['memberof']`, but `ldapData` is keyed by user id, so the membership is always empty and the removal loop removes every directory-controlled group | staff/admins mapping, account holding staff, entry listing CN=Admins,DC=X: the account ends with no group (`Reconcile.StaffAdminsScenario`) | read the memberships of this account's entry (getLdapMemberships) | not executed; high, the key is never written anywhere | `Reconcile.AsWrittenStripsControlledGroups` | `LdapGroups.LdapGroups.MapGroups` |
| src/LdapGroups.php:361-365 | the add loop runs over the undefined `$ldapGroups` and tests against the undefined `$groups`, so no group is ever added | any account that lacks a group one of its membership DNs maps to, e.g. admins above | add each group of `$addThese` | not executed; high, neither variable is assigned in the method | `Reconcile.AsWrittenNeverAdds` | `Reconcile.SyncMatchesDirectory` |
