/**
 * setGroupRestrictions: the one-time change LdapGroups makes to the wiki's
 * permission globals ($wgGroupPermissions, $wgAddGroups, $wgRemoveGroups) so
 * that directory-controlled groups cannot be managed by hand.
 */
module Guard {
  import opened GroupMapping

  /** One group's rights: right name → granted. */
  type Rights = map<string, bool>

  type PermissionTable = map<string, Rights>

  /** $wgAddGroups / $wgRemoveGroups: group → the groups its members may grant or revoke. */
  type GrantTable = map<string, set<string>>

  /** The three globals setGroupRestrictions rewrites. */
  class SiteRights {
    var permissions: PermissionTable
    var addGroups: GrantTable
    var removeGroups: GrantTable

    constructor (permissions: PermissionTable, addGroups: GrantTable, removeGroups: GrantTable)
      ensures this.permissions == permissions
      ensures this.addGroups == addGroups && this.removeGroups == removeGroups
    {
      this.permissions := permissions;
      this.addGroups := addGroups;
      this.removeGroups := removeGroups;
    }
  }

  /** array_keys($groupMap): the local groups named in the configured table. */
  function MappedNames(table: GroupTable): set<string> {
    set i | 0 <= i < |table| :: table[i].0
  }

  /** $wgGroupPermissions['user'], or nothing (PHP's null) when that group is not configured. */
  function UserTemplate(perms: PermissionTable): Rights {
    if "user" in perms then perms["user"] else map[]
  }

  /** The first loop: every mapped group without an entry gets a copy of the 'user' entry. */
  function WithInherited(perms: PermissionTable, table: GroupTable): PermissionTable
    decreases |table|
  {
    if table == [] then perms
    else
      var cur := WithInherited(perms, table[..|table| - 1]);
      var name := table[|table| - 1].0;
      if name in cur then cur else cur[name := UserTemplate(cur)]
  }

  /** isset($rights['userrights']) && $rights['userrights'] */
  predicate GrantsRights(r: Rights) {
    "userrights" in r && r["userrights"]
  }

  /** The change the second loop makes to one group's rights. */
  function Revoke(r: Rights): Rights {
    if GrantsRights(r) then r["userrights" := false] else r
  }

  /** $nonLDAPGroups: the groups with permissions after the first loop that are not in the table. */
  function NonMappedGroups(perms: PermissionTable, table: GroupTable): set<string> {
    WithInherited(perms, table).Keys - MappedNames(table)
  }

  /** The permissions while the second loop still has the groups in `todo` to visit. */
  function RevokedExcept(p: PermissionTable, todo: set<string>): PermissionTable {
    map g | g in p :: if g in todo then p[g] else Revoke(p[g])
  }

  /** $wgAddGroups or $wgRemoveGroups while the second loop still has `todo` to visit. */
  function GrantedExcept(grants: GrantTable, p: PermissionTable, todo: set<string>, nonMapped: set<string>): GrantTable {
    grants + map g | g in p && g !in todo && GrantsRights(p[g]) && g !in grants :: nonMapped
  }

  /** $wgGroupPermissions after setGroupRestrictions: both loops, the second one finished. */
  function GuardedPermissions(perms: PermissionTable, table: GroupTable): PermissionTable {
    RevokedExcept(WithInherited(perms, table), {})
  }

  /** The groups whose userrights the second loop revokes. */
  function Restricted(perms: PermissionTable, table: GroupTable): set<string> {
    var p := WithInherited(perms, table);
    set g | g in p && GrantsRights(p[g])
  }

  /** $wgAddGroups (or $wgRemoveGroups) after setGroupRestrictions. */
  function GuardedGrants(grants: GrantTable, perms: PermissionTable, table: GroupTable): GrantTable {
    GrantedExcept(grants, WithInherited(perms, table), {}, NonMappedGroups(perms, table))
  }

  // ---- What the guard does to the three tables ----

  /**
   * The first loop adds an entry for exactly the mapped groups that had none,
   * a copy of 'user', and leaves every existing entry alone.
   */
  lemma {:induction false} InheritedEntries(perms: PermissionTable, table: GroupTable)
    ensures var r := WithInherited(perms, table);
            && r.Keys == perms.Keys + MappedNames(table)
            && (forall g :: g in perms ==> r[g] == perms[g])
            && (forall g :: g in r && g !in perms ==> r[g] == UserTemplate(perms))
    decreases |table|
  {
    if table != [] {
      var init := table[..|table| - 1];
      InheritedEntries(perms, init);
      MappedNamesSnoc(table);
      var cur := WithInherited(perms, init);
      assert UserTemplate(cur) == UserTemplate(perms);
    }
  }

  lemma MappedNamesSnoc(table: GroupTable)
    requires table != []
    ensures MappedNames(table) == MappedNames(table[..|table| - 1]) + {table[|table| - 1].0}
  {
    var init := table[..|table| - 1];
    assert forall k :: 0 <= k < |init| ==> init[k] == table[k];
  }

  /** The groups handed out by the guard are never mapped ones, and every unmapped group is among them. */
  lemma NonMappedExact(perms: PermissionTable, table: GroupTable)
    ensures NonMappedGroups(perms, table) !! MappedNames(table)
    ensures forall g :: g in perms && g !in MappedNames(table) <==> g in NonMappedGroups(perms, table)
  {
    InheritedEntries(perms, table);
  }

  /**
   * After the guard no group grants userrights; groups that did lose exactly
   * that right, the others keep their rights, and mapped groups that had no
   * entry hold the 'user' rights with userrights revoked.
   */
  lemma GuardedPermissionsSpec(perms: PermissionTable, table: GroupTable)
    ensures var r := GuardedPermissions(perms, table);
            && r.Keys == perms.Keys + MappedNames(table)
            && (forall g :: g in r ==> !GrantsRights(r[g]))
            && (forall g :: g in perms && !GrantsRights(perms[g]) ==> r[g] == perms[g])
            && (forall g :: g in perms && GrantsRights(perms[g]) ==> r[g] == perms[g]["userrights" := false])
            && (forall g :: g in r && g !in perms ==> r[g] == Revoke(UserTemplate(perms)))
  {
    InheritedEntries(perms, table);
  }

  /**
   * The guard keeps every existing $wgAddGroups / $wgRemoveGroups entry and
   * gives each group that lost userrights, if it had none, the unmapped groups only.
   */
  lemma GuardedGrantsSpec(grants: GrantTable, perms: PermissionTable, table: GroupTable)
    ensures var r := GuardedGrants(grants, perms, table);
            && r.Keys == grants.Keys + Restricted(perms, table)
            && (forall g :: g in grants ==> r[g] == grants[g])
            && (forall g :: g in r && g !in grants ==> r[g] == NonMappedGroups(perms, table) && r[g] !! MappedNames(table))
  {
  }

  // ---- The loops of setGroupRestrictions, one step at a time ----

  /** The first loop, one row further: the row's group gets the 'user' entry unless it has one. */
  lemma InheritStep(perms: PermissionTable, table: GroupTable, i: nat)
    requires i < |table|
    ensures var cur := WithInherited(perms, table[..i]);
            var name := table[i].0;
            WithInherited(perms, table[..i + 1])
            == if name in cur then cur else cur[name := UserTemplate(cur)]
  {
    assert table[..i + 1][..i] == table[..i];
  }

  lemma RevokeStep(p: PermissionTable, todo: set<string>, g: string)
    requires g in todo && g in p
    ensures RevokedExcept(p, todo)[g := Revoke(p[g])] == RevokedExcept(p, todo - {g})
    ensures RevokedExcept(p, todo)[g] == p[g]
  {
  }

  lemma GrantStep(grants: GrantTable, p: PermissionTable, todo: set<string>, nonMapped: set<string>, g: string)
    requires g in todo && g in p
    ensures g in GrantedExcept(grants, p, todo, nonMapped) <==> g in grants
    ensures GrantedExcept(grants, p, todo - {g}, nonMapped)
            == if GrantsRights(p[g]) && g !in grants
               then GrantedExcept(grants, p, todo, nonMapped)[g := nonMapped]
               else GrantedExcept(grants, p, todo, nonMapped)
  {
    var before := GrantedExcept(grants, p, todo, nonMapped);
    var after := GrantedExcept(grants, p, todo - {g}, nonMapped);
    assert after.Keys == if GrantsRights(p[g]) && g !in grants then before.Keys + {g} else before.Keys;
  }

  /** Before the second loop nothing is changed. */
  lemma SecondLoopStart(p: PermissionTable, grants: GrantTable, nonMapped: set<string>)
    ensures RevokedExcept(p, p.Keys) == p
    ensures GrantedExcept(grants, p, p.Keys, nonMapped) == grants
  {
  }

  /** Once every group lacks userrights and every mapped group has an entry, the guard is the identity. */
  lemma GuardFixesGuarded(perms: PermissionTable, table: GroupTable)
    requires MappedNames(table) <= perms.Keys
    requires forall g :: g in perms ==> !GrantsRights(perms[g])
    ensures WithInherited(perms, table) == perms
    ensures GuardedPermissions(perms, table) == perms
    ensures Restricted(perms, table) == {}
  {
    assert WithInherited(perms, table) == perms;
  }

  /** With no group granting userrights, the second loop adds no grant entries. */
  lemma GrantsNothing(grants: GrantTable, p: PermissionTable, nonMapped: set<string>)
    requires forall g :: g in p ==> !GrantsRights(p[g])
    ensures GrantedExcept(grants, p, {}, nonMapped) == grants
  {
    assert (map g | g in p && g !in {} && GrantsRights(p[g]) && g !in grants :: nonMapped) == map[];
  }

  /**
   * Running the guard a second time changes nothing: afterwards no group grants
   * userrights and every mapped group already has an entry.
   */
  lemma GuardIdempotent(perms: PermissionTable, grants: GrantTable, table: GroupTable)
    ensures var p := GuardedPermissions(perms, table);
            && GuardedPermissions(p, table) == p
            && GuardedGrants(GuardedGrants(grants, perms, table), p, table) == GuardedGrants(grants, perms, table)
  {
    var p := GuardedPermissions(perms, table);
    GuardedPermissionsSpec(perms, table);
    GuardFixesGuarded(p, table);
    GrantsNothing(GuardedGrants(grants, perms, table), p, NonMappedGroups(p, table));
  }
}
