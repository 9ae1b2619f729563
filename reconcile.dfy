/**
 * The reconciliation step of mapGroups and the pure helpers around it:
 * translating memberships through the inverse map (getGroups), splitting the
 * inverse map by the groups an account holds (alreadyInControlledGroups,
 * notInControlledGroups), the groups to add (addControlledGroups) and the
 * groups to remove, and what applying them does to the account's groups.
 */
module Reconcile {
  import opened Results
  import opened Text
  import opened Search
  import opened GroupMapping
  import opened Membership

  /** The groups mapGroups adds and removes. */
  datatype SyncDelta = SyncDelta(toAdd: set<string>, toRemove: set<string>)

  /** array_flip of a membership list: the set of its DNs. */
  function Elements(ds: seq<string>): (r: set<string>)
    ensures forall d :: d in r <==> d in ds
  {
    set d | d in ds
  }

  /**
   * The loop of getGroups: each membership DN found in the inverse map
   * contributes its local group, once, in order of first appearance.
   */
  method CollectGroups(inverse: map<string, string>, memberof: seq<string>) returns (groups: seq<string>)
    ensures forall i, j :: 0 <= i < j < |groups| ==> groups[i] != groups[j]
    ensures forall g :: g in groups <==> exists d :: d in memberof && d in inverse && inverse[d] == g
  {
    groups := [];
    var k := 0;
    while k < |memberof|
      invariant 0 <= k <= |memberof|
      invariant forall i, j :: 0 <= i < j < |groups| ==> groups[i] != groups[j]
      invariant forall g :: g in groups <==> exists d :: d in memberof[..k] && d in inverse && inverse[d] == g
    {
      var groupDn := memberof[k];
      assert memberof[..k + 1] == memberof[..k] + [groupDn];
      if groupDn in inverse && inverse[groupDn] !in groups {
        groups := groups + [inverse[groupDn]];
      }
      k := k + 1;
    }
    assert memberof[..k] == memberof;
  }

  /**
   * alreadyInControlledGroups: the part of the inverse map that points at a
   * group the account holds.
   */
  function AlreadyInControlledGroups(inverse: map<string, string>, held: set<string>): (r: map<string, string>)
    ensures forall d :: d in r <==> d in inverse && inverse[d] in held
    ensures forall d :: d in r ==> r[d] == inverse[d]
    ensures r.Values <= held
  {
    map d | d in inverse && inverse[d] in held :: inverse[d]
  }

  /**
   * notInControlledGroups: the rest of the inverse map, pointing only at groups
   * the account lacks. Together with alreadyInControlledGroups it splits the
   * inverse map: the two share no DN and their union is the whole map.
   */
  function NotInControlledGroups(inverse: map<string, string>, held: set<string>): (r: map<string, string>)
    ensures forall d :: d in r <==> d in inverse && inverse[d] !in held
    ensures forall d :: d in r ==> r[d] == inverse[d]
    ensures r.Values !! held
    ensures r.Keys !! AlreadyInControlledGroups(inverse, held).Keys
    ensures AlreadyInControlledGroups(inverse, held) + r == inverse
  {
    map d | d in inverse && inverse[d] !in held :: inverse[d]
  }

  /**
   * addControlledGroups: the distinct groups of the entries of `notIn` whose DN
   * is a membership (array_keys(array_flip(array_intersect_key(...)))).
   */
  function AddControlledGroups(memberOf: set<string>, notIn: map<string, string>): (r: set<string>)
    ensures forall g :: g in r <==> exists d :: d in memberOf && d in notIn && notIn[d] == g
    ensures r <= notIn.Values
  {
    set d | d in memberOf && d in notIn :: notIn[d]
  }

  /** The groups addControlledGroups picks from notInControlledGroups are never ones the account holds. */
  lemma AddsOnlyMissingGroups(inverse: map<string, string>, held: set<string>, memberOf: set<string>)
    ensures AddControlledGroups(memberOf, NotInControlledGroups(inverse, held)) !! held
  {
  }

  /** The groups of the forward map none of whose DNs is a membership. */
  function RemoveSet(forward: map<string, seq<string>>, memberOf: set<string>): set<string> {
    set g | g in forward && (forall d :: d in forward[g] ==> d !in memberOf)
  }

  /**
   * The removal loop of mapGroups: a group of the forward map is removed when
   * none of its DNs is a membership (keeping it needs only one of them).
   */
  method MarkRemovals(forward: map<string, seq<string>>, memberOf: set<string>) returns (remove: set<string>)
    ensures remove == RemoveSet(forward, memberOf)
    ensures forall g :: g in remove <==> g in forward && forall d :: d in forward[g] ==> d !in memberOf
  {
    remove := {};
    var todo := forward.Keys;
    while todo != {}
      invariant todo <= forward.Keys
      invariant remove == RemoveSet(forward, memberOf) - todo
      decreases todo
    {
      var checkGroup :| checkGroup in todo;
      var matched := set d | d in forward[checkGroup] && d in memberOf;
      if |matched| == 0 {
        assert matched == {};
        forall d | d in forward[checkGroup] ensures d !in memberOf {
          assert d in memberOf ==> d in matched;
        }
        assert checkGroup in RemoveSet(forward, memberOf);
        remove := remove + {checkGroup};
      } else {
        var d :| d in matched;
        assert checkGroup !in RemoveSet(forward, memberOf);
      }
      todo := todo - {checkGroup};
    }
  }

  /** The delta mapGroups computes from the two maps, the groups held and the membership set. */
  function Delta(forward: map<string, seq<string>>, inverse: map<string, string>,
                 held: set<string>, memberOf: set<string>): SyncDelta
  {
    SyncDelta(AddControlledGroups(memberOf, NotInControlledGroups(inverse, held)), RemoveSet(forward, memberOf))
  }

  /** The account's groups after the removals and then the additions. */
  function Apply(held: set<string>, delta: SyncDelta): set<string> {
    (held - delta.toRemove) + delta.toAdd
  }

  /** A group is added exactly when it is not held and some membership DN maps to it. */
  lemma AddTheseExact(forward: map<string, seq<string>>, inverse: map<string, string>,
                      held: set<string>, memberOf: set<string>, g: string)
    ensures g in Delta(forward, inverse, held, memberOf).toAdd
            <==> g !in held && exists d :: d in memberOf && d in inverse && inverse[d] == g
  {
    var notIn := NotInControlledGroups(inverse, held);
    if g !in held && exists d :: d in memberOf && d in inverse && inverse[d] == g {
      var d :| d in memberOf && d in inverse && inverse[d] == g;
      assert d in notIn;
    }
  }

  /** No group is both added and removed. */
  lemma DeltaDisjoint(forward: map<string, seq<string>>, inverse: map<string, string>,
                      held: set<string>, memberOf: set<string>)
    requires Consistent(forward, inverse)
    ensures Delta(forward, inverse, held, memberOf).toAdd !! Delta(forward, inverse, held, memberOf).toRemove
  {
    var delta := Delta(forward, inverse, held, memberOf);
    forall g | g in delta.toAdd ensures g !in delta.toRemove {
      AddTheseExact(forward, inverse, held, memberOf, g);
      var d :| d in memberOf && d in inverse && inverse[d] == g;
      assert d in forward[g];
    }
  }

  /** Groups outside the forward map are neither added nor removed. */
  lemma UntouchedLocalGroups(forward: map<string, seq<string>>, inverse: map<string, string>,
                             held: set<string>, memberOf: set<string>, g: string)
    requires Consistent(forward, inverse)
    requires g !in forward
    ensures g in Apply(held, Delta(forward, inverse, held, memberOf)) <==> g in held
  {
    AddTheseExact(forward, inverse, held, memberOf, g);
  }

  /** A group stays or arrives as long as one DN that maps to it is a membership (OR semantics). */
  lemma OrRetention(forward: map<string, seq<string>>, inverse: map<string, string>,
                    held: set<string>, memberOf: set<string>, g: string, d: string)
    requires Consistent(forward, inverse)
    requires d in memberOf && d in inverse && inverse[d] == g
    ensures g in Apply(held, Delta(forward, inverse, held, memberOf))
  {
    DeltaDisjoint(forward, inverse, held, memberOf);
    AddTheseExact(forward, inverse, held, memberOf, g);
  }

  /**
   * Convergence: after the delta is applied, computing it again with the same
   * memberships adds nothing, removes nothing the account holds, and leaves
   * the groups as they are.
   */
  lemma SyncConverges(forward: map<string, seq<string>>, inverse: map<string, string>,
                      held: set<string>, memberOf: set<string>)
    requires Consistent(forward, inverse)
    ensures var after := Apply(held, Delta(forward, inverse, held, memberOf));
            && Delta(forward, inverse, after, memberOf).toAdd == {}
            && Delta(forward, inverse, after, memberOf).toRemove * after == {}
            && Apply(after, Delta(forward, inverse, after, memberOf)) == after
  {
    var after := Apply(held, Delta(forward, inverse, held, memberOf));
    var again := Delta(forward, inverse, after, memberOf);
    forall g ensures g !in again.toAdd {
      AddTheseExact(forward, inverse, after, memberOf, g);
      if exists d :: d in memberOf && d in inverse && inverse[d] == g {
        var d :| d in memberOf && d in inverse && inverse[d] == g;
        OrRetention(forward, inverse, held, memberOf, g, d);
      }
    }
    DeltaDisjoint(forward, inverse, after, memberOf);
    assert again.toRemove == RemoveSet(forward, memberOf);
    DeltaDisjoint(forward, inverse, held, memberOf);
  }

  /** No DN is configured under two groups: the inverse map undoes the forward map. */
  ghost predicate ExactInverse(forward: map<string, seq<string>>, inverse: map<string, string>) {
    forall g, d :: g in forward && d in forward[g] ==> d in inverse && inverse[d] == g
  }

  /**
   * With no DN shared between groups, the groups after the sync are the held
   * groups outside the mapping plus exactly the mapped groups one of whose DNs
   * is a membership.
   */
  lemma SyncMatchesDirectory(forward: map<string, seq<string>>, inverse: map<string, string>,
                             held: set<string>, memberOf: set<string>, g: string)
    requires Consistent(forward, inverse) && ExactInverse(forward, inverse)
    ensures g in Apply(held, Delta(forward, inverse, held, memberOf))
            <==> (g !in forward && g in held) || (g in forward && exists d :: d in forward[g] && d in memberOf)
  {
    var delta := Delta(forward, inverse, held, memberOf);
    AddTheseExact(forward, inverse, held, memberOf, g);
    if g !in forward {
      UntouchedLocalGroups(forward, inverse, held, memberOf, g);
    } else if exists d :: d in forward[g] && d in memberOf {
      var d :| d in forward[g] && d in memberOf;
      OrRetention(forward, inverse, held, memberOf, g, d);
    } else {
      assert g in delta.toRemove;
      DeltaDisjoint(forward, inverse, held, memberOf);
    }
  }

  /**
   * With a DN shared between groups, last write wins: a group `a` that lists a
   * membership DN owned by another group is kept if held, but that DN alone
   * never adds it.
   */
  lemma SharedDnShadowsGroup(forward: map<string, seq<string>>, inverse: map<string, string>,
                             held: set<string>, memberOf: set<string>, a: string, d: string)
    requires Consistent(forward, inverse)
    requires a in forward && d in forward[a] && d in memberOf
    requires d in inverse && inverse[d] != a
    ensures a in held ==> a in Apply(held, Delta(forward, inverse, held, memberOf))
    ensures a !in held && (forall d' :: d' in memberOf && d' in inverse ==> inverse[d'] != a)
            ==> a !in Apply(held, Delta(forward, inverse, held, memberOf))
  {
    AddTheseExact(forward, inverse, held, memberOf, a);
  }

  /** The memberships of the staff/admins entry: its one DN, lower-cased. */
  lemma StaffAdminsMembership()
    ensures Elements(Memberships(DirEntry("cn=u,dc=x", Some(MultiValue(Some(1), ["CN=Admins,DC=X"])), map[])))
            == {"cn=admins,dc=x"}
  {
    var e := DirEntry("cn=u,dc=x", Some(MultiValue(Some(1), ["CN=Admins,DC=X"])), map[]);
    assert Memberships(e) == [Lower("CN=Admins,DC=X")];
    assert Lower("CN=Admins,DC=X") == "cn=admins,dc=x";
  }

  /** The maps setupGroupMap builds for the staff/admins table. */
  lemma StaffAdminsMaps()
    ensures var g := Build([("staff", ["cn=staff,dc=x"]), ("admins", ["cn=admins,dc=x"])]);
            && g.forward == map["staff" := ["cn=staff,dc=x"], "admins" := ["cn=admins,dc=x"]]
            && g.inverse == map["cn=staff,dc=x" := "staff", "cn=admins,dc=x" := "admins"]
  {
    var staff, admins := "cn=staff,dc=x", "cn=admins,dc=x";
    var t := [("staff", [staff]), ("admins", [admins])];
    assert Lower(staff) == staff && Lower(admins) == admins by {
      assert IsLower(staff) && IsLower(admins);
    }
    assert t[..0] == [] && t[..2] == t;
    assert [staff][..0] == [] && [staff][..1] == [staff];
    assert [admins][..0] == [] && [admins][..1] == [admins];
    BuildSnoc(t, 0);
    InsertRowSnoc(Empty, "staff", [staff], 0);
    var g1 := Build(t[..1]);
    assert Get(Empty.forward, "staff") + [staff] == [staff];
    assert g1 == GroupMaps(map["staff" := [staff]], map[staff := "staff"], [staff]);
    BuildSnoc(t, 1);
    InsertRowSnoc(g1, "admins", [admins], 0);
    assert Get(g1.forward, "admins") + [admins] == [admins];
  }

  /**
   * The staff/admins example: with staff ↦ cn=staff,dc=x and admins ↦
   * cn=admins,dc=x, an account holding staff whose entry lists
   * CN=Admins,DC=X (upper case) gains admins and loses staff. mapGroups as
   * written leaves it with no group at all.
   */
  lemma StaffAdminsScenario()
    ensures var g := Build([("staff", ["cn=staff,dc=x"]), ("admins", ["cn=admins,dc=x"])]);
            var e := DirEntry("cn=u,dc=x", Some(MultiValue(Some(1), ["CN=Admins,DC=X"])), map[]);
            var delta := Delta(g.forward, g.inverse, {"staff"}, Elements(Memberships(e)));
            && delta == SyncDelta({"admins"}, {"staff"})
            && Apply({"staff"}, delta) == {"admins"}
            && MapGroupsAsWritten(g.forward, g.inverse, map[1 := e], {"staff"}) == {}
  {
    var staff, admins := "cn=staff,dc=x", "cn=admins,dc=x";
    var e := DirEntry("cn=u,dc=x", Some(MultiValue(Some(1), ["CN=Admins,DC=X"])), map[]);
    StaffAdminsMembership();
    StaffAdminsMaps();
    var forward := map["staff" := [staff], "admins" := [admins]];
    var inverse := map[staff := "staff", admins := "admins"];
    // The delta.
    var delta := Delta(forward, inverse, {"staff"}, {admins});
    assert delta == SyncDelta({"admins"}, {"staff"}) by {
      forall x ensures x in delta.toAdd <==> x == "admins" {
        AddTheseExact(forward, inverse, {"staff"}, {admins}, x);
      }
      assert admins in forward["admins"];
    }
    assert MapGroupsAsWritten(forward, inverse, map[1 := e], {"staff"}) == {} by {
      AsWrittenStripsControlledGroups(forward, inverse, map[1 := e], {"staff"});
    }
  }

  // ---- mapGroups as written ----

  /**
   * The membership mapGroups builds as written: it looks up
   * $this->ldapData['memberof'], but ldapData is indexed by user id, so the
   * lookup never succeeds and the membership is empty whatever is stored.
   */
  function MembershipAsWritten(data: map<nat, DirEntry>): (m: set<string>)
    ensures forall id :: id in data ==> Elements(Memberships(data[id])) != {} ==> m != Elements(Memberships(data[id]))
  {
    {}
  }

  /**
   * mapGroups as written: removals computed from the as-written membership,
   * and a final loop over the undefined $ldapGroups that adds nothing.
   */
  function MapGroupsAsWritten(forward: map<string, seq<string>>, inverse: map<string, string>,
                              data: map<nat, DirEntry>, held: set<string>): set<string>
  {
    held - RemoveSet(forward, MembershipAsWritten(data))
  }

  /** As written, every sync strips the account of every directory-controlled group. */
  lemma AsWrittenStripsControlledGroups(forward: map<string, seq<string>>, inverse: map<string, string>,
                                        data: map<nat, DirEntry>, held: set<string>)
    ensures MapGroupsAsWritten(forward, inverse, data, held) == held - forward.Keys
  {
  }

  /** As written, no sync ever adds a group, even one the delta's add set holds. */
  lemma AsWrittenNeverAdds(forward: map<string, seq<string>>, inverse: map<string, string>,
                           data: map<nat, DirEntry>, held: set<string>, id: nat, g: string)
    requires id in data
    requires g in Delta(forward, inverse, held, Elements(Memberships(data[id]))).toAdd
    ensures g !in MapGroupsAsWritten(forward, inverse, data, held)
  {
    AddTheseExact(forward, inverse, held, Elements(Memberships(data[id])), g);
  }
}
