/**
 * setupGroupMap: from the configured table (local group → directory DNs) build
 * the forward map mwGroupMap (local group → lower-cased DNs) and the inverse map
 * ldapGroupMap (lower-cased DN → local group, last write wins), together with
 * the insertion order of the inverse map's keys, which PHP arrays keep.
 */
module GroupMapping {
  import opened Results
  import opened Text

  /** The configured 'Map': local group names with their directory DNs, in configuration order. */
  type GroupTable = seq<(string, seq<string>)>

  /** The two maps of an LdapGroups object; `order` is the key order of ldapGroupMap. */
  datatype GroupMaps = GroupMaps(forward: map<string, seq<string>>, inverse: map<string, string>, order: seq<string>)

  const Empty := GroupMaps(map[], map[], [])

  function Get(m: map<string, seq<string>>, name: string): seq<string> {
    if name in m then m[name] else []
  }

  /** One step of the inner loop: append `dn` to the group's list and point `dn` at the group. */
  function Insert(g: GroupMaps, name: string, dn: string): GroupMaps {
    GroupMaps(
      g.forward[name := Get(g.forward, name) + [dn]],
      g.inverse[dn := name],
      if dn in g.inverse then g.order else g.order + [dn])
  }

  /** The inner loop over one configured row. */
  function InsertRow(g: GroupMaps, name: string, dns: seq<string>): GroupMaps
    decreases |dns|
  {
    if dns == [] then g
    else Insert(InsertRow(g, name, dns[..|dns| - 1]), name, Lower(dns[|dns| - 1]))
  }

  /** Both loops of setupGroupMap over the whole table, starting from empty maps. */
  function Build(table: GroupTable): GroupMaps
    decreases |table|
  {
    if table == [] then Empty
    else InsertRow(Build(table[..|table| - 1]), table[|table| - 1].0, table[|table| - 1].1)
  }

  /** The inner loop, one DN further. */
  lemma InsertRowSnoc(g: GroupMaps, name: string, dns: seq<string>, j: nat)
    requires j < |dns|
    ensures InsertRow(g, name, dns[..j + 1]) == Insert(InsertRow(g, name, dns[..j]), name, Lower(dns[j]))
  {
    assert dns[..j + 1][..j] == dns[..j];
  }

  /** The outer loop, one row further. */
  lemma BuildSnoc(table: GroupTable, i: nat)
    requires i < |table|
    ensures Build(table[..i + 1]) == InsertRow(Build(table[..i]), table[i].0, table[i].1)
  {
    assert table[..i + 1][..i] == table[..i];
  }

  /** Every DN of the inverse map leads to a group of the forward map that lists that DN. */
  ghost predicate Consistent(forward: map<string, seq<string>>, inverse: map<string, string>) {
    forall d :: d in inverse ==> inverse[d] in forward && d in forward[inverse[d]]
  }

  /** The invariant the two maps keep from construction on. */
  ghost predicate WellFormed(g: GroupMaps) {
    && Consistent(g.forward, g.inverse)
    && (forall name :: name in g.forward ==> g.forward[name] != [])
    && (forall name, d :: name in g.forward && d in g.forward[name] ==> d in g.inverse && IsLower(d))
    && (forall d :: d in g.inverse ==> IsLower(d))
    && (forall i, j :: 0 <= i < j < |g.order| ==> g.order[i] != g.order[j])
    && (forall d :: d in g.inverse <==> d in g.order)
  }

  lemma InsertWellFormed(g: GroupMaps, name: string, dn: string)
    requires WellFormed(g) && IsLower(dn)
    ensures WellFormed(Insert(g, name, dn))
  {
    var h := Insert(g, name, dn);
    forall d | d in h.inverse
      ensures h.inverse[d] in h.forward && d in h.forward[h.inverse[d]]
    {
      if d != dn {
        assert h.inverse[d] == g.inverse[d];
        assert d in g.forward[g.inverse[d]];
      }
    }
    forall n, d | n in h.forward && d in h.forward[n]
      ensures d in h.inverse && IsLower(d)
    {
      if n != name {
        assert h.forward[n] == g.forward[n];
      }
    }
    assert forall i, j :: 0 <= i < j < |h.order| ==> h.order[i] != h.order[j];
  }

  lemma {:induction false} InsertRowWellFormed(g: GroupMaps, name: string, dns: seq<string>)
    requires WellFormed(g)
    ensures WellFormed(InsertRow(g, name, dns))
    decreases |dns|
  {
    if dns != [] {
      InsertRowWellFormed(g, name, dns[..|dns| - 1]);
      InsertWellFormed(InsertRow(g, name, dns[..|dns| - 1]), name, Lower(dns[|dns| - 1]));
    }
  }

  /** The maps setupGroupMap builds are consistent, lower-case and duplicate-free in key order. */
  lemma {:induction false} BuildWellFormed(table: GroupTable)
    ensures WellFormed(Build(table))
    decreases |table|
  {
    if table != [] {
      BuildWellFormed(table[..|table| - 1]);
      InsertRowWellFormed(Build(table[..|table| - 1]), table[|table| - 1].0, table[|table| - 1].1);
    }
  }

  // ---- The forward map against an independent reading of the table ----

  /** The lower-cased DNs configured under `name`, over all rows, in table order. */
  ghost function DnsOf(table: GroupTable, name: string): seq<string>
    decreases |table|
  {
    if table == [] then []
    else DnsOf(table[..|table| - 1], name)
         + (if table[|table| - 1].0 == name then LowerAll(table[|table| - 1].1) else [])
  }

  lemma {:induction false} InsertRowForward(g: GroupMaps, name: string, dns: seq<string>)
    ensures InsertRow(g, name, dns).forward
            == if dns == [] then g.forward else g.forward[name := Get(g.forward, name) + LowerAll(dns)]
    decreases |dns|
  {
    if dns != [] {
      var init := dns[..|dns| - 1];
      var x := Lower(dns[|dns| - 1]);
      InsertRowForward(g, name, init);
      LowerAllSnoc(dns);
      var h := InsertRow(g, name, init);
      assert Get(h.forward, name) == Get(g.forward, name) + LowerAll(init);
      assert Get(h.forward, name) + [x] == Get(g.forward, name) + LowerAll(dns);
    }
  }

  /** mwGroupMap has a key exactly for the groups with at least one DN, listing all of them lower-cased. */
  lemma {:induction false} BuildForward(table: GroupTable, name: string)
    ensures name in Build(table).forward <==> DnsOf(table, name) != []
    ensures Get(Build(table).forward, name) == DnsOf(table, name)
    decreases |table|
  {
    if table != [] {
      var init := table[..|table| - 1];
      var row := table[|table| - 1];
      BuildForward(init, name);
      InsertRowForward(Build(init), row.0, row.1);
    }
  }

  lemma {:induction false} DnsOfContains(table: GroupTable, i: nat, k: string)
    requires i < |table| && k in table[i].1
    ensures Lower(k) in DnsOf(table, table[i].0)
    decreases |table|
  {
    var init := table[..|table| - 1];
    var j :| 0 <= j < |table[i].1| && table[i].1[j] == k;
    if i == |table| - 1 {
      assert LowerAll(table[i].1)[j] == Lower(k);
    } else {
      assert init[i] == table[i];
      DnsOfContains(init, i, k);
    }
  }

  /** Every configured DN k of group `name` appears as lower(k) in mwGroupMap[name]. */
  lemma ConfiguredDnListed(table: GroupTable, i: nat, k: string)
    requires i < |table| && k in table[i].1
    ensures table[i].0 in Build(table).forward
    ensures Lower(k) in Build(table).forward[table[i].0]
  {
    DnsOfContains(table, i, k);
    BuildForward(table, table[i].0);
  }

  // ---- The inverse map against an independent reading of the table ----

  /** The group of the last row whose lower-cased DNs contain `d`. */
  ghost function Owner(table: GroupTable, d: string): Option<string>
    decreases |table|
  {
    if table == [] then None
    else if d in LowerAll(table[|table| - 1].1) then Some(table[|table| - 1].0)
    else Owner(table[..|table| - 1], d)
  }

  lemma {:induction false} InsertRowInverse(g: GroupMaps, name: string, dns: seq<string>, d: string)
    ensures d in InsertRow(g, name, dns).inverse <==> d in g.inverse || d in LowerAll(dns)
    ensures d in LowerAll(dns) ==> InsertRow(g, name, dns).inverse[d] == name
    ensures d !in LowerAll(dns) && d in g.inverse ==> InsertRow(g, name, dns).inverse[d] == g.inverse[d]
    decreases |dns|
  {
    if dns != [] {
      var init := dns[..|dns| - 1];
      InsertRowInverse(g, name, init, d);
      assert LowerAll(dns) == LowerAll(init) + [Lower(dns[|dns| - 1])];
    }
  }

  /** ldapGroupMap holds exactly the configured lower-cased DNs, each pointing at its last owner. */
  lemma {:induction false} BuildInverse(table: GroupTable, d: string)
    ensures d in Build(table).inverse <==> Owner(table, d).Some?
    ensures d in Build(table).inverse ==> Build(table).inverse[d] == Owner(table, d).value
    decreases |table|
  {
    if table != [] {
      var init := table[..|table| - 1];
      var row := table[|table| - 1];
      BuildInverse(init, d);
      InsertRowInverse(Build(init), row.0, row.1, d);
    }
  }

  lemma {:induction false} OwnerIsLastRow(table: GroupTable, i: nat, k: string)
    requires i < |table| && k in table[i].1
    requires forall j :: i < j < |table| ==> Lower(k) !in LowerAll(table[j].1)
    ensures Owner(table, Lower(k)) == Some(table[i].0)
    decreases |table|
  {
    var j :| 0 <= j < |table[i].1| && table[i].1[j] == k;
    if i == |table| - 1 {
      assert LowerAll(table[i].1)[j] == Lower(k);
    } else {
      var init := table[..|table| - 1];
      assert init[i] == table[i];
      forall j' | i < j' < |init| ensures Lower(k) !in LowerAll(init[j'].1) {
        assert init[j'] == table[j'];
      }
      OwnerIsLastRow(init, i, k);
    }
  }

  /**
   * Last write wins: ldapGroupMap[lower(k)] is the group of the last row that
   * configures k (up to case).
   */
  lemma LastWriteWins(table: GroupTable, i: nat, k: string)
    requires i < |table| && k in table[i].1
    requires forall j :: i < j < |table| ==> Lower(k) !in LowerAll(table[j].1)
    ensures Lower(k) in Build(table).inverse
    ensures Build(table).inverse[Lower(k)] == table[i].0
  {
    OwnerIsLastRow(table, i, k);
    BuildInverse(table, Lower(k));
  }
}
