/**
 * The membership resolver: looking an account up in the directory
 * (getLDAPData), expanding nested memberships through chain queries
 * (doGroupMapUsingChain, addMemberof) and normalising the memberof attribute
 * (getLdapMemberships). Everything here is a function of the state before the
 * call; the LdapGroups class runs the same steps in place.
 */
module Membership {
  import opened Results
  import opened Text
  import opened Search

  /** The host account as the core sees it. */
  datatype User = User(id: nat, email: string, groups: set<string>)

  /** The exceptions getLDAPData can raise. */
  datatype LdapError =
    | MissingEmail(userId: nat)     // "No email found for ..."
    | NotFound(email: string)       // "No user found with the ID: ..."
    | Ambiguous(userId: nat)        // "More than one user found with the ID: ..."
    | SearchFailed(message: string) // "Error in LDAP search: ..."

  /** The values of an entry's memberof attribute, none when it has no such attribute. */
  function MemberofValues(e: DirEntry): seq<string> {
    if e.memberof.Some? then e.memberof.value.values else []
  }

  /** addMemberof: append a group DN to memberof, creating the attribute (without a count) if absent. */
  function AddMemberof(e: DirEntry, groupDn: string): (r: DirEntry)
    ensures r.dn == e.dn && r.attributes == e.attributes
    ensures r.memberof.Some? && MemberofValues(r) == MemberofValues(e) + [groupDn]
    ensures e.memberof.Some? ==> r.memberof.value.count == e.memberof.value.count
  {
    match e.memberof
    case None => e.(memberof := Some(MultiValue(None, [groupDn])))
    case Some(mv) => e.(memberof := Some(mv.(values := mv.values + [groupDn])))
  }

  /** addMemberof for each DN in turn. */
  function AppendAll(e: DirEntry, dns: seq<string>): DirEntry
    decreases |dns|
  {
    if dns == [] then e else AddMemberof(AppendAll(e, dns[..|dns| - 1]), dns[|dns| - 1])
  }

  /** Appending DNs extends memberof by exactly those DNs, in order, and changes nothing else. */
  lemma {:induction false} AppendAllEffect(e: DirEntry, dns: seq<string>)
    ensures AppendAll(e, dns).dn == e.dn && AppendAll(e, dns).attributes == e.attributes
    ensures MemberofValues(AppendAll(e, dns)) == MemberofValues(e) + dns
    ensures e.memberof.Some? ==> AppendAll(e, dns).memberof.Some?
                                 && AppendAll(e, dns).memberof.value.count == e.memberof.value.count
    decreases |dns|
  {
    if dns != [] {
      var init := dns[..|dns| - 1];
      AppendAllEffect(e, init);
      assert MemberofValues(e) + init + [dns[|dns| - 1]] == MemberofValues(e) + dns;
    }
  }

  /**
   * getLdapMemberships' normalisation: the memberof values lower-cased, the
   * 'count' field dropped, nothing at all when the attribute is missing.
   */
  function Memberships(e: DirEntry): (r: seq<string>)
    ensures e.memberof.None? ==> r == []
    ensures e.memberof.Some? ==> |r| == |e.memberof.value.values|
    ensures forall i :: 0 <= i < |r| ==> r[i] == Lower(MemberofValues(e)[i])
    ensures forall d :: d in r ==> IsLower(d)
  {
    LowerAll(MemberofValues(e))
  }

  /** DNs found by chain expansion show up lower-cased after the entry's own memberships. */
  lemma MembershipsAfterChain(e: DirEntry, hits: seq<string>)
    ensures Memberships(AppendAll(e, hits)) == Memberships(e) + LowerAll(hits)
  {
    AppendAllEffect(e, hits);
    var vs := MemberofValues(e);
    assert LowerAll(vs + hits) == LowerAll(vs) + LowerAll(hits);
  }

  // ---- Searches issued by getLDAPData and doGroupMapUsingChain ----

  /** The account search: "<searchattr>=<email>". */
  function AccountFilter(searchAttr: string, email: string): string {
    searchAttr + "=" + email
  }

  /** The nested-membership query for one group DN, using the in-chain matching rule. */
  function ChainFilter(cn: string, groupDn: string): string {
    "(&(objectClass=user)(" + cn + ")(memberOf:1.2.840.113556.1.4.1941:=" + groupDn + "))"
  }

  /** A chain query whose result has a count of exactly one. */
  predicate IsChainHit(cache: CacheMap, dir: Directory, cn: string, groupDn: string) {
    var r := Resolve(cache, dir, ChainFilter(cn, groupDn));
    r.Ok? && |r.value| == 1
  }

  /** The DNs doGroupMapUsingChain appends, and the search error that stopped it, if any. */
  datatype ChainOutcome = ChainOutcome(hits: seq<string>, failure: Option<string>)

  /** The loop of doGroupMapUsingChain over the inverse map's keys in order; a failed search stops it. */
  function ChainScan(keys: seq<string>, cn: string, cache: CacheMap, dir: Directory): (c: ChainOutcome)
    decreases |keys|
  {
    if keys == [] then ChainOutcome([], None)
    else
      var prev := ChainScan(keys[..|keys| - 1], cn, cache, dir);
      var last := keys[|keys| - 1];
      if prev.failure.Some? then prev
      else match Resolve(cache, dir, ChainFilter(cn, last))
        case Err(m) => ChainOutcome(prev.hits, Some(m))
        case Ok(es) => if |es| == 1 then ChainOutcome(prev.hits + [last], None) else prev
  }

  /** Reference reading: the keys, in order, whose chain query has exactly one result. */
  ghost function Selected(keys: seq<string>, cn: string, cache: CacheMap, dir: Directory): seq<string>
    decreases |keys|
  {
    if keys == [] then []
    else (if IsChainHit(cache, dir, cn, keys[0]) then [keys[0]] else []) + Selected(keys[1..], cn, cache, dir)
  }

  /** Every chain query of `keys` succeeds. */
  ghost predicate AllResolve(keys: seq<string>, cn: string, cache: CacheMap, dir: Directory) {
    forall i :: 0 <= i < |keys| ==> Resolve(cache, dir, ChainFilter(cn, keys[i])).Ok?
  }

  lemma {:induction false} SelectedSnoc(keys: seq<string>, x: string, cn: string, cache: CacheMap, dir: Directory)
    ensures Selected(keys + [x], cn, cache, dir)
            == Selected(keys, cn, cache, dir) + (if IsChainHit(cache, dir, cn, x) then [x] else [])
    decreases |keys|
  {
    if keys != [] {
      assert (keys + [x])[0] == keys[0];
      assert (keys + [x])[1..] == keys[1..] + [x];
      SelectedSnoc(keys[1..], x, cn, cache, dir);
    }
  }

  /** A key is selected exactly when it is one of the keys and its chain query hits. */
  lemma {:induction false} SelectedMembers(keys: seq<string>, d: string, cn: string, cache: CacheMap, dir: Directory)
    ensures d in Selected(keys, cn, cache, dir) <==> d in keys && IsChainHit(cache, dir, cn, d)
    decreases |keys|
  {
    if keys != [] {
      SelectedMembers(keys[1..], d, cn, cache, dir);
      assert d in keys <==> d == keys[0] || d in keys[1..];
    }
  }

  lemma AllResolveSnoc(keys: seq<string>, cn: string, cache: CacheMap, dir: Directory)
    requires keys != []
    ensures AllResolve(keys, cn, cache, dir) <==>
            AllResolve(keys[..|keys| - 1], cn, cache, dir) && Resolve(cache, dir, ChainFilter(cn, keys[|keys| - 1])).Ok?
  {
    var init := keys[..|keys| - 1];
    assert forall i :: 0 <= i < |init| ==> init[i] == keys[i];
  }

  /** The chain loop ends with an error exactly when some chain query fails. */
  lemma {:induction false} ChainScanFails(keys: seq<string>, cn: string, cache: CacheMap, dir: Directory)
    ensures ChainScan(keys, cn, cache, dir).failure.None? <==> AllResolve(keys, cn, cache, dir)
    decreases |keys|
  {
    if keys != [] {
      ChainScanFails(keys[..|keys| - 1], cn, cache, dir);
      AllResolveSnoc(keys, cn, cache, dir);
    }
  }

  /** Without errors the chain loop appends exactly the selected keys, in order. */
  lemma {:induction false} ChainScanHits(keys: seq<string>, cn: string, cache: CacheMap, dir: Directory)
    requires AllResolve(keys, cn, cache, dir)
    ensures ChainScan(keys, cn, cache, dir).hits == Selected(keys, cn, cache, dir)
    decreases |keys|
  {
    if keys != [] {
      var init := keys[..|keys| - 1];
      var last := keys[|keys| - 1];
      AllResolveSnoc(keys, cn, cache, dir);
      ChainScanHits(init, cn, cache, dir);
      ChainScanFails(init, cn, cache, dir);
      assert init + [last] == keys;
      SelectedSnoc(init, last, cn, cache, dir);
    }
  }

  /** An error names the first failing key; what was appended are the selected keys before it. */
  lemma {:induction false} ChainScanFailureAt(keys: seq<string>, cn: string, cache: CacheMap, dir: Directory)
    requires ChainScan(keys, cn, cache, dir).failure.Some?
    ensures exists i :: 0 <= i < |keys| && AllResolve(keys[..i], cn, cache, dir)
                        && Resolve(cache, dir, ChainFilter(cn, keys[i])) == Err(ChainScan(keys, cn, cache, dir).failure.value)
                        && ChainScan(keys, cn, cache, dir).hits == Selected(keys[..i], cn, cache, dir)
    decreases |keys|
  {
    var init := keys[..|keys| - 1];
    var c := ChainScan(keys, cn, cache, dir);
    if ChainScan(init, cn, cache, dir).failure.Some? {
      ChainScanFailureAt(init, cn, cache, dir);
      var i :| 0 <= i < |init| && AllResolve(init[..i], cn, cache, dir)
               && Resolve(cache, dir, ChainFilter(cn, init[i])) == Err(c.failure.value)
               && c.hits == Selected(init[..i], cn, cache, dir);
      assert init[..i] == keys[..i];
    } else {
      ChainScanFails(init, cn, cache, dir);
      ChainScanHits(init, cn, cache, dir);
      assert keys[..|init|] == init;
    }
  }

  /**
   * When no chain query fails, doGroupMapUsingChain appends exactly the keys
   * whose query returns one entry, in the inverse map's order; it fails
   * exactly when some query fails, keeping what it appended before.
   */
  lemma ChainScanSelects(keys: seq<string>, cn: string, cache: CacheMap, dir: Directory)
    ensures ChainScan(keys, cn, cache, dir).failure.None? <==> AllResolve(keys, cn, cache, dir)
    ensures AllResolve(keys, cn, cache, dir) ==> ChainScan(keys, cn, cache, dir).hits == Selected(keys, cn, cache, dir)
    ensures ChainScan(keys, cn, cache, dir).failure.Some? ==>
              exists i :: 0 <= i < |keys| && AllResolve(keys[..i], cn, cache, dir)
                          && Resolve(cache, dir, ChainFilter(cn, keys[i])) == Err(ChainScan(keys, cn, cache, dir).failure.value)
                          && ChainScan(keys, cn, cache, dir).hits == Selected(keys[..i], cn, cache, dir)
  {
    ChainScanFails(keys, cn, cache, dir);
    if AllResolve(keys, cn, cache, dir) {
      ChainScanHits(keys, cn, cache, dir);
    } else {
      ChainScanFailureAt(keys, cn, cache, dir);
    }
  }

  /** One more key for the chain loop, when the keys before it raised no error. */
  lemma ChainStep(keys: seq<string>, i: nat, cn: string, cache: CacheMap, dir: Directory)
    requires i < |keys|
    requires ChainScan(keys[..i], cn, cache, dir).failure.None?
    ensures var prev := ChainScan(keys[..i], cn, cache, dir);
            var r := Resolve(cache, dir, ChainFilter(cn, keys[i]));
            ChainScan(keys[..i + 1], cn, cache, dir)
            == if r.Err? then ChainOutcome(prev.hits, Some(r.error))
               else if |r.value| == 1 then ChainOutcome(prev.hits + [keys[i]], None)
               else prev
  {
    assert keys[..i + 1][..i] == keys[..i];
  }

  lemma AppendAllSnoc(e: DirEntry, dns: seq<string>, d: string)
    ensures AppendAll(e, dns + [d]) == AddMemberof(AppendAll(e, dns), d)
  {
    assert (dns + [d])[..|dns|] == dns;
  }

  /** Once a chain query has failed, the later keys are not looked at. */
  lemma {:induction false} ChainScanStopsAtFailure(keys: seq<string>, n: nat, cn: string, cache: CacheMap, dir: Directory)
    requires n <= |keys|
    requires ChainScan(keys[..n], cn, cache, dir).failure.Some?
    ensures ChainScan(keys, cn, cache, dir) == ChainScan(keys[..n], cn, cache, dir)
    decreases |keys| - n
  {
    if n < |keys| {
      var init := keys[..|keys| - 1];
      assert init[..n] == keys[..n];
      ChainScanStopsAtFailure(init, n, cn, cache, dir);
    } else {
      assert keys[..n] == keys;
    }
  }

  /**
   * One iteration of the chain loop in terms of the query's result `r`: an
   * error ends the whole scan with the hits so far, a single entry appends the
   * key, anything else moves on.
   */
  lemma ChainAdvance(keys: seq<string>, i: nat, cn: string, cache: CacheMap, dir: Directory, e: DirEntry)
    requires i < |keys|
    requires ChainScan(keys[..i], cn, cache, dir).failure.None?
    ensures var prev := ChainScan(keys[..i], cn, cache, dir);
            var r := Resolve(cache, dir, ChainFilter(cn, keys[i]));
            && (r.Err? ==> ChainScan(keys, cn, cache, dir) == ChainOutcome(prev.hits, Some(r.error)))
            && (r.Ok? ==> ChainScan(keys[..i + 1], cn, cache, dir).failure.None?)
            && (r.Ok? ==> AppendAll(e, ChainScan(keys[..i + 1], cn, cache, dir).hits)
                          == if |r.value| == 1 then AddMemberof(AppendAll(e, prev.hits), keys[i])
                             else AppendAll(e, prev.hits))
  {
    var prev := ChainScan(keys[..i], cn, cache, dir);
    ChainStep(keys, i, cn, cache, dir);
    AppendAllSnoc(e, prev.hits, keys[i]);
    if Resolve(cache, dir, ChainFilter(cn, keys[i])).Err? {
      ChainScanStopsAtFailure(keys, i + 1, cn, cache, dir);
    }
  }

  /** Filling the cache does not change what the chain scan finds. */
  lemma {:induction false} ChainScanStable(keys: seq<string>, cn: string, before: CacheMap, after: CacheMap, dir: Directory)
    requires Extends(before, after, dir)
    ensures ChainScan(keys, cn, after, dir) == ChainScan(keys, cn, before, dir)
    decreases |keys|
  {
    if keys != [] {
      ChainScanStable(keys[..|keys| - 1], cn, before, after, dir);
      ResolveStable(before, after, dir, ChainFilter(cn, keys[|keys| - 1]));
    }
  }

  // ---- getLDAPData ----

  /** The outcome of getLDAPData and the per-user store it leaves behind. */
  datatype Fetched = Fetched(result: Result<DirEntry, LdapError>, data: map<nat, DirEntry>)

  /**
   * The account search of getLDAPData: the single entry whose search attribute
   * equals the email; no entry and several entries are errors of their own.
   */
  function Lookup(cache: CacheMap, dir: Directory, searchAttr: string, user: User): Result<DirEntry, LdapError> {
    match Resolve(cache, dir, AccountFilter(searchAttr, user.email))
    case Err(m) => Err(SearchFailed(m))
    case Ok(es) =>
      if |es| == 0 then Err(NotFound(user.email))
      else if |es| != 1 then Err(Ambiguous(user.id))
      else Ok(es[0])
  }

  /**
   * getLDAPData against the state before the call: the stored entry if there is
   * one; otherwise the account search, then (when chain queries are on) the
   * chain expansion over `keys`. An entry is stored before the chain runs, so a
   * failing chain query leaves it stored.
   */
  function Fetch(data: map<nat, DirEntry>, cache: CacheMap, dir: Directory, searchAttr: string,
                 useChain: bool, keys: seq<string>, user: User): (f: Fetched)
    ensures f.result.Ok? ==> user.id in f.data && f.result.value == f.data[user.id]
    ensures f.data.Keys <= data.Keys + {user.id}
    ensures forall id :: id in data ==> id in f.data && f.data[id] == data[id]
  {
    if user.id in data then Fetched(Ok(data[user.id]), data)
    else if !Truthy(user.email) then Fetched(Err(MissingEmail(user.id)), data)
    else match Lookup(cache, dir, searchAttr, user)
      case Err(err) => Fetched(Err(err), data)
      case Ok(e) =>
        if !useChain then Fetched(Ok(e), data[user.id := e])
        else
          var c := ChainScan(keys, FirstRdn(e.dn), cache, dir);
          var e' := AppendAll(e, c.hits);
          Fetched(if c.failure.Some? then Err(SearchFailed(c.failure.value)) else Ok(e'), data[user.id := e'])
  }

  /** The error cases of getLDAPData: each one raises its error and stores nothing. */
  lemma FetchErrors(data: map<nat, DirEntry>, cache: CacheMap, dir: Directory, searchAttr: string,
                    useChain: bool, keys: seq<string>, user: User)
    requires user.id !in data
    ensures var f := Fetch(data, cache, dir, searchAttr, useChain, keys, user);
            var q := Resolve(cache, dir, AccountFilter(searchAttr, user.email));
            && (!Truthy(user.email) ==> f == Fetched(Err(MissingEmail(user.id)), data))
            && (Truthy(user.email) && q.Err? ==> f == Fetched(Err(SearchFailed(q.error)), data))
            && (Truthy(user.email) && q == Ok([]) ==> f == Fetched(Err(NotFound(user.email)), data))
            && (Truthy(user.email) && q.Ok? && |q.value| > 1 ==> f == Fetched(Err(Ambiguous(user.id)), data))
            && (f.result.Ok? ==> Truthy(user.email) && q.Ok? && |q.value| == 1)
  {
  }

  /**
   * A successful lookup stores the single entry found; when chain queries are
   * on, its memberships are followed by exactly the chain hits, in key order,
   * and nothing else in the entry changes.
   */
  lemma FetchFound(data: map<nat, DirEntry>, cache: CacheMap, dir: Directory, searchAttr: string,
                   useChain: bool, keys: seq<string>, user: User, e: DirEntry)
    requires user.id !in data && Truthy(user.email)
    requires Resolve(cache, dir, AccountFilter(searchAttr, user.email)) == Ok([e])
    ensures var f := Fetch(data, cache, dir, searchAttr, useChain, keys, user);
            && (!useChain ==> f == Fetched(Ok(e), data[user.id := e]))
            && (useChain && AllResolve(keys, FirstRdn(e.dn), cache, dir) ==>
                  && f.result.Ok?
                  && f.data == data[user.id := f.result.value]
                  && f.result.value.dn == e.dn && f.result.value.attributes == e.attributes
                  && Memberships(f.result.value)
                     == Memberships(e) + LowerAll(Selected(keys, FirstRdn(e.dn), cache, dir)))
  {
    if useChain {
      var cn := FirstRdn(e.dn);
      ChainScanSelects(keys, cn, cache, dir);
      var c := ChainScan(keys, cn, cache, dir);
      AppendAllEffect(e, c.hits);
      MembershipsAfterChain(e, c.hits);
    }
  }

  /** Memoisation: once getLDAPData has stored an entry, the next call returns it unchanged. */
  lemma FetchMemoised(data: map<nat, DirEntry>, cache: CacheMap, dir: Directory, searchAttr: string,
                      useChain: bool, keys: seq<string>, user: User)
    ensures var f := Fetch(data, cache, dir, searchAttr, useChain, keys, user);
            user.id in f.data ==>
              Fetch(f.data, cache, dir, searchAttr, useChain, keys, user) == Fetched(Ok(f.data[user.id]), f.data)
    ensures user.id in data ==>
              Fetch(data, cache, dir, searchAttr, useChain, keys, user) == Fetched(Ok(data[user.id]), data)
  {
  }
}
