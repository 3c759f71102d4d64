/**
 * What the two-path resolver makes visible: which collections a user reaches,
 * how many times each appears in `find_by_user_uuid`, what the narrower
 * explicit-grant lookup answers, and how grants, revocations and new
 * collections change those answers.
 */
module Visibility {
  import opened Schema
  import opened Store
  import opened Collections
  import CollectionUsers

  /** Number of `users_organizations` rows giving `user` access to all of `org`. */
  function AccessAllRows(ms: seq<UserOrganization>, user: Uuid, org: Uuid): (n: nat)
    ensures n > 0 <==> HasAccessAll(ms, user, org)
    ensures n <= |ms|
  {
    if ms == [] then 0
    else
      assert ms == [ms[0]] + ms[1..];
      (if ms[0].userUuid == user && ms[0].accessAll && ms[0].orgUuid == org then 1 else 0)
      + AccessAllRows(ms[1..], user, org)
  }

  /** Number of `users_collections` rows keyed `(user, coll)`; the composite key
      makes it at most one. */
  function GrantRows(gs: seq<CollectionUser>, user: Uuid, coll: Uuid): (n: nat)
    ensures n > 0 <==> HasGrant(gs, user, coll)
    ensures UniqueGrantKeys(gs) ==> n <= 1
  {
    if gs == [] then 0
    else
      assert gs == [gs[0]] + gs[1..];
      (if gs[0].Key() == GrantKey(user, coll) then 1 else 0) + GrantRows(gs[1..], user, coll)
  }

  /** Under the primary key, a collection occurs at most once in `collections`. */
  lemma {:induction false} UniqueRowCount(cs: seq<Collection>, c: Collection)
    requires UniqueCollectionUuids(cs)
    ensures multiset(cs)[c] == if c in cs then 1 else 0
  {
    if cs != [] {
      assert cs == [cs[0]] + cs[1..];
      UniqueRowCount(cs[1..], c);
    }
  }

  /** The blanket path yields a collection once per `access_all` membership row
      of the user in the collection's organization. */
  lemma {:induction false} BlanketCount(cs: seq<Collection>, ms: seq<UserOrganization>, user: Uuid, c: Collection)
    requires UniqueCollectionUuids(cs)
    ensures multiset(JoinMemberships(cs, AccessAllMemberships(ms, user)))[c] ==
            if c in cs then AccessAllRows(ms, user, c.orgUuid) else 0
  {
    if ms != [] {
      BlanketCount(cs, ms[1..], user, c);
      if ms[0].userUuid == user && ms[0].accessAll {
        var aa := [ms[0]] + AccessAllMemberships(ms[1..], user);
        assert aa[0] == ms[0] && aa[1..] == AccessAllMemberships(ms[1..], user);
        UniqueRowCount(cs, c);
      }
    }
  }

  /** The explicit path yields a collection once per grant row naming it. */
  lemma {:induction false} ExplicitCount(cs: seq<Collection>, gs: seq<CollectionUser>, user: Uuid, c: Collection)
    requires UniqueCollectionUuids(cs)
    ensures multiset(JoinGrants(cs, GrantsOf(gs, user)))[c] ==
            if c in cs then GrantRows(gs, user, c.uuid) else 0
  {
    if gs != [] {
      ExplicitCount(cs, gs[1..], user, c);
      if gs[0].userUuid == user {
        var mine := [gs[0]] + GrantsOf(gs[1..], user);
        assert mine[0] == gs[0] && mine[1..] == GrantsOf(gs[1..], user);
        UniqueRowCount(cs, c);
      }
    }
  }

  /** How often `find_by_user_uuid` lists a collection: once per `access_all`
      membership in its organization, plus once more for an explicit grant.
      Nothing is deduplicated, and a collection that does not exist is never
      listed, whatever grants or memberships point at it. */
  lemma VisibleMultiplicity(t: Tables, user: Uuid, c: Collection)
    requires t.Valid()
    ensures multiset(FindByUserUuid(t, user))[c] ==
            if c in t.collections then
              AccessAllRows(t.usersOrganizations, user, c.orgUuid) +
              (if HasGrant(t.usersCollections, user, c.uuid) then 1 else 0)
            else 0
  {
    BlanketCount(t.collections, t.usersOrganizations, user, c);
    ExplicitCount(t.collections, t.usersCollections, user, c);
    var n := GrantRows(t.usersCollections, user, c.uuid);
  }

  /** A collection reached both by blanket access and by an explicit grant is
      listed at least twice. */
  lemma ReachableBothWaysListedTwice(t: Tables, user: Uuid, c: Collection)
    requires t.Valid()
    requires c in t.collections
    requires HasAccessAll(t.usersOrganizations, user, c.orgUuid)
    requires HasGrant(t.usersCollections, user, c.uuid)
    ensures multiset(FindByUserUuid(t, user))[c] >= 2
  {
    VisibleMultiplicity(t, user, c);
  }

  /** Two membership rows for the same user and organization satisfy the key
      of `users_organizations`, and each repeats the organization's collections. */
  lemma DuplicateMembershipsRepeat(c: Collection, m1: UserOrganization, m2: UserOrganization)
    requires m1.uuid != m2.uuid
    requires m1.userUuid == m2.userUuid && m1.accessAll && m2.accessAll
    requires m1.orgUuid == c.orgUuid && m2.orgUuid == c.orgUuid
    ensures Tables([c], [], [m1, m2]).Valid()
    ensures FindByUserUuid(Tables([c], [], [m1, m2]), m1.userUuid) == [c, c]
  {
    var t := Tables([c], [], [m1, m2]);
    assert [m1, m2][1..] == [m2];
    assert [m2][1..] == [];
    assert AccessAllMemberships([m2], m1.userUuid) == [m2];
    assert AccessAllMemberships([m1, m2], m1.userUuid) == [m1, m2];
    assert InOrg([c], c.orgUuid) == [c];
    assert JoinMemberships([c], [m2]) == [c];
    assert JoinMemberships([c], [m1, m2]) == [c, c];
  }

  /** Joining grants that all name missing collections yields nothing. */
  lemma DanglingGrantsJoinNothing(cs: seq<Collection>, gs: seq<CollectionUser>)
    requires forall g, c :: g in gs && c in cs ==> c.uuid != g.collectionUuid
    ensures JoinGrants(cs, gs) == []
  {
  }

  /** Joining memberships of organizations that own no collection yields nothing. */
  lemma DanglingMembershipsJoinNothing(cs: seq<Collection>, ms: seq<UserOrganization>)
    requires forall m, c :: m in ms && c in cs ==> c.orgUuid != m.orgUuid
    ensures JoinMemberships(cs, ms) == []
  {
  }

  /** The explicit path over `a + [g] + b` equals that over `a + b` when `g`
      names a missing collection. */
  lemma {:induction false} ExplicitPathSkipsDangling(cs: seq<Collection>, a: seq<CollectionUser>, g: CollectionUser,
                                                     b: seq<CollectionUser>, user: Uuid)
    requires forall c :: c in cs ==> c.uuid != g.collectionUuid
    ensures JoinGrants(cs, GrantsOf(a + [g] + b, user)) == JoinGrants(cs, GrantsOf(a + b, user))
  {
    var s := a + [g] + b;
    if a == [] {
      assert s == [g] + b && s[0] == g && s[1..] == b && a + b == b;
      if g.userUuid == user {
        var f := [g] + GrantsOf(b, user);
        assert f[0] == g && f[1..] == GrantsOf(b, user);
        DanglingGrantsJoinNothing(cs, [g]);
      }
    } else {
      var s' := a + b;
      assert s[0] == a[0] && s[1..] == a[1..] + [g] + b;
      assert s'[0] == a[0] && s'[1..] == a[1..] + b;
      ExplicitPathSkipsDangling(cs, a[1..], g, b, user);
      if a[0].userUuid == user {
        var f := [a[0]] + GrantsOf(a[1..] + [g] + b, user);
        var f' := [a[0]] + GrantsOf(a[1..] + b, user);
        assert f[0] == a[0] && f[1..] == GrantsOf(a[1..] + [g] + b, user);
        assert f'[0] == a[0] && f'[1..] == GrantsOf(a[1..] + b, user);
      }
    }
  }

  /** The `access_all` filter over a non-empty table: its first row if that row
      qualifies, followed by the filter over the rest. */
  lemma AccessAllUnfold(s: seq<UserOrganization>, user: Uuid)
    requires s != []
    ensures AccessAllMemberships(s, user) ==
            (if s[0].userUuid == user && s[0].accessAll then [s[0]] else []) + AccessAllMemberships(s[1..], user)
  {
  }

  /** The membership join over `[x] + rest`: `x`'s organization's collections,
      then the join over `rest`. */
  lemma JoinMembershipsCons(cs: seq<Collection>, x: UserOrganization, rest: seq<UserOrganization>)
    ensures JoinMemberships(cs, [x] + rest) == InOrg(cs, x.orgUuid) + JoinMemberships(cs, rest)
  {
    var s := [x] + rest;
    assert s[0] == x && s[1..] == rest;
  }

  /** The blanket path over `a + [m] + b` equals that over `a + b` when `m`'s
      organization owns no collection. */
  lemma {:induction false} BlanketPathSkipsDangling(cs: seq<Collection>, a: seq<UserOrganization>, m: UserOrganization,
                                                    b: seq<UserOrganization>, user: Uuid)
    requires forall c :: c in cs ==> c.orgUuid != m.orgUuid
    ensures JoinMemberships(cs, AccessAllMemberships(a + [m] + b, user)) ==
            JoinMemberships(cs, AccessAllMemberships(a + b, user))
  {
    var s := a + [m] + b;
    if a == [] {
      assert s == [m] + b && s[0] == m && s[1..] == b && a + b == b;
      AccessAllUnfold(s, user);
      if m.userUuid == user && m.accessAll {
        JoinMembershipsCons(cs, m, AccessAllMemberships(b, user));
        DanglingMembershipsJoinNothing(cs, [m]);
        assert InOrg(cs, m.orgUuid) == JoinMemberships(cs, [m]);
      } else {
        assert [] + AccessAllMemberships(b, user) == AccessAllMemberships(b, user);
      }
    } else {
      var s' := a + b;
      assert s[0] == a[0] && s[1..] == a[1..] + [m] + b;
      assert s'[0] == a[0] && s'[1..] == a[1..] + b;
      BlanketPathSkipsDangling(cs, a[1..], m, b, user);
      AccessAllUnfold(s, user);
      AccessAllUnfold(s', user);
      if a[0].userUuid == user && a[0].accessAll {
        JoinMembershipsCons(cs, a[0], AccessAllMemberships(a[1..] + [m] + b, user));
        JoinMembershipsCons(cs, a[0], AccessAllMemberships(a[1..] + b, user));
      } else {
        assert [] + AccessAllMemberships(s[1..], user) == AccessAllMemberships(s[1..], user);
        assert [] + AccessAllMemberships(s'[1..], user) == AccessAllMemberships(s'[1..], user);
      }
    }
  }

  /** A grant whose collection row does not exist, inserted anywhere in
      `users_collections`, changes no user's listing, and the explicit-grant
      lookup for it answers nothing: both are inner joins with `collections`. */
  lemma DanglingGrantIgnored(t: Tables, g: CollectionUser, i: nat, user: Uuid)
    requires i <= |t.usersCollections|
    requires forall c :: c in t.collections ==> c.uuid != g.collectionUuid
    ensures FindByUserUuid(t.(usersCollections := t.usersCollections[..i] + [g] + t.usersCollections[i..]), user) ==
            FindByUserUuid(t, user)
    ensures FindByUuidAndUser(t.(usersCollections := t.usersCollections[..i] + [g] + t.usersCollections[i..]),
                              g.collectionUuid, g.userUuid) == None
  {
    var gs := t.usersCollections;
    assert gs == gs[..i] + gs[i..];
    ExplicitPathSkipsDangling(t.collections, gs[..i], g, gs[i..], user);
  }

  /** A membership in an organization that owns no collection, inserted
      anywhere in `users_organizations`, changes no user's listing. */
  lemma DanglingMembershipIgnored(t: Tables, m: UserOrganization, i: nat, user: Uuid)
    requires i <= |t.usersOrganizations|
    requires forall c :: c in t.collections ==> c.orgUuid != m.orgUuid
    ensures FindByUserUuid(t.(usersOrganizations := t.usersOrganizations[..i] + [m] + t.usersOrganizations[i..]), user) ==
            FindByUserUuid(t, user)
  {
    var ms := t.usersOrganizations;
    assert ms == ms[..i] + ms[i..];
    BlanketPathSkipsDangling(t.collections, ms[..i], m, ms[i..], user);
  }

  /** `xs` is `ys` with some elements left out, the rest in their order. */
  ghost predicate IsSubsequence(xs: seq<Collection>, ys: seq<Collection>)
    decreases |ys|
  {
    xs == [] ||
    (ys != [] && ((xs[0] == ys[0] && IsSubsequence(xs[1..], ys[1..])) || IsSubsequence(xs, ys[1..])))
  }

  /** Filtering by organization keeps the order of what it keeps. */
  lemma {:induction false} InOrgIsSubsequence(cs: seq<Collection>, org: Uuid)
    ensures IsSubsequence(InOrg(cs, org), cs)
  {
    if cs != [] {
      InOrgIsSubsequence(cs[1..], org);
      if cs[0].orgUuid == org {
        var r := [cs[0]] + InOrg(cs[1..], org);
        assert r[0] == cs[0] && r[1..] == InOrg(cs[1..], org);
      }
    }
  }

  /** `find_by_organization_and_user_uuid` is `find_by_user_uuid` with the other
      organizations' entries left out: same order, and each collection of the
      organization as often as in the unscoped result. */
  lemma OrgScopedView(t: Tables, org: Uuid, user: Uuid)
    ensures IsSubsequence(FindByOrganizationAndUserUuid(t, org, user), FindByUserUuid(t, user))
    ensures forall c :: multiset(FindByOrganizationAndUserUuid(t, org, user))[c] ==
                        if c.orgUuid == org then multiset(FindByUserUuid(t, user))[c] else 0
  {
    InOrgIsSubsequence(FindByUserUuid(t, user), org);
  }

  /** A user with only blanket access sees the collection in the general
      listing, yet the explicit-grant lookup answers nothing. */
  lemma BlanketAccessIsNotAGrant(t: Tables, user: Uuid, c: Collection)
    requires c in t.collections
    requires HasAccessAll(t.usersOrganizations, user, c.orgUuid)
    requires !HasGrant(t.usersCollections, user, c.uuid)
    ensures c in FindByUserUuid(t, user)
    ensures FindByUuidAndUser(t, c.uuid, user) == None
  {
  }

  /** With an explicit grant for an existing collection, the explicit-grant
      lookup returns exactly that collection. */
  lemma GrantedLookupFinds(t: Tables, user: Uuid, c: Collection)
    requires UniqueCollectionUuids(t.collections)
    requires c in t.collections
    requires HasGrant(t.usersCollections, user, c.uuid)
    ensures FindByUuidAndUser(t, c.uuid, user) == Some(c)
  {
    var found := FindByUuid(t, c.uuid);
    UniqueCollectionRow(t.collections, found.value, c);
  }

  /** After `CollectionUsers::save(user, c.uuid, _)` on an existing collection,
      the user sees it and the explicit-grant lookup returns it. */
  lemma GrantThenLookup(t: Tables, user: Uuid, c: Collection, readOnly: bool)
    requires t.Valid()
    requires c in t.collections
    ensures c in FindByUserUuid(t.(usersCollections := ReplaceGrant(t.usersCollections, CollectionUser(user, c.uuid, readOnly))), user)
    ensures FindByUuidAndUser(t.(usersCollections := ReplaceGrant(t.usersCollections, CollectionUser(user, c.uuid, readOnly))), c.uuid, user) ==
            Some(c)
  {
    var row := CollectionUser(user, c.uuid, readOnly);
    var t' := t.(usersCollections := ReplaceGrant(t.usersCollections, row));
    assert row in t'.usersCollections;
    GrantedLookupFinds(t', user, c);
  }

  /** After `CollectionUsers::delete(user, coll)` the explicit-grant lookup
      answers nothing and the collection is listed only through blanket access. */
  lemma RevokeThenLookup(t: Tables, user: Uuid, c: Collection)
    requires t.Valid()
    ensures FindByUuidAndUser(t.(usersCollections := WithoutKey(t.usersCollections, GrantKey(user, c.uuid))), c.uuid, user) == None
    ensures multiset(FindByUserUuid(t.(usersCollections := WithoutKey(t.usersCollections, GrantKey(user, c.uuid))), user))[c] ==
            if c in t.collections then AccessAllRows(t.usersOrganizations, user, c.orgUuid) else 0
  {
    var t' := t.(usersCollections := WithoutKey(t.usersCollections, GrantKey(user, c.uuid)));
    WithoutKeyUnique(t.usersCollections, GrantKey(user, c.uuid));
    VisibleMultiplicity(t', user, c);
  }

  /** A collection created by `new` and saved under a uuid not yet in use is
      visible to exactly the users with `access_all` in its organization and
      those already holding a grant for that uuid. */
  lemma NewCollectionVisibility(t: Tables, uuid: Uuid, org: Uuid, name: string, user: Uuid)
    requires FindByUuid(t, uuid).None?
    ensures New(uuid, org, name) in FindByUserUuid(t.(collections := ReplaceCollection(t.collections, New(uuid, org, name))), user)
            <==> HasAccessAll(t.usersOrganizations, user, org) || HasGrant(t.usersCollections, user, uuid)
  {
    assert New(uuid, org, name) in ReplaceCollection(t.collections, New(uuid, org, name));
  }

  /** End to end: create a collection, grant it read-only to one user and with
      full access to another.  Each holds exactly one grant row with the flag
      given, both find the collection through the explicit-grant lookup, and a
      third user with no grant and no membership sees nothing of it. */
  lemma GrantScenario(t: Tables, org: Uuid, uuid: Uuid, name: string, u1: Uuid, u2: Uuid, u3: Uuid)
    requires t.Valid()
    requires FindByUuid(t, uuid).None?
    requires u1 != u2 && u3 != u1 && u3 != u2
    requires !HasGrant(t.usersCollections, u3, uuid)
    requires forall m :: m in t.usersOrganizations ==> m.userUuid != u3
    ensures
      var c := New(uuid, org, name);
      var t1 := t.(collections := ReplaceCollection(t.collections, c));
      var t2 := t1.(usersCollections := ReplaceGrant(t1.usersCollections, CollectionUser(u1, uuid, true)));
      var t3 := t2.(usersCollections := ReplaceGrant(t2.usersCollections, CollectionUser(u2, uuid, false)));
      && GrantsOn(GrantsOf(t3.usersCollections, u1), uuid) == [CollectionUser(u1, uuid, true)]
      && GrantsOn(GrantsOf(t3.usersCollections, u2), uuid) == [CollectionUser(u2, uuid, false)]
      && FindByUuidAndUser(t3, uuid, u1) == Some(c)
      && FindByUuidAndUser(t3, uuid, u2) == Some(c)
      && c !in FindByUserUuid(t3, u3)
  {
    var c := New(uuid, org, name);
    var row1, row2 := CollectionUser(u1, uuid, true), CollectionUser(u2, uuid, false);
    var t1 := t.(collections := ReplaceCollection(t.collections, c));
    var t2 := t1.(usersCollections := ReplaceGrant(t1.usersCollections, row1));
    var t3 := t2.(usersCollections := ReplaceGrant(t2.usersCollections, row2));
    ReplaceCollectionUnique(t.collections, c);
    assert c in t1.collections;
    CollectionUsers.SaveLeavesOneRow(t2.usersCollections, u2, uuid, false);
    CollectionUsers.SaveLeavesOneRow(t1.usersCollections, u1, uuid, true);
    CollectionUsers.OtherPairsUnchanged(t2.usersCollections, row2, u1, uuid);
    assert row1 in GrantsOn(GrantsOf(t3.usersCollections, u1), uuid);
    assert row2 in GrantsOn(GrantsOf(t3.usersCollections, u2), uuid);
    GrantedLookupFinds(t3, u1, c);
    GrantedLookupFinds(t3, u2, c);
    assert !HasGrant(t3.usersCollections, u3, uuid);
  }
}
