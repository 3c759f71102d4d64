/**
 * `Collection`: a named grouping owned by one organization, its projection, its
 * single-row writes and the queries that find the collections a user can reach.
 * Queries are functions of the tables; writes are methods on a `DbConn`.
 */
module Collections {
  import opened Schema
  import opened Store

  datatype Option<+T> = None | Some(value: T)

  // ---------------------------------------------------------------------------
  // Local methods
  // ---------------------------------------------------------------------------

  /** `Collection::new`: binds the organization and the name to a fresh
      identifier, which the caller supplies. */
  function New(uuid: Uuid, orgUuid: Uuid, name: string): (c: Collection)
    ensures c.uuid == uuid && c.orgUuid == orgUuid && c.name == name
  {
    Collection(uuid, orgUuid, name)
  }

  /** A flat JSON object whose values are all strings. */
  type JsonObject = map<string, string>

  /** `to_json`: the four-field record sent to clients. */
  function ToJson(c: Collection): (j: JsonObject)
    ensures j.Keys == {"Id", "OrganizationId", "Name", "Object"}
    ensures j["Id"] == c.uuid && j["OrganizationId"] == c.orgUuid && j["Name"] == c.name
    ensures j["Object"] == "collection"
  {
    map["Id" := c.uuid, "OrganizationId" := c.orgUuid, "Name" := c.name, "Object" := "collection"]
  }

  /** Reads a projection back; rejects objects that are not collection records. */
  function FromJson(j: JsonObject): Option<Collection> {
    if "Id" in j && "OrganizationId" in j && "Name" in j && "Object" in j
       && j["Object"] == "collection"
    then Some(Collection(j["Id"], j["OrganizationId"], j["Name"]))
    else None
  }

  /** The projection loses nothing: it can be read back into the same collection,
      so distinct collections project to distinct records. */
  lemma ProjectionRoundTrip(c: Collection, d: Collection)
    ensures FromJson(ToJson(c)) == Some(c)
    ensures ToJson(c) == ToJson(d) ==> c == d
  {
    assert FromJson(ToJson(d)) == Some(d);
  }

  // ---------------------------------------------------------------------------
  // Relational building blocks: filters and inner joins, in table order
  // ---------------------------------------------------------------------------

  /** `.first()`: the first row of a result, if any. */
  function First(s: seq<Collection>): (r: Option<Collection>)
    ensures r.None? <==> s == []
    ensures r.Some? ==> r.value in s && r.value == s[0]
  {
    if s == [] then None else Some(s[0])
  }

  /** `collections WHERE uuid = id`. */
  function WithUuid(cs: seq<Collection>, id: Uuid): (r: seq<Collection>)
    ensures forall c :: c in r <==> c in cs && c.uuid == id
    ensures forall c :: multiset(r)[c] == if c.uuid == id then multiset(cs)[c] else 0
  {
    if cs == [] then []
    else
      assert cs == [cs[0]] + cs[1..];
      if cs[0].uuid == id then [cs[0]] + WithUuid(cs[1..], id)
      else WithUuid(cs[1..], id)
  }

  /** `collections WHERE org_uuid = org`, the column joinable to `organizations`. */
  function InOrg(cs: seq<Collection>, org: Uuid): (r: seq<Collection>)
    ensures |r| <= |cs|
    ensures forall c :: c in r <==> c in cs && c.orgUuid == org
    ensures forall c :: multiset(r)[c] == if c.orgUuid == org then multiset(cs)[c] else 0
  {
    if cs == [] then []
    else
      assert cs == [cs[0]] + cs[1..];
      if cs[0].orgUuid == org then [cs[0]] + InOrg(cs[1..], org)
      else InOrg(cs[1..], org)
  }

  /** `users_organizations WHERE user_uuid = user AND access_all = true`. */
  function AccessAllMemberships(ms: seq<UserOrganization>, user: Uuid): (r: seq<UserOrganization>)
    ensures forall m :: m in r <==> m in ms && m.userUuid == user && m.accessAll
    ensures forall m :: multiset(r)[m] == if m.userUuid == user && m.accessAll then multiset(ms)[m] else 0
  {
    if ms == [] then []
    else
      assert ms == [ms[0]] + ms[1..];
      if ms[0].userUuid == user && ms[0].accessAll then [ms[0]] + AccessAllMemberships(ms[1..], user)
      else AccessAllMemberships(ms[1..], user)
  }

  /** Some membership row is for organization `org`. */
  predicate SomeMembershipIn(ms: seq<UserOrganization>, org: Uuid) {
    exists m :: m in ms && m.orgUuid == org
  }

  /** `ms INNER JOIN collections ON collections.org_uuid = users_organizations.org_uuid`,
      projected to the collection columns: for each membership row, every
      collection of its organization. */
  function JoinMemberships(cs: seq<Collection>, ms: seq<UserOrganization>): (r: seq<Collection>)
    ensures forall c :: c in r <==> c in cs && SomeMembershipIn(ms, c.orgUuid)
  {
    if ms == [] then []
    else
      assert ms == [ms[0]] + ms[1..];
      InOrg(cs, ms[0].orgUuid) + JoinMemberships(cs, ms[1..])
  }

  /** `users_collections WHERE user_uuid = user`. */
  function GrantsOf(gs: seq<CollectionUser>, user: Uuid): (r: seq<CollectionUser>)
    ensures forall g :: g in r <==> g in gs && g.userUuid == user
    ensures forall g :: multiset(r)[g] == if g.userUuid == user then multiset(gs)[g] else 0
  {
    if gs == [] then []
    else
      assert gs == [gs[0]] + gs[1..];
      if gs[0].userUuid == user then [gs[0]] + GrantsOf(gs[1..], user)
      else GrantsOf(gs[1..], user)
  }

  /** `users_collections WHERE collection_uuid = coll`. */
  function GrantsOn(gs: seq<CollectionUser>, coll: Uuid): (r: seq<CollectionUser>)
    ensures forall g :: g in r <==> g in gs && g.collectionUuid == coll
    ensures forall g :: multiset(r)[g] == if g.collectionUuid == coll then multiset(gs)[g] else 0
  {
    if gs == [] then []
    else
      assert gs == [gs[0]] + gs[1..];
      if gs[0].collectionUuid == coll then [gs[0]] + GrantsOn(gs[1..], coll)
      else GrantsOn(gs[1..], coll)
  }

  /** Some grant row is for collection `coll`. */
  predicate SomeGrantOn(gs: seq<CollectionUser>, coll: Uuid) {
    exists g :: g in gs && g.collectionUuid == coll
  }

  /** `gs INNER JOIN collections ON collections.uuid = users_collections.collection_uuid`,
      projected to the collection columns: for each grant row, the collection it
      names, if that row exists. */
  function JoinGrants(cs: seq<Collection>, gs: seq<CollectionUser>): (r: seq<Collection>)
    ensures forall c :: c in r <==> c in cs && SomeGrantOn(gs, c.uuid)
  {
    if gs == [] then []
    else
      assert gs == [gs[0]] + gs[1..];
      WithUuid(cs, gs[0].collectionUuid) + JoinGrants(cs, gs[1..])
  }

  /** Filtering by uuid distributes over concatenation of tables. */
  lemma {:induction false} WithUuidAppend(a: seq<Collection>, b: seq<Collection>, id: Uuid)
    ensures WithUuid(a + b, id) == WithUuid(a, id) + WithUuid(b, id)
  {
    if a == [] {
      assert a + b == b;
    } else {
      assert (a + b)[0] == a[0] && (a + b)[1..] == a[1..] + b;
      WithUuidAppend(a[1..], b, id);
    }
  }

  /** Looking a uuid up after deleting rows by uuid: nothing if it was the
      deleted uuid, otherwise the same rows in the same order. */
  lemma {:induction false} WithUuidWithout(cs: seq<Collection>, removed: Uuid, id: Uuid)
    ensures WithUuid(WithoutUuid(cs, removed), id) == if id == removed then [] else WithUuid(cs, id)
  {
    if cs != [] {
      WithUuidWithout(cs[1..], removed, id);
      if cs[0].uuid != removed {
        assert ([cs[0]] + WithoutUuid(cs[1..], removed))[1..] == WithoutUuid(cs[1..], removed);
      }
    }
  }

  /** Filtering grants by user distributes over concatenation. */
  lemma {:induction false} GrantsOfAppend(a: seq<CollectionUser>, b: seq<CollectionUser>, user: Uuid)
    ensures GrantsOf(a + b, user) == GrantsOf(a, user) + GrantsOf(b, user)
  {
    if a == [] {
      assert a + b == b;
    } else {
      assert (a + b)[0] == a[0] && (a + b)[1..] == a[1..] + b;
      GrantsOfAppend(a[1..], b, user);
    }
  }

  /** Filtering grants by collection distributes over concatenation. */
  lemma {:induction false} GrantsOnAppend(a: seq<CollectionUser>, b: seq<CollectionUser>, coll: Uuid)
    ensures GrantsOn(a + b, coll) == GrantsOn(a, coll) + GrantsOn(b, coll)
  {
    if a == [] {
      assert a + b == b;
    } else {
      assert (a + b)[0] == a[0] && (a + b)[1..] == a[1..] + b;
      GrantsOnAppend(a[1..], b, coll);
    }
  }

  // ---------------------------------------------------------------------------
  // Database methods: queries
  // ---------------------------------------------------------------------------

  /** The user holds a membership with `access_all` in organization `org`. */
  predicate HasAccessAll(ms: seq<UserOrganization>, user: Uuid, org: Uuid) {
    exists m :: m in ms && m.userUuid == user && m.accessAll && m.orgUuid == org
  }

  /** `find_by_uuid`: the row of `collections` with that uuid, if there is one. */
  function FindByUuid(t: Tables, uuid: Uuid): (r: Option<Collection>)
    ensures r.Some? <==> exists c :: c in t.collections && c.uuid == uuid
    ensures r.Some? ==> r.value in t.collections && r.value.uuid == uuid
  {
    var rows := WithUuid(t.collections, uuid);
    assert rows != [] ==> rows[0] in rows;
    First(rows)
  }

  /** First path of `find_by_user_uuid`: collections of every organization in
      which the user holds a membership with `access_all`. */
  function BlanketPath(t: Tables, user: Uuid): (r: seq<Collection>)
    ensures forall c :: c in r <==> c in t.collections && HasAccessAll(t.usersOrganizations, user, c.orgUuid)
  {
    var ms := AccessAllMemberships(t.usersOrganizations, user);
    assert forall org :: SomeMembershipIn(ms, org) <==> HasAccessAll(t.usersOrganizations, user, org) by {
      forall org ensures SomeMembershipIn(ms, org) <==> HasAccessAll(t.usersOrganizations, user, org) {
        if HasAccessAll(t.usersOrganizations, user, org) {
          var m :| m in t.usersOrganizations && m.userUuid == user && m.accessAll && m.orgUuid == org;
          assert m in ms;
        }
      }
    }
    JoinMemberships(t.collections, ms)
  }

  /** Second path of `find_by_user_uuid`: the collections explicitly granted to
      the user, whatever the user's organization memberships. */
  function ExplicitPath(t: Tables, user: Uuid): (r: seq<Collection>)
    ensures forall c :: c in r <==> c in t.collections && HasGrant(t.usersCollections, user, c.uuid)
  {
    var gs := GrantsOf(t.usersCollections, user);
    assert forall coll :: SomeGrantOn(gs, coll) <==> HasGrant(t.usersCollections, user, coll) by {
      forall coll ensures SomeGrantOn(gs, coll) <==> HasGrant(t.usersCollections, user, coll) {
        if HasGrant(t.usersCollections, user, coll) {
          var g :| g in t.usersCollections && g.Key() == GrantKey(user, coll);
          assert g in gs;
        }
      }
    }
    JoinGrants(t.collections, gs)
  }

  /** `find_by_user_uuid`: the blanket path followed by the explicit path, with
      no deduplication.  A collection is in the result exactly when it exists
      and the user reaches it by either path. */
  function FindByUserUuid(t: Tables, user: Uuid): (r: seq<Collection>)
    ensures forall c :: c in r <==>
      c in t.collections &&
      (HasAccessAll(t.usersOrganizations, user, c.orgUuid) || HasGrant(t.usersCollections, user, c.uuid))
  {
    BlanketPath(t, user) + ExplicitPath(t, user)
  }

  /** `find_by_organization_and_user_uuid`: `find_by_user_uuid` kept to one
      organization, order preserved. */
  function FindByOrganizationAndUserUuid(t: Tables, org: Uuid, user: Uuid): (r: seq<Collection>)
    ensures forall c :: c in r ==> c.orgUuid == org
    ensures forall c :: c in r <==>
      c in t.collections && c.orgUuid == org &&
      (HasAccessAll(t.usersOrganizations, user, org) || HasGrant(t.usersCollections, user, c.uuid))
  {
    InOrg(FindByUserUuid(t, user), org)
  }

  /** Joining grants that all name one collection yields that collection's rows
      once per grant, so its first row is the uuid lookup's answer. */
  lemma {:induction false} JoinGrantsOnOne(cs: seq<Collection>, gs: seq<CollectionUser>, id: Uuid)
    requires forall g :: g in gs ==> g.collectionUuid == id
    ensures First(JoinGrants(cs, gs)) == if gs == [] then None else First(WithUuid(cs, id))
  {
    if gs != [] {
      assert gs == [gs[0]] + gs[1..];
      var w := WithUuid(cs, id);
      if w == [] {
        JoinGrantsOnOne(cs, gs[1..], id);
        assert JoinGrants(cs, gs) == JoinGrants(cs, gs[1..]);
      } else {
        assert JoinGrants(cs, gs)[0] == w[0];
      }
    }
  }

  /** `find_by_uuid_and_user`: the collection, when it exists and the user holds
      an explicit grant for it.  Org-wide `access_all` is not consulted. */
  function FindByUuidAndUser(t: Tables, uuid: Uuid, user: Uuid): (r: Option<Collection>)
    ensures r == if HasGrant(t.usersCollections, user, uuid) then FindByUuid(t, uuid) else None
  {
    var gs := GrantsOn(GrantsOf(t.usersCollections, user), uuid);
    JoinGrantsOnOne(t.collections, gs, uuid);
    assert gs != [] <==> HasGrant(t.usersCollections, user, uuid) by {
      if HasGrant(t.usersCollections, user, uuid) {
        var g :| g in t.usersCollections && g.Key() == GrantKey(user, uuid);
        assert g in gs;
      }
      if gs != [] {
        assert gs[0] in gs;
      }
    }
    First(JoinGrants(t.collections, gs))
  }

  /** After `save`, `find_by_uuid` of the saved uuid returns the saved
      collection and every other uuid finds what it found before. */
  lemma SaveThenFind(t: Tables, c: Collection, id: Uuid)
    ensures FindByUuid(t.(collections := ReplaceCollection(t.collections, c)), id) ==
            if id == c.uuid then Some(c) else FindByUuid(t, id)
  {
    WithUuidAppend(WithoutUuid(t.collections, c.uuid), [c], id);
    WithUuidWithout(t.collections, c.uuid, id);
    assert WithUuid([c], id) == if id == c.uuid then [c] else [];
  }

  /** `save` leaves the rows with other uuids as they were, in the same order,
      and adds a row exactly when the uuid was new. */
  lemma {:induction false} SaveKeepsOtherRows(cs: seq<Collection>, c: Collection)
    requires UniqueCollectionUuids(cs)
    ensures WithoutUuid(ReplaceCollection(cs, c), c.uuid) == WithoutUuid(cs, c.uuid)
    ensures |ReplaceCollection(cs, c)| == |cs| + if exists x :: x in cs && x.uuid == c.uuid then 0 else 1
  {
    var w := WithoutUuid(cs, c.uuid);
    WithoutUuidAppend(w, [c], c.uuid);
    WithoutUuidIdempotent(cs, c.uuid);
    assert WithoutUuid([c], c.uuid) == [];
    DeleteByUuidAffected(cs, c.uuid);
  }

  /** After `delete`, the deleted uuid finds nothing and every other uuid finds
      what it found before. */
  lemma DeleteThenFind(t: Tables, id: Uuid, other: Uuid)
    ensures FindByUuid(t.(collections := WithoutUuid(t.collections, id)), other) ==
            if other == id then None else FindByUuid(t, other)
  {
    WithUuidWithout(t.collections, id, other);
  }

  /** A collection made by `new` under a uuid no row has yet, once saved, is the
      one row found under that uuid, and `collections` grew by one row. */
  lemma NewThenSave(t: Tables, uuid: Uuid, org: Uuid, name: string)
    requires t.Valid()
    requires FindByUuid(t, uuid).None?
    ensures FindByUuid(t.(collections := ReplaceCollection(t.collections, New(uuid, org, name))), uuid) ==
            Some(Collection(uuid, org, name))
    ensures |ReplaceCollection(t.collections, New(uuid, org, name))| == |t.collections| + 1
  {
    SaveThenFind(t, New(uuid, org, name), uuid);
    SaveKeepsOtherRows(t.collections, New(uuid, org, name));
  }

  // ---------------------------------------------------------------------------
  // Database methods: writes
  // ---------------------------------------------------------------------------

  /** `save`: replace-into upsert by `uuid`; true when the store reports one
      affected row, which a replace always does. */
  method Save(c: Collection, conn: DbConn) returns (ok: bool)
    requires conn.Valid()
    modifies conn
    ensures conn.Valid()
    ensures ok
    ensures conn.State() == old(conn.State()).(collections := ReplaceCollection(old(conn.collections), c))
  {
    var affected := conn.ReplaceIntoCollections(c);
    ok := affected == 1;
  }

  /** `delete`: delete by `uuid`; true exactly when a row with that uuid existed. */
  method Delete(c: Collection, conn: DbConn) returns (ok: bool)
    requires conn.Valid()
    modifies conn
    ensures conn.Valid()
    ensures ok <==> FindByUuid(old(conn.State()), c.uuid).Some?
    ensures conn.State() == old(conn.State()).(collections := WithoutUuid(old(conn.collections), c.uuid))
  {
    DeleteByUuidAffected(conn.collections, c.uuid);
    var affected := conn.DeleteFromCollections(c.uuid);
    ok := affected == 1;
  }
}

/**
 * `CollectionUsers`: explicit grants of a collection to a user, keyed by the
 * pair `(user_uuid, collection_uuid)` and carrying `read_only`.
 */
module CollectionUsers {
  import opened Schema
  import opened Store
  import opened Collections

  /** Once the rows keyed `(user, coll)` are deleted, the source's two filters
      find none. */
  lemma NoGrantRowsLeft(gs: seq<CollectionUser>, user: Uuid, coll: Uuid)
    ensures GrantsOn(GrantsOf(WithoutKey(gs, GrantKey(user, coll)), user), coll) == []
  {
  }

  /** After saving `(user, coll, readOnly)` the table holds exactly one row for
      that pair, and it carries `readOnly`. */
  lemma SaveLeavesOneRow(gs: seq<CollectionUser>, user: Uuid, coll: Uuid, readOnly: bool)
    ensures GrantsOn(GrantsOf(ReplaceGrant(gs, CollectionUser(user, coll, readOnly)), user), coll) ==
            [CollectionUser(user, coll, readOnly)]
  {
    var row := CollectionUser(user, coll, readOnly);
    var w := WithoutKey(gs, GrantKey(user, coll));
    GrantsOfAppend(w, [row], user);
    GrantsOnAppend(GrantsOf(w, user), GrantsOf([row], user), coll);
    NoGrantRowsLeft(gs, user, coll);
    assert GrantsOf([row], user) == [row];
    assert GrantsOn([row], coll) == [row];
  }

  /** Saving `(user, coll, readOnly)` leaves every row with another key as it
      was, in the same order. */
  lemma SaveKeepsOtherGrants(gs: seq<CollectionUser>, user: Uuid, coll: Uuid, readOnly: bool)
    ensures WithoutKey(ReplaceGrant(gs, CollectionUser(user, coll, readOnly)), GrantKey(user, coll)) ==
            WithoutKey(gs, GrantKey(user, coll))
  {
    var row := CollectionUser(user, coll, readOnly);
    var w := WithoutKey(gs, GrantKey(user, coll));
    WithoutKeyAppend(w, [row], GrantKey(user, coll));
    WithoutKeyIdempotent(gs, GrantKey(user, coll));
    assert WithoutKey([row], GrantKey(user, coll)) == [];
  }

  /** Deleting one key leaves the source's two filters for any other pair
      seeing the same rows. */
  lemma {:induction false} FiltersSkipOtherKey(gs: seq<CollectionUser>, k: GrantKey, user: Uuid, coll: Uuid)
    requires GrantKey(user, coll) != k
    ensures GrantsOn(GrantsOf(WithoutKey(gs, k), user), coll) == GrantsOn(GrantsOf(gs, user), coll)
  {
    if gs != [] {
      FiltersSkipOtherKey(gs[1..], k, user, coll);
      var r := WithoutKey(gs[1..], k);
      if gs[0].Key() != k {
        var w := [gs[0]] + r;
        assert w[0] == gs[0] && w[1..] == r;
        if gs[0].userUuid == user {
          var f := [gs[0]] + GrantsOf(r, user);
          assert f[0] == gs[0] && f[1..] == GrantsOf(r, user);
        }
      } else if gs[0].userUuid == user {
        var f := [gs[0]] + GrantsOf(gs[1..], user);
        assert f[0] == gs[0] && f[1..] == GrantsOf(gs[1..], user);
      }
    }
  }

  /** Saving one pair leaves the rows the source's filters find for every other
      pair unchanged. */
  lemma OtherPairsUnchanged(gs: seq<CollectionUser>, row: CollectionUser, user: Uuid, coll: Uuid)
    requires GrantKey(user, coll) != row.Key()
    ensures GrantsOn(GrantsOf(ReplaceGrant(gs, row), user), coll) == GrantsOn(GrantsOf(gs, user), coll)
  {
    var w := WithoutKey(gs, row.Key());
    GrantsOfAppend(w, [row], user);
    GrantsOnAppend(GrantsOf(w, user), GrantsOf([row], user), coll);
    FiltersSkipOtherKey(gs, row.Key(), user, coll);
    assert GrantsOn(GrantsOf([row], user), coll) == [];
  }

  /** Saving the same pair twice: the second save overwrites the first
      entirely, so the latest `read_only` wins. */
  lemma LatestSaveWins(gs: seq<CollectionUser>, user: Uuid, coll: Uuid, first: bool, second: bool)
    ensures ReplaceGrant(ReplaceGrant(gs, CollectionUser(user, coll, first)), CollectionUser(user, coll, second)) ==
            ReplaceGrant(gs, CollectionUser(user, coll, second))
  {
    SaveKeepsOtherGrants(gs, user, coll, first);
  }

  /** After revoking `(user, coll)` no such grant remains, every other row keeps
      its count, and one row was removed exactly when the grant existed. */
  lemma RevokeEffect(gs: seq<CollectionUser>, user: Uuid, coll: Uuid)
    requires UniqueGrantKeys(gs)
    ensures !HasGrant(WithoutKey(gs, GrantKey(user, coll)), user, coll)
    ensures forall g: CollectionUser :: g.Key() != GrantKey(user, coll) ==>
      multiset(WithoutKey(gs, GrantKey(user, coll)))[g] == multiset(gs)[g]
    ensures |gs| - |WithoutKey(gs, GrantKey(user, coll))| == if HasGrant(gs, user, coll) then 1 else 0
  {
    DeleteByKeyAffected(gs, GrantKey(user, coll));
  }

  /** `CollectionUsers::save`: replace-into upsert on the composite key. */
  method Save(userUuid: Uuid, collectionUuid: Uuid, readOnly: bool, conn: DbConn) returns (ok: bool)
    requires conn.Valid()
    modifies conn
    ensures conn.Valid()
    ensures ok
    ensures conn.State() == old(conn.State()).(usersCollections :=
      ReplaceGrant(old(conn.usersCollections), CollectionUser(userUuid, collectionUuid, readOnly)))
  {
    var affected := conn.ReplaceIntoUsersCollections(CollectionUser(userUuid, collectionUuid, readOnly));
    ok := affected == 1;
  }

  /** `CollectionUsers::delete`: revokes the `(user, collection)` row; false when
      there was no such grant. */
  method Delete(userUuid: Uuid, collectionUuid: Uuid, conn: DbConn) returns (ok: bool)
    requires conn.Valid()
    modifies conn
    ensures conn.Valid()
    ensures ok <==> HasGrant(old(conn.usersCollections), userUuid, collectionUuid)
    ensures conn.State() == old(conn.State()).(usersCollections :=
      WithoutKey(old(conn.usersCollections), GrantKey(userUuid, collectionUuid)))
  {
    DeleteByKeyAffected(conn.usersCollections, GrantKey(userUuid, collectionUuid));
    var affected := conn.DeleteFromUsersCollections(GrantKey(userUuid, collectionUuid));
    ok := affected == 1;
  }
}
