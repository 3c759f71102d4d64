/**
 * The three tables of the relational schema that collection access reads and
 * writes: `collections`, `users_collections` and `users_organizations`.
 * A table is a sequence of rows in storage order; its primary key is stated
 * as a recursive uniqueness predicate: no row shares its key with a later row.
 */
module Schema {

  /** Identifiers are opaque text columns. */
  type Uuid = string

  /** A row of `collections`; primary key `uuid`. `org_uuid` is the column
      joinable to `organizations`. */
  datatype Collection = Collection(uuid: Uuid, orgUuid: Uuid, name: string)

  /** The composite primary key `(user_uuid, collection_uuid)` of `users_collections`. */
  datatype GrantKey = GrantKey(userUuid: Uuid, collectionUuid: Uuid)

  /** A row of `users_collections`: an explicit grant of one collection to one user. */
  datatype CollectionUser = CollectionUser(userUuid: Uuid, collectionUuid: Uuid, readOnly: bool)
  {
    function Key(): GrantKey {
      GrantKey(userUuid, collectionUuid)
    }
  }

  /** A row of `users_organizations`; primary key is its own `uuid`.  No key on
      `(user_uuid, org_uuid)` is declared, and the model allows several such rows. */
  datatype UserOrganization = UserOrganization(
    uuid: Uuid, userUuid: Uuid, orgUuid: Uuid, accessAll: bool,
    key: string, status: int, memberType: int)

  /** `collections` has at most one row per `uuid`: no row shares its uuid with
      a later row. */
  predicate UniqueCollectionUuids(cs: seq<Collection>) {
    cs == [] ||
    ((forall c :: c in cs[1..] ==> c.uuid != cs[0].uuid) && UniqueCollectionUuids(cs[1..]))
  }

  /** `users_collections` has at most one row per `(user_uuid, collection_uuid)`. */
  predicate UniqueGrantKeys(gs: seq<CollectionUser>) {
    gs == [] ||
    ((forall g :: g in gs[1..] ==> g.Key() != gs[0].Key()) && UniqueGrantKeys(gs[1..]))
  }

  /** `users_organizations` has at most one row per membership `uuid`. */
  predicate UniqueMembershipUuids(ms: seq<UserOrganization>) {
    ms == [] ||
    ((forall m :: m in ms[1..] ==> m.uuid != ms[0].uuid) && UniqueMembershipUuids(ms[1..]))
  }

  /** The contents of the three tables at one moment. */
  datatype Tables = Tables(
    collections: seq<Collection>,
    usersCollections: seq<CollectionUser>,
    usersOrganizations: seq<UserOrganization>)
  {
    /** Every primary key holds. */
    predicate Valid() {
      && UniqueCollectionUuids(collections)
      && UniqueGrantKeys(usersCollections)
      && UniqueMembershipUuids(usersOrganizations)
    }
  }

  /** `UniqueCollectionUuids` holds exactly when no two positions of the table share a key. */
  lemma {:induction false} UniqueCollectionUuidsByPosition(cs: seq<Collection>)
    ensures UniqueCollectionUuids(cs) <==> forall i, j :: 0 <= i < j < |cs| ==> cs[i].uuid != cs[j].uuid
  {
    if cs != [] {
      var rest := cs[1..];
      UniqueCollectionUuidsByPosition(rest);
      if UniqueCollectionUuids(cs) {
        forall i, j | 0 <= i < j < |cs| ensures cs[i].uuid != cs[j].uuid {
          assert cs[j] == rest[j - 1];
          if i > 0 {
            assert cs[i] == rest[i - 1];
          } else {
            assert cs[j] in rest;
          }
        }
      }
      if forall i, j :: 0 <= i < j < |cs| ==> cs[i].uuid != cs[j].uuid {
        forall x | x in rest ensures x.uuid != cs[0].uuid {
          var k :| 0 <= k < |rest| && rest[k] == x;
          assert cs[k + 1] == x;
        }
        forall i, j | 0 <= i < j < |rest| ensures rest[i].uuid != rest[j].uuid {
          assert rest[i] == cs[i + 1] && rest[j] == cs[j + 1];
        }
      }
    }
  }

  /** `UniqueGrantKeys` holds exactly when no two positions of the table share a key. */
  lemma {:induction false} UniqueGrantKeysByPosition(gs: seq<CollectionUser>)
    ensures UniqueGrantKeys(gs) <==> forall i, j :: 0 <= i < j < |gs| ==> gs[i].Key() != gs[j].Key()
  {
    if gs != [] {
      var rest := gs[1..];
      UniqueGrantKeysByPosition(rest);
      if UniqueGrantKeys(gs) {
        forall i, j | 0 <= i < j < |gs| ensures gs[i].Key() != gs[j].Key() {
          assert gs[j] == rest[j - 1];
          if i > 0 {
            assert gs[i] == rest[i - 1];
          } else {
            assert gs[j] in rest;
          }
        }
      }
      if forall i, j :: 0 <= i < j < |gs| ==> gs[i].Key() != gs[j].Key() {
        forall x | x in rest ensures x.Key() != gs[0].Key() {
          var k :| 0 <= k < |rest| && rest[k] == x;
          assert gs[k + 1] == x;
        }
        forall i, j | 0 <= i < j < |rest| ensures rest[i].Key() != rest[j].Key() {
          assert rest[i] == gs[i + 1] && rest[j] == gs[j + 1];
        }
      }
    }
  }

  /** `UniqueMembershipUuids` holds exactly when no two positions of the table share a key. */
  lemma {:induction false} UniqueMembershipUuidsByPosition(ms: seq<UserOrganization>)
    ensures UniqueMembershipUuids(ms) <==> forall i, j :: 0 <= i < j < |ms| ==> ms[i].uuid != ms[j].uuid
  {
    if ms != [] {
      var rest := ms[1..];
      UniqueMembershipUuidsByPosition(rest);
      if UniqueMembershipUuids(ms) {
        forall i, j | 0 <= i < j < |ms| ensures ms[i].uuid != ms[j].uuid {
          assert ms[j] == rest[j - 1];
          if i > 0 {
            assert ms[i] == rest[i - 1];
          } else {
            assert ms[j] in rest;
          }
        }
      }
      if forall i, j :: 0 <= i < j < |ms| ==> ms[i].uuid != ms[j].uuid {
        forall x | x in rest ensures x.uuid != ms[0].uuid {
          var k :| 0 <= k < |rest| && rest[k] == x;
          assert ms[k + 1] == x;
        }
        forall i, j | 0 <= i < j < |rest| ensures rest[i].uuid != rest[j].uuid {
          assert rest[i] == ms[i + 1] && rest[j] == ms[j + 1];
        }
      }
    }
  }

  /** The tables are valid exactly when each primary key holds position by position. */
  lemma KeysByPosition(t: Tables)
    ensures t.Valid() <==>
      && (forall i, j :: 0 <= i < j < |t.collections| ==> t.collections[i].uuid != t.collections[j].uuid)
      && (forall i, j :: 0 <= i < j < |t.usersCollections| ==> t.usersCollections[i].Key() != t.usersCollections[j].Key())
      && (forall i, j :: 0 <= i < j < |t.usersOrganizations| ==> t.usersOrganizations[i].uuid != t.usersOrganizations[j].uuid)
  {
    UniqueCollectionUuidsByPosition(t.collections);
    UniqueGrantKeysByPosition(t.usersCollections);
    UniqueMembershipUuidsByPosition(t.usersOrganizations);
  }

  /** Some `users_collections` row has key `(user, coll)`. */
  predicate HasGrant(gs: seq<CollectionUser>, user: Uuid, coll: Uuid) {
    exists g :: g in gs && g.Key() == GrantKey(user, coll)
  }

  /** Under the primary key of `collections`, the uuid determines the row. */
  lemma {:induction false} UniqueCollectionRow(cs: seq<Collection>, a: Collection, b: Collection)
    requires UniqueCollectionUuids(cs)
    requires a in cs && b in cs && a.uuid == b.uuid
    ensures a == b
  {
    assert cs == [cs[0]] + cs[1..];
    if a != cs[0] && b != cs[0] {
      UniqueCollectionRow(cs[1..], a, b);
    }
  }

  /** Under the key of `users_collections`, the key determines the row and so
      its `read_only` flag. */
  lemma {:induction false} UniqueGrantRow(gs: seq<CollectionUser>, a: CollectionUser, b: CollectionUser)
    requires UniqueGrantKeys(gs)
    requires a in gs && b in gs && a.Key() == b.Key()
    ensures a == b
  {
    assert gs == [gs[0]] + gs[1..];
    if a != gs[0] && b != gs[0] {
      UniqueGrantRow(gs[1..], a, b);
    }
  }
}
