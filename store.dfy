/**
 * An in-memory stand-in for the relational store behind `DbConn`.  It holds the
 * three tables and executes the two kinds of write that collection access issues:
 * `REPLACE INTO` (delete the row holding the same primary key, then insert the
 * new row) and `DELETE ... WHERE <primary key>`.  Each write reports the number
 * of rows it affected, as the store's `execute` does.
 */
module Store {
  import opened Schema

  /** The rows of `collections` whose uuid is not `id`, in table order. */
  function WithoutUuid(cs: seq<Collection>, id: Uuid): (r: seq<Collection>)
    ensures |r| <= |cs|
    ensures forall c :: c in r <==> c in cs && c.uuid != id
    ensures forall c :: multiset(r)[c] == if c.uuid == id then 0 else multiset(cs)[c]
    ensures UniqueCollectionUuids(cs) ==> UniqueCollectionUuids(r)
  {
    if cs == [] then []
    else
      assert cs == [cs[0]] + cs[1..];
      if cs[0].uuid == id then WithoutUuid(cs[1..], id)
      else [cs[0]] + WithoutUuid(cs[1..], id)
  }

  /** The rows of `users_collections` whose key is not `k`, in table order. */
  function WithoutKey(gs: seq<CollectionUser>, k: GrantKey): (r: seq<CollectionUser>)
    ensures |r| <= |gs|
    ensures forall g :: g in r <==> g in gs && g.Key() != k
    ensures forall g :: multiset(r)[g] == if g.Key() == k then 0 else multiset(gs)[g]
  {
    if gs == [] then []
    else
      assert gs == [gs[0]] + gs[1..];
      if gs[0].Key() == k then WithoutKey(gs[1..], k)
      else [gs[0]] + WithoutKey(gs[1..], k)
  }

  /** `collections` after `REPLACE INTO collections VALUES c`. */
  function ReplaceCollection(cs: seq<Collection>, c: Collection): (r: seq<Collection>)
    ensures r != [] && r[|r| - 1] == c
    ensures forall x :: x in r <==> x == c || (x in cs && x.uuid != c.uuid)
  {
    WithoutUuid(cs, c.uuid) + [c]
  }

  /** `users_collections` after `REPLACE INTO users_collections VALUES g`. */
  function ReplaceGrant(gs: seq<CollectionUser>, g: CollectionUser): (r: seq<CollectionUser>)
    ensures r != [] && r[|r| - 1] == g
    ensures forall x :: x in r <==> x == g || (x in gs && x.Key() != g.Key())
  {
    WithoutKey(gs, g.Key()) + [g]
  }

  /** Deleting by uuid distributes over concatenation of tables. */
  lemma {:induction false} WithoutUuidAppend(a: seq<Collection>, b: seq<Collection>, id: Uuid)
    ensures WithoutUuid(a + b, id) == WithoutUuid(a, id) + WithoutUuid(b, id)
  {
    if a == [] {
      assert a + b == b;
    } else {
      assert (a + b)[0] == a[0] && (a + b)[1..] == a[1..] + b;
      WithoutUuidAppend(a[1..], b, id);
    }
  }

  /** Deleting the same uuid twice deletes nothing more. */
  lemma {:induction false} WithoutUuidIdempotent(cs: seq<Collection>, id: Uuid)
    ensures WithoutUuid(WithoutUuid(cs, id), id) == WithoutUuid(cs, id)
  {
    if cs != [] {
      WithoutUuidIdempotent(cs[1..], id);
      if cs[0].uuid != id {
        assert ([cs[0]] + WithoutUuid(cs[1..], id))[1..] == WithoutUuid(cs[1..], id);
      }
    }
  }

  /** Deleting by key distributes over concatenation of grant rows. */
  lemma {:induction false} WithoutKeyAppend(a: seq<CollectionUser>, b: seq<CollectionUser>, k: GrantKey)
    ensures WithoutKey(a + b, k) == WithoutKey(a, k) + WithoutKey(b, k)
  {
    if a == [] {
      assert a + b == b;
    } else {
      var ab := a + b;
      assert ab[0] == a[0] && ab[1..] == a[1..] + b;
      WithoutKeyAppend(a[1..], b, k);
    }
  }

  /** Deleting the same grant key twice deletes nothing more. */
  lemma {:induction false} WithoutKeyIdempotent(gs: seq<CollectionUser>, k: GrantKey)
    ensures WithoutKey(WithoutKey(gs, k), k) == WithoutKey(gs, k)
  {
    if gs != [] {
      WithoutKeyIdempotent(gs[1..], k);
      if gs[0].Key() != k {
        assert ([gs[0]] + WithoutKey(gs[1..], k))[1..] == WithoutKey(gs[1..], k);
      }
    }
  }

  /** Deleting by key keeps the composite key of the remaining rows unique. */
  lemma {:induction false} WithoutKeyUnique(gs: seq<CollectionUser>, k: GrantKey)
    requires UniqueGrantKeys(gs)
    ensures UniqueGrantKeys(WithoutKey(gs, k))
  {
    if gs != [] {
      WithoutKeyUnique(gs[1..], k);
      if gs[0].Key() != k {
        var r := WithoutKey(gs[1..], k);
        assert ([gs[0]] + r)[1..] == r;
      }
    }
  }

  /** Appending a row whose uuid no existing row has keeps the key unique. */
  lemma {:induction false} AppendCollectionUnique(cs: seq<Collection>, c: Collection)
    requires UniqueCollectionUuids(cs)
    requires forall x :: x in cs ==> x.uuid != c.uuid
    ensures UniqueCollectionUuids(cs + [c])
  {
    if cs != [] {
      assert (cs + [c])[1..] == cs[1..] + [c];
      AppendCollectionUnique(cs[1..], c);
    }
  }

  /** Appending a grant whose key no existing row has keeps the key unique. */
  lemma {:induction false} AppendGrantUnique(gs: seq<CollectionUser>, g: CollectionUser)
    requires UniqueGrantKeys(gs)
    requires forall x :: x in gs ==> x.Key() != g.Key()
    ensures UniqueGrantKeys(gs + [g])
  {
    if gs != [] {
      assert (gs + [g])[1..] == gs[1..] + [g];
      AppendGrantUnique(gs[1..], g);
    }
  }

  /** `REPLACE INTO collections` keeps the primary key of `collections`. */
  lemma ReplaceCollectionUnique(cs: seq<Collection>, c: Collection)
    requires UniqueCollectionUuids(cs)
    ensures UniqueCollectionUuids(ReplaceCollection(cs, c))
  {
    AppendCollectionUnique(WithoutUuid(cs, c.uuid), c);
  }

  /** `REPLACE INTO users_collections` keeps the composite primary key. */
  lemma ReplaceGrantUnique(gs: seq<CollectionUser>, g: CollectionUser)
    requires UniqueGrantKeys(gs)
    ensures UniqueGrantKeys(ReplaceGrant(gs, g))
  {
    WithoutKeyUnique(gs, g.Key());
    AppendGrantUnique(WithoutKey(gs, g.Key()), g);
  }

  /** Under the primary key, a delete by uuid affects one row when a row with
      that uuid exists and none otherwise. */
  lemma {:induction false} DeleteByUuidAffected(cs: seq<Collection>, id: Uuid)
    requires UniqueCollectionUuids(cs)
    ensures |cs| - |WithoutUuid(cs, id)| == if exists c :: c in cs && c.uuid == id then 1 else 0
  {
    if cs != [] {
      var rest := cs[1..];
      assert cs == [cs[0]] + rest;
      DeleteByUuidAffected(rest, id);
      if exists c :: c in cs && c.uuid == id {
        if cs[0].uuid != id {
          var c :| c in cs && c.uuid == id;
          assert c in rest;
        }
      }
    }
  }

  /** Under the composite key, a delete by `(user, collection)` affects one row
      when that grant exists and none otherwise. */
  lemma {:induction false} DeleteByKeyAffected(gs: seq<CollectionUser>, k: GrantKey)
    requires UniqueGrantKeys(gs)
    ensures |gs| - |WithoutKey(gs, k)| == if HasGrant(gs, k.userUuid, k.collectionUuid) then 1 else 0
  {
    if gs != [] {
      var rest := gs[1..];
      assert gs == [gs[0]] + rest;
      DeleteByKeyAffected(rest, k);
      if HasGrant(gs, k.userUuid, k.collectionUuid) {
        if gs[0].Key() != k {
          var g :| g in gs && g.Key() == k;
          assert g in rest;
        }
      } else {
        assert gs[0] in gs;
      }
    }
  }

  /** The connection: the three tables as mutable state. */
  class DbConn {
    var collections: seq<Collection>
    var usersCollections: seq<CollectionUser>
    var usersOrganizations: seq<UserOrganization>

    function State(): Tables
      reads this
    {
      Tables(collections, usersCollections, usersOrganizations)
    }

    /** Every primary key holds (the store enforces them on every write). */
    ghost predicate Valid()
      reads this
    {
      State().Valid()
    }

    /** Opens a store whose tables hold `t`. */
    constructor (t: Tables)
      requires t.Valid()
      ensures Valid() && State() == t
    {
      collections := t.collections;
      usersCollections := t.usersCollections;
      usersOrganizations := t.usersOrganizations;
    }

    /** `REPLACE INTO collections VALUES row`: SQLite counts the inserted row and
        not the row its conflict resolution deleted, so it reports one row. */
    method ReplaceIntoCollections(row: Collection) returns (affected: nat)
      requires Valid()
      modifies this
      ensures Valid()
      ensures collections == ReplaceCollection(old(collections), row)
      ensures usersCollections == old(usersCollections)
      ensures usersOrganizations == old(usersOrganizations)
      ensures affected == 1
    {
      ReplaceCollectionUnique(collections, row);
      collections := ReplaceCollection(collections, row);
      affected := 1;
    }

    /** `DELETE FROM collections WHERE uuid = id`, reporting the rows removed. */
    method DeleteFromCollections(id: Uuid) returns (affected: nat)
      requires Valid()
      modifies this
      ensures Valid()
      ensures collections == WithoutUuid(old(collections), id)
      ensures usersCollections == old(usersCollections)
      ensures usersOrganizations == old(usersOrganizations)
      ensures affected == |old(collections)| - |collections|
    {
      var kept := WithoutUuid(collections, id);
      affected := |collections| - |kept|;
      collections := kept;
    }

    /** `REPLACE INTO users_collections VALUES row`, reporting one row. */
    method ReplaceIntoUsersCollections(row: CollectionUser) returns (affected: nat)
      requires Valid()
      modifies this
      ensures Valid()
      ensures usersCollections == ReplaceGrant(old(usersCollections), row)
      ensures collections == old(collections)
      ensures usersOrganizations == old(usersOrganizations)
      ensures affected == 1
    {
      ReplaceGrantUnique(usersCollections, row);
      usersCollections := ReplaceGrant(usersCollections, row);
      affected := 1;
    }

    /** `DELETE FROM users_collections WHERE user_uuid = .. AND collection_uuid = ..`. */
    method DeleteFromUsersCollections(k: GrantKey) returns (affected: nat)
      requires Valid()
      modifies this
      ensures Valid()
      ensures usersCollections == WithoutKey(old(usersCollections), k)
      ensures collections == old(collections)
      ensures usersOrganizations == old(usersOrganizations)
      ensures affected == |old(usersCollections)| - |usersCollections|
    {
      WithoutKeyUnique(usersCollections, k);
      var kept := WithoutKey(usersCollections, k);
      affected := |usersCollections| - |kept|;
      usersCollections := kept;
    }
  }
}
