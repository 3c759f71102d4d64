# Collections and collection grants (bitwarden_rs)

This project models how bitwarden_rs stores organization collections and
decides which collections a user can reach. It covers the `Collection` and
`CollectionUsers` entities of `src/db/models/collection.rs` and the three
tables of `src/db/schema.rs` they touch: `collections`, `users_collections`
and `users_organizations`.

- **Schema** (`schema.dfy`). One datatype per row type. `Tables` holds the
  three tables, and `Tables.Valid` states their primary keys:
  - `collections` is keyed by `uuid`;
  - `users_collections` is keyed by the pair `(user_uuid, collection_uuid)`;
  - `users_organizations` is keyed by its own `uuid`. `schema.rs` declares no
    key on `(user_uuid, org_uuid)`, and the model allows several such rows.
- **Store** (`store.dfy`). An in-memory stand-in for the SQL backend. The
  class `DbConn` holds the tables as sequences in storage order and executes
  the two writes the code issues:
  - `REPLACE INTO` removes the row with the same primary key and appends the
    new row;
  - `DELETE ... WHERE <key>` removes the row with that key.
  Each write reports an affected-row count. A replace reports 1 because
  SQLite's change count ignores rows removed by REPLACE's conflict
  resolution. A delete reports the number of rows it removed.
- **Collections** (`collection.dfy`):
  - `new` receives its fresh uuid as a parameter;
  - `to_json` is modelled as a string map with an inverse;
  - `save` and `delete` are methods on the connection;
  - the four finders are functions of the tables.
  Each inner join is a nested-loop sequence: for each row of the driving
  table, in table order, the matching `collections` rows.
- **CollectionUsers** (`collection.dfy`). The grant upsert and the grant
  revoke, with lemmas about what the two finders' filters see afterwards.
- **Visibility** (`visibility.dfy`). What `find_by_user_uuid` returns:
  - how many times it lists each collection;
  - that dangling grants and memberships add nothing;
  - how the organization-scoped view and the explicit-grant lookup relate
    to it;
  - an end-to-end grant scenario.

`find_by_user_uuid` returns the blanket path followed by the explicit path
and does not deduplicate (collection.rs lines 82-83).
`Visibility.VisibleMultiplicity` gives each collection's exact count, and
`Visibility.DuplicateMembershipsRepeat` shows a collection listed twice.

## Model

| member | source | states |
|---|---|---|
| Schema.UniqueCollectionUuidsByPosition | src/db/schema.rs:28-32 | the recursive key predicate `UniqueCollectionUuids` holds exactly when no two positions of `collections` share a uuid |
| Schema.UniqueGrantKeysByPosition | src/db/schema.rs:97-101 | the recursive key predicate `UniqueGrantKeys` holds exactly when no two positions of `users_collections` share `(user_uuid, collection_uuid)` |
| Schema.UniqueMembershipUuidsByPosition | src/db/schema.rs:105-114 | the recursive key predicate `UniqueMembershipUuids`, the only key of `users_organizations`, holds exactly when no two positions share a membership uuid |
| Schema.KeysByPosition | src/db/schema.rs:28-114 | `Tables.Valid` holds exactly when all three primary keys hold position by position |
| Schema.UniqueCollectionRow | src/db/schema.rs:28-32 | under the `uuid` primary key of `collections`, two rows with the same uuid are the same row |
| Schema.UniqueGrantRow | src/db/schema.rs:97-101 | under the composite key of `users_collections`, two rows with the same `(user_uuid, collection_uuid)` are the same row, so they carry the same `read_only` |
| Store.WithoutUuid | src/db/models/collection.rs:55-56 | the rows left after deleting by uuid: exactly the rows with another uuid, each as often as before; the primary key still holds |
| Store.WithoutKey | src/db/models/collection.rs:127-129 | the rows left after deleting by `(user, collection)`: exactly the rows with another key, each as often as before |
| Store.ReplaceCollection | src/db/models/collection.rs:46-48 | `collections` after `REPLACE INTO`: the new row comes last, and a row is present exactly when it is the new row or an old row with another uuid |
| Store.ReplaceGrant | src/db/models/collection.rs:115-120 | `users_collections` after `REPLACE INTO`: the new grant comes last, and a row is present exactly when it is the new grant or an old row with another key |
| Store.DbConn.constructor | src/db/models/collection.rs:40 | a connection opened over valid tables holds exactly those tables |
| Store.WithoutUuidAppend | src/db/models/collection.rs:55-56 | deleting by uuid distributes over concatenation of tables |
| Store.WithoutUuidIdempotent | src/db/models/collection.rs:55-56 | a second delete of the same uuid removes nothing more |
| Store.WithoutKeyAppend | src/db/models/collection.rs:127-129 | deleting by grant key distributes over concatenation of tables |
| Store.WithoutKeyIdempotent | src/db/models/collection.rs:127-129 | a second delete of the same grant key removes nothing more |
| Store.WithoutKeyUnique | src/db/schema.rs:97-101 | deleting by key keeps the composite key of `users_collections` unique |
| Store.ReplaceCollectionUnique | src/db/models/collection.rs:46-48 | `REPLACE INTO collections` keeps the `uuid` primary key |
| Store.ReplaceGrantUnique | src/db/models/collection.rs:115-120 | `REPLACE INTO users_collections` keeps the composite primary key |
| Store.DeleteByUuidAffected | src/db/models/collection.rs:55-58 | under the primary key, deleting by uuid removes one row if a row with that uuid exists and none otherwise |
| Store.DeleteByKeyAffected | src/db/models/collection.rs:127-131 | under the composite key, deleting `(user, collection)` removes one row if that grant exists and none otherwise |
| Store.DbConn.ReplaceIntoCollections | src/db/models/collection.rs:46-49 | replaces the row keyed by the new row's uuid, leaves the other tables alone, keeps every key, reports one row |
| Store.DbConn.DeleteFromCollections | src/db/models/collection.rs:55-58 | deletes the rows with that uuid, leaves the other tables alone, reports how many rows went |
| Store.DbConn.ReplaceIntoUsersCollections | src/db/models/collection.rs:115-121 | replaces the grant with the same composite key, leaves the other tables alone, reports one row |
| Store.DbConn.DeleteFromUsersCollections | src/db/models/collection.rs:127-131 | deletes the grant with that composite key, leaves the other tables alone, reports how many rows went |
| Collections.New | src/db/models/collection.rs:19-26 | the new collection carries the given uuid, organization and name |
| Collections.ToJson | src/db/models/collection.rs:28-35 | the projection has exactly the fields Id, OrganizationId, Name and Object, holding the uuid, the organization uuid, the name and "collection" |
| Collections.ProjectionRoundTrip | src/db/models/collection.rs:28-35 | the projection reads back to the same collection, so distinct collections never project to the same record |
| Collections.First | src/db/models/collection.rs:95 | `.first()`: nothing exactly when the result is empty, otherwise its first row |
| Collections.WithUuid | src/db/models/collection.rs:64-65 | the `uuid = id` filter keeps exactly the rows with that uuid, each as often as in the table |
| Collections.InOrg | src/db/models/collection.rs:87 | the organization filter keeps exactly the entries of that organization, each as often as before, never more entries than it was given |
| Collections.AccessAllMemberships | src/db/models/collection.rs:70-72 | keeps exactly the user's memberships with `access_all`, each as often as in the table |
| Collections.JoinMemberships | src/db/models/collection.rs:73-74 | the membership join yields exactly the existing collections of an organization some given membership belongs to |
| Collections.GrantsOf | src/db/models/collection.rs:78 | keeps exactly the grant rows of the user, each as often as in the table |
| Collections.GrantsOn | src/db/models/collection.rs:92 | keeps exactly the grant rows of the collection, each as often as in the table |
| Collections.JoinGrants | src/db/models/collection.rs:77 | the grant join yields exactly the existing collections some given grant names |
| Collections.WithUuidAppend | src/db/models/collection.rs:64-65 | the uuid filter distributes over concatenation |
| Collections.WithUuidWithout | src/db/models/collection.rs:63-67 | after deleting a uuid, looking up that uuid finds nothing and every other uuid finds the same rows |
| Collections.GrantsOfAppend | src/db/models/collection.rs:78 | the user filter distributes over concatenation |
| Collections.GrantsOnAppend | src/db/models/collection.rs:92 | the collection filter distributes over concatenation |
| Collections.FindByUuid | src/db/models/collection.rs:63-67 | returns a value exactly when a row with that uuid exists, and the value is such a row |
| Collections.BlanketPath | src/db/models/collection.rs:70-75 | lists exactly the existing collections of organizations where the user holds an `access_all` membership |
| Collections.ExplicitPath | src/db/models/collection.rs:77-80 | lists exactly the existing collections the user holds an explicit grant for, whatever the memberships |
| Collections.FindByUserUuid | src/db/models/collection.rs:69-84 | a collection is listed exactly when it exists and the user reaches it by `access_all` in its organization or by an explicit grant |
| Collections.FindByOrganizationAndUserUuid | src/db/models/collection.rs:86-88 | every entry belongs to the organization, and a collection is listed exactly when it belongs to it, exists and is reachable by either path |
| Collections.JoinGrantsOnOne | src/db/models/collection.rs:91-95 | joining grants that all name one collection and taking the first row gives that collection's uuid lookup, or nothing when there is no grant |
| Collections.FindByUuidAndUser | src/db/models/collection.rs:90-96 | with an explicit grant `(user, uuid)` the answer is the uuid lookup, without one it is nothing; `access_all` plays no part |
| Collections.SaveThenFind | src/db/models/collection.rs:45-52 | after a save, the saved uuid finds the saved collection and every other uuid finds what it found before |
| Collections.SaveKeepsOtherRows | src/db/models/collection.rs:45-52 | a save leaves the rows of other uuids as they were and in order, and grows the table by one row exactly when the uuid was new |
| Collections.DeleteThenFind | src/db/models/collection.rs:54-61 | after a delete, the uuid finds nothing and every other uuid finds what it found before |
| Collections.NewThenSave | src/db/models/collection.rs:19-26 | a new collection under an unused uuid, once saved, is the row found under that uuid and adds one row |
| Collections.Save | src/db/models/collection.rs:45-52 | replaces the row with the collection's uuid, changes no other table, keeps the keys, and returns true |
| Collections.Delete | src/db/models/collection.rs:54-61 | removes the row with the collection's uuid and returns true exactly when such a row existed |
| CollectionUsers.NoGrantRowsLeft | src/db/models/collection.rs:127-129 | once `(user, collection)` is deleted, the user and collection filters find no row for the pair |
| CollectionUsers.SaveLeavesOneRow | src/db/models/collection.rs:114-120 | after saving `(user, collection, read_only)` the filters find exactly one row for the pair, carrying that `read_only` |
| CollectionUsers.SaveKeepsOtherGrants | src/db/models/collection.rs:114-120 | saving a grant leaves every row with another key as it was and in order |
| CollectionUsers.FiltersSkipOtherKey | src/db/models/collection.rs:127-129 | deleting one grant key does not change what the filters find for any other pair |
| CollectionUsers.OtherPairsUnchanged | src/db/models/collection.rs:114-120 | saving one pair does not change what the filters find for any other pair |
| CollectionUsers.LatestSaveWins | src/db/models/collection.rs:114-120 | saving the same pair twice leaves the same table as saving only the second time, so the latest `read_only` wins |
| CollectionUsers.RevokeEffect | src/db/models/collection.rs:126-134 | after a delete no grant for the pair remains, every other row keeps its count, and one row went exactly when the grant existed |
| CollectionUsers.Save | src/db/models/collection.rs:114-124 | replaces the grant for the pair, changes no other table, keeps the keys, and returns true |
| CollectionUsers.Delete | src/db/models/collection.rs:126-134 | removes the grant for the pair and returns true exactly when that grant existed |
| Visibility.AccessAllRows | src/db/models/collection.rs:70-72 | the number of `access_all` memberships of a user in an organization is positive exactly when blanket access holds |
| Visibility.GrantRows | src/db/schema.rs:97-101 | the number of grant rows for a pair is positive exactly when the grant exists, and at most one under the composite key |
| Visibility.UniqueRowCount | src/db/schema.rs:28-32 | under the primary key a collection occurs at most once in `collections` |
| Visibility.BlanketCount | src/db/models/collection.rs:70-75 | the blanket path lists an existing collection once per `access_all` membership of the user in its organization |
| Visibility.ExplicitCount | src/db/models/collection.rs:77-80 | the explicit path lists an existing collection once per grant the user holds for it |
| Visibility.VisibleMultiplicity | src/db/models/collection.rs:69-84 | `find_by_user_uuid` lists an existing collection once per `access_all` membership in its organization plus once for a grant, and never lists a missing one |
| Visibility.ReachableBothWaysListedTwice | src/db/models/collection.rs:82-83 | a collection reached by both paths is listed at least twice |
| Visibility.DuplicateMembershipsRepeat | src/db/schema.rs:105-114 | two memberships with different uuids for one user and organization satisfy the membership key, and the collection is then listed twice |
| Visibility.DanglingGrantsJoinNothing | src/db/models/collection.rs:77 | grants that name no existing collection join to nothing |
| Visibility.DanglingMembershipsJoinNothing | src/db/models/collection.rs:73 | memberships of organizations that own no collection join to nothing |
| Visibility.ExplicitPathSkipsDangling | src/db/models/collection.rs:77-80 | inserting a grant for a missing collection anywhere leaves the explicit path unchanged |
| Visibility.BlanketPathSkipsDangling | src/db/models/collection.rs:70-75 | inserting a membership of an organization without collections anywhere leaves the blanket path unchanged |
| Visibility.DanglingGrantIgnored | src/db/models/collection.rs:91 | a grant for a missing collection changes no user's listing, and the explicit-grant lookup for it finds nothing |
| Visibility.DanglingMembershipIgnored | src/db/models/collection.rs:73 | a membership of an organization without collections changes no user's listing |
| Visibility.InOrgIsSubsequence | src/db/models/collection.rs:87 | the organization filter keeps the order of what it keeps |
| Visibility.OrgScopedView | src/db/models/collection.rs:86-88 | the organization-scoped listing is the full listing with the other organizations' entries left out: same order, same counts |
| Visibility.BlanketAccessIsNotAGrant | src/db/models/collection.rs:90-96 | a user with only blanket access sees the collection in the listing but the explicit-grant lookup finds nothing |
| Visibility.GrantedLookupFinds | src/db/models/collection.rs:90-96 | with an explicit grant for an existing collection, the explicit-grant lookup returns exactly that collection |
| Visibility.GrantThenLookup | src/db/models/collection.rs:114-124 | after granting an existing collection, the user sees it and the explicit-grant lookup returns it |
| Visibility.RevokeThenLookup | src/db/models/collection.rs:126-134 | after revoking, the explicit-grant lookup finds nothing and the collection is listed only through blanket access |
| Visibility.NewCollectionVisibility | src/db/models/collection.rs:69-84 | a new collection saved under an unused uuid is visible exactly to users with `access_all` in its organization or already holding a grant for that uuid |
| Visibility.GrantScenario | src/db/models/collection.rs:114-124 | create, grant read-only to one user and full access to another: each holds one row with its flag, both find the collection, and a user with no grant or membership does not see it |

## Left out

- SQL execution through Diesel is replaced by the in-memory `Store.DbConn`. Query planning, SQL text and the backend's own row order are out of the model. SQL gives no row order without `ORDER BY`; the model fixes tables to storage order and joins to nested-loop order, so order-related lemmas hold for that order only.
- The affected-row count of a replace follows SQLite, which reports one row. MySQL reports two when a row was replaced, so under MySQL `save` of an existing row would return false. That backend is not modelled.
- `Uuid::new_v4` (collection.rs line 21) is randomness. `Collections.New` takes the fresh uuid as a parameter.
- `json!` and `serde_json` are modelled as a map from field names to strings, not as real JSON serialisation.
- The `.expect` panics on store failure (collection.rs lines 75 and 80) and store errors in general are left out. The in-memory store never fails, so the `_ => false` arms of `save` and `delete` are reached only through a row count other than one.
- Tables and columns that collection access does not use are left out. These are `attachments`, `ciphers`, `devices`, `folders`, `folders_ciphers`, the columns of `organizations` and `users`, and `allow_tables_to_appear_in_same_query!`. The `joinable!` relations at schema.rs lines 120, 125 and 127 appear only as the join columns of the finders.
- Foreign-key and cascade enforcement, transactions and concurrent callers are not implemented by this code and are not modelled. A grant or membership may therefore name a missing row; the model allows this and proves it harmless.
- `users_organizations` has no writer in this code. Its rows are taken as given in `Tables`, and `key`, `status` and `type` are carried but never read.
