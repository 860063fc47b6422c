# Inventory OS storage and inventory flows

Inventory OS is a browser inventory app. Its hierarchy runs warehouses → rooms → containers ("shelves") → items. A per-user **bucket** holds items in transit. This project models the app's storage layer and the data flows of its main screen. It then proves what those flows do to the stored records.

- **Paths** and **PathCodec** model the path codec of the IndexedDB document store. A slash path such as `users/u/warehouses/w/rooms/r/shelves` is classified by the keywords it contains. The result names the object store, the ancestor chain (`_parentKey`) and the owning user (`_userId`). `collection` and `doc` build references.
- **FlatStore** models the IndexedDB store.
  - The state is one keyed map per object store. `Stores` is a map of maps held in the `Database` class.
  - It models the verbs `addDoc`, `updateDoc`, `deleteDoc`, `getDocs` and the delete-only `writeBatch`.
  - `getAll` returns records in ascending key order (**KeyOrder**).
- **Migration** models the one-off copy of the legacy localStorage tree into the IndexedDB stores. The nested loops of the source are methods with loop invariants, proved against a plan function. The plan is proved idempotent.
- **TreeStore** models the older localStorage store. It is a single JSON tree that every operation walks segment by segment.
  - Each in-place walk is a method over a zipper of frames. It is proved equal to a recursive function on the tree.
  - Lemmas state what each verb does at its leaf, and that every path away from the leaf is unchanged.
  - `TreeBatch` queues `set` and `delete` operations.
- **Inventory** models the main screen's flows over the IndexedDB store:
  - `createEntity`, `recursiveDelete` and `handleDelete`;
  - `moveContainer`;
  - `handleAddItem`;
  - `moveItemToBucket` and `moveItemFromBucket`;
  - the "move between containers" handler.
- **Settings** models the zoom controls of the settings dialog.
- **Json** and **ObjectEntries** hold the JavaScript values the stores keep, property access, and `Object.entries`.

Generated ids and timestamps (`generateId`, `new Date().toISOString()`) are parameters of the operations. The saved localStorage string is a parameter of the migration and of the tree store's constructor, already parsed.

Some behaviour of the code is worth stating outright:

- **Quantities are stored as given.** `handleAddItem` stores `parseFloat(quantity) || 1` (src/InventoryApp.js:234, 242), and `handleUpdateQuantity` writes the new quantity unchanged (src/InventoryApp.js:284). A negative quantity is therefore stored as it is, although the form's quantity input has `min="0.01"` (src/InventoryApp.js:377). The model keeps exactly these values (`Inventory.NewItemRecord`).
- **Classification order.** `parseCollectionPath` tests `warehouses` (without `rooms`) first, then `rooms`, `shelves`, `items` and `bucket`, and otherwise takes the last segment (src/lib/indexedDB.js:65-87). `PathCodec.ParseClassifies` states this order.
- **Recursive delete removes only the root.** `recursiveDelete` passes the reference object to `collection`, so every child lookup fails and is caught as "no children" (src/InventoryApp.js:175-177). Only the root is deleted (`Inventory.AsWrittenKeepsRooms`); see Findings for the intended cascade.
- **Bucket round trip.** Moving an item to the bucket and back keeps its ordinary fields, but `addDoc` writes fresh `id`, `_parentKey`, `_userId` and `createdAt` members (src/lib/indexedDB.js:108-114), so the record that returns is not the original (`Inventory.BucketRoundTrip`).

## Model

| member | source | states |
|---|---|---|
| Json.Child | src/lib/indexedDB.js:206 | Optional chaining `?.[k]` yields a truthy value only when the object holds that member, and then it is that member. |
| Json.Member | src/lib/localStorage.js:52-54 | A property read throws exactly on `null` and `undefined`. |
| Json.Without | src/InventoryApp.js:322-323 | `delete copy.k` removes `k` and keeps every other member and value, adding none. |
| Paths.Split | src/lib/indexedDB.js:62 | `split('/')` always yields at least one piece, and no piece holds a slash. |
| Paths.JoinSplit | src/lib/indexedDB.js:122-124 | Joining what was split restores the string exactly. |
| Paths.SplitJoin | src/lib/indexedDB.js:122-124 | Splitting what was joined restores the segments when none holds a slash. |
| Paths.JoinConcat | src/lib/indexedDB.js:95 | Joining two runs of segments puts exactly one slash between them. |
| Paths.SplitConcat | src/lib/indexedDB.js:95 | A slash between two strings splits into the segments of each, in order. |
| Paths.AppendSegment | src/lib/indexedDB.js:95 | `${path}/${id}` with a slash-free id adds exactly one final segment. |
| Paths.JoinAppend | src/lib/indexedDB.js:95 | Joining segments plus one more appends `/` and that segment. |
| Paths.IndexOf | src/lib/indexedDB.js:69 | `indexOf` is -1 exactly when the value is absent, and otherwise the first position holding it. |
| Paths.DocumentPathParts | src/lib/indexedDB.js:122-124 | For a path of two or more segments, the collection part, a slash and the last segment rebuild the path. |
| KeyOrder.BelowReflexive | src/lib/indexedDB.js:147 | The key order is reflexive. |
| KeyOrder.BelowAntisymmetric | src/lib/indexedDB.js:147 | The key order is antisymmetric. |
| KeyOrder.BelowTransitive | src/lib/indexedDB.js:147 | The key order is transitive. |
| KeyOrder.BelowTotal | src/lib/indexedDB.js:147 | The key order is total. |
| KeyOrder.LeastExists | src/lib/indexedDB.js:147 | Every non-empty key set has a least key. |
| KeyOrder.LeastUnique | src/lib/indexedDB.js:147 | That least key is unique. |
| KeyOrder.Least | src/lib/indexedDB.js:147 | The chosen key is the least key of the set. |
| KeyOrder.SortedKeys | src/lib/indexedDB.js:147 | `getAll`'s order lists every key of the store exactly once, in strictly ascending order. |
| ObjectEntries.Entries | src/lib/indexedDB.js:207 | `Object.entries` of an object lists every member once, with its value, in ascending key order. It lists nothing for `null`, `undefined`, booleans and numbers. Strings are not modelled (see Left out). |
| ObjectEntries.EntriesOf | src/lib/indexedDB.js:207 | The entries for a key sequence pair each key with its value, position by position. |
| ObjectEntries.EntriesOfKeys | src/lib/indexedDB.js:207 | Entries over the ascending keys of an object cover every member, strictly ascending. |
| PathCodec.DocPath | src/lib/indexedDB.js:94-97 | `doc(path, id)` with a truthy, slash-free id adds exactly that id as one last segment, and the segments before it rebuild `path`; a falsy id leaves the path as given. |
| PathCodec.ParseUserIsSecondSegment | src/lib/indexedDB.js:62-63 | The user is always the second segment, or `undefined` for a one-segment path. |
| PathCodec.ParseClassifies | src/lib/indexedDB.js:61-88 | The keyword precedence as written: the warehouses, fallback and bucket cases give a `null` parent; only rooms, shelves and items carry one; every result is a known store or the last segment. States this of `ParseCollectionPath` and `ParseParts`. |
| PathCodec.ParseLocation | src/lib/indexedDB.js:61-88 | For every well-formed location path, the codec yields that location's store, ancestor chain and user. |
| PathCodec.ParseWarehouses | src/lib/indexedDB.js:65-67 | `users/u/warehouses` addresses `warehouses` with a `null` parent and user `u`. |
| PathCodec.ParseRooms | src/lib/indexedDB.js:68-71 | `users/u/warehouses/w/rooms` addresses `rooms` with parent `w`. |
| PathCodec.ParseShelves | src/lib/indexedDB.js:72-76 | A shelves path addresses `shelves` with parent `w/r`. |
| PathCodec.ParseItems | src/lib/indexedDB.js:77-82 | An items path addresses `items` with parent `w/r/s`. |
| PathCodec.ItemsIds | src/lib/indexedDB.js:78-80 | On an items path, the segment after each keyword is the id the path carries for it. |
| PathCodec.ParseItemsBranch | src/lib/indexedDB.js:77-82 | Any path naming rooms, shelves and items is classified as `items`, with the chain read after each keyword. |
| PathCodec.ParseBucket | src/lib/indexedDB.js:83-85 | `users/u/bucket` addresses `bucket` with a `null` parent. |
| PathCodec.DocumentOfLocation | src/lib/indexedDB.js:122-124 | A document under a location splits back into that location's path and the document id. |
| FlatStore.InitialStoresWellKeyed | src/lib/indexedDB.js:13-33 | The freshly created stores satisfy the key-path invariant. |
| FlatStore.KeyOfStored | src/lib/indexedDB.js:16 | In a well-keyed database, the key-path member of every stored record is the key it is stored under. |
| FlatStore.PutThenGet | src/lib/indexedDB.js:129 | After a put, a get of the record's own key returns that record, and every other key of every store reads as before. |
| FlatStore.PutKeepsWellKeyed | src/lib/indexedDB.js:129 | A successful put keeps every record stored under its own key. |
| FlatStore.Filtered | src/lib/indexedDB.js:150-154 | The filter keeps exactly the keys whose records match the user and parent filter, preserving ascending order. |
| FlatStore.Snapshots | src/lib/indexedDB.js:156-162 | One snapshot per listed record, in order, with the record's `id` and data. |
| FlatStore.AddDocInsertsOne | src/lib/indexedDB.js:103-118 | `addDoc` succeeds exactly when the store exists and the id (or, for users, the `uid`) is new; then only that record is inserted. Otherwise the error is NotFoundError or ConstraintError. States this of `AddDocResult`. |
| FlatStore.DocDataOverrides | src/lib/indexedDB.js:108-114 | The stored record is the data with `id`, `_parentKey`, `_userId` and `createdAt` overriding, and every other field kept. States this of `DocData`. |
| FlatStore.DocAddressesKey | src/lib/indexedDB.js:122-125 | `updateDoc` and `deleteDoc` on `doc(path, id)` address key `id` in the store that `path` names as a collection. |
| FlatStore.UpdateDocMerges | src/lib/indexedDB.js:120-131 | `updateDoc` on a missing id changes nothing. On an existing id it rewrites only that record, as the merge plus `updatedAt`. States this of `UpdateDocResult`. |
| FlatStore.UpdateAtMerges | src/lib/indexedDB.js:127-130 | The same merge-or-no-op, for a store and key already resolved. |
| FlatStore.DeleteDocRemovesOnly | src/lib/indexedDB.js:133-141 | `deleteDoc` removes exactly its key from its store, leaves every other store untouched, and repeating it changes nothing. States this of `DeleteDocResult`. |
| FlatStore.ListedIff | src/lib/indexedDB.js:150-154 | A key is listed exactly when its record is in the store and matches the filter. |
| FlatStore.GetDocsExactly | src/lib/indexedDB.js:143-163 | `getDocs` returns exactly the matching records, in ascending key order, as snapshots. States this of `GetDocsResult`. |
| FlatStore.AddThenList | src/lib/indexedDB.js:103-118 | After `addDoc`, `getDocs` on the same collection lists exactly the old records plus the new id. |
| FlatStore.ListedAfterInsert | src/lib/indexedDB.js:150-154 | Inserting a matching record adds exactly that key to the listing. |
| FlatStore.ApplyDeletesAppend | src/lib/indexedDB.js:186-192 | Committing two queues in turn equals committing them joined, stopping at the first failure. States this of `ApplyDeletes`. |
| FlatStore.ApplyDeletesKeepsWellKeyed | src/lib/indexedDB.js:186-192 | A commit keeps the key-path invariant. |
| FlatStore.ApplyDeletesOnlyRemoves | src/lib/indexedDB.js:186-192 | A commit, even a partial one, only removes records; it never adds or alters any. |
| FlatStore.ApplyDeletesKeepsOthers | src/lib/indexedDB.js:186-192 | A record that no delete of a run addresses is still there afterwards, unchanged. |
| FlatStore.ApplyDeletesCompletes | src/lib/indexedDB.js:186-192 | A run of deletes whose every reference addresses an existing store never rejects. |
| FlatStore.Database.constructor | src/lib/indexedDB.js:9-37 | The opened database holds the six empty stores. |
| FlatStore.Database.AddDoc | src/lib/indexedDB.js:103-118 | The new stores are `addDoc`'s result and the generated id is returned; on a rejection nothing changes. |
| FlatStore.Database.Put | src/lib/indexedDB.js:208 | An upsert by key becomes the new state; a record without a key is rejected and nothing changes. |
| FlatStore.Database.UpdateDoc | src/lib/indexedDB.js:120-131 | The new stores are the merge-or-no-op result, or unchanged on a rejection. |
| FlatStore.Database.DeleteDoc | src/lib/indexedDB.js:133-141 | The new stores are the delete result, or unchanged on a rejection. |
| FlatStore.Database.GetDocs | src/lib/indexedDB.js:143-163 | The listing of the current stores, and nothing changes. |
| FlatStore.DeleteBatch.constructor | src/lib/indexedDB.js:179-180 | A batch starts with no queued operations. |
| FlatStore.DeleteBatch.Delete | src/lib/indexedDB.js:183-185 | `delete` appends its reference to the queue. |
| FlatStore.DeleteBatch.Commit | src/lib/indexedDB.js:186-192 | The deletes are replayed in order, and the first failure stops the rest. It is not atomic: earlier deletes stay. |
| Migration.BucketPuts | src/lib/indexedDB.js:235-237 | One put per bucket entry, in entry order. |
| Migration.PutSucceeds | src/lib/indexedDB.js:208 | Every put the migration issues has its key, succeeds, and keeps the key-path invariant. |
| Migration.ApplyPutsAppend | src/lib/indexedDB.js:207-237 | Running two runs of puts in turn equals running them joined. |
| Migration.ApplyPutsKeys | src/lib/indexedDB.js:207-237 | Puts never add or remove a store. |
| Migration.ApplyIsOverlay | src/lib/indexedDB.js:207-237 | A run of puts overlays what it writes onto the old stores. |
| Migration.PutOverlay | src/lib/indexedDB.js:208 | A put commutes with the overlay. |
| Migration.ApplyPutsIdempotent | src/lib/indexedDB.js:207-237 | Running the same puts twice equals running them once. |
| Migration.MigrationIdempotent | src/lib/indexedDB.js:197-242 | Running the migration twice leaves the stores as one run does. States this of `MigrationPlan`. |
| Migration.MigratedRecordPlaced | src/lib/indexedDB.js:208 | Each migrated record carries its id, `_userId` and the `_parentKey` of its ancestor chain. States this of `MigratedRecord`. |
| Migration.EntriesPlaced | src/lib/indexedDB.js:207-230 | Every put for a level's entries is placed under that level's chain. States this of `MigrateEntries`. |
| Migration.NodePlaced | src/lib/indexedDB.js:207-230 | Every put for a node and its descendants is placed under its chain. States this of `MigrateNode`. |
| Migration.ChildrenPlaced | src/lib/indexedDB.js:211-229 | The puts for a node with children are placed under its chain. |
| Migration.MigrationPlaced | src/lib/indexedDB.js:197-238 | Every put of the whole migration is placed. |
| Migration.BucketPlaced | src/lib/indexedDB.js:234-238 | Every bucket put is placed. |
| Migration.BucketPutPlaced | src/lib/indexedDB.js:236 | A bucket entry is stored with its id, the user and a `null` parent. |
| Migration.MigratedVisible | src/lib/indexedDB.js:206-238 | A migrated record matches the getDocs filter of its own collection path, so the app lists it. |
| Migration.MigrateLevel | src/lib/indexedDB.js:207-230 | The loop over a level's entries leaves the stores as the plan's puts for them, in order. |
| Migration.MigrateOne | src/lib/indexedDB.js:208-229 | One entry's put, followed by the nested loop over its children. |
| Migration.Migrate | src/lib/indexedDB.js:197-242 | The whole migration leaves the stores as the plan's puts; nothing happens when nothing is saved. |
| Migration.MigrateBucket | src/lib/indexedDB.js:234-238 | The bucket loop leaves the stores as the bucket puts, in order. |
| Migration.PutBucketEntry | src/lib/indexedDB.js:236 | One bucket entry is upserted. |
| TreeStore.FullPathSegments | src/lib/localStorage.js:85-86 | With a slash-free id, the full path's segments are the path's plus the id. |
| TreeStore.DocsOf | src/lib/localStorage.js:57-61 | One document per entry, in entry order. |
| TreeStore.LookupAppend | src/lib/localStorage.js:52-54 | Reading one segment more reads the child of the node reached. |
| TreeStore.LookupOutside | src/lib/localStorage.js:52-54 | Below a non-object, every read is `undefined`. |
| TreeStore.TouchReaches | src/lib/localStorage.js:70-77 | A creating walk succeeds exactly when the walk reaches an object and the leaf operation succeeds there, and the result is found at that path. States this of `Touch`. |
| TreeStore.TouchFrame | src/lib/localStorage.js:70-77 | A creating walk leaves every path that diverges from it unchanged. |
| TreeStore.ReachLookup | src/lib/localStorage.js:52-55 | The walk ends on the node found at the path, or a fresh empty object if that node is falsy. States this of `Reach`. |
| TreeStore.TouchAssignReachable | src/lib/localStorage.js:70-77 | After an assignment, the walked path holds an object that a new walk reaches unchanged. |
| TreeStore.RemoveKeepsMissing | src/lib/localStorage.js:107-111 | When an ancestor is missing, the delete returns early and changes nothing. |
| TreeStore.RemoveLeaf | src/lib/localStorage.js:107-114 | Otherwise the key is gone afterwards. States this of `RemoveAt`. |
| TreeStore.RemoveFrame | src/lib/localStorage.js:107-114 | A delete leaves every path that diverges from it unchanged. |
| TreeStore.RemoveIdempotent | src/lib/localStorage.js:102-117 | Deleting twice equals deleting once. |
| TreeStore.InitialTreeShape | src/lib/localStorage.js:6-21 | A new store holds only `users`, with empty warehouses and bucket for the anonymous user. |
| TreeStore.TreeGetDocsListsMembers | src/lib/localStorage.js:47-64 | `getDocs` lists one document per member of the node reached, with its data and, unless the data has its own `id`, the member name as `id`; a missing node lists nothing. States this of `TreeGetDocs`. |
| TreeStore.TreeAddDocAddsOne | src/lib/localStorage.js:66-81 | `addDoc` adds exactly one member, the data plus `createdAt`, under the collection node; every path away from it is unchanged. States this of `TreeAddDoc`. |
| TreeStore.TreeUpdateMerges | src/lib/localStorage.js:83-100 | `updateDoc` merges into an existing record and leaves a missing one missing, but still creates the missing ancestors. Every other path is unchanged. States this of `TreeUpdateDoc`. |
| TreeStore.TreeDeleteRemovesLeaf | src/lib/localStorage.js:102-117 | `deleteDoc` removes its leaf when the ancestors exist and changes nothing otherwise. Other paths are unchanged, and it is idempotent. States this of `TreeDeleteDoc`. |
| TreeStore.TreeSetExact | src/lib/localStorage.js:136-148 | A batch `set` leaves exactly its data at its path and every diverging path unchanged. States this of `TreeSet`. |
| TreeStore.CommitOpsAppend | src/lib/localStorage.js:134-153 | Committing two queues in turn equals committing them joined, stopping at the first failure. States this of `CommitOps`. |
| TreeStore.Rebuild | src/lib/localStorage.js:70-77 | Re-linking the walked frames around the changed node gives the tree with that node plugged in. |
| TreeStore.WalkTouch | src/lib/localStorage.js:70-77 | The in-place creating walk and leaf operation equal the recursive definition. |
| TreeStore.WalkReach | src/lib/localStorage.js:51-55 | The `getDocs` walk equals the recursive definition. |
| TreeStore.WalkRemove | src/lib/localStorage.js:107-114 | The delete walk equals the recursive definition; the early return is reported as no change. |
| TreeStore.TreeDatabase.constructor | src/lib/localStorage.js:6-21 | A store opens on the saved tree, or the initial tree when nothing is saved. |
| TreeStore.TreeDatabase.GetDocs | src/lib/localStorage.js:47-64 | The listing of the saved tree. |
| TreeStore.TreeDatabase.AddDoc | src/lib/localStorage.js:66-81 | The saved tree becomes `addDoc`'s result and the id is returned; unchanged on a throw. |
| TreeStore.TreeDatabase.UpdateDoc | src/lib/localStorage.js:83-100 | The saved tree becomes the merge result; unchanged on a throw. |
| TreeStore.TreeDatabase.DeleteDoc | src/lib/localStorage.js:102-117 | The saved tree becomes the delete result; unchanged on a throw or an early return. |
| TreeStore.TreeBatch.constructor | src/lib/localStorage.js:124-125 | A batch starts empty. |
| TreeStore.TreeBatch.Set | src/lib/localStorage.js:128-130 | `set` appends its operation. |
| TreeStore.TreeBatch.Delete | src/lib/localStorage.js:131-133 | `delete` appends its operation. |
| TreeStore.TreeBatch.Commit | src/lib/localStorage.js:134-153 | The operations are replayed in order and the first failure stops the rest. It is not atomic. |
| Inventory.CreateGuards | src/InventoryApp.js:122-135 | The dialog is skipped exactly for a room without a selected warehouse or a container without a selected room; an unknown type's submit rejects with TypeError. States this of `CreateTarget`. |
| Inventory.CreatedUnderSelection | src/InventoryApp.js:122-147 | A create lands in the collection of the selected parent. It succeeds exactly when the id is new. Then the new state is the old one with exactly that record added, and the listing gains exactly the new entity. States this of `CreateTarget` and `CreateResult`. |
| Inventory.CreatedAt | src/InventoryApp.js:140-141 | Submitting a name adds `{name, createdAt}` under a location, and no other record of any store changes. The listing gains exactly its id. |
| Inventory.ClearSelectionOnlyDeleted | src/InventoryApp.js:196-198 | Only the selection of the deleted kind may change, and only when it was the deleted entity. It then becomes `null`. |
| Inventory.DeletePathTarget | src/InventoryApp.js:187-194 | The document `handleDelete` deletes for a warehouse, room or container is that entity's record in its kind's store. States this of `DeletePath`. |
| Inventory.DeletionIsPostOrder | src/InventoryApp.js:174-183 | The cascade deletes every document after all its listed children, and the root last. States this of `DeletionOrder`. |
| Inventory.ForestIsPostOrder | src/InventoryApp.js:179-181 | The children's subtrees are deleted in post-order and include every child. |
| Inventory.RecursiveDelete | src/InventoryApp.js:174-183 | The recursive method issues exactly the post-order deletes, stopping at the first failure. |
| Inventory.AsWrittenDeletesOnlyRoot | src/InventoryApp.js:175-177 | As written, every child lookup rejects, is caught as "no children", and only the root is deleted. States this of `AsWrittenLister`. |
| Inventory.ContainedChild | src/InventoryApp.js:175-181 | Every reference the intended lookup lists is `doc(childPath, k)` for a key `k` that `getDocs` lists in the child collection, and it addresses that record. States this of `ContainedRefs`. |
| Inventory.ContainedRanked | src/InventoryApp.js:174-183 | With the intended lookups, every child is deeper than its parent, so the cascade ends. |
| Inventory.ContainedDeeper | src/InventoryApp.js:175-177 | Each child reference found is deeper than the reference it was found under. |
| Inventory.ApplyDeletesRemovesEach | src/InventoryApp.js:182 | A cascade that completes leaves none of its deleted documents in their stores. |
| Inventory.ChildCollectionOf | src/InventoryApp.js:175-177 | A warehouse, room or container document names exactly one child collection: rooms, containers or items. That collection's path is the child location's path. |
| Inventory.ChildOfDocument | src/InventoryApp.js:175-181 | With the intended lookups, every record held in a document's child collection is among that document's children, and its reference addresses that record. |
| Inventory.ChildInOrder | src/InventoryApp.js:179-182 | In a post-order deletion, every child of a deleted document is deleted too. |
| Inventory.ChildDeleted | src/InventoryApp.js:174-183 | One level of a completed cascade: a held child of a deleted document is deleted, and its record is gone afterwards. |
| Inventory.DeletingWarehouseClearsSubtree | src/InventoryApp.js:185-200 | A completed intended cascade on a warehouse removes the warehouse record, every room it holds, every container of those rooms and every item of those containers. States this of `CascadeOrder`. |
| Inventory.DeletingWarehouseExactly | src/InventoryApp.js:185-200 | With every key a plain segment, the intended cascade on a warehouse completes. It removes exactly the warehouse's subtree: the warehouse record, its rooms, their containers and their items. Every other record of every store stays, unchanged. States this of `CascadeOrder`. |
| Inventory.CascadeInSubtree | src/InventoryApp.js:174-183 | Every document the intended cascade from a warehouse deletes is the warehouse or a held room, container or item below it. |
| Inventory.SubtreeClosed | src/InventoryApp.js:175-180 | Every child the intended lookups list under a document of the warehouse's subtree is in the subtree. |
| Inventory.SubtreeTarget | src/InventoryApp.js:182 | Every document of the subtree addresses a record of the subtree in an existing store. |
| Inventory.ChildIsHeld | src/InventoryApp.js:175-177 | With plain keys, every child listed under a warehouse, room or container document is a held record of its child collection. It is the converse of `ChildOfDocument`. |
| Inventory.LeafHasNoChildren | src/InventoryApp.js:175-177 | A document of the items or bucket collection lists no children. |
| Inventory.OrderClosed | src/InventoryApp.js:179-182 | A property of the root that every listed child inherits holds of every document the cascade deletes. |
| Inventory.RemovedFromWarehouse | src/InventoryApp.js:174-183 | Every record of the warehouse's subtree is gone after the completed cascade. |
| Inventory.WarehouseDeleted | src/InventoryApp.js:174-183 | The cascade from a warehouse is post-order, includes the warehouse document, and removes the warehouse record. |
| Inventory.RoomDeleted | src/InventoryApp.js:174-183 | A room of the warehouse is deleted by the completed cascade. |
| Inventory.ShelfDeleted | src/InventoryApp.js:174-183 | A container of such a room is deleted by the completed cascade. |
| Inventory.ItemDeleted | src/InventoryApp.js:174-183 | An item of such a container is deleted by the completed cascade. |
| Inventory.LiteralLookupsListSiblings | src/lib/indexedDB.js:61-71 | The lookups `${path}/items` under a warehouse or a room document address the user's warehouses and the warehouse's rooms. So each lists the document itself and its siblings, not its children. |
| Inventory.WarehouseItemsLookup | src/lib/indexedDB.js:65-67 | `users/u/warehouses/w/items` is read as the warehouses store with no parent. |
| Inventory.RoomItemsLookup | src/lib/indexedDB.js:68-71 | `users/u/warehouses/w/rooms/r/items` is read as the rooms store with parent `w`. |
| Inventory.AsWrittenKeepsRooms | src/InventoryApp.js:174-183 | The as-written cascade on a warehouse leaves every room, container and item in place. |
| Inventory.WarehouseRootTarget | src/InventoryApp.js:187 | The warehouse document path addresses that warehouse's record. |
| Inventory.HandleDelete | src/InventoryApp.js:185-200 | An unknown type does nothing. Otherwise the intended cascade runs from the entity's path, and the selection is cleared only when the cascade completes. |
| Inventory.QueueMove | src/InventoryApp.js:208-217 | The queue a set-capable batch would hold: the new container record, a copy and an `undefined` delete per listed document, then the old container's delete. |
| Inventory.MoveContainer | src/InventoryApp.js:202-222 | `moveContainer` always rejects and writes nothing: with the listing's error, or with TypeError at the missing `batch.set`. |
| Inventory.MoveListsSiblingContainers | src/InventoryApp.js:205-206 | The "items" listing it starts with addresses the room's containers, not the container's items. |
| Inventory.ParseContainerParts | src/InventoryApp.js:205-206 | A container document path is classified as the shelves store, with parent `w/r`. |
| Inventory.SaveNeedsContainer | src/InventoryApp.js:225-228 | The save refuses exactly when no container path is set, and then writes nothing. States this of `SaveItemResult`. |
| Inventory.NewItemRecord | src/InventoryApp.js:240-245 | A new item's quantity defaults to 1 and its price to 0 when falsy; the store's identity fields override the form's, and the other fields are kept. |
| Inventory.AddedItemStored | src/InventoryApp.js:239-246 | Adding to a well-formed container with a new id inserts exactly that item record. |
| Inventory.HandleAddItem | src/InventoryApp.js:224-254 | The save's outcome and the new stores are those of the save function; a rejection is caught as an error outcome. |
| Inventory.MoveItemToBucket | src/InventoryApp.js:320-339 | Add the bucket entry, then delete the original. A rejection stops the rest and is reported. |
| Inventory.MoveItemFromBucket | src/InventoryApp.js:341-355 | Add the item at the destination, then delete the bucket entry. A rejection stops the rest. |
| Inventory.OriginOfItem | src/InventoryApp.js:330-333 | The original path splits back into the item's container and key. |
| Inventory.ToBucketMoves | src/InventoryApp.js:320-333 | With a new bucket id, the item leaves its container and exactly one bucket entry appears. A taken id rejects with nothing changed. States this of `ToBucket`. |
| Inventory.BucketDocTarget | src/InventoryApp.js:348 | The bucket entry reference addresses that entry. |
| Inventory.FromBucketMoves | src/InventoryApp.js:341-348 | With a new item id, the entry leaves the bucket and exactly one item appears at the destination. States this of `FromBucket`. |
| Inventory.RestoredFromBucket | src/InventoryApp.js:341-347 | Leaving the bucket restores the item's fields, without the bucket's bookkeeping members. |
| Inventory.BucketEntryFields | src/InventoryApp.js:322-328 | The bucket entry is the item without `id`, plus `originalPath` and `movedAt`. |
| Inventory.BucketRoundTrip | src/InventoryApp.js:320-355 | To the bucket and back keeps every ordinary field. Only `id`, `_parentKey`, `_userId` and `createdAt` are replaced by the destination's. |
| Inventory.Includes | src/InventoryApp.js:456 | `includes` holds exactly when the text occurs at some position. |
| Inventory.FindByName | src/InventoryApp.js:464 | `find` yields the first entry with the name, or none when no entry has it. |
| Inventory.MoveItemBetween | src/InventoryApp.js:454-470 | The move handler leaves the stores as the corrected move function does. |
| Inventory.ToBucketWellKeyed | src/InventoryApp.js:320-333 | The first half of the move keeps the key invariant and writes exactly the new entry. |
| Inventory.MoveBetweenViaBucket | src/InventoryApp.js:456-467 | For an item outside the bucket, the corrected move is the bucket move followed by moving out the entry just written. |
| Inventory.MoveBetweenRelocates | src/InventoryApp.js:454-470 | The corrected move relocates the item: it leaves its container, appears once at the destination, and the bucket is as before. States this of `MoveBetween`. |
| Inventory.NamesakeFoundFirst | src/InventoryApp.js:463-464 | An older same-named bucket entry is found before the newest one. |
| Inventory.FirstNamedBefore | src/InventoryApp.js:464 | In ascending order, a same-named key sorting earlier is found instead of a later one. |
| Inventory.FromBucketKeepsOthers | src/InventoryApp.js:466 | Moving one entry out of the bucket keeps every other entry. |
| Inventory.BucketListing | src/InventoryApp.js:463 | Listing the bucket yields every matching entry in key order. |
| Inventory.NamesakeListed | src/InventoryApp.js:463-466 | The as-written lookup moves out an entry other than the newest when an older namesake exists. States this of `MoveNamesake`. |
| Inventory.NamesakeMovedOut | src/InventoryApp.js:463-466 | In that case the newest entry stays in the bucket. |
| Inventory.JustMovedEntry | src/InventoryApp.js:324-328 | The entry just written carries the item's name and its new id, and matches the bucket listing. |
| Inventory.AsWrittenViaBucket | src/InventoryApp.js:460-466 | The as-written move is the bucket move followed by moving out the first same-named entry. States this of `MoveBetweenAsWritten`. |
| Inventory.AsWrittenMovesNamesake | src/InventoryApp.js:454-470 | As written, with an older same-named entry sorting first, the item just moved stays in the bucket. States this of `MoveBetweenAsWritten`. |
| Inventory.NamesakeAfterMove | src/InventoryApp.js:463-466 | The namesake lookup after the move leaves the newly written entry in the bucket. |
| Settings.ZoomIn | src/components/SettingsModal.js:8-11 | Zooming in adds one step, capped at 200, and keeps the other settings. |
| Settings.ZoomOut | src/components/SettingsModal.js:13-16 | Zooming out removes one step, floored at 50, and keeps the other settings. |
| Settings.ResetDefaults | src/components/SettingsModal.js:18-20 | Reset gives zoom 100 and drops every other setting. States this of `Reset`. |
| Settings.DisabledIffNoChange | src/components/SettingsModal.js:54-74 | Within range, a zoom button is disabled exactly when pressing it would change nothing. |
| Settings.ZoomOutUndoesZoomIn | src/components/SettingsModal.js:8-16 | Below the cap, zooming out undoes zooming in. |
| Settings.ZoomInUndoesZoomOut | src/components/SettingsModal.js:8-16 | Above the floor, zooming in undoes zooming out. |
| Settings.PressesStayInRange | src/components/SettingsModal.js:8-16 | Any run of presses from a zoom within [50, 200] stays within it and keeps the other settings. |

## Left out

- **Snapshot polling.** `onSnapshot` in both stores is polling with timers; the model has no clock. The notification, modal and React state wiring is left out for the same reason.
- **Auth and chat.** `auth`, `signInAnonymously`, `onAuthStateChanged`, the Gemini chat call and `console.log` are I/O with no effect on the stores.
- **Ids and timestamps.** `generateId` and `new Date()` are randomness and clock; every operation takes the id and the timestamp as parameters.
- **Parsing.** `JSON.parse`/`JSON.stringify` of the saved tree is left out: the tree store and the migration take the parsed value.
- **Floats.** Numbers are integers. `parseFloat(...) || d` is taken as an already-parsed value plus the `||` default (`Inventory.NewItemRecord`), so float parsing is not modelled.
- **Store lifetime.** Opening the database once and reusing it (`dbInstance`) is a constructor; the lazy singleton and the upgrade callback's version check are not modelled.
- **`Object.entries` order.** The order is taken as ascending key order. JavaScript lists integer-like keys first and then keys in insertion order. Generated ids are not integer-like, but insertion order can differ from key order.
- **Other screen handlers.** `renameEntity`, `handleEditItem`, `handleDeleteItem` and `handleUpdateQuantity` are single `updateDoc`/`deleteDoc` calls whose effects `FlatStore.UpdateDocMerges` and `FlatStore.DeleteDocRemovesOnly` state. The handlers themselves are not part of this model.
- **Swallowed errors.** Where the bucket handlers catch a rejection and show a message, the model returns the error as the outcome. The stores in that outcome are those left by the steps that ran.
- Inventory.MoveItemBetween: its `.then` chain is taken as sequential steps. A failure inside `moveItemToBucket` is caught there, so the chain goes on with the stores as they are. The as-written model continues the same way; the corrected model stops.
- Settings.ZoomIn: requires a numeric `zoom`. With a non-number, `settings.zoom + 10` concatenates strings or yields `NaN`, and that is not modelled. The same holds for `Settings.ZoomOut` and the `disabled` tests.
- Inventory.HandleDelete: uses the intended child lookups (see Findings). Those lookups read the stores as they were when the cascade began, not after each delete. This differs only if a cascade deletes a record that a later lookup would list.
- **JSON arrays.** `Json` has no array value. The stored records and the saved tree hold only objects, strings, numbers, booleans and `null`, so arrays are not represented.
- ObjectEntries.Entries: lists nothing for a string, while JavaScript lists its characters by index. The same holds for `Json.SpreadOf`, where a spread string adds index members. No caller in the modelled flows spreads or enumerates a string.
- FlatStore.KeyOf: accepts only string keys. IndexedDB also accepts numbers, dates and arrays as keys, so a `users` record whose `uid` is a number is stored there but rejected here.
- **Key order.** `KeyOrder.Below` compares strings by code point. IndexedDB compares by UTF-16 code unit, so the orders differ for keys with characters outside the Basic Multilingual Plane.
- Inventory.DeletingWarehouseClearsSubtree: covers only held keys: non-empty, without `/`, and not a path keyword (`Held`). A key such as `rooms` changes how the child's path is classified, and the lemma says nothing about it.
- Inventory.DeletingWarehouseExactly: requires every key of every store to be such a segment (`PlainKeys`). With an empty key, a child's reference `doc(path, "")` collapses to the collection path itself and addresses a record outside the subtree. So without the requirement the model does not state which records survive.
- Inventory.MoveContainer: models the deployed IndexedDB batch, which has no `set`. `Inventory.QueueMove` states what a batch with `set` would queue. The localStorage batch's commit of such a queue is `TreeStore.TreeBatch.Commit`.

## Findings

| source | as written | input that shows it | evidently intended | confidence | as-written member | corrected member |
|---|---|---|---|---|---|---|
| src/InventoryApp.js:175-177 | `collection(docRef, 'items')` passes the reference object as the path. `getDocs` then throws on `split`, and `.catch(() => [])` turns every lookup into "no children", so `recursiveDelete` deletes only the root. | A warehouse `w` of user `u` with a room `r`: after deleting `w`, the rooms store still holds `r` (and every container and item below it). | Each document looks up only its own child collection: rooms under a warehouse, containers under a room, items under a container. Every descendant is deleted before the root. Appending the three keywords literally would not do this: under the codec's precedence `${path}/items` below a warehouse or a room lists that document and its siblings (`Inventory.LiteralLookupsListSiblings`). | not executed | Inventory.AsWrittenKeepsRooms | Inventory.DeletingWarehouseExactly |
| src/InventoryApp.js:463-466 | After moving the item to the bucket, the handler moves out the first bucket entry whose `name` equals the item's. Entries are listed in key order, so an older same-named entry can come first. | A bucket holding entry `a` named "Screws"; moving an item "Screws" writes entry `b` with `a` sorting before `b`; entry `a` is moved to the destination and `b` stays in the bucket. | Move out the entry just written under its new id. | not executed | Inventory.AsWrittenMovesNamesake | Inventory.MoveBetweenRelocates |
