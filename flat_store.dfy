/** The IndexedDB document store: one keyed object store per entity kind,
    and the document verbs (`addDoc`, `updateDoc`, `deleteDoc`, `getDocs`,
    `writeBatch`) that address it through the path codec. */
module FlatStore {
  import opened Json
  import opened Paths
  import opened KeyOrder
  import opened PathCodec

  /** One object store: primary key to record. */
  type Store = map<string, Record>

  /** The database: object store name to object store. */
  type Stores = map<string, Store>

  /** The object stores the database is created with. */
  const StoreNames: set<string> := {"warehouses", "rooms", "shelves", "items", "bucket", "users"}

  /** The key path of each store: `uid` for users, `id` for the others. */
  function KeyPathOf(storeName: string): string {
    if storeName == "users" then "uid" else "id"
  }

  /** A freshly created database: every store present and empty. */
  const InitialStores: Stores := map n | n in StoreNames :: map[]

  /** Every record sits under the value of its store's key path. */
  predicate KeysInline(stores: Stores) {
    forall n, k :: n in stores && k in stores[n] ==> Field(stores[n][k], KeyPathOf(n)) == JStr(k)
  }

  /** The store set is fixed when the database is opened, and keys are in-line. */
  predicate WellKeyed(stores: Stores) {
    stores.Keys == StoreNames && KeysInline(stores)
  }

  lemma InitialStoresWellKeyed()
    ensures WellKeyed(InitialStores)
  {
  }

  // ---------------------------------------------------------------------
  // Object store requests

  /** The primary key a record carries under its store's key path. */
  function KeyOf(storeName: string, rec: Record): Result<string> {
    var k := Field(rec, KeyPathOf(storeName));
    if k.JStr? then Ok(k.s) else Err(DataError)
  }

  /** `db.add(storeName, rec)`: rejects when the key is already taken. */
  function AddRecord(stores: Stores, storeName: string, rec: Record): Result<Stores> {
    if storeName !in stores then Err(NotFoundError)
    else
      var key :- KeyOf(storeName, rec);
      if key in stores[storeName] then Err(ConstraintError)
      else Ok(stores[storeName := stores[storeName][key := rec]])
  }

  /** `db.put(storeName, rec)`: inserts or replaces. */
  function PutRecord(stores: Stores, storeName: string, rec: Record): Result<Stores> {
    if storeName !in stores then Err(NotFoundError)
    else
      var key :- KeyOf(storeName, rec);
      Ok(stores[storeName := stores[storeName][key := rec]])
  }

  /** `db.get(storeName, key)`: `undefined` for an absent key. */
  function GetRecord(stores: Stores, storeName: string, key: string): Result<Option<Record>> {
    if storeName !in stores then Err(NotFoundError)
    else if key in stores[storeName] then Ok(Some(stores[storeName][key]))
    else Ok(None)
  }

  /** `db.delete(storeName, key)`: deleting an absent key is no error. */
  function DeleteRecord(stores: Stores, storeName: string, key: string): Result<Stores> {
    if storeName !in stores then Err(NotFoundError)
    else Ok(stores[storeName := stores[storeName] - {key}])
  }

  lemma PutKeepsWellKeyed(stores: Stores, storeName: string, rec: Record)
    requires WellKeyed(stores)
    ensures PutRecord(stores, storeName, rec).Ok? ==> WellKeyed(PutRecord(stores, storeName, rec).value)
  {
  }

  /** In a well-keyed database the key a stored record carries is the key
      it is stored under. */
  lemma KeyOfStored(stores: Stores, storeName: string, key: string)
    requires WellKeyed(stores) && storeName in stores && key in stores[storeName]
    ensures KeyOf(storeName, stores[storeName][key]) == Ok(key)
  {
    assert Field(stores[storeName][key], KeyPathOf(storeName)) == JStr(key);
  }

  /** A record put into a store is what a get of its own key returns, and
      no other key of any store changes. */
  lemma PutThenGet(stores: Stores, storeName: string, rec: Record)
    requires PutRecord(stores, storeName, rec).Ok?
    ensures KeyOf(storeName, rec).Ok?
    ensures var s := PutRecord(stores, storeName, rec).value; var key := KeyOf(storeName, rec).value;
      && GetRecord(s, storeName, key) == Ok(Some(rec))
      && s.Keys == stores.Keys
      && (forall k :: k != key ==> GetRecord(s, storeName, k) == GetRecord(stores, storeName, k))
      && (forall n :: n in stores && n != storeName ==> s[n] == stores[n])
  {
  }

  // ---------------------------------------------------------------------
  // Document verbs

  /** The record `addDoc` stores: the data, with the id, the parent chain,
      the owner and the creation time written over same-named members. */
  function DocData(p: Parsed, data: Record, id: string, now: string): Record {
    data + map["id" := JStr(id), "_parentKey" := p.parentKey, "_userId" := p.userId, "createdAt" := JStr(now)]
  }

  /** `addDoc(collectionRef, data)` with `id` as the generated id and `now`
      as the current time. */
  function AddDocResult(stores: Stores, ref: Ref, data: Record, id: string, now: string): Result<Stores> {
    var path :- PathText(ref);
    var p := ParseCollectionPath(path);
    AddRecord(stores, p.storeName, DocData(p, data, id, now))
  }

  /** The store and key a document reference addresses: the last segment
      is the key, the other segments name the collection. */
  datatype Target = Target(storeName: string, key: string)

  function DocTarget(ref: Ref): Result<Target> {
    var path :- PathText(ref);
    var parts := Split(path);
    Ok(Target(ParseCollectionPath(Join(Init(parts))).storeName, Last(parts)))
  }

  /** `doc(path, id)` with a truthy, slash-free id addresses the key `id` in
      the store that `path` names as a collection. */
  lemma DocAddressesKey(path: string, id: string)
    requires Plain(id) && id != ""
    ensures DocTarget(Doc(Text(path), Some(id))) == Ok(Target(ParseCollectionPath(path).storeName, id))
  {
    DocPath(path, Some(id));
  }

  /** `updateDoc(docRef, patch)` with `now` as the current time. */
  function UpdateDocResult(stores: Stores, ref: Ref, patch: Record, now: string): Result<Stores> {
    var t :- DocTarget(ref);
    UpdateAt(stores, t, patch, now)
  }

  /** Read the record under the target's key and, when there is one, put
      the patch over it back with the update time. */
  function UpdateAt(stores: Stores, t: Target, patch: Record, now: string): Result<Stores> {
    var existing :- GetRecord(stores, t.storeName, t.key);
    if existing.None? then Ok(stores)
    else PutRecord(stores, t.storeName, existing.value + patch + map["updatedAt" := JStr(now)])
  }

  /** `deleteDoc(docRef)`. */
  function DeleteDocResult(stores: Stores, ref: Ref): Result<Stores> {
    var t :- DocTarget(ref);
    DeleteRecord(stores, t.storeName, t.key)
  }

  /** The `getDocs` filter: the owner must match when the path names one,
      and the parent chain when the path has one. */
  predicate Matches(rec: Record, p: Parsed) {
    && !(Truthy(p.userId) && Field(rec, "_userId") != p.userId)
    && !(Truthy(p.parentKey) && Field(rec, "_parentKey") != p.parentKey)
  }

  /** The keys among `keys`, in their order, whose records pass the filter. */
  function Filtered(store: Store, keys: seq<string>, p: Parsed): (ks: seq<string>)
    requires forall k :: k in keys ==> k in store
    ensures forall k :: k in ks <==> k in keys && Matches(store[k], p)
    ensures Ascending(keys) ==> Ascending(ks)
    decreases |keys|
  {
    if keys == [] then []
    else
      var rest := Filtered(store, keys[1..], p);
      if Matches(store[keys[0]], p) then
        assert Ascending(keys) ==> forall k :: k in rest ==> Below(keys[0], k) && keys[0] != k by {
          if Ascending(keys) {
            forall k | k in rest ensures Below(keys[0], k) && keys[0] != k {
              var i :| 0 <= i < |keys[1..]| && keys[1..][i] == k;
              assert keys[i + 1] == k;
            }
          }
        }
        [keys[0]] + rest
      else rest
  }

  /** The keys `getDocs` lists, in the ascending order of `getAll`. */
  function ListedKeys(store: Store, p: Parsed): seq<string> {
    Filtered(store, SortedKeys(store.Keys), p)
  }

  /** A document of a `getDocs` result: its `id` member and its record. */
  datatype DocSnapshot = DocSnapshot(id: Json, data: Record)

  function Snapshots(store: Store, keys: seq<string>): (docs: seq<DocSnapshot>)
    requires forall k :: k in keys ==> k in store
    ensures |docs| == |keys|
    ensures forall i :: 0 <= i < |keys| ==> docs[i] == DocSnapshot(Field(store[keys[i]], "id"), store[keys[i]])
    decreases |keys|
  {
    if keys == [] then []
    else [DocSnapshot(Field(store[keys[0]], "id"), store[keys[0]])] + Snapshots(store, keys[1..])
  }

  /** `getDocs(collectionRef)`. */
  function GetDocsResult(stores: Stores, ref: Ref): Result<seq<DocSnapshot>> {
    var path :- PathText(ref);
    var p := ParseCollectionPath(path);
    if p.storeName !in stores then Err(NotFoundError)
    else
      var store := stores[p.storeName];
      Ok(Snapshots(store, ListedKeys(store, p)))
  }

  // ---------------------------------------------------------------------
  // Properties of the document verbs

  /** `addDoc` inserts exactly one record, under the fresh id, and rejects
      when the reference has no string path, the store does not exist or
      the id is taken. The id, parent chain, owner and creation time win
      over same-named members of the data. */
  lemma AddDocInsertsOne(stores: Stores, path: string, data: Record, id: string, now: string)
    requires WellKeyed(stores)
    ensures var p := ParseCollectionPath(path);
      var r := AddDocResult(stores, Collection(Text(path)), data, id, now);
      && (r.Ok? <==>
            && p.storeName in stores
            && (if p.storeName == "users" then Field(data, "uid").JStr? && Field(data, "uid").s !in stores["users"]
                else id !in stores[p.storeName]))
      && (p.storeName in stores && p.storeName != "users" && id !in stores[p.storeName] ==>
            r == Ok(stores[p.storeName := stores[p.storeName][id := DocData(p, data, id, now)]]))
      && (p.storeName !in stores ==> r == Err(NotFoundError))
      && (p.storeName in stores && p.storeName != "users" && id in stores[p.storeName] ==> r == Err(ConstraintError))
  {
  }

  lemma DocDataOverrides(p: Parsed, data: Record, id: string, now: string)
    ensures var d := DocData(p, data, id, now);
      && d["id"] == JStr(id) && d["_parentKey"] == p.parentKey && d["_userId"] == p.userId
      && d["createdAt"] == JStr(now)
      && d.Keys == data.Keys + {"id", "_parentKey", "_userId", "createdAt"}
      && forall f :: f in data && f !in {"id", "_parentKey", "_userId", "createdAt"} ==> d[f] == data[f]
  {
  }

  /** The record `updateDoc` writes back: the patch over the existing
      record, then the update time. */
  predicate UpdatedRecord(existing: Record, patch: Record, now: string, rec: Record) {
    && rec.Keys == existing.Keys + patch.Keys + {"updatedAt"}
    && rec["updatedAt"] == JStr(now)
    && (forall f :: f in patch && f != "updatedAt" ==> rec[f] == patch[f])
    && (forall f :: f in existing && f !in patch && f != "updatedAt" ==> rec[f] == existing[f])
  }

  /** `updateDoc` on a present key keeps what the patch does not mention,
      takes what it does, and stamps `updatedAt`, leaving every other record
      as it was; on an absent key the stores are unchanged. */
  lemma UpdateDocMerges(stores: Stores, ref: Ref, patch: Record, now: string)
    requires WellKeyed(stores)
    requires DocTarget(ref).Ok? && DocTarget(ref).value.storeName in stores
    requires KeyPathOf(DocTarget(ref).value.storeName) !in patch
    ensures var t := DocTarget(ref).value; var store := stores[t.storeName];
      var r := UpdateDocResult(stores, ref, patch, now);
      && r.Ok?
      && (t.key !in store ==> r.value == stores)
      && (t.key in store ==>
            && r.value.Keys == stores.Keys
            && (forall n :: n in stores && n != t.storeName ==> r.value[n] == stores[n])
            && r.value[t.storeName].Keys == store.Keys
            && (forall k :: k in store && k != t.key ==> r.value[t.storeName][k] == store[k])
            && UpdatedRecord(store[t.key], patch, now, r.value[t.storeName][t.key]))
  {
    UpdateAtMerges(stores, DocTarget(ref).value, patch, now);
  }

  lemma UpdateAtMerges(stores: Stores, t: Target, patch: Record, now: string)
    requires WellKeyed(stores)
    requires t.storeName in stores
    requires KeyPathOf(t.storeName) !in patch
    ensures var store := stores[t.storeName];
      var r := UpdateAt(stores, t, patch, now);
      && r.Ok?
      && (t.key !in store ==> r.value == stores)
      && (t.key in store ==>
            && r.value.Keys == stores.Keys
            && (forall n :: n in stores && n != t.storeName ==> r.value[n] == stores[n])
            && r.value[t.storeName].Keys == store.Keys
            && (forall k :: k in store && k != t.key ==> r.value[t.storeName][k] == store[k])
            && UpdatedRecord(store[t.key], patch, now, r.value[t.storeName][t.key]))
  {
    var store := stores[t.storeName];
    if t.key in store {
      var merged := store[t.key] + patch + map["updatedAt" := JStr(now)];
      var kp := KeyPathOf(t.storeName);
      assert kp != "updatedAt" && kp !in patch;
      assert Field(store[t.key], kp) == JStr(t.key);
      assert merged[kp] == store[t.key][kp];
      assert KeyOf(t.storeName, merged) == Ok(t.key);
      assert UpdateAt(stores, t, patch, now) == Ok(stores[t.storeName := store[t.key := merged]]);
      MergedIsUpdated(store[t.key], patch, now);
    }
  }

  lemma MergedIsUpdated(existing: Record, patch: Record, now: string)
    ensures UpdatedRecord(existing, patch, now, existing + patch + map["updatedAt" := JStr(now)])
  {
  }

  /** `deleteDoc` removes only its key, and a second delete changes nothing. */
  lemma DeleteDocRemovesOnly(stores: Stores, ref: Ref)
    requires DeleteDocResult(stores, ref).Ok?
    ensures var t := DocTarget(ref).value; var s := DeleteDocResult(stores, ref).value;
      && s.Keys == stores.Keys
      && t.key !in s[t.storeName]
      && s[t.storeName] == stores[t.storeName] - {t.key}
      && (forall n :: n in stores && n != t.storeName ==> s[n] == stores[n])
      && DeleteDocResult(s, ref) == Ok(s)
  {
    var t := DocTarget(ref).value;
    var s := DeleteDocResult(stores, ref).value;
    assert s == stores[t.storeName := stores[t.storeName] - {t.key}];
    assert s[t.storeName] - {t.key} == s[t.storeName];
    assert s[t.storeName := s[t.storeName] - {t.key}] == s;
  }

  /** A key is listed exactly when its record is in the store and passes the filter. */
  lemma ListedIff(store: Store, p: Parsed, k: string)
    ensures k in ListedKeys(store, p) <==> k in store && Matches(store[k], p)
  {
  }

  /** `getDocs` lists exactly the records of the addressed store that pass
      the owner and parent filters, once each, in ascending key order. */
  lemma GetDocsExactly(stores: Stores, ref: Ref)
    requires GetDocsResult(stores, ref).Ok?
    ensures var p := ParseCollectionPath(ref.path.s); var store := stores[p.storeName];
      var keys := ListedKeys(store, p);
      && (forall k :: k in keys <==> k in store && Matches(store[k], p))
      && Ascending(keys)
      && GetDocsResult(stores, ref).value == Snapshots(store, keys)
  {
  }

  /** After `addDoc` on a collection path, `getDocs` on the same path lists
      what it listed before and, in addition, the new id. */
  lemma AddThenList(stores: Stores, path: string, data: Record, id: string, now: string)
    requires AddDocResult(stores, Collection(Text(path)), data, id, now).Ok?
    requires KeyPathOf(ParseCollectionPath(path).storeName) == "id"
    ensures var p := ParseCollectionPath(path);
      var s := AddDocResult(stores, Collection(Text(path)), data, id, now).value;
      forall k :: k in ListedKeys(s[p.storeName], p) <==> k == id || k in ListedKeys(stores[p.storeName], p)
  {
    var p := ParseCollectionPath(path);
    var d := DocData(p, data, id, now);
    var before := stores[p.storeName];
    DocDataOverrides(p, data, id, now);
    assert Field(d, "id") == JStr(id);
    assert KeyOf(p.storeName, d) == Ok(id);
    assert AddDocResult(stores, Collection(Text(path)), data, id, now).value[p.storeName] == before[id := d];
    assert Field(d, "_userId") == p.userId && Field(d, "_parentKey") == p.parentKey;
    ListedAfterInsert(before, p, id, d);
  }

  /** A record that passes the filters joins the listing, and nothing else changes in it. */
  lemma ListedAfterInsert(before: Store, p: Parsed, id: string, d: Record)
    requires Matches(d, p)
    ensures forall k :: k in ListedKeys(before[id := d], p) <==> k == id || k in ListedKeys(before, p)
  {
    forall k ensures k in ListedKeys(before[id := d], p) <==> k == id || k in ListedKeys(before, p) {
      ListedIff(before[id := d], p, k);
      ListedIff(before, p, k);
    }
  }

  // ---------------------------------------------------------------------
  // Batched deletes

  /** What a sequence of steps leaves behind, and the error that stopped it. */
  datatype Outcome = Outcome(stores: Stores, error: Option<Error>)

  /** Deleting the referenced documents one after another; the first
      rejected delete stops the rest. */
  function ApplyDeletes(stores: Stores, refs: seq<Ref>): Outcome
    decreases |refs|
  {
    if refs == [] then Outcome(stores, None)
    else
      match DeleteDocResult(stores, refs[0])
      case Err(e) => Outcome(stores, Some(e))
      case Ok(s) => ApplyDeletes(s, refs[1..])
  }

  /** Committing two queues in turn is committing their concatenation. */
  lemma {:induction false} ApplyDeletesAppend(stores: Stores, a: seq<Ref>, b: seq<Ref>)
    ensures ApplyDeletes(stores, a + b)
         == (var o := ApplyDeletes(stores, a); if o.error.Some? then o else ApplyDeletes(o.stores, b))
    decreases |a|
  {
    if a == [] {
      assert a + b == b;
    } else {
      assert (a + b)[0] == a[0] && (a + b)[1..] == a[1..] + b;
      match DeleteDocResult(stores, a[0])
      case Err(e) =>
      case Ok(s) => ApplyDeletesAppend(s, a[1..], b);
    }
  }

  lemma {:induction false} ApplyDeletesKeepsWellKeyed(stores: Stores, refs: seq<Ref>)
    requires WellKeyed(stores)
    ensures WellKeyed(ApplyDeletes(stores, refs).stores)
    decreases |refs|
  {
    if refs != [] {
      match DeleteDocResult(stores, refs[0])
      case Err(e) =>
      case Ok(s) => ApplyDeletesKeepsWellKeyed(s, refs[1..]);
    }
  }

  /** A delete never adds a record: every record left was there before. */
  lemma {:induction false} ApplyDeletesOnlyRemoves(stores: Stores, refs: seq<Ref>)
    ensures var s := ApplyDeletes(stores, refs).stores;
      s.Keys == stores.Keys && forall n, k :: n in s && k in s[n] ==> k in stores[n] && s[n][k] == stores[n][k]
    decreases |refs|
  {
    if refs != [] {
      match DeleteDocResult(stores, refs[0])
      case Err(e) =>
      case Ok(s) => ApplyDeletesOnlyRemoves(s, refs[1..]);
    }
  }

  /** A record that no delete of the run addresses is still there, unchanged. */
  lemma {:induction false} ApplyDeletesKeepsOthers(stores: Stores, refs: seq<Ref>, n: string, k: string)
    requires n in stores && k in stores[n]
    requires forall r :: r in refs ==> DocTarget(r) != Ok(Target(n, k))
    ensures var s := ApplyDeletes(stores, refs).stores;
      n in s && k in s[n] && s[n][k] == stores[n][k]
    decreases |refs|
  {
    if refs != [] {
      match DeleteDocResult(stores, refs[0])
      case Err(e) =>
      case Ok(s) =>
        DeleteDocRemovesOnly(stores, refs[0]);
        assert refs[0] in refs;
        ApplyDeletesKeepsOthers(s, refs[1..], n, k);
    }
  }

  /** A run of deletes whose every reference addresses an existing store
      never rejects. */
  lemma {:induction false} ApplyDeletesCompletes(stores: Stores, refs: seq<Ref>)
    requires forall r :: r in refs ==> DocTarget(r).Ok? && DocTarget(r).value.storeName in stores
    ensures ApplyDeletes(stores, refs).error.None?
    decreases |refs|
  {
    if refs != [] {
      assert refs[0] in refs;
      var s := DeleteDocResult(stores, refs[0]).value;
      DeleteDocRemovesOnly(stores, refs[0]);
      ApplyDeletesCompletes(s, refs[1..]);
    }
  }

  // ---------------------------------------------------------------------
  // The database handle

  /** The shared database handle and the document verbs that act on it. */
  class Database {
    var stores: Stores

    ghost predicate Valid()
      reads this
    {
      WellKeyed(stores)
    }

    constructor ()
      ensures Valid() && stores == InitialStores
    {
      stores := InitialStores;
    }

    method AddDoc(ref: Ref, data: Record, id: string, now: string) returns (r: Result<string>)
      requires Valid()
      modifies this
      ensures Valid()
      ensures match AddDocResult(old(stores), ref, data, id, now)
        case Ok(s) => r == Ok(id) && stores == s
        case Err(e) => r == Err(e) && stores == old(stores)
    {
      var path := PathText(ref);
      if path.Err? {
        return Err(path.error);
      }
      var p := ParseCollectionPath(path.value);
      var docData := DocData(p, data, id, now);
      var added := AddRecord(stores, p.storeName, docData);
      if added.Err? {
        return Err(added.error);
      }
      stores := added.value;
      r := Ok(id);
    }

    /** `db.put(storeName, rec)` on the open handle. */
    method Put(storeName: string, rec: Record) returns (r: Result<()>)
      requires Valid()
      modifies this
      ensures Valid()
      ensures match PutRecord(old(stores), storeName, rec)
        case Ok(s) => r == Ok(()) && stores == s
        case Err(e) => r == Err(e) && stores == old(stores)
    {
      var put := PutRecord(stores, storeName, rec);
      if put.Err? {
        return Err(put.error);
      }
      PutKeepsWellKeyed(stores, storeName, rec);
      stores := put.value;
      r := Ok(());
    }

    method UpdateDoc(ref: Ref, patch: Record, now: string) returns (r: Result<()>)
      requires Valid()
      modifies this
      ensures Valid()
      ensures match UpdateDocResult(old(stores), ref, patch, now)
        case Ok(s) => r == Ok(()) && stores == s
        case Err(e) => r == Err(e) && stores == old(stores)
    {
      var target := DocTarget(ref);
      if target.Err? {
        return Err(target.error);
      }
      var t := target.value;
      var existing := GetRecord(stores, t.storeName, t.key);
      if existing.Err? {
        return Err(existing.error);
      }
      if existing.value.Some? {
        var put := PutRecord(stores, t.storeName, existing.value.value + patch + map["updatedAt" := JStr(now)]);
        if put.Err? {
          return Err(put.error);
        }
        PutKeepsWellKeyed(stores, t.storeName, existing.value.value + patch + map["updatedAt" := JStr(now)]);
        stores := put.value;
      }
      r := Ok(());
    }

    method DeleteDoc(ref: Ref) returns (r: Result<()>)
      requires Valid()
      modifies this
      ensures Valid()
      ensures match DeleteDocResult(old(stores), ref)
        case Ok(s) => r == Ok(()) && stores == s
        case Err(e) => r == Err(e) && stores == old(stores)
    {
      var target := DocTarget(ref);
      if target.Err? {
        return Err(target.error);
      }
      var deleted := DeleteRecord(stores, target.value.storeName, target.value.key);
      if deleted.Err? {
        return Err(deleted.error);
      }
      stores := deleted.value;
      r := Ok(());
    }

    method GetDocs(ref: Ref) returns (r: Result<seq<DocSnapshot>>)
      requires Valid()
      ensures r == GetDocsResult(stores, ref)
    {
      var path := PathText(ref);
      if path.Err? {
        return Err(path.error);
      }
      var p := ParseCollectionPath(path.value);
      if p.storeName !in stores {
        return Err(NotFoundError);
      }
      var store := stores[p.storeName];
      r := Ok(Snapshots(store, ListedKeys(store, p)));
    }
  }

  /** `writeBatch()`: a queue of deletes replayed one by one on commit. */
  class DeleteBatch {
    var operations: seq<Ref>

    constructor ()
      ensures operations == []
    {
      operations := [];
    }

    /** `batch.delete(docRef)` queues the delete. */
    method Delete(ref: Ref)
      modifies this
      ensures operations == old(operations) + [ref]
    {
      operations := operations + [ref];
    }

    /** `batch.commit()`: the queued deletes in insertion order, stopping at
        the first that rejects; the ones before it stay applied. */
    method Commit(db: Database) returns (error: Option<Error>)
      requires db.Valid()
      modifies db
      ensures db.Valid()
      ensures Outcome(db.stores, error) == ApplyDeletes(old(db.stores), operations)
    {
      var i := 0;
      while i < |operations|
        invariant 0 <= i <= |operations|
        invariant db.Valid()
        invariant ApplyDeletes(old(db.stores), operations) == ApplyDeletes(db.stores, operations[i..])
      {
        var r := db.DeleteDoc(operations[i]);
        assert operations[i..][1..] == operations[i + 1..];
        if r.Err? {
          return Some(r.error);
        }
        i := i + 1;
      }
      error := None;
    }
  }
}
