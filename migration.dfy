/** The one-off copy of the legacy localStorage tree into the IndexedDB
    stores: every warehouse, room, shelf and item of the anonymous user,
    with its ancestor chain flattened into `_parentKey`, and every bucket
    entry. */
module Migration {
  import opened Json
  import opened Paths
  import opened KeyOrder
  import opened PathCodec
  import opened FlatStore
  import opened ObjectEntries

  /** The only user the legacy tree is migrated for. */
  const LegacyUser: string := "anonymous-user"

  /** One `db.put` of the migration: the store, the ids of the record's
      ancestors, its key and the record. */
  datatype Put = Put(storeName: string, chain: seq<string>, key: string, rec: Record)

  /** The puts performed, and the error that stopped the migration. */
  datatype Plan = Plan(puts: seq<Put>, error: Option<Error>)

  /** The store of a record with `depth` ancestors. */
  function StoreAt(depth: nat): string
    requires depth < 4
  {
    ["warehouses", "rooms", "shelves", "items"][depth]
  }

  /** The member that holds the children of a node with `depth` ancestors. */
  function ChildrenAt(depth: nat): string
    requires depth < 3
  {
    ["rooms", "shelves", "items"][depth]
  }

  /** `null` for a warehouse, otherwise the ancestor ids joined by slashes. */
  function ParentKey(chain: seq<string>): Json {
    if chain == [] then JNull else JStr(Join(chain))
  }

  /** `{ ...node, id, _userId, _parentKey }`. */
  function MigratedRecord(chain: seq<string>, id: string, node: Json): Record {
    SpreadOf(node) + map["id" := JStr(id), "_userId" := JStr(LegacyUser), "_parentKey" := ParentKey(chain)]
  }

  /** The loop over the entries of one level; the first error stops it. */
  function MigrateEntries(chain: seq<string>, entries: seq<(string, Json)>): Plan
    requires |chain| < 4
    decreases 4 - |chain|, |entries|
  {
    if entries == [] then Plan([], None)
    else
      var first := MigrateNode(chain, entries[0].0, entries[0].1);
      if first.error.Some? then first
      else
        var rest := MigrateEntries(chain, entries[1..]);
        Plan(first.puts + rest.puts, rest.error)
  }

  /** One node: its own put, then its children when the member is truthy.
      Reading the children of a `null` node throws. */
  function MigrateNode(chain: seq<string>, id: string, node: Json): Plan
    requires |chain| < 4
    decreases 4 - |chain|, 0
  {
    var put := Put(StoreAt(|chain|), chain, id, MigratedRecord(chain, id, node));
    if |chain| == 3 then Plan([put], None)
    else
      match Member(node, ChildrenAt(|chain|))
      case Err(e) => Plan([put], Some(e))
      case Ok(children) =>
        if !Truthy(children) then Plan([put], None)
        else
          var sub := MigrateEntries(chain + [id], Entries(children));
          Plan([put] + sub.puts, sub.error)
  }

  function BucketPut(id: string, item: Json): Put {
    Put("bucket", [], id, MigratedRecord([], id, item))
  }

  function BucketPuts(entries: seq<(string, Json)>): (ps: seq<Put>)
    ensures |ps| == |entries|
    ensures forall i :: 0 <= i < |entries| ==> ps[i] == BucketPut(entries[i].0, entries[i].1)
    decreases |entries|
  {
    if entries == [] then [] else [BucketPut(entries[0].0, entries[0].1)] + BucketPuts(entries[1..])
  }

  /** The whole migration for the parsed legacy tree; `None` when nothing was saved. */
  function MigrationPlan(saved: Option<Json>): Plan {
    if saved.None? then Plan([], None)
    else
      match Member(saved.value, "users")
      case Err(e) => Plan([], Some(e))
      case Ok(users) => UserPlan(Child(users, LegacyUser))
  }

  /** The warehouses of the legacy user, then, unless they threw, the bucket. */
  function UserPlan(user: Json): Plan {
    var first := WarehousesPlan(user);
    if first.error.Some? then first
    else Plan(first.puts + BucketPlan(user), None)
  }

  function WarehousesPlan(user: Json): Plan {
    var warehouses := Child(user, "warehouses");
    if Truthy(warehouses) then MigrateEntries([], Entries(warehouses)) else Plan([], None)
  }

  function BucketPlan(user: Json): seq<Put> {
    var bucket := Child(user, "bucket");
    if Truthy(bucket) then BucketPuts(Entries(bucket)) else []
  }

  // ---------------------------------------------------------------------
  // Applying puts

  /** A migration put on the stores; the key is the record's `id`. */
  function ApplyPut(stores: Stores, p: Put): Stores {
    if p.storeName in stores then stores[p.storeName := stores[p.storeName][p.key := p.rec]] else stores
  }

  /** The puts in order, the last put of a key winning. */
  function ApplyPuts(stores: Stores, puts: seq<Put>): Stores
    decreases |puts|
  {
    if puts == [] then stores
    else ApplyPut(ApplyPuts(stores, puts[..|puts| - 1]), puts[|puts| - 1])
  }

  /** Each put lands in its level's store (or the bucket) keyed by the
      record's own id, with the owner and the joined ancestor chain. */
  predicate Placed(p: Put) {
    && Field(p.rec, "id") == JStr(p.key)
    && Field(p.rec, "_userId") == JStr(LegacyUser)
    && Field(p.rec, "_parentKey") == ParentKey(p.chain)
    && (if p.storeName == "bucket" then p.chain == [] else |p.chain| < 4 && p.storeName == StoreAt(|p.chain|))
  }

  /** A placed put is exactly what `db.put` does, and keeps keys in-line. */
  lemma PutSucceeds(stores: Stores, p: Put)
    requires WellKeyed(stores) && Placed(p)
    ensures PutRecord(stores, p.storeName, p.rec) == Ok(ApplyPut(stores, p))
    ensures WellKeyed(ApplyPut(stores, p))
  {
    assert p.storeName in StoreNames && KeyPathOf(p.storeName) == "id";
    assert KeyOf(p.storeName, p.rec) == Ok(p.key);
  }

  lemma {:induction false} ApplyPutsAppend(stores: Stores, a: seq<Put>, b: seq<Put>)
    ensures ApplyPuts(stores, a + b) == ApplyPuts(ApplyPuts(stores, a), b)
    decreases |b|
  {
    if b == [] {
      assert a + b == a;
    } else {
      var c := a + b;
      assert c[..|c| - 1] == a + b[..|b| - 1];
      assert c[|c| - 1] == b[|b| - 1];
      ApplyPutsAppend(stores, a, b[..|b| - 1]);
    }
  }

  lemma ApplyPutsSnoc(stores: Stores, puts: seq<Put>, i: nat)
    requires i < |puts|
    ensures ApplyPuts(stores, puts[..i + 1]) == ApplyPut(ApplyPuts(stores, puts[..i]), puts[i])
  {
    assert puts[..i + 1][..i] == puts[..i];
  }

  lemma ApplyPutsOne(stores: Stores, p: Put)
    ensures ApplyPuts(stores, [p]) == ApplyPut(stores, p)
  {
    assert [p][..0] == [];
  }

  lemma {:induction false} ApplyPutsKeys(stores: Stores, puts: seq<Put>)
    ensures ApplyPuts(stores, puts).Keys == stores.Keys
    decreases |puts|
  {
    if puts != [] {
      ApplyPutsKeys(stores, puts[..|puts| - 1]);
    }
  }

  /** `s` with the records of `e` written over it, store by store. */
  function Overlay(s: Stores, e: Stores): Stores {
    map n | n in s :: s[n] + (if n in e then e[n] else map[])
  }

  /** The same stores, all empty. */
  function Blank(s: Stores): Stores {
    map n | n in s :: map[]
  }

  /** The effect of a put sequence does not depend on what was there before:
      it overlays the records the puts would leave in empty stores. */
  lemma {:induction false} ApplyIsOverlay(s: Stores, puts: seq<Put>)
    ensures ApplyPuts(s, puts) == Overlay(s, ApplyPuts(Blank(s), puts))
    decreases |puts|
  {
    if puts == [] {
      forall n | n in s ensures Overlay(s, Blank(s))[n] == s[n] {
        assert s[n] + map[] == s[n];
      }
    } else {
      var init := puts[..|puts| - 1];
      ApplyIsOverlay(s, init);
      ApplyPutsKeys(Blank(s), init);
      PutOverlay(s, ApplyPuts(Blank(s), init), puts[|puts| - 1]);
    }
  }

  /** A put after an overlay is a put into the overlaid records. */
  lemma PutOverlay(s: Stores, e: Stores, p: Put)
    requires e.Keys == s.Keys
    ensures ApplyPut(Overlay(s, e), p) == Overlay(s, ApplyPut(e, p))
  {
    var o := Overlay(s, e);
    var e' := ApplyPut(e, p);
    var lhs := ApplyPut(o, p);
    var rhs := Overlay(s, e');
    if p.storeName in s {
      var n := p.storeName;
      RecordsOverlayPut(s[n], e[n], p.key, p.rec);
      assert lhs == o[n := o[n][p.key := p.rec]];
      assert e' == e[n := e[n][p.key := p.rec]];
      forall m | m in s ensures lhs[m] == rhs[m] {
        if m != n {
          assert lhs[m] == o[m] == s[m] + e[m];
          assert e'[m] == e[m];
        }
      }
      assert lhs.Keys == rhs.Keys;
    } else {
      assert lhs == o && e' == e;
    }
  }

  lemma RecordsOverlayPut(a: Store, b: Store, k: string, r: Record)
    ensures (a + b)[k := r] == a + b[k := r]
  {
  }

  /** Running the migration's puts a second time changes nothing. */
  lemma ApplyPutsIdempotent(s: Stores, puts: seq<Put>)
    ensures ApplyPuts(ApplyPuts(s, puts), puts) == ApplyPuts(s, puts)
  {
    var e := ApplyPuts(Blank(s), puts);
    ApplyIsOverlay(s, puts);
    var t := Overlay(s, e);
    ApplyIsOverlay(t, puts);
    assert Blank(t) == Blank(s);
    forall n | n in t ensures t[n] + (if n in e then e[n] else map[]) == t[n] {
    }
    assert Overlay(t, e) == t;
  }

  /** Migrating the saved tree twice leaves the stores as migrating it once. */
  lemma MigrationIdempotent(stores: Stores, saved: Option<Json>)
    ensures var puts := MigrationPlan(saved).puts;
      ApplyPuts(ApplyPuts(stores, puts), puts) == ApplyPuts(stores, puts)
  {
    ApplyPutsIdempotent(stores, MigrationPlan(saved).puts);
  }

  // ---------------------------------------------------------------------
  // Placement

  predicate IsPrefix(a: seq<string>, b: seq<string>) {
    |a| <= |b| && b[..|a|] == a
  }

  lemma MigratedRecordPlaced(chain: seq<string>, id: string, node: Json)
    requires |chain| < 4
    ensures Placed(Put(StoreAt(|chain|), chain, id, MigratedRecord(chain, id, node)))
  {
  }

  /** Every put of a level lands at or below that level, placed. */
  lemma {:induction false} EntriesPlaced(chain: seq<string>, entries: seq<(string, Json)>)
    requires |chain| < 4
    ensures forall p :: p in MigrateEntries(chain, entries).puts ==> Placed(p) && IsPrefix(chain, p.chain)
    decreases 4 - |chain|, |entries| + 2
  {
    if entries != [] {
      NodePlaced(chain, entries[0].0, entries[0].1);
      if MigrateNode(chain, entries[0].0, entries[0].1).error.None? {
        EntriesPlaced(chain, entries[1..]);
      }
    }
  }

  lemma {:induction false} NodePlaced(chain: seq<string>, id: string, node: Json)
    requires |chain| < 4
    ensures forall p :: p in MigrateNode(chain, id, node).puts ==> Placed(p) && IsPrefix(chain, p.chain)
    decreases 4 - |chain|, 1
  {
    var put := Put(StoreAt(|chain|), chain, id, MigratedRecord(chain, id, node));
    MigratedRecordPlaced(chain, id, node);
    assert IsPrefix(chain, put.chain);
    if |chain| < 3 && Member(node, ChildrenAt(|chain|)).Ok? && Truthy(Member(node, ChildrenAt(|chain|)).value) {
      ChildrenPlaced(chain, id, node, Member(node, ChildrenAt(|chain|)).value);
    } else {
      assert MigrateNode(chain, id, node).puts == [put];
    }
  }

  /** A node with children: its own put, then its children's, each placed
      below it. */
  lemma {:induction false} ChildrenPlaced(chain: seq<string>, id: string, node: Json, children: Json)
    requires |chain| < 3 && Member(node, ChildrenAt(|chain|)) == Ok(children) && Truthy(children)
    ensures forall p :: p in MigrateNode(chain, id, node).puts ==> Placed(p) && IsPrefix(chain, p.chain)
    decreases 4 - |chain|, 0
  {
    var put := Put(StoreAt(|chain|), chain, id, MigratedRecord(chain, id, node));
    MigratedRecordPlaced(chain, id, node);
    var sub := chain + [id];
    var subPlan := MigrateEntries(sub, Entries(children));
    var puts := [put] + subPlan.puts;
    assert MigrateNode(chain, id, node).puts == puts;
    EntriesPlaced(sub, Entries(children));
    assert IsPrefix(chain, sub);
    forall p | p in puts ensures Placed(p) && IsPrefix(chain, p.chain) {
      if p != put {
        assert p in subPlan.puts;
        PrefixTransitive(chain, sub, p.chain);
      }
    }
  }

  lemma PrefixTransitive(a: seq<string>, b: seq<string>, c: seq<string>)
    requires IsPrefix(a, b) && IsPrefix(b, c)
    ensures IsPrefix(a, c)
  {
    assert c[..|a|] == c[..|b|][..|a|];
  }

  /** Every put of the migration is placed. */
  lemma MigrationPlaced(saved: Option<Json>)
    ensures forall p :: p in MigrationPlan(saved).puts ==> Placed(p)
  {
    if saved.Some? && Member(saved.value, "users").Ok? {
      var user := Child(Member(saved.value, "users").value, LegacyUser);
      var warehouses := Child(user, "warehouses");
      if Truthy(warehouses) {
        EntriesPlaced([], Entries(warehouses));
      }
      BucketPlaced(user);
    }
  }

  lemma BucketPlaced(user: Json)
    ensures forall p :: p in BucketPlan(user) ==> Placed(p)
  {
    var bucket := Child(user, "bucket");
    if Truthy(bucket) {
      var entries := Entries(bucket);
      var puts := BucketPuts(entries);
      assert BucketPlan(user) == puts;
      forall p | p in puts ensures Placed(p) {
        var i :| 0 <= i < |puts| && puts[i] == p;
        assert p == BucketPut(entries[i].0, entries[i].1);
        BucketPutPlaced(entries[i].0, entries[i].1);
      }
    }
  }

  lemma BucketPutPlaced(id: string, item: Json)
    ensures Placed(BucketPut(id, item))
  {
    var r := MigratedRecord([], id, item);
    assert r["id"] == JStr(id) && r["_userId"] == JStr(LegacyUser) && r["_parentKey"] == JNull;
  }

  /** The collection the app reads a migrated record from. */
  function ChainLocation(p: Put): Location
    requires Placed(p) && p.storeName != "bucket"
  {
    var c := p.chain;
    if |c| == 0 then WarehousesOf(LegacyUser)
    else if |c| == 1 then RoomsOf(LegacyUser, c[0])
    else if |c| == 2 then ShelvesOf(LegacyUser, c[0], c[1])
    else ItemsOf(LegacyUser, c[0], c[1], c[2])
  }

  /** Migrated records are found by the app: listing the collection of the
      record's ancestors reads the record's store, and the record passes its
      owner and parent filters. */
  lemma MigratedVisible(p: Put)
    requires Placed(p)
    requires forall i :: 0 <= i < |p.chain| ==> PlainId(p.chain[i])
    ensures p.storeName == "bucket" ==>
      var q := ParseCollectionPath(LocationPath(BucketOf(LegacyUser)));
      q.storeName == "bucket" && Matches(p.rec, q)
    ensures p.storeName != "bucket" ==>
      var q := ParseCollectionPath(LocationPath(ChainLocation(p)));
      q.storeName == p.storeName && Matches(p.rec, q)
  {
    assert PlainId(LegacyUser);
    if p.storeName == "bucket" {
      ParseLocation(BucketOf(LegacyUser));
    } else {
      var c := p.chain;
      if |c| >= 1 { assert PlainId(c[0]); }
      if |c| >= 2 { assert PlainId(c[1]); }
      if |c| == 2 { assert Join(c) == c[0] + "/" + c[1]; }
      if |c| == 3 {
        assert PlainId(c[2]);
        assert Join(c[1..]) == c[1] + "/" + c[2];
        assert Join(c) == c[0] + "/" + c[1] + "/" + c[2];
      }
      ParseLocation(ChainLocation(p));
    }
  }

  // ---------------------------------------------------------------------
  // The migration as it runs against the database handle

  /** `for (const [id, node] of Object.entries(...))` at one level. */
  method MigrateLevel(db: Database, chain: seq<string>, entries: seq<(string, Json)>) returns (error: Option<Error>)
    requires |chain| < 4 && db.Valid()
    modifies db
    ensures db.Valid()
    ensures db.stores == ApplyPuts(old(db.stores), MigrateEntries(chain, entries).puts)
    ensures error == MigrateEntries(chain, entries).error
    decreases 4 - |chain|, 1
  {
    var i := 0;
    while i < |entries|
      invariant 0 <= i <= |entries| && db.Valid()
      invariant MigrateEntries(chain, entries[i..]).error == MigrateEntries(chain, entries).error
      invariant ApplyPuts(db.stores, MigrateEntries(chain, entries[i..]).puts)
             == ApplyPuts(old(db.stores), MigrateEntries(chain, entries).puts)
    {
      var (id, node) := entries[i];
      ghost var before := db.stores;
      assert entries[i..][0] == entries[i] && entries[i..][1..] == entries[i + 1..];
      error := MigrateOne(db, chain, id, node);
      if error.Some? {
        return;
      }
      ApplyPutsAppend(before, MigrateNode(chain, id, node).puts, MigrateEntries(chain, entries[i + 1..]).puts);
      i := i + 1;
    }
    assert entries[i..] == [];
    error := None;
  }

  /** One entry: its put, then the loop over its children. */
  method MigrateOne(db: Database, chain: seq<string>, id: string, node: Json) returns (error: Option<Error>)
    requires |chain| < 4 && db.Valid()
    modifies db
    ensures db.Valid()
    ensures db.stores == ApplyPuts(old(db.stores), MigrateNode(chain, id, node).puts)
    ensures error == MigrateNode(chain, id, node).error
    decreases 4 - |chain|, 0
  {
    var put := Put(StoreAt(|chain|), chain, id, MigratedRecord(chain, id, node));
    MigratedRecordPlaced(chain, id, node);
    PutSucceeds(db.stores, put);
    ApplyPutsOne(db.stores, put);
    var r := db.Put(put.storeName, put.rec);
    if |chain| == 3 {
      return None;
    }
    var children := Member(node, ChildrenAt(|chain|));
    if children.Err? {
      return Some(children.error);
    }
    if !Truthy(children.value) {
      return None;
    }
    error := MigrateLevel(db, chain + [id], Entries(children.value));
    ApplyPutsAppend(old(db.stores), [put], MigrateEntries(chain + [id], Entries(children.value)).puts);
  }

  /** `migrateFromLocalStorage()` on the parsed legacy tree. */
  method Migrate(db: Database, saved: Option<Json>) returns (error: Option<Error>)
    requires db.Valid()
    modifies db
    ensures db.Valid()
    ensures db.stores == ApplyPuts(old(db.stores), MigrationPlan(saved).puts)
    ensures error == MigrationPlan(saved).error
  {
    if saved.None? {
      return None;
    }
    var users := Member(saved.value, "users");
    if users.Err? {
      return Some(users.error);
    }
    var user := Child(users.value, LegacyUser);
    assert MigrationPlan(saved) == UserPlan(user);
    var warehouses := Child(user, "warehouses");
    if Truthy(warehouses) {
      error := MigrateLevel(db, [], Entries(warehouses));
      if error.Some? {
        return;
      }
    }
    MigrateBucket(db, user);
    ApplyPutsAppend(old(db.stores), WarehousesPlan(user).puts, BucketPlan(user));
    error := None;
  }

  /** The loop over the legacy bucket. */
  method MigrateBucket(db: Database, user: Json)
    requires db.Valid()
    modifies db
    ensures db.Valid()
    ensures db.stores == ApplyPuts(old(db.stores), BucketPlan(user))
  {
    var bucket := Child(user, "bucket");
    if !Truthy(bucket) {
      return;
    }
    var entries := Entries(bucket);
    ghost var puts := BucketPuts(entries);
    var i := 0;
    while i < |entries|
      invariant 0 <= i <= |entries| && db.Valid()
      invariant db.stores == ApplyPuts(old(db.stores), puts[..i])
    {
      var (id, item) := entries[i];
      assert BucketPut(id, item) == puts[i];
      PutBucketEntry(db, id, item);
      ApplyPutsSnoc(old(db.stores), puts, i);
      i := i + 1;
    }
    assert puts[..i] == puts;
  }

  /** One iteration of the bucket loop: `db.put('bucket', record)`. */
  method PutBucketEntry(db: Database, id: string, item: Json)
    requires db.Valid()
    modifies db
    ensures db.Valid()
    ensures db.stores == ApplyPut(old(db.stores), BucketPut(id, item))
  {
    var put := BucketPut(id, item);
    BucketPutPlaced(id, item);
    PutSucceeds(db.stores, put);
    var r := db.Put("bucket", put.rec);
  }
}
