/** The inventory screen's data flows over the IndexedDB document store:
    creating and deleting containers along the current selection, the
    cascading delete, moving a container, saving an item, and moving items
    through the holding bucket. */
module Inventory {
  import opened Json
  import opened Paths
  import opened KeyOrder
  import opened PathCodec
  import opened FlatStore

  /** The ids picked in the warehouse, room and container columns; `null`
      until one is picked. */
  datatype Selection = Selection(warehouse: Option<string>, room: Option<string>, shelf: Option<string>)

  /** The ids of a selection can be embedded in a path. */
  predicate PlainSelection(userId: string, sel: Selection) {
    && PlainId(userId)
    && (sel.warehouse.Some? ==> PlainId(sel.warehouse.value))
    && (sel.room.Some? ==> PlainId(sel.room.value))
  }

  // ---------------------------------------------------------------------
  // createEntity

  /** The collection `createEntity(type)` adds to on submit, or `None` when
      it returns without opening the dialog. A room needs a selected
      warehouse and a container a selected room; the container path takes
      the warehouse id as it stands, `null` included. An unknown type leaves
      the path `undefined`. */
  function CreateTarget(kind: string, userId: string, sel: Selection): Option<PathValue> {
    if kind == "warehouse" then Some(Text(LocationPath(WarehousesOf(userId))))
    else if kind == "room" then
      if !Present(sel.warehouse) then None
      else Some(Text(LocationPath(RoomsOf(userId, sel.warehouse.value))))
    else if kind == "shelf" then
      if !Present(sel.room) then None
      else Some(Text(LocationPath(ShelvesOf(userId, IdText(sel.warehouse), sel.room.value))))
    else Some(Undefined)
  }

  /** The data the dialog submits for a new entity. */
  function NewEntity(name: string, now: string): Record {
    map["name" := JStr(name), "createdAt" := JStr(now)]
  }

  /** The dialog's submit: `addDoc(collection(path), { name, createdAt })`. */
  function CreateResult(stores: Stores, target: PathValue, name: string, id: string, now: string): Result<Stores> {
    AddDocResult(stores, Collection(target), NewEntity(name, now), id, now)
  }

  /** The dialog opens unless a room is asked for with no warehouse
      selected or a container with no room selected; for an unknown type
      its submit rejects and writes nothing. */
  lemma CreateGuards(kind: string, userId: string, sel: Selection, stores: Stores, name: string, id: string, now: string)
    ensures CreateTarget(kind, userId, sel).None?
        <==> (kind == "room" && !Present(sel.warehouse)) || (kind == "shelf" && !Present(sel.room))
    ensures kind != "warehouse" && kind != "room" && kind != "shelf" ==>
      CreateTarget(kind, userId, sel) == Some(Undefined)
      && CreateResult(stores, Undefined, name, id, now) == Err(TypeError)
  {
  }

  /** The collection a created entity joins. */
  function CreatedIn(kind: string, userId: string, sel: Selection): Location
    requires kind == "warehouse" || (kind == "room" && sel.warehouse.Some?) || (kind == "shelf" && sel.room.Some?)
  {
    if kind == "warehouse" then WarehousesOf(userId)
    else if kind == "room" then RoomsOf(userId, sel.warehouse.value)
    else ShelvesOf(userId, IdText(sel.warehouse), sel.room.value)
  }

  /** A created warehouse, room or container is stored in its kind's store
      under the fresh id, chained to the selection, and from then on listed
      by the column that shows that collection. */
  lemma CreatedUnderSelection(stores: Stores, kind: string, userId: string, sel: Selection, name: string, id: string, now: string)
    requires WellKeyed(stores) && PlainSelection(userId, sel)
    requires CreateTarget(kind, userId, sel).Some? && CreateTarget(kind, userId, sel) != Some(Undefined)
    ensures kind == "warehouse" || (kind == "room" && sel.warehouse.Some?) || (kind == "shelf" && sel.room.Some?)
    ensures var loc := CreatedIn(kind, userId, sel); var p := Addressed(loc);
      var r := CreateResult(stores, CreateTarget(kind, userId, sel).value, name, id, now);
      && CreateTarget(kind, userId, sel) == Some(Text(LocationPath(loc)))
      && p.storeName == (if kind == "warehouse" then "warehouses" else if kind == "room" then "rooms" else "shelves")
      && (r.Ok? <==> id !in stores[p.storeName])
      && (r.Ok? ==>
            && r.value == stores[p.storeName := stores[p.storeName][id := DocData(p, NewEntity(name, now), id, now)]]
            && forall k :: k in ListedKeys(r.value[p.storeName], p) <==> k == id || k in ListedKeys(stores[p.storeName], p))
  {
    var loc := CreatedIn(kind, userId, sel);
    assert WellFormed(loc) by {
      if kind == "shelf" && sel.warehouse.None? { assert IdText(sel.warehouse) == "null"; assert '/' !in "null"; }
    }
    assert CreateTarget(kind, userId, sel) == Some(Text(LocationPath(loc)));
    CreatedAt(stores, loc, name, id, now);
  }

  /** Submitting a new entity to a collection stores it under the fresh id,
      changes no other record of any store, and adds the id to that
      collection's listing; a taken id rejects. */
  lemma CreatedAt(stores: Stores, loc: Location, name: string, id: string, now: string)
    requires WellKeyed(stores) && WellFormed(loc)
    ensures var p := Addressed(loc);
      var r := CreateResult(stores, Text(LocationPath(loc)), name, id, now);
      && (r.Ok? <==> id !in stores[p.storeName])
      && (r.Ok? ==>
            && r.value == stores[p.storeName := stores[p.storeName][id := DocData(p, NewEntity(name, now), id, now)]]
            && forall k :: k in ListedKeys(r.value[p.storeName], p) <==> k == id || k in ListedKeys(stores[p.storeName], p))
  {
    ParseLocation(loc);
    AddDocInsertsOne(stores, LocationPath(loc), NewEntity(name, now), id, now);
    if CreateResult(stores, Text(LocationPath(loc)), name, id, now).Ok? {
      AddThenList(stores, LocationPath(loc), NewEntity(name, now), id, now);
    }
  }

  // ---------------------------------------------------------------------
  // handleDelete

  /** The document `handleDelete(type, entity)` deletes, or `None` for an
      unknown type, which does nothing. Rooms and containers are addressed
      through the current selection. */
  function DeletePath(kind: string, userId: string, sel: Selection, entityId: string): Option<string> {
    if kind == "warehouse" then Some(Join(["users", userId, "warehouses", entityId]))
    else if kind == "room" then
      Some(Join(["users", userId, "warehouses", IdText(sel.warehouse), "rooms", entityId]))
    else if kind == "shelf" then
      Some(Join(["users", userId, "warehouses", IdText(sel.warehouse), "rooms", IdText(sel.room), "shelves", entityId]))
    else None
  }

  /** The selection after a successful delete: a column's selection is
      cleared when it was the deleted entity. */
  function ClearSelection(kind: string, sel: Selection, entityId: string): Selection {
    Selection(
      if kind == "warehouse" && sel.warehouse == Some(entityId) then None else sel.warehouse,
      if kind == "room" && sel.room == Some(entityId) then None else sel.room,
      if kind == "shelf" && sel.shelf == Some(entityId) then None else sel.shelf)
  }

  /** The document `handleDelete` deletes is the entity's record in its
      kind's store, under the selected ancestors. */
  lemma DeletePathTarget(kind: string, userId: string, sel: Selection, entityId: string)
    requires kind == "warehouse" || kind == "room" || kind == "shelf"
    requires PlainId(userId) && PlainId(IdText(sel.warehouse)) && PlainId(IdText(sel.room))
    requires Plain(entityId) && entityId != ""
    ensures DeletePath(kind, userId, sel, entityId).Some?
    ensures DocTarget(Doc(Text(DeletePath(kind, userId, sel, entityId).value), None))
         == Ok(Target(if kind == "warehouse" then "warehouses" else if kind == "room" then "rooms" else "shelves", entityId))
  {
    var loc := if kind == "warehouse" then WarehousesOf(userId)
      else if kind == "room" then RoomsOf(userId, IdText(sel.warehouse))
      else ShelvesOf(userId, IdText(sel.warehouse), IdText(sel.room));
    JoinAppend(LocationParts(loc), entityId);
    if kind == "warehouse" {
      assert LocationParts(loc) + [entityId] == ["users", userId, "warehouses", entityId];
    } else if kind == "room" {
      assert LocationParts(loc) + [entityId] == ["users", userId, "warehouses", IdText(sel.warehouse), "rooms", entityId];
    } else {
      assert LocationParts(loc) + [entityId]
          == ["users", userId, "warehouses", IdText(sel.warehouse), "rooms", IdText(sel.room), "shelves", entityId];
    }
    LocationDocTarget(loc, entityId);
  }

  /** A selection changes only by being cleared, only when it named the
      deleted entity of its own kind, and never still names the deleted
      entity afterwards. */
  lemma ClearSelectionOnlyDeleted(kind: string, sel: Selection, entityId: string)
    ensures var s := ClearSelection(kind, sel, entityId);
      && (s.warehouse != sel.warehouse ==> s.warehouse.None? && kind == "warehouse" && sel.warehouse == Some(entityId))
      && (s.room != sel.room ==> s.room.None? && kind == "room" && sel.room == Some(entityId))
      && (s.shelf != sel.shelf ==> s.shelf.None? && kind == "shelf" && sel.shelf == Some(entityId))
      && (kind == "warehouse" ==> s.warehouse != Some(entityId))
      && (kind == "room" ==> s.room != Some(entityId))
      && (kind == "shelf" ==> s.shelf != Some(entityId))
  {
  }

  // ---------------------------------------------------------------------
  // recursiveDelete

  /** A child lookup `getDocs(collection(docRef, name))` mapped to the
      documents' references: `None` when the lookup rejects. */
  type Lister = (Ref, string) -> Option<seq<Ref>>

  /** A lookup's children; `.catch(() => [])` turns a rejection into none. */
  function Listed(list: Lister, r: Ref, name: string): seq<Ref> {
    if list(r, name).Some? then list(r, name).value else []
  }

  /** The children of a document: the `items`, `shelves` and `rooms`
      lookups, in that order. */
  function Children(list: Lister, r: Ref): seq<Ref> {
    Listed(list, r, "items") + Listed(list, r, "shelves") + Listed(list, r, "rooms")
  }

  /** Every listed child ranks below its parent, so the descent ends. */
  ghost predicate Ranked(list: Lister, rank: Ref -> nat) {
    forall r, name, c :: list(r, name).Some? && c in list(r, name).value ==> rank(c) < rank(r)
  }

  /** The deletes `recursiveDelete(root)` issues: each child's subtree in
      turn, then the root. */
  function DeletionOrder(list: Lister, rank: Ref -> nat, root: Ref): seq<Ref>
    requires Ranked(list, rank)
    decreases rank(root), |Children(list, root)| + 1
  {
    DeleteForest(list, rank, Children(list, root), rank(root)) + [root]
  }

  function DeleteForest(list: Lister, rank: Ref -> nat, cs: seq<Ref>, bound: nat): seq<Ref>
    requires Ranked(list, rank)
    requires forall c :: c in cs ==> rank(c) < bound
    decreases bound, |cs|
  {
    if cs == [] then [] else DeletionOrder(list, rank, cs[0]) + DeleteForest(list, rank, cs[1..], bound)
  }

  /** No document is deleted before one of its children. */
  predicate PostOrder(list: Lister, order: seq<Ref>) {
    forall i, c :: 0 <= i < |order| && c in Children(list, order[i]) ==> c in order[..i]
  }

  lemma PostOrderConcat(list: Lister, a: seq<Ref>, b: seq<Ref>)
    requires PostOrder(list, a) && PostOrder(list, b)
    ensures PostOrder(list, a + b)
  {
    forall i, c | 0 <= i < |a + b| && c in Children(list, (a + b)[i]) ensures c in (a + b)[..i] {
      if i < |a| {
        assert (a + b)[i] == a[i];
        assert (a + b)[..i] == a[..i];
      } else {
        var j := i - |a|;
        assert (a + b)[i] == b[j];
        assert c in b[..j];
        assert (a + b)[..i] == a + b[..j];
      }
    }
  }

  /** The cascade is post-order: every document's children are deleted
      before it, the root comes last, and everything before the root is a
      strict descendant of it. */
  lemma {:induction false} DeletionIsPostOrder(list: Lister, rank: Ref -> nat, root: Ref)
    requires Ranked(list, rank)
    ensures var order := DeletionOrder(list, rank, root);
      && PostOrder(list, order)
      && order[|order| - 1] == root
      && (forall c :: c in Children(list, root) ==> c in order[..|order| - 1])
      && (forall i :: 0 <= i < |order| - 1 ==> rank(order[i]) < rank(root))
    decreases rank(root), |Children(list, root)| + 1
  {
    var cs := Children(list, root);
    var f := DeleteForest(list, rank, cs, rank(root));
    ForestIsPostOrder(list, rank, cs, rank(root));
    var order := f + [root];
    assert order[..|order| - 1] == f;
    forall i, c | 0 <= i < |order| && c in Children(list, order[i]) ensures c in order[..i] {
      if i < |f| {
        assert order[i] == f[i];
        assert order[..i] == f[..i];
      }
    }
    forall i | 0 <= i < |order| - 1 ensures rank(order[i]) < rank(root) {
      assert order[i] == f[i];
    }
  }

  lemma {:induction false} ForestIsPostOrder(list: Lister, rank: Ref -> nat, cs: seq<Ref>, bound: nat)
    requires Ranked(list, rank)
    requires forall c :: c in cs ==> rank(c) < bound
    ensures var f := DeleteForest(list, rank, cs, bound);
      && PostOrder(list, f)
      && (forall c :: c in cs ==> c in f)
      && (forall x :: x in f ==> rank(x) < bound)
    decreases bound, |cs|
  {
    if cs != [] {
      var first := DeletionOrder(list, rank, cs[0]);
      var rest := DeleteForest(list, rank, cs[1..], bound);
      DeletionIsPostOrder(list, rank, cs[0]);
      ForestIsPostOrder(list, rank, cs[1..], bound);
      PostOrderConcat(list, first, rest);
      assert first[|first| - 1] == cs[0];
      forall x | x in first ensures rank(x) < bound {
        var i :| 0 <= i < |first| && first[i] == x;
        if i < |first| - 1 { assert rank(first[i]) < rank(cs[0]); }
      }
      forall c | c in cs ensures c in first + rest {
        if c != cs[0] { assert c in cs[1..]; }
      }
    }
  }

  /** `recursiveDelete(root)`: looks up the children, deletes each child's
      subtree in turn and then the root; a rejected delete aborts the rest
      and leaves the deletes before it applied. */
  method RecursiveDelete(db: Database, list: Lister, rank: Ref -> nat, root: Ref) returns (error: Option<Error>)
    requires db.Valid() && Ranked(list, rank)
    modifies db
    ensures db.Valid()
    ensures Outcome(db.stores, error) == ApplyDeletes(old(db.stores), DeletionOrder(list, rank, root))
    decreases rank(root), |Children(list, root)| + 1
  {
    var subcollections := Listed(list, root, "items");
    subcollections := subcollections + Listed(list, root, "shelves");
    subcollections := subcollections + Listed(list, root, "rooms");
    assert subcollections == Children(list, root);
    ghost var start := db.stores;
    var i := 0;
    while i < |subcollections|
      invariant 0 <= i <= |subcollections|
      invariant db.Valid()
      invariant ApplyDeletes(start, DeletionOrder(list, rank, root))
             == ApplyDeletes(db.stores, DeleteForest(list, rank, subcollections[i..], rank(root)) + [root])
    {
      var child := subcollections[i];
      ghost var before := db.stores;
      ghost var rest := DeleteForest(list, rank, subcollections[i + 1..], rank(root)) + [root];
      ForestStep(list, rank, root, subcollections, i);
      ApplyDeletesAppend(before, DeletionOrder(list, rank, child), rest);
      var e := RecursiveDelete(db, list, rank, child);
      if e.Some? {
        return e;
      }
      i := i + 1;
    }
    assert subcollections[i..] == [];
    var r := db.DeleteDoc(root);
    if r.Err? {
      return Some(r.error);
    }
    error := None;
  }

  /** The deletes that remain from child `i` on: that child's subtree,
      then the ones after it, then the root. */
  lemma ForestStep(list: Lister, rank: Ref -> nat, root: Ref, cs: seq<Ref>, i: nat)
    requires Ranked(list, rank) && cs == Children(list, root) && i < |cs|
    ensures rank(cs[i]) < rank(root)
    ensures DeleteForest(list, rank, cs[i..], rank(root)) + [root]
         == DeletionOrder(list, rank, cs[i]) + (DeleteForest(list, rank, cs[i + 1..], rank(root)) + [root])
  {
    var c := cs[i];
    assert c in Listed(list, root, "items") || c in Listed(list, root, "shelves") || c in Listed(list, root, "rooms");
    if c in Listed(list, root, "items") {
      ListedRanked(list, rank, root, "items", c);
    } else if c in Listed(list, root, "shelves") {
      ListedRanked(list, rank, root, "shelves", c);
    } else {
      ListedRanked(list, rank, root, "rooms", c);
    }
    assert cs[i..][0] == c && cs[i..][1..] == cs[i + 1..];
  }

  lemma ListedRanked(list: Lister, rank: Ref -> nat, r: Ref, name: string, c: Ref)
    requires Ranked(list, rank) && c in Listed(list, r, name)
    ensures rank(c) < rank(r)
  {
  }

  /** A lookup as `recursiveDelete` writes it: `collection(docRef, name)`
      keeps the reference object itself as the path, so `getDocs` throws on
      `.split`. Were it to succeed, `d.ref` would be `undefined`, modelled
      as a reference without a path. */
  function AsWrittenLister(stores: Stores): Lister {
    (r: Ref, name: string) =>
      match GetDocsResult(stores, Collection(NestedRef(r)))
      case Err(_) => None
      case Ok(docs) => Some(UndefinedRefs(docs))
  }

  /** `snap.docs.map(d => d.ref)` on snapshots that carry no `ref`. */
  function UndefinedRefs(docs: seq<DocSnapshot>): seq<Ref>
    decreases |docs|
  {
    if docs == [] then [] else [Ref(Undefined, DocumentRef)] + UndefinedRefs(docs[1..])
  }

  /** Every lookup of the as-written cascade rejects, so it deletes the
      root alone, whatever the ranking. */
  lemma AsWrittenDeletesOnlyRoot(stores: Stores, rank: Ref -> nat, root: Ref)
    ensures Ranked(AsWrittenLister(stores), rank)
    ensures forall r, name :: AsWrittenLister(stores)(r, name).None?
    ensures DeletionOrder(AsWrittenLister(stores), rank, root) == [root]
  {
    var list := AsWrittenLister(stores);
    forall r, name ensures list(r, name).None? {
      assert PathText(Collection(NestedRef(r))).Err?;
    }
    assert Children(list, root) == [];
  }

  /** The child collection of a document path: rooms under a warehouse,
      containers under a room, items under a container. */
  function ChildCollection(parts: seq<string>): Option<string> {
    if |parts| == 4 && parts[2] == "warehouses" then Some("rooms")
    else if |parts| == 6 && parts[4] == "rooms" then Some("shelves")
    else if |parts| == 8 && parts[6] == "shelves" then Some("items")
    else None
  }

  /** References to the documents `keys` of the collection `path`. */
  function KeyRefs(path: string, keys: seq<string>): seq<Ref> {
    seq(|keys|, i requires 0 <= i < |keys| => Doc(Text(path), Some(keys[i])))
  }

  /** The intended lookup: `getDocs` on the document's own child
      collection `${path}/${name}`, listing the documents' references; the
      other names list nothing. */
  function ContainedRefs(stores: Stores, r: Ref, name: string): Option<seq<Ref>> {
    if !r.path.Text? then None
    else if ChildCollection(Split(r.path.s)) != Some(name) then Some([])
    else
      var path := r.path.s + "/" + name;
      var p := ParseCollectionPath(path);
      if p.storeName !in stores then None
      else Some(KeyRefs(path, ListedKeys(stores[p.storeName], p)))
  }

  /** Every reference an intended lookup lists is `doc(childPath, k)` for a
      key `k` that `getDocs` lists in the child collection, and for a plain,
      non-empty key it addresses that record. */
  lemma ContainedChild(stores: Stores, r: Ref, name: string, c: Ref) returns (k: string)
    requires ContainedRefs(stores, r, name).Some? && c in ContainedRefs(stores, r, name).value
    ensures r.path.Text? && ChildCollection(Split(r.path.s)) == Some(name)
    ensures var path := r.path.s + "/" + name; var p := ParseCollectionPath(path);
      && p.storeName in stores && k in stores[p.storeName] && Matches(stores[p.storeName][k], p)
      && c == Doc(Text(path), Some(k))
      && (Plain(k) && k != "" ==> DocTarget(c) == Ok(Target(p.storeName, k)))
  {
    var path := r.path.s + "/" + name;
    var p := ParseCollectionPath(path);
    var keys := ListedKeys(stores[p.storeName], p);
    var refs := KeyRefs(path, keys);
    assert ContainedRefs(stores, r, name).value == refs;
    var i :| 0 <= i < |refs| && refs[i] == c;
    k := keys[i];
    ListedIff(stores[p.storeName], p, k);
    if Plain(k) && k != "" {
      DocAddressesKey(path, k);
    }
  }

  function ContainedLister(stores: Stores): Lister {
    (r: Ref, name: string) => ContainedRefs(stores, r, name)
  }

  /** Deeper documents have longer paths; a container's items are the leaves. */
  function DepthRank(r: Ref): nat {
    if r.path.Text? then 10 - Min(|Split(r.path.s)|, 10) else 0
  }

  /** Descending to a child collection lengthens the path by two segments. */
  lemma ContainedRanked(stores: Stores)
    ensures Ranked(ContainedLister(stores), DepthRank)
  {
    var list := ContainedLister(stores);
    forall r, name, c | list(r, name).Some? && c in list(r, name).value ensures DepthRank(c) < DepthRank(r) {
      ContainedDeeper(stores, r, name, c);
    }
  }

  /** A listed child's path has more segments than its parent's, or a
      parent path of at least ten segments lists nothing. */
  lemma ContainedDeeper(stores: Stores, r: Ref, name: string, c: Ref)
    requires ContainedRefs(stores, r, name).Some? && c in ContainedRefs(stores, r, name).value
    ensures DepthRank(c) < DepthRank(r)
  {
    if ChildCollection(Split(r.path.s)) == Some(name) {
      var n := |Split(r.path.s)|;
      assert n <= 8;
      var path := r.path.s + "/" + name;
      var p := ParseCollectionPath(path);
      var keys := ListedKeys(stores[p.storeName], p);
      var refs := KeyRefs(path, keys);
      assert ContainedRefs(stores, r, name).value == refs;
      var i :| 0 <= i < |refs| && refs[i] == c;
      SplitConcat(r.path.s, name);
      assert |Split(path)| > n;
      KeyRefDeeper(path, keys[i], c);
      assert DepthRank(r) == 10 - n;
    }
  }

  /** The reference to a document of a collection has at least as many
      segments as the collection's path. */
  lemma KeyRefDeeper(path: string, key: string, c: Ref)
    requires c == Doc(Text(path), Some(key))
    ensures c.path.Text? && |Split(c.path.s)| >= |Split(path)|
  {
    if Present(Some(key)) {
      assert c.path == Text(path + "/" + key);
      SplitConcat(path, key);
    }
  }

  /** The deletes of the cascade with the intended lookups on `stores`. */
  function CascadeOrder(stores: Stores, root: Ref): seq<Ref> {
    ContainedRanked(stores);
    DeletionOrder(ContainedLister(stores), DepthRank, root)
  }

  /** The path of a warehouse document. */
  function WarehouseDoc(userId: string, warehouse: string): string {
    Join(["users", userId, "warehouses", warehouse])
  }

  /** A document of a location addressed by a plain, non-empty id is the
      record under that key in the location's store. */
  lemma LocationDocTarget(loc: Location, key: string)
    requires WellFormed(loc) && Plain(key) && key != ""
    ensures DocTarget(Doc(Text(LocationPath(loc)), Some(key))) == Ok(Target(Addressed(loc).storeName, key))
  {
    DocumentOfLocation(loc, key);
    ParseLocation(loc);
  }

  /** With no delete rejected, every referenced document is gone at the end. */
  lemma {:induction false} ApplyDeletesRemovesEach(stores: Stores, refs: seq<Ref>)
    requires ApplyDeletes(stores, refs).error.None?
    ensures forall r :: r in refs ==>
      && DocTarget(r).Ok?
      && DocTarget(r).value.storeName in ApplyDeletes(stores, refs).stores
      && DocTarget(r).value.key !in ApplyDeletes(stores, refs).stores[DocTarget(r).value.storeName]
    decreases |refs|
  {
    if refs != [] {
      var s := DeleteDocResult(stores, refs[0]).value;
      var t := DocTarget(refs[0]).value;
      ApplyDeletesRemovesEach(s, refs[1..]);
      ApplyDeletesOnlyRemoves(s, refs[1..]);
      var final := ApplyDeletes(stores, refs).stores;
      assert final == ApplyDeletes(s, refs[1..]).stores;
      assert t.key !in s[t.storeName];
      forall r | r in refs
        ensures DocTarget(r).Ok? && DocTarget(r).value.storeName in final
             && DocTarget(r).value.key !in final[DocTarget(r).value.storeName]
      {
        if r != refs[0] { assert r in refs[1..]; }
      }
    }
  }

  /** The collection under a document of `loc` with key `key`: rooms under
      a warehouse, containers under a room, items under a container. */
  function ChildLocation(loc: Location, key: string): Option<Location> {
    match loc
    case WarehousesOf(u) => Some(RoomsOf(u, key))
    case RoomsOf(u, w) => Some(ShelvesOf(u, w, key))
    case ShelvesOf(u, w, r) => Some(ItemsOf(u, w, r, key))
    case _ => None
  }

  /** The reference `doc(locationPath, key)` builds for a document of a location. */
  function DocAt(loc: Location, key: string): Ref {
    Ref(Text(LocationPath(loc) + "/" + key), DocumentRef)
  }

  /** The store of `loc` holds a record under the plain, non-empty key `k`
      that `getDocs` on the location lists. */
  predicate Held(stores: Stores, loc: Location, k: string) {
    var p := Addressed(loc);
    && p.storeName in stores && k in stores[p.storeName] && Matches(stores[p.storeName][k], p)
    && PlainId(k) && k != ""
  }

  /** With the intended lookups, every record held in a document's child
      collection is a child of that document, and its reference addresses
      that record. */
  lemma ChildOfDocument(stores: Stores, loc: Location, key: string, k: string)
    requires WellFormed(loc) && PlainId(key) && ChildLocation(loc, key).Some?
    requires Held(stores, ChildLocation(loc, key).value, k)
    ensures var cl := ChildLocation(loc, key).value;
      && DocAt(cl, k) in Children(ContainedLister(stores), DocAt(loc, key))
      && DocTarget(DocAt(cl, k)) == Ok(Target(Addressed(cl).storeName, k))
  {
    var cl := ChildLocation(loc, key).value;
    var parent := DocAt(loc, key);
    var name := Last(LocationParts(cl));
    ChildCollectionOf(loc, key);
    var path := parent.path.s + "/" + name;
    ParseLocation(cl);
    var p := Addressed(cl);
    var keys := ListedKeys(stores[p.storeName], p);
    assert ContainedRefs(stores, parent, name) == Some(KeyRefs(path, keys));
    ListedIff(stores[p.storeName], p, k);
    var i :| 0 <= i < |keys| && keys[i] == k;
    assert KeyRefs(path, keys)[i] == DocAt(cl, k);
    assert DocAt(cl, k) in Listed(ContainedLister(stores), parent, name);
    LocationDocTarget(cl, k);
  }

  /** A document's path names its child collection, and that collection's
      path is the child location's. */
  lemma ChildCollectionOf(loc: Location, key: string)
    requires WellFormed(loc) && PlainId(key) && ChildLocation(loc, key).Some?
    ensures var cl := ChildLocation(loc, key).value; var name := Last(LocationParts(cl));
      && ChildCollection(Split(DocAt(loc, key).path.s)) == Some(name)
      && DocAt(loc, key).path.s + "/" + name == LocationPath(cl)
  {
    var cl := ChildLocation(loc, key).value;
    var parts := LocationParts(loc) + [key];
    var name := Last(LocationParts(cl));
    assert LocationParts(cl) == parts + [name];
    JoinAppend(LocationParts(loc), key);
    SplitJoin(parts);
    JoinAppend(parts, name);
    match loc {
      case WarehousesOf(u) => assert parts == ["users", u, "warehouses", key];
      case RoomsOf(u, w) => assert parts == ["users", u, "warehouses", w, "rooms", key];
      case ShelvesOf(u, w, r) => assert parts == ["users", u, "warehouses", w, "rooms", r, "shelves", key];
    }
  }

  /** In a post-order deletion every child of a deleted document is deleted too. */
  lemma ChildInOrder(list: Lister, order: seq<Ref>, x: Ref, c: Ref)
    requires PostOrder(list, order) && x in order && c in Children(list, x)
    ensures c in order
  {
    var i :| 0 <= i < |order| && order[i] == x;
    assert c in order[..i];
  }

  /** One level of the cascade: a held child of a deleted document is deleted
      too, and a completed cascade leaves none of its record. */
  lemma ChildDeleted(stores: Stores, order: seq<Ref>, loc: Location, key: string, k: string)
    requires WellFormed(loc) && PlainId(key) && ChildLocation(loc, key).Some?
    requires Held(stores, ChildLocation(loc, key).value, k)
    requires PostOrder(ContainedLister(stores), order) && DocAt(loc, key) in order
    requires ApplyDeletes(stores, order).error.None?
    ensures var cl := ChildLocation(loc, key).value; var s := ApplyDeletes(stores, order).stores;
      && DocAt(cl, k) in order
      && Addressed(cl).storeName in s && k !in s[Addressed(cl).storeName]
  {
    var cl := ChildLocation(loc, key).value;
    ChildOfDocument(stores, loc, key, k);
    ChildInOrder(ContainedLister(stores), order, DocAt(loc, key), DocAt(cl, k));
    ApplyDeletesRemovesEach(stores, order);
  }

  /** The deletes of the intended cascade from a warehouse document. */
  function WarehouseCascade(stores: Stores, u: string, w: string): seq<Ref> {
    CascadeOrder(stores, Doc(Text(WarehouseDoc(u, w)), None))
  }

  /** With the intended lookups, a completed cascade from a warehouse
      deletes the warehouse record, every room it holds, every container of
      those rooms and every item of those containers. */
  lemma DeletingWarehouseClearsSubtree(stores: Stores, u: string, w: string)
    requires WellKeyed(stores) && PlainId(u) && PlainId(w)
    ensures var o := ApplyDeletes(stores, WarehouseCascade(stores, u, w));
      o.error.None? ==>
        && o.stores.Keys == stores.Keys
        && w !in o.stores["warehouses"]
        && (forall r :: Held(stores, RoomsOf(u, w), r) ==> r !in o.stores["rooms"])
        && (forall r, s :: Held(stores, RoomsOf(u, w), r) && Held(stores, ShelvesOf(u, w, r), s) ==>
              s !in o.stores["shelves"])
        && (forall r, s, i ::
              Held(stores, RoomsOf(u, w), r) && Held(stores, ShelvesOf(u, w, r), s) && Held(stores, ItemsOf(u, w, r, s), i) ==>
              i !in o.stores["items"])
  {
    var o := ApplyDeletes(stores, WarehouseCascade(stores, u, w));
    if o.error.None? {
      WarehouseDeleted(stores, u, w);
      forall r | Held(stores, RoomsOf(u, w), r) ensures r !in o.stores["rooms"] {
        RoomDeleted(stores, u, w, r);
      }
      forall r, s | Held(stores, RoomsOf(u, w), r) && Held(stores, ShelvesOf(u, w, r), s)
        ensures s !in o.stores["shelves"]
      {
        ShelfDeleted(stores, u, w, r, s);
      }
      forall r, s, i | Held(stores, RoomsOf(u, w), r) && Held(stores, ShelvesOf(u, w, r), s) && Held(stores, ItemsOf(u, w, r, s), i)
        ensures i !in o.stores["items"]
      {
        ItemDeleted(stores, u, w, r, s, i);
      }
    }
  }

  /** A room of the warehouse is deleted by the completed cascade. */
  lemma RoomDeleted(stores: Stores, u: string, w: string, r: string)
    requires WellKeyed(stores) && PlainId(u) && PlainId(w)
    requires ApplyDeletes(stores, WarehouseCascade(stores, u, w)).error.None?
    requires Held(stores, RoomsOf(u, w), r)
    ensures var order := WarehouseCascade(stores, u, w);
      && DocAt(RoomsOf(u, w), r) in order
      && "rooms" in ApplyDeletes(stores, order).stores && r !in ApplyDeletes(stores, order).stores["rooms"]
  {
    WarehouseDeleted(stores, u, w);
    ChildDeleted(stores, WarehouseCascade(stores, u, w), WarehousesOf(u), w, r);
  }

  /** A container of such a room is deleted by the completed cascade. */
  lemma ShelfDeleted(stores: Stores, u: string, w: string, r: string, s: string)
    requires WellKeyed(stores) && PlainId(u) && PlainId(w)
    requires ApplyDeletes(stores, WarehouseCascade(stores, u, w)).error.None?
    requires Held(stores, RoomsOf(u, w), r) && Held(stores, ShelvesOf(u, w, r), s)
    ensures var order := WarehouseCascade(stores, u, w);
      && DocAt(ShelvesOf(u, w, r), s) in order
      && "shelves" in ApplyDeletes(stores, order).stores && s !in ApplyDeletes(stores, order).stores["shelves"]
  {
    WarehouseDeleted(stores, u, w);
    RoomDeleted(stores, u, w, r);
    ChildDeleted(stores, WarehouseCascade(stores, u, w), RoomsOf(u, w), r, s);
  }

  /** An item of such a container is deleted by the completed cascade. */
  lemma ItemDeleted(stores: Stores, u: string, w: string, r: string, s: string, i: string)
    requires WellKeyed(stores) && PlainId(u) && PlainId(w)
    requires ApplyDeletes(stores, WarehouseCascade(stores, u, w)).error.None?
    requires Held(stores, RoomsOf(u, w), r) && Held(stores, ShelvesOf(u, w, r), s) && Held(stores, ItemsOf(u, w, r, s), i)
    ensures var final := ApplyDeletes(stores, WarehouseCascade(stores, u, w)).stores;
      "items" in final && i !in final["items"]
  {
    WarehouseDeleted(stores, u, w);
    ShelfDeleted(stores, u, w, r, s);
    ChildDeleted(stores, WarehouseCascade(stores, u, w), ShelvesOf(u, w, r), s, i);
  }

  /** A completed cascade from a warehouse is post-order, starts from the
      warehouse document, and removes the warehouse record. */
  lemma WarehouseDeleted(stores: Stores, u: string, w: string)
    requires WellKeyed(stores) && PlainId(u) && PlainId(w)
    requires ApplyDeletes(stores, WarehouseCascade(stores, u, w)).error.None?
    ensures var order := WarehouseCascade(stores, u, w);
      var s := ApplyDeletes(stores, order).stores;
      && PostOrder(ContainedLister(stores), order)
      && DocAt(WarehousesOf(u), w) in order
      && s.Keys == stores.Keys
      && w !in s["warehouses"]
  {
    ContainedRanked(stores);
    var list := ContainedLister(stores);
    var root := Doc(Text(WarehouseDoc(u, w)), None);
    var order := DeletionOrder(list, DepthRank, root);
    assert CascadeOrder(stores, root) == order;
    ApplyDeletesOnlyRemoves(stores, order);
    DeletionIsPostOrder(list, DepthRank, root);
    ApplyDeletesRemovesEach(stores, order);
    WarehouseRootTarget(u, w);
    assert root in order;
    JoinAppend(LocationParts(WarehousesOf(u)), w);
    assert LocationParts(WarehousesOf(u)) + [w] == ["users", u, "warehouses", w];
    assert root == DocAt(WarehousesOf(u), w);
  }

  // ---------------------------------------------------------------------
  // What the cascade from a warehouse leaves

  /** Every key of every store is one plain, non-empty path segment that is
      not a path keyword. */
  predicate PlainKeys(stores: Stores) {
    forall n, k :: n in stores && k in stores[n] ==> PlainId(k) && k != ""
  }

  /** The documents of the cascade from warehouse `w`: the warehouse, and
      every held room, container and item below it. */
  ghost predicate InSubtree(stores: Stores, u: string, w: string, x: Ref) {
    || x == DocAt(WarehousesOf(u), w)
    || (exists r :: Held(stores, RoomsOf(u, w), r) && x == DocAt(RoomsOf(u, w), r))
    || (exists r, s :: Held(stores, RoomsOf(u, w), r) && Held(stores, ShelvesOf(u, w, r), s)
          && x == DocAt(ShelvesOf(u, w, r), s))
    || (exists r, s, i :: Held(stores, RoomsOf(u, w), r) && Held(stores, ShelvesOf(u, w, r), s)
          && Held(stores, ItemsOf(u, w, r, s), i) && x == DocAt(ItemsOf(u, w, r, s), i))
  }

  /** The records those documents address: key `k` of store `n` belongs to
      warehouse `w`'s subtree. */
  ghost predicate InWarehouse(stores: Stores, u: string, w: string, n: string, k: string) {
    || (n == "warehouses" && k == w)
    || (n == "rooms" && Held(stores, RoomsOf(u, w), k))
    || (n == "shelves" && exists r :: Held(stores, RoomsOf(u, w), r) && Held(stores, ShelvesOf(u, w, r), k))
    || (n == "items" && exists r, s ::
          Held(stores, RoomsOf(u, w), r) && Held(stores, ShelvesOf(u, w, r), s) && Held(stores, ItemsOf(u, w, r, s), k))
  }

  /** The document `doc(locationPath, key)` addresses key `key` of the
      location's store. */
  lemma DocAtTarget(loc: Location, key: string)
    requires WellFormed(loc) && Plain(key)
    ensures DocTarget(DocAt(loc, key)) == Ok(Target(Addressed(loc).storeName, key))
  {
    DocumentOfLocation(loc, key);
    ParseLocation(loc);
  }

  /** A document of the items or bucket collection has no children. */
  lemma LeafHasNoChildren(stores: Stores, loc: Location, key: string)
    requires WellFormed(loc) && PlainId(key) && ChildLocation(loc, key).None?
    ensures Children(ContainedLister(stores), DocAt(loc, key)) == []
  {
    var parts := LocationParts(loc) + [key];
    JoinAppend(LocationParts(loc), key);
    SplitJoin(parts);
    assert ChildCollection(parts) == None;
  }

  /** The converse of `ChildOfDocument`: with plain keys, every child the
      intended lookups list under a warehouse, room or container document
      is a held record of its child collection. */
  lemma ChildIsHeld(stores: Stores, loc: Location, key: string, c: Ref) returns (k: string)
    requires PlainKeys(stores) && WellFormed(loc) && PlainId(key) && ChildLocation(loc, key).Some?
    requires c in Children(ContainedLister(stores), DocAt(loc, key))
    ensures Held(stores, ChildLocation(loc, key).value, k) && c == DocAt(ChildLocation(loc, key).value, k)
  {
    var cl := ChildLocation(loc, key).value;
    var parent := DocAt(loc, key);
    var list := ContainedLister(stores);
    var name: string;
    if c in Listed(list, parent, "items") {
      name := "items";
    } else if c in Listed(list, parent, "shelves") {
      name := "shelves";
    } else {
      name := "rooms";
    }
    k := ContainedChild(stores, parent, name, c);
    ChildCollectionOf(loc, key);
    ParseLocation(cl);
  }

  /** Every listed child of a document of the warehouse's subtree is in the
      subtree. */
  lemma SubtreeClosed(stores: Stores, u: string, w: string, x: Ref)
    requires PlainKeys(stores) && PlainId(u) && PlainId(w) && InSubtree(stores, u, w, x)
    ensures forall c :: c in Children(ContainedLister(stores), x) ==> InSubtree(stores, u, w, c)
  {
    var list := ContainedLister(stores);
    if x == DocAt(WarehousesOf(u), w) {
      forall c | c in Children(list, x) ensures InSubtree(stores, u, w, c) {
        var k := ChildIsHeld(stores, WarehousesOf(u), w, c);
      }
    } else if exists r :: Held(stores, RoomsOf(u, w), r) && x == DocAt(RoomsOf(u, w), r) {
      var r :| Held(stores, RoomsOf(u, w), r) && x == DocAt(RoomsOf(u, w), r);
      forall c | c in Children(list, x) ensures InSubtree(stores, u, w, c) {
        var k := ChildIsHeld(stores, RoomsOf(u, w), r, c);
        assert Held(stores, ShelvesOf(u, w, r), k) && c == DocAt(ShelvesOf(u, w, r), k);
      }
    } else if exists r, s ::
        Held(stores, RoomsOf(u, w), r) && Held(stores, ShelvesOf(u, w, r), s) && x == DocAt(ShelvesOf(u, w, r), s) {
      var r, s :| Held(stores, RoomsOf(u, w), r) && Held(stores, ShelvesOf(u, w, r), s)
        && x == DocAt(ShelvesOf(u, w, r), s);
      forall c | c in Children(list, x) ensures InSubtree(stores, u, w, c) {
        var k := ChildIsHeld(stores, ShelvesOf(u, w, r), s, c);
        assert Held(stores, ItemsOf(u, w, r, s), k) && c == DocAt(ItemsOf(u, w, r, s), k);
      }
    } else {
      var r, s, i :| Held(stores, RoomsOf(u, w), r) && Held(stores, ShelvesOf(u, w, r), s)
        && Held(stores, ItemsOf(u, w, r, s), i) && x == DocAt(ItemsOf(u, w, r, s), i);
      LeafHasNoChildren(stores, ItemsOf(u, w, r, s), i);
    }
  }

  /** Every document of the subtree addresses a record of the subtree. */
  lemma SubtreeTarget(stores: Stores, u: string, w: string, x: Ref)
    requires PlainId(u) && PlainId(w) && InSubtree(stores, u, w, x)
    ensures DocTarget(x).Ok? && DocTarget(x).value.storeName in StoreNames
    ensures InWarehouse(stores, u, w, DocTarget(x).value.storeName, DocTarget(x).value.key)
  {
    if x == DocAt(WarehousesOf(u), w) {
      DocAtTarget(WarehousesOf(u), w);
    } else if exists r :: Held(stores, RoomsOf(u, w), r) && x == DocAt(RoomsOf(u, w), r) {
      var r :| Held(stores, RoomsOf(u, w), r) && x == DocAt(RoomsOf(u, w), r);
      DocAtTarget(RoomsOf(u, w), r);
    } else if exists r, s ::
        Held(stores, RoomsOf(u, w), r) && Held(stores, ShelvesOf(u, w, r), s) && x == DocAt(ShelvesOf(u, w, r), s) {
      var r, s :| Held(stores, RoomsOf(u, w), r) && Held(stores, ShelvesOf(u, w, r), s)
        && x == DocAt(ShelvesOf(u, w, r), s);
      DocAtTarget(ShelvesOf(u, w, r), s);
    } else {
      var r, s, i :| Held(stores, RoomsOf(u, w), r) && Held(stores, ShelvesOf(u, w, r), s)
        && Held(stores, ItemsOf(u, w, r, s), i) && x == DocAt(ItemsOf(u, w, r, s), i);
      DocAtTarget(ItemsOf(u, w, r, s), i);
    }
  }

  /** A property of the root that every listed child inherits from its
      parent holds of every document the cascade deletes. */
  lemma {:induction false} OrderClosed(list: Lister, rank: Ref -> nat, root: Ref, P: Ref -> bool)
    requires Ranked(list, rank) && P(root)
    requires forall x :: P(x) ==> forall c :: c in Children(list, x) ==> P(c)
    ensures forall x :: x in DeletionOrder(list, rank, root) ==> P(x)
    decreases rank(root), |Children(list, root)| + 1
  {
    ForestClosed(list, rank, Children(list, root), rank(root), P);
  }

  lemma {:induction false} ForestClosed(list: Lister, rank: Ref -> nat, cs: seq<Ref>, bound: nat, P: Ref -> bool)
    requires Ranked(list, rank)
    requires forall c :: c in cs ==> rank(c) < bound && P(c)
    requires forall x :: P(x) ==> forall c :: c in Children(list, x) ==> P(c)
    ensures forall x :: x in DeleteForest(list, rank, cs, bound) ==> P(x)
    decreases bound, |cs|
  {
    if cs != [] {
      OrderClosed(list, rank, cs[0], P);
      ForestClosed(list, rank, cs[1..], bound, P);
    }
  }

  /** Every document the intended cascade from a warehouse deletes lies in
      the warehouse's subtree. */
  lemma CascadeInSubtree(stores: Stores, u: string, w: string)
    requires PlainKeys(stores) && PlainId(u) && PlainId(w)
    ensures forall x :: x in WarehouseCascade(stores, u, w) ==> InSubtree(stores, u, w, x)
  {
    ContainedRanked(stores);
    var list := ContainedLister(stores);
    var root := Doc(Text(WarehouseDoc(u, w)), None);
    assert WarehouseCascade(stores, u, w) == DeletionOrder(list, DepthRank, root);
    JoinAppend(LocationParts(WarehousesOf(u)), w);
    assert LocationParts(WarehousesOf(u)) + [w] == ["users", u, "warehouses", w];
    assert root == DocAt(WarehousesOf(u), w);
    var P := (x: Ref) => InSubtree(stores, u, w, x);
    forall x | P(x) ensures forall c :: c in Children(list, x) ==> P(c) {
      SubtreeClosed(stores, u, w, x);
    }
    OrderClosed(list, DepthRank, root, P);
  }

  /** With every key a plain segment, the intended cascade from a warehouse
      completes and removes exactly the warehouse's subtree: the warehouse,
      every room it holds, every container of those rooms and every item of
      those containers. Every other record of every store stays as it was. */
  lemma DeletingWarehouseExactly(stores: Stores, u: string, w: string)
    requires WellKeyed(stores) && PlainKeys(stores) && PlainId(u) && PlainId(w)
    ensures var o := ApplyDeletes(stores, WarehouseCascade(stores, u, w));
      && o.error.None?
      && o.stores.Keys == stores.Keys
      && (forall n, k :: n in stores && k in stores[n] ==>
            (k in o.stores[n] <==> !InWarehouse(stores, u, w, n, k)))
      && (forall n, k :: n in o.stores && k in o.stores[n] ==> k in stores[n] && o.stores[n][k] == stores[n][k])
  {
    var order := WarehouseCascade(stores, u, w);
    CascadeInSubtree(stores, u, w);
    forall x | x in order
      ensures DocTarget(x).Ok? && DocTarget(x).value.storeName in stores
      ensures InWarehouse(stores, u, w, DocTarget(x).value.storeName, DocTarget(x).value.key)
    {
      SubtreeTarget(stores, u, w, x);
    }
    ApplyDeletesCompletes(stores, order);
    ApplyDeletesOnlyRemoves(stores, order);
    var o := ApplyDeletes(stores, order);
    forall n, k | n in stores && k in stores[n]
      ensures k in o.stores[n] <==> !InWarehouse(stores, u, w, n, k)
    {
      if InWarehouse(stores, u, w, n, k) {
        RemovedFromWarehouse(stores, u, w, n, k);
      } else {
        ApplyDeletesKeepsOthers(stores, order, n, k);
      }
    }
  }

  /** A record of the warehouse's subtree is gone after the completed cascade. */
  lemma RemovedFromWarehouse(stores: Stores, u: string, w: string, n: string, k: string)
    requires WellKeyed(stores) && PlainId(u) && PlainId(w)
    requires ApplyDeletes(stores, WarehouseCascade(stores, u, w)).error.None?
    requires InWarehouse(stores, u, w, n, k)
    ensures var s := ApplyDeletes(stores, WarehouseCascade(stores, u, w)).stores;
      n in s && k !in s[n]
  {
    WarehouseDeleted(stores, u, w);
    if n == "warehouses" && k == w {
    } else if n == "rooms" && Held(stores, RoomsOf(u, w), k) {
      RoomDeleted(stores, u, w, k);
    } else if n == "shelves" && exists r :: Held(stores, RoomsOf(u, w), r) && Held(stores, ShelvesOf(u, w, r), k) {
      var r :| Held(stores, RoomsOf(u, w), r) && Held(stores, ShelvesOf(u, w, r), k);
      ShelfDeleted(stores, u, w, r, k);
    } else {
      var r, s :| Held(stores, RoomsOf(u, w), r) && Held(stores, ShelvesOf(u, w, r), s)
        && Held(stores, ItemsOf(u, w, r, s), k);
      ItemDeleted(stores, u, w, r, s, k);
    }
  }

  /** The three lookups `${path}/rooms`, `${path}/shelves` and
      `${path}/items` taken literally would not address a document's
      children: the codec reads a warehouse's `items` path as the user's
      warehouses, and a room's `items` path as the rooms of its warehouse,
      so each lists the document itself among its siblings. */
  lemma LiteralLookupsListSiblings(u: string, w: string, r: string)
    requires PlainId(u) && PlainId(w) && PlainId(r)
    ensures ParseCollectionPath(WarehouseDoc(u, w) + "/items") == Addressed(WarehousesOf(u))
    ensures ParseCollectionPath(LocationPath(RoomsOf(u, w)) + "/" + r + "/items") == Addressed(RoomsOf(u, w))
  {
    WarehouseItemsLookup(u, w);
    RoomItemsLookup(u, w, r);
  }

  lemma WarehouseItemsLookup(u: string, w: string)
    requires PlainId(u) && PlainId(w)
    ensures ParseCollectionPath(WarehouseDoc(u, w) + "/items") == Addressed(WarehousesOf(u))
  {
    var parts := ["users", u, "warehouses", w, "items"];
    JoinAppend(["users", u, "warehouses", w], "items");
    assert ["users", u, "warehouses", w] + ["items"] == parts;
    assert WarehouseDoc(u, w) + "/items" == Join(parts);
    SplitJoin(parts);
    WarehouseItemsParts(u, w);
  }

  lemma WarehouseItemsParts(u: string, w: string)
    requires PlainId(u) && PlainId(w)
    ensures ParseParts(["users", u, "warehouses", w, "items"]) == Parsed("warehouses", JNull, JStr(u))
  {
    var parts := ["users", u, "warehouses", w, "items"];
    NotKeyword(u);
    NotKeyword(w);
    assert "warehouses" in parts && "rooms" !in parts;
  }

  lemma RoomItemsLookup(u: string, w: string, r: string)
    requires PlainId(u) && PlainId(w) && PlainId(r)
    ensures ParseCollectionPath(LocationPath(RoomsOf(u, w)) + "/" + r + "/items") == Addressed(RoomsOf(u, w))
  {
    var parts := ["users", u, "warehouses", w, "rooms", r, "items"];
    JoinAppend(LocationParts(RoomsOf(u, w)), r);
    JoinAppend(LocationParts(RoomsOf(u, w)) + [r], "items");
    assert LocationParts(RoomsOf(u, w)) + [r] + ["items"] == parts;
    assert LocationPath(RoomsOf(u, w)) + "/" + r + "/items" == Join(parts);
    SplitJoin(parts);
    RoomItemsParts(u, w, r);
  }

  lemma RoomItemsParts(u: string, w: string, r: string)
    requires PlainId(u) && PlainId(w) && PlainId(r)
    ensures ParseParts(["users", u, "warehouses", w, "rooms", r, "items"]) == Parsed("rooms", JStr(w), JStr(u))
  {
    var parts := ["users", u, "warehouses", w, "rooms", r, "items"];
    NotKeyword(u);
    NotKeyword(w);
    NotKeyword(r);
    assert "rooms" in parts && "shelves" !in parts;
    IdAfterAt(parts, "warehouses", 2);
  }

  /** As written, deleting a warehouse removes the warehouse record alone:
      its rooms, and everything below them, stay in their stores. */
  lemma AsWrittenKeepsRooms(stores: Stores, userId: string, warehouse: string)
    requires WellKeyed(stores) && PlainId(userId) && PlainId(warehouse)
    ensures var root := Doc(Text(WarehouseDoc(userId, warehouse)), None);
      var o := ApplyDeletes(stores, [root]);
      && o.stores.Keys == stores.Keys
      && o.stores["rooms"] == stores["rooms"]
      && o.stores["shelves"] == stores["shelves"]
      && o.stores["items"] == stores["items"]
  {
    var root := Doc(Text(WarehouseDoc(userId, warehouse)), None);
    WarehouseRootTarget(userId, warehouse);
    StoreNamesDistinct();
    var s := stores["warehouses" := stores["warehouses"] - {warehouse}];
    assert DeleteDocResult(stores, root) == Ok(s);
    assert ApplyDeletes(stores, [root]) == ApplyDeletes(s, []);
  }

  /** A warehouse document addresses that warehouse's record. */
  lemma WarehouseRootTarget(userId: string, warehouse: string)
    requires PlainId(userId) && PlainId(warehouse)
    ensures DocTarget(Doc(Text(WarehouseDoc(userId, warehouse)), None)) == Ok(Target("warehouses", warehouse))
  {
    var loc := WarehousesOf(userId);
    JoinAppend(LocationParts(loc), warehouse);
    assert LocationParts(loc) + [warehouse] == ["users", userId, "warehouses", warehouse];
    assert WarehouseDoc(userId, warehouse) == LocationPath(loc) + "/" + warehouse;
    DocumentOfLocation(loc, warehouse);
    ParseLocation(loc);
  }

  /** The confirmed action of `handleDelete(type, entity)`: the cascading
      delete of the entity's document, then, if it did not reject, the
      selection clearing. An unknown type does nothing. */
  method HandleDelete(db: Database, kind: string, userId: string, sel: Selection, entityId: string)
    returns (newSel: Selection, error: Option<Error>)
    requires db.Valid()
    modifies db
    ensures db.Valid()
    ensures DeletePath(kind, userId, sel, entityId).None? ==>
      newSel == sel && error.None? && db.stores == old(db.stores)
    ensures DeletePath(kind, userId, sel, entityId).Some? ==>
      && Outcome(db.stores, error)
         == ApplyDeletes(old(db.stores), CascadeOrder(old(db.stores), Doc(Text(DeletePath(kind, userId, sel, entityId).value), None)))
      && newSel == (if error.None? then ClearSelection(kind, sel, entityId) else sel)
  {
    var path := DeletePath(kind, userId, sel, entityId);
    if path.None? {
      return sel, None;
    }
    ContainedRanked(db.stores);
    error := RecursiveDelete(db, ContainedLister(db.stores), DepthRank, Doc(Text(path.value), None));
    newSel := if error.None? then ClearSelection(kind, sel, entityId) else sel;
  }

  // ---------------------------------------------------------------------
  // moveContainer

  /** The path of a container document. */
  function ContainerDoc(userId: string, warehouse: string, room: string, container: string): string {
    Join(["users", userId, "warehouses", warehouse, "rooms", room, "shelves", container])
  }

  /** A queued batch operation. The delete target is `None` where the code
      passes `undefined`. */
  datatype QueuedOp = QueueSet(target: Ref, data: Record) | QueueDelete(deleted: Option<Ref>)

  /** `{ name: container.name, createdAt: container.createdAt || serverTimestamp() }`. */
  function MovedContainer(container: Record, now: string): Record {
    map["name" := Field(container, "name"),
        "createdAt" := if Truthy(Field(container, "createdAt")) then Field(container, "createdAt") else JStr(now)]
  }

  /** The queue `moveContainer` builds on a batch that offers `set`: the new
      container record, then for each listed document a copy and a delete
      of the original, then the delete of the old container. `doc(newPath,
      'items', id)` keeps its first two arguments only, so every copy
      targets `${newPath}/items`; the listed documents carry no `ref`, so
      their deletes target `undefined`. */
  method QueueMove(oldPath: string, newPath: string, container: Record, docs: seq<DocSnapshot>, now: string)
    returns (ops: seq<QueuedOp>)
    ensures |ops| == 2 * |docs| + 2
    ensures ops[0] == QueueSet(Doc(Text(newPath), None), MovedContainer(container, now))
    ensures forall i :: 0 <= i < |docs| ==>
      && ops[2 * i + 1] == QueueSet(Doc(Text(newPath), Some("items")), docs[i].data)
      && ops[2 * i + 2] == QueueDelete(None)
    ensures ops[|ops| - 1] == QueueDelete(Some(Doc(Text(oldPath), None)))
  {
    ops := [QueueSet(Doc(Text(newPath), None), MovedContainer(container, now))];
    var i := 0;
    while i < |docs|
      invariant 0 <= i <= |docs|
      invariant |ops| == 2 * i + 1
      invariant ops[0] == QueueSet(Doc(Text(newPath), None), MovedContainer(container, now))
      invariant forall j :: 0 <= j < i ==>
        && ops[2 * j + 1] == QueueSet(Doc(Text(newPath), Some("items")), docs[j].data)
        && ops[2 * j + 2] == QueueDelete(None)
    {
      ops := ops + [QueueSet(Doc(Text(newPath), Some("items")), docs[i].data), QueueDelete(None)];
      i := i + 1;
    }
    ops := ops + [QueueDelete(Some(Doc(Text(oldPath), None)))];
  }

  /** `moveContainer(container, newRoomId)` on the IndexedDB store: it lists
      `collection(oldPath, 'items')`, which keeps only `oldPath`, and then
      calls `batch.set`, which the store's batch does not have. The move
      therefore always rejects and commits nothing. */
  method MoveContainer(db: Database, userId: string, sel: Selection, container: Record, newRoomId: string)
    returns (r: Result<()>)
    requires db.Valid()
    ensures r.Err?
    ensures var oldPath := ContainerDoc(userId, IdText(sel.warehouse), IdText(sel.room), TemplateText(Field(container, "id")));
      var listed := GetDocsResult(db.stores, Collection(Text(oldPath)));
      (listed.Err? ==> r == Err(listed.error)) && (listed.Ok? ==> r == Err(TypeError))
  {
    var containerId := TemplateText(Field(container, "id"));
    var oldPath := ContainerDoc(userId, IdText(sel.warehouse), IdText(sel.room), containerId);
    var itemsSnapshot := db.GetDocs(Collection(Text(oldPath)));
    if itemsSnapshot.Err? {
      return Err(itemsSnapshot.error);
    }
    r := Err(TypeError);
  }

  /** The lookup meant for a container's items addresses the containers of
      its room instead: the path ends in a container id, not in `items`. */
  lemma MoveListsSiblingContainers(userId: string, warehouse: string, room: string, container: string)
    requires PlainId(userId) && PlainId(warehouse) && PlainId(room) && PlainId(container)
    ensures ParseCollectionPath(ContainerDoc(userId, warehouse, room, container))
         == Addressed(ShelvesOf(userId, warehouse, room))
  {
    SplitJoin(["users", userId, "warehouses", warehouse, "rooms", room, "shelves", container]);
    ParseContainerParts(userId, warehouse, room, container);
  }

  lemma ParseContainerParts(userId: string, warehouse: string, room: string, container: string)
    requires PlainId(userId) && PlainId(warehouse) && PlainId(room) && PlainId(container)
    ensures ParseParts(["users", userId, "warehouses", warehouse, "rooms", room, "shelves", container])
         == Parsed("shelves", JStr(warehouse + "/" + room), JStr(userId))
  {
    var parts := ["users", userId, "warehouses", warehouse, "rooms", room, "shelves", container];
    NotKeyword(userId);
    NotKeyword(warehouse);
    NotKeyword(room);
    NotKeyword(container);
    assert "rooms" in parts && "shelves" in parts && "items" !in parts;
    IdAfterAt(parts, "warehouses", 2);
    IdAfterAt(parts, "rooms", 4);
  }

  // ---------------------------------------------------------------------
  // handleAddItem

  /** `a || b`. */
  function Or(a: Json, b: Json): Json {
    if Truthy(a) then a else b
  }

  /** The fields an item is saved with: the form's fields, with the parsed
      quantity defaulting to 1 and the parsed price to 0. The parsed values
      are given; a failed parse is any falsy value. */
  function ItemFields(newItem: Record, quantity: Json, price: Json): Record {
    newItem + map["quantity" := Or(quantity, JNum(1)), "price" := Or(price, JNum(0))]
  }

  /** What saving the item form leads to. */
  datatype Save = SelectContainerFirst | Saved(result: Result<Stores>)

  /** `handleAddItem()`: with no target container it only reports an
      error; otherwise it updates the item being edited or adds a new one. */
  function SaveItemResult(stores: Stores, path: string, editing: Option<string>, newItem: Record,
                          quantity: Json, price: Json, id: string, now: string): Save
  {
    if path == "" then SelectContainerFirst
    else if Present(editing) then
      Saved(UpdateDocResult(stores, Doc(Text(path + "/" + editing.value), None), ItemFields(newItem, quantity, price), now))
    else
      Saved(AddDocResult(stores, Collection(Text(path)),
        ItemFields(newItem, quantity, price) + map["createdAt" := JStr(now)], id, now))
  }

  /** The stores after a save: unchanged unless the write succeeded. */
  function SavedStores(stores: Stores, save: Save): Stores {
    if save.Saved? && save.result.Ok? then save.result.value else stores
  }

  /** An empty target path performs no write; any other path writes. */
  lemma SaveNeedsContainer(stores: Stores, path: string, editing: Option<string>, newItem: Record,
                           quantity: Json, price: Json, id: string, now: string)
    ensures var save := SaveItemResult(stores, path, editing, newItem, quantity, price, id, now);
      && (save == SelectContainerFirst <==> path == "")
      && (path == "" ==> SavedStores(stores, save) == stores)
  {
  }

  /** The record of a new item: the form's fields with the defaults, the
      chain and owner of its container, and the creation time. */
  lemma NewItemRecord(p: Parsed, newItem: Record, quantity: Json, price: Json, id: string, now: string)
    ensures var rec := DocData(p, ItemFields(newItem, quantity, price) + map["createdAt" := JStr(now)], id, now);
      && rec["quantity"] == (if Truthy(quantity) then quantity else JNum(1))
      && rec["price"] == (if Truthy(price) then price else JNum(0))
      && rec["id"] == JStr(id) && rec["_parentKey"] == p.parentKey && rec["_userId"] == p.userId
      && rec["createdAt"] == JStr(now)
      && (forall f :: f in newItem && f !in {"quantity", "price", "id", "_parentKey", "_userId", "createdAt"} ==> rec[f] == newItem[f])
  {
  }

  /** A new item saved into a container is stored under the fresh id,
      chained to its container, with the form's fields, the quantity and
      price defaults, and the creation time; no other store changes. */
  lemma AddedItemStored(stores: Stores, loc: Location, newItem: Record, quantity: Json, price: Json, id: string, now: string)
    requires WellKeyed(stores) && loc.ItemsOf? && WellFormed(loc)
    requires id !in stores["items"]
    ensures var save := SaveItemResult(stores, LocationPath(loc), None, newItem, quantity, price, id, now);
      var data := ItemFields(newItem, quantity, price) + map["createdAt" := JStr(now)];
      && save.Saved?
      && save.result == Ok(stores["items" := stores["items"][id := DocData(Addressed(loc), data, id, now)]])
  {
    ParseLocation(loc);
    var data := ItemFields(newItem, quantity, price) + map["createdAt" := JStr(now)];
    AddDocInsertsOne(stores, LocationPath(loc), data, id, now);
  }

  method HandleAddItem(db: Database, path: string, editing: Option<string>, newItem: Record,
                       quantity: Json, price: Json, id: string, now: string)
    returns (save: Save)
    requires db.Valid()
    modifies db
    ensures db.Valid()
    ensures save == SaveItemResult(old(db.stores), path, editing, newItem, quantity, price, id, now)
    ensures db.stores == SavedStores(old(db.stores), save)
  {
    if path == "" {
      return SelectContainerFirst;
    }
    ghost var s0 := db.stores;
    var fields := ItemFields(newItem, quantity, price);
    if Present(editing) {
      var ref := Doc(Text(path + "/" + editing.value), None);
      ghost var expected := UpdateDocResult(s0, ref, fields, now);
      assert SaveItemResult(s0, path, editing, newItem, quantity, price, id, now) == Saved(expected);
      var r := db.UpdateDoc(ref, fields, now);
      if r.Err? {
        assert expected == Err(r.error);
        return Saved(Err(r.error));
      }
      assert expected == Ok(db.stores);
    } else {
      var ref := Collection(Text(path));
      var data := fields + map["createdAt" := JStr(now)];
      ghost var expected := AddDocResult(s0, ref, data, id, now);
      assert SaveItemResult(s0, path, editing, newItem, quantity, price, id, now) == Saved(expected);
      var r := db.AddDoc(ref, data, id, now);
      if r.Err? {
        assert expected == Err(r.error);
        return Saved(Err(r.error));
      }
      assert expected == Ok(db.stores);
    }
    save := Saved(Ok(db.stores));
  }

  // ---------------------------------------------------------------------
  // The holding bucket

  function BucketPath(userId: string): string {
    LocationPath(BucketOf(userId))
  }

  /** The bucket record for an item: its fields without `id`, with where it
      came from and when it moved. */
  function BucketEntry(item: Record, originalPath: string, now: string): Record {
    (item - {"id"}) + map["originalPath" := JStr(originalPath), "movedAt" := JStr(now)]
  }

  /** `doc(collectionPath, itemId)` for the last segment of a document path
      and the segments before it. */
  function OriginRef(originalPath: string): Ref {
    var parts := Split(originalPath);
    Doc(Text(Join(Init(parts))), Some(Last(parts)))
  }

  /** `doc(path, id)` for an id that is any value. */
  function DocWith(path: string, id: Json): Ref {
    if Truthy(id) then Doc(Text(path), Some(TemplateText(id))) else Doc(Text(path), None)
  }

  /** `moveItemToBucket(item, originalPath)`: add the bucket entry, then
      delete the original; a rejection stops the rest. */
  function ToBucket(stores: Stores, userId: string, item: Record, originalPath: string, id: string, now: string): Outcome {
    match AddDocResult(stores, Collection(Text(BucketPath(userId))), BucketEntry(item, originalPath, now), id, now)
    case Err(e) => Outcome(stores, Some(e))
    case Ok(s) =>
      match DeleteDocResult(s, OriginRef(originalPath))
      case Err(e) => Outcome(s, Some(e))
      case Ok(s') => Outcome(s', None)
  }

  /** A bucket entry's fields without `id`, `originalPath` and `movedAt`. */
  function RestoredItem(entry: Record): Record {
    entry - {"id", "originalPath", "movedAt"}
  }

  /** `moveItemFromBucket(bucketItem, destinationPath)`: add the item to the
      destination, then delete the bucket entry by its `id`. */
  function FromBucket(stores: Stores, userId: string, entry: Record, destination: string, id: string, now: string): Outcome {
    match AddDocResult(stores, Collection(Text(destination)), RestoredItem(entry), id, now)
    case Err(e) => Outcome(stores, Some(e))
    case Ok(s) =>
      match DeleteDocResult(s, DocWith(BucketPath(userId), Field(entry, "id")))
      case Err(e) => Outcome(s, Some(e))
      case Ok(s') => Outcome(s', None)
  }

  method MoveItemToBucket(db: Database, userId: string, item: Record, originalPath: string, id: string, now: string)
    returns (error: Option<Error>)
    requires db.Valid()
    modifies db
    ensures db.Valid()
    ensures Outcome(db.stores, error) == ToBucket(old(db.stores), userId, item, originalPath, id, now)
  {
    var itemData := item - {"id"};
    var added := db.AddDoc(Collection(Text(BucketPath(userId))),
      itemData + map["originalPath" := JStr(originalPath), "movedAt" := JStr(now)], id, now);
    if added.Err? {
      return Some(added.error);
    }
    var pathParts := Split(originalPath);
    var itemId := Last(pathParts);
    var collectionPath := Join(Init(pathParts));
    var deleted := db.DeleteDoc(Doc(Text(collectionPath), Some(itemId)));
    if deleted.Err? {
      return Some(deleted.error);
    }
    error := None;
  }

  method MoveItemFromBucket(db: Database, userId: string, entry: Record, destination: string, id: string, now: string)
    returns (error: Option<Error>)
    requires db.Valid()
    modifies db
    ensures db.Valid()
    ensures Outcome(db.stores, error) == FromBucket(old(db.stores), userId, entry, destination, id, now)
  {
    var itemData := entry - {"id", "originalPath", "movedAt"};
    var added := db.AddDoc(Collection(Text(destination)), itemData, id, now);
    if added.Err? {
      return Some(added.error);
    }
    var deleted := db.DeleteDoc(DocWith(BucketPath(userId), Field(entry, "id")));
    if deleted.Err? {
      return Some(deleted.error);
    }
    error := None;
  }

  /** The path of an item document. */
  function ItemDoc(loc: Location, key: string): string {
    LocationPath(loc) + "/" + key
  }

  /** An item document path splits back into its container and its key. */
  lemma OriginOfItem(loc: Location, key: string)
    requires WellFormed(loc) && Plain(key) && key != ""
    ensures OriginRef(ItemDoc(loc, key)) == Doc(Text(LocationPath(loc)), Some(key))
    ensures DocTarget(OriginRef(ItemDoc(loc, key))) == Ok(Target(Addressed(loc).storeName, key))
  {
    DocumentOfLocation(loc, key);
    LocationDocTarget(loc, key);
  }

  /** Moving an item of a container to the bucket adds exactly one bucket
      entry under the fresh id and removes the item from its container;
      a taken id rejects before anything is written. */
  lemma ToBucketMoves(stores: Stores, userId: string, item: Record, loc: Location, key: string, id: string, now: string)
    requires WellKeyed(stores) && PlainId(userId) && loc.ItemsOf? && WellFormed(loc) && Plain(key) && key != ""
    ensures var o := ToBucket(stores, userId, item, ItemDoc(loc, key), id, now);
      var entry := DocData(Addressed(BucketOf(userId)), BucketEntry(item, ItemDoc(loc, key), now), id, now);
      && (id in stores["bucket"] ==> o == Outcome(stores, Some(ConstraintError)))
      && (id !in stores["bucket"] ==>
            && o.error.None?
            && o.stores == stores["bucket" := stores["bucket"][id := entry]]["items" := stores["items"] - {key}])
  {
    ParseLocation(BucketOf(userId));
    AddDocInsertsOne(stores, BucketPath(userId), BucketEntry(item, ItemDoc(loc, key), now), id, now);
    OriginOfItem(loc, key);
  }

  /** A bucket entry addressed by a plain, non-empty id. */
  lemma BucketDocTarget(userId: string, key: string)
    requires PlainId(userId) && Plain(key) && key != ""
    ensures DocWith(BucketPath(userId), JStr(key)) == Doc(Text(BucketPath(userId)), Some(key))
    ensures DocTarget(DocWith(BucketPath(userId), JStr(key))) == Ok(Target("bucket", key))
  {
    LocationDocTarget(BucketOf(userId), key);
  }

  /** Moving a bucket entry to a container adds the restored item there
      under the fresh id and removes that entry from the bucket. */
  lemma FromBucketMoves(stores: Stores, userId: string, entry: Record, loc: Location, key: string, id: string, now: string)
    requires WellKeyed(stores) && PlainId(userId) && loc.ItemsOf? && WellFormed(loc)
    requires Field(entry, "id") == JStr(key) && Plain(key) && key != ""
    requires id !in stores["items"]
    ensures var o := FromBucket(stores, userId, entry, LocationPath(loc), id, now);
      && o.error.None?
      && o.stores == stores["items" := stores["items"][id := DocData(Addressed(loc), RestoredItem(entry), id, now)]]
                           ["bucket" := stores["bucket"] - {key}]
  {
    ParseLocation(loc);
    AddDocInsertsOne(stores, LocationPath(loc), RestoredItem(entry), id, now);
    BucketDocTarget(userId, key);
  }

  /** A bucket entry restored: the item's fields without its `id`, and the
      parent chain, owner and time the bucket wrote. */
  lemma RestoredFromBucket(item: Record, originalPath: string, bucket: Parsed, bucketId: string, movedAt: string)
    ensures var restored := RestoredItem(DocData(bucket, BucketEntry(item, originalPath, movedAt), bucketId, movedAt));
      && restored.Keys == (item.Keys - {"id", "originalPath", "movedAt"}) + {"_parentKey", "_userId", "createdAt"}
      && forall f :: f in item && f !in {"id", "_parentKey", "_userId", "createdAt", "originalPath", "movedAt"} ==>
           restored[f] == item[f]
  {
    var moved := BucketEntry(item, originalPath, movedAt);
    BucketEntryFields(item, originalPath, movedAt);
    var entry := DocData(bucket, moved, bucketId, movedAt);
    DocDataOverrides(bucket, moved, bucketId, movedAt);
    var restored := RestoredItem(entry);
    var bucketOwn := {"id", "originalPath", "movedAt"};
    var storeOwn := {"id", "_parentKey", "_userId", "createdAt"};
    assert restored.Keys == entry.Keys - bucketOwn;
    KeysAfterStamps(item.Keys, {"id"}, {"originalPath", "movedAt"}, storeOwn, bucketOwn);
    StampsDistinct();
    forall f | f in item && f !in {"id", "_parentKey", "_userId", "createdAt", "originalPath", "movedAt"}
      ensures restored[f] == item[f]
    {
      assert entry[f] == moved[f];
    }
  }

  /** Removing `w` after adding `y` and `z` to `i - x`, where `w` covers
      `x` and `y`, leaves `i - w` and what `z` adds outside `w`. */
  lemma KeysAfterStamps(i: set<string>, x: set<string>, y: set<string>, z: set<string>, w: set<string>)
    requires x <= w && y <= w
    ensures ((i - x) + y + z) - w == (i - w) + (z - w)
  {
  }

  /** The member names the store writes, other than `id`, are not the ones
      a restore removes. */
  lemma StampsDistinct()
    ensures {"id", "_parentKey", "_userId", "createdAt"} - {"id", "originalPath", "movedAt"}
         == {"_parentKey", "_userId", "createdAt"}
  {
    var bucketOwn := ["id", "originalPath", "movedAt"];
    var storeOwn := ["_parentKey", "_userId", "createdAt"];
    forall i, j | 0 <= i < 3 && 0 <= j < 3 ensures bucketOwn[i] != storeOwn[j] {
      assert bucketOwn[i][0] != storeOwn[j][0];
    }
  }

  lemma BucketEntryFields(item: Record, originalPath: string, movedAt: string)
    ensures var moved := BucketEntry(item, originalPath, movedAt);
      && moved.Keys == (item.Keys - {"id"}) + {"originalPath", "movedAt"}
      && forall f :: f in item && f !in {"id", "originalPath", "movedAt"} ==> moved[f] == item[f]
  {
  }

  /** Through the bucket and back, an item keeps every field except the
      ones the store writes itself: its id, parent chain, owner and
      creation time are the new container's, and the bucket's own fields
      are gone. */
  lemma BucketRoundTrip(item: Record, originalPath: string, bucket: Parsed, bucketId: string, container: Parsed, id: string,
                        movedAt: string, now: string)
    ensures var entry := DocData(bucket, BucketEntry(item, originalPath, movedAt), bucketId, movedAt);
      var back := DocData(container, RestoredItem(entry), id, now);
      && back.Keys == (item.Keys - {"originalPath", "movedAt"}) + {"id", "_parentKey", "_userId", "createdAt"}
      && (forall f :: f in item && f !in {"id", "_parentKey", "_userId", "createdAt", "originalPath", "movedAt"} ==>
            back[f] == item[f])
      && back["id"] == JStr(id) && back["_parentKey"] == container.parentKey && back["_userId"] == container.userId
      && back["createdAt"] == JStr(now)
  {
    var restored := RestoredItem(DocData(bucket, BucketEntry(item, originalPath, movedAt), bucketId, movedAt));
    RestoredFromBucket(item, originalPath, bucket, bucketId, movedAt);
    DocDataOverrides(container, restored, id, now);
  }

  // ---------------------------------------------------------------------
  // Moving an item between containers

  /** `t` occurs in `s` at position `i`. */
  predicate InfixAt(s: string, t: string, i: int) {
    0 <= i && i + |t| <= |s| && s[i..i + |t|] == t
  }

  /** `s.includes(t)`. */
  function Includes(s: string, t: string): (b: bool)
    ensures b <==> exists i :: InfixAt(s, t, i)
    decreases |s|
  {
    if |s| < |t| then false
    else if s[..|t|] == t then
      assert InfixAt(s, t, 0);
      true
    else
      var rest := Includes(s[1..], t);
      assert rest ==> exists i :: InfixAt(s, t, i) by {
        if rest {
          var i :| InfixAt(s[1..], t, i);
          assert s[1..][i..i + |t|] == s[i + 1..i + 1 + |t|];
          assert InfixAt(s, t, i + 1);
        }
      }
      assert (exists i :: InfixAt(s, t, i)) ==> rest by {
        if exists i :: InfixAt(s, t, i) {
          var i :| InfixAt(s, t, i);
          assert i != 0;
          assert s[1..][i - 1..i - 1 + |t|] == s[i..i + |t|];
          assert InfixAt(s[1..], t, i - 1);
        }
      }
      rest
  }

  /** `docs.find(d => d.data().name === name)`, as a position: the first
      document with that name, or -1 when there is none. */
  function FindByName(docs: seq<DocSnapshot>, name: Json): (i: int)
    ensures -1 <= i < |docs|
    ensures i == -1 <==> forall j :: 0 <= j < |docs| ==> Field(docs[j].data, "name") != name
    ensures 0 <= i ==> Field(docs[i].data, "name") == name
    ensures 0 <= i ==> forall j :: 0 <= j < i ==> Field(docs[j].data, "name") != name
    decreases |docs|
  {
    if docs == [] then -1
    else if Field(docs[0].data, "name") == name then 0
    else
      var j := FindByName(docs[1..], name);
      if j == -1 then -1 else j + 1
  }

  /** The bucket entry `moveItemToBucket` writes for an item. */
  function JustMoved(userId: string, item: Record, originalPath: string, id: string, now: string): Record {
    DocData(ParseCollectionPath(BucketPath(userId)), BucketEntry(item, originalPath, now), id, now)
  }

  /** The move handler as written: an item already in the bucket is moved
      out directly; any other item is moved to the bucket (its failure is
      caught and the handler goes on), the bucket is listed, and the first
      entry whose name equals the item's is moved to the destination. */
  function MoveBetweenAsWritten(stores: Stores, userId: string, item: Record, originalPath: string, destination: string,
                                bucketId: string, id: string, now: string): Outcome
  {
    if Includes(originalPath, "/bucket/") then FromBucket(stores, userId, item, destination, id, now)
    else
      var first := ToBucket(stores, userId, item, originalPath, bucketId, now);
      MoveNamesake(first.stores, userId, Field(item, "name"), destination, id, now)
  }

  /** The second half of the as-written handler: list the bucket and move the
      first entry carrying `name` to the destination. */
  function MoveNamesake(stores: Stores, userId: string, name: Json, destination: string, id: string, now: string): Outcome {
    match GetDocsResult(stores, Collection(Text(BucketPath(userId))))
    case Err(e) => Outcome(stores, Some(e))
    case Ok(docs) =>
      var i := FindByName(docs, name);
      if i < 0 then Outcome(stores, None)
      else FromBucket(stores, userId, docs[i].data + map["id" := docs[i].id], destination, id, now)
  }

  /** The move handler with the entry it means: once the item is in the
      bucket, the entry just written under `bucketId` is moved out. */
  function MoveBetween(stores: Stores, userId: string, item: Record, originalPath: string, destination: string,
                       bucketId: string, id: string, now: string): Outcome
  {
    if Includes(originalPath, "/bucket/") then FromBucket(stores, userId, item, destination, id, now)
    else
      var first := ToBucket(stores, userId, item, originalPath, bucketId, now);
      if first.error.Some? then first
      else FromBucket(first.stores, userId, JustMoved(userId, item, originalPath, bucketId, now), destination, id, now)
  }

  method MoveItemBetween(db: Database, userId: string, item: Record, originalPath: string, destination: string,
                         bucketId: string, id: string, now: string)
    returns (error: Option<Error>)
    requires db.Valid()
    modifies db
    ensures db.Valid()
    ensures Outcome(db.stores, error) == MoveBetween(old(db.stores), userId, item, originalPath, destination, bucketId, id, now)
  {
    if Includes(originalPath, "/bucket/") {
      error := MoveItemFromBucket(db, userId, item, destination, id, now);
      return;
    }
    error := MoveItemToBucket(db, userId, item, originalPath, bucketId, now);
    if error.Some? {
      return;
    }
    error := MoveItemFromBucket(db, userId, JustMoved(userId, item, originalPath, bucketId, now), destination, id, now);
  }

  /** After a successful move of an item to the bucket the stores are
      still well keyed. */
  lemma ToBucketWellKeyed(stores: Stores, userId: string, item: Record, loc: Location, key: string, id: string, now: string)
    requires WellKeyed(stores) && PlainId(userId) && loc.ItemsOf? && WellFormed(loc) && Plain(key) && key != ""
    requires id !in stores["bucket"]
    ensures var o := ToBucket(stores, userId, item, ItemDoc(loc, key), id, now);
      && WellKeyed(o.stores)
      && o.stores["bucket"] == stores["bucket"][id := JustMoved(userId, item, ItemDoc(loc, key), id, now)]
  {
    ToBucketMoves(stores, userId, item, loc, key, id, now);
    ParseLocation(BucketOf(userId));
    var e := JustMoved(userId, item, ItemDoc(loc, key), id, now);
    assert e == DocData(Addressed(BucketOf(userId)), BucketEntry(item, ItemDoc(loc, key), now), id, now);
    JustMovedEntry(userId, item, ItemDoc(loc, key), id, now);
    InlineAfterMove(stores, e, key, id);
    var s := ToBucket(stores, userId, item, ItemDoc(loc, key), id, now).stores;
    assert s == stores["bucket" := stores["bucket"][id := e]]["items" := stores["items"] - {key}];
    assert s["bucket"] == stores["bucket"][id := e];
  }

  /** Adding a bucket entry under its own id and removing an item keeps
      every record under its key. */
  lemma InlineAfterMove(stores: Stores, e: Record, key: string, id: string)
    requires WellKeyed(stores) && Field(e, "id") == JStr(id)
    ensures WellKeyed(stores["bucket" := stores["bucket"][id := e]]["items" := stores["items"] - {key}])
  {
    var s := stores["bucket" := stores["bucket"][id := e]]["items" := stores["items"] - {key}];
    forall n, k | n in s && k in s[n] ensures Field(s[n][k], KeyPathOf(n)) == JStr(k) {
      if n == "bucket" {
        if k != id { assert s[n][k] == stores[n][k]; }
      } else if n == "items" {
        assert s[n][k] == stores[n][k];
      } else {
        assert s[n] == stores[n];
      }
    }
  }

  /** The intended handler moves an item of a container to the bucket and
      then moves the entry just written out of it. */
  lemma MoveBetweenViaBucket(stores: Stores, userId: string, item: Record, loc: Location, key: string, destination: string,
                             bucketId: string, id: string, now: string)
    requires WellKeyed(stores) && PlainId(userId) && loc.ItemsOf? && WellFormed(loc) && Plain(key) && key != ""
    requires !Includes(ItemDoc(loc, key), "/bucket/")
    requires bucketId !in stores["bucket"]
    ensures var e := JustMoved(userId, item, ItemDoc(loc, key), bucketId, now);
      var s1 := stores["bucket" := stores["bucket"][bucketId := e]]["items" := stores["items"] - {key}];
      && WellKeyed(s1)
      && Field(e, "id") == JStr(bucketId)
      && MoveBetween(stores, userId, item, ItemDoc(loc, key), destination, bucketId, id, now)
         == FromBucket(s1, userId, e, destination, id, now)
  {
    var path := ItemDoc(loc, key);
    var e := JustMoved(userId, item, path, bucketId, now);
    ToBucketWellKeyed(stores, userId, item, loc, key, bucketId, now);
    ToBucketMoves(stores, userId, item, loc, key, bucketId, now);
    ParseLocation(BucketOf(userId));
    assert e == DocData(Addressed(BucketOf(userId)), BucketEntry(item, path, now), bucketId, now);
  }

  /** With the intended handler, moving an item of one container to another
      leaves the bucket as it was and moves the item: it leaves its old key
      and arrives under the fresh id, carrying its fields. */
  lemma MoveBetweenRelocates(stores: Stores, userId: string, item: Record, loc: Location, key: string, destination: Location,
                             bucketId: string, id: string, now: string)
    requires WellKeyed(stores) && PlainId(userId) && loc.ItemsOf? && WellFormed(loc) && Plain(key) && key != ""
    requires destination.ItemsOf? && WellFormed(destination)
    requires !Includes(ItemDoc(loc, key), "/bucket/")
    requires bucketId !in stores["bucket"] && Plain(bucketId) && bucketId != ""
    requires id !in stores["items"]
    ensures var o := MoveBetween(stores, userId, item, ItemDoc(loc, key), LocationPath(destination), bucketId, id, now);
      var moved := RestoredItem(JustMoved(userId, item, ItemDoc(loc, key), bucketId, now));
      && o.error.None?
      && o.stores == stores["items" := (stores["items"] - {key})[id := DocData(Addressed(destination), moved, id, now)]]
  {
    var e := JustMoved(userId, item, ItemDoc(loc, key), bucketId, now);
    var s1 := stores["bucket" := stores["bucket"][bucketId := e]]["items" := stores["items"] - {key}];
    MoveBetweenViaBucket(stores, userId, item, loc, key, LocationPath(destination), bucketId, id, now);
    FromBucketMoves(s1, userId, e, destination, bucketId, id, now);
    BucketRestored(stores, e, key, bucketId, id, DocData(Addressed(destination), RestoredItem(e), id, now));
  }

  /** An entry added to the bucket and then taken out of it leaves the bucket as it was. */
  lemma BucketRestored(stores: Stores, e: Record, key: string, bucketId: string, id: string, d: Record)
    requires "bucket" in stores && "items" in stores && bucketId !in stores["bucket"]
    ensures var s1 := stores["bucket" := stores["bucket"][bucketId := e]]["items" := stores["items"] - {key}];
      s1["items" := s1["items"][id := d]]["bucket" := s1["bucket"] - {bucketId}]
        == stores["items" := (stores["items"] - {key})[id := d]]
  {
    assert stores["bucket"][bucketId := e] - {bucketId} == stores["bucket"];
  }

  /** The first entry of a listing with the item's name sorts at or before
      any other entry with that name, so when an older namesake sorts
      before the new id the entry found is not the one just moved. */
  lemma NamesakeFoundFirst(store: Store, p: Parsed, name: Json, older: string, newest: string)
    requires older in store && newest in store && older != newest && Below(older, newest)
    requires Matches(store[older], p) && Matches(store[newest], p)
    requires Field(store[older], "name") == name
    ensures var keys := ListedKeys(store, p); var i := FindByName(Snapshots(store, keys), name);
      0 <= i < |keys| && keys[i] != newest
  {
    var keys := ListedKeys(store, p);
    var docs := Snapshots(store, keys);
    ListedIff(store, p, older);
    ListedIff(store, p, newest);
    var jo :| 0 <= jo < |keys| && keys[jo] == older;
    var jn :| 0 <= jn < |keys| && keys[jn] == newest;
    SnapshotData(store, keys, jo);
    FirstNamedBefore(keys, docs, name, jo, jn);
  }

  lemma SnapshotData(store: Store, keys: seq<string>, j: nat)
    requires (forall k :: k in keys ==> k in store) && j < |keys|
    ensures Snapshots(store, keys)[j].data == store[keys[j]]
  {
  }

  /** In an ascending listing, the first document with a name comes no later
      than a named one, and so before any key that one sorts below. */
  lemma FirstNamedBefore(keys: seq<string>, docs: seq<DocSnapshot>, name: Json, jo: nat, jn: nat)
    requires Ascending(keys) && |docs| == |keys| && jo < |keys| && jn < |keys|
    requires Field(docs[jo].data, "name") == name
    requires Below(keys[jo], keys[jn]) && keys[jo] != keys[jn]
    ensures var i := FindByName(docs, name); 0 <= i < |keys| && keys[i] != keys[jn]
  {
    if jn < jo {
      BelowAntisymmetric(keys[jo], keys[jn]);
    } else {
      var i := FindByName(docs, name);
      assert i <= jo;
      assert i < jn;
    }
  }

  /** Moving a bucket entry out deletes that entry only: every other bucket
      entry stays. */
  lemma FromBucketKeepsOthers(stores: Stores, userId: string, entry: Record, destination: Location, key: string,
                              other: string, id: string, now: string)
    requires WellKeyed(stores) && PlainId(userId) && destination.ItemsOf? && WellFormed(destination)
    requires Field(entry, "id") == JStr(key) && Plain(key) && key != ""
    requires other in stores["bucket"] && other != key
    ensures var o := FromBucket(stores, userId, entry, LocationPath(destination), id, now);
      "bucket" in o.stores && other in o.stores["bucket"]
  {
    ParseLocation(destination);
    AddDocInsertsOne(stores, LocationPath(destination), RestoredItem(entry), id, now);
    BucketDocTarget(userId, key);
  }

  /** Listing the bucket lists the user's entries, in key order. */
  lemma BucketListing(stores: Stores, userId: string)
    requires "bucket" in stores && PlainId(userId)
    ensures var p := Addressed(BucketOf(userId));
      GetDocsResult(stores, Collection(Text(BucketPath(userId))))
        == Ok(Snapshots(stores["bucket"], ListedKeys(stores["bucket"], p)))
  {
    ParseLocation(BucketOf(userId));
  }

  /** The as-written second step on a bucket holding two entries with the
      same name lists the bucket and settles on an entry other than the newer. */
  lemma NamesakeListed(stores: Stores, userId: string, name: Json, destination: string, older: string, newest: string,
                       id: string, now: string)
    returns (found: string)
    requires WellKeyed(stores) && PlainId(userId)
    requires older in stores["bucket"] && newest in stores["bucket"] && older != newest && Below(older, newest)
    requires Matches(stores["bucket"][older], Addressed(BucketOf(userId)))
    requires Matches(stores["bucket"][newest], Addressed(BucketOf(userId)))
    requires Field(stores["bucket"][older], "name") == name
    ensures found in stores["bucket"] && found != newest
    ensures MoveNamesake(stores, userId, name, destination, id, now)
         == FromBucket(stores, userId, stores["bucket"][found] + map["id" := JStr(found)], destination, id, now)
  {
    var p := Addressed(BucketOf(userId));
    var bucket := stores["bucket"];
    NamesakeFoundFirst(bucket, p, name, older, newest);
    var keys := ListedKeys(bucket, p);
    var docs := Snapshots(bucket, keys);
    BucketListing(stores, userId);
    var i := FindByName(docs, name);
    found := keys[i];
    assert docs[i] == DocSnapshot(Field(bucket[found], "id"), bucket[found]);
    assert Field(bucket[found], "id") == JStr(found) by {
      assert KeyPathOf("bucket") == "id";
    }
  }

  /** ... and that entry, not the newer one, leaves the bucket. */
  lemma NamesakeMovedOut(stores: Stores, userId: string, name: Json, destination: Location, older: string, newest: string,
                         id: string, now: string)
    requires WellKeyed(stores) && PlainId(userId) && destination.ItemsOf? && WellFormed(destination)
    requires forall k :: k in stores["bucket"] ==> Plain(k) && k != ""
    requires older in stores["bucket"] && newest in stores["bucket"] && older != newest && Below(older, newest)
    requires Matches(stores["bucket"][older], Addressed(BucketOf(userId)))
    requires Matches(stores["bucket"][newest], Addressed(BucketOf(userId)))
    requires Field(stores["bucket"][older], "name") == name
    ensures var o := MoveNamesake(stores, userId, name, LocationPath(destination), id, now);
      "bucket" in o.stores && newest in o.stores["bucket"]
  {
    var found := NamesakeListed(stores, userId, name, LocationPath(destination), older, newest, id, now);
    var entry := stores["bucket"][found] + map["id" := JStr(found)];
    var moved := FromBucket(stores, userId, entry, LocationPath(destination), id, now);
    FromBucketKeepsOthers(stores, userId, entry, destination, found, newest, id, now);
    assert "bucket" in moved.stores && newest in moved.stores["bucket"];
    assert MoveNamesake(stores, userId, name, LocationPath(destination), id, now) == moved;
  }

  /** The entry just moved to the bucket keeps the item's name and belongs
      to the user's bucket listing. */
  lemma JustMovedEntry(userId: string, item: Record, originalPath: string, id: string, now: string)
    requires PlainId(userId)
    ensures Field(JustMoved(userId, item, originalPath, id, now), "name") == Field(item, "name")
    ensures Field(JustMoved(userId, item, originalPath, id, now), "id") == JStr(id)
    ensures Matches(JustMoved(userId, item, originalPath, id, now), Addressed(BucketOf(userId)))
  {
    ParseLocation(BucketOf(userId));
  }

  /** The as-written handler moves the item to the bucket and then lists
      the bucket for an entry with the item's name. */
  lemma AsWrittenViaBucket(stores: Stores, userId: string, item: Record, loc: Location, key: string, destination: string,
                           bucketId: string, id: string, now: string)
    returns (s1: Stores)
    requires WellKeyed(stores) && PlainId(userId) && loc.ItemsOf? && WellFormed(loc) && Plain(key) && key != ""
    requires !Includes(ItemDoc(loc, key), "/bucket/")
    requires bucketId !in stores["bucket"]
    ensures WellKeyed(s1)
    ensures s1["bucket"] == stores["bucket"][bucketId := JustMoved(userId, item, ItemDoc(loc, key), bucketId, now)]
    ensures MoveBetweenAsWritten(stores, userId, item, ItemDoc(loc, key), destination, bucketId, id, now)
         == MoveNamesake(s1, userId, Field(item, "name"), destination, id, now)
  {
    ToBucketWellKeyed(stores, userId, item, loc, key, bucketId, now);
    s1 := ToBucket(stores, userId, item, ItemDoc(loc, key), bucketId, now).stores;
  }

  /** As written, when the bucket already holds an entry with the item's
      name whose key sorts before the new id, the handler moves that older
      entry to the destination and the item just moved stays in the bucket. */
  lemma AsWrittenMovesNamesake(stores: Stores, userId: string, item: Record, loc: Location, key: string, destination: Location,
                               bucketId: string, id: string, now: string, older: string)
    requires WellKeyed(stores) && PlainId(userId) && loc.ItemsOf? && WellFormed(loc) && Plain(key) && key != ""
    requires destination.ItemsOf? && WellFormed(destination)
    requires !Includes(ItemDoc(loc, key), "/bucket/")
    requires bucketId !in stores["bucket"] && Plain(bucketId) && bucketId != ""
    requires forall k :: k in stores["bucket"] ==> Plain(k) && k != ""
    requires older in stores["bucket"] && Below(older, bucketId)
    requires Field(stores["bucket"][older], "name") == Field(item, "name")
    requires Matches(stores["bucket"][older], Addressed(BucketOf(userId)))
    ensures var o := MoveBetweenAsWritten(stores, userId, item, ItemDoc(loc, key), LocationPath(destination), bucketId, id, now);
      "bucket" in o.stores && bucketId in o.stores["bucket"]
  {
    var e := JustMoved(userId, item, ItemDoc(loc, key), bucketId, now);
    var s1 := AsWrittenViaBucket(stores, userId, item, loc, key, LocationPath(destination), bucketId, id, now);
    JustMovedEntry(userId, item, ItemDoc(loc, key), bucketId, now);
    NamesakeAfterMove(stores["bucket"], s1, userId, e, Field(item, "name"), destination, older, bucketId, id, now);
  }

  /** The bucket after the first step holds the older namesake and the new
      entry side by side, so the listing settles on the older one. */
  lemma NamesakeAfterMove(bucket: Store, s1: Stores, userId: string, e: Record, name: Json, destination: Location,
                          older: string, bucketId: string, id: string, now: string)
    requires WellKeyed(s1) && PlainId(userId) && destination.ItemsOf? && WellFormed(destination)
    requires s1["bucket"] == bucket[bucketId := e]
    requires bucketId !in bucket && Plain(bucketId) && bucketId != ""
    requires forall k :: k in bucket ==> Plain(k) && k != ""
    requires older in bucket && Below(older, bucketId)
    requires Field(bucket[older], "name") == name
    requires Matches(bucket[older], Addressed(BucketOf(userId)))
    requires Matches(e, Addressed(BucketOf(userId)))
    ensures var o := MoveNamesake(s1, userId, name, LocationPath(destination), id, now);
      "bucket" in o.stores && bucketId in o.stores["bucket"]
  {
    var b1 := s1["bucket"];
    assert older != bucketId;
    assert older in b1 && b1[older] == bucket[older];
    assert bucketId in b1 && b1[bucketId] == e;
    assert forall k :: k in b1 ==> Plain(k) && k != "" by {
      forall k | k in b1 ensures Plain(k) && k != "" {
        if k != bucketId { assert k in bucket; }
      }
    }
    NamesakeMovedOut(s1, userId, name, destination, older, bucketId, id, now);
  }
}
