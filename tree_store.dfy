/** The nested-tree document store kept under one localStorage key: a
    single JSON tree `users/<uid>/warehouses/<id>/rooms/...`, which every
    operation walks segment by segment from the root. */
module TreeStore {
  import opened Json
  import opened Paths
  import opened KeyOrder
  import opened ObjectEntries

  /** The tree a fresh database starts from. */
  const InitialTree: Json :=
    JObj(map["users" := JObj(map["anonymous-user" := JObj(map["warehouses" := JObj(map[]), "bucket" := JObj(map[])])])])

  /** `{ path, id }` as `collection(path)` and `doc(path, id)` return it. */
  datatype LRef = LRef(path: string, id: Option<string>)

  function LCollection(path: string): LRef {
    LRef(path, None)
  }

  function LDoc(path: string, id: Option<string>): LRef {
    LRef(path, id)
  }

  /** The path an update, delete or batch set addresses: `path/id` when the
      id is truthy, the path alone otherwise. */
  function FullPath(ref: LRef): string {
    if Present(ref.id) then ref.path + "/" + ref.id.value else ref.path
  }

  /** With a slash-free id the full path is the collection path plus one segment. */
  lemma FullPathSegments(ref: LRef)
    requires Present(ref.id) && Plain(ref.id.value)
    ensures Split(FullPath(ref)) == Split(ref.path) + [ref.id.value]
    ensures Last(Split(FullPath(ref))) == ref.id.value
    ensures Init(Split(FullPath(ref))) == Split(ref.path)
  {
    AppendSegment(ref.path, ref.id.value);
    var parts := Split(ref.path) + [ref.id.value];
    assert Init(parts) == Split(ref.path);
  }

  // ---------------------------------------------------------------------
  // Walking the tree

  /** What is done to the node a walk reaches: assign a member, or merge a
      patch into a member that is truthy. */
  datatype LeafOp = Assign(key: string, value: Json) | Merge(key: string, patch: Record)

  function AtLeaf(node: Json, op: LeafOp): Result<Json> {
    match op
    case Assign(k, v) =>
      if node.JObj? then Ok(JObj(node.fields[k := v])) else Err(TypeError)
    case Merge(k, patch) =>
      if node == JNull || node == JUndefined then Err(TypeError)
      else
        var leaf := Child(node, k);
        if Truthy(leaf) then Ok(JObj(node.fields[k := JObj(SpreadOf(leaf) + patch)])) else Ok(node)
  }

  /** `if (!current[part]) current[part] = {}; current = current[part]`. */
  function Step(fields: map<string, Json>, k: string): Json {
    var c := Field(fields, k);
    if Truthy(c) then c else JObj(map[])
  }

  /** The creating walk then the leaf operation, as the new root. Setting a
      member of `null`, `undefined` or a primitive throws. */
  function Touch(node: Json, parts: seq<string>, op: LeafOp): Result<Json>
    decreases |parts|
  {
    if parts == [] then AtLeaf(node, op)
    else if !node.JObj? then Err(TypeError)
    else Wrap(node.fields, parts[0], Touch(Step(node.fields, parts[0]), parts[1..], op))
  }

  /** A changed child put back into its parent. */
  function Wrap(fields: map<string, Json>, k: string, child: Result<Json>): Result<Json> {
    if child.Err? then child else Ok(JObj(fields[k := child.value]))
  }

  /** The node the creating walk of `getDocs` ends on. */
  function Reach(node: Json, parts: seq<string>): Result<Json>
    decreases |parts|
  {
    if parts == [] then Ok(node)
    else if !node.JObj? then Err(TypeError)
    else Reach(Step(node.fields, parts[0]), parts[1..])
  }

  /** The walk of `deleteDoc`: it stops, changing nothing, at the first
      missing node, and otherwise deletes the member `key` of the last node. */
  function RemoveAt(node: Json, parts: seq<string>, key: string): Result<Json>
    decreases |parts|
  {
    if node == JNull || node == JUndefined then Err(TypeError)
    else if parts == [] then (if node.JObj? then Ok(JObj(node.fields - {key})) else Ok(node))
    else
      var child := Child(node, parts[0]);
      if !Truthy(child) then Ok(node)
      else Wrap(node.fields, parts[0], RemoveAt(child, parts[1..], key))
  }

  /** Reading a path without changing anything: `undefined` once it leaves the objects. */
  function Lookup(node: Json, parts: seq<string>): Json
    decreases |parts|
  {
    if parts == [] then node else Lookup(Child(node, parts[0]), parts[1..])
  }

  /** Every node above the leaf exists (is truthy). */
  predicate PathPresent(node: Json, parts: seq<string>)
    decreases |parts|
  {
    parts == [] || (Truthy(Child(node, parts[0])) && PathPresent(Child(node, parts[0]), parts[1..]))
  }

  /** `q` leaves `p` at some position both reach. */
  predicate Diverge(p: seq<string>, q: seq<string>)
    decreases |p|
  {
    p != [] && q != [] && (p[0] != q[0] || Diverge(p[1..], q[1..]))
  }

  // ---------------------------------------------------------------------
  // The store operations on the saved tree

  /** A document of a `getDocs` result: `{ id, data: () => data, ...data }`. */
  datatype TreeDoc = TreeDoc(members: Record, data: Json)

  function DocOf(key: string, value: Json): TreeDoc {
    TreeDoc(map["id" := JStr(key)] + SpreadOf(value), value)
  }

  function DocsOf(es: seq<(string, Json)>): (docs: seq<TreeDoc>)
    ensures |docs| == |es|
    ensures forall i :: 0 <= i < |es| ==> docs[i] == DocOf(es[i].0, es[i].1)
    decreases |es|
  {
    if es == [] then [] else [DocOf(es[0].0, es[0].1)] + DocsOf(es[1..])
  }

  /** `getDocs(collectionRef)`; the nodes it creates are never saved. */
  function TreeGetDocs(tree: Json, ref: LRef): Result<seq<TreeDoc>> {
    var node :- Reach(tree, Split(ref.path));
    Ok(DocsOf(Entries(node)))
  }

  /** `addDoc(collectionRef, data)` with `id` generated and `now` the time. */
  function TreeAddDoc(tree: Json, ref: LRef, data: Record, id: string, now: string): Result<Json> {
    Touch(tree, Split(ref.path), Assign(id, JObj(data + map["createdAt" := JStr(now)])))
  }

  /** `updateDoc(docRef, patch)`. */
  function TreeUpdateDoc(tree: Json, ref: LRef, patch: Record): Result<Json> {
    var parts := Split(FullPath(ref));
    Touch(tree, Init(parts), Merge(Last(parts), patch))
  }

  /** `deleteDoc(docRef)`. */
  function TreeDeleteDoc(tree: Json, ref: LRef): Result<Json> {
    var parts := Split(FullPath(ref));
    RemoveAt(tree, Init(parts), Last(parts))
  }

  /** A batched `set`: the leaf becomes exactly `data`. */
  function TreeSet(tree: Json, ref: LRef, data: Json): Result<Json> {
    var parts := Split(FullPath(ref));
    Touch(tree, Init(parts), Assign(Last(parts), data))
  }

  datatype BatchOp = SetOp(ref: LRef, data: Json) | DeleteOp(ref: LRef)

  function ApplyOp(tree: Json, op: BatchOp): Result<Json> {
    match op
    case SetOp(ref, data) => TreeSet(tree, ref, data)
    case DeleteOp(ref) => TreeDeleteDoc(tree, ref)
  }

  /** The saved tree after a commit, and the error that stopped it. */
  datatype TreeOutcome = TreeOutcome(tree: Json, error: Option<Error>)

  /** The queued operations in order, each saved as it completes. */
  function CommitOps(tree: Json, ops: seq<BatchOp>): TreeOutcome
    decreases |ops|
  {
    if ops == [] then TreeOutcome(tree, None)
    else
      match ApplyOp(tree, ops[0])
      case Err(e) => TreeOutcome(tree, Some(e))
      case Ok(t) => CommitOps(t, ops[1..])
  }

  // ---------------------------------------------------------------------
  // Properties of the walks

  lemma {:induction false} LookupAppend(node: Json, parts: seq<string>, k: string)
    ensures Lookup(node, parts + [k]) == Child(Lookup(node, parts), k)
    decreases |parts|
  {
    if parts == [] {
      assert [] + [k] == [k];
    } else {
      assert (parts + [k])[1..] == parts[1..] + [k];
      LookupAppend(Child(node, parts[0]), parts[1..], k);
    }
  }

  lemma {:induction false} LookupOutside(v: Json, q: seq<string>)
    requires !v.JObj? && q != []
    ensures Lookup(v, q) == JUndefined
    decreases |q|
  {
    if q[1..] != [] {
      LookupOutside(JUndefined, q[1..]);
    }
  }

  /** The creating walk succeeds exactly when `getDocs`' walk reaches a node
      the leaf operation accepts, and the leaf then holds what that produced. */
  lemma {:induction false} TouchReaches(node: Json, parts: seq<string>, op: LeafOp)
    ensures Touch(node, parts, op).Ok? <==> Reach(node, parts).Ok? && AtLeaf(Reach(node, parts).value, op).Ok?
    ensures Touch(node, parts, op).Ok? ==>
      Lookup(Touch(node, parts, op).value, parts) == AtLeaf(Reach(node, parts).value, op).value
    decreases |parts|
  {
    if parts != [] && node.JObj? {
      TouchReaches(Step(node.fields, parts[0]), parts[1..], op);
    }
  }

  /** Outside the walked path and the leaf, the tree reads as before: the
      nodes the walk creates hold nothing but the path. */
  lemma {:induction false} TouchFrame(node: Json, parts: seq<string>, op: LeafOp, q: seq<string>)
    requires Touch(node, parts, op).Ok?
    requires Diverge(parts + [op.key], q)
    ensures Lookup(Touch(node, parts, op).value, q) == Lookup(node, q)
    decreases |parts|
  {
    var r := Touch(node, parts, op).value;
    if parts == [] {
      assert [] + [op.key] == [op.key];
      assert q[0] != op.key;
      assert Child(r, q[0]) == Child(node, q[0]);
    } else {
      var next := Step(node.fields, parts[0]);
      var updated := Touch(next, parts[1..], op).value;
      assert r == JObj(node.fields[parts[0] := updated]);
      assert (parts + [op.key])[1..] == parts[1..] + [op.key];
      if q[0] != parts[0] {
        assert Child(r, q[0]) == Child(node, q[0]);
      } else {
        TouchFrame(next, parts[1..], op, q[1..]);
        var c := Child(node, q[0]);
        if !Truthy(c) {
          assert q[1..] != [];
          LookupOutside(c, q[1..]);
          assert Lookup(next, q[1..]) == Lookup(Child(next, q[1]), q[2..]);
          if q[2..] != [] {
            LookupOutside(Child(next, q[1]), q[2..]);
          }
        }
      }
    }
  }

  /** Where `getDocs` walks to: the node at the path when it exists, an
      empty object when it does not. */
  lemma {:induction false} ReachLookup(node: Json, parts: seq<string>)
    requires parts != [] && Reach(node, parts).Ok?
    ensures Reach(node, parts).value == (if Truthy(Lookup(node, parts)) then Lookup(node, parts) else JObj(map[]))
    decreases |parts|
  {
    var next := Step(node.fields, parts[0]);
    var c := Child(node, parts[0]);
    if parts[1..] != [] {
      ReachLookup(next, parts[1..]);
      if !Truthy(c) {
        LookupOutside(c, parts[1..]);
        assert Lookup(next, parts[1..]) == Lookup(JUndefined, parts[2..]);
        if parts[2..] != [] {
          LookupOutside(JUndefined, parts[2..]);
        }
      }
    }
  }

  /** After a successful creating walk that assigns, `getDocs`' walk finds
      the assigned node without creating anything. */
  lemma {:induction false} TouchAssignReachable(node: Json, parts: seq<string>, k: string, v: Json)
    requires Touch(node, parts, Assign(k, v)).Ok?
    ensures Reach(Touch(node, parts, Assign(k, v)).value, parts) == Ok(Lookup(Touch(node, parts, Assign(k, v)).value, parts))
    ensures Lookup(Touch(node, parts, Assign(k, v)).value, parts).JObj?
    decreases |parts|
  {
    TouchReaches(node, parts, Assign(k, v));
    if parts != [] {
      var next := Step(node.fields, parts[0]);
      TouchAssignReachable(next, parts[1..], k, v);
      var updated := Touch(next, parts[1..], Assign(k, v)).value;
      var r := JObj(node.fields[parts[0] := updated]);
      assert Step(r.fields, parts[0]) == updated;
    }
  }

  lemma {:induction false} RemoveKeepsMissing(node: Json, parts: seq<string>, key: string)
    requires RemoveAt(node, parts, key).Ok? && !PathPresent(node, parts)
    ensures RemoveAt(node, parts, key) == Ok(node)
    decreases |parts|
  {
    var c := Child(node, parts[0]);
    if Truthy(c) {
      RemoveKeepsMissing(c, parts[1..], key);
      assert node.fields[parts[0] := c] == node.fields;
    }
  }

  /** `deleteDoc` leaves the tree alone when a node above the leaf is
      missing; otherwise the leaf reads as `undefined` afterwards. */
  lemma {:induction false} RemoveLeaf(node: Json, parts: seq<string>, key: string)
    requires RemoveAt(node, parts, key).Ok?
    ensures !PathPresent(node, parts) ==> RemoveAt(node, parts, key) == Ok(node)
    ensures PathPresent(node, parts) ==> Lookup(RemoveAt(node, parts, key).value, parts + [key]) == JUndefined
    decreases |parts|
  {
    if !PathPresent(node, parts) {
      RemoveKeepsMissing(node, parts, key);
    } else if parts == [] {
      assert [] + [key] == [key];
    } else {
      var c := Child(node, parts[0]);
      RemoveLeaf(c, parts[1..], key);
      assert (parts + [key])[1..] == parts[1..] + [key];
    }
  }

  /** Deleting removes nothing but the leaf. */
  lemma {:induction false} RemoveFrame(node: Json, parts: seq<string>, key: string, q: seq<string>)
    requires RemoveAt(node, parts, key).Ok?
    requires Diverge(parts + [key], q)
    ensures Lookup(RemoveAt(node, parts, key).value, q) == Lookup(node, q)
    decreases |parts|
  {
    var r := RemoveAt(node, parts, key).value;
    if parts == [] {
      assert [] + [key] == [key];
      assert Child(r, q[0]) == Child(node, q[0]);
    } else {
      var c := Child(node, parts[0]);
      assert (parts + [key])[1..] == parts[1..] + [key];
      if Truthy(c) {
        if q[0] != parts[0] {
          assert Child(r, q[0]) == Child(node, q[0]);
        } else {
          RemoveFrame(c, parts[1..], key, q[1..]);
        }
      }
    }
  }

  /** A second delete of the same leaf changes nothing. */
  lemma {:induction false} RemoveIdempotent(node: Json, parts: seq<string>, key: string)
    requires RemoveAt(node, parts, key).Ok?
    ensures RemoveAt(RemoveAt(node, parts, key).value, parts, key) == RemoveAt(node, parts, key)
    decreases |parts|
  {
    var r := RemoveAt(node, parts, key).value;
    if parts == [] {
      if node.JObj? {
        assert r.fields - {key} == r.fields;
      }
    } else {
      var c := Child(node, parts[0]);
      if Truthy(c) {
        RemoveIdempotent(c, parts[1..], key);
        var updated := RemoveAt(c, parts[1..], key).value;
        assert Child(r, parts[0]) == updated;
        assert r.fields[parts[0] := updated] == r.fields;
      }
    }
  }

  // ---------------------------------------------------------------------
  // Properties of the store operations

  /** A fresh database holds the anonymous user's empty warehouses and bucket. */
  lemma InitialTreeShape()
    ensures Lookup(InitialTree, ["users", "anonymous-user", "warehouses"]) == JObj(map[])
    ensures Lookup(InitialTree, ["users", "anonymous-user", "bucket"]) == JObj(map[])
    ensures InitialTree.fields.Keys == {"users"}
  {
  }

  /** `getDocs` lists one document per member of the node at the path, in
      key order, each carrying its value and, unless the value has an `id`
      of its own, its key as `id`; a path with a missing node lists nothing. */
  lemma TreeGetDocsListsMembers(tree: Json, ref: LRef)
    requires TreeGetDocs(tree, ref).Ok?
    ensures var parts := Split(ref.path); var docs := TreeGetDocs(tree, ref).value;
      var es := Entries(Reach(tree, parts).value);
      && |docs| == |es|
      && (forall i :: 0 <= i < |docs| ==> docs[i].data == es[i].1)
      && (forall i :: 0 <= i < |docs| && "id" !in SpreadOf(es[i].1) ==> docs[i].members["id"] == JStr(es[i].0))
      && (!Truthy(Lookup(tree, parts)) ==> docs == [])
      && (Truthy(Lookup(tree, parts)) ==> Reach(tree, parts).value == Lookup(tree, parts))
  {
    ReachLookup(tree, Split(ref.path));
  }

  /** `addDoc` adds exactly one member, the data plus `createdAt`, under the
      fresh id to the node `getDocs` lists, creating missing nodes; nothing
      outside the path changes. */
  lemma TreeAddDocAddsOne(tree: Json, ref: LRef, data: Record, id: string, now: string)
    requires TreeAddDoc(tree, ref, data, id, now).Ok?
    ensures var parts := Split(ref.path); var r := TreeAddDoc(tree, ref, data, id, now).value;
      && Reach(tree, parts).Ok? && Reach(tree, parts).value.JObj?
      && Reach(r, parts)
         == Ok(JObj(Reach(tree, parts).value.fields[id := JObj(data + map["createdAt" := JStr(now)])]))
      && (forall q :: Diverge(parts + [id], q) ==> Lookup(r, q) == Lookup(tree, q))
  {
    var parts := Split(ref.path);
    var op := Assign(id, JObj(data + map["createdAt" := JStr(now)]));
    TouchReaches(tree, parts, op);
    TouchAssignReachable(tree, parts, id, op.value);
    forall q | Diverge(parts + [id], q) ensures Lookup(TreeAddDoc(tree, ref, data, id, now).value, q) == Lookup(tree, q) {
      TouchFrame(tree, parts, op, q);
    }
  }

  /** `updateDoc` merges the patch into the leaf when the leaf exists and
      leaves a missing leaf missing; nothing outside the path changes. */
  lemma TreeUpdateMerges(tree: Json, ref: LRef, patch: Record)
    requires TreeUpdateDoc(tree, ref, patch).Ok?
    ensures var parts := Split(FullPath(ref)); var r := TreeUpdateDoc(tree, ref, patch).value;
      var before := Lookup(tree, parts);
      && Lookup(r, parts) == (if Truthy(before) then JObj(SpreadOf(before) + patch) else before)
      && (Init(parts) != [] ==> Truthy(Lookup(r, Init(parts))))
      && (forall q :: Diverge(parts, q) ==> Lookup(r, q) == Lookup(tree, q))
  {
    var parts := Split(FullPath(ref));
    var init := Init(parts);
    var op := Merge(Last(parts), patch);
    InitLast(parts);
    TouchReaches(tree, init, op);
    var reached := Reach(tree, init).value;
    var r := TreeUpdateDoc(tree, ref, patch).value;
    LookupAppend(r, init, Last(parts));
    LookupAppend(tree, init, Last(parts));
    if init != [] {
      ReachLookup(tree, init);
      if !Truthy(Lookup(tree, init)) {
        assert !Lookup(tree, init).JObj?;
      }
    }
    forall q | Diverge(parts, q) ensures Lookup(r, q) == Lookup(tree, q) {
      TouchFrame(tree, init, op, q);
    }
  }

  /** `deleteDoc` leaves the leaf `undefined`, changes nothing when a node
      above it is missing, touches nothing outside the path, and is idempotent. */
  lemma TreeDeleteRemovesLeaf(tree: Json, ref: LRef)
    requires TreeDeleteDoc(tree, ref).Ok?
    ensures var parts := Split(FullPath(ref)); var r := TreeDeleteDoc(tree, ref).value;
      && (PathPresent(tree, Init(parts)) ==> Lookup(r, parts) == JUndefined)
      && (!PathPresent(tree, Init(parts)) ==> r == tree)
      && (forall q :: Diverge(parts, q) ==> Lookup(r, q) == Lookup(tree, q))
      && TreeDeleteDoc(r, ref) == Ok(r)
  {
    var parts := Split(FullPath(ref));
    InitLast(parts);
    RemoveLeaf(tree, Init(parts), Last(parts));
    RemoveIdempotent(tree, Init(parts), Last(parts));
    forall q | Diverge(parts, q) ensures Lookup(TreeDeleteDoc(tree, ref).value, q) == Lookup(tree, q) {
      RemoveFrame(tree, Init(parts), Last(parts), q);
    }
  }

  /** A batched `set` writes exactly the given data, with no `createdAt`,
      and touches nothing outside the path. */
  lemma TreeSetExact(tree: Json, ref: LRef, data: Json)
    requires TreeSet(tree, ref, data).Ok?
    ensures var parts := Split(FullPath(ref)); var r := TreeSet(tree, ref, data).value;
      && Lookup(r, parts) == data
      && (forall q :: Diverge(parts, q) ==> Lookup(r, q) == Lookup(tree, q))
  {
    var parts := Split(FullPath(ref));
    var init := Init(parts);
    var op := Assign(Last(parts), data);
    InitLast(parts);
    TouchReaches(tree, init, op);
    LookupAppend(TreeSet(tree, ref, data).value, init, Last(parts));
    forall q | Diverge(parts, q) ensures Lookup(TreeSet(tree, ref, data).value, q) == Lookup(tree, q) {
      TouchFrame(tree, init, op, q);
    }
  }

  /** Committing two queues in turn is committing their concatenation. */
  lemma {:induction false} CommitOpsAppend(tree: Json, a: seq<BatchOp>, b: seq<BatchOp>)
    ensures CommitOps(tree, a + b)
         == (var o := CommitOps(tree, a); if o.error.Some? then o else CommitOps(o.tree, b))
    decreases |a|
  {
    if a == [] {
      assert a + b == b;
    } else {
      assert (a + b)[0] == a[0] && (a + b)[1..] == a[1..] + b;
      match ApplyOp(tree, a[0])
      case Err(e) =>
      case Ok(t) => CommitOpsAppend(t, a[1..], b);
    }
  }

  // ---------------------------------------------------------------------
  // The walks as loops over a `current` pointer

  /** A parent left behind on the way down: its members and the member
      the walk went into. */
  datatype Frame = Frame(fields: map<string, Json>, key: string)

  /** Re-linking a node into the parents above it. */
  function Plug(frames: seq<Frame>, node: Json): Json
    decreases |frames|
  {
    if frames == [] then node
    else
      var f := frames[|frames| - 1];
      Plug(frames[..|frames| - 1], JObj(f.fields[f.key := node]))
  }

  function Lift(frames: seq<Frame>, r: Result<Json>): Result<Json> {
    if r.Err? then r else Ok(Plug(frames, r.value))
  }

  lemma LiftWrap(frames: seq<Frame>, fields: map<string, Json>, k: string, r: Result<Json>)
    ensures Lift(frames, Wrap(fields, k, r)) == Lift(frames + [Frame(fields, k)], r)
  {
    assert (frames + [Frame(fields, k)])[..|frames|] == frames;
  }

  method Rebuild(frames: seq<Frame>, node: Json) returns (tree: Json)
    ensures tree == Plug(frames, node)
  {
    tree := node;
    var j := |frames|;
    assert frames[..j] == frames;
    while j > 0
      invariant 0 <= j <= |frames|
      invariant Plug(frames[..j], tree) == Plug(frames, node)
    {
      j := j - 1;
      assert frames[..j + 1][..j] == frames[..j];
      tree := JObj(frames[j].fields[frames[j].key := tree]);
    }
  }

  /** The creating walk of `addDoc`, `updateDoc` and a batched `set`. */
  method WalkTouch(root: Json, parts: seq<string>, op: LeafOp) returns (r: Result<Json>)
    ensures r == Touch(root, parts, op)
  {
    var frames: seq<Frame> := [];
    var current := root;
    var i := 0;
    while i < |parts|
      invariant 0 <= i <= |parts|
      invariant Touch(root, parts, op) == Lift(frames, Touch(current, parts[i..], op))
    {
      if !current.JObj? {
        return Err(TypeError);
      }
      assert parts[i..][0] == parts[i] && parts[i..][1..] == parts[i + 1..];
      var next := Step(current.fields, parts[i]);
      LiftWrap(frames, current.fields, parts[i], Touch(next, parts[i + 1..], op));
      frames := frames + [Frame(current.fields, parts[i])];
      current := next;
      i := i + 1;
    }
    var leaf := AtLeaf(current, op);
    if leaf.Err? {
      return Err(leaf.error);
    }
    var tree := Rebuild(frames, leaf.value);
    r := Ok(tree);
  }

  /** The walk of `getDocs`, which creates missing nodes only in its copy. */
  method WalkReach(root: Json, parts: seq<string>) returns (r: Result<Json>)
    ensures r == Reach(root, parts)
  {
    var current := root;
    var i := 0;
    while i < |parts|
      invariant 0 <= i <= |parts|
      invariant Reach(root, parts) == Reach(current, parts[i..])
    {
      if !current.JObj? {
        return Err(TypeError);
      }
      assert parts[i..][0] == parts[i] && parts[i..][1..] == parts[i + 1..];
      current := Step(current.fields, parts[i]);
      i := i + 1;
    }
    r := Ok(current);
  }

  /** The walk of `deleteDoc`; `Ok(None)` is the early return that saves nothing. */
  method WalkRemove(root: Json, parts: seq<string>, key: string) returns (r: Result<Option<Json>>)
    ensures match r
      case Err(e) => RemoveAt(root, parts, key) == Err(e)
      case Ok(None) => RemoveAt(root, parts, key) == Ok(root)
      case Ok(Some(t)) => RemoveAt(root, parts, key) == Ok(t)
  {
    var frames: seq<Frame> := [];
    var current := root;
    var i := 0;
    while i < |parts|
      invariant 0 <= i <= |parts|
      invariant RemoveAt(root, parts, key) == Lift(frames, RemoveAt(current, parts[i..], key))
      invariant Plug(frames, current) == root
    {
      if current == JNull || current == JUndefined {
        return Err(TypeError);
      }
      assert parts[i..][0] == parts[i] && parts[i..][1..] == parts[i + 1..];
      var child := Child(current, parts[i]);
      if !Truthy(child) {
        return Ok(None);
      }
      LiftWrap(frames, current.fields, parts[i], RemoveAt(child, parts[i + 1..], key));
      assert current.fields[parts[i] := child] == current.fields;
      assert (frames + [Frame(current.fields, parts[i])])[..|frames|] == frames;
      frames := frames + [Frame(current.fields, parts[i])];
      current := child;
      i := i + 1;
    }
    if current == JNull || current == JUndefined {
      return Err(TypeError);
    }
    var leaf := if current.JObj? then JObj(current.fields - {key}) else current;
    var tree := Rebuild(frames, leaf);
    r := Ok(Some(tree));
  }

  // ---------------------------------------------------------------------
  // The database

  /** The tree saved under the database key, and the verbs that read and save it. */
  class TreeDatabase {
    var saved: Json

    /** `initDB()`: the saved tree, or the initial tree when nothing is saved yet. */
    constructor (stored: Option<Json>)
      ensures saved == (if stored.None? then InitialTree else stored.value)
    {
      saved := if stored.None? then InitialTree else stored.value;
    }

    method GetDocs(ref: LRef) returns (r: Result<seq<TreeDoc>>)
      ensures r == TreeGetDocs(saved, ref)
    {
      var node := WalkReach(saved, Split(ref.path));
      if node.Err? {
        return Err(node.error);
      }
      r := Ok(DocsOf(Entries(node.value)));
    }

    method AddDoc(ref: LRef, data: Record, id: string, now: string) returns (r: Result<string>)
      modifies this
      ensures match TreeAddDoc(old(saved), ref, data, id, now)
        case Ok(t) => r == Ok(id) && saved == t
        case Err(e) => r == Err(e) && saved == old(saved)
    {
      var tree := WalkTouch(saved, Split(ref.path), Assign(id, JObj(data + map["createdAt" := JStr(now)])));
      if tree.Err? {
        return Err(tree.error);
      }
      saved := tree.value;
      r := Ok(id);
    }

    method UpdateDoc(ref: LRef, patch: Record) returns (r: Result<()>)
      modifies this
      ensures match TreeUpdateDoc(old(saved), ref, patch)
        case Ok(t) => r == Ok(()) && saved == t
        case Err(e) => r == Err(e) && saved == old(saved)
    {
      var parts := Split(FullPath(ref));
      var tree := WalkTouch(saved, Init(parts), Merge(Last(parts), patch));
      if tree.Err? {
        return Err(tree.error);
      }
      saved := tree.value;
      r := Ok(());
    }

    method DeleteDoc(ref: LRef) returns (r: Result<()>)
      modifies this
      ensures match TreeDeleteDoc(old(saved), ref)
        case Ok(t) => r == Ok(()) && saved == t
        case Err(e) => r == Err(e) && saved == old(saved)
    {
      var parts := Split(FullPath(ref));
      var tree := WalkRemove(saved, Init(parts), Last(parts));
      if tree.Err? {
        return Err(tree.error);
      }
      if tree.value.Some? {
        saved := tree.value.value;
      }
      r := Ok(());
    }
  }

  /** `writeBatch()`: a queue of sets and deletes replayed on commit. */
  class TreeBatch {
    var operations: seq<BatchOp>

    constructor ()
      ensures operations == []
    {
      operations := [];
    }

    method Set(ref: LRef, data: Json)
      modifies this
      ensures operations == old(operations) + [SetOp(ref, data)]
    {
      operations := operations + [SetOp(ref, data)];
    }

    method Delete(ref: LRef)
      modifies this
      ensures operations == old(operations) + [DeleteOp(ref)]
    {
      operations := operations + [DeleteOp(ref)];
    }

    /** `batch.commit()`: each operation is saved as it completes; the first
        that throws stops the rest. */
    method Commit(db: TreeDatabase) returns (error: Option<Error>)
      modifies db
      ensures TreeOutcome(db.saved, error) == CommitOps(old(db.saved), operations)
    {
      var i := 0;
      while i < |operations|
        invariant 0 <= i <= |operations|
        invariant CommitOps(old(db.saved), operations) == CommitOps(db.saved, operations[i..])
      {
        assert operations[i..][0] == operations[i] && operations[i..][1..] == operations[i + 1..];
        match operations[i] {
          case SetOp(ref, data) =>
            var parts := Split(FullPath(ref));
            var tree := WalkTouch(db.saved, Init(parts), Assign(Last(parts), data));
            if tree.Err? {
              return Some(tree.error);
            }
            db.saved := tree.value;
          case DeleteOp(ref) =>
            var r := db.DeleteDoc(ref);
            if r.Err? {
              return Some(r.error);
            }
        }
        i := i + 1;
      }
      error := None;
    }
  }
}
