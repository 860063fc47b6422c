/** References and the path codec of the IndexedDB document store: a
    slash path is classified by the keywords it contains into the object
    store it addresses, the chain of ancestor ids its records carry, and
    the owning user. */
module PathCodec {
  import opened Json
  import opened Paths

  datatype RefKind = CollectionRef | DocumentRef

  /** The `_path` member of a reference: normally a string, but the
      reference constructors store whatever they are given. */
  datatype PathValue = Text(s: string) | NestedRef(inner: Ref) | Undefined

  /** `{ _path, _type }`. */
  datatype Ref = Ref(path: PathValue, kind: RefKind)

  /** `${path}` for a `_path` value. */
  function PathTemplate(p: PathValue): string {
    match p
    case Text(s) => s
    case NestedRef(_) => "[object Object]"
    case Undefined => "undefined"
  }

  /** `collection(path)`: a reference that does not touch storage. */
  function Collection(path: PathValue): Ref {
    Ref(path, CollectionRef)
  }

  /** `doc(path, id)`: `${path}/${id}` when `id` is truthy, `path` otherwise. */
  function Doc(path: PathValue, id: Option<string>): Ref {
    if Present(id) then Ref(Text(PathTemplate(path) + "/" + id.value), DocumentRef)
    else Ref(path, DocumentRef)
  }

  /** A truthy, slash-free id adds exactly one segment, the id, after the
      collection's own segments; a falsy id leaves the path as given. */
  lemma DocPath(path: string, id: Option<string>)
    ensures !Present(id) ==> Doc(Text(path), id) == Ref(Text(path), DocumentRef)
    ensures Present(id) && Plain(id.value) ==>
      var r := Doc(Text(path), id);
      && r.kind == DocumentRef && r.path.Text?
      && Split(r.path.s) == Split(path) + [id.value]
      && Last(Split(r.path.s)) == id.value
      && Join(Init(Split(r.path.s))) == path
  {
    if Present(id) && Plain(id.value) {
      AppendSegment(path, id.value);
      JoinSplit(path);
      assert Init(Split(path) + [id.value]) == Split(path);
    }
  }

  /** `ref._path.split('/')` throws unless `_path` is a string. */
  function PathText(r: Ref): Result<string> {
    if r.path.Text? then Ok(r.path.s) else Err(TypeError)
  }

  /** What a collection path addresses. `parentKey` and `userId` are
      strings, or `null`/`undefined` where the path gives none. */
  datatype Parsed = Parsed(storeName: string, parentKey: Json, userId: Json)

  /** `parts[i]`: `undefined` outside the array (including `parts[-1]`). */
  function Segment(parts: seq<string>, i: int): Json {
    if 0 <= i < |parts| then JStr(parts[i]) else JUndefined
  }

  /** `parts[parts.indexOf(name) + 1]`: the id that follows a keyword. */
  function IdAfter(parts: seq<string>, name: string): Json {
    Segment(parts, IndexOf(parts, name) + 1)
  }

  /** `parseCollectionPath(path)`. */
  function ParseCollectionPath(path: string): Parsed {
    ParseParts(Split(path))
  }

  function ParseParts(parts: seq<string>): Parsed
    requires |parts| >= 1
  {
    var userId := Segment(parts, 1);
    if "warehouses" in parts && "rooms" !in parts then
      Parsed("warehouses", JNull, userId)
    else if "rooms" in parts && "shelves" !in parts then
      Parsed("rooms", IdAfter(parts, "warehouses"), userId)
    else if "shelves" in parts && "items" !in parts then
      Parsed("shelves",
        JStr(TemplateText(IdAfter(parts, "warehouses")) + "/" + TemplateText(IdAfter(parts, "rooms"))),
        userId)
    else if "items" in parts then
      Parsed("items",
        JStr(TemplateText(IdAfter(parts, "warehouses")) + "/" + TemplateText(IdAfter(parts, "rooms"))
             + "/" + TemplateText(IdAfter(parts, "shelves"))),
        userId)
    else if "bucket" in parts then
      Parsed("bucket", JNull, userId)
    else
      Parsed(Last(parts), JNull, userId)
  }

  /** The owner is always the second segment of the path. */
  lemma ParseUserIsSecondSegment(path: string)
    ensures var parts := Split(path);
      ParseCollectionPath(path).userId == (if |parts| >= 2 then JStr(parts[1]) else JUndefined)
  {
  }

  /** How a path is classified: a warehouses path without `rooms` and a
      path holding none of the keywords have no parent chain, and only room,
      container and item paths carry one. The store is a keyword's store or
      else the last segment. */
  lemma ParseClassifies(path: string)
    ensures var parts := Split(path); var p := ParseCollectionPath(path);
      && ("warehouses" in parts && "rooms" !in parts ==> p.storeName == "warehouses" && p.parentKey == JNull)
      && ("warehouses" !in parts && "rooms" !in parts && "shelves" !in parts && "items" !in parts && "bucket" !in parts
          ==> p.storeName == Last(parts) && p.parentKey == JNull)
      && ("bucket" in parts && "rooms" !in parts && "shelves" !in parts && "items" !in parts
          ==> p.storeName in {"warehouses", "bucket"} && p.parentKey == JNull)
      && (p.storeName in {"warehouses", "rooms", "shelves", "items", "bucket"} || p.storeName == Last(parts))
      && (p.parentKey != JNull ==> p.storeName in {"rooms", "shelves", "items"})
  {
  }

  const Keywords: set<string> := {"warehouses", "rooms", "shelves", "items", "bucket"}

  /** An id the app can embed in a path without changing how it is classified. */
  predicate PlainId(s: string) {
    Plain(s) && s !in Keywords
  }

  /** The collections the app addresses, with their typed ancestor chains. */
  datatype Location =
    | WarehousesOf(user: string)
    | RoomsOf(user: string, warehouse: string)
    | ShelvesOf(user: string, warehouse: string, room: string)
    | ItemsOf(user: string, warehouse: string, room: string, shelf: string)
    | BucketOf(user: string)

  predicate WellFormed(loc: Location) {
    match loc
    case WarehousesOf(u) => PlainId(u)
    case RoomsOf(u, w) => PlainId(u) && PlainId(w)
    case ShelvesOf(u, w, r) => PlainId(u) && PlainId(w) && PlainId(r)
    case ItemsOf(u, w, r, s) => PlainId(u) && PlainId(w) && PlainId(r) && PlainId(s)
    case BucketOf(u) => PlainId(u)
  }

  function LocationParts(loc: Location): seq<string> {
    match loc
    case WarehousesOf(u) => ["users", u, "warehouses"]
    case RoomsOf(u, w) => ["users", u, "warehouses", w, "rooms"]
    case ShelvesOf(u, w, r) => ["users", u, "warehouses", w, "rooms", r, "shelves"]
    case ItemsOf(u, w, r, s) => ["users", u, "warehouses", w, "rooms", r, "shelves", s, "items"]
    case BucketOf(u) => ["users", u, "bucket"]
  }

  /** The path string the app builds for a location with a template literal. */
  function LocationPath(loc: Location): string {
    Join(LocationParts(loc))
  }

  /** The store, ancestor chain and owner a location stands for. */
  function Addressed(loc: Location): Parsed {
    match loc
    case WarehousesOf(u) => Parsed("warehouses", JNull, JStr(u))
    case RoomsOf(u, w) => Parsed("rooms", JStr(w), JStr(u))
    case ShelvesOf(u, w, r) => Parsed("shelves", JStr(w + "/" + r), JStr(u))
    case ItemsOf(u, w, r, s) => Parsed("items", JStr(w + "/" + r + "/" + s), JStr(u))
    case BucketOf(u) => Parsed("bucket", JNull, JStr(u))
  }

  lemma IndexOfFirst(parts: seq<string>, x: string, k: int)
    requires 0 <= k < |parts| && parts[k] == x
    requires forall j :: 0 <= j < k ==> parts[j] != x
    ensures IndexOf(parts, x) == k
  {
    var i := IndexOf(parts, x);
    assert parts[..k + 1][k] == x;
  }

  /** The codec decodes every path the app builds into its ancestor chain. */
  lemma ParseLocation(loc: Location)
    requires WellFormed(loc)
    ensures ParseCollectionPath(LocationPath(loc)) == Addressed(loc)
  {
    SplitJoin(LocationParts(loc));
    match loc
    case WarehousesOf(u) => ParseWarehouses(u);
    case RoomsOf(u, w) => ParseRooms(u, w);
    case ShelvesOf(u, w, r) => ParseShelves(u, w, r);
    case ItemsOf(u, w, r, s) => ParseItems(u, w, r, s);
    case BucketOf(u) => ParseBucket(u);
  }

  lemma ParseWarehouses(u: string)
    requires PlainId(u)
    ensures ParseParts(["users", u, "warehouses"]) == Parsed("warehouses", JNull, JStr(u))
  {
    var parts := ["users", u, "warehouses"];
    assert "warehouses" in parts && "rooms" !in parts;
  }

  lemma ParseRooms(u: string, w: string)
    requires PlainId(u) && PlainId(w)
    ensures ParseParts(["users", u, "warehouses", w, "rooms"]) == Parsed("rooms", JStr(w), JStr(u))
  {
    var parts := ["users", u, "warehouses", w, "rooms"];
    NotKeyword(u);
    NotKeyword(w);
    assert "warehouses" in parts && "rooms" in parts && "shelves" !in parts;
    IdAfterAt(parts, "warehouses", 2);
  }

  lemma ParseShelves(u: string, w: string, r: string)
    requires PlainId(u) && PlainId(w) && PlainId(r)
    ensures ParseParts(["users", u, "warehouses", w, "rooms", r, "shelves"])
         == Parsed("shelves", JStr(w + "/" + r), JStr(u))
  {
    var parts := ["users", u, "warehouses", w, "rooms", r, "shelves"];
    NotKeyword(u);
    NotKeyword(w);
    NotKeyword(r);
    assert "rooms" in parts && "shelves" in parts && "items" !in parts;
    IdAfterAt(parts, "warehouses", 2);
    IdAfterAt(parts, "rooms", 4);
  }

  lemma ParseItems(u: string, w: string, r: string, s: string)
    requires PlainId(u) && PlainId(w) && PlainId(r) && PlainId(s)
    ensures ParseParts(["users", u, "warehouses", w, "rooms", r, "shelves", s, "items"])
         == Parsed("items", JStr(w + "/" + r + "/" + s), JStr(u))
  {
    var parts := ["users", u, "warehouses", w, "rooms", r, "shelves", s, "items"];
    assert parts[4] == "rooms" && parts[6] == "shelves" && parts[8] == "items";
    ItemsIds(u, w, r, s);
    ParseItemsBranch(parts);
  }

  /** The ids after the keywords of an item path are its ancestors. */
  lemma ItemsIds(u: string, w: string, r: string, s: string)
    requires PlainId(u) && PlainId(w) && PlainId(r) && PlainId(s)
    ensures var parts := ["users", u, "warehouses", w, "rooms", r, "shelves", s, "items"];
      IdAfter(parts, "warehouses") == JStr(w) && IdAfter(parts, "rooms") == JStr(r) && IdAfter(parts, "shelves") == JStr(s)
  {
    var parts := ["users", u, "warehouses", w, "rooms", r, "shelves", s, "items"];
    NotKeyword(u);
    NotKeyword(w);
    NotKeyword(r);
    KeywordsDistinct();
    var names := ["users", "warehouses", "rooms", "shelves", "items", "bucket"];
    assert names[0] != names[1] && names[0] != names[2] && names[1] != names[2];
    assert names[0] != names[3] && names[1] != names[3] && names[2] != names[3];
    IdAfterAt(parts, "warehouses", 2);
    IdAfterAt(parts, "rooms", 4);
    forall j | 0 <= j < 6 ensures parts[j] != "shelves" {
      if j == 0 { assert parts[j] == names[0]; }
      else if j == 2 { assert parts[j] == names[1]; }
      else if j == 4 { assert parts[j] == names[2]; }
    }
    IdAfterAt(parts, "shelves", 6);
  }

  /** The id after the first occurrence of a keyword. */
  lemma IdAfterAt(parts: seq<string>, x: string, k: int)
    requires 0 <= k < |parts| - 1 && parts[k] == x
    requires forall j :: 0 <= j < k ==> parts[j] != x
    ensures IdAfter(parts, x) == JStr(parts[k + 1])
  {
    IndexOfFirst(parts, x, k);
  }

  /** The segment names of a path begin with different letters, so no two
      are equal. */
  lemma KeywordsDistinct()
    ensures var names := ["users", "warehouses", "rooms", "shelves", "items", "bucket"];
      forall i, j :: 0 <= i < j < |names| ==> names[i] != names[j]
  {
    var names := ["users", "warehouses", "rooms", "shelves", "items", "bucket"];
    forall i, j | 0 <= i < j < |names| ensures names[i] != names[j] {
      assert names[i][0] != names[j][0];
    }
  }

  /** The four stores of the hierarchy have different names. */
  lemma StoreNamesDistinct()
    ensures "warehouses" != "rooms" && "warehouses" != "shelves" && "warehouses" != "items"
    ensures "rooms" != "shelves" && "rooms" != "items" && "shelves" != "items"
  {
    KeywordsDistinct();
    var names := ["users", "warehouses", "rooms", "shelves", "items", "bucket"];
    assert names[1] != names[2] && names[1] != names[3] && names[1] != names[4];
    assert names[2] != names[3] && names[2] != names[4] && names[3] != names[4];
  }

  /** A plain id is none of the keywords. */
  lemma NotKeyword(s: string)
    requires PlainId(s)
    ensures s != "warehouses" && s != "rooms" && s != "shelves" && s != "items" && s != "bucket"
  {
  }

  lemma ParseItemsBranch(parts: seq<string>)
    requires |parts| >= 2 && "rooms" in parts && "shelves" in parts && "items" in parts
    ensures ParseParts(parts) == Parsed("items",
      JStr(TemplateText(IdAfter(parts, "warehouses")) + "/" + TemplateText(IdAfter(parts, "rooms"))
           + "/" + TemplateText(IdAfter(parts, "shelves"))), JStr(parts[1]))
  {
  }

  lemma ParseBucket(u: string)
    requires PlainId(u)
    ensures ParseParts(["users", u, "bucket"]) == Parsed("bucket", JNull, JStr(u))
  {
    var parts := ["users", u, "bucket"];
    assert "warehouses" !in parts && "rooms" !in parts && "shelves" !in parts && "items" !in parts;
    assert "bucket" in parts;
  }

  /** A location's path followed by a plain id addresses a document of it. */
  lemma DocumentOfLocation(loc: Location, id: string)
    requires Plain(id)
    ensures var parts := Split(LocationPath(loc) + "/" + id);
      Last(parts) == id && Join(Init(parts)) == LocationPath(loc)
  {
    AppendSegment(LocationPath(loc), id);
    JoinSplit(LocationPath(loc));
    var parts := Split(LocationPath(loc) + "/" + id);
    assert Init(parts) == Split(LocationPath(loc));
  }
}
