/** JavaScript values as the two document stores hold them, and the
    error outcomes of the store operations. */
module Json {

  /** The exceptions the store operations can raise. `TypeError` is a
      property access or call on a value that does not support it;
      the three others are the IndexedDB request errors. */
  datatype Error = TypeError | NotFoundError | ConstraintError | DataError

  datatype Option<+T> = None | Some(value: T)

  /** An operation that either produces a value or rejects with an error. */
  datatype Result<+T> = Ok(value: T) | Err(error: Error) {
    predicate IsFailure() { Err? }

    function PropagateFailure<U>(): Result<U>
      requires Err?
    {
      Err(error)
    }

    function Extract(): T
      requires Ok?
    {
      value
    }
  }

  /** A JavaScript value. Numbers are modelled as integers. */
  datatype Json =
    | JUndefined
    | JNull
    | JBool(b: bool)
    | JNum(n: int)
    | JStr(s: string)
    | JObj(fields: map<string, Json>)

  /** A plain object: the records of the stores and the data passed to them. */
  type Record = map<string, Json>

  /** JavaScript truthiness: `undefined`, `null`, `false`, `0` and `""` are falsy. */
  predicate Truthy(v: Json) {
    match v
    case JUndefined => false
    case JNull => false
    case JBool(b) => b
    case JNum(n) => n != 0
    case JStr(s) => s != ""
    case JObj(_) => true
  }

  /** `r[k]` on a plain object: `undefined` when the member is absent. */
  function Field(r: Record, k: string): Json {
    if k in r then r[k] else JUndefined
  }

  /** `v[k]` on any value that is not `null` or `undefined`, and also
      `v?.[k]`, which yields `undefined` on those two; only objects have
      own members here. */
  function Child(v: Json, k: string): (c: Json)
    ensures Truthy(c) ==> v.JObj? && k in v.fields && c == v.fields[k]
  {
    if v.JObj? then Field(v.fields, k) else JUndefined
  }

  /** `v[k]` that throws on `null` and `undefined`. */
  function Member(v: Json, k: string): (r: Result<Json>)
    ensures r.Err? <==> v == JNull || v == JUndefined
  {
    if v == JNull || v == JUndefined then Err(TypeError) else Ok(Child(v, k))
  }

  /** The own members that `{...v}` copies. */
  function SpreadOf(v: Json): Record {
    if v.JObj? then v.fields else map[]
  }

  /** `Math.min(a, b)`. */
  function Min(a: int, b: int): int {
    if a <= b then a else b
  }

  /** `Math.max(a, b)`. */
  function Max(a: int, b: int): int {
    if a >= b then a else b
  }

  /** `r` without member `k`, as `delete r.k` leaves it. */
  function Without(r: Record, k: string): (r': Record)
    ensures k !in r'
    ensures forall f :: f in r && f != k ==> f in r' && r'[f] == r[f]
    ensures forall f :: f in r' ==> f in r
  {
    r - {k}
  }

  /** Decimal text of an integer, as `String(n)` gives it. */
  function DecimalText(n: int): string {
    if n < 0 then "-" + NatText(-n) else NatText(n)
  }

  function NatText(n: nat): string
    decreases n
  {
    if n < 10 then [DigitChar(n)] else NatText(n / 10) + [DigitChar(n % 10)]
  }

  function DigitChar(d: nat): char
    requires d < 10
  {
    "0123456789"[d]
  }

  /** `${v}` inside a template literal. */
  function TemplateText(v: Json): string {
    match v
    case JUndefined => "undefined"
    case JNull => "null"
    case JBool(b) => if b then "true" else "false"
    case JNum(n) => DecimalText(n)
    case JStr(s) => s
    case JObj(_) => "[object Object]"
  }

  /** `${o}` for an id that may be `null`. */
  function IdText(o: Option<string>): string {
    match o
    case None => "null"
    case Some(s) => s
  }

  /** Truthiness of an id that may be `null`. */
  predicate Present(o: Option<string>) {
    o.Some? && o.value != ""
  }
}
