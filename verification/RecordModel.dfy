/** BSON documents, their byte form, and the compact form records are stored in. */
module RecordModel {
  import opened Basics
  import opened RecordBytes

  // Type codes of the BSON specification. A negative code is stored as its low byte.
  const MIN_KEY := -1
  const EOO := 0
  const DOUBLE := 1
  const STRING := 2
  const OBJECT := 3
  const ARRAY := 4
  const BINARY := 5
  const UNDEFINED := 6
  const OID := 7
  const BOOL := 8
  const DATE := 9
  const NULL := 10
  const CODE := 13
  const SYMBOL := 14
  const CODE_W_SCOPE := 15
  const INT := 16
  const TIMESTAMP := 17
  const LONG := 18
  const MAX_KEY := 127

  const INT_LIMIT := 0x8000_0000

  datatype Val =
    | Raw(bytes: seq<Byte>)
    | Text(chars: seq<Byte>)
    | Bin(sub: Byte, data: seq<Byte>)
    | Doc(elems: seq<Elem>)

  datatype Elem = Elem(kind: int, name: seq<Byte>, val: Val)

  function KindByte(kind: int): (b: Byte)
    requires -1 <= kind < 256
  {
    if kind < 0 then kind + 256 else kind
  }

  /** The number of bytes a type always takes, or -1. */
  function Width(kind: int): int {
    if kind in {MIN_KEY, UNDEFINED, NULL, MAX_KEY} then 0
    else if kind == BOOL then 1
    else if kind == INT then 4
    else if kind in {DOUBLE, DATE, TIMESTAMP, LONG} then 8
    else if kind == OID then 12
    else -1
  }

  predicate IsText(kind: int) { kind in {STRING, CODE, SYMBOL} }

  /** What any BSON value of the types covered satisfies. */
  ghost predicate Formed(kind: int, v: Val)
    decreases v
  {
    if Width(kind) >= 0 then v.Raw? && |v.bytes| == Width(kind)
    else if IsText(kind) then v.Text? && |v.chars| + 1 < INT_LIMIT
    else if kind == BINARY then v.Bin? && |v.data| < INT_LIMIT
    else if kind == CODE_W_SCOPE then v.Raw? && 4 <= |v.bytes| < INT_LIMIT && FromLE32(v.bytes[..4]) == |v.bytes|
    else kind in {OBJECT, ARRAY} && v.Doc? && |v.elems| < INT_LIMIT && FormedAll(v.elems)
  }

  ghost predicate FormedAll(elems: seq<Elem>)
    decreases elems
  {
    elems == [] || (0 !in elems[0].name && Formed(elems[0].kind, elems[0].val) && FormedAll(elems[1..]))
  }

  lemma FormedKind(kind: int, v: Val)
    requires Formed(kind, v)
    ensures -1 <= kind < 128 && kind != EOO
  {
  }

  // ---- BSON bytes

  function BsonVal(v: Val): (b: seq<Byte>)
    decreases v
  {
    match v
    case Raw(bytes) => bytes
    case Text(chars) => LE32(|chars| + 1) + (chars + [0])
    case Bin(sub, data) => LE32(|data|) + ([sub] + data)
    case Doc(elems) => var body := BsonBody(elems); LE32(|body| + 5) + (body + [0])
  }

  function BsonBody(elems: seq<Elem>): (b: seq<Byte>)
    decreases elems
  {
    if elems == [] then [] else Head(elems[0]) + BsonVal(elems[0].val) + BsonBody(elems[1..])
  }

  /** Type byte and name. */
  function Head(e: Elem): (b: seq<Byte>) {
    [if -1 <= e.kind < 256 then KindByte(e.kind) else 0] + (e.name + [0])
  }

  // ---- stored form

  function EncVal(kind: int, v: Val): (b: seq<Byte>)
    decreases v, 2
  {
    match v
    case Raw(bytes) => if kind == BOOL && bytes != [] then [if bytes[0] != 0 then 1 else 0] else bytes
    case Text(chars) => chars + [0]
    case Bin(sub, data) => LE32(|data|) + ([sub] + data)
    case Doc(elems) => if kind == ARRAY then EncArray(elems) else EncBody(elems) + [0]
  }

  function EncBody(elems: seq<Elem>): (b: seq<Byte>)
    decreases elems
  {
    if elems == [] then [] else Head(elems[0]) + EncVal(elems[0].kind, elems[0].val) + EncBody(elems[1..])
  }

  const MIXED := 129

  /** The type all items share, or `MIXED`. */
  function ItemKind(items: seq<Elem>): (k: int)
    requires items != []
  {
    if forall i :: 0 <= i < |items| ==> items[i].kind == items[0].kind then items[0].kind else MIXED
  }

  function EncArray(items: seq<Elem>): (b: seq<Byte>)
    decreases items, 1
  {
    if items == [] then VarUint(0)
    else
      var k := ItemKind(items);
      VarUint(|items|) + ([if -1 <= k < 256 then KindByte(k) else 0] + EncItems(k == MIXED, items))
  }

  /** Items carry their type only in a mixed array, and never their name. */
  function EncItems(mixed: bool, items: seq<Elem>): (b: seq<Byte>)
    decreases items, 0
  {
    if items == [] then []
    else ItemHead(mixed, items[0]) + EncVal(items[0].kind, items[0].val) + EncItems(mixed, items[1..])
  }

  function ItemHead(mixed: bool, e: Elem): (b: seq<Byte>) {
    if mixed then [if -1 <= e.kind < 256 then KindByte(e.kind) else 0] else []
  }

  // ---- which documents survive

  /** `BSONObjBuilder::numStr`. */
  function Decimal(n: nat): (s: seq<Byte>)
    ensures 0 !in s && s != []
  {
    (if n < 10 then [] else Decimal(n / 10)) + [48 + n % 10]
  }

  /** No `MinKey`, booleans zero or one, no NUL inside a string, array items named by
      their index. */
  ghost predicate Canonical(kind: int, v: Val)
    decreases v
  {
    match v
    case Raw(bytes) => kind != MIN_KEY && (kind == BOOL && bytes != [] ==> bytes[0] <= 1)
    case Text(chars) => 0 !in chars
    case Bin(_, _) => true
    case Doc(elems) => CanonicalAll(elems) && (kind == ARRAY ==> IndexNames(elems, 0))
  }

  ghost predicate CanonicalAll(elems: seq<Elem>)
    decreases elems
  {
    elems == [] || (Canonical(elems[0].kind, elems[0].val) && CanonicalAll(elems[1..]))
  }

  ghost predicate IndexNames(elems: seq<Elem>, from: nat) {
    forall i :: 0 <= i < |elems| ==> elems[i].name == Decimal(from + i)
  }
}
