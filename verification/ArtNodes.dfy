/** The nodes of the adaptive radix tree: leaves and four inner layouts (4, 16, 48 and
    256 children), each seen as a partial function from the next key byte to a child.
    Adding and removing a child grows and shrinks the layout; the contracts say what
    happens to that function and to the occupancy of the layout. */
module ArtNodes {
  import opened Basics

  type Key = seq<Byte>

  const MAX_PREFIX: nat := 10

  /** `partialLen` is the length of the compressed path above the children; `partial`
      is the 10-byte array that keeps its first bytes. NODE4 and NODE16 keep parallel
      arrays of keys and children, of which only the used part is modelled. NODE48 maps
      a byte to one plus a child position. `num` is the 8-bit child count. */
  datatype Node<V> =
    | Leaf(key: Key, value: V)
    | N4(partialLen: nat, partial: seq<Byte>, keys: seq<Byte>, kids: seq<Node<V>>)
    | N16(partialLen: nat, partial: seq<Byte>, keys: seq<Byte>, kids: seq<Node<V>>)
    | N48(partialLen: nat, partial: seq<Byte>, num: nat, index: seq<nat>, slots: seq<Option<Node<V>>>)
    | N256(partialLen: nat, partial: seq<Byte>, num: nat, slots: seq<Option<Node<V>>>)

  // ---- sorted parallel arrays

  ghost predicate Increasing(keys: seq<Byte>) {
    forall i, j :: 0 <= i < j < |keys| ==> keys[i] < keys[j]
  }

  /** The first position that holds `c`, or the length. */
  function Find(keys: seq<Byte>, c: Byte): (i: nat)
    ensures i <= |keys|
    ensures i < |keys| ==> keys[i] == c
    ensures forall j :: 0 <= j < i ==> keys[j] != c
  {
    if |keys| == 0 then 0
    else if keys[0] == c then 0
    else
      var r := Find(keys[1..], c);
      assert forall j :: 0 < j < |keys| ==> keys[j] == keys[1..][j - 1];
      r + 1
  }

  /** The first position whose key is above `c`, or the length. */
  function PlaceFor(keys: seq<Byte>, c: Byte): (i: nat)
    ensures i <= |keys|
    ensures i < |keys| ==> c < keys[i]
    ensures forall j :: 0 <= j < i ==> keys[j] <= c
  {
    if |keys| == 0 then 0
    else if c < keys[0] then 0
    else
      var r := PlaceFor(keys[1..], c);
      assert forall j :: 0 < j < |keys| ==> keys[j] == keys[1..][j - 1];
      r + 1
  }

  function RemoveAt<T>(s: seq<T>, i: nat): (r: seq<T>)
    requires i < |s|
    ensures |r| == |s| - 1
    ensures forall j :: 0 <= j < i ==> r[j] == s[j]
    ensures forall j :: i <= j < |r| ==> r[j] == s[j + 1]
  {
    s[..i] + s[i + 1..]
  }

  lemma PlaceKeepsOrder(keys: seq<Byte>, c: Byte)
    requires Increasing(keys) && c !in keys
    ensures Increasing(InsertAt(keys, PlaceFor(keys, c), c))
  {
    var i := PlaceFor(keys, c);
    var r := InsertAt(keys, i, c);
    forall a, b | 0 <= a < b < |r| ensures r[a] < r[b] {
      if a < i {
        assert r[a] == keys[a] && keys[a] in keys;
      } else if a > i {
        assert r[a] == keys[a - 1];
      }
    }
  }

  // ---- children

  /** `find_child`. */
  function Child<V>(n: Node<V>, c: Byte): (r: Option<Node<V>>)
    ensures r.Some? ==> r.value < n
  {
    match n
    case Leaf(_, _) => None
    case N4(_, _, keys, kids) => ListChild(n, keys, kids, c)
    case N16(_, _, keys, kids) => ListChild(n, keys, kids, c)
    case N48(_, _, _, index, slots) =>
      if c < |index| && 0 < index[c] <= |slots| then slots[index[c] - 1] else None
    case N256(_, _, _, slots) => if c < |slots| then slots[c] else None
  }

  function ListChild<V>(n: Node<V>, keys: seq<Byte>, kids: seq<Node<V>>, c: Byte): (r: Option<Node<V>>)
    requires (n.N4? || n.N16?) && kids == n.kids
    ensures r.Some? ==> r.value < n
  {
    var i := Find(keys, c);
    if i < |keys| && i < |kids| then Some(kids[i]) else None
  }

  /** Which bytes lead on. */
  ghost function Used<V>(n: Node<V>): set<Byte> {
    set c: Byte | Child(n, c).Some?
  }

  ghost predicate SlotFor(index: seq<nat>, i: nat, c: Byte) {
    c < |index| && index[c] == i + 1
  }

  /** A byte with an index leads to a taken position. */
  ghost predicate Backed<V>(index: seq<nat>, slots: seq<Option<Node<V>>>) {
    && |index| == 256 && |slots| == 48
    && forall c: Byte :: index[c] <= 48 && (index[c] > 0 ==> slots[index[c] - 1].Some?)
  }

  ghost predicate OneToOne(index: seq<nat>) {
    |index| == 256 && forall c: Byte, d: Byte :: index[c] == index[d] && index[c] > 0 ==> c == d
  }

  /** Every taken position belongs to some byte. */
  ghost predicate Owned<V>(index: seq<nat>, slots: seq<Option<Node<V>>>) {
    |slots| == 48 && forall i: nat :: i < 48 && slots[i].Some? ==> HasOwner(index, i)
  }

  ghost predicate HasOwner(index: seq<nat>, i: nat) {
    exists c: Byte :: SlotFor(index, i, c)
  }

  /** What each layout maintains apart from how full it is. */
  ghost predicate Layout<V>(n: Node<V>) {
    match n
    case Leaf(_, _) => true
    case N4(_, p, keys, kids) => |p| == MAX_PREFIX && |keys| == |kids| <= 4 && Increasing(keys)
    case N16(_, p, keys, kids) => |p| == MAX_PREFIX && |keys| == |kids| <= 16 && Increasing(keys)
    case N48(_, p, num, index, slots) =>
      && |p| == MAX_PREFIX && Backed(index, slots) && OneToOne(index) && Owned(index, slots)
      && num == |Used(n)|
    case N256(_, p, num, slots) =>
      && |p| == MAX_PREFIX && |slots| == 256
      && num == |Used(n)| % 256
  }

  /** How full each layout is between operations. */
  ghost predicate Occupied<V>(n: Node<V>) {
    match n
    case Leaf(_, _) => true
    case N4(_, _, keys, _) => 2 <= |keys| <= 4
    case N16(_, _, keys, _) => 4 <= |keys| <= 16
    case N48(_, _, _, _, _) => 13 <= |Used(n)| <= 48
    case N256(_, _, _, _) => 38 <= |Used(n)| <= 256
  }

  lemma ListChildAt<V>(n: Node<V>, i: nat)
    requires (n.N4? || n.N16?) && |n.keys| == |n.kids| && Increasing(n.keys) && i < |n.keys|
    ensures Child(n, n.keys[i]) == Some(n.kids[i])
  {
    var f := Find(n.keys, n.keys[i]);
    assert f <= i;
  }

  lemma ListChildNone<V>(n: Node<V>, c: Byte)
    requires (n.N4? || n.N16?) && |n.keys| == |n.kids|
    ensures Child(n, c).None? <==> c !in n.keys
  {
  }

  // ---- headers

  function Min(a: nat, b: nat): nat {
    if a < b then a else b
  }

  /** How many bytes of the compressed path the node itself keeps. */
  function Kept(len: nat): nat {
    Min(MAX_PREFIX, len)
  }

  /** `copy_header` into a zeroed node. */
  function Header(len: nat, p: seq<Byte>): (r: seq<Byte>)
    requires |p| == MAX_PREFIX
    ensures |r| == MAX_PREFIX && r[..Kept(len)] == p[..Kept(len)]
  {
    p[..Kept(len)] + seq(MAX_PREFIX - Kept(len), _ => 0)
  }

  /** The same node under another compressed path. */
  function WithPrefix<V>(n: Node<V>, len: nat, p: seq<Byte>): (r: Node<V>)
    requires !n.Leaf?
    ensures !r.Leaf? && r.partialLen == len && r.partial == p
  {
    n.(partialLen := len, partial := p)
  }

  lemma WithPrefixChildren<V>(n: Node<V>, len: nat, p: seq<Byte>)
    requires !n.Leaf? && |p| == MAX_PREFIX
    ensures forall c: Byte :: Child(WithPrefix(n, len, p), c) == Child(n, c)
    ensures Used(WithPrefix(n, len, p)) == Used(n)
    ensures Layout(n) ==> Layout(WithPrefix(n, len, p))
    ensures Occupied(n) ==> Occupied(WithPrefix(n, len, p))
  {
    assert forall c: Byte :: Child(WithPrefix(n, len, p), c) == Child(n, c);
  }

  // ---- building a NODE48 from lists

  function IndexOf(keys: seq<Byte>): (r: seq<nat>)
    ensures |r| == 256
    ensures forall c: Byte :: r[c] == if Find(keys, c) < |keys| then Find(keys, c) + 1 else 0
  {
    seq(256, c requires 0 <= c < 256 => if Find(keys, c) < |keys| then Find(keys, c) + 1 else 0)
  }

  function SlotsOf<V>(kids: seq<Node<V>>): (r: seq<Option<Node<V>>>)
    requires |kids| <= 48
    ensures |r| == 48
    ensures forall i :: 0 <= i < 48 ==> r[i] == if i < |kids| then Some(kids[i]) else None
  {
    seq(48, i requires 0 <= i < 48 => if i < |kids| then Some(kids[i]) else None)
  }

  function Make48<V>(len: nat, p: seq<Byte>, keys: seq<Byte>, kids: seq<Node<V>>): Node<V>
    requires |keys| == |kids| <= 48
  {
    N48(len, p, |keys|, IndexOf(keys), SlotsOf(kids))
  }

  ghost function KeySet(keys: seq<Byte>): set<Byte> {
    set c: Byte | c in keys
  }

  lemma {:induction false} KeySetSize(keys: seq<Byte>)
    requires Increasing(keys)
    ensures |KeySet(keys)| == |keys|
  {
    if |keys| > 0 {
      var n := |keys| - 1;
      KeySetSize(keys[..n]);
      assert keys == keys[..n] + [keys[n]];
      assert KeySet(keys) == KeySet(keys[..n]) + {keys[n]};
    } else {
      assert KeySet(keys) == {};
    }
  }

  lemma FindKey(keys: seq<Byte>, i: nat)
    requires Increasing(keys) && i < |keys|
    ensures Find(keys, keys[i]) == i
  {
  }

  lemma Make48Children<V>(len: nat, p: seq<Byte>, keys: seq<Byte>, kids: seq<Node<V>>)
    requires |keys| == |kids| <= 48 && Increasing(keys)
    ensures var n := Make48(len, p, keys, kids);
      && (forall i :: 0 <= i < |keys| ==> Child(n, keys[i]) == Some(kids[i]))
      && (forall c: Byte :: c !in keys ==> Child(n, c) == None)
      && Used(n) == KeySet(keys)
  {
    var n := Make48(len, p, keys, kids);
    forall i | 0 <= i < |keys| ensures Child(n, keys[i]) == Some(kids[i]) {
      FindKey(keys, i);
    }
    forall c: Byte ensures Child(n, c).Some? <==> c in keys {
      if Find(keys, c) < |keys| {
        assert keys[Find(keys, c)] == c;
      }
    }
  }

  /** The list view and the indexed view of the same children agree. */
  lemma Make48Layout<V>(len: nat, p: seq<Byte>, keys: seq<Byte>, kids: seq<Node<V>>)
    requires |p| == MAX_PREFIX && |keys| == |kids| <= 48 && Increasing(keys)
    ensures Layout(Make48(len, p, keys, kids))
  {
    var index, slots := IndexOf(keys), SlotsOf(kids);
    Make48Children(len, p, keys, kids);
    KeySetSize(keys);
    hide Child, Used, Increasing, Find, KeySet, IndexOf, SlotsOf;
    assert Backed(index, slots);
    assert OneToOne(index) by {
      forall c: Byte, d: Byte | index[c] == index[d] && index[c] > 0 ensures c == d {
        assert keys[Find(keys, c)] == c && keys[Find(keys, d)] == d;
      }
    }
    forall i: nat | i < 48 && slots[i].Some? ensures HasOwner(index, i) {
      FindKey(keys, i);
      assert SlotFor(index, i, keys[i]);
    }
  }

  // ---- adding a child

  function Add4<V>(n: Node<V>, c: Byte, x: Node<V>): Node<V>
    requires n.N4? && |n.keys| == |n.kids| && |n.partial| == MAX_PREFIX
  {
    if |n.keys| < 4 then
      var i := PlaceFor(n.keys, c);
      N4(n.partialLen, n.partial, InsertAt(n.keys, i, c), InsertAt(n.kids, i, x))
    else Add16(N16(n.partialLen, Header(n.partialLen, n.partial), n.keys, n.kids), c, x)
  }

  function Add16<V>(n: Node<V>, c: Byte, x: Node<V>): Node<V>
    requires n.N16? && |n.keys| == |n.kids| && |n.partial| == MAX_PREFIX
  {
    if |n.keys| < 16 then
      var i := PlaceFor(n.keys, c);
      N16(n.partialLen, n.partial, InsertAt(n.keys, i, c), InsertAt(n.kids, i, x))
    else if |n.keys| > 48 then n
    else Add48(Make48(n.partialLen, Header(n.partialLen, n.partial), n.keys, n.kids), c, x)
  }

  /** The first child position that is not taken. */
  function FirstFree<V>(slots: seq<Option<Node<V>>>): (i: nat)
    ensures i <= |slots|
    ensures i < |slots| ==> slots[i].None?
    ensures forall j :: 0 <= j < i ==> slots[j].Some?
  {
    if |slots| == 0 then 0
    else if slots[0].None? then 0
    else
      var r := FirstFree(slots[1..]);
      assert forall j :: 0 < j < |slots| ==> slots[j] == slots[1..][j - 1];
      r + 1
  }

  function Add48<V>(n: Node<V>, c: Byte, x: Node<V>): Node<V>
    requires n.N48? && |n.partial| == MAX_PREFIX && |n.index| == 256
  {
    if n.num < 48 then
      var pos := FirstFree(n.slots);
      if pos < |n.slots| then
        N48(n.partialLen, n.partial, n.num + 1, n.index[c := pos + 1], n.slots[pos := Some(x)])
      else n
    else
      Add256(Make256(n), c, x)
  }

  function Make256<V>(n: Node<V>): Node<V>
    requires n.N48? && |n.partial| == MAX_PREFIX
  {
    N256(n.partialLen, Header(n.partialLen, n.partial), n.num, seq(256, i requires 0 <= i < 256 => Child(n, i)))
  }

  function Add256<V>(n: Node<V>, c: Byte, x: Node<V>): Node<V>
    requires n.N256? && |n.slots| == 256
  {
    N256(n.partialLen, n.partial, (n.num + 1) % 256, n.slots[c := Some(x)])
  }

  /** The array sizes of the C structures. */
  predicate Sized<V>(n: Node<V>) {
    match n
    case Leaf(_, _) => true
    case N4(_, p, keys, kids) => |p| == MAX_PREFIX && |keys| == |kids|
    case N16(_, p, keys, kids) => |p| == MAX_PREFIX && |keys| == |kids|
    case N48(_, p, _, index, slots) => |p| == MAX_PREFIX && |index| == 256 && |slots| == 48
    case N256(_, p, _, slots) => |p| == MAX_PREFIX && |slots| == 256
  }

  lemma LayoutSized<V>(n: Node<V>)
    requires Layout(n)
    ensures Sized(n)
  {
  }

  /** `add_child`. */
  function AddChild<V>(n: Node<V>, c: Byte, x: Node<V>): Node<V>
    requires Sized(n) && !n.Leaf?
  {
    match n
    case N4(_, _, _, _) => Add4(n, c, x)
    case N16(_, _, _, _) => Add16(n, c, x)
    case N48(_, _, _, _, _) => Add48(n, c, x)
    case N256(_, _, _, _) => Add256(n, c, x)
  }

  /** The node `r` has the children of `n` and one more. */
  ghost predicate Added<V>(n: Node<V>, c: Byte, x: Node<V>, r: Node<V>) {
    && !n.Leaf? && !r.Leaf? && Layout(r)
    && r.partialLen == n.partialLen
    && |n.partial| == MAX_PREFIX && r.partial[..Kept(n.partialLen)] == n.partial[..Kept(n.partialLen)]
    && (forall d: Byte :: Child(r, d) == if d == c then Some(x) else Child(n, d))
  }

  lemma AddedUsed<V>(n: Node<V>, c: Byte, x: Node<V>, r: Node<V>)
    requires Added(n, c, x, r) && Child(n, c).None?
    ensures Used(r) == Used(n) + {c} && c !in Used(n) && |Used(r)| == |Used(n)| + 1
  {
    hide Layout, Child;
    assert Used(r) == Used(n) + {c};
  }

  lemma ListAdded<V>(n: Node<V>, c: Byte, x: Node<V>)
    requires (n.N4? || n.N16?) && |n.keys| == |n.kids| && Increasing(n.keys) && c !in n.keys
    ensures var i := PlaceFor(n.keys, c);
      var ks, xs := InsertAt(n.keys, i, c), InsertAt(n.kids, i, x);
      var r := if n.N4? then N4(n.partialLen, n.partial, ks, xs) else N16(n.partialLen, n.partial, ks, xs);
      Increasing(r.keys) && forall d: Byte :: Child(r, d) == if d == c then Some(x) else Child(n, d)
  {
    hide Find, PlaceFor, InsertAt;
    var i := PlaceFor(n.keys, c);
    var ks, xs := InsertAt(n.keys, i, c), InsertAt(n.kids, i, x);
    var r := if n.N4? then N4(n.partialLen, n.partial, ks, xs) else N16(n.partialLen, n.partial, ks, xs);
    PlaceKeepsOrder(n.keys, c);
    forall d: Byte ensures Child(r, d) == if d == c then Some(x) else Child(n, d) {
      if d in n.keys {
        var j := Find(n.keys, d);
        assert r.keys[if j < i then j else j + 1] == d;
        ListChildAt(n, j);
        ListChildAt(r, if j < i then j else j + 1);
      } else {
        ListChildNone(n, d);
        if d == c {
          ListChildAt(r, i);
        } else {
          ListChildNone(r, d);
        }
      }
    }
  }

  lemma Added4<V>(n: Node<V>, c: Byte, x: Node<V>)
    requires n.N4? && Layout(n) && Child(n, c).None?
    ensures Added(n, c, x, Add4(n, c, x))
    ensures Occupied(n) ==> Occupied(Add4(n, c, x))
  {
    hide Find, PlaceFor, InsertAt;
    ListChildNone(n, c);
    if |n.keys| < 4 {
      ListAdded(n, c, x);
    } else {
      hide Add16, Increasing;
      var m := N16(n.partialLen, Header(n.partialLen, n.partial), n.keys, n.kids);
      assert forall d: Byte :: Child(m, d) == Child(n, d);
      Added16(m, c, x);
    }
  }

  lemma Added16<V>(n: Node<V>, c: Byte, x: Node<V>)
    requires n.N16? && Layout(n) && Child(n, c).None?
    ensures Added(n, c, x, Add16(n, c, x))
    ensures |n.keys| >= 4 ==> Occupied(Add16(n, c, x))
  {
    hide Find, PlaceFor, InsertAt;
    ListChildNone(n, c);
    if |n.keys| < 16 {
      ListAdded(n, c, x);
    } else {
      hide Add48;
      var m := Make48(n.partialLen, Header(n.partialLen, n.partial), n.keys, n.kids);
      Grow16(n);
      Added48(m, c, x);
    }
  }

  lemma Grow16<V>(n: Node<V>)
    requires n.N16? && Layout(n)
    ensures var m := Make48(n.partialLen, Header(n.partialLen, n.partial), n.keys, n.kids);
      Layout(m) && (forall d: Byte :: Child(m, d) == Child(n, d)) && |Used(m)| == |n.keys|
  {
    var m := Make48(n.partialLen, Header(n.partialLen, n.partial), n.keys, n.kids);
    Make48Layout(n.partialLen, Header(n.partialLen, n.partial), n.keys, n.kids);
    Make48Children(n.partialLen, Header(n.partialLen, n.partial), n.keys, n.kids);
    KeySetSize(n.keys);
    forall d: Byte ensures Child(m, d) == Child(n, d) {
      ListChildNone(n, d);
      if d in n.keys {
        var i := Find(n.keys, d);
        ListChildAt(n, i);
        assert n.keys[i] == d;
      }
    }
  }

  ghost function BytesFor(index: seq<nat>, k: nat): set<Byte> {
    set c: Byte | c < |index| && 0 < index[c] <= k
  }

  /** Distinct taken positions belong to distinct bytes. */
  lemma {:induction false} TakenSlots<V>(n: Node<V>, k: nat)
    requires n.N48? && Layout(n) && k <= 48 && forall i :: 0 <= i < k ==> n.slots[i].Some?
    ensures |BytesFor(n.index, k)| == k
  {
    if k == 0 {
      assert BytesFor(n.index, 0) == {};
    } else {
      TakenSlots(n, k - 1);
      var i := k - 1;
      assert HasOwner(n.index, i);
      var c: Byte :| SlotFor(n.index, i, c);
      assert BytesFor(n.index, k) == BytesFor(n.index, i) + {c};
    }
  }

  lemma AllTaken<V>(n: Node<V>)
    requires n.N48? && Layout(n) && forall i :: 0 <= i < 48 ==> n.slots[i].Some?
    ensures n.num == 48
  {
    TakenSlots(n, 48);
    assert BytesFor(n.index, 48) == Used(n);
  }

  lemma FreeSlotExists<V>(n: Node<V>)
    requires n.N48? && Layout(n) && n.num < 48
    ensures FirstFree(n.slots) < 48
  {
    if FirstFree(n.slots) == 48 {
      AllTaken(n);
    }
  }

  lemma Added48<V>(n: Node<V>, c: Byte, x: Node<V>)
    requires n.N48? && Layout(n) && Child(n, c).None?
    ensures Added(n, c, x, Add48(n, c, x))
    ensures |Used(n)| >= 12 ==> Occupied(Add48(n, c, x))
  {
    if n.num < 48 {
      Added48Slot(n, c, x);
      AddedUsed(n, c, x, Add48(n, c, x));
    } else {
      Grow48(n);
      Added256(Make256(n), c, x);
    }
  }

  lemma Added48Slot<V>(n: Node<V>, c: Byte, x: Node<V>)
    requires n.N48? && Layout(n) && Child(n, c).None? && n.num < 48
    ensures Added(n, c, x, Add48(n, c, x)) && Add48(n, c, x).N48?
  {
    hide FirstFree;
    FreeSlotExists(n);
    var pos := FirstFree(n.slots);
    var r := N48(n.partialLen, n.partial, n.num + 1, n.index[c := pos + 1], n.slots[pos := Some(x)]);
    assert Add48(n, c, x) == r;
    Put48Layout(n, c, x, pos, r);
    Put48(n, c, x, pos, r);
  }

  lemma Put48<V>(n: Node<V>, c: Byte, x: Node<V>, pos: nat, r: Node<V>)
    requires n.N48? && Backed(n.index, n.slots) && Child(n, c).None? && pos < 48 && n.slots[pos].None?
    requires r == N48(n.partialLen, n.partial, n.num + 1, n.index[c := pos + 1], n.slots[pos := Some(x)])
    ensures forall d: Byte :: Child(r, d) == if d == c then Some(x) else Child(n, d)
    ensures |Used(r)| == |Used(n)| + 1
    ensures Backed(r.index, r.slots)
  {
    assert Used(r) == Used(n) + {c};
  }

  lemma Put48Layout<V>(n: Node<V>, c: Byte, x: Node<V>, pos: nat, r: Node<V>)
    requires n.N48? && Layout(n) && Child(n, c).None? && pos < 48 && n.slots[pos].None?
    requires r == N48(n.partialLen, n.partial, n.num + 1, n.index[c := pos + 1], n.slots[pos := Some(x)])
    ensures Layout(r)
  {
    Put48(n, c, x, pos, r);
    assert n.index[c] == 0;
    PutOneToOne(n.index, n.slots, c, pos);
    PutOwned(n.index, n.slots, c, pos, x);
  }

  lemma PutOneToOne<V>(index: seq<nat>, slots: seq<Option<Node<V>>>, c: Byte, pos: nat)
    requires Backed(index, slots) && OneToOne(index) && pos < 48 && slots[pos].None?
    ensures OneToOne(index[c := pos + 1])
  {
  }

  lemma PutOwned<V>(index: seq<nat>, slots: seq<Option<Node<V>>>, c: Byte, pos: nat, x: Node<V>)
    requires |index| == 256 && Owned(index, slots) && index[c] == 0 && pos < 48
    ensures Owned(index[c := pos + 1], slots[pos := Some(x)])
  {
    var index', slots' := index[c := pos + 1], slots[pos := Some(x)];
    forall i: nat | i < 48 && slots'[i].Some? ensures HasOwner(index', i) {
      if i == pos {
        assert SlotFor(index', i, c);
      } else {
        assert HasOwner(index, i);
        var d: Byte :| SlotFor(index, i, d);
        assert SlotFor(index', i, d);
      }
    }
  }

  lemma Grow48<V>(n: Node<V>)
    requires n.N48? && Layout(n)
    ensures var m := Make256(n);
      m.N256? && Layout(m) && (forall d: Byte :: Child(m, d) == Child(n, d)) && Used(m) == Used(n)
    ensures |Used(n)| <= 48
  {
    var m := Make256(n);
    assert forall d: Byte :: Child(m, d) == Child(n, d);
    assert Used(m) == Used(n);
    UsedAtMost48(n);
  }

  lemma UsedAtMost48<V>(n: Node<V>)
    requires n.N48? && Layout(n)
    ensures |Used(n)| <= 48
  {
    BytesAtMost(n.index, 48);
    assert BytesFor(n.index, 48) == Used(n);
  }

  lemma {:induction false} BytesAtMost(index: seq<nat>, k: nat)
    requires OneToOne(index)
    ensures |BytesFor(index, k)| <= k
  {
    if k == 0 {
      assert BytesFor(index, 0) == {};
    } else {
      BytesAtMost(index, k - 1);
      BytesStep(index, k - 1);
    }
  }

  lemma BytesStep(index: seq<nat>, i: nat)
    requires OneToOne(index)
    ensures |BytesFor(index, i + 1)| <= |BytesFor(index, i)| + 1
  {
    if exists c: Byte :: SlotFor(index, i, c) {
      var c: Byte :| SlotFor(index, i, c);
      assert BytesFor(index, i + 1) == BytesFor(index, i) + {c};
    } else {
      forall c: Byte ensures index[c] != i + 1 {
        assert !SlotFor(index, i, c);
      }
      assert BytesFor(index, i + 1) == BytesFor(index, i);
    }
  }

  ghost function BytesBelow(k: nat): (r: set<Byte>)
    requires k <= 256
    ensures |r| == k && forall c: Byte :: c in r <==> c < k
  {
    if k == 0 then {} else BytesBelow(k - 1) + {k - 1}
  }

  lemma {:induction false} SubsetSize<T>(a: set<T>, b: set<T>)
    requires a <= b
    ensures |a| <= |b|
  {
    if a != {} {
      var x :| x in a;
      SubsetSize(a - {x}, b - {x});
    }
  }

  lemma UsedAtMost256<V>(n: Node<V>)
    ensures |Used(n)| <= 256
  {
    SubsetSize(Used(n), BytesBelow(256));
  }

  lemma Added256<V>(n: Node<V>, c: Byte, x: Node<V>)
    requires n.N256? && Layout(n) && Child(n, c).None?
    ensures Added(n, c, x, Add256(n, c, x))
    ensures |Used(n)| >= 37 ==> Occupied(Add256(n, c, x))
  {
    var r := Add256(n, c, x);
    assert forall d: Byte :: Child(r, d) == if d == c then Some(x) else Child(n, d);
    assert Used(r) == Used(n) + {c};
    UsedAtMost256(r);
  }

  /** Adding a child adds exactly one binding, keeps the header, and grows the layout
      only as far as its occupancy range asks for. */
  lemma AddChildAdds<V>(n: Node<V>, c: Byte, x: Node<V>)
    requires !n.Leaf? && Layout(n) && Child(n, c).None?
    ensures Added(n, c, x, AddChild(n, c, x))
    ensures Occupied(n) ==> Occupied(AddChild(n, c, x))
  {
    match n
    case N4(_, _, _, _) => Added4(n, c, x);
    case N16(_, _, _, _) => Added16(n, c, x);
    case N48(_, _, _, _, _) => Added48(n, c, x);
    case N256(_, _, _, _) => Added256(n, c, x);
  }
}
