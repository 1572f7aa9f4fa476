/** Replacing and removing children of radix-tree nodes, the shrinking of the layouts,
    and the in-order list of children that iteration follows. */
module ArtShrink {
  import opened Basics
  import opened ArtNodes

  // ---- replacing a child in place

  function SetChild<V>(n: Node<V>, c: Byte, x: Node<V>): Node<V>
    requires Child(n, c).Some?
  {
    match n
    case N4(len, p, keys, kids) => N4(len, p, keys, kids[Find(keys, c) := x])
    case N16(len, p, keys, kids) => N16(len, p, keys, kids[Find(keys, c) := x])
    case N48(len, p, num, index, slots) => N48(len, p, num, index, slots[index[c] - 1 := Some(x)])
    case N256(len, p, num, slots) => N256(len, p, num, slots[c := Some(x)])
  }

  /** `r` has the children of `n`, with `x` under `c`, and the same header. */
  ghost predicate Replaced<V>(n: Node<V>, c: Byte, x: Node<V>, r: Node<V>) {
    && !n.Leaf? && !r.Leaf? && Layout(r)
    && r.partialLen == n.partialLen && r.partial == n.partial
    && (forall d: Byte :: Child(r, d) == if d == c then Some(x) else Child(n, d))
    && Used(r) == Used(n)
  }

  lemma SetChildReplaces<V>(n: Node<V>, c: Byte, x: Node<V>)
    requires Layout(n) && Child(n, c).Some?
    ensures Replaced(n, c, x, SetChild(n, c, x))
    ensures Occupied(n) ==> Occupied(SetChild(n, c, x))
  {
    match n
    case N4(_, _, _, _) => SetInList(n, c, x);
    case N16(_, _, _, _) => SetInList(n, c, x);
    case N48(_, _, _, _, _) => SetIn48(n, c, x);
    case N256(_, _, _, _) =>
      var r := SetChild(n, c, x);
      assert forall d: Byte :: Child(r, d) == if d == c then Some(x) else Child(n, d);
      assert Used(r) == Used(n);
  }

  lemma SetInList<V>(n: Node<V>, c: Byte, x: Node<V>)
    requires (n.N4? || n.N16?) && Layout(n) && Child(n, c).Some?
    ensures Replaced(n, c, x, SetChild(n, c, x))
    ensures Occupied(n) ==> Occupied(SetChild(n, c, x))
  {
    hide Find;
    var r := SetChild(n, c, x);
    forall d: Byte ensures Child(r, d) == if d == c then Some(x) else Child(n, d) {
    }
    assert Used(r) == Used(n);
  }

  lemma SetIn48<V>(n: Node<V>, c: Byte, x: Node<V>)
    requires n.N48? && Layout(n) && Child(n, c).Some?
    ensures Replaced(n, c, x, SetChild(n, c, x))
    ensures Occupied(n) ==> Occupied(SetChild(n, c, x))
  {
    hide Owned;
    var i := n.index[c] - 1;
    var r := N48(n.partialLen, n.partial, n.num, n.index, n.slots[i := Some(x)]);
    assert Child(n, c) == n.slots[i];
    forall d: Byte ensures Child(r, d) == if d == c then Some(x) else Child(n, d) {
    }
    assert Used(r) == Used(n);
    OwnedSame(n.index, n.slots, r.slots);
  }

  lemma OwnedSame<V>(index: seq<nat>, slots: seq<Option<Node<V>>>, slots': seq<Option<Node<V>>>)
    requires Owned(index, slots) && |slots'| == 48
    requires forall i :: 0 <= i < 48 && slots'[i].Some? ==> slots[i].Some?
    ensures Owned(index, slots')
  {
  }

  // ---- the children in key order

  /** The bytes from `i` on that lead to a child, in increasing order. */
  function Collect<V>(n: Node<V>, i: nat): (r: seq<Byte>)
    requires i <= 256
    ensures Increasing(r)
    ensures forall c: Byte :: c in r <==> i <= c && Child(n, c).Some?
    decreases 256 - i
  {
    if i == 256 then []
    else
      var rest := Collect(n, i + 1);
      var r := if Child(n, i).Some? then [i as Byte] + rest else rest;
      assert Increasing(r) by {
        assert forall j :: 0 <= j < |rest| ==> rest[j] in rest;
      }
      r
  }

  function KidsAt<V>(n: Node<V>, keys: seq<Byte>): (r: seq<Node<V>>)
    requires forall i :: 0 <= i < |keys| ==> Child(n, keys[i]).Some?
    ensures |r| == |keys|
    ensures forall i :: 0 <= i < |r| ==> Child(n, keys[i]) == Some(r[i]) && r[i] < n
  {
    seq(|keys|, i requires 0 <= i < |keys| => Child(n, keys[i]).value)
  }

  lemma CollectSize<V>(n: Node<V>)
    ensures |Collect(n, 0)| == |Used(n)|
  {
    KeySetSize(Collect(n, 0));
    assert KeySet(Collect(n, 0)) == Used(n);
  }

  lemma ButLast(a: seq<Byte>)
    requires Increasing(a) && |a| > 0
    ensures forall c: Byte :: c in a ==> c <= a[|a| - 1]
    ensures forall c: Byte :: c in a[..|a| - 1] <==> c in a && c != a[|a| - 1]
    ensures Increasing(a[..|a| - 1])
  {
    var n := |a| - 1;
    forall c: Byte | c in a && c != a[n] ensures c in a[..n] {
      var i :| 0 <= i < |a| && a[i] == c;
      assert a[..n][i] == c;
    }
    forall c: Byte | c in a[..n] ensures c != a[n] {
      var i :| 0 <= i < n && a[..n][i] == c;
    }
  }

  lemma {:induction false} SortedListsAgree(a: seq<Byte>, b: seq<Byte>)
    requires Increasing(a) && Increasing(b) && forall c: Byte :: c in a <==> c in b
    ensures a == b
  {
    if |a| > 0 && |b| > 0 {
      ButLast(a);
      ButLast(b);
      var i, j := |a| - 1, |b| - 1;
      hide Increasing;
      assert a[i] in b && b[j] in a;
      assert a[i] == b[j];
      forall c: Byte ensures c in a[..i] <==> c in b[..j] {
        assert c in a[..i] <==> c in a && c != a[i];
        assert c in b[..j] <==> c in b && c != b[j];
      }
      SortedListsAgree(a[..i], b[..j]);
      assert a == a[..i] + [a[i]] && b == b[..j] + [b[j]];
    } else {
      NoMembers(a, b);
      NoMembers(b, a);
    }
  }

  lemma NoMembers(a: seq<Byte>, b: seq<Byte>)
    requires forall c: Byte :: c in a <==> c in b
    ensures a == [] ==> b == []
  {
    if b != [] {
      assert b[0] in b;
    }
  }

  /** For the list layouts the stored order is the iteration order. */
  lemma CollectList<V>(n: Node<V>)
    requires (n.N4? || n.N16?) && Layout(n)
    ensures Collect(n, 0) == n.keys
  {
    forall c: Byte ensures c in n.keys <==> c in Collect(n, 0) {
      ListChildNone(n, c);
    }
    SortedListsAgree(Collect(n, 0), n.keys);
  }

  // ---- removing a child

  function Take4<V>(n: Node<V>, c: Byte): Node<V>
    requires n.N4? && |n.keys| == |n.kids| && Find(n.keys, c) < |n.keys|
  {
    var i := Find(n.keys, c);
    N4(n.partialLen, n.partial, RemoveAt(n.keys, i), RemoveAt(n.kids, i))
  }

  function Take16<V>(n: Node<V>, c: Byte): Node<V>
    requires n.N16? && |n.keys| == |n.kids| && Find(n.keys, c) < |n.keys| && |n.partial| == MAX_PREFIX
  {
    var i := Find(n.keys, c);
    var keys, kids := RemoveAt(n.keys, i), RemoveAt(n.kids, i);
    if |keys| == 3 then N4(n.partialLen, Header(n.partialLen, n.partial), keys, kids)
    else N16(n.partialLen, n.partial, keys, kids)
  }

  /** The NODE48 after `keys[c]` and its position are cleared. */
  function Clear48<V>(n: Node<V>, c: Byte): Node<V>
    requires n.N48? && |n.index| == 256 && |n.slots| == 48 && 0 < n.index[c] <= 48 && 0 < n.num
  {
    N48(n.partialLen, n.partial, n.num - 1, n.index[c := 0], n.slots[n.index[c] - 1 := None])
  }

  function Take48<V>(n: Node<V>, c: Byte): Node<V>
    requires n.N48? && |n.index| == 256 && |n.slots| == 48 && 0 < n.index[c] <= 48 && 0 < n.num
      && |n.partial| == MAX_PREFIX
  {
    var m := Clear48(n, c);
    if m.num == 12 then
      var keys := Collect(m, 0);
      assert forall i :: 0 <= i < |keys| ==> keys[i] in keys;
      N16(n.partialLen, Header(n.partialLen, n.partial), keys, KidsAt(m, keys))
    else m
  }

  function Clear256<V>(n: Node<V>, c: Byte): Node<V>
    requires n.N256? && |n.slots| == 256
  {
    N256(n.partialLen, n.partial, (n.num + 255) % 256, n.slots[c := None])
  }

  function Take256<V>(n: Node<V>, c: Byte): Node<V>
    requires n.N256? && |n.slots| == 256 && |n.partial| == MAX_PREFIX
  {
    var m := Clear256(n, c);
    var keys := Collect(m, 0);
    if m.num == 37 && |keys| <= 48 then
      assert forall i :: 0 <= i < |keys| ==> keys[i] in keys;
      Make48(n.partialLen, Header(n.partialLen, n.partial), keys, KidsAt(m, keys))
    else m
  }

  /** `r` has the children of `n` except the one under `c`. */
  ghost predicate Taken<V>(n: Node<V>, c: Byte, r: Node<V>) {
    && !n.Leaf? && !r.Leaf? && Layout(r)
    && r.partialLen == n.partialLen
    && |n.partial| == MAX_PREFIX && r.partial[..Kept(n.partialLen)] == n.partial[..Kept(n.partialLen)]
    && (forall d: Byte :: Child(r, d) == if d == c then None else Child(n, d))
  }

  lemma RemoveKeepsOrder(keys: seq<Byte>, i: nat)
    requires Increasing(keys) && i < |keys|
    ensures Increasing(RemoveAt(keys, i)) && keys[i] !in RemoveAt(keys, i)
    ensures forall c: Byte :: c in RemoveAt(keys, i) <==> c in keys && c != keys[i]
  {
    hide RemoveAt;
    var r := RemoveAt(keys, i);
    forall c: Byte | c in keys && c != keys[i] ensures c in r {
      var j :| 0 <= j < |keys| && keys[j] == c;
      assert r[if j < i then j else j - 1] == c;
    }
    forall c: Byte | c in r ensures c in keys && c != keys[i] {
      var j :| 0 <= j < |r| && r[j] == c;
      assert keys[if j < i then j else j + 1] == c;
    }
  }

  lemma ListTaken<V>(n: Node<V>, c: Byte, r: Node<V>)
    requires (n.N4? || n.N16?) && Layout(n) && Child(n, c).Some?
    requires r.N4? || r.N16?
    requires r.keys == RemoveAt(n.keys, Find(n.keys, c)) && r.kids == RemoveAt(n.kids, Find(n.keys, c))
    ensures Increasing(r.keys) && |r.keys| == |r.kids| == |n.keys| - 1
    ensures forall d: Byte :: Child(r, d) == if d == c then None else Child(n, d)
  {
    hide Find, RemoveAt;
    var i := Find(n.keys, c);
    RemoveKeepsOrder(n.keys, i);
    forall d: Byte ensures Child(r, d) == if d == c then None else Child(n, d) {
      ListChildNone(n, d);
      ListChildNone(r, d);
      if d in r.keys {
        var j := Find(r.keys, d);
        ListChildAt(r, j);
        ListChildAt(n, if j < i then j else j + 1);
      }
    }
  }

  lemma Taken4<V>(n: Node<V>, c: Byte)
    requires n.N4? && Layout(n) && Child(n, c).Some?
    ensures Taken(n, c, Take4(n, c)) && |Take4(n, c).keys| == |n.keys| - 1
  {
    hide Find, RemoveAt;
    ListTaken(n, c, Take4(n, c));
  }

  lemma Taken16<V>(n: Node<V>, c: Byte)
    requires n.N16? && Layout(n) && Child(n, c).Some? && Occupied(n)
    ensures Find(n.keys, c) < |n.keys|
    ensures Taken(n, c, Take16(n, c)) && Occupied(Take16(n, c))
  {
    hide Find, RemoveAt;
    ListTaken(n, c, Take16(n, c));
  }

  lemma Clear48Children<V>(n: Node<V>, c: Byte)
    requires n.N48? && Layout(n) && Child(n, c).Some?
    ensures 0 < n.index[c] <= 48 && 0 < n.num
    ensures var m := Clear48(n, c);
      && (forall d: Byte :: Child(m, d) == if d == c then None else Child(n, d))
      && |Used(m)| == |Used(n)| - 1 && Layout(m)
  {
    hide Owned;
    assert c in Used(n);
    var m := Clear48(n, c);
    forall d: Byte ensures Child(m, d) == if d == c then None else Child(n, d) {
    }
    assert Used(m) == Used(n) - {c};
    ClearOwned(n.index, n.slots, c);
  }

  lemma ClearOwned<V>(index: seq<nat>, slots: seq<Option<Node<V>>>, c: Byte)
    requires |index| == 256 && Owned(index, slots) && 0 < index[c] <= 48
    ensures Owned(index[c := 0], slots[index[c] - 1 := None])
  {
    var index', slots' := index[c := 0], slots[index[c] - 1 := None];
    forall i: nat | i < 48 && slots'[i].Some? ensures HasOwner(index', i) {
      assert HasOwner(index, i);
      var d: Byte :| SlotFor(index, i, d);
      assert SlotFor(index', i, d);
    }
  }

  lemma CollectKids<V>(m: Node<V>)
    ensures var keys := Collect(m, 0);
      (forall i :: 0 <= i < |keys| ==> Child(m, keys[i]).Some?) && |keys| == |Used(m)|
  {
    var keys := Collect(m, 0);
    forall i | 0 <= i < |keys| ensures Child(m, keys[i]).Some? {
      assert keys[i] in keys;
    }
    CollectSize(m);
  }

  /** Rebuilding a node from its collected children gives the same children. */
  lemma CollectedList<V>(m: Node<V>, r: Node<V>)
    requires r.N16? && r.keys == Collect(m, 0) && |r.keys| == |r.kids|
    requires forall i :: 0 <= i < |r.keys| ==> Child(m, r.keys[i]) == Some(r.kids[i])
    ensures forall d: Byte :: Child(r, d) == Child(m, d)
  {
    hide Collect;
    forall d: Byte ensures Child(r, d) == Child(m, d) {
      ListChildNone(r, d);
      if d in r.keys {
        ListChildAt(r, Find(r.keys, d));
      }
    }
  }

  lemma Taken48<V>(n: Node<V>, c: Byte)
    requires n.N48? && Layout(n) && Child(n, c).Some? && Occupied(n)
    ensures 0 < n.index[c] <= 48 && 0 < n.num
    ensures Taken(n, c, Take48(n, c)) && Occupied(Take48(n, c))
  {
    hide OneToOne, Owned, Collect, Child;
    Clear48Children(n, c);
    var m := Clear48(n, c);
    if m.num == 12 {
      CollectKids(m);
      CollectedList(m, Take48(n, c));
    }
  }

  lemma Clear256Children<V>(n: Node<V>, c: Byte)
    requires n.N256? && Layout(n) && Child(n, c).Some?
    ensures var m := Clear256(n, c);
      && (forall d: Byte :: Child(m, d) == if d == c then None else Child(n, d))
      && |Used(m)| == |Used(n)| - 1 && Layout(m)
  {
    assert c in Used(n);
    var m := Clear256(n, c);
    assert forall d: Byte :: Child(m, d) == if d == c then None else Child(n, d);
    assert Used(m) == Used(n) - {c};
  }

  lemma Taken256<V>(n: Node<V>, c: Byte)
    requires n.N256? && Layout(n) && Child(n, c).Some? && Occupied(n)
    ensures Taken(n, c, Take256(n, c)) && Occupied(Take256(n, c))
  {
    hide Collect, Child;
    Clear256Children(n, c);
    var m := Clear256(n, c);
    CollectKids(m);
    if m.num == 37 {
      var keys := Collect(m, 0);
      var p := Header(n.partialLen, n.partial);
      Make48Layout(n.partialLen, p, keys, KidsAt(m, keys));
      Make48Children(n.partialLen, p, keys, KidsAt(m, keys));
      KeySetSize(keys);
      Collected48(m, n.partialLen, p);
    }
  }

  lemma Collected48<V>(m: Node<V>, len: nat, p: seq<Byte>)
    requires |Collect(m, 0)| <= 48 && forall i :: 0 <= i < |Collect(m, 0)| ==> Child(m, Collect(m, 0)[i]).Some?
    ensures forall d: Byte :: Child(Make48(len, p, Collect(m, 0), KidsAt(m, Collect(m, 0))), d) == Child(m, d)
  {
    hide Collect, Make48, Child;
    var keys := Collect(m, 0);
    var r := Make48(len, p, keys, KidsAt(m, keys));
    Make48Children(len, p, keys, KidsAt(m, keys));
    forall d: Byte ensures Child(r, d) == Child(m, d) {
      if d in keys {
        var i :| 0 <= i < |keys| && keys[i] == d;
      }
    }
  }
}
