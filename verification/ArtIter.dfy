/** Iteration: the callback sees the bindings in increasing order of unsigned key bytes
    and stops at its first nonzero answer. */
module ArtIter {
  import opened Basics
  import opened ArtNodes
  import opened ArtShrink
  import opened ArtTree

  /** The order in which a node's children are visited. */
  function Bytes<V>(n: Node<V>): seq<Byte> {
    if n.N4? || n.N16? then n.keys else Collect(n, 0)
  }

  /** The bindings below a node, in visiting order. */
  function Items<V>(n: Node<V>): seq<(Key, V)>
    decreases n, 1, 0
  {
    if n.Leaf? then [(n.key, n.value)] else ItemsBelow(n, Bytes(n))
  }

  function ItemsBelow<V>(n: Node<V>, bytes: seq<Byte>): seq<(Key, V)>
    decreases n, 0, |bytes|
  {
    if |bytes| == 0 then []
    else (if Child(n, bytes[0]).Some? then Items(Child(n, bytes[0]).value) else []) + ItemsBelow(n, bytes[1..])
  }

  type Callback<!V, !S> = (S, Key, V) -> (S, int)

  /** `recursive_iter`. */
  function Walk<V, S>(n: Node<V>, cb: Callback<V, S>, s: S): (S, int)
    decreases n, 1, 0
  {
    if n.Leaf? then cb(s, n.key, n.value) else WalkBelow(n, Bytes(n), cb, s)
  }

  function WalkBelow<V, S>(n: Node<V>, bytes: seq<Byte>, cb: Callback<V, S>, s: S): (S, int)
    decreases n, 0, |bytes|
  {
    if |bytes| == 0 then (s, 0)
    else if Child(n, bytes[0]).None? then WalkBelow(n, bytes[1..], cb, s)
    else
      var r := Walk(Child(n, bytes[0]).value, cb, s);
      if r.1 != 0 then r else WalkBelow(n, bytes[1..], cb, r.0)
  }

  /** Feeding a list of bindings to the callback until it objects. */
  function Feed<V, S>(items: seq<(Key, V)>, cb: Callback<V, S>, s: S): (S, int) {
    if |items| == 0 then (s, 0)
    else
      var r := cb(s, items[0].0, items[0].1);
      if r.1 != 0 then r else Feed(items[1..], cb, r.0)
  }

  lemma {:induction false} FeedAppend<V, S>(a: seq<(Key, V)>, b: seq<(Key, V)>, cb: Callback<V, S>, s: S)
    ensures var r := Feed(a, cb, s); Feed(a + b, cb, s) == if r.1 != 0 then r else Feed(b, cb, r.0)
    decreases |a|
  {
    if |a| == 0 {
      assert a + b == b;
    } else {
      var r := cb(s, a[0].0, a[0].1);
      assert (a + b)[1..] == a[1..] + b;
      FeedAppend(a[1..], b, cb, r.0);
    }
  }

  /** The recursive walk with early exit is one pass over the list of bindings. */
  lemma {:induction false} WalkFeeds<V, S>(n: Node<V>, cb: Callback<V, S>, s: S)
    ensures Walk(n, cb, s) == Feed(Items(n), cb, s)
    decreases n, 1, 0
  {
    if n.Leaf? {
      assert Items(n)[1..] == [];
    } else {
      WalkBelowFeeds(n, Bytes(n), cb, s);
    }
  }

  lemma {:induction false} WalkBelowFeeds<V, S>(n: Node<V>, bytes: seq<Byte>, cb: Callback<V, S>, s: S)
    ensures WalkBelow(n, bytes, cb, s) == Feed(ItemsBelow(n, bytes), cb, s)
    decreases n, 0, |bytes|
  {
    hide Child;
    if |bytes| > 0 {
      if Child(n, bytes[0]).None? {
        WalkBelowFeeds(n, bytes[1..], cb, s);
        assert [] + ItemsBelow(n, bytes[1..]) == ItemsBelow(n, bytes[1..]);
      } else {
        var x := Child(n, bytes[0]).value;
        WalkFeeds(x, cb, s);
        var r := Walk(x, cb, s);
        WalkBelowFeeds(n, bytes[1..], cb, r.0);
        FeedAppend(Items(x), ItemsBelow(n, bytes[1..]), cb, s);
      }
    }
  }

  // ---- order

  /** Unsigned byte order, shorter first. */
  ghost predicate Less(a: Key, b: Key) {
    (|a| < |b| && Prefix(a, b)) || exists i :: ForkAt(a, b, i)
  }

  ghost predicate ForkAt(a: Key, b: Key, i: nat) {
    i < |a| && i < |b| && a[..i] == b[..i] && a[i] < b[i]
  }

  ghost predicate Ascending<V>(items: seq<(Key, V)>) {
    forall i, j :: 0 <= i < j < |items| ==> Less(items[i].0, items[j].0)
  }

  /** Every binding of the list continues the path `p`. */
  ghost predicate AllUnder<V>(items: seq<(Key, V)>, p: Key) {
    forall i :: 0 <= i < |items| ==> Prefix(p, items[i].0)
  }

  lemma ForkLess(p: Key, c: Byte, d: Byte, a: Key, b: Key)
    requires c < d && Prefix(p + [c], a) && Prefix(p + [d], b)
    ensures Less(a, b)
  {
    var i := |p|;
    assert a[..i + 1][i] == c && b[..i + 1][i] == d;
    assert a[..i] == a[..i + 1][..i] == p && b[..i] == b[..i + 1][..i] == p;
    assert ForkAt(a, b, i);
  }

  /** `k` continues `p` with a byte above `c`. */
  ghost predicate After(p: Key, c: Byte, k: Key) {
    exists d: Byte :: c < d && Prefix(p + [d], k)
  }

  /** Items below byte `c` come before items below larger bytes. */
  lemma BeforeRest<V>(first: seq<(Key, V)>, rest: seq<(Key, V)>, p: Key, c: Byte)
    requires Ascending(first) && Ascending(rest) && AllUnder(first, p + [c])
    requires forall j :: 0 <= j < |rest| ==> After(p, c, rest[j].0)
    ensures Ascending(first + rest)
  {
    hide Less, Prefix;
    var all := first + rest;
    forall i, j | 0 <= i < j < |all| ensures Less(all[i].0, all[j].0) {
      if i < |first| <= j {
        assert After(p, c, rest[j - |first|].0);
        var d: Byte :| c < d && Prefix(p + [d], rest[j - |first|].0);
        ForkLess(p, c, d, first[i].0, rest[j - |first|].0);
      }
    }
  }

  ghost predicate BelowSome(p: Key, bytes: seq<Byte>, k: Key) {
    exists d: Byte :: d in bytes && Prefix(p + [d], k)
  }

  ghost predicate HasBelowBytes<V>(n: Node<V>, bytes: seq<Byte>, k: Key, v: V) {
    exists c: Byte :: c in bytes && Child(n, c).Some? && Has(Child(n, c).value, k, v)
  }

  lemma {:induction false} ItemsOk<V(!new)>(n: Node<V>, p: Key)
    requires WF(n, p)
    ensures Ascending(Items(n)) && AllUnder(Items(n), p)
    ensures forall k, v :: (k, v) in Items(n) <==> Has(n, k, v)
    decreases n, 1, 0
  {
    hide Child, Less, Layout, Occupied;
    if !n.Leaf? {
      var q := Unfold(n, p);
      BytesOk(n);
      ItemsBelowOk(n, p, q, Bytes(n));
      hide ItemsBelow, Bytes;
      var items := ItemsBelow(n, Bytes(n));
      forall k, v ensures (k, v) in items <==> Has(n, k, v) {
        if Has(n, k, v) {
          var c: Byte :| Child(n, c).Some? && Has(Child(n, c).value, k, v);
          assert HasBelowBytes(n, Bytes(n), k, v);
        }
      }
      forall i | 0 <= i < |items| ensures Prefix(p, items[i].0) {
        assert items[i] in items;
        assert (items[i].0, items[i].1) in items;
        HasPrefix(n, p, items[i].0, items[i].1);
      }
    }
  }

  lemma BytesOk<V>(n: Node<V>)
    requires !n.Leaf? && Layout(n)
    ensures Increasing(Bytes(n)) && forall c: Byte :: c in Bytes(n) <==> Child(n, c).Some?
  {
    if n.N4? || n.N16? {
      CollectList(n);
    }
  }

  lemma {:induction false} ItemsBelowOk<V(!new)>(n: Node<V>, p: Key, q: Key, bytes: seq<Byte>)
    requires Under(n, p, q) && Increasing(bytes) && forall c: Byte :: c in bytes ==> Child(n, c).Some?
    ensures Ascending(ItemsBelow(n, bytes))
    ensures forall i :: 0 <= i < |ItemsBelow(n, bytes)| ==> BelowSome(p + q, bytes, ItemsBelow(n, bytes)[i].0)
    ensures forall k, v :: (k, v) in ItemsBelow(n, bytes) <==> HasBelowBytes(n, bytes, k, v)
    decreases n, 0, |bytes|
  {
    hide Child, Less, Layout, Occupied, WF, Items, Prefix;
    if |bytes| > 0 {
      var c, rest := bytes[0], bytes[1..];
      assert c in bytes && forall d: Byte :: d in rest ==> d in bytes && c < d;
      var x := Child(n, c).value;
      ItemsOk(x, p + q + [c]);
      ItemsBelowOk(n, p, q, rest);
      Joined(n, p + q, bytes, Items(x), ItemsBelow(n, rest));
      JoinedHas(n, bytes, Items(x), ItemsBelow(n, rest));
    }
  }

  lemma Joined<V(!new)>(n: Node<V>, p: Key, bytes: seq<Byte>, first: seq<(Key, V)>, more: seq<(Key, V)>)
    requires |bytes| > 0 && forall d: Byte :: d in bytes[1..] ==> bytes[0] < d
    requires Ascending(first) && AllUnder(first, p + [bytes[0]]) && Ascending(more)
    requires forall i :: 0 <= i < |more| ==> BelowSome(p, bytes[1..], more[i].0)
    ensures Ascending(first + more)
    ensures forall i :: 0 <= i < |first + more| ==> BelowSome(p, bytes, (first + more)[i].0)
  {
    hide Less, Prefix;
    var c := bytes[0];
    forall j | 0 <= j < |more| ensures After(p, c, more[j].0) {
      assert BelowSome(p, bytes[1..], more[j].0);
    }
    BeforeRest(first, more, p, c);
    forall i | 0 <= i < |first + more| ensures BelowSome(p, bytes, (first + more)[i].0) {
      if i < |first| {
        assert c in bytes && Prefix(p + [c], first[i].0);
      } else {
        assert BelowSome(p, bytes[1..], more[i - |first|].0);
        var d: Byte :| d in bytes[1..] && Prefix(p + [d], more[i - |first|].0);
        assert d in bytes;
      }
    }
  }

  lemma JoinedHas<V(!new)>(n: Node<V>, bytes: seq<Byte>, first: seq<(Key, V)>, more: seq<(Key, V)>)
    requires |bytes| > 0 && Child(n, bytes[0]).Some?
    requires forall k, v :: (k, v) in first <==> Has(Child(n, bytes[0]).value, k, v)
    requires forall k, v :: (k, v) in more <==> HasBelowBytes(n, bytes[1..], k, v)
    ensures forall k, v :: (k, v) in first + more <==> HasBelowBytes(n, bytes, k, v)
  {
    hide Child, Has;
    forall k, v ensures (k, v) in first + more <==> HasBelowBytes(n, bytes, k, v) {
      assert (k, v) in first + more <==> (k, v) in first || (k, v) in more;
      if HasBelowBytes(n, bytes[1..], k, v) {
        var c: Byte :| c in bytes[1..] && Child(n, c).Some? && Has(Child(n, c).value, k, v);
        assert c in bytes;
      }
      if HasBelowBytes(n, bytes, k, v) {
        var c: Byte :| c in bytes && Child(n, c).Some? && Has(Child(n, c).value, k, v);
        assert c == bytes[0] || c in bytes[1..];
      }
    }
  }
}
