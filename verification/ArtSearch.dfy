/** Lookup in the radix tree. The compressed path is compared on the stored bytes only;
    the full key is compared at the leaf. Reads past the end of the key yield an
    arbitrary byte `oob(i)`. */
module ArtSearch {
  import opened Basics
  import opened ArtNodes
  import opened ArtTree

  type Beyond = nat -> Byte

  function At(key: Key, i: nat, oob: Beyond): Byte {
    if i < |key| then key[i] else oob(i)
  }

  /** The key from `depth` on. */
  function Tail(key: Key, depth: nat): Key {
    if depth <= |key| then key[depth..] else []
  }

  /** The length of the common prefix. */
  function Common(a: Key, b: Key): (l: nat)
    ensures l <= |a| && l <= |b|
    ensures a[..l] == b[..l]
    ensures l < |a| && l < |b| ==> a[l] != b[l]
  {
    if |a| == 0 || |b| == 0 || a[0] != b[0] then 0
    else
      var r := Common(a[1..], b[1..]);
      assert a[..r + 1] == [a[0]] + a[1..][..r] && b[..r + 1] == [b[0]] + b[1..][..r];
      r + 1
  }

  lemma {:induction false} CommonIs(a: Key, b: Key, l: nat)
    requires l <= |a| && l <= |b| && a[..l] == b[..l] && (l < |a| && l < |b| ==> a[l] != b[l])
    ensures Common(a, b) == l
  {
    if l > 0 {
      assert a[..l][0] == a[0] && b[..l][0] == b[0];
      assert a[1..][..l - 1] == a[..l][1..] && b[1..][..l - 1] == b[..l][1..];
      CommonIs(a[1..], b[1..], l - 1);
    }
  }

  /** `check_prefix`: how many stored path bytes the key matches. */
  function CheckPrefix<V>(n: Node<V>, key: Key, depth: nat): nat
    requires !n.Leaf? && |n.partial| == MAX_PREFIX
  {
    Common(n.partial[..Kept(n.partialLen)], Tail(key, depth))
  }

  method CheckPrefixLoop<V>(n: Node<V>, key: Key, depth: nat) returns (idx: nat)
    requires !n.Leaf? && |n.partial| == MAX_PREFIX
    ensures idx == CheckPrefix(n, key, depth)
  {
    var left: int := |key| - depth;
    var stored := Kept(n.partialLen);
    var maxCmp: int := if stored < left then stored else left;
    idx := 0;
    while idx < maxCmp && n.partial[idx] == key[depth + idx]
      invariant 0 <= idx && (maxCmp >= 0 ==> idx <= maxCmp) && (maxCmp < 0 ==> idx == 0)
      invariant depth + idx <= |key| || idx == 0
      invariant forall j :: 0 <= j < idx ==> n.partial[j] == key[depth + j]
    {
      idx := idx + 1;
    }
    if idx > 0 || depth <= |key| {
      assert n.partial[..stored][..idx] == Tail(key, depth)[..idx];
    }
    CommonIs(n.partial[..stored], Tail(key, depth), idx);
  }

  /** The child that a lookup goes on with. */
  function Descend<V>(n: Node<V>, key: Key, depth: nat, oob: Beyond): (r: Option<Node<V>>)
    requires !n.Leaf?
    ensures r.Some? ==> r.value < n
  {
    if |n.partial| != MAX_PREFIX then None
    else if n.partialLen > 0 && CheckPrefix(n, key, depth) != Kept(n.partialLen) then None
    else Child(n, At(key, depth + n.partialLen, oob))
  }

  /** `art_search` below a node. */
  function Search<V>(n: Node<V>, key: Key, depth: nat, oob: Beyond): Option<V> {
    match n
    case Leaf(k, v) => if k == key then Some(v) else None
    case _ =>
      match Descend(n, key, depth, oob)
      case None => None
      case Some(x) => Search(x, key, depth + n.partialLen + 1, oob)
  }

  /** The loop of `art_search`. */
  method ArtSearch<V>(root: Option<Node<V>>, key: Key, oob: Beyond) returns (r: Option<V>)
    requires root.Some? ==> WF(root.value, [])
    ensures r == if root.Some? then Search(root.value, key, 0, oob) else None
  {
    hide Child, CheckPrefix, Layout, Occupied, Search, WF;
    if root.None? {
      return None;
    }
    var n, depth := root.value, 0;
    ghost var p: Key := [];
    while !n.Leaf?
      invariant 0 <= depth && WF(n, p)
      invariant Search(n, key, depth, oob) == Search(root.value, key, 0, oob)
      decreases n
    {
      ghost var q := Unfold(n, p);
      LayoutHeader(n);
      SearchStep(n, key, depth, oob);
      if n.partialLen > 0 {
        var matched := CheckPrefixLoop(n, key, depth);
        if matched != Kept(n.partialLen) {
          return None;
        }
      }
      var c := At(key, depth + n.partialLen, oob);
      var x := Child(n, c);
      if x.None? {
        return None;
      }
      p := p + q + [c];
      depth := depth + n.partialLen + 1;
      n := x.value;
    }
    SearchLeaf(n, key, depth, oob);
    return if n.key == key then Some(n.value) else None;
  }

  lemma SearchLeaf<V>(n: Node<V>, key: Key, depth: nat, oob: Beyond)
    requires n.Leaf?
    ensures Search(n, key, depth, oob) == if n.key == key then Some(n.value) else None
  {
  }

  /** A path that the key follows is matched on all its stored bytes. */
  lemma PathMatches<V>(n: Node<V>, p: Key, q: Key, key: Key)
    requires Under(n, p, q) && Prefix(p + q, key)
    ensures CheckPrefix(n, key, |p|) == Kept(n.partialLen)
  {
    hide Common, Layout, Occupied, WF, Child;
    LayoutHeader(n);
    var k := Kept(|q|);
    var t := Tail(key, |p|);
    assert t[..k] == key[|p|..|p| + k] == key[..|p + q|][|p|..|p| + k] == q[..k];
    CommonIs(n.partial[..k], t, k);
  }

  lemma LayoutHeader<V>(n: Node<V>)
    requires !n.Leaf? && Layout(n)
    ensures |n.partial| == MAX_PREFIX
  {
  }

  /** The lookup goes below the byte the key has after the path, or to some child. */
  lemma DescendIs<V>(n: Node<V>, p: Key, q: Key, key: Key, oob: Beyond)
    requires Under(n, p, q)
    ensures Prefix(p + q, key) && |p + q| < |key| ==> Descend(n, key, |p|, oob) == Child(n, key[|p + q|])
    ensures Descend(n, key, |p|, oob).Some? ==>
      exists c: Byte :: Descend(n, key, |p|, oob) == Child(n, c) && Child(n, c).Some?
  {
    hide Layout, Occupied, Child, CheckPrefix, WF;
    LayoutHeader(n);
    if Prefix(p + q, key) && |p + q| < |key| {
      PathMatches(n, p, q, key);
    }
  }

  /** Lookup is exact: it returns a value precisely when the tree holds that binding,
      for every key, also one that ends inside a path or between two nodes. */
  lemma {:induction false} SearchFinds<V>(n: Node<V>, p: Key, key: Key, oob: Beyond, v: V)
    requires WF(n, p)
    ensures Search(n, key, |p|, oob) == Some(v) <==> Has(n, key, v)
    decreases n, 1
  {
    hide Layout, Occupied, Child, Descend, WF, Search;
    if n.Leaf? {
      SearchLeaf(n, key, |p|, oob);
    } else {
      var q := Unfold(n, p);
      DescendIs(n, p, q, key, oob);
      SearchStep(n, key, |p|, oob);
      if Has(n, key, v) {
        HasBelow(n, p, q, key, v);
        SearchBelow(n, p, q, key[|p + q|], key, oob, v);
      } else if Descend(n, key, |p|, oob).Some? {
        var c: Byte :| Descend(n, key, |p|, oob) == Child(n, c) && Child(n, c).Some?;
        SearchBelow(n, p, q, c, key, oob, v);
      }
    }
  }

  lemma SearchStep<V>(n: Node<V>, key: Key, depth: nat, oob: Beyond)
    requires !n.Leaf?
    ensures Search(n, key, depth, oob) ==
      match Descend(n, key, depth, oob)
      case None => None
      case Some(x) => Search(x, key, depth + n.partialLen + 1, oob)
  {
    hide Descend;
  }

  lemma {:induction false} SearchBelow<V>(n: Node<V>, p: Key, q: Key, c: Byte, key: Key, oob: Beyond, v: V)
    requires Under(n, p, q) && Child(n, c).Some?
    ensures Search(Child(n, c).value, key, |p| + n.partialLen + 1, oob) == Some(v) <==> Has(Child(n, c).value, key, v)
    decreases n, 0
  {
    hide Layout, Occupied, WF, Search, Has;
    SearchFinds(Child(n, c).value, p + q + [c], key, oob, v);
  }
}
