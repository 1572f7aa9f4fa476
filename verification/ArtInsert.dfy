/** Insertion: a new leaf goes where the lookup ends. A leaf in the way is split, a
    compressed path that the key leaves is split, and a path longer than the ten stored
    bytes is compared and re-cut with the help of the minimum leaf. */
module ArtInsert {
  import opened Basics
  import opened ArtNodes
  import opened ArtShrink
  import opened ArtTree
  import opened ArtSearch

  /** Neither key is a proper prefix of the other. */
  ghost predicate Compatible(a: Key, b: Key) {
    a == b || (!Prefix(a, b) && !Prefix(b, a))
  }

  /** `memcpy(partial, src, min(MAX_PREFIX_LEN, len))` over an array `p`. */
  function Stored(p: seq<Byte>, src: Key, len: nat): (r: seq<Byte>)
    requires |p| == MAX_PREFIX
    ensures |r| == MAX_PREFIX
    ensures Kept(len) <= |src| ==> r[..Kept(len)] == src[..Kept(len)]
  {
    var k := Min(Kept(len), |src|);
    src[..k] + p[k..]
  }

  const ZEROS: seq<Byte> := [0, 0, 0, 0, 0, 0, 0, 0, 0, 0]

  /** `prefix_mismatch`. */
  function PrefixMismatch<V>(n: Node<V>, key: Key, depth: nat): nat
    requires !n.Leaf? && |n.partial| == MAX_PREFIX
  {
    var idx := CheckPrefix(n, key, depth);
    var maxCmp := Min(Kept(n.partialLen), |Tail(key, depth)|);
    if idx < maxCmp || n.partialLen <= MAX_PREFIX then idx
    else idx + Common(Tail(MinKey(n), depth + idx), Tail(key, depth + idx))
  }

  /** A leaf in the way becomes a NODE4 over both leaves. */
  function SplitLeaf<V>(l: Node<V>, key: Key, value: V, depth: nat, oob: Beyond): Node<V>
    requires l.Leaf?
  {
    var len := Common(Tail(l.key, depth), Tail(key, depth));
    var n := N4(len, Stored(ZEROS, Tail(key, depth), len), [], []);
    Add4Once(Add4Once(n, At(l.key, depth + len, oob), l), At(key, depth + len, oob), Leaf(key, value))
  }

  /** `add_child4` on a node that still has room. */
  function Add4Once<V>(n: Node<V>, c: Byte, x: Node<V>): (r: Node<V>)
    requires n.N4? && |n.keys| == |n.kids| && |n.partial| == MAX_PREFIX && |n.keys| < 4
    ensures r.N4? && |r.keys| == |r.kids| == |n.keys| + 1 && r.partial == n.partial && r.partialLen == n.partialLen
  {
    Add4(n, c, x)
  }

  /** The old node below a split of its path at `diff`, and the byte that leads to it. */
  function CutNode<V>(n: Node<V>, depth: nat, diff: nat, oob: Beyond): (Byte, Node<V>)
    requires !n.Leaf? && |n.partial| == MAX_PREFIX && diff < n.partialLen
  {
    var len := n.partialLen - (diff + 1);
    if n.partialLen <= MAX_PREFIX then
      (n.partial[diff], WithPrefix(n, len, Stored(n.partial, n.partial[diff + 1..], len)))
    else
      var m := MinKey(n);
      (At(m, depth + diff, oob), WithPrefix(n, len, Stored(n.partial, Tail(m, depth + diff + 1), len)))
  }

  function SplitPath<V>(n: Node<V>, key: Key, value: V, depth: nat, diff: nat, oob: Beyond): Node<V>
    requires !n.Leaf? && |n.partial| == MAX_PREFIX && diff < n.partialLen
  {
    var top := N4(diff, Stored(ZEROS, n.partial, diff), [], []);
    var cut := CutNode(n, depth, diff, oob);
    Add4Once(Add4Once(top, cut.0, cut.1), At(key, depth + diff, oob), Leaf(key, value))
  }

  /** What `recursive_insert` does with an inner node before it looks at the children. */
  function Mismatch<V>(n: Node<V>, key: Key, depth: nat): nat
    requires !n.Leaf? && |n.partial| == MAX_PREFIX
  {
    if n.partialLen > 0 then PrefixMismatch(n, key, depth) else 0
  }

  /** `recursive_insert`: the new subtree and the value that was there. */
  function Insert<V>(n: Node<V>, key: Key, value: V, depth: nat, oob: Beyond): (Node<V>, Option<V>)
    requires Sized(n)
    decreases n
  {
    if n.Leaf? then
      if n.key == key then (Leaf(key, value), Some(n.value)) else (SplitLeaf(n, key, value, depth, oob), None)
    else
      var diff := Mismatch(n, key, depth);
      if diff < n.partialLen then (SplitPath(n, key, value, depth, diff, oob), None)
      else
        var d := depth + n.partialLen;
        var c := At(key, d, oob);
        match Child(n, c)
        case None => (AddChild(n, c, Leaf(key, value)), None)
        case Some(x) =>
          if Sized(x) then
            var r := Insert(x, key, value, d + 1, oob);
            (SetChild(n, c, r.0), r.1)
          else (n, None)
  }
}
