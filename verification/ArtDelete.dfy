/** Deletion: the leaf is taken out of its parent, which may shrink to a smaller layout;
    a NODE4 left with one child disappears, and its path, the byte to the child and the
    child's own path are concatenated into the child. */
module ArtDelete {
  import opened Basics
  import opened ArtNodes
  import opened ArtShrink
  import opened ArtTree
  import opened ArtSearch
  import opened ArtInsertProof

  /** The header of the surviving child: as many bytes of both paths as fit. */
  function Merged(len: nat, p: seq<Byte>, c: Byte, childLen: nat, childP: seq<Byte>): (r: seq<Byte>)
    requires |p| == MAX_PREFIX && |childP| == MAX_PREFIX
    ensures |r| == MAX_PREFIX
  {
    if len >= MAX_PREFIX then p
    else
      var a1 := p[len := c];
      var used := len + 1;
      var sub := Min(childLen, MAX_PREFIX - used);
      var a2 := a1[..used] + childP[..sub] + a1[used + sub..];
      a2[..used + sub] + childP[used + sub..]
  }

  /** The node that replaces a NODE4 with a single child. */
  function Collapse<V>(n: Node<V>): Node<V>
    requires n.N4? && Sized(n) && |n.keys| == 1 && Sized(n.kids[0])
  {
    var x := n.kids[0];
    if x.Leaf? then x
    else WithPrefix(x, x.partialLen + n.partialLen + 1,
        Merged(n.partialLen, n.partial, n.keys[0], x.partialLen, x.partial))
  }

  /** `remove_child`. */
  function RemoveChild<V>(n: Node<V>, c: Byte): Node<V>
    requires Sized(n) && Child(n, c).Some?
  {
    match n
    case N4(_, _, _, _) =>
      var t := Take4(n, c);
      if |t.keys| == 1 && Sized(t.kids[0]) then Collapse(t) else t
    case N16(_, _, _, _) => Take16(n, c)
    case N48(_, _, _, _, _) => if n.num > 0 then Take48(n, c) else n
    case N256(_, _, _, _) => Take256(n, c)
  }

  /** `recursive_delete`: what is left of the subtree, and the value that was deleted. */
  function Delete<V>(n: Node<V>, key: Key, depth: nat, oob: Beyond): (r: (Option<Node<V>>, Option<V>))
    ensures !n.Leaf? ==> r.0.Some?
    decreases n
  {
    if n.Leaf? then
      if n.key == key then (None, Some(n.value)) else (Some(n), None)
    else
      match Descend(n, key, depth, oob)
      case None => (Some(n), None)
      case Some(x) =>
        var c := At(key, depth + n.partialLen, oob);
        if !Sized(n) then (Some(n), None)
        else if x.Leaf? then
          if x.key == key then (Some(RemoveChild(n, c)), Some(x.value)) else (Some(n), None)
        else
          var r := Delete(x, key, depth + n.partialLen + 1, oob);
          (Some(SetChild(n, c, r.0.value)), r.1)
  }

  // ---- collapsing

  lemma MergedBytes(len: nat, p: seq<Byte>, c: Byte, childLen: nat, childP: seq<Byte>, q: Key, q2: Key)
    requires |p| == MAX_PREFIX && |childP| == MAX_PREFIX && |q| == len && |q2| == childLen
    requires p[..Kept(len)] == q[..Kept(len)] && childP[..Kept(childLen)] == q2[..Kept(childLen)]
    ensures var total := childLen + len + 1;
      Merged(len, p, c, childLen, childP)[..Kept(total)] == (q + [c] + q2)[..Kept(total)]
  {
    var total := childLen + len + 1;
    var full := q + [c] + q2;
    var m := Merged(len, p, c, childLen, childP);
    if len >= MAX_PREFIX {
      assert m[..MAX_PREFIX] == q[..MAX_PREFIX] == full[..MAX_PREFIX];
    } else {
      var used := len + 1;
      var sub := Min(childLen, MAX_PREFIX - used);
      assert Kept(total) == used + sub;
      assert m[..used + sub] == p[..len] + [c] + childP[..sub];
      assert childP[..sub] == childP[..Kept(childLen)][..sub] == q2[..Kept(childLen)][..sub] == q2[..sub];
      assert full[..used + sub] == q + [c] + q2[..sub];
      assert p[..len] == q;
    }
  }

  lemma CollapseOk<V(!new)>(n: Node<V>, p: Key, q: Key, c: Byte, x: Node<V>)
    requires n.N4? && Layout(n) && |n.keys| == 1 && n.keys[0] == c && n.kids[0] == x
    requires |q| == n.partialLen && n.partial[..Kept(|q|)] == q[..Kept(|q|)] && WF(x, p + q + [c])
    ensures Sized(n) && Sized(x) && WF(Collapse(n), p)
    ensures forall k, v :: Has(Collapse(n), k, v) <==> Has(x, k, v)
  {
    hide WF, Layout, Occupied, Child, Merged;
    LayoutSized(n);
    WFSized(x, p + q + [c]);
    if x.Leaf? {
      LeafShorter(x, p, q, c);
    } else {
      var q2 := Unfold(x, p + q + [c]);
      UnderPartial(x, p + q + [c], q2);
      MergedBytes(n.partialLen, n.partial, c, x.partialLen, x.partial, q, q2);
      var total := x.partialLen + n.partialLen + 1;
      var p4 := Merged(n.partialLen, n.partial, c, x.partialLen, x.partial);
      Rehung(x, p, q, c, q2, p4);
    }
  }

  lemma LeafShorter<V>(x: Node<V>, p: Key, q: Key, c: Byte)
    requires x.Leaf? && WF(x, p + q + [c])
    ensures WF(x, p)
  {
    assert x.key[..|p|] == x.key[..|p + q + [c]|][..|p|];
  }

  /** The same children under the longer compressed path. */
  lemma Rehung<V(!new)>(x: Node<V>, p: Key, q: Key, c: Byte, q2: Key, p4: seq<Byte>)
    requires Under(x, p + q + [c], q2) && |p4| == MAX_PREFIX
    requires var full := q + [c] + q2; p4[..Kept(|full|)] == full[..Kept(|full|)]
    ensures var m := WithPrefix(x, |q| + 1 + |q2|, p4);
      WF(m, p) && forall k, v :: Has(m, k, v) <==> Has(x, k, v)
  {
    hide WF, Layout, Occupied, Child, Has, WithPrefix;
    var full := q + [c] + q2;
    var m := WithPrefix(x, |full|, p4);
    WithPrefixChildren(x, |full|, p4);
    HasSame(x, m);
    assert p + full == p + q + [c] + q2;
    UnderWF(m, p, full);
  }

  // ---- removing a leaf from its parent

  /** `r` holds what `n` holds except the binding of the leaf `x`. */
  ghost predicate Lacks<V(!new)>(n: Node<V>, x: Node<V>, r: Node<V>)
    requires x.Leaf?
  {
    forall k, v :: Has(r, k, v) <==> Has(n, k, v) && !(k == x.key && v == x.value)
  }

  lemma TakenHas<V(!new)>(n: Node<V>, p: Key, q: Key, c: Byte, x: Node<V>, t: Node<V>)
    requires Under(n, p, q) && Child(n, c) == Some(x) && x.Leaf? && Taken(n, c, t)
    ensures Lacks(n, x, t)
    ensures forall d: Byte :: Child(t, d).Some? ==> WF(Child(t, d).value, p + q + [d])
    ensures |q| == t.partialLen && |t.partial| == MAX_PREFIX && t.partial[..Kept(|q|)] == q[..Kept(|q|)]
  {
    hide Layout, Occupied, Child, WF;
    LayoutHeader(t);
    forall k, v ensures Has(t, k, v) <==> Has(n, k, v) && !(k == x.key && v == x.value) {
      if Has(t, k, v) {
        var d: Byte :| Child(t, d).Some? && Has(Child(t, d).value, k, v);
        assert Child(n, d) == Child(t, d);
        if Has(x, k, v) {
          SameByte(n, p, q, c, d, k, v);
        }
      }
      if Has(n, k, v) && !(k == x.key && v == x.value) {
        var d: Byte :| Child(n, d).Some? && Has(Child(n, d).value, k, v);
        assert Child(t, d) == Child(n, d);
      }
    }
  }

  lemma TakenWF<V(!new)>(n: Node<V>, p: Key, q: Key, c: Byte, x: Node<V>, t: Node<V>)
    requires Under(n, p, q) && Child(n, c) == Some(x) && x.Leaf? && Taken(n, c, t) && Occupied(t)
    ensures WF(t, p) && Lacks(n, x, t)
  {
    hide Layout, Occupied, Child, WF, Lacks;
    TakenHas(n, p, q, c, x, t);
    UnderWF(t, p, q);
  }

  lemma OnlyChild<V(!new)>(t: Node<V>)
    requires t.N4? && Layout(t) && |t.keys| == 1
    ensures Child(t, t.keys[0]) == Some(t.kids[0])
    ensures forall k, v :: Has(t, k, v) <==> Has(t.kids[0], k, v)
  {
    ListChildAt(t, 0);
    var c, y := t.keys[0], t.kids[0];
    forall d: Byte | Child(t, d).Some? ensures d == c {
      ListChildNone(t, d);
      assert d in t.keys;
    }
    hide Child, Layout;
    forall k, v ensures Has(t, k, v) <==> Has(y, k, v) {
      if Has(t, k, v) {
        var d: Byte :| Child(t, d).Some? && Has(Child(t, d).value, k, v);
      }
    }
  }

  lemma RemoveFrom4<V(!new)>(n: Node<V>, p: Key, q: Key, c: Byte, x: Node<V>)
    requires n.N4? && Under(n, p, q) && Child(n, c) == Some(x) && x.Leaf?
    ensures Sized(n) && WF(RemoveChild(n, c), p) && Lacks(n, x, RemoveChild(n, c))
  {
    hide WF, Has, Child, Find, Collapse, Lacks, Increasing;
    LayoutSized(n);
    Taken4(n, c);
    var t := Take4(n, c);
    hide Take4;
    if |t.keys| == 1 {
      TakenHas(n, p, q, c, x, t);
      OnlyChild(t);
      var c0, y := t.keys[0], t.kids[0];
      CollapseOk(t, p, q, c0, y);
      LacksSame(n, x, t, Collapse(t));
    } else {
      TakenWF(n, p, q, c, x, t);
    }
  }

  lemma LacksSame<V(!new)>(n: Node<V>, x: Node<V>, t: Node<V>, r: Node<V>)
    requires x.Leaf? && Lacks(n, x, t) && forall k, v :: Has(r, k, v) <==> Has(t, k, v)
    ensures Lacks(n, x, r)
  {
  }

  lemma RemoveOk<V(!new)>(n: Node<V>, p: Key, q: Key, c: Byte, x: Node<V>)
    requires Under(n, p, q) && Child(n, c) == Some(x) && x.Leaf?
    ensures Sized(n) && WF(RemoveChild(n, c), p) && Lacks(n, x, RemoveChild(n, c))
  {
    hide WF, Has, Child, Lacks, Take16, Take48, Take256;
    LayoutSized(n);
    match n
    case N4(_, _, _, _) => RemoveFrom4(n, p, q, c, x);
    case N16(_, _, _, _) => Taken16(n, c); TakenWF(n, p, q, c, x, Take16(n, c));
    case N48(_, _, _, _, _) => Taken48(n, c); TakenWF(n, p, q, c, x, Take48(n, c));
    case N256(_, _, _, _) => Taken256(n, c); TakenWF(n, p, q, c, x, Take256(n, c));
  }

  // ---- the theorem

  /** What a deletion should do to the contents. */
  ghost predicate Deleted<V(!new)>(n: Node<V>, key: Key, r: (Option<Node<V>>, Option<V>)) {
    && (forall k, v :: (r.0.Some? && Has(r.0.value, k, v)) <==> Has(n, k, v) && k != key)
    && (forall v :: Has(n, key, v) <==> r.1 == Some(v))
  }

  /** A key has one value. */
  lemma {:induction false} OneValue<V>(n: Node<V>, p: Key, k: Key, v: V, w: V)
    requires WF(n, p) && Has(n, k, v) && Has(n, k, w)
    ensures v == w
    decreases n
  {
    hide WF, Child, Layout, Occupied;
    if !n.Leaf? {
      var q := Unfold(n, p);
      HasBelow(n, p, q, k, v);
      HasBelow(n, p, q, k, w);
      UnderChild(n, p, q, k[|p + q|]);
      OneValue(Child(n, k[|p + q|]).value, p + q + [k[|p + q|]], k, v, w);
    }
  }

  lemma DeleteInner<V>(n: Node<V>, key: Key, depth: nat, oob: Beyond)
    requires !n.Leaf? && Sized(n)
    ensures var d := Descend(n, key, depth, oob);
      var r := Delete(n, key, depth, oob);
      var c := At(key, depth + n.partialLen, oob);
      && (d.None? ==> r == (Some(n), None))
      && (d.Some? ==> Child(n, c) == d)
      && (d.Some? && d.value.Leaf? ==>
            r == if d.value.key == key then (Some(RemoveChild(n, c)), Some(d.value.value)) else (Some(n), None))
      && (d.Some? && !d.value.Leaf? ==>
            var y := Delete(d.value, key, depth + n.partialLen + 1, oob);
            y.0.Some? && r == (Some(SetChild(n, c, y.0.value)), y.1))
  {
    hide RemoveChild, SetChild, Child, CheckPrefix;
  }

  /** Where the lookup does not find the key below a child, the tree does not hold it. */
  lemma OnlyBelow<V(!new)>(n: Node<V>, p: Key, q: Key, key: Key, oob: Beyond)
    requires Under(n, p, q)
    ensures forall v :: Has(n, key, v) ==>
      Descend(n, key, |p|, oob).Some? && Has(Descend(n, key, |p|, oob).value, key, v)
  {
    hide WF, Child, Layout, Occupied, Descend;
    DescendIs(n, p, q, key, oob);
    forall v | Has(n, key, v) ensures Descend(n, key, |p|, oob).Some? && Has(Descend(n, key, |p|, oob).value, key, v) {
      HasBelow(n, p, q, key, v);
    }
  }

  /** The leaf below is the one: it leaves. */
  lemma DeleteLeafBelow<V(!new)>(n: Node<V>, p: Key, q: Key, c: Byte, x: Node<V>, key: Key)
    requires Under(n, p, q) && Child(n, c) == Some(x) && x.Leaf? && x.key == key
    ensures Sized(n) && WF(RemoveChild(n, c), p)
    ensures Deleted(n, key, (Some(RemoveChild(n, c)), Some(x.value)))
  {
    hide WF, Child, Layout, Occupied, RemoveChild, Under, Has;
    RemoveOk(n, p, q, c, x);
    UnderWF(n, p, q);
    LeafHas(x);
    ChildHas(n, c, x);
    forall v | Has(n, key, v) ensures v == x.value {
      OneValue(n, p, key, v, x.value);
    }
  }

  lemma LeafHas<V>(x: Node<V>)
    requires x.Leaf?
    ensures Has(x, x.key, x.value)
  {
  }

  lemma DeleteBelow<V(!new)>(n: Node<V>, p: Key, q: Key, c: Byte, x: Node<V>, key: Key, y: Node<V>, was: Option<V>)
    requires Under(n, p, q) && Child(n, c) == Some(x) && WF(y, p + q + [c])
    requires Deleted(x, key, (Some(y), was))
    requires forall v :: Has(n, key, v) ==> Has(x, key, v)
    ensures WF(SetChild(n, c, y), p) && Deleted(n, key, (Some(SetChild(n, c, y)), was))
  {
    hide WF, Child, Layout, Occupied, SetChild, Has;
    var r := SetChild(n, c, y);
    SetChildReplaces(n, c, y);
    ReplacedHas(n, p, q, c, x, y, r);
    UnderWF(r, p, q);
    ChildHas(n, c, x);
  }

  /** Deletion refines map removal, for every key: what is left is well formed, holds
      exactly the other bindings, and the value handed back is the one that was there. */
  lemma {:induction false} DeleteOk<V(!new)>(n: Node<V>, p: Key, key: Key, oob: Beyond)
    requires WF(n, p)
    ensures var r := Delete(n, key, |p|, oob);
      (r.0.Some? ==> WF(r.0.value, p)) && Deleted(n, key, r)
    decreases n
  {
    hide WF, Child, Layout, Occupied, RemoveChild, SetChild, Descend, Under, Delete, Deleted, Has;
    if n.Leaf? {
      DeleteAtLeaf(n, p, key, oob);
    } else {
      var q := Unfold(n, p);
      WFSized(n, p);
      UnderPartial(n, p, q);
      DeleteInner(n, key, |p|, oob);
      OnlyBelow(n, p, q, key, oob);
      var d := Descend(n, key, |p|, oob);
      if d.None? {
        NothingDeleted(n, key);
      } else {
        var c, x := At(key, |p| + n.partialLen, oob), d.value;
        if x.Leaf? {
          if x.key == key {
            DeleteLeafBelow(n, p, q, c, x, key);
          } else {
            LeafHasNot(x, key);
            NothingDeleted(n, key);
          }
        } else {
          UnderChild(n, p, q, c);
          DeleteOk(x, p + q + [c], key, oob);
          var y := Delete(x, key, |p + q + [c]|, oob);
          DeleteBelow(n, p, q, c, x, key, y.0.value, y.1);
        }
      }
    }
  }

  lemma LeafHasNot<V(!new)>(x: Node<V>, key: Key)
    requires x.Leaf? && x.key != key
    ensures forall v :: !Has(x, key, v)
  {
  }

  lemma NothingDeleted<V(!new)>(n: Node<V>, key: Key)
    requires forall v :: !Has(n, key, v)
    ensures Deleted(n, key, (Some(n), None))
  {
  }

  lemma DeleteAtLeaf<V(!new)>(n: Node<V>, p: Key, key: Key, oob: Beyond)
    requires n.Leaf? && WF(n, p)
    ensures var r := Delete(n, key, |p|, oob);
      (r.0.Some? ==> WF(r.0.value, p)) && Deleted(n, key, r)
  {
  }
}
