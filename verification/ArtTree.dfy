/** Well-formed radix trees and what they contain. A node sits under a path of key bytes;
    only the first ten bytes of its compressed path are stored, and the rest is read off
    the minimum leaf below it. */
module ArtTree {
  import opened Basics
  import opened ArtNodes

  /** `a` is a prefix of `b`. */
  ghost predicate Prefix(a: Key, b: Key) {
    |a| <= |b| && b[..|a|] == a
  }

  // ---- the minimum leaf

  /** The smallest byte from `i` on that leads to a child. */
  function FirstUsed<V>(n: Node<V>, i: nat): (c: nat)
    requires i <= 256
    ensures i <= c <= 256
    ensures c < 256 ==> Child(n, c).Some?
    ensures forall d: Byte :: i <= d < c ==> Child(n, d).None?
    decreases 256 - i
  {
    if i == 256 || Child(n, i).Some? then i else FirstUsed(n, i + 1)
  }

  /** `minimum`: the first child of a list layout, else the child of the smallest byte. */
  function Minimum<V>(n: Node<V>): Node<V> {
    match n
    case Leaf(_, _) => n
    case N4(_, _, _, kids) => if |kids| > 0 then Minimum(kids[0]) else n
    case N16(_, _, _, kids) => if |kids| > 0 then Minimum(kids[0]) else n
    case _ =>
      var c := FirstUsed(n, 0);
      if c < 256 then Minimum(Child(n, c).value) else n
  }

  function MinKey<V>(n: Node<V>): Key {
    var m := Minimum(n);
    if m.Leaf? then m.key else []
  }

  // ---- contents and shape

  ghost predicate Has<V>(n: Node<V>, k: Key, v: V) {
    match n
    case Leaf(key, value) => key == k && value == v
    case _ => exists c: Byte :: Child(n, c).Some? && Has(Child(n, c).value, k, v)
  }

  /** The compressed path of an inner node under `p`. */
  ghost function Between<V>(n: Node<V>, p: Key): Key
    requires !n.Leaf? && |p| + n.partialLen <= |MinKey(n)|
  {
    MinKey(n)[|p|..|p| + n.partialLen]
  }

  ghost predicate WF<V>(n: Node<V>, p: Key) {
    match n
    case Leaf(key, _) => Prefix(p, key)
    case _ =>
      && Layout(n) && Occupied(n)
      && |p| + n.partialLen < |MinKey(n)|
      && n.partial[..Kept(n.partialLen)] == Between(n, p)[..Kept(n.partialLen)]
      && forall c: Byte :: Child(n, c).Some? ==> WF(Child(n, c).value, p + Between(n, p) + [c])
  }

  /** The same with the compressed path `q` given outright. */
  ghost predicate Under<V>(n: Node<V>, p: Key, q: Key) {
    && !n.Leaf? && Layout(n) && Occupied(n)
    && |q| == n.partialLen && n.partial[..Kept(|q|)] == q[..Kept(|q|)]
    && forall c: Byte :: Child(n, c).Some? ==> WF(Child(n, c).value, p + q + [c])
  }

  lemma WFUnder<V>(n: Node<V>, p: Key)
    requires !n.Leaf? && WF(n, p)
    ensures Under(n, p, Between(n, p))
  {
  }

  lemma Unfold<V>(n: Node<V>, p: Key) returns (q: Key)
    requires !n.Leaf? && WF(n, p)
    ensures Under(n, p, q)
  {
    WFUnder(n, p);
    q := Between(n, p);
  }

  /** Minimum descends into the child of the smallest byte, whatever the layout. */
  lemma MinimumStep<V>(n: Node<V>)
    requires !n.Leaf? && Layout(n) && Occupied(n)
    ensures exists c: Byte :: Child(n, c).Some? && Minimum(n) == Minimum(Child(n, c).value)
  {
    match n
    case N4(_, _, keys, kids) => ListChildAt(n, 0);
    case N16(_, _, keys, kids) => ListChildAt(n, 0);
    case _ => SomeUsed(n);
  }

  lemma SomeUsed<V>(n: Node<V>)
    requires |Used(n)| > 0
    ensures FirstUsed(n, 0) < 256
  {
    var c: Byte :| c in Used(n);
  }

  lemma {:induction false} MinimumHas<V>(n: Node<V>, p: Key)
    requires WF(n, p)
    ensures Minimum(n).Leaf? && Prefix(p, MinKey(n))
    ensures Has(n, MinKey(n), Minimum(n).value)
  {
    hide Layout, Occupied, Child, FirstUsed;
    if !n.Leaf? {
      MinimumStep(n);
      var c: Byte :| Child(n, c).Some? && Minimum(n) == Minimum(Child(n, c).value);
      var p' := p + Between(n, p) + [c];
      MinimumHas(Child(n, c).value, p');
      assert p'[..|p|] == p && MinKey(n)[..|p|] == MinKey(n)[..|p'|][..|p|];
    }
  }

  lemma BetweenIs<V>(n: Node<V>, p: Key, q: Key)
    requires Under(n, p, q)
    ensures |p| + |q| < |MinKey(n)| && Between(n, p) == q
  {
    hide Layout, Occupied, Minimum, Child, Has, WF;
    MinimumStep(n);
    var c: Byte :| Child(n, c).Some? && Minimum(n) == Minimum(Child(n, c).value);
    var p' := p + q + [c];
    MinimumHas(Child(n, c).value, p');
    var m := MinKey(n);
    assert m == MinKey(Child(n, c).value);
    assert m[..|p'|] == p';
    assert m[|p|..|p| + |q|] == p'[|p|..|p| + |q|] == q;
  }

  /** Giving the path outright is enough: the minimum leaf then spells it. */
  lemma UnderWF<V>(n: Node<V>, p: Key, q: Key)
    requires Under(n, p, q)
    ensures WF(n, p) && Between(n, p) == q
  {
    hide Layout, Occupied, Minimum, Child, Has, MinKey;
    BetweenIs(n, p, q);
  }

  lemma {:induction false} HasPrefix<V>(n: Node<V>, p: Key, k: Key, v: V)
    requires WF(n, p) && Has(n, k, v)
    ensures Prefix(p, k)
  {
    if !n.Leaf? {
      var c: Byte :| Child(n, c).Some? && Has(Child(n, c).value, k, v);
      var p' := p + Between(n, p) + [c];
      HasPrefix(Child(n, c).value, p', k, v);
      assert p'[..|p|] == p && k[..|p|] == k[..|p'|][..|p|];
    }
  }

  /** A key is found only below the byte it has after the path. */
  lemma HasBelow<V>(n: Node<V>, p: Key, q: Key, k: Key, v: V)
    requires Under(n, p, q) && Has(n, k, v)
    ensures Prefix(p + q, k) && |p + q| < |k|
    ensures var c := k[|p + q|]; Child(n, c).Some? && Has(Child(n, c).value, k, v)
  {
    hide Layout, Occupied, Minimum, Child, WF;
    var c: Byte :| Child(n, c).Some? && Has(Child(n, c).value, k, v);
    var p' := p + q + [c];
    HasPrefix(Child(n, c).value, p', k, v);
    assert k[..|p + q|] == k[..|p'|][..|p + q|] == p + q;
    assert k[|p + q|] == k[..|p'|][|p + q|] == c;
  }
}
