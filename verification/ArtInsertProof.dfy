/** Insertion keeps the tree well formed and adds exactly the new binding. */
module ArtInsertProof {
  import opened Basics
  import opened ArtNodes
  import opened ArtShrink
  import opened ArtTree
  import opened ArtSearch
  import opened ArtInsert

  // ---- a NODE4 over two subtrees

  function Pair<V>(len: nat, p4: seq<Byte>, c1: Byte, x1: Node<V>, c2: Byte, x2: Node<V>): Node<V>
    requires |p4| == MAX_PREFIX
  {
    Add4Once(Add4Once(N4(len, p4, [], []), c1, x1), c2, x2)
  }

  lemma PairChildren<V>(len: nat, p4: seq<Byte>, c1: Byte, x1: Node<V>, c2: Byte, x2: Node<V>)
    requires |p4| == MAX_PREFIX && c1 != c2
    ensures var r := Pair(len, p4, c1, x1, c2, x2);
      && r.N4? && Layout(r) && Occupied(r) && r.partialLen == len && r.partial == p4
      && forall d: Byte :: Child(r, d) == if d == c1 then Some(x1) else if d == c2 then Some(x2) else None
  {
    var n := N4(len, p4, [], []);
    assert Layout(n) && forall d: Byte :: Child(n, d).None?;
    var n1 := Add4Once(n, c1, x1);
    hide Add4Once, Layout, Child;
    OnceAdded(n, c1, x1);
    OnceAdded(n1, c2, x2);
  }

  lemma OnceAdded<V>(n: Node<V>, c: Byte, x: Node<V>)
    requires n.N4? && Layout(n) && |n.keys| < 4 && Child(n, c).None?
    ensures var r := Add4Once(n, c, x);
      Layout(r) && forall d: Byte :: Child(r, d) == if d == c then Some(x) else Child(n, d)
  {
    Added4(n, c, x);
  }

  lemma PairWF<V>(len: nat, p4: seq<Byte>, c1: Byte, x1: Node<V>, c2: Byte, x2: Node<V>, p: Key, q: Key)
    requires |p4| == MAX_PREFIX && c1 != c2 && |q| == len && p4[..Kept(len)] == q[..Kept(len)]
    requires WF(x1, p + q + [c1]) && WF(x2, p + q + [c2])
    ensures WF(Pair(len, p4, c1, x1, c2, x2), p)
    ensures forall k, v :: Has(Pair(len, p4, c1, x1, c2, x2), k, v) <==> Has(x1, k, v) || Has(x2, k, v)
  {
    hide Pair, Layout, Occupied, Child, WF;
    var r := Pair(len, p4, c1, x1, c2, x2);
    PairChildren(len, p4, c1, x1, c2, x2);
    assert Child(r, c1) == Some(x1) && Child(r, c2) == Some(x2);
    UnderWF(r, p, q);
  }

  // ---- splitting a leaf

  /** Extending a path by a stretch that both keys share. */
  lemma PathExtends(p: Key, k: Key, q: Key)
    requires Prefix(p, k) && |p| + |q| < |k| && Tail(k, |p|)[..|q|] == q
    ensures Prefix(p + q + [k[|p| + |q|]], k)
  {
    var t := Tail(k, |p|);
    assert k == p + t;
    assert t[..|q| + 1] == t[..|q|] + [t[|q|]];
  }

  lemma SplitLeafOk<V>(l: Node<V>, p: Key, key: Key, value: V, oob: Beyond)
    requires l.Leaf? && Prefix(p, l.key) && Prefix(p, key) && l.key != key && Compatible(l.key, key)
    ensures WF(SplitLeaf(l, key, value, |p|, oob), p)
    ensures forall k, v :: Has(SplitLeaf(l, key, value, |p|, oob), k, v) <==> (k == key && v == value) || Has(l, k, v)
  {
    hide Common, Pair, Stored, SplitLeaf, Has, WF, Prefix;
    var d := |p|;
    var a, b := Tail(l.key, d), Tail(key, d);
    var len := Common(a, b);
    var q := b[..len];
    ForkPoint(p, l.key, key);
    PathExtends(p, l.key, q);
    PathExtends(p, key, q);
    var c1, c2 := l.key[d + len], key[d + len];
    var p4 := Stored(ZEROS, b, len);
    assert q[..Kept(len)] == b[..Kept(len)];
    LeafUnder(l, p + q + [c1]);
    LeafUnder(Leaf(key, value), p + q + [c2]);
    PairWF(len, p4, c1, l, c2, Leaf(key, value), p, q);
    SplitLeafIs(l, key, value, d, oob);
    LeafHolds(l);
    LeafHolds(Leaf(key, value));
  }

  lemma LeafUnder<V>(l: Node<V>, p: Key)
    requires l.Leaf? && Prefix(p, l.key)
    ensures WF(l, p)
  {
  }

  lemma LeafHolds<V>(l: Node<V>)
    requires l.Leaf?
    ensures forall k, v :: Has(l, k, v) <==> k == l.key && v == l.value
  {
  }

  lemma SplitLeafIs<V>(l: Node<V>, key: Key, value: V, d: nat, oob: Beyond)
    requires l.Leaf?
    requires var len := Common(Tail(l.key, d), Tail(key, d)); d + len < |l.key| && d + len < |key|
    ensures var len := Common(Tail(l.key, d), Tail(key, d));
      SplitLeaf(l, key, value, d, oob)
        == Pair(len, Stored(ZEROS, Tail(key, d), len), l.key[d + len], l, key[d + len], Leaf(key, value))
  {
    hide Common, Add4Once, Stored, Tail;
  }

  lemma WholeTail(p: Key, a: Key, b: Key, l: nat)
    requires Prefix(p, a) && Prefix(p, b)
    requires l <= |Tail(a, |p|)| && l <= |Tail(b, |p|)| && Tail(a, |p|)[..l] == Tail(b, |p|)[..l]
    ensures |p| + l == |a| ==> Prefix(a, b)
  {
    var ta, tb := Tail(a, |p|), Tail(b, |p|);
    assert a == p + ta && b == p + tb;
    if |p| + l == |a| {
      assert b[..|a|] == p + tb[..l];
    }
  }

  /** Two keys of which neither is a prefix of the other part at a byte both have. */
  lemma ForkPoint(p: Key, a: Key, b: Key)
    requires Prefix(p, a) && Prefix(p, b) && !Prefix(a, b) && !Prefix(b, a)
    ensures var len := Common(Tail(a, |p|), Tail(b, |p|));
      |p| + len < |a| && |p| + len < |b| && a[|p| + len] != b[|p| + len]
  {
    hide Common;
    var len := Common(Tail(a, |p|), Tail(b, |p|));
    WholeTail(p, a, b, len);
    WholeTail(p, b, a, len);
  }

  // ---- splitting a path

  lemma {:induction false} HasSame<V>(n: Node<V>, m: Node<V>)
    requires !n.Leaf? && !m.Leaf? && forall c: Byte :: Child(m, c) == Child(n, c)
    ensures forall k, v :: Has(m, k, v) <==> Has(n, k, v)
  {
    hide Child;
  }

  /** The old node keeps its subtree under the rest of its path. */
  lemma CutWF<V>(n: Node<V>, p: Key, q: Key, diff: nat, p4: seq<Byte>)
    requires Under(n, p, q) && diff < |q| && |p4| == MAX_PREFIX
    requires var len := |q| - (diff + 1); p4[..Kept(len)] == q[diff + 1..][..Kept(len)]
    ensures var m := WithPrefix(n, |q| - (diff + 1), p4);
      && WF(m, p + q[..diff] + [q[diff]])
      && forall k, v :: Has(m, k, v) <==> Has(n, k, v)
  {
    hide Layout, Occupied, Child, WF, WithPrefix;
    var len := |q| - (diff + 1);
    var m := WithPrefix(n, len, p4);
    WithPrefixChildren(n, len, p4);
    HasSame(n, m);
    var p', q' := p + q[..diff] + [q[diff]], q[diff + 1..];
    assert p' + q' == p + q;
    UnderWF(m, p', q');
  }

  lemma ShortRest(partial: seq<Byte>, q: Key, diff: nat)
    requires |partial| == MAX_PREFIX && diff < |q| <= MAX_PREFIX && partial[..|q|] == q
    ensures partial[diff] == q[diff]
    ensures var len := |q| - (diff + 1); partial[diff + 1..][..len] == q[diff + 1..]
  {
    var len := |q| - (diff + 1);
    assert partial[diff] == partial[..|q|][diff];
    assert partial[diff + 1..][..len] == partial[..|q|][diff + 1..];
  }

  lemma LongRest(m: Key, d: nat, q: Key, diff: nat)
    requires diff < |q| && d + |q| <= |m| && m[d..d + |q|] == q
    ensures m[d + diff] == q[diff]
    ensures var len := |q| - (diff + 1);
            len <= |Tail(m, d + diff + 1)| && Tail(m, d + diff + 1)[..Kept(len)] == q[diff + 1..][..Kept(len)]
  {
    var len := |q| - (diff + 1);
    assert m[d + diff] == m[d..d + |q|][diff];
    var t := Tail(m, d + diff + 1);
    assert t[..len] == m[d..d + |q|][diff + 1..];
    assert t[..len][..Kept(len)] == t[..Kept(len)];
  }

  /** The re-cut header, read from the stored bytes or from the minimum leaf. */
  function CutHeader<V>(n: Node<V>, depth: nat, diff: nat): (r: seq<Byte>)
    requires !n.Leaf? && |n.partial| == MAX_PREFIX && diff < n.partialLen
    ensures |r| == MAX_PREFIX
  {
    var len := n.partialLen - (diff + 1);
    if n.partialLen <= MAX_PREFIX then Stored(n.partial, n.partial[diff + 1..], len)
    else Stored(n.partial, Tail(MinKey(n), depth + diff + 1), len)
  }

  lemma CutHeaderOk<V>(n: Node<V>, p: Key, q: Key, diff: nat)
    requires Under(n, p, q) && diff < |q|
    ensures |n.partial| == MAX_PREFIX && |q| == n.partialLen && |p| + |q| < |MinKey(n)|
    ensures var len := |q| - (diff + 1); CutHeader(n, |p|, diff)[..Kept(len)] == q[diff + 1..][..Kept(len)]
    ensures (if |q| <= MAX_PREFIX then n.partial[diff] else MinKey(n)[|p| + diff]) == q[diff]
  {
    hide Under, MinKey, Stored, Tail;
    UnderPartial(n, p, q);
    BetweenIs(n, p, q);
    if |q| <= MAX_PREFIX {
      ShortRest(n.partial, q, diff);
    } else {
      LongRest(MinKey(n), |p|, q, diff);
    }
  }

  lemma CutNodeIs<V>(n: Node<V>, depth: nat, diff: nat, oob: Beyond)
    requires !n.Leaf? && |n.partial| == MAX_PREFIX && diff < n.partialLen && depth + n.partialLen < |MinKey(n)|
    ensures CutNode(n, depth, diff, oob)
      == (if n.partialLen <= MAX_PREFIX then n.partial[diff] else MinKey(n)[depth + diff],
          WithPrefix(n, n.partialLen - (diff + 1), CutHeader(n, depth, diff)))
  {
    hide MinKey, Stored, WithPrefix, Tail;
  }

  lemma CutNodeOk<V>(n: Node<V>, p: Key, q: Key, diff: nat, oob: Beyond)
    requires Under(n, p, q) && diff < |q|
    ensures |n.partial| == MAX_PREFIX
    ensures var cut := CutNode(n, |p|, diff, oob);
      && cut.0 == q[diff] && WF(cut.1, p + q[..diff] + [q[diff]])
      && forall k, v :: Has(cut.1, k, v) <==> Has(n, k, v)
  {
    hide Under, MinKey, CutHeader, CutNode, WithPrefix, WF, Has;
    UnderPartial(n, p, q);
    CutHeaderOk(n, p, q, diff);
    CutNodeIs(n, |p|, diff, oob);
    CutWF(n, p, q, diff, CutHeader(n, |p|, diff));
  }

  lemma SplitPathOk<V>(n: Node<V>, p: Key, q: Key, key: Key, value: V, diff: nat, oob: Beyond)
    requires Under(n, p, q) && Prefix(p, key) && diff < |q| && |p| + diff < |key|
    requires Tail(key, |p|)[..diff] == q[..diff] && key[|p| + diff] != q[diff]
    ensures |n.partial| == MAX_PREFIX
    ensures var r := SplitPath(n, key, value, |p|, diff, oob);
      && WF(r, p)
      && forall k, v :: Has(r, k, v) <==> (k == key && v == value) || Has(n, k, v)
  {
    hide Layout, Occupied, Child, CutNode, Add4Once, Stored, Under;
    CutNodeOk(n, p, q, diff, oob);
    UnderPartial(n, p, q);
    var cut := CutNode(n, |p|, diff, oob);
    var top := Stored(ZEROS, n.partial, diff);
    assert n.partial[..Kept(|q|)][..Kept(diff)] == n.partial[..Kept(diff)];
    assert q[..Kept(|q|)][..Kept(diff)] == q[..diff][..Kept(diff)];
    PathExtends(p, key, q[..diff]);
    PairWF(diff, top, cut.0, cut.1, key[|p| + diff], Leaf(key, value), p, q[..diff]);
  }

  lemma UnderPartial<V>(n: Node<V>, p: Key, q: Key)
    requires Under(n, p, q)
    ensures !n.Leaf? && |n.partial| == MAX_PREFIX && |q| == n.partialLen && n.partial[..Kept(|q|)] == q[..Kept(|q|)]
  {
    LayoutHeader(n);
  }

  // ---- where the key leaves the path

  lemma CommonSplit(a: Key, b: Key, l: nat)
    requires l <= |a| && l <= |b| && a[..l] == b[..l]
    ensures Common(a, b) == l + Common(a[l..], b[l..])
  {
    hide Common;
    var r := Common(a[l..], b[l..]);
    assert a[..l + r] == a[..l] + a[l..][..r] && b[..l + r] == b[..l] + b[l..][..r];
    CommonIs(a, b, l + r);
  }

  /** The comparison stops inside the path exactly at the first byte where the key leaves
      it; otherwise the key follows the whole path. Only the ten stored bytes and the
      minimum leaf are looked at. */
  lemma MismatchOk<V>(n: Node<V>, p: Key, q: Key, key: Key)
    requires Under(n, p, q) && Prefix(p, key) && Compatible(MinKey(n), key)
    ensures |n.partial| == MAX_PREFIX
    ensures var diff := Mismatch(n, key, |p|);
      if diff < |q| then |p| + diff < |key| && Tail(key, |p|)[..diff] == q[..diff] && key[|p| + diff] != q[diff]
      else Prefix(p + q, key) && |p + q| < |key|
  {
    hide Under, MinKey, Common;
    UnderPartial(n, p, q);
    BetweenIs(n, p, q);
    var t, m := Tail(key, |p|), MinKey(n);
    assert key == p + t;
    assert m[..|p|] == p by { UnderMin(n, p, q); }
    var s := m[|p|..];
    assert m == p + s && s[..|q|] == q;
    var e := Common(s, t);
    LeavesInside(p, key, m, s, t, e);
    if s == t {
      CommonIs(s, t, |s|);
    }
    MismatchIs(n, p, q, key, s, t);
    if e < |q| {
      assert s[..e] == q[..e];
      assert q[e] == s[e];
    } else {
      assert t[..|q|] == t[..e][..|q|] == s[..e][..|q|] == q;
      assert key[..|p + q|] == p + t[..|q|];
      WholeTail(p, key, m, |q|);
    }
  }

  lemma CommonCut(s: Key, t: Key, k: nat)
    requires k <= |s|
    ensures Common(s[..k], t) == Min(Common(s, t), k)
  {
    hide Common;
    var e := Min(Common(s, t), k);
    assert s[..k][..e] == s[..Common(s, t)][..e];
    assert t[..e] == t[..Common(s, t)][..e];
    CommonIs(s[..k], t, e);
  }

  lemma MismatchIs<V>(n: Node<V>, p: Key, q: Key, key: Key, s: Key, t: Key)
    requires !n.Leaf? && |n.partial| == MAX_PREFIX && |q| == n.partialLen && n.partial[..Kept(|q|)] == q[..Kept(|q|)]
    requires key == p + t && MinKey(n) == p + s && |q| <= |s| && s[..|q|] == q
      && (Common(s, t) < |t| || (s == t && Common(s, t) == |s|))
    ensures var diff := Mismatch(n, key, |p|);
      if diff < |q| then diff == Common(s, t) else Common(s, t) >= |q|
  {
    hide MinKey, Common, CheckPrefix, Tail, Mismatch, PrefixMismatch;
    var k, e := Kept(|q|), Common(s, t);
    CheckIs(n, p, q, key, s, t);
    MismatchShape(n, key, |p|);
    TailIs(p, t);
    if n.partialLen > MAX_PREFIX && e >= k {
      LongMismatch(p, s, t, k);
    }
  }

  lemma TailIs(p: Key, t: Key)
    ensures Tail(p + t, |p|) == t
  {
  }

  lemma MismatchShape<V>(n: Node<V>, key: Key, depth: nat)
    requires !n.Leaf? && |n.partial| == MAX_PREFIX
    ensures var idx := CheckPrefix(n, key, depth);
      Mismatch(n, key, depth) ==
        if n.partialLen == 0 then 0
        else if idx < Min(Kept(n.partialLen), |Tail(key, depth)|) || n.partialLen <= MAX_PREFIX then idx
        else idx + Common(Tail(MinKey(n), depth + idx), Tail(key, depth + idx))
  {
    hide MinKey, Common, CheckPrefix, Tail;
  }

  lemma CheckIs<V>(n: Node<V>, p: Key, q: Key, key: Key, s: Key, t: Key)
    requires !n.Leaf? && |n.partial| == MAX_PREFIX && |q| == n.partialLen && n.partial[..Kept(|q|)] == q[..Kept(|q|)]
    requires key == p + t && |q| <= |s| && s[..|q|] == q
    ensures CheckPrefix(n, key, |p|) == Min(Common(s, t), Kept(|q|))
  {
    hide Common;
    var k := Kept(|q|);
    assert Tail(key, |p|) == t;
    assert s[..|q|][..k] == s[..k];
    CommonCut(s, t, k);
  }

  lemma LongMismatch(p: Key, s: Key, t: Key, k: nat)
    requires k <= Common(s, t)
    ensures k + Common(Tail(p + s, |p| + k), Tail(p + t, |p| + k)) == Common(s, t)
  {
    hide Common;
    var e := Common(s, t);
    assert Tail(p + s, |p| + k) == s[k..] && Tail(p + t, |p| + k) == t[k..];
    assert s[..k] == s[..e][..k] && t[..k] == t[..e][..k];
    CommonSplit(s, t, k);
  }

  lemma LeavesInside(p: Key, key: Key, m: Key, s: Key, t: Key, e: nat)
    requires key == p + t && m == p + s && e == Common(s, t)
    ensures e == |t| ==> Prefix(key, m)
  {
    hide Common;
    if e == |t| {
      assert m[..|key|] == p + s[..e];
    }
  }

  lemma UnderMin<V>(n: Node<V>, p: Key, q: Key)
    requires Under(n, p, q)
    ensures Prefix(p, MinKey(n))
  {
    hide Under, MinKey;
    UnderWF(n, p, q);
    MinimumHas(n, p);
  }

  // ---- the theorem

  /** What an insertion should do to the contents. */
  ghost predicate Inserted<V(!new)>(n: Node<V>, key: Key, value: V, r: (Node<V>, Option<V>)) {
    && (forall k, v :: Has(r.0, k, v) <==> if k == key then v == value else Has(n, k, v))
    && (forall v :: Has(n, key, v) <==> r.1 == Some(v))
  }

  /** No stored key is a proper prefix of the new one or the other way round. */
  ghost predicate AllCompatible<V(!new)>(n: Node<V>, key: Key) {
    forall k, v :: Has(n, k, v) ==> Compatible(k, key)
  }

  lemma MinCompatible<V(!new)>(n: Node<V>, p: Key, q: Key, key: Key)
    requires Under(n, p, q) && AllCompatible(n, key)
    ensures Compatible(MinKey(n), key)
  {
    hide Under, WF, MinKey, Has, Compatible;
    UnderWF(n, p, q);
    MinimumHas(n, p);
  }

  /** Replacing the subtree below `c` replaces what is found there. */
  lemma ReplacedHas<V>(n: Node<V>, p: Key, q: Key, c: Byte, x: Node<V>, y: Node<V>, r: Node<V>)
    requires Under(n, p, q) && Child(n, c) == Some(x) && Replaced(n, c, y, r) && Occupied(r)
    requires WF(y, p + q + [c])
    ensures Under(r, p, q)
    ensures forall k, v :: Has(r, k, v) <==> Has(y, k, v) || (Has(n, k, v) && !Has(x, k, v))
  {
    hide Layout, Occupied, Child, WF, Used;
    assert !n.Leaf? && !r.Leaf?;
    forall k, v ensures Has(r, k, v) <==> Has(y, k, v) || (Has(n, k, v) && !Has(x, k, v)) {
      if Has(n, k, v) && !Has(x, k, v) {
        var d: Byte :| Child(n, d).Some? && Has(Child(n, d).value, k, v);
        assert Child(r, d) == Child(n, d);
      }
      if Has(y, k, v) {
        assert Child(r, c) == Some(y);
      }
      if Has(r, k, v) && !Has(y, k, v) {
        var d: Byte :| Child(r, d).Some? && Has(Child(r, d).value, k, v);
        assert Child(n, d) == Child(r, d);
        if Has(x, k, v) {
          SameByte(n, p, q, c, d, k, v);
        }
      }
    }
  }

  /** A key is below one byte only. */
  lemma SameByte<V>(n: Node<V>, p: Key, q: Key, c: Byte, d: Byte, k: Key, v: V)
    requires Under(n, p, q) && Child(n, c).Some? && Child(n, d).Some?
    requires Has(Child(n, c).value, k, v) && Has(Child(n, d).value, k, v)
    ensures c == d
  {
    hide Layout, Occupied, Child, WF, Has;
    HasPrefix(Child(n, c).value, p + q + [c], k, v);
    HasPrefix(Child(n, d).value, p + q + [d], k, v);
    var i := |p + q|;
    assert k[..i + 1][i] == c && k[..i + 1][i] == d;
  }

  lemma AddedHas<V>(n: Node<V>, p: Key, q: Key, c: Byte, y: Node<V>, r: Node<V>)
    requires Under(n, p, q) && Child(n, c).None? && Added(n, c, y, r) && Occupied(r)
    requires WF(y, p + q + [c])
    ensures Under(r, p, q)
    ensures forall k, v :: Has(r, k, v) <==> Has(y, k, v) || Has(n, k, v)
  {
    hide Layout, Occupied, Child, WF, Used;
    forall k, v ensures Has(r, k, v) <==> Has(y, k, v) || Has(n, k, v) {
      if Has(n, k, v) {
        var d: Byte :| Child(n, d).Some? && Has(Child(n, d).value, k, v);
        assert Child(r, d) == Child(n, d);
      }
      if Has(y, k, v) {
        assert Child(r, c) == Some(y);
      }
      if Has(r, k, v) && !Has(y, k, v) {
        var d: Byte :| Child(r, d).Some? && Has(Child(r, d).value, k, v);
        assert Child(n, d) == Child(r, d);
      }
    }
  }

  lemma KeyBelow<V(!new)>(n: Node<V>, p: Key, q: Key, key: Key)
    requires Under(n, p, q) && Prefix(p + q, key) && |p + q| < |key|
    ensures var c := key[|p + q|];
      forall v :: Has(n, key, v) <==> Child(n, c).Some? && Has(Child(n, c).value, key, v)
  {
    hide Layout, Occupied, Child, WF;
    forall v | Has(n, key, v) ensures var c := key[|p + q|]; Child(n, c).Some? && Has(Child(n, c).value, key, v) {
      HasBelow(n, p, q, key, v);
    }
  }

  lemma PathPlus(p: Key, q: Key, key: Key)
    requires Prefix(p + q, key) && |p + q| < |key|
    ensures Prefix(p + q + [key[|p + q|]], key)
  {
    var i := |p + q|;
    assert key[..i + 1] == key[..i] + [key[i]];
  }

  lemma SetOk<V(!new)>(n: Node<V>, p: Key, q: Key, key: Key, value: V, x: Node<V>, y: (Node<V>, Option<V>))
    requires Under(n, p, q) && Prefix(p + q, key) && |p + q| < |key|
    requires Child(n, key[|p + q|]) == Some(x) && WF(y.0, p + q + [key[|p + q|]]) && Inserted(x, key, value, y)
    ensures var r := SetChild(n, key[|p + q|], y.0);
      WF(r, p) && Inserted(n, key, value, (r, y.1))
  {
    hide Layout, Occupied, Child, WF, Has;
    var c := key[|p + q|];
    var r := SetChild(n, c, y.0);
    SetChildReplaces(n, c, y.0);
    ReplacedHas(n, p, q, c, x, y.0, r);
    UnderWF(r, p, q);
    KeyBelow(n, p, q, key);
    assert forall k, v :: k != key ==> (Has(y.0, k, v) <==> Has(x, k, v));
    assert forall k, v :: Has(x, k, v) ==> Has(n, k, v) by { ChildHas(n, c, x); }
  }

  lemma ChildHas<V(!new)>(n: Node<V>, c: Byte, x: Node<V>)
    requires Child(n, c) == Some(x)
    ensures forall k, v :: Has(x, k, v) ==> Has(n, k, v)
  {
  }

  lemma AddOk<V(!new)>(n: Node<V>, p: Key, q: Key, key: Key, value: V)
    requires Under(n, p, q) && Prefix(p + q, key) && |p + q| < |key| && Child(n, key[|p + q|]).None?
    ensures var r := AddChild(n, key[|p + q|], Leaf(key, value));
      WF(r, p) && Inserted(n, key, value, (r, None))
  {
    hide Layout, Occupied, Child, AddChild;
    LayoutSized(n);
    var c := key[|p + q|];
    var r := AddChild(n, c, Leaf(key, value));
    AddChildAdds(n, c, Leaf(key, value));
    PathPlus(p, q, key);
    AddedHas(n, p, q, c, Leaf(key, value), r);
    UnderWF(r, p, q);
    KeyBelow(n, p, q, key);
  }

  lemma InsertInner<V>(n: Node<V>, key: Key, value: V, depth: nat, oob: Beyond)
    requires !n.Leaf? && Sized(n)
    ensures var diff := Mismatch(n, key, depth);
      var c := At(key, depth + n.partialLen, oob);
      var r := Insert(n, key, value, depth, oob);
      if diff < n.partialLen then r == (SplitPath(n, key, value, depth, diff, oob), None)
      else if Child(n, c).None? then r == (AddChild(n, c, Leaf(key, value)), None)
      else Sized(Child(n, c).value) ==>
        var y := Insert(Child(n, c).value, key, value, depth + n.partialLen + 1, oob);
        r == (SetChild(n, c, y.0), y.1)
  {
    hide AddChild, SetChild, SplitPath, Mismatch, SplitLeaf, Child;
  }

  lemma UnderChild<V>(n: Node<V>, p: Key, q: Key, c: Byte)
    requires Under(n, p, q) && Child(n, c).Some?
    ensures WF(Child(n, c).value, p + q + [c]) && |p + q + [c]| == |p| + n.partialLen + 1
  {
    hide WF;
  }

  lemma WFSized<V>(n: Node<V>, p: Key)
    requires WF(n, p)
    ensures Sized(n)
  {
    if !n.Leaf? {
      LayoutSized(n);
    }
  }

  /** Insertion refines map update: on a well-formed tree and a key that fits the stored
      ones, the result is well formed, holds the new binding and every other one, and the
      value handed back is the one that was there. */
  lemma {:induction false} InsertOk<V(!new)>(n: Node<V>, p: Key, key: Key, value: V, oob: Beyond)
    requires WF(n, p) && Prefix(p, key) && AllCompatible(n, key)
    ensures Sized(n)
    ensures WF(Insert(n, key, value, |p|, oob).0, p)
    ensures Inserted(n, key, value, Insert(n, key, value, |p|, oob))
    decreases n
  {
    hide WF, Child, Layout, Occupied, AddChild, SetChild, SplitPath, Mismatch, Sized, Insert, Has, Compatible, Under,
        Inserted;
    WFSized(n, p);
    if n.Leaf? {
      InsertAtLeaf(n, p, key, value, oob);
    } else {
      var q := Unfold(n, p);
      UnderPartial(n, p, q);
      MinCompatible(n, p, q, key);
      MismatchOk(n, p, q, key);
      InsertInner(n, key, value, |p|, oob);
      var diff := Mismatch(n, key, |p|);
      if diff < |q| {
        SplitOk(n, p, q, key, value, diff, oob);
      } else if Child(n, key[|p + q|]).None? {
        AddOk(n, p, q, key, value);
      } else {
        var c := key[|p + q|];
        var x := Child(n, c).value;
        PathPlus(p, q, key);
        ChildHas(n, c, x);
        UnderChild(n, p, q, c);
        WFSized(x, p + q + [c]);
        InsertOk(x, p + q + [c], key, value, oob);
        SetOk(n, p, q, key, value, x, Insert(x, key, value, |p + q + [c]|, oob));
      }
    }
  }

  lemma InsertAtLeaf<V(!new)>(n: Node<V>, p: Key, key: Key, value: V, oob: Beyond)
    requires n.Leaf? && WF(n, p) && Prefix(p, key) && AllCompatible(n, key)
    ensures WF(Insert(n, key, value, |p|, oob).0, p)
    ensures Inserted(n, key, value, Insert(n, key, value, |p|, oob))
  {
    hide SplitLeaf;
    assert Has(n, n.key, n.value);
    if n.key != key {
      SplitLeafOk(n, p, key, value, oob);
    }
  }

  lemma SplitOk<V(!new)>(n: Node<V>, p: Key, q: Key, key: Key, value: V, diff: nat, oob: Beyond)
    requires Under(n, p, q) && Prefix(p, key) && diff < |q| && |p| + diff < |key|
    requires Tail(key, |p|)[..diff] == q[..diff] && key[|p| + diff] != q[diff]
    ensures |n.partial| == MAX_PREFIX
    ensures var r := SplitPath(n, key, value, |p|, diff, oob); WF(r, p) && Inserted(n, key, value, (r, None))
  {
    hide WF, Under, SplitPath, Has, Tail, Prefix;
    SplitPathOk(n, p, q, key, value, diff, oob);
    OffPath(p, q, key, diff);
    KeyOnPath(n, p, q, key);
  }

  lemma KeyOnPath<V(!new)>(n: Node<V>, p: Key, q: Key, key: Key)
    requires Under(n, p, q) && !Prefix(p + q, key)
    ensures forall v :: !Has(n, key, v)
  {
    hide Under, Has, Prefix;
    forall v ensures !Has(n, key, v) {
      if Has(n, key, v) {
        HasBelow(n, p, q, key, v);
      }
    }
  }

  lemma OffPath(p: Key, q: Key, key: Key, diff: nat)
    requires diff < |q| && |p| + diff < |key| && key[|p| + diff] != q[diff]
    ensures !Prefix(p + q, key)
  {
    var i := |p| + diff;
    if |p + q| <= |key| {
      assert key[..|p + q|][i] == key[i] && (p + q)[i] == q[diff];
    }
  }
}
