/** Sorting the slots of the string map by key. */
module StrSort {
  import opened Basics
  import opened HashSlots
  import opened StrKeys
  import opened StrPieces
  import opened StrSlots
  import opened StrBins
  import SuffixOrder
  import SuffixGroups
  import Rearrange
  import P = PoolBlocks

  // ---- the index

  ghost predicate IsOrder(idx: seq<nat>, n: nat) {
    && |idx| == n && multiset(idx) == multiset(SuffixOrder.Identity(n)) && Rearrange.IsIndex(idx)
  }

  ghost predicate Ascending(keys: seq<seq<Byte>>) {
    forall i, j :: 0 <= i < j < |keys| ==> !Less(keys[j], keys[i])
  }

  function Pick<T>(xs: seq<T>, idx: seq<nat>): (r: seq<T>)
    requires forall i :: 0 <= i < |idx| ==> idx[i] < |xs|
    ensures |r| == |idx| && forall i :: 0 <= i < |r| ==> r[i] == xs[idx[i]]
  {
    seq(|idx|, i requires 0 <= i < |idx| => xs[idx[i]])
  }

  /** Sorts slot numbers by key, looking at `prefix` bytes first. */
  method SortIndex(keys: seq<seq<Byte>>, prefix: nat) returns (idx: seq<nat>)
    ensures IsOrder(idx, |keys|) && Ascending(Pick(keys, idx))
  {
    var n := |keys|;
    var id := SuffixOrder.Identity(n);
    var less := (x: nat, y: nat) => x < n && y < n && ByteWiseLess(keys[x], keys[y], prefix);
    forall x: nat, y: nat | x < n && y < n ensures less(x, y) <==> Less(keys[x], keys[y]) {
      ByteWiseIsLess(keys[x], keys[y], prefix);
    }
    KeyOrder(keys, less, id);
    idx := SuffixGroups.StdSort(id, less);
    SuffixOrder.PermFacts(idx, n);
    forall i, j | 0 <= i < j < n ensures !Less(Pick(keys, idx)[j], Pick(keys, idx)[i]) {
      assert !less(idx[j], idx[i]);
    }
  }

  lemma KeyOrder(keys: seq<seq<Byte>>, less: (nat, nat) -> bool, id: seq<nat>)
    requires forall i :: 0 <= i < |id| ==> id[i] < |keys|
    requires forall x: nat, y: nat :: x < |keys| && y < |keys| ==> (less(x, y) <==> Less(keys[x], keys[y]))
    ensures SuffixGroups.WeakOrder(less, id)
  {
    forall x, y | x in id && y in id && less(x, y) ensures !less(y, x) {
      LessAsym(keys[x], keys[y]);
    }
    forall x, y, z | x in id && y in id && z in id && !less(y, x) && !less(z, y) ensures !less(z, x) {
      LessTrans(keys[x], keys[y], keys[z]);
    }
  }

  // ---- lengths

  lemma DivIs(x: nat, d: nat, q: nat)
    requires d > 0 && q * d <= x < q * d + d
    ensures x / d == q
  {
    var a, r := x / d, x % d;
    assert x == a * d + r;
    P.AtLeast(a - q, d);
    P.AtLeast(q - a, d);
    assert (a - q) * d == a * d - q * d && (q - a) * d == q * d - a * d;
  }

  /** A slot is as long as its key needs: `align_to(strlen + 1)`. */
  lemma TightLen(p: seq<Byte>, align: nat)
    requires Whole(|p|, align) && HasKey(p) && Tight(p, align)
    ensures RealLen(|KeyIn(p)|, align) == |p|
  {
    var n, q := |KeyIn(p)|, |p| / align;
    assert |p| == q * align;
    DivIs(n + align, align, q);
  }

  /** The total length does not depend on the order. */
  ghost function Total(pieces: seq<seq<Byte>>, idx: seq<nat>): nat
    requires forall i :: 0 <= i < |idx| ==> idx[i] < |pieces|
  {
    if idx == [] then 0 else Total(pieces, idx[..|idx| - 1]) + |pieces[idx[|idx| - 1]]|
  }

  lemma {:induction false} TotalOut(pieces: seq<seq<Byte>>, idx: seq<nat>, j: nat)
    requires (forall i :: 0 <= i < |idx| ==> idx[i] < |pieces|) && j < |idx|
    ensures Total(pieces, idx) == Total(pieces, idx[..j] + idx[j + 1..]) + |pieces[idx[j]]|
  {
    var k := |idx| - 1;
    if j == k {
      assert idx[..j] + idx[j + 1..] == idx[..k];
    } else {
      TotalOut(pieces, idx[..k], j);
      var r := idx[..j] + idx[j + 1..];
      assert r[..|r| - 1] == idx[..k][..j] + idx[..k][j + 1..] && r[|r| - 1] == idx[k];
    }
  }

  lemma {:induction false} TotalPerm(pieces: seq<seq<Byte>>, a: seq<nat>, b: seq<nat>)
    requires (forall i :: 0 <= i < |a| ==> a[i] < |pieces|) && (forall i :: 0 <= i < |b| ==> b[i] < |pieces|)
    requires multiset(a) == multiset(b)
    ensures Total(pieces, a) == Total(pieces, b)
    decreases |a|
  {
    if a == [] {
      assert |multiset(b)| == 0;
    } else {
      var k := |a| - 1;
      var j, rest := DropLast(a, b);
      TotalOut(pieces, b, j);
      TotalPerm(pieces, a[..k], rest);
    }
  }

  /** A rearrangement holds the last element somewhere; the rest is a rearrangement of the rest. */
  lemma DropLast(a: seq<nat>, b: seq<nat>) returns (j: nat, rest: seq<nat>)
    requires a != [] && multiset(a) == multiset(b)
    ensures j < |b| && b[j] == a[|a| - 1] && rest == b[..j] + b[j + 1..]
    ensures multiset(a[..|a| - 1]) == multiset(rest)
  {
    var k := |a| - 1;
    assert a == a[..k] + [a[k]];
    assert a[k] in multiset(b);
    j :| 0 <= j < |b| && b[j] == a[k];
    rest := b[..j] + b[j + 1..];
    assert b == b[..j] + [b[j]] + b[j + 1..];
    var x, y := multiset(a[..k]), multiset(rest);
    assert multiset(b) == y + multiset{a[k]} && multiset(a) == x + multiset{a[k]};
    assert x == x + multiset{a[k]} - multiset{a[k]} == y + multiset{a[k]} - multiset{a[k]} == y;
  }

  lemma {:induction false} TotalFlat(pieces: seq<seq<Byte>>, idx: seq<nat>)
    requires forall i :: 0 <= i < |idx| ==> idx[i] < |pieces|
    ensures |Flat(Pick(pieces, idx))| == Total(pieces, idx)
  {
    if idx != [] {
      var k := |idx| - 1;
      TotalFlat(pieces, idx[..k]);
      assert Pick(pieces, idx)[..k] == Pick(pieces, idx[..k]);
    }
  }

  lemma SameTotal(pieces: seq<seq<Byte>>, idx: seq<nat>)
    requires IsOrder(idx, |pieces|)
    ensures |Flat(Pick(pieces, idx))| == |Flat(pieces)|
  {
    var id := SuffixOrder.Identity(|pieces|);
    TotalPerm(pieces, idx, id);
    TotalFlat(pieces, idx);
    TotalFlat(pieces, id);
    assert Pick(pieces, id) == pieces;
  }

  /** `rearrange_nodes`: the nodes in that order. */
  method Arrange<T>(nodes: seq<T>, order: seq<nat>) returns (sorted: seq<T>)
    requires IsOrder(order, |nodes|)
    ensures sorted == Pick(nodes, order)
  {
    var a := new T[|nodes|](i requires 0 <= i < |nodes| => nodes[i]);
    var index := new nat[|order|](i requires 0 <= i < |order| => order[i]);
    assert a[..] == nodes && index[..] == order;
    Rearrange.ByIndex(a, index);
    sorted := a[..];
  }

  // ---- the new pool

  /** `rearrange_strpool`: copies the slots in node order; each node knows where its slot is
      and how long its key. */
  method NewPool<V>(pool: seq<Byte>, nodes: seq<(nat, nat, V)>, align: nat, ghost pieces: seq<seq<Byte>>)
    returns (s2: seq<Byte>, offs: seq<nat>)
    requires align > 0 && |nodes| == |pieces|
    requires forall i :: 0 <= i < |nodes| ==>
        nodes[i].0 + |pieces[i]| <= |pool| && pool[nodes[i].0..nodes[i].0 + |pieces[i]|] == pieces[i]
    requires forall i :: 0 <= i < |nodes| ==> RealLen(nodes[i].1, align) == |pieces[i]|
    ensures s2 == Flat(pieces) && Offsets(pieces, offs)
  {
    s2, offs := [], [0];
    var i := 0;
    while i < |nodes|
      invariant 0 <= i <= |nodes| && s2 == Flat(pieces[..i]) && Offsets(pieces[..i], offs)
    {
      var len := RealLen(nodes[i].1, align);
      assert pieces[..i + 1] == pieces[..i] + [pieces[i]];
      PieceAppend(pieces[..i], offs, pieces[i]);
      s2 := s2 + pool[nodes[i].0..nodes[i].0 + len];
      offs := offs + [|s2|];
      i := i + 1;
    }
    assert pieces[..i] == pieces;
  }

  // ---- the same map

  /** Putting the elements in another order changes no binding. */
  lemma PickedContents<V>(data: seq<Cell<seq<Byte>, V>>, idx: seq<nat>)
    requires UniqueKeys(data, {}) && IsOrder(idx, |data|)
    ensures UniqueKeys(Pick(data, idx), {}) && Contents(Pick(data, idx), {}) == Contents(data, {})
  {
    var d := Pick(data, idx);
    forall s: nat, t: nat | Visible(d, {}, s) && Visible(d, {}, t) && s != t ensures d[s].key != d[t].key {
      assert Visible(data, {}, idx[s]) && Visible(data, {}, idx[t]);
      assert if s < t then idx[s] != idx[t] else idx[t] != idx[s];
    }
    var m, m' := Contents(data, {}), Contents(d, {});
    forall k | k in m' ensures k in m && m'[k] == m[k] {
      var s: nat :| Visible(d, {}, s) && d[s].key == k;
      assert Visible(data, {}, idx[s]);
    }
    forall k | k in m ensures k in m' {
      var t: nat :| Visible(data, {}, t) && data[t].key == k;
      SuffixOrder.PermFacts(idx, |data|);
      assert t in idx;
      var s :| 0 <= s < |idx| && idx[s] == t;
      assert Visible(d, {}, s);
    }
  }
}
