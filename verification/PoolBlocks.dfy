/** The blocks of the pool: they tile the used words without gap or overlap. */
module PoolBlocks {

  predicate Aligned(x: int, align: nat) {
    align > 0 && x % align == 0
  }

  ghost predicate BlockOk(blocks: map<nat, nat>, n: nat, align: nat, p: nat)
    requires p in blocks
  {
    && blocks[p] > 0 && Aligned(p, align) && Aligned(blocks[p], align)
    && p + blocks[p] <= n && (p + blocks[p] == n || p + blocks[p] in blocks)
  }

  ghost predicate Disjoint(blocks: map<nat, nat>) {
    forall p, q :: p in blocks && q in blocks && p < q ==> p + blocks[p] <= q
  }

  /** `blocks`, start to length, tile `[0, n)`. */
  ghost predicate Tiled(blocks: map<nat, nat>, n: nat, align: nat) {
    && Aligned(n, align) && (n > 0 ==> 0 in blocks)
    && (forall p {:trigger BlockOk(blocks, n, align, p)} :: p in blocks ==> BlockOk(blocks, n, align, p))
    && Disjoint(blocks)
  }

  /** Every used word is in a block, and by disjointness in only one. */
  lemma Covered(blocks: map<nat, nat>, n: nat, align: nat, x: nat) returns (p: nat)
    requires Tiled(blocks, n, align) && x < n
    ensures p in blocks && p <= x < p + blocks[p]
  {
    p := Walk(blocks, n, align, 0, x);
  }

  lemma {:induction false} Walk(blocks: map<nat, nat>, n: nat, align: nat, from: nat, x: nat) returns (p: nat)
    requires Tiled(blocks, n, align) && from in blocks && from <= x < n
    ensures p in blocks && p <= x < p + blocks[p]
    decreases n - from
  {
    assert BlockOk(blocks, n, align, from);
    if x < from + blocks[from] {
      p := from;
    } else {
      p := Walk(blocks, n, align, from + blocks[from], x);
    }
  }

  lemma AddAligned(x: nat, y: nat, align: nat)
    requires Aligned(x, align) && Aligned(y, align)
    ensures Aligned(x + y, align) && Aligned(x - y, align)
  {
    var a, b := x / align, y / align;
    assert x == a * align && y == b * align;
    MulMod(a + b, align);
    assert x + y == (a + b) * align;
    assert x - y == (a - b) * align;
    MulMod(a - b, align);
  }

  lemma MulMod(a: int, d: nat)
    requires d > 0
    ensures (a * d) % d == 0 && a * d / d == a
  {
    var x := a * d;
    var q, r := x / d, x % d;
    assert (a - q) * d == r;
    AtLeast(a - q, d);
    AtLeast(q - a, d);
    assert (q - a) * d == -r;
  }

  lemma AtLeast(a: int, d: nat)
    requires d > 0
    ensures a >= 1 ==> a * d >= d
    ensures a == 0 ==> a * d == 0
  {
    if a >= 1 {
      assert a * d == (a - 1) * d + d;
    }
  }

  lemma BlockBound(blocks: map<nat, nat>, n: nat, align: nat, p: nat)
    requires Tiled(blocks, n, align)
    ensures p in blocks ==> blocks[p] > 0 && p + blocks[p] <= n && Aligned(p, align) && Aligned(blocks[p], align)
    ensures p in blocks ==> p + blocks[p] == n || p + blocks[p] in blocks
  {
    assert p in blocks ==> BlockOk(blocks, n, align, p);
  }

  /** A block taken above the used words. */
  lemma Extend(blocks: map<nat, nat>, n: nat, align: nat, len: nat)
    requires Tiled(blocks, n, align) && len > 0 && Aligned(len, align)
    ensures n !in blocks && Tiled(blocks[n := len], n + len, align)
  {
    hide Aligned;
    AddAligned(n, len, align);
    var blocks' := blocks[n := len];
    BlockBound(blocks, n, align, n);
    forall p | p in blocks' ensures BlockOk(blocks', n + len, align, p) {
      BlockBound(blocks, n, align, p);
    }
    forall p, q | p in blocks' && q in blocks' && p < q ensures p + blocks'[p] <= q {
      BlockBound(blocks, n, align, p);
      BlockBound(blocks, n, align, q);
    }
  }

  /** The topmost block given back: the used words shrink to its start. */
  lemma Shrink(blocks: map<nat, nat>, n: nat, align: nat, top: nat)
    requires Tiled(blocks, n, align) && top in blocks && top + blocks[top] == n
    ensures Tiled(blocks - {top}, top, align)
  {
    hide Aligned;
    BlockBound(blocks, n, align, top);
    var blocks' := blocks - {top};
    forall p | p in blocks' ensures BlockOk(blocks', top, align, p) {
      BlockBound(blocks, n, align, p);
      ShrinkOrder(blocks, n, align, top, p);
    }
    assert top > 0 ==> 0 in blocks';
  }

  lemma ShrinkOrder(blocks: map<nat, nat>, n: nat, align: nat, top: nat, p: nat)
    requires Tiled(blocks, n, align) && top in blocks && top + blocks[top] == n && p in blocks && p != top
    ensures p + blocks[p] <= top
  {
    BlockBound(blocks, n, align, p);
  }

  /** The topmost block resized in place. */
  lemma Resize(blocks: map<nat, nat>, n: nat, align: nat, top: nat, len: nat)
    requires Tiled(blocks, n, align) && top in blocks && top + blocks[top] == n && len > 0 && Aligned(len, align)
    ensures Tiled(blocks[top := len], top + len, align)
  {
    Shrink(blocks, n, align, top);
    Extend(blocks - {top}, top, align, len);
    assert (blocks - {top})[top := len] == blocks[top := len];
  }

  /** A block cut in two. */
  lemma Split(blocks: map<nat, nat>, n: nat, align: nat, p: nat, len: nat)
    requires Tiled(blocks, n, align) && p in blocks && 0 < len < blocks[p] && Aligned(len, align)
    ensures p + len !in blocks
    ensures Tiled(blocks[p := len][p + len := blocks[p] - len], n, align)
  {
    hide Aligned;
    BlockBound(blocks, n, align, p);
    AddAligned(p, len, align);
    AddAligned(blocks[p], len, align);
    var blocks' := blocks[p := len][p + len := blocks[p] - len];
    forall q | q in blocks' ensures BlockOk(blocks', n, align, q) {
      BlockBound(blocks, n, align, q);
    }
    SplitDisjoint(blocks, p, len);
  }

  lemma SplitDisjoint(blocks: map<nat, nat>, p: nat, len: nat)
    requires Disjoint(blocks) && p in blocks && 0 < len < blocks[p]
    ensures p + len !in blocks
    ensures Disjoint(blocks[p := len][p + len := blocks[p] - len])
  {
    var blocks' := blocks[p := len][p + len := blocks[p] - len];
    forall q, r | q in blocks' && r in blocks' && q < r ensures q + blocks'[q] <= r {
      if q == p + len {
        assert p in blocks && r in blocks && p < r;
      }
    }
  }

  // ---- lengths add up

  ghost function Sum(m: map<nat, nat>): nat
    decreases |m|
  {
    if m == map[] then 0
    else
      var k :| k in m;
      m[k] + Sum(m - {k})
  }

  lemma {:induction false} SumOut(m: map<nat, nat>, k: nat)
    requires k in m
    ensures Sum(m) == m[k] + Sum(m - {k})
    decreases |m|
  {
    var j :| j in m && Sum(m) == m[j] + Sum(m - {j});
    if j != k {
      SumOut(m - {j}, k);
      SumOut(m - {k}, j);
      assert m - {j} - {k} == m - {k} - {j};
    }
  }

  lemma SumIn(m: map<nat, nat>, k: nat, v: nat)
    requires k !in m
    ensures Sum(m[k := v]) == Sum(m) + v
  {
    SumOut(m[k := v], k);
    assert m[k := v] - {k} == m;
  }

  /** The lengths of the blocks add up to the used words. */
  lemma {:induction false} TiledSum(blocks: map<nat, nat>, n: nat, align: nat)
    requires Tiled(blocks, n, align)
    ensures Sum(blocks) == n
    decreases n
  {
    if n > 0 {
      var top := Covered(blocks, n, align, n - 1);
      BlockBound(blocks, n, align, top);
      Shrink(blocks, n, align, top);
      TiledSum(blocks - {top}, top, align);
      SumOut(blocks, top);
    } else {
      forall p ensures p !in blocks {
        if p >= 0 {
          BlockBound(blocks, n, align, p);
        }
      }
      assert blocks == map[];
    }
  }

  /** Live and free words make up the used words. */
  lemma SumParts(blocks: map<nat, nat>, live: set<nat>)
    requires live <= blocks.Keys
    ensures Sum(blocks) == Sum(blocks - live) + Sum(blocks - (blocks.Keys - live))
    decreases |live|
  {
    if live == {} {
      assert blocks - live == blocks;
      assert blocks - (blocks.Keys - live) == map[];
    } else {
      var p :| p in live;
      SumParts(blocks, live - {p});
      var rest, part := blocks - (live - {p}), blocks - (blocks.Keys - live);
      SumOut(rest, p);
      assert rest - {p} == blocks - live;
      SumOut(part, p);
      assert part - {p} == blocks - (blocks.Keys - (live - {p}));
    }
  }
}
