/** The huge free blocks of the pool: a skip list of eight levels whose links are stored
    in the first words of the blocks themselves. */
module PoolSkip {
  const LEVELS := 8
  const NODE_WORDS := 9

  /** `list_tail`: all ones. Links of four bytes end at their own, lower all ones; positions stay
      below either, so one constant stands for both. */
  const TAIL := 0xFFFF_FFFF_FFFF_FFFF

  /** The list head seen as the predecessor of a node. */
  const HEAD := -1

  // ---- levels as filters of level 0

  /** The nodes of `base` that reach level `k`. */
  ghost function Filter(base: seq<nat>, lvl: map<nat, nat>, k: nat): (f: seq<nat>)
    ensures |f| <= |base|
  {
    if base == [] then []
    else if base[0] in lvl && lvl[base[0]] >= k then [base[0]] + Filter(base[1..], lvl, k)
    else Filter(base[1..], lvl, k)
  }

  lemma {:induction false} FilterMembers(base: seq<nat>, lvl: map<nat, nat>, k: nat)
    ensures forall p :: p in Filter(base, lvl, k) <==> p in base && p in lvl && lvl[p] >= k
  {
    if base != [] {
      FilterMembers(base[1..], lvl, k);
      assert forall p :: p in base <==> p == base[0] || p in base[1..];
    }
  }

  lemma SomeNode(f: seq<nat>)
    ensures f != [] ==> f[0] in f
  {
  }

  lemma FilterStep(s: seq<nat>, lvl: map<nat, nat>, k: nat)
    requires s != []
    ensures Filter(s, lvl, k) == (if s[0] in lvl && lvl[s[0]] >= k then [s[0]] else []) + Filter(s[1..], lvl, k)
  {
  }

  lemma {:induction false} FilterConcat(a: seq<nat>, b: seq<nat>, lvl: map<nat, nat>, k: nat)
    ensures Filter(a + b, lvl, k) == Filter(a, lvl, k) + Filter(b, lvl, k)
  {
    if a == [] {
      assert a + b == b;
    } else {
      FilterConcat(a[1..], b, lvl, k);
      FilterConcatStep(a, b, lvl, k);
    }
  }

  lemma FilterConcatStep(a: seq<nat>, b: seq<nat>, lvl: map<nat, nat>, k: nat)
    requires a != [] && Filter(a[1..] + b, lvl, k) == Filter(a[1..], lvl, k) + Filter(b, lvl, k)
    ensures Filter(a + b, lvl, k) == Filter(a, lvl, k) + Filter(b, lvl, k)
  {
    hide Filter;
    assert (a + b)[1..] == a[1..] + b && (a + b)[0] == a[0];
    FilterStep(a, lvl, k);
    FilterStep(a + b, lvl, k);
  }

  lemma {:induction false} FilterSame(a: seq<nat>, lvl: map<nat, nat>, lvl': map<nat, nat>, k: nat)
    requires forall p :: p in a ==> p in lvl && p in lvl' && lvl[p] == lvl'[p]
    ensures Filter(a, lvl, k) == Filter(a, lvl', k)
  {
    if a != [] {
      FilterSame(a[1..], lvl, lvl', k);
    }
  }

  lemma {:induction false} FilterAll(a: seq<nat>, lvl: map<nat, nat>)
    requires forall p :: p in a ==> p in lvl
    ensures Filter(a, lvl, 0) == a
  {
    if a != [] {
      FilterAll(a[1..], lvl);
    }
  }

  // ---- order by size

  ghost predicate Sorted(base: seq<nat>, sz: map<nat, nat>) {
    && (forall p :: p in base ==> p in sz)
    && forall i, j :: 0 <= i < j < |base| ==> sz[base[i]] <= sz[base[j]]
  }

  /** How many nodes at the front are smaller than `len`. */
  ghost function Below(s: seq<nat>, sz: map<nat, nat>, len: nat): (c: nat)
    requires forall p :: p in s ==> p in sz
    ensures c <= |s| && (forall i :: 0 <= i < c ==> sz[s[i]] < len)
    ensures c < |s| ==> sz[s[c]] >= len
  {
    if s == [] || sz[s[0]] >= len then 0 else 1 + Below(s[1..], sz, len)
  }

  /** A sorted list falls apart into smaller and not smaller nodes. */
  lemma BelowSplits(s: seq<nat>, sz: map<nat, nat>, len: nat)
    requires Sorted(s, sz)
    ensures var c := Below(s, sz, len);
            && (forall p :: p in s[..c] ==> sz[p] < len)
            && (forall p :: p in s[c..] ==> sz[p] >= len)
  {
    var c := Below(s, sz, len);
    forall p | p in s[c..] ensures sz[p] >= len {
      var i :| c <= i < |s| && s[i] == p;
      assert sz[s[c]] <= sz[s[i]];
    }
  }

  /** Any place where the walk stops is that one, if the list is sorted. */
  lemma BelowUnique(s: seq<nat>, sz: map<nat, nat>, len: nat, c: nat)
    requires Sorted(s, sz) && c <= |s| && (c > 0 ==> sz[s[c - 1]] < len) && (c < |s| ==> sz[s[c]] >= len)
    ensures Below(s, sz, len) == c
  {
    if c > 0 {
      BelowAt(s, sz, len, c - 1);
    }
    if c < |s| {
      BelowAt(s, sz, len, c);
    }
  }

  lemma BelowAt(s: seq<nat>, sz: map<nat, nat>, len: nat, j: nat)
    requires Sorted(s, sz) && j < |s|
    ensures sz[s[j]] < len <==> j < Below(s, sz, len)
  {
    BelowSplits(s, sz, len);
    if j >= Below(s, sz, len) {
      assert s[j] in s[Below(s, sz, len)..];
    }
  }

  // ---- places

  /** How many nodes of level `k` stand before position `c` of level 0. */
  ghost function Cut(base: seq<nat>, lvl: map<nat, nat>, c: nat, k: nat): (r: nat)
    requires c <= |base|
    ensures r <= |Filter(base, lvl, k)|
  {
    LevelSplits(base, lvl, c, k);
    |Filter(base[..c], lvl, k)|
  }

  /** Every level falls apart where level 0 does. */
  lemma LevelSplits(base: seq<nat>, lvl: map<nat, nat>, c: nat, k: nat)
    requires c <= |base|
    ensures var f, ck := Filter(base, lvl, k), |Filter(base[..c], lvl, k)|;
            ck <= |f| && f[..ck] == Filter(base[..c], lvl, k) && f[ck..] == Filter(base[c..], lvl, k)
  {
    hide Filter;
    assert base == base[..c] + base[c..];
    var a, b := Filter(base[..c], lvl, k), Filter(base[c..], lvl, k);
    FilterConcat(base[..c], base[c..], lvl, k);
    assert (a + b)[..|a|] == a && (a + b)[|a|..] == b;
  }

  /** A place on a level is a place of the list below it, right after the same node. */
  lemma {:induction false} PlaceBelow(t: seq<nat>, lvl: map<nat, nat>, k: nat, a: nat) returns (i: nat)
    requires a <= |Filter(t, lvl, k)|
    ensures i <= |t| && Filter(t[..i], lvl, k) == Filter(t, lvl, k)[..a]
      && Filter(t[i..], lvl, k) == Filter(t, lvl, k)[a..]
    ensures if a == 0 then i == 0 else i > 0 && t[i - 1] == Filter(t, lvl, k)[a - 1]
  {
    if a == 0 {
      i := 0;
      assert t[0..] == t;
    } else {
      var f := Filter(t, lvl, k);
      var here := if t[0] in lvl && lvl[t[0]] >= k then 1 else 0;
      var j := PlaceBelow(t[1..], lvl, k, a - here);
      i := j + 1;
      assert t[1..][..j] == t[..i][1..] && t[1..][j..] == t[i..] && t[..i][0] == t[0];
      assert here == 1 ==> f == [t[0]] + f[1..] && f[1..] == Filter(t[1..], lvl, k);
      if a - here == 0 {
        assert t[..i] == [t[0]];
      }
    }
  }

  // ---- links

  /** The link cell of level `k` in the node at `p`. */
  function Cell(p: nat, k: nat): nat { p + 1 + k }

  function LinkTo(s: seq<nat>, i: nat): int {
    if i < |s| then s[i] else TAIL
  }

  /** From `first` on, the level-`k` links run through `s`. */
  ghost predicate Linked(mem: seq<int>, first: int, s: seq<nat>, k: nat) {
    && first == LinkTo(s, 0)
    && forall i {:trigger Cell(s[i], k)} :: 0 <= i < |s| ==>
        Cell(s[i], k) < |mem| && mem[Cell(s[i], k)] == LinkTo(s, i + 1)
  }

  /** Nodes do not overlap. */
  ghost predicate Spread(base: seq<nat>) {
    forall i, j :: 0 <= i < j < |base| ==> Apart(base[i], base[j])
  }

  ghost predicate Apart(p: nat, q: nat) {
    p + NODE_WORDS <= q || q + NODE_WORDS <= p
  }

  ghost predicate NodeOk(mem: seq<int>, height: nat, lvl: map<nat, nat>, sz: map<nat, nat>, p: nat) {
    p in sz && p in lvl && p + NODE_WORDS <= |mem| && mem[p] == sz[p] && lvl[p] < height
  }

  /** Every level is linked and part of the level below; the top level is not empty. `sz` is what
      the nodes say of their sizes. */
  ghost predicate SkipOk(mem: seq<int>, next: seq<int>, height: nat, base: seq<nat>, lvl: map<nat, nat>,
                         sz: map<nat, nat>) {
    && |next| == LEVELS && height <= LEVELS && |mem| <= TAIL
    && Spread(base)
    && (forall p :: p in base ==> NodeOk(mem, height, lvl, sz, p))
    && (forall k :: 0 <= k < LEVELS ==> Linked(mem, next[k], Filter(base, lvl, k), k))
    && (height > 0 ==> Filter(base, lvl, height - 1) != [])
  }

  /** A level is a subsequence of the one below, sorted by size. */
  lemma LevelsNest(base: seq<nat>, lvl: map<nat, nat>, sz: map<nat, nat>, k: nat)
    requires Sorted(base, sz)
    ensures Filter(Filter(base, lvl, k), lvl, k + 1) == Filter(base, lvl, k + 1)
    ensures Sorted(Filter(base, lvl, k), sz)
  {
    FilterTwice(base, lvl, k, k + 1);
    FilterSorted(base, lvl, sz, k);
  }

  lemma {:induction false} FilterTwice(base: seq<nat>, lvl: map<nat, nat>, k: nat, j: nat)
    requires k <= j
    ensures Filter(Filter(base, lvl, k), lvl, j) == Filter(base, lvl, j)
  {
    if base != [] {
      FilterTwice(base[1..], lvl, k, j);
      var f := Filter(base, lvl, k);
      if base[0] in lvl && lvl[base[0]] >= k {
        assert f[1..] == Filter(base[1..], lvl, k);
      }
    }
  }

  lemma {:induction false} FilterSorted(base: seq<nat>, lvl: map<nat, nat>, sz: map<nat, nat>, k: nat)
    requires Sorted(base, sz)
    ensures Sorted(Filter(base, lvl, k), sz)
  {
    if base != [] {
      FilterSorted(base[1..], lvl, sz, k);
      FilterMembers(base[1..], lvl, k);
      var f, g := Filter(base, lvl, k), Filter(base[1..], lvl, k);
      forall i, j | 0 <= i < j < |f| ensures sz[f[i]] <= sz[f[j]] {
        if f != g && i == 0 {
          assert f[j] == g[j - 1] && g[j - 1] in base[1..];
          var q :| 1 <= q < |base| && base[q] == f[j];
        }
      }
    }
  }
}
