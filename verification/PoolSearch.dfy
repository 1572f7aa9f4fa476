/** Walking the skip list. */
module PoolSearch {
  import opened PoolSkip

  /** `nullptr` for a node. */
  const NULL := -1

  /** `n1->next[k]`, the list head being a node too. */
  function NextOf(mem: seq<int>, next: seq<int>, p: int, k: nat): int
    requires k < |next| && (p == HEAD || (0 <= p && Cell(p, k) < |mem|))
  {
    if p == HEAD then next[k] else mem[Cell(p, k)]
  }

  /** `u` stands before position `c` of `s`. */
  ghost predicate IsPred(u: int, s: seq<nat>, c: nat) {
    c <= |s| && u == if c == 0 then HEAD else s[c - 1]
  }

  lemma PredNext(mem: seq<int>, next: seq<int>, s: seq<nat>, k: nat, u: int, c: nat)
    requires k < |next| && Linked(mem, next[k], s, k) && IsPred(u, s, c)
    ensures u == HEAD || (0 <= u && Cell(u, k) < |mem|)
    ensures NextOf(mem, next, u, k) == LinkTo(s, c)
  {
  }

  ghost predicate NodesFit(mem: seq<int>, sz: map<nat, nat>, s: seq<nat>) {
    |mem| <= TAIL && forall p :: p in s ==> p in sz && p + NODE_WORDS <= |mem| && mem[p] == sz[p]
  }

  /** Walks one level from `n1` until a node is not smaller than `len`. */
  method SearchLevel(mem: seq<int>, next: seq<int>, k: nat, len: nat, n1: int, n2: int, ghost s: seq<nat>,
                     ghost i0: nat, ghost sz: map<nat, nat>)
    returns (u: int, n: int, ghost i: nat)
    requires k < LEVELS == |next| && Linked(mem, next[k], s, k) && NodesFit(mem, sz, s) && IsPred(n1, s, i0)
    ensures i0 <= i <= |s| && IsPred(u, s, i) && (forall j :: i0 <= j < i ==> sz[s[j]] < len)
    ensures if i < |s| then n == s[i] && sz[s[i]] >= len else n == if i0 < i then s[i - 1] else n2
  {
    u, n, i := n1, n2, i0;
    PredNext(mem, next, s, k, u, i);
    while NextOf(mem, next, u, k) != TAIL
      invariant i0 <= i <= |s| && IsPred(u, s, i) && n == if i0 < i then s[i - 1] else n2
      invariant forall j :: i0 <= j < i ==> sz[s[j]] < len
      invariant u == HEAD || (0 <= u && Cell(u, k) < |mem|)
      invariant NextOf(mem, next, u, k) == LinkTo(s, i)
      decreases |s| - i
    {
      assert i < |s| && s[i] in s;
      n := NextOf(mem, next, u, k);
      if mem[n] >= len {
        return;
      }
      u, i := n, i + 1;
      PredNext(mem, next, s, k, u, i);
    }
    assert i < |s| ==> s[i] in s;
  }

  /** `u` is the last node of level `k` before position `c` of level 0. */
  ghost predicate Found(u: int, base: seq<nat>, lvl: map<nat, nat>, c: nat, k: nat) {
    c <= |base| && IsPred(u, Filter(base, lvl, k), Cut(base, lvl, c, k))
  }

  /** A node that says it is smaller than `len`, or none. */
  ghost predicate Small(n: int, base: seq<nat>, sz: map<nat, nat>, len: nat) {
    n == NULL || (0 <= n && n in base && n in sz && sz[n] < len)
  }

  /** The place where a walk from the top level down stops: right before a node that is not
      smaller than `len`, or at the end. In a sorted list it is the only such place. */
  method Search(mem: seq<int>, next: seq<int>, height: nat, len: nat, ghost base: seq<nat>, ghost lvl: map<nat, nat>,
                ghost sz: map<nat, nat>)
    returns (update: seq<int>, n2: int, ghost c: nat)
    requires SkipOk(mem, next, height, base, lvl, sz)
    ensures |update| == LEVELS && c <= |base|
    ensures forall k :: 0 <= k < height ==> Found(update[k], base, lvl, c, k)
    ensures if c < |base| then n2 == base[c] && base[c] in sz && sz[base[c]] >= len else Small(n2, base, sz, len)
    ensures Sorted(base, sz) ==> c == Below(base, sz, len)
  {
    hide SkipOk, Filter, Below, Sorted;
    SkipFacts(mem, next, height, base, lvl, sz);
    update, n2 := seq(LEVELS, _ => HEAD), NULL;
    var n1, k := HEAD, height;
    ghost var s: seq<nat>, i: nat := Filter(base, lvl, height), 0;
    NoneThere(base, lvl, height);
    while k > 0
      invariant 0 <= k <= height && |update| == LEVELS && s == Filter(base, lvl, k) && IsPred(n1, s, i)
      invariant forall j :: k <= j < height ==> Above(update[j], base, lvl, s, i, j)
      invariant if i < |s| then n2 == s[i] && s[i] in sz && sz[s[i]] >= len else Small(n2, base, sz, len)
      invariant i > 0 ==> s[i - 1] in sz && sz[s[i - 1]] < len
    {
      ghost var t, a := s, i;
      k := k - 1;
      LevelFits(mem, next, height, base, lvl, sz, k);
      s := Filter(base, lvl, k);
      FilterTwice(base, lvl, k, k + 1);
      ghost var i0 := PlaceBelow(s, lvl, k + 1, a);
      FilterMembers(base, lvl, k);
      var u;
      u, n2, i := SearchLevel(mem, next, k, len, n1, n2, s, i0, sz);
      update := update[k := u];
      n1 := u;
      PlaceKept(s, lvl, sz, len, k, t, a, i0, i);
      forall j | k <= j < height ensures Above(update[j], base, lvl, s, i, j) {
        if j == k {
          OwnLevel(base, lvl, s, i, k);
        } else {
          FilterTwice(s[..i], lvl, k + 1, j);
          assert Above(update[j], base, lvl, t, a, j);
        }
      }
    }
    FilterAll(base, lvl);
    c := i;
    if Sorted(base, sz) {
      BelowUnique(base, sz, len, c);
    }
  }

  /** `u` is the last node of level `j` before position `i` of `s`, a level below. */
  ghost predicate Above(u: int, base: seq<nat>, lvl: map<nat, nat>, s: seq<nat>, i: nat, j: nat) {
    i <= |s| && IsPred(u, Filter(base, lvl, j), |Filter(s[..i], lvl, j)|)
  }

  lemma OwnLevel(base: seq<nat>, lvl: map<nat, nat>, s: seq<nat>, i: nat, k: nat)
    requires s == Filter(base, lvl, k) && i <= |s|
    ensures Filter(s[..i], lvl, k) == s[..i]
  {
    FilterMembers(base, lvl, k);
    AllReach(s[..i], lvl, k);
  }

  lemma {:induction false} AllReach(s: seq<nat>, lvl: map<nat, nat>, k: nat)
    requires forall p :: p in s ==> p in lvl && lvl[p] >= k
    ensures Filter(s, lvl, k) == s
  {
    if s != [] {
      AllReach(s[1..], lvl, k);
    }
  }

  /** The nodes walked over on a level are not on the level above. */
  lemma PlaceKept(s: seq<nat>, lvl: map<nat, nat>, sz: map<nat, nat>, len: nat, k: nat, t: seq<nat>, a: nat, i0: nat,
                  i: nat)
    requires t == Filter(s, lvl, k + 1) && a <= |t| && i0 <= i <= |s|
    requires Filter(s[..i0], lvl, k + 1) == t[..a] && Filter(s[i0..], lvl, k + 1) == t[a..]
    requires forall j :: i0 <= j < i ==> s[j] in sz && sz[s[j]] < len
    requires a < |t| ==> t[a] in sz && sz[t[a]] >= len
    ensures Filter(s[..i], lvl, k + 1) == t[..a]
  {
    hide Filter;
    var over, rest := s[i0..i], s[i..];
    assert s[..i] == s[..i0] + over && s[i0..] == over + rest;
    FilterConcat(s[..i0], over, lvl, k + 1);
    FilterConcat(over, rest, lvl, k + 1);
    FilterMembers(over, lvl, k + 1);
    var f := Filter(over, lvl, k + 1);
    SomeNode(f);
    assert f + Filter(rest, lvl, k + 1) == t[a..];
  }

  lemma NoneThere(base: seq<nat>, lvl: map<nat, nat>, k: nat)
    requires forall p :: p in base ==> p in lvl && lvl[p] < k
    ensures Filter(base, lvl, k) == []
  {
    FilterMembers(base, lvl, k);
    SomeNode(Filter(base, lvl, k));
  }

  lemma SkipFacts(mem: seq<int>, next: seq<int>, height: nat, base: seq<nat>, lvl: map<nat, nat>, sz: map<nat, nat>)
    requires SkipOk(mem, next, height, base, lvl, sz)
    ensures |next| == LEVELS && height <= LEVELS && Spread(base)
    ensures forall p :: p in base ==> p in lvl && lvl[p] < height && p in sz && p < |mem| && mem[p] == sz[p]
    ensures height == 0 ==> base == []
  {
    if base != [] {
      assert NodeOk(mem, height, lvl, sz, base[0]);
    }
  }

  lemma LevelFits(mem: seq<int>, next: seq<int>, height: nat, base: seq<nat>, lvl: map<nat, nat>, sz: map<nat, nat>,
                  k: nat)
    requires SkipOk(mem, next, height, base, lvl, sz) && k < LEVELS
    ensures Linked(mem, next[k], Filter(base, lvl, k), k) && NodesFit(mem, sz, Filter(base, lvl, k))
  {
    FilterMembers(base, lvl, k);
  }
}
