/** Putting a block into the skip list. */
module PoolLinks {
  import opened PoolSkip
  import opened PoolSearch

  // ---- one write

  function SetMem(mem: seq<int>, p: int, k: nat, v: int): (m: seq<int>)
    requires p == HEAD || (0 <= p && Cell(p, k) < |mem|)
    ensures |m| == |mem|
  {
    if p == HEAD then mem else mem[Cell(p, k) := v]
  }

  function SetHead(next: seq<int>, p: int, k: nat, v: int): (n: seq<int>)
    requires k < |next|
    ensures |n| == |next|
  {
    if p == HEAD then next[k := v] else next
  }

  /** A link written on one level leaves the other levels alone. */
  lemma WriteOther(mem: seq<int>, first: int, t: seq<nat>, j: nat, w: nat, k: nat, v: int)
    requires Linked(mem, first, t, j) && j < LEVELS && k < LEVELS && Cell(w, k) < |mem|
    requires forall q :: q in t ==> if q == w then j != k else Apart(q, w)
    ensures Linked(mem[Cell(w, k) := v], first, t, j)
  {
    forall i | 0 <= i < |t|
      ensures Cell(t[i], j) < |mem| && mem[Cell(w, k) := v][Cell(t[i], j)] == LinkTo(t, i + 1)
    {
      assert t[i] in t;
    }
  }

  lemma SpreadAt(s: seq<nat>, i: nat, j: nat)
    requires Spread(s) && i < |s| && j < |s| && i != j
    ensures Apart(s[i], s[j])
  {
    if j < i {
      assert Apart(s[j], s[i]);
    }
  }

  // ---- putting in

  function PutAt(s: seq<nat>, c: nat, p: nat): (r: seq<nat>)
    requires c <= |s|
    ensures |r| == |s| + 1
  {
    s[..c] + [p] + s[c..]
  }

  lemma PutMembers(s: seq<nat>, c: nat, p: nat)
    requires c <= |s|
    ensures forall q :: q in PutAt(s, c, p) <==> q == p || q in s
  {
    assert s == s[..c] + s[c..];
  }

  /** One level of the insertion: `pos` goes between `u` and what follows it. */
  lemma PutLink(mem: seq<int>, next: seq<int>, s: seq<nat>, k: nat, u: int, c: nat, pos: nat, mem': seq<int>,
                next': seq<int>)
    requires k < LEVELS == |next| && Linked(mem, next[k], s, k) && IsPred(u, s, c) && Spread(s)
    requires pos + NODE_WORDS <= |mem| && forall q :: q in s ==> Apart(q, pos) && q + NODE_WORDS <= |mem|
    requires u == HEAD || (0 <= u && Cell(u, k) < |mem|)
    requires mem' == SetMem(mem[Cell(pos, k) := NextOf(mem, next, u, k)], u, k, pos)
    requires next' == SetHead(next, u, k, pos)
    ensures Linked(mem', next'[k], PutAt(s, c, pos), k)
  {
    hide Linked;
    var t := PutAt(s, c, pos);
    forall i | 0 <= i < |t| ensures Cell(t[i], k) < |mem'| && mem'[Cell(t[i], k)] == LinkTo(t, i + 1) {
      if i == c {
        PutLinkSelf(mem, next, s, k, u, c, pos, mem');
      } else {
        PutLinkOther(mem, next, s, k, u, c, pos, mem', if i < c then i else i - 1);
      }
    }
    PutHead(mem, next, s, k, u, c, pos);
    LinkedIs(mem', next'[k], t, k);
  }

  lemma LinkedIs(mem: seq<int>, first: int, s: seq<nat>, k: nat)
    requires first == LinkTo(s, 0)
    requires forall i {:trigger Cell(s[i], k)} :: 0 <= i < |s| ==>
        Cell(s[i], k) < |mem| && mem[Cell(s[i], k)] == LinkTo(s, i + 1)
    ensures Linked(mem, first, s, k)
  {
  }

  lemma PutHead(mem: seq<int>, next: seq<int>, s: seq<nat>, k: nat, u: int, c: nat, pos: nat)
    requires k < |next| && Linked(mem, next[k], s, k) && IsPred(u, s, c)
    ensures SetHead(next, u, k, pos)[k] == LinkTo(PutAt(s, c, pos), 0)
  {
  }

  lemma PutLinkSelf(mem: seq<int>, next: seq<int>, s: seq<nat>, k: nat, u: int, c: nat, pos: nat, mem': seq<int>)
    requires k < LEVELS == |next| && Linked(mem, next[k], s, k) && IsPred(u, s, c)
    requires pos + NODE_WORDS <= |mem| && forall q :: q in s ==> Apart(q, pos) && q + NODE_WORDS <= |mem|
    requires u == HEAD || (0 <= u && Cell(u, k) < |mem|)
    requires mem' == SetMem(mem[Cell(pos, k) := NextOf(mem, next, u, k)], u, k, pos)
    ensures mem'[Cell(pos, k)] == LinkTo(s, c)
  {
    PredNext(mem, next, s, k, u, c);
    assert c > 0 ==> s[c - 1] in s;
  }

  lemma PutLinkOther(mem: seq<int>, next: seq<int>, s: seq<nat>, k: nat, u: int, c: nat, pos: nat, mem': seq<int>,
                     i: nat)
    requires k < LEVELS == |next| && Linked(mem, next[k], s, k) && IsPred(u, s, c) && Spread(s) && i < |s|
    requires pos + NODE_WORDS <= |mem| && forall q :: q in s ==> Apart(q, pos) && q + NODE_WORDS <= |mem|
    requires u == HEAD || (0 <= u && Cell(u, k) < |mem|)
    requires mem' == SetMem(mem[Cell(pos, k) := NextOf(mem, next, u, k)], u, k, pos)
    ensures Cell(s[i], k) < |mem'| && mem'[Cell(s[i], k)] == if i + 1 == c then pos else LinkTo(s, i + 1)
  {
    hide Spread;
    assert s[i] in s;
    if i + 1 != c && c > 0 {
      SpreadAt(s, i, c - 1);
    }
  }

  lemma {:induction false} FilterOne(pos: nat, b: seq<nat>, lvl: map<nat, nat>, level: nat, k: nat)
    requires pos in lvl && lvl[pos] == level
    ensures Filter([pos] + b, lvl, k) == if k <= level then [pos] + Filter(b, lvl, k) else Filter(b, lvl, k)
  {
    assert ([pos] + b)[1..] == b;
  }

  /** The levels after the insertion. */
  lemma PutLevels(base: seq<nat>, lvl: map<nat, nat>, c: nat, pos: nat, level: nat, k: nat)
    requires c <= |base| && (forall p :: p in base ==> p in lvl) && pos !in base
    ensures var f := Filter(base, lvl, k);
            Filter(PutAt(base, c, pos), lvl[pos := level], k) == if k <= level
                then PutAt(f, Cut(base, lvl, c, k), pos) else f
  {
    hide Filter;
    LevelSplits(base, lvl, c, k);
    var f, ck := Filter(base, lvl, k), Cut(base, lvl, c, k);
    PutFilter(base[..c], base[c..], lvl, pos, level, k);
    assert f == f[..ck] + f[ck..];
    assert base[..c] + ([pos] + base[c..]) == PutAt(base, c, pos);
    assert f[..ck] + ([pos] + f[ck..]) == PutAt(f, ck, pos);
  }

  lemma PutFilter(a: seq<nat>, b: seq<nat>, lvl: map<nat, nat>, pos: nat, level: nat, k: nat)
    requires (forall p :: p in a ==> p in lvl && p != pos) && (forall p :: p in b ==> p in lvl && p != pos)
    ensures Filter(a + ([pos] + b), lvl[pos := level], k)
         == if k <= level
             then Filter(a, lvl, k) + ([pos] + Filter(b, lvl, k)) else Filter(a, lvl, k) + Filter(b, lvl, k)
  {
    var lvl' := lvl[pos := level];
    FilterConcat(a, [pos] + b, lvl', k);
    FilterOne(pos, b, lvl', level, k);
    FilterSame(a, lvl, lvl', k);
    FilterSame(b, lvl, lvl', k);
  }

  /** Put where the search stops, a node keeps the list sorted by what the nodes say. */
  lemma PutSorted(base: seq<nat>, sz: map<nat, nat>, pos: nat)
    requires Sorted(base, sz) && pos in sz
    ensures Sorted(PutAt(base, Below(base, sz, sz[pos]), pos), sz)
  {
    var c := Below(base, sz, sz[pos]);
    var t := PutAt(base, c, pos);
    forall i, j | 0 <= i < j < |t| ensures sz[t[i]] <= sz[t[j]] {
      if i < c {
        BelowAt(base, sz, sz[pos], i);
      }
      if j > c {
        BelowAt(base, sz, sz[pos], j - 1);
      }
    }
  }

  lemma PutSpread(base: seq<nat>, c: nat, pos: nat)
    requires Spread(base) && c <= |base| && forall q :: q in base ==> Apart(q, pos)
    ensures Spread(PutAt(base, c, pos))
  {
    var t := PutAt(base, c, pos);
    forall i, j | 0 <= i < j < |t| ensures Apart(t[i], t[j]) {
      if i == c {
        assert base[j - 1] in base;
      } else if j == c {
        assert base[i] in base;
      }
    }
  }

  lemma SpreadPair(s: seq<nat>, p: nat, q: nat)
    requires Spread(s) && p in s && q in s && p != q
    ensures Apart(p, q)
  {
    var i :| 0 <= i < |s| && s[i] == p;
    var j :| 0 <= j < |s| && s[j] == q;
    SpreadAt(s, i, j);
  }

  /** Only words of the given nodes differ. */
  ghost predicate SameOutside(mem: seq<int>, mem': seq<int>, nodes: seq<nat>) {
    |mem'| == |mem| && forall x :: 0 <= x < |mem| && Outside(x, nodes) ==> mem'[x] == mem[x]
  }

  ghost predicate Outside(x: nat, nodes: seq<nat>) {
    forall p :: p in nodes ==> !(p <= x < p + NODE_WORDS)
  }

  /** Room for a new node at `pos`, beside a well-formed skip list. */
  ghost predicate Room(mem: seq<int>, base: seq<nat>, lvl: map<nat, nat>, sz: map<nat, nat>, pos: nat) {
    && Spread(base) && |mem| <= TAIL && pos in sz && pos + NODE_WORDS <= |mem|
    && (forall p :: p in base ==> p in lvl && p in sz && p + NODE_WORDS <= |mem| && mem[p] == sz[p] && Apart(p, pos))
  }

  /** Level `j` while the insertion has done the levels from `level` down to `k`. */
  ghost function LevelAt(base: seq<nat>, lvl: map<nat, nat>, c: nat, pos: nat, level: nat, k: nat, j: nat): seq<nat>
    requires c <= |base|
  {
    var f := Filter(base, lvl, j);
    if k <= j <= level then PutAt(f, Cut(base, lvl, c, j), pos) else f
  }

  ghost predicate Putting(mem: seq<int>, next: seq<int>, base: seq<nat>, lvl: map<nat, nat>, sz: map<nat, nat>, c: nat,
                          pos: nat, level: nat, k: nat)
  {
    && c <= |base| && Room(mem, base, lvl, sz, pos) && |next| == LEVELS
    && forall j :: 0 <= j < LEVELS ==> Linked(mem, next[j], LevelAt(base, lvl, c, pos, level, k, j), j)
  }

  /** What the two writes of one level do to another level. */
  lemma PutOther(mem: seq<int>, next: seq<int>, base: seq<nat>, lvl: map<nat, nat>, sz: map<nat, nat>, c: nat, pos: nat,
                 level: nat, k: nat, u: int, j: nat, v: int)
    requires Putting(mem, next, base, lvl, sz, c, pos, level, k + 1) && k < LEVELS && j < LEVELS && j != k
    requires u == HEAD || u in base
    ensures u == HEAD || (0 <= u && Cell(u, k) < |mem|)
    ensures Linked(SetMem(mem[Cell(pos, k) := v], u, k, pos), SetHead(next, u, k, pos)[j],
                   LevelAt(base, lvl, c, pos, level, k, j), j)
  {
    var t := LevelAt(base, lvl, c, pos, level, k, j);
    assert t == LevelAt(base, lvl, c, pos, level, k + 1, j);
    LevelNodes(base, lvl, c, pos, level, k, j);
    WriteOther(mem, next[j], t, j, pos, k, v);
    if u != HEAD {
      forall q | q in t && q != u ensures Apart(q, u) {
        if q != pos {
          SpreadPair(base, q, u);
        }
      }
      WriteOther(mem[Cell(pos, k) := v], next[j], t, j, u, k, pos);
    }
  }

  lemma LevelNodes(base: seq<nat>, lvl: map<nat, nat>, c: nat, pos: nat, level: nat, k: nat, j: nat)
    requires c <= |base|
    ensures forall q :: q in LevelAt(base, lvl, c, pos, level, k, j) ==> q == pos || q in base
  {
    FilterMembers(base, lvl, j);
    PutMembers(Filter(base, lvl, j), Cut(base, lvl, c, j), pos);
  }

  lemma {:induction false} FilterSpread(base: seq<nat>, lvl: map<nat, nat>, k: nat)
    requires Spread(base)
    ensures Spread(Filter(base, lvl, k))
  {
    if base != [] {
      FilterSpread(base[1..], lvl, k);
      FilterMembers(base[1..], lvl, k);
      var f, g := Filter(base, lvl, k), Filter(base[1..], lvl, k);
      if base[0] in lvl && lvl[base[0]] >= k {
        forall i, j | 0 <= i < j < |f| ensures Apart(f[i], f[j]) {
          assert f[j] == g[j - 1] && g[j - 1] in base[1..];
          if i == 0 {
            var q :| 1 <= q < |base| && base[q] == f[j];
          } else {
            assert f[i] == g[i - 1];
          }
        }
      }
    }
  }

  /** One level of the insertion. */
  lemma PutStep(mem: seq<int>, next: seq<int>, base: seq<nat>, lvl: map<nat, nat>, sz: map<nat, nat>, c: nat, pos: nat,
                level: nat, k: nat, u: int, mem': seq<int>, next': seq<int>)
    requires Putting(mem, next, base, lvl, sz, c, pos, level, k + 1) && k <= level < LEVELS
    requires Found(u, base, lvl, c, k)
    requires u == HEAD || (0 <= u && Cell(u, k) < |mem|)
    requires mem' == SetMem(mem[Cell(pos, k) := NextOf(mem, next, u, k)], u, k, pos)
    requires next' == SetHead(next, u, k, pos)
    ensures Putting(mem', next', base, lvl, sz, c, pos, level, k)
  {
    hide Spread, Filter, Linked, Cut;
    FilterMembers(base, lvl, k);
    var f := Filter(base, lvl, k);
    FilterSpread(base, lvl, k);
    PutLink(mem, next, f, k, u, Cut(base, lvl, c, k), pos, mem', next');
    forall j | 0 <= j < LEVELS ensures Linked(mem', next'[j], LevelAt(base, lvl, c, pos, level, k, j), j) {
      if j != k {
        PutOther(mem, next, base, lvl, sz, c, pos, level, k, u, j, NextOf(mem, next, u, k));
      }
    }
    forall p | p in base ensures mem'[p] == sz[p] {
      if u != HEAD && u != p {
        SpreadPair(base, p, u);
      }
    }
  }

  /** Links the block at `pos` into the levels from `level` down, at position `c` where the
      search stopped, and stores its size. */
  method PutNode(mem0: seq<int>, next0: seq<int>, height0: nat, update0: seq<int>, pos: nat, size: nat, random: nat,
                 ghost base: seq<nat>, ghost lvl: map<nat, nat>, ghost sz: map<nat, nat>, ghost c: nat)
    returns (mem: seq<int>, next: seq<int>, height: nat, ghost level: nat)
    requires SkipOk(mem0, next0, height0, base, lvl, sz) && Room(mem0, base, lvl, sz, pos) && sz[pos] == size
    requires |update0| == LEVELS && random < LEVELS && c <= |base|
    requires forall k :: 0 <= k < height0 ==> Found(update0[k], base, lvl, c, k)
    ensures SkipOk(mem, next, height, PutAt(base, c, pos), lvl[pos := level], sz)
    ensures SameOutside(mem0, mem, base + [pos])
  {
    hide Spread, Linked, Cut, Filter;
    mem, next, height := mem0, next0, height0;
    var k, update := random, update0;
    if k >= height {
      k := height;
      TopEmpty(mem, next, height, base, lvl, sz, c);
      height := height + 1;
      update := update[k := HEAD];
    }
    level := k;
    PutStart(mem, next, base, lvl, sz, c, pos, level);
    k := k + 1;
    while k > 0
      invariant 0 <= k <= level + 1 && Putting(mem, next, base, lvl, sz, c, pos, level, k)
      invariant SameOutside(mem0, mem, base + [pos])
    {
      k := k - 1;
      var n1 := update[k];
      PredInBase(mem, base, lvl, c, k, n1);
      ghost var m0, h0 := mem, next;
      WriteInside(mem0, mem, base + [pos], pos, Cell(pos, k), NextOf(mem, next, n1, k));
      mem := mem[Cell(pos, k) := NextOf(mem, next, n1, k)];
      if n1 != HEAD {
        WriteInside(mem0, mem, base + [pos], n1, Cell(n1, k), pos);
      }
      mem, next := SetMem(mem, n1, k, pos), SetHead(next, n1, k, pos);
      PutStep(m0, h0, base, lvl, sz, c, pos, level, k, n1, mem, next);
    }
    PutDone(mem0, next0, height0, mem, next, height, base, lvl, sz, c, pos, level);
    WriteInside(mem0, mem, base + [pos], pos, pos, size);
    mem := mem[pos := size];
  }

  lemma WriteInside(mem0: seq<int>, mem: seq<int>, nodes: seq<nat>, p: nat, i: nat, v: int)
    requires SameOutside(mem0, mem, nodes) && p in nodes && p <= i < p + NODE_WORDS && i < |mem|
    ensures SameOutside(mem0, mem[i := v], nodes)
  {
  }

  lemma PredInBase(mem: seq<int>, base: seq<nat>, lvl: map<nat, nat>, c: nat, k: nat, u: int)
    requires Found(u, base, lvl, c, k)
    requires forall p :: p in base ==> p + NODE_WORDS <= |mem|
    ensures u == HEAD || u in base
    ensures k < LEVELS ==> u == HEAD || (0 <= u && Cell(u, k) < |mem|)
  {
    FilterMembers(base, lvl, k);
  }

  lemma TopEmpty(mem: seq<int>, next: seq<int>, height: nat, base: seq<nat>, lvl: map<nat, nat>, sz: map<nat, nat>,
                 c: nat)
    requires SkipOk(mem, next, height, base, lvl, sz) && c <= |base|
    ensures Found(HEAD, base, lvl, c, height)
  {
    FilterMembers(base, lvl, height);
    var f := Filter(base, lvl, height);
    assert forall p :: p in f ==> NodeOk(mem, height, lvl, sz, p);
    SomeNode(f);
  }

  lemma PutStart(mem: seq<int>, next: seq<int>, base: seq<nat>, lvl: map<nat, nat>, sz: map<nat, nat>, c: nat, pos: nat,
                 level: nat)
    requires c <= |base| && Room(mem, base, lvl, sz, pos) && |next| == LEVELS
    requires forall k :: 0 <= k < LEVELS ==> Linked(mem, next[k], Filter(base, lvl, k), k)
    ensures Putting(mem, next, base, lvl, sz, c, pos, level, level + 1)
  {
  }

  lemma PutDone(mem0: seq<int>, next0: seq<int>, height0: nat, mem: seq<int>, next: seq<int>, height: nat,
                base: seq<nat>, lvl: map<nat, nat>, sz: map<nat, nat>, c: nat, pos: nat, level: nat)
    requires SkipOk(mem0, next0, height0, base, lvl, sz) && Putting(mem, next, base, lvl, sz, c, pos, level, 0)
    requires level < height <= LEVELS && (height == height0 || (height == height0 + 1 && level == height0))
    requires |mem| == |mem0|
    ensures SkipOk(mem[pos := sz[pos]], next, height, PutAt(base, c, pos), lvl[pos := level], sz)
  {
    hide Filter, Linked, Cut, NodeOk;
    var len := sz[pos];
    var base', lvl', mem' := PutAt(base, c, pos), lvl[pos := level], mem[pos := len];
    PutMembers(base, c, pos);
    PutSpread(base, c, pos);
    assert pos !in base;
    forall p | p in base' ensures NodeOk(mem', height, lvl', sz, p) {
      PutNodeOk(mem0, height0, mem, height, lvl, sz, pos, level, p);
    }
    forall k | 0 <= k < LEVELS ensures Linked(mem', next[k], Filter(base', lvl', k), k) {
      PutLevelDone(mem, next, base, lvl, sz, c, pos, level, k);
    }
    PutTop(base, lvl, base', lvl', pos, height0, height, level);
  }

  lemma PutNodeOk(mem0: seq<int>, height0: nat, mem: seq<int>, height: nat, lvl: map<nat, nat>, sz: map<nat, nat>,
                  pos: nat, level: nat, p: nat)
    requires level < height && height0 <= height && |mem| == |mem0| && pos in sz && pos + NODE_WORDS <= |mem|
    requires p != pos ==> NodeOk(mem0, height0, lvl, sz, p) && mem[p] == sz[p] && Apart(p, pos)
    ensures NodeOk(mem[pos := sz[pos]], height, lvl[pos := level], sz, p)
  {
  }

  lemma PutLevelDone(mem: seq<int>, next: seq<int>, base: seq<nat>, lvl: map<nat, nat>, sz: map<nat, nat>, c: nat,
                     pos: nat, level: nat, k: nat)
    requires Putting(mem, next, base, lvl, sz, c, pos, level, 0) && k < LEVELS
    ensures Linked(mem[pos := sz[pos]], next[k], Filter(PutAt(base, c, pos), lvl[pos := level], k), k)
  {
    hide Filter, Linked, Cut, Spread;
    assert pos !in base;
    PutLevels(base, lvl, c, pos, level, k);
    LevelNodes(base, lvl, c, pos, level, 0, k);
    SizeWrite(mem, next[k], LevelAt(base, lvl, c, pos, level, 0, k), k, pos, sz[pos]);
  }

  lemma PutTop(base: seq<nat>, lvl: map<nat, nat>, base': seq<nat>, lvl': map<nat, nat>, pos: nat, height0: nat,
               height: nat, level: nat)
    requires height > 0 && lvl' == lvl[pos := level] && pos !in base
    requires forall q :: q in base' <==> q == pos || q in base
    requires height0 > 0 ==> Filter(base, lvl, height0 - 1) != []
    requires level < height && (height == height0 || (height == height0 + 1 && level == height0))
    ensures Filter(base', lvl', height - 1) != []
  {
    FilterMembers(base', lvl', height - 1);
    if height == height0 {
      FilterMembers(base, lvl, height - 1);
      assert Filter(base, lvl, height - 1)[0] in Filter(base', lvl', height - 1);
    } else {
      assert pos in Filter(base', lvl', height - 1);
    }
  }

  /** A size word is no link word. */
  lemma SizeWrite(mem: seq<int>, first: int, t: seq<nat>, k: nat, pos: nat, len: int)
    requires Linked(mem, first, t, k) && k < LEVELS && pos < |mem| && forall q :: q in t ==> q == pos || Apart(q, pos)
    ensures Linked(mem[pos := len], first, t, k)
  {
    forall i | 0 <= i < |t| ensures Cell(t[i], k) < |mem| && mem[pos := len][Cell(t[i], k)] == LinkTo(t, i + 1) {
      assert t[i] in t;
    }
  }
}
