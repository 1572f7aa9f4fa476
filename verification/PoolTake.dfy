/** Taking a node out of the skip list. */
module PoolTake {
  import opened PoolSkip
  import opened PoolSearch
  import opened PoolLinks

  function TakeAt(s: seq<nat>, c: nat): (r: seq<nat>)
    requires c < |s|
    ensures |r| == |s| - 1
  {
    s[..c] + s[c + 1..]
  }

  lemma TakeMembers(s: seq<nat>, c: nat)
    requires c < |s| && Spread(s)
    ensures forall q :: q in TakeAt(s, c) <==> q in s && q != s[c]
  {
    assert s == s[..c] + [s[c]] + s[c + 1..];
    forall q | q in TakeAt(s, c) ensures q != s[c] {
      var i :| 0 <= i < |s| && i != c && s[i] == q;
      SpreadAt(s, i, c);
    }
  }

  /** One level of the removal: what stood before position `c` now points past it. */
  lemma TakeLink(mem: seq<int>, next: seq<int>, s: seq<nat>, k: nat, u: int, c: nat, mem': seq<int>, next': seq<int>)
    requires k < LEVELS == |next| && Linked(mem, next[k], s, k) && IsPred(u, s, c) && Spread(s) && c < |s|
    requires u == HEAD || (0 <= u && Cell(u, k) < |mem|)
    requires mem' == SetMem(mem, u, k, LinkTo(s, c + 1)) && next' == SetHead(next, u, k, LinkTo(s, c + 1))
    ensures Linked(mem', next'[k], TakeAt(s, c), k)
  {
    hide Linked;
    var t := TakeAt(s, c);
    forall i | 0 <= i < |t| ensures Cell(t[i], k) < |mem'| && mem'[Cell(t[i], k)] == LinkTo(t, i + 1) {
      var j := if i < c then i else i + 1;
      TakeLinkAt(mem, next, s, k, u, c, mem', j);
    }
    TakeHead(mem, next, s, k, u, c);
    LinkedIs(mem', next'[k], t, k);
  }

  lemma TakeHead(mem: seq<int>, next: seq<int>, s: seq<nat>, k: nat, u: int, c: nat)
    requires k < |next| && Linked(mem, next[k], s, k) && IsPred(u, s, c) && c < |s|
    ensures SetHead(next, u, k, LinkTo(s, c + 1))[k] == LinkTo(TakeAt(s, c), 0)
  {
  }

  lemma TakeLinkAt(mem: seq<int>, next: seq<int>, s: seq<nat>, k: nat, u: int, c: nat, mem': seq<int>, j: nat)
    requires k < LEVELS == |next| && Linked(mem, next[k], s, k) && IsPred(u, s, c) && Spread(s) && c < |s|
    requires u == HEAD || (0 <= u && Cell(u, k) < |mem|)
    requires mem' == SetMem(mem, u, k, LinkTo(s, c + 1)) && j < |s| && j != c
    ensures Cell(s[j], k) < |mem'| && mem'[Cell(s[j], k)] == LinkTo(s, if j + 1 == c then c + 1 else j + 1)
  {
    LinkAt(mem, next[k], s, k, j);
    if c > 0 && j != c - 1 {
      SpreadAt(s, j, c - 1);
    }
  }

  /** The levels after the removal of the node at position `c`. */
  lemma TakeLevels(base: seq<nat>, lvl: map<nat, nat>, c: nat, k: nat)
    requires c < |base| && forall p :: p in base ==> p in lvl
    ensures var f, ck := Filter(base, lvl, k), Cut(base, lvl, c, k);
            && (lvl[base[c]] >= k ==> ck < |f| && f[ck] == base[c])
            && Filter(TakeAt(base, c), lvl, k) == if lvl[base[c]] >= k then TakeAt(f, ck) else f
  {
    hide Filter;
    LevelSplits(base, lvl, c, k);
    FilterMembers(base, lvl, k);
    var f, ck := Filter(base, lvl, k), Cut(base, lvl, c, k);
    var res, rest := base[c], base[c + 1..];
    assert base[c..] == [res] + rest;
    FilterOne(res, rest, lvl, lvl[res], k);
    FilterConcat(base[..c], rest, lvl, k);
    assert f == f[..ck] + f[ck..];
    if lvl[res] >= k {
      assert f[ck..][0] == res && f[ck..][1..] == f[ck + 1..];
      assert ([res] + Filter(rest, lvl, k))[1..] == Filter(rest, lvl, k);
    }
  }

  lemma NotThere(base: seq<nat>, lvl: map<nat, nat>, p: nat, k: nat, i: nat)
    requires p in lvl && lvl[p] < k && i < |Filter(base, lvl, k)|
    ensures Filter(base, lvl, k)[i] != p
  {
    FilterMembers(base, lvl, k);
    assert Filter(base, lvl, k)[i] in Filter(base, lvl, k);
  }

  lemma TakeSpread(s: seq<nat>, c: nat)
    requires c < |s| && Spread(s)
    ensures Spread(TakeAt(s, c))
  {
    var t := TakeAt(s, c);
    forall i, j | 0 <= i < j < |t| ensures Apart(t[i], t[j]) {
      var a, b := if i < c then i else i + 1, if j < c then j else j + 1;
      assert t[i] == s[a] && t[j] == s[b];
    }
  }

  lemma TakeSorted(s: seq<nat>, sz: map<nat, nat>, c: nat)
    requires c < |s| && Sorted(s, sz)
    ensures Sorted(TakeAt(s, c), sz)
  {
    var t := TakeAt(s, c);
    forall i, j | 0 <= i < j < |t| ensures sz[t[i]] <= sz[t[j]] {
      var a, b := if i < c then i else i + 1, if j < c then j else j + 1;
      assert t[i] == s[a] && t[j] == s[b];
    }
  }

  /** Level `j` while the removal has done the levels below `k`. */
  ghost function LevelLeft(base: seq<nat>, lvl: map<nat, nat>, c: nat, k: nat, j: nat): seq<nat>
    requires c < |base| && forall p :: p in base ==> p in lvl
  {
    TakeLevels(base, lvl, c, j);
    var f := Filter(base, lvl, j);
    if j < k && lvl[base[c]] >= j then TakeAt(f, Cut(base, lvl, c, j)) else f
  }

  ghost predicate Taking(mem: seq<int>, next: seq<int>, base: seq<nat>, lvl: map<nat, nat>, sz: map<nat, nat>, c: nat,
                         k: nat)
  {
    && |next| == LEVELS && |mem| <= TAIL && Spread(base) && c < |base|
    && (forall p :: p in base ==> p in lvl && p in sz && p + NODE_WORDS <= |mem| && mem[p] == sz[p])
    && forall j :: 0 <= j < LEVELS ==> Linked(mem, next[j], LevelLeft(base, lvl, c, k, j), j)
  }

  lemma LeftNodes(base: seq<nat>, lvl: map<nat, nat>, c: nat, k: nat, j: nat)
    requires c < |base| && forall p :: p in base ==> p in lvl
    ensures forall q :: q in LevelLeft(base, lvl, c, k, j) ==> q in base
  {
    FilterMembers(base, lvl, j);
  }

  /** A level that holds the node. */
  lemma TakeStep(mem: seq<int>, next: seq<int>, base: seq<nat>, lvl: map<nat, nat>, sz: map<nat, nat>, c: nat, k: nat,
                 u: int, res: nat, mem': seq<int>, next': seq<int>)
    requires Taking(mem, next, base, lvl, sz, c, k) && k < LEVELS && Found(u, base, lvl, c, k)
    requires u == HEAD || (0 <= u && Cell(u, k) < |mem|)
    requires res == base[c] && res in base && lvl[res] >= k
    requires mem' == SetMem(mem, u, k, mem[Cell(res, k)]) && next' == SetHead(next, u, k, mem[Cell(res, k)])
    ensures Taking(mem', next', base, lvl, sz, c, k + 1)
  {
    hide Filter, Cut, Spread, Linked;
    PredInBase(mem, base, lvl, c, k, u);
    TakeLevels(base, lvl, c, k);
    var f := Filter(base, lvl, k);
    FilterSpread(base, lvl, k);
    var ck := Cut(base, lvl, c, k);
    assert mem[Cell(res, k)] == LinkTo(f, ck + 1) by { LinkAt(mem, next[k], f, k, ck); }
    TakeLink(mem, next, f, k, u, ck, mem', next');
    forall j | 0 <= j < LEVELS ensures Linked(mem', next'[j], LevelLeft(base, lvl, c, k + 1, j), j) {
      if j != k && u != HEAD {
        TakeOther(mem, next[j], base, LevelLeft(base, lvl, c, k, j), lvl, c, k, u, j, mem[Cell(res, k)]);
      }
    }
    forall p | p in base ensures mem'[p] == sz[p] {
      if u != HEAD && u != p {
        SpreadPair(base, p, u);
      }
    }
  }

  lemma LinkAt(mem: seq<int>, first: int, s: seq<nat>, k: nat, i: nat)
    requires Linked(mem, first, s, k) && i < |s|
    ensures Cell(s[i], k) < |mem| && mem[Cell(s[i], k)] == LinkTo(s, i + 1)
  {
  }

  lemma TakeOther(mem: seq<int>, first: int, base: seq<nat>, t: seq<nat>, lvl: map<nat, nat>, c: nat, k: nat, u: nat,
                  j: nat, v: int)
    requires Linked(mem, first, t, j) && j < LEVELS && k < LEVELS && j != k && u in base && Spread(base)
    requires Cell(u, k) < |mem| && c < |base| && (forall p :: p in base ==> p in lvl)
    requires t == LevelLeft(base, lvl, c, k, j)
    ensures Linked(mem[Cell(u, k) := v], first, t, j)
  {
    LeftNodes(base, lvl, c, k, j);
    forall q | q in t && q != u ensures Apart(q, u) {
      SpreadPair(base, q, u);
    }
    WriteOther(mem, first, t, j, u, k, v);
  }

  /** A level that does not. */
  lemma SkipStep(mem: seq<int>, next: seq<int>, base: seq<nat>, lvl: map<nat, nat>, sz: map<nat, nat>, c: nat, k: nat)
    requires Taking(mem, next, base, lvl, sz, c, k) && lvl[base[c]] < k
    ensures Taking(mem, next, base, lvl, sz, c, k + 1)
  {
    forall j | 0 <= j < LEVELS ensures Linked(mem, next[j], LevelLeft(base, lvl, c, k + 1, j), j) {
      assert LevelLeft(base, lvl, c, k + 1, j) == LevelLeft(base, lvl, c, k, j);
    }
  }

  /** Whether the search stopped right before the node on level `k`. */
  lemma TakeTest(mem: seq<int>, next: seq<int>, base: seq<nat>, lvl: map<nat, nat>, sz: map<nat, nat>, c: nat, k: nat,
                 u: int)
    requires Taking(mem, next, base, lvl, sz, c, k) && k < LEVELS && Found(u, base, lvl, c, k)
    ensures u == HEAD || (0 <= u && Cell(u, k) < |mem|)
    ensures base[c] in lvl
    ensures NextOf(mem, next, u, k) == base[c] <==> lvl[base[c]] >= k
  {
    hide Filter, Cut, Spread;
    PredInBase(mem, base, lvl, c, k, u);
    TakeLevels(base, lvl, c, k);
    var f := Filter(base, lvl, k);
    PredNext(mem, next, f, k, u, Cut(base, lvl, c, k));
    if lvl[base[c]] < k && Cut(base, lvl, c, k) < |f| {
      NotThere(base, lvl, base[c], k, Cut(base, lvl, c, k));
    }
  }

  /** Unlinks the node at position `c`, where the search stopped, from every level that holds it,
      then drops the levels left empty at the top. */
  method TakeNode(mem0: seq<int>, next0: seq<int>, height0: nat, update: seq<int>, res: nat, ghost base: seq<nat>,
                  ghost lvl: map<nat, nat>, ghost sz: map<nat, nat>, ghost c: nat)
    returns (mem: seq<int>, next: seq<int>, height: nat)
    requires SkipOk(mem0, next0, height0, base, lvl, sz) && c < |base|
    requires res == base[c] && |update| == LEVELS
    requires forall k :: 0 <= k < height0 ==> Found(update[k], base, lvl, c, k)
    ensures SkipOk(mem, next, height, TakeAt(base, c), lvl, sz)
    ensures SameOutside(mem0, mem, base)
  {
    hide Filter, Cut, Spread, Linked, SkipOk;
    SkipFacts(mem0, next0, height0, base, lvl, sz);
    mem, next := mem0, next0;
    TakeStart(mem, next, height0, base, lvl, sz, c);
    var k := 0;
    while k < height0
      invariant 0 <= k <= height0 && Taking(mem, next, base, lvl, sz, c, k) && SameOutside(mem0, mem, base)
    {
      var n1 := update[k];
      TakeTest(mem, next, base, lvl, sz, c, k, n1);
      ghost var m0, h0 := mem, next;
      if NextOf(mem, next, n1, k) == res {
        var after := mem[Cell(res, k)];
        PredInBase(mem, base, lvl, c, k, n1);
        if n1 != HEAD {
          WriteInside(mem0, mem, base, n1, Cell(n1, k), after);
        }
        mem, next := SetMem(mem, n1, k, after), SetHead(next, n1, k, after);
        TakeStep(m0, h0, base, lvl, sz, c, k, n1, res, mem, next);
      } else {
        SkipStep(mem, next, base, lvl, sz, c, k);
      }
      k := k + 1;
    }
    TakenLevels(mem, next, base, lvl, sz, c, height0);
    height := TrimHeight(mem, next, height0, TakeAt(base, c), lvl, sz);
  }

  lemma TakeStart(mem: seq<int>, next: seq<int>, height: nat, base: seq<nat>, lvl: map<nat, nat>, sz: map<nat, nat>,
                  c: nat)
    requires SkipOk(mem, next, height, base, lvl, sz) && c < |base|
    ensures Taking(mem, next, base, lvl, sz, c, 0)
  {
    assert forall p :: p in base ==> NodeOk(mem, height, lvl, sz, p);
  }

  /** All levels done: what is left, with the height still to be trimmed. */
  lemma TakenLevels(mem: seq<int>, next: seq<int>, base: seq<nat>, lvl: map<nat, nat>, sz: map<nat, nat>, c: nat,
                    height: nat)
    requires Taking(mem, next, base, lvl, sz, c, height) && 0 < height <= LEVELS
    requires forall p :: p in base ==> lvl[p] < height
    ensures Trimming(mem, next, height, TakeAt(base, c), lvl, sz)
  {
    hide Filter, Cut, Linked;
    TakeSpread(base, c);
    TakeMembers(base, c);
    forall k | 0 <= k < LEVELS ensures Linked(mem, next[k], Filter(TakeAt(base, c), lvl, k), k) {
      TakeLevels(base, lvl, c, k);
      assert base[c] in base;
    }
    forall k | height <= k < LEVELS ensures Filter(TakeAt(base, c), lvl, k) == [] {
      NoneThere(TakeAt(base, c), lvl, k);
    }
  }

  /** A skip list whose upper levels may have become empty. */
  ghost predicate Trimming(mem: seq<int>, next: seq<int>, height: nat, base: seq<nat>, lvl: map<nat, nat>,
                           sz: map<nat, nat>)
  {
    && |next| == LEVELS && height <= LEVELS && |mem| <= TAIL && Spread(base)
    && (forall p :: p in base ==> p in lvl && p in sz && lvl[p] < LEVELS && p + NODE_WORDS <= |mem| && mem[p] == sz[p])
    && (forall k :: 0 <= k < LEVELS ==> Linked(mem, next[k], Filter(base, lvl, k), k))
    && (forall k :: height <= k < LEVELS ==> Filter(base, lvl, k) == [])
  }

  method TrimHeight(ghost mem: seq<int>, next: seq<int>, height0: nat, ghost base: seq<nat>, ghost lvl: map<nat, nat>,
                    ghost sz: map<nat, nat>)
    returns (height: nat)
    requires Trimming(mem, next, height0, base, lvl, sz) && height0 > 0
    ensures SkipOk(mem, next, height, base, lvl, sz)
  {
    hide Filter, Spread, Linked;
    height := height0;
    while height > 0 && next[height - 1] == TAIL
      invariant 0 <= height <= height0 && Trimming(mem, next, height, base, lvl, sz)
    {
      TailEmpty(mem, next, height - 1, base, lvl);
      height := height - 1;
    }
    TrimDone(mem, next, height, base, lvl, sz);
  }

  lemma TrimDone(mem: seq<int>, next: seq<int>, height: nat, base: seq<nat>, lvl: map<nat, nat>, sz: map<nat, nat>)
    requires Trimming(mem, next, height, base, lvl, sz) && (height > 0 ==> next[height - 1] != TAIL)
    ensures SkipOk(mem, next, height, base, lvl, sz)
  {
    hide Filter, Spread;
    forall p | p in base ensures NodeOk(mem, height, lvl, sz, p) {
      FilterMembers(base, lvl, lvl[p]);
      assert p in Filter(base, lvl, lvl[p]);
    }
  }

  lemma TailEmpty(mem: seq<int>, next: seq<int>, k: nat, base: seq<nat>, lvl: map<nat, nat>)
    requires k < LEVELS == |next| && Linked(mem, next[k], Filter(base, lvl, k), k) && next[k] == TAIL
    requires |mem| <= TAIL && forall p :: p in base ==> p + NODE_WORDS <= |mem|
    ensures Filter(base, lvl, k) == []
  {
    FilterMembers(base, lvl, k);
    var f := Filter(base, lvl, k);
    SomeNode(f);
  }
}
