/** What one operation on a slot does to the pool, the counters and the chains of the string map. */
module StrTable {
  import opened Basics
  import opened HashSizing
  import opened HashChains
  import opened HashSlots
  import opened HashBuckets
  import opened StrPieces
  import opened StrSlots
  import opened StrBins
  import opened StrCompact
  import opened StrRelist
  import opened StrSort
  import opened StrGrowth

  ghost predicate KeysOk(pieces: seq<seq<Byte>>, link: seq<nat>, align: nat) {
    |link| == |pieces| && forall i :: 0 <= i < |link| && link[i] != DELMARK ==>
        HasKey(pieces[i]) && Tight(pieces[i], align)
  }

  /** The counters of free slots and free bytes, `hole` being free but not counted. */
  ghost predicate Counted(pieces: seq<seq<Byte>>, link: seq<nat>, nDeleted: nat, freepool: nat, hole: int) {
    && |link| == |pieces| && hole < |pieces|
    && FreeCount(link) == nDeleted + (if hole < 0 then 0 else 1)
    && FreeBytes(pieces, link) == freepool + (if hole < 0 then 0 else |pieces[hole]|)
  }

  /** `fastleng + 1`, or none: what `enable_freelist` accepts keeps it in these bounds. */
  predicate ListCount(n: nat) {
    n > 0 ==> 2 <= n <= 32 * 1024
  }

  /** Every slot holds an element, and the keys ascend. */
  ghost predicate InOrder<V>(data: seq<Cell<seq<Byte>, V>>) {
    && (forall i :: 0 <= i < |data| ==> data[i].Elem?)
    && (forall i, j :: 0 <= i < j < |data| ==> StrKeys.Less(data[i].key, data[j].key))
  }

  /** The slot that held the key is free now; nothing else has changed. */
  ghost predicate FreedSlot<V>(before: seq<Cell<seq<Byte>, V>>, after: seq<Cell<seq<Byte>, V>>, key: seq<Byte>) {
    exists s :: 0 <= s < |before| && before[s].Elem? && before[s].key == key && after == before[s := FreeLink(0)]
  }

  /** One of the first five slots of the list has that length. */
  ghost predicate FitsAmong(c: seq<nat>, pieces: seq<seq<Byte>>, len: nat) {
    exists j :: 0 <= j < |c| && j < 5 && c[j] < |pieces| && |pieces[c[j]]| == len
  }

  ghost predicate Fit(bins: seq<seq<nat>>, pieces: seq<seq<Byte>>, align: nat, len: nat)
    requires align > 0
  {
    bins != [] && len >= align &&
    var b := len / align - 1;
    if b < |bins| - 1 then bins[b] != [] else FitsAmong(bins[|bins| - 1], pieces, len)
  }

  lemma HeadEmpty(fast: seq<nat>, bins: seq<seq<nat>>, pieces: seq<seq<Byte>>, link: seq<nat>, align: nat,
                  out: set<nat>, b: nat)
    requires BinsOk(fast, bins, pieces, link, align, out) && b < |bins|
    ensures fast[b] != TAIL <==> bins[b] != []
  {
    assert IsChain(fast[b], bins[b], Nexts(pieces)) && Belong(bins[b], b, pieces, link, align, |bins|, out);
    if bins[b] != [] {
      assert bins[b][0] in bins[b];
    }
  }

  /** Links of slots that are in no chain. */
  function Fresh(n: nat): (r: seq<nat>)
    ensures |r| == n && forall i :: 0 <= i < n ==> r[i] == TAIL
  {
    seq(n, _ => TAIL)
  }

  /** The chains of a table with no live slot, or with the first one only. */
  lemma OneLive<V>(hash: seq<Byte> -> nat, bucket: seq<nat>, link0: seq<nat>, data0: seq<Cell<seq<Byte>, V>>,
                   chains: seq<seq<nat>>, link: seq<nat>, data: seq<Cell<seq<Byte>, V>>)
    requires ChainsOk(hash, bucket, link0, data0, chains) && SlotsOk(hash, link0, data0, chains, {})
      && UniqueKeys(data0, {})
    requires data == Sieve(data0, KeepAll()) && |link| == |data| < 2 && |link| <= |link0| && link == link0[..|link|]
    requires |link| == 1 ==> link0[0] != DELMARK
    ensures ChainsOk(hash, bucket, link, data, chains) && SlotsOk(hash, link, data, chains, {}) && UniqueKeys(data, {})
  {
    SieveUnique(data0, KeepAll<seq<Byte>, V>());
    forall s: nat | s < |data0| && data0[s].Elem? ensures |data| == 1 && s == 0 && data[0] == data0[0] {
      OnlyFirst(data0, data, s);
    }
    forall b | 0 <= b < |chains|
      ensures IsChain(bucket[b], chains[b], link) && Placed(hash, data, chains[b], b, |chains|) {
      var c := chains[b];
      assert IsChain(bucket[b], c, link0) && Placed(hash, data0, c, b, |chains|);
      assert forall j :: 0 <= j < |c| ==> c[j] in c;
      assert forall i, j :: 0 <= i < |c| && 0 <= j < |c| ==> c[i] == c[j];
    }
  }

  lemma OnlyFirst<V>(data0: seq<Cell<seq<Byte>, V>>, data: seq<Cell<seq<Byte>, V>>, s: nat)
    requires UniqueKeys(data0, {}) && data == Sieve(data0, KeepAll()) && |data| < 2 && s < |data0| && data0[s].Elem?
    requires |data| == 1 ==> data0[0].Elem?
    ensures |data| == 1 && s == 0 && data[0] == data0[0]
  {
    SieveHasAll(data0, KeepAll(), data0[s]);
    SieveHasAll(data0, KeepAll(), data0[0]);
    assert Visible(data0, {}, s) && Visible(data0, {}, 0);
  }

  /** When the first slot is free, the bucket of every key points at a later one. */
  lemma Dangling<V>(hash: seq<Byte> -> nat, bucket: seq<nat>, link: seq<nat>, data: seq<Cell<seq<Byte>, V>>,
                    chains: seq<seq<nat>>, key: seq<Byte>)
    requires ChainsOk(hash, bucket, link, data, chains) && SlotsOk(hash, link, data, chains, {}) && UniqueKeys(data, {})
    requires link != [] && link[0] == DELMARK && key in Contents(data, {}) && |link| <= TAIL
    ensures 1 <= bucket[Home(hash, key, |bucket|)] < |link|
  {
    var s: nat :| Visible(data, {}, s) && data[s].key == key;
    var h := Home(hash, key, |chains|);
    var c := chains[h];
    assert s in c && IsChain(bucket[h], c, link) && Placed(hash, data, c, h, |chains|);
    assert c[0] in c;
  }

  lemma StrictlyAscending<V>(data: seq<Cell<seq<Byte>, V>>)
    requires UniqueKeys(data, {}) && forall i :: 0 <= i < |data| ==> data[i].Elem?
    requires forall i, j :: 0 <= i < j < |data| ==> !StrKeys.Less(data[j].key, data[i].key)
    ensures InOrder(data)
  {
    forall i, j | 0 <= i < j < |data| ensures StrKeys.Less(data[i].key, data[j].key) {
      assert Visible(data, {}, i) && Visible(data, {}, j);
      if !StrKeys.Less(data[i].key, data[j].key) {
        StrKeys.LessTotal(data[i].key, data[j].key);
      }
    }
  }

  lemma OrderFacts(idx: seq<nat>, n: nat)
    requires IsOrder(idx, n)
    ensures |idx| == n && Rearrange.IsIndex(idx) && forall i :: 0 <= i < n ==> idx[i] < n
  {
  }

  lemma SortedCells<V>(pieces: seq<seq<Byte>>, vals: seq<V>, align: nat, idx: seq<nat>)
    requires |vals| == |pieces| == |idx| && Long(pieces, align) && KeysOk(pieces, Fresh(|pieces|), align)
    requires forall i :: 0 <= i < |idx| ==> idx[i] < |pieces|
    ensures var r, v := Pick(pieces, idx), Pick(vals, idx);
            && Long(r, align) && KeysOk(r, Fresh(|r|), align)
            && Cells(r, Fresh(|r|), v) == Pick(Cells(pieces, Fresh(|pieces|), vals), idx)
  {
    hide HasKey, Tight, KeyIn, Whole;
    var r, v := Pick(pieces, idx), Pick(vals, idx);
    assert forall i :: 0 <= i < |pieces| ==> Fresh(|pieces|)[i] != DELMARK;
    assert forall i :: 0 <= i < |r| ==> Fresh(|r|)[i] != DELMARK;
  }

  /** Slots in sorted order. */
  lemma SortedLayout<V>(pieces: seq<seq<Byte>>, vals: seq<V>, keys: seq<seq<Byte>>, align: nat, idx: seq<nat>)
    requires |vals| == |pieces| == |keys| && Long(pieces, align) && KeysOk(pieces, Fresh(|pieces|), align)
    requires forall i :: 0 <= i < |keys| ==> HasKey(pieces[i]) && keys[i] == KeyIn(pieces[i])
    requires IsOrder(idx, |pieces|) && Ascending(Pick(keys, idx))
    ensures var r, v := Pick(pieces, idx), Pick(vals, idx);
            && Long(r, align) && KeysOk(r, Fresh(|r|), align)
            && Cells(r, Fresh(|r|), v) == Pick(Cells(pieces, Fresh(|pieces|), vals), idx)
            && forall i, j :: 0 <= i < j < |r| ==>
                !StrKeys.Less(Cells(r, Fresh(|r|), v)[j].key, Cells(r, Fresh(|r|), v)[i].key)
  {
    hide HasKey, Tight, KeyIn, IsOrder, StrKeys.Less, Whole;
    OrderFacts(idx, |pieces|);
    var r, v := Pick(pieces, idx), Pick(vals, idx);
    SortedCells(pieces, vals, align, idx);
    var c := Cells(r, Fresh(|r|), v);
    forall i, j | 0 <= i < j < |r| ensures !StrKeys.Less(c[j].key, c[i].key) {
      assert c[j].key == Pick(keys, idx)[j] && c[i].key == Pick(keys, idx)[i];
    }
  }

  lemma Freed<V>(before: seq<Cell<seq<Byte>, V>>, after: seq<Cell<seq<Byte>, V>>, key: seq<Byte>, s: nat)
    requires s < |before| && before[s].Elem? && before[s].key == key && after == before[s := FreeLink(0)]
    ensures FreedSlot(before, after, key)
  {
  }

  lemma InChain<V>(hash: seq<Byte> -> nat, link: seq<nat>, data: seq<Cell<seq<Byte>, V>>, chains: seq<seq<nat>>, s: nat)
    requires |link| == |data| && |chains| >= 1 && SlotsOk(hash, link, data, chains, {}) && s < |data| && data[s].Elem?
    ensures s in chains[Home(hash, data[s].key, |chains|)]
  {
  }

  lemma MarkedLayout<V>(pieces: seq<seq<Byte>>, link: seq<nat>, vals: seq<V>, nDeleted: nat, freepool: nat, s: nat,
                        align: nat)
    requires |vals| == |link| && KeysOk(pieces, link, align) && Counted(pieces, link, nDeleted, freepool, -1)
      && s < |link| && link[s] != DELMARK
    ensures KeysOk(pieces, link[s := DELMARK], align)
    ensures Counted(pieces, link[s := DELMARK], nDeleted + 1, freepool + |pieces[s]|, -1)
    ensures Cells(pieces, link[s := DELMARK], vals) == Cells(pieces, link, vals)[s := FreeLink(0)]
  {
    FreeSet(pieces, link, s, DELMARK);
  }

  /** The table after a slot has left its chain and been marked. */
  lemma ErasedTable<V>(hash: seq<Byte> -> nat, bucket: seq<nat>, link: seq<nat>, data: seq<Cell<seq<Byte>, V>>,
                       chains: seq<seq<nat>>, b: nat, j: nat, idx: nat)
    requires ChainsOk(hash, bucket, link, data, chains) && SlotsOk(hash, link, data, chains, {}) && UniqueKeys(data, {})
    requires b < |chains| && j < |chains[b]| && idx == chains[b][j] && |data| <= MAX_LINK
    ensures idx < |data| && data[idx].Elem? && (j > 0 ==> chains[b][j - 1] < |data| && chains[b][j - 1] != idx)
    ensures link[idx] != DELMARK && (j > 0 ==> link[chains[b][j - 1]] != DELMARK)
    ensures var link1 := if j == 0 then link else link[chains[b][j - 1] := link[idx]];
            var bucket', link', data', chains' := if j == 0
                then bucket[b := link[idx]] else bucket, link1[idx := DELMARK],
              data[idx := FreeLink(0)], chains[b := Without(chains[b], j)];
            && ChainsOk(hash, bucket', link', data', chains') && SlotsOk(hash, link', data', chains', {})
            && UniqueKeys(data', {}) && Contents(data', {}) == Contents(data, {}) - {data[idx].key}
  {
    hide UniqueKeys, Contents, ChainsOk, SlotsOk;
    var c := chains[b];
    ErasedFacts(hash, bucket, link, data, chains, b, j, idx);
    var link1 := if j == 0 then link else link[c[j - 1] := link[idx]];
    var bucket', chains' := if j == 0 then bucket[b := link[idx]] else bucket, chains[b := Without(c, j)];
    ErasedChains(hash, bucket, link, data, chains, b, j, idx, bucket', link1, chains');
    ErasedSlots(hash, bucket, link, data, chains, b, j, idx, link1, chains');
    TakeCell(data, idx, 0);
  }

  lemma ErasedFacts<V>(hash: seq<Byte> -> nat, bucket: seq<nat>, link: seq<nat>, data: seq<Cell<seq<Byte>, V>>,
                       chains: seq<seq<nat>>, b: nat, j: nat, idx: nat)
    requires ChainsOk(hash, bucket, link, data, chains) && SlotsOk(hash, link, data, chains, {})
    requires b < |chains| && j < |chains[b]| && idx == chains[b][j] && |data| <= MAX_LINK
    ensures idx < |data| == |link| && |bucket| == |chains| && data[idx].Elem?
    ensures j > 0 ==> chains[b][j - 1] < |data| && chains[b][j - 1] != idx
    ensures link[idx] != DELMARK && (j > 0 ==> link[chains[b][j - 1]] != DELMARK)
  {
    var c := chains[b];
    assert IsChain(bucket[b], c, link) && Placed(hash, data, c, b, |chains|) && c[j] in c && (j > 0 ==> c[j - 1] in c);
  }

  lemma ErasedChains<V>(hash: seq<Byte> -> nat, bucket: seq<nat>, link: seq<nat>, data: seq<Cell<seq<Byte>, V>>,
                        chains: seq<seq<nat>>, b: nat, j: nat, idx: nat, bucket': seq<nat>, link1: seq<nat>,
                        chains': seq<seq<nat>>)
    requires ChainsOk(hash, bucket, link, data, chains) && b < |chains| && j < |chains[b]|
      && idx == chains[b][j] < |link| == |data|
    requires |bucket| == |chains| && (j > 0 ==> chains[b][j - 1] < |link|)
    requires link1 == if j == 0 then link else link[chains[b][j - 1] := link[idx]]
    requires bucket' == if j == 0 then bucket[b := link[idx]] else bucket
    requires chains' == chains[b := Without(chains[b], j)]
    ensures ChainsOk(hash, bucket', link1[idx := DELMARK], data[idx := FreeLink(0)], chains')
  {
    hide ChainsOk;
    NoDupChain(hash, bucket, link, data, chains, b);
    UnlinkSlot(hash, bucket, link, data, chains, b, j);
    WithoutMembers(chains[b], j);
    assert chains[b][j] in chains[b];
    InOneChain(hash, bucket, link, data, chains, idx, b);
    ChainsFrame(hash, bucket', link1, data, chains', idx, DELMARK, FreeLink(0));
  }

  lemma NoDupChain<V>(hash: seq<Byte> -> nat, bucket: seq<nat>, link: seq<nat>, data: seq<Cell<seq<Byte>, V>>,
                      chains: seq<seq<nat>>, b: nat)
    requires ChainsOk(hash, bucket, link, data, chains) && b < |chains|
    ensures NoDup(chains[b])
  {
    assert IsChain(bucket[b], chains[b], link);
  }

  lemma ErasedSlots<V>(hash: seq<Byte> -> nat, bucket: seq<nat>, link: seq<nat>, data: seq<Cell<seq<Byte>, V>>,
                       chains: seq<seq<nat>>, b: nat, j: nat, idx: nat, link1: seq<nat>, chains': seq<seq<nat>>)
    requires ChainsOk(hash, bucket, link, data, chains) && SlotsOk(hash, link, data, chains, {})
    requires b < |chains| && j < |chains[b]| && idx == chains[b][j] < |data| && (j > 0 ==> chains[b][j - 1] < |link|)
    requires link1 == if j == 0 then link else link[chains[b][j - 1] := link[idx]]
    requires link[idx] != DELMARK && (j > 0 ==> link[chains[b][j - 1]] != DELMARK)
    requires chains' == chains[b := Without(chains[b], j)]
    ensures SlotsOk(hash, link1[idx := DELMARK], data[idx := FreeLink(0)], chains', {})
  {
    hide ChainsOk;
    NoDupChain(hash, bucket, link, data, chains, b);
    WithoutMembers(chains[b], j);
    ChainsShape(hash, bucket, link, data, chains);
    forall s: nat | s < |data| && s != idx && data[s].Elem? ensures s in chains'[Home(hash, data[s].key, |chains|)] {
      assert s in chains[Home(hash, data[s].key, |chains|)];
    }
  }

  lemma JoinHead(f: seq<nat>, g: seq<seq<nat>>, pieces: seq<seq<Byte>>, link: seq<nat>, align: nat, lo: nat, i: nat)
    requires Joining(f, g, pieces, link, align, lo, i)
    ensures forall b :: 0 <= b < |g| ==> f[b] < 0x1_0000_0000
    ensures f[i] == TAIL <==> g[i] == []
    ensures g[i] != [] ==> f[i] == g[i][0]
  {
    forall b | 0 <= b < |g| ensures f[b] < 0x1_0000_0000 {
      assert IsChain(f[b], g[b], Nexts(pieces));
    }
    assert IsChain(f[i], g[i], Nexts(pieces));
  }

  lemma JoinWalk(f: seq<nat>, g: seq<seq<nat>>, pieces: seq<seq<Byte>>, link: seq<nat>, align: nat, lo: nat, i: nat,
                 k: nat)
    requires Joining(f, g, pieces, link, align, lo, i) && k < |g[i]|
    ensures g[i][k] < |pieces| && link[g[i][k]] == DELMARK && |pieces[g[i][k]]| >= 4
      && NextIn(pieces[g[i][k]]) == After(g[i], k)
  {
    assert IsChain(f[i], g[i], Nexts(pieces)) && BelongAt(g[i], i, pieces, link, align, |g|, lo, i) && g[i][k] in g[i];
    LinkFits(f[i], g[i], pieces, align, k);
  }

  lemma SpreadHead(f: seq<nat>, g: seq<seq<nat>>, pieces: seq<seq<Byte>>, link: seq<nat>, align: nat, kept: nat)
    requires Spreading(f, g, pieces, link, align, kept)
    ensures f[|f| - 1] == First(g[|g| - 1])
  {
    assert IsChain(f[|f| - 1], g[|g| - 1], Nexts(pieces));
  }

  lemma SpreadWalk(f: seq<nat>, g: seq<seq<nat>>, pieces: seq<seq<Byte>>, link: seq<nat>, align: nat, kept: nat)
    requires Spreading(f, g, pieces, link, align, kept) && kept < |g[|g| - 1]|
    ensures var c := g[|g| - 1];
            && c[kept] < |pieces| && link[c[kept]] == DELMARK && |pieces[c[kept]]| >= 4
            && NextIn(pieces[c[kept]]) == After(c, kept)
            && (kept > 0 ==>
                  && c[kept - 1] < |pieces| && link[c[kept - 1]] == DELMARK && |pieces[c[kept - 1]]| >= 4
                  && c[kept - 1] != c[kept])
    ensures forall b :: 0 <= b < |g| ==> f[b] < 0x1_0000_0000
    ensures Long(pieces, align)
  {
    var c := g[|g| - 1];
    assert IsChain(f[|g| - 1], c, Nexts(pieces)) && c[kept] in c && (kept > 0 ==> c[kept - 1] in c);
    LinkFits(f[|g| - 1], c, pieces, align, kept);
    forall b | 0 <= b < |g| ensures f[b] < 0x1_0000_0000 {
      assert IsChain(f[b], g[b], Nexts(pieces));
    }
  }

  lemma SpreadUnits(pieces: seq<seq<Byte>>, align: nat, s: nat)
    requires Long(pieces, align) && s < |pieces|
    ensures |pieces[s]| / align >= 1
  {
    WholeUnits(|pieces[s]|, align);
  }

  lemma SpreadEnd(f: seq<nat>, g: seq<seq<nat>>, pieces: seq<seq<Byte>>, link: seq<nat>, align: nat, kept: nat)
    requires Spreading(f, g, pieces, link, align, kept) && kept <= |g[|g| - 1]|
    requires kept < |g[|g| - 1]| ==> g[|g| - 1][kept] == TAIL
    ensures kept == |g[|g| - 1]|
  {
    if kept < |g[|g| - 1]| {
      SpreadWalk(f, g, pieces, link, align, kept);
    }
  }

  /** The table looks at live slots only. */
  lemma LiveSame<V>(pieces: seq<seq<Byte>>, pieces': seq<seq<Byte>>, link: seq<nat>, vals: seq<V>, align: nat)
    requires |link| == |vals| == |pieces| == |pieces'| && KeysOk(pieces, link, align)
    requires forall i :: 0 <= i < |pieces'| && link[i] != DELMARK ==> pieces'[i] == pieces[i]
    ensures KeysOk(pieces', link, align) && Cells(pieces', link, vals) == Cells(pieces, link, vals)
  {
  }

  lemma NoFreePool(pieces: seq<seq<Byte>>, link: seq<nat>, nDeleted: nat, freepool: nat)
    requires Counted(pieces, link, nDeleted, freepool, -1)
    ensures nDeleted == 0 ==> freepool == 0
  {
    if nDeleted == 0 {
      NoneFree(link);
      NoFreeBytes(pieces, link);
    }
  }

  lemma NothingFree(pieces: seq<seq<Byte>>, link: seq<nat>)
    requires |link| == |pieces| && forall i :: 0 <= i < |link| ==> link[i] != DELMARK
    ensures Counted(pieces, link, 0, 0, -1)
  {
    NoneFree(link);
    NoFreeBytes(pieces, link);
  }

  lemma FreeSlots(pieces: seq<seq<Byte>>, link: seq<nat>, nDeleted: nat, freepool: nat)
    requires Counted(pieces, link, nDeleted, freepool, -1)
    ensures FreeCount(link) == nDeleted && forall i :: 0 <= i < |link| && link[i] == DELMARK ==> nDeleted > 0
  {
    NoneFree(link);
  }

  lemma NoneMarked(pieces: seq<seq<Byte>>, link: seq<nat>, nDeleted: nat, freepool: nat)
    requires Counted(pieces, link, nDeleted, freepool, -1)
    ensures nDeleted == 0 ==> freepool == 0 && forall i :: 0 <= i < |link| ==> link[i] != DELMARK
  {
    NoFreePool(pieces, link, nDeleted, freepool);
    NoneFree(link);
  }

  lemma ListsFit(maxKeyLen: nat, align: nat)
    requires 0 < maxKeyLen < 32 * 1024 && 0 < align
    ensures ListCount((maxKeyLen + align - 1) / align + 1)
  {
    var q := (maxKeyLen + align - 1) / align;
    assert q * align <= maxKeyLen + align - 1 < q * align + align;
    P.AtLeast(q, align);
    if q > maxKeyLen {
      P.AtLeast(q - maxKeyLen, align);
    }
  }

  lemma NothingDeleted(pieces: seq<seq<Byte>>, link: seq<nat>, nDeleted: nat, freepool: nat)
    requires Counted(pieces, link, nDeleted, freepool, -1)
    ensures nDeleted > 0 ==> pieces != []
  {
  }

  /** What compaction checks of itself. */
  lemma SqueezedCounts(pieces: seq<seq<Byte>>, link: seq<nat>, nDeleted: nat, freepool: nat)
    requires Counted(pieces, link, nDeleted, freepool, -1)
    ensures |Flat(Live(pieces, link))| + freepool == |Flat(pieces)| && |link| - nDeleted == |Live(pieces, link)|
  {
    LiveBytes(pieces, link);
    LiveCount(pieces, link);
  }

  lemma SqueezedLayout<V>(pieces: seq<seq<Byte>>, link: seq<nat>, vals: seq<V>, align: nat, link': seq<nat>)
    requires |vals| == |link| && Long(pieces, align) && KeysOk(pieces, link, align)
    requires |link'| == |Live(pieces, link)| && forall i :: 0 <= i < |link'| ==> link'[i] != DELMARK
    ensures Long(Live(pieces, link), align) && KeysOk(Live(pieces, link), link', align)
    ensures Counted(Live(pieces, link), link', 0, 0, -1)
    ensures |Live(vals, link)| == |link'| <= |link|
    ensures Cells(Live(pieces, link), link', Live(vals, link)) == Sieve(Cells(pieces, link, vals), KeepAll())
  {
    hide Live;
    LivePieces(pieces, link, x => Whole(|x|, align));
    LivePieces(pieces, link, x => HasKey(x) && Tight(x, align));
    LiveCells(pieces, link, vals, link');
    NothingFree(Live(pieces, link), link');
  }

  lemma {:induction false} NoFreeBytes(pieces: seq<seq<Byte>>, link: seq<nat>)
    requires |link| == |pieces| && forall i :: 0 <= i < |link| ==> link[i] != DELMARK
    ensures FreeBytes(pieces, link) == 0
  {
    if link != [] {
      var k := |link| - 1;
      NoFreeBytes(pieces[..k], link[..k]);
    }
  }

  lemma AppendedCells<V>(pieces: seq<seq<Byte>>, link: seq<nat>, vals: seq<V>, p: seq<Byte>, l: nat, val: V, align: nat)
    requires |link| == |vals| == |pieces| && KeysOk(pieces, link, align) && l != DELMARK && HasKey(p) && Tight(p, align)
    ensures KeysOk(pieces + [p], link + [l], align)
    ensures Cells(pieces + [p], link + [l], vals + [val]) == Cells(pieces, link, vals) + [Elem(KeyIn(p), val)]
  {
  }

  lemma FilledCells<V>(pieces: seq<seq<Byte>>, link: seq<nat>, vals: seq<V>, s: nat, p: seq<Byte>, l: nat, val: V,
                       align: nat)
    requires |link| == |vals| == |pieces| && KeysOk(pieces, link, align) && s < |link| && l != DELMARK && HasKey(p)
      && Tight(p, align)
    ensures KeysOk(pieces[s := p], link[s := l], align)
    ensures Cells(pieces[s := p], link[s := l], vals[s := val]) == Cells(pieces, link, vals)[s := Elem(KeyIn(p), val)]
  {
  }

  lemma AppendedCounts(pieces: seq<seq<Byte>>, link: seq<nat>, nDeleted: nat, freepool: nat, align: nat, p: seq<Byte>,
                       l: nat)
    requires Long(pieces, align) && KeysOk(pieces, link, align) && Counted(pieces, link, nDeleted, freepool, -1)
    requires l != DELMARK && Whole(|p|, align) && HasKey(p) && Tight(p, align)
    ensures Long(pieces + [p], align) && KeysOk(pieces + [p], link + [l], align)
    ensures Counted(pieces + [p], link + [l], nDeleted, freepool, -1)
  {
    FreeAppend(pieces, link, p, l);
  }

  lemma AppendedTable<V>(hash: seq<Byte> -> nat, bucket: seq<nat>, link: seq<nat>, data: seq<Cell<seq<Byte>, V>>,
                         chains: seq<seq<nat>>, key: seq<Byte>, val: V, i: nat)
    requires ChainsOk(hash, bucket, link, data, chains) && SlotsOk(hash, link, data, chains, {}) && UniqueKeys(data, {})
    requires |data| < MAX_LINK && key !in Contents(data, {}) && i == Home(hash, key, |chains|)
    ensures bucket[i] != DELMARK
    ensures var data' := data + [Elem(key, val)];
            && ChainsOk(hash, bucket[i := |data|], link + [bucket[i]], data', chains[i := [|data|] + chains[i]])
            && SlotsOk(hash, link + [bucket[i]], data', chains[i := [|data|] + chains[i]], {})
            && UniqueKeys(data', {}) && Contents(data', {}) == Contents(data, {})[key := val]
  {
    hide UniqueKeys, Contents;
    var data', s := data + [Elem(key, val)], |data|;
    ChainsAppend(hash, bucket, link, data, chains, TAIL, Elem(key, val));
    LinkSlot(hash, bucket, link + [TAIL], data', chains, s);
    assert (link + [TAIL])[s := bucket[i]] == link + [bucket[i]];
    assert IsChain(bucket[i], chains[i], link);
    PutCell(data, data', s);
    var chains' := chains[i := [s] + chains[i]];
    assert forall b, s :: 0 <= b < |chains| && s in chains[b] ==> s in chains'[b];
  }

  lemma FilledCounts(pieces: seq<seq<Byte>>, link: seq<nat>, nDeleted: nat, freepool: nat, align: nat, slot: nat,
                     p: seq<Byte>, l: nat)
    requires Long(pieces, align) && KeysOk(pieces, link, align) && Counted(pieces, link, nDeleted, freepool, slot)
    requires link[slot] == DELMARK && l != DELMARK && |p| == |pieces[slot]| && HasKey(p) && Tight(p, align)
    ensures Long(pieces[slot := p], align) && KeysOk(pieces[slot := p], link[slot := l], align)
    ensures Counted(pieces[slot := p], link[slot := l], nDeleted, freepool, -1)
  {
    FreeSet(pieces, link, slot, l);
    FreeSame(pieces, pieces[slot := p], link[slot := l]);
  }

  /** A free slot becomes the element at the head of its chain. */
  lemma FilledTable<V>(hash: seq<Byte> -> nat, bucket: seq<nat>, link: seq<nat>, data: seq<Cell<seq<Byte>, V>>,
                       chains: seq<seq<nat>>, slot: nat, key: seq<Byte>, val: V, i: nat)
    requires ChainsOk(hash, bucket, link, data, chains) && SlotsOk(hash, link, data, chains, {}) && UniqueKeys(data, {})
    requires slot < |data| <= MAX_LINK && data[slot].FreeLink? && key !in Contents(data, {})
      && i == Home(hash, key, |chains|)
    ensures bucket[i] != DELMARK
    ensures var data' := data[slot := Elem(key, val)];
            && ChainsOk(hash, bucket[i := slot], link[slot := bucket[i]], data', chains[i := [slot] + chains[i]])
            && SlotsOk(hash, link[slot := bucket[i]], data', chains[i := [slot] + chains[i]], {})
            && UniqueKeys(data', {}) && Contents(data', {}) == Contents(data, {})[key := val]
  {
    hide UniqueKeys, Contents;
    var data' := data[slot := Elem(key, val)];
    InNoChain(hash, bucket, link, data, chains, slot);
    ChainsFrame(hash, bucket, link, data, chains, slot, link[slot], Elem(key, val));
    assert link[slot := link[slot]] == link;
    LinkSlot(hash, bucket, link, data', chains, slot);
    assert IsChain(bucket[i], chains[i], link);
    PutCell(data, data', slot);
    var chains' := chains[i := [slot] + chains[i]];
    assert forall b, s :: 0 <= b < |chains| && s in chains[b] ==> s in chains'[b];
  }

  lemma ChainsShape<V>(hash: seq<Byte> -> nat, bucket: seq<nat>, link: seq<nat>, data: seq<Cell<seq<Byte>, V>>,
                       chains: seq<seq<nat>>)
    requires ChainsOk(hash, bucket, link, data, chains)
    ensures |bucket| == |chains| >= 1 && |link| == |data|
  {
  }

  lemma ChainStart<V>(hash: seq<Byte> -> nat, bucket: seq<nat>, link: seq<nat>, data: seq<Cell<seq<Byte>, V>>,
                      chains: seq<seq<nat>>, i: nat)
    requires ChainsOk(hash, bucket, link, data, chains) && i < |chains|
    ensures bucket[i] == First(chains[i])
  {
    assert IsChain(bucket[i], chains[i], link);
  }

  lemma ChainWalk<V>(hash: seq<Byte> -> nat, bucket: seq<nat>, link: seq<nat>, data: seq<Cell<seq<Byte>, V>>,
                     chains: seq<seq<nat>>, i: nat, j: nat)
    requires ChainsOk(hash, bucket, link, data, chains) && i < |chains| && j < |chains[i]|
    ensures chains[i][j] < |data| && data[chains[i][j]].Elem? && link[chains[i][j]] == After(chains[i], j)
  {
    assert IsChain(bucket[i], chains[i], link) && Placed(hash, data, chains[i], i, |chains|)
      && chains[i][j] in chains[i];
  }

  lemma LiveLink(pieces: seq<seq<Byte>>, link: seq<nat>, nDeleted: nat, freepool: nat, s: nat, l: nat, align: nat)
    requires KeysOk(pieces, link, align) && Counted(pieces, link, nDeleted, freepool, -1)
    requires s < |link| && link[s] != DELMARK && l != DELMARK
    ensures KeysOk(pieces, link[s := l], align) && Counted(pieces, link[s := l], nDeleted, freepool, -1)
  {
    FreeSet(pieces, link, s, l);
  }

  lemma HeadNotMark<V>(hash: seq<Byte> -> nat, bucket: seq<nat>, link: seq<nat>, data: seq<Cell<seq<Byte>, V>>,
                       chains: seq<seq<nat>>, link0: seq<nat>, j: nat, i: nat)
    requires RelinkedTo(hash, bucket, link, data, chains, link0, j) && i < |bucket| && |data| <= DELMARK
    ensures bucket[i] != DELMARK
  {
    assert IsChain(bucket[i], chains[i], link);
  }

  lemma RelinkedAll<V>(hash: seq<Byte> -> nat, bucket: seq<nat>, link: seq<nat>, data: seq<Cell<seq<Byte>, V>>,
                       chains: seq<seq<nat>>, link0: seq<nat>)
    requires RelinkedTo(hash, bucket, link, data, chains, link0, |data|)
    ensures ChainsOk(hash, bucket, link, data, chains) && SlotsOk(hash, link, data, chains, {})
  {
  }

  lemma FoundKey<V>(data: seq<Cell<seq<Byte>, V>>, p: nat, key: seq<Byte>)
    requires UniqueKeys(data, {}) && p < |data| && data[p].Elem? && data[p].key == key
    ensures key in Contents(data, {}) && Contents(data, {})[key] == data[p].val
  {
    assert Visible(data, {}, p);
  }

  lemma AbsentKey<V>(hash: seq<Byte> -> nat, link: seq<nat>, data: seq<Cell<seq<Byte>, V>>, chains: seq<seq<nat>>,
                     i: nat, key: seq<Byte>)
    requires |link| == |data| && |chains| >= 1 && SlotsOk(hash, link, data, chains, {}) && UniqueKeys(data, {})
    requires i == Home(hash, key, |chains|)
    requires forall m :: 0 <= m < |chains[i]| ==>
        chains[i][m] < |data| && data[chains[i][m]].Elem? && data[chains[i][m]].key != key
    ensures key !in Contents(data, {})
  {
    forall s: nat | Visible(data, {}, s) && Home(hash, data[s].key, |chains|) == i ensures data[s].key != key {
      assert s in chains[i];
      var m :| 0 <= m < |chains[i]| && chains[i][m] == s;
    }
  }

  lemma UnitIndex(len: nat, align: nat)
    requires Whole(len, align)
    ensures (len - 1) / align == len / align - 1
  {
    var q := len / align;
    assert len == q * align;
    DivBelow(q, align);
  }

  lemma DivBelow(q: nat, d: nat)
    requires d > 0 && q > 0
    ensures (q * d - 1) / d == q - 1
  {
    var x := q * d - 1;
    var a, r := x / d, x % d;
    assert x == a * d + r;
    assert (q - a) * d == r + 1;
    P.AtLeast(q - a - 1, d);
    P.AtLeast(a - q, d);
    assert (q - a) * d == (q - a - 1) * d + d && (a - q) * d == -((q - a) * d);
  }

  lemma TakenCounts(pieces: seq<seq<Byte>>, link: seq<nat>, nDeleted: nat, freepool: nat, s: nat)
    requires Counted(pieces, link, nDeleted, freepool, -1) && s < |link| && link[s] == DELMARK
    ensures nDeleted > 0 && freepool >= |pieces[s]|
    ensures Counted(pieces, link, nDeleted - 1, freepool - |pieces[s]|, s)
  {
    FreeSet(pieces, link, s, 0);
  }

  /** Other bytes in a free slot change neither keys nor counts. */
  lemma RewriteKeeps(pieces: seq<seq<Byte>>, link: seq<nat>, align: nat, nDeleted: nat, freepool: nat, hole: int,
                     s: nat, p: seq<Byte>)
    requires Long(pieces, align) && KeysOk(pieces, link, align) && Counted(pieces, link, nDeleted, freepool, hole)
    requires s < |pieces| && link[s] == DELMARK && |p| == |pieces[s]|
    ensures Long(pieces[s := p], align) && KeysOk(pieces[s := p], link, align)
      && Counted(pieces[s := p], link, nDeleted, freepool, hole)
  {
    FreeSame(pieces, pieces[s := p], link);
  }

  lemma SliceWrite(pool: seq<Byte>, o: nat, e: nat, b: seq<Byte>, p: seq<Byte>, q: seq<Byte>)
    requires o <= e <= |pool| && pool[o..e] == q && |b| <= |q| && p == b + q[|b|..]
    ensures pool[..o] + b + pool[o + |b|..] == pool[..o] + p + pool[e..]
  {
    assert pool[o + |b|..] == q[|b|..] + pool[e..] by {
      assert pool[o + |b|..e] == q[|b|..];
      assert pool[o + |b|..] == pool[o + |b|..e] + pool[e..];
    }
  }
}
