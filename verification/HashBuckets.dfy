/** The collision lists of `gold_hash_tab` as a whole: one chain per bucket, every
    slot in the chain of its hash, and what each piece of link surgery does to them. */
module HashBuckets {
  import opened HashSizing
  import opened HashChains
  import opened HashSlots

  function Home<K>(hash: K -> nat, key: K, nBucket: nat): (b: nat)
    requires 0 < nBucket
    ensures b < nBucket
  {
    hash(key) % nBucket
  }

  ghost predicate Placed<K, V>(hash: K -> nat, data: seq<Cell<K, V>>, chain: seq<nat>, b: nat, nBucket: nat)
    requires 0 < nBucket
  {
    forall s :: s in chain ==> s < |data| && data[s].Elem? && Home(hash, data[s].key, nBucket) == b
  }

  /** Each bucket heads a finite chain of constructed slots that hash to it. */
  ghost predicate ChainsOk<K, V>(hash: K -> nat, bucket: seq<nat>, link: seq<nat>, data: seq<Cell<K, V>>,
                                 chains: seq<seq<nat>>) {
    && |bucket| == |chains| >= 1
    && |link| == |data|
    && (forall b :: 0 <= b < |chains| ==> IsChain(bucket[b], chains[b], link))
    && (forall b :: 0 <= b < |chains| ==> Placed(hash, data, chains[b], b, |chains|))
  }

  /** The freelist: its slots are marked deleted and hold the links themselves. */
  ghost predicate FreeOk<K, V>(head: nat, link: seq<nat>, data: seq<Cell<K, V>>, free: seq<nat>) {
    && |link| == |data|
    && head == First(free)
    && NoDup(free)
    && (forall j :: 0 <= j < |free| ==> free[j] < |link|)
    && (forall j {:trigger data[free[j]]} :: 0 <= j < |free| ==> data[free[j]] == FreeLink(After(free, j)))
    && (forall s: nat :: s < |link| ==> (s in free <==> data[s].FreeLink?))
  }

  /** Every slot is free, linked into the chain of its hash, or unlinked. */
  ghost predicate SlotsOk<K, V>(hash: K -> nat, link: seq<nat>, data: seq<Cell<K, V>>, chains: seq<seq<nat>>,
                                unlinked: set<nat>)
    requires |link| == |data| && |chains| >= 1
  {
    && (forall s: nat :: s < |data| ==> (data[s].FreeLink? <==> link[s] == DELMARK))
    && (forall s: nat :: s < |data| && data[s].Elem? ==>
          (s in unlinked <==> s !in chains[Home(hash, data[s].key, |chains|)]))
    && (forall s :: s in unlinked ==> s < |data| && data[s].Elem?)
  }

  /** Chains of different buckets never share a slot. */
  lemma ChainsDisjoint<K, V>(hash: K -> nat, bucket: seq<nat>, link: seq<nat>, data: seq<Cell<K, V>>,
                             chains: seq<seq<nat>>, b: nat, c: nat, s: nat)
    requires ChainsOk(hash, bucket, link, data, chains)
    requires b < |chains| && c < |chains| && s in chains[b] && s in chains[c]
    ensures b == c
  {
    assert Placed(hash, data, chains[b], b, |chains|);
    assert Placed(hash, data, chains[c], c, |chains|);
  }

  /** Hooking a constructed slot in front of the chain of its hash. */
  lemma LinkSlot<K, V>(hash: K -> nat, bucket: seq<nat>, link: seq<nat>, data: seq<Cell<K, V>>, chains: seq<seq<nat>>,
                       s: nat)
    requires ChainsOk(hash, bucket, link, data, chains)
    requires s < |data| && data[s].Elem? && s !in chains[Home(hash, data[s].key, |chains|)]
    ensures var h := Home(hash, data[s].key, |chains|);
      ChainsOk(hash, bucket[h := s], link[s := bucket[h]], data, chains[h := [s] + chains[h]])
  {
    var h := Home(hash, data[s].key, |chains|);
    var link', bucket', chains' := link[s := bucket[h]], bucket[h := s], chains[h := [s] + chains[h]];
    forall b | 0 <= b < |chains| ensures IsChain(bucket'[b], chains'[b], link') {
      assert IsChain(bucket[b], chains[b], link);
      if b == h {
        ChainPush(bucket[h], chains[h], link, s);
      } else {
        assert Placed(hash, data, chains[b], b, |chains|);
        ChainFrame(bucket[b], chains[b], link, s, bucket[h]);
      }
    }
    assert forall b :: 0 <= b < |chains| && b != h ==> chains'[b] == chains[b];
    assert Placed(hash, data, chains[h], h, |chains|);
  }

  /** Unhooking the `j`-th slot of bucket `b`. */
  lemma UnlinkSlot<K, V>(hash: K -> nat, bucket: seq<nat>, link: seq<nat>, data: seq<Cell<K, V>>, chains: seq<seq<nat>>,
                         b: nat, j: nat)
    requires ChainsOk(hash, bucket, link, data, chains)
    requires b < |chains| && j < |chains[b]|
    ensures forall i :: 0 <= i < |chains[b]| ==> chains[b][i] < |link|
    ensures var c := chains[b];
      if j == 0
      then ChainsOk(hash, bucket[b := link[c[0]]], link, data, chains[b := Without(c, 0)])
      else ChainsOk(hash, bucket, link[c[j - 1] := link[c[j]]], data, chains[b := Without(c, j)])
  {
    var c := chains[b];
    assert IsChain(bucket[b], c, link);
    ChainRemove(bucket[b], c, link, j);
    WithoutMembers(c, j);
    var chains' := chains[b := Without(c, j)];
    if 0 < j {
      var link' := link[c[j - 1] := link[c[j]]];
      forall d | 0 <= d < |chains| ensures IsChain(bucket[d], chains'[d], link') {
        assert IsChain(bucket[d], chains[d], link);
        if d != b {
          assert Placed(hash, data, chains[d], d, |chains|) && Placed(hash, data, c, b, |chains|);
          assert c[j - 1] in c;
          ChainFrame(bucket[d], chains[d], link, c[j - 1], link[c[j]]);
        }
      }
    }
    assert Placed(hash, data, c, b, |chains|);
    forall d | 0 <= d < |chains| ensures Placed(hash, data, chains'[d], d, |chains|) {
      assert Placed(hash, data, chains[d], d, |chains|);
    }
  }

  /** Overwriting a slot that no chain holds. */
  lemma ChainsFrame<K, V>(hash: K -> nat, bucket: seq<nat>, link: seq<nat>, data: seq<Cell<K, V>>,
                          chains: seq<seq<nat>>, s: nat, l: nat, cell: Cell<K, V>)
    requires ChainsOk(hash, bucket, link, data, chains)
    requires s < |data| && forall b :: 0 <= b < |chains| ==> s !in chains[b]
    ensures ChainsOk(hash, bucket, link[s := l], data[s := cell], chains)
  {
    forall b | 0 <= b < |chains|
      ensures IsChain(bucket[b], chains[b], link[s := l])
      ensures Placed(hash, data[s := cell], chains[b], b, |chains|)
    {
      assert IsChain(bucket[b], chains[b], link) && Placed(hash, data, chains[b], b, |chains|);
      ChainFrame(bucket[b], chains[b], link, s, l);
    }
  }

  /** Appending a fresh slot at the end of the node array. */
  lemma ChainsAppend<K, V>(hash: K -> nat, bucket: seq<nat>, link: seq<nat>, data: seq<Cell<K, V>>,
                           chains: seq<seq<nat>>, l: nat, cell: Cell<K, V>)
    requires ChainsOk(hash, bucket, link, data, chains)
    ensures ChainsOk(hash, bucket, link + [l], data + [cell], chains)
    ensures forall b :: 0 <= b < |chains| ==> |data| !in chains[b]
  {
    forall b | 0 <= b < |chains|
      ensures IsChain(bucket[b], chains[b], link + [l])
      ensures Placed(hash, data + [cell], chains[b], b, |chains|)
    {
      assert IsChain(bucket[b], chains[b], link) && Placed(hash, data, chains[b], b, |chains|);
    }
    forall b | 0 <= b < |chains| ensures |data| !in chains[b] {
      assert Placed(hash, data, chains[b], b, |chains|);
    }
  }

  /** A slot outside the chain of its own hash is in no chain at all. */
  lemma InNoChain<K, V>(hash: K -> nat, bucket: seq<nat>, link: seq<nat>, data: seq<Cell<K, V>>, chains: seq<seq<nat>>,
                        s: nat)
    requires ChainsOk(hash, bucket, link, data, chains) && s < |data|
    requires data[s].Elem? ==> s !in chains[Home(hash, data[s].key, |chains|)]
    ensures forall b :: 0 <= b < |chains| ==> s !in chains[b]
  {
    forall b | 0 <= b < |chains| ensures s !in chains[b] {
      assert Placed(hash, data, chains[b], b, |chains|);
    }
  }

  /** Pushing an erased slot on the freelist. */
  lemma FreePush<K, V>(head: nat, link: seq<nat>, data: seq<Cell<K, V>>, free: seq<nat>, s: nat)
    requires FreeOk(head, link, data, free) && s < |data| && data[s].Elem?
    ensures FreeOk(s, link[s := DELMARK], data[s := FreeLink(head)], [s] + free)
  {
    var f := [s] + free;
    var data' := data[s := FreeLink(head)];
    forall j | 0 <= j < |f| ensures f[j] < |link| && data'[f[j]] == FreeLink(After(f, j)) {
      if 0 < j {
        assert f[j] == free[j - 1] && data[free[j - 1]] == FreeLink(After(free, j - 1));
        assert free[j - 1] in free;
      }
    }
  }

  /** Popping the freelist head for reuse. */
  lemma FreePop<K, V>(head: nat, link: seq<nat>, data: seq<Cell<K, V>>, free: seq<nat>, l: nat, cell: Cell<K, V>)
    requires FreeOk(head, link, data, free) && |free| > 0 && cell.Elem?
    ensures head < |data| && data[head].FreeLink?
    ensures FreeOk(data[head].next, link[head := l], data[head := cell], free[1..])
  {
    var f := free[1..];
    assert free[0] == head;
    assert data[free[0]] == FreeLink(After(free, 0));
    var data' := data[head := cell];
    forall j | 0 <= j < |f| ensures f[j] < |link| && data'[f[j]] == FreeLink(After(f, j)) {
      assert f[j] == free[j + 1] && data[free[j + 1]] == FreeLink(After(free, j + 1));
    }
    forall s: nat | s < |link| ensures s in f <==> data'[s].FreeLink? {
      assert s in free <==> s == head || s in f;
    }
  }

  /** Loop state of `relink`: slots below `j` are done, the others untouched. */
  ghost predicate RelinkedTo<K, V>(hash: K -> nat, bucket: seq<nat>, link: seq<nat>, data: seq<Cell<K, V>>,
                                   chains: seq<seq<nat>>, link0: seq<nat>, j: nat)
  {
    && ChainsOk(hash, bucket, link, data, chains)
    && j <= |data| == |link0|
    && (forall s: nat :: j <= s < |data| ==> link[s] == link0[s])
    && (forall b, s :: 0 <= b < |chains| && s in chains[b] ==> s < j)
    && (forall s: nat :: s < j ==> (data[s].FreeLink? <==> link[s] == DELMARK))
    && (forall s: nat :: s < j && data[s].Elem? ==> s in chains[Home(hash, data[s].key, |chains|)])
  }

  lemma RelinkStart<K, V>(hash: K -> nat, bucket: seq<nat>, link: seq<nat>, data: seq<Cell<K, V>>,
                          chains: seq<seq<nat>>)
    requires |bucket| == |chains| >= 1 && |link| == |data|
    requires forall b :: 0 <= b < |chains| ==> bucket[b] == TAIL && chains[b] == []
    ensures RelinkedTo(hash, bucket, link, data, chains, link, 0)
  {
  }

  lemma RelinkStep<K, V>(hash: K -> nat, bucket: seq<nat>, link: seq<nat>, data: seq<Cell<K, V>>, chains: seq<seq<nat>>,
                         link0: seq<nat>, j: nat)
    requires RelinkedTo(hash, bucket, link, data, chains, link0, j)
    requires j < |data| <= DELMARK && data[j].Elem?
    ensures var h := Home(hash, data[j].key, |chains|);
      RelinkedTo(hash, bucket[h := j], link[j := bucket[h]], data, chains[h := [j] + chains[h]], link0, j + 1)
  {
    var h := Home(hash, data[j].key, |chains|);
    assert j !in chains[h];
    LinkSlot(hash, bucket, link, data, chains, j);
    assert IsChain(bucket[h], chains[h], link);
    var chains' := chains[h := [j] + chains[h]];
    assert forall b, s :: 0 <= b < |chains| && s in chains[b] ==> s in chains'[b];
  }

  lemma InOneChain<K, V>(hash: K -> nat, bucket: seq<nat>, link: seq<nat>, data: seq<Cell<K, V>>, chains: seq<seq<nat>>,
                         s: nat, b: nat)
    requires ChainsOk(hash, bucket, link, data, chains)
    requires b < |chains| && s in chains[b]
    ensures forall c :: 0 <= c < |chains| && c != b ==> s !in chains[c]
  {
    forall c | 0 <= c < |chains| && c != b ensures s !in chains[c] {
      if s in chains[c] {
        ChainsDisjoint(hash, bucket, link, data, chains, b, c, s);
      }
    }
  }

  /** Rerouting a predecessor never sets or clears a delete mark. */
  lemma UnlinkKeepsMarks<K, V>(link: seq<nat>, data: seq<Cell<K, V>>, c: seq<nat>, j: nat)
    requires |link| == |data| <= DELMARK && IsChain(First(c), c, link) && j < |c|
    requires forall s: nat :: s < |data| ==> (data[s].FreeLink? <==> link[s] == DELMARK)
    ensures 0 < j ==> forall s: nat :: s < |data| ==>
        (data[s].FreeLink? <==> link[c[j - 1] := link[c[j]]][s] == DELMARK)
  {
    if 0 < j {
      assert link[c[j]] == After(c, j);
      assert link[c[j - 1]] == After(c, j - 1);
    }
  }

  /** When the freelist is as long as the node array, every bucket is empty. */
  lemma AllFree<K, V>(hash: K -> nat, bucket: seq<nat>, link: seq<nat>, data: seq<Cell<K, V>>, chains: seq<seq<nat>>,
                      free: seq<nat>)
    requires ChainsOk(hash, bucket, link, data, chains)
    requires FreeOk(First(free), link, data, free) && |data| <= |free|
    ensures forall b :: 0 <= b < |chains| ==> chains[b] == [] && bucket[b] == TAIL
  {
    NoDupFits(free, |data|);
    NoDupCovers(free, |data|);
    forall b | 0 <= b < |chains| ensures chains[b] == [] && bucket[b] == TAIL {
      assert IsChain(bucket[b], chains[b], link) && Placed(hash, data, chains[b], b, |chains|);
      SomeMember(chains[b]);
    }
  }

  lemma SameKeysKeepChains<K, V>(hash: K -> nat, bucket: seq<nat>, link: seq<nat>, data: seq<Cell<K, V>>,
                                 chains: seq<seq<nat>>, s: nat, v: V)
    requires ChainsOk(hash, bucket, link, data, chains) && s < |data| && data[s].Elem?
    ensures ChainsOk(hash, bucket, link, data[s := Elem(data[s].key, v)], chains)
  {
    forall b | 0 <= b < |chains| ensures Placed(hash, data[s := Elem(data[s].key, v)], chains[b], b, |chains|) {
      assert Placed(hash, data, chains[b], b, |chains|);
    }
  }

  lemma FreeOkEmpty<K, V>(link: seq<nat>, data: seq<Cell<K, V>>)
    requires |link| == |data| && forall s: nat :: s < |data| ==> data[s].Elem?
    ensures FreeOk(TAIL, link, data, [])
  {
  }

  lemma EmptyOk<K, V>(hash: K -> nat)
    ensures ChainsOk<K, V>(hash, [TAIL], [], [], [[]])
    ensures FreeOk<K, V>(TAIL, [], [], [])
    ensures SlotsOk<K, V>(hash, [], [], [[]], {})
  {
  }

  lemma RelinkNext<K, V>(hash: K -> nat, bucket: seq<nat>, link: seq<nat>, data: seq<Cell<K, V>>, chains: seq<seq<nat>>,
                         link0: seq<nat>, j: nat)
    requires RelinkedTo(hash, bucket, link, data, chains, link0, j) && j < |data|
    ensures |link| == |data| == |link0| && |bucket| == |chains| && link[j] == link0[j]
    ensures data[j].FreeLink? && link[j] == DELMARK ==> RelinkedTo(hash, bucket, link, data, chains, link0, j + 1)
  {
  }

  lemma RelinkDone<K, V>(hash: K -> nat, bucket: seq<nat>, link: seq<nat>, data: seq<Cell<K, V>>, chains: seq<seq<nat>>,
                         link0: seq<nat>, head: nat, free: seq<nat>)
    requires RelinkedTo(hash, bucket, link, data, chains, link0, |data|) && FreeOk(head, link0, data, free)
    ensures ChainsOk(hash, bucket, link, data, chains) && FreeOk(head, link, data, free)
      && SlotsOk(hash, link, data, chains, {})
  {
  }
}
