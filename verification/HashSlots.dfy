/** What a slot array of `gold_hash_tab` means: which slots are live, which map the
    live slots stand for, and what compaction does to it. */
module HashSlots {

  /** A slot holds a constructed element or, after erasure, the next freelist link
      written over it. */
  datatype Cell<K, V> = Elem(key: K, val: V) | FreeLink(next: nat)

  /** `s` is reachable through the table: constructed and not taken out by `risk_unlink`. */
  ghost predicate Visible<K, V>(data: seq<Cell<K, V>>, unlinked: set<nat>, s: nat) {
    s < |data| && data[s].Elem? && s !in unlinked
  }

  ghost predicate UniqueKeys<K, V>(data: seq<Cell<K, V>>, unlinked: set<nat>) {
    forall s: nat, t: nat :: Visible(data, unlinked, s) && Visible(data, unlinked, t) && s != t
      ==> data[s].key != data[t].key
  }

  ghost function VisibleKeys<K, V>(data: seq<Cell<K, V>>, unlinked: set<nat>): set<K> {
    set s: nat | s < |data| && Visible(data, unlinked, s) :: data[s].key
  }

  ghost function SlotOf<K, V>(data: seq<Cell<K, V>>, unlinked: set<nat>, k: K): (s: nat)
    requires k in VisibleKeys(data, unlinked)
    ensures Visible(data, unlinked, s) && data[s].key == k
  {
    var s: nat :| s < |data| && Visible(data, unlinked, s) && data[s].key == k;
    s
  }

  /** The finite map a table with unique keys stands for. */
  ghost function Contents<K, V>(data: seq<Cell<K, V>>, unlinked: set<nat>): (m: map<K, V>)
    requires UniqueKeys(data, unlinked)
    ensures forall s: nat :: Visible(data, unlinked, s) ==> data[s].key in m && m[data[s].key] == data[s].val
    ensures forall k :: k in m ==> exists s: nat :: Visible(data, unlinked, s) && data[s].key == k
  {
    map k | k in VisibleKeys(data, unlinked) :: data[SlotOf(data, unlinked, k)].val
  }

  lemma ContentsEmpty<K, V>()
    ensures UniqueKeys<K, V>([], {}) && Contents<K, V>([], {}) == map[]
  {
    assert VisibleKeys<K, V>([], {}) == {};
  }

  /** Constructing an element in a slot that was not visible adds one binding. */
  lemma ContentsPut<K, V>(data: seq<Cell<K, V>>, u: set<nat>, data': seq<Cell<K, V>>, u': set<nat>, s: nat)
    requires UniqueKeys(data, u)
    requires Visible(data', u', s) && !Visible(data, u, s)
    requires forall t: nat :: t != s ==> (Visible(data, u, t) <==> Visible(data', u', t))
    requires forall t: nat :: Visible(data, u, t) ==> t < |data'| && data'[t] == data[t] && data[t].key != data'[s].key
    ensures UniqueKeys(data', u')
    ensures Contents(data', u') == Contents(data, u)[data'[s].key := data'[s].val]
  {
    var m, m' := Contents(data, u), Contents(data', u');
    forall k | k in m' ensures k in m[data'[s].key := data'[s].val] && m'[k] == m[data'[s].key := data'[s].val][k] {
      var t: nat :| Visible(data', u', t) && data'[t].key == k;
    }
    forall k | k in m ensures k in m' {
      var t: nat :| Visible(data, u, t) && data[t].key == k;
      assert Visible(data', u', t);
    }
  }

  /** The two ways a slot is taken for a new element: over a free link, or at the end. */
  lemma PutCell<K, V>(data: seq<Cell<K, V>>, data': seq<Cell<K, V>>, s: nat)
    requires UniqueKeys(data, {})
    requires s < |data'| && data'[s].Elem? && data'[s].key !in Contents(data, {})
    requires if s < |data| then data[s].FreeLink? && data' == data[s := data'[s]] else data' == data + [data'[s]]
    ensures UniqueKeys(data', {})
    ensures Contents(data', {}) == Contents(data, {})[data'[s].key := data'[s].val]
  {
    assert forall t: nat :: t < |data| && t != s ==> data'[t] == data[t];
    ContentsPut(data, {}, data', {}, s);
  }

  /** Hiding or destroying one visible slot removes its binding. */
  lemma ContentsTake<K, V>(data: seq<Cell<K, V>>, u: set<nat>, data': seq<Cell<K, V>>, u': set<nat>, s: nat)
    requires UniqueKeys(data, u)
    requires Visible(data, u, s) && !Visible(data', u', s)
    requires forall t: nat :: t != s ==> (Visible(data, u, t) <==> Visible(data', u', t))
    requires forall t: nat :: Visible(data', u', t) ==> data'[t] == data[t]
    ensures UniqueKeys(data', u')
    ensures Contents(data', u') == Contents(data, u) - {data[s].key}
  {
    var m, m' := Contents(data, u), Contents(data', u');
    forall k | k in m' ensures k in m && k != data[s].key && m'[k] == m[k] {
      var t: nat :| Visible(data', u', t) && data'[t].key == k;
      assert Visible(data, u, t);
    }
    forall k | k in m && k != data[s].key ensures k in m' {
      var t: nat :| Visible(data, u, t) && data[t].key == k;
      assert Visible(data', u', t);
    }
  }

  /** Which constructed elements an operation keeps. */
  predicate Keeps<K, V>(keep: (K, V) -> bool, c: Cell<K, V>) {
    c.Elem? && keep(c.key, c.val)
  }

  /** The elements that satisfy `keep`, in slot order. */
  function Sieve<K, V>(data: seq<Cell<K, V>>, keep: (K, V) -> bool): (r: seq<Cell<K, V>>)
    ensures |r| <= |data|
  {
    if |data| == 0 then []
    else
      var last := data[|data| - 1];
      Sieve(data[..|data| - 1], keep) + (if Keeps(keep, last) then [last] else [])
  }

  function KeepAll<K, V>(): (K, V) -> bool {
    (k, v) => true
  }

  lemma {:induction false} SieveMembers<K, V>(data: seq<Cell<K, V>>, keep: (K, V) -> bool)
    ensures forall i :: 0 <= i < |Sieve(data, keep)| ==>
        Keeps(keep, Sieve(data, keep)[i]) && Sieve(data, keep)[i] in data
  {
    if |data| > 0 {
      SieveMembers(data[..|data| - 1], keep);
    }
  }

  lemma SieveIsLive<K, V>(data: seq<Cell<K, V>>, keep: (K, V) -> bool)
    ensures forall s: nat :: s < |Sieve(data, keep)| ==> Sieve(data, keep)[s].Elem?
  {
    SieveMembers(data, keep);
  }

  lemma SieveStep<K, V>(data: seq<Cell<K, V>>, keep: (K, V) -> bool, n: nat)
    requires n < |data|
    ensures Sieve(data[..n + 1], keep) == Sieve(data[..n], keep) + (if Keeps(keep, data[n]) then [data[n]] else [])
  {
    assert data[..n + 1][..n] == data[..n];
  }

  lemma {:induction false} SieveHasAll<K, V>(data: seq<Cell<K, V>>, keep: (K, V) -> bool, c: Cell<K, V>)
    requires c in data && Keeps(keep, c)
    ensures c in Sieve(data, keep)
  {
    var n := |data| - 1;
    if data[n] != c {
      assert c in data[..n];
      SieveHasAll(data[..n], keep, c);
    }
  }

  lemma {:induction false} SieveAllLive<K, V>(data: seq<Cell<K, V>>, keep: (K, V) -> bool)
    requires forall i :: 0 <= i < |data| ==> Keeps(keep, data[i])
    ensures Sieve(data, keep) == data
  {
    if |data| > 0 {
      SieveAllLive(data[..|data| - 1], keep);
      assert data == data[..|data| - 1] + [data[|data| - 1]];
    }
  }

  lemma UniquePrefix<K, V>(data: seq<Cell<K, V>>, n: nat)
    requires n <= |data| && UniqueKeys(data, {})
    ensures UniqueKeys(data[..n], {})
  {
    forall s: nat, t: nat | Visible(data[..n], {}, s) && Visible(data[..n], {}, t) && s != t
      ensures data[..n][s].key != data[..n][t].key
    {
      assert Visible(data, {}, s) && Visible(data, {}, t);
    }
  }

  lemma {:induction false} SieveUnique<K, V>(data: seq<Cell<K, V>>, keep: (K, V) -> bool)
    requires UniqueKeys(data, {})
    ensures UniqueKeys(Sieve(data, keep), {})
  {
    if |data| > 0 {
      var n := |data| - 1;
      var r := Sieve(data[..n], keep);
      SieveMembers(data[..n], keep);
      UniquePrefix(data, n);
      SieveUnique(data[..n], keep);
      if Keeps(keep, data[n]) {
        forall s: nat | Visible(r, {}, s) ensures r[s].key != data[n].key {
          assert r[s] in data[..n];
          var t: nat :| t < n && data[..n][t] == r[s];
          assert Visible(data, {}, t) && Visible(data, {}, n);
        }
        forall s: nat, t: nat | Visible(r + [data[n]], {}, s) && Visible(r + [data[n]], {}, t) && s != t
          ensures (r + [data[n]])[s].key != (r + [data[n]])[t].key
        {
          assert s < |r| ==> Visible(r, {}, s);
          assert t < |r| ==> Visible(r, {}, t);
        }
      }
    }
  }

  lemma SieveSound<K, V>(data: seq<Cell<K, V>>, keep: (K, V) -> bool, k: K)
    requires UniqueKeys(data, {}) && UniqueKeys(Sieve(data, keep), {})
    requires k in Contents(Sieve(data, keep), {})
    ensures k in Contents(data, {}) && keep(k, Contents(data, {})[k])
    ensures Contents(data, {})[k] == Contents(Sieve(data, keep), {})[k]
  {
    var r := Sieve(data, keep);
    SieveMembers(data, keep);
    var s: nat :| Visible(r, {}, s) && r[s].key == k;
    assert r[s] in data;
    var t: nat :| t < |data| && data[t] == r[s];
    assert Visible(data, {}, t);
  }

  lemma SieveComplete<K, V>(data: seq<Cell<K, V>>, keep: (K, V) -> bool, k: K)
    requires UniqueKeys(data, {}) && UniqueKeys(Sieve(data, keep), {})
    requires k in Contents(data, {}) && keep(k, Contents(data, {})[k])
    ensures k in Contents(Sieve(data, keep), {})
  {
    var t: nat :| Visible(data, {}, t) && data[t].key == k;
    SieveHasAll(data, keep, data[t]);
    var r := Sieve(data, keep);
    var s: nat :| s < |r| && r[s] == data[t];
    assert Visible(r, {}, s);
  }

  ghost function Restricted<K, V>(m: map<K, V>, keep: (K, V) -> bool): map<K, V> {
    map k | k in m && keep(k, m[k]) :: m[k]
  }

  /** Compaction preserves meaning: the kept elements are exactly the kept bindings. */
  lemma SieveContents<K, V>(data: seq<Cell<K, V>>, keep: (K, V) -> bool)
    requires UniqueKeys(data, {})
    ensures UniqueKeys(Sieve(data, keep), {})
    ensures Contents(Sieve(data, keep), {}) == Restricted(Contents(data, {}), keep)
  {
    SieveUnique(data, keep);
    var m, m' := Restricted(Contents(data, {}), keep), Contents(Sieve(data, keep), {});
    forall k | k in m' ensures k in m && m'[k] == m[k] {
      SieveSound(data, keep, k);
    }
    forall k | k in m ensures k in m' {
      SieveComplete(data, keep, k);
    }
  }

  /** Squeezing out the erased slots keeps the map. */
  lemma CompactionKeepsMap<K, V>(data: seq<Cell<K, V>>)
    requires UniqueKeys(data, {})
    ensures UniqueKeys(Sieve(data, KeepAll()), {})
    ensures Contents(Sieve(data, KeepAll()), {}) == Contents(data, {})
  {
    SieveContents(data, KeepAll());
    assert Restricted(Contents(data, {}), KeepAll()) == Contents(data, {});
  }

  /** Filtering after compaction is filtering once. */
  lemma {:induction false} SieveTwice<K, V>(data: seq<Cell<K, V>>, keep: (K, V) -> bool)
    ensures Sieve(Sieve(data, KeepAll()), keep) == Sieve(data, keep)
  {
    if |data| > 0 {
      var n := |data| - 1;
      SieveTwice(data[..n], keep);
      var r := Sieve(data[..n], KeepAll());
      if data[n].Elem? {
        assert Sieve(data, KeepAll()) == r + [data[n]];
        assert (r + [data[n]])[..|r|] == r;
      } else {
        assert Sieve(data, KeepAll()) == r;
      }
    }
  }

  /** Overwriting one visible element by a free link removes its binding. */
  lemma TakeCell<K, V>(data: seq<Cell<K, V>>, s: nat, next: nat)
    requires UniqueKeys(data, {}) && s < |data| && data[s].Elem?
    ensures UniqueKeys(data[s := FreeLink(next)], {})
    ensures Contents(data[s := FreeLink(next)], {}) == Contents(data, {}) - {data[s].key}
  {
    ContentsTake(data, {}, data[s := FreeLink(next)], {}, s);
  }

  /** Erasing in place exactly the elements that fail `keep` filters the map. */
  lemma ErasedInPlace<K, V>(data: seq<Cell<K, V>>, data': seq<Cell<K, V>>, keep: (K, V) -> bool)
    requires UniqueKeys(data, {}) && |data'| == |data|
    requires forall s: nat :: s < |data| ==> if Keeps(keep, data[s]) then data'[s] == data[s] else data'[s].FreeLink?
    ensures UniqueKeys(data', {})
    ensures Contents(data', {}) == Restricted(Contents(data, {}), keep)
  {
    forall s: nat, t: nat | Visible(data', {}, s) && Visible(data', {}, t) && s != t
      ensures data'[s].key != data'[t].key
    {
      assert Visible(data, {}, s) && Visible(data, {}, t);
    }
    var m, m' := Restricted(Contents(data, {}), keep), Contents(data', {});
    forall k | k in m' ensures k in m && m'[k] == m[k] {
      var s: nat :| Visible(data', {}, s) && data'[s].key == k;
      assert Visible(data, {}, s);
    }
    forall k | k in m ensures k in m' {
      var s: nat :| Visible(data, {}, s) && data[s].key == k;
      assert Visible(data', {}, s);
    }
  }

  lemma {:induction false} SieveSameLength<K, V>(data: seq<Cell<K, V>>, keep: (K, V) -> bool)
    requires |Sieve(data, keep)| == |data|
    ensures Sieve(data, keep) == data
    ensures forall s: nat :: s < |data| ==> data[s].Elem?
  {
    if |data| > 0 {
      SieveSameLength(data[..|data| - 1], keep);
      assert data == data[..|data| - 1] + [data[|data| - 1]];
    }
  }
}
