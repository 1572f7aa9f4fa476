/** The LRU list inside the hash table: a ring threaded through the `next` and `prev`
    fields of the cached nodes, whose `next` field doubles as the solve state. */
module LruRing {
  import opened Basics
  import opened HashChains
  import opened HashSlots
  import opened LruProtocol

  const IN_PROGRESS: nat := 0xFFFF_FFFF
  const SOLVE_FAIL: nat := 0xFFFF_FFFE
  const SOLVE_DONE: nat := 0xFFFF_FFFD
  /** The value of `m_lru_head` when the list is empty. */
  const NO_HEAD: nat := 0xFFFF_FFFF

  datatype Node<V> = Node(refcnt: nat, next: nat, prev: nat, val: Option<V>)

  type Cells<K, V> = seq<Cell<K, Node<V>>>

  /** The successor and the predecessor on the ring. */
  function RingNext(ring: seq<nat>, i: nat): nat
    requires i < |ring|
  {
    if i + 1 < |ring| then ring[i + 1] else ring[0]
  }

  function RingPrev(ring: seq<nat>, i: nat): nat
    requires i < |ring|
  {
    if i > 0 then ring[i - 1] else ring[|ring| - 1]
  }

  ghost predicate IsNode<K, V>(data: Cells<K, V>, s: nat) {
    s < |data| && data[s].Elem?
  }

  ghost predicate RingLinked<K, V>(data: Cells<K, V>, ring: seq<nat>) {
    && NoDup(ring)
    && (forall i :: 0 <= i < |ring| ==> IsNode(data, ring[i]))
    && (forall i {:trigger data[ring[i]].val.next} :: 0 <= i < |ring| ==> data[ring[i]].val.next == RingNext(ring, i))
    && (forall i {:trigger data[ring[i]].val.prev} :: 0 <= i < |ring| ==> data[ring[i]].val.prev == RingPrev(ring, i))
  }

  /** Field updates through `Map::val(s)`. */
  function WithNode<K, V>(data: Cells<K, V>, s: nat, node: Node<V>): Cells<K, V>
    requires s < |data| && data[s].Elem?
  {
    data[s := Elem(data[s].key, node)]
  }

  function SetNext<K, V>(data: Cells<K, V>, s: nat, x: nat): Cells<K, V>
    requires s < |data| && data[s].Elem?
  {
    WithNode(data, s, data[s].val.(next := x))
  }

  function SetPrev<K, V>(data: Cells<K, V>, s: nat, x: nat): Cells<K, V>
    requires s < |data| && data[s].Elem?
  {
    WithNode(data, s, data[s].val.(prev := x))
  }

  /** The field writes of `insert_as_new_head`. */
  function Pushed<K, V>(data: Cells<K, V>, head: nat, slot: nat): Cells<K, V>
    requires slot < |data| && data[slot].Elem?
    requires head != NO_HEAD ==>
        head < |data| && data[head].Elem? && data[head].val.prev < |data| && data[data[head].val.prev].Elem?
  {
    if head == NO_HEAD then
      SetPrev(SetNext(data, slot, slot), slot, slot)
    else
      var tail := data[head].val.prev;
      var d1 := SetPrev(SetNext(data, slot, head), slot, tail);
      SetPrev(SetNext(d1, tail, slot), head, slot)
  }

  /** The field writes of `remove_node`. */
  function Removed<K, V>(data: Cells<K, V>, slot: nat): Cells<K, V>
    requires slot < |data| && data[slot].Elem?
    requires data[slot].val.prev < |data| && data[data[slot].val.prev].Elem?
    requires data[slot].val.next < |data| && data[data[slot].val.next].Elem?
  {
    var p, n := data[slot].val.prev, data[slot].val.next;
    var d1 := SetPrev(SetNext(data, p, n), n, p);
    SetNext(SetPrev(d1, slot, SOLVE_DONE), slot, SOLVE_DONE)
  }

  function HeadOf(ring: seq<nat>): nat {
    if |ring| == 0 then NO_HEAD else ring[0]
  }

  /** `insert_as_new_head` prepends. */
  lemma PushLinks<K, V>(data: Cells<K, V>, ring: seq<nat>, slot: nat)
    requires RingLinked(data, ring) && slot < |data| < NO_HEAD && data[slot].Elem? && slot !in ring
    ensures |ring| > 0 ==> IsNode(data, data[ring[0]].val.prev)
    ensures RingLinked(Pushed(data, HeadOf(ring), slot), [slot] + ring)
  {
    var r := [slot] + ring;
    if |ring| > 0 {
      var n := |ring|;
      assert data[ring[0]].val.prev == ring[n - 1];
      var d := Pushed(data, ring[0], slot);
      forall i | 0 <= i < |r|
        ensures IsNode(d, r[i]) && d[r[i]].val.next == RingNext(r, i) && d[r[i]].val.prev == RingPrev(r, i)
      {
        if i > 0 {
          assert r[i] == ring[i - 1] && ring[i - 1] in ring;
          assert data[ring[i - 1]].val.next == RingNext(ring, i - 1)
            && data[ring[i - 1]].val.prev == RingPrev(ring, i - 1);
        }
      }
    }
  }

  /** `remove_node` deletes in place. */
  lemma RemoveLinks<K, V>(data: Cells<K, V>, ring: seq<nat>, j: nat)
    requires RingLinked(data, ring) && j < |ring|
    ensures IsNode(data, data[ring[j]].val.prev) && IsNode(data, data[ring[j]].val.next)
    ensures RingLinked(Removed(data, ring[j]), Without(ring, j))
  {
    var s, n := ring[j], |ring|;
    assert data[ring[j]].val.next == RingNext(ring, j) && data[ring[j]].val.prev == RingPrev(ring, j);
    var d, r := Removed(data, s), Without(ring, j);
    WithoutMembers(ring, j);
    forall i | 0 <= i < |r|
      ensures IsNode(d, r[i]) && d[r[i]].val.next == RingNext(r, i) && d[r[i]].val.prev == RingPrev(r, i)
    {
      var p := if i < j then i else i + 1;
      assert r[i] == ring[p];
      assert data[ring[p]].val.next == RingNext(ring, p) && data[ring[p]].val.prev == RingPrev(ring, p);
    }
  }
}
