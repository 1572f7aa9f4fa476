/** Ranges of equal comparison in a sorted string map. */
module StrRange {
  import opened Basics
  import opened HashSlots
  import opened StrSearch
  import opened StrTable

  /** The result of comparing each key. */
  ghost function Signs<V>(data: seq<Cell<seq<Byte>, V>>, key: seq<Byte>, comp3: Compare): (s: seq<int>)
    requires InOrder(data)
    ensures |s| == |data| && forall i :: 0 <= i < |s| ==> s[i] == comp3(data[i].key, key)
  {
    seq(|data|, i requires 0 <= i < |data| => comp3(data[i].key, key))
  }

  lemma SignsRise<V>(data: seq<Cell<seq<Byte>, V>>, key: seq<Byte>, plen: nat)
    requires InOrder(data)
    ensures Rising(Signs(data, key, ByPrefix(plen)))
  {
    forall i, j | 0 <= i < j < |data|
      ensures Compare3(data[j].key, key, plen) < 0 ==> Compare3(data[i].key, key, plen) < 0
      ensures Compare3(data[j].key, key, plen) <= 0 ==> Compare3(data[i].key, key, plen) <= 0
    {
      Compare3Ascends(data[i].key, data[j].key, key, plen);
    }
  }

  /** One sign says something about all others. */
  lemma SignSays(s: seq<int>, m: nat)
    requires Rising(s) && m < |s|
    ensures s[m] < 0 ==> forall i :: 0 <= i <= m ==> s[i] < 0
    ensures s[m] <= 0 ==> forall i :: 0 <= i <= m ==> s[i] <= 0
    ensures s[m] >= 0 ==> forall i :: m <= i < |s| ==> s[i] >= 0
    ensures s[m] > 0 ==> forall i :: m <= i < |s| ==> s[i] > 0
  {
  }

  /** The two ends meet the same range, also when no probe has hit. */
  lemma BothEnds(s: seq<int>, lo0: nat, hi0: nat, mid0: nat, lo: nat, hi: nat)
    requires lo0 <= hi0 <= |s| && (lo0 < hi0 ==> mid0 < hi0 && forall i :: mid0 <= i < |s| ==> s[i] >= 0)
    requires (forall i :: 0 <= i < lo0 ==> s[i] < 0) && (forall i :: hi0 <= i < |s| ==> s[i] > 0)
    requires lo0 <= lo <= |s| && (forall i :: 0 <= i < lo ==> s[i] < 0) && (mid0 <= lo0 ==> lo == lo0)
    requires (lo0 < mid0 ==> lo <= mid0) && (lo0 < mid0 ==> forall i :: lo <= i < |s| ==> s[i] >= 0)
    requires mid0 <= hi <= hi0 && (forall i :: 0 <= i < hi ==> s[i] <= 0) && forall i :: hi <= i < |s| ==> s[i] > 0
    ensures PartedAt(s, lo, hi)
  {
    // Above `hi` signs are positive, below `lo` negative: the sign at `hi` shows `lo <= hi`.
    var atHi := if hi < |s| then s[hi] else 0;
  }

  /** The range holds the keys that begin with `prefix` and no others. */
  ghost predicate ExactRange<V>(data: seq<Cell<seq<Byte>, V>>, prefix: seq<Byte>, lo: nat, hi: nat) {
    forall i :: 0 <= i < |data| ==> (lo <= i < hi <==> data[i].Elem? && prefix <= data[i].key)
  }

  /** Some key begins with `prefix` and is longer. */
  ghost predicate Extended<V>(data: seq<Cell<seq<Byte>, V>>, prefix: seq<Byte>) {
    exists i :: 0 <= i < |data| && data[i].Elem? && prefix < data[i].key
  }

  /** A map that holds `"a"` and `"ab"`: asking for the prefix `"a"` finds the first key only. */
  lemma PrefixMissesLonger(lo: nat, hi: nat)
    requires PartedAt(Signs([Elem([97], 0), Elem([97, 98], 0)], [97], ByPrefix(1)), lo, hi)
    ensures lo == 0 && hi == 1
  {
    var data := [Elem([97], 0), Elem([97, 98], 0)];
    var s := Signs(data, [97], ByPrefix(1));
    Compare3Zero([97], [97], 1);
    assert s[0] == 0 && s[1] > 0;
  }

  lemma OwnKeyOnly<V>(data: seq<Cell<seq<Byte>, V>>, prefix: seq<Byte>, lo: nat, hi: nat)
    requires InOrder(data) && PartedAt(Signs(data, prefix, ByPrefix(|prefix|)), lo, hi)
    ensures lo <= hi <= |data| && forall i :: 0 <= i < |data| ==>
        (lo <= i < hi <==> data[i].Elem? && data[i].key == prefix)
    ensures ExactRange(data, prefix, lo, hi) <==> !Extended(data, prefix)
  {
    var s := Signs(data, prefix, ByPrefix(|prefix|));
    forall i | 0 <= i < |data| ensures lo <= i < hi <==> data[i].Elem? && data[i].key == prefix {
      Compare3Zero(data[i].key, prefix, |prefix|);
      assert s[i] == Compare3(data[i].key, prefix, |prefix|);
    }
  }
}
