/** Binary search for all elements equal to a value. */
module EqualRange {
  import opened SortBase

  /** The elements equal to `val` are exactly those from `lo` to `hi`. */
  ghost predicate IsRange<T(!new)>(cmp: (T, T) -> int, s: seq<T>, val: T, first: nat, last: nat, lo: nat, hi: nat) {
    && first <= lo <= hi <= last <= |s|
    && (forall i :: first <= i < lo ==> cmp(s[i], val) < 0)
    && (forall i :: lo <= i < hi ==> cmp(s[i], val) == 0)
    && (forall i :: hi <= i < last ==> cmp(s[i], val) > 0)
  }

  /** In a sorted stretch, the sign never goes back. */
  lemma Monotone<T(!new)>(cmp: (T, T) -> int, s: seq<T>, val: T, first: nat, last: nat, i: nat, j: nat)
    requires Consistent(cmp) && Sorted(cmp, s, first, last) && first <= i <= j < last
    ensures cmp(s[j], val) < 0 ==> cmp(s[i], val) < 0
    ensures cmp(s[j], val) <= 0 ==> cmp(s[i], val) <= 0
    ensures cmp(s[i], val) > 0 ==> cmp(s[j], val) > 0
  {
    if i < j {
      if cmp(s[j], val) <= 0 {
        Chained(cmp, s[i], s[j], val);
      }
    }
  }

  /** Stands for `std::lower_bound` (`strict`: elements below `val` end at `m`) and
      `std::upper_bound` (elements not above `val` end at `m`): only its contract is used. */
  method Bound<T(!new)>(s: seq<T>, cmp: (T, T) -> int, val: T, first: nat, last: nat, strict: bool) returns (m: nat)
    requires Consistent(cmp) && Sorted(cmp, s, first, last)
    ensures first <= m <= last
    ensures forall i :: first <= i < m ==> if strict then cmp(s[i], val) < 0 else cmp(s[i], val) <= 0
    ensures forall i :: m <= i < last ==> if strict then cmp(s[i], val) >= 0 else cmp(s[i], val) > 0
  {
    hide Consistent;
    m := first;
    while m < last && if strict then cmp(s[m], val) < 0 else cmp(s[m], val) <= 0
      invariant first <= m <= last
      invariant forall i :: first <= i < m ==> if strict then cmp(s[i], val) < 0 else cmp(s[i], val) <= 0
    {
      m := m + 1;
    }
    forall i | m <= i < last ensures if strict then cmp(s[i], val) >= 0 else cmp(s[i], val) > 0 {
      Monotone(cmp, s, val, first, last, m, i);
    }
  }

  /** `equal_range3`. */
  method Find<T(!new)>(s: seq<T>, cmp: (T, T) -> int, val: T, first0: nat, last0: nat) returns (lo: nat, hi: nat)
    requires Consistent(cmp) && Sorted(cmp, s, first0, last0)
    ensures IsRange(cmp, s, val, first0, last0, lo, hi)
  {
    hide Consistent, Sorted;
    SortedBounds(cmp, s, first0, last0);
    var first, count := first0, last0 - first0;
    while 0 < count
      invariant first0 <= first && 0 <= count && first + count <= last0
      invariant forall i :: first0 <= i < first ==> cmp(s[i], val) < 0
      invariant forall i :: first + count <= i < last0 ==> cmp(s[i], val) > 0
    {
      var count2 := count / 2;
      var mid := first + count2;
      var c := cmp(s[mid], val);
      forall i | first0 <= i < last0
        ensures i <= mid && c < 0 ==> cmp(s[i], val) < 0
        ensures mid <= i && c > 0 ==> cmp(s[i], val) > 0
        ensures i <= mid && c == 0 ==> cmp(s[i], val) <= 0
        ensures mid <= i && c == 0 ==> cmp(s[i], val) >= 0
      {
        if i <= mid {
          Monotone(cmp, s, val, first0, last0, i, mid);
        }
        if mid <= i {
          Monotone(cmp, s, val, first0, last0, mid, i);
        }
      }
      if c < 0 {
        first, count := mid + 1, count - (count2 + 1);
      } else if c > 0 {
        count := count2;
      } else {
        SortedPart(cmp, s, first0, last0, first, mid);
        lo := Bound(s, cmp, val, first, mid, true);
        SortedPart(cmp, s, first0, last0, mid + 1, first + count);
        hi := Bound(s, cmp, val, mid + 1, first + count, false);
        return;
      }
    }
    return first, first;
  }

  lemma SortedBounds<T(!new)>(cmp: (T, T) -> int, s: seq<T>, first: nat, last: nat)
    requires Sorted(cmp, s, first, last)
    ensures first <= last <= |s|
  {
  }

  lemma SortedPart<T(!new)>(cmp: (T, T) -> int, s: seq<T>, first: nat, last: nat, a: nat, b: nat)
    requires Sorted(cmp, s, first, last) && first <= a <= b <= last
    ensures Sorted(cmp, s, a, b)
  {
  }
}
