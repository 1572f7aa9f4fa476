/** Quicksort with a three-way partition. */
module Sort3 {
  import opened SortBase

  const ISORT_MAX := 32

  // ---- partition

  /** Smaller, equal and greater elements around the pivot value, between two stretches
      not looked at yet. */
  ghost predicate Parted<T(!new)>(cmp: (T, T) -> int, s: seq<T>, pv: T, first: nat, last: nat, gl: nat, pf: nat,
                                  pl: nat, gf: nat)
  {
    && first <= gl <= pf < pl <= gf <= last <= |s|
    && (forall i :: gl <= i < pf ==> cmp(s[i], pv) < 0)
    && (forall i :: pf <= i < pl ==> cmp(s[i], pv) == 0)
    && (forall i :: pl <= i < gf ==> cmp(s[i], pv) > 0)
  }

  method SwapAt<T>(a: array<T>, i: nat, j: nat, ghost s: seq<T>, lo: nat, hi: nat)
    requires lo <= i < hi <= a.Length && lo <= j < hi && Perm(s, a[..], lo, hi)
    modifies a
    ensures a[..] == Swap(old(a[..]), i, j) && Perm(s, a[..], lo, hi)
  {
    PermSwap(s, a[..], lo, hi, i, j);
    a[i], a[j] := a[j], a[i];
    assert a[..] == Swap(old(a[..]), i, j);
  }

  /** Takes in elements above, until a smaller one stops it. */
  method ScanUp<T(!new)>(a: array<T>, cmp: (T, T) -> int, first: nat, last: nat, ghost gl: nat, pf: nat, pl0: nat,
                         gf0: nat, ghost pv: T, ghost s: seq<T>)
    returns (pl: nat, gf: nat)
    requires Consistent(cmp) && last <= a.Length && Perm(s, a[..], first, last)
    requires Parted(cmp, a[..], pv, first, last, gl, pf, pl0, gf0)
    modifies a
    ensures Perm(s, a[..], first, last) && Parted(cmp, a[..], pv, first, last, gl, pf, pl, gf) && gf0 <= gf
    ensures gf < last ==> cmp(a[gf], pv) < 0
  {
    hide Consistent, Perm, Parted, Swap;
    pl, gf := pl0, gf0;
    while gf < last
      invariant Perm(s, a[..], first, last) && Parted(cmp, a[..], pv, first, last, gl, pf, pl, gf) && gf0 <= gf
      decreases last - gf
    {
      PartedBounds(cmp, a[..], pv, first, last, gl, pf, pl, gf);
      var c := cmp(a[pf], a[gf]);
      assert cmp(a[pf], pv) == 0 by { PivotAt(cmp, a[..], pv, first, last, gl, pf, pl, gf); }
      SameAs(cmp, a[pf], pv, a[gf]);
      Swapped(cmp, pv, a[gf]);
      TakeUp(cmp, a[..], pv, first, last, gl, pf, pl, gf);
      if c > 0 {
        return;
      } else if c == 0 {
        SwapAt(a, pl, gf, s, first, last);
        pl := pl + 1;
      }
      gf := gf + 1;
    }
  }

  lemma PivotAt<T(!new)>(cmp: (T, T) -> int, s: seq<T>, pv: T, first: nat, last: nat, gl: nat, pf: nat, pl: nat,
                         gf: nat)
    requires Parted(cmp, s, pv, first, last, gl, pf, pl, gf)
    ensures cmp(s[pf], pv) == 0
  {
  }

  lemma TakeUp<T(!new)>(cmp: (T, T) -> int, s: seq<T>, pv: T, first: nat, last: nat, gl: nat, pf: nat, pl: nat, gf: nat)
    requires Parted(cmp, s, pv, first, last, gl, pf, pl, gf) && gf < last
    ensures cmp(s[gf], pv) > 0 ==> Parted(cmp, s, pv, first, last, gl, pf, pl, gf + 1)
    ensures cmp(s[gf], pv) == 0 ==> Parted(cmp, Swap(s, pl, gf), pv, first, last, gl, pf, pl + 1, gf + 1)
  {
    var t := Swap(s, pl, gf);
    assert t[pl] == s[gf] && t[gf] == s[pl] && forall i :: gl <= i < gf && i != pl ==> t[i] == s[i];
  }

  lemma TakeDown<T(!new)>(cmp: (T, T) -> int, s: seq<T>, pv: T, first: nat, last: nat, gl: nat, pf: nat, pl: nat,
                          gf: nat)
    requires Parted(cmp, s, pv, first, last, gl, pf, pl, gf) && first < gl
    ensures cmp(s[gl - 1], pv) < 0 ==> Parted(cmp, s, pv, first, last, gl - 1, pf, pl, gf)
    ensures cmp(s[gl - 1], pv) == 0 ==> Parted(cmp, Swap(s, pf - 1, gl - 1), pv, first, last, gl - 1, pf - 1, pl, gf)
    ensures forall k :: gf <= k < |s| ==> Swap(s, pf - 1, gl - 1)[k] == s[k]
  {
    var t := Swap(s, pf - 1, gl - 1);
    assert t[pf - 1] == s[gl - 1] && t[gl - 1] == s[pf - 1];
    assert forall i :: gl <= i < gf && i != pf - 1 ==> t[i] == s[i];
  }

  /** Takes in elements below, until a greater one stops it. */
  method ScanDown<T(!new)>(a: array<T>, cmp: (T, T) -> int, first: nat, last: nat, gl0: nat, pf0: nat, ghost pl: nat,
                           ghost gf: nat, ghost pv: T, ghost s: seq<T>)
    returns (gl: nat, pf: nat)
    requires Consistent(cmp) && last <= a.Length && Perm(s, a[..], first, last)
    requires Parted(cmp, a[..], pv, first, last, gl0, pf0, pl, gf)
    modifies a
    ensures Perm(s, a[..], first, last) && Parted(cmp, a[..], pv, first, last, gl, pf, pl, gf) && gl <= gl0
    ensures gf < last ==> a[gf] == old(a[gf])
    ensures first < gl ==> cmp(a[gl - 1], pv) > 0
  {
    hide Consistent, Perm, Parted, Swap;
    PartedBounds(cmp, a[..], pv, first, last, gl0, pf0, pl, gf);
    gl, pf := gl0, pf0;
    while first < gl
      invariant Perm(s, a[..], first, last) && Parted(cmp, a[..], pv, first, last, gl, pf, pl, gf) && gl <= gl0
      invariant gf < last ==> a[gf] == old(a[gf])
    {
      PartedBounds(cmp, a[..], pv, first, last, gl, pf, pl, gf);
      var c := cmp(a[gl - 1], a[pf]);
      assert cmp(a[pf], pv) == 0 by { PivotAt(cmp, a[..], pv, first, last, gl, pf, pl, gf); }
      SameAs(cmp, a[pf], pv, a[gl - 1]);
      Swapped(cmp, a[pf], a[gl - 1]);
      Swapped(cmp, pv, a[gl - 1]);
      TakeDown(cmp, a[..], pv, first, last, gl, pf, pl, gf);
      if c > 0 {
        return;
      } else if c == 0 {
        pf := pf - 1;
        SwapAt(a, pf, gl - 1, s, first, last);
      }
      gl := gl - 1;
    }
  }

  /** A smaller element above and no room below: the pivots move up by one. */
  method RotateUp<T(!new)>(a: array<T>, cmp: (T, T) -> int, first: nat, last: nat, pf: nat, pl: nat, gf: nat,
                           ghost pv: T, ghost s: seq<T>)
    requires last <= a.Length && Perm(s, a[..], first, last)
    requires Parted(cmp, a[..], pv, first, last, first, pf, pl, gf) && gf < last && cmp(a[gf], pv) < 0
    modifies a
    ensures Perm(s, a[..], first, last) && Parted(cmp, a[..], pv, first, last, first, pf + 1, pl + 1, gf + 1)
  {
    hide Perm, Parted, Swap;
    ghost var t := a[..];
    assert first <= pf < pl <= gf < last by { PartedBounds(cmp, t, pv, first, last, first, pf, pl, gf); }
    if pl != gf {
      SwapAt(a, pf, pl, s, first, last);
    }
    ghost var u := if pl != gf then Swap(t, pf, pl) else t;
    assert a[..] == u;
    SwapAt(a, pf, gf, s, first, last);
    RotatedUp(cmp, t, a[..], pv, first, last, pf, pl, gf);
  }

  lemma RotatedUp<T(!new)>(cmp: (T, T) -> int, s: seq<T>, t: seq<T>, pv: T, first: nat, last: nat, pf: nat, pl: nat,
                           gf: nat)
    requires Parted(cmp, s, pv, first, last, first, pf, pl, gf) && gf < last && cmp(s[gf], pv) < 0
    requires t == Swap(if pl != gf then Swap(s, pf, pl) else s, pf, gf)
    ensures Parted(cmp, t, pv, first, last, first, pf + 1, pl + 1, gf + 1)
  {
    assert t[pf] == s[gf] && (if pl != gf then t[pl] == s[pf] && t[gf] == s[pl] else t[gf] == s[pf]);
    forall i | first <= i < pf ensures cmp(t[i], pv) < 0 {
      assert t[i] == s[i];
    }
    forall i | pf + 1 <= i < pl ensures cmp(t[i], pv) == 0 {
      assert t[i] == s[i];
    }
    forall i | pl + 1 <= i < gf ensures cmp(t[i], pv) > 0 {
      assert t[i] == s[i];
    }
  }

  /** A greater element below and no room above: the pivots move down by one. */
  method RotateDown<T(!new)>(a: array<T>, cmp: (T, T) -> int, first: nat, last: nat, gl: nat, pf: nat, pl: nat,
                             ghost pv: T, ghost s: seq<T>)
    requires last <= a.Length && Perm(s, a[..], first, last)
    requires Parted(cmp, a[..], pv, first, last, gl, pf, pl, last) && first < gl && cmp(a[gl - 1], pv) > 0
    modifies a
    ensures Perm(s, a[..], first, last) && Parted(cmp, a[..], pv, first, last, gl - 1, pf - 1, pl - 1, last)
  {
    hide Perm, Parted, Swap;
    ghost var t := a[..];
    assert first < gl <= pf < pl <= last by { PartedBounds(cmp, t, pv, first, last, gl, pf, pl, last); }
    if gl - 1 != pf - 1 {
      SwapAt(a, gl - 1, pf - 1, s, first, last);
    }
    ghost var u := if gl != pf then Swap(t, gl - 1, pf - 1) else t;
    assert a[..] == u;
    SwapAt(a, pf - 1, pl - 1, s, first, last);
    RotatedDown(cmp, t, a[..], pv, first, last, gl, pf, pl);
  }

  lemma PartedBounds<T(!new)>(cmp: (T, T) -> int, s: seq<T>, pv: T, first: nat, last: nat, gl: nat, pf: nat, pl: nat,
                              gf: nat)
    requires Parted(cmp, s, pv, first, last, gl, pf, pl, gf)
    ensures first <= gl <= pf < pl <= gf <= last <= |s|
  {
  }

  lemma RotatedDown<T(!new)>(cmp: (T, T) -> int, s: seq<T>, t: seq<T>, pv: T, first: nat, last: nat, gl: nat, pf: nat,
                             pl: nat)
    requires Parted(cmp, s, pv, first, last, gl, pf, pl, last) && first < gl && cmp(s[gl - 1], pv) > 0
    requires t == Swap(if gl != pf then Swap(s, gl - 1, pf - 1) else s, pf - 1, pl - 1)
    ensures Parted(cmp, t, pv, first, last, gl - 1, pf - 1, pl - 1, last)
  {
    assert t[pl - 1] == s[gl - 1] && t[pf - 1] == s[pl - 1];
    assert gl != pf ==> t[gl - 1] == s[pf - 1];
    forall i | gl <= i < pf - 1 ensures cmp(t[i], pv) < 0 {
      assert t[i] == s[i];
    }
    forall i | pf <= i < pl - 1 ensures cmp(t[i], pv) == 0 {
      assert t[i] == s[i];
    }
    forall i | pl <= i < last ensures cmp(t[i], pv) > 0 {
      assert t[i] == s[i];
    }
  }

  /** `_Unguarded_partition`: a stretch equal to the pivot, never empty, smaller elements
      before it and greater ones after. */
  method Partition<T(!new)>(a: array<T>, cmp: (T, T) -> int, first: nat, last: nat)
    returns (pf: nat, pl: nat, ghost pv: T)
    requires Consistent(cmp) && first < last <= a.Length
    modifies a
    ensures Perm(old(a[..]), a[..], first, last)
    ensures Parted(cmp, a[..], pv, first, last, first, pf, pl, last)
  {
    hide Consistent, Perm, Parted, Swap;
    ghost var s := a[..];
    PermSelf(s, first, last);
    var mid := first + (last - first) / 2;
    Median(a, cmp, first, mid, last - 1, s);
    pv := a[mid];
    pf, pl := PivotRun(a, cmp, first, last, mid);
    var gf: nat, gl: nat := pl, pf;
    while true
      invariant Perm(s, a[..], first, last) && Parted(cmp, a[..], pv, first, last, gl, pf, pl, gf)
      decreases last - gf + gl - first
    {
      PartedBounds(cmp, a[..], pv, first, last, gl, pf, pl, gf);
      pl, gf := ScanUp(a, cmp, first, last, gl, pf, pl, gf, pv, s);
      PartedBounds(cmp, a[..], pv, first, last, gl, pf, pl, gf);
      gl, pf := ScanDown(a, cmp, first, last, gl, pf, pl, gf, pv, s);
      PartedBounds(cmp, a[..], pv, first, last, gl, pf, pl, gf);
      if gl == first && gf == last {
        return;
      }
      gl, pf, pl, gf := Balance(a, cmp, first, last, gl, pf, pl, gf, pv, s);
    }
  }

  /** Places an element that stopped a scan, or both. */
  method Balance<T(!new)>(a: array<T>, cmp: (T, T) -> int, first: nat, last: nat, gl0: nat, pf0: nat, pl0: nat,
                          gf0: nat, ghost pv: T, ghost s: seq<T>)
    returns (gl: nat, pf: nat, pl: nat, gf: nat)
    requires last <= a.Length && Perm(s, a[..], first, last) && Parted(cmp, a[..], pv, first, last, gl0, pf0, pl0, gf0)
    requires first < gl0 || gf0 < last
    requires (gf0 < last ==> cmp(a[gf0], pv) < 0) && (first < gl0 ==> cmp(a[gl0 - 1], pv) > 0)
    modifies a
    ensures Perm(s, a[..], first, last) && Parted(cmp, a[..], pv, first, last, gl, pf, pl, gf)
    ensures last - gf + gl < last - gf0 + gl0
  {
    hide Perm, Parted, Swap;
    PartedBounds(cmp, a[..], pv, first, last, gl0, pf0, pl0, gf0);
    gl, pf, pl, gf := gl0, pf0, pl0, gf0;
    if gl == first {
      RotateUp(a, cmp, first, last, pf, pl, gf, pv, s);
      pf, pl, gf := pf + 1, pl + 1, gf + 1;
    } else if gf == last {
      RotateDown(a, cmp, first, last, gl, pf, pl, pv, s);
      gl, pf, pl := gl - 1, pf - 1, pl - 1;
    } else {
      Exchanged(cmp, a[..], pv, first, last, gl, pf, pl, gf);
      SwapAt(a, gf, gl - 1, s, first, last);
      gf, gl := gf + 1, gl - 1;
    }
  }

  /** The run of elements equal to the one at `mid`. */
  method PivotRun<T(!new)>(a: array<T>, cmp: (T, T) -> int, first: nat, last: nat, mid: nat) returns (pf: nat, pl: nat)
    requires Consistent(cmp) && first <= mid < last <= a.Length
    ensures Parted(cmp, a[..], a[mid], first, last, pf, pf, pl, pl)
  {
    hide Consistent;
    pf, pl := mid, mid + 1;
    ghost var pv := a[mid];
    Swapped(cmp, pv, pv);
    while first < pf && cmp(a[pf - 1], a[pf]) == 0
      invariant Parted(cmp, a[..], pv, first, last, pf, pf, pl, pl)
      decreases pf
    {
      SameAs(cmp, a[pf], pv, a[pf - 1]);
      Swapped(cmp, a[pf], a[pf - 1]);
      Swapped(cmp, pv, a[pf - 1]);
      pf := pf - 1;
    }
    while pl < last && cmp(a[pl], a[pf]) == 0
      invariant Parted(cmp, a[..], pv, first, last, pf, pf, pl, pl)
      decreases last - pl
    {
      SameAs(cmp, a[pf], pv, a[pl]);
      Swapped(cmp, a[pf], a[pl]);
      Swapped(cmp, pv, a[pl]);
      pl := pl + 1;
    }
  }

  /** A smaller element above and a greater one below change places. */
  lemma Exchanged<T(!new)>(cmp: (T, T) -> int, s: seq<T>, pv: T, first: nat, last: nat, gl: nat, pf: nat, pl: nat,
                           gf: nat)
    requires Parted(cmp, s, pv, first, last, gl, pf, pl, gf) && first < gl && gf < last
    requires cmp(s[gf], pv) < 0 && cmp(s[gl - 1], pv) > 0
    ensures Parted(cmp, Swap(s, gf, gl - 1), pv, first, last, gl - 1, pf, pl, gf + 1)
  {
    var t := Swap(s, gf, gl - 1);
    assert forall i :: gl <= i < gf ==> t[i] == s[i];
  }

  /** Sorts three elements, the median in the middle. */
  method Med3<T(!new)>(a: array<T>, cmp: (T, T) -> int, i: nat, j: nat, k: nat, ghost s: seq<T>, lo: nat, hi: nat)
    requires Consistent(cmp) && Perm(s, a[..], lo, hi) && hi <= a.Length
    requires lo <= i < hi && lo <= j < hi && lo <= k < hi
    modifies a
    ensures Perm(s, a[..], lo, hi)
    ensures i != j && j != k && i != k ==> cmp(a[i], a[j]) <= 0 && cmp(a[j], a[k]) <= 0
  {
    hide Consistent, Perm;
    OrderPair(a, cmp, i, j, k, s, lo, hi);
    ghost var x, y := a[i], a[j];
    OrderPair(a, cmp, j, k, i, s, lo, hi);
    ghost var z := a[k];
    Swapped(cmp, y, y);
    if i != j && j != k && i != k {
      Chained(cmp, x, y, z);
    }
    OrderPair(a, cmp, i, j, k, s, lo, hi);
  }

  /** Swaps two elements out of order; a third stays. */
  method OrderPair<T(!new)>(a: array<T>, cmp: (T, T) -> int, i: nat, j: nat, ghost k: nat, ghost s: seq<T>, lo: nat,
                            hi: nat)
    requires Consistent(cmp) && Perm(s, a[..], lo, hi) && hi <= a.Length
    requires lo <= i < hi && lo <= j < hi && k < a.Length
    modifies a
    ensures Perm(s, a[..], lo, hi) && cmp(a[i], a[j]) <= 0
    ensures (a[i] == old(a[i]) && a[j] == old(a[j])) || (a[i] == old(a[j]) && a[j] == old(a[i]))
    ensures k != i && k != j ==> a[k] == old(a[k])
  {
    hide Consistent, Perm;
    Swapped(cmp, a[j], a[i]);
    if cmp(a[j], a[i]) < 0 {
      SwapAt(a, j, i, s, lo, hi);
    }
  }

  method Median<T(!new)>(a: array<T>, cmp: (T, T) -> int, first: nat, mid: nat, last: nat, ghost s: seq<T>)
    requires Consistent(cmp) && first <= last < a.Length && mid == first + (last + 1 - first) / 2
    requires Perm(s, a[..], first, last + 1)
    modifies a
    ensures Perm(s, a[..], first, last + 1)
  {
    hide Consistent, Perm;
    if 40 < last - first {
      var step := (last - first + 1) / 8;
      Med3(a, cmp, first, first + step, first + 2 * step, s, first, last + 1);
      Med3(a, cmp, mid - step, mid, mid + step, s, first, last + 1);
      Med3(a, cmp, last - 2 * step, last - step, last, s, first, last + 1);
      Med3(a, cmp, first + step, mid, last - step, s, first, last + 1);
    } else {
      Med3(a, cmp, first, mid, last, s, first, last + 1);
    }
  }

  // ---- small stretches

  /** `_Insertion_sort`. The inner search needs no bound: the first element stops it. */
  method InsertionSort<T(!new)>(a: array<T>, cmp: (T, T) -> int, first: nat, last: nat)
    requires Consistent(cmp) && first <= last <= a.Length
    modifies a
    ensures Perm(old(a[..]), a[..], first, last) && Sorted(cmp, a[..], first, last)
  {
    hide Consistent, Perm;
    ghost var s := a[..];
    PermSelf(s, first, last);
    if first != last {
      var next := first + 1;
      while next != last
        invariant first < next <= last && Perm(s, a[..], first, last) && Sorted(cmp, a[..], first, next)
        decreases last - next
      {
        if cmp(a[next], a[first]) < 0 {
          MoveFront(a, cmp, first, next, last, s);
        } else {
          SiftDown(a, cmp, first, next, last, s);
        }
        next := next + 1;
      }
    }
  }

  /** A new least element goes to the front, the others one up. */
  method MoveFront<T(!new)>(a: array<T>, cmp: (T, T) -> int, first: nat, next: nat, last: nat, ghost s: seq<T>)
    requires Consistent(cmp) && first < next < last <= a.Length && Perm(s, a[..], first, last)
    requires Sorted(cmp, a[..], first, next) && cmp(a[next], a[first]) < 0
    modifies a
    ensures Perm(s, a[..], first, last) && Sorted(cmp, a[..], first, next + 1)
  {
    hide Consistent, Perm, Shifted;
    ghost var t, u := a[..], a[..];
    var val, i := a[next], next;
    assert u[i := val] == t;
    ShiftStart(t, first, next);
    while i != first
      invariant a[..] == u && first <= i <= next && Perm(s, u[i := val], first, last) && Shifted(t, u, first, next, i)
    {
      HoleDown(s, u, val, first, last, i);
      ShiftStep(t, u, first, next, i);
      a[i] := a[i - 1];
      u, i := u[i := u[i - 1]], i - 1;
      assert a[..] == u;
    }
    a[first] := val;
    assert a[..] == u[first := val];
    FrontSorted(cmp, t, u, first, next);
  }

  /** The elements from `i` to `next` have moved up by one; the rest is as it was. */
  ghost predicate Shifted<T>(t: seq<T>, u: seq<T>, first: nat, next: nat, i: nat) {
    && |u| == |t| && first <= i <= next < |t|
    && (forall k :: i < k <= next ==> u[k] == t[k - 1])
    && (forall k :: 0 <= k < i || next < k < |t| ==> u[k] == t[k])
  }

  lemma ShiftStart<T>(t: seq<T>, first: nat, next: nat)
    requires first <= next < |t|
    ensures Shifted(t, t, first, next, next)
  {
  }

  lemma ShiftStep<T>(t: seq<T>, u: seq<T>, first: nat, next: nat, i: nat)
    requires Shifted(t, u, first, next, i) && first < i
    ensures u[i - 1] == t[i - 1] && Shifted(t, u[i := u[i - 1]], first, next, i - 1)
  {
  }

  /** The hole one further down holds the same elements. */
  lemma HoleDown<T>(s: seq<T>, u: seq<T>, val: T, first: nat, last: nat, i: nat)
    requires first < i < last <= |u| && Perm(s, u[i := val], first, last)
    ensures Perm(s, u[i := u[i - 1]][i - 1 := val], first, last)
  {
    hide Perm;
    PermSwap(s, u[i := val], first, last, i, i - 1);
    HoleSwap(u, val, i);
  }

  lemma HoleSwap<T>(u: seq<T>, val: T, i: nat)
    requires 0 < i < |u|
    ensures Swap(u[i := val], i, i - 1) == u[i := u[i - 1]][i - 1 := val]
  {
  }

  lemma FrontSorted<T(!new)>(cmp: (T, T) -> int, t: seq<T>, u: seq<T>, first: nat, next: nat)
    requires Consistent(cmp) && first < next < |t| && Shifted(t, u, first, next, first)
    requires Sorted(cmp, t, first, next) && cmp(t[next], t[first]) < 0
    ensures Sorted(cmp, u[first := t[next]], first, next + 1)
  {
    hide Consistent;
    var v := u[first := t[next]];
    forall i, j | first <= i < j < next + 1 ensures cmp(v[i], v[j]) <= 0 {
      assert v[j] == t[j - 1];
      if i == first {
        if j - 1 > first {
          Chained(cmp, t[next], t[first], t[j - 1]);
        }
      } else {
        assert v[i] == t[i - 1];
      }
    }
  }

  /** Inserts an element not below the first: the hole moves down past greater ones. */
  method SiftDown<T(!new)>(a: array<T>, cmp: (T, T) -> int, first: nat, next: nat, last: nat, ghost s: seq<T>)
    requires Consistent(cmp) && first < next < last <= a.Length && Perm(s, a[..], first, last)
    requires Sorted(cmp, a[..], first, next) && cmp(a[next], a[first]) >= 0
    modifies a
    ensures Perm(s, a[..], first, last) && Sorted(cmp, a[..], first, next + 1)
  {
    hide Consistent, Perm, Shifted;
    ghost var t, u := a[..], a[..];
    var val, i := a[next], next;
    assert u[i := val] == t;
    ShiftStart(t, first, next);
    ShiftAt(t, u, first, next, i);
    while cmp(val, a[i - 1]) < 0
      invariant a[..] == u && first < i <= next && Perm(s, u[i := val], first, last) && Shifted(t, u, first, next, i)
      invariant u[i - 1] == t[i - 1] && forall k :: i <= k < next ==> cmp(val, t[k]) < 0
      decreases i
    {
      HoleDown(s, u, val, first, last, i);
      ShiftStep(t, u, first, next, i);
      a[i] := a[i - 1];
      u, i := u[i := u[i - 1]], i - 1;
      assert a[..] == u && i > first;
      ShiftAt(t, u, first, next, i);
    }
    a[i] := val;
    assert a[..] == u[i := val];
    SiftSorted(cmp, t, u, first, next, i);
  }

  lemma ShiftAt<T>(t: seq<T>, u: seq<T>, first: nat, next: nat, i: nat)
    requires Shifted(t, u, first, next, i) && first < i
    ensures u[i - 1] == t[i - 1]
  {
  }

  lemma SiftSorted<T(!new)>(cmp: (T, T) -> int, t: seq<T>, u: seq<T>, first: nat, next: nat, h: nat)
    requires Consistent(cmp) && first < h <= next < |t| && Shifted(t, u, first, next, h) && Sorted(cmp, t, first, next)
    requires cmp(t[next], t[h - 1]) >= 0 && forall k :: h <= k < next ==> cmp(t[next], t[k]) < 0
    ensures Sorted(cmp, u[h := t[next]], first, next + 1)
  {
    hide Consistent;
    var v := u[h := t[next]];
    forall i, j | first <= i < j < next + 1 ensures cmp(v[i], v[j]) <= 0 {
      Swapped(cmp, t[next], t[h - 1]);
      assert i < h ==> v[i] == t[i];
      assert i > h ==> v[i] == t[i - 1];
      assert j > h ==> v[j] == t[j - 1];
      if j == h && i < h - 1 {
        Chained(cmp, t[i], t[h - 1], t[next]);
      }
    }
  }

  // ---- the whole sort

  /** Stands for `std::make_heap` and `std::sort_heap`: only its contract is used. */
  method HeapSort<T(!new)>(a: array<T>, cmp: (T, T) -> int, first: nat, last: nat)
    requires Consistent(cmp) && first <= last <= a.Length
    modifies a
    ensures Perm(old(a[..]), a[..], first, last) && Sorted(cmp, a[..], first, last)
  {
    InsertionSort(a, cmp, first, last);
  }

  /** A stretch with its middle still to be sorted: the rest is in place. */
  ghost predicate Framed<T(!new)>(cmp: (T, T) -> int, s: seq<T>, lo: nat, first: nat, last: nat, hi: nat) {
    && lo <= first <= last <= hi <= |s|
    && Sorted(cmp, s, lo, first) && Sorted(cmp, s, last, hi)
    && Before(cmp, s, lo, first, first, hi) && Before(cmp, s, lo, last, last, hi)
  }

  /** Rearranging the middle keeps the frame. */
  lemma FramedPerm<T(!new)>(cmp: (T, T) -> int, s: seq<T>, t: seq<T>, lo: nat, first: nat, last: nat, hi: nat)
    requires Framed(cmp, s, lo, first, last, hi) && Perm(s, t, first, last)
    ensures Framed(cmp, t, lo, first, last, hi)
  {
    hide Perm;
    PermSame(s, t, first, last);
    forall i, j | lo <= i < first && first <= j < hi ensures cmp(t[i], t[j]) <= 0 {
      var k := PermAt(s, t, first, last, j);
    }
    forall i, j | lo <= i < last && last <= j < hi ensures cmp(t[i], t[j]) <= 0 {
      var k := PermAt(s, t, first, last, i);
    }
  }

  lemma PermSame<T>(s: seq<T>, t: seq<T>, lo: nat, hi: nat)
    requires Perm(s, t, lo, hi)
    ensures |t| == |s| && forall i :: (0 <= i < lo || hi <= i < |s|) ==> t[i] == s[i]
  {
    forall i | 0 <= i < lo || hi <= i < |s| ensures t[i] == s[i] {
      var j := PermAt(s, t, lo, hi, i);
    }
  }

  lemma FramedDone<T(!new)>(cmp: (T, T) -> int, s: seq<T>, lo: nat, first: nat, last: nat, hi: nat)
    requires Framed(cmp, s, lo, first, last, hi) && Sorted(cmp, s, first, last)
    ensures Sorted(cmp, s, lo, hi)
  {
  }

  /** The partition splits the frame: either side may be sorted by itself. */
  lemma FramedSplit<T(!new)>(cmp: (T, T) -> int, s: seq<T>, pv: T, lo: nat, first: nat, pf: nat, pl: nat, last: nat,
                             hi: nat)
    requires Consistent(cmp) && Framed(cmp, s, lo, first, last, hi)
      && Parted(cmp, s, pv, first, last, first, pf, pl, last)
    ensures Sorted(cmp, s, first, pf) ==> Framed(cmp, s, lo, pl, last, hi)
    ensures Sorted(cmp, s, pl, last) ==> Framed(cmp, s, lo, first, pf, hi)
  {
    hide Consistent;
    forall i, j | first <= i < pl && pf <= j < last && i < j ensures cmp(s[i], s[j]) <= 0 {
      Sides(cmp, s[i], s[j], pv);
    }
    forall i, j | first <= i < pf && pf <= j < last ensures cmp(s[i], s[j]) <= 0 {
      Sides(cmp, s[i], s[j], pv);
    }
    forall i, j | first <= i < pl && pl <= j < last ensures cmp(s[i], s[j]) <= 0 {
      Sides(cmp, s[i], s[j], pv);
    }
  }

  lemma Sides<T(!new)>(cmp: (T, T) -> int, x: T, y: T, pv: T)
    requires Consistent(cmp) && cmp(x, pv) <= 0 && cmp(y, pv) >= 0
    ensures cmp(x, y) <= 0
  {
    Swapped(cmp, y, pv);
    Chained(cmp, x, pv, y);
  }

  /** The parts of a partition stay in place when one side is rearranged. */
  lemma PartedPerm<T(!new)>(cmp: (T, T) -> int, s: seq<T>, t: seq<T>, pv: T, first: nat, pf: nat, pl: nat, last: nat,
                            lo: nat, hi: nat)
    requires Parted(cmp, s, pv, first, last, first, pf, pl, last) && Perm(s, t, lo, hi)
    requires (lo == first && hi == pf) || (lo == pl && hi == last)
    ensures Parted(cmp, t, pv, first, last, first, pf, pl, last)
  {
    hide Perm;
    PermSame(s, t, lo, hi);
    forall i | lo <= i < hi ensures if lo == first && hi == pf then cmp(t[i], pv) < 0 else cmp(t[i], pv) > 0 {
      var j := PermAt(s, t, lo, hi, i);
    }
  }

  /** `_Sort`: quicksort while the budget of divisions lasts, the smaller side by
      recursion, the other by going on. */
  method Sort<T(!new)>(a: array<T>, cmp: (T, T) -> int, lo: nat, hi: nat, ideal0: nat)
    requires Consistent(cmp) && lo <= hi <= a.Length
    modifies a
    ensures Perm(old(a[..]), a[..], lo, hi) && Sorted(cmp, a[..], lo, hi)
    decreases hi - lo
  {
    hide Consistent, Perm, Parted, Framed;
    var first, last, ideal := lo, hi, ideal0;
    ghost var s := a[..];
    PermSelf(s, lo, hi);
    FrameAll(cmp, s, lo, hi);
    while ISORT_MAX < last - first && 0 < ideal
      invariant lo <= first <= last <= hi && Perm(s, a[..], lo, hi) && Framed(cmp, a[..], lo, first, last, hi)
      decreases last - first
    {
      ghost var t := a[..];
      var pf, pl, pv := Partition(a, cmp, first, last);
      PartedBounds(cmp, a[..], pv, first, last, first, pf, pl, last);
      Rearranged(cmp, s, t, a[..], lo, first, last, hi, first, last);
      ideal := ideal / 2;
      ideal := ideal + ideal / 2;
      ghost var u := a[..];
      if pf - first < last - pl {
        Sort(a, cmp, first, pf, ideal);
        PartedPerm(cmp, u, a[..], pv, first, pf, pl, last, first, pf);
        Rearranged(cmp, s, u, a[..], lo, first, last, hi, first, pf);
        FramedSplit(cmp, a[..], pv, lo, first, pf, pl, last, hi);
        first := pl;
      } else {
        Sort(a, cmp, pl, last, ideal);
        PartedPerm(cmp, u, a[..], pv, first, pf, pl, last, pl, last);
        Rearranged(cmp, s, u, a[..], lo, first, last, hi, pl, last);
        FramedSplit(cmp, a[..], pv, lo, first, pf, pl, last, hi);
        last := pf;
      }
    }
    ghost var t := a[..];
    if ISORT_MAX < last - first {
      HeapSort(a, cmp, first, last);
    } else if 1 < last - first {
      InsertionSort(a, cmp, first, last);
    } else {
      PermSelf(t, first, last);
    }
    Rearranged(cmp, s, t, a[..], lo, first, last, hi, first, last);
    FramedDone(cmp, a[..], lo, first, last, hi);
  }

  lemma FrameAll<T(!new)>(cmp: (T, T) -> int, s: seq<T>, lo: nat, hi: nat)
    requires lo <= hi <= |s|
    ensures Framed(cmp, s, lo, lo, hi, hi)
  {
  }

  lemma Rearranged<T(!new)>(cmp: (T, T) -> int, s: seq<T>, t: seq<T>, u: seq<T>, lo: nat, first: nat, last: nat,
                            hi: nat, a: nat, b: nat)
    requires Perm(s, t, lo, hi) && Perm(t, u, a, b) && lo <= first <= a <= b <= last <= hi <= |s|
    requires Framed(cmp, t, lo, first, last, hi)
    ensures Perm(s, u, lo, hi) && Framed(cmp, u, lo, first, last, hi)
  {
    PermWiden(t, u, a, b, lo, hi);
    PermTrans(s, t, u, lo, hi);
    PermWiden(t, u, a, b, first, last);
    FramedPerm(cmp, t, u, lo, first, last, hi);
  }

  /** `sort3`. */
  method SortAll<T(!new)>(a: array<T>, cmp: (T, T) -> int)
    requires Consistent(cmp)
    modifies a
    ensures multiset(a[..]) == multiset(old(a[..])) && Sorted(cmp, a[..], 0, a.Length)
  {
    Sort(a, cmp, 0, a.Length, a.Length);
    assert a[0..a.Length] == a[..] && old(a[..])[0..a.Length] == old(a[..]);
  }
}
