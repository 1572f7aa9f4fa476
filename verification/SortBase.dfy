/** Three-way comparisons, and rearranging a stretch of an array. */
module SortBase {

  // ---- the comparison

  /** What a three-way comparison must satisfy: it is a total preorder. */
  ghost predicate Consistent<T(!new)>(cmp: (T, T) -> int) {
    && (forall x, y :: cmp(x, y) < 0 <==> cmp(y, x) > 0)
    && (forall x, y, z :: cmp(x, y) <= 0 && cmp(y, z) <= 0 ==> cmp(x, z) <= 0)
  }

  lemma Swapped<T(!new)>(cmp: (T, T) -> int, x: T, y: T)
    requires Consistent(cmp)
    ensures cmp(x, y) < 0 <==> cmp(y, x) > 0
    ensures cmp(x, y) == 0 <==> cmp(y, x) == 0
    ensures cmp(x, y) > 0 <==> cmp(y, x) < 0
    ensures x == y ==> cmp(x, y) == 0
  {
  }

  lemma Chained<T(!new)>(cmp: (T, T) -> int, x: T, y: T, z: T)
    requires Consistent(cmp) && cmp(x, y) <= 0 && cmp(y, z) <= 0
    ensures cmp(x, z) <= 0
    ensures cmp(x, y) < 0 || cmp(y, z) < 0 ==> cmp(x, z) < 0
  {
    Swapped(cmp, x, z);
    Swapped(cmp, x, y);
    Swapped(cmp, y, z);
  }

  /** Equal elements compare alike with everything. */
  lemma SameAs<T(!new)>(cmp: (T, T) -> int, x: T, y: T, z: T)
    requires Consistent(cmp) && cmp(x, y) == 0
    ensures cmp(x, z) < 0 <==> cmp(y, z) < 0
    ensures cmp(x, z) == 0 <==> cmp(y, z) == 0
    ensures cmp(x, z) > 0 <==> cmp(y, z) > 0
  {
    Swapped(cmp, x, y);
    Swapped(cmp, x, z);
    Swapped(cmp, y, z);
    if cmp(x, z) <= 0 {
      Chained(cmp, y, x, z);
    }
    if cmp(y, z) <= 0 {
      Chained(cmp, x, y, z);
    }
    if cmp(z, x) <= 0 {
      Chained(cmp, z, x, y);
    }
    if cmp(z, y) <= 0 {
      Chained(cmp, z, y, x);
    }
  }

  // ---- sorted and side by side

  ghost predicate Sorted<T(!new)>(cmp: (T, T) -> int, s: seq<T>, lo: nat, hi: nat) {
    lo <= hi <= |s| && forall i, j :: lo <= i < j < hi ==> cmp(s[i], s[j]) <= 0
  }

  /** Everything in the first stretch comes before everything in the second. */
  ghost predicate Before<T(!new)>(cmp: (T, T) -> int, s: seq<T>, lo: nat, mid: nat, mid': nat, hi: nat) {
    && lo <= mid <= |s| && mid' <= hi <= |s|
    && forall i, j :: lo <= i < mid && mid' <= j < hi ==> cmp(s[i], s[j]) <= 0
  }

  // ---- rearrangements

  /** `t` is `s` with the stretch from `lo` to `hi` rearranged. */
  ghost predicate Perm<T>(s: seq<T>, t: seq<T>, lo: nat, hi: nat) {
    && |t| == |s| && lo <= hi <= |s| && t[..lo] == s[..lo] && t[hi..] == s[hi..]
    && multiset(t[lo..hi]) == multiset(s[lo..hi])
  }

  function Swap<T>(s: seq<T>, i: nat, j: nat): (t: seq<T>)
    requires i < |s| && j < |s|
    ensures |t| == |s|
  {
    s[i := s[j]][j := s[i]]
  }

  lemma PermSelf<T>(s: seq<T>, lo: nat, hi: nat)
    requires lo <= hi <= |s|
    ensures Perm(s, s, lo, hi)
  {
  }

  lemma PermTrans<T>(s: seq<T>, t: seq<T>, u: seq<T>, lo: nat, hi: nat)
    requires Perm(s, t, lo, hi) && Perm(t, u, lo, hi)
    ensures Perm(s, u, lo, hi)
  {
  }

  lemma PermSwap<T>(s: seq<T>, t: seq<T>, lo: nat, hi: nat, i: nat, j: nat)
    requires Perm(s, t, lo, hi) && lo <= i < hi && lo <= j < hi
    ensures Perm(s, Swap(t, i, j), lo, hi)
  {
    var u := Swap(t, i, j);
    assert u[..lo] == t[..lo] && u[hi..] == t[hi..];
    SwapSlice(t, lo, hi, i, j);
    SwapSame(t[lo..hi], i - lo, j - lo);
  }

  lemma SwapSlice<T>(t: seq<T>, lo: nat, hi: nat, i: nat, j: nat)
    requires lo <= i < hi <= |t| && lo <= j < hi
    ensures Swap(t, i, j)[lo..hi] == Swap(t[lo..hi], i - lo, j - lo)
  {
  }

  lemma SwapSame<T>(s: seq<T>, i: nat, j: nat)
    requires i < |s| && j < |s|
    ensures multiset(Swap(s, i, j)) == multiset(s)
  {
  }

  /** A stretch inside a wider one. */
  lemma PermWiden<T>(s: seq<T>, t: seq<T>, lo: nat, hi: nat, lo': nat, hi': nat)
    requires Perm(s, t, lo, hi) && lo' <= lo && hi <= hi' <= |s|
    ensures Perm(s, t, lo', hi')
  {
    assert t[..lo'] == t[..lo][..lo'] && s[..lo'] == s[..lo][..lo'];
    assert t[hi'..] == t[hi..][hi' - hi..] && s[hi'..] == s[hi..][hi' - hi..];
    Middle(t, lo, hi, lo', hi');
    Middle(s, lo, hi, lo', hi');
    assert t[lo'..lo] == t[..lo][lo'..] && s[lo'..lo] == s[..lo][lo'..];
    assert t[hi..hi'] == t[hi..][..hi' - hi] && s[hi..hi'] == s[hi..][..hi' - hi];
  }

  lemma Middle<T>(s: seq<T>, lo: nat, hi: nat, lo': nat, hi': nat)
    requires lo' <= lo <= hi <= hi' <= |s|
    ensures s[lo'..hi'] == s[lo'..lo] + s[lo..hi] + s[hi..hi']
    ensures multiset(s[lo'..hi']) == multiset(s[lo'..lo]) + multiset(s[lo..hi]) + multiset(s[hi..hi'])
  {
    assert s[lo'..hi'] == s[lo'..lo] + s[lo..hi] + s[hi..hi'];
  }

  /** Every element of the rearranged stretch was in it before. */
  lemma PermAt<T>(s: seq<T>, t: seq<T>, lo: nat, hi: nat, i: nat) returns (j: nat)
    requires Perm(s, t, lo, hi) && i < |t|
    ensures j < |s| && t[i] == s[j] && (lo <= i < hi <==> lo <= j < hi) && (i < lo || i >= hi ==> j == i)
  {
    if lo <= i < hi {
      assert t[lo..hi][i - lo] in multiset(t[lo..hi]);
      assert t[i] in s[lo..hi];
      var k :| 0 <= k < hi - lo && s[lo..hi][k] == t[i];
      j := lo + k;
    } else if i < lo {
      assert t[i] == t[..lo][i] == s[..lo][i];
      j := i;
    } else {
      assert t[i] == t[hi..][i - hi] == s[hi..][i - hi];
      j := i;
    }
  }
}
