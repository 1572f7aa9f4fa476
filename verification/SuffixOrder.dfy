/** Order of the suffixes of a text, looked at through their first `k` symbols, and the
    algebra behind prefix doubling: an order on `2k` symbols from the order on `k`. */
module SuffixOrder {

  /** A text read through windows of `win` symbols, with zeros past its end. */
  datatype Text = Text(sym: seq<int>, win: nat)

  function Sign(x: int): int {
    if x < 0 then -1 else if x > 0 then 1 else 0
  }

  function SymbolAt(sym: seq<int>, i: nat): int {
    if i < |sym| then sym[i] else 0
  }

  /** Sign of the comparison of the windows of `m` symbols at `i` and `j`. */
  function WinCmp(sym: seq<int>, i: nat, j: nat, m: nat): (c: int)
    ensures -1 <= c <= 1
    decreases m
  {
    if m == 0 then 0
    else if SymbolAt(sym, i) != SymbolAt(sym, j) then Sign(SymbolAt(sym, i) - SymbolAt(sym, j))
    else WinCmp(sym, i + 1, j + 1, m - 1)
  }

  /** Sign of the comparison of the suffixes at `i` and `j`, window by window as far as `k`
      symbols; a suffix that ends first is smaller, and of two that end in one window the
      later one. With windows of one symbol that is plain comparison of `k` symbols. */
  function Cmp(text: Text, i: nat, j: nat, k: nat): (c: int)
    ensures -1 <= c <= 1
    decreases k
  {
    if text.win == 0 || k < text.win then 0
    else if i >= |text.sym| || j >= |text.sym| then Sign(j - i)
    else if WinCmp(text.sym, i, j, text.win) != 0 then WinCmp(text.sym, i, j, text.win)
    else Cmp(text, i + text.win, j + text.win, k - text.win)
  }

  /** `k` symbols are a whole number of windows of `m`. */
  predicate Whole(k: nat, m: nat) {
    k == 0 || (0 < m <= k && Whole(k - m, m))
  }

  predicate Level(text: Text, k: nat) {
    text.win > 0 && k > 0 && Whole(k, text.win)
  }

  lemma {:induction false} WholeSum(a: nat, b: nat, m: nat)
    requires Whole(a, m) && Whole(b, m)
    ensures Whole(a + b, m)
    decreases a
  {
    if a > 0 {
      WholeSum(a - m, b, m);
    }
  }

  lemma LevelDoubles(text: Text, k: nat)
    requires Level(text, k)
    ensures Level(text, 2 * k)
  {
    WholeSum(k, k, text.win);
  }

  lemma {:induction false} WinSwap(sym: seq<int>, i: nat, j: nat, m: nat)
    ensures WinCmp(sym, j, i, m) == -WinCmp(sym, i, j, m)
    decreases m
  {
    if m > 0 {
      WinSwap(sym, i + 1, j + 1, m - 1);
    }
  }

  lemma {:induction false} WinSelf(sym: seq<int>, i: nat, m: nat)
    ensures WinCmp(sym, i, i, m) == 0
    decreases m
  {
    if m > 0 {
      WinSelf(sym, i + 1, m - 1);
    }
  }

  lemma {:induction false} WinTrans(sym: seq<int>, i: nat, j: nat, l: nat, m: nat)
    requires WinCmp(sym, i, j, m) <= 0 && WinCmp(sym, j, l, m) <= 0
    ensures WinCmp(sym, i, l, m) <= 0
    ensures WinCmp(sym, i, l, m) == 0 <==> WinCmp(sym, i, j, m) == 0 && WinCmp(sym, j, l, m) == 0
    decreases m
  {
    if m > 0 && SymbolAt(sym, i) == SymbolAt(sym, j) == SymbolAt(sym, l) {
      WinTrans(sym, i + 1, j + 1, l + 1, m - 1);
    }
  }

  lemma {:induction false} CmpSwap(text: Text, i: nat, j: nat, k: nat)
    ensures Cmp(text, j, i, k) == -Cmp(text, i, j, k)
    decreases k
  {
    if 0 < text.win <= k && i < |text.sym| && j < |text.sym| {
      WinSwap(text.sym, i, j, text.win);
      CmpSwap(text, i + text.win, j + text.win, k - text.win);
    }
  }

  lemma {:induction false} CmpSelf(text: Text, i: nat, k: nat)
    ensures Cmp(text, i, i, k) == 0
    decreases k
  {
    if 0 < text.win <= k && i < |text.sym| {
      WinSelf(text.sym, i, text.win);
      CmpSelf(text, i + text.win, k - text.win);
    }
  }

  lemma {:induction false} CmpTrans(text: Text, i: nat, j: nat, l: nat, k: nat)
    requires Cmp(text, i, j, k) <= 0 && Cmp(text, j, l, k) <= 0
    ensures Cmp(text, i, l, k) <= 0
    ensures Cmp(text, i, j, k) < 0 || Cmp(text, j, l, k) < 0 ==> Cmp(text, i, l, k) < 0
    decreases k
  {
    var m := text.win;
    if 0 < m <= k && i < |text.sym| && j < |text.sym| && l < |text.sym| {
      WinTrans(text.sym, i, j, l, m);
      if WinCmp(text.sym, i, j, m) == 0 && WinCmp(text.sym, j, l, m) == 0 {
        CmpTrans(text, i + m, j + m, l + m, k - m);
      }
    }
  }

  /** A tie from end to end is a tie at every step. */
  lemma CmpChain(text: Text, i: nat, j: nat, l: nat, k: nat)
    requires Cmp(text, i, j, k) <= 0 && Cmp(text, j, l, k) <= 0
    ensures Cmp(text, i, l, k) <= 0
    ensures Cmp(text, i, l, k) == 0 <==> Cmp(text, i, j, k) == 0 && Cmp(text, j, l, k) == 0
  {
    CmpTrans(text, i, j, l, k);
    CmpSwap(text, i, j, k);
    CmpSwap(text, j, l, k);
    CmpSwap(text, i, l, k);
    if Cmp(text, i, j, k) == 0 && Cmp(text, j, l, k) == 0 {
      CmpTrans(text, l, j, i, k);
    }
  }

  /** The first `a` symbols decide, unless they tie; then the next `b` do. */
  lemma {:induction false} CmpSplit(text: Text, i: nat, j: nat, a: nat, b: nat)
    requires text.win > 0 && Whole(a, text.win) && b >= text.win
    ensures Cmp(text, i, j, a + b)
      == if Cmp(text, i, j, a) != 0 then Cmp(text, i, j, a) else Cmp(text, i + a, j + a, b)
    decreases a
  {
    if a > 0 {
      var m := text.win;
      if i < |text.sym| && j < |text.sym| && WinCmp(text.sym, i, j, m) == 0 {
        CmpSplit(text, i + m, j + m, a - m, b);
      }
    }
  }

  /** Two suffixes tie on `k` single symbols only while the shorter one has that many. */
  lemma {:induction false} TieFits(text: Text, i: nat, j: nat, k: nat)
    requires text.win == 1 && i < j <= |text.sym| && Cmp(text, i, j, k) == 0
    ensures j + k <= |text.sym|
    decreases k
  {
    if k > 0 {
      TieFits(text, i + 1, j + 1, k - 1);
    }
  }

  /** Looked at in full, different suffixes differ. */
  lemma AllDiffer(text: Text, i: nat, j: nat, k: nat)
    requires text.win == 1 && i < |text.sym| && j < |text.sym| && i != j && |text.sym| <= k
    ensures Cmp(text, i, j, k) != 0
  {
    CmpSwap(text, i, j, k);
    if Cmp(text, i, j, k) == 0 {
      if i < j {
        TieFits(text, i, j, k);
      } else {
        TieFits(text, j, i, k);
      }
    }
  }

  // ---- ranks

  /** `rank` orders and identifies the suffixes by their first `k` symbols. */
  ghost predicate RankOk(text: Text, rank: seq<int>, k: nat) {
    && |rank| == |text.sym|
    && forall i: nat, j: nat :: i < |text.sym| && j < |text.sym| ==> Sign(rank[i] - rank[j]) == Cmp(text, i, j, k)
  }

  /** `CompK::operator()`. */
  predicate CompK(rank: seq<int>, n: nat, k: nat, x: nat, y: nat)
    requires |rank| == n
  {
    if x + k >= n || y + k >= n then y < x else rank[x + k] < rank[y + k]
  }

  /** `CompK::equal`. */
  predicate EqualK(rank: seq<int>, n: nat, k: nat, x: nat, y: nat)
    requires |rank| == n
  {
    x + k < n && y + k < n && rank[x + k] == rank[y + k]
  }

  /** The text itself ranks single symbols. */
  lemma SymbolsRank(sym: seq<int>)
    ensures RankOk(Text(sym, 1), sym, 1)
  {
    forall i: nat, j: nat | i < |sym| && j < |sym| ensures Sign(sym[i] - sym[j]) == Cmp(Text(sym, 1), i, j, 1) {
      assert WinCmp(sym, i + 1, j + 1, 0) == 0 && Cmp(Text(sym, 1), i + 1, j + 1, 0) == 0;
    }
  }

  /** Inside a group that ties on `k` symbols, the comparator decides by `2k` symbols. */
  lemma CompKDoubles(text: Text, rank: seq<int>, k: nat, x: nat, y: nat)
    requires RankOk(text, rank, k) && x < |text.sym| && y < |text.sym| && Level(text, k) && Cmp(text, x, y, k) == 0
    ensures CompK(rank, |text.sym|, k, x, y) <==> Cmp(text, x, y, 2 * k) < 0
    ensures x != y ==> (EqualK(rank, |text.sym|, k, x, y) <==> Cmp(text, x, y, 2 * k) == 0)
  {
    CmpSplit(text, x, y, k, k);
  }

  // ---- sorted permutations

  function Identity(n: nat): (s: seq<nat>)
    ensures |s| == n && forall i :: 0 <= i < n ==> s[i] == i
  {
    seq(n, i requires 0 <= i < n => i)
  }

  ghost predicate IsPerm(sa: seq<nat>, n: nat) {
    multiset(sa) == multiset(Identity(n))
  }

  /** `sa` lists the suffixes in order of their first `k` symbols. */
  ghost predicate SortedTo(text: Text, sa: seq<nat>, k: nat, m: nat) {
    m <= |sa| && forall a, b :: 0 <= a < b < m ==> Cmp(text, sa[a], sa[b], k) <= 0
  }

  lemma PermFacts(sa: seq<nat>, n: nat)
    requires IsPerm(sa, n)
    ensures |sa| == n
    ensures forall a :: 0 <= a < |sa| ==> sa[a] < n
    ensures forall x: nat :: x < n ==> x in sa
    ensures forall a, b :: 0 <= a < b < |sa| ==> sa[a] != sa[b]
  {
    var id := Identity(n);
    assert |sa| == |multiset(sa)| == |multiset(id)| == n;
    forall a | 0 <= a < |sa| ensures sa[a] < n {
      assert sa[a] in multiset(sa);
      assert sa[a] in id;
    }
    forall x: nat | x < n ensures x in sa {
      assert id[x] in multiset(id);
    }
    forall a, b | 0 <= a < b < |sa| ensures sa[a] != sa[b] {
      Twice(sa, a, b);
      Once(n, sa[a]);
    }
  }

  lemma Twice(s: seq<nat>, a: nat, b: nat)
    requires a < b < |s|
    ensures s[a] == s[b] ==> multiset(s)[s[a]] >= 2
  {
    assert s == s[..b] + [s[b]] + s[b + 1..];
    assert s[a] in multiset(s[..b]) by { assert s[..b][a] == s[a]; }
  }

  lemma {:induction false} Once(n: nat, x: nat)
    ensures multiset(Identity(n))[x] <= 1
  {
    if n > 0 {
      Once(n - 1, x);
      assert Identity(n) == Identity(n - 1) + [n - 1];
      assert x == n - 1 ==> x !in Identity(n - 1);
    } else {
      assert Identity(0) == [];
    }
  }

  // ---- the specification

  /** Lexicographic order of whole sequences. */
  ghost predicate LexLess(a: seq<int>, b: seq<int>) {
    exists m: nat :: PartAt(a, b, m)
  }

  /** The sequences agree on `m` symbols, and then the first ends or has a smaller one. */
  ghost predicate PartAt(a: seq<int>, b: seq<int>, m: nat) {
    && m <= |a| && m < |b| && a[..m] == b[..m]
    && (m == |a| || a[m] < b[m])
  }

  /** The suffix array: all suffixes, strictly increasing. */
  ghost predicate IsSuffixArray(text: seq<int>, sa: seq<nat>) {
    && IsPerm(sa, |text|) && |sa| == |text|
    && (forall a :: 0 <= a < |sa| ==> sa[a] < |text|)
    && forall a, b :: 0 <= a < b < |sa| ==> LexLess(text[sa[a]..], text[sa[b]..])
  }

  /** The truncated comparison of single symbols, untruncated, is lexicographic order. */
  lemma {:induction false} CmpIsLex(sym: seq<int>, i: nat, j: nat, k: nat)
    requires i <= |sym| && j <= |sym| && Cmp(Text(sym, 1), i, j, k) < 0
    ensures LexLess(sym[i..], sym[j..])
    decreases k
  {
    var a, b := sym[i..], sym[j..];
    if i == |sym| || j == |sym| || sym[i] != sym[j] {
      assert PartAt(a, b, 0);
    } else {
      assert WinCmp(sym, i + 1, j + 1, 0) == 0;
      CmpIsLex(sym, i + 1, j + 1, k - 1);
      var a', b' := sym[i + 1..], sym[j + 1..];
      var m: nat :| PartAt(a', b', m);
      assert a[..m + 1] == [sym[i]] + a'[..m] && b[..m + 1] == [sym[j]] + b'[..m];
      assert PartAt(a, b, m + 1);
    }
  }

  /** A permutation sorted by enough symbols that nothing ties is the suffix array. */
  lemma SortedIsSuffixArray(sym: seq<int>, sa: seq<nat>, k: nat)
    requires IsPerm(sa, |sym|) && SortedTo(Text(sym, 1), sa, k, |sym|)
    requires forall a, b :: 0 <= a < b < |sa| ==> Cmp(Text(sym, 1), sa[a], sa[b], k) != 0
    ensures IsSuffixArray(sym, sa)
  {
    PermFacts(sa, |sym|);
    forall a, b | 0 <= a < b < |sa| ensures LexLess(sym[sa[a]..], sym[sa[b]..]) {
      CmpIsLex(sym, sa[a], sa[b], k);
    }
  }

  lemma LexAsym(a: seq<int>, b: seq<int>)
    requires LexLess(a, b)
    ensures !LexLess(b, a)
  {
    var m: nat :| PartAt(a, b, m);
    forall n: nat ensures !PartAt(b, a, n) {
      if PartAt(b, a, n) {
        PartOnce(a, b, m, n);
      }
    }
  }

  lemma PartOnce(a: seq<int>, b: seq<int>, m: nat, n: nat)
    requires PartAt(a, b, m)
    ensures !PartAt(b, a, n)
  {
    if n < m {
      assert a[..m][n] == b[..m][n];
    } else if m < n && n <= |b| && n < |a| {
      assert m < |a| ==> a[..n][m] == a[m] && b[..n][m] == b[m];
    }
  }

  /** There is only one suffix array, so all ways of building it agree. */
  lemma {:induction false} SuffixArrayUnique(text: seq<int>, s: seq<nat>, t: seq<nat>)
    requires IsSuffixArray(text, s) && IsSuffixArray(text, t)
    ensures s == t
  {
    PermFacts(s, |text|);
    PermFacts(t, |text|);
    forall a | 0 <= a < |s| ensures s[..a] == t[..a] && s[a] == t[a] {
      SameUpTo(text, s, t, a);
    }
  }

  lemma {:induction false} SameUpTo(text: seq<int>, s: seq<nat>, t: seq<nat>, a: nat)
    requires IsSuffixArray(text, s) && IsSuffixArray(text, t) && a < |s|
    ensures |s| == |t| && s[..a] == t[..a] && s[a] == t[a]
  {
    hide LexLess;
    if a > 0 {
      SameUpTo(text, s, t, a - 1);
      assert s[..a] == s[..a - 1] + [s[a - 1]] && t[..a] == t[..a - 1] + [t[a - 1]];
    }
    var i := NotBefore(|text|, s, t, a);
    var j := NotBefore(|text|, t, s, a);
    if s[a] != t[a] {
      LexAsym(text[s[a]..], text[t[a]..]);
    }
  }

  /** What one array has next, the other has no earlier. */
  lemma NotBefore(n: nat, s: seq<nat>, t: seq<nat>, a: nat) returns (i: nat)
    requires IsPerm(s, n) && IsPerm(t, n) && a < |s| && a <= |t| && s[..a] == t[..a]
    ensures a <= i < |t| && t[i] == s[a]
  {
    PermFacts(s, n);
    PermFacts(t, n);
    assert s[a] in t;
    i :| 0 <= i < |t| && t[i] == s[a];
    assert forall p :: 0 <= p < a ==> s[p] == t[p] by {
      assert forall p :: 0 <= p < a ==> s[..a][p] == t[..a][p];
    }
  }
}
