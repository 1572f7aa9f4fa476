/** Exactly which texts a first sort by padded windows gets right: those in which no suffix that
    begins an earlier one ends inside a window on the wrong side of zero. */
module SuffixBorders {
  import opened Basics
  import opened SuffixOrder
  import opened SuffixGroups
  import opened SuffixFirstN

  /** The suffix at `y` begins the longer one at `x`. */
  ghost predicate Begins(sym: seq<int>, x: nat, y: nat) {
    x < y <= |sym| && sym[y..] == sym[x..x + |sym| - y]
  }

  /** The sign of the first of `len` symbols that is not zero. */
  function FirstSign(sym: seq<int>, i: nat, len: nat): (c: int)
    ensures -1 <= c <= 1
    decreases len
  {
    if len == 0 then 0
    else if SymbolAt(sym, i) != 0 then Sign(SymbolAt(sym, i))
    else FirstSign(sym, i + 1, len - 1)
  }

  /** How many of `len` symbols are left over after whole windows. */
  function Over(len: nat, m: nat): (over: nat)
    requires m > 0
    ensures over < m && over <= len && Whole(len - over, m)
  {
    if len < m then len else Over(len - m, m)
  }

  /** Where the suffix at `y` ends, the one at `x` goes on: up to the end of the window with a
      symbol above zero, or with zeros if another window is looked at. */
  ghost predicate EndsBelow(sym: seq<int>, m: nat, x: nat, y: nat)
    requires m > 0 && y <= |sym|
  {
    var len := |sym| - y;
    var over := Over(len, m);
    over == 0 || FirstSign(sym, x + len, m - over) > 0
    || (FirstSign(sym, x + len, m - over) == 0 && len - over + m < LastK(|sym|, m))
  }

  /** For every text and every length of the first sort: everything that can be built is the
      suffix array, exactly when every suffix that begins an earlier one ends below it. */
  lemma BuiltExactly(sym: seq<int>, m: nat)
    requires m > 0
    ensures (forall sa :: Built(sym, m, sa) ==> IsSuffixArray(sym, sa))
      <==> (forall x, y :: 0 <= x < y < |sym| && Begins(sym, x, y) ==> EndsBelow(sym, m, x, y))
  {
    hide IsSuffixArray, Built, EndsBelow, Begins;
    if forall x, y :: 0 <= x < y < |sym| && Begins(sym, x, y) ==> EndsBelow(sym, m, x, y) {
      forall sa | Built(sym, m, sa) ensures IsSuffixArray(sym, sa) {
        RightBuilt(sym, m, sa);
      }
    } else {
      var x, y :| 0 <= x < y < |sym| && Begins(sym, x, y) && !EndsBelow(sym, m, x, y);
      var sa := WrongBuilt(sym, m, x, y);
    }
  }

  // ---- comparing through windows and symbol by symbol

  /** Suffixes that part before either ends compare by the first symbols that differ. */
  lemma {:induction false} PartsByWindows(sym: seq<int>, m: nat, x: nat, y: nat, d: nat, k: nat)
    requires m > 0 && x + d < |sym| && y + d < |sym| && d < k && Whole(k, m)
    requires sym[x..x + d] == sym[y..y + d] && sym[x + d] != sym[y + d]
    ensures Cmp(Text(sym, m), x, y, k) == Sign(sym[x + d] - sym[y + d])
    decreases k
  {
    WindowParts(sym, x, y, d, m);
    if d >= m {
      assert sym[x + m..x + d] == sym[x..x + d][m..] && sym[y + m..y + d] == sym[y..y + d][m..];
      PartsByWindows(sym, m, x + m, y + m, d - m, k - m);
    }
  }

  lemma {:induction false} WindowParts(sym: seq<int>, x: nat, y: nat, d: nat, m: nat)
    requires x + d < |sym| && y + d < |sym| && sym[x..x + d] == sym[y..y + d] && sym[x + d] != sym[y + d]
    ensures WinCmp(sym, x, y, m) == if d < m then Sign(sym[x + d] - sym[y + d]) else 0
    decreases m
  {
    if m > 0 && d > 0 {
      assert sym[x..x + d][0] == sym[y..y + d][0];
      assert sym[x + 1..x + d] == sym[x..x + d][1..] && sym[y + 1..y + d] == sym[y..y + d][1..];
      WindowParts(sym, x + 1, y + 1, d - 1, m - 1);
    }
  }

  /** A suffix that begins an earlier one is compared by what follows where it ends, `over` of
      its symbols being in the last window. */
  lemma {:induction false} BeginsByWindows(sym: seq<int>, m: nat, x: nat, y: nat, k: nat, over: nat)
    requires Begins(sym, x, y) && over < m && over <= |sym| - y <= k && Whole(k, m) && Whole(|sym| - y - over, m)
    ensures var len := |sym| - y;
            var c := if over == 0 then 0 else FirstSign(sym, x + len, m - over);
            var next := if over == 0 then len else len - over + m;
            Cmp(Text(sym, m), x, y, k) == if c != 0 then c else if next < k then 1 else 0
    decreases k
  {
    hide WinCmp, FirstSign;
    var len := |sym| - y;
    WindowBegins(sym, x, y, m);
    if len >= m {
      assert sym[y + m..] == sym[y..][m..] && sym[x + m..x + len] == sym[x..x + len][m..];
      BeginsByWindows(sym, m, x + m, y + m, k - m, over);
    }
  }

  lemma {:induction false} WindowBegins(sym: seq<int>, x: nat, y: nat, m: nat)
    requires Begins(sym, x, y)
    ensures var len := |sym| - y;
            WinCmp(sym, x, y, m) == if len < m then FirstSign(sym, x + len, m - len) else 0
    decreases m
  {
    var len := |sym| - y;
    if m > 0 {
      if len > 0 {
        assert sym[y..][0] == sym[x..x + len][0];
        assert sym[y + 1..] == sym[y..][1..] && sym[x + 1..x + len] == sym[x..x + len][1..];
        WindowBegins(sym, x + 1, y + 1, m - 1);
      } else {
        PastEnd(sym, x, y, m);
      }
    }
  }

  lemma {:induction false} PastEnd(sym: seq<int>, x: nat, y: nat, m: nat)
    requires y >= |sym|
    ensures WinCmp(sym, x, y, m) == FirstSign(sym, x, m)
    decreases m
  {
    if m > 0 {
      PastEnd(sym, x + 1, y + 1, m - 1);
    }
  }

  /** Of two suffixes the later one begins the other, or they part. */
  lemma {:induction false} BeginsOrParts(sym: seq<int>, x: nat, y: nat) returns (d: nat)
    requires x < y <= |sym|
    ensures Begins(sym, x, y) || (y + d < |sym| && sym[x..x + d] == sym[y..y + d] && sym[x + d] != sym[y + d])
    decreases |sym| - y
  {
    d := 0;
    if y < |sym| && sym[x] == sym[y] {
      var e := BeginsOrParts(sym, x + 1, y + 1);
      d := e + 1;
      assert sym[y..] == [sym[y]] + sym[y + 1..] && sym[x..x + |sym| - y] == [sym[x]] + sym[x + 1..x + |sym| - y];
      if y + d < |sym| {
        assert sym[x..x + d] == [sym[x]] + sym[x + 1..x + d] && sym[y..y + d] == [sym[y]] + sym[y + 1..y + d];
      }
    }
  }

  /** Windows tell an earlier suffix from a later one as symbols do, but for those that begin
      it and do not end below it. */
  lemma WindowsTell(sym: seq<int>, m: nat, x: nat, y: nat)
    requires m > 0 && x < y < |sym|
    ensures var k := LastK(|sym|, m);
            if Begins(sym, x, y) && !EndsBelow(sym, m, x, y)
            then Cmp(Text(sym, m), x, y, k) <= 0 && Cmp(Text(sym, 1), x, y, k) > 0
            else Cmp(Text(sym, m), x, y, k) == Cmp(Text(sym, 1), x, y, k) != 0
  {
    var k := LastK(|sym|, m);
    assert Whole(m, m);
    LastKFits(Text(sym, m), |sym|, m);
    WholeOnes(k);
    var d := BeginsOrParts(sym, x, y);
    if Begins(sym, x, y) {
      WholeOnes(|sym| - y);
      BeginsByWindows(sym, m, x, y, k, Over(|sym| - y, m));
      BeginsByWindows(sym, 1, x, y, k, 0);
    } else {
      PartsByWindows(sym, m, x, y, d, k);
      PartsByWindows(sym, 1, x, y, d, k);
    }
  }

  lemma RightBuilt(sym: seq<int>, m: nat, sa: seq<nat>)
    requires m > 0 && Built(sym, m, sa)
    requires forall x, y :: 0 <= x < y < |sym| && Begins(sym, x, y) ==> EndsBelow(sym, m, x, y)
    ensures IsSuffixArray(sym, sa)
  {
    hide EndsBelow, Begins, IsSuffixArray;
    var k := LastK(|sym|, m);
    PermFacts(sa, |sym|);
    forall a, b | 0 <= a < b < |sa| ensures Cmp(Text(sym, 1), sa[a], sa[b], k) < 0 {
      var x, y := sa[a], sa[b];
      CmpSwap(Text(sym, m), x, y, k);
      CmpSwap(Text(sym, 1), x, y, k);
      if x < y {
        WindowsTell(sym, m, x, y);
      } else {
        WindowsTell(sym, m, y, x);
      }
    }
    SortedIsSuffixArray(sym, sa, k);
  }

  // ---- an array that is built and wrong

  lemma WrongBuilt(sym: seq<int>, m: nat, x: nat, y: nat) returns (sa: seq<nat>)
    requires m > 0 && x < y < |sym| && Begins(sym, x, y) && !EndsBelow(sym, m, x, y)
    ensures Built(sym, m, sa) && !IsSuffixArray(sym, sa)
  {
    hide EndsBelow, IsSuffixArray, Begins, Cmp, LastK;
    var k, text := LastK(|sym|, m), Text(sym, m);
    var s := SomeBuilt(sym, m);
    PermFacts(s, |sym|);
    assert x in s && y in s;
    var a :| 0 <= a < |s| && s[a] == x;
    var b :| 0 <= b < |s| && s[b] == y;
    WindowsTell(sym, m, x, y);
    sa := s;
    if a < b {
      OutOfOrder(sym, sa, x, y, k, a, b);
    } else {
      CmpSwap(text, x, y, k);
      sa := s[b := x][a := y];
      Exchanged(sym, m, s, b, a, sa);
      OutOfOrder(sym, sa, x, y, k, b, a);
    }
  }

  /** Suffixes that tie may stand in either order. */
  lemma Exchanged(sym: seq<int>, m: nat, s: seq<nat>, a: nat, b: nat, t: seq<nat>)
    requires m > 0 && Built(sym, m, s) && a < b < |s| && t == s[a := s[b]][b := s[a]]
    requires Cmp(Text(sym, m), s[a], s[b], LastK(|sym|, m)) == 0
    ensures Built(sym, m, t)
  {
    var k, text := LastK(|sym|, m), Text(sym, m);
    PermFacts(s, |sym|);
    Swapped(s, a, b);
    SwappedTies(text, s, a, b, k);
    TieAlongKeeps(text, s, t, k);
  }

  lemma OutOfOrder(sym: seq<int>, sa: seq<nat>, x: nat, y: nat, k: nat, a: nat, b: nat)
    requires x < y < |sym| && Cmp(Text(sym, 1), x, y, k) > 0 && a < b < |sa| && sa[a] == x && sa[b] == y
    ensures !IsSuffixArray(sym, sa)
  {
    CmpSwap(Text(sym, 1), x, y, k);
    CmpIsLex(sym, y, x, k);
    LexAsym(sym[y..], sym[x..]);
  }

  lemma Swapped(s: seq<nat>, a: nat, b: nat)
    requires a < b < |s|
    ensures multiset(s[a := s[b]][b := s[a]]) == multiset(s)
  {
  }

  lemma SwappedTies(text: Text, s: seq<nat>, a: nat, b: nat, k: nat)
    requires a < b < |s| && Cmp(text, s[a], s[b], k) == 0
    ensures TieAlong(text, s, s[a := s[b]][b := s[a]], k)
  {
    CmpSwap(text, s[a], s[b], k);
    forall i | 0 <= i < |s| ensures Cmp(text, s[i], s[a := s[b]][b := s[a]][i], k) == 0 {
      CmpSelf(text, s[i], k);
    }
  }

  lemma SomeBuilt(sym: seq<int>, m: nat) returns (sa: seq<nat>)
    requires m > 0
    ensures Built(sym, m, sa)
  {
    var k, text, id := LastK(|sym|, m), Text(sym, m), Identity(|sym|);
    var less := (x: nat, y: nat) => Cmp(text, x, y, k) < 0;
    FirstNWeakOrder(text, k, less, id);
    sa := SomeOrder(less, id, |id|);
    assert id[..|id|] == id;
    PermFacts(sa, |sym|);
    forall a, b | 0 <= a < b < |sa| ensures Cmp(text, sa[a], sa[b], k) <= 0 {
      assert !less(sa[b], sa[a]);
      CmpSwap(text, sa[a], sa[b], k);
    }
  }

  /** Elements can be put into any weak order. */
  lemma {:induction false} SomeOrder(less: (nat, nat) -> bool, s: seq<nat>, i: nat) returns (r: seq<nat>)
    requires WeakOrder(less, s) && i <= |s|
    ensures multiset(r) == multiset(s[..i]) && OrderedBy(less, r)
    decreases i
  {
    r := [];
    if i > 0 {
      var t := SomeOrder(less, s, i - 1);
      var x := s[i - 1];
      var p := SomePlace(less, t, x, |t|);
      InsertOrdered(s, less, t, i - 1, p);
      InsertAdds(t, p, x);
      assert s[..i] == s[..i - 1] + [x];
      r := InsertAt(t, p, x);
    }
  }

  lemma {:induction false} SomePlace(less: (nat, nat) -> bool, r: seq<nat>, x: nat, q: nat) returns (p: nat)
    requires q <= |r| && forall j :: q <= j < |r| ==> less(x, r[j])
    ensures p <= |r| && (forall j :: p <= j < |r| ==> less(x, r[j])) && (p > 0 ==> !less(x, r[p - 1]))
    decreases q
  {
    p := q;
    if q > 0 && less(x, r[q - 1]) {
      p := SomePlace(less, r, x, q - 1);
    }
  }
}
