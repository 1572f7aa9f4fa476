/** Index-linked chains: the collision lists and the freelist of `gold_hash_tab`
    are singly linked lists whose cells are array slots. */
module HashChains {
  import opened HashSizing

  /** The slot a chain starts with, as stored in its head field. */
  function First(c: seq<nat>): nat {
    if |c| == 0 then TAIL else c[0]
  }

  /** The link stored in the `j`-th slot of a chain. */
  function After(c: seq<nat>, j: nat): nat
    requires j < |c|
  {
    if j + 1 < |c| then c[j + 1] else TAIL
  }

  ghost predicate NoDup<T>(c: seq<T>) {
    forall i, j :: 0 <= i < j < |c| ==> c[i] != c[j]
  }

  /** Following `link` from `head` visits exactly the slots of `c`, in order, and ends. */
  ghost predicate IsChain(head: nat, c: seq<nat>, link: seq<nat>) {
    && head == First(c)
    && NoDup(c)
    && (forall j :: 0 <= j < |c| ==> c[j] < |link|)
    && (forall j {:trigger link[c[j]]} :: 0 <= j < |c| ==> link[c[j]] == After(c, j))
  }

  /** The same chain without its `j`-th slot. */
  function Without<T>(c: seq<T>, j: nat): (r: seq<T>)
    requires j < |c|
    ensures |r| == |c| - 1
  {
    c[..j] + c[j + 1..]
  }

  lemma WithoutMembers<T>(c: seq<T>, j: nat)
    requires j < |c| && NoDup(c)
    ensures NoDup(Without(c, j))
    ensures c[j] !in Without(c, j)
    ensures forall x :: x in Without(c, j) <==> x in c && x != c[j]
  {
    var r := Without(c, j);
    assert forall i :: 0 <= i < |r| ==> r[i] == if i < j then c[i] else c[i + 1];
    forall x | x in c && x != c[j] ensures x in r {
      var i :| 0 <= i < |c| && c[i] == x;
      assert r[if i < j then i else i - 1] == x;
    }
  }

  /** A chain is determined by its head and the links: two readings agree. */
  lemma {:induction false} ChainUnique(head: nat, c: seq<nat>, d: seq<nat>, link: seq<nat>)
    requires |link| <= TAIL
    requires IsChain(head, c, link) && IsChain(head, d, link)
    ensures c == d
    decreases |c|
  {
    if c != [] && d != [] {
      assert forall j :: 0 <= j < |c[1..]| ==> c[1..][j] == c[j + 1];
      assert forall j :: 0 <= j < |d[1..]| ==> d[1..][j] == d[j + 1];
      assert link[c[0]] == After(c, 0) == After(d, 0);
      assert forall j :: 0 <= j < |c[1..]| ==> After(c[1..], j) == After(c, j + 1);
      assert forall j :: 0 <= j < |d[1..]| ==> After(d[1..], j) == After(d, j + 1);
      ChainUnique(link[c[0]], c[1..], d[1..], link);
      assert c == [c[0]] + c[1..] && d == [d[0]] + d[1..];
    }
  }

  lemma ChainFrame(head: nat, c: seq<nat>, link: seq<nat>, x: nat, v: nat)
    requires IsChain(head, c, link) && x < |link| && x !in c
    ensures IsChain(head, c, link[x := v])
  {
  }

  /** Newer at head: linking slot `s` in front of a chain. */
  lemma ChainPush(head: nat, c: seq<nat>, link: seq<nat>, s: nat)
    requires IsChain(head, c, link) && s < |link| && s !in c
    ensures IsChain(s, [s] + c, link[s := head])
  {
    var d := [s] + c;
    assert forall j :: 0 <= j < |d| ==> After(d, j) == if j == 0 then head else After(c, j - 1);
  }

  /** Unhooking the `j`-th slot: its predecessor (or the head field) takes over its link. */
  lemma ChainRemove(head: nat, c: seq<nat>, link: seq<nat>, j: nat)
    requires IsChain(head, c, link) && j < |c|
    ensures j == 0 ==> IsChain(link[c[0]], Without(c, 0), link)
    ensures 0 < j ==> IsChain(head, Without(c, j), link[c[j - 1] := link[c[j]]])
  {
    var r := Without(c, j);
    WithoutMembers(c, j);
    var link' := if j == 0 then link else link[c[j - 1] := link[c[j]]];
    forall i | 0 <= i < |r| ensures r[i] < |link'| && link'[r[i]] == After(r, i) {
      if i < j {
        assert r[i] == c[i];
        assert i + 1 < j ==> r[i + 1] == c[i + 1];
        assert i + 1 == j && i + 1 < |r| ==> r[i + 1] == c[j + 1];
      } else {
        assert r[i] == c[i + 1];
        assert i + 1 < |r| ==> r[i + 1] == c[i + 2];
      }
    }
  }

  function Range(n: nat): (r: set<nat>)
    ensures |r| == n
    ensures forall x: nat :: x in r <==> x < n
  {
    if n == 0 then {} else Range(n - 1) + {n - 1}
  }

  function Members<T>(c: seq<T>): set<T> {
    set x | x in c
  }

  lemma {:induction false} NoDupCount<T>(c: seq<T>)
    requires NoDup(c)
    ensures |Members(c)| == |c|
  {
    if |c| > 0 {
      NoDupCount(c[1..]);
      assert Members(c) == Members(c[1..]) + {c[0]};
    }
  }

  /** `n` distinct indexes below `n` are all of them. */
  lemma NoDupCovers(c: seq<nat>, n: nat)
    requires NoDup(c) && |c| == n && forall i :: 0 <= i < |c| ==> c[i] < n
    ensures forall x: nat :: x < n ==> x in c
  {
    NoDupCount(c);
    var s := Members(c);
    assert s <= Range(n);
    if s != Range(n) {
      SubsetCount(s, Range(n));
    }
    forall x: nat | x < n ensures x in c {
      assert x in s;
    }
  }

  lemma {:induction false} SubsetCount<T>(a: set<T>, b: set<T>)
    requires a <= b
    ensures |a| <= |b|
    ensures a != b ==> |a| < |b|
  {
    if a != {} {
      var x :| x in a;
      SubsetCount(a - {x}, b - {x});
    }
  }

  lemma NoDupFits(c: seq<nat>, n: nat)
    requires NoDup(c) && forall i :: 0 <= i < |c| ==> c[i] < n
    ensures |c| <= n
  {
    NoDupCount(c);
    var s := Members(c);
    assert s <= Range(n);
    SubsetCount(s, Range(n));
  }

  lemma SomeMember<T>(c: seq<T>)
    ensures c != [] ==> exists x :: x in c
  {
    if c != [] {
      assert c[0] in c;
    }
  }
}
