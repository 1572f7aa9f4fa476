/** Squeezing the free slots out of the pool, in place. */
module StrCompact {
  import opened Basics
  import opened HashSizing
  import opened HashSlots
  import opened StrPieces
  import opened StrSlots

  /** What belongs to the live slots, in order. */
  ghost function Live<T>(xs: seq<T>, link: seq<nat>): (r: seq<T>)
    requires |xs| == |link|
    ensures |r| <= |xs|
  {
    if xs == [] then []
    else
      var k := |xs| - 1;
      Live(xs[..k], link[..k]) + if link[k] == DELMARK then [] else [xs[k]]
  }

  lemma LiveStep<T>(xs: seq<T>, link: seq<nat>, n: nat)
    requires n < |xs| == |link|
    ensures Live(xs[..n + 1], link[..n + 1]) == Live(xs[..n], link[..n]) + if link[n] == DELMARK then [] else [xs[n]]
  {
    assert xs[..n + 1][..n] == xs[..n] && link[..n + 1][..n] == link[..n];
  }

  lemma {:induction false} LiveAll<T>(xs: seq<T>, link: seq<nat>)
    requires |xs| == |link| && forall i :: 0 <= i < |link| ==> link[i] != DELMARK
    ensures Live(xs, link) == xs
  {
    if xs != [] {
      var k := |xs| - 1;
      LiveAll(xs[..k], link[..k]);
      assert xs == xs[..k] + [xs[k]];
    }
  }

  lemma {:induction false} LiveLengths<T, U>(xs: seq<T>, ys: seq<U>, link: seq<nat>)
    requires |xs| == |ys| == |link|
    ensures |Live(xs, link)| == |Live(ys, link)|
  {
    if xs != [] {
      var k := |xs| - 1;
      LiveLengths(xs[..k], ys[..k], link[..k]);
    }
  }

  lemma {:induction false} LiveCount<T>(xs: seq<T>, link: seq<nat>)
    requires |xs| == |link|
    ensures |Live(xs, link)| + FreeCount(link) == |link|
  {
    if xs != [] {
      var k := |xs| - 1;
      LiveCount(xs[..k], link[..k]);
    }
  }

  lemma {:induction false} LiveBytes(pieces: seq<seq<Byte>>, link: seq<nat>)
    requires |pieces| == |link|
    ensures |Flat(Live(pieces, link))| + FreeBytes(pieces, link) == |Flat(pieces)|
  {
    if pieces != [] {
      var k := |pieces| - 1;
      LiveBytes(pieces[..k], link[..k]);
      var r := Live(pieces[..k], link[..k]);
      if link[k] != DELMARK {
        assert (r + [pieces[k]])[..|r|] == r;
      } else {
        assert Live(pieces, link) == r;
      }
    }
  }

  /** Every live thing satisfies what all live things did. */
  lemma {:induction false} LivePieces(pieces: seq<seq<Byte>>, link: seq<nat>, ok: seq<Byte> -> bool)
    requires |pieces| == |link| && forall i :: 0 <= i < |link| && link[i] != DELMARK ==> ok(pieces[i])
    ensures forall i :: 0 <= i < |Live(pieces, link)| ==> ok(Live(pieces, link)[i])
  {
    if pieces != [] {
      var k := |pieces| - 1;
      LivePieces(pieces[..k], link[..k], ok);
    }
  }

  /** The table after compaction is the live elements in order. */
  lemma {:induction false} LiveCells<V>(pieces: seq<seq<Byte>>, link: seq<nat>, vals: seq<V>, link': seq<nat>)
    requires |link| == |vals| == |pieces| && forall i :: 0 <= i < |link| && link[i] != DELMARK ==> HasKey(pieces[i])
    requires |link'| == |Live(pieces, link)| && forall i :: 0 <= i < |link'| ==> link'[i] != DELMARK
    ensures |Live(vals, link)| == |link'| && forall i :: 0 <= i < |link'| ==> HasKey(Live(pieces, link)[i])
    ensures Cells(Live(pieces, link), link', Live(vals, link)) == Sieve(Cells(pieces, link, vals), KeepAll())
  {
    if pieces == [] {
    } else {
      var k := |pieces| - 1;
      var l := Live(pieces[..k], link[..k]);
      LiveCells(pieces[..k], link[..k], vals[..k], link'[..|l|]);
      LiveLengths(pieces, vals, link);
      var data := Cells(pieces, link, vals);
      assert data[..k] == Cells(pieces[..k], link[..k], vals[..k]);
      SieveStep(data, KeepAll(), k);
      assert data[..k + 1] == data;
      LiveCellsStep(pieces, link, vals, link', k);
    }
  }

  lemma LiveCellsStep<V>(pieces: seq<seq<Byte>>, link: seq<nat>, vals: seq<V>, link': seq<nat>, k: nat)
    requires |link| == |vals| == |pieces| == k + 1 && (link[k] != DELMARK ==> HasKey(pieces[k]))
    requires |link'| == |Live(pieces, link)| == |Live(vals, link)| && forall i :: 0 <= i < |link'| ==>
        link'[i] != DELMARK
    requires |Live(pieces[..k], link[..k])| == |Live(vals[..k], link[..k])|
    requires forall i :: 0 <= i < |Live(pieces[..k], link[..k])| ==> HasKey(Live(pieces[..k], link[..k])[i])
    ensures forall i :: 0 <= i < |link'| ==> HasKey(Live(pieces, link)[i])
    ensures Cells(Live(pieces, link), link', Live(vals, link))
         == Cells(Live(pieces[..k], link[..k]), link'[..|Live(pieces[..k], link[..k])|], Live(vals[..k], link[..k]))
          + if link[k] == DELMARK then [] else [Elem(KeyIn(pieces[k]), vals[k])]
  {
    assert pieces[..k + 1] == pieces && link[..k + 1] == link && vals[..k + 1] == vals;
    LiveStep(pieces, link, k);
    LiveStep(vals, link, k);
  }

  /** How far compaction has come: the slots before `j` are squeezed into the first `i`. */
  ghost predicate Squeezed<V>(pieces: seq<seq<Byte>>, link: seq<nat>, vals: seq<V>, offs: seq<nat>,
                              p: seq<Byte>, o: seq<nat>, v: seq<V>, i: nat, j: nat)
  {
    && |link| == |vals| == |pieces| && Offsets(pieces, offs) && j <= |pieces|
    && |p| == |Flat(pieces)| && |o| == |offs| && |v| == |vals|
    && var r := Live(pieces[..j], link[..j]);
    && i == |r| <= j && |Flat(r)| <= offs[j] <= |p| && p[..|Flat(r)|] == Flat(r)
    && p[offs[j]..] == Flat(pieces)[offs[j]..]
    && (forall k :: 0 <= k < i ==> o[k] == Start(r, k)) && (forall k :: j <= k < |o| ==> o[k] == offs[k])
    && v[..i] == Live(vals[..j], link[..j]) && (forall k :: j <= k < |v| ==> v[k] == vals[k])
  }

  /** A free slot is passed over. */
  lemma SqueezeFree<V>(pieces: seq<seq<Byte>>, link: seq<nat>, vals: seq<V>, offs: seq<nat>, p: seq<Byte>, o: seq<nat>,
                       v: seq<V>, i: nat, j: nat)
    requires Squeezed(pieces, link, vals, offs, p, o, v, i, j) && j < |pieces| && link[j] == DELMARK
    ensures Squeezed(pieces, link, vals, offs, p, o, v, i, j + 1)
  {
    LiveStep(pieces, link, j);
    LiveStep(vals, link, j);
    assert Live(pieces[..j + 1], link[..j + 1]) == Live(pieces[..j], link[..j]);
    assert Live(vals[..j + 1], link[..j + 1]) == Live(vals[..j], link[..j]);
    PieceAt(pieces, j);
    assert p[offs[j + 1]..] == p[offs[j]..][offs[j + 1] - offs[j]..];
    assert Flat(pieces)[offs[j + 1]..] == Flat(pieces)[offs[j]..][offs[j + 1] - offs[j]..];
  }

  /** A live slot is moved down. */
  lemma SqueezeLive<V>(pieces: seq<seq<Byte>>, link: seq<nat>, vals: seq<V>, offs: seq<nat>, p: seq<Byte>, o: seq<nat>,
                       v: seq<V>, i: nat, j: nat, lo: nat, p': seq<Byte>)
    requires Squeezed(pieces, link, vals, offs, p, o, v, i, j) && j < |pieces| && link[j] != DELMARK
    requires lo == |Flat(Live(pieces[..j], link[..j]))| && offs[j] <= offs[j + 1] <= |p|
      && lo + (offs[j + 1] - offs[j]) <= |p|
    requires p' == p[..lo] + p[offs[j]..offs[j + 1]] + p[lo + (offs[j + 1] - offs[j])..]
    ensures Squeezed(pieces, link, vals, offs, p', o[i := lo], v[i := v[j]], i + 1, j + 1)
    ensures lo + (offs[j + 1] - offs[j]) == |Flat(Live(pieces[..j + 1], link[..j + 1]))|
  {
    hide Live, Flat, Start;
    var r, r' := Live(pieces[..j], link[..j]), Live(pieces[..j + 1], link[..j + 1]);
    LiveStep(pieces, link, j);
    LiveStep(vals, link, j);
    assert r' == r + [pieces[j]];
    FlatSnoc(r, pieces[j]);
    MovedPiece(pieces, offs, p, p', lo, j, Flat(r));
    MovedStarts(r, pieces[j], o, i, lo);
    assert v[i := v[j]][..i + 1] == v[..i] + [vals[j]];
  }

  lemma FlatSnoc(r: seq<seq<Byte>>, x: seq<Byte>)
    ensures Flat(r + [x]) == Flat(r) + x
  {
    assert (r + [x])[..|r|] == r;
  }

  lemma MovedPiece(pieces: seq<seq<Byte>>, offs: seq<nat>, p: seq<Byte>, p': seq<Byte>, lo: nat, j: nat, f: seq<Byte>)
    requires Offsets(pieces, offs) && j < |pieces| && |p| == |Flat(pieces)| && offs[j] <= offs[j + 1] <= |p|
    requires lo == |f| <= offs[j] && p[..lo] == f && p[offs[j]..] == Flat(pieces)[offs[j]..]
    requires lo + (offs[j + 1] - offs[j]) <= |p|
      && p' == p[..lo] + p[offs[j]..offs[j + 1]] + p[lo + (offs[j + 1] - offs[j])..]
    ensures offs[j + 1] - offs[j] == |pieces[j]| && |p'| == |p|
    ensures p'[..lo + |pieces[j]|] == f + pieces[j] && p'[offs[j + 1]..] == Flat(pieces)[offs[j + 1]..]
  {
    PieceAt(pieces, j);
    var len := offs[j + 1] - offs[j];
    assert p[offs[j]..offs[j + 1]] == p[offs[j]..][..len] == Flat(pieces)[offs[j]..][..len] == pieces[j];
    assert p'[offs[j + 1]..] == p[offs[j + 1]..];
    assert p[offs[j + 1]..] == p[offs[j]..][len..] && Flat(pieces)[offs[j + 1]..] == Flat(pieces)[offs[j]..][len..];
  }

  lemma MovedStarts(r: seq<seq<Byte>>, x: seq<Byte>, o: seq<nat>, i: nat, lo: nat)
    requires i == |r| < |o| && lo == |Flat(r)| && forall k :: 0 <= k < i ==> o[k] == Start(r, k)
    ensures forall k :: 0 <= k <= i ==> o[i := lo][k] == Start(r + [x], k)
  {
    FlatLength(r);
    forall k | 0 <= k <= i ensures o[i := lo][k] == Start(r + [x], k) {
      StartPrefix(r + [x], |r|, k);
      assert (r + [x])[..|r|] == r;
    }
  }

  /** Nothing has moved while all slots are live. */
  lemma SqueezeStart<V>(pieces: seq<seq<Byte>>, link: seq<nat>, vals: seq<V>, offs: seq<nat>, n: nat)
    requires |link| == |vals| == |pieces| && Offsets(pieces, offs) && n <= |pieces|
    requires forall i :: 0 <= i < n ==> link[i] != DELMARK
    ensures Squeezed(pieces, link, vals, offs, Flat(pieces), offs, vals, n, n)
    ensures n <= |pieces| && offs[n] == |Flat(Live(pieces[..n], link[..n]))|
  {
    LiveAll(pieces[..n], link[..n]);
    LiveAll(vals[..n], link[..n]);
    FlatLength(pieces[..n]);
    StartPrefix(pieces, n, n);
    var a, b := pieces[..n], pieces[n..];
    assert pieces == a + b;
    FlatConcat(a, b);
    FlatLength(pieces);
    StartOrder(pieces, n, |pieces|);
    forall k | 0 <= k < n ensures offs[k] == Start(a, k) {
      StartPrefix(pieces, n, k);
    }
  }

  /** Moves every live slot down over the free ones before it. */
  method Squeeze<V>(pool: seq<Byte>, offs: seq<nat>, link: seq<nat>, vals: seq<V>, ghost pieces: seq<seq<Byte>>)
    returns (p: seq<Byte>, o: seq<nat>, v: seq<V>)
    requires |link| == |vals| == |pieces| && pool == Flat(pieces) && Offsets(pieces, offs)
    ensures |Live(pieces, link)| == |Live(vals, link)| == |v|
    ensures p == Flat(Live(pieces, link)) && Offsets(Live(pieces, link), o) && v == Live(vals, link)
  {
    hide Flat, Live, Squeezed, Start;
    var n := |link|;
    var j := 0;
    while j < n && link[j] != DELMARK
      invariant 0 <= j <= n && forall k :: 0 <= k < j ==> link[k] != DELMARK
    {
      j := j + 1;
    }
    SqueezeStart(pieces, link, vals, offs, j);
    p, o, v := pool, offs, vals;
    var i, lo := j, offs[j];
    while j < n
      invariant 0 <= i <= j <= n && |p| == |pool| && |o| == |offs| && |v| == |vals|
      invariant Squeezed(pieces, link, vals, offs, p, o, v, i, j) && lo == |Flat(Live(pieces[..j], link[..j]))|
    {
      SqueezeRoom(pieces, link, vals, offs, p, o, v, i, j);
      if link[j] == DELMARK {
        SqueezeFree(pieces, link, vals, offs, p, o, v, i, j);
        SameLive(pieces, link, j);
      } else {
        var beg, end := o[j], o[j + 1];
        var q := p[..lo] + p[beg..end] + p[lo + (end - beg)..];
        SqueezeLive(pieces, link, vals, offs, p, o, v, i, j, lo, q);
        p, o, v := q, o[i := lo], v[i := v[j]];
        i, lo := i + 1, lo + (end - beg);
      }
      j := j + 1;
    }
    SqueezeEnd(pieces, link, vals, offs, p, o, v, i, lo);
    p, o, v := p[..lo], o[..i] + [lo], v[..i];
  }

  lemma SameLive(pieces: seq<seq<Byte>>, link: seq<nat>, j: nat)
    requires j < |pieces| == |link| && link[j] == DELMARK
    ensures Live(pieces[..j + 1], link[..j + 1]) == Live(pieces[..j], link[..j])
  {
    LiveStep(pieces, link, j);
  }

  lemma SqueezeRoom<V>(pieces: seq<seq<Byte>>, link: seq<nat>, vals: seq<V>, offs: seq<nat>, p: seq<Byte>, o: seq<nat>,
                       v: seq<V>, i: nat, j: nat)
    requires Squeezed(pieces, link, vals, offs, p, o, v, i, j) && j < |pieces|
    ensures |offs| == |o| == |pieces| + 1 && o[j] == offs[j] <= offs[j + 1] == o[j + 1] <= |p|
    ensures |Flat(Live(pieces[..j], link[..j]))| + (offs[j + 1] - offs[j]) <= |p|
    ensures i <= j < |v| == |vals| && |p| == |Flat(pieces)|
  {
    PieceAt(pieces, j);
  }

  lemma SqueezeEnd<V>(pieces: seq<seq<Byte>>, link: seq<nat>, vals: seq<V>, offs: seq<nat>, p: seq<Byte>, o: seq<nat>,
                      v: seq<V>, i: nat, lo: nat)
    requires Squeezed(pieces, link, vals, offs, p, o, v, i, |pieces|)
      && lo == |Flat(Live(pieces[..|pieces|], link[..|pieces|]))|
    ensures lo <= |p| && i <= |o| && i <= |v|
    ensures |Live(pieces, link)| == |Live(vals, link)| == i
    ensures p[..lo] == Flat(Live(pieces, link)) && v[..i] == Live(vals, link)
      && Offsets(Live(pieces, link), o[..i] + [lo])
  {
    var n := |pieces|;
    assert pieces[..n] == pieces && link[..n] == link && vals[..n] == vals;
    FlatLength(Live(pieces, link));
  }
}
