/** The string pool: the pieces of all slots one after another, and where each starts. */
module StrPieces {
  import opened Basics

  ghost function Flat(pieces: seq<seq<Byte>>): (s: seq<Byte>) {
    if pieces == [] then [] else Flat(pieces[..|pieces| - 1]) + pieces[|pieces| - 1]
  }

  /** Where piece `i` starts; for `i == |pieces|`, where the last one ends. */
  ghost function Start(pieces: seq<seq<Byte>>, i: nat): (o: nat)
    requires i <= |pieces|
  {
    if i == 0 then 0 else Start(pieces, i - 1) + |pieces[i - 1]|
  }

  lemma {:induction false} StartPrefix(pieces: seq<seq<Byte>>, n: nat, i: nat)
    requires i <= n <= |pieces|
    ensures Start(pieces[..n], i) == Start(pieces, i)
    decreases i
  {
    if i > 0 {
      StartPrefix(pieces, n, i - 1);
    }
  }

  lemma {:induction false} FlatLength(pieces: seq<seq<Byte>>)
    ensures |Flat(pieces)| == Start(pieces, |pieces|)
  {
    if pieces != [] {
      FlatLength(pieces[..|pieces| - 1]);
      StartPrefix(pieces, |pieces| - 1, |pieces| - 1);
    }
  }

  lemma {:induction false} StartOrder(pieces: seq<seq<Byte>>, i: nat, j: nat)
    requires i <= j <= |pieces|
    ensures Start(pieces, i) <= Start(pieces, j)
    decreases j
  {
    if i < j {
      StartOrder(pieces, i, j - 1);
    }
  }

  lemma {:induction false} FlatConcat(a: seq<seq<Byte>>, b: seq<seq<Byte>>)
    ensures Flat(a + b) == Flat(a) + Flat(b)
    decreases |b|
  {
    if b == [] {
      assert a + b == a;
    } else {
      var k := |b| - 1;
      FlatConcat(a, b[..k]);
      assert (a + b)[..|a + b| - 1] == a + b[..k];
      assert Flat(a) + Flat(b[..k]) + b[k] == Flat(a) + (Flat(b[..k]) + b[k]);
    }
  }

  lemma FlatOne(p: seq<Byte>)
    ensures Flat([p]) == p
  {
    assert [p][..0] == [];
    assert Flat([p]) == [] + p;
  }

  /** The pool around piece `i`. */
  lemma FlatAround(pieces: seq<seq<Byte>>, i: nat)
    requires i < |pieces|
    ensures Flat(pieces) == Flat(pieces[..i]) + pieces[i] + Flat(pieces[i + 1..])
    ensures |Flat(pieces[..i])| == Start(pieces, i)
    ensures Start(pieces, i + 1) == Start(pieces, i) + |pieces[i]| <= |Flat(pieces)|
  {
    assert pieces == pieces[..i] + ([pieces[i]] + pieces[i + 1..]);
    FlatConcat(pieces[..i], [pieces[i]] + pieces[i + 1..]);
    FlatConcat([pieces[i]], pieces[i + 1..]);
    FlatOne(pieces[i]);
    var a, b, c := Flat(pieces[..i]), pieces[i], Flat(pieces[i + 1..]);
    assert a + (b + c) == a + b + c;
    FlatLength(pieces[..i]);
    StartPrefix(pieces, i, i);
  }

  /** Reading a slot. */
  lemma PieceAt(pieces: seq<seq<Byte>>, i: nat)
    requires i < |pieces|
    ensures Start(pieces, i) <= Start(pieces, i + 1) <= |Flat(pieces)|
    ensures Flat(pieces)[Start(pieces, i)..Start(pieces, i + 1)] == pieces[i]
  {
    FlatAround(pieces, i);
  }

  /** Writing a slot: the other pieces and all starts stay. */
  lemma PieceWrite(pieces: seq<seq<Byte>>, i: nat, p: seq<Byte>)
    requires i < |pieces| && |p| == |pieces[i]|
    ensures Start(pieces, i) <= Start(pieces, i + 1) <= |Flat(pieces)|
    ensures Flat(pieces[i := p]) == Flat(pieces)[..Start(pieces, i)] + p + Flat(pieces)[Start(pieces, i + 1)..]
  {
    var pieces' := pieces[i := p];
    FlatAround(pieces, i);
    FlatAround(pieces', i);
    assert pieces'[..i] == pieces[..i] && pieces'[i + 1..] == pieces[i + 1..];
  }

  lemma {:induction false} StartSame(pieces: seq<seq<Byte>>, i: nat, p: seq<Byte>, j: nat)
    requires i < |pieces| && |p| == |pieces[i]| && j <= |pieces|
    ensures Start(pieces[i := p], j) == Start(pieces, j)
    decreases j
  {
    if j > 0 {
      StartSame(pieces, i, p, j - 1);
    }
  }

  /** The offsets of the nodes, one more than there are slots. */
  ghost predicate Offsets(pieces: seq<seq<Byte>>, offs: seq<nat>) {
    |offs| == |pieces| + 1 && forall i :: 0 <= i < |offs| ==> offs[i] == Start(pieces, i)
  }

  /** A new slot at the end. */
  lemma PieceAppend(pieces: seq<seq<Byte>>, offs: seq<nat>, p: seq<Byte>)
    requires Offsets(pieces, offs)
    ensures Flat(pieces + [p]) == Flat(pieces) + p
    ensures Offsets(pieces + [p], offs + [|Flat(pieces)| + |p|])
  {
    var pieces' := pieces + [p];
    assert pieces'[..|pieces|] == pieces;
    FlatLength(pieces);
    forall i | 0 <= i <= |pieces| ensures Start(pieces', i) == Start(pieces, i) {
      StartPrefix(pieces', |pieces|, i);
    }
  }
}
