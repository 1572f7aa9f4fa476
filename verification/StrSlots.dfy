/** What the slots of the string map hold: a key with its padding, or a freelist link. */
module StrSlots {
  import opened Basics
  import opened HashSizing
  import opened HashSlots
  import opened RecordBytes

  // ---- keys and their padding

  /** `align_to(n + 1)`: room for `n` bytes and the pad byte. */
  function RealLen(n: nat, align: nat): (r: nat)
    requires align > 0
    ensures n + 1 <= r <= n + align
  {
    (n + align) / align * align
  }

  /** The bytes of a slot that holds `key`; the last one says how many are no key. */
  function Stored(key: seq<Byte>, align: nat): (p: seq<Byte>)
    requires 0 < align <= 128
    ensures |p| == RealLen(|key|, align)
  {
    var pad := RealLen(|key|, align) - |key| - 1;
    key + seq(pad, _ => 0) + [pad]
  }

  predicate HasKey(p: seq<Byte>) {
    p != [] && p[|p| - 1] < |p|
  }

  /** The pad byte counts less than a whole unit: the slot is no longer than its key needs. */
  predicate Tight(p: seq<Byte>, align: nat) {
    p != [] && p[|p| - 1] < align
  }

  /** `key(idx)`: the length is what the next offset and the pad byte leave. */
  function KeyIn(p: seq<Byte>): (key: seq<Byte>)
    requires HasKey(p)
  {
    p[..|p| - 1 - p[|p| - 1]]
  }

  /** A stored key is read back as it was. */
  lemma StoredKey(key: seq<Byte>, align: nat)
    requires 0 < align <= 128
    ensures HasKey(Stored(key, align)) && Tight(Stored(key, align), align) && KeyIn(Stored(key, align)) == key
  {
    var p := Stored(key, align);
    var pad := RealLen(|key|, align) - |key| - 1;
    assert p[|p| - 1] == pad;
    assert p[..|key|] == key;
  }

  // ---- freelist links

  function NextIn(p: seq<Byte>): (next: nat)
    requires |p| >= 4
  {
    FromLE32(p[..4])
  }

  function WithNext(p: seq<Byte>, next: nat): (q: seq<Byte>)
    requires |p| >= 4
    ensures |q| == |p|
  {
    LE32(next) + p[4..]
  }

  lemma NextWritten(p: seq<Byte>, next: nat)
    requires |p| >= 4 && next < 0x1_0000_0000
    ensures NextIn(WithNext(p, next)) == next
  {
    assert WithNext(p, next)[..4] == LE32(next);
    LE32RoundTrip(next);
  }

  /** The link each slot would hold were it free. */
  ghost function Nexts(pieces: seq<seq<Byte>>): (n: seq<nat>)
    requires forall i :: 0 <= i < |pieces| ==> |pieces[i]| >= 4
    ensures |n| == |pieces| && forall i :: 0 <= i < |pieces| ==> n[i] == NextIn(pieces[i])
  {
    seq(|pieces|, i requires 0 <= i < |pieces| => NextIn(pieces[i]))
  }

  // ---- the table the slots stand for

  /** Slots with a delete mark are free, the others hold an element. */
  ghost function Cells<V>(pieces: seq<seq<Byte>>, link: seq<nat>, vals: seq<V>): (data: seq<Cell<seq<Byte>, V>>)
    requires |link| == |vals| == |pieces|
    requires forall i :: 0 <= i < |link| && link[i] != DELMARK ==> HasKey(pieces[i])
    ensures |data| == |pieces|
    ensures forall i {:trigger data[i]} :: 0 <= i < |data| ==>
      data[i] == if link[i] == DELMARK then FreeLink(0) else Elem(KeyIn(pieces[i]), vals[i])
  {
    seq(|link|, i requires 0 <= i < |link| =>
      if link[i] == DELMARK then FreeLink(0) else Elem(KeyIn(pieces[i]), vals[i]))
  }

  // ---- counting free slots

  ghost function FreeCount(link: seq<nat>): (c: nat)
    ensures c <= |link|
  {
    if link == [] then 0 else FreeCount(link[..|link| - 1]) + if link[|link| - 1] == DELMARK then 1 else 0
  }

  ghost function FreeBytes(pieces: seq<seq<Byte>>, link: seq<nat>): (b: nat)
    requires |link| == |pieces|
  {
    if link == [] then 0
    else
      var k := |link| - 1;
      FreeBytes(pieces[..k], link[..k]) + if link[k] == DELMARK then |pieces[k]| else 0
  }

  lemma {:induction false} FreeSet(pieces: seq<seq<Byte>>, link: seq<nat>, s: nat, l: nat)
    requires |link| == |pieces| && s < |link|
    ensures FreeCount(link[s := l]) + (if link[s] == DELMARK then 1 else 0)
         == FreeCount(link) + (if l == DELMARK then 1 else 0)
    ensures FreeBytes(pieces, link[s := l]) + (if link[s] == DELMARK then |pieces[s]| else 0)
         == FreeBytes(pieces, link) + (if l == DELMARK then |pieces[s]| else 0)
  {
    var k := |link| - 1;
    if s == k {
      assert link[s := l][..k] == link[..k];
    } else {
      FreeSet(pieces[..k], link[..k], s, l);
      assert link[s := l][..k] == link[..k][s := l];
    }
  }

  lemma {:induction false} FreeSame(pieces: seq<seq<Byte>>, pieces': seq<seq<Byte>>, link: seq<nat>)
    requires |link| == |pieces| == |pieces'| && forall i :: 0 <= i < |pieces| ==> |pieces[i]| == |pieces'[i]|
    ensures FreeBytes(pieces', link) == FreeBytes(pieces, link)
  {
    if link != [] {
      var k := |link| - 1;
      FreeSame(pieces[..k], pieces'[..k], link[..k]);
    }
  }

  lemma FreeAppend(pieces: seq<seq<Byte>>, link: seq<nat>, p: seq<Byte>, l: nat)
    requires |link| == |pieces|
    ensures FreeCount(link + [l]) == FreeCount(link) + (if l == DELMARK then 1 else 0)
    ensures FreeBytes(pieces + [p], link + [l]) == FreeBytes(pieces, link) + (if l == DELMARK then |p| else 0)
  {
    assert (link + [l])[..|link|] == link && (pieces + [p])[..|pieces|] == pieces;
  }

  /** A count of zero means no slot is free. */
  lemma {:induction false} NoneFree(link: seq<nat>)
    ensures FreeCount(link) == 0 <==> forall i :: 0 <= i < |link| ==> link[i] != DELMARK
  {
    if link != [] {
      var k := |link| - 1;
      NoneFree(link[..k]);
      assert forall i :: 0 <= i < k ==> link[..k][i] == link[i];
    }
  }
}
