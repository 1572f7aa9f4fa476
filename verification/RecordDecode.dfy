/** Reading the stored form back into BSON bytes, with lengths filled in afterwards. */
module RecordDecode {
  import opened Basics
  import opened RecordBytes
  import opened RecordModel

  /** The output differs from what it should be, at a place both have. */
  ghost predicate Off(out: seq<Byte>, want: seq<Byte>) {
    exists j :: 0 <= j < |out| && j < |want| && out[j] != want[j]
  }

  lemma OffMore(out: seq<Byte>, want: seq<Byte>, out': seq<Byte>, want': seq<Byte>)
    requires Off(out, want) && out <= out' && want <= want'
    ensures Off(out', want')
  {
    var j :| 0 <= j < |out| && j < |want| && out[j] != want[j];
    assert out'[j] != want'[j];
  }

  /** Appending other bytes than wanted. */
  lemma OffAppend(out: seq<Byte>, s: seq<Byte>, t: seq<Byte>, rest: seq<Byte>, j: nat)
    requires j < |s| && j < |t| && s[j] != t[j]
    ensures Off(out + s, out + (t + rest))
  {
    assert (out + s)[|out| + j] == s[j] && (out + (t + rest))[|out| + j] == t[j];
  }

  /** Two different strings, each closed by NUL, differ at a place both have. */
  lemma {:induction false} NulDiffer(s: seq<Byte>, t: seq<Byte>) returns (j: nat)
    requires 0 !in s && 0 !in t && s != t
    ensures j <= |s| && j <= |t| && (s + [0])[j] != (t + [0])[j]
  {
    if s != [] && t != [] && s[0] == t[0] {
      assert s == [s[0]] + s[1..] && t == [t[0]] + t[1..];
      var i := NulDiffer(s[1..], t[1..]);
      j := i + 1;
    } else {
      j := 0;
      assert s != [] ==> s[0] in s;
      assert t != [] ==> t[0] in t;
    }
  }

  function Rest(s: seq<Elem>): seq<Elem> {
    if s == [] then [] else s[1..]
  }

  /** What decoding promises of a value whose stored form is there: its BSON bytes when
      it is canonical, and otherwise an error or other bytes. */
  ghost predicate Outcome(ok: bool, out0: seq<Byte>, out: seq<Byte>, ref: seq<Byte>, canonical: bool) {
    if canonical then ok && out == out0 + ref else !ok || Off(out, out0 + ref)
  }

  /** The length of the string at `pos`; fails when no NUL ends it. */
  method StrLen(data: seq<Byte>, pos: nat) returns (ok: bool, len: nat)
    requires pos <= |data|
    ensures pos + len <= |data| && NoNul(data, pos, pos + len)
    ensures if ok then pos + len < |data| && data[pos + len] == 0 else pos + len == |data|
  {
    len := 0;
    while pos + len < |data| && data[pos + len] != 0
      invariant pos + len <= |data| && NoNul(data, pos, pos + len)
    {
      len := len + 1;
    }
    ok := pos + len < |data|;
  }

  ghost predicate NoNul(data: seq<Byte>, a: nat, b: nat) {
    forall i :: a <= i < b && i < |data| ==> data[i] != 0
  }

  /** A stored string is found whole, if it has no NUL inside, and cut there otherwise. */
  lemma FoundString(data: seq<Byte>, pos: nat, chars: seq<Byte>, ok: bool, len: nat)
    requires At(data, pos, chars + [0]) && pos <= |data|
    requires pos + len <= |data| && NoNul(data, pos, pos + len)
    requires if ok then pos + len < |data| && data[pos + len] == 0 else pos + len == |data|
    ensures ok
    ensures if 0 in chars then len < |chars| else len == |chars|
  {
    var s := chars + [0];
    forall i | 0 <= i < |s| ensures data[pos + i] == s[i] {
      assert data[pos..pos + |s|][i] == s[i];
    }
    assert data[pos + |chars|] == s[|chars|];
    if 0 in chars {
      var i :| 0 <= i < |chars| && chars[i] == 0;
      assert data[pos + i] == s[i] == 0;
    } else {
      assert forall i :: 0 <= i < |chars| ==> s[i] == chars[i] && chars[i] in chars;
    }
  }

  /** The stored form of `v` is at `pos`, with something after it. */
  ghost predicate Given(data: seq<Byte>, pos: nat, kind: int, k: int, v: Val) {
    && Formed(k, v) && -1 <= k < 128 && k != EOO && kind == KindByte(k)
    && At(data, pos, EncVal(k, v)) && pos + |EncVal(k, v)| < |data|
  }

  class Decoder {
    const data: seq<Byte>
    var pos: nat
    var out: seq<Byte>

    ghost predicate Valid()
      reads this
    {
      pos <= |data|
    }

    constructor (data: seq<Byte>)
      ensures Valid() && this.data == data && pos == 0 && out == []
    {
      this.data, pos, out := data, 0, [];
    }

    /** Copies `w` bytes. */
    method CopyBytes(w: nat) returns (ok: bool)
      requires Valid()
      modifies this
      ensures Valid() && old(pos) <= pos && old(out) <= out
      ensures ok <==> old(pos) + w <= |data|
      ensures ok ==> pos == old(pos) + w && out == old(out) + data[old(pos)..pos]
    {
      ok := pos + w <= |data|;
      if ok {
        out := out + data[pos..pos + w];
        pos := pos + w;
      }
    }

    method Fixed(kind: int, ghost k: int, ghost v: Val) returns (ok: bool)
      requires Valid() && 0 <= kind < 256 && Width(kind) >= 0 && kind != BOOL
      modifies this
      ensures Valid() && old(pos) <= pos && old(out) <= out
      ensures Given(data, old(pos), kind, k, v) ==>
                Canonical(k, v) && Outcome(ok, old(out), out, BsonVal(v), true) && pos == old(pos) + |EncVal(k, v)|
    {
      ok := CopyBytes(Width(kind));
    }

    method Bool(ghost k: int, ghost v: Val) returns (ok: bool)
      requires Valid()
      modifies this
      ensures Valid() && old(pos) <= pos && old(out) <= out
      ensures Given(data, old(pos), BOOL, k, v) ==>
                Outcome(ok, old(out), out, BsonVal(v), Canonical(k, v)) && pos == old(pos) + |EncVal(k, v)|
    {
      ok := pos < |data|;
      if ok {
        if Given(data, pos, BOOL, k, v) {
          AtHead(data, pos, EncVal(k, v));
          BoolByte(out, v, data[pos]);
        }
        out := out + [if data[pos] != 0 then 1 else 0];
        pos := pos + 1;
      }
    }

    /** A length in front, then the characters and their NUL. */
    method Str(ghost k: int, ghost v: Val, kind: int) returns (ok: bool)
      requires Valid() && 0 <= kind < 256 && IsText(kind)
      modifies this
      ensures Valid() && old(pos) <= pos && old(out) <= out
      ensures Given(data, old(pos), kind, k, v) ==> Outcome(ok, old(out), out, BsonVal(v), Canonical(k, v))
      ensures Given(data, old(pos), kind, k, v) && Canonical(k, v) ==> pos == old(pos) + |EncVal(k, v)|
    {
      var len;
      ok, len := StrLen(data, pos);
      if Given(data, pos, kind, k, v) {
        FoundString(data, pos, v.chars, ok, len);
        StrBytes(data, pos, out, v.chars, len);
      }
      if ok {
        out := out + (LE32(len + 1) + data[pos..pos + len + 1]);
        pos := pos + len + 1;
      }
    }

    /** Bytes that start with their own number. */
    method Scoped(ghost k: int, ghost v: Val) returns (ok: bool)
      requires Valid()
      modifies this
      ensures Valid() && old(pos) <= pos && old(out) <= out
      ensures Given(data, old(pos), CODE_W_SCOPE, k, v) ==>
                Canonical(k, v) && Outcome(ok, old(out), out, BsonVal(v), true) && pos == old(pos) + |EncVal(k, v)|
    {
      if Given(data, pos, CODE_W_SCOPE, k, v) {
        assert v.bytes == v.bytes[..4] + v.bytes[4..];
        AtSplit(data, pos, v.bytes[..4], v.bytes[4..]);
      }
      if pos + 4 > |data| {
        return false;
      }
      var len := FromLE32(data[pos..pos + 4]);
      if len >= INT_LIMIT {
        return false;
      }
      ok := CopyBytes(len);
    }

    method Binary(ghost k: int, ghost v: Val) returns (ok: bool)
      requires Valid()
      modifies this
      ensures Valid() && old(pos) <= pos && old(out) <= out
      ensures Given(data, old(pos), BINARY, k, v) ==>
                Canonical(k, v) && Outcome(ok, old(out), out, BsonVal(v), true) && pos == old(pos) + |EncVal(k, v)|
    {
      if Given(data, pos, BINARY, k, v) {
        AtSplit(data, pos, LE32(|v.data|), [v.sub] + v.data);
        AtSplit(data, pos + 4, [v.sub], v.data);
        AtHead(data, pos + 4, [v.sub]);
        LE32RoundTrip(|v.data|);
      }
      if pos + 5 > |data| {
        return false;
      }
      var len := FromLE32(data[pos..pos + 4]);
      if len >= INT_LIMIT || pos + 5 + len > |data| {
        return false;
      }
      out := out + (LE32(len) + ([data[pos + 4]] + data[pos + 5..pos + 5 + len]));
      pos := pos + 5 + len;
      ok := true;
    }

    /** One value of the given type. */
    method ElemVal(kind: int, ghost k: int, ghost v: Val) returns (ok: bool)
      requires Valid() && 0 <= kind < 256
      modifies this
      ensures Valid() && old(pos) <= pos && old(out) <= out
      ensures Given(data, old(pos), kind, k, v) ==> Decoded(ok, old(pos), pos, old(out), out, k, v)
      decreases |data| - pos, 2
    {
      hide Off, BsonVal;
      if kind == BOOL {
        ok := Bool(k, v);
      } else if Width(kind) >= 0 {
        ok := Fixed(kind, k, v);
      } else if IsText(kind) {
        ok := Str(k, v, kind);
      } else if kind == ARRAY {
        ok := Array(if v.Doc? then v.elems else []);
      } else if kind == OBJECT {
        ok := Object(if v.Doc? then v.elems else []);
      } else if kind == CODE_W_SCOPE {
        ok := Scoped(k, v);
      } else if kind == BINARY {
        ok := Binary(k, v);
      } else {
        ok := false;
      }
    }

    /** The elements of an object, up to the end mark. */
    method Object(ghost elems: seq<Elem>) returns (ok: bool)
      requires Valid()
      modifies this
      ensures Valid() && old(pos) <= pos && old(out) <= out
      ensures FormedAll(elems) && At(data, old(pos), EncBody(elems) + [0]) ==>
                Outcome(ok, old(out), out, BsonVal(Doc(elems)), CanonicalAll(elems))
      ensures FormedAll(elems) && At(data, old(pos), EncBody(elems) + [0]) && CanonicalAll(elems) ==>
                pos == old(pos) + |EncBody(elems) + [0]|
      decreases |data| - pos, 1
    {
      hide FormedAll, CanonicalAll, Outcome, Off, EncBody, BsonBody, BsonVal, At, OnTrack;
      var byteNumOffset := |out|;
      out := out + LE32(0);
      ghost var t := Track(pos + |EncBody(elems) + [0]|, out + (BsonBody(elems) + [0]), CanonicalAll(elems));
      ghost var known, start, rest := FormedAll(elems) && At(data, pos, EncBody(elems) + [0]), out, elems;
      TrackStart(data, pos, out, elems, t);
      ok := true;
      var more := true;
      while more
        invariant Valid() && old(pos) <= pos && start <= out
        invariant known && more ==> OnTrack(data, pos, out, rest, t) || Lost(out, t)
        invariant known && !more ==> (t.canonical && out == t.want && pos == t.end) || Lost(out, t)
        decreases |data| - pos, more
      {
        ok, more := OneElem(rest, t, known);
        if !ok {
          NotDone(known, old(out), out, elems, t);
          return;
        }
        rest := Rest(rest);
      }
      var objByteNum := |out| - byteNumOffset;
      ghost var out3 := out;
      out := out[..byteNumOffset] + LE32(objByteNum) + out[byteNumOffset + 4..];
      Patched(known, old(out), out3, out, pos, elems, t);
    }

    /** One element of an object, or the end mark. */
    method OneElem(ghost rest: seq<Elem>, ghost t: Track, ghost known: bool) returns (ok: bool, more: bool)
      requires Valid() && (known ==> OnTrack(data, pos, out, rest, t) || Lost(out, t))
      modifies this
      ensures Valid() && old(pos) <= pos && old(out) <= out && (ok ==> old(pos) < pos)
      ensures known && !ok ==> !t.canonical
      ensures known && ok && more ==> OnTrack(data, pos, out, Rest(rest), t) || Lost(out, t)
      ensures known && ok && !more ==> (t.canonical && out == t.want && pos == t.end) || Lost(out, t)
      decreases |data| - pos, 0
    {
      hide Off, OnTrack, NameAt, ValAt, Decoded, Given, NoNul;
      OnTrackMore(data, pos, out, rest, t);
      if pos >= |data| {
        return false, false;
      }
      var kind: int := data[pos];
      StepKind(data, pos, out, rest, t, kind);
      LostMore(out, out + [kind], t);
      pos, out := pos + 1, out + [kind];
      if kind == EOO {
        return true, false;
      }
      var named, len := StrLen(data, pos);
      StepName(data, pos, out, rest, t, kind, named, len);
      if !named {
        return false, false;
      }
      LostMore(out, out + data[pos..pos + len + 1], t);
      out := out + data[pos..pos + len + 1];
      pos := pos + len + 1;
      ghost var e := if rest != [] then rest[0] else Elem(0, [], Raw([]));
      ghost var pos2, out2 := pos, out;
      ok := ElemVal(kind, e.kind, e.val);
      StepVal(data, pos2, out2, pos, out, ok, rest, t, kind);
      LostMore(out2, out, t);
      more := true;
    }

    /** A number of items, their type, and the items; names are made up from the index. */
    method Array(ghost items: seq<Elem>) returns (ok: bool)
      requires Valid()
      modifies this
      ensures Valid() && old(pos) <= pos && old(out) <= out
      ensures GivenItems(data, old(pos), items) ==>
                Outcome(ok, old(out), out, BsonVal(Doc(items)), CanonicalAll(items) && IndexNames(items, 0))
      ensures GivenItems(data, old(pos), items) && CanonicalAll(items) && IndexNames(items, 0) ==>
                pos == old(pos) + |EncArray(items)|
      decreases |data| - pos, 1
    {
      hide FormedAll, CanonicalAll, Outcome, Off, EncArray, EncItems, BsonBody, BsonVal, At, OnItems, IndexNames;
      ghost var known, pos0 := GivenItems(data, pos, items), pos;
      ArrayCount(data, pos, items);
      var x;
      ok, x, pos := LoadVarUint(data, pos, |items|);
      if !ok {
        return;
      }
      var cnt := if x < INT_LIMIT then x else x - 0x1_0000_0000;
      if cnt == 0 {
        EmptyArray(items, out);
        out := out + (LE32(5) + [0]);
        return;
      }
      ArrayKind(data, pos0, pos, items);
      if pos >= |data| {
        return false;
      }
      var arrKind: int := data[pos];
      pos := pos + 1;
      var byteNumOffset := |out|;
      out := out + LE32(0);
      ghost var t := Track(pos0 + |EncArray(items)|, out + (BsonBody(items) + [0]),
                           CanonicalAll(items) && IndexNames(items, 0));
      ghost var start, rest := out, items;
      ItemsStart(data, pos0, pos, out, items, t, arrKind, known);
      var i := 0;
      while i < cnt
        invariant Valid() && pos0 < pos && start <= out && 0 <= i && (cnt >= 0 ==> i <= cnt)
        invariant known ==> |rest| == cnt - i && (OnItems(data, pos, out, rest, i, arrKind, t) || Lost(out, t))
        decreases cnt - i
      {
        ok := OneItem(i, arrKind, rest, t, known);
        if !ok {
          NotDone(known, old(out), out, items, t);
          return;
        }
        rest := Rest(rest);
        i := i + 1;
      }
      ItemsEnd(data, pos, out, rest, i, arrKind, t, known);
      LostMore(out, out + [0], t);
      out := out + [0];
      var arrByteNum := |out| - byteNumOffset;
      ghost var out3 := out;
      out := out[..byteNumOffset] + LE32(arrByteNum) + out[byteNumOffset + 4..];
      Patched(known, old(out), out3, out, pos, items, t);
    }

    /** One item of an array. */
    method OneItem(i: nat, arrKind: int, ghost rest: seq<Elem>, ghost t: Track, ghost known: bool) returns (ok: bool)
      requires Valid() && 0 <= arrKind < 256
      requires known ==> (rest != [] && OnItems(data, pos, out, rest, i, arrKind, t)) || Lost(out, t)
      modifies this
      ensures Valid() && old(pos) <= pos && old(out) <= out
      ensures known && !ok ==> !t.canonical
      ensures known && ok ==> (rest != [] && OnItems(data, pos, out, Rest(rest), i + 1, arrKind, t)) || Lost(out, t)
      decreases |data| - pos, 3
    {
      hide Off, OnItems, ItemAt, ItemVal, Decoded, Given;
      ItemsMore(data, pos, out, rest, i, arrKind, t);
      if pos >= |data| {
        return false;
      }
      ItemKindStep(data, pos, out, rest, i, arrKind, t);
      var kind := arrKind;
      if arrKind == MIXED {
        kind := data[pos];
        pos := pos + 1;
      }
      LostMore(out, out + [kind], t);
      out := out + [kind];
      var idx := Decimal(i);
      ItemNameStep(data, pos, out, rest, i, arrKind, t, kind);
      LostMore(out, out + (idx + [0]), t);
      out := out + (idx + [0]);
      ghost var e := if rest != [] then rest[0] else Elem(0, [], Raw([]));
      ghost var pos2, out2 := pos, out;
      ok := ElemVal(kind, e.kind, e.val);
      ItemValStep(data, pos2, out2, pos, out, ok, rest, i, arrKind, t, kind);
      LostMore(out2, out, t);
    }
  }

  /** The stored form of an array is at `pos`, with something after it. */
  ghost predicate GivenItems(data: seq<Byte>, pos: nat, items: seq<Elem>) {
    FormedAll(items) && |items| < INT_LIMIT && At(data, pos, EncArray(items)) && pos + |EncArray(items)| < |data|
  }

  /** So far the output is what is wanted, and the items in `rest`, from index `i`, come next. */
  ghost predicate OnItems(data: seq<Byte>, pos: nat, out: seq<Byte>, rest: seq<Elem>, i: nat, arrKind: int, t: Track) {
    && FormedAll(rest) && At(data, pos, EncItems(arrKind == MIXED, rest)) && out + (BsonBody(rest) + [0]) == t.want
    && t.canonical == (CanonicalAll(rest) && IndexNames(rest, i))
    && t.end == pos + |EncItems(arrKind == MIXED, rest)| < |data|
    && (arrKind != MIXED ==>
          forall j :: 0 <= j < |rest| ==> -1 <= rest[j].kind < 128 && KindByte(rest[j].kind) == arrKind)
  }

  /** The type has been settled and copied; the name comes next. */
  ghost predicate ItemAt(data: seq<Byte>, pos: nat, out: seq<Byte>, rest: seq<Elem>, i: nat, arrKind: int, t: Track,
                         kind: int) {
    && rest != [] && FormedAll(rest) && -1 <= rest[0].kind < 128 && rest[0].kind != EOO
    && kind == KindByte(rest[0].kind)
    && (arrKind != MIXED ==>
          forall j :: 0 <= j < |rest| ==> -1 <= rest[j].kind < 128 && KindByte(rest[j].kind) == arrKind)
    && var e := rest[0];
    && At(data, pos, EncVal(e.kind, e.val) + EncItems(arrKind == MIXED, rest[1..]))
    && out + (e.name + [0] + (BsonVal(e.val) + (BsonBody(rest[1..]) + [0]))) == t.want
    && t.canonical == (CanonicalAll(rest) && IndexNames(rest, i))
    && t.end == pos + |EncVal(e.kind, e.val) + EncItems(arrKind == MIXED, rest[1..])| < |data|
  }

  /** The name has been written, and is right; the value comes next. */
  ghost predicate ItemVal(data: seq<Byte>, pos: nat, out: seq<Byte>, rest: seq<Elem>, i: nat, arrKind: int, t: Track,
                          kind: int) {
    && rest != [] && FormedAll(rest) && -1 <= rest[0].kind < 128 && rest[0].kind != EOO
    && kind == KindByte(rest[0].kind)
    && (arrKind != MIXED ==>
          forall j :: 0 <= j < |rest| ==> -1 <= rest[j].kind < 128 && KindByte(rest[j].kind) == arrKind)
    && var e := rest[0];
    && At(data, pos, EncVal(e.kind, e.val) + EncItems(arrKind == MIXED, rest[1..]))
    && out + (BsonVal(e.val) + (BsonBody(rest[1..]) + [0])) == t.want
    && t.canonical == (CanonicalAll(rest) && IndexNames(rest[1..], i + 1))
    && t.end == pos + |EncVal(e.kind, e.val) + EncItems(arrKind == MIXED, rest[1..])| < |data|
  }

  lemma ArrayCount(data: seq<Byte>, pos: nat, items: seq<Elem>)
    ensures GivenItems(data, pos, items) ==> At(data, pos, VarUint(|items|)) && pos + |VarUint(|items|)| < |data|
    ensures items == [] ==> |EncArray(items)| == |VarUint(0)|
  {
    hide EncItems, FormedAll, VarUint;
    if GivenItems(data, pos, items) && items != [] {
      var k := ItemKind(items);
      var rest := [if -1 <= k < 256 then KindByte(k) else 0] + EncItems(k == MIXED, items);
      AtSplit(data, pos, VarUint(|items|), rest);
    }
  }

  lemma EmptyArray(items: seq<Elem>, out: seq<Byte>)
    ensures items == [] ==> CanonicalAll(items) && IndexNames(items, 0)
    ensures items == [] ==> Outcome(true, out, out + (LE32(5) + [0]), BsonVal(Doc(items)), true)
  {
    assert [] + [0] == [0];
  }

  lemma ArrayKind(data: seq<Byte>, pos0: nat, pos: nat, items: seq<Elem>)
    requires GivenItems(data, pos0, items) && items != [] ==> pos == pos0 + |VarUint(|items|)|
    ensures GivenItems(data, pos0, items) && items != [] ==>
              pos < |data| && KindsAre(items, data[pos]) && At(data, pos + 1, EncItems(data[pos] == MIXED, items))
              && pos0 + |EncArray(items)| == pos + 1 + |EncItems(data[pos] == MIXED, items)|
  {
    if GivenItems(data, pos0, items) && items != [] {
      KindHere(data, pos0, pos, items);
    }
  }

  ghost predicate KindsAre(items: seq<Elem>, arrKind: int) {
    arrKind != MIXED ==> forall j :: 0 <= j < |items| ==>
        -1 <= items[j].kind < 128 && KindByte(items[j].kind) == arrKind
  }

  lemma KindHere(data: seq<Byte>, pos0: nat, pos: nat, items: seq<Elem>)
    requires GivenItems(data, pos0, items) && items != [] && pos == pos0 + |VarUint(|items|)|
    ensures pos < |data| && KindsAre(items, data[pos]) && At(data, pos + 1, EncItems(data[pos] == MIXED, items))
    ensures pos0 + |EncArray(items)| == pos + 1 + |EncItems(data[pos] == MIXED, items)|
  {
    hide EncItems, EncArray, VarUint, FormedAll, At;
    FirstKind(items);
    var k := ItemKind(items);
    var b := [KindByte(k)];
    ArrayBytes(items, k);
    AtSplit(data, pos0, VarUint(|items|), b + EncItems(k == MIXED, items));
    AtSplit(data, pos, b, EncItems(k == MIXED, items));
    AtHead(data, pos, b);
  }

  lemma ArrayBytes(items: seq<Elem>, k: int)
    requires items != [] && -1 <= items[0].kind < 128 && k == ItemKind(items)
    ensures EncArray(items) == VarUint(|items|) + ([KindByte(k)] + EncItems(k == MIXED, items))
    ensures KindsAre(items, KindByte(k)) && (KindByte(k) == MIXED <==> k == MIXED)
  {
    hide EncItems, VarUint;
  }

  lemma ItemsStart(data: seq<Byte>, pos0: nat, pos: nat, out: seq<Byte>, items: seq<Elem>, t: Track, arrKind: int,
                   known: bool)
    requires known ==> GivenItems(data, pos0, items) && KindsAre(items, arrKind)
    requires known ==> At(data, pos, EncItems(arrKind == MIXED, items))
    requires known ==> pos0 + |EncArray(items)| == pos + |EncItems(arrKind == MIXED, items)|
    requires t == Track(pos0 + |EncArray(items)|, out + (BsonBody(items) + [0]), CanonicalAll(items)
      && IndexNames(items, 0))
    ensures known ==> OnItems(data, pos, out, items, 0, arrKind, t)
  {
    hide EncItems, EncArray, BsonBody, At, FormedAll, CanonicalAll, IndexNames;
  }

  lemma ItemsMore(data: seq<Byte>, pos: nat, out: seq<Byte>, rest: seq<Elem>, i: nat, arrKind: int, t: Track)
    ensures OnItems(data, pos, out, rest, i, arrKind, t) ==> pos < |data|
  {
  }

  lemma ItemsEnd(data: seq<Byte>, pos: nat, out: seq<Byte>, rest: seq<Elem>, i: nat, arrKind: int, t: Track,
                 known: bool)
    requires known ==> (rest == [] && OnItems(data, pos, out, rest, i, arrKind, t)) || Lost(out, t)
    ensures known ==> (t.canonical && out + [0] == t.want && pos == t.end) || Lost(out, t)
  {
    assert [] + [0] == [0];
  }

  lemma ItemKindStep(data: seq<Byte>, pos: nat, out: seq<Byte>, rest: seq<Elem>, i: nat, arrKind: int, t: Track)
    requires pos < |data| && 0 <= arrKind < 256
    ensures rest != [] && OnItems(data, pos, out, rest, i, arrKind, t) ==>
              if arrKind == MIXED then ItemAt(data, pos + 1, out + [data[pos]], rest, i, arrKind, t, data[pos])
              else ItemAt(data, pos, out + [arrKind], rest, i, arrKind, t, arrKind)
  {
    if rest != [] && OnItems(data, pos, out, rest, i, arrKind, t) {
      ItemKindHere(data, pos, out, rest, i, arrKind, t);
    }
  }

  lemma ItemKindHere(data: seq<Byte>, pos: nat, out: seq<Byte>, rest: seq<Elem>, i: nat, arrKind: int, t: Track)
    requires pos < |data| && 0 <= arrKind < 256 && rest != [] && OnItems(data, pos, out, rest, i, arrKind, t)
    ensures if arrKind == MIXED then ItemAt(data, pos + 1, out + [data[pos]], rest, i, arrKind, t, data[pos])
            else ItemAt(data, pos, out + [arrKind], rest, i, arrKind, t, arrKind)
  {
    hide EncVal, BsonVal, EncBody, BsonBody, Canonical, CanonicalAll, IndexNames, Formed, At, EncItems;
    var e := rest[0];
    assert -1 <= e.kind < 128 && e.kind != EOO by { FirstKind(rest); }
    var k := KindByte(e.kind);
    ItemBytes(rest, out, arrKind == MIXED);
    var enc := EncVal(e.kind, e.val) + EncItems(arrKind == MIXED, rest[1..]);
    if arrKind == MIXED {
      AtSplit(data, pos, [k], enc);
      AtHead(data, pos, [k]);
    }
  }

  lemma FirstKind(rest: seq<Elem>)
    requires FormedAll(rest) && rest != []
    ensures -1 <= rest[0].kind < 128 && rest[0].kind != EOO
  {
    FormedKind(rest[0].kind, rest[0].val);
  }

  lemma ItemBytes(rest: seq<Elem>, out: seq<Byte>, mixed: bool)
    requires rest != [] && -1 <= rest[0].kind < 128
    ensures var e := rest[0];
            var enc := EncVal(e.kind, e.val) + EncItems(mixed, rest[1..]);
            EncItems(mixed, rest) == if mixed then [KindByte(e.kind)] + enc else enc
    ensures var e := rest[0];
            out + (BsonBody(rest) + [0])
            == out + [KindByte(e.kind)] + (e.name + [0] + (BsonVal(e.val) + (BsonBody(rest[1..]) + [0])))
  {
    hide EncVal, BsonVal, EncBody, BsonBody, EncItems;
    var e := rest[0];
    BodySplit(rest);
    Regroup([KindByte(e.kind)], e.name + [0], BsonVal(e.val) + (BsonBody(rest[1..]) + [0]), out);
    EncItemsStep(mixed, rest);
    assert mixed || [] + EncVal(e.kind, e.val) == EncVal(e.kind, e.val);
    var k, v, tail := [KindByte(e.kind)], EncVal(e.kind, e.val), EncItems(mixed, rest[1..]);
    assert k + v + tail == k + (v + tail);
  }

  lemma EncItemsStep(mixed: bool, items: seq<Elem>)
    requires items != []
    ensures EncItems(mixed, items)
         == ItemHead(mixed, items[0]) + EncVal(items[0].kind, items[0].val) + EncItems(mixed, items[1..])
  {
  }

  lemma Regroup(a: seq<Byte>, b: seq<Byte>, c: seq<Byte>, out: seq<Byte>)
    ensures out + (a + b + c) == out + a + (b + c)
  {
  }

  /** A name made up from the index is the item's, or the output goes wrong here. */
  lemma ItemNameStep(data: seq<Byte>, pos: nat, out: seq<Byte>, rest: seq<Elem>, i: nat, arrKind: int, t: Track,
                     kind: int)
    ensures ItemAt(data, pos, out, rest, i, arrKind, t, kind) ==>
              ItemVal(data, pos, out + (Decimal(i) + [0]), rest, i, arrKind, t, kind)
                || Lost(out + (Decimal(i) + [0]), t)
  {
    if ItemAt(data, pos, out, rest, i, arrKind, t, kind) {
      ItemNameHere(data, pos, out, rest, i, arrKind, t, kind);
    }
  }

  lemma ItemNameHere(data: seq<Byte>, pos: nat, out: seq<Byte>, rest: seq<Elem>, i: nat, arrKind: int, t: Track,
                     kind: int)
    requires ItemAt(data, pos, out, rest, i, arrKind, t, kind)
    ensures ItemVal(data, pos, out + (Decimal(i) + [0]), rest, i, arrKind, t, kind) || Lost(out + (Decimal(i) + [0]), t)
  {
    hide EncVal, BsonVal, EncItems, BsonBody, Canonical, CanonicalAll, Decimal, Formed, At;
    var e := rest[0];
    var bson := BsonVal(e.val) + (BsonBody(rest[1..]) + [0]);
    if e.name == Decimal(i) {
      NamesStep(rest, i);
      assert out + (e.name + [0] + bson) == out + (e.name + [0]) + bson;
    } else {
      assert FormedAll(rest) && 0 !in e.name;
      assert !IndexNames(rest, i) by { assert rest[0].name != Decimal(i + 0); }
      var j := NulDiffer(Decimal(i), e.name);
      OffAppend(out, Decimal(i) + [0], e.name + [0], bson, j);
    }
  }

  lemma NamesStep(rest: seq<Elem>, i: nat)
    requires rest != [] && rest[0].name == Decimal(i)
    ensures IndexNames(rest, i) <==> IndexNames(rest[1..], i + 1)
  {
    hide Decimal;
    if IndexNames(rest, i) {
      forall j | 0 <= j < |rest[1..]| ensures rest[1..][j].name == Decimal(i + 1 + j) {
        assert rest[1 + j].name == Decimal(i + (1 + j));
      }
    }
    if IndexNames(rest[1..], i + 1) {
      forall j | 0 <= j < |rest| ensures rest[j].name == Decimal(i + j) {
        if j > 0 {
          assert rest[1..][j - 1].name == Decimal(i + 1 + (j - 1));
        }
      }
    }
  }

  lemma ItemValStep(data: seq<Byte>, pos: nat, out: seq<Byte>, pos': nat, out': seq<Byte>, ok: bool, rest: seq<Elem>,
                    i: nat, arrKind: int, t: Track, kind: int)
    requires out <= out'
    requires rest != [] && Given(data, pos, kind, rest[0].kind, rest[0].val) ==>
               Decoded(ok, pos, pos', out, out', rest[0].kind, rest[0].val)
    ensures ItemVal(data, pos, out, rest, i, arrKind, t, kind) ==> rest != []
    ensures ItemVal(data, pos, out, rest, i, arrKind, t, kind) ==>
              if ok then OnItems(data, pos', out', Rest(rest), i + 1, arrKind, t) || Lost(out', t) else !t.canonical
  {
    if ItemVal(data, pos, out, rest, i, arrKind, t, kind) {
      ItemValDone(data, pos, out, pos', out', ok, rest, i, arrKind, t, kind);
    }
  }

  lemma ItemValDone(data: seq<Byte>, pos: nat, out: seq<Byte>, pos': nat, out': seq<Byte>, ok: bool, rest: seq<Elem>,
                    i: nat, arrKind: int, t: Track, kind: int)
    requires ItemVal(data, pos, out, rest, i, arrKind, t, kind)
    requires Given(data, pos, kind, rest[0].kind, rest[0].val) ==>
               Decoded(ok, pos, pos', out, out', rest[0].kind, rest[0].val)
    ensures if ok then OnItems(data, pos', out', Rest(rest), i + 1, arrKind, t) || Lost(out', t) else !t.canonical
  {
    hide EncVal, BsonVal, EncItems, BsonBody, Off, Canonical, Formed, IndexNames;
    var e := rest[0];
    var enc, bson := EncItems(arrKind == MIXED, rest[1..]), BsonBody(rest[1..]) + [0];
    AtSplit(data, pos, EncVal(e.kind, e.val), enc);
    assert Given(data, pos, kind, e.kind, e.val);
    assert out + (BsonVal(e.val) + bson) == out + BsonVal(e.val) + bson;
    if !Canonical(e.kind, e.val) && ok {
      OffMore(out', out + BsonVal(e.val), out', t.want);
    }
  }

  /** What decoding one value promises, and where it stops. */
  ghost predicate Decoded(ok: bool, pos0: nat, pos: nat, out0: seq<Byte>, out: seq<Byte>, k: int, v: Val) {
    && Outcome(ok, out0, out, BsonVal(v), Canonical(k, v))
    && (Canonical(k, v) ==> pos == pos0 + |EncVal(k, v)|)
  }

  /** How an object or array must come out: where its stored form ends, the bytes wanted
      with the length still blank, and whether it is canonical. */
  datatype Track = Track(end: nat, want: seq<Byte>, canonical: bool)

  /** So far the output is what is wanted, and `rest` comes next. */
  ghost predicate OnTrack(data: seq<Byte>, pos: nat, out: seq<Byte>, rest: seq<Elem>, t: Track) {
    && FormedAll(rest) && At(data, pos, EncBody(rest) + [0]) && out + (BsonBody(rest) + [0]) == t.want
    && t.canonical == CanonicalAll(rest) && t.end == pos + |EncBody(rest) + [0]|
  }

  /** The output is wrong, as it may be only for what is not canonical. */
  ghost predicate Lost(out: seq<Byte>, t: Track) {
    !t.canonical && Off(out, t.want)
  }

  lemma LostMore(out: seq<Byte>, out': seq<Byte>, t: Track)
    requires out <= out'
    ensures Lost(out, t) ==> Lost(out', t)
  {
    if Lost(out, t) {
      OffMore(out, t.want, out', t.want);
    }
  }

  lemma TrackStart(data: seq<Byte>, pos: nat, out: seq<Byte>, elems: seq<Elem>, t: Track)
    requires t == Track(pos + |EncBody(elems) + [0]|, out + (BsonBody(elems) + [0]), CanonicalAll(elems))
    ensures FormedAll(elems) && At(data, pos, EncBody(elems) + [0]) ==> OnTrack(data, pos, out, elems, t)
  {
  }

  /** The end check never fires on track. */
  lemma OnTrackMore(data: seq<Byte>, pos: nat, out: seq<Byte>, rest: seq<Elem>, t: Track)
    ensures OnTrack(data, pos, out, rest, t) ==> pos < |data|
  {
    if OnTrack(data, pos, out, rest, t) {
      AtHead(data, pos, EncBody(rest) + [0]);
    }
  }

  lemma BodySplit(rest: seq<Elem>)
    requires rest != []
    ensures var e := rest[0];
            && EncBody(rest) + [0] == Head(e) + (EncVal(e.kind, e.val) + (EncBody(rest[1..]) + [0]))
            && BsonBody(rest) + [0] == Head(e) + (BsonVal(e.val) + (BsonBody(rest[1..]) + [0]))
  {
    hide EncVal, BsonVal, Head;
  }

  /** The type byte has been copied; the name comes next. */
  ghost predicate NameAt(data: seq<Byte>, pos: nat, out: seq<Byte>, rest: seq<Elem>, t: Track, kind: int) {
    && rest != [] && FormedAll(rest) && -1 <= rest[0].kind < 128 && rest[0].kind != EOO
    && kind == KindByte(rest[0].kind)
    && var e := rest[0];
    && At(data, pos, e.name + [0] + (EncVal(e.kind, e.val) + (EncBody(rest[1..]) + [0])))
    && out + (e.name + [0] + (BsonVal(e.val) + (BsonBody(rest[1..]) + [0]))) == t.want
    && t.canonical == CanonicalAll(rest)
    && t.end == pos + |e.name + [0] + (EncVal(e.kind, e.val) + (EncBody(rest[1..]) + [0]))|
  }

  lemma StepKind(data: seq<Byte>, pos: nat, out: seq<Byte>, rest: seq<Elem>, t: Track, kind: Byte)
    requires pos < |data| && kind == data[pos]
    ensures OnTrack(data, pos, out, rest, t) ==>
              if kind == EOO then t.canonical && out + [kind] == t.want && pos + 1 == t.end
              else NameAt(data, pos + 1, out + [kind], rest, t, kind)
  {
    hide EncVal, BsonVal, Formed, Canonical;
    if OnTrack(data, pos, out, rest, t) {
      AtHead(data, pos, EncBody(rest) + [0]);
      if rest != [] {
        KindStep(data, pos, out, rest, t, kind);
      }
    }
  }

  lemma KindStep(data: seq<Byte>, pos: nat, out: seq<Byte>, rest: seq<Elem>, t: Track, kind: Byte)
    requires OnTrack(data, pos, out, rest, t) && rest != [] && pos < |data| && kind == data[pos]
    ensures kind != EOO && NameAt(data, pos + 1, out + [kind], rest, t, kind)
  {
    hide EncVal, BsonVal, EncBody, BsonBody, Canonical, CanonicalAll;
    var e := rest[0];
    FormedKind(e.kind, e.val);
    BodySplit(rest);
    var enc, bson := EncVal(e.kind, e.val) + (EncBody(rest[1..]) + [0]), BsonVal(e.val) + (BsonBody(rest[1..]) + [0]);
    var k := [KindByte(e.kind)];
    assert Head(e) + enc == k + (e.name + [0] + enc);
    AtSplit(data, pos, k, e.name + [0] + enc);
    AtHead(data, pos, k);
    assert out + (Head(e) + bson) == out + k + (e.name + [0] + bson);
  }

  /** The name has been copied; the value comes next. */
  ghost predicate ValAt(data: seq<Byte>, pos: nat, out: seq<Byte>, rest: seq<Elem>, t: Track, kind: int) {
    && rest != [] && FormedAll(rest) && -1 <= rest[0].kind < 128 && rest[0].kind != EOO
    && kind == KindByte(rest[0].kind)
    && var e := rest[0];
    && At(data, pos, EncVal(e.kind, e.val) + (EncBody(rest[1..]) + [0]))
    && out + (BsonVal(e.val) + (BsonBody(rest[1..]) + [0])) == t.want
    && t.canonical == CanonicalAll(rest)
    && t.end == pos + |EncVal(e.kind, e.val) + (EncBody(rest[1..]) + [0])|
  }

  lemma StepName(data: seq<Byte>, pos: nat, out: seq<Byte>, rest: seq<Elem>, t: Track, kind: int, named: bool, len: nat)
    requires pos + len <= |data| && NoNul(data, pos, pos + len)
    requires if named then pos + len < |data| && data[pos + len] == 0 else pos + len == |data|
    ensures NameAt(data, pos, out, rest, t, kind) ==>
              named && ValAt(data, pos + len + 1, out + data[pos..pos + len + 1], rest, t, kind)
  {
    hide EncVal, BsonVal, EncBody, BsonBody, Canonical, CanonicalAll, Formed;
    if NameAt(data, pos, out, rest, t, kind) {
      var e := rest[0];
      var enc, bson := EncVal(e.kind, e.val) + (EncBody(rest[1..]) + [0]), BsonVal(e.val) + (BsonBody(rest[1..]) + [0]);
      AtSplit(data, pos, e.name + [0], enc);
      FoundString(data, pos, e.name, named, len);
      assert data[pos..pos + len + 1] == e.name + [0];
      assert out + (e.name + [0] + bson) == out + (e.name + [0]) + bson;
    }
  }

  lemma StepVal(data: seq<Byte>, pos: nat, out: seq<Byte>, pos': nat, out': seq<Byte>, ok: bool, rest: seq<Elem>,
                t: Track, kind: int)
    requires out <= out'
    requires rest != [] && Given(data, pos, kind, rest[0].kind, rest[0].val) ==>
               Decoded(ok, pos, pos', out, out', rest[0].kind, rest[0].val)
    ensures ValAt(data, pos, out, rest, t, kind) ==>
              if ok then OnTrack(data, pos', out', Rest(rest), t) || Lost(out', t) else !t.canonical
  {
    if ValAt(data, pos, out, rest, t, kind) {
      ValDone(data, pos, out, pos', out', ok, rest, t, kind);
    }
  }

  lemma ValDone(data: seq<Byte>, pos: nat, out: seq<Byte>, pos': nat, out': seq<Byte>, ok: bool, rest: seq<Elem>,
                t: Track, kind: int)
    requires ValAt(data, pos, out, rest, t, kind)
    requires Given(data, pos, kind, rest[0].kind, rest[0].val) ==>
               Decoded(ok, pos, pos', out, out', rest[0].kind, rest[0].val)
    ensures if ok then OnTrack(data, pos', out', Rest(rest), t) || Lost(out', t) else !t.canonical
  {
    hide EncVal, BsonVal, EncBody, BsonBody, Off, Canonical, Formed;
    var e := rest[0];
    var enc, bson := EncBody(rest[1..]) + [0], BsonBody(rest[1..]) + [0];
    AtSplit(data, pos, EncVal(e.kind, e.val), enc);
    assert Given(data, pos, kind, e.kind, e.val);
    if Canonical(e.kind, e.val) {
      assert out + (BsonVal(e.val) + bson) == out + BsonVal(e.val) + bson;
    } else if ok {
      assert out + BsonVal(e.val) <= t.want by { assert out + (BsonVal(e.val) + bson) == out + BsonVal(e.val) + bson; }
      OffMore(out', out + BsonVal(e.val), out', t.want);
    }
  }

  lemma NotDone(known: bool, out0: seq<Byte>, out: seq<Byte>, elems: seq<Elem>, t: Track)
    requires known ==> !t.canonical
    ensures known ==> Outcome(false, out0, out, BsonVal(Doc(elems)), t.canonical)
  {
  }

  /** Filling in the length, which counts itself and the end mark. */
  lemma Patched(known: bool, out0: seq<Byte>, out: seq<Byte>, out': seq<Byte>, pos: nat, elems: seq<Elem>, t: Track)
    requires t.want == out0 + LE32(0) + (BsonBody(elems) + [0]) && out0 + LE32(0) <= out
    requires out' == out[..|out0|] + LE32(|out| - |out0|) + out[|out0| + 4..]
    requires known ==> (t.canonical && out == t.want && pos == t.end) || Lost(out, t)
    ensures out0 <= out'
    ensures known ==> Outcome(true, out0, out', BsonVal(Doc(elems)), t.canonical)
    ensures known && t.canonical ==> pos == t.end
  {
    hide BsonBody, LE32;
    var body := BsonBody(elems) + [0];
    var want := out0 + BsonVal(Doc(elems));
    assert out[..|out0|] == out0;
    if known && t.canonical {
      assert out[|out0| + 4..] == body;
      assert out' == want;
    } else if known {
      PatchedOff(out0, out, out', body, want);
    }
  }

  lemma PatchedOff(out0: seq<Byte>, out: seq<Byte>, out': seq<Byte>, body: seq<Byte>, want: seq<Byte>)
    requires out0 + LE32(0) <= out && Off(out, out0 + LE32(0) + body)
    requires |out'| == |out| && out'[|out0| + 4..] == out[|out0| + 4..]
    requires |want| == |out0| + 4 + |body| && want[|out0| + 4..] == body
    ensures Off(out', want)
  {
    var w := out0 + LE32(0) + body;
    var j :| 0 <= j < |out| && j < |w| && out[j] != w[j];
    var i := j - |out0| - 4;
    assert j >= |out0| + 4;
    assert out'[|out0| + 4..][i] == out'[j] && out[|out0| + 4..][i] == out[j] && want[|out0| + 4..][i] == want[j];
    assert w[j] == body[i];
  }

  lemma BoolByte(out: seq<Byte>, v: Val, b: Byte)
    requires v.Raw? && |v.bytes| == 1 && b == if v.bytes[0] != 0 then 1 else 0
    ensures Outcome(true, out, out + [if b != 0 then 1 else 0], BsonVal(v), v.bytes[0] <= 1)
  {
    var c := [if b != 0 then 1 else 0];
    if v.bytes[0] > 1 {
      OffAppend(out, c, v.bytes, [], 0);
      assert v.bytes + [] == v.bytes;
    } else {
      assert c == v.bytes;
    }
  }

  lemma StrBytes(data: seq<Byte>, pos: nat, out: seq<Byte>, chars: seq<Byte>, len: nat)
    requires At(data, pos, chars + [0]) && len <= |chars| && |chars| + 1 < INT_LIMIT
    requires if 0 in chars then len < |chars| else len == |chars|
    ensures Outcome(true, out, out + (LE32(len + 1) + data[pos..pos + len + 1]), BsonVal(Text(chars)), 0 !in chars)
  {
    var got, want := LE32(len + 1) + data[pos..pos + len + 1], LE32(|chars| + 1) + (chars + [0]);
    if 0 in chars {
      LE32Differ(len + 1, |chars| + 1);
      var j :| 0 <= j < 4 && LE32(len + 1)[j] != LE32(|chars| + 1)[j];
      assert got[j] != want[j];
      OffAppend(out, got, want, [], j);
      assert want + [] == want;
    }
  }
}
