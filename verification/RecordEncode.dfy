/** Writing the stored form. */
module RecordEncode {
  import opened Basics
  import opened RecordBytes
  import opened RecordModel

  class Encoder {
    var encoded: seq<Byte>

    constructor ()
      ensures encoded == []
    {
      encoded := [];
    }

    /** Appends one value. */
    method ElemVal(kind: int, v: Val)
      requires Formed(kind, v)
      modifies this
      ensures encoded == old(encoded) + EncVal(kind, v)
      decreases v, 2
    {
      match v {
        case Raw(bytes) =>
          if kind == BOOL {
            encoded := encoded + [if bytes[0] != 0 then 1 else 0];
          } else {
            encoded := encoded + bytes;
          }
        case Text(chars) => encoded := encoded + chars + [0];
        case Bin(sub, data) => encoded := encoded + LE32(|data|) + [sub] + data;
        case Doc(elems) =>
          if kind == ARRAY {
            Array(elems);
          } else {
            Object(elems);
          }
      }
    }

    /** Appends the elements of an object and the end mark. */
    method Object(elems: seq<Elem>)
      requires FormedAll(elems)
      modifies this
      ensures encoded == old(encoded) + (EncBody(elems) + [0])
      decreases elems, 1
    {
      hide EncVal, Formed;
      var i := 0;
      ghost var start := encoded;
      assert elems[0..] == elems;
      while i < |elems|
        invariant 0 <= i <= |elems| && FormedAll(elems[i..])
        invariant start + EncBody(elems) == encoded + EncBody(elems[i..])
      {
        var e := elems[i];
        assert elems[i..][0] == e && elems[i..][1..] == elems[i + 1..];
        FormedKind(e.kind, e.val);
        encoded := encoded + [KindByte(e.kind)];
        encoded := encoded + (e.name + [0]);
        ElemVal(e.kind, e.val);
        i := i + 1;
      }
      assert elems[i..] == [];
      assert encoded == start + EncBody(elems);
      encoded := encoded + [0];
      assert encoded == start + (EncBody(elems) + [0]);
    }

    /** Appends the number of items, their common type, and the items. */
    method Array(items: seq<Elem>)
      requires FormedAll(items) && |items| < INT_LIMIT
      modifies this
      ensures encoded == old(encoded) + EncArray(items)
      decreases items, 1
    {
      hide EncItems, EncVal, VarUint;
      var itemKind := ScanKinds(items);
      var buf := SaveVarUint(|items|);
      encoded := encoded + buf;
      if |items| > 0 {
        FormedKind(items[0].kind, items[0].val);
        encoded := encoded + [KindByte(itemKind)];
        Items(items, itemKind == MIXED);
        ghost var k, rest := [KindByte(itemKind)], EncItems(itemKind == MIXED, items);
        assert old(encoded) + buf + k + rest == old(encoded) + (buf + (k + rest));
      }
    }

    method Items(items: seq<Elem>, mixed: bool)
      requires FormedAll(items)
      modifies this
      ensures encoded == old(encoded) + EncItems(mixed, items)
      decreases items, 0
    {
      hide EncVal, Formed;
      var i := 0;
      ghost var start := encoded;
      assert items[0..] == items;
      while i < |items|
        invariant 0 <= i <= |items| && FormedAll(items[i..])
        invariant start + EncItems(mixed, items) == encoded + EncItems(mixed, items[i..])
      {
        var e := items[i];
        assert items[i..][0] == e && items[i..][1..] == items[i + 1..];
        FormedKind(e.kind, e.val);
        if mixed {
          encoded := encoded + [KindByte(e.kind)];
        }
        ElemVal(e.kind, e.val);
        i := i + 1;
      }
      assert items[i..] == [];
    }
  }

  /** The type all items share, or `MIXED`; 128 before the first item. */
  method ScanKinds(items: seq<Elem>) returns (k: int)
    requires FormedAll(items)
    ensures items != [] ==> k == ItemKind(items)
  {
    k := 128;
    var i := 0;
    assert items[0..] == items;
    while i < |items|
      invariant 0 <= i <= |items| && FormedAll(items[i..])
      invariant i == 0 ==> k == 128
      invariant i > 0 ==> k == ItemKind(items[..i]) && -1 <= items[0].kind < 128
    {
      assert items[i..][0] == items[i] && items[i..][1..] == items[i + 1..];
      FormedKind(items[i].kind, items[i].val);
      KindSoFar(items, i);
      if k == 128 {
        k := items[i].kind;
      } else if items[i].kind != k {
        k := MIXED;
      }
      i := i + 1;
    }
    assert items[..i] == items;
  }

  lemma KindSoFar(items: seq<Elem>, i: nat)
    requires i < |items|
    ensures ItemKind(items[..i + 1])
         == if i == 0 then items[0].kind
            else if ItemKind(items[..i]) == items[0].kind && items[i].kind == items[0].kind then items[0].kind
            else if items[0].kind == MIXED then ItemKind(items[..i + 1]) else MIXED
  {
    var s := items[..i + 1];
    if i > 0 {
      var t := items[..i];
      assert forall j :: 0 <= j < i ==> t[j] == s[j];
      assert s[i] == items[i];
      if forall j :: 0 <= j < |s| ==> s[j].kind == s[0].kind {
        assert forall j :: 0 <= j < |t| ==> t[j].kind == t[0].kind;
      }
    }
  }
}
