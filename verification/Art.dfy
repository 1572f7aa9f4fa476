/** The adaptive radix tree as a finite map from byte strings: every run of insertions
    and deletions on keys of which none is a proper prefix of another answers as the map
    does, and iteration lists the map in key order. */
module Art {
  import opened Basics
  import opened ArtNodes
  import opened ArtTree
  import opened ArtSearch
  import opened ArtInsert
  import opened ArtInsertProof
  import opened ArtDelete
  import opened ArtIter

  ghost predicate Holds<V>(root: Option<Node<V>>, k: Key, v: V) {
    root.Some? && Has(root.value, k, v)
  }

  /** The tree holds exactly the bindings of `m`. */
  ghost predicate Represents<V(!new)>(root: Option<Node<V>>, m: map<Key, V>) {
    && (root.Some? ==> WF(root.value, []))
    && (forall k, v :: Holds(root, k, v) <==> k in m && m[k] == v)
  }

  /** `key` fits the stored keys: it is one of them, or parts from each of them. */
  ghost predicate Fits<V>(m: map<Key, V>, key: Key) {
    forall k :: k in m ==> Compatible(k, key)
  }

  ghost function Lookup<V>(m: map<Key, V>, k: Key): Option<V> {
    if k in m then Some(m[k]) else None
  }

  lemma NoTreeNoMap<V(!new)>(m: map<Key, V>)
    requires Represents(None, m)
    ensures m == map[]
  {
    forall k ensures k !in m {
      assert k in m ==> !Holds(None, k, m[k]);
    }
  }

  lemma SearchIsLookup<V(!new)>(root: Option<Node<V>>, m: map<Key, V>, key: Key, oob: Beyond)
    requires Represents(root, m)
    ensures (if root.Some? then Search(root.value, key, 0, oob) else None) == Lookup(m, key)
  {
    hide WF, Has, Search;
    if root.Some? {
      forall v ensures Search(root.value, key, 0, oob) == Some(v) <==> Holds(root, key, v) {
        SearchFinds(root.value, [], key, oob, v);
      }
      LookupIs(root, m, key, Search(root.value, key, 0, oob));
    } else {
      NoTreeNoMap(m);
    }
  }

  /** An answer that says which value is held is the map's answer. */
  lemma LookupIs<V(!new)>(root: Option<Node<V>>, m: map<Key, V>, key: Key, r: Option<V>)
    requires Represents(root, m) && forall v :: Holds(root, key, v) <==> r == Some(v)
    ensures r == Lookup(m, key)
  {
    hide Holds;
    assert r.Some? ==> Holds(root, key, r.value);
    if key in m {
      assert Holds(root, key, m[key]);
    }
  }

  lemma InsertIsUpdate<V(!new)>(root: Node<V>, m: map<Key, V>, key: Key, value: V, oob: Beyond)
    requires Represents(Some(root), m) && Fits(m, key)
    ensures Sized(root)
    ensures var r := Insert(root, key, value, 0, oob);
      Represents(Some(r.0), m[key := value]) && r.1 == Lookup(m, key)
  {
    hide WF, Has, Insert, Compatible;
    forall k, v | Has(root, k, v) ensures Compatible(k, key) {
      assert Holds(Some(root), k, v);
    }
    InsertOk(root, [], key, value, oob);
    var r := Insert(root, key, value, 0, oob);
    LookupIs(Some(root), m, key, r.1);
    forall k, v ensures Holds(Some(r.0), k, v) <==> k in m[key := value] && m[key := value][k] == v {
      assert Holds(Some(root), k, v) <==> k in m && m[k] == v;
    }
  }

  lemma DeleteIsRemoval<V(!new)>(root: Node<V>, m: map<Key, V>, key: Key, oob: Beyond)
    requires Represents(Some(root), m)
    ensures var r := Delete(root, key, 0, oob);
      Represents(r.0, m - {key}) && r.1 == Lookup(m, key)
  {
    hide WF, Has, Delete;
    DeleteOk(root, [], key, oob);
    var r := Delete(root, key, 0, oob);
    LookupIs(Some(root), m, key, r.1);
    forall k, v ensures Holds(r.0, k, v) <==> k in m - {key} && (m - {key})[k] == v {
      assert Holds(Some(root), k, v) <==> k in m && m[k] == v;
    }
  }

  lemma FirstLeaf<V(!new)>(key: Key, value: V)
    ensures Represents(Some(Leaf(key, value)), map[key := value])
  {
  }

  class Tree<V(!new)> {
    var root: Option<Node<V>>
    var size: nat
    ghost var model: map<Key, V>

    ghost predicate Valid()
      reads this
    {
      Represents(root, model) && size == |model|
    }

    constructor ()
      ensures Valid() && model == map[]
    {
      root, size, model := None, 0, map[];
    }

    method Get(key: Key, oob: Beyond) returns (r: Option<V>)
      requires Valid()
      ensures r == Lookup(model, key)
    {
      SearchIsLookup(root, model, key, oob);
      r := ArtSearch.ArtSearch(root, key, oob);
    }

    /** `art_insert`. */
    method Put(key: Key, value: V, oob: Beyond) returns (was: Option<V>)
      requires Valid() && Fits(model, key)
      modifies this
      ensures Valid() && model == old(model)[key := value]
      ensures was == Lookup(old(model), key)
    {
      hide Has, WF, Insert;
      if root.None? {
        NoTreeNoMap(model);
        FirstLeaf(key, value);
        root, was := Some(Leaf(key, value)), None;
      } else {
        InsertIsUpdate(root.value, model, key, value, oob);
        var r := Insert(root.value, key, value, 0, oob);
        root, was := Some(r.0), r.1;
      }
      assert model[key := value].Keys == model.Keys + {key};
      if was.None? {
        size := size + 1;
      }
      model := model[key := value];
    }

    /** `art_delete`. */
    method Remove(key: Key, oob: Beyond) returns (was: Option<V>)
      requires Valid()
      modifies this
      ensures Valid() && model == old(model) - {key}
      ensures was == Lookup(old(model), key)
    {
      hide Has, WF, Delete;
      was := None;
      if root.Some? {
        DeleteIsRemoval(root.value, model, key, oob);
        var r := Delete(root.value, key, 0, oob);
        root, was := r.0, r.1;
      } else {
        NoTreeNoMap(model);
      }
      assert (model - {key}).Keys == model.Keys - {key};
      if was.Some? {
        size := size - 1;
      }
      model := model - {key};
    }

    /** `art_iter`: the callback is fed the bindings of the map, each once, in increasing
        key order, up to its first nonzero answer. */
    method Iterate<S>(cb: Callback<V, S>, s: S) returns (r: (S, int), ghost items: seq<(Key, V)>)
      requires Valid()
      ensures r == Feed(items, cb, s)
      ensures Ascending(items)
      ensures forall k, v :: (k, v) in items <==> k in model && model[k] == v
    {
      hide Has, WF, Walk, Items, Less;
      if root.None? {
        NoTreeNoMap(model);
        r, items := (s, 0), [];
      } else {
        ItemsOk(root.value, []);
        assert forall k, v :: Holds(root, k, v) <==> Has(root.value, k, v);
        WalkFeeds(root.value, cb, s);
        r, items := Walk(root.value, cb, s), Items(root.value);
      }
    }

    /** Any run answers as the map does, provided every key fits the stored ones when it is
        inserted. Lookups and deletions take any key, and what lies past a key's end may differ
        from one operation to the next. */
    method Run(ops: seq<Op<V>>, oobs: seq<Beyond>) returns (answers: seq<Option<V>>)
      requires Valid() && |oobs| == |ops|
      requires forall i :: 0 <= i < |ops| && ops[i].PutOp? ==> Fits(SpecRun(model, ops[..i]).0, ops[i].key)
      modifies this
      ensures Valid() && (model, answers) == SpecRun(old(model), ops)
    {
      hide Fits, Represents;
      answers := [];
      var i := 0;
      assert ops[..0] == [];
      while i < |ops|
        invariant 0 <= i <= |ops| && Valid()
        invariant (model, answers) == SpecRun(old(model), ops[..i])
      {
        assert ops[..i + 1][..i] == ops[..i];
        var answer: Option<V>;
        match ops[i] {
          case GetOp(k) => answer := Get(k, oobs[i]);
          case PutOp(k, v) => answer := Put(k, v, oobs[i]);
          case RemoveOp(k) => answer := Remove(k, oobs[i]);
        }
        answers := answers + [answer];
        i := i + 1;
      }
      assert ops[..i] == ops;
    }
  }

  datatype Op<V> = GetOp(key: Key) | PutOp(key: Key, v: V) | RemoveOp(key: Key)

  ghost function SpecStep<V>(m: map<Key, V>, op: Op<V>): map<Key, V> {
    match op
    case GetOp(_) => m
    case PutOp(k, v) => m[k := v]
    case RemoveOp(k) => m - {k}
  }

  ghost function SpecRun<V>(m: map<Key, V>, ops: seq<Op<V>>): (map<Key, V>, seq<Option<V>>) {
    if |ops| == 0 then (m, [])
    else
      var r := SpecRun(m, ops[..|ops| - 1]);
      var op := ops[|ops| - 1];
      (SpecStep(r.0, op), r.1 + [Lookup(r.0, op.key)])
  }
}
