/**
 Properties that relate several chain-map operations: what a lookup sees after
 each kind of write, the push/pop round trip, the one-layer `remove_child`
 case, and the never-empty invariant over any sequence of operations.
 */
module ChainMapProperties {
  import opened Optional
  import opened ChainMaps

  /** A fresh chain map answers every lookup from its base layer. */
  lemma GetAfterNew<K, V>(base: map<K, V>, k: K)
    ensures Get(New(base), k) == MapGet(base, k)
    ensures Get(Default<K, V>(), k) == None
  {
    if k in base {
      assert IsTopmost(New(base).maps, k, 0);
    }
  }

  /** A write followed by a lookup of the same key returns the written value. */
  lemma GetAfterInsert<K, V>(c: ChainMap<K, V>, k: K, v: V)
    requires Valid(c)
    ensures Get(Insert(c, k, v).0, k) == Some(v)
  {
    var c' := Insert(c, k, v).0;
    assert IsTopmost(c'.maps, k, |c'.maps| - 1);
  }

  /** A write leaves the lookup of every other key as it was. */
  lemma GetOtherAfterInsert<K, V>(c: ChainMap<K, V>, k: K, v: V, k': K)
    requires Valid(c) && k' != k
    ensures Get(Insert(c, k, v).0, k') == Get(c, k')
  {
    var c' := Insert(c, k, v).0;
    var n := |c.maps|;
    assert forall j :: 0 <= j < n ==> (k' in c'.maps[j] <==> k' in c.maps[j]) by {
      forall j | 0 <= j < n
        ensures k' in c'.maps[j] <==> k' in c.maps[j]
      {
        if j < n - 1 {
          assert c'.maps[j] == c'.maps[..n - 1][j];
        }
      }
    }
    match ResolvingLayer(c.maps, k')
    case None =>
    case Some(i) =>
      assert IsTopmost(c'.maps, k', i);
      if i < n - 1 {
        assert c'.maps[i] == c'.maps[..n - 1][i];
      }
  }

  /**
   `get_mut` reaches the layer `get` resolves to: after updating through it,
   a lookup of the same key sees the updated value.
   */
  lemma GetAfterGetMut<K, V>(c: ChainMap<K, V>, k: K, f: V -> V)
    ensures Get(GetMut(c, k, f).0, k) == (if Get(c, k).Some? then Some(f(Get(c, k).value)) else None)
  {
    match ResolvingLayer(c.maps, k)
    case None =>
    case Some(i) =>
      var c' := GetMut(c, k, f).0;
      assert OnlyEntryChanged(c.maps, c'.maps, i, k, f(c.maps[i][k]));
      assert IsTopmost(c'.maps, k, i);
  }

  /** Updating one key through `get_mut` leaves the lookup of every other key as it was. */
  lemma GetOtherAfterGetMut<K, V>(c: ChainMap<K, V>, k: K, f: V -> V, k': K)
    requires k' != k
    ensures Get(GetMut(c, k, f).0, k') == Get(c, k')
  {
    match ResolvingLayer(c.maps, k)
    case None =>
    case Some(i) =>
      var c' := GetMut(c, k, f).0;
      assert OnlyEntryChanged(c.maps, c'.maps, i, k, f(c.maps[i][k]));
      match ResolvingLayer(c.maps, k')
      case None =>
        assert Absent(c'.maps, k');
      case Some(i') =>
        assert IsTopmost(c'.maps, k', i');
  }

  /**
   `get_mut` never creates a binding: every layer keeps exactly its keys, so
   in particular no shadowing entry appears in the top layer.
   */
  lemma GetMutAddsNoKey<K, V>(c: ChainMap<K, V>, k: K, f: V -> V, j: int)
    requires 0 <= j < |c.maps|
    ensures |GetMut(c, k, f).0.maps| == |c.maps|
    ensures GetMut(c, k, f).0.maps[j].Keys == c.maps[j].Keys
  {
    match ResolvingLayer(c.maps, k)
    case None =>
    case Some(i) =>
      assert OnlyEntryChanged(c.maps, GetMut(c, k, f).0.maps, i, k, f(c.maps[i][k]));
  }

  /** An empty child layer shadows nothing. */
  lemma GetAfterNewChild<K, V>(c: ChainMap<K, V>, k: K)
    ensures Get(NewChild(c), k) == Get(c, k)
  {
    var c' := NewChild(c);
    assert forall j :: 0 <= j < |c.maps| ==> c'.maps[j] == c.maps[j];
    match ResolvingLayer(c.maps, k)
    case None =>
    case Some(i) =>
      assert IsTopmost(c'.maps, k, i);
  }

  /** A pushed layer `m` shadows the layers below it exactly on its own keys. */
  lemma GetAfterNewChildWith<K, V>(c: ChainMap<K, V>, m: map<K, V>, k: K)
    ensures Get(NewChildWith(c, m), k) == (if k in m then Some(m[k]) else Get(c, k))
  {
    var c' := NewChildWith(c, m);
    assert forall j :: 0 <= j < |c.maps| ==> c'.maps[j] == c.maps[j];
    if k in m {
      assert IsTopmost(c'.maps, k, |c.maps|);
    } else {
      match ResolvingLayer(c.maps, k)
      case None =>
      case Some(i) =>
        assert IsTopmost(c'.maps, k, i);
    }
  }

  /** Popping a freshly pushed layer returns it and restores the chain map. */
  lemma PushPopRoundTrip<K, V>(c: ChainMap<K, V>, m: map<K, V>)
    requires Valid(c)
    ensures RemoveChild(NewChildWith(c, m)) == (c, Some(m))
    ensures RemoveChild(NewChild(c)) == (c, Some(map[]))
  {
    assert NewChildWith(c, m).maps[..|c.maps|] == c.maps;
    assert NewChild(c).maps[..|c.maps|] == c.maps;
  }

  /**
   On a chain map with a single layer, `remove_child` hands back the whole
   base layer and leaves a single empty layer: no key is found afterwards.
   */
  lemma RemoveLastLayerClears<K, V>(c: ChainMap<K, V>, k: K)
    requires |c.maps| == 1
    ensures Valid(RemoveChild(c).0) && |RemoveChild(c).0.maps| == 1
    ensures RemoveChild(c).1 == Some(c.maps[0])
    ensures Get(RemoveChild(c).0, k) == None
  {
  }

  /** The operations a caller can apply to a chain map. */
  datatype Op<K, !V> =
    | Put(key: K, value: V)
    | Update(key: K, f: V -> V)
    | Push
    | PushWith(layer: map<K, V>)
    | Pop

  /** The chain map after one operation; return values are dropped. */
  function Apply<K, V>(c: ChainMap<K, V>, op: Op<K, V>): ChainMap<K, V>
  {
    match op
    case Put(k, v) => Insert(c, k, v).0
    case Update(k, f) => GetMut(c, k, f).0
    case Push => NewChild(c)
    case PushWith(m) => NewChildWith(c, m)
    case Pop => RemoveChild(c).0
  }

  /** The chain map after a sequence of operations, applied left to right. */
  function Run<K, V>(c: ChainMap<K, V>, ops: seq<Op<K, V>>): ChainMap<K, V>
    decreases |ops|
  {
    if |ops| == 0 then c else Run(Apply(c, ops[0]), ops[1..])
  }

  /** Never empty: no sequence of operations leaves a chain map without a layer. */
  lemma {:induction false} RunKeepsValid<K, V>(c: ChainMap<K, V>, ops: seq<Op<K, V>>)
    requires Valid(c)
    ensures Valid(Run(c, ops))
    decreases |ops|
  {
    if |ops| > 0 {
      var c' := Apply(c, ops[0]);
      assert Valid(c');
      RunKeepsValid(c', ops[1..]);
    }
  }

  /** Every chain map built by the constructors keeps a layer forever. */
  lemma NeverEmpty<K, V>(base: map<K, V>, ops: seq<Op<K, V>>)
    ensures Valid(Run(New(base), ops))
    ensures Valid(Run(Default<K, V>(), ops))
  {
    RunKeepsValid(New(base), ops);
    RunKeepsValid(Default<K, V>(), ops);
  }

  /** Only `insert` calls: the operations that write to the top layer alone. */
  predicate OnlyPuts<K, V>(ops: seq<Op<K, V>>)
  {
    forall i :: 0 <= i < |ops| ==> ops[i].Put?
  }

  /** Inserts leave the number of layers and every layer below the top as they were. */
  lemma {:induction false} PutsTouchOnlyTop<K, V>(c: ChainMap<K, V>, ops: seq<Op<K, V>>)
    requires Valid(c) && OnlyPuts(ops)
    ensures |Run(c, ops).maps| == |c.maps|
    ensures Run(c, ops).maps[..|c.maps| - 1] == c.maps[..|c.maps| - 1]
    decreases |ops|
  {
    if |ops| > 0 {
      var c' := Apply(c, ops[0]);
      assert OnlyPuts(ops[1..]) by {
        forall i | 0 <= i < |ops[1..]| ensures ops[1..][i].Put? {
          assert ops[1..][i] == ops[i + 1];
        }
      }
      PutsTouchOnlyTop(c', ops[1..]);
    }
  }

  /**
   Scoping: whatever is inserted into a pushed child layer is discarded by the
   matching `remove_child`, which restores the chain map exactly.
   */
  lemma ScopedPutsDiscarded<K, V>(c: ChainMap<K, V>, ops: seq<Op<K, V>>)
    requires Valid(c) && OnlyPuts(ops)
    ensures RemoveChild(Run(NewChild(c), ops)).0 == c
  {
    var d := NewChild(c);
    PutsTouchOnlyTop(d, ops);
    var e := Run(d, ops);
    assert e.maps[..|c.maps|] == d.maps[..|c.maps|] == c.maps;
  }

  /**
   Shadowing: inserting a key in a child layer hides the outer binding until
   the child is removed, after which the outer value is found again.
   */
  lemma ShadowThenPop<K, V>(c: ChainMap<K, V>, k: K, v: V)
    requires Valid(c)
    ensures Get(Insert(NewChild(c), k, v).0, k) == Some(v)
    ensures Get(RemoveChild(Insert(NewChild(c), k, v).0).0, k) == Get(c, k)
  {
    GetAfterInsert(NewChild(c), k, v);
    ScopedPutsDiscarded(c, [Put(k, v)]);
  }

  /**
   Unlike `insert`, an update through `get_mut` made inside a child scope to a
   key bound only in an outer layer is not undone by `remove_child`.
   */
  lemma GetMutOutlivesScope<K, V>(c: ChainMap<K, V>, k: K, f: V -> V)
    requires Valid(c) && Get(c, k).Some?
    ensures Get(RemoveChild(GetMut(NewChild(c), k, f).0).0, k) == Some(f(Get(c, k).value))
  {
    var d := NewChild(c);
    GetAfterNewChild(c, k);
    var i := ResolvingLayer(d.maps, k).value;
    assert i < |c.maps|;
    var e := GetMut(d, k, f).0;
    assert OnlyEntryChanged(d.maps, e.maps, i, k, f(d.maps[i][k]));
    var p := RemoveChild(e).0;
    assert IsTopmost(p.maps, k, i);
  }

}
