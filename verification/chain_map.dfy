/**
 A chain map: a stack of hash-map layers that behaves as one logical map with
 lexical-scope shadowing. Layer 0 is the base layer; the last layer is the
 newest ("top") one. Lookups search from the top layer down to the base,
 `Insert` always writes to the top layer, `GetMut` updates whichever layer a
 lookup resolves to, and layers are pushed and popped by the caller.

 Every operation is a pure function that returns the new chain map (and the
 value the Rust method returns) instead of mutating it in place.
 */
module ChainMaps {
  import opened Optional

  /** The layers, from the base (index 0) to the top (last index). */
  datatype ChainMap<K, V> = ChainMap(maps: seq<map<K, V>>)

  /** The never-empty invariant: there is always at least a base layer. */
  predicate Valid<K, V>(c: ChainMap<K, V>)
  {
    |c.maps| >= 1
  }

  /** The top (newest) layer, the only one `Insert` writes to. */
  function Top<K, V>(c: ChainMap<K, V>): map<K, V>
    requires Valid(c)
  {
    c.maps[|c.maps| - 1]
  }

  /** Single-layer lookup, as `HashMap::get` answers it. */
  function MapGet<K, V>(m: map<K, V>, k: K): Option<V>
  {
    if k in m then Some(m[k]) else None
  }

  /** Layer `i` holds `k` and no layer above it does: a lookup of `k` stops at `i`. */
  ghost predicate IsTopmost<K, V>(maps: seq<map<K, V>>, k: K, i: int)
  {
    && 0 <= i < |maps|
    && k in maps[i]
    && forall j :: i < j < |maps| ==> k !in maps[j]
  }

  /** No layer holds `k`. */
  ghost predicate Absent<K, V>(maps: seq<map<K, V>>, k: K)
  {
    forall j :: 0 <= j < |maps| ==> k !in maps[j]
  }

  /**
   The index of the layer a lookup of `k` resolves to: the layers are visited
   from the top down and the first one holding `k` wins.
   */
  function ResolvingLayer<K, V>(maps: seq<map<K, V>>, k: K): (r: Option<nat>)
    ensures r.None? <==> Absent(maps, k)
    ensures r.Some? ==> IsTopmost(maps, k, r.value)
    decreases |maps|
  {
    if |maps| == 0 then None
    else if k in maps[|maps| - 1] then Some(|maps| - 1)
    else ResolvingLayer(maps[..|maps| - 1], k)
  }

  /** `ChainMap::new`: a chain map whose only layer is `base`. */
  function New<K, V>(base: map<K, V>): (c: ChainMap<K, V>)
    ensures Valid(c)
    ensures |c.maps| == 1 && c.maps[0] == base
  {
    ChainMap([base])
  }

  /** `Default::default`: a chain map whose only layer is empty. */
  function Default<K, V>(): (c: ChainMap<K, V>)
    ensures Valid(c)
    ensures |c.maps| == 1 && c.maps[0] == map[]
  {
    ChainMap([map[]])
  }

  /**
   `insert`: writes `k := v` into the top layer and returns the value `k` had
   in the top layer before, whatever the lower layers hold. On a chain map
   with no layer at all (unreachable from the constructors) the `?` on
   `last_mut()` returns `None` and nothing changes.
   */
  function Insert<K, V>(c: ChainMap<K, V>, k: K, v: V): (r: (ChainMap<K, V>, Option<V>))
    ensures |r.0.maps| == |c.maps|
    ensures |c.maps| == 0 ==> r.0 == c && r.1 == None
    ensures Valid(c) ==> r.0.maps[..|c.maps| - 1] == c.maps[..|c.maps| - 1]
    ensures Valid(c) ==> Top(r.0).Keys == Top(c).Keys + {k} && Top(r.0)[k] == v
    ensures Valid(c) ==> forall k' :: k' in Top(c) && k' != k ==> Top(r.0)[k'] == Top(c)[k']
    ensures Valid(c) ==> r.1 == MapGet(Top(c), k)
  {
    if |c.maps| == 0 then (c, None)
    else
      var top := c.maps[|c.maps| - 1];
      (ChainMap(c.maps[|c.maps| - 1 := top[k := v]]), MapGet(top, k))
  }

  /**
   `get`: the value of `k` in the topmost layer that holds it, or `None` when
   no layer holds it.
   */
  function Get<K, V>(c: ChainMap<K, V>, k: K): (r: Option<V>)
    ensures r.None? <==> Absent(c.maps, k)
    ensures forall i :: IsTopmost(c.maps, k, i) ==> r == Some(c.maps[i][k])
    ensures r.Some? ==> exists i :: IsTopmost(c.maps, k, i) && r.value == c.maps[i][k]
  {
    match ResolvingLayer(c.maps, k)
    case Some(i) =>
      assert IsTopmost(c.maps, k, i);
      Some(c.maps[i][k])
    case None => None
  }

  /**
   `before` and `after` agree everywhere except on the entry for `k` in layer
   `i`, which holds `v` in `after`; no key is added to or removed from any
   layer.
   */
  ghost predicate OnlyEntryChanged<K, V>(before: seq<map<K, V>>, after: seq<map<K, V>>, i: int, k: K, v: V)
  {
    && |after| == |before|
    && 0 <= i < |before|
    && (forall j :: 0 <= j < |before| && j != i ==> after[j] == before[j])
    && after[i].Keys == before[i].Keys
    && k in after[i] && after[i][k] == v
    && (forall k' :: k' in before[i] && k' != k ==> after[i][k'] == before[i][k'])
  }

  /**
   `get_mut` followed by an update `*r = f(*r)` through the returned
   reference. The reference points into the layer `Get` resolves to, which may
   be below the top layer; the second component is what `get_mut` returned
   (the value before the update). When no layer holds `k` nothing changes.
   */
  function GetMut<K, V>(c: ChainMap<K, V>, k: K, f: V -> V): (r: (ChainMap<K, V>, Option<V>))
    ensures r.1 == Get(c, k)
    ensures r.1.None? ==> r.0 == c
    ensures forall i :: IsTopmost(c.maps, k, i) ==> OnlyEntryChanged(c.maps, r.0.maps, i, k, f(c.maps[i][k]))
  {
    match ResolvingLayer(c.maps, k)
    case Some(i) =>
      var layer := c.maps[i];
      (ChainMap(c.maps[i := layer[k := f(layer[k])]]), Some(layer[k]))
    case None => (c, None)
  }

  /** `new_child`: pushes an empty layer on top. */
  function NewChild<K, V>(c: ChainMap<K, V>): (r: ChainMap<K, V>)
    ensures Valid(r)
    ensures |r.maps| == |c.maps| + 1
    ensures r.maps[..|c.maps|] == c.maps
    ensures Top(r) == map[]
  {
    ChainMap(c.maps + [map[]])
  }

  /** `new_child_with`: pushes the layer `m` on top. */
  function NewChildWith<K, V>(c: ChainMap<K, V>, m: map<K, V>): (r: ChainMap<K, V>)
    ensures Valid(r)
    ensures |r.maps| == |c.maps| + 1
    ensures r.maps[..|c.maps|] == c.maps
    ensures Top(r) == m
  {
    ChainMap(c.maps + [m])
  }

  /**
   `remove_child`: with more than one layer, pops the top layer and returns
   it; with exactly one layer, keeps it but replaces its contents by an empty
   map and returns the old contents. On a chain map with no layer at all
   (unreachable from the constructors) `Vec::pop` returns `None`.
   */
  function RemoveChild<K, V>(c: ChainMap<K, V>): (r: (ChainMap<K, V>, Option<map<K, V>>))
    ensures Valid(c) ==> Valid(r.0) && r.1.Some?
    ensures |c.maps| == 1 ==> |r.0.maps| == 1 && r.0.maps[0] == map[] && r.1 == Some(c.maps[0])
    ensures |c.maps| > 1 ==> |r.0.maps| == |c.maps| - 1 && r.0.maps == c.maps[..|c.maps| - 1] && r.1 == Some(Top(c))
    ensures |c.maps| == 0 ==> r.0 == c && r.1 == None
  {
    if |c.maps| == 1 then (ChainMap([map[]]), Some(c.maps[0]))
    else if |c.maps| == 0 then (c, None)
    else (ChainMap(c.maps[..|c.maps| - 1]), Some(c.maps[|c.maps| - 1]))
  }

  /**
   `Index::index`: the value `Get` finds for `k`. The source panics when no
   layer holds `k`; here that case is excluded by the precondition.
   */
  function Index<K, V>(c: ChainMap<K, V>, k: K): (v: V)
    requires Get(c, k).Some?
    ensures Get(c, k) == Some(v)
    ensures forall i :: IsTopmost(c.maps, k, i) ==> v == c.maps[i][k]
  {
    Get(c, k).value
  }

}
