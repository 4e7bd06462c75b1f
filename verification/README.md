# ChainMap in Dafny

A model of `ChainMap<K, V>` from the `hash-chain` crate: a stack of hash-map
layers that acts as one logical map with lexical-scope shadowing, as an
interpreter's variable environment would use it.

- A chain map is `ChainMap(maps: seq<map<K, V>>)`. Layer 0 is the base layer.
  The last layer is the top (newest) layer.
- `Valid` is the never-empty invariant `|maps| >= 1`.
- Lookup (`Get`, `GetMut`, `Index`) goes from the top layer down. It stops at
  the first layer that holds the key (`ResolvingLayer`, `IsTopmost`).
- `Insert` writes to the top layer only. It returns the key's previous value
  in that layer, even when a lower layer holds the key.
- `GetMut` models `get_mut` followed by an update `*r = f(*r)` through the
  returned reference. The update lands in the layer `Get` resolves to, which
  may be a lower layer. It never adds a key to any layer.
- `NewChild` / `NewChildWith` push a layer.
- `RemoveChild` pops the top layer when there are at least two. When only one
  layer is left, it empties that layer and returns the old contents.

Every operation is a pure function. It returns the new chain map together with
the value the Rust method returns. `ChainMapProperties` relates the operations
to each other. It also defines `Run`, which applies a sequence of operations,
and proves that no sequence can leave a chain map without a layer.
`ChainMapScenarios` restates each unit test of the crate
(`src/map.rs`, lines 101-212) as a lemma about concrete values. Each test has
its own lemma, except that `insert` and `get` share one, and so do `scopes`
and `remove_child`.

Files: `option.dfy` (the `Option` type), `chain_map.dfy` (data model and
operations), `chain_map_properties.dfy` (cross-operation lemmas),
`scenarios.dfy` (concrete scenarios).

The Rust methods also handle a chain map with no layer at all. Such a value
cannot be built through the public constructors. `insert` then returns `None`
through the `?` on `last_mut()`, and `remove_child` returns `None` from
`Vec::pop`. The model keeps both branches as written, so that neither `Insert`
nor `RemoveChild` needs a precondition. `Index` is the one operation with a
precondition, which stands for its panic on a missing key. The contracts state
the behaviour on valid chain maps separately.

`remove_child` returns `Option<HashMap<K, V>>`. `RemoveChild` keeps the
`Option` and proves the result is `Some` on every valid chain map.

## Model

| member | source | states |
|---|---|---|
| ChainMaps.ResolvingLayer | src/map.rs:27-32 | visiting layers from the top down, the lookup stops at the topmost layer holding the key; it finds nothing exactly when no layer holds the key |
| ChainMaps.Get | src/map.rs:22-33 | the result is the key's value in the topmost layer holding it, and `None` exactly when no layer holds it; a `Some` result comes with a topmost layer holding the key at that value |
| ChainMaps.New | src/map.rs:8-10 | the new chain map is valid and has exactly one layer, the supplied map |
| ChainMaps.Default | src/map.rs:70-76 | the default chain map is valid and has exactly one layer, which is empty |
| ChainMaps.Insert | src/map.rs:13-16 | the layer count is unchanged and every lower layer is untouched; the top layer gains `k := v` and keeps its other entries; the result is the key's previous value in the top layer only; with no layer nothing changes and `None` is returned |
| ChainMaps.GetMut | src/map.rs:39-50 | returns what `Get` returns; when the key is bound, only its entry in the layer `Get` resolves to changes (to `f` of the old value), no layer gains or loses a key, and no other layer changes; when it is unbound nothing changes |
| ChainMaps.NewChild | src/map.rs:52-54 | the result is valid, has one more layer, keeps every existing layer, and its new top layer is empty |
| ChainMaps.NewChildWith | src/map.rs:56-58 | the result is valid, has one more layer, keeps every existing layer, and its new top layer is the supplied map |
| ChainMaps.RemoveChild | src/map.rs:60-67 | a valid chain map stays valid and yields `Some`; with more than one layer the top layer is returned and the old prefix remains; with one layer its contents are returned and a single empty layer remains; with no layer `None` is returned |
| ChainMaps.Index | src/map.rs:91-93 | for a key some layer holds, indexing equals `Get` and yields the value in the topmost layer holding it |
| ChainMapProperties.GetAfterNew | src/map.rs:8-10 | a chain map built by `new` answers every lookup from its base map; a default one answers `None` |
| ChainMapProperties.GetAfterInsert | src/map.rs:13-16 | a write followed by a lookup of the same key returns the written value |
| ChainMapProperties.GetOtherAfterInsert | src/map.rs:13-16 | a write leaves the lookup of every other key unchanged |
| ChainMapProperties.PutsTouchOnlyTop | src/map.rs:13-16 | any number of inserts keeps the layer count and every layer below the top |
| ChainMapProperties.GetAfterGetMut | src/map.rs:44-49 | after an update through `get_mut` a lookup of the key sees `f` of the old value, and an unbound key stays unbound |
| ChainMapProperties.GetOtherAfterGetMut | src/map.rs:44-49 | an update through `get_mut` leaves the lookup of every other key unchanged |
| ChainMapProperties.GetMutAddsNoKey | src/map.rs:44-49 | an update through `get_mut` keeps every layer's key set, so no shadowing entry appears in the top layer |
| ChainMapProperties.GetAfterNewChild | src/map.rs:52-54 | pushing an empty layer changes no lookup |
| ChainMapProperties.GetAfterNewChildWith | src/map.rs:56-58 | after pushing `m`, keys of `m` resolve to `m` and every other key resolves as before |
| ChainMapProperties.PushPopRoundTrip | src/map.rs:52-67 | on a valid chain map, `remove_child` right after a push returns the pushed layer and restores the chain map exactly |
| ChainMapProperties.RemoveLastLayerClears | src/map.rs:60-63 | on a single layer, `remove_child` returns the whole old layer and leaves one layer, in which no key is found |
| ChainMapProperties.RunKeepsValid | src/map.rs:13-67 | no sequence of inserts, updates, pushes and removals leaves a valid chain map without a layer |
| ChainMapProperties.NeverEmpty | src/map.rs:8-76 | every chain map built by `new` or `default` keeps at least one layer after any sequence of operations |
| ChainMapProperties.ScopedPutsDiscarded | src/map.rs:52-67 | inserts made after a push are all discarded by the matching `remove_child`, which restores the chain map exactly |
| ChainMapProperties.ShadowThenPop | src/map.rs:194-203 | a key inserted in a child layer shadows the outer binding, and after `remove_child` the outer lookup result comes back |
| ChainMapProperties.GetMutOutlivesScope | src/map.rs:44-67 | an update through `get_mut` made in a child scope to an outer binding survives the child's `remove_child` |
| ChainMapScenarios.Initialization | src/map.rs:102-109 | a chain map built by `new` from `{test: 1}` has a layer, and its base layer maps `test` to 1 |
| ChainMapScenarios.InitializationDefault | src/map.rs:112-117 | a default chain map has a layer, and its base layer is empty |
| ChainMapScenarios.GetNone | src/map.rs:136-139 | a lookup in a default chain map returns `None` |
| ChainMapScenarios.GetMutInPlace | src/map.rs:142-151 | after inserting `test: 1`, `get_mut` yields 1, and after adding 1 through it the lookup returns 2 |
| ChainMapScenarios.IndexAfterInsert | src/map.rs:167-172 | after inserting `test: 1`, indexing by `test` yields 1 |
| ChainMapScenarios.NewChildAddsLayer | src/map.rs:175-180 | after an insert, `new_child` leaves more than one layer |
| ChainMapScenarios.InsertIntoDefault | src/map.rs:120-133 | inserting into a default map returns `None`, writes the base layer, and the value is then found |
| ChainMapScenarios.InsertReportsTopLayerOnly | src/map.rs:13-16 | with `x` bound in the base layer, inserting `x` into a fresh child returns `None` |
| ChainMapScenarios.GetMutReachesOuterLayer | src/map.rs:154-164 | adding 9000 through `get_mut` to an outer binding of 1 makes the lookup return 9001 without binding the key in the top layer |
| ChainMapScenarios.ScopesAndRemoveChild | src/map.rs:183-203 | the shadowing scenario: inside the child `x` is 1 and `y` is 2; `remove_child` returns `{x: 1}` and `x` is 0 again |
| ChainMapScenarios.RemoveChildOfSingleLayer | src/map.rs:206-212 | `remove_child` on a single layer `{x: 0}` returns it, leaves one layer, and `x` is no longer found |

## Left out

- Borrowed-key lookup (`Q: ?Sized` with `K: Borrow<Q>`): queries use the owned key type `K`. The agreement of `Hash`/`Eq` between `K` and `Q` is a trait obligation on the caller, not logic of the map.
- `HashMap` internals and hashing: each layer is a Dafny `map<K, V>`.
- References and lifetimes: `get_mut` is modelled as "find the resolving layer, then update its entry with a caller-supplied function". Aliasing of the returned reference is not modelled.
- The panic of `Index::index` on a missing key, and its message: `Index` requires `Get(c, k).Some?` instead.
- The `Default` trait and `Index` trait plumbing: `Default` and `Index` are plain functions.
- The `#[cfg(test)]` module is not code of this model. Each of its tests appears as a lemma in `ChainMapScenarios`.
- Concurrency: the structure is single-threaded and the model is sequential.
