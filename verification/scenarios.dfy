/**
 Concrete scenarios of the chain map, with the keys and values the tests use,
 that restate every unit test of the crate (`src/map.rs`, lines 101-212) as a
 lemma.
 */
module ChainMapScenarios {
  import opened Optional
  import opened ChainMaps
  import opened ChainMapProperties

  /** `new` keeps the supplied map as its base layer. */
  lemma Initialization()
    ensures |New(map["test" := 1]).maps| > 0
    ensures MapGet(New(map["test" := 1]).maps[0], "test") == Some(1)
  {
  }

  /** `default` starts with one empty layer. */
  lemma InitializationDefault()
    ensures |Default<(), ()>().maps| > 0
    ensures Default<(), ()>().maps[0] == map[]
  {
  }

  /** A lookup in a default map finds nothing. */
  lemma GetNone()
    ensures Get(Default<string, ()>(), "test") == None
  {
    GetAfterNew<string, ()>(map[], "test");
  }

  /** A fresh default map: `insert` finds no previous value and writes the base layer. */
  lemma InsertIntoDefault()
    ensures Insert(Default<string, int>(), "test", 1).1 == None
    ensures Insert(Default<string, int>(), "test", 1).0.maps[0]["test"] == 1
    ensures Get(Insert(Default<string, int>(), "test", 1).0, "test") == Some(1)
  {
    GetAfterInsert(Default<string, int>(), "test", 1);
  }

  /**
   `insert` reports only the top layer's previous value: with `x` bound in the
   base layer, inserting `x` into a fresh child returns `None`.
   */
  lemma InsertReportsTopLayerOnly()
    ensures var c := NewChild(New(map["x" := 0]));
            Get(c, "x") == Some(0) && Insert(c, "x", 1).1 == None
  {
    GetAfterNew(map["x" := 0], "x");
    GetAfterNewChild(New(map["x" := 0]), "x");
  }

  /** `get_mut` yields the bound value, and adding 1 through it is seen by `get`. */
  lemma GetMutInPlace()
    ensures var c := Insert(Default<string, int>(), "test", 1).0;
            && GetMut(c, "test", x => x + 1).1 == Some(1)
            && Get(GetMut(c, "test", x => x + 1).0, "test") == Some(2)
  {
    var c := Insert(Default<string, int>(), "test", 1).0;
    GetAfterInsert(Default<string, int>(), "test", 1);
    GetAfterGetMut(c, "test", x => x + 1);
  }

  /** Indexing a key just inserted yields its value. */
  lemma IndexAfterInsert()
    ensures var c := Insert(Default<string, int>(), "test", 1).0;
            Get(c, "test").Some? && Index(c, "test") == 1
  {
    GetAfterInsert(Default<string, int>(), "test", 1);
  }

  /** `new_child` adds a layer. */
  lemma NewChildAddsLayer()
    ensures |NewChild(Insert(Default<string, int>(), "test", 1).0).maps| > 1
  {
  }

  /** An update through `get_mut` reaches a binding made in an outer layer. */
  lemma GetMutReachesOuterLayer()
    ensures var c := Insert(NewChild(Insert(Default<string, int>(), "outer", 1).0), "inner", 2).0;
            var c' := GetMut(c, "outer", x => x + 9000).0;
            Get(c', "outer") == Some(9001) && "outer" !in Top(c')
  {
    var b := Insert(Default<string, int>(), "outer", 1).0;
    GetAfterInsert(Default<string, int>(), "outer", 1);
    GetAfterNewChild(b, "outer");
    var c := Insert(NewChild(b), "inner", 2).0;
    GetOtherAfterInsert(NewChild(b), "inner", 2, "outer");
    GetAfterGetMut(c, "outer", x => x + 9000);
    GetMutAddsNoKey(c, "outer", x => x + 9000, |c.maps| - 1);
  }

  /** Shadowing in a child scope, then `remove_child` brings the outer value back. */
  lemma ScopesAndRemoveChild()
    ensures var b := Insert(Insert(Default<string, int>(), "x", 0).0, "y", 2).0;
            var c := Insert(NewChild(b), "x", 1).0;
            && Get(c, "x") == Some(1)
            && Get(c, "y") == Some(2)
            && RemoveChild(c).1 == Some(map["x" := 1])
            && Get(RemoveChild(c).0, "x") == Some(0)
  {
    var a := Insert(Default<string, int>(), "x", 0).0;
    GetAfterInsert(Default<string, int>(), "x", 0);
    var b := Insert(a, "y", 2).0;
    GetAfterInsert(a, "y", 2);
    GetOtherAfterInsert(a, "y", 2, "x");
    GetAfterNewChild(b, "y");
    ShadowThenPop(b, "x", 1);
    GetOtherAfterInsert(NewChild(b), "x", 1, "y");
  }

  /** `remove_child` on the only layer clears it and keeps one layer. */
  lemma RemoveChildOfSingleLayer()
    ensures var c := Insert(Default<string, int>(), "x", 0).0;
            && RemoveChild(c).1 == Some(map["x" := 0])
            && Get(RemoveChild(c).0, "x") == None
            && |RemoveChild(c).0.maps| == 1
  {
    var c := Insert(Default<string, int>(), "x", 0).0;
    RemoveLastLayerClears(c, "x");
  }

}
