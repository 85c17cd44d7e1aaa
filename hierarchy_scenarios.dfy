/** The model-level scenarios of the repository's tests, stated over the
    validation and level definitions. */
module HierarchyScenarios {
  import opened SupplierChain
  import opened NetworkNode
  import opened NodeTable

  /** A factory (1) and a retail chain it supplies (2). */
  const FactoryAndRetail: Store := map[1 := None, 2 := Some(1)]

  /** The factory has level 0 and the retail chain level 1. */
  lemma NodeCreationAndLevels()
    ensures LevelOf(FactoryAndRetail, 1) == 0
    ensures LevelOf(FactoryAndRetail, 2) == 1
  {
  }

  /** Making the retail chain the factory's supplier is a cycle. */
  lemma SupplierCycleRejected()
    ensures FullCleanVerdict(FactoryAndRetail, Node(Some(1), Some(2), 0)) == Invalid({CycleDetected})
  {
    assert ChainAt(FactoryAndRetail, Some(2), 1) == Some(1);
  }

  /** A stored node named as its own supplier is a cycle. */
  lemma DirectCycleRejected()
    ensures FullCleanVerdict(FactoryAndRetail[3 := None], Node(Some(3), Some(3), 0)) == Invalid({CycleDetected})
  {
    assert ChainAt(FactoryAndRetail[3 := None], Some(3), 0) == Some(3);
  }

  /** A sole proprietor under the retail chain is accepted at level 2; a fourth
      tier under it is rejected as too deep, and a brand-new node is never
      reported as a cycle. */
  lemma MaxHierarchyLevel()
    ensures FullCleanVerdict(FactoryAndRetail, Node(None, Some(2), 0)) == Passed
    ensures LevelOf(FactoryAndRetail[3 := Some(2)], 3) == MaxLevel
    ensures FullCleanVerdict(FactoryAndRetail[3 := Some(2)], Node(None, Some(3), 0)) == Invalid({HierarchyTooDeep})
  {
    var db := FactoryAndRetail[3 := Some(2)];
    assert LevelWithin(db, Some(1), LevelCap - 1) == 1;
    assert ChainAt(db, Some(3), MaxLevel) == Some(1);
  }

  /** The same sequence of saves on the table: three tiers are accepted and the
      fourth is rejected with the table left as it was. */
  method FactoryRetailProprietor() returns (store: NodeStore, fourth: SaveResult)
    ensures store.Valid() && WithinTiers(store.suppliers)
    ensures store.suppliers == FactoryAndRetail[3 := Some(2)]
    ensures fourth == Rejected({HierarchyTooDeep})
  {
    store := new NodeStore();
    var factory := store.Save(Node(None, None, 0));
    assert factory == Saved(1);
    assert ChainAt(store.suppliers, Some(1), MaxLevel) == None;
    var retail := store.Save(Node(None, Some(1), 0));
    assert retail == Saved(2);
    assert store.suppliers == FactoryAndRetail;
    MaxHierarchyLevel();
    var proprietor := store.Save(Node(None, Some(2), 0));
    assert proprietor == Saved(3);
    fourth := store.Save(Node(None, Some(3), 0));
    var db := store.suppliers;
    forall x | x in db
      ensures ChainAt(db, Some(x), MaxLevel + 1).None?
    {
      assert x == 1 || x == 2 || x == 3;
    }
  }
}
