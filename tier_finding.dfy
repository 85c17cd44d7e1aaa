/** The depth check of `clean` measures only the chain above the proposed
    supplier. It does not look at the clients already hanging below the node
    being saved, so moving a node that has clients can push those clients past
    the last tier. This module exhibits that on the check as written and
    proves that a check which also counts the clients keeps every stored node
    within the tiers. */
module TierFinding {
  import opened SupplierChain
  import opened NetworkNode
  import opened NodeTable

  /** Factory 1 supplies retail chain 2, which supplies sole proprietor 3;
      4 is a second factory. */
  const ThreeTiersAndFactory: Store := map[1 := None, 2 := Some(1), 3 := Some(2), 4 := None]

  /** Moving factory 1 under factory 4 passes every check of `save` as written,
      and afterwards sole proprietor 3 sits at level 3; re-saving it unchanged
      is then rejected as too deep. */
  lemma DepthCheckIgnoresClients()
    ensures WithinTiers(ThreeTiersAndFactory) && Closed(ThreeTiersAndFactory)
    ensures FullCleanVerdict(ThreeTiersAndFactory, Node(Some(1), Some(4), 0)) == Passed
    ensures LevelOf(ThreeTiersAndFactory[1 := Some(4)], 3) == MaxLevel + 1
    ensures !WithinTiers(ThreeTiersAndFactory[1 := Some(4)])
    ensures FullCleanVerdict(ThreeTiersAndFactory[1 := Some(4)], Node(Some(3), Some(2), 0)) == Invalid({HierarchyTooDeep})
  {
    var db := ThreeTiersAndFactory;
    forall x | x in db
      ensures ChainAt(db, Some(x), MaxLevel + 1).None?
    {
      assert x == 1 || x == 2 || x == 3 || x == 4;
    }
    forall k: nat
      ensures ChainAt(db, Some(4), k) != Some(1)
    {
      if k > 0 {
        ChainEnded(db, Some(4), 1, k);
      }
    }
    var moved := db[1 := Some(4)];
    assert LevelWithin(moved, Some(4), LevelCap - 2) == 1;
    assert LevelWithin(moved, Some(1), LevelCap - 1) == 2;
    assert LevelWithin(moved, Some(2), LevelCap) == 3;
    assert ChainAt(moved, Some(3), MaxLevel + 1) == Some(4);
    assert ChainAt(moved, Some(2), MaxLevel) == Some(4);
    forall k: nat
      ensures ChainAt(moved, Some(2), k) != Some(3)
    {
      if k > 3 {
        ChainEnded(moved, Some(2), 3, k);
      }
    }
  }

  /** The same move carried out on the table itself: every save is accepted and
      the table ends up with a node below the last tier. */
  method SaveCanPushClientsPastMaxLevel() returns (store: NodeStore)
    ensures store.Valid()
    ensures store.suppliers == ThreeTiersAndFactory[1 := Some(4)]
    ensures !WithinTiers(store.suppliers)
  {
    store := new NodeStore();
    var factory := store.Save(Node(None, None, 0));
    assert factory == Saved(1);
    assert ChainAt(store.suppliers, Some(1), MaxLevel) == None;
    var retail := store.Save(Node(None, Some(1), 0));
    assert retail == Saved(2);
    assert ChainAt(store.suppliers, Some(2), MaxLevel) == None;
    var proprietor := store.Save(Node(None, Some(2), 0));
    assert proprietor == Saved(3);
    var other := store.Save(Node(None, None, 0));
    assert other == Saved(4);
    assert store.suppliers == ThreeTiersAndFactory;
    DepthCheckIgnoresClients();
    var moved := store.Save(Node(Some(1), Some(4), 0));
    assert moved == Saved(1);
  }

  /** How far below `x` its clients reach: the largest k up to `bound` such
      that some stored node is k hops below `x`. */
  function ClientDepth(db: Store, x: NodeId, bound: nat): (d: nat)
    ensures d <= bound
    ensures forall z, k: nat :: z in db && k <= bound && ChainAt(db, Some(z), k) == Some(x) ==> k <= d
    ensures d > 0 ==> exists z :: z in db && ChainAt(db, Some(z), d) == Some(x)
    decreases bound
  {
    if bound == 0 then 0
    else if exists z :: z in db && ChainAt(db, Some(z), bound) == Some(x) then bound
    else ClientDepth(db, x, bound - 1)
  }

  /** `clean` with a depth check that also counts the clients below the node:
      the proposed supplier's level plus one plus the client depth may not pass MaxLevel. */
  ghost function CorrectedVerdict(db: Store, node: Node): Outcome
  {
    var below := if node.pk.Some? then ClientDepth(db, node.pk.value, MaxLevel) else 0;
    if SupplierDangles(db, node) then SupplierDoesNotExist
    else if ClosesCycle(db, node) then Invalid({CycleDetected})
    else if ChainAt(db, node.supplier, MaxLevel - below).Some? then Invalid({HierarchyTooDeep})
    else Passed
  }

  /** The corrected check rejects everything the original rejects, agrees with
      it on a node without clients, and rejects the move above. */
  lemma CorrectedIsStricter(db: Store, node: Node)
    ensures CleanVerdict(db, node) != Passed ==> CorrectedVerdict(db, node) != Passed
    ensures (node.pk.None? || ClientDepth(db, node.pk.value, MaxLevel) == 0) ==>
              CorrectedVerdict(db, node) == CleanVerdict(db, node)
    ensures CorrectedVerdict(ThreeTiersAndFactory, Node(Some(1), Some(4), 0)) == Invalid({HierarchyTooDeep})
  {
    var below := if node.pk.Some? then ClientDepth(db, node.pk.value, MaxLevel) else 0;
    if !SupplierDangles(db, node) && !ClosesCycle(db, node) {
      if ChainAt(db, node.supplier, MaxLevel - below).None? {
        ChainEnded(db, node.supplier, MaxLevel - below, MaxLevel);
        assert !TooDeep(db, node.supplier);
      }
    }
    CorrectedRejectsMove();
  }

  /** The corrected check sees the two tiers below factory 1 and rejects
      moving it under factory 4. */
  lemma CorrectedRejectsMove()
    ensures ClientDepth(ThreeTiersAndFactory, 1, MaxLevel) == MaxLevel
    ensures CorrectedVerdict(ThreeTiersAndFactory, Node(Some(1), Some(4), 0)) == Invalid({HierarchyTooDeep})
  {
    var db := ThreeTiersAndFactory;
    assert 3 in db && ChainAt(db, Some(3), MaxLevel) == Some(1);
    forall k: nat
      ensures ChainAt(db, Some(4), k) != Some(1)
    {
      if k > 0 {
        ChainEnded(db, Some(4), 1, k);
      }
    }
  }

  /** Saving a node that passes the corrected check keeps every stored node
      within the tiers (and so the store acyclic). */
  lemma CorrectedCheckKeepsTiers(db: Store, node: Node, id: NodeId)
    requires WithinTiers(db) && Closed(db)
    requires node.pk.Some? ==> id == node.pk.value
    requires node.pk.None? ==> id !in db
    requires CorrectedVerdict(db, node) == Passed
    ensures WithinTiers(db[id := node.supplier])
    ensures Acyclic(db[id := node.supplier])
  {
    var s := node.supplier;
    var db' := db[id := s];
    var below := if node.pk.Some? then ClientDepth(db, id, MaxLevel) else 0;
    assert ChainAt(db, s, MaxLevel - below).None?;
    forall i: nat
      ensures ChainAt(db, s, i) != Some(id)
    {
      if node.pk.None? {
        ChainStaysInStore(db, s, i);
      }
    }
    forall z | z in db'
      ensures ChainAt(db', Some(z), MaxLevel + 1).None?
    {
      if z == id {
        RelinkedChain(db, id, s, MaxLevel);
        ChainEnded(db, s, MaxLevel - below, MaxLevel);
      } else if forall i :: 0 <= i < MaxLevel + 1 ==> ChainAt(db, Some(z), i) != Some(id) {
        ChainAvoiding(db, id, s, Some(z), MaxLevel + 1);
      } else {
        var k := FirstVisit(db, Some(z), id, MaxLevel + 1);
        assert node.pk.Some? by {
          if node.pk.None? {
            ChainStaysInStore(db, Some(z), k);
          }
        }
        assert k <= below;
        ChainAvoiding(db, id, s, Some(z), k);
        ChainSplit(db', Some(z), k, MaxLevel + 1 - k);
        RelinkedChain(db, id, s, MaxLevel - k);
        ChainEnded(db, s, MaxLevel - below, MaxLevel - k);
      }
    }
    TiersAreAcyclic(db');
  }
}
