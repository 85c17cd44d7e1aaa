/** The table of persisted network nodes and `save`, which validates a node
    in full before writing it. */
module NodeTable {
  import opened SupplierChain
  import opened NetworkNode

  /** The outcome of a save: the primary key written, the errors of the
      validation error raised, or the failed fetch of a missing supplier row. */
  datatype SaveResult = Saved(id: NodeId) | Rejected(errors: set<Violation>) | LookupFailed

  class NodeStore {
    /** The supplier column, by primary key. */
    var suppliers: Store
    /** The debt column in cents, by primary key. */
    var debts: map<NodeId, int>
    /** The primary key the next insert without a key receives. */
    var nextId: NodeId

    /** What every save keeps: one row per key in both columns, suppliers that
        exist, no supplier cycle, no negative debt, and keys below the counter. */
    ghost predicate Valid()
      reads this
    {
      suppliers.Keys == debts.Keys &&
      Closed(suppliers) &&
      Acyclic(suppliers) &&
      (forall x :: x in debts ==> debts[x] >= 0) &&
      (forall x :: x in suppliers ==> x < nextId)
    }

    constructor ()
      ensures Valid()
      ensures suppliers == map[] && debts == map[] && nextId == 1
    {
      suppliers := map[];
      debts := map[];
      nextId := 1;
    }

    /** `save`: run the full validation against the stored rows and write the
        node only if it passes. A node without a primary key is
        inserted under a fresh one; a node with one overwrites (or creates)
        the row under that key. */
    method Save(node: Node) returns (r: SaveResult)
      requires Valid()
      modifies this
      ensures Valid()
      ensures r.Saved? <==> FullCleanVerdict(old(suppliers), node) == Passed
      ensures r.Rejected? <==> FullCleanVerdict(old(suppliers), node).Invalid?
      ensures r.Rejected? ==> r.errors == FullCleanVerdict(old(suppliers), node).errors
      ensures r.LookupFailed? <==> SupplierDangles(old(suppliers), node)
      ensures !r.Saved? ==> suppliers == old(suppliers) && debts == old(debts) && nextId == old(nextId)
      ensures r.Saved? ==> r.id == (if node.pk.Some? then node.pk.value else old(nextId))
      ensures r.Saved? ==> r.id !in old(suppliers) || node.pk.Some?
      ensures r.Saved? ==> suppliers == old(suppliers)[r.id := node.supplier]
      ensures r.Saved? ==> debts == old(debts)[r.id := node.debt]
      ensures r.Saved? ==> nextId == (if r.id < old(nextId) then old(nextId) else r.id + 1)
      ensures r.Saved? ==> ChainAt(suppliers, Some(r.id), MaxLevel + 1).None?
      ensures r.Saved? ==> LevelOf(suppliers, r.id) <= MaxLevel
    {
      var db := suppliers;
      if node.pk.Some? {
        AcyclicReachesRoot(db, node.supplier);
      }
      var outcome := FullClean(db, node);
      if outcome.SupplierDoesNotExist? {
        return LookupFailed;
      } else if outcome.Invalid? {
        return Rejected(outcome.errors);
      }
      var id := if node.pk.Some? then node.pk.value else nextId;
      var s := node.supplier;
      forall i: nat
        ensures ChainAt(db, s, i) != Some(id)
      {
        if node.pk.None? {
          ChainStaysInStore(db, s, i);
        }
      }
      AcyclicReachesRoot(db, s);
      RelinkKeepsAcyclic(db, id, s);
      RelinkedChain(db, id, s, MaxLevel);
      suppliers := db[id := s];
      debts := debts[id := node.debt];
      if id >= nextId {
        nextId := id + 1;
      }
      assert LevelOf(suppliers, id) <= MaxLevel by {
        assert ChainAt(suppliers, Some(id), MaxLevel + 1) == ChainAt(suppliers, s, MaxLevel);
      }
      return Saved(id);
    }
  }
}
