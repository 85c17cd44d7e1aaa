/** The persisted supplier relation of the network nodes: every stored node id
    maps to the id of its single supplier, if it has one (the self-referencing
    `supplier` foreign key). Chains, roots, acyclicity and the tier bound are
    defined here once, on the map, and every walk in the model is specified
    against them. */
module SupplierChain {

  datatype Option<T> = None | Some(value: T)

  /** Primary keys of stored nodes: the database's auto-increment ids, which start at 1. */
  type NodeId = i: int | i >= 1 witness 1

  /** The persisted supplier column, keyed by primary key. */
  type Store = map<NodeId, Option<NodeId>>

  /** The deepest tier a node may sit at: 0 factory, 1 retail chain, 2 sole proprietor. */
  const MaxLevel: nat := 2

  /** One hop: the supplier of `x` as the store records it. An id the store does
      not hold has no recorded supplier. */
  function SupplierOf(db: Store, x: NodeId): Option<NodeId>
  {
    if x in db then db[x] else None
  }

  /** The k-th entry of the chain that starts at `from` and keeps following
      supplier links (entry 0 is `from` itself); None once the chain has ended. */
  function ChainAt(db: Store, from: Option<NodeId>, k: nat): Option<NodeId>
    decreases k
  {
    if k == 0 || from.None? then from else ChainAt(db, SupplierOf(db, from.value), k - 1)
  }

  /** The chain from `from` reaches a node without a supplier. */
  ghost predicate ReachesRoot(db: Store, from: Option<NodeId>)
  {
    exists n: nat :: ChainAt(db, from, n).None?
  }

  /** No stored node is its own ancestor: every chain ends at a root. */
  ghost predicate Acyclic(db: Store)
  {
    forall x :: x in db ==> ReachesRoot(db, Some(x))
  }

  /** Referential integrity: every recorded supplier is itself stored. */
  predicate Closed(db: Store)
  {
    forall x :: x in db && db[x].Some? ==> db[x].value in db
  }

  /** Every stored node is at most MaxLevel hops from a root. */
  ghost predicate WithinTiers(db: Store)
  {
    forall x :: x in db ==> ChainAt(db, Some(x), MaxLevel + 1).None?
  }

  /** Once a chain has ended it stays ended. */
  lemma {:induction false} ChainEnded(db: Store, from: Option<NodeId>, a: nat, b: nat)
    requires a <= b && ChainAt(db, from, a).None?
    ensures ChainAt(db, from, b).None?
    decreases a
  {
    if a > 0 && from.Some? {
      ChainEnded(db, SupplierOf(db, from.value), a - 1, b - 1);
    }
  }

  /** Walking a + b hops is walking a hops and then b more. */
  lemma {:induction false} ChainSplit(db: Store, from: Option<NodeId>, a: nat, b: nat)
    ensures ChainAt(db, from, a + b) == ChainAt(db, ChainAt(db, from, a), b)
    decreases a
  {
    if a > 0 && from.Some? {
      ChainSplit(db, SupplierOf(db, from.value), a - 1, b);
    }
  }

  /** Changing the supplier of `x` does not affect a walk until the walk reaches `x`. */
  lemma {:induction false} ChainAvoiding(db: Store, x: NodeId, s: Option<NodeId>, from: Option<NodeId>, k: nat)
    requires forall i :: 0 <= i < k ==> ChainAt(db, from, i) != Some(x)
    ensures ChainAt(db[x := s], from, k) == ChainAt(db, from, k)
    decreases k
  {
    if k > 0 && from.Some? {
      assert ChainAt(db, from, 0) == from;
      var next := SupplierOf(db, from.value);
      assert SupplierOf(db[x := s], from.value) == next;
      forall i | 0 <= i < k - 1
        ensures ChainAt(db, next, i) != Some(x)
      {
        assert ChainAt(db, from, i + 1) == ChainAt(db, next, i);
      }
      ChainAvoiding(db, x, s, next, k - 1);
    }
  }

  /** After `x` is given supplier `s`, the chain from `x` is `x` followed by the
      old chain from `s`, provided that chain never passed through `x`. */
  lemma RelinkedChain(db: Store, x: NodeId, s: Option<NodeId>, m: nat)
    requires forall i :: ChainAt(db, s, i) != Some(x)
    ensures ChainAt(db[x := s], Some(x), 1 + m) == ChainAt(db, s, m)
  {
    assert SupplierOf(db[x := s], x) == s;
    ChainAvoiding(db, x, s, s, m);
  }

  /** In a closed store every entry of a chain that starts inside it is stored. */
  lemma {:induction false} ChainStaysInStore(db: Store, from: Option<NodeId>, k: nat)
    requires Closed(db)
    requires from.Some? ==> from.value in db
    ensures ChainAt(db, from, k).Some? ==> ChainAt(db, from, k).value in db
    decreases k
  {
    if k > 0 && from.Some? {
      ChainStaysInStore(db, SupplierOf(db, from.value), k - 1);
    }
  }

  /** The first visit of a walk to `x`, among its first n entries. */
  lemma {:induction false} FirstVisit(db: Store, from: Option<NodeId>, x: NodeId, n: nat) returns (k: nat)
    requires exists i :: 0 <= i < n && ChainAt(db, from, i) == Some(x)
    ensures k < n && ChainAt(db, from, k) == Some(x)
    ensures forall i :: 0 <= i < k ==> ChainAt(db, from, i) != Some(x)
    decreases n
  {
    if exists i :: 0 <= i < n - 1 && ChainAt(db, from, i) == Some(x) {
      k := FirstVisit(db, from, x, n - 1);
    } else {
      k := n - 1;
    }
  }

  /** A chain that returns to its start never ends. */
  lemma {:induction false} CycleNeverEnds(db: Store, from: Option<NodeId>, k: nat, j: nat)
    requires k >= 1 && from.Some? && ChainAt(db, from, k) == from
    ensures ChainAt(db, from, j).Some?
    decreases j
  {
    if j <= k {
      if ChainAt(db, from, j).None? {
        ChainEnded(db, from, j, k);
      }
    } else {
      ChainSplit(db, from, k, j - k);
      CycleNeverEnds(db, from, k, j - k);
    }
  }

  /** A node whose chain reaches a root is not its own ancestor. */
  lemma NotOwnAncestor(db: Store, x: NodeId, k: nat)
    requires ReachesRoot(db, Some(x)) && k >= 1
    ensures ChainAt(db, Some(x), k) != Some(x)
  {
    if ChainAt(db, Some(x), k) == Some(x) {
      var n: nat :| ChainAt(db, Some(x), n).None?;
      CycleNeverEnds(db, Some(x), k, n);
      assert false;
    }
  }

  /** In an acyclic store every chain, from any starting point, reaches a root. */
  lemma AcyclicReachesRoot(db: Store, from: Option<NodeId>)
    requires Acyclic(db)
    ensures ReachesRoot(db, from)
  {
    if from.None? {
      assert ChainAt(db, from, 0).None?;
    } else if from.value !in db {
      assert ChainAt(db, from, 1).None?;
    }
  }

  /** A store whose nodes all sit within the tiers is acyclic. */
  lemma TiersAreAcyclic(db: Store)
    requires WithinTiers(db)
    ensures Acyclic(db)
  {
  }

  /** After `x` is given supplier `s`, a stored node other than `x` still
      reaches a root: either its walk never meets `x`, or it meets `x` and
      then follows the chain from `s`, which ends after m hops. */
  lemma RelinkedNodeReachesRoot(db: Store, x: NodeId, s: Option<NodeId>, m: nat, z: NodeId)
    requires ReachesRoot(db, Some(z))
    requires ChainAt(db[x := s], Some(x), 1 + m).None?
    ensures ReachesRoot(db[x := s], Some(z))
  {
    var db' := db[x := s];
    var n: nat :| ChainAt(db, Some(z), n).None?;
    if forall i :: 0 <= i < n ==> ChainAt(db, Some(z), i) != Some(x) {
      ChainAvoiding(db, x, s, Some(z), n);
      assert ChainAt(db', Some(z), n).None?;
    } else {
      var k := FirstVisit(db, Some(z), x, n);
      ChainAvoiding(db, x, s, Some(z), k);
      ChainSplit(db', Some(z), k, 1 + m);
      assert ChainAt(db', Some(z), k + (1 + m)).None?;
    }
  }

  /** Giving `x` a supplier `s` keeps the store acyclic when the chain from `s`
      ends at a root without passing through `x`. */
  lemma RelinkKeepsAcyclic(db: Store, x: NodeId, s: Option<NodeId>)
    requires Acyclic(db)
    requires ReachesRoot(db, s)
    requires forall i :: ChainAt(db, s, i) != Some(x)
    ensures Acyclic(db[x := s])
  {
    var db' := db[x := s];
    var m: nat :| ChainAt(db, s, m).None?;
    RelinkedChain(db, x, s, m);
    forall z | z in db'
      ensures ReachesRoot(db', Some(z))
    {
      if z == x {
        assert ChainAt(db', Some(z), 1 + m).None?;
      } else {
        RelinkedNodeReachesRoot(db, x, s, m, z);
      }
    }
  }
}
