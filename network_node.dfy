/** A network node as held in memory before it is saved (a factory, a retail
    chain or a sole proprietor), its derived level, and the validation that
    runs before every save. The supplier hierarchy is read from the persisted
    supplier relation one hop at a time. */
module NetworkNode {
  import opened SupplierChain

  /** The fields of a node that validation reads: its primary key (None until
      first saved), its proposed supplier and its debt to that supplier in
      cents. */
  datatype Node = Node(pk: Option<NodeId>, supplier: Option<NodeId>, debt: int)

  /** The errors a validation error raised by a save can carry. */
  datatype Violation = CycleDetected | HierarchyTooDeep | NegativeDebt
  {
    /** The field the error is attached to. */
    function Field(): string
    {
      if NegativeDebt? then "debt" else "supplier"
    }
  }

  /** How a validation run ends: it passes, it raises a validation error
      carrying its errors, or fetching the supplier row fails because no row
      has that key (a lookup error, not a validation error, so none of the
      errors collected so far are reported). */
  datatype Outcome = Passed | Invalid(errors: set<Violation>) | SupplierDoesNotExist

  /** The level walk keeps stepping while it has taken at most this many hops. */
  const LevelGuard: nat := 10

  /** The value the level walk saturates at. */
  const LevelCap: nat := LevelGuard + 1

  /** Hops from a node whose supplier is `sup` to a root, counting at most `cap` of them. */
  function LevelWithin(db: Store, sup: Option<NodeId>, cap: nat): (r: nat)
    ensures r <= cap
    ensures forall k :: 0 <= k < r ==> ChainAt(db, sup, k).Some?
    ensures r < cap ==> ChainAt(db, sup, r).None?
    decreases cap
  {
    if cap == 0 || sup.None? then 0 else 1 + LevelWithin(db, SupplierOf(db, sup.value), cap - 1)
  }

  /** The level reported for a stored node. */
  function LevelOf(db: Store, x: NodeId): (r: nat)
    ensures r <= LevelCap
  {
    LevelWithin(db, SupplierOf(db, x), LevelCap)
  }

  /** The `level` property: walk up the supplier links of `node`, giving up
      once more than LevelGuard hops have been taken. */
  method Level(db: Store, node: Node) returns (depth: nat)
    ensures depth <= LevelCap
    ensures depth == LevelWithin(db, node.supplier, LevelCap)
  {
    depth := 0;
    var next := node.supplier;
    while next.Some? && depth <= LevelGuard
      invariant depth <= LevelCap
      invariant LevelWithin(db, node.supplier, LevelCap) == depth + LevelWithin(db, next, LevelCap - depth)
      decreases LevelCap - depth
    {
      depth := depth + 1;
      next := SupplierOf(db, next.value);
    }
  }

  /** A root has level 0; any other stored node is one level below its supplier
      for as long as the supplier's level is below the cap. */
  lemma LevelRecurrence(db: Store, x: NodeId)
    requires x in db
    ensures db[x].None? ==> LevelOf(db, x) == 0
    ensures db[x].Some? && LevelOf(db, db[x].value) < LevelCap ==>
              LevelOf(db, x) == 1 + LevelOf(db, db[x].value)
  {
  }

  /** On a store corrupted by a cycle the level walk still stops, at the cap. */
  lemma LevelSaturatesOnCycle(db: Store, x: NodeId, k: nat)
    requires k >= 1 && ChainAt(db, Some(x), k) == Some(x)
    ensures LevelOf(db, x) == LevelCap
  {
    var r := LevelOf(db, x);
    if r < LevelCap {
      ChainSplit(db, Some(x), 1, r);
      CycleNeverEnds(db, Some(x), k, 1 + r);
      assert false;
    }
  }

  /** The display names of the three tiers. */
  const LevelNames: map<nat, string> := map[
    0 := "Завод",
    1 := "Розничная сеть",
    2 := "Индивидуальный предприниматель"
  ]

  /** The prefix of the name given to a level with no display name ("Level "). */
  const OtherLevelPrefix: string := "Уровень "

  function DigitChar(d: nat): (c: char)
    requires d < 10
    ensures '0' <= c <= '9' && DigitValue(c) == d
  {
    "0123456789"[d]
  }

  function DigitValue(c: char): (d: nat)
    ensures d < 10
  {
    if '0' <= c <= '9' then (c - '0') as nat else 0
  }

  /** The decimal spelling of a non-negative integer. */
  function Decimal(n: nat): (s: string)
    ensures |s| >= 1
    ensures forall i :: 0 <= i < |s| ==> '0' <= s[i] <= '9'
    ensures n > 0 ==> s[0] != '0'
    decreases n
  {
    if n < 10 then [DigitChar(n)] else Decimal(n / 10) + [DigitChar(n % 10)]
  }

  function DecimalValue(s: string): (n: nat)
  {
    if s == [] then 0 else DecimalValue(s[..|s| - 1]) * 10 + DigitValue(s[|s| - 1])
  }

  /** Reading back a decimal spelling gives the number spelled. */
  lemma {:induction false} DecimalRoundTrip(n: nat)
    ensures DecimalValue(Decimal(n)) == n
    decreases n
  {
    if n < 10 {
      assert Decimal(n)[..0] == [];
    } else {
      var s := Decimal(n);
      assert s[..|s| - 1] == Decimal(n / 10);
      DecimalRoundTrip(n / 10);
    }
  }

  /** The `level_name` property for a given level: the tier's display name for
      levels 0..MaxLevel, otherwise the prefix followed by the level's decimal
      spelling, which reads back as the level. */
  function LevelName(level: nat): (name: string)
    ensures level <= MaxLevel ==> level in LevelNames && name == LevelNames[level]
    ensures level > MaxLevel ==>
              |name| > |OtherLevelPrefix| && name[..|OtherLevelPrefix|] == OtherLevelPrefix &&
              (forall i :: |OtherLevelPrefix| <= i < |name| ==> '0' <= name[i] <= '9') &&
              name[|OtherLevelPrefix|] != '0' &&
              DecimalValue(name[|OtherLevelPrefix|..]) == level
  {
    if level in LevelNames then LevelNames[level]
    else
      var name := OtherLevelPrefix + Decimal(level);
      assert name[|OtherLevelPrefix|..] == Decimal(level);
      DecimalRoundTrip(level);
      name
  }

  /** No two levels share a name. */
  lemma LevelNameInjective(a: nat, b: nat)
    ensures LevelName(a) == LevelName(b) ==> a == b
  {
  }

  /** `pk` is on the chain that starts at the proposed supplier. */
  ghost predicate OnChain(db: Store, from: Option<NodeId>, pk: NodeId)
  {
    exists k: nat :: ChainAt(db, from, k) == Some(pk)
  }

  /** The uncapped cycle walk stops: its chain reaches a root or `pk`. */
  ghost predicate CycleWalkEnds(db: Store, from: Option<NodeId>, pk: NodeId)
  {
    exists n: nat :: ChainAt(db, from, n).None? || ChainAt(db, from, n) == Some(pk)
  }

  /** The proposed supplier chain has a node MaxLevel hops up, so the node
      being saved would sit below the last tier. */
  predicate TooDeep(db: Store, sup: Option<NodeId>)
  {
    ChainAt(db, sup, MaxLevel).Some?
  }

  /** The proposed supplier is a key with no stored row behind it. */
  predicate SupplierDangles(db: Store, node: Node)
  {
    node.supplier.Some? && node.supplier.value !in db
  }

  /** The node has a primary key and that key lies on the proposed supplier chain. */
  ghost predicate ClosesCycle(db: Store, node: Node)
  {
    node.pk.Some? && OnChain(db, node.supplier, node.pk.value)
  }

  /** What `clean` decides. Both checks start by fetching the proposed
      supplier, which fails when its row is missing; then the cycle check
      (only for a node that has a primary key), then the depth check. */
  ghost function CleanVerdict(db: Store, node: Node): Outcome
  {
    if SupplierDangles(db, node) then SupplierDoesNotExist
    else if ClosesCycle(db, node) then Invalid({CycleDetected})
    else if TooDeep(db, node.supplier) then Invalid({HierarchyTooDeep})
    else Passed
  }

  /** The cycle check of `clean`: follow supplier links from the proposed
      supplier until a root, looking for the node's own primary key. */
  method CycleWalk(db: Store, sup: Option<NodeId>, pk: NodeId) returns (found: bool)
    requires CycleWalkEnds(db, sup, pk)
    ensures found <==> OnChain(db, sup, pk)
  {
    ghost var n: nat :| ChainAt(db, sup, n).None? || ChainAt(db, sup, n) == Some(pk);
    ghost var i: nat := 0;
    var node := sup;
    while node.Some?
      invariant i <= n
      invariant node == ChainAt(db, sup, i)
      invariant forall j :: 0 <= j < i ==> ChainAt(db, sup, j) != Some(pk)
      decreases n - i
    {
      if node.value == pk {
        return true;
      }
      ChainSplit(db, sup, i, 1);
      node := SupplierOf(db, node.value);
      i := i + 1;
    }
    forall k: nat | i <= k
      ensures ChainAt(db, sup, k).None?
    {
      ChainEnded(db, sup, i, k);
    }
    return false;
  }

  /** The depth check of `clean`: count hops from the proposed supplier and
      fail as soon as the count passes MaxLevel. The loop body runs at most
      MaxLevel + 1 times, whatever the shape of the store. */
  method DepthWalk(db: Store, sup: Option<NodeId>) returns (tooDeep: bool, ghost iterations: nat)
    ensures tooDeep <==> TooDeep(db, sup)
    ensures iterations <= MaxLevel + 1
  {
    var depth: nat := 0;
    var node := sup;
    iterations := 0;
    while node.Some?
      invariant depth <= MaxLevel
      invariant iterations == depth
      invariant node == ChainAt(db, sup, depth)
      decreases MaxLevel - depth
    {
      iterations := iterations + 1;
      depth := depth + 1;
      if depth > MaxLevel {
        return true, iterations;
      }
      ChainSplit(db, sup, depth - 1, 1);
      node := SupplierOf(db, node.value);
    }
    ChainEnded(db, sup, depth, MaxLevel);
    return false, iterations;
  }

  /** `clean`: a missing supplier row makes it fail before either check;
      otherwise at most one error, always on the supplier field, with the
      cycle check (run only for a node with a primary key) taking precedence. */
  method Clean(db: Store, node: Node) returns (r: Outcome)
    requires node.pk.Some? ==> CycleWalkEnds(db, node.supplier, node.pk.value)
    ensures r.SupplierDoesNotExist? <==> SupplierDangles(db, node)
    ensures r == Invalid({CycleDetected}) <==> !SupplierDangles(db, node) && ClosesCycle(db, node)
    ensures r == Invalid({HierarchyTooDeep}) <==>
              !SupplierDangles(db, node) && !ClosesCycle(db, node) && TooDeep(db, node.supplier)
    ensures r == Passed <==>
              !SupplierDangles(db, node) && !ClosesCycle(db, node) && !TooDeep(db, node.supplier)
    ensures r.Invalid? ==> |r.errors| == 1 && forall v :: v in r.errors ==> v.Field() == "supplier"
    ensures r == CleanVerdict(db, node)
  {
    if SupplierDangles(db, node) {
      return SupplierDoesNotExist;
    }
    if node.pk.Some? {
      var cycle := CycleWalk(db, node.supplier, node.pk.value);
      if cycle {
        return Invalid({CycleDetected});
      }
    }
    ghost var steps: nat;
    var deep: bool;
    deep, steps := DepthWalk(db, node.supplier);
    if deep {
      return Invalid({HierarchyTooDeep});
    }
    return Passed;
  }

  /** The field validator on the debt, run before `clean`: it may not be negative. */
  function DebtErrors(node: Node): (errors: set<Violation>)
    ensures NegativeDebt in errors <==> node.debt < 0
    ensures errors <= {NegativeDebt}
  {
    if node.debt < 0 then {NegativeDebt} else {}
  }

  /** What the full validation before a save decides: the debt error joins
      the errors of `clean`, unless `clean` fails on a missing supplier row,
      which ends the validation with no error list. */
  ghost function FullCleanVerdict(db: Store, node: Node): Outcome
  {
    match CleanVerdict(db, node)
    case SupplierDoesNotExist => SupplierDoesNotExist
    case Passed => if DebtErrors(node) == {} then Passed else Invalid(DebtErrors(node))
    case Invalid(errors) => Invalid(DebtErrors(node) + errors)
  }

  /** The full validation run by `save`: the field validators, then `clean`,
      which runs even when a field validator has already failed; all errors
      are reported together, unless `clean` fails on a missing supplier row. */
  method FullClean(db: Store, node: Node) returns (r: Outcome)
    requires node.pk.Some? ==> CycleWalkEnds(db, node.supplier, node.pk.value)
    ensures r.SupplierDoesNotExist? <==> SupplierDangles(db, node)
    ensures r == Passed <==>
              !SupplierDangles(db, node) && node.debt >= 0 && !ClosesCycle(db, node) && !TooDeep(db, node.supplier)
    ensures r.Invalid? ==> (NegativeDebt in r.errors <==> node.debt < 0)
    ensures r.Invalid? ==> (CycleDetected in r.errors <==> ClosesCycle(db, node))
    ensures r.Invalid? ==> (HierarchyTooDeep in r.errors <==> !ClosesCycle(db, node) && TooDeep(db, node.supplier))
    ensures r == FullCleanVerdict(db, node)
  {
    var fieldErrors := DebtErrors(node);
    var clean := Clean(db, node);
    if clean.SupplierDoesNotExist? {
      return SupplierDoesNotExist;
    }
    var errors := fieldErrors + (if clean.Invalid? then clean.errors else {});
    if errors == {} {
      return Passed;
    }
    return Invalid(errors);
  }

  /** The depth check rejects a supplier exactly when the supplier's own level is at least MaxLevel. */
  lemma DepthCheckIsSupplierLevel(db: Store, y: NodeId)
    ensures TooDeep(db, Some(y)) <==> LevelOf(db, y) >= MaxLevel
  {
  }

  /** A stored node that is re-saved with its own supplier passes `clean` when
      the store is within the tiers: saving a node to change only its debt
      never hits a hierarchy error. */
  lemma UnchangedSupplierPasses(db: Store, x: NodeId, debt: int)
    requires WithinTiers(db) && Closed(db) && x in db
    ensures FullCleanVerdict(db, Node(Some(x), db[x], debt)) == (if debt < 0 then Invalid({NegativeDebt}) else Passed)
  {
    var node := Node(Some(x), db[x], debt);
    TiersAreAcyclic(db);
    forall k: nat
      ensures ChainAt(db, db[x], k) != Some(x)
    {
      assert ChainAt(db, Some(x), k + 1) == ChainAt(db, db[x], k);
      NotOwnAncestor(db, x, k + 1);
    }
    assert ChainAt(db, Some(x), MaxLevel + 1) == ChainAt(db, db[x], MaxLevel);
  }
}
