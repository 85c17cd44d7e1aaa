# Supplier hierarchy of the electronics network

The service keeps a network of nodes (factories, retail chains, sole
proprietors). Each node has at most one supplier, which is another node. A
node's level is its number of supplier hops to a node without a supplier:
0 for a factory, 1 for a retail chain, 2 for a sole proprietor. Every save of
a node runs a full validation first:

- the field validators: the debt may not be negative, and the supplier must be
  a stored node;
- `clean`, which runs two checks on the supplier links, in order:
  - a cycle check, only for a node that already has a primary key: walk up
    the proposed supplier chain and fail if it passes the node itself;
  - a depth check: fail once the proposed supplier chain is more than two
    hops long.

If anything is reported, nothing is written. A supplier key with no stored row
is a special case: `clean` fetches the supplier before it checks anything, the
fetch fails with a lookup error rather than a validation error, and the save
fails with that error alone, so none of the collected validation errors is
reported.

The model has five modules:

- `SupplierChain` (`supplier_chain.dfy`) holds the persisted supplier column
  as a map from primary key to optional supplier key. It also defines the
  walk along a chain (`ChainAt`), acyclicity, referential closure and the tier
  bound, together with the lemmas about them.
- `NetworkNode` (`network_node.dfy`) holds the in-memory node (primary key,
  proposed supplier, debt in cents) and the `level` walk with its
  `level_name`. It also has the two walks of `clean` as loops, each proved
  against a declarative definition, and the full validation.
- `NodeTable` (`node_store.dfy`) is the table as a class, `NodeStore`.
  `Save` validates and then writes, and it keeps the table acyclic and
  referentially closed.
- `TierFinding` (`tier_finding.dfy`) is the defect described under Findings:
  the counterexample and the corrected check.
- `HierarchyScenarios` (`hierarchy_scenarios.dfy`) holds the repository's
  model tests as lemmas, and the three-tier test as a run of saves on the
  table.

Two details of the code shape the model:

- The cycle walk of `clean` has no iteration cap. Its termination is a
  precondition: the chain must reach a root or the node itself. `Save` gets
  this from the table's acyclicity invariant.
- The level walk continues while `depth <= 10`, so on a corrupted (cyclic)
  store it saturates at 11.

## Model

| member | source | states |
|---|---|---|
| `NetworkNode.LevelWithin` | network/models.py:76-81 | the capped hop count is at most the cap; every entry of the chain before it exists, and when it stops short of the cap the chain has ended there |
| `NetworkNode.Level` | network/models.py:71-81 | the `level` loop returns at most 11 and equals the capped hop count of the node's supplier chain |
| `NetworkNode.LevelRecurrence` | network/models.py:13-16 | a node without a supplier has level 0; otherwise its level is one more than its supplier's, as long as the supplier's level is below the cap |
| `NetworkNode.LevelSaturatesOnCycle` | network/models.py:78-81 | on a store where a node is its own ancestor, its level walk still stops, at 11 |
| `NetworkNode.LevelNameInjective` | network/models.py:66-69 | no two levels get the same name: the fallback "Уровень N" cannot collide with a tier name or with another level |
| `NetworkNode.LevelName` | network/models.py:65-69 | levels 0..2 get their tier names from `LEVEL_NAMES`; any other level gets "Уровень " followed by the level's canonical decimal digits: only digits, no leading zero, reading back as the level |
| `NetworkNode.DecimalRoundTrip` | network/models.py:69 | the decimal spelling used in the fallback name reads back as the level it spells |
| `NetworkNode.CycleWalk` | network/models.py:84-89 | the cycle loop finds the node's own key exactly when that key occurs somewhere on the proposed supplier chain |
| `NetworkNode.DepthWalk` | network/models.py:91-97 | the depth loop fails exactly when the proposed supplier chain has an entry two hops above the supplier; a ghost counter of its iterations shows it stops within three on any store |
| `NetworkNode.DebtErrors` | network/models.py:48-54 | the `MinValueValidator(0)` on `debt` reports a negative debt exactly when the debt is below 0, and nothing else |
| `NetworkNode.Clean` | network/models.py:83-97 | a proposed supplier with no stored row makes `clean` fail with a lookup error, and nothing else does. Otherwise it raises exactly one error, always on the `supplier` field: a cycle exactly when the node has a key that lies on the proposed chain, "too deep" exactly when there is no cycle and the chain is too deep; it passes otherwise. A node without a key never gets a cycle error |
| `NetworkNode.FullClean` | network/models.py:99-100 | the validation run by `save` fails with the lookup error exactly when the supplier is not stored, and then reports no validation error. Otherwise it passes exactly when the debt is not negative and `clean` passes; when it fails it reports a negative debt exactly when the debt is below 0, together with the cycle or depth error of `clean`, because `clean` runs even when a field error was already found |
| `NetworkNode.DepthCheckIsSupplierLevel` | network/models.py:91-97 | the depth check rejects a supplier exactly when that supplier's level is 2 or more |
| `NetworkNode.UnchangedSupplierPasses` | network/models.py:83-97 | on a store within the tiers, re-saving a stored node with its current supplier gets no cycle or depth error, so a debt-only update can fail only on a negative debt |
| `SupplierChain.RelinkKeepsAcyclic` | network/models.py:84-89 | giving a node a supplier whose chain reaches a root without passing through the node keeps the store acyclic |
| `NodeTable.NodeStore.Save` | network/models.py:99-101 | a save is written exactly when the full validation passes. It fails with the lookup error exactly when the supplier is not stored, and is rejected with every validation error exactly when the validation reports some; either way the table is untouched. An accepted save writes the node's supplier and debt under its key, or under a fresh key for a new node. It keeps the table acyclic, closed and free of negative debts, and the saved node ends at level 2 or less |
| `TierFinding.DepthCheckIgnoresClients` | network/models.py:91-97 | moving a factory that has a two-tier client chain under another factory passes every check, leaves a node at level 3, and makes that node fail its own re-save as too deep |
| `TierFinding.SaveCanPushClientsPastMaxLevel` | network/models.py:99-101 | the same sequence of saves on the table is accepted and leaves the table outside the tiers |
| `TierFinding.CorrectedIsStricter` | network/models.py:91-97 | the client-aware depth check rejects everything the original rejects, agrees with it for a node without clients, and rejects the move above |
| `TierFinding.CorrectedRejectsMove` | network/models.py:91-97 | the client-aware check sees the two tiers below factory 1 and rejects moving it under factory 4 as too deep |
| `TierFinding.CorrectedCheckKeepsTiers` | network/models.py:91-97 | a supplier change accepted by the client-aware check keeps every stored node at level 2 or less, and the store acyclic |
| `HierarchyScenarios.NodeCreationAndLevels` | network/tests.py:36-38 | factory at level 0, its retail chain at level 1 |
| `HierarchyScenarios.SupplierCycleRejected` | network/tests.py:40-43 | making the retail chain the factory's supplier is rejected as a cycle, and only as a cycle |
| `HierarchyScenarios.DirectCycleRejected` | network/tests.py:45-56 | a stored node made its own supplier is rejected as a cycle |
| `HierarchyScenarios.MaxHierarchyLevel` | network/tests.py:58-79 | a sole proprietor under the retail chain is accepted at level 2; a node under the sole proprietor is rejected as too deep |
| `HierarchyScenarios.FactoryRetailProprietor` | network/tests.py:58-79 | on the table, the three saves are accepted, the table stays within the tiers, and the fourth save is rejected with exactly the depth error |

## Left out

- The `Product` model, the descriptive fields of a node (name, e-mail, address, creation time, employees) and both `__str__` methods: these are plain storage with no logic.
- The field validators on those fields are left out, such as the minimum name length and the e-mail format. Only the validators on `debt` and `supplier` are modelled.
- The digit limit of the `debt` decimal field (12 digits, 2 after the point) is not checked. Debt is an unbounded integer number of cents.
- Deleting nodes is not modelled (the supplier key is `PROTECT`ed). Neither are the admin action that zeroes debts, the serializers (including the update that drops `debt`), the views, filters and permissions, or the users app. All of these are framework plumbing.
- The database's key assignment is abstracted as a counter above every stored key. An insert under an explicit key moves the counter past it. Primary keys are integers from 1: the `if self.pk` test would also skip the cycle check for a key of 0, which the auto-increment never produces.
- The candidate's supplier is referenced by key. A supplier key with no stored row is modelled as the lookup error its first fetch in `clean` raises (`SupplierDoesNotExist`), which ends the validation with no validation errors; the exception type and message are not modelled.
- `validate_unique`, which `full_clean` also runs, is left out. A node with a primary key stands for an instance loaded from the table; a freshly built instance carrying a key that is already stored would be rejected by that uniqueness check, which the model does not report.
- NetworkNode.Level: the `level` walk and both walks of `clean` follow the supplier key through the table at every hop, while the source follows the supplier objects held in memory. The in-memory state is not modelled: a node whose unsaved `supplier` points at itself makes the source's `level` count to 11, where the model reads the stored row; and a save through a stale cached instance can write a cycle (A supplied by B, B supplied by A), which the table's acyclicity invariant in the model rules out. A supplier key with no stored row is also read as the end of the chain wherever it occurs, except at the first fetch in `clean`: the source's `level` raises a lookup error on such a key, and so would `clean` at any later hop. `Level`, `Clean` and `FullClean` do not require a referentially closed store. The database's foreign key keeps every stored chain closed, and `NodeStore.Save` only runs on a closed table, so this arises only on stores the table cannot hold.
- Concurrent saves are not modelled. Each save sees a consistent snapshot of the table.
- NetworkNode.CycleWalk: requires that the chain from the proposed supplier reaches a root or the node itself. On a store where it does neither, the source loops forever. `NetworkNode.Clean` and `NetworkNode.FullClean` inherit this requirement, and `NodeStore.Save` meets it from the acyclicity invariant.
- NodeTable.NodeStore.Save: keeps acyclicity, but not "every level is at most 2", because the source does not keep it (see Findings). The saved node itself is proved to be at level 2 or less.

## Findings

| source | as written | input that shows it | evidently intended | confidence | as-written member | corrected member |
|---|---|---|---|---|---|---|
| network/models.py:91-97 | the depth check counts only the hops above the proposed supplier and ignores the clients already below the node being saved | stored 1 (factory), 2 supplied by 1, 3 supplied by 2, 4 (factory); save node 1 with supplier 4 | no save leaves any node deeper than level 2 (the class docstring's levels 0..2 and the error message "0..2" at line 96) | not executed; high | `TierFinding.DepthCheckIgnoresClients` | `TierFinding.CorrectedCheckKeepsTiers` |

After the move above, node 3 is at level 3. Its `level_name` falls back to
"Уровень 3", and even a debt-only re-save of node 3 is rejected as too deep.
The corrected check (`TierFinding.CorrectedVerdict`) counts how far the node's
clients reach below it (`TierFinding.ClientDepth`). It rejects when that
depth, plus one, plus the proposed supplier's level, passes 2. `NodeStore.Save`
still models the code as written.
