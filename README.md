# Structural MAJ-3 detection in an AND-inverter graph

This project models the MAJ-3 finder of the `lsv` package of ABC
(`src/lsv/lsvMajFind.cpp`). The finder scans a structurally hashed
AND-inverter graph (AIG) for the usual AIG encoding of a three-input majority gate,
`NOT(NOT a AND NOT g5) AND NOT(NOT b AND NOT c)` with `g5 = b AND c`. It does
this by pattern matching:

- the node has two complemented fanin edges;
- one fanin, `g6`, reaches a gate `g5` through one of its own fanin edges;
- the node's other fanin is a *complementary gate* of `g5`: it has the same
  fanin pair (possibly swapped), with every complement bit flipped.

Each match is reported as `id = MAJ(x, y, z)` with sign-encoded literals,
and `Lsv_NtkMajFind` counts the matches over all AND nodes and all primary
outputs.

The model has four modules:

- `Aig` (`aig.dfy`) has the AIG objects and the network. A network is the
  vector of objects indexed by id plus the list of primary-output ids. The
  module also has the ABC accessors the finder uses (fanin count, fanins,
  complement bits) and the two-valued value of a node under an input
  assignment `env`. ABC's constant node stands for constant 1.
- `MajFind` (`maj_find.dfy`) has `Lsv_isCompGate`, `Lsv_isMajGate` and
  `Lsv_NtkMajFind`. `Lsv_isMajGate` becomes `MajGate`, which returns
  `Option<Triple>` (the printed triple, or `None` where `Lsv_isMajGate`
  returns false). `Lsv_NtkMajFind` becomes the method `NtkMajFind`, whose two loops
  increment `totalMaj` and which returns the total instead of printing it.
- `MajSemantics` (`maj_semantics.dfy`) states what the matches mean under
  every input assignment.
- `Basics` (`basics.dfy`) holds generic counting and first-match facts.

Behaviour reproduced as the code has it:

- When a pattern matches but the inner edge from `g6` to `g5` is not
  complemented, the node is still accepted and counted. The report is then
  `MAJ(0, 0, 0)`, because the locals `a`, `b`, `c` keep their initial 0, and
  the later patterns are not tried. `UncheckedMatchIsAccepted` and
  `UncheckedMatchIsNotMaj` show such a node and an assignment under which it
  differs from the majority that the pattern stands for.
- The fanins of `Abc_Obj_t` are compared by identity. Here they are
  compared by object id, which is the same thing within one network.

The model assumes that ABC sets an object's second complement bit only
when the object has a second fanin added through a complemented edge.
`ComplBit1` in `aig.dfy` realises this, so a primary output never has that
bit. Under this assumption `Lsv_isMajGate` rejects
every primary output at its first test, and the output loop of
`Lsv_NtkMajFind` never adds to the total.

## Model

| member | source | states |
|---|---|---|
| `MajFind.IsCompGate` | src/lsv/lsvMajFind.cpp:48-63 | A true result means both arguments are AND nodes with the same fanin pair, in the same or swapped order, and each complement bit of the second is the opposite of the first's bit on the same fanin. It is false when either argument has no fanins. |
| `MajFind.IsCompGateExact` | src/lsv/lsvMajFind.cpp:48-63 | For AND nodes whose two fanins differ (every AND node of a strashed network), the result is true exactly when the two gates are complementary, in either fanin order. |
| `MajFind.IsCompGateInOrderFirst` | src/lsv/lsvMajFind.cpp:54-59 | The in-order fanin test comes first, so the node `AND(x, NOT x)` is rejected against itself although it is complementary to itself through the swapped pairing. With `IsCompGateExact`, a node with equal fanins is where the converse can fail. |
| `MajSemantics.IsCompGateSymmetric` | src/lsv/lsvMajFind.cpp:54-62 | `IsCompGate(p, q) == IsCompGate(q, p)`, including when both fanin-equality branches apply. |
| `MajSemantics.IsCompGateIrreflexive` | src/lsv/lsvMajFind.cpp:54-56 | No gate is complementary to itself. |
| `MajSemantics.CompGateSemantics` | src/lsv/lsvMajFind.cpp:54-61 | If `q` is a complementary gate of `p`, then under every assignment `q` equals the AND of the negations of `p`'s two fanin literals, so `p` and `q` are never both 1. |
| `MajFind.Report` | src/lsv/lsvMajFind.cpp:70-110 | The printed triple of a matched pattern. It is all zero when the inner edge from `g6` to `g5` is not complemented. It has no zero entry when that edge is complemented and the three literal ids are positive. Every nonzero entry names an object that is not a primary output. |
| `MajFind.MajGate` | src/lsv/lsvMajFind.cpp:65-112 | A node without the guard's shape is rejected: an accepted node is an AND node with both fanin edges complemented and two AND fanins, and every reported literal names an existing non-output object. |
| `MajFind.PoIsNeverMaj` | src/lsv/lsvMajFind.cpp:66 | A primary output is always rejected, because its second complement bit is never set (the assumption stated above). |
| `MajFind.MajGateIsFirstMatch` | src/lsv/lsvMajFind.cpp:73-109 | At a node of the right shape, the result is the first present entry of the four candidate patterns' results, in the order of lsvMajFind.cpp:73, 82, 91 and 100. The four candidates use `g6` = fanin 0 with `g5` in slot 0 or 1, then `g6` = fanin 1 with `g5` in slot 0 or 1. |
| `MajFind.MajGateNoneIff` | src/lsv/lsvMajFind.cpp:73-109 | At a node of the right shape, the result is false exactly when none of the four candidates matches. |
| `MajFind.MajGateFirstMatch` | src/lsv/lsvMajFind.cpp:73-109 | When candidate `k` is the first that matches, the result is that candidate's report. |
| `MajSemantics.SignedLitVal` | src/lsv/lsvMajFind.cpp:77-79 | For a positive id, the sign encoding (negative means complemented) decodes back to the literal's value, and so does its negation as printed. |
| `MajSemantics.ReportLiterals` | src/lsv/lsvMajFind.cpp:76-79 | A report with three nonzero entries comes from a complemented inner edge and names three positive ids. |
| `MajSemantics.ReportSound` | src/lsv/lsvMajFind.cpp:73-80 | One pattern: if the node is `NOT g6 AND NOT h`, `h` is complementary to `g5`, and the report has three nonzero entries, then under every assignment the node equals the majority of the three reported literals. |
| `MajSemantics.MajGateSound` | src/lsv/lsvMajFind.cpp:65-112 | When `MajGate` reports `MAJ(x, y, z)` with three nonzero literals, node `id` evaluates to `Maj(x, y, z)` under every input assignment. |
| `MajSemantics.ReportZeroOrLiterals` | src/lsv/lsvMajFind.cpp:70-111 | In a network where no AND node reads the constant node, an accepted node's triple is either all zero or has three nonzero entries. |
| `MajSemantics.UncheckedMatchIsAccepted` | src/lsv/lsvMajFind.cpp:70-76 | In a concrete network whose first pattern matches with a non-complemented inner edge, node 7 is still accepted, with triple `(0, 0, 0)`. |
| `MajSemantics.UncheckedMatchIsNotMaj` | src/lsv/lsvMajFind.cpp:110-111 | Under a concrete assignment, that accepted node 7 is 1 while the majority the pattern stands for is 0. |
| `MajSemantics.MajExampleReport` | src/lsv/lsvMajFind.cpp:73-80 | In a concrete MAJ-3 network whose inner edge is complemented, node 7 is accepted with the triple `(-3, 1, 2)`. |
| `MajSemantics.MajExampleIsMaj` | src/lsv/lsvMajFind.cpp:65-112 | Through `MajGateSound`, that node 7 equals `MAJ(NOT a, b, c)` under every input assignment. |
| `MajSemantics.MajExampleCount` | src/lsv/lsvMajFind.cpp:114-124 | On that network node 7 is the only accepted AND node, and the printed total is 1. |
| `MajFind.MajCountMeaning` | src/lsv/lsvMajFind.cpp:114-124 | The output loop adds 0. The total equals the number of accepted AND ids and is at most the number of AND nodes plus the number of primary outputs. |
| `MajFind.NtkMajFind` | src/lsv/lsvMajFind.cpp:114-124 | The returned `totalMaj` is the count over the AND loop plus the count over the output loop. It equals the size of the set of accepted AND nodes and is at most #AND + #PO. |

## Left out

- `src/lsv/lsvCmd.cpp` (command registration, fetching the current network,
  strashing a non-strashed network with `Abc_NtkStrash`, deleting the copy)
  is not part of this model. It is glue over ABC functions whose code is not
  available. The model starts from a strashed network.
- `src/lsv/lsv1SubFind.cpp` (the 1-input resubstitution finder) has an
  empty loop body, so it has no behaviour to model.
- Only combinational strashed networks are modelled: the objects are the
  constant, primary inputs, AND nodes and primary outputs, and ids are
  topologically ordered (an AND node's fanins have smaller ids). Latches and
  box inputs and outputs are not modelled.
- ABC's object code is not part of this model. That a primary output's
  second complement bit is never set is an assumption of the model
  (`ComplBit1`), not something proved from ABC's code.
- `Abc_Print` output is not modelled as text. `MajGate` returns the printed
  triple, and the node id is its argument. `NtkMajFind` returns the printed
  total.
- Deleted (NULL) slots of ABC's object vector are not modelled: every id
  below the vector's length holds an object.
- ABC's assertions on complemented object pointers are not modelled.
- `MajFind.IsCompGate`: its precondition excludes primary-output arguments.
  `Lsv_isCompGate` would read a second fanin that such an object does not have,
  and in a well-formed network both arguments are fanins of AND nodes, which
  are never primary outputs.
- `MajSemantics.MajGateSound`: the majority property is stated only for
  triples with three nonzero entries. The sign encoding cannot mark a
  complemented literal of id 0 (ABC's constant node) as complemented, and
  an all-zero triple comes from the unchecked inner edge.
