# Provenance tracking over a computation graph

This project models and proves properties of the provenance (lineage) tags that nGraph keeps on the nodes of a computation graph. The behaviour follows the tests in `ngraph/test/provenance.cpp`.

Every node stores three things:
- an ordered list of input nodes;
- a set of string tags;
- a provenance group, which is a set of other nodes.

The operations are:
- `add_provenance_tag` tags a node and every member of its group.
- `add_provenance_tags_above` tags everything reached walking backward from a node, up to a boundary.
- `add_provenance_group_members_above` forms a group by the same backward walk, started from the node's inputs.
- `replace_node` rewires the consumers of a node to a replacement. When provenance tracking is on, it also moves the tags of the "killed" nodes onto the nodes the replacement introduces.
- `topological_sort` lists the ancestors of some roots, each after its inputs.

The graph is kept as an arena (`Provenance.Arena`). A node is addressed by its position in the arena, its handle. A ghost rank decreases strictly from each consumer to each of its inputs, which proves the graph has no cycle.

Backward reachability is defined as pure functions in module `Graph`:
- `Above(x, stop)` is the set of nodes reached from `x` without entering `stop`.
- `Anc(x)` is `Above(x, {})`, so it includes `x`.

The walks themselves are methods with worklist loops in module `Traversal`, proved to compute those sets.

The `replace_node` rule, as the tests fix it, works on two sets:
- The killed nodes are the ancestors of the target that are not ancestors of the replacement, written `Anc(target) - Anc(replacement)`.
- The introduced nodes are the replacement together with its ancestors that are not ancestors of the target.

Every introduced node gains the union of the killed nodes' tags. Every other node keeps its tags. Shared ancestors are not killed, because they are not post-dominated by the replacement until the target is cut out; this is the argument in the comment at lines 50-52 of the test.

Module `ProvenanceTests` rebuilds every test scenario with the arena's methods. The postcondition of each scenario is the tag sets that the test expects.

Files:
- `graph.dfy` holds the arena shape, reachability, rewiring and re-ranking.
- `traversal.dfy` holds the backward walk and the topological sort.
- `provenance.dfy` holds the tag operations, the arena class and the properties of `replace_node`.
- `tests.dfy` holds the test scenarios.

Three choices are fixed by the assertions of the test:
- **Boundary nodes of `add_provenance_tags_above` are not tagged.** Lines 328-347 expect x and y to lack "until_params", and a and b to lack "until_c_inputs".
- **Killed tags reach new intermediate nodes too.** Lines 239-242 and 291-294 expect the new intermediate E to gain tag_c, not only the replacement D.
- **The intermediate E does not gain D's tag.** The diagram at lines 266-270 shows `E{tag_c, tag_d, tag_e}`. The assertion at line 294 expects only `{tag_c, tag_e}`, and it is the assertion that is modelled.

## Model

| member | source | states |
|---|---|---|
| Provenance.Arena.AddProvenanceTag | ngraph/test/provenance.cpp:298-310 | adds the tag to the node and to every member of its group, and to nothing else; inputs and groups are unchanged |
| Provenance.Arena.AddProvenanceTagsAbove | ngraph/test/provenance.cpp:312-359 | adds the tags to exactly the nodes reached walking backward from the node with the base pre-marked as visited (`Above(n, base)`); every other node's tags, the inputs and the groups are unchanged |
| Provenance.TagsAboveBoundary | ngraph/test/provenance.cpp:328-347 | the start node is tagged unless it lies in the base; base nodes are never tagged; non-ancestors are never tagged; every input of the start node outside the base is tagged |
| Provenance.Arena.AddProvenanceGroupMembersAbove | ngraph/test/provenance.cpp:298-310 | when the base holds the node, nothing changes; otherwise the node's group gains exactly what is reached backward from its inputs before the base, and every other group, the tags and the inputs are unchanged |
| Provenance.GroupAboveBase | ngraph/test/provenance.cpp:298-310 | a group formed above a base contains no base node and only strict ancestors of its root |
| Provenance.GroupAboveParameter | ngraph/test/provenance.cpp:361-373 | with a single parameter as base, the root together with its group is every ancestor of the root except the parameter |
| Provenance.Arena.ReplaceNode | ngraph/test/provenance.cpp:54-295 | succeeds exactly when the replacement does not depend on the target; on failure nothing changes; on success every use of the target reads the replacement; with tracking on, the tags are `ReplacedTags` (killed tags added to the introduced nodes), and with it off they are unchanged; groups are unchanged |
| Provenance.Arena.Rewire | ngraph/test/provenance.cpp:68 | given a replacement that does not depend on the target, every input slot that read the target now reads the replacement, every other slot is unchanged, and the arena stays acyclic under the new rank |
| Graph.RedirectedSlots | ngraph/test/provenance.cpp:68 | rewiring changes exactly the slots that held the target, keeps the shape of every input list, and leaves no use of the target behind |
| Graph.RedirectedRanked | ngraph/test/provenance.cpp:68 | rewiring to a replacement that does not depend on the target keeps the graph acyclic |
| Provenance.ReplacedTagOrigin | ngraph/test/provenance.cpp:50-52 | after a replacement a node holds a tag iff it held it before, or it is introduced and some killed node held the tag |
| Provenance.ReplacementKeepsOwnAndTargetTags | ngraph/test/provenance.cpp:99-117 | the replacement keeps its own tags and gains all of the target's |
| Provenance.UntouchedKeepTags | ngraph/test/provenance.cpp:50-52 | a node other than the replacement that is an ancestor of the target, or not an ancestor of the replacement, keeps exactly its tags |
| Provenance.SameInputsReplacement | ngraph/test/provenance.cpp:54-117 | a replacement over the same inputs as the target gains exactly the target's tags, and every other node keeps its own |
| Provenance.DisjointReplacement | ngraph/test/provenance.cpp:137-192 | a replacement sharing no ancestor with the target gives every one of its ancestors all the tags of the target's ancestry; every other node keeps its tags |
| Provenance.CommonCut | ngraph/test/provenance.cpp:50-52 | walking from the target (and from the replacement) with the shared ancestors pre-marked reaches exactly the ancestors the other node does not share |
| Provenance.UnionTags | ngraph/test/provenance.cpp:54-71 | the loop gathers exactly the union of the tag sets of the given nodes |
| Provenance.Retagged | ngraph/test/provenance.cpp:348-358 | adding tags keeps the number of nodes and never removes a tag from any node |
| Provenance.Arena.TagEach | ngraph/test/provenance.cpp:322-326 | the loop adds the tags to exactly the given nodes |
| Provenance.Arena.AddNode | ngraph/test/provenance.cpp:55-63 | appends a node over existing nodes, without tags and with an empty group, and keeps the graph acyclic |
| Traversal.Walk | ngraph/test/provenance.cpp:322-326 | the worklist walk visits exactly `AboveAll(roots, stop)` |
| Traversal.TopologicalSort | ngraph/test/provenance.cpp:366 | lists exactly the ancestors of the roots, each once, and each after all of its inputs |
| Traversal.LinearizedOrder | ngraph/test/provenance.cpp:366 | a linearization lists its nodes without repetition, inputs first |
| Graph.AboveUpwardClosed | ngraph/test/provenance.cpp:50-52 | when the stop set is closed upward, the walk reaches exactly the ancestors outside it |
| Graph.ClosedContainsAbove | ngraph/test/provenance.cpp:312-359 | a set closed under inputs, together with the stop set, contains everything the walk reaches |
| Graph.AboveTransitive | ngraph/test/provenance.cpp:312-359 | walking on from a reached node reaches nothing new |
| ProvenanceTests.FreshReplacement | ngraph/test/provenance.cpp:54-71 | a fresh replacement of C over C's inputs ends with exactly {tag_c} |
| ProvenanceTests.ReplacementKeepsOwnTag | ngraph/test/provenance.cpp:99-117 | replacement D{tag_d} over C's inputs ends with {tag_c, tag_d} |
| ProvenanceTests.UnrelatedReplacement | ngraph/test/provenance.cpp:137-192 | a constant replacement ends with {tag_a, tag_b, tag_c}, plus tag_d when it had it |
| ProvenanceTests.NewIntermediate | ngraph/test/provenance.cpp:222-295 | D ends with {tag_c, tag_d}; the new intermediate E ends with {tag_c}, plus tag_e when it had it |
| ProvenanceTests.GroupAbove | ngraph/test/provenance.cpp:298-310 | after grouping above {p1, p2} and tagging m1, p1 and p2 keep {P1} and {P2} while a1 and m1 hold {m1} |
| ProvenanceTests.TagsAbove | ngraph/test/provenance.cpp:312-359 | the three walks leave x and y with {all_above_d}, a and b with {until_params, all_above_d}, c with all three tags and d with {until_c_inputs, all_above_d} |
| ProvenanceTests.Builder | ngraph/test/provenance.cpp:361-373 | every node the sort lists holds {P1} if it is p1 and {norm} otherwise, and the sort lists all four nodes |
| ProvenanceTests.EmptyGroup | ngraph/test/provenance.cpp:375-389 | grouping abs above {abs} adds nothing; the sort lists p1 with {P1} and abs with {abs} |

## Left out

- Several outputs per node are not modelled: every node has a single output, so an input is just a node handle.
- Operation kinds, element types and shapes are not modelled. A node has only its inputs, tags and group.
- `Function` result and parameter objects are not modelled: a Function root is an ordinary node, and a parameter is a node without inputs.
- The internals of the `lp_norm` builder are not part of this model. `ProvenanceTests.Builder` uses a stand-in graph of the same kind: p1, a constant, an intermediate node over p1, and the result over both.
- `add_provenance_tag` tags only the direct members of a group. Groups nested inside group members are not followed.
- The group walk stops only at the base and at nodes it has already visited. It does not stop early at existing group members.
- Tags added by `replace_node` and `add_provenance_tags_above` go to nodes directly. They do not go through groups.
- Provenance.Arena.ReplaceNode: with tracking on, the replacement gains the killed tags even when it is an ancestor of the target. This is the same rule as for the other introduced nodes, and it matters only in that case.
- Provenance.Arena.ReplaceNode: what `replace_node` does when the replacement depends on the target is not fixed by the tests, which never make such a call. The model refuses such a call: it returns false and changes nothing, so the arena stays acyclic.
- Output-count mismatches are not modelled, because single-output nodes cannot have one.
- The global `ProvenanceEnabler` switch (line 28) is the `provenanceEnabled` parameter of `ReplaceNode`. It is not process-wide state.
- Traversal.Walk: the callback that `traverse_nodes` applies to each visited node is not modelled. The method returns the visited set, and each caller applies its own action to that set.
- Traversal.TopologicalSort: the library's own `topological_sort` is not part of this model. It is modelled as a depth-first linearization, which gives one valid order. The tie-breaking of the library's order is not modelled.
- Node ownership through `shared_ptr` and the freeing of unreachable nodes are not modelled. Nodes live in an arena and are never freed.
- Pattern matching, the pass manager and graph serialization are not modelled. None of them is involved in provenance tracking.
