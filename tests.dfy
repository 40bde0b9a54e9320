/**
 * The scenarios of the provenance tests (ngraph/test/provenance.cpp; line
 * numbers below refer to that file), each built on a fresh arena with the
 * operations of `Provenance.Arena`; each scenario's postcondition is the tag
 * sets the test expects.
 */
module ProvenanceTests {
  import opened Graph
  import opened Traversal
  import opened Provenance

  /** A walk reaches nothing past a node without inputs. */
  lemma AboveLeaf(inputs: seq<seq<Handle>>, rank: seq<nat>, x: Handle, stop: set<Handle>)
    requires Ranked(inputs, rank) && x < |inputs| && x !in stop && inputs[x] == []
    ensures Above(inputs, rank, x, stop) == {x}
  {
  }

  /** One step of a walk over a node with one input. */
  lemma AboveOne(inputs: seq<seq<Handle>>, rank: seq<nat>, x: Handle, u: Handle, stop: set<Handle>)
    requires Ranked(inputs, rank) && x < |inputs| && x !in stop && inputs[x] == [u]
    ensures u < |inputs| && Above(inputs, rank, x, stop) == {x} + Above(inputs, rank, u, stop)
  {
    assert inputs[x][0] == u;
  }

  /** One step of a walk over a node with two inputs. */
  lemma AboveTwo(inputs: seq<seq<Handle>>, rank: seq<nat>, x: Handle, u: Handle, v: Handle, stop: set<Handle>)
    requires Ranked(inputs, rank) && x < |inputs| && x !in stop && inputs[x] == [u, v]
    ensures u < |inputs| && v < |inputs|
    ensures Above(inputs, rank, x, stop) == {x} + Above(inputs, rank, u, stop) + Above(inputs, rank, v, stop)
  {
    assert inputs[x][0] == u && inputs[x][1] == v;
  }

  /** The ancestry of a node with two inputs, from theirs. */
  lemma AncOfTwo(inputs: seq<seq<Handle>>, rank: seq<nat>, x: Handle, u: Handle, v: Handle, ancU: set<Handle>, ancV: set<Handle>)
    requires Ranked(inputs, rank) && x < |inputs| && inputs[x] == [u, v]
    requires u < |inputs| && v < |inputs| && Anc(inputs, rank, u) == ancU && Anc(inputs, rank, v) == ancV
    ensures Anc(inputs, rank, x) == {x} + ancU + ancV
  {
    AboveTwo(inputs, rank, x, u, v, {});
  }

  /** Lines 54-71: a fresh replacement over the same inputs receives exactly the target's tag. */
  method FreshReplacement() returns (tagsNewC: set<Tag>)
    ensures tagsNewC == {"tag_c"}
  {
    var g := new Arena();
    var x, y, a, b, c := BuildDiamond(g);
    var c' := g.AddNode([a, b]);
    SameInputsReplacement(g.inputs, g.rank, g.tags, c, c');
    SameInputsAcyclic(g.inputs, g.rank);
    var ok := g.ReplaceNode(c, c', true);
    tagsNewC := g.tags[c'];
  }

  /** Lines 99-117: the replacement keeps its own tag and gains the target's. */
  method ReplacementKeepsOwnTag() returns (tagsD: set<Tag>)
    ensures tagsD == {"tag_c", "tag_d"}
  {
    var g := new Arena();
    var x, y, a, b, c := BuildDiamond(g);
    var d := g.AddNode([a, b]);
    TagFresh(g, d, "tag_d");
    SameInputsReplacement(g.inputs, g.rank, g.tags, c, d);
    SameInputsAcyclic(g.inputs, g.rank);
    var ok := g.ReplaceNode(c, d, true);
    tagsD := g.tags[d];
  }

  /** The replacement of lines 54-117, built over the inputs of C, does not depend on C. */
  lemma SameInputsAcyclic(inputs: seq<seq<Handle>>, rank: seq<nat>)
    requires Ranked(inputs, rank) && |inputs| == 6 && inputs[..5] == [[], [], [0, 1], [1, 0], [2, 3]]
    requires inputs[5] == [2, 3]
    ensures 4 !in Anc(inputs, rank, 5)
  {
    DiamondAncestry(inputs, rank);
    AncOfTwo(inputs, rank, 5, 2, 3, {0, 1, 2}, {0, 1, 3});
  }

  /**
   * Lines 137-192: a constant replacement shares no ancestor with the target
   * and collects the tags of the target's whole ancestry, whether or not it
   * had a tag of its own.
   */
  method UnrelatedReplacement(tagged: bool) returns (tagsD: set<Tag>)
    ensures tagsD == {"tag_a", "tag_b", "tag_c"} + (if tagged then {"tag_d"} else {})
  {
    var g := new Arena();
    var x, y, a, b, c := BuildDiamond(g);
    var d := g.AddNode([]);
    if tagged {
      TagFresh(g, d, "tag_d");
    }
    UnrelatedScenario(g.inputs, g.rank, g.tags, if tagged then {"tag_d"} else {});
    var ok := g.ReplaceNode(c, d, true);
    tagsD := g.tags[d];
  }

  /** The replacement of lines 137-192 on the arena's values. */
  lemma UnrelatedScenario(inputs: seq<seq<Handle>>, rank: seq<nat>, tags: seq<set<Tag>>, tagsD: set<Tag>)
    requires Ranked(inputs, rank) && inputs == [[], [], [0, 1], [1, 0], [2, 3], []]
    requires tags == [{}, {}, {"tag_a"}, {"tag_b"}, {"tag_c"}, tagsD]
    ensures 4 !in Anc(inputs, rank, 5)
    ensures ReplacedTags(inputs, rank, tags, 4, 5)[5] == {"tag_a", "tag_b", "tag_c"} + tagsD
  {
    DiamondAncestry(inputs, rank);
    AboveLeaf(inputs, rank, 5, {});
    DiamondTags(tags);
    DisjointReplacement(inputs, rank, tags, 4, 5);
  }

  /**
   * Lines 222-243 and 273-295: D = E - B with a new intermediate E = A - x
   * replaces C. Only C is killed; D and E gain tag_c and keep their own tags,
   * and E does not gain D's tag.
   */
  method NewIntermediate(tagged: bool) returns (tagsD: set<Tag>, tagsE: set<Tag>)
    ensures tagsD == {"tag_c", "tag_d"}
    ensures tagsE == {"tag_c"} + (if tagged then {"tag_e"} else {})
  {
    var g := new Arena();
    var x, y, a, b, c := BuildDiamond(g);
    ghost var diamond, diamondTags := g.inputs, g.tags;
    var e := g.AddNode([a, x]);
    if tagged {
      TagFresh(g, e, "tag_e");
    }
    ghost var ownE: set<Tag> := if tagged then {"tag_e"} else {};
    var d := g.AddNode([e, b]);
    TagFresh(g, d, "tag_d");
    assert g.inputs[..5] == diamond;
    IntermediateScenario(g.inputs, g.rank, g.tags, ownE);
    var ok := g.ReplaceNode(c, d, true);
    tagsD, tagsE := g.tags[d], g.tags[e];
  }

  /** The replacement of lines 222-243 and 273-295 on the arena's values. */
  lemma IntermediateScenario(inputs: seq<seq<Handle>>, rank: seq<nat>, tags: seq<set<Tag>>, tagsE: set<Tag>)
    requires Ranked(inputs, rank) && |inputs| == 7 && inputs[..5] == [[], [], [0, 1], [1, 0], [2, 3]]
    requires inputs[5] == [2, 0] && inputs[6] == [5, 3]
    requires |tags| == 7 && tags[4] == {"tag_c"} && tags[5] == tagsE && tags[6] == {"tag_d"}
    ensures 4 !in Anc(inputs, rank, 6)
    ensures ReplacedTags(inputs, rank, tags, 4, 6)[6] == {"tag_c", "tag_d"}
    ensures ReplacedTags(inputs, rank, tags, 4, 6)[5] == {"tag_c"} + tagsE
  {
    IntermediateAncestry(inputs, rank);
    TagsOverAdd(tags, {}, 4);
    assert {} + {4} == {4};
  }

  /** The graph of lines 222-243 and 273-295: replacing C by D kills only C and introduces D and E. */
  lemma IntermediateAncestry(inputs: seq<seq<Handle>>, rank: seq<nat>)
    requires Ranked(inputs, rank) && |inputs| == 7 && inputs[..5] == [[], [], [0, 1], [1, 0], [2, 3]]
    requires inputs[5] == [2, 0] && inputs[6] == [5, 3]
    ensures 4 !in Anc(inputs, rank, 6)
    ensures Killed(inputs, rank, 4, 6) == {4}
    ensures Introduced(inputs, rank, 4, 6) == {5, 6}
  {
    DiamondAncestry(inputs, rank);
    AncOfTwo(inputs, rank, 5, 2, 0, {0, 1, 2}, {0});
    AncOfTwo(inputs, rank, 6, 5, 3, {5, 0, 1, 2}, {0, 1, 3});
    assert Anc(inputs, rank, 4) - Anc(inputs, rank, 6) == {4};
    assert Anc(inputs, rank, 6) - Anc(inputs, rank, 4) == {5, 6};
  }

  /** The tags of the diamond's nodes, gathered. */
  lemma DiamondTags(tags: seq<set<Tag>>)
    requires |tags| >= 5 && tags[..5] == [{}, {}, {"tag_a"}, {"tag_b"}, {"tag_c"}]
    ensures TagsOver(tags, {0, 1, 2, 3, 4}) == {"tag_a", "tag_b", "tag_c"}
    ensures TagsOver(tags, {4}) == {"tag_c"}
  {
    assert tags[2] == tags[..5][2] && tags[3] == tags[..5][3] && tags[4] == tags[..5][4];
    assert tags[0] == tags[..5][0] && tags[1] == tags[..5][1];
    TagsOverAdd(tags, {}, 4);
    TagsOverAdd(tags, {4}, 3);
    TagsOverAdd(tags, {4, 3}, 2);
    TagsOverAdd(tags, {4, 3, 2}, 1);
    TagsOverAdd(tags, {4, 3, 2, 1}, 0);
    assert {} + {4} == {4};
    assert {4, 3, 2, 1} + {0} == {0, 1, 2, 3, 4};
  }

  /**
   * Builds A{tag_a} = x + y, B{tag_b} = y * x and C{tag_c} = A - B, the graph
   * every scenario of the first test starts from.
   */
  method BuildDiamond(g: Arena) returns (x: Handle, y: Handle, a: Handle, b: Handle, c: Handle)
    requires g.Valid() && g.inputs == []
    modifies g
    ensures g.Valid() && x == 0 && y == 1 && a == 2 && b == 3 && c == 4
    ensures g.inputs == [[], [], [x, y], [y, x], [a, b]]
    ensures g.tags == [{}, {}, {"tag_a"}, {"tag_b"}, {"tag_c"}]
    ensures g.group == [{}, {}, {}, {}, {}]
  {
    x := g.AddNode([]);
    y := g.AddNode([]);
    a := g.AddNode([x, y]);
    assert g.tags == [{}, {}, {}];
    TagFresh(g, a, "tag_a");
    assert g.tags == [{}, {}, {"tag_a"}];
    b := g.AddNode([y, x]);
    assert g.tags == [{}, {}, {"tag_a"}, {}];
    TagFresh(g, b, "tag_b");
    assert g.tags == [{}, {}, {"tag_a"}, {"tag_b"}];
    c := g.AddNode([a, b]);
    assert g.tags == [{}, {}, {"tag_a"}, {"tag_b"}, {}];
    TagFresh(g, c, "tag_c");
  }

  /** The ancestry of the nodes of the diamond. */
  lemma DiamondAncestry(inputs: seq<seq<Handle>>, rank: seq<nat>)
    requires Ranked(inputs, rank) && |inputs| >= 5 && inputs[..5] == [[], [], [0, 1], [1, 0], [2, 3]]
    ensures Anc(inputs, rank, 4) == {0, 1, 2, 3, 4}
    ensures Anc(inputs, rank, 2) == {0, 1, 2}
    ensures Anc(inputs, rank, 3) == {0, 1, 3}
    ensures Anc(inputs, rank, 0) == {0} && Anc(inputs, rank, 1) == {1}
  {
    assert inputs[0] == [] && inputs[1] == [] && inputs[2] == [0, 1] && inputs[3] == [1, 0] && inputs[4] == [2, 3] by {
      assert forall k :: 0 <= k < 5 ==> inputs[k] == inputs[..5][k];
    }
    AboveLeaf(inputs, rank, 0, {});
    AboveLeaf(inputs, rank, 1, {});
    AncOfTwo(inputs, rank, 2, 0, 1, {0}, {1});
    AncOfTwo(inputs, rank, 3, 1, 0, {1}, {0});
    AncOfTwo(inputs, rank, 4, 2, 3, {0, 1, 2}, {0, 1, 3});
  }

  /** Tags an untagged node whose provenance group is empty: only that node gains the tag. */
  method TagFresh(g: Arena, n: Handle, t: Tag)
    requires g.Valid() && n < |g.inputs| && g.tags[n] == {} && g.group[n] == {}
    modifies g
    ensures g.Valid() && g.inputs == old(g.inputs) && g.group == old(g.group) && g.rank == old(g.rank)
    ensures g.tags == old(g.tags)[n := {t}]
  {
    g.AddProvenanceTag(n, t);
    assert {n} + {} == {n};
    assert {} + {t} == {t};
  }

  /** A walk started from two nodes reaches what lies above either. */
  lemma AboveAllTwo(inputs: seq<seq<Handle>>, rank: seq<nat>, u: Handle, v: Handle, stop: set<Handle>)
    requires Ranked(inputs, rank) && u < |inputs| && v < |inputs|
    ensures InArena([u, v], |inputs|)
    ensures AboveAll(inputs, rank, [u, v], stop) == Above(inputs, rank, u, stop) + Above(inputs, rank, v, stop)
  {
    assert [u, v][0] == u && [u, v][1] == v;
  }

  /**
   * ngraph/test/provenance.cpp:298-310: the group of m1 = a1 * a1 formed above
   * the parameters p1 and p2 is {a1}, so tagging m1 also tags a1 and leaves
   * p1 and p2 with their own tags.
   */
  method GroupAbove() returns (tagsP1: set<Tag>, tagsP2: set<Tag>, tagsA1: set<Tag>, tagsM1: set<Tag>)
    ensures tagsP1 == {"P1"} && tagsP2 == {"P2"} && tagsA1 == {"m1"} && tagsM1 == {"m1"}
  {
    var g := new Arena();
    var p1 := g.AddNode([]);
    TagFresh(g, p1, "P1");
    var p2 := g.AddNode([]);
    TagFresh(g, p2, "P2");
    var a1 := g.AddNode([p1, p2]);
    var m1 := g.AddNode([a1, a1]);
    assert g.tags == [{"P1"}, {"P2"}, {}, {}];
    GroupScenario(g.inputs, g.rank);
    g.AddProvenanceGroupMembersAbove(m1, [p1, p2]);
    assert g.group[m1] == {a1};
    g.AddProvenanceTag(m1, "m1");
    assert {} + {"m1"} == {"m1"};
    tagsP1, tagsP2, tagsA1, tagsM1 := g.tags[p1], g.tags[p2], g.tags[a1], g.tags[m1];
  }

  /** The group of lines 298-310 on the arena's values. */
  lemma GroupScenario(inputs: seq<seq<Handle>>, rank: seq<nat>)
    requires Ranked(inputs, rank) && inputs == [[], [], [0, 1], [2, 2]]
    ensures AboveAll(inputs, rank, inputs[3], Elements([0, 1])) == {2}
  {
    assert Elements([0, 1]) == {0, 1};
    AboveAllTwo(inputs, rank, 2, 2, {0, 1});
    AboveTwo(inputs, rank, 2, 0, 1, {0, 1});
    AboveUnfold(inputs, rank, 0, {0, 1});
    AboveUnfold(inputs, rank, 1, {0, 1});
  }

  /**
   * ngraph/test/provenance.cpp:312-359: three walks over d = |a - b| with
   * a = x + y and b = x * y: above c up to the parameters, above d up to the
   * inputs of c, and above d with no boundary.
   */
  method TagsAbove() returns (tagsX: set<Tag>, tagsY: set<Tag>, tagsA: set<Tag>, tagsB: set<Tag>, tagsC: set<Tag>, tagsD: set<Tag>)
    ensures tagsX == {"tag_all_above_d"} && tagsY == {"tag_all_above_d"}
    ensures tagsA == {"tag_above_c - until_params", "tag_all_above_d"}
    ensures tagsB == {"tag_above_c - until_params", "tag_all_above_d"}
    ensures tagsC == {"tag_above_c - until_params", "tag_above_d - until_c_inputs", "tag_all_above_d"}
    ensures tagsD == {"tag_above_d - until_c_inputs", "tag_all_above_d"}
  {
    var g := new Arena();
    var x, y, a, b, c, d := BuildLadder(g);
    ghost var t1, t2, t3 := {"tag_above_c - until_params"}, {"tag_above_d - until_c_inputs"}, {"tag_all_above_d"};
    ghost var tags0 := g.tags;
    AboveCUntilParams(g.inputs, g.rank);
    g.AddProvenanceTagsAbove(c, [x, y], {"tag_above_c - until_params"});
    ghost var tags1 := g.tags;
    AboveDUntilCInputs(g.inputs, g.rank);
    g.AddProvenanceTagsAbove(d, g.inputs[c], {"tag_above_d - until_c_inputs"});
    ghost var tags2 := g.tags;
    AboveDAll(g.inputs, g.rank);
    g.AddProvenanceTagsAbove(d, [], {"tag_all_above_d"});
    LadderTags(tags0, tags1, tags2, g.tags);
    tagsX, tagsY, tagsA, tagsB, tagsC, tagsD := g.tags[x], g.tags[y], g.tags[a], g.tags[b], g.tags[c], g.tags[d];
  }

  /** The arena of lines 312-359: parameters x and y, a = x + y, b = x * y, c = a - b and d = Abs(c). */
  method BuildLadder(g: Arena) returns (x: Handle, y: Handle, a: Handle, b: Handle, c: Handle, d: Handle)
    requires g.Valid() && g.inputs == []
    modifies g
    ensures g.Valid() && x == 0 && y == 1 && a == 2 && b == 3 && c == 4 && d == 5
    ensures |g.inputs| == 6 && g.inputs[0] == [] && g.inputs[1] == []
    ensures g.inputs[2] == [0, 1] && g.inputs[3] == [0, 1] && g.inputs[4] == [2, 3] && g.inputs[5] == [4]
    ensures g.tags == [{}, {}, {}, {}, {}, {}]
  {
    x := g.AddNode([]);
    y := g.AddNode([]);
    a := g.AddNode([x, y]);
    b := g.AddNode([x, y]);
    c := g.AddNode([a, b]);
    d := g.AddNode([c]);
  }

  /** The tags the three walks of lines 312-359 leave on each node. */
  lemma LadderTags(tags0: seq<set<Tag>>, tags1: seq<set<Tag>>, tags2: seq<set<Tag>>, tags3: seq<set<Tag>>)
    requires tags0 == [{}, {}, {}, {}, {}, {}]
    requires tags1 == Retagged(tags0, {2, 3, 4}, {"tag_above_c - until_params"})
    requires tags2 == Retagged(tags1, {4, 5}, {"tag_above_d - until_c_inputs"})
    requires tags3 == Retagged(tags2, {0, 1, 2, 3, 4, 5}, {"tag_all_above_d"})
    ensures tags3[0] == {"tag_all_above_d"} && tags3[1] == {"tag_all_above_d"}
    ensures tags3[2] == {"tag_above_c - until_params", "tag_all_above_d"}
    ensures tags3[3] == {"tag_above_c - until_params", "tag_all_above_d"}
    ensures tags3[4] == {"tag_above_c - until_params", "tag_above_d - until_c_inputs", "tag_all_above_d"}
    ensures tags3[5] == {"tag_above_d - until_c_inputs", "tag_all_above_d"}
  {
  }

  /** The walk above c up to the parameters, on the arena of lines 312-359. */
  lemma AboveCUntilParams(inputs: seq<seq<Handle>>, rank: seq<nat>)
    requires Ranked(inputs, rank) && |inputs| == 6
    requires inputs[2] == [0, 1] && inputs[3] == [0, 1] && inputs[4] == [2, 3]
    ensures Above(inputs, rank, 4, Elements([0, 1])) == {2, 3, 4}
  {
    assert Elements([0, 1]) == {0, 1};
    AboveUnfold(inputs, rank, 0, {0, 1});
    AboveUnfold(inputs, rank, 1, {0, 1});
    AboveTwo(inputs, rank, 2, 0, 1, {0, 1});
    AboveTwo(inputs, rank, 3, 0, 1, {0, 1});
    AboveTwo(inputs, rank, 4, 2, 3, {0, 1});
  }

  /** The walk above d up to the inputs of c, on the arena of lines 312-359. */
  lemma AboveDUntilCInputs(inputs: seq<seq<Handle>>, rank: seq<nat>)
    requires Ranked(inputs, rank) && |inputs| == 6
    requires inputs[4] == [2, 3] && inputs[5] == [4]
    ensures Above(inputs, rank, 5, Elements(inputs[4])) == {4, 5}
  {
    assert Elements([2, 3]) == {2, 3};
    AboveUnfold(inputs, rank, 2, {2, 3});
    AboveUnfold(inputs, rank, 3, {2, 3});
    AboveTwo(inputs, rank, 4, 2, 3, {2, 3});
    AboveOne(inputs, rank, 5, 4, {2, 3});
  }

  /** The walk above d with no boundary, on the arena of lines 312-359. */
  lemma AboveDAll(inputs: seq<seq<Handle>>, rank: seq<nat>)
    requires Ranked(inputs, rank) && |inputs| == 6 && inputs[0] == [] && inputs[1] == []
    requires inputs[2] == [0, 1] && inputs[3] == [0, 1] && inputs[4] == [2, 3] && inputs[5] == [4]
    ensures Above(inputs, rank, 5, Elements([])) == {0, 1, 2, 3, 4, 5}
  {
    assert Elements([]) == {};
    AboveLeaf(inputs, rank, 0, {});
    AboveLeaf(inputs, rank, 1, {});
    AncOfTwo(inputs, rank, 2, 0, 1, {0}, {1});
    AncOfTwo(inputs, rank, 3, 0, 1, {0}, {1});
    AncOfTwo(inputs, rank, 4, 2, 3, {0, 1, 2}, {0, 1, 3});
    AboveOne(inputs, rank, 5, 4, {});
  }

  /**
   * ngraph/test/provenance.cpp:361-373: a builder that groups every node it
   * creates above its parameter. The builder's own graph is not part of this
   * model; a stand-in of the same shape is used: the parameter p1, a constant
   * `axes`, an intermediate node over p1 and the result over both. Tagging the
   * result tags every node of the sorted graph except p1, which keeps its own tag.
   */
  method Builder() returns (p1: Handle, order: seq<Handle>, tags: seq<set<Tag>>)
    ensures p1 == 0 && Elements(order) == {0, 1, 2, 3}
    ensures forall i :: 0 <= i < |order| ==>
      order[i] < |tags| && tags[order[i]] == if order[i] == p1 then {"P1"} else {"norm"}
  {
    var g := new Arena();
    var axes, inner, norm;
    p1, axes, inner, norm := BuildNormGraph(g);
    ghost var tags0 := g.tags;
    BuilderAncestry(g.inputs, g.rank);
    g.AddProvenanceGroupMembersAbove(norm, [p1]);
    g.AddProvenanceTag(norm, "norm");
    NormTags(tags0, g.tags);
    AboveAllSingle(g.inputs, g.rank, norm, {});
    order := TopologicalSort(g.inputs, g.rank, [norm]);
    tags := g.tags;
  }

  /** The stand-in graph of the builder, with p1 tagged. */
  method BuildNormGraph(g: Arena) returns (p1: Handle, axes: Handle, inner: Handle, norm: Handle)
    requires g.Valid() && g.inputs == []
    modifies g
    ensures g.Valid() && p1 == 0 && axes == 1 && inner == 2 && norm == 3
    ensures |g.inputs| == 4 && g.inputs[0] == [] && g.inputs[1] == [] && g.inputs[2] == [0] && g.inputs[3] == [2, 1]
    ensures g.tags == [{"P1"}, {}, {}, {}] && g.group[3] == {}
  {
    p1 := g.AddNode([]);
    TagFresh(g, p1, "P1");
    axes := g.AddNode([]);
    inner := g.AddNode([p1]);
    norm := g.AddNode([inner, axes]);
  }

  /** The ancestry of the result of the builder's stand-in graph. */
  lemma BuilderAncestry(inputs: seq<seq<Handle>>, rank: seq<nat>)
    requires Ranked(inputs, rank) && |inputs| == 4 && inputs[0] == [] && inputs[1] == []
    requires inputs[2] == [0] && inputs[3] == [2, 1]
    ensures Anc(inputs, rank, 3) == {0, 1, 2, 3}
    ensures AboveAll(inputs, rank, inputs[3], Elements([0])) == {1, 2}
  {
    AboveLeaf(inputs, rank, 0, {});
    AboveLeaf(inputs, rank, 1, {});
    AboveOne(inputs, rank, 2, 0, {});
    AncOfTwo(inputs, rank, 3, 2, 1, {0, 2}, {1});
    assert Elements([0]) == {0};
    GroupAboveParameter(inputs, rank, 3, 0);
    NotAboveOwnInputs(inputs, rank, 3, {0});
  }

  /** Tagging the result and its group over the stand-in graph. */
  lemma NormTags(tags0: seq<set<Tag>>, tags: seq<set<Tag>>)
    requires tags0 == [{"P1"}, {}, {}, {}]
    requires tags == Retagged(tags0, {1, 2, 3}, {"norm"})
    ensures |tags| == 4 && tags[0] == {"P1"}
    ensures forall k :: 1 <= k < 4 ==> tags[k] == {"norm"}
  {
    assert {} + {"norm"} == {"norm"};
  }

  /**
   * ngraph/test/provenance.cpp:375-389: forming the group of abs above abs
   * itself adds nothing, so tagging abs tags abs alone.
   */
  method EmptyGroup() returns (p1: Handle, order: seq<Handle>, tags: seq<set<Tag>>)
    ensures p1 == 0 && Elements(order) == {0, 1}
    ensures forall i :: 0 <= i < |order| ==>
      order[i] < |tags| && tags[order[i]] == if order[i] == p1 then {"P1"} else {"abs"}
  {
    var g := new Arena();
    p1 := g.AddNode([]);
    TagFresh(g, p1, "P1");
    var abs := g.AddNode([p1]);
    g.AddProvenanceGroupMembersAbove(abs, [abs]);
    TagFresh(g, abs, "abs");
    AboveAllSingle(g.inputs, g.rank, abs, {});
    AboveLeaf(g.inputs, g.rank, p1, {});
    AboveOne(g.inputs, g.rank, abs, p1, {});
    order := TopologicalSort(g.inputs, g.rank, [abs]);
    tags := g.tags;
  }
}
