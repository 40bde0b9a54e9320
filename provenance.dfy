/**
 * Provenance (lineage) tags on the nodes of a computation graph: tagging a
 * node and its provenance group, tagging everything above a node up to a
 * boundary, forming a provenance group, and the tag propagation that
 * `replace_node` performs when provenance tracking is switched on.
 */
module Provenance {
  import opened Graph
  import opened Traversal

  /** `tags` with `extra` added to the tag set of every node of `nodes`. */
  function Retagged(tags: seq<set<Tag>>, nodes: set<Handle>, extra: set<Tag>): (r: seq<set<Tag>>)
    ensures |r| == |tags|
    ensures forall k :: 0 <= k < |tags| ==> tags[k] <= r[k]
  {
    seq(|tags|, k requires 0 <= k < |tags| => if k in nodes then tags[k] + extra else tags[k])
  }

  /** The union of the tag sets of the nodes of `nodes`. */
  ghost function TagsOver(tags: seq<set<Tag>>, nodes: set<Handle>): set<Tag>
  {
    set k, g | k in nodes && 0 <= k < |tags| && g in tags[k] :: g
  }

  /**
   * The nodes `replace_node` kills: ancestors of the target (the target
   * included) that are not ancestors of the replacement, so that nothing
   * outside them still needs them once the target is cut out.
   */
  ghost function Killed(inputs: seq<seq<Handle>>, rank: seq<nat>, target: Handle, replacement: Handle): set<Handle>
    requires Ranked(inputs, rank) && target < |inputs| && replacement < |inputs|
  {
    Anc(inputs, rank, target) - Anc(inputs, rank, replacement)
  }

  /**
   * The nodes that receive the killed tags: the replacement and its ancestors
   * that are not ancestors of the target.
   */
  ghost function Introduced(inputs: seq<seq<Handle>>, rank: seq<nat>, target: Handle, replacement: Handle): set<Handle>
    requires Ranked(inputs, rank) && target < |inputs| && replacement < |inputs|
  {
    (Anc(inputs, rank, replacement) - Anc(inputs, rank, target)) + {replacement}
  }

  /** The tags after `replace_node(target, replacement)` with provenance tracking on. */
  ghost function ReplacedTags(inputs: seq<seq<Handle>>, rank: seq<nat>, tags: seq<set<Tag>>, target: Handle, replacement: Handle): seq<set<Tag>>
    requires Ranked(inputs, rank) && target < |inputs| && replacement < |inputs|
  {
    Retagged(tags, Introduced(inputs, rank, target, replacement), TagsOver(tags, Killed(inputs, rank, target, replacement)))
  }

  /** A walk started from a single node reaches what lies above that node. */
  lemma AboveAllSingle(inputs: seq<seq<Handle>>, rank: seq<nat>, x: Handle, stop: set<Handle>)
    requires Ranked(inputs, rank) && x < |inputs|
    ensures InArena([x], |inputs|)
    ensures AboveAll(inputs, rank, [x], stop) == Above(inputs, rank, x, stop)
  {
    assert InArena([x], |inputs|);
    forall z | z in AboveAll(inputs, rank, [x], stop) ensures z in Above(inputs, rank, x, stop) {
      var j :| 0 <= j < 1 && z in Above(inputs, rank, [x][j], stop);
    }
    forall z | z in Above(inputs, rank, x, stop) ensures z in AboveAll(inputs, rank, [x], stop) {
      assert [x][0] == x;
    }
  }

  /** The ancestors two nodes share are closed upward. */
  lemma CommonUpwardClosed(inputs: seq<seq<Handle>>, rank: seq<nat>, x: Handle, y: Handle)
    requires Ranked(inputs, rank) && x < |inputs| && y < |inputs|
    ensures UpwardClosed(inputs, rank, Anc(inputs, rank, x) * Anc(inputs, rank, y))
  {
    forall s | s in Anc(inputs, rank, x) * Anc(inputs, rank, y) && s < |inputs|
      ensures Anc(inputs, rank, s) <= Anc(inputs, rank, x) * Anc(inputs, rank, y)
    {
      AboveTransitive(inputs, rank, x, s, {});
      AboveTransitive(inputs, rank, y, s, {});
    }
  }

  /**
   * Walking from the target, and from the replacement, with the shared
   * ancestors pre-marked as visited reaches exactly the ancestors the other
   * node does not share.
   */
  lemma CommonCut(inputs: seq<seq<Handle>>, rank: seq<nat>, target: Handle, replacement: Handle)
    requires Ranked(inputs, rank) && target < |inputs| && replacement < |inputs|
    ensures Above(inputs, rank, target, Anc(inputs, rank, target) * Anc(inputs, rank, replacement))
         == Anc(inputs, rank, target) - Anc(inputs, rank, replacement)
    ensures Above(inputs, rank, replacement, Anc(inputs, rank, target) * Anc(inputs, rank, replacement))
         == Anc(inputs, rank, replacement) - Anc(inputs, rank, target)
  {
    var common := Anc(inputs, rank, target) * Anc(inputs, rank, replacement);
    CommonUpwardClosed(inputs, rank, target, replacement);
    AboveUpwardClosed(inputs, rank, target, common);
    AboveUpwardClosed(inputs, rank, replacement, common);
  }

  /** The tag sets of `nodes`, gathered one node at a time. */
  method UnionTags(tags: seq<set<Tag>>, nodes: set<Handle>) returns (s: set<Tag>)
    ensures s == TagsOver(tags, nodes)
  {
    s := {};
    var todo := nodes;
    while todo != {}
      invariant todo <= nodes
      invariant s == TagsOver(tags, nodes - todo)
      decreases |todo|
    {
      var k :| k in todo;
      TagsOverAdd(tags, nodes - todo, k);
      if k < |tags| {
        s := s + tags[k];
      }
      todo := todo - {k};
      assert nodes - todo == (nodes - (todo + {k})) + {k};
    }
  }

  /** Adding one node to a set adds that node's tags to the union. */
  lemma TagsOverAdd(tags: seq<set<Tag>>, nodes: set<Handle>, k: Handle)
    ensures TagsOver(tags, nodes + {k}) == TagsOver(tags, nodes) + (if k < |tags| then tags[k] else {})
  {
  }

  /**
   * The provenance state of one graph: for every node, its ordered inputs,
   * its tag set and its provenance group. The ghost `rank` certifies that
   * the inputs form no cycle.
   */
  class Arena {
    var inputs: seq<seq<Handle>>
    var tags: seq<set<Tag>>
    var group: seq<set<Handle>>
    ghost var rank: seq<nat>

    ghost predicate Valid()
      reads this
    {
      Ranked(inputs, rank) && |tags| == |inputs| && |group| == |inputs| &&
      forall k, m :: 0 <= k < |group| && m in group[k] ==> m < |inputs|
    }

    /** An empty graph. */
    constructor()
      ensures Valid() && inputs == [] && tags == [] && group == []
    {
      inputs, tags, group := [], [], [];
      rank := [];
    }

    /** Creates a node over existing nodes, with no tags and an empty group. */
    method AddNode(ins: seq<Handle>) returns (h: Handle)
      requires Valid() && InArena(ins, |inputs|)
      modifies this
      ensures Valid() && h == old(|inputs|)
      ensures inputs == old(inputs) + [ins] && tags == old(tags) + [{}] && group == old(group) + [{}]
    {
      h := |inputs|;
      rank := rank + [RankAbove(rank, ins)];
      inputs := inputs + [ins];
      tags := tags + [{}];
      group := group + [{}];
    }

    /** Adds `extra` to the tag set of every node of `nodes`. */
    method TagEach(nodes: set<Handle>, extra: set<Tag>)
      requires Valid()
      modifies this
      ensures Valid() && inputs == old(inputs) && group == old(group) && rank == old(rank)
      ensures tags == Retagged(old(tags), nodes, extra)
    {
      var todo := nodes;
      while todo != {}
        invariant Valid() && inputs == old(inputs) && group == old(group) && rank == old(rank)
        invariant todo <= nodes
        invariant tags == Retagged(old(tags), nodes - todo, extra)
        decreases |todo|
      {
        var k :| k in todo;
        if k < |tags| {
          tags := tags[k := tags[k] + extra];
        }
        todo := todo - {k};
      }
    }

    /** add_provenance_tag: tags the node and every member of its provenance group. */
    method AddProvenanceTag(n: Handle, t: Tag)
      requires Valid() && n < |inputs|
      modifies this
      ensures Valid() && inputs == old(inputs) && group == old(group) && rank == old(rank)
      ensures tags == Retagged(old(tags), {n} + old(group[n]), {t})
    {
      TagEach({n} + group[n], {t});
    }

    /**
     * add_provenance_tags_above: walks backward from `n` with the nodes of
     * `base` pre-marked as visited and adds `extra` to every node it visits.
     */
    method AddProvenanceTagsAbove(n: Handle, base: seq<Handle>, extra: set<Tag>)
      requires Valid() && n < |inputs|
      modifies this
      ensures Valid() && inputs == old(inputs) && group == old(group) && rank == old(rank)
      ensures tags == Retagged(old(tags), Above(old(inputs), old(rank), n, Elements(base)), extra)
    {
      AboveAllSingle(inputs, rank, n, Elements(base));
      var visited := Walk(inputs, rank, [n], Elements(base));
      TagEach(visited, extra);
    }

    /**
     * add_provenance_group_members_above: makes every node reached walking
     * backward from the inputs of `n`, stopping at `base`, a member of the
     * group of `n`; nothing happens when `base` holds `n` itself.
     */
    method AddProvenanceGroupMembersAbove(n: Handle, base: seq<Handle>)
      requires Valid() && n < |inputs|
      modifies this
      ensures Valid() && inputs == old(inputs) && tags == old(tags) && rank == old(rank)
      ensures n in base ==> group == old(group)
      ensures n !in base ==>
        group == old(group)[n := old(group[n]) + AboveAll(old(inputs), old(rank), old(inputs[n]), Elements(base))]
    {
      if n in base {
        return;
      }
      assert InArena(inputs[n], |inputs|);
      var visited := Walk(inputs, rank, inputs[n], Elements(base));
      forall z | z in visited ensures z < |inputs| {
        var j :| 0 <= j < |inputs[n]| && z in Above(inputs, rank, inputs[n][j], Elements(base));
        AboveBounds(inputs, rank, inputs[n][j], Elements(base), z);
      }
      group := group[n := group[n] + visited];
    }

    /**
     * replace_node: rewires every consumer of `target` to read `replacement`.
     * With provenance tracking on, the tags of the killed nodes are first added
     * to the replacement and to its ancestors that the target did not share.
     * A replacement that depends on the target would close a cycle: the call
     * then reports failure and changes nothing.
     */
    method ReplaceNode(target: Handle, replacement: Handle, provenanceEnabled: bool) returns (ok: bool)
      requires Valid() && target < |inputs| && replacement < |inputs|
      modifies this
      ensures Valid() && group == old(group)
      ensures ok == (target == replacement || target !in Anc(old(inputs), old(rank), replacement))
      ensures !ok ==> inputs == old(inputs) && tags == old(tags) && rank == old(rank)
      ensures ok ==> inputs == Redirected(old(inputs), target, replacement)
      ensures ok && provenanceEnabled ==> tags == ReplacedTags(old(inputs), old(rank), old(tags), target, replacement)
      ensures ok && !provenanceEnabled ==> tags == old(tags)
    {
      AboveAllSingle(inputs, rank, replacement, {});
      AboveAllSingle(inputs, rank, target, {});
      var ancR := Walk(inputs, rank, [replacement], {});
      if target != replacement && target in ancR {
        return false;
      }
      ok := true;
      if provenanceEnabled {
        var ancT := Walk(inputs, rank, [target], {});
        var common := ancT * ancR;
        AboveAllSingle(inputs, rank, replacement, common);
        AboveAllSingle(inputs, rank, target, common);
        CommonCut(inputs, rank, target, replacement);
        var killed := Walk(inputs, rank, [target], common);
        var introduced := Walk(inputs, rank, [replacement], common);
        var s := UnionTags(tags, killed);
        TagEach(introduced + {replacement}, s);
      }
      Rewire(target, replacement);
    }

    /**
     * Points every input slot that reads `target` at `replacement`, which must
     * not depend on `target`, and re-ranks the arena so that it stays acyclic.
     */
    method Rewire(target: Handle, replacement: Handle)
      requires Valid() && target < |inputs| && replacement < |inputs|
      requires target == replacement || target !in Anc(inputs, rank, replacement)
      modifies this
      ensures Valid()
      ensures inputs == Redirected(old(inputs), target, replacement)
      ensures rank == Reranked(old(inputs), old(rank), target, replacement)
      ensures tags == old(tags) && group == old(group)
    {
      RedirectedRanked(inputs, rank, target, replacement);
      var k := 0;
      while k < |inputs|
        invariant k <= |inputs| == |old(inputs)|
        invariant tags == old(tags) && group == old(group) && rank == old(rank)
        invariant inputs[..k] == Redirected(old(inputs), target, replacement)[..k]
        invariant inputs[k..] == old(inputs)[k..]
      {
        inputs := inputs[k := Redirect(inputs[k], target, replacement)];
        k := k + 1;
      }
      rank := Reranked(old(inputs), old(rank), target, replacement);
    }
  }

  /** A rank above that of every input, for a node created over `ins`. */
  ghost function RankAbove(rank: seq<nat>, ins: seq<Handle>): (r: nat)
    requires InArena(ins, |rank|)
    ensures forall j :: 0 <= j < |ins| ==> rank[ins[j]] < r
  {
    if ins == [] then 0
    else
      var rest := RankAbove(rank, ins[1..]);
      assert forall j :: 1 <= j < |ins| ==> ins[j] == ins[1..][j - 1];
      if rank[ins[0]] < rest then rest else rank[ins[0]] + 1
  }

  /** Every tag a node holds after the replacement was its own or comes from a killed node it was introduced over. */
  lemma ReplacedTagOrigin(inputs: seq<seq<Handle>>, rank: seq<nat>, tags: seq<set<Tag>>, target: Handle, replacement: Handle, k: Handle, g: Tag)
    requires Ranked(inputs, rank) && target < |inputs| && replacement < |inputs| && k < |tags|
    ensures g in ReplacedTags(inputs, rank, tags, target, replacement)[k] <==>
      g in tags[k] ||
      (k in Introduced(inputs, rank, target, replacement) &&
       exists v :: v in Killed(inputs, rank, target, replacement) && v < |tags| && g in tags[v])
  {
    var killed := Killed(inputs, rank, target, replacement);
    if k in Introduced(inputs, rank, target, replacement) && g !in tags[k] {
      if g in TagsOver(tags, killed) {
        var v, h :| v in killed && 0 <= v < |tags| && h in tags[v] && h == g;
      }
      if v :| v in killed && v < |tags| && g in tags[v] {
        assert g in TagsOver(tags, killed);
      }
    }
  }

  /**
   * The node being replaced is always killed: its tags, and the
   * replacement's own, end up on the replacement.
   */
  lemma ReplacementKeepsOwnAndTargetTags(inputs: seq<seq<Handle>>, rank: seq<nat>, tags: seq<set<Tag>>, target: Handle, replacement: Handle)
    requires Ranked(inputs, rank) && target < |inputs| && replacement < |inputs| && |tags| == |inputs|
    requires target == replacement || target !in Anc(inputs, rank, replacement)
    ensures tags[replacement] <= ReplacedTags(inputs, rank, tags, target, replacement)[replacement]
    ensures target != replacement ==> tags[target] <= ReplacedTags(inputs, rank, tags, target, replacement)[replacement]
  {
    if target != replacement {
      assert target in Anc(inputs, rank, target);
      assert target in Killed(inputs, rank, target, replacement);
      forall g | g in tags[target] ensures g in TagsOver(tags, Killed(inputs, rank, target, replacement)) {
      }
    }
  }

  /**
   * Ancestors shared by the target and the replacement, and nodes that are
   * ancestors of neither, keep exactly their tags.
   */
  lemma UntouchedKeepTags(inputs: seq<seq<Handle>>, rank: seq<nat>, tags: seq<set<Tag>>, target: Handle, replacement: Handle, k: Handle)
    requires Ranked(inputs, rank) && target < |inputs| && replacement < |inputs| && k < |tags|
    requires k != replacement
    requires k in Anc(inputs, rank, target) || k !in Anc(inputs, rank, replacement)
    ensures ReplacedTags(inputs, rank, tags, target, replacement)[k] == tags[k]
  {
  }

  /**
   * A replacement built over the very inputs of the target kills only the
   * target: the replacement gains exactly the target's tags and every other
   * node keeps its own.
   */
  lemma SameInputsReplacement(inputs: seq<seq<Handle>>, rank: seq<nat>, tags: seq<set<Tag>>, target: Handle, replacement: Handle)
    requires Ranked(inputs, rank) && target < |inputs| && replacement < |inputs| && |tags| == |inputs|
    requires target != replacement && inputs[target] == inputs[replacement]
    ensures ReplacedTags(inputs, rank, tags, target, replacement)[replacement] == tags[replacement] + tags[target]
    ensures forall k :: 0 <= k < |tags| && k != replacement ==> ReplacedTags(inputs, rank, tags, target, replacement)[k] == tags[k]
  {
    var shared := AboveAll(inputs, rank, inputs[target], {});
    AboveUnfold(inputs, rank, target, {});
    AboveUnfold(inputs, rank, replacement, {});
    NotAboveOwnInputs(inputs, rank, target, {});
    NotAboveOwnInputs(inputs, rank, replacement, {});
    assert Killed(inputs, rank, target, replacement) == {target};
    assert Introduced(inputs, rank, target, replacement) == {replacement};
    TagsOverAdd(tags, {}, target);
    assert {} + {target} == {target};
  }

  /**
   * A replacement that shares no ancestor with the target kills the target's
   * whole ancestry, whose tags flow into the replacement and all of its
   * ancestors.
   */
  lemma DisjointReplacement(inputs: seq<seq<Handle>>, rank: seq<nat>, tags: seq<set<Tag>>, target: Handle, replacement: Handle)
    requires Ranked(inputs, rank) && target < |inputs| && replacement < |inputs| && |tags| == |inputs|
    requires Anc(inputs, rank, target) !! Anc(inputs, rank, replacement)
    ensures forall k :: k in Anc(inputs, rank, replacement) ==>
      k < |tags| && ReplacedTags(inputs, rank, tags, target, replacement)[k] == tags[k] + TagsOver(tags, Anc(inputs, rank, target))
    ensures forall k :: 0 <= k < |tags| && k !in Anc(inputs, rank, replacement) ==>
      ReplacedTags(inputs, rank, tags, target, replacement)[k] == tags[k]
  {
    assert replacement in Anc(inputs, rank, replacement);
    assert Killed(inputs, rank, target, replacement) == Anc(inputs, rank, target);
    assert Introduced(inputs, rank, target, replacement) == Anc(inputs, rank, replacement);
    forall k | k in Anc(inputs, rank, replacement) ensures k < |tags| {
      AboveBounds(inputs, rank, replacement, {}, k);
    }
  }

  /**
   * Tagging above a boundary: the start node is tagged unless it lies in the
   * boundary, base nodes are never tagged, and no tag reaches a node that is
   * not an ancestor of the start node.
   */
  lemma TagsAboveBoundary(inputs: seq<seq<Handle>>, rank: seq<nat>, tags: seq<set<Tag>>, n: Handle, base: set<Handle>, extra: set<Tag>)
    requires Ranked(inputs, rank) && n < |inputs| && |tags| == |inputs|
    ensures n !in base ==> Retagged(tags, Above(inputs, rank, n, base), extra)[n] == tags[n] + extra
    ensures forall b :: b in base && b < |tags| ==> Retagged(tags, Above(inputs, rank, n, base), extra)[b] == tags[b]
    ensures forall k :: 0 <= k < |tags| && k !in Anc(inputs, rank, n) ==> Retagged(tags, Above(inputs, rank, n, base), extra)[k] == tags[k]
    ensures forall j :: 0 <= j < |inputs[n]| && n !in base && inputs[n][j] !in base ==>
      extra <= Retagged(tags, Above(inputs, rank, n, base), extra)[inputs[n][j]]
  {
    AboveMonotone(inputs, rank, n, base);
    forall j | 0 <= j < |inputs[n]| && n !in base && inputs[n][j] !in base
      ensures inputs[n][j] in Above(inputs, rank, n, base)
    {
      InputAbove(inputs, rank, n, j, base);
    }
  }

  /**
   * The provenance group formed above a boundary holds only strict ancestors
   * of the group root, and none of the boundary nodes.
   */
  lemma GroupAboveBase(inputs: seq<seq<Handle>>, rank: seq<nat>, n: Handle, base: set<Handle>)
    requires Ranked(inputs, rank) && n < |inputs|
    ensures InArena(inputs[n], |inputs|)
    ensures AboveAll(inputs, rank, inputs[n], base) !! base
    ensures AboveAll(inputs, rank, inputs[n], base) <= Anc(inputs, rank, n) - {n}
  {
    assert InArena(inputs[n], |inputs|);
    NotAboveOwnInputs(inputs, rank, n, base);
    forall z | z in AboveAll(inputs, rank, inputs[n], base)
      ensures z !in base && z in Anc(inputs, rank, n)
    {
      var j :| 0 <= j < |inputs[n]| && z in Above(inputs, rank, inputs[n][j], base);
      AboveBounds(inputs, rank, inputs[n][j], base, z);
      AboveMonotone(inputs, rank, inputs[n][j], base);
      InputAbove(inputs, rank, n, j, {});
    }
  }

  /**
   * A group formed above a single parameter (a node without inputs) holds
   * every ancestor of the group root except the root and the parameter.
   */
  lemma GroupAboveParameter(inputs: seq<seq<Handle>>, rank: seq<nat>, n: Handle, p: Handle)
    requires Ranked(inputs, rank) && n < |inputs| && p < |inputs|
    requires inputs[p] == [] && n != p
    ensures InArena(inputs[n], |inputs|)
    ensures {n} + AboveAll(inputs, rank, inputs[n], {p}) == Anc(inputs, rank, n) - {p}
  {
    AboveUnfold(inputs, rank, p, {});
    assert AboveAll(inputs, rank, inputs[p], {}) == {};
    assert UpwardClosed(inputs, rank, {p});
    AboveUpwardClosed(inputs, rank, n, {p});
    AboveUnfold(inputs, rank, n, {p});
  }
}
