/**
 * The shape of a computation graph kept as an arena of nodes. A node is
 * addressed by its handle (its position in the arena); `inputs[k]` is the
 * ordered list of producer handles node k consumes. Acyclicity is certified
 * by a rank that strictly decreases from every consumer to each of its
 * producers.
 */
module Graph {

  type Handle = nat
  type Tag = string

  /** Every input names a node of the arena and ranks decrease along edges. */
  ghost predicate Ranked(inputs: seq<seq<Handle>>, rank: seq<nat>)
  {
    |rank| == |inputs| &&
    forall k, j :: 0 <= k < |inputs| && 0 <= j < |inputs[k]| ==>
      inputs[k][j] < |inputs| && rank[inputs[k][j]] < rank[k]
  }

  /** All handles in `xs` name nodes of an arena with `n` nodes. */
  predicate InArena(xs: seq<Handle>, n: nat)
  {
    forall i :: 0 <= i < |xs| ==> xs[i] < n
  }

  function Elements(xs: seq<Handle>): (s: set<Handle>)
    ensures forall i :: 0 <= i < |xs| ==> xs[i] in s
    ensures forall x :: x in s ==> x in xs
  {
    set x | x in xs
  }

  /**
   * The nodes reached by walking backward from `x` (x included) through
   * producers, never entering a node of `stop`.
   */
  ghost function Above(inputs: seq<seq<Handle>>, rank: seq<nat>, x: Handle, stop: set<Handle>): set<Handle>
    requires Ranked(inputs, rank) && x < |inputs|
    decreases rank[x]
  {
    if x in stop then {}
    else {x} + (set j, z | 0 <= j < |inputs[x]| && z in Above(inputs, rank, inputs[x][j], stop) :: z)
  }

  /** The union of `Above` over every node of `xs`. */
  ghost function AboveAll(inputs: seq<seq<Handle>>, rank: seq<nat>, xs: seq<Handle>, stop: set<Handle>): set<Handle>
    requires Ranked(inputs, rank) && InArena(xs, |inputs|)
  {
    set j, z | 0 <= j < |xs| && z in Above(inputs, rank, xs[j], stop) :: z
  }

  /** Backward reachability: `x` together with all of its ancestors. */
  ghost function Anc(inputs: seq<seq<Handle>>, rank: seq<nat>, x: Handle): set<Handle>
    requires Ranked(inputs, rank) && x < |inputs|
  {
    Above(inputs, rank, x, {})
  }

  /** One step of the walk: a node outside `stop` is itself plus what lies above its inputs. */
  lemma AboveUnfold(inputs: seq<seq<Handle>>, rank: seq<nat>, x: Handle, stop: set<Handle>)
    requires Ranked(inputs, rank) && x < |inputs|
    ensures x in stop ==> Above(inputs, rank, x, stop) == {}
    ensures x !in stop ==> Above(inputs, rank, x, stop) == {x} + AboveAll(inputs, rank, inputs[x], stop)
  {
  }

  /** Everything reached lies in the arena, outside `stop`, and no higher in rank than `x`. */
  lemma {:induction false} AboveBounds(inputs: seq<seq<Handle>>, rank: seq<nat>, x: Handle, stop: set<Handle>, z: Handle)
    requires Ranked(inputs, rank) && x < |inputs|
    requires z in Above(inputs, rank, x, stop)
    ensures z < |inputs| && z !in stop && rank[z] <= rank[x]
    ensures z != x ==> rank[z] < rank[x]
    decreases rank[x]
  {
    if z != x {
      var j :| 0 <= j < |inputs[x]| && z in Above(inputs, rank, inputs[x][j], stop);
      AboveBounds(inputs, rank, inputs[x][j], stop, z);
    }
  }

  /** A node is never among the (strict) ancestors reached from its own inputs. */
  lemma NotAboveOwnInputs(inputs: seq<seq<Handle>>, rank: seq<nat>, x: Handle, stop: set<Handle>)
    requires Ranked(inputs, rank) && x < |inputs|
    ensures x !in AboveAll(inputs, rank, inputs[x], stop)
  {
    if x in AboveAll(inputs, rank, inputs[x], stop) {
      var j :| 0 <= j < |inputs[x]| && x in Above(inputs, rank, inputs[x][j], stop);
      AboveBounds(inputs, rank, inputs[x][j], stop, x);
    }
  }

  /** Walking on from a reached node reaches nothing new. */
  lemma {:induction false} AboveTransitive(inputs: seq<seq<Handle>>, rank: seq<nat>, x: Handle, y: Handle, stop: set<Handle>)
    requires Ranked(inputs, rank) && x < |inputs|
    requires y in Above(inputs, rank, x, stop)
    ensures y < |inputs| && Above(inputs, rank, y, stop) <= Above(inputs, rank, x, stop)
    decreases rank[x]
  {
    AboveBounds(inputs, rank, x, stop, y);
    if y != x {
      var j :| 0 <= j < |inputs[x]| && y in Above(inputs, rank, inputs[x][j], stop);
      AboveTransitive(inputs, rank, inputs[x][j], y, stop);
      InputAbove(inputs, rank, x, j, stop);
    }
  }

  /** What lies above an input of a node outside `stop` lies above the node. */
  lemma InputAbove(inputs: seq<seq<Handle>>, rank: seq<nat>, x: Handle, j: nat, stop: set<Handle>)
    requires Ranked(inputs, rank) && x < |inputs| && j < |inputs[x]|
    requires x !in stop
    ensures Above(inputs, rank, inputs[x][j], stop) <= Above(inputs, rank, x, stop)
  {
  }

  /**
   * A set that, together with `stop`, is closed under taking producers
   * contains everything reached from any of its members.
   */
  lemma {:induction false} ClosedContainsAbove(inputs: seq<seq<Handle>>, rank: seq<nat>, x: Handle, stop: set<Handle>, closed: set<Handle>)
    requires Ranked(inputs, rank) && x < |inputs|
    requires x in closed + stop
    requires forall v, j :: v in closed && v < |inputs| && 0 <= j < |inputs[v]| ==> inputs[v][j] in closed + stop
    ensures Above(inputs, rank, x, stop) <= closed
    decreases rank[x]
  {
    if x !in stop {
      forall z | z in Above(inputs, rank, x, stop) ensures z in closed {
        if z != x {
          var j :| 0 <= j < |inputs[x]| && z in Above(inputs, rank, inputs[x][j], stop);
          ClosedContainsAbove(inputs, rank, inputs[x][j], stop, closed);
        }
      }
    }
  }

  /** `stop` is closed upward: it contains every ancestor of each of its members. */
  ghost predicate UpwardClosed(inputs: seq<seq<Handle>>, rank: seq<nat>, stop: set<Handle>)
    requires Ranked(inputs, rank)
  {
    forall s :: s in stop && s < |inputs| ==> Anc(inputs, rank, s) <= stop
  }

  /** Reaching nothing past `stop` only cuts off ancestors lying in `stop`. */
  lemma {:induction false} AboveMonotone(inputs: seq<seq<Handle>>, rank: seq<nat>, x: Handle, stop: set<Handle>)
    requires Ranked(inputs, rank) && x < |inputs|
    ensures Above(inputs, rank, x, stop) <= Anc(inputs, rank, x) - stop
    decreases rank[x]
  {
    forall z | z in Above(inputs, rank, x, stop) ensures z in Anc(inputs, rank, x) - stop {
      AboveBounds(inputs, rank, x, stop, z);
      if z != x {
        var j :| 0 <= j < |inputs[x]| && z in Above(inputs, rank, inputs[x][j], stop);
        AboveMonotone(inputs, rank, inputs[x][j], stop);
        InputAbove(inputs, rank, x, j, {});
      }
    }
  }

  /** When `stop` is closed upward, the walk reaches exactly the ancestors outside `stop`. */
  lemma {:induction false} AboveUpwardClosed(inputs: seq<seq<Handle>>, rank: seq<nat>, x: Handle, stop: set<Handle>)
    requires Ranked(inputs, rank) && x < |inputs|
    requires UpwardClosed(inputs, rank, stop)
    ensures Above(inputs, rank, x, stop) == Anc(inputs, rank, x) - stop
    decreases rank[x]
  {
    AboveMonotone(inputs, rank, x, stop);
    if x in stop {
      assert Anc(inputs, rank, x) <= stop;
    } else {
      forall z | z in Anc(inputs, rank, x) - stop ensures z in Above(inputs, rank, x, stop) {
        if z != x {
          var j :| 0 <= j < |inputs[x]| && z in Anc(inputs, rank, inputs[x][j]);
          AboveUpwardClosed(inputs, rank, inputs[x][j], stop);
          InputAbove(inputs, rank, x, j, stop);
        }
      }
    }
  }

  /** A consumer's input list with every use of `target` read from `replacement` instead. */
  function Redirect(row: seq<Handle>, target: Handle, replacement: Handle): seq<Handle>
  {
    seq(|row|, j requires 0 <= j < |row| => if row[j] == target then replacement else row[j])
  }

  /** The arena after every consumer of `target` has been rewired to `replacement`. */
  function Redirected(inputs: seq<seq<Handle>>, target: Handle, replacement: Handle): seq<seq<Handle>>
  {
    seq(|inputs|, k requires 0 <= k < |inputs| => Redirect(inputs[k], target, replacement))
  }

  /** Rewiring replaces exactly the uses of `target`, slot by slot, and leaves none behind. */
  lemma RedirectedSlots(inputs: seq<seq<Handle>>, target: Handle, replacement: Handle)
    ensures |Redirected(inputs, target, replacement)| == |inputs|
    ensures forall k :: 0 <= k < |inputs| ==> |Redirected(inputs, target, replacement)[k]| == |inputs[k]|
    ensures forall k, j :: 0 <= k < |inputs| && 0 <= j < |inputs[k]| && inputs[k][j] != target ==>
      Redirected(inputs, target, replacement)[k][j] == inputs[k][j]
    ensures forall k, j :: 0 <= k < |inputs| && 0 <= j < |inputs[k]| && inputs[k][j] == target ==>
      Redirected(inputs, target, replacement)[k][j] == replacement
    ensures target != replacement ==>
      forall k :: 0 <= k < |inputs| ==> target !in Redirected(inputs, target, replacement)[k]
  {
  }

  /** The nodes that have `target` among their ancestors (target included). */
  ghost function Descendants(inputs: seq<seq<Handle>>, rank: seq<nat>, target: Handle): set<Handle>
    requires Ranked(inputs, rank)
  {
    set k | 0 <= k < |inputs| && target in Anc(inputs, rank, k)
  }

  /**
   * A rank for the rewired arena: every descendant of `target` is lifted above
   * the replacement, everything else keeps its rank.
   */
  ghost function Reranked(inputs: seq<seq<Handle>>, rank: seq<nat>, target: Handle, replacement: Handle): seq<nat>
    requires Ranked(inputs, rank) && replacement < |inputs|
  {
    var desc := Descendants(inputs, rank, target);
    seq(|rank|, k requires 0 <= k < |rank| => if k in desc then rank[k] + rank[replacement] + 1 else rank[k])
  }

  /**
   * Rewiring the consumers of `target` to a replacement that does not depend on
   * `target` keeps the arena acyclic.
   */
  lemma RedirectedRanked(inputs: seq<seq<Handle>>, rank: seq<nat>, target: Handle, replacement: Handle)
    requires Ranked(inputs, rank) && target < |inputs| && replacement < |inputs|
    requires target == replacement || target !in Anc(inputs, rank, replacement)
    ensures Ranked(Redirected(inputs, target, replacement), Reranked(inputs, rank, target, replacement))
  {
    var inputs', rank' := Redirected(inputs, target, replacement), Reranked(inputs, rank, target, replacement);
    var desc := Descendants(inputs, rank, target);
    forall k, j | 0 <= k < |inputs'| && 0 <= j < |inputs'[k]|
      ensures inputs'[k][j] < |inputs'| && rank'[inputs'[k][j]] < rank'[k]
    {
      var y := inputs[k][j];
      if y in desc {
        InputAbove(inputs, rank, k, j, {});
        assert k in desc;
      }
      if y == target {
        assert target in Anc(inputs, rank, y);
        InputAbove(inputs, rank, k, j, {});
        assert k in desc;
      }
    }
  }
}
