/**
 * The two graph walks the provenance operations rely on: the backward
 * traversal with a pre-marked boundary (`traverse_nodes`) and the
 * topological linearizer (`topological_sort`).
 */
module Traversal {
  import opened Graph

  /** A set of handles below `n` has at most `n` elements. */
  lemma {:induction false} CardBelow(s: set<Handle>, n: nat)
    requires forall v :: v in s ==> v < n
    ensures |s| <= n
    decreases n
  {
    if n == 0 {
      assert s == {};
    } else {
      CardBelow(s - {n - 1}, n - 1);
    }
  }

  /**
   * traverse_nodes: walks backward from `roots` with a work stack and a set of
   * seen nodes that starts out as `stop`; each node is visited once and the
   * walk never enters or passes a node of `stop`. The callback the library
   * applies to each visited node is left to the caller: the visited set is
   * returned instead.
   */
  method Walk(inputs: seq<seq<Handle>>, ghost rank: seq<nat>, roots: seq<Handle>, stop: set<Handle>)
    returns (visited: set<Handle>)
    requires Ranked(inputs, rank) && InArena(roots, |inputs|)
    ensures visited == AboveAll(inputs, rank, roots, stop)
  {
    ghost var all := AboveAll(inputs, rank, roots, stop);
    RootsReached(inputs, rank, roots, stop);
    forall n | n in all
      ensures n < |inputs|
      ensures forall j :: 0 <= j < |inputs[n]| ==> inputs[n][j] in stop || inputs[n][j] in all
    {
      WalkStep(inputs, rank, roots, stop, n);
    }
    visited := WalkWithin(inputs, roots, stop, all);
    forall z | z in all ensures z in visited {
      var i :| 0 <= i < |roots| && z in Above(inputs, rank, roots[i], stop);
      ClosedContainsAbove(inputs, rank, roots[i], stop, visited);
    }
  }

  /**
   * The loop of `Walk`. It visits only nodes of `within`, any set that holds
   * the roots and the inputs of its own members outside `stop`, and what it
   * visits holds the roots and their inputs outside `stop`.
   */
  method WalkWithin(inputs: seq<seq<Handle>>, roots: seq<Handle>, stop: set<Handle>, ghost within: set<Handle>)
    returns (visited: set<Handle>)
    requires InArena(roots, |inputs|)
    requires forall k :: 0 <= k < |inputs| ==> InArena(inputs[k], |inputs|)
    requires forall i :: 0 <= i < |roots| ==> roots[i] in stop || roots[i] in within
    requires forall n, j :: n in within && n < |inputs| && 0 <= j < |inputs[n]| ==>
      inputs[n][j] in stop || inputs[n][j] in within
    ensures visited <= within && visited !! stop
    ensures forall i :: 0 <= i < |roots| ==> roots[i] in stop + visited
    ensures forall v, j :: v in visited && v < |inputs| && 0 <= j < |inputs[v]| ==> inputs[v][j] in stop + visited
  {
    var seen := stop;
    var stack := roots;
    visited := {};
    while stack != []
      invariant InArena(stack, |inputs|)
      invariant seen == stop + visited && visited !! stop
      invariant visited <= within && |visited| <= |inputs|
      invariant forall v :: v in visited ==> v < |inputs|
      invariant forall i :: 0 <= i < |stack| ==> stack[i] in stop || stack[i] in within
      invariant forall i :: 0 <= i < |roots| ==> roots[i] in seen || roots[i] in stack
      invariant forall v, j :: v in visited && 0 <= j < |inputs[v]| ==> inputs[v][j] in seen || inputs[v][j] in stack
      decreases |inputs| - |visited|, |stack|
    {
      var n := stack[|stack| - 1];
      ghost var rest := stack[..|stack| - 1];
      assert forall i :: 0 <= i < |rest| ==> rest[i] == stack[i];
      stack := stack[..|stack| - 1];
      if n !in seen {
        var ins := inputs[n];
        assert InArena(ins, |inputs|);
        assert forall j :: 0 <= j < |ins| ==> ins[j] in stop || ins[j] in within;
        CardBelow(visited + {n}, |inputs|);
        visited := visited + {n};
        seen := seen + {n};
        stack := stack + ins;
        assert forall i :: 0 <= i < |stack| ==> stack[i] == if i < |rest| then rest[i] else ins[i - |rest|];
      }
    }
  }

  /** The inputs of a reached node are reached too, unless they lie in `stop`. */
  lemma WalkStep(inputs: seq<seq<Handle>>, rank: seq<nat>, roots: seq<Handle>, stop: set<Handle>, n: Handle)
    requires Ranked(inputs, rank) && InArena(roots, |inputs|)
    requires n in AboveAll(inputs, rank, roots, stop)
    ensures n < |inputs|
    ensures forall j :: 0 <= j < |inputs[n]| ==>
      inputs[n][j] in stop || inputs[n][j] in AboveAll(inputs, rank, roots, stop)
  {
    var i :| 0 <= i < |roots| && n in Above(inputs, rank, roots[i], stop);
    AboveTransitive(inputs, rank, roots[i], n, stop);
    AboveBounds(inputs, rank, roots[i], stop, n);
    forall j | 0 <= j < |inputs[n]| && inputs[n][j] !in stop
      ensures inputs[n][j] in AboveAll(inputs, rank, roots, stop)
    {
      InputAbove(inputs, rank, n, j, stop);
      assert inputs[n][j] in Above(inputs, rank, inputs[n][j], stop);
    }
  }

  /** Every root outside `stop` is reached. */
  lemma RootsReached(inputs: seq<seq<Handle>>, rank: seq<nat>, roots: seq<Handle>, stop: set<Handle>)
    requires Ranked(inputs, rank) && InArena(roots, |inputs|)
    ensures forall i :: 0 <= i < |roots| ==> roots[i] in stop || roots[i] in AboveAll(inputs, rank, roots, stop)
  {
    forall i | 0 <= i < |roots| && roots[i] !in stop
      ensures roots[i] in AboveAll(inputs, rank, roots, stop)
    {
      assert roots[i] in Above(inputs, rank, roots[i], stop);
    }
  }

  /** No node occurs twice. */
  ghost predicate NoDuplicates(order: seq<Handle>)
  {
    forall i, j :: 0 <= i < j < |order| ==> order[i] != order[j]
  }

  /** Every listed node is preceded by all of its inputs. */
  ghost predicate InputsFirst(inputs: seq<seq<Handle>>, order: seq<Handle>)
  {
    forall p :: 0 <= p < |order| ==>
      order[p] < |inputs| &&
      forall j :: 0 <= j < |inputs[order[p]]| ==> inputs[order[p]][j] in order[..p]
  }

  /**
   * `order` lists the nodes of `done` once each, and `pos` gives each node's
   * position; every node of `done` has its inputs in `done`, at earlier positions.
   */
  ghost predicate Linearized(inputs: seq<seq<Handle>>, done: set<Handle>, order: seq<Handle>, pos: map<Handle, nat>)
  {
    pos.Keys == done &&
    (forall i :: 0 <= i < |order| ==> order[i] in pos && pos[order[i]] == i) &&
    (forall v :: v in pos ==> pos[v] < |order| && order[pos[v]] == v) &&
    (forall v :: v in done ==> v < |inputs|) &&
    (forall v, j {:trigger inputs[v][j]} :: v in done && 0 <= j < |inputs[v]| ==> inputs[v][j] in done && pos[inputs[v][j]] < pos[v])
  }

  /** A linearization lists its nodes without repetition, inputs first. */
  lemma LinearizedOrder(inputs: seq<seq<Handle>>, done: set<Handle>, order: seq<Handle>, pos: map<Handle, nat>)
    requires Linearized(inputs, done, order, pos)
    ensures Elements(order) == done
    ensures NoDuplicates(order) && InputsFirst(inputs, order)
  {
    forall p, j | 0 <= p < |order| && 0 <= j < |inputs[order[p]]|
      ensures inputs[order[p]][j] in order[..p]
    {
      var y := inputs[order[p]][j];
      assert order[..p][pos[y]] == y;
    }
  }

  /** `within` holds the inputs of each of its members. */
  ghost predicate InputClosed(inputs: seq<seq<Handle>>, within: set<Handle>)
  {
    forall v, j :: v in within && v < |inputs| && 0 <= j < |inputs[v]| ==> inputs[v][j] in within
  }

  /**
   * Depth-first step of the linearizer: lists the not yet listed ancestors of
   * `x`, inputs first. Only nodes of `within`, a set closed under inputs that
   * holds `x`, are listed, and none ranks above `x`.
   */
  method Visit(inputs: seq<seq<Handle>>, ghost rank: seq<nat>, x: Handle, done: set<Handle>, order: seq<Handle>,
               ghost pos: map<Handle, nat>, ghost within: set<Handle>)
    returns (done': set<Handle>, order': seq<Handle>, ghost pos': map<Handle, nat>)
    requires Ranked(inputs, rank) && x < |inputs|
    requires Linearized(inputs, done, order, pos)
    requires InputClosed(inputs, within) && x in within && done <= within
    ensures Linearized(inputs, done', order', pos')
    ensures done <= done' <= within && x in done'
    ensures forall v :: v in done' && v !in done ==> rank[v] <= rank[x]
    decreases rank[x]
  {
    if x in done {
      return done, order, pos;
    }
    done', order', pos' := done, order, pos;
    var ins := inputs[x];
    for j := 0 to |ins|
      invariant Linearized(inputs, done', order', pos')
      invariant done <= done' <= within
      invariant forall v :: v in done' && v !in done ==> rank[v] < rank[x]
      invariant forall i :: 0 <= i < j ==> ins[i] in done'
    {
      done', order', pos' := Visit(inputs, rank, ins[j], done', order', pos', within);
    }
    pos' := pos'[x := |order'|];
    done', order' := done' + {x}, order' + [x];
  }

  /**
   * topological_sort: lists every ancestor of the roots exactly once, each
   * node after all of its inputs.
   */
  method TopologicalSort(inputs: seq<seq<Handle>>, ghost rank: seq<nat>, roots: seq<Handle>)
    returns (order: seq<Handle>)
    requires Ranked(inputs, rank) && InArena(roots, |inputs|)
    ensures Elements(order) == AboveAll(inputs, rank, roots, {})
    ensures NoDuplicates(order) && InputsFirst(inputs, order)
  {
    ghost var all := AboveAll(inputs, rank, roots, {});
    RootsReached(inputs, rank, roots, {});
    forall n | n in all
      ensures n < |inputs|
      ensures forall j :: 0 <= j < |inputs[n]| ==> inputs[n][j] in all
    {
      WalkStep(inputs, rank, roots, {}, n);
    }
    var done: set<Handle>;
    ghost var pos: map<Handle, nat>;
    done, order, pos := LinearizeWithin(inputs, rank, roots, all);
    forall z | z in all ensures z in done {
      var i :| 0 <= i < |roots| && z in Above(inputs, rank, roots[i], {});
      ClosedContainsAbove(inputs, rank, roots[i], {}, done);
    }
    LinearizedOrder(inputs, done, order, pos);
  }

  /** The loop of `TopologicalSort`: visits each root in turn, listing only nodes of `within`. */
  method LinearizeWithin(inputs: seq<seq<Handle>>, ghost rank: seq<nat>, roots: seq<Handle>, ghost within: set<Handle>)
    returns (done: set<Handle>, order: seq<Handle>, ghost pos: map<Handle, nat>)
    requires Ranked(inputs, rank) && InArena(roots, |inputs|)
    requires InputClosed(inputs, within) && forall i :: 0 <= i < |roots| ==> roots[i] in within
    ensures Linearized(inputs, done, order, pos) && done <= within
    ensures forall i :: 0 <= i < |roots| ==> roots[i] in done
  {
    done, order, pos := {}, [], map[];
    for i := 0 to |roots|
      invariant Linearized(inputs, done, order, pos) && done <= within
      invariant forall k :: 0 <= k < i ==> roots[k] in done
    {
      done, order, pos := Visit(inputs, rank, roots[i], done, order, pos, within);
    }
  }
}
