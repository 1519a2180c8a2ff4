/**
 The depth-first walk that rejects cyclic or locally drifted object graphs while allowing shared
 objects. An object graph maps identities to what the walk can see of the object. The walk recurses,
 and takes a RecursionError of the interpreter for a rejection; that cannot happen while at most
 `safe` objects are being walked, and may happen beyond.
 */
module ExactState {

  /** A model carries its own verdict and one verdict per field; a container is any built-in one. */
  datatype Node =
    | Leaf
    | Container(items: seq<nat>)
    | Model(stateOk: bool, fields: seq<nat>, fieldOk: seq<bool>)

  type Graph = map<nat, Node>

  function Children(n: Node): seq<nat> {
    match n
    case Leaf => []
    case Container(items) => items
    case Model(_, fields, _) => fields
  }

  predicate LocallyOk(n: Node) {
    n.Model? ==> n.stateOk && forall i :: 0 <= i < |n.fieldOk| ==> n.fieldOk[i]
  }

  /** Every object's parts are objects of the graph, and every model field has its verdict. */
  predicate Closed(g: Graph) {
    && (forall x, i :: x in g && 0 <= i < |Children(g[x])| ==> Children(g[x])[i] in g)
    && forall x :: x in g && g[x].Model? ==> |g[x].fieldOk| == |g[x].fields|
  }

  ghost predicate Path(g: Graph, p: seq<nat>) {
    && |p| > 0 && (forall i :: 0 <= i < |p| ==> p[i] in g)
    && forall i :: 0 <= i < |p| - 1 ==> p[i + 1] in Children(g[p[i]])
  }

  ghost predicate Reaches(g: Graph, x: nat, y: nat) {
    exists p :: Path(g, p) && p[0] == x && p[|p| - 1] == y
  }

  ghost predicate OnCycle(g: Graph, x: nat) {
    exists p :: Path(g, p) && |p| >= 2 && p[0] == x && p[|p| - 1] == x
  }

  /** Something reachable is locally wrong or lies on a cycle. */
  ghost predicate Faulty(g: Graph, root: nat) {
    exists x :: x in g && Reaches(g, root, x) && (!LocallyOk(g[x]) || OnCycle(g, x))
  }

  /** More than `safe` objects nested in one another, from root on. */
  ghost predicate TooDeep(g: Graph, root: nat, safe: nat) {
    exists p :: Path(g, p) && p[0] == root && |p| > safe
  }

  ghost predicate Refusable(g: Graph, root: nat, safe: nat) { Faulty(g, root) || TooDeep(g, root, safe) }

  /** Completed objects are fine, and their parts were completed before them or are leaves. */
  ghost predicate Settled(g: Graph, completed: set<nat>, rank: map<nat, nat>) {
    forall x :: x in completed ==>
      && x in g && !g[x].Leaf? && x in rank && LocallyOk(g[x])
      && forall i :: 0 <= i < |Children(g[x])| ==>
           var c := Children(g[x])[i];
           c in g && (g[c].Leaf? || (c in completed && c in rank && rank[c] < rank[x]))
  }

  ghost predicate Below(rank: map<nat, nat>, completed: set<nat>, bound: nat) {
    forall x :: x in completed ==> x in rank && rank[x] < bound
  }

  /** The objects being walked, outermost first, each a part of the one before. */
  ghost predicate Stack(g: Graph, stack: seq<nat>, active: set<nat>) {
    && (stack == [] || Path(g, stack))
    && (forall i :: 0 <= i < |stack| ==> stack[i] in active)
    && forall x :: x in active ==> x in stack
  }

  function Base(stack: seq<nat>, value: nat): nat {
    if stack == [] then value else stack[0]
  }

  /** value is where the walk goes next from the top of the stack. */
  ghost predicate Next(g: Graph, stack: seq<nat>, value: nat) {
    value in g && (stack == [] || (stack[|stack| - 1] in g && value in Children(g[stack[|stack| - 1]])))
  }

  class Walk {
    const g: Graph
    const safe: nat
    var activePath: set<nat>
    var completedIds: set<nat>
    ghost var stack: seq<nat>
    ghost var rank: map<nat, nat>
    ghost var bound: nat

    ghost predicate Valid()
      reads this
    {
      && Closed(g) && activePath <= g.Keys && activePath !! completedIds
      && (stack == [] || Path(g, stack)) && Stack(g, stack, activePath)
      && Settled(g, completedIds, rank) && Below(rank, completedIds, bound)
    }

    constructor (g: Graph, safe: nat)
      requires Closed(g)
      ensures Valid() && this.g == g && this.safe == safe && activePath == {} && completedIds == {} && stack == []
    {
      this.g := g;
      this.safe := safe;
      activePath, completedIds, stack, rank, bound := {}, {}, [], map[], 0;
    }

    ghost predicate Done(value: nat)
      reads this
    {
      value in g && (g[value].Leaf? || value in completedIds)
    }

    /** Enters a container or model that is not yet being walked. */
    ghost method Push(value: nat)
      requires Valid() && Next(g, stack, value) && value !in activePath
      modifies this`stack
      ensures stack == old(stack) + [value] && Path(g, stack)
      ensures Stack(g, stack, activePath + {value})
    {
      stack := stack + [value];
    }

    method AssertExactValue(value: nat) returns (ok: bool)
      requires Valid() && Next(g, stack, value)
      modifies this
      ensures Valid() && activePath == old(activePath) && stack == old(stack)
      ensures old(completedIds) <= completedIds
      ensures ok ==> Done(value)
      ensures !ok ==> Refusable(g, Base(stack, value), safe)
      decreases g.Keys - activePath, 1
    {
      hide Faulty, TooDeep;
      if |activePath| > safe {
        var gaveUp: bool := *;
        if gaveUp {
          StackIsDeep(g, stack, activePath, safe);
          return false;
        }
      }
      match g[value]
      case Leaf => return true;
      case Model(_, _, _) => ok := AssertExactModelState(value);
      case Container(_) => ok := AssertExactItems(value);
    }

    method AssertExactItems(value: nat) returns (ok: bool)
      requires Valid() && Next(g, stack, value) && g[value].Container?
      modifies this
      ensures Valid() && activePath == old(activePath) && stack == old(stack)
      ensures old(completedIds) <= completedIds
      ensures ok ==> Done(value)
      ensures !ok ==> Refusable(g, Base(stack, value), safe)
      decreases g.Keys - activePath, 0
    {
      hide Faulty, TooDeep;
      if value in activePath {
        BackEdgeIsFault(g, stack, activePath, value);
        return false;
      }
      if value in completedIds {
        return true;
      }
      ghost var outer := stack;
      var items := g[value].items;
      Push(value);
      activePath := activePath + {value};
      var k := 0;
      ok := true;
      while ok && k < |items|
        invariant 0 <= k <= |items| && value in activePath && activePath == old(activePath) + {value}
        invariant Valid() && stack == outer + [value] && old(completedIds) <= completedIds
        invariant ok ==> forall i :: 0 <= i < k ==> Done(items[i])
        invariant !ok ==> Refusable(g, Base(outer, value), safe)
      {
        assert Children(g[value])[k] in g;
        ok := AssertExactValue(items[k]);
        k := k + 1;
      }
      Leave(value, outer, old(activePath));
      if ok {
        Complete(value);
      }
    }

    method AssertExactModelState(value: nat) returns (ok: bool)
      requires Valid() && Next(g, stack, value) && g[value].Model?
      modifies this
      ensures Valid() && activePath == old(activePath) && stack == old(stack)
      ensures old(completedIds) <= completedIds
      ensures ok ==> Done(value)
      ensures !ok ==> Refusable(g, Base(stack, value), safe)
      decreases g.Keys - activePath, 0
    {
      hide Faulty, TooDeep;
      if value in activePath {
        BackEdgeIsFault(g, stack, activePath, value);
        return false;
      }
      if value in completedIds {
        return true;
      }
      ghost var outer := stack;
      var fields := g[value].fields;
      Push(value);
      activePath := activePath + {value};
      var k := 0;
      ok := g[value].stateOk;
      if !ok {
        LocalFault(g, stack, value);
      }
      while ok && k < |fields|
        invariant 0 <= k <= |fields| && value in activePath && activePath == old(activePath) + {value}
        invariant Valid() && stack == outer + [value] && old(completedIds) <= completedIds
        invariant ok ==> g[value].stateOk
        invariant ok ==> forall i :: 0 <= i < k ==> Done(fields[i]) && g[value].fieldOk[i]
        invariant !ok ==> Refusable(g, Base(outer, value), safe)
      {
        assert Children(g[value])[k] in g;
        ok := AssertExactValue(fields[k]);
        if ok && !g[value].fieldOk[k] {
          ok := false;
          LocalFault(g, stack, value);
        }
        k := k + 1;
      }
      Leave(value, outer, old(activePath));
      if ok {
        Complete(value);
      }
    }

    /** The finally clause: the object is no longer on the active path. */
    method Leave(value: nat, ghost outer: seq<nat>, ghost before: set<nat>)
      requires Valid() && stack == outer + [value] && activePath == before + {value} && value !in before
      requires Stack(g, outer, before)
      modifies this`activePath, this`stack
      ensures Valid() && stack == outer && activePath == before
    {
      activePath := activePath - {value};
      stack := outer;
      assert activePath == before;
    }

    /** Every part is done, so the object is. */
    method Complete(value: nat)
      requires Valid() && value in g && !g[value].Leaf? && LocallyOk(g[value])
      requires value !in completedIds && value !in activePath
      requires forall i :: 0 <= i < |Children(g[value])| ==> Done(Children(g[value])[i])
      modifies this`completedIds, this`rank, this`bound
      ensures Valid() && completedIds == old(completedIds) + {value}
    {
      completedIds := completedIds + {value};
      rank := rank[value := bound];
      bound := bound + 1;
    }
  }

  lemma {:induction false} Cardinality(s: seq<nat>, x: set<nat>)
    requires forall v :: v in x ==> v in s
    ensures |x| <= |s|
    decreases |s|
  {
    if s == [] {
      assert x == {};
    } else {
      var last := s[|s| - 1];
      Cardinality(s[..|s| - 1], x - {last});
      assert x <= (x - {last}) + {last};
    }
  }

  lemma StackIsDeep(g: Graph, stack: seq<nat>, active: set<nat>, safe: nat)
    requires Stack(g, stack, active) && |active| > safe
    ensures stack != [] && TooDeep(g, stack[0], safe)
  {
    Cardinality(stack, active);
  }

  lemma ReachesAlong(g: Graph, p: seq<nat>, k: nat)
    requires Path(g, p) && k < |p|
    ensures Reaches(g, p[0], p[k])
  {
    assert Path(g, p[..k + 1]);
  }

  lemma LocalFault(g: Graph, stack: seq<nat>, value: nat)
    requires stack != [] && Path(g, stack) && stack[|stack| - 1] == value && !LocallyOk(g[value])
    ensures Faulty(g, stack[0])
  {
    ReachesAlong(g, stack, |stack| - 1);
  }

  /** Meeting an object of the active path again closes a cycle reachable from the walk's start. */
  lemma BackEdgeIsFault(g: Graph, stack: seq<nat>, active: set<nat>, value: nat)
    requires Stack(g, stack, active) && Next(g, stack, value) && value in active
    ensures stack != [] && Faulty(g, stack[0])
  {
    var k :| 0 <= k < |stack| && stack[k] == value;
    var cycle := stack[k..] + [value];
    assert Path(g, cycle) && |cycle| >= 2;
    ReachesAlong(g, stack, k);
    assert OnCycle(g, value);
  }

  // What a finished walk means ----------------------------------------------

  lemma {:induction false} SettledPath(g: Graph, completed: set<nat>, rank: map<nat, nat>, p: seq<nat>, k: nat)
    requires Settled(g, completed, rank) && Path(g, p) && k < |p|
    requires g[p[0]].Leaf? || p[0] in completed
    ensures g[p[k]].Leaf? || p[k] in completed
    ensures k > 0 && p[k] in completed ==> p[0] in completed && p[k] in rank && p[0] in rank && rank[p[k]] < rank[p[0]]
    ensures k > 0 ==> !g[p[0]].Leaf?
  {
    if k > 0 {
      SettledPath(g, completed, rank, p, k - 1);
      assert p[k - 1 + 1] in Children(g[p[k - 1]]);
      var i :| 0 <= i < |Children(g[p[k - 1]])| && Children(g[p[k - 1]])[i] == p[k];
    }
  }

  lemma SettledIsFaultless(g: Graph, completed: set<nat>, rank: map<nat, nat>, root: nat)
    requires Closed(g) && Settled(g, completed, rank) && root in g && (g[root].Leaf? || root in completed)
    ensures !Faulty(g, root)
  {
    forall x | x in g && Reaches(g, root, x) ensures LocallyOk(g[x]) && !OnCycle(g, x) {
      var p :| Path(g, p) && p[0] == root && p[|p| - 1] == x;
      SettledPath(g, completed, rank, p, |p| - 1);
      forall c | Path(g, c) && |c| >= 2 && c[0] == x ensures c[|c| - 1] != x {
        SettledPath(g, completed, rank, c, |c| - 1);
      }
    }
  }

  /**
   The whole walk: it ends on every finite graph. What passes has no reachable cycle and passes its
   local check everywhere; and what is like that passes, unless it nests more than `safe` objects in
   one another. Sharing is no fault.
   */
  method AssertExact(g: Graph, root: nat, safe: nat) returns (ok: bool)
    requires Closed(g) && root in g
    ensures ok ==> !Faulty(g, root)
    ensures !Faulty(g, root) && !TooDeep(g, root, safe) ==> ok
  {
    var walk := new Walk(g, safe);
    ok := walk.AssertExactValue(root);
    if ok {
      SettledIsFaultless(g, walk.completedIds, walk.rank, root);
    }
  }

  lemma RepeatIsFault(g: Graph, p: seq<nat>, i: nat, j: nat)
    requires Path(g, p) && i < j < |p| && p[i] == p[j]
    ensures Faulty(g, p[0])
  {
    ReachesAlong(g, p, i);
    assert Path(g, p[i..j + 1]);
    assert OnCycle(g, p[i]);
  }

  /** An object graph of n objects without cycles never nests more than n of them. */
  lemma ShallowWhenSafe(g: Graph, root: nat, safe: nat)
    requires !Faulty(g, root) && |g.Keys| <= safe
    ensures !TooDeep(g, root, safe)
  {
    forall p | Path(g, p) && p[0] == root ensures |p| <= safe {
      forall i, j | 0 <= i < j < |p| ensures p[i] != p[j] {
        if p[i] == p[j] {
          RepeatIsFault(g, p, i, j);
        }
      }
      DistinctFit(p, g.Keys);
    }
  }

  lemma {:induction false} DistinctFit(p: seq<nat>, x: set<nat>)
    requires (forall i, j :: 0 <= i < j < |p| ==> p[i] != p[j]) && forall i :: 0 <= i < |p| ==> p[i] in x
    ensures |p| <= |x|
    decreases |p|
  {
    if p != [] {
      DistinctFit(p[..|p| - 1], x - {p[|p| - 1]});
    }
  }
}
