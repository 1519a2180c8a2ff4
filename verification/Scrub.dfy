/**
 Scrubbing of the mutable buffers discoverable in an arbitrary, possibly cyclic, graph of built-in
 containers. V1 knows lists, tuples, dicts and byte arrays; V2 also writes through memory views. The
 scrubber recurses, and the interpreter ends it, with part of the graph unscrubbed, when its calls
 nest deeper than the `limit` of frames there is room for below its first one.
 */
module Scrub {
  import opened Bytes

  datatype Kind = List | Tuple | Dict

  /** A list, tuple or dict; a dict's items are its keys and values alternating in order. */
  class Container {
    const kind: Kind
    var items: seq<Ref>

    constructor (kind: Kind, items: seq<Ref>)
      ensures this.kind == kind && this.items == items
    {
      this.kind := kind;
      this.items := items;
    }
  }

  /** A Python object as the scrubber tells them apart; identities distinguish equal views. */
  datatype Ref =
    | Buffer(a: array<byte>)
    | View(id: nat, base: array<byte>, lo: nat, hi: nat, writable: bool)
    | Node(n: Container)
    | Plain(id: nat)

  predicate WellFormed(r: Ref) {
    r.View? ==> r.lo <= r.hi <= r.base.Length
  }

  /** The containers' items at one moment; scrubbing never changes them. */
  type Graph = map<Container, seq<Ref>>

  ghost function Snapshot(universe: set<Ref>): Graph
    reads Containers(universe)
  {
    map n | n in Containers(universe) :: n.items
  }

  /** Every object the graph can lead to is in the universe. */
  ghost predicate Covers(g: Graph, universe: set<Ref>) {
    && (forall r :: r in universe ==> WellFormed(r))
    && (forall r :: r in universe && r.Node? ==> r.n in g)
    && forall n, i :: n in g && 0 <= i < |g[n]| ==> g[n][i] in universe
  }

  ghost function Arrays(universe: set<Ref>): set<array<byte>> {
    (set r | r in universe && r.Buffer? :: r.a) + (set r | r in universe && r.View? :: r.base)
  }

  ghost function Containers(universe: set<Ref>): set<Container> {
    set r | r in universe && r.Node? :: r.n
  }

  /** Octet i of array a is covered by a buffer, or by a writable contiguous view, in refs. */
  ghost predicate Covered(refs: set<Ref>, views: bool, a: array<byte>, i: int) {
    || Buffer(a) in refs
    || (views && exists r :: r in refs && r.View? && r.base == a && r.lo <= i < r.hi && r.writable)
  }

  /** What can be discovered from root through at most k containers. */
  ghost function Layer(g: Graph, universe: set<Ref>, root: Ref, k: nat): set<Ref> {
    if k == 0 then {root}
    else
      var inner := Layer(g, universe, root, k - 1);
      inner + set r | r in universe && exists p :: p in inner && p.Node? && p.n in g && r in g[p.n]
  }

  ghost predicate Discoverable(g: Graph, universe: set<Ref>, root: Ref, r: Ref) {
    exists k: nat :: r in Layer(g, universe, root, k)
  }

  ghost function Found(g: Graph, universe: set<Ref>, root: Ref): set<Ref> {
    set r | r in universe && Discoverable(g, universe, root, r)
  }

  /** Containers found since `before` have all their items found too. */
  ghost predicate ItemsFound(g: Graph, before: set<Ref>, refs: set<Ref>) {
    forall r, i :: r in refs - before && r.Node? && r.n in g && 0 <= i < |g[r.n]| ==> g[r.n][i] in refs
  }

  lemma FoundIsClosed(g: Graph, universe: set<Ref>, root: Ref)
    requires Covers(g, universe) && root in universe
    ensures root in Found(g, universe, root) && ItemsFound(g, {}, Found(g, universe, root))
  {
    var reach := Found(g, universe, root);
    assert root in Layer(g, universe, root, 0);
    forall r, i | r in reach - {} && r.Node? && r.n in g && 0 <= i < |g[r.n]| ensures g[r.n][i] in reach {
      var k: nat :| r in Layer(g, universe, root, k);
      assert g[r.n][i] in Layer(g, universe, root, k + 1);
    }
  }

  /** A set that holds root and everything its containers hold has everything discoverable. */
  lemma {:induction false} LayerWithin(g: Graph, universe: set<Ref>, root: Ref, refs: set<Ref>, k: nat)
    requires root in refs && ItemsFound(g, {}, refs)
    ensures Layer(g, universe, root, k) <= refs
  {
    if k > 0 {
      LayerWithin(g, universe, root, refs, k - 1);
      forall r | r in Layer(g, universe, root, k) ensures r in refs {
        if r !in Layer(g, universe, root, k - 1) {
          var p :| p in Layer(g, universe, root, k - 1) && p.Node? && p.n in g && r in g[p.n];
          assert p in refs - {};
        }
      }
    }
  }

  lemma FoundIsLeast(g: Graph, universe: set<Ref>, root: Ref, refs: set<Ref>)
    requires root in refs && ItemsFound(g, {}, refs)
    ensures Found(g, universe, root) <= refs
  {
    forall r | r in Found(g, universe, root) ensures r in refs {
      var k: nat :| r in Layer(g, universe, root, k);
      LayerWithin(g, universe, root, refs, k);
    }
  }

  method ZeroRange(a: array<byte>, lo: nat, hi: nat)
    requires lo <= hi <= a.Length
    modifies a
    ensures forall i :: 0 <= i < a.Length ==> a[i] == if lo <= i < hi then 0 else old(a[i])
  {
    for i := lo to hi
      invariant forall j :: 0 <= j < a.Length ==> a[j] == if lo <= j < i then 0 else old(a[j])
    {
      a[i] := 0;
    }
  }

  /** The identities already visited by one scrub. */
  class Seen {
    var refs: set<Ref>

    constructor ()
      ensures refs == {}
    {
      refs := {};
    }
  }

  /** Distinct containers from root on, each an item of the one before. */
  ghost predicate Nested(g: Graph, root: Ref, chain: seq<Container>) {
    && (forall i, j :: 0 <= i < j < |chain| ==> chain[i] != chain[j])
    && (forall i :: 0 <= i < |chain| ==> chain[i] in g)
    && (chain != [] ==> root == Node(chain[0]))
    && forall i :: 0 <= i < |chain| - 1 ==> Node(chain[i + 1]) in g[chain[i]]
  }

  /** What the scrub meets next: root itself, or an item of the innermost container it is in. */
  ghost predicate Meets(g: Graph, root: Ref, chain: seq<Container>, value: Ref) {
    && Nested(g, root, chain)
    && if chain == [] then value == root else value in g[chain[|chain| - 1]]
  }

  lemma OneDeeper(g: Graph, root: Ref, chain: seq<Container>, n: Container)
    requires Meets(g, root, chain, Node(n)) && n in g && n !in chain
    ensures Nested(g, root, chain + [n])
    ensures forall r :: r in g[n] ==> Meets(g, root, chain + [n], r)
  {
  }

  lemma NestHasContainer(g: Graph, root: Ref, chain: seq<Container>)
    requires Nested(g, root, chain) && |chain| > 1
    ensures root == Node(chain[0]) && chain[0] in g && Node(chain[1]) in g[chain[0]]
  {
    assert Node(chain[0 + 1]) in g[chain[0]];
  }

  lemma CoveredByEither(x: set<Ref>, y: set<Ref>, views: bool)
    ensures forall a, i :: Covered(x + y, views, a, i) <==> Covered(x, views, a, i) || Covered(y, views, a, i)
  {
  }

  /** Zeroes what one object covers by itself; a container covers nothing by itself. */
  method ZeroOne(views: bool, value: Ref, ghost universe: set<Ref>)
    requires value in universe && forall r :: r in universe ==> WellFormed(r)
    modifies Arrays(universe)
    ensures forall a, i :: a in Arrays(universe) && 0 <= i < a.Length ==>
        a[i] == if Covered({value}, views, a, i) then 0 else old(a[i])
  {
    match value
    case Buffer(a) => ZeroRange(a, 0, a.Length);
    case View(_, base, lo, hi, writable) =>
      if views && writable {
        ZeroRange(base, lo, hi);
      }
    case Plain(_) =>
    case Node(_) =>
  }

  /** Frames that scrubbing an object takes beyond its own: the loop over a byte array is a call. */
  function Frames(r: Ref): nat { if r.Buffer? then 1 else 0 }

  /** However a container is reached, it lies equally deep: so in every graph without sharing. */
  ghost predicate Levelled(g: Graph, level: map<Ref, nat>) {
    forall n, i :: n in g && 0 <= i < |g[n]| ==>
      Node(n) in level && g[n][i] in level && level[g[n][i]] == level[Node(n)] + 1
  }

  ghost predicate Lies(g: Graph, level: map<Ref, nat>, r: Ref, depth: nat) {
    Levelled(g, level) ==> r in level && level[r] == depth
  }

  /** There is room for scrubbing each of these. */
  ghost predicate Fits(level: map<Ref, nat>, refs: set<Ref>, limit: nat) {
    forall r :: r in refs ==> r in level && level[r] + Frames(r) <= limit
  }

  /** Where a scrub ended early: at this object, inside these containers, there was no room for it. */
  ghost predicate NoRoom(g: Graph, root: Ref, nest: seq<Container>, missed: Ref, limit: nat) {
    Meets(g, root, nest, missed) && |nest| + Frames(missed) > limit
  }

  /**
   One recursive scrub: zeroes what it newly covers, writes nothing else, and leaves no item behind,
   unless the interpreter ends it.
   */
  method Visit(
      views: bool, value: Ref, seen: Seen, limit: nat, depth: nat, ghost root: Ref, ghost chain: seq<Container>,
      ghost g: Graph, ghost universe: set<Ref>, ghost reach: set<Ref>, ghost level: map<Ref, nat>)
    returns (done: bool, ghost nest: seq<Container>, ghost missed: Ref)
    requires Covers(g, universe) && g == Snapshot(universe)
    requires value in reach && reach <= universe && ItemsFound(g, {}, reach) && seen.refs <= reach
    requires depth == |chain| && Meets(g, root, chain, value) && forall n :: n in chain ==> Node(n) in seen.refs
    requires Lies(g, level, value, depth)
    modifies seen, Arrays(universe)
    ensures old(seen.refs) <= seen.refs <= reach
    ensures done ==> value in seen.refs && ItemsFound(g, old(seen.refs), seen.refs)
    ensures !done ==> NoRoom(g, root, nest, missed, limit) && missed in reach && Lies(g, level, missed, |nest|)
    ensures Levelled(g, level) ==> Fits(level, seen.refs - old(seen.refs), limit)
    ensures forall a, i :: a in Arrays(universe) && 0 <= i < a.Length ==>
        a[i] == if Covered(seen.refs - old(seen.refs), views, a, i) then 0 else old(a[i])
    decreases universe - seen.refs, 0
  {
    NothingCovered(views);
    hide Nested, Covered;
    done, nest, missed := true, chain, value;
    assert seen.refs - old(seen.refs) == {};
    if depth > limit {
      return false, nest, missed;
    }
    if value in seen.refs {
      return;
    }
    if value.Buffer? && depth + 1 > limit {
      return false, nest, missed;
    }
    ghost var before := seen.refs;
    seen.refs := seen.refs + {value};
    assert seen.refs - before == {value};
    ZeroOne(views, value, universe);
    if value.Node? {
      OneDeeper(g, root, chain, value.n);
      assert value in reach - {};
      done, nest, missed := VisitItems(
        views, value.n, seen, limit, depth + 1, root, chain + [value.n], g, universe, reach, level);
      CoveredByEither({value}, seen.refs - (before + {value}), views);
      assert {value} + (seen.refs - (before + {value})) == seen.refs - before;
    }
  }

  /** The items of a container in order. */
  method VisitItems(
      views: bool, n: Container, seen: Seen, limit: nat, depth: nat, ghost root: Ref, ghost chain: seq<Container>,
      ghost g: Graph, ghost universe: set<Ref>, ghost reach: set<Ref>, ghost level: map<Ref, nat>)
    returns (done: bool, ghost nest: seq<Container>, ghost missed: Ref)
    requires Covers(g, universe) && g == Snapshot(universe)
    requires reach <= universe && ItemsFound(g, {}, reach) && seen.refs <= reach
    requires n in g && n.items == g[n] && forall r :: r in g[n] ==> r in reach && Meets(g, root, chain, r)
    requires depth == |chain| && forall m :: m in chain ==> Node(m) in seen.refs
    requires forall r :: r in g[n] ==> Lies(g, level, r, depth)
    modifies seen, Arrays(universe)
    ensures old(seen.refs) <= seen.refs <= reach
    ensures done ==> (forall r :: r in g[n] ==> r in seen.refs) && ItemsFound(g, old(seen.refs), seen.refs)
    ensures !done ==> NoRoom(g, root, nest, missed, limit) && missed in reach && Lies(g, level, missed, |nest|)
    ensures Levelled(g, level) ==> Fits(level, seen.refs - old(seen.refs), limit)
    ensures forall a, i :: a in Arrays(universe) && 0 <= i < a.Length ==>
        a[i] == if Covered(seen.refs - old(seen.refs), views, a, i) then 0 else old(a[i])
    decreases universe - seen.refs, 1
  {
    ghost var before := seen.refs;
    NothingCovered(views);
    hide Nested, Meets, Covered, Levelled, Lies, NoRoom;
    assert seen.refs - before == {};
    done, nest, missed := true, chain, Node(n);
    var k := 0;
    while k < |n.items|
      invariant 0 <= k <= |n.items| && n.items == g[n]
      invariant done && before <= seen.refs <= reach
      invariant forall i :: 0 <= i < k ==> n.items[i] in seen.refs
      invariant ItemsFound(g, before, seen.refs)
      invariant Levelled(g, level) ==> Fits(level, seen.refs - before, limit)
      invariant forall a, i :: a in Arrays(universe) && 0 <= i < a.Length ==>
          a[i] == if Covered(seen.refs - before, views, a, i) then 0 else old(a[i])
    {
      ghost var previous := seen.refs;
      done, nest, missed := Visit(views, n.items[k], seen, limit, depth, root, chain, g, universe, reach, level);
      CoveredByEither(previous - before, seen.refs - previous, views);
      assert seen.refs - before == (previous - before) + (seen.refs - previous);
      if !done {
        return;
      }
      k := k + 1;
    }
  }

  lemma NothingCovered(views: bool)
    ensures forall a, i :: !Covered({}, views, a, i)
  {
  }

  /** Octet i of a lies in a buffer, or in a writable view, discoverable from root. */
  ghost predicate Exposed(universe: set<Ref>, root: Ref, views: bool, a: array<byte>, i: int)
    reads Containers(universe)
  {
    Covered(Found(Snapshot(universe), universe, root), views, a, i)
  }

  /**
   Scrubs everything discoverable from value and nothing else: afterwards an octet is zero when it is
   exposed and what it was otherwise. It ends early only where there is no room for the next call, and
   also then changes no octet but to zero and only exposed ones. On a graph without sharing it ends
   early exactly when some discoverable object lies too deep, and then leaves alone what does.
   */
  method ZeroizeDiscoverableBuffers(
      views: bool, value: Ref, limit: nat, ghost universe: set<Ref>, ghost level: map<Ref, nat> := map[])
    returns (done: bool, ghost nest: seq<Container>)
    requires Covers(Snapshot(universe), universe) && value in universe
    modifies Arrays(universe)
    ensures done ==> forall a, i :: a in Arrays(universe) && 0 <= i < a.Length ==>
        a[i] == if Exposed(universe, value, views, a, i) then 0 else old(a[i])
    ensures !done ==> |nest| >= limit && Nested(Snapshot(universe), value, nest)
    ensures forall a, i :: a in Arrays(universe) && 0 <= i < a.Length ==>
        a[i] == old(a[i]) || (a[i] == 0 && Exposed(universe, value, views, a, i))
    ensures Levelled(Snapshot(universe), level) && value in level && level[value] == 0 ==>
        (done <==> Fits(level, Found(Snapshot(universe), universe, value), limit))
    ensures Levelled(Snapshot(universe), level) && value in level && level[value] == 0 ==>
        forall a, i ::
          a in Arrays(universe) && 0 <= i < a.Length && !Covered(Roomy(universe, level, limit), views, a, i)
          ==> a[i] == old(a[i])
  {
    ghost var g := Snapshot(universe);
    ghost var reach := Found(g, universe, value);
    FoundIsClosed(g, universe, value);
    var seen := new Seen();
    ghost var missed;
    ghost var levels := if Levelled(g, level) && value in level && level[value] == 0 then level else map[value := 0];
    done, nest, missed := Visit(views, value, seen, limit, 0, value, [], g, universe, reach, levels);
    if done {
      FoundIsLeast(g, universe, value, seen.refs);
      assert seen.refs - {} == reach;
    }
    assert seen.refs - {} == seen.refs;
    assert Snapshot(universe) == g;
  }

  /** The objects of a universe that lie no deeper than there is room for. */
  ghost function Roomy(universe: set<Ref>, level: map<Ref, nat>, limit: nat): set<Ref> {
    set r | r in universe && r in level && level[r] + Frames(r) <= limit
  }

  predicate IsTuple(r: Ref) {
    r.Node? && r.n.kind == Tuple
  }

  /** The octets of a sequence of byte arrays; None when some item is anything else. */
  function Contents(items: seq<Ref>): (c: Option<seq<bytes>>)
    reads set r | r in items && r.Buffer? :: r.a
    ensures c.Some? <==> forall r :: r in items ==> r.Buffer?
  {
    if items == [] then Some([])
    else if !items[0].Buffer? then None
    else
      match Contents(items[1..])
      case None => None
      case Some(rest) => Some([items[0].a[..]] + rest)
  }

  /** A tuple of byte arrays nests no other container. */
  lemma FlatTuple(universe: set<Ref>, n: Container, nest: seq<Container>)
    requires Nested(Snapshot(universe), Node(n), nest) && Contents(n.items).Some? && Node(n) in universe
    ensures |nest| <= 1
  {
    hide Nested;
    if |nest| > 1 {
      NestHasContainer(Snapshot(universe), Node(n), nest);
    }
  }
}
