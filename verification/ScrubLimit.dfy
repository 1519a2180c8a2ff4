/** Every graph without sharing has levels, and for every limit there is a nest the scrubber cannot finish. */
module ScrubLimit {
  import opened Bytes
  import opened Scrub

  /** Nothing is held twice, and root not at all: a tree, as far as it can be discovered. */
  ghost predicate Unshared(g: Graph, root: Ref) {
    && (forall n, i, m, j :: n in g && 0 <= i < |g[n]| && m in g && 0 <= j < |g[m]| && g[n][i] == g[m][j] ==> n == m)
    && forall n :: n in g ==> root !in g[n]
  }

  /** The first layer that has r, at most k. */
  ghost function First(g: Graph, universe: set<Ref>, root: Ref, r: Ref, k: nat): (l: nat)
    requires r in Layer(g, universe, root, k)
    ensures r in Layer(g, universe, root, l) && (l > 0 ==> r !in Layer(g, universe, root, l - 1))
  {
    hide Layer;
    if k > 0 && r in Layer(g, universe, root, k - 1) then First(g, universe, root, r, k - 1) else k
  }

  ghost function Depth(g: Graph, universe: set<Ref>, root: Ref, r: Ref): (l: nat)
    requires Discoverable(g, universe, root, r)
    ensures r in Layer(g, universe, root, l) && (l > 0 ==> r !in Layer(g, universe, root, l - 1))
  {
    hide Layer;
    var k: nat :| r in Layer(g, universe, root, k);
    First(g, universe, root, r, k)
  }

  lemma {:induction false} LayersGrow(g: Graph, universe: set<Ref>, root: Ref, j: nat, k: nat)
    requires j <= k
    ensures Layer(g, universe, root, j) <= Layer(g, universe, root, k)
  {
    if j < k {
      LayersGrow(g, universe, root, j, k - 1);
    }
  }

  lemma DepthOfRoot(g: Graph, universe: set<Ref>, root: Ref, r: Ref)
    requires Discoverable(g, universe, root, r)
    ensures Depth(g, universe, root, r) == 0 <==> r == root
  {
    var d := Depth(g, universe, root, r);
    if r == root && d > 0 {
      LayersGrow(g, universe, root, 0, d - 1);
    }
  }

  lemma NextLayer(g: Graph, universe: set<Ref>, root: Ref, n: Container, r: Ref, k: nat)
    requires n in g && r in g[n] && r in universe && Node(n) in Layer(g, universe, root, k)
    ensures r in Layer(g, universe, root, k + 1)
  {
  }

  lemma HeldByLastLayer(g: Graph, universe: set<Ref>, root: Ref, r: Ref, k: nat) returns (n: Container)
    requires r in Layer(g, universe, root, k + 1) && r !in Layer(g, universe, root, k)
    ensures n in g && r in g[n] && Node(n) in Layer(g, universe, root, k)
  {
    var p :| p in Layer(g, universe, root, k) && p.Node? && p.n in g && r in g[p.n];
    n := p.n;
  }

  lemma ItemIsOneDeeper(g: Graph, universe: set<Ref>, root: Ref, n: Container, i: nat)
    requires Covers(g, universe) && Unshared(g, root) && n in g && i < |g[n]|
    requires Discoverable(g, universe, root, Node(n)) && Discoverable(g, universe, root, g[n][i])
    ensures Depth(g, universe, root, g[n][i]) == Depth(g, universe, root, Node(n)) + 1
  {
    hide Layer, Depth;
    var r, d := g[n][i], Depth(g, universe, root, Node(n));
    var e := Depth(g, universe, root, r);
    NextLayer(g, universe, root, n, r, d);
    DepthOfRoot(g, universe, root, r);
    var m := HeldByLastLayer(g, universe, root, r, e - 1);
    assert m == n;
    if e > d + 1 {
      LayersGrow(g, universe, root, d + 1, e - 1);
    } else if e < d + 1 {
      LayersGrow(g, universe, root, e - 1, d - 1);
    }
  }

  /** Every graph without sharing is levelled, with root at level 0. */
  lemma UnsharedIsLevelled(g: Graph, universe: set<Ref>, root: Ref) returns (level: map<Ref, nat>)
    requires Covers(g, universe) && root in universe && g.Keys == Containers(universe)
    requires Found(g, universe, root) == universe && Unshared(g, root)
    ensures level.Keys == universe && Levelled(g, level) && level[root] == 0
  {
    level := map r | r in universe :: Depth(g, universe, root, r);
    forall n, i | n in g && 0 <= i < |g[n]|
      ensures Node(n) in level && g[n][i] in level && level[g[n][i]] == level[Node(n)] + 1
    {
      ItemIsOneDeeper(g, universe, root, n, i);
    }
    DepthOfRoot(g, universe, root, root);
  }

  /** What is discoverable from an item is discoverable from the container that holds it. */
  lemma FoundThroughContainer(g: Graph, universe: set<Ref>, root: Ref, n: Container, h: Graph, wider: set<Ref>)
    requires Covers(g, universe) && root in universe && n !in g
    requires h == g[n := [root]] && wider == universe + {Node(n)} && Covers(h, wider)
    ensures Found(g, universe, root) <= Found(h, wider, Node(n))
  {
    var found := Found(h, wider, Node(n));
    FoundIsClosed(h, wider, Node(n));
    assert Node(n) in found - {} && h[n][0] == root;
    forall r, i | r in found - {} && r.Node? && r.n in g && 0 <= i < |g[r.n]| ensures g[r.n][i] in found {
      assert r.n in h && h[r.n] == g[r.n];
    }
    FoundIsLeast(g, universe, root, found);
  }

  /** A fresh graph around b, its objects numbered by how deep they lie below root, b's array at depth k. */
  ghost predicate NestOf(root: Ref, universe: set<Ref>, g: Graph, level: map<Ref, nat>, b: array<byte>, k: nat) {
    && root in universe && Covers(g, universe) && g.Keys == Containers(universe)
    && level.Keys == universe && Levelled(g, level) && level[root] == 0
    && Buffer(b) in Found(g, universe, root) && level[Buffer(b)] == k
    && forall r :: r in universe ==> r == Buffer(b) || (r.Node? && level[r] < k)
  }

  ghost function Lowered(level: map<Ref, nat>, root: Ref): map<Ref, nat> {
    map r | r in level.Keys + {root} :: if r == root then 0 else level[r] + 1
  }

  lemma NestInside(
      root: Ref, universe: set<Ref>, g: Graph, level: map<Ref, nat>, b: array<byte>, k: nat, n: Container)
    requires NestOf(root, universe, g, level, b, k) && Node(n) !in universe
    ensures NestOf(Node(n), universe + {Node(n)}, g[n := [root]], Lowered(level, Node(n)), b, k + 1)
  {
    var wider, h, lower := universe + {Node(n)}, g[n := [root]], Lowered(level, Node(n));
    assert n !in g;
    assert Covers(h, wider) by { hide Found; }
    FoundThroughContainer(g, universe, root, n, h, wider);
    hide Found, Covers;
    assert h.Keys == Containers(wider);
    assert lower.Keys == wider;
  }

  lemma BareNest(b: array<byte>)
    ensures NestOf(Buffer(b), {Buffer(b)}, map[], map[Buffer(b) := 0], b, 0)
  {
    FoundIsClosed(map[], {Buffer(b)}, Buffer(b));
  }

  /** A byte array inside k lists inside one another. */
  method BuildNest(k: nat, b: array<byte>) returns (root: Ref, ghost universe: set<Ref>, ghost level: map<Ref, nat>)
    ensures NestOf(root, universe, Snapshot(universe), level, b, k)
    ensures forall r :: r in universe && r.Node? ==> fresh(r.n)
  {
    root, universe, level := Buffer(b), {Buffer(b)}, map[Buffer(b) := 0];
    BareNest(b);
    assert Snapshot(universe) == map[];
    hide NestOf;
    for j := 0 to k
      invariant NestOf(root, universe, Snapshot(universe), level, b, j)
      invariant forall r :: r in universe && r.Node? ==> fresh(r.n)
    {
      var n := new Container(List, [root]);
      ghost var g := Snapshot(universe);
      NestInside(root, universe, g, level, b, j, n);
      assert Snapshot(universe + {Node(n)}) == g[n := [root]];
      root, universe, level := Node(n), universe + {Node(n)}, Lowered(level, Node(n));
    }
  }

  lemma NestHasOneArray(root: Ref, universe: set<Ref>, g: Graph, level: map<Ref, nat>, b: array<byte>, k: nat)
    requires NestOf(root, universe, g, level, b, k)
    ensures Arrays(universe) == {b} && Buffer(b) in universe
  {
    hide Covers, Levelled;
  }

  /** Just past the limit the scrub ends early and the array keeps its octets. */
  method NestPastTheLimit(limit: nat, b: array<byte>, views: bool) returns (done: bool)
    modifies b
    ensures !done && forall i :: 0 <= i < b.Length ==> b[i] == old(b[i])
  {
    var root, universe, level := BuildNest(limit, b);
    NestHasOneArray(root, universe, Snapshot(universe), level, b, limit);
    ghost var nest;
    done, nest := ZeroizeDiscoverableBuffers(views, root, limit, universe, level);
    assert Buffer(b) in Found(Snapshot(universe), universe, root) && level[Buffer(b)] + Frames(Buffer(b)) > limit;
    forall i | 0 <= i < b.Length ensures b[i] == old(b[i]) {
      assert Buffer(b) in universe && b in Arrays(universe);
      assert !Covered(Roomy(universe, level, limit), views, b, i);
    }
  }

  /** One list fewer and it is scrubbed. */
  method NestWithinTheLimit(limit: nat, b: array<byte>, views: bool) returns (done: bool)
    requires limit >= 1
    modifies b
    ensures done && forall i :: 0 <= i < b.Length ==> b[i] == 0
  {
    var root, universe, level := BuildNest(limit - 1, b);
    NestHasOneArray(root, universe, Snapshot(universe), level, b, limit - 1);
    ghost var nest;
    done, nest := ZeroizeDiscoverableBuffers(views, root, limit, universe, level);
    assert Fits(level, Found(Snapshot(universe), universe, root), limit);
    forall i | 0 <= i < b.Length ensures b[i] == 0 {
      assert Buffer(b) in universe && b in Arrays(universe) && Exposed(universe, root, views, b, i);
    }
  }
}
