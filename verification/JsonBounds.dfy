/**
 The two walks over an already parsed JSON tree that enforce limits of their own, and what the
 scanner's verdict on the text says about them.
 */
module JsonBounds {
  import opened Bytes
  import Scanner
  import opened JsonGrammar

  /** A parsed tree as the walks see it; every field of a dict has one string key. */
  datatype Tree = Leaf | Items(children: seq<Tree>) | Fields(children: seq<Tree>)

  function Parsed(v: Value): Tree {
    match v
    case Scalar(_) => Leaf
    case Text(_) => Leaf
    case Array(_, elements) => Items(ParsedElements(elements))
    case Object(_, members) => Fields(ParsedMembers(members))
  }

  function ParsedElements(elements: seq<Element>): seq<Tree> {
    if elements == [] then [] else [Parsed(elements[0].value)] + ParsedElements(elements[1..])
  }

  function ParsedMembers(members: seq<Member>): seq<Tree> {
    if members == [] then [] else [Parsed(members[0].element.value)] + ParsedMembers(members[1..])
  }

  /** How far below a tree its deepest value lies. */
  function Height(t: Tree): nat {
    if t.Leaf? || t.children == [] then 0 else 1 + MaxHeight(t.children)
  }

  function MaxHeight(ts: seq<Tree>): nat {
    if ts == [] then 0 else Max(Height(ts[0]), MaxHeight(ts[1..]))
  }

  /** Values alone, and values together with keys. */
  function Values(t: Tree): nat {
    if t.Leaf? then 1 else 1 + SumValues(t.children)
  }

  function SumValues(ts: seq<Tree>): nat {
    if ts == [] then 0 else Values(ts[0]) + SumValues(ts[1..])
  }

  function ValuesAndKeys(t: Tree): nat {
    match t
    case Leaf => 1
    case Items(children) => 1 + SumValuesAndKeys(children)
    case Fields(children) => 1 + |children| + SumValuesAndKeys(children)
  }

  function SumValuesAndKeys(ts: seq<Tree>): nat {
    if ts == [] then 0 else ValuesAndKeys(ts[0]) + SumValuesAndKeys(ts[1..])
  }

  /** The count shared by all the recursive calls of one walk. */
  class Counter {
    var nodes: nat

    constructor ()
      ensures nodes == 0
    {
      nodes := 0;
    }
  }

  lemma TakeOneMore(ts: seq<Tree>, k: nat)
    requires k < |ts|
    ensures MaxHeight(ts[..k + 1]) == Max(MaxHeight(ts[..k]), Height(ts[k]))
    ensures SumValues(ts[..k + 1]) == SumValues(ts[..k]) + Values(ts[k])
    ensures SumValuesAndKeys(ts[..k + 1]) == SumValuesAndKeys(ts[..k]) + ValuesAndKeys(ts[k])
  {
    if k > 0 {
      TakeOneMore(ts[1..], k - 1);
      assert ts[..k + 1][1..] == ts[1..][..k] && ts[..k][1..] == ts[1..][..k - 1];
    } else {
      assert ts[..1][1..] == [] && ts[..0] == [];
    }
  }

  lemma PrefixIsNoLarger(ts: seq<Tree>, k: nat)
    requires k <= |ts|
    ensures MaxHeight(ts[..k]) <= MaxHeight(ts)
    ensures SumValues(ts[..k]) <= SumValues(ts)
    ensures SumValuesAndKeys(ts[..k]) <= SumValuesAndKeys(ts)
    decreases |ts| - k
  {
    hide MaxHeight, SumValues, SumValuesAndKeys;
    if k < |ts| {
      PrefixIsNoLarger(ts, k + 1);
      TakeOneMore(ts, k);
    } else {
      assert ts[..k] == ts;
    }
  }

  /** The V4 walk that turns arrays into tuples: it counts values, not keys, from depth 0. */
  method JsonArraysAsTuples(t: Tree, depth: nat, counter: Counter) returns (ok: bool)
    requires depth <= Scanner.MAX_DEPTH + 1 && counter.nodes <= Scanner.MAX_NODES
    modifies counter
    ensures ok <==> depth + Height(t) <= Scanner.MAX_DEPTH
                    && old(counter.nodes) + Values(t) <= Scanner.MAX_NODES
    ensures ok ==> counter.nodes == old(counter.nodes) + Values(t)
    decreases t
  {
    if depth > Scanner.MAX_DEPTH {
      return false;
    }
    counter.nodes := counter.nodes + 1;
    if counter.nodes > Scanner.MAX_NODES {
      return false;
    }
    if t.Leaf? {
      return true;
    }
    var k := 0;
    while k < |t.children|
      invariant 0 <= k <= |t.children|
      invariant k > 0 ==> depth + 1 + MaxHeight(t.children[..k]) <= Scanner.MAX_DEPTH
      invariant counter.nodes == old(counter.nodes) + 1 + SumValues(t.children[..k]) <= Scanner.MAX_NODES
    {
      TakeOneMore(t.children, k);
      PrefixIsNoLarger(t.children, k + 1);
      var child := JsonArraysAsTuples(t.children[k], depth + 1, counter);
      if !child {
        return false;
      }
      k := k + 1;
    }
    assert t.children[..k] == t.children;
    return true;
  }

  const V5_MAX_DEPTH := 24
  const V5_MAX_NODES := 4096

  /** The V5 walk: it counts keys as well, from depth 1. */
  method ValidateTreeBounds(t: Tree, depth: nat, counter: Counter) returns (ok: bool)
    requires 1 <= depth <= V5_MAX_DEPTH + 1 && counter.nodes <= V5_MAX_NODES
    modifies counter
    ensures ok <==> depth + Height(t) <= V5_MAX_DEPTH
                    && old(counter.nodes) + ValuesAndKeys(t) <= V5_MAX_NODES
    ensures ok ==> counter.nodes == old(counter.nodes) + ValuesAndKeys(t)
    decreases t
  {
    if depth > V5_MAX_DEPTH {
      return false;
    }
    counter.nodes := counter.nodes + 1;
    if counter.nodes > V5_MAX_NODES {
      return false;
    }
    if t.Leaf? {
      return true;
    }
    NothingSummed(t);
    hide MaxHeight, SumValuesAndKeys, ValuesAndKeys, Height, Parsed;
    var k := 0;
    while k < |t.children|
      invariant 0 <= k <= |t.children|
      invariant k > 0 ==> depth + 1 + MaxHeight(t.children[..k]) <= V5_MAX_DEPTH
      invariant counter.nodes
             == old(counter.nodes) + 1 + (if t.Fields? then k else 0) + SumValuesAndKeys(t.children[..k])
      invariant counter.nodes <= V5_MAX_NODES
    {
      TakeOneMore(t.children, k);
      PrefixIsNoLarger(t.children, k + 1);
      SomethingLeft(t.children, k);
      if t.Fields? {
        counter.nodes := counter.nodes + 1;
        if counter.nodes > V5_MAX_NODES {
          return false;
        }
      }
      var child := ValidateTreeBounds(t.children[k], depth + 1, counter);
      if !child {
        return false;
      }
      k := k + 1;
    }
    assert t.children[..k] == t.children;
    return true;
  }

  lemma NothingSummed(t: Tree)
    requires !t.Leaf?
    ensures SumValuesAndKeys(t.children[..0]) == 0 && MaxHeight(t.children[..0]) == 0
    ensures Height(t) == if t.children == [] then 0 else 1 + MaxHeight(t.children)
    ensures ValuesAndKeys(t) == 1 + (if t.Fields? then |t.children| else 0) + SumValuesAndKeys(t.children)
  {
  }

  lemma SomethingLeft(ts: seq<Tree>, k: nat)
    requires k < |ts|
    ensures SumValuesAndKeys(ts[..k]) + ValuesAndKeys(ts[k]) <= SumValuesAndKeys(ts)
    ensures ValuesAndKeys(ts[k]) >= 1
  {
    TakeOneMore(ts, k);
    PrefixIsNoLarger(ts, k + 1);
  }

  /** The scanner counts on the text exactly what the V5 walk counts on the tree, and bounds its height. */
  lemma {:induction false} SizesAgree(v: Value)
    ensures Units(v) == ValuesAndKeys(Parsed(v))
    ensures Height(Parsed(v)) <= Nesting(v) <= Height(Parsed(v)) + 1
    ensures Values(Parsed(v)) <= Units(v)
    decreases v
  {
    match v
    case Scalar(_) =>
    case Text(_) =>
    case Array(_, elements) => ElementSizesAgree(elements);
    case Object(_, members) => MemberSizesAgree(members);
  }

  lemma {:induction false} ElementSizesAgree(elements: seq<Element>)
    ensures ElementsUnits(elements) == SumValuesAndKeys(ParsedElements(elements))
    ensures SumValues(ParsedElements(elements)) <= ElementsUnits(elements)
    ensures MaxHeight(ParsedElements(elements)) <= ElementsNesting(elements) <= MaxHeight(ParsedElements(elements)) + 1
    ensures |ParsedElements(elements)| == |elements|
    decreases elements
  {
    if elements != [] {
      SizesAgree(elements[0].value);
      ElementSizesAgree(elements[1..]);
      assert ParsedElements(elements)[1..] == ParsedElements(elements[1..]);
    }
  }

  lemma {:induction false} MemberSizesAgree(members: seq<Member>)
    ensures MembersUnits(members) == |members| + SumValuesAndKeys(ParsedMembers(members))
    ensures SumValues(ParsedMembers(members)) <= MembersUnits(members)
    ensures MaxHeight(ParsedMembers(members)) <= MembersNesting(members) <= MaxHeight(ParsedMembers(members)) + 1
    ensures |ParsedMembers(members)| == |members|
    decreases members
  {
    if members != [] {
      SizesAgree(members[0].element.value);
      MemberSizesAgree(members[1..]);
      assert ParsedMembers(members)[1..] == ParsedMembers(members[1..]);
    }
  }

  /**
   The scanner's promise: on the tree of any text it accepts, the tuple walk started at depth 0 with a
   fresh count meets neither of its own limits.
   */
  lemma AcceptedTextNeverHitsTreeBounds(e: Element)
    requires ElementOk(e) && Scanner.Accepts(RenderElement(e))
    ensures Height(Parsed(e.value)) <= Scanner.MAX_DEPTH
    ensures Values(Parsed(e.value)) <= ValuesAndKeys(Parsed(e.value)) <= Scanner.MAX_NODES
  {
    ScannerDecidesSize(e);
    SizesAgree(e.value);
  }
}
