/** The structural scanner run on canonical texts: the printer's output is one of the grammar's texts. */
module CanonicalScan {
  import opened Bytes
  import Scanner
  import opened CanonicalJson
  import G = JsonGrammar
  import JsonBounds

  /** The grammar tree of a canonical text: no whitespace anywhere. */
  function ToGrammar(v: Json): G.Value {
    match v
    case Null => G.Scalar(Text(v))
    case Bool(_) => G.Scalar(Text(v))
    case Int(_) => G.Scalar(Text(v))
    case Str(s) => G.Text(Body(s))
    case List(items) => G.Array([], Elements(items))
    case Dict(fields) => G.Object([], Members(fields))
  }

  function Elements(items: seq<Json>): seq<G.Element> {
    if items == [] then [] else [G.Element([], ToGrammar(items[0]), [])] + Elements(items[1..])
  }

  function Members(fields: seq<Field>): seq<G.Member> {
    if fields == [] then []
    else [G.Member([], Body(fields[0].key), [], G.Element([], ToGrammar(fields[0].value), []))]
         + Members(fields[1..])
  }

  /** Nested containers, and containers, keys, strings and scalars together, of a JSON tree itself. */
  function Nesting(v: Json): nat {
    match v
    case List(items) => 1 + ItemsNesting(items)
    case Dict(fields) => 1 + FieldsNesting(fields)
    case _ => 0
  }

  function ItemsNesting(items: seq<Json>): nat {
    if items == [] then 0 else G.Max(Nesting(items[0]), ItemsNesting(items[1..]))
  }

  function FieldsNesting(fields: seq<Field>): nat {
    if fields == [] then 0 else G.Max(Nesting(fields[0].value), FieldsNesting(fields[1..]))
  }

  function Nodes(v: Json): nat {
    match v
    case List(items) => 1 + ItemsNodes(items)
    case Dict(fields) => 1 + FieldsNodes(fields)
    case _ => 1
  }

  function ItemsNodes(items: seq<Json>): nat {
    if items == [] then 0 else Nodes(items[0]) + ItemsNodes(items[1..])
  }

  function FieldsNodes(fields: seq<Field>): nat {
    if fields == [] then 0 else 1 + Nodes(fields[0].value) + FieldsNodes(fields[1..])
  }

  lemma {:induction false} BodyIsOk(s: seq<unit>)
    ensures G.BodyOk(Body(s)) && G.Escapes(Body(s))
  {
    if s != [] {
      BodyIsOk(s[1..]);
      EscapeKeepsOk(s[0], Body(s[1..]));
      EscapeIsProper(s[0], Body(s[1..]));
    }
  }

  lemma EscapeIsProper(u: unit, rest: bytes)
    requires G.Escapes(rest)
    ensures G.Escapes(EscapeUnit(u) + rest)
  {
    var e := EscapeUnit(u);
    if |e| == 6 {
      assert (e + rest)[6..] == rest;
      forall i | 2 <= i < 6 ensures G.HexOctet((e + rest)[i]) {
        assert (e + rest)[i] == Hex4(u)[i - 2];
      }
    } else if |e| == 2 {
      assert (e + rest)[2..] == rest;
    } else {
      assert (e + rest)[1..] == rest;
    }
  }

  lemma {:induction false} DigitsAreProper(n: nat)
    ensures G.IntPart(Digits(n)) && (Digits(n)[0] == 48 <==> n == 0)
  {
    if n >= 10 {
      DigitsAreProper(n / 10);
    }
  }

  lemma IntIsNumber(n: int)
    ensures G.Number(IntText(n)) && IntText(n) != []
    ensures forall i :: 0 <= i < |IntText(n)| ==> G.TokenByte(IntText(n)[i])
  {
    var d := Digits(if n < 0 then -n else n);
    DigitsAreProper(if n < 0 then -n else n);
    hide Digits;
    WholeNumber(IntText(n), d);
    G.NumberIsToken(IntText(n));
  }

  lemma WholeNumber(t: bytes, d: bytes)
    requires G.IntPart(d) && t == (if t != [] && t[0] == 45 then [45] + d else d)
    ensures G.Number(t)
  {
    var unsigned := if t != [] && t[0] == 45 then t[1..] else t;
    assert unsigned == d;
    var k := |d|;
    assert unsigned[..k] == d && unsigned[k..k] == [] && unsigned[k..] == [];
    assert G.IntPart(unsigned[..k]) && G.FractionPart(unsigned[k..k]) && G.ExponentPart(unsigned[k..]);
  }

  lemma EscapeKeepsOk(u: unit, rest: bytes)
    requires G.BodyOk(rest)
    ensures G.BodyOk(EscapeUnit(u) + rest)
  {
    var e := EscapeUnit(u);
    if |e| == 6 {
      HexIsPlain(u, rest);
      assert e + rest == [92, 117] + (Hex4(u) + rest);
      assert (e + rest)[2..] == Hex4(u) + rest;
    } else if |e| == 2 {
      assert (e + rest)[2..] == rest;
    } else {
      assert (e + rest)[1..] == rest;
    }
  }

  lemma PlainKeepsOk(c: byte, rest: bytes)
    requires G.BodyOk(rest) && c != Scanner.BACKSLASH && c != Scanner.QUOTE && c >= 0x20
    ensures G.BodyOk([c] + rest)
  {
    assert ([c] + rest)[1..] == rest;
  }

  lemma HexIsPlain(u: unit, rest: bytes)
    requires G.BodyOk(rest)
    ensures G.BodyOk(Hex4(u) + rest)
  {
    var h := Hex4(u);
    PlainKeepsOk(h[3], rest);
    PlainKeepsOk(h[2], [h[3]] + rest);
    PlainKeepsOk(h[1], [h[2]] + ([h[3]] + rest));
    PlainKeepsOk(h[0], [h[1]] + ([h[2]] + ([h[3]] + rest)));
    assert h + rest == [h[0]] + ([h[1]] + ([h[2]] + ([h[3]] + rest)));
  }

  /** The printer's text of a tree is the rendering of a well-formed grammar tree of the same size. */
  lemma {:induction false} TextIsRendering(v: Json)
    ensures G.ValueOk(ToGrammar(v)) && G.Proper(ToGrammar(v)) && G.Render(ToGrammar(v)) == Text(v)
    ensures G.Nesting(ToGrammar(v)) == Nesting(v) && G.Units(ToGrammar(v)) == Nodes(v)
    decreases v
  {
    hide IntText, Body, G.Number, G.Escapes;
    match v
    case Str(s) => BodyIsOk(s);
    case Int(n) => IntIsNumber(n);
    case List(items) => ItemsAreRendered(items);
    case Dict(fields) =>
      FieldsAreRendered(fields);
      FieldsAreSized(fields);
    case _ =>
  }

  lemma {:induction false} ItemsAreRendered(items: seq<Json>)
    ensures |Elements(items)| == |items| && forall i :: 0 <= i < |items| ==> G.ElementOk(Elements(items)[i])
    ensures forall i :: 0 <= i < |items| ==> G.ProperElement(Elements(items)[i])
    ensures G.RenderElements(Elements(items)) == ItemsText(items)
    ensures items != [] ==>
      G.RenderElement(Elements(items)[0]) == Text(items[0]) && Elements(items)[1..] == Elements(items[1..])
      && G.RenderElements(Elements(items[1..])) == ItemsText(items[1..])
    ensures G.ElementsNesting(Elements(items)) == ItemsNesting(items)
    ensures G.ElementsUnits(Elements(items)) == ItemsNodes(items)
    decreases items
  {
    hide Text, G.Render, G.Proper;
    if items != [] {
      TextIsRendering(items[0]);
      ItemsAreRendered(items[1..]);
      assert [] + Text(items[0]) + [] == Text(items[0]);
    }
  }

  lemma {:induction false} FieldsAreRendered(fields: seq<Field>)
    ensures |Members(fields)| == |fields|
    ensures forall i :: 0 <= i < |fields| ==>
      var m := Members(fields)[i];
      && G.Spaces(m.before) && G.BodyOk(m.key) && G.Spaces(m.after) && G.ElementOk(m.element)
      && G.Escapes(m.key) && G.ProperElement(m.element)
    ensures G.RenderMembers(Members(fields)) == FieldsText(fields)
    ensures fields != [] ==>
      G.RenderMember(Members(fields)[0]) == FieldText(fields[0]) && Members(fields)[1..] == Members(fields[1..])
      && G.RenderMembers(Members(fields[1..])) == FieldsText(fields[1..])
    decreases fields
  {
    hide Text, G.Render, Body, G.BodyOk, G.ValueOk, FieldText, G.RenderMember, ToGrammar, G.Escapes, G.Proper;
    if fields != [] {
      TextIsRendering(fields[0].value);
      FieldsAreRendered(fields[1..]);
      BodyIsOk(fields[0].key);
      FieldIsRendered(fields[0]);
      assert Members(fields)[1..] == Members(fields[1..]);
    }
  }

  lemma FieldIsRendered(f: Field)
    requires G.Render(ToGrammar(f.value)) == Text(f.value)
    ensures G.RenderMember(G.Member([], Body(f.key), [], G.Element([], ToGrammar(f.value), []))) == FieldText(f)
  {
    hide Text, G.Render, Body, ToGrammar;
    var e := G.Element([], ToGrammar(f.value), []);
    assert G.RenderElement(e) == Text(f.value);
    assert G.Quoted(Body(f.key)) == StringText(f.key);
    assert [] + StringText(f.key) + [] == StringText(f.key);
  }

  lemma {:induction false} FieldsAreSized(fields: seq<Field>)
    ensures G.MembersNesting(Members(fields)) == FieldsNesting(fields)
    ensures G.MembersUnits(Members(fields)) == FieldsNodes(fields)
    decreases fields
  {
    hide Text, G.Render, Body, G.BodyOk, G.ValueOk, G.Escapes, G.Proper;
    if fields != [] {
      TextIsRendering(fields[0].value);
      FieldsAreSized(fields[1..]);
      assert Members(fields)[1..] == Members(fields[1..]);
    }
  }

  /**
   On canonical text the scanner's verdict is exactly the size of the tree: at most 32 nested
   containers and at most 4096 containers, keys, strings and scalars; and then the tuple walk over
   the parsed tree stays within both of its bounds.
   */
  lemma ScannerOnCanonicalText(v: Json)
    ensures Scanner.Accepts(Text(v)) <==> Nesting(v) <= Scanner.MAX_DEPTH && Nodes(v) <= Scanner.MAX_NODES
    ensures Scanner.Accepts(Text(v)) ==>
      && JsonBounds.Height(JsonBounds.Parsed(ToGrammar(v))) <= Scanner.MAX_DEPTH
      && JsonBounds.Values(JsonBounds.Parsed(ToGrammar(v))) <= Scanner.MAX_NODES
    ensures JsonBounds.ValuesAndKeys(JsonBounds.Parsed(ToGrammar(v))) == Nodes(v)
  {
    hide *;
    TextIsRendering(v);
    var e := G.Element([], ToGrammar(v), []);
    BareElement(ToGrammar(v));
    G.ScannerDecidesSize(e);
    JsonBounds.SizesAgree(ToGrammar(v));
  }

  lemma BareElement(v: G.Value)
    requires G.ValueOk(v)
    ensures G.ElementOk(G.Element([], v, [])) && G.RenderElement(G.Element([], v, [])) == G.Render(v)
  {
    hide G.Render, G.ValueOk;
  }
}
