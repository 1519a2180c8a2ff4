/** How long canonical texts are, and what the octet-counting preflight counts in them. */
module JsonSize {
  import opened Bytes
  import opened CanonicalJson

  /** Octets of the text; one node for a string, key or container and one for each octet of a scalar; nesting. */
  datatype Size = Size(octets: nat, nodes: nat, depth: nat)

  predicate Within(a: Size, b: Size) { a.octets <= b.octets && a.nodes <= b.nodes && a.depth <= b.depth }

  function Beside(a: Size, b: Size): Size {
    Size(a.octets + b.octets, a.nodes + b.nodes, if a.depth < b.depth then b.depth else a.depth)
  }

  /** What follows it, a comma or the closing bracket, counted with it. */
  function Ended(a: Size): Size { a.(octets := a.octets + 1) }

  function Inside(a: Size): Size { Size(a.octets + 1, a.nodes + 1, a.depth + 1) }

  function Measure(v: Json): Size {
    match v
    case Null => Size(4, 4, 0)
    case Bool(b) => if b then Size(4, 4, 0) else Size(5, 5, 0)
    case Int(n) => Size(|IntText(n)|, |IntText(n)|, 0)
    case Str(s) => Size(|Body(s)| + 2, 1, 0)
    case List(items) => if items == [] then Size(2, 1, 1) else Inside(ItemsMeasure(items))
    case Dict(fields) => if fields == [] then Size(2, 1, 1) else Inside(FieldsMeasure(fields))
  }

  function ItemsMeasure(items: seq<Json>): Size {
    if items == [] then Size(0, 0, 0) else Beside(Ended(Measure(items[0])), ItemsMeasure(items[1..]))
  }

  function FieldMeasure(f: Field): Size {
    var m := Measure(f.value);
    Size(|Body(f.key)| + 3 + m.octets, 1 + m.nodes, m.depth)
  }

  function FieldsMeasure(fields: seq<Field>): Size {
    if fields == [] then Size(0, 0, 0) else Beside(Ended(FieldMeasure(fields[0])), FieldsMeasure(fields[1..]))
  }

  // Length -------------------------------------------------------------------

  lemma {:induction false} TextLength(v: Json)
    ensures |Text(v)| == Measure(v).octets
    decreases v, 1
  {
    hide Body, IntText, FieldText, FieldMeasure;
    match v
    case List(items) =>
      if items != [] {
        TextLength(items[0]);
        ItemsLength(items[1..]);
      }
    case Dict(fields) =>
      if fields != [] {
        FieldLength(fields[0]);
        FieldsLength(fields[1..]);
      }
    case _ =>
  }

  lemma {:induction false} ItemsLength(items: seq<Json>)
    ensures |ItemsText(items)| == 1 + ItemsMeasure(items).octets
    decreases items
  {
    hide Text, Measure;
    if items != [] {
      TextLength(items[0]);
      ItemsLength(items[1..]);
    }
  }

  lemma {:induction false} FieldLength(f: Field)
    ensures |FieldText(f)| == FieldMeasure(f).octets
    decreases f
  {
    hide Body, Text, Measure;
    TextLength(f.value);
  }

  lemma {:induction false} FieldsLength(fields: seq<Field>)
    ensures |FieldsText(fields)| == 1 + FieldsMeasure(fields).octets
    decreases fields
  {
    hide FieldText, FieldMeasure;
    if fields != [] {
      FieldLength(fields[0]);
      FieldsLength(fields[1..]);
    }
  }

  // Bounds -------------------------------------------------------------------

  /** Printable ASCII that needs no escape. */
  predicate PlainUnit(u: unit) { 32 <= u <= 126 && u != 34 && u != 92 }

  predicate PlainText(s: seq<unit>) { forall i :: 0 <= i < |s| ==> PlainUnit(s[i]) }

  lemma {:induction false} PlainBody(s: seq<unit>)
    requires PlainText(s)
    ensures |Body(s)| == |s|
    decreases |s|
  {
    if s != [] {
      assert PlainUnit(s[0]);
      PlainBody(s[1..]);
    }
  }

  function PowerOfTen(k: nat): nat { if k == 0 then 1 else 10 * PowerOfTen(k - 1) }

  lemma {:induction false} FewDigits(n: nat, k: nat)
    requires k >= 1 && n < PowerOfTen(k)
    ensures |Digits(n)| <= k
    decreases k
  {
    if n >= 10 {
      assert k > 1;
      FewDigits(n / 10, k - 1);
    }
  }

  /** n things beside one another, each within c and ended. */
  function Times(n: nat, c: Size): Size { Size(n * (c.octets + 1), n * c.nodes, c.depth) }

  lemma {:induction false} ItemsWithin(items: seq<Json>, c: Size)
    requires forall i :: 0 <= i < |items| ==> Within(Measure(items[i]), c)
    ensures Within(ItemsMeasure(items), Times(|items|, c))
    decreases |items|
  {
    hide Measure;
    if items != [] {
      ItemsWithin(items[1..], c);
      var n := |items| - 1;
      assert (n + 1) * (c.octets + 1) == n * (c.octets + 1) + (c.octets + 1);
      assert (n + 1) * c.nodes == n * c.nodes + c.nodes;
    }
  }

  lemma ListWithin(items: seq<Json>, c: Size, n: nat)
    requires |items| <= n && forall i :: 0 <= i < |items| ==> Within(Measure(items[i]), c)
    ensures Within(Measure(List(items)), Size(2 + n * (c.octets + 1), 1 + n * c.nodes, 1 + c.depth))
  {
    ItemsWithin(items, c);
    hide ItemsMeasure;
    Scaled(|items|, n, c.octets + 1);
    Scaled(|items|, n, c.nodes);
  }

  lemma Scaled(a: nat, b: nat, c: nat)
    requires a <= b
    ensures a * c <= b * c
  {
  }

  lemma DictMeasure(v: Json)
    requires v.Dict? && v.fields != []
    ensures Measure(v) == Inside(FieldsMeasure(v.fields))
  {
  }

  lemma FewFieldsMeasure(fields: seq<Field>)
    requires 2 <= |fields| <= 4
    ensures var two := Beside(Ended(FieldMeasure(fields[0])), Ended(FieldMeasure(fields[1])));
            var three := if |fields| >= 3 then Beside(two, Ended(FieldMeasure(fields[2]))) else two;
            FieldsMeasure(fields) == if |fields| == 4 then Beside(three, Ended(FieldMeasure(fields[3]))) else three
  {
    hide FieldMeasure;
    var second := fields[1..];
    var third := second[1..];
    assert FieldsMeasure(fields)
        == Beside(Ended(FieldMeasure(fields[0])), Beside(Ended(FieldMeasure(fields[1])), FieldsMeasure(third)));
    if |fields| >= 3 {
      assert FieldsMeasure(third) == Beside(Ended(FieldMeasure(fields[2])), FieldsMeasure(third[1..]));
    }
    if |fields| == 4 {
      assert FieldsMeasure(third[1..]) == Beside(Ended(FieldMeasure(fields[3])), FieldsMeasure(third[1..][1..]));
    }
  }
}
