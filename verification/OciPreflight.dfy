/**
 The preflight of the V4 evidence documents: one pass that bounds nesting and counts nodes, where every
 octet of a scalar counts as a node of its own.
 */
module OciPreflight {
  import opened Bytes
  import opened CanonicalJson
  import opened JsonSize

  const MAX_DEPTH := 24
  const MAX_NODES := 4096

  datatype Scan = Scan(depth: int, nodes: nat, quote: bool, escape: bool)

  const Start := Scan(0, 0, false, false)

  predicate Opens(c: byte) { c == 123 || c == 91 }
  predicate Closes(c: byte) { c == 125 || c == 93 }
  predicate Ignored(c: byte) { c in [32, 9, 13, 10, 58, 44] }

  /** Octets of numbers and of the three names. */
  predicate Scalar(c: byte) { c != 34 && !Opens(c) && !Closes(c) && !Ignored(c) }

  function Checked(s: Scan): Option<Scan> {
    if s.depth < 0 || s.depth > MAX_DEPTH || s.nodes > MAX_NODES then None else Some(s)
  }

  function Step(s: Scan, c: byte): Option<Scan> {
    if s.quote then
      if s.escape then Some(s.(escape := false))
      else if c == 92 then Some(s.(escape := true))
      else if c == 34 then Some(s.(quote := false))
      else if c < 32 then None else Some(s)
    else if c == 34 then Checked(s.(quote := true, nodes := s.nodes + 1))
    else if Opens(c) then Checked(s.(depth := s.depth + 1, nodes := s.nodes + 1))
    else if Closes(c) then Checked(s.(depth := s.depth - 1))
    else if Ignored(c) then Checked(s)
    else Checked(s.(nodes := s.nodes + 1))
  }

  function Run(s: Scan, text: bytes): Option<Scan>
    decreases |text|
  {
    if text == [] then Some(s)
    else
      match Step(s, text[0])
      case None => None
      case Some(next) => Run(next, text[1..])
  }

  predicate Ends(s: Scan) { !s.quote && !s.escape && s.depth == 0 }

  predicate Passes(payload: bytes, limit: nat) {
    1 <= |payload| <= limit && Run(Start, payload).Some? && Ends(Run(Start, payload).value)
  }

  method Preflight(payload: bytes, limit: nat) returns (ok: bool)
    ensures ok <==> Passes(payload, limit)
  {
    if !(1 <= |payload| <= limit) {
      return false;
    }
    var depth, nodes := 0, 0;
    var quote, escape := false, false;
    assert payload[0..] == payload;
    for k := 0 to |payload|
      invariant nodes >= 0 && Run(Start, payload) == Run(Scan(depth, nodes, quote, escape), payload[k..])
    {
      var octet := payload[k];
      assert payload[k..][1..] == payload[k + 1..];
      if quote {
        if escape {
          escape := false;
        } else if octet == 92 {
          escape := true;
        } else if octet == 34 {
          quote := false;
        } else if octet < 32 {
          return false;
        }
        continue;
      }
      if octet == 34 {
        quote := true;
        nodes := nodes + 1;
      } else if Opens(octet) {
        depth := depth + 1;
        nodes := nodes + 1;
      } else if Closes(octet) {
        depth := depth - 1;
      } else if !Ignored(octet) {
        nodes := nodes + 1;
      }
      if depth < 0 || depth > MAX_DEPTH || nodes > MAX_NODES {
        return false;
      }
    }
    ok := !quote && !escape && depth == 0;
  }

  // On canonical texts ---------------------------------------------------------

  /** Outside strings and within the limits. */
  predicate Outside(s: Scan) {
    !s.quote && !s.escape && 0 <= s.depth <= MAX_DEPTH && s.nodes <= MAX_NODES
  }

  /** There is room for something of that size. */
  predicate Room(s: Scan, m: Size) { s.depth + m.depth <= MAX_DEPTH && s.nodes + m.nodes <= MAX_NODES }

  function Past(s: Scan, m: Size): Scan { s.(nodes := s.nodes + m.nodes) }

  lemma First(s: Scan, c: byte, rest: bytes)
    ensures Run(s, [c] + rest) == (var t := Step(s, c); if t.None? then None else Run(t.value, rest))
  {
    assert ([c] + rest)[1..] == rest;
  }

  lemma {:induction false} RunScalar(s: Scan, t: bytes, rest: bytes)
    requires Outside(s) && forall i :: 0 <= i < |t| ==> Scalar(t[i])
    ensures Run(s, t + rest)
         == if s.nodes + |t| <= MAX_NODES then Run(s.(nodes := s.nodes + |t|), rest) else None
    decreases |t|
  {
    hide Run;
    if t == [] {
      assert t + rest == rest && s.(nodes := s.nodes + 0) == s;
    } else {
      assert t + rest == [t[0]] + (t[1..] + rest) && Scalar(t[0]);
      First(s, t[0], t[1..] + rest);
      if s.nodes < MAX_NODES {
        RunScalar(s.(nodes := s.nodes + 1), t[1..], rest);
      }
    }
  }

  lemma RunEscape(s: Scan, u: unit, rest: bytes)
    requires s.quote && !s.escape
    ensures Run(s, EscapeUnit(u) + rest) == Run(s, rest)
  {
    hide Run;
    var e := EscapeUnit(u);
    First(s, e[0], e[1..] + rest);
    assert e + rest == [e[0]] + (e[1..] + rest);
    if |e| == 1 {
      assert e[1..] + rest == rest;
    } else {
      var t := s.(escape := true);
      First(t, e[1], e[2..] + rest);
      assert e[1..] + rest == [e[1]] + (e[2..] + rest);
      if |e| == 2 {
        assert e[2..] + rest == rest;
      } else {
        assert e[2..] == Hex4(u);
        RunHex(s, Hex4(u), rest);
      }
    }
  }

  lemma {:induction false} RunHex(s: Scan, h: bytes, rest: bytes)
    requires s.quote && !s.escape && forall i :: 0 <= i < |h| ==> h[i] >= 32 && h[i] != 92 && h[i] != 34
    ensures Run(s, h + rest) == Run(s, rest)
    decreases |h|
  {
    hide Run;
    if h == [] {
      assert h + rest == rest;
    } else {
      assert h + rest == [h[0]] + (h[1..] + rest);
      First(s, h[0], h[1..] + rest);
      RunHex(s, h[1..], rest);
    }
  }

  lemma {:induction false} RunBody(s: Scan, x: seq<unit>, rest: bytes)
    requires s.quote && !s.escape
    ensures Run(s, Body(x) + rest) == Run(s, rest)
    decreases |x|
  {
    hide Run, EscapeUnit;
    if x == [] {
      assert Body(x) + rest == rest;
    } else {
      assert Body(x) + rest == EscapeUnit(x[0]) + (Body(x[1..]) + rest);
      RunEscape(s, x[0], Body(x[1..]) + rest);
      RunBody(s, x[1..], rest);
    }
  }

  lemma RunString(s: Scan, x: seq<unit>, rest: bytes)
    requires Outside(s)
    ensures Run(s, StringText(x) + rest)
         == if s.nodes + 1 <= MAX_NODES then Run(s.(nodes := s.nodes + 1), rest) else None
  {
    hide Run, Body;
    var tail := Body(x) + ([34] + rest);
    assert StringText(x) + rest == [34] + tail;
    First(s, 34, tail);
    if s.nodes + 1 <= MAX_NODES {
      var t := s.(quote := true, nodes := s.nodes + 1);
      RunBody(t, x, [34] + rest);
      First(t, 34, rest);
    }
  }

  lemma ScalarText(v: Json)
    requires v.Null? || v.Bool? || v.Int?
    ensures |Text(v)| == Measure(v).nodes && Measure(v).depth == 0
    ensures forall i :: 0 <= i < |Text(v)| ==> Scalar(Text(v)[i])
  {
    hide Digits;
  }

  /** From outside strings, a value's text either leaves exactly its nodes counted or is refused. */
  lemma {:induction false} RunText(s: Scan, v: Json, rest: bytes)
    requires Outside(s)
    ensures Run(s, Text(v) + rest) == if Room(s, Measure(v)) then Run(Past(s, Measure(v)), rest) else None
    decreases v, 2
  {
    hide Run, StringText, ItemsText, FieldsText, FieldText, ItemsMeasure, FieldsMeasure;
    match v
    case Str(x) =>
      RunString(s, x, rest);
    case List(items) =>
      if items == [] {
        RunEmpty(s, v, 0x5B, 0x5D, rest);
      } else {
        RunList(s, v, rest);
      }
    case Dict(fields) =>
      if fields == [] {
        RunEmpty(s, v, 0x7B, 0x7D, rest);
      } else {
        RunDict(s, v, rest);
      }
    case _ =>
      ScalarText(v);
      RunScalar(s, Text(v), rest);
  }

  lemma RunEmpty(s: Scan, v: Json, open: byte, close: byte, rest: bytes)
    requires Outside(s) && Opens(open) && Closes(close) && Text(v) == [open, close] && Measure(v) == Size(2, 1, 1)
    ensures Run(s, Text(v) + rest) == if Room(s, Measure(v)) then Run(Past(s, Measure(v)), rest) else None
  {
    hide Run, Text, Measure;
    assert Text(v) + rest == [open] + ([close] + rest);
    First(s, open, [close] + rest);
    if Room(s, Measure(v)) {
      First(Inner(s), close, rest);
    }
  }

  /** After an opening bracket. */
  function Inner(s: Scan): Scan { s.(depth := s.depth + 1, nodes := s.nodes + 1) }

  lemma {:induction false} RunList(s: Scan, v: Json, rest: bytes)
    requires Outside(s) && v.List? && v.items != []
    ensures Run(s, Text(v) + rest) == if Room(s, Measure(v)) then Run(Past(s, Measure(v)), rest) else None
    decreases v, 1
  {
    ListMeasure(v);
    UnfoldList(v);
    var first, more := Text(v.items[0]), ItemsText(v.items[1..]);
    hide Run, Text, ItemsText, Measure, ItemsMeasure;
    Regroup(0x5B, first, more, rest);
    First(s, 0x5B, first + (more + rest));
    if Outside(Inner(s)) {
      RunItems(Inner(s), v.items, rest);
    }
  }

  lemma Regroup(c: byte, x: bytes, y: bytes, rest: bytes)
    ensures [c] + x + y + rest == [c] + (x + (y + rest))
  {
  }

  lemma ListMeasure(v: Json)
    requires v.List? && v.items != []
    ensures Measure(v) == Inside(ItemsMeasure(v.items))
  {
  }

  lemma {:induction false} RunDict(s: Scan, v: Json, rest: bytes)
    requires Outside(s) && v.Dict? && v.fields != []
    ensures Run(s, Text(v) + rest) == if Room(s, Measure(v)) then Run(Past(s, Measure(v)), rest) else None
    decreases v, 1
  {
    DictMeasure(v);
    UnfoldDict(v);
    var first, more := FieldText(v.fields[0]), FieldsText(v.fields[1..]);
    hide Run, Text, StringText, FieldText, FieldsText, Measure, FieldMeasure, FieldsMeasure;
    Regroup(0x7B, first, more, rest);
    First(s, 0x7B, first + (more + rest));
    if Outside(Inner(s)) {
      RunFields(Inner(s), v.fields, rest);
    }
  }

  /** Leaving a container whose interior has that size. */
  function Left(s: Scan, m: Size): Scan { s.(depth := s.depth - 1, nodes := s.nodes + m.nodes) }

  /** The items of a list after its opening bracket. */
  lemma {:induction false} RunItems(s: Scan, items: seq<Json>, rest: bytes)
    requires Outside(s) && s.depth >= 1 && items != []
    ensures Run(s, Text(items[0]) + (ItemsText(items[1..]) + rest))
         == if Room(s, ItemsMeasure(items)) then Run(Left(s, ItemsMeasure(items)), rest) else None
    decreases items, 0
  {
    hide Run, Text, ItemsText, Measure;
    RunText(s, items[0], ItemsText(items[1..]) + rest);
    if Room(s, Measure(items[0])) {
      RunMoreItems(Past(s, Measure(items[0])), items[1..], rest);
    }
  }

  lemma {:induction false} RunMoreItems(s: Scan, items: seq<Json>, rest: bytes)
    requires Outside(s) && s.depth >= 1
    ensures Run(s, ItemsText(items) + rest)
         == if Room(s, ItemsMeasure(items)) then Run(Left(s, ItemsMeasure(items)), rest) else None
    decreases items, 1
  {
    hide Run, Text;
    if items == [] {
      First(s, 0x5D, rest);
    } else {
      var tail := Text(items[0]) + (ItemsText(items[1..]) + rest);
      assert ItemsText(items) + rest == [0x2C] + tail;
      First(s, 0x2C, tail);
      RunItems(s, items, rest);
    }
  }

  lemma {:induction false} RunField(s: Scan, f: Field, rest: bytes)
    requires Outside(s)
    ensures Run(s, FieldText(f) + rest)
         == if Room(s, FieldMeasure(f)) then Run(Past(s, FieldMeasure(f)), rest) else None
    decreases f
  {
    hide Run, Text, StringText, Measure;
    var tail := [0x3A] + (Text(f.value) + rest);
    assert FieldText(f) + rest == StringText(f.key) + tail;
    RunString(s, f.key, tail);
    if s.nodes + 1 <= MAX_NODES {
      var t := s.(nodes := s.nodes + 1);
      First(t, 0x3A, Text(f.value) + rest);
      RunText(t, f.value, rest);
    }
  }

  /** The fields of a dict after its opening bracket. */
  lemma {:induction false} RunFields(s: Scan, fields: seq<Field>, rest: bytes)
    requires Outside(s) && s.depth >= 1 && fields != []
    ensures Run(s, FieldText(fields[0]) + (FieldsText(fields[1..]) + rest))
         == if Room(s, FieldsMeasure(fields)) then Run(Left(s, FieldsMeasure(fields)), rest) else None
    decreases fields, 0
  {
    hide Run, FieldText, FieldsText, FieldMeasure;
    RunField(s, fields[0], FieldsText(fields[1..]) + rest);
    if Room(s, FieldMeasure(fields[0])) {
      RunMoreFields(Past(s, FieldMeasure(fields[0])), fields[1..], rest);
    }
  }

  lemma {:induction false} RunMoreFields(s: Scan, fields: seq<Field>, rest: bytes)
    requires Outside(s) && s.depth >= 1
    ensures Run(s, FieldsText(fields) + rest)
         == if Room(s, FieldsMeasure(fields)) then Run(Left(s, FieldsMeasure(fields)), rest) else None
    decreases fields, 1
  {
    hide Run, FieldText;
    if fields == [] {
      First(s, 0x7D, rest);
    } else {
      var tail := FieldText(fields[0]) + (FieldsText(fields[1..]) + rest);
      assert FieldsText(fields) + rest == [0x2C] + tail;
      First(s, 0x2C, tail);
      RunFields(s, fields, rest);
    }
  }

  /**
   The preflight of a canonical text passes exactly when its length, its nesting and its node count,
   every octet of a scalar counted, are within the limits.
   */
  lemma PassesIffWithin(v: Json, limit: nat)
    ensures Passes(Text(v), limit) <==> Within(Measure(v), Size(limit, MAX_NODES, MAX_DEPTH))
  {
    hide Run, Text, Measure;
    TextLength(v);
    assert Text(v) + [] == Text(v);
    RunText(Start, v, []);
    NothingLeft(Past(Start, Measure(v)));
    ClassFromText(v);
  }

  lemma NothingLeft(s: Scan)
    ensures Run(s, []) == Some(s)
  {
  }
}
