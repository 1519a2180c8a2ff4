/**
 The canonical printer behind every hash and signature: ASCII only, no insignificant whitespace, strings
 escaped unit by unit. Strings are sequences of UTF-16 code units here; PythonStrings relates them to
 the code points Python holds.
 */
module CanonicalJson {
  import opened Bytes
  import opened Scanner

  type unit = x: int | 0 <= x < 0x1_0000

  datatype Json =
    | Null
    | Bool(b: bool)
    | Int(n: int)
    | Str(s: seq<unit>)
    | List(items: seq<Json>)
    | Dict(fields: seq<Field>)

  datatype Field = Field(key: seq<unit>, value: Json)

  // Strings -----------------------------------------------------------------

  function HexDigit(d: int): (c: byte)
    requires 0 <= d < 16
  {
    if d < 10 then 48 + d else 87 + d
  }

  function Hex4(u: unit): (h: bytes)
    ensures |h| == 4
  {
    [HexDigit(u / 4096), HexDigit(u / 256 % 16), HexDigit(u / 16 % 16), HexDigit(u % 16)]
  }

  /** The two-character escape of RFC 8259 section 7 that the encoder prefers, if the unit has one. */
  function ShortEscape(u: unit): (c: Option<byte>)
    ensures c.Some? ==> c.value != 117 && c.value >= 0x20
  {
    if u == 34 then Some(34)
    else if u == 92 then Some(92)
    else if u == 10 then Some(110)
    else if u == 13 then Some(114)
    else if u == 9 then Some(116)
    else if u == 8 then Some(98)
    else if u == 12 then Some(102) else None
  }

  function EscapeUnit(u: unit): (e: bytes)
    ensures e != [] && e[0] != QUOTE && e[0] >= 0x20
  {
    if ShortEscape(u).Some? then [92, ShortEscape(u).value]
    else if 32 <= u <= 126 then [u]
    else [92, 117] + Hex4(u)
  }

  function Body(s: seq<unit>): bytes {
    if s == [] then [] else EscapeUnit(s[0]) + Body(s[1..])
  }

  function StringText(s: seq<unit>): bytes {
    [QUOTE] + Body(s) + [QUOTE]
  }

  // Numbers -----------------------------------------------------------------

  function Digits(n: nat): (d: bytes)
    ensures d != [] && forall i :: 0 <= i < |d| ==> 48 <= d[i] <= 57
  {
    if n < 10 then [48 + n] else Digits(n / 10) + [48 + n % 10]
  }

  function IntText(n: int): bytes {
    if n < 0 then [45] + Digits(-n) else Digits(n)
  }

  // Values ------------------------------------------------------------------

  function Text(v: Json): bytes {
    match v
    case Null => [110, 117, 108, 108]
    case Bool(b) => if b then [116, 114, 117, 101] else [102, 97, 108, 115, 101]
    case Int(n) => IntText(n)
    case Str(s) => StringText(s)
    case List(items) =>
      if items == [] then [0x5B, 0x5D] else [0x5B] + Text(items[0]) + ItemsText(items[1..])
    case Dict(fields) =>
      if fields == [] then [0x7B, 0x7D] else [0x7B] + FieldText(fields[0]) + FieldsText(fields[1..])
  }

  function ItemsText(items: seq<Json>): bytes {
    if items == [] then [0x5D] else [0x2C] + Text(items[0]) + ItemsText(items[1..])
  }

  function FieldText(f: Field): bytes {
    StringText(f.key) + [0x3A] + Text(f.value)
  }

  function FieldsText(fields: seq<Field>): bytes {
    if fields == [] then [0x7D] else [0x2C] + FieldText(fields[0]) + FieldsText(fields[1..])
  }

  // Unambiguity -------------------------------------------------------------

  lemma HexDigitInjective(x: int, y: int)
    requires 0 <= x < 16 && 0 <= y < 16 && HexDigit(x) == HexDigit(y)
    ensures x == y
  {
  }

  lemma Hex4Injective(u: unit, v: unit)
    requires Hex4(u) == Hex4(v)
    ensures u == v
  {
    var x, y := Hex4(u), Hex4(v);
    assert x[0] == y[0] && x[1] == y[1] && x[2] == y[2] && x[3] == y[3];
    HexDigitInjective(u / 4096, v / 4096);
    HexDigitInjective(u / 256 % 16, v / 256 % 16);
    HexDigitInjective(u / 16 % 16, v / 16 % 16);
    HexDigitInjective(u % 16, v % 16);
    HexParts(u);
    HexParts(v);
  }

  lemma HexParts(u: unit)
    ensures u == 4096 * (u / 4096) + 256 * (u / 256 % 16) + 16 * (u / 16 % 16) + u % 16
  {
    assert u / 16 / 16 == u / 256 && u / 256 / 16 == u / 4096;
  }

  lemma UnitUnambiguous(u: unit, v: unit, r: bytes, q: bytes)
    requires EscapeUnit(u) + r == EscapeUnit(v) + q
    ensures u == v && r == q
  {
    hide Hex4;
    var x, y := EscapeUnit(u), EscapeUnit(v);
    var whole := x + r;
    assert whole[0] == x[0] == y[0];
    if x[0] == 92 {
      assert |x| >= 2 && |y| >= 2 && whole[1] == x[1] == y[1];
      assert |x| == |y|;
    }
    assert whole[..|x|] == x == y && whole[|x|..] == r == q;
    if |x| == 6 {
      assert x[2..] == Hex4(u) && y[2..] == Hex4(v);
      Hex4Injective(u, v);
    }
  }

  /** A string body begins with the closing quote only when it is empty. */
  lemma BodyHead(x: seq<unit>, r: bytes)
    ensures (Body(x) + ([QUOTE] + r))[0] == QUOTE <==> x == []
  {
    hide EscapeUnit;
    if x != [] {
      assert (Body(x) + ([QUOTE] + r))[0] == EscapeUnit(x[0])[0];
    }
  }

  lemma {:induction false} BodyUnambiguous(x: seq<unit>, y: seq<unit>, r: bytes, q: bytes)
    requires Body(x) + ([QUOTE] + r) == Body(y) + ([QUOTE] + q)
    ensures x == y && r == q
    decreases |x|
  {
    hide EscapeUnit;
    BodyHead(x, r);
    BodyHead(y, q);
    var whole := Body(x) + ([QUOTE] + r);
    if x == [] {
      assert whole == [QUOTE] + r == [QUOTE] + q;
      assert whole[1..] == r == q;
    } else {
      var r', q' := Body(x[1..]) + ([QUOTE] + r), Body(y[1..]) + ([QUOTE] + q);
      assert whole == EscapeUnit(x[0]) + r' == EscapeUnit(y[0]) + q';
      UnitUnambiguous(x[0], y[0], r', q');
      BodyUnambiguous(x[1..], y[1..], r, q);
      assert x == [x[0]] + x[1..] && y == [y[0]] + y[1..];
    }
  }

  lemma StringUnambiguous(x: seq<unit>, y: seq<unit>, r: bytes, q: bytes)
    requires StringText(x) + r == StringText(y) + q
    ensures x == y && r == q
  {
    hide Body;
    var whole := StringText(x) + r;
    assert whole[1..] == Body(x) + ([QUOTE] + r) == Body(y) + ([QUOTE] + q);
    BodyUnambiguous(x, y, r, q);
  }

  /** A number's text ends where the digits end. */
  predicate NoDigitAhead(r: bytes) {
    r == [] || !(48 <= r[0] <= 57)
  }

  lemma {:induction false} DigitsInjective(m: nat, n: nat)
    requires Digits(m) == Digits(n)
    ensures m == n
    decreases m
  {
    var x, y := Digits(m), Digits(n);
    assert x[|x| - 1] == y[|y| - 1];
    if m < 10 || n < 10 {
      assert |x| == 1 && |y| == 1;
    } else {
      assert x[..|x| - 1] == Digits(m / 10) && y[..|y| - 1] == Digits(n / 10);
      DigitsInjective(m / 10, n / 10);
    }
  }

  function LeadingDigits(s: bytes): nat {
    if s != [] && 48 <= s[0] <= 57 then 1 + LeadingDigits(s[1..]) else 0
  }

  lemma {:induction false} DigitRun(x: bytes, r: bytes)
    requires NoDigitAhead(r) && forall i :: 0 <= i < |x| ==> 48 <= x[i] <= 57
    ensures LeadingDigits(x + r) == |x|
    decreases |x|
  {
    if x == [] {
      assert x + r == r;
    } else {
      assert (x + r)[1..] == x[1..] + r;
      DigitRun(x[1..], r);
    }
  }

  lemma DigitsUnambiguous(m: nat, n: nat, r: bytes, q: bytes)
    requires Digits(m) + r == Digits(n) + q && NoDigitAhead(r) && NoDigitAhead(q)
    ensures m == n && r == q
  {
    hide Digits;
    var x, y := Digits(m), Digits(n);
    var whole := x + r;
    DigitRun(x, r);
    DigitRun(y, q);
    assert whole[..|x|] == x == y && whole[|x|..] == r == q;
    DigitsInjective(m, n);
  }

  lemma IntSign(n: int)
    ensures IntText(n) != [] && (IntText(n)[0] == 45 <==> n < 0)
    ensures if n < 0 then IntText(n)[1..] == Digits(-n) else IntText(n) == Digits(n)
  {
    hide Digits;
  }

  lemma DropFirst(x: bytes, y: bytes, r: bytes, q: bytes)
    requires x != [] && y != [] && x + r == y + q
    ensures x[0] == y[0] && x[1..] + r == y[1..] + q
  {
    assert (x + r)[0] == x[0] && (y + q)[0] == y[0];
    assert (x + r)[1..] == x[1..] + r && (y + q)[1..] == y[1..] + q;
  }

  lemma IntUnambiguous(m: int, n: int, r: bytes, q: bytes)
    requires IntText(m) + r == IntText(n) + q && NoDigitAhead(r) && NoDigitAhead(q)
    ensures m == n && r == q
  {
    hide IntText, Digits, NoDigitAhead;
    IntSign(m);
    IntSign(n);
    DropFirst(IntText(m), IntText(n), r, q);
    if m < 0 {
      DigitsUnambiguous(-m, -n, r, q);
    } else {
      DigitsUnambiguous(m, n, r, q);
    }
  }

  /** The first octet of a text tells what kind of value it is. */
  function FirstOctetClass(c: byte): nat {
    if c == 110 then 0 else if c == 116 then 1 else if c == 102 then 2
    else if c == 45 || 48 <= c <= 57 then 3
    else if c == QUOTE then 4 else if c == 0x5B then 5 else if c == 0x7B then 6 else 7
  }

  function Class(v: Json): nat {
    match v
    case Null => 0
    case Bool(b) => if b then 1 else 2
    case Int(_) => 3
    case Str(_) => 4
    case List(_) => 5
    case Dict(_) => 6
  }

  lemma ClassFromText(v: Json)
    ensures Text(v) != [] && FirstOctetClass(Text(v)[0]) == Class(v)
  {
    hide Digits, Body;
  }

  /**
   Texts are unambiguous even in front of other text: if two values' texts, each followed by something
   that cannot lengthen a number, are the same octets, the values and what follows are the same.
   */
  lemma {:induction false} Unambiguous(v: Json, w: Json, r: bytes, q: bytes)
    requires Text(v) + r == Text(w) + q && NoDigitAhead(r) && NoDigitAhead(q)
    ensures v == w && r == q
    decreases v, 1
  {
    hide IntText, StringText;
    ClassFromText(v);
    ClassFromText(w);
    var whole := Text(v) + r;
    assert whole[0] == Text(v)[0] == Text(w)[0];
    match v
    case Null => assert whole[4..] == r == q;
    case Bool(b) => assert whole[if b then 4 else 5..] == r == q;
    case Int(n) => IntUnambiguous(n, w.n, r, q);
    case Str(s) => StringUnambiguous(s, w.s, r, q);
    case List(_) => ListUnambiguous(v, w, r, q);
    case Dict(_) => DictUnambiguous(v, w, r, q);
  }

  /** A nonempty list after its opening bracket, with whatever follows it. */
  lemma ListTail(v: Json, r: bytes)
    requires v.List? && v.items != []
    ensures (Text(v) + r)[1..] == Text(v.items[0]) + (ItemsText(v.items[1..]) + r)
  {
    hide ItemsText;
    var first, rest := Text(v.items[0]), ItemsText(v.items[1..]);
    hide Text;
    assert Text(v) == [0x5B] + first + rest by { UnfoldList(v); }
    assert [0x5B] + first + rest + r == [0x5B] + (first + (rest + r));
  }

  lemma UnfoldList(v: Json)
    requires v.List? && v.items != []
    ensures Text(v) == [0x5B] + Text(v.items[0]) + ItemsText(v.items[1..])
  {
  }

  lemma {:induction false} ListUnambiguous(v: Json, w: Json, r: bytes, q: bytes)
    requires v.List? && w.List? && Text(v) + r == Text(w) + q && NoDigitAhead(r) && NoDigitAhead(q)
    ensures v == w && r == q
    decreases v, 0
  {
    hide Text, ItemsText, NoDigitAhead;
    if v.items != [] && w.items != [] {
      var x, y := v.items[1..], w.items[1..];
      ListTail(v, r);
      ListTail(w, q);
      ItemsStop(x, r);
      ItemsStop(y, q);
      Unambiguous(v.items[0], w.items[0], ItemsText(x) + r, ItemsText(y) + q);
      ItemsUnambiguous(x, y, r, q);
      assert v.items == [v.items[0]] + x && w.items == [w.items[0]] + y;
    } else {
      EmptyUnambiguous(v, w, r, q);
    }
  }

  /** The second octet of a container's text shows whether it is empty, so both are or neither is. */
  lemma EmptyUnambiguous(v: Json, w: Json, r: bytes, q: bytes)
    requires Text(v) + r == Text(w) + q
    requires (v.List? && w.List? && (v.items == [] || w.items == []))
             || (v.Dict? && w.Dict? && (v.fields == [] || w.fields == []))
    ensures v == w && r == q
  {
    NotAClosing(v);
    NotAClosing(w);
    hide Text;
    var whole := Text(v) + r;
    assert whole[1] == Text(v)[1] == Text(w)[1];
    EmptyText(v);
    assert whole[2..] == r == q;
  }

  lemma EmptyText(v: Json)
    requires (v.List? && v.items == []) || (v.Dict? && v.fields == [])
    ensures |Text(v)| == 2
  {
  }

  /** After the opening bracket only an empty container continues with its closing bracket. */
  lemma NotAClosing(v: Json)
    requires v.List? || v.Dict?
    ensures |Text(v)| >= 2
    ensures v.List? ==> (Text(v)[1] == 0x5D <==> v.items == [])
    ensures v.Dict? ==> (Text(v)[1] == 0x7D <==> v.fields == [])
  {
    if (v.List? && v.items == []) || (v.Dict? && v.fields == []) {
      EmptyText(v);
    } else {
      var first := if v.List? then Text(v.items[0]) else FieldText(v.fields[0]);
      var tail := first + ((if v.List? then ItemsText(v.items[1..]) else FieldsText(v.fields[1..])) + []);
      if v.List? {
        ListTail(v, []);
        ClassFromText(v.items[0]);
      } else {
        DictTail(v, []);
        FieldStart(v.fields[0]);
      }
      hide Text, FieldText, ItemsText, FieldsText;
      assert Text(v) + [] == Text(v);
      assert Text(v)[1..] == tail;
      assert Text(v)[1] == tail[0] == first[0];
    }
  }

  lemma FieldStart(f: Field)
    ensures FieldText(f) != [] && FieldText(f)[0] == QUOTE
  {
    hide Text, Body;
  }

  lemma ItemsStop(items: seq<Json>, r: bytes)
    ensures NoDigitAhead(ItemsText(items) + r)
  {
  }

  lemma {:induction false} ItemsUnambiguous(x: seq<Json>, y: seq<Json>, r: bytes, q: bytes)
    requires ItemsText(x) + r == ItemsText(y) + q && NoDigitAhead(r) && NoDigitAhead(q)
    ensures x == y && r == q
    decreases x
  {
    hide Text;
    var whole := ItemsText(x) + r;
    assert whole[0] == ItemsText(x)[0] == ItemsText(y)[0];
    if x == [] {
      assert whole[1..] == r == q;
    } else {
      var x', y' := ItemsText(x[1..]) + r, ItemsText(y[1..]) + q;
      assert whole[1..] == Text(x[0]) + x' == Text(y[0]) + y';
      ItemsStop(x[1..], r);
      ItemsStop(y[1..], q);
      Unambiguous(x[0], y[0], x', y');
      ItemsUnambiguous(x[1..], y[1..], r, q);
      assert x == [x[0]] + x[1..] && y == [y[0]] + y[1..];
    }
  }

  lemma {:induction false} FieldUnambiguous(f: Field, g: Field, r: bytes, q: bytes)
    requires FieldText(f) + r == FieldText(g) + q && NoDigitAhead(r) && NoDigitAhead(q)
    ensures f == g && r == q
    decreases f
  {
    hide StringText, Text;
    var f', g' := [0x3A] + (Text(f.value) + r), [0x3A] + (Text(g.value) + q);
    assert FieldText(f) + r == StringText(f.key) + f' && FieldText(g) + q == StringText(g.key) + g';
    StringUnambiguous(f.key, g.key, f', g');
    assert f'[1..] == Text(f.value) + r && g'[1..] == Text(g.value) + q;
    Unambiguous(f.value, g.value, r, q);
  }

  lemma FieldsStop(fields: seq<Field>, r: bytes)
    ensures NoDigitAhead(FieldsText(fields) + r)
  {
  }

  lemma {:induction false} FieldsUnambiguous(x: seq<Field>, y: seq<Field>, r: bytes, q: bytes)
    requires FieldsText(x) + r == FieldsText(y) + q && NoDigitAhead(r) && NoDigitAhead(q)
    ensures x == y && r == q
    decreases x
  {
    hide FieldText;
    var whole := FieldsText(x) + r;
    assert whole[0] == FieldsText(x)[0] == FieldsText(y)[0];
    if x == [] {
      assert whole[1..] == r == q;
    } else {
      var x', y' := FieldsText(x[1..]) + r, FieldsText(y[1..]) + q;
      assert whole[1..] == FieldText(x[0]) + x' == FieldText(y[0]) + y';
      FieldsStop(x[1..], r);
      FieldsStop(y[1..], q);
      FieldUnambiguous(x[0], y[0], x', y');
      FieldsUnambiguous(x[1..], y[1..], r, q);
      assert x == [x[0]] + x[1..] && y == [y[0]] + y[1..];
    }
  }

  lemma DictTail(v: Json, r: bytes)
    requires v.Dict? && v.fields != []
    ensures (Text(v) + r)[1..] == FieldText(v.fields[0]) + (FieldsText(v.fields[1..]) + r)
  {
    hide FieldText, FieldsText;
    var first, rest := FieldText(v.fields[0]), FieldsText(v.fields[1..]);
    hide Text;
    assert Text(v) == [0x7B] + first + rest by { UnfoldDict(v); }
    assert [0x7B] + first + rest + r == [0x7B] + (first + (rest + r));
  }

  lemma UnfoldDict(v: Json)
    requires v.Dict? && v.fields != []
    ensures Text(v) == [0x7B] + FieldText(v.fields[0]) + FieldsText(v.fields[1..])
  {
  }

  lemma {:induction false} DictUnambiguous(v: Json, w: Json, r: bytes, q: bytes)
    requires v.Dict? && w.Dict? && Text(v) + r == Text(w) + q && NoDigitAhead(r) && NoDigitAhead(q)
    ensures v == w && r == q
    decreases v, 0
  {
    hide Text, FieldText, FieldsText, NoDigitAhead;
    if v.fields != [] && w.fields != [] {
      var x, y := v.fields[1..], w.fields[1..];
      DictTail(v, r);
      DictTail(w, q);
      FieldsStop(x, r);
      FieldsStop(y, q);
      FieldUnambiguous(v.fields[0], w.fields[0], FieldsText(x) + r, FieldsText(y) + q);
      FieldsUnambiguous(x, y, r, q);
      assert v.fields == [v.fields[0]] + x && w.fields == [w.fields[0]] + y;
    } else {
      EmptyUnambiguous(v, w, r, q);
    }
  }

  /** Distinct trees print to distinct octet strings. */
  lemma PrinterInjective(v: Json, w: Json)
    ensures Text(v) == Text(w) <==> v == w
  {
    if Text(v) == Text(w) {
      assert Text(v) + [] == Text(w) + [];
      Unambiguous(v, w, [], []);
    }
  }
}
