/**
 Reading compact JSON text back, by RFC 8259 sections 3 to 7 and without looking at the printer: names
 by their letters, numbers digit by digit from the left, strings through their escapes. What the printer
 wrote is read as the tree it was given, so its octets mean that tree to any reader of JSON.
 */
module JsonReader {
  import opened Bytes
  import opened CanonicalJson

  /** What was read from the front of a text, and what is left of it. */
  datatype Reading<+T> = Fails | Reads(value: T, rest: bytes)

  predicate Starts(t: bytes, word: bytes) { word <= t }

  // Numbers -----------------------------------------------------------------

  predicate IsDigit(c: byte) { 48 <= c <= 57 }

  function DigitValue(c: byte): nat
    requires IsDigit(c)
  {
    c as int - 48
  }

  function DigitCount(t: bytes): (k: nat)
    ensures k <= |t| && forall i :: 0 <= i < k ==> IsDigit(t[i])
    ensures k < |t| ==> !IsDigit(t[k])
  {
    if t == [] || !IsDigit(t[0]) then 0 else 1 + DigitCount(t[1..])
  }

  /** From the left: each further digit makes ten times what was read so far and its own value. */
  function Decimal(value: nat, digits: bytes): nat
    requires forall i :: 0 <= i < |digits| ==> IsDigit(digits[i])
    decreases |digits|
  {
    if digits == [] then value else Decimal(10 * value + DigitValue(digits[0]), digits[1..])
  }

  /** An unsigned number: no leading zero in front of another digit. */
  function ReadDigits(t: bytes): (r: Reading<nat>)
    ensures r.Reads? ==> |r.rest| < |t|
  {
    var k := DigitCount(t);
    if k == 0 || (k > 1 && t[0] == 48) then Fails else Reads(Decimal(0, t[..k]), t[k..])
  }

  function ReadNumber(t: bytes): (r: Reading<int>)
    ensures r.Reads? ==> |r.rest| < |t|
  {
    if t != [] && t[0] == 45 then
      match ReadDigits(t[1..])
      case Fails => Fails
      case Reads(n, rest) => Reads(0 - n as int, rest)
    else ReadDigits(t)
  }

  // Strings -----------------------------------------------------------------

  function HexValue(c: byte): (v: Option<nat>)
    ensures v.Some? ==> v.value < 16
  {
    if IsDigit(c) then Some(c - 48)
    else if 65 <= c <= 70 then Some(c - 55)
    else if 97 <= c <= 102 then Some(c - 87) else None
  }

  function ReadHex(t: bytes): (u: Option<unit>)
    requires |t| == 4
  {
    var a, b, c, d := HexValue(t[0]), HexValue(t[1]), HexValue(t[2]), HexValue(t[3]);
    if a.Some? && b.Some? && c.Some? && d.Some?
    then Some(((a.value * 16 + b.value) * 16 + c.value) * 16 + d.value) else None
  }

  /** Quote, backslash, slash, backspace, form feed, line feed, carriage return, tab. */
  function Escaped(c: byte): Option<unit> {
    match c
    case 34 => Some(34)
    case 92 => Some(92)
    case 47 => Some(47)
    case 98 => Some(8)
    case 102 => Some(12)
    case 110 => Some(10)
    case 114 => Some(13)
    case 116 => Some(9)
    case _ => None
  }

  /** One unit of a string: as it stands, or escaped. */
  function ReadUnit(t: bytes): (r: Reading<unit>)
    requires t != []
    ensures r.Reads? ==> |r.rest| < |t|
  {
    if t[0] != 92 then (if 32 <= t[0] < 128 && t[0] != 34 then Reads(t[0], t[1..]) else Fails)
    else if |t| < 2 then Fails
    else if t[1] == 117 then
      if |t| < 6 || ReadHex(t[2..6]).None? then Fails else Reads(ReadHex(t[2..6]).value, t[6..])
    else if Escaped(t[1]).None? then Fails else Reads(Escaped(t[1]).value, t[2..])
  }

  /** A string after its opening quote. */
  function ReadString(t: bytes): (r: Reading<seq<unit>>)
    ensures r.Reads? ==> |r.rest| < |t|
    decreases |t|
  {
    if t == [] then Fails
    else if t[0] == 34 then Reads([], t[1..])
    else
      match ReadUnit(t)
      case Fails => Fails
      case Reads(u, more) =>
        match ReadString(more)
        case Fails => Fails
        case Reads(s, rest) => Reads([u] + s, rest)
  }

  // Values ------------------------------------------------------------------

  function ReadValue(t: bytes): (r: Reading<Json>)
    ensures r.Reads? ==> |r.rest| < |t|
    decreases |t|, 0
  {
    if t == [] then Fails
    else if Starts(t, [110, 117, 108, 108]) then Reads(Null, t[4..])
    else if Starts(t, [116, 114, 117, 101]) then Reads(Bool(true), t[4..])
    else if Starts(t, [102, 97, 108, 115, 101]) then Reads(Bool(false), t[5..])
    else if t[0] == 34 then
      match ReadString(t[1..])
      case Fails => Fails
      case Reads(s, rest) => Reads(Str(s), rest)
    else if t[0] == 91 then
      if |t| > 1 && t[1] == 93 then Reads(List([]), t[2..])
      else
        match ReadItems(t[1..])
        case Fails => Fails
        case Reads(items, rest) => Reads(List(items), rest)
    else if t[0] == 123 then
      if |t| > 1 && t[1] == 125 then Reads(Dict([]), t[2..])
      else
        match ReadFields(t[1..])
        case Fails => Fails
        case Reads(fields, rest) => Reads(Dict(fields), rest)
    else
      match ReadNumber(t)
      case Fails => Fails
      case Reads(n, rest) => Reads(Int(n), rest)
  }

  /** One item, and the others up to the closing bracket. */
  function ReadItems(t: bytes): (r: Reading<seq<Json>>)
    ensures r.Reads? ==> |r.rest| < |t|
    decreases |t|, 1
  {
    match ReadValue(t)
    case Fails => Fails
    case Reads(v, more) =>
      if more != [] && more[0] == 93 then Reads([v], more[1..])
      else if more == [] || more[0] != 44 then Fails
      else
        match ReadItems(more[1..])
        case Fails => Fails
        case Reads(items, rest) => Reads([v] + items, rest)
  }

  function ReadField(t: bytes): (r: Reading<Field>)
    ensures r.Reads? ==> |r.rest| < |t|
    decreases |t|, 1
  {
    if t == [] || t[0] != 34 then Fails
    else
      match ReadString(t[1..])
      case Fails => Fails
      case Reads(key, more) =>
        if more == [] || more[0] != 58 then Fails
        else
          match ReadValue(more[1..])
          case Fails => Fails
          case Reads(v, rest) => Reads(Field(key, v), rest)
  }

  function ReadFields(t: bytes): (r: Reading<seq<Field>>)
    ensures r.Reads? ==> |r.rest| < |t|
    decreases |t|, 2
  {
    match ReadField(t)
    case Fails => Fails
    case Reads(f, more) =>
      if more != [] && more[0] == 125 then Reads([f], more[1..])
      else if more == [] || more[0] != 44 then Fails
      else
        match ReadFields(more[1..])
        case Fails => Fails
        case Reads(fields, rest) => Reads([f] + fields, rest)
  }

  /** A whole text. */
  function Read(t: bytes): Option<Json> {
    match ReadValue(t)
    case Fails => None
    case Reads(v, rest) => if rest == [] then Some(v) else None
  }

  // What was printed is read back ----------------------------------------------

  lemma {:induction false} DigitCountStops(d: bytes, rest: bytes)
    requires NoDigitAhead(rest) && forall i :: 0 <= i < |d| ==> IsDigit(d[i])
    ensures DigitCount(d + rest) == |d|
    decreases |d|
  {
    if d == [] {
      assert d + rest == rest;
    } else {
      assert (d + rest)[1..] == d[1..] + rest;
      DigitCountStops(d[1..], rest);
    }
  }

  lemma {:induction false} DecimalAppend(value: nat, d: bytes, e: bytes)
    requires forall i :: 0 <= i < |d| ==> IsDigit(d[i])
    requires forall i :: 0 <= i < |e| ==> IsDigit(e[i])
    ensures Decimal(value, d + e) == Decimal(Decimal(value, d), e)
    decreases |d|
  {
    if d == [] {
      assert d + e == e;
    } else {
      assert (d + e)[1..] == d[1..] + e;
      DecimalAppend(10 * value + DigitValue(d[0]), d[1..], e);
    }
  }

  /** The digits of a number, from the left, are that number; a leading zero is the number zero. */
  lemma {:induction false} DigitsMean(n: nat)
    ensures Decimal(0, Digits(n)) == n
    ensures Digits(n)[0] == 48 <==> n == 0
    ensures |Digits(n)| > 1 ==> n >= 10
  {
    if n < 10 {
      assert Digits(n)[1..] == [];
    } else {
      DigitsMean(n / 10);
      var last: bytes := [48 + n % 10];
      DecimalAppend(0, Digits(n / 10), last);
      assert last[1..] == [];
    }
  }

  lemma DigitsReadBack(n: nat, rest: bytes)
    requires NoDigitAhead(rest)
    ensures ReadDigits(Digits(n) + rest) == Reads(n, rest) && (Digits(n) + rest)[0] != 45
  {
    var d := Digits(n);
    DigitsMean(n);
    DigitCountStops(d, rest);
    hide Digits, DigitCount, Decimal;
    var t := d + rest;
    assert t[..|d|] == d && t[|d|..] == rest && t[0] == d[0];
  }

  lemma NumberReadsBack(n: int, rest: bytes)
    requires NoDigitAhead(rest)
    ensures ReadNumber(IntText(n) + rest) == Reads(n, rest)
  {
    hide Digits, ReadDigits, NoDigitAhead;
    if n < 0 {
      DigitsReadBack(-n, rest);
      Negative(Digits(-n), rest);
    } else {
      DigitsReadBack(n, rest);
    }
  }

  lemma Negative(d: bytes, rest: bytes)
    ensures [45] + d + rest != [] && ([45] + d + rest)[0] == 45 && ([45] + d + rest)[1..] == d + rest
  {
  }

  lemma HexReadsBack(u: unit)
    ensures ReadHex(Hex4(u)) == Some(u)
  {
    HexParts(u);
  }

  predicate LowerHex(c: byte) { IsDigit(c) || 97 <= c <= 102 }

  /**
   Which of its spellings a unit gets: itself when it is printable ASCII other than quote and backslash,
   else the two-octet escape if there is one, slash apart, else four lower-case hex digits.
   */
  lemma UnitSpelling(u: unit)
    ensures var e := EscapeUnit(u);
            if 32 <= u <= 126 && u != 34 && u != 92 then e == [u]
            else if exists c :: c != 47 && Escaped(c) == Some(u) then
              |e| == 2 && e[0] == 92 && Escaped(e[1]) == Some(u)
            else
              && |e| == 6 && e[0] == 92 && e[1] == 117 && ReadHex(e[2..]) == Some(u)
              && forall i :: 2 <= i < 6 ==> LowerHex(e[i])
  {
    var e := EscapeUnit(u);
    if |e| == 6 {
      HexReadsBack(u);
      assert e[2..] == Hex4(u);
    } else if |e| == 2 {
      assert Escaped(e[1]) == Some(u) && e[1] != 47;
    }
  }

  lemma UnitReadsBack(u: unit, rest: bytes)
    ensures EscapeUnit(u) + rest != [] && (EscapeUnit(u) + rest)[0] != 34
    ensures ReadUnit(EscapeUnit(u) + rest) == Reads(u, rest)
  {
    var e := EscapeUnit(u);
    var t := e + rest;
    if |e| == 6 {
      HexReadsBack(u);
      hide Hex4, ReadHex;
      assert t[2..6] == Hex4(u) && t[6..] == rest;
    } else if |e| == 2 {
      assert t[2..] == rest;
    } else {
      assert t[1..] == rest;
    }
  }

  /** The body of a printed string, read through its escapes, is the string. */
  lemma {:induction false} BodyReadsBack(s: seq<unit>, rest: bytes)
    ensures ReadString(Body(s) + ([34] + rest)) == Reads(s, rest)
    decreases |s|
  {
    hide EscapeUnit, ReadUnit;
    if s != [] {
      var more := Body(s[1..]) + ([34] + rest);
      assert Body(s) + ([34] + rest) == EscapeUnit(s[0]) + more;
      UnitReadsBack(s[0], more);
      BodyReadsBack(s[1..], rest);
      assert s == [s[0]] + s[1..];
    } else {
      assert Body(s) + ([34] + rest) == [34] + rest;
    }
  }

  lemma StringReadsBack(s: seq<unit>, rest: bytes)
    ensures StringText(s) + rest != [] && (StringText(s) + rest)[0] == 34
    ensures ReadString((StringText(s) + rest)[1..]) == Reads(s, rest)
  {
    hide Body, ReadString;
    assert (StringText(s) + rest)[1..] == Body(s) + ([34] + rest);
    BodyReadsBack(s, rest);
  }

  /** A printed value, in front of anything that cannot lengthen a number, is read as that value. */
  lemma {:induction false} ValueReadsBack(v: Json, rest: bytes)
    requires NoDigitAhead(rest)
    ensures ReadValue(Text(v) + rest) == Reads(v, rest)
    decreases v, 2
  {
    hide ReadString, ReadItems, ReadFields, ReadNumber, ReadUnit, IntText, StringText;
    ClassFromText(v);
    var t := Text(v) + rest;
    assert t[0] == Text(v)[0];
    match v
    case Null => assert t[4..] == rest && Starts(t, [110, 117, 108, 108]);
    case Bool(b) =>
      if b {
        assert t[4..] == rest && Starts(t, [116, 114, 117, 101]);
      } else {
        assert t[5..] == rest && Starts(t, [102, 97, 108, 115, 101]);
      }
    case Int(n) => NumberReadsBack(n, rest);
    case Str(s) => StringReadsBack(s, rest);
    case List(items) =>
      if items == [] {
        assert t[2..] == rest;
      } else {
        ListTail(v, rest);
        SecondOctet(v, rest);
        ItemsReadBack(items, rest);
      }
    case Dict(fields) =>
      if fields == [] {
        assert t[2..] == rest;
      } else {
        DictTail(v, rest);
        SecondOctet(v, rest);
        FieldsReadBack(fields, rest);
      }
  }

  lemma SecondOctet(v: Json, rest: bytes)
    requires v.List? || v.Dict?
    ensures |Text(v)| >= 2 && (Text(v) + rest)[1] == Text(v)[1]
    ensures v.List? ==> (Text(v)[1] == 93 <==> v.items == [])
    ensures v.Dict? ==> (Text(v)[1] == 125 <==> v.fields == [])
  {
    hide Text;
    NotAClosing(v);
  }

  lemma {:induction false} ItemsReadBack(items: seq<Json>, rest: bytes)
    requires items != []
    ensures ReadItems(Text(items[0]) + (ItemsText(items[1..]) + rest)) == Reads(items, rest)
    decreases items, 0
  {
    hide Text, ReadValue;
    var more := ItemsText(items[1..]) + rest;
    ItemsStop(items[1..], rest);
    ValueReadsBack(items[0], more);
    if |items| == 1 {
      assert more == [93] + rest && more[1..] == rest && items == [items[0]];
    } else {
      var next := Text(items[1..][0]) + (ItemsText(items[1..][1..]) + rest);
      assert more == [44] + next && more[1..] == next;
      ItemsReadBack(items[1..], rest);
      assert items == [items[0]] + items[1..];
    }
  }

  lemma {:induction false} FieldReadsBack(f: Field, rest: bytes)
    requires NoDigitAhead(rest)
    ensures ReadField(FieldText(f) + rest) == Reads(f, rest)
    decreases f
  {
    hide Text, StringText, ReadValue, ReadString;
    var more := [58] + (Text(f.value) + rest);
    assert FieldText(f) + rest == StringText(f.key) + more;
    StringReadsBack(f.key, more);
    assert more[1..] == Text(f.value) + rest;
    ValueReadsBack(f.value, rest);
  }

  lemma {:induction false} FieldsReadBack(fields: seq<Field>, rest: bytes)
    requires fields != []
    ensures ReadFields(FieldText(fields[0]) + (FieldsText(fields[1..]) + rest)) == Reads(fields, rest)
    decreases fields, 0
  {
    hide FieldText, ReadField;
    var more := FieldsText(fields[1..]) + rest;
    FieldsStop(fields[1..], rest);
    FieldReadsBack(fields[0], more);
    if |fields| == 1 {
      assert more == [125] + rest && more[1..] == rest && fields == [fields[0]];
    } else {
      var next := FieldText(fields[1..][0]) + (FieldsText(fields[1..][1..]) + rest);
      assert more == [44] + next && more[1..] == next;
      FieldsReadBack(fields[1..], rest);
      assert fields == [fields[0]] + fields[1..];
    }
  }

  /** Canonical octets are read as the tree they were printed from ... */
  lemma PrintedIsRead(v: Json)
    ensures Read(Text(v)) == Some(v)
  {
    hide ReadValue, Text;
    ValueReadsBack(v, []);
    assert Text(v) + [] == Text(v);
  }

  /** ... so octets are somebody's print exactly when reading and printing them again changes nothing. */
  lemma CanonicalIffReprinted(octets: bytes)
    ensures (exists v: Json :: Text(v) == octets) <==> Read(octets).Some? && Text(Read(octets).value) == octets
  {
    if v: Json :| Text(v) == octets {
      PrintedIsRead(v);
    }
  }
}
