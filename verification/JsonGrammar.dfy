/**
 JSON texts by the grammar of RFC 8259 (sections 2 to 7), with all their insignificant whitespace, and
 what the structural scanner does on each of them.
 */
module JsonGrammar {
  import opened Bytes
  import opened Scanner

  /** A value between two runs of insignificant whitespace. */
  datatype Element = Element(before: bytes, value: Value, after: bytes)

  /** Scalars are number and literal tokens; strings are kept raw, escapes and all. */
  datatype Value =
    | Scalar(token: bytes)
    | Text(body: bytes)
    | Array(space: bytes, elements: seq<Element>)
    | Object(space: bytes, members: seq<Member>)

  datatype Member = Member(before: bytes, key: bytes, after: bytes, element: Element)

  predicate Spaces(s: bytes) { forall i :: 0 <= i < |s| ==> IsSpace(s[i]) }

  /** Letters, digits, sign and point: all that numbers and literals are made of. */
  predicate TokenByte(c: byte) {
    48 <= c <= 57 || 65 <= c <= 90 || 97 <= c <= 122 || c == 43 || c == 45 || c == 46
  }

  /** Raw string content: no control octet, no bare quote, every backslash escapes one octet. */
  predicate BodyOk(body: bytes) {
    body == []
    || (if body[0] == BACKSLASH then |body| >= 2 && BodyOk(body[2..])
        else body[0] != QUOTE && body[0] >= 0x20 && BodyOk(body[1..]))
  }

  predicate ElementOk(e: Element) {
    Spaces(e.before) && ValueOk(e.value) && Spaces(e.after)
  }

  predicate ValueOk(v: Value) {
    match v
    case Scalar(token) => token != [] && forall i :: 0 <= i < |token| ==> TokenByte(token[i])
    case Text(body) => BodyOk(body)
    case Array(space, elements) =>
      Spaces(space) && forall i :: 0 <= i < |elements| ==> ElementOk(elements[i])
    case Object(space, members) =>
      Spaces(space) && forall i :: 0 <= i < |members| ==>
        Spaces(members[i].before) && BodyOk(members[i].key) && Spaces(members[i].after)
        && ElementOk(members[i].element)
  }

  // Section by section --------------------------------------------------------

  predicate Digits(s: bytes) { s != [] && forall i :: 0 <= i < |s| ==> 48 <= s[i] <= 57 }

  /** Section 6: digits without a leading zero, then a fraction, then an exponent, the latter two optional. */
  predicate IntPart(s: bytes) { Digits(s) && (|s| > 1 ==> s[0] != 48) }

  predicate FractionPart(s: bytes) { s == [] || (s[0] == 46 && Digits(s[1..])) }

  predicate ExponentPart(s: bytes) {
    s == []
    || ((s[0] == 69 || s[0] == 101)
        && (Digits(s[1..]) || (|s| > 1 && (s[1] == 43 || s[1] == 45) && Digits(s[2..]))))
  }

  predicate Number(t: bytes) {
    var unsigned := if t != [] && t[0] == 45 then t[1..] else t;
    exists i: nat, j: nat :: i <= j <= |unsigned| && IntPart(unsigned[..i])
      && FractionPart(unsigned[i..j]) && ExponentPart(unsigned[j..])
  }

  /** Section 3: the three names, null, true and false. */
  predicate Name(t: bytes) {
    t in [[110, 117, 108, 108], [116, 114, 117, 101], [102, 97, 108, 115, 101]]
  }

  predicate HexOctet(c: byte) { 48 <= c <= 57 || 65 <= c <= 70 || 97 <= c <= 102 }

  /** Section 7: a backslash before one of the eight escapable characters, or before u and four hex digits. */
  predicate Escapes(body: bytes) {
    body == []
    || (if body[0] != BACKSLASH then body[0] != QUOTE && body[0] >= 0x20 && Escapes(body[1..])
        else
          || (|body| >= 2 && body[1] in [34, 92, 47, 98, 102, 110, 114, 116] && Escapes(body[2..]))
          || (|body| >= 6 && body[1] == 117 && (forall i :: 2 <= i < 6 ==> HexOctet(body[i])) && Escapes(body[6..])))
  }

  /** A text of the standard: every scalar a number or a name, every string and key with proper escapes. */
  predicate Proper(v: Value) {
    match v
    case Scalar(token) => Number(token) || Name(token)
    case Text(body) => Escapes(body)
    case Array(space, elements) =>
      Spaces(space) && forall i :: 0 <= i < |elements| ==> ProperElement(elements[i])
    case Object(space, members) =>
      Spaces(space) && forall i :: 0 <= i < |members| ==>
        Spaces(members[i].before) && Escapes(members[i].key) && Spaces(members[i].after)
        && ProperElement(members[i].element)
  }

  predicate ProperElement(e: Element) { Spaces(e.before) && Proper(e.value) && Spaces(e.after) }

  lemma NumberIsToken(t: bytes)
    requires Number(t)
    ensures t != [] && forall i :: 0 <= i < |t| ==> TokenByte(t[i])
  {
    var unsigned := if t != [] && t[0] == 45 then t[1..] else t;
    var i: nat, j: nat :| i <= j <= |unsigned| && IntPart(unsigned[..i])
      && FractionPart(unsigned[i..j]) && ExponentPart(unsigned[j..]);
    PartsAreTokens(unsigned[..i], unsigned[i..j], unsigned[j..]);
    NonemptyInt(unsigned[..i]);
    hide IntPart, FractionPart, ExponentPart, TokenByte;
    assert unsigned == unsigned[..i] + unsigned[i..j] + unsigned[j..];
    SignedTokens(t, unsigned);
  }

  lemma NonemptyInt(s: bytes)
    requires IntPart(s)
    ensures s != []
  {
  }

  lemma SignedTokens(t: bytes, unsigned: bytes)
    requires unsigned == (if t != [] && t[0] == 45 then t[1..] else t)
    requires forall i :: 0 <= i < |unsigned| ==> TokenByte(unsigned[i])
    ensures forall i :: 0 <= i < |t| ==> TokenByte(t[i])
  {
    forall i | 0 <= i < |t| ensures TokenByte(t[i]) {
      if unsigned != t && i > 0 {
        assert t[i] == unsigned[i - 1];
      }
    }
  }

  lemma PartsAreTokens(x: bytes, y: bytes, z: bytes)
    requires IntPart(x) && FractionPart(y) && ExponentPart(z)
    ensures forall k :: 0 <= k < |x + y + z| ==> TokenByte((x + y + z)[k])
  {
    AllTokens(x, 0);
    AllTokens(y, 1);
    if z != [] && !Digits(z[1..]) {
      assert TokenByte(z[0]) && TokenByte(z[1]);
      AllTokens(z, 2);
    } else {
      AllTokens(z, 1);
    }
    forall k | 0 <= k < |x + y + z| ensures TokenByte((x + y + z)[k]) {
      assert (x + y + z)[k] == if k < |x| then x[k] else if k < |x + y| then y[k - |x|] else z[k - |x + y|];
    }
  }

  lemma AllTokens(s: bytes, k: nat)
    requires s != [] ==> k <= |s| && Digits(s[k..]) && forall i :: 0 <= i < k ==> TokenByte(s[i])
    ensures forall i :: 0 <= i < |s| ==> TokenByte(s[i])
  {
    forall i | 0 <= i < |s| ensures TokenByte(s[i]) {
      if i >= k {
        assert s[i] == s[k..][i - k];
      }
    }
  }

  lemma {:induction false} EscapesAreOk(body: bytes)
    requires Escapes(body)
    ensures BodyOk(body)
    decreases |body|
  {
    if body != [] {
      if body[0] != BACKSLASH {
        EscapesAreOk(body[1..]);
      } else if |body| >= 2 && body[1] in [34, 92, 47, 98, 102, 110, 114, 116] && Escapes(body[2..]) {
        EscapesAreOk(body[2..]);
      } else {
        EscapesAreOk(body[6..]);
        var h := body[2..];
        assert h[1..][1..][1..][1..] == body[6..];
        assert HexOctet(body[2]) && HexOctet(body[3]) && HexOctet(body[4]) && HexOctet(body[5]);
        assert BodyOk(h[1..][1..][1..]) && BodyOk(h[1..][1..]) && BodyOk(h[1..]);
      }
    }
  }

  /** What holds of all well-formed values holds of all texts of the standard. */
  lemma {:induction false} ProperIsOk(v: Value)
    requires Proper(v)
    ensures ValueOk(v)
    decreases v
  {
    hide Number, Escapes, BodyOk;
    match v
    case Scalar(token) =>
      if Number(token) {
        NumberIsToken(token);
      }
    case Text(body) => EscapesAreOk(body);
    case Array(_, elements) =>
      forall i | 0 <= i < |elements| ensures ElementOk(elements[i]) {
        ProperIsOk(elements[i].value);
      }
    case Object(_, members) =>
      forall i | 0 <= i < |members| ensures BodyOk(members[i].key) && ElementOk(members[i].element) {
        EscapesAreOk(members[i].key);
        ProperIsOk(members[i].element.value);
      }
  }

  // Rendering ---------------------------------------------------------------

  function Quoted(body: bytes): bytes { [QUOTE] + body + [QUOTE] }

  function RenderElement(e: Element): bytes {
    e.before + Render(e.value) + e.after
  }

  function Render(v: Value): bytes {
    match v
    case Scalar(token) => token
    case Text(body) => Quoted(body)
    case Array(space, elements) =>
      if elements == [] then [0x5B] + space + [0x5D]
      else [0x5B] + RenderElement(elements[0]) + RenderElements(elements[1..])
    case Object(space, members) =>
      if members == [] then [0x7B] + space + [0x7D]
      else [0x7B] + RenderMember(members[0]) + RenderMembers(members[1..])
  }

  /** The rest of an array after its first element, closing bracket included. */
  function RenderElements(elements: seq<Element>): bytes {
    if elements == [] then [0x5D]
    else [0x2C] + RenderElement(elements[0]) + RenderElements(elements[1..])
  }

  function RenderMember(m: Member): bytes {
    m.before + Quoted(m.key) + m.after + [0x3A] + RenderElement(m.element)
  }

  function RenderMembers(members: seq<Member>): bytes {
    if members == [] then [0x7D]
    else [0x2C] + RenderMember(members[0]) + RenderMembers(members[1..])
  }

  // The parsed tree's size --------------------------------------------------

  function Max(x: nat, y: nat): nat { if x < y then y else x }

  /** How many containers are nested at the deepest point. */
  function Nesting(v: Value): nat {
    match v
    case Scalar(_) => 0
    case Text(_) => 0
    case Array(_, elements) => 1 + ElementsNesting(elements)
    case Object(_, members) => 1 + MembersNesting(members)
  }

  function ElementsNesting(elements: seq<Element>): nat {
    if elements == [] then 0
    else Max(Nesting(elements[0].value), ElementsNesting(elements[1..]))
  }

  function MembersNesting(members: seq<Member>): nat {
    if members == [] then 0
    else Max(Nesting(members[0].element.value), MembersNesting(members[1..]))
  }

  /** One for every container, key, string and scalar. */
  function Units(v: Value): nat {
    match v
    case Scalar(_) => 1
    case Text(_) => 1
    case Array(_, elements) => 1 + ElementsUnits(elements)
    case Object(_, members) => 1 + MembersUnits(members)
  }

  function ElementsUnits(elements: seq<Element>): nat {
    if elements == [] then 0 else Units(elements[0].value) + ElementsUnits(elements[1..])
  }

  function MembersUnits(members: seq<Member>): nat {
    if members == [] then 0 else 1 + Units(members[0].element.value) + MembersUnits(members[1..])
  }

  // The scanner on a rendering ----------------------------------------------

  lemma {:induction false} RunAppend(s: Scan, x: bytes, y: bytes)
    ensures Run(s, x + y) == match Run(s, x)
                             case None => None
                             case Some(t) => Run(t, y)
    decreases |x|
  {
    hide Step;
    if x == [] {
      assert x + y == y;
    } else {
      assert (x + y)[1..] == x[1..] + y;
      match Step(s, x[0])
      case None =>
      case Some(next) => RunAppend(next, x[1..], y);
    }
  }

  /** Insignificant whitespace changes nothing but the end of an open token. */
  lemma {:induction false} RunSpaces(s: Scan, space: bytes, rest: bytes)
    requires Spaces(space) && !s.mode.InString?
    ensures Run(s, space + rest) == Run(if space == [] then s else s.(mode := Outside), rest)
    decreases |space|
  {
    if space == [] {
      assert space + rest == rest;
    } else {
      assert (space + rest)[1..] == space[1..] + rest;
      RunSpaces(s.(mode := Outside), space[1..], rest);
    }
  }

  lemma {:induction false} RunBody(s: Scan, body: bytes, rest: bytes)
    requires BodyOk(body) && s.mode == InString(false)
    ensures Run(s, body + [QUOTE] + rest) == Run(s.(mode := Outside), rest)
    decreases |body|
  {
    var text := body + [QUOTE] + rest;
    if body == [] {
      assert text[1..] == rest;
    } else if body[0] == BACKSLASH {
      assert text[1..][1..] == body[2..] + [QUOTE] + rest;
      RunBody(s, body[2..], rest);
    } else {
      assert text[1..] == body[1..] + [QUOTE] + rest;
      RunBody(s, body[1..], rest);
    }
  }

  lemma RunQuoted(s: Scan, body: bytes, rest: bytes)
    requires BodyOk(body) && s.mode == Outside
    ensures Run(s, Quoted(body) + rest)
         == if s.nodes + 1 > MAX_NODES then None else Run(s.(nodes := s.nodes + 1), rest)
  {
    var tail := body + [QUOTE] + rest;
    assert Quoted(body) + rest == [QUOTE] + tail;
    RunOpeningQuote(s, tail);
    hide Run;
    if s.nodes + 1 <= MAX_NODES {
      RunBody(Scan(InString(false), s.depth, s.nodes + 1), body, rest);
    }
  }

  lemma RunOpeningQuote(s: Scan, tail: bytes)
    requires s.mode == Outside
    ensures Run(s, [QUOTE] + tail)
         == if s.nodes + 1 > MAX_NODES then None else Run(Scan(InString(false), s.depth, s.nodes + 1), tail)
  {
    assert ([QUOTE] + tail)[1..] == tail;
  }

  lemma {:induction false} RunTokenRest(s: Scan, token: bytes, rest: bytes)
    requires s.mode == InToken && forall i :: 0 <= i < |token| ==> TokenByte(token[i])
    ensures Run(s, token + rest) == Run(s, rest)
    decreases |token|
  {
    if token == [] {
      assert token + rest == rest;
    } else {
      assert (token + rest)[1..] == token[1..] + rest;
      RunTokenRest(s, token[1..], rest);
    }
  }

  /** Where an open token no longer matters: the text goes on with an octet that ends it. */
  predicate Delimited(rest: bytes) {
    rest != [] && EndsToken(rest[0])
  }

  lemma TokenClosed(s: Scan, rest: bytes)
    requires Delimited(rest) && s.mode == InToken
    ensures Run(s, rest) == Run(s.(mode := Outside), rest)
  {
  }

  /** The scanner after a value: refused when the value does not fit, else just counted. */
  function After(s: Scan, nesting: nat, units: nat, rest: bytes): Option<Scan> {
    if s.depth + nesting > MAX_DEPTH || s.nodes + units > MAX_NODES then None
    else Run(s.(nodes := s.nodes + units), rest)
  }

  lemma {:induction false} RunElement(s: Scan, e: Element, rest: bytes)
    requires ElementOk(e) && s.mode == Outside && s.depth <= MAX_DEPTH && s.nodes <= MAX_NODES
    requires Delimited(rest)
    ensures Run(s, RenderElement(e) + rest) == After(s, Nesting(e.value), Units(e.value), rest)
    decreases e, 2
  {
    hide Run, Step, Nesting, Units;
    var tail := e.after + rest;
    assert RenderElement(e) + rest == e.before + (Render(e.value) + tail);
    RunSpaces(s, e.before, Render(e.value) + tail);
    assert Delimited(tail);
    RunValue(s, e.value, tail);
    RunSpaces(s.(nodes := s.nodes + Units(e.value)), e.after, rest);
  }

  lemma {:induction false} RunValue(s: Scan, v: Value, rest: bytes)
    requires ValueOk(v) && s.mode == Outside && s.depth <= MAX_DEPTH && s.nodes <= MAX_NODES
    requires Delimited(rest)
    ensures Run(s, Render(v) + rest) == After(s, Nesting(v), Units(v), rest)
    decreases v, 1
  {
    hide Run, Step;
    match v
    case Scalar(token) => RunScalar(s, token, rest);
    case Text(body) => RunQuoted(s, body, rest);
    case Array(_, _) => RunArray(s, v, rest);
    case Object(_, _) => RunObject(s, v, rest);
  }

  lemma {:induction false} RunArray(s: Scan, v: Value, rest: bytes)
    requires ValueOk(v) && v.Array? && s.mode == Outside && s.depth <= MAX_DEPTH && s.nodes <= MAX_NODES
    requires Delimited(rest)
    ensures Run(s, Render(v) + rest) == After(s, Nesting(v), Units(v), rest)
    decreases v, 0
  {
    hide Run, Step, RenderElement, RenderElements, BodyOk;
    var inner := Render(v)[1..];
    RunOpen(s, 0x5B, inner + rest);
    assert Render(v) + rest == [0x5B] + (inner + rest);
    if s.depth + 1 <= MAX_DEPTH && s.nodes + 1 <= MAX_NODES {
      var t := Scan(Outside, s.depth + 1, s.nodes + 1);
      if v.elements == [] {
        assert inner + rest == v.space + ([0x5D] + rest);
        RunSpaces(t, v.space, [0x5D] + rest);
        RunClose(t, 0x5D, rest);
      } else {
        var first, more := v.elements[0], RenderElements(v.elements[1..]);
        assert inner + rest == RenderElement(first) + (more + rest);
        ElementsDelimited(v.elements[1..], rest);
        RunElement(t, first, more + rest);
        if t.depth + Nesting(first.value) <= MAX_DEPTH && t.nodes + Units(first.value) <= MAX_NODES {
          RunElements(t.(nodes := t.nodes + Units(first.value)), v.elements[1..], rest);
        }
      }
    }
  }

  lemma {:induction false} RunObject(s: Scan, v: Value, rest: bytes)
    requires ValueOk(v) && v.Object? && s.mode == Outside && s.depth <= MAX_DEPTH && s.nodes <= MAX_NODES
    requires Delimited(rest)
    ensures Run(s, Render(v) + rest) == After(s, Nesting(v), Units(v), rest)
    decreases v, 0
  {
    hide Run, Step, RenderMember, RenderMembers, BodyOk;
    var inner := Render(v)[1..];
    RunOpen(s, 0x7B, inner + rest);
    assert Render(v) + rest == [0x7B] + (inner + rest);
    if s.depth + 1 <= MAX_DEPTH && s.nodes + 1 <= MAX_NODES {
      var t := Scan(Outside, s.depth + 1, s.nodes + 1);
      if v.members == [] {
        assert inner + rest == v.space + ([0x7D] + rest);
        RunSpaces(t, v.space, [0x7D] + rest);
        RunClose(t, 0x7D, rest);
      } else {
        var first, more := v.members[0], RenderMembers(v.members[1..]);
        assert inner + rest == RenderMember(first) + (more + rest);
        MembersDelimited(v.members[1..], rest);
        RunMember(t, first, more + rest);
        var w := first.element.value;
        if t.depth + Nesting(w) <= MAX_DEPTH && t.nodes + 1 + Units(w) <= MAX_NODES {
          RunMembers(t.(nodes := t.nodes + 1 + Units(w)), v.members[1..], rest);
        }
      }
    }
  }

  lemma ElementsDelimited(elements: seq<Element>, rest: bytes)
    ensures Delimited(RenderElements(elements) + rest)
  {
  }

  lemma MembersDelimited(members: seq<Member>, rest: bytes)
    ensures Delimited(RenderMembers(members) + rest)
  {
  }

  lemma StepIntoToken(s: Scan, c: byte)
    requires TokenByte(c) && s.mode == Outside
    ensures Step(s, c) == Counted(Scan(InToken, s.depth, s.nodes + 1))
  {
  }

  lemma RunScalar(s: Scan, token: bytes, rest: bytes)
    requires ValueOk(Scalar(token)) && s.mode == Outside && Delimited(rest)
    ensures Run(s, token + rest)
         == if s.nodes + 1 > MAX_NODES then None else Run(s.(nodes := s.nodes + 1), rest)
  {
    hide BodyOk;
    StepIntoToken(s, token[0]);
    assert (token + rest)[1..] == token[1..] + rest;
    var t := Scan(InToken, s.depth, s.nodes + 1);
    RunTokenRest(t, token[1..], rest);
    TokenClosed(t, rest);
  }

  lemma RunOpen(s: Scan, bracket: byte, rest: bytes)
    requires Opens(bracket) && s.mode == Outside
    ensures Run(s, [bracket] + rest)
         == if s.depth + 1 > MAX_DEPTH || s.nodes + 1 > MAX_NODES then None
            else Run(Scan(Outside, s.depth + 1, s.nodes + 1), rest)
  {
    assert ([bracket] + rest)[1..] == rest;
  }

  lemma RunClose(s: Scan, bracket: byte, rest: bytes)
    requires Closes(bracket) && s.mode == Outside && s.depth > 0 && s.nodes <= MAX_NODES
    ensures Run(s, [bracket] + rest) == Run(s.(depth := s.depth - 1), rest)
  {
    assert ([bracket] + rest)[1..] == rest;
  }

  lemma RunSeparator(s: Scan, c: byte, rest: bytes)
    requires Separates(c) && s.mode == Outside
    ensures Run(s, [c] + rest) == Run(s, rest)
  {
    assert ([c] + rest)[1..] == rest;
  }

  lemma {:induction false} RunElements(s: Scan, elements: seq<Element>, rest: bytes)
    requires forall i :: 0 <= i < |elements| ==> ElementOk(elements[i])
    requires s.mode == Outside && 0 < s.depth <= MAX_DEPTH && s.nodes <= MAX_NODES && Delimited(rest)
    ensures Run(s, RenderElements(elements) + rest)
         == if s.depth + ElementsNesting(elements) > MAX_DEPTH || s.nodes + ElementsUnits(elements) > MAX_NODES
            then None
            else Run(Scan(Outside, s.depth - 1, s.nodes + ElementsUnits(elements)), rest)
    decreases elements
  {
    hide Run, Step;
    if elements == [] {
      RunClose(s, 0x5D, rest);
    } else {
      var first, more := elements[0], RenderElements(elements[1..]);
      assert RenderElements(elements) + rest == [0x2C] + (RenderElement(first) + (more + rest));
      RunSeparator(s, 0x2C, RenderElement(first) + (more + rest));
      RunElement(s, first, more + rest);
      if s.depth + Nesting(first.value) <= MAX_DEPTH && s.nodes + Units(first.value) <= MAX_NODES {
        RunElements(s.(nodes := s.nodes + Units(first.value)), elements[1..], rest);
      }
    }
  }

  lemma {:induction false} RunMember(s: Scan, m: Member, rest: bytes)
    requires Spaces(m.before) && BodyOk(m.key) && Spaces(m.after) && ElementOk(m.element)
    requires s.mode == Outside && s.depth <= MAX_DEPTH && s.nodes <= MAX_NODES && Delimited(rest)
    ensures Run(s, RenderMember(m) + rest)
         == After(s, Nesting(m.element.value), 1 + Units(m.element.value), rest)
    decreases m
  {
    hide Run, Step, Nesting, Units;
    var element := RenderElement(m.element) + rest;
    var colon := m.after + ([0x3A] + element);
    assert RenderMember(m) + rest == m.before + (Quoted(m.key) + colon);
    RunSpaces(s, m.before, Quoted(m.key) + colon);
    RunQuoted(s, m.key, colon);
    if s.nodes + 1 <= MAX_NODES {
      var t := s.(nodes := s.nodes + 1);
      RunSpaces(t, m.after, [0x3A] + element);
      RunSeparator(t, 0x3A, element);
      RunElement(t, m.element, rest);
    }
  }

  lemma {:induction false} RunMembers(s: Scan, members: seq<Member>, rest: bytes)
    requires forall i :: 0 <= i < |members| ==>
      Spaces(members[i].before) && BodyOk(members[i].key) && Spaces(members[i].after)
      && ElementOk(members[i].element)
    requires s.mode == Outside && 0 < s.depth <= MAX_DEPTH && s.nodes <= MAX_NODES && Delimited(rest)
    ensures Run(s, RenderMembers(members) + rest)
         == if s.depth + MembersNesting(members) > MAX_DEPTH || s.nodes + MembersUnits(members) > MAX_NODES
            then None
            else Run(Scan(Outside, s.depth - 1, s.nodes + MembersUnits(members)), rest)
    decreases members
  {
    hide Run, Step;
    if members == [] {
      RunClose(s, 0x7D, rest);
    } else {
      var first, more := members[0], RenderMembers(members[1..]);
      assert RenderMembers(members) + rest == [0x2C] + (RenderMember(first) + (more + rest));
      RunSeparator(s, 0x2C, RenderMember(first) + (more + rest));
      RunMember(s, first, more + rest);
      var v := first.element.value;
      if s.depth + Nesting(v) <= MAX_DEPTH && s.nodes + 1 + Units(v) <= MAX_NODES {
        RunMembers(s.(nodes := s.nodes + 1 + Units(v)), members[1..], rest);
      }
    }
  }

  /** One trailing space decides nothing, so a text may be judged as if delimited. */
  lemma TrailingSpace(text: bytes)
    ensures Accepts(text) <==> Accepts(text + [0x20])
  {
    RunAppend(Start, text, [0x20]);
  }

  /**
   The scanner's exact verdict on every JSON text, whatever its whitespace: accepted if and only if the
   value nests at most 32 containers and has at most 4096 containers, keys, strings and scalars.
   */
  lemma ScannerDecidesSize(e: Element)
    requires ElementOk(e)
    ensures Accepts(RenderElement(e)) <==> Nesting(e.value) <= MAX_DEPTH && Units(e.value) <= MAX_NODES
  {
    TrailingSpace(RenderElement(e));
    RunElement(Start, e, [0x20]);
  }
}
