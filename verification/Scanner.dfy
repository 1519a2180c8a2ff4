/**
 The one-pass structural scanner that bounds JSON text before anything is parsed, measured against the
 texts of the RFC 8259 grammar: every value with any insignificant whitespace, strings in raw form.
 */
module Scanner {
  import opened Bytes

  const MAX_DEPTH := 32
  const MAX_NODES := 4096

  const QUOTE: byte := 0x22
  const BACKSLASH: byte := 0x5C

  predicate IsSpace(c: byte) { c == 0x20 || c == 0x09 || c == 0x0D || c == 0x0A }
  predicate Opens(c: byte) { c == 0x7B || c == 0x5B }
  predicate Closes(c: byte) { c == 0x7D || c == 0x5D }
  predicate Separates(c: byte) { c == 0x3A || c == 0x2C }

  /** Ends an unquoted unit: whitespace, comma, or a closing bracket. */
  predicate EndsToken(c: byte) { IsSpace(c) || c == 0x2C || Closes(c) }

  // The automaton -----------------------------------------------------------

  datatype Mode = Outside | InString(escaped: bool) | InToken
  datatype Scan = Scan(mode: Mode, depth: nat, nodes: nat)

  const Start := Scan(Outside, 0, 0)

  function Counted(s: Scan): Option<Scan> {
    if s.nodes > MAX_NODES then None else Some(s)
  }

  function StepOutside(s: Scan, c: byte): Option<Scan> {
    if IsSpace(c) || Separates(c) then Some(s.(mode := Outside))
    else if c == QUOTE then Counted(s.(mode := InString(false), nodes := s.nodes + 1))
    else if Opens(c) then
      if s.depth + 1 > MAX_DEPTH then None
      else Counted(Scan(Outside, s.depth + 1, s.nodes + 1))
    else if Closes(c) then
      if s.depth == 0 then None else Counted(Scan(Outside, s.depth - 1, s.nodes))
    else Counted(s.(mode := InToken, nodes := s.nodes + 1))
  }

  function Step(s: Scan, c: byte): Option<Scan> {
    match s.mode
    case InString(true) => Some(s.(mode := InString(false)))
    case InString(false) =>
      if c == BACKSLASH then Some(s.(mode := InString(true)))
      else if c == QUOTE then Some(s.(mode := Outside))
      else if c < 0x20 then None else Some(s)
    case InToken => if EndsToken(c) then StepOutside(s, c) else Some(s)
    case Outside => StepOutside(s, c)
  }

  function Run(s: Scan, text: bytes): Option<Scan>
    decreases |text|
  {
    if text == [] then Some(s)
    else
      match Step(s, text[0])
      case None => None
      case Some(next) => Run(next, text[1..])
  }

  /** From s the text ends outside strings and at depth zero. */
  predicate EndsWell(s: Scan, text: bytes) {
    match Run(s, text)
    case None => false
    case Some(t) => !t.mode.InString? && t.depth == 0
  }

  predicate Accepts(text: bytes) { EndsWell(Start, text) }

  // The loop ----------------------------------------------------------------

  lemma OneOctet(s: Scan, text: bytes, index: nat)
    requires index < |text|
    ensures var next := Step(s, text[index]);
            Run(s, text[index..]) == if next.None? then None else Run(next.value, text[index + 1..])
  {
    hide Step;
    assert text[index..][1..] == text[index + 1..];
  }

  /** Inside an unquoted unit everything up to its end is skipped. */
  lemma {:induction false} SkipUnit(s: Scan, text: bytes, index: nat, end: nat)
    requires s.mode.InToken? && index <= end <= |text|
    requires forall k :: index <= k < end ==> !EndsToken(text[k])
    ensures Run(s, text[index..]) == Run(s, text[end..])
    decreases |text| - index
  {
    hide Run;
    if index < end {
      OneOctet(s, text, index);
      SkipUnit(s, text, index + 1, end);
    }
  }

  /** At the end of a unit it no longer matters that there was one. */
  lemma LeaveUnit(depth: nat, nodes: nat, text: bytes, index: nat)
    requires index <= |text| && (index < |text| ==> EndsToken(text[index]))
    ensures EndsWell(Scan(InToken, depth, nodes), text[index..]) <==>
            EndsWell(Scan(Outside, depth, nodes), text[index..])
  {
    if index < |text| {
      OneOctet(Scan(InToken, depth, nodes), text, index);
      OneOctet(Scan(Outside, depth, nodes), text, index);
    }
  }

  /** An octet that begins an unquoted unit. */
  predicate BeginsUnit(c: byte) {
    !IsSpace(c) && !Separates(c) && c != QUOTE && !Opens(c) && !Closes(c)
  }

  lemma OneUnit(depth: nat, nodes: nat, text: bytes, first: nat, index: nat)
    requires first < index <= |text| && BeginsUnit(text[first])
    requires forall k :: first <= k < index ==> !EndsToken(text[k])
    requires index < |text| ==> EndsToken(text[index])
    ensures EndsWell(Scan(Outside, depth, nodes), text[first..]) <==>
              nodes + 1 <= MAX_NODES && EndsWell(Scan(Outside, depth, nodes + 1), text[index..])
  {
    hide Run;
    OneOctet(Scan(Outside, depth, nodes), text, first);
    SkipUnit(Scan(InToken, depth, nodes + 1), text, first + 1, index);
    LeaveUnit(depth, nodes + 1, text, index);
  }

  /** The scanner itself, index by index, with its inner loop over one unquoted unit. */
  method PreflightCanonicalJsonStructure(payload: bytes) returns (ok: bool)
    ensures ok <==> Accepts(payload)
  {
    var depth, nodes, index := 0, 0, 0;
    var inString, escaped := false, false;
    assert payload[0..] == payload;
    while index < |payload|
      invariant 0 <= index <= |payload| && depth >= 0 && nodes >= 0
      invariant escaped ==> inString
      invariant Accepts(payload) <==>
                  EndsWell(Scan(if inString then InString(escaped) else Outside, depth, nodes), payload[index..])
    {
      hide Run;
      var character := payload[index];
      OneOctet(Scan(if inString then InString(escaped) else Outside, depth, nodes), payload, index);
      if inString {
        if escaped {
          escaped := false;
        } else if character == BACKSLASH {
          escaped := true;
        } else if character == QUOTE {
          inString := false;
        } else if character < 0x20 {
          return false;
        }
        index := index + 1;
        continue;
      }
      if IsSpace(character) || Separates(character) {
        index := index + 1;
        continue;
      }
      if character == QUOTE {
        nodes := nodes + 1;
        inString := true;
      } else if Opens(character) {
        nodes := nodes + 1;
        depth := depth + 1;
        if depth > MAX_DEPTH {
          return false;
        }
      } else if Closes(character) {
        depth := depth - 1;
        if depth < 0 {
          return false;
        }
      } else {
        ghost var first := index;
        while index < |payload| && !EndsToken(payload[index])
          invariant first <= index <= |payload|
          invariant forall k :: first <= k < index ==> !EndsToken(payload[k])
        {
          index := index + 1;
        }
        OneUnit(depth, nodes, payload, first, index);
        nodes := nodes + 1;
        index := index - 1;
      }
      if nodes > MAX_NODES {
        return false;
      }
      index := index + 1;
    }
    return !(inString || escaped || depth != 0);
  }
}
