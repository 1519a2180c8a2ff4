/**
 Any octets at all, cut into the pieces that the structural scanners see: what each scanner accepts is
 said of the pieces, and what cannot be cut is refused.
 */
module Pieces {
  import opened Bytes
  import opened Scanner
  import G = JsonGrammar
  import P = OciPreflight

  datatype Piece =
    | Ignored(c: byte)        // whitespace, colon or comma
    | Quoted(body: bytes)     // a string, without its quotes
    | Opening(c: byte)
    | Closing(c: byte)
    | Unit(token: bytes)      // anything else

  predicate IsIgnored(c: byte) { c == 0x20 || c == 0x09 || c == 0x0D || c == 0x0A || c == 0x3A || c == 0x2C }

  predicate IsOther(c: byte) {
    !IsIgnored(c) && c != 0x22 && c != 0x7B && c != 0x5B && c != 0x7D && c != 0x5D
  }

  /** String content: no control octet, no bare quote, and no backslash without another octet after it. */
  predicate PieceOk(p: Piece) {
    match p
    case Ignored(c) => IsIgnored(c)
    case Quoted(body) => G.BodyOk(body)
    case Opening(c) => c == 0x7B || c == 0x5B
    case Closing(c) => c == 0x7D || c == 0x5D
    case Unit(token) => token != [] && IsOther(token[0])
  }

  function Octets(p: Piece): (s: bytes)
    ensures PieceOk(p) ==> s != []
  {
    match p
    case Ignored(c) => [c]
    case Quoted(body) => [QUOTE] + body + [QUOTE]
    case Opening(c) => [c]
    case Closing(c) => [c]
    case Unit(token) => token
  }

  function Flatten(ps: seq<Piece>): bytes {
    if ps == [] then [] else Octets(ps[0]) + Flatten(ps[1..])
  }

  /** Brackets match up from this depth to depth zero, never deeper than the limit. */
  predicate Balanced(ps: seq<Piece>, depth: nat, limit: nat) {
    if ps == [] then depth == 0
    else
      match ps[0]
      case Opening(_) => depth < limit && Balanced(ps[1..], depth + 1, limit)
      case Closing(_) => depth > 0 && Balanced(ps[1..], depth - 1, limit)
      case _ => Balanced(ps[1..], depth, limit)
  }

  /** Strings, containers and units. */
  function Count(ps: seq<Piece>): nat {
    if ps == [] then 0
    else Count(ps[1..]) + if ps[0].Quoted? || ps[0].Opening? || ps[0].Unit? then 1 else 0
  }

  // The scanner that counts units ----------------------------------------------

  /** A unit goes on to whitespace, a comma or a closing bracket. */
  predicate Ends(c: byte) { c == 0x20 || c == 0x09 || c == 0x0D || c == 0x0A || c == 0x2C || c == 0x7D || c == 0x5D }

  predicate WholeUnit(token: bytes, rest: bytes) {
    && (forall i :: 0 <= i < |token| ==> !Ends(token[i]))
    && (rest != [] ==> Ends(rest[0]))
  }

  predicate Cut(ps: seq<Piece>) {
    ps == [] || (PieceOk(ps[0]) && (ps[0].Unit? ==> WholeUnit(ps[0].token, Flatten(ps[1..]))) && Cut(ps[1..]))
  }

  lemma {:induction false} UnitRun(s: Scan, token: bytes, rest: bytes)
    requires s.mode == InToken && WholeUnit(token, rest)
    ensures EndsWell(s, token + rest) <==> EndsWell(s.(mode := Outside), rest)
    decreases |token|
  {
    if token == [] {
      assert token + rest == rest;
      if rest != [] {
        G.TokenClosed(s, rest);
      }
    } else {
      assert (token + rest)[1..] == token[1..] + rest;
      UnitRun(s, token[1..], rest);
    }
  }

  /** One piece: what the scanner does with it, whatever follows. */
  lemma PieceRun(s: Scan, p: Piece, rest: bytes)
    requires s.mode == Outside && s.nodes <= MAX_NODES && PieceOk(p)
    requires p.Unit? ==> WholeUnit(p.token, rest)
    ensures EndsWell(s, Octets(p) + rest) <==>
      match p
      case Ignored(_) => EndsWell(s, rest)
      case Opening(_) =>
        s.depth < MAX_DEPTH && s.nodes < MAX_NODES && EndsWell(Scan(Outside, s.depth + 1, s.nodes + 1), rest)
      case Closing(_) => s.depth > 0 && EndsWell(s.(depth := s.depth - 1), rest)
      case _ => s.nodes < MAX_NODES && EndsWell(s.(nodes := s.nodes + 1), rest)
  {
    hide Run;
    match p
    case Ignored(c) => FirstOctet(s, c, rest);
    case Quoted(body) => G.RunQuoted(s, body, rest);
    case Opening(c) => FirstOctet(s, c, rest);
    case Closing(c) => FirstOctet(s, c, rest);
    case Unit(token) =>
      assert token + rest == [token[0]] + (token[1..] + rest);
      FirstOctet(s, token[0], token[1..] + rest);
      if s.nodes < MAX_NODES {
        UnitRun(Scan(InToken, s.depth, s.nodes + 1), token[1..], rest);
      }
  }

  lemma FirstOctet(s: Scan, c: byte, rest: bytes)
    ensures Run(s, [c] + rest) == (var t := Step(s, c); if t.None? then None else Run(t.value, rest))
  {
    hide Step;
    assert ([c] + rest)[1..] == rest;
  }

  lemma {:induction false} CutRun(s: Scan, ps: seq<Piece>)
    requires s.mode == Outside && s.nodes <= MAX_NODES && Cut(ps)
    ensures EndsWell(s, Flatten(ps)) <==> Balanced(ps, s.depth, MAX_DEPTH) && s.nodes + Count(ps) <= MAX_NODES
    decreases |ps|
  {
    if ps != [] {
      hide Run, EndsWell, Octets;
      PieceRun(s, ps[0], Flatten(ps[1..]));
      match ps[0]
      case Ignored(_) => CutRun(s, ps[1..]);
      case Opening(_) => if s.nodes < MAX_NODES { CutRun(Scan(Outside, s.depth + 1, s.nodes + 1), ps[1..]); }
      case Closing(_) => if s.depth > 0 { CutRun(s.(depth := s.depth - 1), ps[1..]); }
      case _ => if s.nodes < MAX_NODES { CutRun(s.(nodes := s.nodes + 1), ps[1..]); }
    }
  }

  /** A string that the scanner comes out of. */
  lemma {:induction false} StringEnds(s: Scan, text: bytes) returns (body: bytes, rest: bytes)
    requires s.mode == InString(false) && EndsWell(s, text)
    ensures G.BodyOk(body) && text == body + [QUOTE] + rest && EndsWell(s.(mode := Outside), rest)
    decreases |text|
  {
    assert text != [];
    assert text == [text[0]] + text[1..];
    FirstOctet(s, text[0], text[1..]);
    if text[0] == QUOTE {
      body, rest := [], text[1..];
    } else if text[0] == BACKSLASH {
      var t := s.(mode := InString(true));
      assert |text| >= 2;
      assert text[1..] == [text[1]] + text[2..];
      FirstOctet(t, text[1], text[2..]);
      var more;
      more, rest := StringEnds(s, text[2..]);
      body := text[..2] + more;
      assert body[2..] == more;
    } else {
      var more;
      more, rest := StringEnds(s, text[1..]);
      body := [text[0]] + more;
      assert body[1..] == more;
    }
  }

  lemma {:induction false} UnitEnds(text: bytes) returns (token: bytes, rest: bytes)
    ensures text == token + rest && WholeUnit(token, rest)
    decreases |text|
  {
    if text == [] || Ends(text[0]) {
      token, rest := [], text;
    } else {
      var more;
      more, rest := UnitEnds(text[1..]);
      token := [text[0]] + more;
    }
  }

  /** Whatever is accepted can be cut. */
  lemma {:induction false} AcceptedIsCut(s: Scan, text: bytes) returns (ps: seq<Piece>)
    requires s.mode == Outside && s.nodes <= MAX_NODES && EndsWell(s, text)
    ensures Cut(ps) && Flatten(ps) == text
    decreases |text|
  {
    if text == [] {
      ps := [];
    } else {
      var p, rest := FirstPiece(s, text);
      PieceRun(s, p, rest);
      var more: seq<Piece>;
      match p {
        case Ignored(_) => more := AcceptedIsCut(s, rest);
        case Opening(_) => more := AcceptedIsCut(Scan(Outside, s.depth + 1, s.nodes + 1), rest);
        case Closing(_) => more := AcceptedIsCut(s.(depth := s.depth - 1), rest);
        case _ => more := AcceptedIsCut(s.(nodes := s.nodes + 1), rest);
      }
      ps := [p] + more;
    }
  }

  lemma FirstPiece(s: Scan, text: bytes) returns (p: Piece, rest: bytes)
    requires s.mode == Outside && text != [] && EndsWell(s, text)
    ensures PieceOk(p) && text == Octets(p) + rest && (p.Unit? ==> WholeUnit(p.token, rest))
  {
    var c := text[0];
    assert text == [c] + text[1..];
    if IsIgnored(c) {
      p, rest := Ignored(c), text[1..];
    } else if c == 0x7B || c == 0x5B {
      p, rest := Opening(c), text[1..];
    } else if c == 0x7D || c == 0x5D {
      p, rest := Closing(c), text[1..];
    } else if c == QUOTE {
      var body;
      body, rest := StringEnds(Scan(InString(false), s.depth, s.nodes + 1), text[1..]);
      p := Quoted(body);
    } else {
      var token;
      token, rest := UnitEnds(text);
      p := Unit(token);
    }
  }

  /**
   The scanner on any octets: it accepts exactly those that can be cut into ignored octets, strings,
   brackets and units such that the brackets match up, at most 32 deep, and there are at most 4096
   strings, containers and units.
   */
  lemma ScannerOnAnyOctets(text: bytes)
    ensures Accepts(text) <==>
      exists ps :: Cut(ps) && Flatten(ps) == text && Balanced(ps, 0, 32) && Count(ps) <= 4096
  {
    hide Cut, Flatten, Balanced, Count, EndsWell;
    if Accepts(text) {
      var ps := AcceptedIsCut(Start, text);
      CutRun(Start, ps);
    }
    if ps :| Cut(ps) && Flatten(ps) == text && Balanced(ps, 0, 32) && Count(ps) <= 4096 {
      CutRun(Start, ps);
    }
  }

  // The preflight that counts octets --------------------------------------------

  /** Here every octet outside strings is a piece of its own. */
  predicate FineCut(ps: seq<Piece>) {
    forall i :: 0 <= i < |ps| ==> PieceOk(ps[i]) && (ps[i].Unit? ==> |ps[i].token| == 1)
  }

  predicate Finishes(s: P.Scan, text: bytes) {
    P.Run(s, text).Some? && P.Ends(P.Run(s, text).value)
  }

  lemma {:induction false} FineString(s: P.Scan, body: bytes, rest: bytes)
    requires s.quote && !s.escape && G.BodyOk(body)
    ensures P.Run(s, body + ([QUOTE] + rest)) == P.Run(s.(quote := false), rest)
    decreases |body|
  {
    hide P.Run;
    if body == [] {
      assert body + ([QUOTE] + rest) == [QUOTE] + rest;
      P.First(s, QUOTE, rest);
    } else {
      var more := body[1..] + ([QUOTE] + rest);
      assert body + ([QUOTE] + rest) == [body[0]] + more;
      P.First(s, body[0], more);
      if body[0] == BACKSLASH {
        assert more == [body[1]] + (body[2..] + ([QUOTE] + rest));
        P.First(s.(escape := true), body[1], body[2..] + ([QUOTE] + rest));
        FineString(s, body[2..], rest);
      } else {
        FineString(s, body[1..], rest);
      }
    }
  }

  lemma FinePiece(s: P.Scan, p: Piece, rest: bytes)
    requires P.Outside(s) && PieceOk(p) && (p.Unit? ==> |p.token| == 1)
    ensures P.Run(s, Octets(p) + rest) ==
      match p
      case Ignored(_) => P.Run(s, rest)
      case Opening(_) =>
        if s.depth < P.MAX_DEPTH && s.nodes < P.MAX_NODES
        then P.Run(s.(depth := s.depth + 1, nodes := s.nodes + 1), rest) else None
      case Closing(_) => if s.depth > 0 then P.Run(s.(depth := s.depth - 1), rest) else None
      case _ => if s.nodes < P.MAX_NODES then P.Run(s.(nodes := s.nodes + 1), rest) else None
  {
    hide P.Run;
    match p
    case Quoted(body) =>
      assert [QUOTE] + body + [QUOTE] + rest == [QUOTE] + (body + ([QUOTE] + rest));
      P.First(s, QUOTE, body + ([QUOTE] + rest));
      if s.nodes < P.MAX_NODES {
        FineString(s.(quote := true, nodes := s.nodes + 1), body, rest);
      }
    case Unit(token) =>
      assert token == [token[0]];
      P.First(s, token[0], rest);
    case Ignored(c) => P.First(s, c, rest);
    case Opening(c) => P.First(s, c, rest);
    case Closing(c) => P.First(s, c, rest);
  }

  lemma {:induction false} FineRun(s: P.Scan, ps: seq<Piece>)
    requires P.Outside(s) && FineCut(ps)
    ensures Finishes(s, Flatten(ps)) <==> Balanced(ps, s.depth, P.MAX_DEPTH) && s.nodes + Count(ps) <= P.MAX_NODES
    decreases |ps|
  {
    if ps != [] {
      FinePiece(s, ps[0], Flatten(ps[1..]));
      hide P.Run, Octets, PieceOk;
      match ps[0]
      case Ignored(_) => FineRun(s, ps[1..]);
      case Opening(_) =>
        if s.depth < P.MAX_DEPTH && s.nodes < P.MAX_NODES {
          FineRun(s.(depth := s.depth + 1, nodes := s.nodes + 1), ps[1..]);
        }
      case Closing(_) => if s.depth > 0 { FineRun(s.(depth := s.depth - 1), ps[1..]); }
      case _ => if s.nodes < P.MAX_NODES { FineRun(s.(nodes := s.nodes + 1), ps[1..]); }
    }
  }

  lemma {:induction false} FineStringEnds(s: P.Scan, text: bytes) returns (body: bytes, rest: bytes)
    requires s.quote && !s.escape && Finishes(s, text)
    ensures G.BodyOk(body) && text == body + [QUOTE] + rest
    decreases |text|
  {
    assert text != [];
    assert text == [text[0]] + text[1..];
    P.First(s, text[0], text[1..]);
    if text[0] == QUOTE {
      body, rest := [], text[1..];
    } else if text[0] == BACKSLASH {
      assert |text| >= 2;
      assert text[1..] == [text[1]] + text[2..];
      P.First(s.(escape := true), text[1], text[2..]);
      var more;
      more, rest := FineStringEnds(s, text[2..]);
      body := text[..2] + more;
      assert body[2..] == more;
    } else {
      var more;
      more, rest := FineStringEnds(s, text[1..]);
      body := [text[0]] + more;
      assert body[1..] == more;
    }
  }

  lemma FirstFine(s: P.Scan, text: bytes) returns (p: Piece, rest: bytes)
    requires P.Outside(s) && text != [] && Finishes(s, text)
    ensures PieceOk(p) && (p.Unit? ==> |p.token| == 1) && text == Octets(p) + rest
  {
    var c := text[0];
    assert text == [c] + text[1..];
    rest := text[1..];
    if IsIgnored(c) {
      p := Ignored(c);
    } else if c == 0x7B || c == 0x5B {
      p := Opening(c);
    } else if c == 0x7D || c == 0x5D {
      p := Closing(c);
    } else if c == QUOTE {
      var body;
      body, rest := FineStringEnds(s.(quote := true, nodes := s.nodes + 1), text[1..]);
      p := Quoted(body);
    } else {
      p := Unit([c]);
    }
  }

  lemma {:induction false} FinishedIsCut(s: P.Scan, text: bytes) returns (ps: seq<Piece>)
    requires P.Outside(s) && Finishes(s, text)
    ensures FineCut(ps) && Flatten(ps) == text
    decreases |text|
  {
    if text == [] {
      ps := [];
    } else {
      var p, rest := FirstFine(s, text);
      FinePiece(s, p, rest);
      var more: seq<Piece>;
      match p {
        case Ignored(_) => more := FinishedIsCut(s, rest);
        case Opening(_) => more := FinishedIsCut(s.(depth := s.depth + 1, nodes := s.nodes + 1), rest);
        case Closing(_) => more := FinishedIsCut(s.(depth := s.depth - 1), rest);
        case _ => more := FinishedIsCut(s.(nodes := s.nodes + 1), rest);
      }
      ps := [p] + more;
    }
  }

  /** The preflight on any octets: the same, at most 24 deep, with every octet outside strings for itself. */
  lemma PreflightOnAnyOctets(text: bytes, limit: nat)
    ensures P.Passes(text, limit) <==>
      && 1 <= |text| <= limit
      && exists ps :: FineCut(ps) && Flatten(ps) == text && Balanced(ps, 0, 24) && Count(ps) <= 4096
  {
    hide FineCut, Flatten, Balanced, Count, P.Run;
    if Finishes(P.Start, text) {
      var ps := FinishedIsCut(P.Start, text);
      FineRun(P.Start, ps);
    }
    if ps :| FineCut(ps) && Flatten(ps) == text && Balanced(ps, 0, 24) && Count(ps) <= 4096 {
      FineRun(P.Start, ps);
    }
  }
}
