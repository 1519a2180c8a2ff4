/**
 The unpadded base64url grammar that a requirepass chunk must meet before a sink sees it
 (RFC 4648 section 5; zero trailing bits as in section 3.5).
 */
module Base64Url {
  import opened Bytes

  type sextet = x: int | 0 <= x < 64

  /** The ASCII octet of one sextet: A-Z, a-z, 0-9, '-', '_'. */
  function Symbol(v: sextet): (c: byte)
  {
    if v < 26 then 65 + v
    else if v < 52 then 71 + v
    else if v < 62 then v - 4
    else if v == 62 then 45 else 95
  }

  /** Position of an octet in the alphabet, if it has one. */
  function Index(c: byte): (v: Option<sextet>)
  {
    if 65 <= c <= 90 then Some(c - 65)
    else if 97 <= c <= 122 then Some(c - 71)
    else if 48 <= c <= 57 then Some(c + 4)
    else if c == 45 then Some(62)
    else if c == 95 then Some(63) else None
  }

  /** The alphabet of RFC 4648 section 5, table 2. */
  lemma Alphabet(v: sextet)
    ensures v < 26 ==> Symbol(v) == 'A' as int + v
    ensures 26 <= v < 52 ==> Symbol(v) == 'a' as int + (v - 26)
    ensures 52 <= v < 62 ==> Symbol(v) == '0' as int + (v - 52)
    ensures v == 62 ==> Symbol(v) == '-' as int
    ensures v == 63 ==> Symbol(v) == '_' as int
  {
  }

  lemma IndexInvertsSymbol(v: sextet, c: byte)
    ensures Index(c) == Some(v) <==> Symbol(v) == c
  {
  }

  predicate AllSymbols(text: bytes) {
    forall i :: 0 <= i < |text| ==> Index(text[i]).Some?
  }

  /** The closed formula the verifier uses for the unpadded length of n raw octets. */
  function EncodedCount(n: nat): int
  {
    4 * ((n + 2) / 3) - ((3 - n % 3) % 3)
  }

  /** The bits below the last octet: four after one octet, two after two octets. */
  predicate TrailingBitsZero(n: nat, last: sextet)
  {
    (n % 3 == 1 ==> last % 16 == 0) && (n % 3 == 2 ==> last % 4 == 0)
  }

  /** The grammar check itself: length, alphabet, and zero trailing bits of the last symbol. */
  predicate Accepts(n: nat, buffer: bytes)
    requires n >= 1
  {
    && |buffer| == EncodedCount(n)
    && AllSymbols(buffer)
    && |buffer| > 0
    && TrailingBitsZero(n, Index(buffer[|buffer| - 1]).value)
  }

  // Octets and sextets ------------------------------------------------------

  /** One group of at most three octets, RFC 4648 section 4, final padding omitted. */
  function GroupSextets(raw: bytes): (s: seq<sextet>)
    requires 1 <= |raw| <= 3
    ensures |s| == |raw| + 1
  {
    var x := raw[0] as int;
    if |raw| == 1 then [x / 4, x % 4 * 16]
    else
      var y := raw[1] as int;
      if |raw| == 2 then [x / 4, x % 4 * 16 + y / 16, y % 16 * 4]
      else
        var z := raw[2] as int;
        [x / 4, x % 4 * 16 + y / 16, y % 16 * 4 + z / 64, z % 64]
  }

  /** Regroups two to four sextets into octets, discarding the trailing bits. */
  function GroupOctets(s: seq<sextet>): (raw: bytes)
    requires 2 <= |s| <= 4
    ensures |raw| == |s| - 1
  {
    var a, b := s[0] as int, s[1] as int;
    if |s| == 2 then [a * 4 + b / 16]
    else
      var c := s[2] as int;
      if |s| == 3 then [a * 4 + b / 16, b % 16 * 16 + c / 4]
      else
        var d := s[3] as int;
        [a * 4 + b / 16, b % 16 * 16 + c / 4, c % 4 * 64 + d]
  }

  /** The bits of a group in order, the first octet's first, and zeros after the last. */
  lemma GroupIsBigEndian(raw: bytes)
    requires 1 <= |raw| <= 3
    ensures var s, x := GroupSextets(raw), raw[0] as int;
            && (|raw| == 1 ==> s[0] as int * 64 + s[1] as int == x * 16)
            && (|raw| == 2 ==> (s[0] as int * 64 + s[1] as int) * 64 + s[2] as int == (x * 256 + raw[1] as int) * 4)
            && (|raw| == 3 ==>
                  ((s[0] as int * 64 + s[1] as int) * 64 + s[2] as int) * 64 + s[3] as int
                  == (x * 256 + raw[1] as int) * 256 + raw[2] as int)
  {
  }

  lemma GroupRoundTrip(raw: bytes)
    requires 1 <= |raw| <= 3
    ensures GroupOctets(GroupSextets(raw)) == raw
    ensures TrailingBitsZero(|raw|, GroupSextets(raw)[|raw|])
  {
    match |raw|
    case 1 =>
    case 2 =>
    case _ => assert raw == [raw[0], raw[1], raw[2]];
  }

  lemma Repack(hi: int, lo: int, unit: int)
    requires unit == 4 || unit == 16 || unit == 64
    requires 0 <= lo < unit
    ensures (hi * unit + lo) / unit == hi && (hi * unit + lo) % unit == lo
  {
    if unit == 4 {
      assert (hi * 4 + lo) / 4 == hi && (hi * 4 + lo) % 4 == lo;
    } else if unit == 16 {
      assert (hi * 16 + lo) / 16 == hi && (hi * 16 + lo) % 16 == lo;
    } else {
      assert (hi * 64 + lo) / 64 == hi && (hi * 64 + lo) % 64 == lo;
    }
  }

  lemma GroupIsCanonical(s: seq<sextet>)
    requires 2 <= |s| <= 4 && TrailingBitsZero(|s| - 1, s[|s| - 1])
    ensures GroupSextets(GroupOctets(s)) == s
  {
    var a, b := s[0] as int, s[1] as int;
    Repack(a, b / 16, 4);
    if |s| > 2 {
      var c := s[2] as int;
      Repack(b % 16, c / 4, 16);
      if |s| > 3 {
        Repack(c % 4, s[3] as int, 64);
      }
    }
  }

  lemma TrailingBitsPeriod(n: nat, last: sextet)
    requires n >= 3
    ensures TrailingBitsZero(n - 3, last) <==> TrailingBitsZero(n, last)
  {
    assert (n - 3) % 3 == n % 3;
  }

  /** Text length counted group by group: four symbols per whole group, n + 1 for the last n octets. */
  function GroupedCount(n: nat): nat {
    if n == 0 then 0 else if n <= 3 then n + 1 else 4 + GroupedCount(n - 3)
  }

  lemma {:induction false} EncodedCountIsGrouped(n: nat)
    ensures EncodedCount(n) == GroupedCount(n)
  {
    if n > 3 {
      EncodedCountIsGrouped(n - 3);
      assert (n - 3) % 3 == n % 3 && (n + 2) / 3 == (n - 3 + 2) / 3 + 1;
    }
  }

  lemma FullGroupIsCanonical(s: seq<sextet>)
    requires |s| == 4
    ensures GroupSextets(GroupOctets(s)) == s
  {
    assert TrailingBitsZero(3, s[3]);
    GroupIsCanonical(s);
  }

  function Sextets(raw: bytes): (s: seq<sextet>)
    ensures |s| == GroupedCount(|raw|)
  {
    if raw == [] then []
    else if |raw| <= 3 then GroupSextets(raw)
    else GroupSextets(raw[..3]) + Sextets(raw[3..])
  }

  /** Group k: octets 3k to 3k + 2, as far as there are any. */
  function GroupAt(raw: bytes, k: nat): (g: bytes)
    requires 3 * k < |raw|
    ensures 1 <= |g| <= 3
  {
    if 3 * k + 3 <= |raw| then raw[3 * k..3 * k + 3] else raw[3 * k..]
  }

  lemma SliceShift<T>(x: seq<T>, y: seq<T>, i: nat, j: nat)
    requires i <= j <= |y|
    ensures (x + y)[|x| + i..|x| + j] == y[i..j]
  {
  }

  lemma FirstGroup(raw: bytes)
    requires raw != []
    ensures var g := GroupAt(raw, 0); |g| + 1 <= |Sextets(raw)| && Sextets(raw)[..|g| + 1] == GroupSextets(g)
  {
    hide GroupSextets;
    if |raw| <= 3 {
      assert GroupAt(raw, 0) == raw;
    }
  }

  lemma LaterGroup(raw: bytes, k: nat)
    requires 0 < k && 3 * k < |raw|
    ensures GroupAt(raw, k) == GroupAt(raw[3..], k - 1)
  {
    var end := if 3 * k + 3 <= |raw| then 3 * k + 3 else |raw|;
    assert raw == raw[..3] + raw[3..];
    SliceShift(raw[..3], raw[3..], 3 * (k - 1), end - 3);
  }

  lemma SextetsUnfold(raw: bytes)
    requires |raw| > 3
    ensures Sextets(raw) == GroupSextets(raw[..3]) + Sextets(raw[3..])
  {
    hide GroupSextets;
  }

  /** It becomes the symbols from 4k on. */
  lemma {:induction false} GroupInPlace(raw: bytes, k: nat)
    requires 3 * k < |raw|
    ensures var g := GroupAt(raw, k);
            4 * k + |g| + 1 <= |Sextets(raw)| && Sextets(raw)[4 * k..4 * k + |g| + 1] == GroupSextets(g)
    decreases k
  {
    hide GroupSextets, Sextets, GroupAt;
    if k == 0 {
      FirstGroup(raw);
    } else {
      GroupInPlace(raw[3..], k - 1);
      LaterGroup(raw, k);
      SextetsUnfold(raw);
      var n := |GroupAt(raw, k)| + 1;
      SliceShift(GroupSextets(raw[..3]), Sextets(raw[3..]), 4 * (k - 1), 4 * (k - 1) + n);
    }
  }

  function Octets(s: seq<sextet>): (raw: bytes)
  {
    if |s| < 2 then []
    else if |s| <= 4 then GroupOctets(s)
    else GroupOctets(s[..4]) + Octets(s[4..])
  }

  lemma OctetsUnfold(x: seq<sextet>, y: seq<sextet>)
    requires |x| == 4 && y != []
    ensures Octets(x + y) == GroupOctets(x) + Octets(y)
  {
    hide GroupOctets;
    assert (x + y)[..4] == x && (x + y)[4..] == y;
  }

  lemma {:induction false} SextetsRoundTrip(raw: bytes)
    requires raw != []
    ensures Octets(Sextets(raw)) == raw
    ensures TrailingBitsZero(|raw|, Sextets(raw)[|Sextets(raw)| - 1])
  {
    hide GroupOctets, GroupSextets, TrailingBitsZero;
    if |raw| <= 3 {
      GroupRoundTrip(raw);
    } else {
      GroupRoundTrip(raw[..3]);
      SextetsRoundTrip(raw[3..]);
      SextetsUnfold(raw);
      hide Sextets;
      var x, y := GroupSextets(raw[..3]), Sextets(raw[3..]);
      OctetsUnfold(x, y);
      TrailingBitsPeriod(|raw|, y[|y| - 1]);
      assert (x + y)[|x + y| - 1] == y[|y| - 1];
      assert raw == raw[..3] + raw[3..];
    }
  }

  lemma {:induction false} SextetsCanonical(n: nat, s: seq<sextet>)
    requires n >= 1 && |s| == GroupedCount(n) && TrailingBitsZero(n, s[|s| - 1])
    ensures |Octets(s)| == n && Sextets(Octets(s)) == s
  {
    if n <= 3 {
      GroupIsCanonical(s);
    } else {
      TrailingBitsPeriod(n, s[|s| - 1]);
      SextetsCanonical(n - 3, s[4..]);
      FullGroupIsCanonical(s[..4]);
      var raw := Octets(s);
      assert raw[..3] == GroupOctets(s[..4]) && raw[3..] == Octets(s[4..]);
      assert s == s[..4] + s[4..];
    }
  }

  // Text --------------------------------------------------------------------

  function Spell(s: seq<sextet>): (text: bytes)
    ensures |text| == |s|
  {
    seq(|s|, i requires 0 <= i < |s| => Symbol(s[i]))
  }

  function Values(text: bytes): (s: seq<sextet>)
    requires AllSymbols(text)
    ensures |s| == |text|
  {
    seq(|text|, i requires 0 <= i < |text| => Index(text[i]).value)
  }

  lemma SpellRoundTrip(s: seq<sextet>)
    ensures AllSymbols(Spell(s)) && Values(Spell(s)) == s
  {
    forall i | 0 <= i < |s| ensures Index(Spell(s)[i]) == Some(s[i]) {
      IndexInvertsSymbol(s[i], Symbol(s[i]));
    }
  }

  lemma SpellValues(text: bytes)
    requires AllSymbols(text)
    ensures Spell(Values(text)) == text
  {
    forall i | 0 <= i < |text| ensures Spell(Values(text))[i] == text[i] {
      IndexInvertsSymbol(Index(text[i]).value, text[i]);
    }
  }

  /** The unpadded encoder of RFC 4648 section 5: the reference the check is measured against. */
  function Encode(raw: bytes): bytes {
    Spell(Sextets(raw))
  }

  /** For every raw length the accepted buffers are exactly the canonical encodings ... */
  lemma AcceptsIffCanonicalEncoding(n: nat, buffer: bytes)
    requires n >= 1
    ensures Accepts(n, buffer) <==> exists raw: bytes :: |raw| == n && Encode(raw) == buffer
  {
    if Accepts(n, buffer) {
      AcceptedIsEncoding(n, buffer);
    }
    forall raw: bytes | |raw| == n && Encode(raw) == buffer
      ensures Accepts(n, buffer)
    {
      EncodingIsAccepted(raw);
    }
  }

  lemma AcceptedIsEncoding(n: nat, buffer: bytes)
    requires n >= 1 && Accepts(n, buffer)
    ensures AllSymbols(buffer) && |Octets(Values(buffer))| == n && Encode(Octets(Values(buffer))) == buffer
  {
    EncodedCountIsGrouped(n);
    SextetsCanonical(n, Values(buffer));
    SpellValues(buffer);
  }

  lemma EncodingIsAccepted(raw: bytes)
    requires raw != []
    ensures Accepts(|raw|, Encode(raw))
  {
    hide Sextets, Octets, Symbol, Index, EncodedCount, GroupedCount, TrailingBitsZero;
    EncodedCountIsGrouped(|raw|);
    SextetsRoundTrip(raw);
    SpellRoundTrip(Sextets(raw));
    GroupedCountPositive(|raw|);
  }

  lemma GroupedCountPositive(n: nat)
    requires n > 0
    ensures GroupedCount(n) > 0
  {
  }

  /** ... and no two octet strings share one. */
  lemma EncodeInjective(x: bytes, y: bytes)
    requires |x| == |y| && Encode(x) == Encode(y)
    ensures x == y
  {
    if x != [] {
      SpellRoundTrip(Sextets(x));
      SpellRoundTrip(Sextets(y));
      SextetsRoundTrip(x);
      SextetsRoundTrip(y);
    }
  }
}
