/**
 Python strings, sequences of code points that may include lone surrogates, and the UTF-16 code units
 the ASCII-only encoder prints them as.
 */
module PythonStrings {
  import opened Bytes
  import opened CanonicalJson

  type codepoint = x: int | 0 <= x <= 0x10_FFFF

  predicate High(u: int) { 0xD800 <= u < 0xDC00 }
  predicate Low(u: int) { 0xDC00 <= u < 0xE000 }

  /** One unit, or the surrogate pair of a code point above U+FFFF. */
  function PointUnits(c: codepoint): seq<unit> {
    if c < 0x1_0000 then [c]
    else [0xD800 + (c - 0x1_0000) / 0x400, 0xDC00 + (c - 0x1_0000) % 0x400]
  }

  function Units(s: seq<codepoint>): seq<unit> {
    if s == [] then [] else PointUnits(s[0]) + Units(s[1..])
  }

  /** A high surrogate directly before a low one: printed like the code point they would encode. */
  predicate Paired(s: seq<codepoint>) {
    exists i :: 0 <= i < |s| - 1 && High(s[i]) && Low(s[i + 1])
  }

  /** Reads units back, joining every surrogate pair. */
  function Join(us: seq<unit>): seq<codepoint> {
    if us == [] then []
    else if |us| >= 2 && High(us[0]) && Low(us[1])
    then [0x1_0000 + (us[0] - 0xD800) * 0x400 + (us[1] - 0xDC00)] + Join(us[2..])
    else [us[0]] + Join(us[1..])
  }

  lemma {:induction false} UnitsOfJoin(us: seq<unit>)
    ensures Units(Join(us)) == us
    decreases |us|
  {
    if us != [] {
      var js := Join(us);
      if |us| >= 2 && High(us[0]) && Low(us[1]) {
        UnitsOfJoin(us[2..]);
        assert js[1..] == Join(us[2..]);
        assert us == [us[0], us[1]] + us[2..];
      } else {
        UnitsOfJoin(us[1..]);
        assert js[1..] == Join(us[1..]);
        assert us == [us[0]] + us[1..];
      }
    }
  }

  /** The first unit of a joined tail: a low surrogate only if the text itself begins with one. */
  lemma JoinHead(us: seq<unit>)
    requires us != []
    ensures Join(us) != [] && (Low(Join(us)[0]) ==> Low(us[0]))
  {
  }

  lemma {:induction false} JoinIsUnpaired(us: seq<unit>)
    ensures !Paired(Join(us))
    decreases |us|
  {
    var js := Join(us);
    if us != [] {
      var skip := if |us| >= 2 && High(us[0]) && Low(us[1]) then 2 else 1;
      JoinIsUnpaired(us[skip..]);
      assert js[1..] == Join(us[skip..]);
      if |us| > skip {
        JoinHead(us[skip..]);
      }
      forall i | 0 <= i < |js| - 1 ensures !(High(js[i]) && Low(js[i + 1])) {
        if i > 0 {
          assert js[i] == js[1..][i - 1] && js[i + 1] == js[1..][i];
        }
      }
    }
  }

  lemma {:induction false} JoinOfUnits(s: seq<codepoint>)
    requires !Paired(s)
    ensures Join(Units(s)) == s
  {
    if s != [] {
      forall i | 0 <= i < |s[1..]| - 1 ensures !(High(s[1..][i]) && Low(s[1..][i + 1])) {
        assert s[1..][i] == s[i + 1] && s[1..][i + 1] == s[i + 2];
      }
      JoinOfUnits(s[1..]);
      var us := Units(s);
      if s[0] < 0x1_0000 {
        assert us[1..] == Units(s[1..]);
        if |s| > 1 {
          UnitsHead(s[1..]);
          assert s[1] == s[1..][0] && !(High(s[0]) && Low(s[0 + 1]));
        }
      } else {
        assert us[2..] == Units(s[1..]);
        var v := s[0] - 0x1_0000;
        assert v == v / 0x400 * 0x400 + v % 0x400;
      }
      assert s == [s[0]] + s[1..];
    }
  }

  lemma UnitsHead(s: seq<codepoint>)
    requires s != []
    ensures Units(s) != [] && (Low(Units(s)[0]) ==> Low(s[0]))
  {
  }

  /** Strings without such pairs are told apart by their units, hence by their printed text ... */
  lemma UnpairedTextsDistinct(s: seq<codepoint>, t: seq<codepoint>)
    requires !Paired(s) && !Paired(t)
    ensures StringText(Units(s)) == StringText(Units(t)) <==> s == t
  {
    if StringText(Units(s)) == StringText(Units(t)) {
      assert StringText(Units(s)) + [] == StringText(Units(t)) + [];
      StringUnambiguous(Units(s), Units(t), [], []);
      JoinOfUnits(s);
      JoinOfUnits(t);
    }
  }

  /**
   ... so pair-free strings are one representative for every text: a string shares its text with
   another, pair-free one exactly when it holds a pair itself.
   */
  lemma PairedIffAliased(s: seq<codepoint>)
    ensures Paired(s) <==>
      exists t: seq<codepoint> :: t != s && !Paired(t) && StringText(Units(t)) == StringText(Units(s))
  {
    if Paired(s) {
      var t := Join(Units(s));
      UnitsOfJoin(Units(s));
      JoinIsUnpaired(Units(s));
      assert t != s && StringText(Units(t)) == StringText(Units(s));
    } else {
      forall t: seq<codepoint> | !Paired(t) && StringText(Units(t)) == StringText(Units(s)) ensures t == s {
        UnpairedTextsDistinct(t, s);
      }
    }
  }

  /** Code points above U+FFFF print as two units, and so as the two surrogates themselves. */
  predicate Astral(s: seq<codepoint>) {
    exists i :: 0 <= i < |s| && s[i] >= 0x1_0000
  }

  lemma {:induction false} UnitsConcat(x: seq<codepoint>, y: seq<codepoint>)
    ensures Units(x + y) == Units(x) + Units(y)
    decreases |x|
  {
    hide PointUnits;
    if x == [] {
      assert x + y == y;
    } else {
      UnitsConcat(x[1..], y);
      assert (x + y)[1..] == x[1..] + y;
      var first, rest := PointUnits(x[0]), Units(x[1..]);
      assert first + (rest + Units(y)) == first + rest + Units(y);
    }
  }

  /** Splitting a code point above U+FFFF into its surrogates changes the string but not its text. */
  lemma SplitPrintsAlike(s: seq<codepoint>, i: nat) returns (t: seq<codepoint>)
    requires i < |s| && s[i] >= 0x1_0000
    ensures Units(t) == Units(s) && |t| == |s| + 1 && Paired(t)
  {
    var pair: seq<codepoint> := PointUnits(s[i]);
    t := s[..i] + pair + s[i + 1..];
    assert Units([pair[1]]) == [pair[1]] && pair[1..] == [pair[1]];
    assert Units(pair) == pair == Units([s[i]]);
    assert s == s[..i] + [s[i]] + s[i + 1..];
    UnitsConcat(s[..i], pair);
    UnitsConcat(s[..i] + pair, s[i + 1..]);
    UnitsConcat(s[..i], [s[i]]);
    UnitsConcat(s[..i] + [s[i]], s[i + 1..]);
    assert t[i] == pair[0] && t[i + 1] == pair[1];
  }

  lemma {:induction false} PlainUnits(s: seq<codepoint>)
    requires !Astral(s)
    ensures Units(s) == s
    decreases |s|
  {
    if s != [] {
      forall i | 0 <= i < |s[1..]| ensures s[1..][i] < 0x1_0000 {
        assert s[1..][i] == s[i + 1];
      }
      PlainUnits(s[1..]);
      assert s == [s[0]] + s[1..];
    }
  }

  lemma FirstIsPair(t: seq<codepoint>)
    requires t != [] && t[0] >= 0x1_0000
    ensures |Units(t)| >= 2 && High(Units(t)[0]) && Low(Units(t)[1])
  {
    var v := t[0] - 0x1_0000;
    assert 0 <= v / 0x400 < 0x400 && 0 <= v % 0x400 < 0x400;
  }

  /** Units without a surrogate pair are the units of no string but themselves. */
  lemma {:induction false} PlainPrintsAlone(s: seq<codepoint>, t: seq<codepoint>)
    requires !Paired(s) && !Astral(s) && Units(t) == s
    ensures t == s
    decreases |t|
  {
    if t != [] {
      assert |s| >= 2 ==> !(High(s[0]) && Low(s[0 + 1]));
      if t[0] >= 0x1_0000 {
        FirstIsPair(t);
      } else {
        assert s[1..] == Units(t[1..]);
        forall i | 0 <= i < |s[1..]| ensures s[1..][i] < 0x1_0000 {
          assert s[1..][i] == s[i + 1];
        }
        forall i | 0 <= i < |s[1..]| - 1 ensures !(High(s[1..][i]) && Low(s[1..][i + 1])) {
          assert s[1..][i] == s[i + 1] && s[1..][i + 1] == s[i + 1 + 1];
        }
        PlainPrintsAlone(s[1..], t[1..]);
        assert s == [s[0]] + s[1..] && t == [t[0]] + t[1..];
      }
    }
  }

  /**
   Exactly which strings share their text with another string: those that hold a high surrogate before
   a low one, and those that hold a code point above U+FFFF.
   */
  lemma SharesItsTextIff(s: seq<codepoint>)
    ensures (exists t: seq<codepoint> :: t != s && StringText(Units(t)) == StringText(Units(s)))
            <==> Paired(s) || Astral(s)
  {
    if Paired(s) {
      PairedIffAliased(s);
    } else if Astral(s) {
      var i: nat :| i < |s| && s[i] >= 0x1_0000;
      var t := SplitPrintsAlike(s, i);
      assert t != s && StringText(Units(t)) == StringText(Units(s));
    } else {
      forall t: seq<codepoint> | StringText(Units(t)) == StringText(Units(s)) ensures t == s {
        assert StringText(Units(t)) + [] == StringText(Units(s)) + [];
        StringUnambiguous(Units(t), Units(s), [], []);
        PlainUnits(s);
        PlainPrintsAlone(s, t);
      }
    }
  }

  /** The two-element string U+D83D U+DE00 and the one-element string U+1F600 print alike. */
  lemma SurrogateCollision()
    ensures var split: seq<codepoint> := [0xD83D, 0xDE00];
            var whole: seq<codepoint> := [0x1_F600];
            split != whole && StringText(Units(split)) == StringText(Units(whole))
  {
    var split: seq<codepoint>, whole: seq<codepoint> := [0xD83D, 0xDE00], [0x1_F600];
    assert split[1..] == [0xDE00] && split[1..][1..] == [] && whole[1..] == [];
    assert Units(split[1..]) == [0xDE00];
    assert Units(split) == [0xD83D, 0xDE00] == Units(whole);
  }
}
