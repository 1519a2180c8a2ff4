/**
 Which normalized values share their canonical octets with another one. A string has another spelling
 when it holds a surrogate pair or a code point that prints as one; a dict also needs the respelled key
 to keep its place, because the printer orders keys by code points and not by the units it prints.
 */
module Respelling {
  import opened Bytes
  import J = CanonicalJson
  import opened PythonStrings
  import opened Sorting
  import opened Normalize

  ghost predicate OtherSpelling(s: seq<codepoint>, t: seq<codepoint>) {
    t != s && Units(t) == Units(s)
  }

  lemma HasOtherSpellingIff(s: seq<codepoint>)
    ensures (exists t: seq<codepoint> :: OtherSpelling(s, t)) <==> Paired(s) || Astral(s)
  {
    hide Units, J.StringText;
    SharesItsTextIff(s);
    if Paired(s) || Astral(s) {
      var t: seq<codepoint> :| t != s && J.StringText(Units(t)) == J.StringText(Units(s));
      TextFixesUnits(s, t);
      assert OtherSpelling(s, t);
    } else {
      forall t: seq<codepoint> ensures !OtherSpelling(s, t) {
        TextFixesUnits(s, t);
      }
    }
  }

  lemma TextFixesUnits(s: seq<codepoint>, t: seq<codepoint>)
    ensures J.StringText(Units(t)) == J.StringText(Units(s)) <==> Units(t) == Units(s)
  {
    hide Units;
    if J.StringText(Units(t)) == J.StringText(Units(s)) {
      assert J.StringText(Units(t)) + [] == J.StringText(Units(s)) + [];
      J.StringUnambiguous(Units(t), Units(s), [], []);
    }
  }

  predicate Less(x: seq<codepoint>, y: seq<codepoint>) {
    Leq(x, y) && x != y
  }

  lemma LessTotal(x: seq<codepoint>, y: seq<codepoint>)
    ensures x == y || Less(x, y) || Less(y, x)
  {
    LeqTotal(x, y);
  }

  lemma LessTransitive(x: seq<codepoint>, y: seq<codepoint>, z: seq<codepoint>)
    requires Less(x, y) && Less(y, z)
    ensures Less(x, z)
  {
    LeqTransitive(x, y, z);
    if x == z {
      LeqAntisymmetric(x, y);
    }
  }

  /** A key may become t without leaving its place. */
  predicate Keeps(entries: seq<Entry>, i: nat, t: seq<codepoint>)
    requires i < |entries|
  {
    && (i > 0 ==> Less(entries[i - 1].key, t))
    && (i + 1 < |entries| ==> Less(t, entries[i + 1].key))
  }

  /** Some string inside has another spelling, or some key one that keeps its place. */
  ghost predicate Respellable(v: Value) {
    match v
    case Str(s) => Paired(s) || Astral(s)
    case Items(items) => exists i :: 0 <= i < |items| && Respellable(items[i])
    case Dict(entries) =>
      || (exists i :: 0 <= i < |entries| && Respellable(entries[i].value))
      || exists i: nat, t: seq<codepoint> :: i < |entries| && Keeps(entries, i, t) && OtherSpelling(entries[i].key, t)
    case _ => false
  }

  /** The dicts that normalization yields: keys in strictly ascending order. */
  predicate Ascending(entries: seq<Entry>) {
    forall i :: 0 <= i < |entries| - 1 ==> Less(entries[i].key, entries[i + 1].key)
  }

  lemma {:induction false} AscendingFar(entries: seq<Entry>, i: nat, j: nat)
    requires Ascending(entries) && i < j < |entries|
    ensures Less(entries[i].key, entries[j].key)
    decreases j
  {
    hide Less;
    assert Less(entries[j - 1].key, entries[j - 1 + 1].key);
    if i < j - 1 {
      AscendingFar(entries, i, j - 1);
      LessTransitive(entries[i].key, entries[j - 1].key, entries[j].key);
    }
  }

  lemma AscendingIff(entries: seq<Entry>)
    ensures Ascending(entries) <==>
      && Sorted(ByKey(entries))
      && forall i, j :: 0 <= i < j < |entries| ==> entries[i].key != entries[j].key
  {
    if Ascending(entries) {
      forall i, j | 0 <= i < j < |entries| ensures entries[i].key != entries[j].key {
        AscendingFar(entries, i, j);
      }
      forall i | 0 <= i < |entries| - 1 ensures Leq(ByKey(entries)[i].key, ByKey(entries)[i + 1].key) {
        assert Less(entries[i].key, entries[i + 1].key);
      }
    } else {
      var i :| 0 <= i < |entries| - 1 && !Less(entries[i].key, entries[i + 1].key);
      assert Leq(ByKey(entries)[i].key, ByKey(entries)[i + 1].key) ==> entries[i].key == entries[i + 1].key;
    }
  }

  /** A normalized Python value. */
  predicate Proper(v: Value) { IsNormal(v) && DistinctKeys(v) }

  lemma DistinctOnce(entries: seq<Entry>, e: Keyed<Entry>)
    requires forall i, j :: 0 <= i < j < |entries| ==> entries[i].key != entries[j].key
    ensures multiset(ByKey(entries))[e] <= 1
    decreases |entries|
  {
    if entries != [] {
      var n := |entries| - 1;
      DistinctOnce(entries[..n], e);
      assert ByKey(entries) == ByKey(entries[..n]) + [ByKey(entries)[n]];
      if e == ByKey(entries)[n] {
        assert e !in ByKey(entries[..n]);
      }
    }
  }

  lemma TwicePlaced<T>(s: seq<T>, i: nat, j: nat)
    requires i < j < |s| && s[i] == s[j]
    ensures multiset(s)[s[i]] >= 2
  {
    assert s == s[..j] + s[j..];
    assert s[i] in s[..j] && s[j] in s[j..];
  }

  lemma SortingKeepsDistinct(entries: seq<Entry>)
    requires forall i, j :: 0 <= i < j < |entries| ==> entries[i].key != entries[j].key
    ensures var sorted := Bare(Sort(ByKey(entries)));
            forall i, j :: 0 <= i < j < |sorted| ==> sorted[i].key != sorted[j].key
  {
    hide Sort;
    SortSorts(ByKey(entries));
    var s := Sort(ByKey(entries));
    forall i: nat, j: nat | i < j < |s| ensures s[i].value.key != s[j].value.key {
      BareOfSorted(ByKey(entries), i);
      BareOfSorted(ByKey(entries), j);
      if s[i] == s[j] {
        TwicePlaced(s, i, j);
        DistinctOnce(entries, s[i]);
      }
    }
  }

  /** What normalization makes of any Python value. */
  lemma {:induction false} NormalIsProper(v: Value)
    requires DistinctKeys(v)
    ensures Proper(Normal(v))
    decreases v
  {
    NormalIsNormal(v);
    hide IsNormal, Sort;
    match v
    case Items(items) =>
      forall i | 0 <= i < |items| ensures DistinctKeys(Normal(items[i])) {
        NormalIsProper(items[i]);
      }
    case Members(members) =>
      var ns := seq(|members|, i requires 0 <= i < |members| => Normal(members[i]));
      forall i | 0 <= i < |members| ensures DistinctKeys(ns[i]) {
        NormalIsProper(members[i]);
      }
      SortSorts(ByText(ns));
      forall k: nat | k < |Sort(ByText(ns))| ensures DistinctKeys(Bare(Sort(ByText(ns)))[k]) {
        BareOfSorted(ByText(ns), k);
      }
    case Dict(entries) =>
      var ns := seq(|entries|, i requires 0 <= i < |entries| => Entry(entries[i].key, Normal(entries[i].value)));
      forall i | 0 <= i < |entries| ensures DistinctKeys(ns[i].value) {
        NormalIsProper(entries[i].value);
      }
      SortSorts(ByKey(ns));
      SortingKeepsDistinct(ns);
      forall k: nat | k < |Sort(ByKey(ns))| ensures DistinctKeys(Bare(Sort(ByKey(ns)))[k].value) {
        BareOfSorted(ByKey(ns), k);
      }
    case _ =>
  }

  lemma ProperDict(entries: seq<Entry>)
    ensures Proper(Dict(entries)) <==> Ascending(entries) && forall i :: 0 <= i < |entries| ==> Proper(entries[i].value)
  {
    hide Sorted, Ascending;
    AscendingIff(entries);
  }

  /** Of two lists of keys that differ, one key of the first can become the other's and keep its place. */
  lemma {:induction false} SomeKeyKeeps(x: seq<Entry>, y: seq<Entry>, k: nat) returns (i: nat)
    requires Ascending(x) && Ascending(y) && |x| == |y| && k < |x| && Less(x[k].key, y[k].key)
    ensures i < |x| && Keeps(x, i, y[i].key) && x[i].key != y[i].key
    decreases |x| - k
  {
    if j: nat :| k < j < |x| && Less(x[j].key, y[j].key) {
      i := SomeKeyKeeps(x, y, j);
    } else {
      i := k;
      if i > 0 {
        assert Less(x[i - 1].key, x[i - 1 + 1].key);
        LessTransitive(x[i - 1].key, x[i].key, y[i].key);
      }
      if i + 1 < |x| {
        assert Less(y[i].key, y[i + 1].key) && !Less(x[i + 1].key, y[i + 1].key);
        LessTotal(x[i + 1].key, y[i + 1].key);
        if x[i + 1].key != y[i + 1].key {
          LessTransitive(y[i].key, y[i + 1].key, x[i + 1].key);
        }
      }
    }
  }

  lemma {:induction false} FirstKeyKeeps(x: seq<Entry>, y: seq<Entry>, k: nat) returns (i: nat)
    requires Ascending(x) && Ascending(y) && |x| == |y| && k < |x| && x[k].key != y[k].key
    ensures i < |x| && Keeps(x, i, y[i].key) && x[i].key != y[i].key
    decreases k
  {
    if j: nat :| j < |x| && Less(x[j].key, y[j].key) {
      i := SomeKeyKeeps(x, y, j);
    } else if j: nat :| j < k && x[j].key != y[j].key {
      i := FirstKeyKeeps(x, y, j);
    } else {
      i := k;
      LessTotal(x[i].key, y[i].key);
      if i > 0 {
        assert Less(y[i - 1].key, y[i - 1 + 1].key);
      }
      if i + 1 < |x| {
        assert Less(x[i].key, x[i + 1].key);
        LessTransitive(y[i].key, x[i].key, x[i + 1].key);
      }
    }
  }

  // A respellable value shares its text --------------------------------------

  lemma {:induction false} Respell(v: Value) returns (w: Value)
    requires Proper(v) && Respellable(v)
    ensures Proper(w) && w != v && ToJson(w) == ToJson(v)
    decreases v
  {
    hide Units, Paired, Astral, Keeps, Ascending;
    match v
    case Str(s) =>
      w := RespellString(s);
    case Items(items) =>
      var i :| 0 <= i < |items| && Respellable(items[i]);
      var item := Respell(items[i]);
      w := Items(items[i := item]);
      assert w.items[i] != items[i];
      assert ToJson(w).items == ToJson(v).items;
    case Dict(entries) =>
      ProperDict(entries);
      if i :| 0 <= i < |entries| && Respellable(entries[i].value) {
        var value := Respell(entries[i].value);
        w := RespellEntry(entries, i, Entry(entries[i].key, value));
      } else {
        var i: nat, t: seq<codepoint> :| i < |entries| && Keeps(entries, i, t) && OtherSpelling(entries[i].key, t);
        w := RespellEntry(entries, i, Entry(t, entries[i].value));
      }
  }

  lemma RespellString(s: seq<codepoint>) returns (w: Value)
    requires Paired(s) || Astral(s)
    ensures Proper(w) && w != Str(s) && ToJson(w) == ToJson(Str(s))
  {
    HasOtherSpellingIff(s);
    var t: seq<codepoint> :| OtherSpelling(s, t);
    w := Str(t);
  }

  lemma RespellEntry(entries: seq<Entry>, i: nat, e: Entry) returns (w: Value)
    requires Proper(Dict(entries)) && i < |entries| && e != entries[i] && Proper(e.value)
    requires ToJson(e.value) == ToJson(entries[i].value) && Units(e.key) == Units(entries[i].key)
    requires e.key == entries[i].key || Keeps(entries, i, e.key)
    ensures Proper(w) && w != Dict(entries) && ToJson(w) == ToJson(Dict(entries))
  {
    hide Units, IsNormal, DistinctKeys, Leq;
    var changed := entries[i := e];
    w := Dict(changed);
    ProperDict(entries);
    forall j | 0 <= j < |changed| - 1 ensures Less(changed[j].key, changed[j + 1].key) {
      assert Less(entries[j].key, entries[j + 1].key);
    }
    ProperDict(changed);
    assert changed[i] != entries[i];
    assert ToJson(w).fields == ToJson(Dict(entries)).fields;
  }

  // A value that shares its text is respellable ------------------------------

  lemma {:induction false} SharedIsRespellable(v: Value, w: Value)
    requires Proper(v) && Proper(w) && v != w && ToJson(v) == ToJson(w)
    ensures Respellable(v)
    decreases v
  {
    hide Units, Paired, Astral, Ascending, Sorted, Keeps;
    match v
    case Str(s) =>
      assert OtherSpelling(s, w.s);
      HasOtherSpellingIff(s);
    case Items(items) =>
      assert |items| == |ToJson(v).items| == |ToJson(w).items| == |w.items|;
      var i :| 0 <= i < |items| && items[i] != w.items[i];
      assert ToJson(v).items[i] == ToJson(w).items[i];
      SharedIsRespellable(items[i], w.items[i]);
    case Dict(entries) =>
      assert |entries| == |ToJson(v).fields| == |ToJson(w).fields| == |w.entries|;
      var i: nat :| i < |entries| && entries[i] != w.entries[i];
      ProperDict(entries);
      ProperDict(w.entries);
      if entries[i].value != w.entries[i].value {
        assert ToJson(v).fields[i] == ToJson(w).fields[i];
        SharedIsRespellable(entries[i].value, w.entries[i].value);
      } else {
        var j := FirstKeyKeeps(entries, w.entries, i);
        assert ToJson(v).fields[j] == ToJson(w).fields[j];
        assert OtherSpelling(entries[j].key, w.entries[j].key);
      }
    case _ =>
  }

  /**
   Exactly which normalized values share their canonical octets with another: those with a string, or
   with a key in the right place, that can be spelled otherwise.
   */
  lemma SharesCanonicalTextIff(v: Value)
    requires Proper(v)
    ensures (exists w :: Proper(w) && w != v && Print(w) == Print(v)) <==> Respellable(v)
  {
    hide Proper, Respellable, ToJson, J.Text;
    if Respellable(v) {
      var w := Respell(v);
      assert Proper(w) && w != v && Print(w) == Print(v);
    }
    if w :| Proper(w) && w != v && Print(w) == Print(v) {
      J.PrinterInjective(ToJson(v), ToJson(w));
      SharedIsRespellable(v, w);
    }
  }

  /** The same for what is hashed: values that normalize differently and still have the same octets. */
  lemma SharesCanonicalOctetsIff(v: Value)
    requires DistinctKeys(v)
    ensures (exists w :: DistinctKeys(w) && Normal(w) != Normal(v) && CanonicalText(w) == CanonicalText(v))
            <==> Respellable(Normal(v))
  {
    NormalIsProper(v);
    SharesCanonicalTextIff(Normal(v));
    hide Respellable, Print, Normal, DistinctKeys, IsNormal;
    if Respellable(Normal(v)) {
      var w :| Proper(w) && w != Normal(v) && Print(w) == Print(Normal(v));
      NormalOfNormal(w);
      assert DistinctKeys(w) && Normal(w) != Normal(v) && CanonicalText(w) == CanonicalText(v);
    }
    if w :| DistinctKeys(w) && Normal(w) != Normal(v) && CanonicalText(w) == CanonicalText(v) {
      NormalIsProper(w);
      assert Proper(Normal(w)) && Print(Normal(w)) == Print(Normal(v));
    }
  }

  /** No string or key holds a surrogate pair or a code point above U+FFFF. */
  predicate Plain(v: Value) {
    match v
    case Str(s) => !Paired(s) && !Astral(s)
    case Items(items) => forall i :: 0 <= i < |items| ==> Plain(items[i])
    case Members(members) => forall i :: 0 <= i < |members| ==> Plain(members[i])
    case Dict(entries) =>
      forall i :: 0 <= i < |entries| ==>
        !Paired(entries[i].key) && !Astral(entries[i].key) && Plain(entries[i].value)
    case _ => true
  }

  lemma {:induction false} PlainHasOneSpelling(v: Value)
    requires Plain(v)
    ensures !Respellable(v)
    decreases v
  {
    hide Paired, Astral, Keeps, OtherSpelling;
    match v
    case Items(items) =>
      forall i | 0 <= i < |items| ensures !Respellable(items[i]) {
        PlainHasOneSpelling(items[i]);
      }
    case Dict(entries) =>
      forall i | 0 <= i < |entries| ensures !Respellable(entries[i].value) {
        PlainHasOneSpelling(entries[i].value);
      }
      forall i: nat, t: seq<codepoint> | i < |entries| && Keeps(entries, i, t)
        ensures !OtherSpelling(entries[i].key, t)
      {
        HasOtherSpellingIff(entries[i].key);
      }
    case _ =>
  }

  /** Such a value prints like no other, pairs or no pairs on the other side. */
  lemma PlainPrintsLikeNoOther(v: Value, w: Value)
    requires Proper(v) && Proper(w) && Plain(v)
    ensures Print(v) == Print(w) <==> v == w
  {
    hide Proper, Respellable, Plain, Print;
    PlainHasOneSpelling(v);
    SharesCanonicalTextIff(v);
  }

  /** Any other spelling of U+1F600 begins with its high surrogate. */
  lemma OtherFace(t: seq<codepoint>)
    requires Units(t) == Units([0x1_F600])
    ensures t == [0x1_F600] || (t != [] && t[0] == 0xD83D)
  {
    var face: seq<codepoint> := [0x1_F600];
    assert Units(face) == [0xD83D, 0xDE00] by { assert face[1..] == []; }
    if t[0] >= 0x1_0000 {
      assert PointUnits(t[0]) == Units(t)[..2] && Units(t[1..]) == Units(t)[2..] == [];
      assert t[1..] == [] && t[0] == 0x1_F600 by { FaceUnits(t[0]); }
    } else {
      assert Units(t)[0] == t[0];
    }
  }

  lemma FaceUnits(c: codepoint)
    requires PointUnits(c) == [0xD83D, 0xDE00]
    ensures c == 0x1_F600
  {
  }

  /** A key can have another spelling and be held in place: it would have to pass the key U+FFFF. */
  lemma KeyHeldInPlace()
    ensures var v := Dict([Entry([0xFFFF], Null), Entry([0x1_F600], Null)]);
            Proper(v) && Astral(v.entries[1].key) && !Respellable(v)
  {
    var low, face: seq<codepoint> := [0xFFFF], [0x1_F600];
    var entries := [Entry(low, Null), Entry(face, Null)];
    ProperDict(entries);
    assert face[0] >= 0x1_0000;
    HasOtherSpellingIff(low);
    hide Units;
    forall i: nat, t: seq<codepoint> | i < |entries| && Keeps(entries, i, t)
      ensures !OtherSpelling(entries[i].key, t)
    {
      if i == 1 && OtherSpelling(face, t) {
        OtherFace(t);
      }
    }
  }
}
