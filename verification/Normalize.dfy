/**
 The normalization in front of the canonical printer: dict entries by key, set members by their own
 printed text, sequences as lists. Values whose type is rendered first (enums, UUIDs, dates, decimals)
 are strings here.
 */
module Normalize {
  import opened Bytes
  import J = CanonicalJson
  import opened PythonStrings
  import opened Sorting

  datatype Value =
    | Null
    | Bool(b: bool)
    | Int(n: int)
    | Str(s: seq<codepoint>)
    | Items(items: seq<Value>)        // list or tuple
    | Dict(entries: seq<Entry>)       // in insertion order
    | Members(members: seq<Value>)    // set or frozenset, in iteration order

  datatype Entry = Entry(key: seq<codepoint>, value: Value)

  // Printing ----------------------------------------------------------------

  function ToJson(v: Value): J.Json {
    match v
    case Null => J.Null
    case Bool(b) => J.Bool(b)
    case Int(n) => J.Int(n)
    case Str(s) => J.Str(Units(s))
    case Items(items) => J.List(seq(|items|, i requires 0 <= i < |items| => ToJson(items[i])))
    case Members(members) => J.List(seq(|members|, i requires 0 <= i < |members| => ToJson(members[i])))
    case Dict(entries) =>
      J.Dict(seq(|entries|, i requires 0 <= i < |entries| =>
        J.Field(Units(entries[i].key), ToJson(entries[i].value))))
  }

  function Print(v: Value): bytes { J.Text(ToJson(v)) }

  // Normalizing -------------------------------------------------------------

  function ByKey(entries: seq<Entry>): seq<Keyed<Entry>> {
    seq(|entries|, i requires 0 <= i < |entries| => Keyed(entries[i].key, entries[i]))
  }

  function ByText(values: seq<Value>): seq<Keyed<Value>> {
    seq(|values|, i requires 0 <= i < |values| => Keyed(Print(values[i]), values[i]))
  }

  function Bare<T>(s: seq<Keyed<T>>): seq<T> {
    seq(|s|, i requires 0 <= i < |s| => s[i].value)
  }

  function Normal(v: Value): Value {
    match v
    case Items(items) => Items(seq(|items|, i requires 0 <= i < |items| => Normal(items[i])))
    case Members(members) =>
      Items(Bare(Sort(ByText(seq(|members|, i requires 0 <= i < |members| => Normal(members[i]))))))
    case Dict(entries) =>
      Dict(Bare(Sort(ByKey(seq(|entries|, i requires 0 <= i < |entries| =>
        Entry(entries[i].key, Normal(entries[i].value)))))))
    case _ => v
  }

  /** The octets every hash and signature is computed over. */
  function CanonicalText(v: Value): bytes { Print(Normal(v)) }

  /** Normal forms: no sets, and every dict in key order, so a second key sort is idle. */
  predicate IsNormal(v: Value) {
    match v
    case Items(items) => forall i :: 0 <= i < |items| ==> IsNormal(items[i])
    case Members(_) => false
    case Dict(entries) => Sorted(ByKey(entries)) && forall i :: 0 <= i < |entries| ==> IsNormal(entries[i].value)
    case _ => true
  }

  lemma BareOfSorted<T(!new)>(s: seq<Keyed<T>>, k: nat)
    requires k < |s|
    ensures |Sort(s)| == |s| && exists j :: 0 <= j < |s| && Sort(s)[k] == s[j]
  {
    SortSorts(s);
    assert Sort(s)[k] in multiset(Sort(s));
    assert Sort(s)[k] in multiset(s);
  }

  lemma SortedEntriesKeepKeys(entries: seq<Entry>)
    ensures ByKey(Bare(Sort(ByKey(entries)))) == Sort(ByKey(entries))
  {
    var s := Sort(ByKey(entries));
    SortSorts(ByKey(entries));
    forall k | 0 <= k < |s| ensures s[k] == Keyed(s[k].value.key, s[k].value) {
      BareOfSorted(ByKey(entries), k);
    }
  }

  lemma {:induction false} NormalIsNormal(v: Value)
    ensures IsNormal(Normal(v))
    decreases v
  {
    match v
    case Items(items) =>
      forall i | 0 <= i < |items| ensures IsNormal(Normal(items[i])) { NormalIsNormal(items[i]); }
    case Members(members) =>
      var ns := seq(|members|, i requires 0 <= i < |members| => Normal(members[i]));
      forall i | 0 <= i < |members| ensures IsNormal(ns[i]) { NormalIsNormal(members[i]); }
      forall k | 0 <= k < |Bare(Sort(ByText(ns)))| ensures IsNormal(Bare(Sort(ByText(ns)))[k]) {
        SortSorts(ByText(ns));
        BareOfSorted(ByText(ns), k);
      }
    case Dict(entries) =>
      var ns := seq(|entries|, i requires 0 <= i < |entries| => Entry(entries[i].key, Normal(entries[i].value)));
      forall i | 0 <= i < |entries| ensures IsNormal(ns[i].value) { NormalIsNormal(entries[i].value); }
      SortSorts(ByKey(ns));
      SortedEntriesKeepKeys(ns);
      forall k | 0 <= k < |Bare(Sort(ByKey(ns)))| ensures IsNormal(Bare(Sort(ByKey(ns)))[k].value) {
        BareOfSorted(ByKey(ns), k);
      }
    case _ =>
  }

  lemma {:induction false} NormalOfNormal(v: Value)
    requires IsNormal(v)
    ensures Normal(v) == v
    decreases v
  {
    match v
    case Items(items) =>
      forall i | 0 <= i < |items| ensures Normal(items[i]) == items[i] { NormalOfNormal(items[i]); }
      assert seq(|items|, i requires 0 <= i < |items| => Normal(items[i])) == items;
    case Dict(entries) =>
      var ns := seq(|entries|, i requires 0 <= i < |entries| => Entry(entries[i].key, Normal(entries[i].value)));
      forall i | 0 <= i < |entries| ensures ns[i] == entries[i] { NormalOfNormal(entries[i].value); }
      assert ns == entries;
      SortOfSorted(ByKey(entries));
      assert Bare(ByKey(entries)) == entries;
    case _ =>
  }

  /** Normalizing twice is normalizing once. */
  lemma NormalIdempotent(v: Value)
    ensures Normal(Normal(v)) == Normal(v)
  {
    NormalIsNormal(v);
    NormalOfNormal(Normal(v));
  }

  // Order does not matter ---------------------------------------------------

  /** Python dicts have no two entries with one key. */
  predicate DistinctKeys(v: Value) {
    match v
    case Items(items) => forall i :: 0 <= i < |items| ==> DistinctKeys(items[i])
    case Members(members) => forall i :: 0 <= i < |members| ==> DistinctKeys(members[i])
    case Dict(entries) =>
      && (forall i, j :: 0 <= i < j < |entries| ==> entries[i].key != entries[j].key)
      && forall i :: 0 <= i < |entries| ==> DistinctKeys(entries[i].value)
    case _ => true
  }

  /** The same value but for the order of dict entries and set members, at any depth. */
  ghost predicate Reordered(v: Value, w: Value)
    decreases v
  {
    match v
    case Items(items) =>
      w.Items? && |w.items| == |items| && forall i :: 0 <= i < |items| ==> Reordered(items[i], w.items[i])
    case Members(members) =>
      w.Members? && |w.members| == |members|
      && exists p: seq<nat> :: Permutation(p) && |p| == |members|
           && forall i :: 0 <= i < |members| ==> Reordered(members[i], w.members[p[i]])
    case Dict(entries) =>
      w.Dict? && |w.entries| == |entries|
      && exists p: seq<nat> :: Permutation(p) && |p| == |entries|
           && forall i :: 0 <= i < |entries| ==>
                entries[i].key == w.entries[p[i]].key && Reordered(entries[i].value, w.entries[p[i]].value)
    case _ => v == w
  }

  /** A printed container is a function of its members' printed texts. */
  lemma {:induction false} ItemsTextFromTexts(x: seq<J.Json>, y: seq<J.Json>)
    requires |x| == |y| && forall i :: 0 <= i < |x| ==> J.Text(x[i]) == J.Text(y[i])
    ensures J.ItemsText(x) == J.ItemsText(y) && J.Text(J.List(x)) == J.Text(J.List(y))
    decreases |x|
  {
    if x != [] {
      ItemsTextFromTexts(x[1..], y[1..]);
    }
  }

  lemma {:induction false} FieldsTextFromTexts(x: seq<J.Field>, y: seq<J.Field>)
    requires |x| == |y|
    requires forall i :: 0 <= i < |x| ==> x[i].key == y[i].key && J.Text(x[i].value) == J.Text(y[i].value)
    ensures J.FieldsText(x) == J.FieldsText(y) && J.Text(J.Dict(x)) == J.Text(J.Dict(y))
    decreases |x|
  {
    hide J.StringText, J.IntText;
    if x != [] {
      FieldsTextFromTexts(x[1..], y[1..]);
      assert J.FieldText(x[0]) == J.FieldText(y[0]);
    }
  }

  /** Keys with the texts of what they carry. */
  function EntryTexts(s: seq<Keyed<Entry>>): seq<Keyed<bytes>> {
    seq(|s|, i requires 0 <= i < |s| => Keyed(s[i].key, Print(s[i].value.value)))
  }

  function MemberTexts(s: seq<Keyed<Value>>): seq<Keyed<bytes>> {
    seq(|s|, i requires 0 <= i < |s| => Keyed(s[i].key, Print(s[i].value)))
  }

  lemma {:induction false} InsertEntryTexts(x: Keyed<Entry>, s: seq<Keyed<Entry>>)
    ensures EntryTexts(Insert(x, s)) == Insert(Keyed(x.key, Print(x.value.value)), EntryTexts(s))
    decreases |s|
  {
    hide Print;
    if s != [] {
      InsertEntryTexts(x, s[1..]);
      assert EntryTexts(s)[1..] == EntryTexts(s[1..]);
    }
  }

  lemma {:induction false} SortEntryTexts(s: seq<Keyed<Entry>>)
    ensures EntryTexts(Sort(s)) == Sort(EntryTexts(s))
    decreases |s|
  {
    hide Print;
    if s != [] {
      SortEntryTexts(s[1..]);
      InsertEntryTexts(s[0], Sort(s[1..]));
      assert EntryTexts(s)[1..] == EntryTexts(s[1..]);
    }
  }

  lemma {:induction false} InsertMemberTexts(x: Keyed<Value>, s: seq<Keyed<Value>>)
    ensures MemberTexts(Insert(x, s)) == Insert(Keyed(x.key, Print(x.value)), MemberTexts(s))
    decreases |s|
  {
    hide Print;
    if s != [] {
      InsertMemberTexts(x, s[1..]);
      assert MemberTexts(s)[1..] == MemberTexts(s[1..]);
    }
  }

  lemma {:induction false} SortMemberTexts(s: seq<Keyed<Value>>)
    ensures MemberTexts(Sort(s)) == Sort(MemberTexts(s))
    decreases |s|
  {
    hide Print;
    if s != [] {
      SortMemberTexts(s[1..]);
      InsertMemberTexts(s[0], Sort(s[1..]));
      assert MemberTexts(s)[1..] == MemberTexts(s[1..]);
    }
  }

  lemma MembersSortAlike(x: seq<Value>, y: seq<Value>, p: seq<nat>)
    requires Permutation(p) && |p| == |x| == |y|
    requires forall i :: 0 <= i < |x| ==> Print(x[i]) == Print(y[p[i]])
    ensures MemberTexts(Sort(ByText(x))) == MemberTexts(Sort(ByText(y)))
  {
    hide Print, Sort, Permutation;
    var tx, ty := MemberTexts(ByText(x)), MemberTexts(ByText(y));
    assert forall i :: 0 <= i < |x| ==> tx[i] == Keyed(Print(x[i]), Print(x[i]));
    PermutationBounds(p);
    PermutationMultiset(tx, ty, p);
    forall a: Keyed<bytes>, b: Keyed<bytes> | a in multiset(tx) && b in multiset(tx) && a.key == b.key ensures a == b {
      assert a in tx && b in tx;
    }
    SortIgnoresOrder(tx, ty);
    SortMemberTexts(ByText(x));
    SortMemberTexts(ByText(y));
  }

  lemma PermutationBounds(p: seq<nat>)
    requires Permutation(p)
    ensures forall i :: 0 <= i < |p| ==> p[i] < |p|
  {
  }

  lemma SetTextsAgree(x: seq<Value>, y: seq<Value>, p: seq<nat>)
    requires Permutation(p) && |p| == |x| == |y|
    requires forall i :: 0 <= i < |x| ==> Print(x[i]) == Print(y[p[i]])
    ensures Print(Items(Bare(Sort(ByText(x))))) == Print(Items(Bare(Sort(ByText(y)))))
  {
    hide J.Text, Sort, Permutation;
    MembersSortAlike(x, y, p);
    var sx, sy := Sort(ByText(x)), Sort(ByText(y));
    assert |MemberTexts(sx)| == |sx| && |MemberTexts(sy)| == |sy|;
    forall k | 0 <= k < |sx| ensures Print(sx[k].value) == Print(sy[k].value) {
      assert MemberTexts(sx)[k] == MemberTexts(sy)[k];
    }
    ItemsTextFromTexts(ToJson(Items(Bare(sx))).items, ToJson(Items(Bare(sy))).items);
  }

  lemma EntriesSortAlike(x: seq<Entry>, y: seq<Entry>, p: seq<nat>)
    requires Permutation(p) && |p| == |x| == |y|
    requires forall i, j :: 0 <= i < j < |x| ==> x[i].key != x[j].key
    requires forall i :: 0 <= i < |x| ==> x[i].key == y[p[i]].key && Print(x[i].value) == Print(y[p[i]].value)
    ensures EntryTexts(Sort(ByKey(x))) == EntryTexts(Sort(ByKey(y)))
  {
    hide Print, Sort, Permutation;
    var tx, ty := EntryTexts(ByKey(x)), EntryTexts(ByKey(y));
    assert forall i :: 0 <= i < |x| ==> tx[i] == Keyed(x[i].key, Print(x[i].value));
    PermutationBounds(p);
    PermutationMultiset(tx, ty, p);
    forall a: Keyed<bytes>, b: Keyed<bytes> | a in multiset(tx) && b in multiset(tx) && a.key == b.key ensures a == b {
      assert a in tx && b in tx;
      var i :| 0 <= i < |tx| && tx[i] == a;
      var j :| 0 <= j < |tx| && tx[j] == b;
      assert x[i].key == x[j].key;
    }
    SortIgnoresOrder(tx, ty);
    SortEntryTexts(ByKey(x));
    SortEntryTexts(ByKey(y));
  }

  lemma EntryKeyIsSortKey(x: seq<Entry>, k: nat)
    requires k < |Sort(ByKey(x))|
    ensures Sort(ByKey(x))[k].key == Sort(ByKey(x))[k].value.key
  {
    hide Sort;
    SortSorts(ByKey(x));
    BareOfSorted(ByKey(x), k);
  }

  lemma DictTextsAgree(x: seq<Entry>, y: seq<Entry>, p: seq<nat>)
    requires Permutation(p) && |p| == |x| == |y|
    requires forall i, j :: 0 <= i < j < |x| ==> x[i].key != x[j].key
    requires forall i :: 0 <= i < |x| ==> x[i].key == y[p[i]].key && Print(x[i].value) == Print(y[p[i]].value)
    ensures Print(Dict(Bare(Sort(ByKey(x))))) == Print(Dict(Bare(Sort(ByKey(y)))))
  {
    hide J.Text, Sort, Permutation, Units;
    EntriesSortAlike(x, y, p);
    var sx, sy := Sort(ByKey(x)), Sort(ByKey(y));
    assert |EntryTexts(sx)| == |sx| && |EntryTexts(sy)| == |sy|;
    forall k | 0 <= k < |sx|
      ensures sx[k].value.key == sy[k].value.key && Print(sx[k].value.value) == Print(sy[k].value.value)
    {
      assert EntryTexts(sx)[k] == EntryTexts(sy)[k];
      EntryKeyIsSortKey(x, k);
      EntryKeyIsSortKey(y, k);
    }
    FieldsTextFromTexts(ToJson(Dict(Bare(sx))).fields, ToJson(Dict(Bare(sy))).fields);
  }

  /** Reordering dicts and sets, at any depth, leaves the canonical octets as they are. */
  lemma {:induction false} ReorderingKeepsText(v: Value, w: Value)
    requires DistinctKeys(v) && Reordered(v, w)
    ensures CanonicalText(v) == CanonicalText(w)
    decreases v
  {
    hide Sort, J.Text;
    match v
    case Items(items) =>
      forall i | 0 <= i < |items| ensures CanonicalText(items[i]) == CanonicalText(w.items[i]) {
        ReorderingKeepsText(items[i], w.items[i]);
      }
      ItemsTextFromTexts(ToJson(Normal(v)).items, ToJson(Normal(w)).items);
    case Members(members) =>
      var p: seq<nat> :| Permutation(p) && |p| == |members|
        && forall i :: 0 <= i < |members| ==> Reordered(members[i], w.members[p[i]]);
      forall i | 0 <= i < |members| ensures CanonicalText(members[i]) == CanonicalText(w.members[p[i]]) {
        ReorderingKeepsText(members[i], w.members[p[i]]);
      }
      SetTextsAgree(seq(|members|, i requires 0 <= i < |members| => Normal(members[i])),
                    seq(|w.members|, i requires 0 <= i < |w.members| => Normal(w.members[i])), p);
    case Dict(entries) =>
      var p: seq<nat> :| Permutation(p) && |p| == |entries|
        && forall i :: 0 <= i < |entries| ==>
             entries[i].key == w.entries[p[i]].key && Reordered(entries[i].value, w.entries[p[i]].value);
      forall i | 0 <= i < |entries| ensures CanonicalText(entries[i].value) == CanonicalText(w.entries[p[i]].value) {
        ReorderingKeepsText(entries[i].value, w.entries[p[i]].value);
      }
      DictTextsAgree(
        seq(|entries|, i requires 0 <= i < |entries| => Entry(entries[i].key, Normal(entries[i].value))),
        seq(|w.entries|, i requires 0 <= i < |w.entries| => Entry(w.entries[i].key, Normal(w.entries[i].value))), p);
    case _ =>
  }

  // Distinct normal forms print apart ---------------------------------------

  /** No string or key anywhere holds a high surrogate directly before a low one. */
  predicate Unpaired(v: Value) {
    match v
    case Str(s) => !Paired(s)
    case Items(items) => forall i :: 0 <= i < |items| ==> Unpaired(items[i])
    case Members(members) => forall i :: 0 <= i < |members| ==> Unpaired(members[i])
    case Dict(entries) => forall i :: 0 <= i < |entries| ==> !Paired(entries[i].key) && Unpaired(entries[i].value)
    case _ => true
  }

  lemma UnitsInjective(s: seq<codepoint>, t: seq<codepoint>)
    requires !Paired(s) && !Paired(t) && Units(s) == Units(t)
    ensures s == t
  {
    JoinOfUnits(s);
    JoinOfUnits(t);
  }

  lemma {:induction false} ToJsonInjective(v: Value, w: Value)
    requires IsNormal(v) && IsNormal(w) && Unpaired(v) && Unpaired(w) && ToJson(v) == ToJson(w)
    ensures v == w
    decreases v
  {
    hide Units;
    match v
    case Str(s) => UnitsInjective(s, w.s);
    case Items(items) =>
      forall i | 0 <= i < |items| ensures items[i] == w.items[i] {
        assert ToJson(v).items[i] == ToJson(w).items[i];
        ToJsonInjective(items[i], w.items[i]);
      }
      assert items == w.items;
    case Dict(entries) =>
      forall i | 0 <= i < |entries| ensures entries[i] == w.entries[i] {
        assert ToJson(v).fields[i] == ToJson(w).fields[i];
        UnitsInjective(entries[i].key, w.entries[i].key);
        ToJsonInjective(entries[i].value, w.entries[i].value);
      }
      assert entries == w.entries;
    case _ =>
  }

  /**
   Two normalized values print alike exactly when their JSON trees are the same; without surrogate
   pairs in their strings, exactly when the values are the same.
   */
  lemma CanonicalTextsDistinct(v: Value, w: Value)
    requires IsNormal(v) && IsNormal(w)
    ensures Print(v) == Print(w) <==> ToJson(v) == ToJson(w)
    ensures Unpaired(v) && Unpaired(w) ==> (Print(v) == Print(w) <==> v == w)
  {
    J.PrinterInjective(ToJson(v), ToJson(w));
    if Unpaired(v) && Unpaired(w) && ToJson(v) == ToJson(w) {
      ToJsonInjective(v, w);
    }
  }
}
