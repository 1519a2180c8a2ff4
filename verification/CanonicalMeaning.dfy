/**
 What canonical octets say to a reader: exactly the value they were made from, sets as lists in the order
 of their members' texts, dicts in the order of their keys.
 */
module CanonicalMeaning {
  import opened Bytes
  import J = CanonicalJson
  import JsonReader
  import opened PythonStrings
  import opened Sorting
  import opened Normalize

  ghost predicate AscendingTexts(items: seq<J.Json>) {
    forall i, k :: 0 <= i < k < |items| ==> Leq(J.Text(items[i]), J.Text(items[k]))
  }

  /** The tree says what the value is. */
  ghost predicate Denotes(v: Value, j: J.Json)
    decreases v
  {
    match v
    case Null => j == J.Null
    case Bool(b) => j == J.Bool(b)
    case Int(n) => j == J.Int(n)
    case Str(s) => j == J.Str(Units(s))
    case Items(items) =>
      j.List? && |j.items| == |items| && forall i :: 0 <= i < |items| ==> Denotes(items[i], j.items[i])
    case Members(members) =>
      && j.List? && |j.items| == |members| && AscendingTexts(j.items)
      && exists p: seq<nat> :: Permutation(p) && |p| == |members|
           && forall i :: 0 <= i < |members| ==> Denotes(members[i], j.items[p[i]])
    case Dict(entries) =>
      && j.Dict? && |j.fields| == |entries|
      && exists p: seq<nat> :: Permutation(p) && |p| == |entries|
           && (forall i :: 0 <= i < |entries| ==>
                 j.fields[p[i]].key == Units(entries[i].key) && Denotes(entries[i].value, j.fields[p[i]].value))
           && forall i, k :: 0 <= i < |entries| && 0 <= k < |entries| && p[i] < p[k] ==>
                Leq(entries[i].key, entries[k].key)
  }

  // Where sorting puts things -------------------------------------------------

  /** Inserting puts x somewhere and leaves the others in order. */
  lemma {:induction false} InsertPlace<T>(x: Keyed<T>, s: seq<Keyed<T>>) returns (k: nat)
    ensures k <= |s| && Insert(x, s) == s[..k] + [x] + s[k..]
    decreases |s|
  {
    if s == [] || Leq(x.key, s[0].key) {
      k := 0;
    } else {
      var l := InsertPlace(x, s[1..]);
      k := l + 1;
      assert s == [s[0]] + s[1..];
    }
  }

  function Shifted(q: seq<nat>, k: nat): seq<nat> {
    [k] + seq(|q|, i requires 0 <= i < |q| => if q[i] < k then q[i] else q[i] + 1)
  }

  lemma ShiftedPermutes(q: seq<nat>, k: nat)
    requires Permutation(q) && k <= |q|
    ensures Permutation(Shifted(q, k))
  {
    var p := Shifted(q, k);
    forall i, j | 0 <= i < j < |p| ensures p[i] != p[j] {
      if i > 0 {
        assert q[i - 1] != q[j - 1];
      }
    }
  }

  /** Where each element of s went. */
  lemma {:induction false} SortPlaces<T>(s: seq<Keyed<T>>) returns (p: seq<nat>)
    ensures Permutation(p) && |p| == |s| == |Sort(s)|
    ensures forall i :: 0 <= i < |s| ==> Sort(s)[p[i]] == s[i]
  {
    if s == [] {
      p := [];
    } else {
      var q := SortPlaces(s[1..]);
      var k := InsertPlace(s[0], Sort(s[1..]));
      ShiftedPermutes(q, k);
      p := Shifted(q, k);
      forall i | 0 <= i < |s| ensures Sort(s)[p[i]] == s[i] {
        if i > 0 {
          assert s[1..][i - 1] == s[i];
        }
      }
    }
  }

  lemma {:induction false} SortedFar<T>(s: seq<Keyed<T>>, i: nat, k: nat)
    requires Sorted(s) && i < k < |s|
    ensures Leq(s[i].key, s[k].key)
    decreases k
  {
    hide Leq;
    assert Leq(s[k - 1].key, s[k - 1 + 1].key);
    if i < k - 1 {
      SortedFar(s, i, k - 1);
      LeqTransitive(s[i].key, s[k - 1].key, s[k].key);
    }
  }

  // The theorem ----------------------------------------------------------------

  lemma {:induction false} NormalDenotes(v: Value)
    ensures Denotes(v, ToJson(Normal(v)))
    decreases v, 1
  {
    hide Sort, Units;
    match v
    case Items(items) =>
      forall i | 0 <= i < |items| ensures Denotes(items[i], ToJson(Normal(v)).items[i]) {
        NormalDenotes(items[i]);
      }
    case Members(members) => MembersDenote(v);
    case Dict(entries) => EntriesDenote(v);
    case _ =>
  }

  lemma {:induction false} MembersDenote(v: Value)
    requires v.Members?
    ensures Denotes(v, ToJson(Normal(v)))
    decreases v, 0
  {
    var ns := seq(|v.members|, i requires 0 <= i < |v.members| => Normal(v.members[i]));
    var keyed := ByText(ns);
    var p := SortPlaces(keyed);
    var sorted := Sort(keyed);
    hide Sort, Permutation;
    PermutationBounds(p);
    var j := ToJson(Items(Bare(sorted)));
    forall i | 0 <= i < |v.members| ensures Denotes(v.members[i], j.items[p[i]]) {
      NormalDenotes(v.members[i]);
      assert sorted[p[i]].value == ns[i];
    }
    TextsAscend(ns);
  }

  lemma TextsAscend(ns: seq<Value>)
    ensures AscendingTexts(ToJson(Items(Bare(Sort(ByText(ns))))).items)
  {
    var sorted := Sort(ByText(ns));
    SortSorts(ByText(ns));
    hide Sort, J.Text, ToJson;
    forall k: nat | k < |sorted| ensures sorted[k].key == Print(sorted[k].value) {
      BareOfSorted(ByText(ns), k);
    }
    ItemsOf(Bare(sorted));
    var items := ToJson(Items(Bare(sorted))).items;
    forall i: nat, k: nat | i < k < |items| ensures Leq(J.Text(items[i]), J.Text(items[k])) {
      SortedFar(sorted, i, k);
    }
  }

  lemma ItemsOf(vs: seq<Value>)
    ensures ToJson(Items(vs)).List? && |ToJson(Items(vs)).items| == |vs|
    ensures forall i :: 0 <= i < |vs| ==> ToJson(Items(vs)).items[i] == ToJson(vs[i])
  {
  }

  lemma {:induction false} EntriesDenote(v: Value)
    requires v.Dict?
    ensures Denotes(v, ToJson(Normal(v)))
    decreases v, 0
  {
    var entries := v.entries;
    var ns := seq(|entries|, i requires 0 <= i < |entries| => Entry(entries[i].key, Normal(entries[i].value)));
    var keyed := ByKey(ns);
    var p := SortPlaces(keyed);
    var sorted := Sort(keyed);
    SortSorts(keyed);
    hide Sort, Permutation, Sorted, Leq, Units;
    PermutationBounds(p);
    var j := ToJson(Dict(Bare(sorted)));
    forall i | 0 <= i < |entries|
      ensures j.fields[p[i]].key == Units(entries[i].key) && Denotes(entries[i].value, j.fields[p[i]].value)
      ensures sorted[p[i]].key == entries[i].key
    {
      NormalDenotes(entries[i].value);
      assert sorted[p[i]] == keyed[i];
    }
    forall i, k | 0 <= i < |entries| && 0 <= k < |entries| && p[i] < p[k] ensures Leq(entries[i].key, entries[k].key) {
      SortedFar(sorted, p[i], p[k]);
    }
  }

  /** Reading canonical octets gives the value back. */
  lemma CanonicalOctetsDenote(v: Value)
    ensures JsonReader.Read(CanonicalText(v)).Some? && Denotes(v, JsonReader.Read(CanonicalText(v)).value)
  {
    hide Denotes, ToJson, Normal, JsonReader.Read, J.Text;
    NormalDenotes(v);
    JsonReader.PrintedIsRead(ToJson(Normal(v)));
  }
}
