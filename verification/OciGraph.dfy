/**
 OCI evidence: an index, a manifest and a config as canonical JSON octets, each named by its digest and
 compared with the document its declared fields describe. V4 compares with Python's ==, for which true
 is 1 and false is 0; V5 compares exactly.
 */
module OciGraph {
  import opened Bytes
  import opened CanonicalJson
  import opened Sorting

  type text = seq<unit>

  // Comparing decoded trees -------------------------------------------------

  /** A dict's keys ascend: how canonical octets list them, and how the expected documents are written. */
  predicate Ascending(fields: seq<Field>) {
    forall i, j :: 0 <= i < j < |fields| ==> fields[i].key != fields[j].key && Leq(fields[i].key, fields[j].key)
  }

  predicate Ordered(v: Json) {
    match v
    case List(items) => forall i :: 0 <= i < |items| ==> Ordered(items[i])
    case Dict(fields) => Ascending(fields) && forall i :: 0 <= i < |fields| ==> Ordered(fields[i].value)
    case _ => true
  }

  /** Where a key is looked up; |fields| when it is missing. */
  function Find(fields: seq<Field>, key: text): (k: nat)
    ensures k <= |fields| && (k < |fields| ==> fields[k].key == key)
    ensures k == |fields| ==> forall i :: 0 <= i < |fields| ==> fields[i].key != key
  {
    if fields == [] then 0 else if fields[0].key == key then 0 else 1 + Find(fields[1..], key)
  }

  predicate SameScalar(a: Json, b: Json, exact: bool) {
    a == b || (!exact && Number(a).Some? && Number(a) == Number(b))
  }

  function Number(v: Json): Option<int> {
    match v
    case Int(n) => Some(n)
    case Bool(b) => Some(if b then 1 else 0)
    case _ => None
  }

  /** Tree equality, dicts by key: exact compares types as well, otherwise numbers alias booleans. */
  predicate TreesEqual(a: Json, b: Json, exact: bool)
    decreases a
  {
    match a
    case List(items) =>
      b.List? && |b.items| == |items| && forall i :: 0 <= i < |items| ==> TreesEqual(items[i], b.items[i], exact)
    case Dict(fields) =>
      b.Dict? && |b.fields| == |fields|
      && forall i :: 0 <= i < |fields| ==>
           var k := Find(b.fields, fields[i].key);
           k < |b.fields| && TreesEqual(fields[i].value, b.fields[k].value, exact)
    case _ => SameScalar(a, b, exact)
  }

  /** Dicts of the same size, all keys of one in the other: in order, they agree place by place. */
  lemma {:induction false} KeysAgree(a: seq<Field>, b: seq<Field>, i: nat)
    requires Ascending(a) && Ascending(b) && |a| == |b| && i < |a|
    requires forall j :: 0 <= j < |a| ==> Find(b, a[j].key) < |b|
    ensures Find(b, a[i].key) == i && a[i].key == b[i].key
  {
    forall j | 0 <= j < |a| - 1
      ensures Find(b, a[j].key) < Find(b, a[j + 1].key)
    {
      var x, y := Find(b, a[j].key), Find(b, a[j + 1].key);
      if y < x {
        LeqAntisymmetric(a[j].key, a[j + 1].key);
      }
    }
    Squeezed(seq(|a|, j requires 0 <= j < |a| => Find(b, a[j].key)), |a|, i);
  }

  /** n ascending numbers below n can only be 0, 1, 2, ... */
  lemma {:induction false} Squeezed(f: seq<nat>, n: nat, i: nat)
    requires |f| == n && i < n && (forall j :: 0 <= j < n ==> f[j] < n)
    requires forall j :: 0 <= j < n - 1 ==> f[j] < f[j + 1]
    ensures f[i] == i
  {
    AtLeast(f, i);
    AtMost(f, n, i);
  }

  lemma {:induction false} AtLeast(f: seq<nat>, i: nat)
    requires i < |f| && forall j :: 0 <= j < |f| - 1 ==> f[j] < f[j + 1]
    ensures f[i] >= i
    decreases i
  {
    if i > 0 {
      AtLeast(f, i - 1);
      assert f[i - 1] < f[i - 1 + 1];
    }
  }

  lemma {:induction false} AtMost(f: seq<nat>, n: nat, i: nat)
    requires |f| == n && i < n && (forall j :: 0 <= j < n ==> f[j] < n)
    requires forall j :: 0 <= j < n - 1 ==> f[j] < f[j + 1]
    ensures f[i] <= i
    decreases n - i
  {
    if i < n - 1 {
      AtMost(f, n, i + 1);
      assert f[i] < f[i + 1];
    }
  }

  /** A tree with no number that is 0 or 1, where booleans could hide, and no boolean. */
  predicate NoAlias(v: Json)
    decreases v
  {
    match v
    case Bool(_) => false
    case Int(n) => n != 0 && n != 1
    case List(items) => forall i :: 0 <= i < |items| ==> NoAlias(items[i])
    case Dict(fields) => forall i :: 0 <= i < |fields| ==> NoAlias(fields[i].value)
    case _ => true
  }

  /** On ordered trees the exact comparison is identity, and so is the loose one where nothing aliases. */
  lemma {:induction false} EqualTreesAreOne(a: Json, b: Json, exact: bool)
    requires Ordered(a) && Ordered(b) && TreesEqual(a, b, exact) && (exact || NoAlias(b))
    ensures a == b
    decreases a
  {
    match a
    case List(items) =>
      forall i | 0 <= i < |items| ensures items[i] == b.items[i] { EqualTreesAreOne(items[i], b.items[i], exact); }
    case Dict(fields) =>
      forall i | 0 <= i < |fields| ensures fields[i] == b.fields[i] {
        KeysAgree(fields, b.fields, i);
        EqualTreesAreOne(fields[i].value, b.fields[i].value, exact);
      }
    case _ =>
  }

  lemma {:induction false} TreesEqualReflexive(a: Json, exact: bool)
    requires Ordered(a)
    ensures TreesEqual(a, a, exact)
    decreases a
  {
    match a
    case List(items) =>
      forall i | 0 <= i < |items| ensures TreesEqual(items[i], items[i], exact) {
        TreesEqualReflexive(items[i], exact);
      }
    case Dict(fields) =>
      forall i | 0 <= i < |fields|
        ensures Find(fields, fields[i].key) == i && TreesEqual(fields[i].value, fields[i].value, exact)
      {
        TreesEqualReflexive(fields[i].value, exact);
      }
    case _ =>
  }

  /** V5's comparison of canonical trees: equality of everything, keys and types included. */
  lemma ExactComparisonIsIdentity(a: Json, b: Json)
    requires Ordered(a) && Ordered(b)
    ensures TreesEqual(a, b, true) <==> a == b
  {
    if TreesEqual(a, b, true) {
      EqualTreesAreOne(a, b, true);
    } else if a == b {
      TreesEqualReflexive(a, true);
    }
  }

  /** One tree equal to two trees makes them equal: sameness of declared documents follows. */
  lemma {:induction false} EqualToOne(v: Json, a: Json, b: Json, exact: bool)
    requires Ordered(v) && Ordered(a) && Ordered(b)
    requires TreesEqual(v, a, exact) && TreesEqual(v, b, exact)
    ensures TreesEqual(a, b, exact)
    decreases v
  {
    match v
    case List(items) =>
      forall i | 0 <= i < |items| ensures TreesEqual(a.items[i], b.items[i], exact) {
        EqualToOne(items[i], a.items[i], b.items[i], exact);
      }
    case Dict(fields) =>
      forall i | 0 <= i < |fields|
        ensures Find(b.fields, a.fields[i].key) == i && TreesEqual(a.fields[i].value, b.fields[i].value, exact)
      {
        KeysAgree(fields, a.fields, i);
        KeysAgree(fields, b.fields, i);
        EqualToOne(fields[i].value, a.fields[i].value, b.fields[i].value, exact);
      }
    case _ =>
  }
}
