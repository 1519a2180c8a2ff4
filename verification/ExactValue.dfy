/**
 Exact comparison of runtime values. Sets have no order, so the comparison matches their members
 greedily; everything else is compared position by position, dicts included. Values are finite trees
 without floats.
 */
module ExactValue {

  datatype Value =
    | Null
    | Bool(flag: bool)
    | Int(number: int)
    | Text(text: string)
    | Tuple(items: seq<Value>)
    | List(items: seq<Value>)
    | Dict(entries: seq<Entry>)  // in insertion order
    | Set(frozen: bool, items: seq<Value>)  // in iteration order
    | Model(cls: nat, state: map<string, Value>, hidden: nat)  // private and extra state, 0 for none

  datatype Entry = Entry(key: Value, value: Value)

  /** p and q are each other's inverse on 0 .. n - 1. */
  ghost predicate Inverse(p: seq<nat>, q: seq<nat>, n: nat) {
    && |p| == n && |q| == n
    && (forall i :: 0 <= i < n ==> p[i] < n && q[p[i]] == i)
    && forall j :: 0 <= j < n ==> q[j] < n && p[q[j]] == j
  }

  /** The specification: same types throughout, and sets by some one-to-one pairing of same members. */
  ghost predicate Same(a: Value, b: Value)
    decreases a
  {
    match a
    case Tuple(items) =>
      b.Tuple? && |b.items| == |items| && forall i :: 0 <= i < |items| ==> Same(items[i], b.items[i])
    case List(items) =>
      b.List? && |b.items| == |items| && forall i :: 0 <= i < |items| ==> Same(items[i], b.items[i])
    case Dict(entries) =>
      b.Dict? && |b.entries| == |entries|
      && forall i :: 0 <= i < |entries| ==>
           Same(entries[i].key, b.entries[i].key) && Same(entries[i].value, b.entries[i].value)
    case Set(frozen, items) =>
      b.Set? && b.frozen == frozen && |b.items| == |items|
      && exists p: seq<nat>, q: seq<nat> :: Inverse(p, q, |items|)
           && forall i :: 0 <= i < |items| ==> Same(items[i], b.items[p[i]])
    case Model(cls, state, _) =>
      b.Model? && b.cls == cls && b.state.Keys == state.Keys
      && forall name :: name in state ==> Same(state[name], b.state[name])
    case _ => a == b
  }

  /** Ordinary equality: numbers across types, dicts in any order, sets frozen or not by membership. */
  ghost predicate Equal(a: Value, b: Value)
    decreases a
  {
    match a
    case Tuple(items) =>
      b.Tuple? && |b.items| == |items| && forall i :: 0 <= i < |items| ==> Equal(items[i], b.items[i])
    case List(items) =>
      b.List? && |b.items| == |items| && forall i :: 0 <= i < |items| ==> Equal(items[i], b.items[i])
    case Dict(entries) =>
      b.Dict? && |b.entries| == |entries|
      && exists f: seq<nat> :: Into(f, |entries|)
           && forall i :: 0 <= i < |entries| ==>
                Equal(entries[i].key, b.entries[f[i]].key) && Equal(entries[i].value, b.entries[f[i]].value)
    case Set(_, items) =>
      b.Set? && |b.items| == |items|
      && exists f: seq<nat> :: Into(f, |items|) && forall i :: 0 <= i < |items| ==> Equal(items[i], b.items[f[i]])
    case Model(cls, state, hidden) =>
      b.Model? && b.cls == cls && b.state.Keys == state.Keys && b.hidden == hidden
      && forall name :: name in state ==> Equal(state[name], b.state[name])
    case _ => a == b || (Numeric(a) && Numeric(b) && Number(a) == Number(b))
  }

  ghost predicate Into(f: seq<nat>, n: nat) {
    |f| == n && forall i :: 0 <= i < n ==> f[i] < n
  }

  /** No model in it has private or extra state. */
  predicate Bare(v: Value) {
    match v
    case Tuple(items) => forall i :: 0 <= i < |items| ==> Bare(items[i])
    case List(items) => forall i :: 0 <= i < |items| ==> Bare(items[i])
    case Set(_, items) => forall i :: 0 <= i < |items| ==> Bare(items[i])
    case Dict(entries) => forall i :: 0 <= i < |entries| ==> Bare(entries[i].key) && Bare(entries[i].value)
    case Model(_, state, hidden) => hidden == 0 && forall name :: name in state ==> Bare(state[name])
    case _ => true
  }

  predicate Numeric(a: Value) { a.Bool? || a.Int? }

  function Number(a: Value): int
    requires Numeric(a)
  {
    if a.Int? then a.number else if a.flag then 1 else 0
  }

  ghost predicate Pairs(x: seq<Value>, y: seq<Value>, p: seq<nat>, q: seq<nat>) {
    && |x| == |y| && Inverse(p, q, |x|)
    && forall i :: 0 <= i < |x| ==> Same(x[i], y[p[i]])
  }

  ghost predicate Matchable(x: seq<Value>, y: seq<Value>) {
    exists p: seq<nat>, q: seq<nat> :: Pairs(x, y, p, q)
  }

  lemma SetsMatch(a: Value, b: Value)
    requires a.Set? && b.Set?
    ensures Same(a, b) <==> a.frozen == b.frozen && Matchable(a.items, b.items)
  {
    if Matchable(a.items, b.items) {
      var p, q :| Pairs(a.items, b.items, p, q);
    }
    if Same(a, b) {
      var p: seq<nat>, q: seq<nat> :| Inverse(p, q, |a.items|)
        && forall i :: 0 <= i < |a.items| ==> Same(a.items[i], b.items[p[i]]);
      assert Pairs(a.items, b.items, p, q);
    }
  }

  // What Same tells apart ----------------------------------------------------

  /** No set in it, where order does not count. */
  predicate Setless(v: Value) {
    match v
    case Tuple(items) => forall i :: 0 <= i < |items| ==> Setless(items[i])
    case List(items) => forall i :: 0 <= i < |items| ==> Setless(items[i])
    case Set(_, _) => false
    case Dict(entries) => forall i :: 0 <= i < |entries| ==> Setless(entries[i].key) && Setless(entries[i].value)
    case Model(_, state, _) => forall name :: name in state ==> Setless(state[name])
    case _ => true
  }

  /** Without what models hide. */
  function Shown(v: Value): Value {
    match v
    case Tuple(items) => Tuple(seq(|items|, i requires 0 <= i < |items| => Shown(items[i])))
    case List(items) => List(seq(|items|, i requires 0 <= i < |items| => Shown(items[i])))
    case Set(frozen, items) => Set(frozen, seq(|items|, i requires 0 <= i < |items| => Shown(items[i])))
    case Dict(entries) =>
      Dict(seq(|entries|, i requires 0 <= i < |entries| => Entry(Shown(entries[i].key), Shown(entries[i].value))))
    case Model(cls, state, _) => Model(cls, map name | name in state :: Shown(state[name]), 0)
    case _ => v
  }

  /** Sameness is identity: of type, of number, of text, of order in lists and dicts, up to hidden state. */
  lemma {:induction false} SameIsIdentity(a: Value, b: Value)
    requires Setless(a)
    ensures Same(a, b) <==> Shown(a) == Shown(b)
    decreases a, 1
  {
    match a
    case Tuple(items) => if b.Tuple? { ItemsSame(items, b.items); }
    case List(items) => if b.List? { ItemsSame(items, b.items); }
    case Dict(entries) => if b.Dict? { EntriesSame(entries, b.entries); }
    case Model(_, _, _) => if b.Model? { ModelsSame(a, b); }
    case _ =>
  }

  lemma {:induction false} ModelsSame(a: Value, b: Value)
    requires Setless(a) && a.Model? && b.Model?
    ensures Same(a, b) <==> Shown(a) == Shown(b)
    decreases a, 0
  {
    var x, y := a.state, b.state;
    assert forall name :: name in x ==> Setless(x[name]);
    forall name | name in x && name in y ensures Same(x[name], y[name]) <==> Shown(x[name]) == Shown(y[name]) {
      SameIsIdentity(x[name], y[name]);
    }
    StatesSame(x, y);
  }

  lemma {:induction false} ItemsSame(x: seq<Value>, y: seq<Value>)
    requires forall i :: 0 <= i < |x| ==> Setless(x[i])
    ensures (|x| == |y| && forall i :: 0 <= i < |x| ==> Same(x[i], y[i]))
            <==> seq(|x|, i requires 0 <= i < |x| => Shown(x[i])) == seq(|y|, i requires 0 <= i < |y| => Shown(y[i]))
    decreases x
  {
    var shownX := seq(|x|, i requires 0 <= i < |x| => Shown(x[i]));
    var shownY := seq(|y|, i requires 0 <= i < |y| => Shown(y[i]));
    if |x| == |y| {
      forall i | 0 <= i < |x| ensures Same(x[i], y[i]) <==> shownX[i] == shownY[i] {
        SameIsIdentity(x[i], y[i]);
      }
    } else {
      assert |shownX| != |shownY|;
    }
  }

  lemma {:induction false} EntriesSame(x: seq<Entry>, y: seq<Entry>)
    requires forall i :: 0 <= i < |x| ==> Setless(x[i].key) && Setless(x[i].value)
    ensures (|x| == |y| && forall i :: 0 <= i < |x| ==> Same(x[i].key, y[i].key) && Same(x[i].value, y[i].value))
            <==> Shown(Dict(x)) == Shown(Dict(y))
    decreases x
  {
    var shownX, shownY := Shown(Dict(x)).entries, Shown(Dict(y)).entries;
    if |x| == |y| {
      forall i | 0 <= i < |x|
        ensures Same(x[i].key, y[i].key) && Same(x[i].value, y[i].value) <==> shownX[i] == shownY[i]
      {
        SameIsIdentity(x[i].key, y[i].key);
        SameIsIdentity(x[i].value, y[i].value);
      }
    } else {
      assert |shownX| != |shownY|;
    }
  }

  lemma StatesSame(x: map<string, Value>, y: map<string, Value>)
    requires forall name :: name in x && name in y ==> (Same(x[name], y[name]) <==> Shown(x[name]) == Shown(y[name]))
    ensures (x.Keys == y.Keys && forall name :: name in x ==> Same(x[name], y[name]))
            <==> (map name | name in x :: Shown(x[name])) == (map name | name in y :: Shown(y[name]))
  {
    hide Same, Shown;
    var shownX, shownY := map name | name in x :: Shown(x[name]), map name | name in y :: Shown(y[name]);
    assert shownX.Keys == x.Keys && shownY.Keys == y.Keys;
    if x.Keys == y.Keys && shownX == shownY {
      forall name | name in x ensures Same(x[name], y[name]) {
        assert shownX[name] == shownY[name];
      }
    }
  }

  // Same is an equivalence that implies ordinary equality --------------------

  lemma {:induction false} Reflexive(a: Value)
    ensures Same(a, a)
    decreases a
  {
    match a
    case Tuple(items) => forall i | 0 <= i < |items| ensures Same(items[i], items[i]) { Reflexive(items[i]); }
    case List(items) => forall i | 0 <= i < |items| ensures Same(items[i], items[i]) { Reflexive(items[i]); }
    case Dict(entries) =>
      forall i | 0 <= i < |entries|
        ensures Same(entries[i].key, entries[i].key) && Same(entries[i].value, entries[i].value)
      {
        Reflexive(entries[i].key);
        Reflexive(entries[i].value);
      }
    case Model(_, state, _) =>
      forall name | name in state ensures Same(state[name], state[name]) { Reflexive(state[name]); }
    case Set(_, items) =>
      var id := seq(|items|, i requires 0 <= i < |items| => i);
      assert Inverse(id, id, |items|);
      forall i | 0 <= i < |items| ensures Same(items[i], items[id[i]]) { Reflexive(items[i]); }
    case _ =>
  }

  lemma {:induction false} Symmetric(a: Value, b: Value)
    requires Same(a, b)
    ensures Same(b, a)
    decreases a
  {
    match a
    case Tuple(items) =>
      forall i | 0 <= i < |items| ensures Same(b.items[i], items[i]) { Symmetric(items[i], b.items[i]); }
    case List(items) =>
      forall i | 0 <= i < |items| ensures Same(b.items[i], items[i]) { Symmetric(items[i], b.items[i]); }
    case Dict(entries) =>
      forall i | 0 <= i < |entries|
        ensures Same(b.entries[i].key, entries[i].key) && Same(b.entries[i].value, entries[i].value)
      {
        Symmetric(entries[i].key, b.entries[i].key);
        Symmetric(entries[i].value, b.entries[i].value);
      }
    case Model(_, state, _) =>
      forall name | name in state ensures Same(b.state[name], state[name]) { Symmetric(state[name], b.state[name]); }
    case Set(_, items) =>
      var p: seq<nat>, q: seq<nat> :| Inverse(p, q, |items|)
        && forall i :: 0 <= i < |items| ==> Same(items[i], b.items[p[i]]);
      assert Inverse(q, p, |b.items|);
      forall j | 0 <= j < |b.items| ensures Same(b.items[j], items[q[j]]) {
        Symmetric(items[q[j]], b.items[j]);
      }
    case _ =>
  }

  function Compose(p: seq<nat>, r: seq<nat>, n: nat): (s: seq<nat>)
    requires |p| == n && |r| == n && forall i :: 0 <= i < n ==> p[i] < n
    ensures |s| == n && forall i :: 0 <= i < n ==> s[i] == r[p[i]]
  {
    seq(n, i requires 0 <= i < n => r[p[i]])
  }

  lemma {:induction false} Transitive(a: Value, b: Value, c: Value)
    requires Same(a, b) && Same(b, c)
    ensures Same(a, c)
    decreases a
  {
    match a
    case Tuple(items) =>
      forall i | 0 <= i < |items| ensures Same(items[i], c.items[i]) { Transitive(items[i], b.items[i], c.items[i]); }
    case List(items) =>
      forall i | 0 <= i < |items| ensures Same(items[i], c.items[i]) { Transitive(items[i], b.items[i], c.items[i]); }
    case Dict(entries) =>
      forall i | 0 <= i < |entries|
        ensures Same(entries[i].key, c.entries[i].key) && Same(entries[i].value, c.entries[i].value)
      {
        Transitive(entries[i].key, b.entries[i].key, c.entries[i].key);
        Transitive(entries[i].value, b.entries[i].value, c.entries[i].value);
      }
    case Model(_, state, _) =>
      forall name | name in state ensures Same(state[name], c.state[name]) {
        Transitive(state[name], b.state[name], c.state[name]);
      }
    case Set(_, _) => SetsTransitive(a, b, c);
    case _ =>
  }

  lemma ComposeInverse(p: seq<nat>, q: seq<nat>, r: seq<nat>, t: seq<nat>, n: nat)
    requires Inverse(p, q, n) && Inverse(r, t, n)
    ensures Inverse(Compose(p, r, n), Compose(t, q, n), n)
  {
  }

  lemma {:induction false} SetsTransitive(a: Value, b: Value, c: Value)
    requires a.Set? && b.Set? && c.Set? && a.frozen == b.frozen == c.frozen
    requires Same(a, b) && Same(b, c)
    ensures Same(a, c)
    decreases a, 0
  {
    hide Same;
    SetsMatch(a, b);
    SetsMatch(b, c);
    SetsMatch(a, c);
    var x, y, z := a.items, b.items, c.items;
    var p, q :| Pairs(x, y, p, q);
    var r, t :| Pairs(y, z, r, t);
    ComposeInverse(p, q, r, t, |x|);
    var there := Compose(p, r, |x|);
    forall i | 0 <= i < |x| ensures Same(x[i], z[there[i]]) {
      Transitive(x[i], y[p[i]], z[r[p[i]]]);
    }
    assert Pairs(x, z, there, Compose(t, q, |x|));
  }

  /** Values without private or extra model state, which the exact walk refuses, are equal if same. */
  lemma {:induction false} SameImpliesEqual(a: Value, b: Value)
    requires Same(a, b) && Bare(a) && Bare(b)
    ensures Equal(a, b)
    decreases a
  {
    match a
    case Tuple(items) =>
      forall i | 0 <= i < |items| ensures Equal(items[i], b.items[i]) { SameImpliesEqual(items[i], b.items[i]); }
    case List(items) =>
      forall i | 0 <= i < |items| ensures Equal(items[i], b.items[i]) { SameImpliesEqual(items[i], b.items[i]); }
    case Dict(entries) =>
      var f := seq(|entries|, i requires 0 <= i < |entries| => i);
      assert Into(f, |entries|);
      forall i | 0 <= i < |entries|
        ensures Equal(entries[i].key, b.entries[f[i]].key) && Equal(entries[i].value, b.entries[f[i]].value)
      {
        SameImpliesEqual(entries[i].key, b.entries[i].key);
        SameImpliesEqual(entries[i].value, b.entries[i].value);
      }
    case Model(_, state, _) =>
      forall name | name in state ensures Equal(state[name], b.state[name]) {
        SameImpliesEqual(state[name], b.state[name]);
      }
    case Set(_, items) =>
      var p: seq<nat>, q: seq<nat> :| Inverse(p, q, |items|)
        && forall i :: 0 <= i < |items| ==> Same(items[i], b.items[p[i]]);
      assert Into(p, |items|);
      forall i | 0 <= i < |items| ensures Equal(items[i], b.items[p[i]]) {
        SameImpliesEqual(items[i], b.items[p[i]]);
      }
    case _ =>
  }

  // When sameness implies equality -------------------------------------------

  /** The comparison does not look at that state, and ordinary equality does. */
  lemma HiddenStateIsNotCompared()
    ensures var a, b := Model(0, map[], 0), Model(0, map[], 1); Same(a, b) && !Equal(a, b)
  {
  }

  /** No model occurs in it. */
  predicate Modelless(v: Value) {
    match v
    case Tuple(items) => forall i :: 0 <= i < |items| ==> Modelless(items[i])
    case List(items) => forall i :: 0 <= i < |items| ==> Modelless(items[i])
    case Set(_, items) => forall i :: 0 <= i < |items| ==> Modelless(items[i])
    case Dict(entries) => forall i :: 0 <= i < |entries| ==> Modelless(entries[i].key) && Modelless(entries[i].value)
    case Model(_, _, _) => false
    case _ => true
  }

  /** Every model's private and extra state replaced, distinct ones by distinct ones. */
  function Shift(v: Value, n: nat): Value {
    match v
    case Tuple(items) => Tuple(seq(|items|, i requires 0 <= i < |items| => Shift(items[i], n)))
    case List(items) => List(seq(|items|, i requires 0 <= i < |items| => Shift(items[i], n)))
    case Set(frozen, items) => Set(frozen, seq(|items|, i requires 0 <= i < |items| => Shift(items[i], n)))
    case Dict(entries) =>
      Dict(seq(|entries|, i requires 0 <= i < |entries| =>
        Entry(Shift(entries[i].key, n), Shift(entries[i].value, n))))
    case Model(cls, state, hidden) => Model(cls, map name | name in state :: Shift(state[name], n), hidden + n)
    case _ => v
  }

  lemma {:induction false} ShiftIsSame(v: Value, n: nat)
    ensures Same(v, Shift(v, n))
    decreases v
  {
    match v
    case Tuple(items) =>
      forall i | 0 <= i < |items| ensures Same(items[i], Shift(items[i], n)) {
        ShiftIsSame(items[i], n);
      }
    case List(items) =>
      forall i | 0 <= i < |items| ensures Same(items[i], Shift(items[i], n)) {
        ShiftIsSame(items[i], n);
      }
    case Set(_, items) =>
      var id := seq(|items|, i requires 0 <= i < |items| => i);
      assert Inverse(id, id, |items|);
      var b := Shift(v, n);
      forall i | 0 <= i < |items| ensures Same(items[i], b.items[id[i]]) { ShiftIsSame(items[i], n); }
    case Dict(entries) =>
      forall i | 0 <= i < |entries|
        ensures Same(entries[i].key, Shift(entries[i].key, n)) && Same(entries[i].value, Shift(entries[i].value, n))
      {
        ShiftIsSame(entries[i].key, n);
        ShiftIsSame(entries[i].value, n);
      }
    case Model(_, state, _) =>
      forall name | name in state ensures Same(state[name], Shift(state[name], n)) { ShiftIsSame(state[name], n); }
    case _ =>
  }

  /** Every outermost model's hidden state lies below n. */
  predicate Under(v: Value, n: nat) {
    match v
    case Tuple(items) => forall i :: 0 <= i < |items| ==> Under(items[i], n)
    case List(items) => forall i :: 0 <= i < |items| ==> Under(items[i], n)
    case Set(_, items) => forall i :: 0 <= i < |items| ==> Under(items[i], n)
    case Dict(entries) => forall i :: 0 <= i < |entries| ==> Under(entries[i].key, n) && Under(entries[i].value, n)
    case Model(_, _, hidden) => hidden < n
    case _ => true
  }

  lemma {:induction false} UnderMore(v: Value, m: nat, n: nat)
    requires Under(v, m) && m <= n
    ensures Under(v, n)
    decreases v
  {
    match v
    case Tuple(items) => forall i | 0 <= i < |items| ensures Under(items[i], n) { UnderMore(items[i], m, n); }
    case List(items) => forall i | 0 <= i < |items| ensures Under(items[i], n) { UnderMore(items[i], m, n); }
    case Set(_, items) => forall i | 0 <= i < |items| ensures Under(items[i], n) { UnderMore(items[i], m, n); }
    case Dict(entries) =>
      forall i | 0 <= i < |entries| ensures Under(entries[i].key, n) && Under(entries[i].value, n) {
        UnderMore(entries[i].key, m, n);
        UnderMore(entries[i].value, m, n);
      }
    case _ =>
  }

  lemma {:induction false} SomeBound(v: Value) returns (n: nat)
    ensures Under(v, n)
    decreases v
  {
    match v
    case Tuple(items) => n := SomeBoundOfAll(items);
    case List(items) => n := SomeBoundOfAll(items);
    case Set(_, items) => n := SomeBoundOfAll(items);
    case Dict(entries) => n := SomeBoundOfEntries(entries);
    case Model(_, _, hidden) => n := hidden + 1;
    case _ => n := 0;
  }

  lemma {:induction false} SomeBoundOfAll(items: seq<Value>) returns (n: nat)
    ensures forall i :: 0 <= i < |items| ==> Under(items[i], n)
    decreases items
  {
    n := 0;
    for k := 0 to |items|
      invariant forall i :: 0 <= i < k ==> Under(items[i], n)
    {
      var m := SomeBound(items[k]);
      forall i | 0 <= i <= k ensures Under(items[i], n + m) { UnderMore(items[i], if i < k then n else m, n + m); }
      n := n + m;
    }
  }

  lemma {:induction false} SomeBoundOfEntry(e: Entry) returns (n: nat)
    ensures Under(e.key, n) && Under(e.value, n)
    decreases e
  {
    var k := SomeBound(e.key);
    var v := SomeBound(e.value);
    n := k + v;
    UnderMore(e.key, k, n);
    UnderMore(e.value, v, n);
  }

  lemma {:induction false} SomeBoundOfEntries(entries: seq<Entry>) returns (n: nat)
    ensures forall i :: 0 <= i < |entries| ==> Under(entries[i].key, n) && Under(entries[i].value, n)
    decreases entries
  {
    n := 0;
    for k := 0 to |entries|
      invariant forall i :: 0 <= i < k ==> Under(entries[i].key, n) && Under(entries[i].value, n)
    {
      var m := SomeBoundOfEntry(entries[k]);
      forall i | 0 <= i <= k ensures Under(entries[i].key, n + m) && Under(entries[i].value, n + m) {
        UnderMore(entries[i].key, if i < k then n else m, n + m);
        UnderMore(entries[i].value, if i < k then n else m, n + m);
      }
      n := n + m;
    }
  }

  /** Where a model occurs, a value whose models are all shifted past its own is another one. */
  lemma {:induction false} ShiftIsOther(x: Value, y: Value, n: nat)
    requires !Modelless(x) && Under(x, n)
    ensures !Equal(x, Shift(y, n))
    decreases x, 1
  {
    var z := Shift(y, n);
    if Equal(x, z) {
      match x
      case Tuple(items) =>
        var i :| 0 <= i < |items| && !Modelless(items[i]);
        ShiftIsOther(items[i], y.items[i], n);
      case List(items) =>
        var i :| 0 <= i < |items| && !Modelless(items[i]);
        ShiftIsOther(items[i], y.items[i], n);
      case Set(_, items) =>
        var f: seq<nat> :| Into(f, |items|) && forall i :: 0 <= i < |items| ==> Equal(items[i], z.items[f[i]]);
        var i :| 0 <= i < |items| && !Modelless(items[i]);
        ShiftIsOther(items[i], y.items[f[i]], n);
      case Dict(_) => ShiftIsOtherDict(x, y, n);
      case Model(_, _, _) =>
    }
  }

  lemma {:induction false} ShiftIsOtherDict(x: Value, y: Value, n: nat)
    requires x.Dict? && !Modelless(x) && Under(x, n)
    ensures !Equal(x, Shift(y, n))
    decreases x, 0
  {
    var z := Shift(y, n);
    if Equal(x, z) {
      var entries := x.entries;
      var f: seq<nat> :| Into(f, |entries|)
        && forall i :: 0 <= i < |entries| ==>
             Equal(entries[i].key, z.entries[f[i]].key) && Equal(entries[i].value, z.entries[f[i]].value);
      var i :| 0 <= i < |entries| && !(Modelless(entries[i].key) && Modelless(entries[i].value));
      var e, other := entries[i], y.entries[f[i]];
      assert Equal(e.key, Shift(other.key, n)) && Equal(e.value, Shift(other.value, n));
      hide Equal, Shift;
      if !Modelless(e.key) {
        ShiftIsOther(e.key, other.key, n);
      } else {
        ShiftIsOther(e.value, other.value, n);
      }
    }
  }

  lemma {:induction false} ModellessIsBare(v: Value, w: Value)
    requires Modelless(v) && Same(v, w)
    ensures Bare(v) && Bare(w)
    decreases v
  {
    match v
    case Tuple(items) =>
      forall i | 0 <= i < |items| ensures Bare(items[i]) && Bare(w.items[i]) { ModellessIsBare(items[i], w.items[i]); }
    case List(items) =>
      forall i | 0 <= i < |items| ensures Bare(items[i]) && Bare(w.items[i]) { ModellessIsBare(items[i], w.items[i]); }
    case Set(_, items) =>
      var p: seq<nat>, q: seq<nat> :| Inverse(p, q, |items|)
        && forall i :: 0 <= i < |items| ==> Same(items[i], w.items[p[i]]);
      forall i | 0 <= i < |items| ensures Bare(items[i]) { ModellessIsBare(items[i], w.items[p[i]]); }
      forall j | 0 <= j < |items| ensures Bare(w.items[j]) { ModellessIsBare(items[q[j]], w.items[j]); }
    case Dict(entries) =>
      forall i | 0 <= i < |entries|
        ensures Bare(entries[i].key) && Bare(w.entries[i].key)
        ensures Bare(entries[i].value) && Bare(w.entries[i].value)
      {
        ModellessIsBare(entries[i].key, w.entries[i].key);
        ModellessIsBare(entries[i].value, w.entries[i].value);
      }
    case _ =>
  }

  /** Sameness to a value implies equality to it exactly when no model occurs in the value. */
  lemma SameImpliesEqualIff(a: Value)
    ensures (forall b: Value :: Same(a, b) ==> Equal(a, b)) <==> Modelless(a)
  {
    if Modelless(a) {
      forall b: Value | Same(a, b) ensures Equal(a, b) {
        ModellessIsBare(a, b);
        SameImpliesEqual(a, b);
      }
    } else {
      var n := SomeBound(a);
      ShiftIsSame(a, n);
      ShiftIsOther(a, a, n);
      assert Same(a, Shift(a, n)) && !Equal(a, Shift(a, n));
    }
  }

  // The greedy step is safe -------------------------------------------------

  function Without(y: seq<Value>, k: nat): (r: seq<Value>)
    requires k < |y|
    ensures |r| == |y| - 1 && forall j :: 0 <= j < |r| ==> r[j] == y[Skip(j, k)]
  {
    y[..k] + y[k + 1..]
  }

  function Skip(j: nat, k: nat): nat { if j < k then j else j + 1 }

  function Unskip(j: nat, k: nat): nat
    requires j != k
  {
    if j < k then j else j - 1
  }

  lemma ExtendInverse(p: seq<nat>, q: seq<nat>, n: nat, k: nat) returns (p': seq<nat>, q': seq<nat>)
    requires Inverse(p, q, n) && k <= n
    ensures Inverse(p', q', n + 1) && p'[0] == k
    ensures forall i :: 0 <= i < n ==> p'[i + 1] == Skip(p[i], k)
  {
    p' := seq(n + 1, i requires 0 <= i < n + 1 => if i == 0 then k else Skip(p[i - 1], k));
    q' := seq(n + 1, j requires 0 <= j < n + 1 => if j == k then 0 else q[Unskip(j, k)] + 1);
    forall i | 0 <= i < n + 1 ensures p'[i] < n + 1 && q'[p'[i]] == i {
      if i > 0 {
        assert Unskip(p'[i], k) == p[i - 1];
      }
    }
    forall j | 0 <= j < n + 1 ensures q'[j] < n + 1 && p'[q'[j]] == j {
      if j != k {
        assert q'[j] == q[Unskip(j, k)] + 1;
      }
    }
  }

  lemma ShrinkInverse(p: seq<nat>, q: seq<nat>, n: nat, k: nat) returns (p': seq<nat>, q': seq<nat>)
    requires Inverse(p, q, n + 1) && k <= n && p[0] == k
    ensures Inverse(p', q', n)
    ensures forall i :: 0 <= i < n ==> p[i + 1] == Skip(p'[i], k)
  {
    assert q[k] == 0;
    assert forall i :: 0 < i <= n ==> q[p[i]] == i && p[i] != k;
    assert forall j :: 0 <= j <= n && j != k ==> p[q[j]] == j && q[j] > 0;
    p' := seq(n, i requires 0 <= i < n => Unskip(p[i + 1], k));
    q' := seq(n, j requires 0 <= j < n => (q[Skip(j, k)] - 1) as nat);
    forall i | 0 <= i < n ensures p'[i] < n && q'[p'[i]] == i {
      assert Skip(p'[i], k) == p[i + 1] && p[i + 1] <= n;
    }
    forall j | 0 <= j < n ensures q'[j] < n && p'[q'[j]] == j {
      assert q'[j] + 1 == q[Skip(j, k)];
    }
  }

  /** A pairing of the rest extends by the pair just found. */
  lemma Extend(x: seq<Value>, y: seq<Value>, k: nat)
    requires x != [] && k < |y| && Same(x[0], y[k]) && Matchable(x[1..], Without(y, k))
    ensures Matchable(x, y)
  {
    hide Same;
    var p, q :| Pairs(x[1..], Without(y, k), p, q);
    var p', q' := ExtendInverse(p, q, |x| - 1, k);
    forall i | 0 <= i < |x| ensures Same(x[i], y[p'[i]]) {
      if i > 0 {
        assert x[1..][i - 1] == x[i] && Without(y, k)[p[i - 1]] == y[p'[i - 1 + 1]];
      }
    }
    assert Pairs(x, y, p', q');
  }

  /** If any pairing exists, one exists that pairs the first member with whichever same one was found. */
  lemma Exchange(x: seq<Value>, y: seq<Value>, k: nat) returns (p: seq<nat>, q: seq<nat>)
    requires x != [] && k < |y| && Same(x[0], y[k]) && Matchable(x, y)
    ensures Pairs(x, y, p, q) && p[0] == k
  {
    hide Same;
    p, q :| Pairs(x, y, p, q);
    var taken, other := p[0], q[k];
    if taken != k {
      // other ~ y[k] ~ x[0] ~ y[taken], so the two partners may be swapped
      Symmetric(x[0], y[k]);
      Transitive(x[other], y[k], x[0]);
      Transitive(x[other], x[0], y[taken]);
      p, q := p[0 := k][other := taken], q[k := 0][taken := other];
    }
  }

  lemma Shrink(x: seq<Value>, y: seq<Value>, k: nat)
    requires x != [] && k < |y| && Same(x[0], y[k]) && Matchable(x, y)
    ensures Matchable(x[1..], Without(y, k))
  {
    hide Same;
    var p, q := Exchange(x, y, k);
    var p', q' := ShrinkInverse(p, q, |x| - 1, k);
    forall i | 0 <= i < |x| - 1 ensures Same(x[1..][i], Without(y, k)[p'[i]]) {
      assert Without(y, k)[p'[i]] == y[p[i + 1]];
    }
    assert Pairs(x[1..], Without(y, k), p', q');
  }

  lemma FirstHasPartner(x: seq<Value>, y: seq<Value>)
    requires x != [] && Matchable(x, y)
    ensures exists j :: 0 <= j < |y| && Same(x[0], y[j])
  {
    var p, q :| Pairs(x, y, p, q);
    assert Same(x[0], y[p[0]]);
  }

  lemma EmptyMatch()
    ensures Matchable([], [])
  {
    assert Pairs([], [], [], []);
  }

  // The comparison ----------------------------------------------------------

  /** Looks for the first unmatched candidate that is the same as item. */
  method FindSame(item: Value, unmatched: seq<Value>) returns (found: bool, index: nat)
    ensures found ==> index < |unmatched| && Same(item, unmatched[index])
    ensures !found ==> forall j :: 0 <= j < |unmatched| ==> !Same(item, unmatched[j])
    decreases item, 2
  {
    index := 0;
    while index < |unmatched|
      invariant 0 <= index <= |unmatched|
      invariant forall j :: 0 <= j < index ==> !Same(item, unmatched[j])
    {
      var same := SameExactRuntimeValue(item, unmatched[index]);
      if same {
        return true, index;
      }
      index := index + 1;
    }
    return false, 0;
  }

  /** Greedy matching that pops what it has matched: right because sameness is an equivalence. */
  method MatchMembers(x: seq<Value>, y: seq<Value>) returns (r: bool)
    requires |x| == |y|
    ensures r <==> Matchable(x, y)
    decreases x
  {
    hide Same, Matchable;
    var unmatched := y;
    var k := 0;
    assert x[0..] == x;
    while k < |x|
      invariant 0 <= k <= |x| && |unmatched| == |x| - k
      invariant Matchable(x, y) <==> Matchable(x[k..], unmatched)
    {
      var found, index := FindSame(x[k], unmatched);
      var rest := x[k..];
      assert rest[0] == x[k] && rest[1..] == x[k + 1..];
      if !found {
        if Matchable(rest, unmatched) {
          FirstHasPartner(rest, unmatched);
        }
        return false;
      }
      if Matchable(rest, unmatched) {
        Shrink(rest, unmatched, index);
      } else if Matchable(rest[1..], Without(unmatched, index)) {
        Extend(rest, unmatched, index);
      }
      unmatched := Without(unmatched, index);
      k := k + 1;
    }
    EmptyMatch();
    assert x[k..] == [] && unmatched == [];
    return true;
  }

  method SameItems(x: seq<Value>, y: seq<Value>) returns (r: bool)
    ensures r <==> |x| == |y| && forall i :: 0 <= i < |x| ==> Same(x[i], y[i])
    decreases x
  {
    hide Same;
    if |x| != |y| {
      return false;
    }
    for k := 0 to |x|
      invariant forall i :: 0 <= i < k ==> Same(x[i], y[i])
    {
      var same := SameExactRuntimeValue(x[k], y[k]);
      if !same {
        return false;
      }
    }
    return true;
  }

  method SameEntry(x: Entry, y: Entry) returns (r: bool)
    ensures r <==> Same(x.key, y.key) && Same(x.value, y.value)
    decreases x
  {
    r := SameExactRuntimeValue(x.key, y.key);
    if r {
      r := SameExactRuntimeValue(x.value, y.value);
    }
  }

  method SameEntries(x: seq<Entry>, y: seq<Entry>) returns (r: bool)
    ensures r <==> |x| == |y| && forall i :: 0 <= i < |x| ==> Same(x[i].key, y[i].key) && Same(x[i].value, y[i].value)
    decreases x
  {
    hide Same;
    if |x| != |y| {
      return false;
    }
    for k := 0 to |x|
      invariant forall i :: 0 <= i < k ==> Same(x[i].key, y[i].key) && Same(x[i].value, y[i].value)
    {
      var same := SameEntry(x[k], y[k]);
      if !same {
        return false;
      }
    }
    return true;
  }

  method SameState(a: Value, b: Value) returns (r: bool)
    requires a.Model? && b.Model?
    ensures r <==> a.state.Keys == b.state.Keys && forall name :: name in a.state ==> Same(a.state[name], b.state[name])
    decreases a, 0
  {
    hide Same;
    if a.state.Keys != b.state.Keys {
      return false;
    }
    var names := a.state.Keys;
    while names != {}
      invariant names <= a.state.Keys
      invariant forall name :: name in a.state && name !in names ==> Same(a.state[name], b.state[name])
      decreases names
    {
      var name :| name in names;
      var same := SameExactRuntimeValue(a.state[name], b.state[name]);
      if !same {
        return false;
      }
      names := names - {name};
    }
    return true;
  }

  /** The comparison answers true exactly on same values; one object is always the same as itself. */
  method SameExactRuntimeValue(original: Value, normalized: Value) returns (r: bool)
    ensures r <==> Same(original, normalized)
    decreases original, 1
  {
    var oneObject: bool := *;
    if oneObject && original == normalized {
      Reflexive(original);
      return true;
    }
    match original
    case Tuple(items) =>
      if !normalized.Tuple? { return false; }
      r := SameItems(items, normalized.items);
    case List(items) =>
      if !normalized.List? { return false; }
      r := SameItems(items, normalized.items);
    case Dict(entries) =>
      if !normalized.Dict? { return false; }
      r := SameEntries(entries, normalized.entries);
    case Model(cls, _, _) =>
      if !normalized.Model? || normalized.cls != cls { return false; }
      r := SameState(original, normalized);
    case Set(frozen, items) =>
      if !normalized.Set? || normalized.frozen != frozen { return false; }
      SetsMatch(original, normalized);
      if |items| != |normalized.items| { return false; }
      r := MatchMembers(items, normalized.items);
    case _ => r := original == normalized;
  }
}
