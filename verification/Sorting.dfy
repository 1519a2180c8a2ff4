/** Stable sorting by a sequence-valued key in lexicographic order, and permutations. */
module Sorting {

  /** Python's order on strings and bytes: lexicographic, a proper prefix first. */
  predicate Leq(a: seq<int>, b: seq<int>)
    decreases |a|
  {
    a == [] || (b != [] && (a[0] < b[0] || (a[0] == b[0] && Leq(a[1..], b[1..]))))
  }

  lemma {:induction false} LeqTotal(a: seq<int>, b: seq<int>)
    ensures Leq(a, b) || Leq(b, a)
    decreases |a|
  {
    if a != [] && b != [] && a[0] == b[0] {
      LeqTotal(a[1..], b[1..]);
    }
  }

  lemma {:induction false} LeqAntisymmetric(a: seq<int>, b: seq<int>)
    requires Leq(a, b) && Leq(b, a)
    ensures a == b
    decreases |a|
  {
    if a != [] {
      LeqAntisymmetric(a[1..], b[1..]);
      assert a == [a[0]] + a[1..] && b == [b[0]] + b[1..];
    }
  }

  lemma {:induction false} LeqTransitive(a: seq<int>, b: seq<int>, c: seq<int>)
    requires Leq(a, b) && Leq(b, c)
    ensures Leq(a, c)
    decreases |a|
  {
    if a != [] && a[0] == b[0] == c[0] {
      LeqTransitive(a[1..], b[1..], c[1..]);
    }
  }

  /** A value carried along with the key it is sorted by. */
  datatype Keyed<T> = Keyed(key: seq<int>, value: T)

  predicate Sorted<T>(s: seq<Keyed<T>>) {
    forall i :: 0 <= i < |s| - 1 ==> Leq(s[i].key, s[i + 1].key)
  }

  /** Puts x before the first element whose key is not smaller. */
  function Insert<T>(x: Keyed<T>, s: seq<Keyed<T>>): seq<Keyed<T>> {
    if s == [] || Leq(x.key, s[0].key) then [x] + s else [s[0]] + Insert(x, s[1..])
  }

  function Sort<T>(s: seq<Keyed<T>>): seq<Keyed<T>> {
    if s == [] then [] else Insert(s[0], Sort(s[1..]))
  }

  lemma SortedTail<T>(s: seq<Keyed<T>>)
    requires s != [] && Sorted(s)
    ensures Sorted(s[1..])
  {
    forall i | 0 <= i < |s[1..]| - 1 ensures Leq(s[1..][i].key, s[1..][i + 1].key) {
      assert Leq(s[i + 1].key, s[i + 1 + 1].key);
    }
  }

  lemma {:induction false} InsertKeeps<T>(x: Keyed<T>, s: seq<Keyed<T>>)
    requires Sorted(s)
    ensures Sorted(Insert(x, s)) && multiset(Insert(x, s)) == multiset(s) + multiset{x}
    ensures Insert(x, s) != [] && (Insert(x, s)[0] == x || (s != [] && Insert(x, s)[0] == s[0]))
  {
    if s != [] && !Leq(x.key, s[0].key) {
      LeqTotal(x.key, s[0].key);
      SortedTail(s);
      InsertKeeps(x, s[1..]);
      assert s == [s[0]] + s[1..];
      var r := Insert(x, s);
      assert r[1..] == Insert(x, s[1..]);
      forall i | 0 <= i < |r| - 1 ensures Leq(r[i].key, r[i + 1].key) {
        if i > 0 {
          assert r[i] == r[1..][i - 1] && r[i + 1] == r[1..][i];
        } else if |s| > 1 && r[1] == s[1..][0] {
          assert Leq(s[0].key, s[0 + 1].key);
        }
      }
    } else if s != [] {
      var r := Insert(x, s);
      forall i | 0 <= i < |r| - 1 ensures Leq(r[i].key, r[i + 1].key) {
        if i > 0 {
          assert Leq(s[i - 1].key, s[i - 1 + 1].key);
        }
      }
    }
  }

  lemma {:induction false} SortSorts<T>(s: seq<Keyed<T>>)
    ensures Sorted(Sort(s)) && multiset(Sort(s)) == multiset(s) && |Sort(s)| == |s|
  {
    if s != [] {
      SortSorts(s[1..]);
      InsertKeeps(s[0], Sort(s[1..]));
      assert s == [s[0]] + s[1..];
      assert |multiset(Sort(s))| == |multiset(s)|;
    }
  }

  /** Sorting what is already in order changes nothing. */
  lemma {:induction false} SortOfSorted<T>(s: seq<Keyed<T>>)
    requires Sorted(s)
    ensures Sort(s) == s
  {
    if s != [] {
      SortedTail(s);
      SortOfSorted(s[1..]);
      if |s| > 1 {
        assert Leq(s[0].key, s[0 + 1].key);
      }
      assert s == [s[0]] + s[1..];
    }
  }

  lemma {:induction false} HeadIsLeast<T>(s: seq<Keyed<T>>, k: nat)
    requires Sorted(s) && k < |s|
    ensures Leq(s[0].key, s[k].key)
  {
    if k == 0 {
      LeqTotal(s[0].key, s[0].key);
    } else {
      HeadIsLeast(s, k - 1);
      assert Leq(s[k - 1].key, s[k - 1 + 1].key);
      LeqTransitive(s[0].key, s[k - 1].key, s[k].key);
    }
  }

  /** Elements with equal keys are equal: the order of a sorted arrangement is then forced. */
  ghost predicate KeysDecide<T(!new)>(m: multiset<Keyed<T>>) {
    forall x, y :: x in m && y in m && x.key == y.key ==> x == y
  }

  lemma HeadsAgree<T(!new)>(s: seq<Keyed<T>>, t: seq<Keyed<T>>)
    requires s != [] && t != [] && Sorted(s) && Sorted(t)
    requires multiset(s) == multiset(t) && KeysDecide(multiset(s))
    ensures s[0] == t[0]
  {
    assert s[0] in multiset(t) && t[0] in multiset(s);
    var j :| 0 <= j < |t| && t[j] == s[0];
    var i :| 0 <= i < |s| && s[i] == t[0];
    HeadIsLeast(t, j);
    HeadIsLeast(s, i);
    LeqAntisymmetric(s[0].key, t[0].key);
  }

  lemma TailMultiset<T>(s: seq<T>)
    requires s != []
    ensures multiset(s[1..]) == multiset(s) - multiset{s[0]}
  {
    assert s == [s[0]] + s[1..];
  }

  lemma KeysDecideTail<T(!new)>(s: seq<Keyed<T>>)
    requires s != [] && KeysDecide(multiset(s))
    ensures KeysDecide(multiset(s[1..]))
  {
    TailMultiset(s);
  }

  lemma {:induction false} SortedIsUnique<T(!new)>(s: seq<Keyed<T>>, t: seq<Keyed<T>>)
    requires Sorted(s) && Sorted(t) && multiset(s) == multiset(t) && KeysDecide(multiset(s))
    ensures s == t
    decreases |s|
  {
    hide Sorted, KeysDecide;
    assert |multiset(s)| == |s| && |multiset(t)| == |t|;
    if s != [] {
      HeadsAgree(s, t);
      TailMultiset(s);
      TailMultiset(t);
      KeysDecideTail(s);
      SortedTail(s);
      SortedTail(t);
      SortedIsUnique(s[1..], t[1..]);
      assert s == [s[0]] + s[1..] && t == [t[0]] + t[1..];
    }
  }

  /** Reordering the input does not change the sorted result when keys decide elements. */
  lemma SortIgnoresOrder<T(!new)>(s: seq<Keyed<T>>, t: seq<Keyed<T>>)
    requires multiset(s) == multiset(t) && KeysDecide(multiset(s))
    ensures Sort(s) == Sort(t)
  {
    SortSorts(s);
    SortSorts(t);
    SortedIsUnique(Sort(s), Sort(t));
  }

  // Permutations ------------------------------------------------------------

  /** p lists each of 0 .. |p| - 1 once. */
  ghost predicate Permutation(p: seq<nat>) {
    && (forall i :: 0 <= i < |p| ==> p[i] < |p|)
    && (forall i, j :: 0 <= i < j < |p| ==> p[i] != p[j])
  }

  /** p without its last entry, renumbered to skip the position that entry used. */
  function Shrink(p: seq<nat>): seq<nat>
    requires p != []
  {
    var last := p[|p| - 1];
    seq(|p| - 1, i requires 0 <= i < |p| - 1 => if p[i] > last then p[i] - 1 else p[i])
  }

  lemma ShrinkIsPermutation(p: seq<nat>)
    requires p != [] && Permutation(p)
    ensures Permutation(Shrink(p))
  {
  }

  /** b without position k. */
  function Without<T>(b: seq<T>, k: nat): seq<T>
    requires k < |b|
  {
    b[..k] + b[k + 1..]
  }

  lemma WithoutMultiset<T>(b: seq<T>, k: nat)
    requires k < |b|
    ensures multiset(b) == multiset(Without(b, k)) + multiset{b[k]}
  {
    assert b == b[..k] + [b[k]] + b[k + 1..];
  }

  /** Matching a to b along a permutation leaves the same elements with the same counts. */
  lemma {:induction false} PermutationMultiset<T>(a: seq<T>, b: seq<T>, p: seq<nat>)
    requires Permutation(p) && |p| == |a| == |b| && forall i :: 0 <= i < |p| ==> a[i] == b[p[i]]
    ensures multiset(a) == multiset(b)
    decreases |p|
  {
    if p != [] {
      var n, last := |p| - 1, p[|p| - 1];
      ShrinkIsPermutation(p);
      forall i | 0 <= i < n ensures a[..n][i] == Without(b, last)[Shrink(p)[i]] {
        assert a[i] == b[p[i]] && p[i] != last;
      }
      PermutationMultiset(a[..n], Without(b, last), Shrink(p));
      WithoutMultiset(a, n);
      WithoutMultiset(b, last);
      assert Without(a, n) == a[..n];
    }
  }
}
