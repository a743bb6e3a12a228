/** What several components share: bytes, optional values, small functions on
    numbers and sequences, and equality of collections item by item. */
module Common {

  type byte = x: int | 0 <= x < 256

  datatype Option<T> = None | Some(value: T)

  function Max(a: int, b: int): int {
    if a < b then b else a
  }

  function Min(a: int, b: int): int {
    if a < b then a else b
  }

  function Repeat<T>(x: T, n: nat): (s: seq<T>)
    ensures |s| == n
  {
    seq(n, _ => x)
  }

  /** The first place of `c`, or the length. */
  function Find<T(==)>(s: seq<T>, c: T): (i: nat)
    ensures i <= |s|
    ensures forall j :: 0 <= j < i ==> s[j] != c
    ensures i < |s| ==> s[i] == c
  {
    if s == [] || s[0] == c then 0 else 1 + Find(s[1..], c)
  }

  lemma FindFirst<T>(a: seq<T>, c: T, b: seq<T>)
    requires c !in a
    ensures Find(a + [c] + b, c) == |a|
  {
    var s := a + [c] + b;
    assert s[|a|] == c;
    assert forall j :: 0 <= j < |a| ==> s[j] == a[j];
  }

  lemma FindNone<T>(a: seq<T>, c: T)
    requires c !in a
    ensures Find(a, c) == |a|
  {
  }

  lemma NotFoundIn<T>(s: seq<T>, c: T, a: seq<T>)
    requires a <= s && c !in a
    ensures Find(s, c) >= |a|
  {
    assert forall j :: 0 <= j < |a| ==> s[j] == a[j];
  }

  /** The weights of all items together. */
  function Sum<T>(ts: seq<T>, weight: T -> nat): nat {
    if ts == [] then 0 else weight(ts[0]) + Sum(ts[1..], weight)
  }

  lemma {:induction false} SumPut<T>(ts: seq<T>, weight: T -> nat, i: nat, t: T)
    requires i < |ts|
    ensures Sum(ts[i := t], weight) == Sum(ts, weight) - weight(ts[i]) + weight(t)
  {
    if i > 0 {
      assert ts[i := t][1..] == ts[1..][i - 1 := t];
      SumPut(ts[1..], weight, i - 1, t);
    } else {
      assert ts[i := t][1..] == ts[1..];
    }
  }

  lemma {:induction false} SumHas<T>(ts: seq<T>, weight: T -> nat, i: nat)
    requires i < |ts|
    ensures weight(ts[i]) <= Sum(ts, weight)
  {
    if i > 0 { SumHas(ts[1..], weight, i - 1); }
  }

  lemma {:induction false} SumHasBoth<T>(ts: seq<T>, weight: T -> nat, i: nat, j: nat)
    requires i < j < |ts|
    ensures weight(ts[i]) + weight(ts[j]) <= Sum(ts, weight)
  {
    if i > 0 {
      SumHasBoth(ts[1..], weight, i - 1, j - 1);
    } else {
      SumHas(ts[1..], weight, j - 1);
    }
  }

  lemma {:induction false} SumIsZero<T>(ts: seq<T>, weight: T -> nat)
    requires forall i :: 0 <= i < |ts| ==> weight(ts[i]) == 0
    ensures Sum(ts, weight) == 0
  {
    if ts != [] {
      assert forall i :: 0 <= i < |ts[1..]| ==> ts[1..][i] == ts[i + 1];
      SumIsZero(ts[1..], weight);
    }
  }

  lemma SameMap<K(!new), V>(a: map<K, V>, b: map<K, V>)
    requires forall k :: k in a <==> k in b
    requires forall k :: k in a ==> a[k] == b[k]
    ensures a == b
  {
    assert (forall k :: k in a <==> k in b) && (forall k :: k in a ==> a[k] == b[k]) ==> a == b;
  }

  lemma SameSet<T(!new)>(a: set<T>, b: set<T>)
    requires forall x :: x in a <==> x in b
    ensures a == b
  {
    assert (forall x :: x in a <==> x in b) ==> a == b;
  }

  lemma SameMultiset<T(!new)>(a: multiset<T>, b: multiset<T>)
    requires forall x :: a[x] == b[x]
    ensures a == b
  {
    assert (forall x :: a[x] == b[x]) ==> a == b;
  }
}
