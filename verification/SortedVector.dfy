/** SortedVectorImpl: a strictly ordered sequence used as a set of ranks. */
module SortedVector {
  import opened CopyOnWrite
  import opened StableSort

  predicate Strict<T>(s: seq<T>, cmp: Comparison<T>) {
    forall i, j :: 0 <= i < j < |s| ==> cmp(s[i], s[j]) < 0
  }

  // ------------------------------------------------------------------------ searching

  /** Where `x` belongs: everything before ranks lower. */
  function Order<T>(s: seq<T>, x: T, cmp: Comparison<T>): (o: nat)
    ensures o <= |s|
    ensures forall i :: 0 <= i < o ==> cmp(s[i], x) < 0
    ensures o < |s| ==> cmp(s[o], x) >= 0
  {
    if s != [] && cmp(s[0], x) < 0 then 1 + Order(s[1..], x, cmp) else 0
  }

  predicate Found<T>(s: seq<T>, x: T, cmp: Comparison<T>) {
    var o := Order(s, x, cmp);
    o < |s| && cmp(s[o], x) == 0
  }

  /** _indexOrderOf: a binary search that stops at a match. */
  method IndexOrderOf<T(!new)>(s: seq<T>, x: T, cmp: Comparison<T>) returns (index: int, order: nat)
    requires Ordering(cmp) && Strict(s, cmp)
    ensures order == Order(s, x, cmp)
    ensures index == if Found(s, x, cmp) then order else NAME_NOT_FOUND
  {
    hide Ordering, Strict;
    index, order := NAME_NOT_FOUND, 0;
    var l: int, h: int := 0, |s| - 1;
    while l <= h
      invariant 0 <= l <= h + 1 <= |s|
      invariant forall i :: 0 <= i < l ==> cmp(s[i], x) < 0
      invariant forall i :: h < i < |s| ==> cmp(s[i], x) > 0
      decreases h - l
    {
      var mid := l + (h - l) / 2;
      var c := cmp(s[mid], x);
      if c == 0 {
        index, order := mid, mid;
        Below(s, mid, x, cmp);
        OrderIs(s, x, mid, cmp);
        return;
      } else if c < 0 {
        l := mid + 1;
        Below(s, mid, x, cmp);
      } else {
        h := mid - 1;
        Above(s, mid, x, cmp);
      }
    }
    order := l;
    OrderIs(s, x, l, cmp);
  }

  const NAME_NOT_FOUND: int := -2

  lemma Below<T(!new)>(s: seq<T>, mid: nat, x: T, cmp: Comparison<T>)
    requires Ordering(cmp) && Strict(s, cmp) && mid < |s| && cmp(s[mid], x) <= 0
    ensures forall i :: 0 <= i < mid ==> cmp(s[i], x) < 0
  {
    forall i | 0 <= i < mid ensures cmp(s[i], x) < 0 {
      Chain(cmp, s[i], s[mid], x);
    }
  }

  lemma Above<T(!new)>(s: seq<T>, mid: nat, x: T, cmp: Comparison<T>)
    requires Ordering(cmp) && Strict(s, cmp) && mid < |s| && cmp(s[mid], x) >= 0
    ensures forall i :: mid < i < |s| ==> cmp(s[i], x) > 0
  {
    forall i | mid < i < |s| ensures cmp(s[i], x) > 0 {
      Chain(cmp, x, s[mid], s[i]);
    }
  }

  lemma {:induction false} OrderIs<T(!new)>(s: seq<T>, x: T, o: nat, cmp: Comparison<T>)
    requires o <= |s| && (forall i :: 0 <= i < o ==> cmp(s[i], x) < 0) && (o < |s| ==> cmp(s[o], x) >= 0)
    ensures Order(s, x, cmp) == o
  {
    if o > 0 {
      assert forall i :: 0 <= i < o - 1 ==> s[1..][i] == s[i + 1];
      OrderIs(s[1..], x, o - 1, cmp);
    }
  }

  // --------------------------------------------------------------- adding and removing

  function Added<T>(s: seq<T>, x: T, cmp: Comparison<T>): seq<T> {
    var o := Order(s, x, cmp);
    if Found(s, x, cmp) then s[o := x] else Inserted(s, o, [x])
  }

  function Without<T>(s: seq<T>, x: T, cmp: Comparison<T>): seq<T> {
    if Found(s, x, cmp) then Removed(s, Order(s, x, cmp), 1) else s
  }

  /** What ranks lower than `x`, and what ranks higher. */
  function Low<T>(s: seq<T>, x: T, cmp: Comparison<T>): seq<T> {
    s[..Order(s, x, cmp)]
  }

  function High<T>(s: seq<T>, x: T, cmp: Comparison<T>): seq<T> {
    var o := Order(s, x, cmp);
    if Found(s, x, cmp) then s[o + 1..] else s[o..]
  }

  function Match<T>(s: seq<T>, x: T, cmp: Comparison<T>): seq<T> {
    var o := Order(s, x, cmp);
    if Found(s, x, cmp) then [s[o]] else []
  }

  lemma Parts<T>(s: seq<T>, x: T, cmp: Comparison<T>)
    ensures s == Low(s, x, cmp) + Match(s, x, cmp) + High(s, x, cmp)
    ensures Added(s, x, cmp) == Low(s, x, cmp) + [x] + High(s, x, cmp)
    ensures Without(s, x, cmp) == Low(s, x, cmp) + High(s, x, cmp)
  {
    hide Order;
  }

  lemma PartsAreStrict<T>(s: seq<T>, x: T, cmp: Comparison<T>)
    requires Strict(s, cmp)
    ensures Strict(Low(s, x, cmp), cmp) && Strict(High(s, x, cmp), cmp)
  {
    hide Order;
  }

  lemma PartRanks<T(!new)>(s: seq<T>, x: T, cmp: Comparison<T>)
    requires Ordering(cmp) && Strict(s, cmp)
    ensures forall y <- Low(s, x, cmp) :: cmp(y, x) < 0
    ensures forall y <- Match(s, x, cmp) :: cmp(y, x) == 0
    ensures forall y <- High(s, x, cmp) :: cmp(y, x) > 0
  {
    var o := Order(s, x, cmp);
    if o < |s| { Above(s, o, x, cmp); }
    hide Order, Ordering, Strict;
  }

  lemma StrictAround<T(!new)>(p: seq<T>, x: T, q: seq<T>, cmp: Comparison<T>)
    requires Ordering(cmp) && Strict(p, cmp) && Strict(q, cmp)
    requires (forall y <- p :: cmp(y, x) < 0) && (forall y <- q :: cmp(y, x) > 0)
    ensures Strict(p + [x] + q, cmp) && Strict(p + q, cmp)
  {
    forall i, j | 0 <= i < |p| && 0 <= j < |q| ensures cmp(p[i], q[j]) < 0 {
      Chain(cmp, p[i], x, q[j]);
    }
    hide Ordering;
    assert forall j :: 0 <= j < |q| ==> cmp(x, q[j]) < 0;
  }

  /** Adding keeps the order, and gives exactly `x` and what ranked differently. */
  lemma AddedItems<T(!new)>(s: seq<T>, x: T, y: T, cmp: Comparison<T>)
    requires Ordering(cmp) && Strict(s, cmp)
    ensures Strict(Added(s, x, cmp), cmp)
    ensures y in Added(s, x, cmp) <==> y == x || (y in s && cmp(y, x) != 0)
  {
    Parts(s, x, cmp);
    PartsAreStrict(s, x, cmp);
    PartRanks(s, x, cmp);
    hide Strict, Added, Low, High, Match, Without;
    StrictAround(Low(s, x, cmp), x, High(s, x, cmp), cmp);
  }

  /** Removing keeps the order, and leaves exactly what ranks differently. */
  lemma WithoutItems<T(!new)>(s: seq<T>, x: T, y: T, cmp: Comparison<T>)
    requires Ordering(cmp) && Strict(s, cmp)
    ensures Strict(Without(s, x, cmp), cmp)
    ensures y in Without(s, x, cmp) <==> y in s && cmp(y, x) != 0
  {
    Parts(s, x, cmp);
    PartsAreStrict(s, x, cmp);
    PartRanks(s, x, cmp);
    hide Strict, Added, Low, High, Match, Without;
    StrictAround(Low(s, x, cmp), x, High(s, x, cmp), cmp);
  }

  // --------------------------------------------------------------------------- merging

  /** merge, item after item. */
  function MergedEach<T>(s: seq<T>, t: seq<T>, cmp: Comparison<T>): seq<T>
    decreases |t|
  {
    if t == [] then s else MergedEach(Added(s, t[0], cmp), t[1..], cmp)
  }

  /** merge of two sorted vectors, with its two short cuts. */
  function Merged<T>(s: seq<T>, t: seq<T>, cmp: Comparison<T>): seq<T>
    requires t != [] ==> s != []
  {
    if t == [] then s
    else if cmp(t[|t| - 1], s[0]) <= 0 then t + s
    else if cmp(t[0], s[|s| - 1]) >= 0 then s + t
    else MergedEach(s, t, cmp)
  }

  ghost predicate Has<T(!new)>(s: seq<T>, y: T, cmp: Comparison<T>) {
    exists i :: 0 <= i < |s| && cmp(y, s[i]) == 0
  }

  lemma {:induction false} MergedEachIsStrict<T(!new)>(s: seq<T>, t: seq<T>, cmp: Comparison<T>)
    requires Ordering(cmp) && Strict(s, cmp)
    ensures Strict(MergedEach(s, t, cmp), cmp)
    decreases |t|
  {
    hide Ordering, Strict, Added;
    if t != [] {
      AddedItems(s, t[0], t[0], cmp);
      MergedEachIsStrict(Added(s, t[0], cmp), t[1..], cmp);
    }
  }

  /** Exactly the items of `t`, and those of `s` whose rank `t` does not have. */
  lemma {:induction false} MergedEachItems<T(!new)>(s: seq<T>, t: seq<T>, y: T, cmp: Comparison<T>)
    requires Ordering(cmp) && Strict(s, cmp) && Strict(t, cmp)
    ensures y in MergedEach(s, t, cmp) <==> y in t || (y in s && !Has(t, y, cmp))
    decreases |t|
  {
    if t != [] {
      var s1 := Added(s, t[0], cmp);
      AddedItems(s, t[0], y, cmp);
      MergedEachItems(s1, t[1..], y, cmp);
      HeadAndTail(t, y, cmp);
    }
  }

  lemma HeadAndTail<T(!new)>(t: seq<T>, y: T, cmp: Comparison<T>)
    requires Ordering(cmp) && Strict(t, cmp) && t != []
    ensures y in t <==> y == t[0] || y in t[1..]
    ensures Has(t, y, cmp) <==> cmp(y, t[0]) == 0 || Has(t[1..], y, cmp)
    ensures y == t[0] ==> !Has(t[1..], y, cmp)
  {
    assert t == [t[0]] + t[1..];
    assert forall i :: 0 < i < |t| ==> t[i] == t[1..][i - 1];
    assert forall i :: 0 <= i < |t| - 1 ==> t[1..][i] == t[i + 1];
    if Has(t, y, cmp) {
      var i :| 0 <= i < |t| && cmp(y, t[i]) == 0;
      assert i > 0 ==> cmp(y, t[1..][i - 1]) == 0;
    }
    if Has(t[1..], y, cmp) {
      var i :| 0 <= i < |t[1..]| && cmp(y, t[1..][i]) == 0;
      assert cmp(y, t[i + 1]) == 0;
    }
  }

  lemma EmptyIfNone<T(!new)>(s: seq<T>)
    ensures s == [] <==> forall y :: y !in s
  {
    if s != [] {
      assert s[0] in s;
    }
  }

  /** A strictly ordered sequence is determined by the set of its items. */
  lemma {:induction false} StrictIsUnique<T(!new)>(a: seq<T>, b: seq<T>, cmp: Comparison<T>)
    requires Ordering(cmp) && Strict(a, cmp) && Strict(b, cmp)
    requires forall y :: y in a <==> y in b
    ensures a == b
  {
    hide Ordering, Strict;
    if a == [] {
      EmptyIfNone(b);
    } else {
      EmptyIfNone(b);
      assert a[0] in b && b[0] in a;
      SameLeast(a, b, cmp);
      TailItems(a, b, cmp);
      TailStrict(a, cmp);
      TailStrict(b, cmp);
      StrictIsUnique(a[1..], b[1..], cmp);
      assert a == [a[0]] + a[1..] && b == [b[0]] + b[1..];
    }
  }

  lemma TailStrict<T>(a: seq<T>, cmp: Comparison<T>)
    requires a != [] && Strict(a, cmp)
    ensures Strict(a[1..], cmp)
  {
  }

  lemma SameLeast<T(!new)>(a: seq<T>, b: seq<T>, cmp: Comparison<T>)
    requires Ordering(cmp) && Strict(a, cmp) && Strict(b, cmp)
    requires a != [] && b != [] && a[0] in b && b[0] in a
    ensures a[0] == b[0]
  {
    var x, y := a[0], b[0];
    var i :| 0 <= i < |a| && a[i] == y;
    var j :| 0 <= j < |b| && b[j] == x;
    assert i == 0 || cmp(x, y) < 0;
    assert j == 0 || cmp(y, x) < 0;
  }

  lemma TailItems<T(!new)>(a: seq<T>, b: seq<T>, cmp: Comparison<T>)
    requires Ordering(cmp) && Strict(a, cmp) && Strict(b, cmp)
    requires a != [] && b != [] && a[0] == b[0] && (forall y :: y in a <==> y in b)
    ensures forall y :: y in a[1..] <==> y in b[1..]
  {
    assert cmp(a[0], a[0]) == 0;
    assert forall y :: y in a <==> y == a[0] || y in a[1..];
    assert forall y :: y in b <==> y == b[0] || y in b[1..];
    assert a[0] !in a[1..] && b[0] !in b[1..];
  }

  // --------------------------------------------------------------- when the short cuts hold

  predicate EndsDiffer<T>(s: seq<T>, t: seq<T>, cmp: Comparison<T>)
    requires s != [] && t != []
  {
    cmp(t[|t| - 1], s[0]) != 0 && cmp(t[0], s[|s| - 1]) != 0
  }

  lemma ConcatStrict<T(!new)>(a: seq<T>, b: seq<T>, cmp: Comparison<T>)
    requires Ordering(cmp) && Strict(a, cmp) && Strict(b, cmp) && a != [] && b != []
    ensures Strict(a + b, cmp) <==> cmp(a[|a| - 1], b[0]) < 0
  {
    var r := a + b;
    if cmp(a[|a| - 1], b[0]) < 0 {
      forall i, j | 0 <= i < j < |r| ensures cmp(r[i], r[j]) < 0 {
        if i < |a| <= j {
          Below(a, |a| - 1, b[0], cmp);
          assert cmp(r[i], b[0]) < 0;
          Above(b, 0, r[i], cmp);
        }
      }
    } else {
      assert r[|a| - 1] == a[|a| - 1] && r[|a|] == b[0];
    }
  }

  lemma EndRanks<T(!new)>(s: seq<T>, t: seq<T>, cmp: Comparison<T>)
    requires Ordering(cmp) && Strict(s, cmp) && Strict(t, cmp) && s != [] && t != []
    ensures cmp(t[|t| - 1], s[0]) < 0 ==> cmp(t[0], s[|s| - 1]) < 0
  {
    assert cmp(t[0], t[0]) == 0 && cmp(s[0], s[0]) == 0;
    Chain(cmp, t[0], t[|t| - 1], s[0]);
    Chain(cmp, t[0], s[0], s[|s| - 1]);
  }

  /** The result of merging two sorted vectors is sorted exactly when the end of
      neither ranks equal to the start of the other; otherwise both are kept. */
  lemma MergeIsStrict<T(!new)>(s: seq<T>, t: seq<T>, cmp: Comparison<T>)
    requires Ordering(cmp) && Strict(s, cmp) && Strict(t, cmp) && s != [] && t != []
    ensures Strict(Merged(s, t, cmp), cmp) <==> EndsDiffer(s, t, cmp)
  {
    EndRanks(s, t, cmp);
    ConcatStrict(t, s, cmp);
    ConcatStrict(s, t, cmp);
    MergedEachIsStrict(s, t, cmp);
    hide Strict, MergedEach;
  }

  lemma ConcatItems<T(!new)>(s: seq<T>, t: seq<T>, y: T, cmp: Comparison<T>)
    requires Ordering(cmp) && (Strict(t + s, cmp) || Strict(s + t, cmp))
    ensures !(y in s && Has(t, y, cmp))
  {
    forall i, j | 0 <= i < |s| && 0 <= j < |t| ensures cmp(s[i], t[j]) != 0 {
      assert (t + s)[j] == t[j] && (t + s)[|t| + i] == s[i];
      assert (s + t)[i] == s[i] && (s + t)[|s| + j] == t[j];
    }
  }

  /** And exactly then the short cuts agree with merging item after item. */
  lemma ShortCutsAgree<T(!new)>(s: seq<T>, t: seq<T>, cmp: Comparison<T>)
    requires Ordering(cmp) && Strict(s, cmp) && Strict(t, cmp) && s != [] && t != []
    ensures Merged(s, t, cmp) == MergedEach(s, t, cmp) <==> EndsDiffer(s, t, cmp)
  {
    hide Ordering, Strict, MergedEach, Has;
    var r := Merged(s, t, cmp);
    MergeIsStrict(s, t, cmp);
    MergedEachIsStrict(s, t, cmp);
    if EndsDiffer(s, t, cmp) && r != MergedEach(s, t, cmp) {
      forall y ensures y in r <==> y in MergedEach(s, t, cmp) {
        MergedEachItems(s, t, y, cmp);
        ConcatItems(s, t, y, cmp);
      }
      StrictIsUnique(r, MergedEach(s, t, cmp), cmp);
    }
  }
}
