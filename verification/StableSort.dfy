/** VectorImpl::sort: a stable insertion sort that leaves an ordered vector, and the
    buffer it may share, untouched. */
module StableSort {
  import opened Common
  import opened CopyOnWrite

  type Comparison<!T> = (T, T) -> int

  /** What a comparison has to be: a total preorder. */
  ghost predicate Ordering<T(!new)>(cmp: Comparison<T>) {
    && (forall a, b :: cmp(a, b) < 0 <==> cmp(b, a) > 0)
    && (forall a, b, c :: cmp(a, b) <= 0 && cmp(b, c) <= 0 ==> cmp(a, c) <= 0)
  }

  lemma Chain<T(!new)>(cmp: Comparison<T>, a: T, b: T, c: T)
    requires Ordering(cmp)
    ensures cmp(a, b) <= 0 && cmp(b, c) <= 0 ==> cmp(a, c) <= 0
    ensures cmp(a, b) < 0 && cmp(b, c) <= 0 ==> cmp(a, c) < 0
    ensures cmp(a, b) <= 0 && cmp(b, c) < 0 ==> cmp(a, c) < 0
  {
    assert cmp(b, c) <= 0 && cmp(c, a) <= 0 ==> cmp(b, a) <= 0;
    assert cmp(c, a) <= 0 && cmp(a, b) <= 0 ==> cmp(c, b) <= 0;
  }

  lemma Reflexive<T(!new)>(cmp: Comparison<T>, a: T)
    requires Ordering(cmp)
    ensures cmp(a, a) == 0
  {
  }

  predicate Sorted<T>(s: seq<T>, cmp: Comparison<T>) {
    forall i, j :: 0 <= i < j < |s| ==> cmp(s[i], s[j]) <= 0
  }

  /** The items of `s` that rank equal to `x`, in their order. */
  function Peers<T>(s: seq<T>, x: T, cmp: Comparison<T>): seq<T> {
    if s == [] then []
    else (if cmp(s[0], x) == 0 then [s[0]] else []) + Peers(s[1..], x, cmp)
  }

  /** The same items, those of equal rank in the same order. */
  ghost predicate Stable<T(!new)>(s: seq<T>, r: seq<T>, cmp: Comparison<T>) {
    forall x :: Peers(r, x, cmp) == Peers(s, x, cmp)
  }

  lemma {:induction false} PeersConcat<T>(a: seq<T>, b: seq<T>, x: T, cmp: Comparison<T>)
    ensures Peers(a + b, x, cmp) == Peers(a, x, cmp) + Peers(b, x, cmp)
  {
    if a == [] {
      assert a + b == b;
    } else {
      var all := a + b;
      assert all[0] == a[0] && all[1..] == a[1..] + b;
      PeersConcat(a[1..], b, x, cmp);
      PeersOn(all, x, cmp);
      PeersOn(a, x, cmp);
      hide Peers;
      Associate(if cmp(a[0], x) == 0 then [a[0]] else [], Peers(a[1..], x, cmp), Peers(b, x, cmp));
    }
  }

  lemma PeersOn<T>(s: seq<T>, x: T, cmp: Comparison<T>)
    requires s != []
    ensures Peers(s, x, cmp) == (if cmp(s[0], x) == 0 then [s[0]] else []) + Peers(s[1..], x, cmp)
  {
  }

  lemma Associate<T>(a: seq<T>, b: seq<T>, c: seq<T>)
    ensures a + (b + c) == (a + b) + c
  {
  }

  /** An item may pass items of another rank. */
  lemma {:induction false} PeersPass<T(!new)>(m: seq<T>, t: T, x: T, cmp: Comparison<T>)
    requires Ordering(cmp) && (forall y <- m :: cmp(y, t) > 0)
    ensures Peers([t] + m, x, cmp) == Peers(m + [t], x, cmp)
  {
    PeersConcat([t], m, x, cmp);
    PeersConcat(m, [t], x, cmp);
    if cmp(t, x) == 0 {
      NoPeers(m, t, x, cmp);
    }
  }

  lemma {:induction false} NoPeers<T(!new)>(m: seq<T>, t: T, x: T, cmp: Comparison<T>)
    requires Ordering(cmp) && cmp(t, x) == 0 && (forall y <- m :: cmp(y, t) > 0)
    ensures Peers(m, x, cmp) == []
  {
    if m != [] {
      assert cmp(m[0], t) > 0;
      assert cmp(m[0], x) != 0;
      NoPeers(m[1..], t, x, cmp);
    }
  }

  lemma StableInsert<T(!new)>(p: seq<T>, m: seq<T>, t: T, rest: seq<T>, cmp: Comparison<T>)
    requires Ordering(cmp) && (forall y <- m :: cmp(y, t) > 0)
    ensures Stable(p + m + [t] + rest, p + [t] + m + rest, cmp)
  {
    forall x ensures Peers(p + [t] + m + rest, x, cmp) == Peers(p + m + [t] + rest, x, cmp) {
      assert p + [t] + m + rest == p + (([t] + m) + rest);
      assert p + m + [t] + rest == p + ((m + [t]) + rest);
      PeersConcat(p, ([t] + m) + rest, x, cmp);
      PeersConcat([t] + m, rest, x, cmp);
      PeersConcat(p, (m + [t]) + rest, x, cmp);
      PeersConcat(m + [t], rest, x, cmp);
      PeersPass(m, t, x, cmp);
    }
  }

  lemma SortedInsert<T(!new)>(p: seq<T>, m: seq<T>, t: T, cmp: Comparison<T>)
    requires Ordering(cmp) && Sorted(p + m, cmp)
    requires forall y <- m :: cmp(y, t) > 0
    requires p != [] ==> cmp(p[|p| - 1], t) <= 0
    ensures Sorted(p + [t] + m, cmp)
  {
    var s := p + m;
    var r := p + [t] + m;
    forall i, j | 0 <= i < j < |r| ensures cmp(r[i], r[j]) <= 0 {
      if i < |p| && j == |p| {
        assert cmp(s[i], p[|p| - 1]) <= 0 || i == |p| - 1;
      } else if i == |p| {
        assert r[j] in m;
      } else {
        var i0 := if i < |p| then i else i - 1;
        var j0 := if j < |p| then j else j - 1;
        assert r[i] == s[i0] && r[j] == s[j0] && cmp(s[i0], s[j0]) <= 0;
      }
    }
  }

  /** The prefix of a vector that two neighbours out of order break. */
  lemma SortedExtends<T(!new)>(s: seq<T>, t: T, cmp: Comparison<T>)
    requires Ordering(cmp) && s != [] && Sorted(s, cmp)
    ensures Sorted(s + [t], cmp) <==> cmp(s[|s| - 1], t) <= 0
  {
    if cmp(s[|s| - 1], t) <= 0 {
      SortedInsert(s, [], t, cmp);
      assert s + [t] + [] == s + [t];
    } else {
      var r := s + [t];
      assert cmp(r[|s| - 1], r[|s|]) > 0;
    }
  }

  // ------------------------------------------------------------------- permutation

  lemma {:induction false} PeersCount<T>(s: seq<T>, x: T, cmp: Comparison<T>)
    requires cmp(x, x) == 0
    ensures multiset(Peers(s, x, cmp))[x] == multiset(s)[x]
  {
    if s != [] {
      PeersCount(s[1..], x, cmp);
      PeersOn(s, x, cmp);
      hide Peers;
      assert s == [s[0]] + s[1..];
    }
  }

  /** What keeps the order of each rank is a permutation. */
  lemma StableIsPermutation<T(!new)>(s: seq<T>, r: seq<T>, cmp: Comparison<T>)
    requires Ordering(cmp) && Stable(s, r, cmp)
    ensures multiset(r) == multiset(s)
  {
    forall x ensures multiset(r)[x] == multiset(s)[x] {
      Reflexive(cmp, x);
      PeersCount(s, x, cmp);
      PeersCount(r, x, cmp);
      assert Peers(r, x, cmp) == Peers(s, x, cmp);
    }
    SameMultiset(multiset(r), multiset(s));
  }

  // -------------------------------------------------------------------------- the loop

  /** The inner loop: the item at `i` moves left past all greater ones, which each
      move one place right. */
  method ShiftIn<T(!new)>(before: seq<T>, i: nat, cmp: Comparison<T>) returns (r: seq<T>, next: nat)
    requires 0 < i < |before| && cmp(before[i - 1], before[i]) > 0
    ensures next < i
    ensures r == before[..next] + [before[i]] + before[next..i] + before[i + 1..]
    ensures forall k :: next <= k < i ==> cmp(before[k], before[i]) > 0
    ensures next > 0 ==> cmp(before[next - 1], before[i]) <= 0
  {
    var temp := before[i];
    var j: int := i - 1;
    r := before[i := before[j]];
    next := j;
    j := j - 1;
    while j >= 0 && cmp(r[j], temp) > 0
      invariant next == j + 1 && next < i && |r| == |before|
      invariant forall k :: 0 <= k <= next || i < k < |before| ==> r[k] == before[k]
      invariant forall k :: next < k <= i ==> r[k] == before[k - 1]
      invariant forall k :: next <= k < i ==> cmp(before[k], temp) > 0
    {
      r := r[next := r[j]];
      next := j;
      j := j - 1;
    }
    r := r[next := temp];
  }

  lemma Start<T(!new)>(items: seq<T>, cmp: Comparison<T>)
    ensures Stable(items, items, cmp)
    ensures |items| <= 1 ==> Sorted(items, cmp)
    ensures |items| >= 1 ==> Sorted(items[..1], cmp)
  {
  }

  /** The insertion sort.  `moved` tells whether anything was out of place: only then
      does the vector need a buffer of its own. */
  method InsertionSort<T(!new)>(items: seq<T>, cmp: Comparison<T>) returns (ordered: seq<T>, moved: bool)
    requires Ordering(cmp)
    ensures Sorted(ordered, cmp) && Stable(items, ordered, cmp) && |ordered| == |items|
    ensures multiset(ordered) == multiset(items)
    ensures moved <==> !Sorted(items, cmp)
    ensures !moved ==> ordered == items
  {
    hide Sorted, Stable, Ordering;
    ordered, moved := items, false;
    Start(items, cmp);
    if |items| <= 1 { return; }
    var i := 1;
    while i < |items|
      invariant 1 <= i <= |items| == |ordered|
      invariant Sorted(ordered[..i], cmp) && Stable(items, ordered, cmp)
      invariant !moved ==> ordered == items
      invariant moved ==> !Sorted(items, cmp)
    {
      SortedExtends(ordered[..i], ordered[i], cmp);
      assert ordered[..i] + [ordered[i]] == ordered[..i + 1];
      if cmp(ordered[i - 1], ordered[i]) > 0 {
        if !moved { PrefixUnsorted(items, i + 1, cmp); }
        moved := true;
        ghost var before := ordered;
        var next;
        ordered, next := ShiftIn(ordered, i, cmp);
        ShiftedIn(items, before, i, next, ordered, cmp);
      }
      i := i + 1;
    }
    assert ordered[..|items|] == ordered;
    StableIsPermutation(items, ordered, cmp);
  }

  lemma ShiftedIn<T(!new)>(items: seq<T>, before: seq<T>, i: nat, next: nat, r: seq<T>, cmp: Comparison<T>)
    requires Ordering(cmp) && next < i < |before| && Sorted(before[..i], cmp) && Stable(items, before, cmp)
    requires r == before[..next] + [before[i]] + before[next..i] + before[i + 1..]
    requires forall k :: next <= k < i ==> cmp(before[k], before[i]) > 0
    requires next > 0 ==> cmp(before[next - 1], before[i]) <= 0
    ensures Sorted(r[..i + 1], cmp) && Stable(items, r, cmp)
  {
    hide Sorted, Ordering;
    var p, m, t, rest := before[..next], before[next..i], before[i], before[i + 1..];
    assert before == p + m + [t] + rest;
    assert p + m == before[..i];
    assert r[..i + 1] == p + [t] + m;
    assert forall y <- m :: cmp(y, t) > 0;
    StableInsert(p, m, t, rest, cmp);
    SortedInsert(p, m, t, cmp);
  }

  lemma PrefixUnsorted<T>(s: seq<T>, k: nat, cmp: Comparison<T>)
    requires k <= |s| && !Sorted(s[..k], cmp)
    ensures !Sorted(s, cmp)
  {
    assert forall i, j :: 0 <= i < j < k ==> s[..k][i] == s[i] && s[..k][j] == s[j];
  }

  // ------------------------------------------------------ only one result is possible

  lemma {:induction false} PeerRanks<T>(s: seq<T>, x: T, cmp: Comparison<T>)
    ensures forall y <- Peers(s, x, cmp) :: y in s && cmp(y, x) == 0
    ensures Peers(s, x, cmp) == [] <==> forall y <- s :: cmp(y, x) != 0
  {
    if s != [] {
      PeerRanks(s[1..], x, cmp);
      assert s == [s[0]] + s[1..];
    }
  }

  /** The first item ranks no higher than any rank that occurs. */
  lemma LowestFirst<T(!new)>(s: seq<T>, x: T, cmp: Comparison<T>)
    requires Ordering(cmp) && Sorted(s, cmp) && Peers(s, x, cmp) != []
    ensures s != [] && cmp(s[0], x) <= 0
  {
    PeerRanks(s, x, cmp);
    hide Peers;
    var i :| 0 <= i < |s| && cmp(s[i], x) == 0;
    Reflexive(cmp, s[0]);
    Chain(cmp, s[0], s[i], x);
  }

  lemma FirstPeer<T>(s: seq<T>, x: T, cmp: Comparison<T>)
    requires s != [] && cmp(s[0], x) == 0
    ensures Peers(s, x, cmp) != [] && Peers(s, x, cmp)[0] == s[0]
  {
  }

  lemma SameHead<T(!new)>(a: seq<T>, b: seq<T>, cmp: Comparison<T>)
    requires Ordering(cmp) && Sorted(a, cmp) && Sorted(b, cmp) && Stable(a, b, cmp)
    requires a != []
    ensures b != [] && a[0] == b[0]
  {
    hide Sorted, Ordering, Peers;
    var x := a[0];
    Reflexive(cmp, x);
    FirstPeer(a, x, cmp);
    LowestFirst(b, x, cmp);
    var y := b[0];
    Reflexive(cmp, y);
    FirstPeer(b, y, cmp);
    LowestFirst(a, y, cmp);
    SameRank(cmp, x, y);
    FirstPeer(b, x, cmp);
  }

  lemma SameRank<T(!new)>(cmp: Comparison<T>, x: T, y: T)
    requires Ordering(cmp) && cmp(x, y) <= 0 && cmp(y, x) <= 0
    ensures cmp(y, x) == 0
  {
  }

  /** Order and stability together leave no choice. */
  lemma {:induction false} StableSortIsUnique<T(!new)>(a: seq<T>, b: seq<T>, cmp: Comparison<T>)
    requires Ordering(cmp) && Sorted(a, cmp) && Sorted(b, cmp) && Stable(a, b, cmp)
    ensures a == b
  {
    if a == [] {
      if b != [] {
        SameHead(b, a, cmp);
      }
    } else {
      SameHead(a, b, cmp);
      TailsStable(a, b, cmp);
      StableSortIsUnique(a[1..], b[1..], cmp);
      assert a == [a[0]] + a[1..] && b == [b[0]] + b[1..];
    }
  }

  lemma TailsStable<T(!new)>(a: seq<T>, b: seq<T>, cmp: Comparison<T>)
    requires a != [] && b != [] && a[0] == b[0] && Stable(a, b, cmp)
    ensures Stable(a[1..], b[1..], cmp)
  {
    forall x ensures Peers(b[1..], x, cmp) == Peers(a[1..], x, cmp) {
      assert Peers(a, x, cmp) == Peers(b, x, cmp);
      var head := if cmp(a[0], x) == 0 then [a[0]] else [];
      assert Peers(a, x, cmp) == head + Peers(a[1..], x, cmp);
      assert Peers(b, x, cmp) == head + Peers(b[1..], x, cmp);
      assert Peers(a, x, cmp)[|head|..] == Peers(a[1..], x, cmp);
      assert Peers(b, x, cmp)[|head|..] == Peers(b[1..], x, cmp);
    }
  }
}
