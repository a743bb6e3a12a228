/** Sorting and the sorted vector's operations, on the vectors that share buffers. */
module SortedVectorImpl {
  import opened CopyOnWrite
  import opened StableSort
  import opened SortedVector

  /** VectorImpl::sort: a vector already in order stays on the buffer it shares. */
  method Sort<T(0, !new)>(ghost vs: set<Vector<T>>, v: Vector<T>, cmp: Comparison<T>)
    requires v in vs && World(vs) && Ordering(cmp)
    modifies v, v.Held()
    ensures Settled(old(v.mStorage)) && World(vs) && v.OthersKept(vs)
    ensures v.mStorage == old(v.mStorage) || fresh(v.mStorage)
    ensures StableSort.Sorted(v.Contents(), cmp) && Stable(old(v.Contents()), v.Contents(), cmp)
    ensures multiset(v.Contents()) == multiset(old(v.Contents()))
    ensures StableSort.Sorted(old(v.Contents()), cmp) ==>
              v.mStorage == old(v.mStorage) && v.Contents() == old(v.Contents())
  {
    hide Sound, World, Stable, StableSort.Sorted, Ordering;
    v.CountsItems(vs);
    var items := v.Contents();
    var ordered, moved := InsertionSort(items, cmp);
    if moved {
      Start(items, cmp);
      v.EditArray(vs);
      v.HasStorage(vs);
      ghost var count := v.mCount;
      v.Rewrite(vs, ordered + v.mStorage.data[v.mCount..], v.mCount);
      assert v.mStorage.data[..count] == ordered;
    }
  }

  method Add<T(0, !new)>(ghost vs: set<Vector<T>>, v: Vector<T>, item: T, cmp: Comparison<T>) returns (code: int)
    requires v in vs && World(vs) && Ordering(cmp) && Strict(v.Contents(), cmp)
    modifies v, v.Held()
    ensures Settled(old(v.mStorage)) && World(vs) && v.OthersKept(vs)
    ensures v.mStorage == old(v.mStorage) || fresh(v.mStorage)
    ensures v.Contents() == Added(old(v.Contents()), item, cmp)
    ensures code == Order(old(v.Contents()), item, cmp)
  {
    hide Sound, World, Ordering, Strict;
    v.CountsItems(vs);
    var index, order := IndexOrderOf(v.Contents(), item, cmp);
    if index < 0 {
      code := v.InsertAt(vs, item, order, 1);
      assert seq(1, _ => item) == [item];
    } else {
      code := v.ReplaceAt(vs, item, index);
    }
  }

  /** Returns the index it removed, or NAME_NOT_FOUND. */
  method Remove<T(0, !new)>(ghost vs: set<Vector<T>>, v: Vector<T>, item: T, cmp: Comparison<T>) returns (code: int)
    requires v in vs && World(vs) && Ordering(cmp) && Strict(v.Contents(), cmp)
    modifies v, v.Held()
    ensures Settled(old(v.mStorage)) && World(vs) && v.OthersKept(vs)
    ensures v.Contents() == Without(old(v.Contents()), item, cmp)
    ensures code == if Found(old(v.Contents()), item, cmp) then Order(old(v.Contents()), item, cmp) else NAME_NOT_FOUND
  {
    hide Sound, World, Ordering, Strict;
    v.CountsItems(vs);
    var index, order := IndexOrderOf(v.Contents(), item, cmp);
    code := index;
    if index >= 0 {
      var _ := v.RemoveItemsAt(vs, index, 1);
    }
  }

  /** Adds the items one after the other. */
  method MergeEach<T(0, !new)>(ghost vs: set<Vector<T>>, v: Vector<T>, items: seq<T>, cmp: Comparison<T>)
    returns (code: int)
    requires v in vs && World(vs) && Ordering(cmp) && Strict(v.Contents(), cmp)
    modifies v, v.Held()
    ensures World(vs) && v.OthersKept(vs)
    ensures v.Contents() == MergedEach(old(v.Contents()), items, cmp)
    ensures code == 0
  {
    hide Sound, World, Ordering, Strict, Added;
    ghost var want := MergedEach(v.Contents(), items, cmp);
    assert items[0..] == items;
    for i := 0 to |items|
      invariant World(vs) && v.OthersKept(vs) && Strict(v.Contents(), cmp)
      invariant v.mStorage == old(v.mStorage) || fresh(v.mStorage)
      invariant MergedEach(v.Contents(), items[i..], cmp) == want
    {
      AddedItems(v.Contents(), items[i], items[i], cmp);
      assert items[i..][0] == items[i] && items[i..][1..] == items[i + 1..];
      var _ := Add(vs, v, items[i], cmp);
    }
    code := 0;
  }

  lemma InsertedAtEnds<T>(s: seq<T>, t: seq<T>)
    ensures Inserted(s, 0, t) == t + s && Inserted(s, |s|, t) == s + t
  {
  }

  /** merge of two sorted vectors; both have items, for the comparison reads the
      first item of each. */
  method Merge<T(0, !new)>(ghost vs: set<Vector<T>>, v: Vector<T>, other: Vector<T>, cmp: Comparison<T>)
    returns (code: int)
    requires v in vs && other in vs && v != other && World(vs) && Ordering(cmp)
    requires Strict(v.Contents(), cmp) && Strict(other.Contents(), cmp)
    requires other.Contents() != [] ==> v.Contents() != []
    modifies v, v.Held()
    ensures World(vs) && v.OthersKept(vs)
    ensures v.Contents() == Merged(old(v.Contents()), old(other.Contents()), cmp)
  {
    hide Sound, World, Ordering, Strict, MergedEach, Inserted;
    v.CountsItems(vs);
    other.CountsItems(vs);
    var t := other.Contents();
    code := 0;
    if other.mCount > 0 {
      var s := v.Contents();
      if cmp(t[|t| - 1], s[0]) <= 0 {
        code := v.InsertArrayAt(vs, t, 0);
        InsertedAtEnds(s, t);
      } else if cmp(t[0], s[|s| - 1]) >= 0 {
        code := v.InsertArrayAt(vs, t, v.mCount);
        InsertedAtEnds(s, t);
      } else {
        code := MergeEach(vs, v, t, cmp);
      }
    }
  }
}
