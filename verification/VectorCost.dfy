/** The growth and shrink rules of VectorImpl, and what appending one at a time
    costs. */
module VectorCost {
  import opened CopyOnWrite

  /** The capacity after one append to a vector of `n` items. */
  function AppendCapacity(n: nat, capacity: nat): nat {
    if capacity < n + 1 then GrownCapacity(n + 1) else capacity
  }

  /** The items that this append has to move to a new buffer. */
  function AppendMoves(n: nat, capacity: nat): nat {
    if capacity < n + 1 then n else 0
  }

  function CapacityAfter(k: nat): nat {
    if k == 0 then 0 else AppendCapacity(k - 1, CapacityAfter(k - 1))
  }

  function MovesOf(k: nat): nat {
    if k == 0 then 0 else MovesOf(k - 1) + AppendMoves(k - 1, CapacityAfter(k - 1))
  }

  lemma {:induction false} MovesBounded(k: nat)
    ensures k <= CapacityAfter(k) && MovesOf(k) <= 2 * CapacityAfter(k) && MovesOf(k) <= 3 * k
  {
    if k > 0 {
      MovesBounded(k - 1);
    }
  }

  /** A grown buffer has room for half as many items again and one more, rounded down,
      and never for fewer than four. */
  lemma GrowthIsHalf(size: nat)
    ensures var c := GrownCapacity(size); c > size && c >= 4 && (c > 4 ==> 3 * size < 2 * c <= 3 * size + 2)
  {
  }

  /** k single appends to an empty vector move at most 3k items in all. */
  lemma AppendsAreLinear(k: nat)
    ensures MovesOf(k) <= 3 * k
  {
    MovesBounded(k);
  }

  /** Shrinking reallocates to a smaller buffer exactly when the old one held more
      than MIN_CAPACITY items: a vector of explicit capacity 2 or 3 grows when it
      is emptied. */
  lemma ShrinkingShrinks(size: nat, capacity: nat)
    requires size < capacity / 2
    ensures ShrunkCapacity(size) < capacity <==> capacity > MIN_CAPACITY
    ensures ShrunkCapacity(size) > capacity <==> capacity < MIN_CAPACITY
  {
  }

  /** The k appends themselves: the vector ends with the items in order, and its
      capacity is the one the cost was counted with. */
  method AppendAll<T(0)>(ghost vs: set<Vector<T>>, v: Vector<T>, items: seq<T>) returns (moves: nat)
    requires v in vs && World(vs) && v.mStorage == null
    modifies v
    ensures World(vs) && v.Contents() == items
    ensures moves == MovesOf(|items|) <= 3 * |items|
  {
    hide Sound, World;
    moves := 0;
    v.Empty(vs);
    for i := 0 to |items|
      invariant World(vs) && v.Contents() == items[..i] && v.mCount == i
      invariant v.Capacity() == CapacityAfter(i) && moves == MovesOf(i)
      invariant v.mStorage != null ==> fresh(v.mStorage)
    {
      if v.Capacity() < v.mCount + 1 { moves := moves + v.mCount; }
      var _ := v.Add(vs, items[i]);
      assert items[..i + 1] == items[..i] + [items[i]];
    }
    assert items[..|items|] == items;
    AppendsAreLinear(|items|);
  }
}
