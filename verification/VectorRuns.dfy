/** Any program of operations on any number of vectors, against the plain sequences
    that each of them stands for. */
module VectorRuns {
  import opened Common
  import opened CopyOnWrite
  import opened StableSort
  import SortedVectorImpl

  /** An operation on the vector numbered `h`. */
  datatype Operation<T> =
    | InsertArrayAt(h: nat, items: seq<T>, index: nat)
    | ReplaceAt(h: nat, item: T, index: nat)
    | RemoveItemsAt(h: nat, index: nat, count: nat)
    | Resize(h: nat, blank: T, size: nat)
    | SetCapacity(h: nat, capacity: nat)
    | Clear(h: nat)
    | Sort(h: nat)
    | Assign(h: nat, from: nat)

  // -------------------------------------------------------- on independent sequences

  /** What an operation makes of the sequence it is for. */
  ghost predicate Becomes<T(!new)>(m: seq<seq<T>>, op: Operation<T>, r: seq<T>, cmp: Comparison<T>)
    requires op.h < |m|
  {
    var s := m[op.h];
    match op
    case InsertArrayAt(_, items, index) => r == if index > |s| then s else Inserted(s, index, items)
    case ReplaceAt(_, item, index) => r == if index >= |s| then s else s[index := item]
    case RemoveItemsAt(_, index, count) => r == if index + count > |s| then s else Removed(s, index, count)
    case Resize(_, blank, size) => r == if size <= |s| then s[..size] else s + Repeat(blank, size - |s|)
    case SetCapacity(_, _) => r == s
    case Clear(_) => r == []
    case Sort(_) => StableSort.Sorted(r, cmp) && Stable(s, r, cmp)
    case Assign(_, from) => r == if from < |m| then m[from] else s
  }

  /** Only that sequence changes. */
  ghost predicate Does<T(!new)>(m: seq<seq<T>>, op: Operation<T>, m': seq<seq<T>>, cmp: Comparison<T>) {
    if op.h >= |m| then m' == m
    else |m'| == |m| && Becomes(m, op, m'[op.h], cmp) && m' == m[op.h := m'[op.h]]
  }

  lemma DoesIsDetermined<T(!new)>(m: seq<seq<T>>, op: Operation<T>, a: seq<seq<T>>, b: seq<seq<T>>, cmp: Comparison<T>)
    requires Ordering(cmp) && Does(m, op, a, cmp) && Does(m, op, b, cmp)
    ensures a == b
  {
    hide StableSort.Sorted, Ordering, Stable;
    if op.h < |m| && op.Sort? {
      StableBoth(m[op.h], a[op.h], b[op.h], cmp);
      StableSortIsUnique(a[op.h], b[op.h], cmp);
    }
  }

  lemma StableBoth<T(!new)>(s: seq<T>, a: seq<T>, b: seq<T>, cmp: Comparison<T>)
    requires Stable(s, a, cmp) && Stable(s, b, cmp)
    ensures Stable(a, b, cmp)
  {
  }

  // ------------------------------------------------------------------ on the vectors

  /** The vectors are different ones, and stand for these sequences. */
  ghost predicate Stand<T(0, !new)>(vs: seq<Vector<T>>, m: seq<seq<T>>)
    reads vs, set v <- vs | v.mStorage != null :: v.mStorage
  {
    && |m| == |vs|
    && (forall i, j :: 0 <= i < j < |vs| ==> vs[i] != vs[j])
    && (forall i :: 0 <= i < |vs| ==> vs[i].Contents() == m[i])
  }

  ghost function All<T(0)>(vs: seq<Vector<T>>): set<Vector<T>> {
    set v <- vs
  }

  /** Every buffer in use is in the pool, and those in the pool are freed exactly if
      nobody owns them. */
  ghost predicate Pooled<T(0)>(vs: seq<Vector<T>>, pool: set<SharedBuffer<T>>)
    reads vs, pool
  {
    && (forall v <- vs :: v.mStorage != null ==> v.mStorage in pool)
    && (forall b <- pool :: Settled(b))
  }

  /** The pool with the buffer that a vector may have got. */
  ghost function Grown<T(0)>(pool: set<SharedBuffer<T>>, v: Vector<T>): set<SharedBuffer<T>>
    reads v
  {
    if v.mStorage == null then pool else pool + {v.mStorage}
  }

  method Do<T(0, !new)>(vs: seq<Vector<T>>, op: Operation<T>, cmp: Comparison<T>, ghost m: seq<seq<T>>)
    returns (ghost m': seq<seq<T>>)
    requires op.h < |vs| && World(All(vs)) && Stand(vs, m) && Ordering(cmp)
    modifies vs[op.h], vs[op.h].Held()
    requires !op.Assign?
    ensures World(All(vs)) && Does(m, op, m', cmp) && m' == m[op.h := vs[op.h].Contents()]
    ensures vs[op.h].OthersKept(All(vs)) && Settled(old(vs[op.h].mStorage))
    ensures vs[op.h].mStorage == old(vs[op.h].mStorage) || fresh(vs[op.h].mStorage)
  {
    hide World, Sound, Ordering, Stable, StableSort.Sorted, Settled;
    var v := vs[op.h];
    ghost var all := All(vs);
    var code: int := 0;
    match op {
      case InsertArrayAt(_, items, index) => code := v.InsertArrayAt(all, items, index);
      case ReplaceAt(_, item, index) => code := v.ReplaceAt(all, item, index);
      case RemoveItemsAt(_, index, count) => code := v.RemoveItemsAt(all, index, count);
      case Resize(_, blank, size) => code := v.Resize(all, blank, size);
      case SetCapacity(_, capacity) => code := v.SetCapacity(all, capacity);
      case Clear(_) => v.Clear(all);
      case Sort(_) => SortedVectorImpl.Sort(all, v, cmp);
    }
    m' := m[op.h := v.Contents()];
  }

  method DoOne<T(0, !new)>(vs: seq<Vector<T>>, op: Operation<T>, cmp: Comparison<T>, ghost m: seq<seq<T>>)
    returns (ghost m': seq<seq<T>>)
    requires op.h < |vs| && World(All(vs)) && Stand(vs, m) && Ordering(cmp)
    modifies vs[op.h], vs[op.h].Held()
    requires !op.Assign?
    ensures World(All(vs)) && Stand(vs, m') && Does(m, op, m', cmp)
    ensures vs[op.h].OthersKept(All(vs)) && Settled(old(vs[op.h].mStorage))
    ensures vs[op.h].mStorage == old(vs[op.h].mStorage) || fresh(vs[op.h].mStorage)
  {
    hide World, Sound, Ordering, Does, Settled;
    ghost var all := All(vs);
    m' := Do(vs, op, cmp, m);
    forall i | 0 <= i < |vs|
      ensures vs[i].Contents() == m'[i]
    {
      assert vs[i] in all && (i != op.h ==> vs[i] != vs[op.h]);
    }
  }

  /** A buffer in use has an owner and has not been freed. */
  lemma InUseIsSettled<T(0)>(vs: seq<Vector<T>>, v: Vector<T>)
    requires World(All(vs)) && v in vs
    ensures Settled(v.mStorage)
  {
    assert Sound(v, All(vs));
  }

  method AssignOne<T(0, !new)>(vs: seq<Vector<T>>, h: nat, from: nat, ghost m: seq<seq<T>>)
    returns (ghost m': seq<seq<T>>)
    requires h < |vs| && from < |vs| && World(All(vs)) && Stand(vs, m)
    modifies vs[h], vs[h].Held(), vs[from].Held()
    ensures World(All(vs)) && Stand(vs, m') && m' == m[h := m[from]]
    ensures vs[h].OthersKept(All(vs))
    ensures vs[h].mStorage == old(vs[h].mStorage) || vs[h].mStorage == null || vs[h].mStorage == old(vs[from].mStorage)
    ensures Settled(old(vs[h].mStorage)) && Settled(old(vs[from].mStorage))
  {
    hide World, Sound, Settled;
    ghost var all := All(vs);
    InUseIsSettled(vs, vs[h]);
    vs[h].Assign(all, vs[from]);
    InUseIsSettled(vs, vs[from]);
    m' := m[h := m[from]];
    forall i | 0 <= i < |vs|
      ensures vs[i].Contents() == m'[i]
    {
      assert vs[i] in all && (i != h ==> vs[i] != vs[h]);
    }
  }

  /** One operation of a program. */
  method Step<T(0, !new)>(vs: seq<Vector<T>>, op: Operation<T>, cmp: Comparison<T>, ghost m: seq<seq<T>>,
                          ghost pool: set<SharedBuffer<T>>)
    returns (ghost m': seq<seq<T>>, ghost pool': set<SharedBuffer<T>>)
    requires World(All(vs)) && Stand(vs, m) && Pooled(vs, pool) && Ordering(cmp)
    modifies vs, pool
    ensures World(All(vs)) && Stand(vs, m') && Does(m, op, m', cmp)
    ensures Pooled(vs, pool') && pool <= pool' && (forall b <- pool' :: b in pool || fresh(b))
  {
    hide World, Sound, Ordering, Stable, StableSort.Sorted, Settled, Becomes;
    m', pool' := m, pool;
    if op.h >= |vs| || (op.Assign? && op.from >= |vs|) {
      NothingDone(m, op, cmp);
      return;
    }
    if op.Assign? {
      m' := AssignOne(vs, op.h, op.from, m);
      Assigned(m, op, cmp);
    } else {
      m' := DoOne(vs, op, cmp, m);
    }
    InUseIsSettled(vs, vs[op.h]);
    pool' := Grown(pool, vs[op.h]);
  }

  lemma NothingDone<T(!new)>(m: seq<seq<T>>, op: Operation<T>, cmp: Comparison<T>)
    requires op.h >= |m| || (op.Assign? && op.from >= |m|)
    ensures Does(m, op, m, cmp)
  {
  }

  lemma Assigned<T(!new)>(m: seq<seq<T>>, op: Operation<T>, cmp: Comparison<T>)
    requires op.Assign? && op.h < |m| && op.from < |m|
    ensures Does(m, op, m[op.h := m[op.from]], cmp)
  {
  }

  /** A whole program: after every operation each vector stands for the sequence that
      the same operations make of independent sequences, and no buffer that was ever
      in use is left without an owner or freed under one. */
  method Run<T(0, !new)>(vs: seq<Vector<T>>, program: seq<Operation<T>>, cmp: Comparison<T>,
                         ghost m: seq<seq<T>>, ghost pool: set<SharedBuffer<T>>)
    returns (ghost trace: seq<seq<seq<T>>>, ghost pool': set<SharedBuffer<T>>)
    requires World(All(vs)) && Stand(vs, m) && Pooled(vs, pool) && Ordering(cmp)
    modifies vs, pool
    ensures |trace| == |program| + 1 && trace[0] == m && Stand(vs, trace[|program|])
    ensures forall k :: 0 <= k < |program| ==> Does(trace[k], program[k], trace[k + 1], cmp)
    ensures World(All(vs)) && Pooled(vs, pool') && pool <= pool'
  {
    hide World, Ordering, Stand, Does, Pooled;
    trace, pool' := [m], pool;
    ghost var now := m;
    for i := 0 to |program|
      invariant |trace| == i + 1 && trace[0] == m && trace[i] == now
      invariant forall k :: 0 <= k < i ==> Does(trace[k], program[k], trace[k + 1], cmp)
      invariant World(All(vs)) && Stand(vs, now) && Pooled(vs, pool')
      invariant pool <= pool' && (forall b <- pool' :: b in pool || fresh(b))
    {
      now, pool' := Step(vs, program[i], cmp, now, pool');
      trace := trace + [now];
    }
  }
}
