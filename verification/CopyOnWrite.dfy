/** VectorImpl over SharedBuffer: vectors are handles that share a buffer until one
    of them is changed.  `vs` is the set of all vectors in use. */
module CopyOnWrite {
  import opened Common

  const BAD_INDEX: int := -75
  const BAD_VALUE: int := -22
  const NO_MEMORY: int := -12
  const MIN_CAPACITY: nat := 4

  /** The capacity _grow asks for, and the one _shrink leaves. */
  function GrownCapacity(size: nat): nat {
    Max(MIN_CAPACITY, size + size / 2 + 1)
  }

  function ShrunkCapacity(size: nat): nat {
    Max(MIN_CAPACITY, size * 2)
  }

  // ------------------------------------------------------- what the operations mean

  function Inserted<T>(s: seq<T>, index: nat, items: seq<T>): seq<T>
    requires index <= |s|
  {
    s[..index] + items + s[index..]
  }

  function Removed<T>(s: seq<T>, index: nat, count: nat): seq<T>
    requires index + count <= |s|
  {
    s[..index] + s[index + count..]
  }

  lemma OnlyOwner<V>(owners: set<V>, v: V)
    requires v in owners
    ensures |owners - {v}| == |owners| - 1
    ensures |owners| == 1 <==> owners == {v}
    ensures owners - {v} == {} <==> owners == {v}
  {
    var rest := owners - {v};
    assert owners == rest + {v};
    assert |rest| == 0 ==> rest == {};
  }

  // ------------------------------------------------------------------ the two classes

  class SharedBuffer<T(0)> {
    var mRefs: nat
    var data: seq<T>
    var freed: bool
    ghost var owners: set<Vector<T>>

    /** SharedBuffer::alloc: raw storage with one reference. */
    constructor (capacity: nat, ghost owner: Vector<T>)
      ensures mRefs == 1 && owners == {owner} && !freed && |data| == capacity
    {
      var raw := new T[capacity];
      mRefs, freed, owners := 1, false, {owner};
      data := raw[..];
    }

    method Acquire(ghost v: Vector<T>)
      requires !freed && v !in owners && mRefs == |owners|
      modifies this`mRefs, this`owners
      ensures owners == old(owners) + {v} && mRefs == |owners|
    {
      mRefs := mRefs + 1;
      owners := owners + {v};
    }

    /** release: the count before; the last owner leaves a count of 0. */
    method Release(ghost v: Vector<T>) returns (previous: nat)
      requires !freed && v in owners && mRefs == |owners|
      modifies this`mRefs, this`owners
      ensures owners == old(owners) - {v} && mRefs == |owners|
      ensures previous == old(mRefs) && (previous == 1 <==> owners == {})
    {
      previous := mRefs;
      mRefs := mRefs - 1;
      owners := owners - {v};
      OnlyOwner(old(owners), v);
    }

    /** dealloc: only a buffer that nobody owns, and only once. */
    method Dealloc()
      requires !freed && owners == {}
      modifies this`freed
      ensures freed
    {
      freed := true;
    }
  }

  /** What holds of every vector in use: an empty one may have no buffer; a buffer
      has as many references as vectors on it, which agree on the number of items,
      and it has room for them. */
  ghost predicate Sound<T(0)>(v: Vector<T>, vs: set<Vector<T>>)
    reads v, v.mStorage, vs
  {
    if v.mStorage == null then v.mCount == 0
    else
      var b := v.mStorage;
      && v in b.owners && b.owners <= vs
      && b.mRefs == |b.owners| && !b.freed
      && v.mCount <= |b.data|
      && (forall u <- b.owners :: u.mStorage == b && u.mCount == v.mCount)
  }

  /** A buffer has been freed exactly if no vector is on it. */
  ghost predicate Settled<T(0)>(b: SharedBuffer?<T>)
    reads b
  {
    b != null ==> (b.freed <==> b.owners == {})
  }

  ghost predicate World<T(0)>(vs: set<Vector<T>>)
    reads vs, set v <- vs | v.mStorage != null :: v.mStorage
  {
    forall v <- vs :: Sound(v, vs)
  }

  class Vector<T(0)> {
    var mStorage: SharedBuffer?<T>
    var mCount: nat
    const trivial: bool

    ghost function Held(): set<object>
      reads this
    {
      if mStorage == null then {} else {mStorage}
    }

    function Contents(): seq<T>
      reads this, mStorage
    {
      if mStorage == null || mCount > |mStorage.data| then [] else mStorage.data[..mCount]
    }

    /** No other vector has moved or changed. */
    twostate predicate OthersKept(vs: set<Vector<T>>)
      reads vs, set v <- vs | v.mStorage != null :: v.mStorage
    {
      forall u <- vs | u != this ::
        u.mStorage == old(u.mStorage) && u.mCount == old(u.mCount)
        && (u.mStorage != null ==> u.mStorage.data == old(u.mStorage.data))
    }

    ghost predicate Unique()
      reads this, mStorage
    {
      mStorage != null ==> mStorage.owners == {this}
    }

    constructor (trivial: bool)
      ensures mStorage == null && mCount == 0 && Contents() == []
      ensures this.trivial == trivial
    {
      this.trivial := trivial;
      mStorage, mCount := null, 0;
    }

    /** The copy constructor: a new vector on the same buffer, even an empty one. */
    constructor Copy(ghost vs: set<Vector<T>>, rhs: Vector<T>)
      requires rhs in vs && World(vs)
      modifies rhs.Held()
      ensures World(vs + {this})
      ensures mStorage == rhs.mStorage && Contents() == old(rhs.Contents())
      ensures forall u <- vs :: u.mStorage == old(u.mStorage) && u.Contents() == old(u.Contents())
    {
      trivial := rhs.trivial;
      mStorage, mCount := null, 0;
      new;
      Enters(vs);
      hide World;
      if rhs.mStorage != null {
        Join(vs + {this}, rhs);
      } else {
        rhs.Empty(vs);
      }
    }

    /** A vector without storage may be anywhere. */
    lemma Enters(vs: set<Vector<T>>)
      requires World(vs) && mStorage == null && mCount == 0
      ensures World(vs + {this})
    {
      forall u <- vs + {this} ensures Sound(u, vs + {this}) {
        assert u in vs ==> Sound(u, vs);
      }
    }

    lemma Empty(vs: set<Vector<T>>)
      requires this in vs && World(vs) && mStorage == null
      ensures mCount == 0 && Contents() == []
    {
      assert Sound(this, vs);
    }

    /** A vector that has released its storage can go. */
    lemma Leaves(vs: set<Vector<T>>)
      requires this in vs && World(vs) && mStorage == null
      ensures World(vs - {this})
    {
      forall u <- vs - {this} ensures Sound(u, vs - {this}) {
        assert Sound(u, vs);
      }
    }

    function Capacity(): nat
      reads this, mStorage
    {
      if mStorage == null then 0 else |mStorage.data|
    }

    /** release_storage: the last vector on a buffer frees it. */
    method ReleaseStorage(ghost vs: set<Vector<T>>)
      requires this in vs && World(vs)
      modifies this, Held()
      ensures World(vs) && mStorage == null && mCount == 0
      ensures OthersKept(vs)
      ensures old(mStorage) != null ==>
        old(mStorage).owners == old(mStorage.owners) - {this}
      ensures Settled(old(mStorage))
    {
      if mStorage != null {
        var previous := mStorage.Release(this);
        if previous == 1 { mStorage.Dealloc(); }
      }
      mStorage, mCount := null, 0;
    }

    /** finish_vector, at the end of a vector's life. */
    method Finish(ghost vs: set<Vector<T>>)
      requires this in vs && World(vs)
      modifies this, Held()
      ensures Settled(old(mStorage))
      ensures World(vs - {this}) && OthersKept(vs)
    {
      ReleaseStorage(vs);
      Leaves(vs);
    }

    /** Points a vector without storage to a buffer that only it owns. */
    method Attach(ghost vs: set<Vector<T>>, sb: SharedBuffer<T>, count: nat)
      requires this in vs && World(vs) && mStorage == null
      requires sb.owners == {this} && sb.mRefs == 1 && !sb.freed && count <= |sb.data|
      modifies this
      ensures World(vs) && OthersKept(vs) && Unique()
      ensures mStorage == sb && mCount == count
    {
      assert forall u <- vs | u.mStorage != null :: Sound(u, vs) && this !in u.mStorage.owners;
      mStorage, mCount := sb, count;
    }

    /** A new buffer of its own, laid out as `raw`, in place of the old one. */
    method MoveTo(ghost vs: set<Vector<T>>, raw: seq<T>, count: nat)
      requires this in vs && World(vs) && count <= |raw|
      modifies this, Held()
      ensures Settled(old(mStorage))
      ensures World(vs) && OthersKept(vs) && Unique()
      ensures mStorage != null && fresh(mStorage)
      ensures mStorage.data == raw && mCount == count
    {
      hide Sound;
      var sb := new SharedBuffer<T>(|raw|, this);
      sb.data := raw;
      ReleaseStorage(vs);
      Attach(vs, sb, count);
    }

    method Raw(n: nat) returns (s: seq<T>)
      ensures |s| == n
    {
      var raw := new T[n];
      s := raw[..];
    }

    /** editArrayImpl: makes sure this vector is alone on its buffer. */
    method EditArray(ghost vs: set<Vector<T>>)
      requires this in vs && World(vs)
      modifies this, Held()
      ensures Settled(old(mStorage))
      ensures World(vs) && OthersKept(vs) && Unique()
      ensures Contents() == old(Contents()) && mCount == old(mCount)
      ensures mStorage == old(mStorage) || fresh(mStorage)
      ensures mStorage == null <==> old(mStorage) == null
      ensures old(mStorage) != null ==> (mStorage == old(mStorage) <==> old(mStorage.mRefs) == 1)
      ensures Capacity() == old(Capacity())
    {
      if mStorage != null {
        OnlyOwner(mStorage.owners, this);
        if mStorage.mRefs != 1 {
          var rest := Raw(|mStorage.data| - mCount);
          MoveTo(vs, mStorage.data[..mCount] + rest, mCount);
        }
      }
    }

    /** Rewrites the storage of a vector that is alone on it. */
    method Rewrite(ghost vs: set<Vector<T>>, raw: seq<T>, count: nat)
      requires this in vs && World(vs) && mStorage != null && Unique() && count <= |raw|
      modifies this, mStorage
      ensures World(vs) && OthersKept(vs) && Unique() && mStorage == old(mStorage) && Settled(mStorage)
      ensures mStorage.data == raw && mCount == count
    {
      mStorage.data := raw;
      mCount := count;
    }

    /** editResize: reallocates in place when alone, and copies otherwise. */
    method EditResize(ghost vs: set<Vector<T>>, capacity: nat, keep: nat)
      requires this in vs && World(vs) && mStorage != null && keep <= mCount && keep <= capacity
      modifies this, Held()
      ensures Settled(old(mStorage))
      ensures World(vs) && OthersKept(vs) && Unique()
      ensures mStorage != null && (mStorage == old(mStorage) || fresh(mStorage))
      ensures mStorage == old(mStorage) <==> old(mStorage.mRefs) == 1
      ensures mCount == keep && Capacity() == capacity
      ensures Contents() == old(Contents())[..keep]
    {
      OnlyOwner(mStorage.owners, this);
      var raw := mStorage.data;
      if |raw| < capacity {
        var more := Raw(capacity - |raw|);
        raw := raw + more;
      } else {
        raw := raw[..capacity];
      }
      if mStorage.mRefs == 1 {
        Rewrite(vs, raw, keep);
      } else {
        MoveTo(vs, raw, keep);
      }
    }

    /** _grow: opens a gap of `amount` slots at `where`.  The address of the gap is
        null when `where` is the very end of the buffer, which takes `amount == 0`. */
    method Grow(ghost vs: set<Vector<T>>, where: nat, amount: nat) returns (ok: bool)
      requires this in vs && World(vs) && where <= mCount
      modifies this, Held()
      ensures Settled(old(mStorage))
      ensures World(vs) && OthersKept(vs) && Unique()
      ensures mStorage == old(mStorage) || fresh(mStorage)
      ensures |Contents()| == mCount == old(mCount) + amount
      ensures Contents()[..where] == old(Contents())[..where]
      ensures Contents()[where + amount..] == old(Contents())[where..]
      ensures Capacity() == if old(Capacity()) < mCount then GrownCapacity(mCount) else old(Capacity())
      ensures ok <==> where < Capacity()
    {
      hide Sound, World;
      CountsItems(vs);
      var count := mCount;
      var size := count + amount;
      ghost var before := Contents();
      if Capacity() < size {
        var capacity := GrownCapacity(size);
        if mStorage != null && count == where && trivial {
          EditResize(vs, capacity, count);
          Rewrite(vs, mStorage.data, size);
          assert mStorage.data[..count] == before;
        } else {
          var gap := Raw(amount);
          var rest := Raw(capacity - size);
          var items := if mStorage == null then [] else mStorage.data[..count];
          var raw := items[..where] + gap + items[where..] + rest;
          MoveTo(vs, raw, size);
          Layout(items[..where], gap, items[where..], rest);
        }
      } else {
        EditArray(vs);
        if mStorage != null {
          var raw := mStorage.data;
          var moved := raw[..where + amount] + raw[where..count] + raw[size..];
          OpenGap(raw, where, amount, count);
          Rewrite(vs, moved, size);
        }
      }
      ok := where < Capacity();
    }

    /** _shrink: closes the gap left by `amount` items at `where`. */
    method Shrink(ghost vs: set<Vector<T>>, where: nat, amount: nat)
      requires this in vs && World(vs) && where + amount <= mCount
      modifies this, Held()
      ensures Settled(old(mStorage))
      ensures mStorage == old(mStorage) || fresh(mStorage)
      ensures World(vs) && OthersKept(vs) && Unique()
      ensures Contents() == Removed(old(Contents()), where, amount)
      ensures mCount == old(mCount) - amount
      ensures Capacity() == if mCount < old(Capacity()) / 2 then ShrunkCapacity(mCount) else old(Capacity())
    {
      hide Sound, World;
      CountsItems(vs);
      if mStorage == null { return; }
      var count := mCount;
      var size := count - amount;
      ghost var before := Contents();
      if size < Capacity() / 2 {
        var capacity := ShrunkCapacity(size);
        if where == size && trivial {
          EditResize(vs, capacity, size);
        } else {
          var rest := Raw(capacity - size);
          var items := mStorage.data[..count];
          MoveTo(vs, items[..where] + items[where + amount..] + rest, size);
        }
      } else {
        EditArray(vs);
        var raw := mStorage.data;
        assert raw[..count] == before;
        Rewrite(vs, raw[..where] + raw[where + amount..count] + raw[size..], size);
      }
    }

    // ------------------------------------------------------------- the operations

    /** insertArrayAt and all that rests on it.  Inserting nothing at the end of a
        full vector is reported as a failure, and changes nothing. */
    method InsertArrayAt(ghost vs: set<Vector<T>>, items: seq<T>, index: nat) returns (code: int)
      requires this in vs && World(vs)
      modifies this, Held()
      ensures Settled(old(mStorage))
      ensures World(vs) && OthersKept(vs)
      ensures code == if index > old(mCount) then BAD_INDEX
                      else if items == [] && index == old(Capacity()) then NO_MEMORY else index
      ensures Contents() == if index > |old(Contents())| then old(Contents())
                            else Inserted(old(Contents()), index, items)
      ensures mStorage == old(mStorage) || fresh(mStorage)
      ensures index <= old(mCount) ==>
        Capacity() == if old(Capacity()) < mCount then GrownCapacity(mCount) else old(Capacity())
    {
      hide Sound, World;
      CountsItems(vs);
      if index > mCount { return BAD_INDEX; }
      ghost var before := Contents();
      var ok := Grow(vs, index, |items|);
      if ok { CopyInto(vs, index, items); }
      InsertedParts(before, index, items, Contents());
      code := if ok then index else NO_MEMORY;
    }

    /** do_copy into the gap. */
    method CopyInto(ghost vs: set<Vector<T>>, index: nat, items: seq<T>)
      requires this in vs && World(vs) && Unique() && mStorage != null && index + |items| <= mCount
      modifies this, mStorage
      ensures World(vs) && OthersKept(vs) && mStorage == old(mStorage) && Settled(mStorage)
      ensures mCount == old(mCount) == |Contents()| == |old(Contents())| && Capacity() == old(Capacity())
      ensures Contents() == old(Contents())[..index] + items + old(Contents())[index + |items|..]
    {
      hide Sound, World;
      HasStorage(vs);
      var raw := mStorage.data;
      FillGap(raw, index, items, mCount);
      Rewrite(vs, raw[..index] + items + raw[index + |items|..], mCount);
    }

    /** insertAt(item, index, numItems), add and push with numItems == 1. */
    method InsertAt(ghost vs: set<Vector<T>>, item: T, index: nat, numItems: nat) returns (code: int)
      requires this in vs && World(vs)
      modifies this, Held()
      ensures Settled(old(mStorage))
      ensures World(vs) && OthersKept(vs)
      ensures code == if index > old(mCount) then BAD_INDEX
                      else if numItems == 0 && index == old(Capacity()) then NO_MEMORY else index
      ensures Contents() == if index > |old(Contents())| then old(Contents())
                            else Inserted(old(Contents()), index, seq(numItems, _ => item))
      ensures mStorage == old(mStorage) || fresh(mStorage)
      ensures index <= old(mCount) ==>
        Capacity() == if old(Capacity()) < mCount then GrownCapacity(mCount) else old(Capacity())
    {
      code := InsertArrayAt(vs, seq(numItems, _ => item), index);
    }

    method Add(ghost vs: set<Vector<T>>, item: T) returns (code: int)
      requires this in vs && World(vs)
      modifies this, Held()
      ensures Settled(old(mStorage))
      ensures World(vs) && OthersKept(vs)
      ensures code == old(mCount)
      ensures Contents() == old(Contents()) + [item]
      ensures mStorage == old(mStorage) || fresh(mStorage)
      ensures mCount == old(mCount) + 1
      ensures Capacity() == if old(Capacity()) < mCount then GrownCapacity(mCount) else old(Capacity())
    {
      CountsItems(vs);
      code := InsertAt(vs, item, mCount, 1);
      CountsItems(vs);
    }

    method ReplaceAt(ghost vs: set<Vector<T>>, item: T, index: nat) returns (code: int)
      requires this in vs && World(vs)
      modifies this, Held()
      ensures Settled(old(mStorage))
      ensures World(vs) && OthersKept(vs)
      ensures mStorage == old(mStorage) || fresh(mStorage)
      ensures code == if index >= |old(Contents())| then BAD_INDEX else index
      ensures Contents() == if index >= |old(Contents())| then old(Contents()) else old(Contents())[index := item]
    {
      hide Sound, World;
      CountsItems(vs);
      if index >= mCount { return BAD_INDEX; }
      ghost var before := Contents();
      EditArray(vs);
      HasStorage(vs);
      Rewrite(vs, mStorage.data[index := item], mCount);
      assert Contents() == before[index := item];
      code := index;
    }

    method RemoveItemsAt(ghost vs: set<Vector<T>>, index: nat, count: nat) returns (code: int)
      requires this in vs && World(vs)
      modifies this, Held()
      ensures Settled(old(mStorage))
      ensures mStorage == old(mStorage) || fresh(mStorage)
      ensures World(vs) && OthersKept(vs)
      ensures code == if index + count > |old(Contents())| then BAD_VALUE else index
      ensures Contents() == if index + count > |old(Contents())| then old(Contents())
                            else Removed(old(Contents()), index, count)
    {
      hide Sound, World;
      CountsItems(vs);
      if index + count > mCount { return BAD_VALUE; }
      Shrink(vs, index, count);
      code := index;
    }

    method Clear(ghost vs: set<Vector<T>>)
      requires this in vs && World(vs)
      modifies this, Held()
      ensures Settled(old(mStorage))
      ensures mStorage == old(mStorage) || fresh(mStorage)
      ensures World(vs) && OthersKept(vs)
      ensures Contents() == []
    {
      hide Sound, World;
      CountsItems(vs);
      Shrink(vs, 0, mCount);
    }

    method SetCapacity(ghost vs: set<Vector<T>>, capacity: nat) returns (code: int)
      requires this in vs && World(vs)
      modifies this, Held()
      ensures Settled(old(mStorage))
      ensures mStorage == old(mStorage) || fresh(mStorage)
      ensures World(vs) && OthersKept(vs)
      ensures Contents() == old(Contents())
      ensures code == Capacity() == if capacity <= |Contents()| then old(Capacity()) else capacity
    {
      hide Sound, World;
      CountsItems(vs);
      if capacity <= mCount { return Capacity(); }
      var rest := Raw(capacity - mCount);
      ghost var before := Contents();
      var items := [];
      if mStorage != null {
        assert mStorage.data[..mCount] == before;
        items := mStorage.data[..mCount];
      }
      MoveTo(vs, items + rest, mCount);
      assert Contents() == before;
      code := capacity;
    }

    /** resize: new items are default-constructed, `blank`. */
    method Resize(ghost vs: set<Vector<T>>, blank: T, size: nat) returns (code: int)
      requires this in vs && World(vs)
      modifies this, Held()
      ensures Settled(old(mStorage))
      ensures mStorage == old(mStorage) || fresh(mStorage)
      ensures World(vs) && OthersKept(vs)
      ensures code == size == |Contents()|
      ensures var was := old(Contents());
              Contents() == if size <= |was| then was[..size] else was + seq(size - |was|, _ => blank)
    {
      CountsItems(vs);
      hide Sound, World;
      code := 0;
      if size > mCount {
        code := InsertAt(vs, blank, mCount, size - mCount);
      } else if size < mCount {
        code := RemoveItemsAt(vs, size, mCount - size);
      }
      if code >= 0 { code := size; }
    }

    /** operator =: from now on both are on one buffer, or neither has one. */
    method Assign(ghost vs: set<Vector<T>>, rhs: Vector<T>)
      requires this in vs && rhs in vs && World(vs)
      modifies this, Held(), rhs.Held()
      ensures this != rhs ==> Settled(old(mStorage))
      ensures this == rhs ==> mStorage == old(mStorage)
      ensures World(vs) && OthersKept(vs)
      ensures Contents() == old(rhs.Contents())
      ensures this != rhs ==> mStorage == if old(rhs.mCount) == 0 then null else rhs.mStorage
    {
      if this != rhs {
        ReleaseStorage(vs);
        if rhs.mCount > 0 {
          Join(vs, rhs);
        }
      }
    }

    /** Acquires the buffer of another vector. */
    method Join(ghost vs: set<Vector<T>>, rhs: Vector<T>)
      requires this in vs && rhs in vs && World(vs) && mStorage == null && rhs.mStorage != null
      modifies this, rhs.mStorage
      ensures World(vs) && OthersKept(vs)
      ensures mStorage == rhs.mStorage && mCount == rhs.mCount
      ensures Contents() == old(rhs.Contents())
    {
      assert Sound(rhs, vs);
      assert forall u <- vs | u.mStorage != null :: Sound(u, vs) && this !in u.mStorage.owners;
      mStorage, mCount := rhs.mStorage, rhs.mCount;
      mStorage.Acquire(this);
      forall u <- vs ensures Sound(u, vs) {
        assert old(Sound(u, vs));
      }
    }

    lemma CountsItems(vs: set<Vector<T>>)
      requires this in vs && World(vs)
      ensures |Contents()| == mCount <= Capacity() && Settled(mStorage)
    {
      assert Sound(this, vs);
    }

    lemma HasStorage(vs: set<Vector<T>>)
      requires this in vs && World(vs) && mStorage != null
      ensures mStorage != null && |Contents()| == mCount <= |mStorage.data|
      ensures mStorage.data[..mCount] == Contents()
    {
      assert Sound(this, vs);
    }
  }

  lemma OpenGap<T>(raw: seq<T>, at: nat, amount: nat, count: nat)
    requires at <= count && count + amount <= |raw|
    ensures var moved := raw[..at + amount] + raw[at..count] + raw[count + amount..];
            && |moved| == |raw|
            && moved[..count + amount][..at] == raw[..count][..at]
            && moved[..count + amount][at + amount..] == raw[..count][at..]
  {
  }

  lemma InsertedParts<T>(s: seq<T>, at: nat, items: seq<T>, r: seq<T>)
    requires at <= |s| && |r| == |s| + |items|
    requires r[..at] == s[..at] && r[at..at + |items|] == items && r[at + |items|..] == s[at..]
    ensures r == Inserted(s, at, items)
  {
    assert r == r[..at] + r[at..at + |items|] + r[at + |items|..];
  }

  lemma FillGap<T>(raw: seq<T>, at: nat, items: seq<T>, count: nat)
    requires at + |items| <= count <= |raw|
    ensures (raw[..at] + items + raw[at + |items|..])[..count]
         == raw[..count][..at] + items + raw[..count][at + |items|..]
  {
  }

  lemma Layout<T>(a: seq<T>, gap: seq<T>, b: seq<T>, rest: seq<T>)
    ensures var s := (a + gap + b + rest)[..|a| + |gap| + |b|];
            s[..|a|] == a && s[|a| + |gap|..] == b
  {
  }
}
