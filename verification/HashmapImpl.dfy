/** The hash map object: buckets and size changed in place. */
module HashmapImpl {
  import opened Common
  import opened Hashmap

  /** What a callback of hashmapForEach does with an entry, besides looking at it. */
  datatype Visit = Visit(remove: bool, go: bool)

  /** The stored key that equals `k`. */
  ghost function KeyIn<K(!new), V>(m: map<K, V>, k: K, eq: (K, K) -> bool): (r: Option<K>)
    ensures r.Some? ==> r.value in m && eq(r.value, k)
    ensures r.None? ==> forall a <- m :: !eq(a, k)
  {
    if exists a :: a in m && eq(a, k) then
      var a :| a in m && eq(a, k);
      Some(a)
    else None
  }

  ghost function Put<K(!new), V>(m: map<K, V>, k: K, v: V, eq: (K, K) -> bool): map<K, V> {
    match KeyIn(m, k, eq)
    case Some(a) => m[a := v]
    case None => m[k := v]
  }

  ghost function Got<K(!new), V>(m: map<K, V>, k: K, eq: (K, K) -> bool): Option<V> {
    match KeyIn(m, k, eq)
    case Some(a) => Some(m[a])
    case None => None
  }

  ghost function Dropped<K(!new), V>(m: map<K, V>, k: K, eq: (K, K) -> bool): map<K, V> {
    match KeyIn(m, k, eq)
    case Some(a) => m - {a}
    case None => m
  }

  /** With equals the identity these are the plain map operations. */
  lemma OnIdentity<K(!new), V>(m: map<K, V>, k: K, v: V, eq: (K, K) -> bool)
    requires forall a, b :: eq(a, b) <==> a == b
    ensures Put(m, k, v, eq) == m[k := v]
    ensures Got(m, k, eq) == if k in m then Some(m[k]) else None
    ensures Dropped(m, k, eq) == m - {k}
  {
    if k !in m {
      assert KeyIn(m, k, eq) == None;
    } else {
      assert eq(k, k);
      assert KeyIn(m, k, eq) == Some(k);
    }
  }

  ghost function RemovedKeys<K(!new), V>(ps: seq<(K, V)>, act: (K, V) -> Visit): set<K> {
    set p <- ps | act(p.0, p.1).remove :: p.0
  }

  lemma RemovedOneMore<K(!new), V>(m: map<K, V>, ps: seq<(K, V)>, k: K, v: V, act: (K, V) -> Visit)
    ensures m - RemovedKeys(ps + [(k, v)], act) ==
            if act(k, v).remove then m - RemovedKeys(ps, act) - {k} else m - RemovedKeys(ps, act)
  {
    var more := RemovedKeys(ps, act) + if act(k, v).remove then {k} else {};
    assert (forall x :: x in RemovedKeys(ps + [(k, v)], act) <==> x in more) by {
      assert forall p :: p in ps + [(k, v)] <==> p in ps || p == (k, v);
    }
    assert RemovedKeys(ps + [(k, v)], act) == more;
  }

  lemma StartListing<K(!new), V>(bs: seq<seq<Entry<K, V>>>, m: map<K, V>, act: (K, V) -> Visit)
    ensures Listing(bs[..0]) == [] && m - RemovedKeys([], act) == m
  {
  }

  /** A walk along the pairs `ps` has come to `seen`, and goes on or was stopped by
      the last of them. */
  ghost predicate Walked<K(!new), V>(seen: seq<(K, V)>, ps: seq<(K, V)>, act: (K, V) -> Visit, go: bool) {
    && seen <= ps
    && (forall k :: 0 <= k < |seen| && (go || k < |seen| - 1) ==> act(seen[k].0, seen[k].1).go)
    && (!go ==> seen != [] && !act(seen[|seen| - 1].0, seen[|seen| - 1].1).go)
  }

  lemma WalkStarts<K(!new), V>(ps: seq<(K, V)>, act: (K, V) -> Visit)
    ensures Walked([], ps, act, true)
  {
  }

  lemma WalkGoesOn<K(!new), V>(seen: seq<(K, V)>, ps: seq<(K, V)>, act: (K, V) -> Visit)
    requires Walked(seen, ps, act, true) && |seen| < |ps|
    ensures var p := ps[|seen|]; Walked(seen + [p], ps, act, act(p.0, p.1).go)
  {
  }

  /** One more entry of the walk, which its callback may have removed. */
  lemma WalkStep<K(!new), V>(seen: seq<(K, V)>, ps: seq<(K, V)>, before: seq<(K, V)>, m: map<K, V>,
                             act: (K, V) -> Visit)
    requires Walked(seen, ps, act, true) && |seen| < |ps| && seen == ps[..|seen|]
    ensures var p := ps[|seen|];
            && Walked(seen + [p], ps, act, act(p.0, p.1).go)
            && seen + [p] == ps[..|seen| + 1]
            && m - RemovedKeys(before + (seen + [p]), act) ==
                 if act(p.0, p.1).remove then m - RemovedKeys(before + seen, act) - {p.0}
                 else m - RemovedKeys(before + seen, act)
  {
    hide RemovedKeys, Walked;
    var p := ps[|seen|];
    WalkGoesOn(seen, ps, act);
    RemovedOneMore(m, before + seen, p.0, p.1, act);
    assert before + (seen + [p]) == (before + seen) + [p];
  }

  lemma EntryAt<K, V>(chain: seq<Entry<K, V>>, k: nat)
    requires k < |chain|
    ensures Pairs(chain)[k] == (chain[k].key, chain[k].value)
    ensures chain[k..] == [chain[k]] + chain[k + 1..]
  {
  }

  lemma WalkJoins<K(!new), V>(a: seq<(K, V)>, seen: seq<(K, V)>, b: seq<(K, V)>, all: seq<(K, V)>,
                              act: (K, V) -> Visit, go: bool)
    requires Walked(a, all, act, true) && Walked(seen, b, act, go) && a + b <= all
    ensures Walked(a + seen, all, act, go)
  {
  }

  class HashMap<K(==, !new), V(==)> {
    const hash: K -> bv32
    const equals: (K, K) -> bool
    var buckets: array<seq<Entry<K, V>>>
    var size: nat
    ghost var Model: map<K, V>

    ghost function H(): K -> int {
      k => HashKey(hash(k))
    }

    ghost predicate Valid()
      reads this, buckets
    {
      && Table(buckets[..], Model, H(), equals)
      && Congruent(H(), equals)
      && size == |Model|
      && PowerOfTwo(buckets.Length)
    }

    /** At most three quarters as many entries as buckets. */
    ghost predicate Roomy()
      reads this
    {
      size <= buckets.Length * 3 / 4
    }

    /** hashmapCreate: the least power of two above 4/3 of the capacity asked for. */
    constructor (initialCapacity: nat, hash: K -> bv32, equals: (K, K) -> bool)
      requires Congruent(k => HashKey(hash(k)), equals)
      ensures Valid() && Roomy() && Model == map[] && fresh(buckets)
      ensures this.hash == hash && this.equals == equals
      ensures buckets.Length > initialCapacity * 4 / 3
      ensures buckets.Length == 1 || buckets.Length / 2 <= initialCapacity * 4 / 3
    {
      this.hash, this.equals := hash, equals;
      var minimum := initialCapacity * 4 / 3;
      var count := 1;
      while count <= minimum
        invariant count > 0 && PowerOfTwo(count)
        invariant count == 1 || count / 2 <= minimum
        decreases minimum - count
      {
        count := count * 2;
      }
      buckets := new seq<Entry<K, V>>[count](_ => []);
      size := 0;
      Model := map[];
    }

    /** Walks one chain; the place of the entry with an equal key, or the end. */
    method Search(chain: seq<Entry<K, V>>, key: K, h: int) returns (j: nat)
      requires Congruent(H(), equals) && h == H()(key)
      requires forall e <- chain :: e.hash == H()(e.key)
      ensures j <= |chain|
      ensures forall i :: 0 <= i < j ==> !equals(chain[i].key, key)
      ensures j < |chain| ==> equals(chain[j].key, key)
    {
      j := 0;
      while j < |chain|
        invariant j <= |chain|
        invariant forall i :: 0 <= i < j ==> !equals(chain[i].key, key)
      {
        EqualKeysIsEquals(chain[j].key, key, H(), equals);
        if EqualKeys(chain[j].key, chain[j].hash, key, h, equals) { return; }
        j := j + 1;
      }
    }

    /** What a search of the selected chain says about the whole map. */
    lemma Searched(key: K, j: nat)
      requires Valid()
      requires var chain := buckets[Index(buckets.Length, H()(key))];
               && j <= |chain|
               && (forall i :: 0 <= i < j ==> !equals(chain[i].key, key))
               && (j < |chain| ==> equals(chain[j].key, key))
      ensures var chain := buckets[Index(buckets.Length, H()(key))];
              if j < |chain| then
                chain[j].key in Model && Model[chain[j].key] == chain[j].value
                && KeyIn(Model, key, equals) == Some(chain[j].key)
              else KeyIn(Model, key, equals) == None && key !in Model
    {
      var chain := buckets[..][Index(buckets.Length, H()(key))];
      if j < |chain| {
        var e := chain[j];
        assert Stored(e, Model, H()) by { assert e in chain; }
        KeyIsUnique(key, e.key);
      } else {
        NotStored(buckets[..], Model, key, H(), equals);
      }
    }

    lemma KeyIsUnique(key: K, a: K)
      requires Valid() && a in Model && equals(a, key)
      ensures KeyIn(Model, key, equals) == Some(a)
    {
      var b := KeyIn(Model, key, equals).value;
      assert equals(key, b);
      assert equals(a, b);
      KeysDiffer(buckets[..], Model, a, b, H(), equals);
    }

    method Get(key: K) returns (value: Option<V>)
      requires Valid()
      ensures value == Got(Model, key, equals)
    {
      var h := HashKey(hash(key));
      var i := Index(buckets.Length, h);
      var chain := buckets[i];
      assert buckets[..][i] == chain;
      hide HashKey;
      var j := Search(chain, key, h);
      Searched(key, j);
      value := if j < |chain| then Some(chain[j].value) else None;
    }

    /** The value replaced, if the map had an equal key, which stays. */
    method PutValue(key: K, value: V, canAllocate: bool) returns (previous: Option<V>)
      requires Valid()
      modifies this, buckets
      ensures Valid() && (buckets == old(buckets) || fresh(buckets))
      ensures Model == Put(old(Model), key, value, equals)
      ensures previous == Got(old(Model), key, equals)
      ensures canAllocate && old(Roomy()) ==> Roomy()
    {
      hide HashKey, Table, Congruent;
      var h := HashKey(hash(key));
      var i := Index(buckets.Length, h);
      var chain := buckets[i];
      ghost var bs := buckets[..];
      ChainHashes(i);
      var j := Search(chain, key, h);
      Searched(key, j);
      if j == |chain| {
        NotStored(bs, Model, key, H(), equals);
        TableAdds(bs, Model, key, value, H(), equals, chain + [Entry(key, h, value)]);
        buckets[i] := chain + [Entry(key, h, value)];
        assert buckets[..] == bs[i := chain + [Entry(key, h, value)]];
        size := size + 1;
        Model := Model[key := value];
        ExpandIfNecessary(canAllocate);
        previous := None;
      } else {
        var e := chain[j];
        TableReplaces(bs, Model, i, j, value, H(), equals);
        buckets[i] := chain[j := e.(value := value)];
        assert buckets[..] == bs[i := chain[j := e.(value := value)]];
        Model := Model[e.key := value];
        previous := Some(e.value);
      }
    }

    lemma ChainHashes(i: nat)
      requires Valid() && i < buckets.Length
      ensures forall e <- buckets[i] :: e.hash == H()(e.key)
      ensures buckets[..][i] == buckets[i]
    {
      assert forall e <- buckets[..][i] :: Stored(e, Model, H());
    }

    /** The value removed, if there was one. */
    method Remove(key: K) returns (value: Option<V>, ghost j: nat)
      requires Valid()
      modifies this`size, this`Model, buckets
      ensures Valid()
      ensures Model == Dropped(old(Model), key, equals)
      ensures value == Got(old(Model), key, equals)
      ensures forall b :: 0 <= b < buckets.Length && b != Index(buckets.Length, H()(key)) ==>
                buckets[b] == old(buckets[b])
      ensures var b := Index(buckets.Length, H()(key));
              if value.None? then buckets[b] == old(buckets[b])
              else j < |old(buckets[b])| && equals(old(buckets[b])[j].key, key)
                   && buckets[b] == Cut(old(buckets[b]), j)
    {
      hide HashKey, Table, Congruent;
      var h := HashKey(hash(key));
      var i := Index(buckets.Length, h);
      var chain := buckets[i];
      ghost var bs := buckets[..];
      ChainHashes(i);
      var place := Search(chain, key, h);
      Searched(key, place);
      value, j := None, place;
      if place < |chain| {
        TableRemoves(bs, Model, i, place, H(), equals);
        buckets[i] := Cut(chain, place);
        assert buckets[..] == bs[i := Cut(chain, place)];
        size := size - 1;
        Model := Model - {chain[place].key};
        value := Some(chain[place].value);
      }
    }

    /** hashmapForEach: the next entry is noted before the callback, which may
        remove the one it is given. */
    method ForEach(act: (K, V) -> Visit) returns (visited: seq<(K, V)>, go: bool)
      requires Valid()
      modifies this`size, this`Model, buckets
      ensures Valid()
      ensures Walked(visited, Listing(old(buckets[..])), act, go)
      ensures go ==> visited == Listing(old(buckets[..]))
      ensures Model == old(Model) - RemovedKeys(visited, act)
    {
      hide HashKey, Table, Congruent, PowerOfTwo, Listing, RemovedKeys, Walked;
      ghost var bs := buckets[..];
      ghost var m := Model;
      visited, go := [], true;
      StartListing(bs, m, act);
      WalkStarts(Listing(bs), act);
      for i := 0 to buckets.Length
        invariant Valid() && |bs| == buckets.Length && go
        invariant visited == Listing(bs[..i]) && Walked(visited, Listing(bs), act, true)
        invariant Model == m - RemovedKeys(visited, act)
        invariant forall b :: i <= b < |bs| ==> buckets[b] == bs[b]
      {
        var seen;
        seen, go := VisitChain(i, act, bs[i], m, visited);
        ListingGrows(bs, i);
        ListingPrefix(bs, i + 1);
        WalkJoins(visited, seen, Pairs(bs[i]), Listing(bs), act, go);
        visited := visited + seen;
        if !go { return; }
      }
      assert bs[..|bs|] == bs;
    }

    /** One chain of the walk. */
    method VisitChain(i: nat, act: (K, V) -> Visit, ghost chain: seq<Entry<K, V>>, ghost m: map<K, V>,
                      ghost before: seq<(K, V)>)
      returns (seen: seq<(K, V)>, go: bool)
      requires Valid() && i < buckets.Length && buckets[i] == chain
      requires Model == m - RemovedKeys(before, act)
      modifies this`size, this`Model, buckets
      ensures Valid() && Model == m - RemovedKeys(before + seen, act)
      ensures Walked(seen, Pairs(chain), act, go) && (go ==> seen == Pairs(chain))
      ensures forall b :: 0 <= b < buckets.Length && b != i ==> buckets[b] == old(buckets[b])
    {
      hide Valid, HashKey, Table, Congruent, PowerOfTwo, RemovedKeys, Walked, Pairs;
      seen, go := [], true;
      assert before + seen == before;
      ghost var ps := Pairs(chain);
      WalkStarts(ps, act);
      var entry := buckets[i];
      ghost var kept: seq<Entry<K, V>> := [];
      while entry != []
        invariant Valid() && |seen| <= |chain| && go
        invariant entry == chain[|seen|..] && buckets[i] == kept + entry
        invariant Walked(seen, ps, act, true) && seen == ps[..|seen|]
        invariant Model == m - RemovedKeys(before + seen, act)
        invariant forall b :: 0 <= b < buckets.Length && b != i ==> buckets[b] == old(buckets[b])
        decreases |entry|
      {
        var e := entry[0];
        var next := entry[1..];
        assert entry == [e] + next;
        EntryAt(chain, |seen|);
        WalkStep(seen, ps, before, m, act);
        seen := seen + [(e.key, e.value)];
        go, kept := VisitEntry(i, act, kept, e, next);
        if !go { return; }
        entry := next;
      }
    }

    /** The callback on one entry, which it may remove. */
    method VisitEntry(i: nat, act: (K, V) -> Visit, ghost kept: seq<Entry<K, V>>, e: Entry<K, V>,
                      ghost next: seq<Entry<K, V>>)
      returns (go: bool, ghost left: seq<Entry<K, V>>)
      requires Valid() && i < buckets.Length && buckets[i] == kept + ([e] + next)
      modifies this`size, this`Model, buckets
      ensures Valid() && go == act(e.key, e.value).go
      ensures Model == if act(e.key, e.value).remove then old(Model) - {e.key} else old(Model)
      ensures buckets[i] == left + next
      ensures forall b :: 0 <= b < buckets.Length && b != i ==> buckets[b] == old(buckets[b])
    {
      hide HashKey, Table, Congruent, PowerOfTwo;
      var visit := act(e.key, e.value);
      left := if visit.remove then kept else kept + [e];
      if visit.remove {
        RemoveCurrent(i, kept, e, next);
      } else {
        assert kept + ([e] + next) == left + next;
      }
      go := visit.go;
    }

    /** Removing the entry in hand takes it out from between its neighbours. */
    method RemoveCurrent(i: nat, ghost kept: seq<Entry<K, V>>, e: Entry<K, V>, ghost next: seq<Entry<K, V>>)
      requires Valid() && i < buckets.Length && buckets[i] == kept + ([e] + next)
      modifies this`size, this`Model, buckets
      ensures Valid() && Model == old(Model) - {e.key}
      ensures buckets[i] == kept + next
      ensures forall b :: 0 <= b < buckets.Length && b != i ==> buckets[b] == old(buckets[b])
    {
      hide Valid, HashKey, Table, Congruent, PowerOfTwo, KeyIn, Index;
      ghost var chain := buckets[i];
      assert chain[|kept|] == e;
      InTable(i, |kept|);
      SelfEqual(e.key);
      KeyIsUnique(e.key, e.key);
      OnlyOne(i, |kept|);
      var _, j := Remove(e.key);
      assert j == |kept| && Cut(chain, j) == kept + next;
    }

    lemma SelfEqual(k: K)
      requires Valid()
      ensures equals(k, k)
    {
    }

    lemma OnlyOne(i: nat, j: nat)
      requires Valid() && i < buckets.Length && j < |buckets[i]|
      ensures forall a :: 0 <= a < |buckets[i]| && equals(buckets[i][a].key, buckets[i][j].key) ==> a == j
    {
      assert Distinct(buckets[..][i], equals);
    }

    /** expandIfNecessary: every entry moves to the front of its chain in a table
        twice as large. */
    method ExpandIfNecessary(canAllocate: bool)
      requires Valid()
      modifies this`buckets
      ensures Valid() && (buckets == old(buckets) || fresh(buckets))
      ensures buckets.Length == if canAllocate && size > old(buckets.Length) * 3 / 4 then 2 * old(buckets.Length)
                                else old(buckets.Length)
    {
      hide HashKey, Table, Congruent, Moved, PowerOfTwo;
      if size <= buckets.Length * 3 / 4 || !canAllocate { return; }
      var n := buckets.Length;
      DoubledPower(n);
      var wider := EmptyBuckets(n * 2);
      ghost var moved: map<K, V> := map[];
      NoneMoved();
      for i := 0 to n
        invariant Valid() && Table(wider[..], moved, H(), equals)
        invariant Moved(moved, i, [])
        modifies wider
      {
        moved := MoveChain(wider, i, moved);
        ChainMoved(moved, i);
      }
      AllMoved(moved);
      buckets := wider;
    }

    lemma DoubledPower(n: nat)
      requires PowerOfTwo(n)
      ensures PowerOfTwo(n * 2)
    {
    }

    /** calloc of `n` empty chains. */
    method EmptyBuckets(n: nat) returns (bs: array<seq<Entry<K, V>>>)
      requires n > 0
      ensures fresh(bs) && bs.Length == n && Table(bs[..], map[], H(), equals)
    {
      bs := new seq<Entry<K, V>>[n](_ => []);
      EmptyTable(bs[..], H(), equals);
    }

    lemma NoneMoved()
      requires buckets.Length > 0
      ensures Moved(map[], 0, [])
    {
    }

    method MoveChain(wider: array<seq<Entry<K, V>>>, i: nat, ghost before: map<K, V>) returns (ghost moved: map<K, V>)
      requires Valid() && i < buckets.Length && wider != buckets && wider.Length > 0
      requires Table(wider[..], before, H(), equals) && Moved(before, i, [])
      modifies wider
      ensures Table(wider[..], moved, H(), equals) && Moved(moved, i, buckets[i])
    {
      hide HashKey, Table, Congruent, Moved;
      moved := before;
      ghost var done: seq<Entry<K, V>> := [];
      var entry := buckets[i];
      while entry != []
        invariant Valid() && done + entry == buckets[i]
        invariant Table(wider[..], moved, H(), equals)
        invariant Moved(moved, i, done)
        decreases |entry|
      {
        var e := entry[0];
        ghost var was := wider[..];
        assert buckets[..][i][|done|] == e;
        InTable(i, |done|);
        assert buckets[i] == done + ([e] + entry[1..]);
        StillToMove(moved, i, done, e, entry[1..]);
        MovedOneMore(moved, i, done, e);
        var index := Index(wider.Length, e.hash);
        TableAdds(was, moved, e.key, e.value, H(), equals, [e] + was[index]);
        wider[index] := [e] + wider[index];
        assert wider[..] == was[index := [e] + was[index]];
        moved := moved[e.key := e.value];
        done := done + [e];
        entry := entry[1..];
      }
      assert done == buckets[i];
    }

    lemma InTable(i: nat, j: nat)
      requires Valid() && i < buckets.Length && j < |buckets[i]|
      ensures var e := buckets[i][j]; Stored(e, Model, H()) && Index(buckets.Length, e.hash) == i
    {
      assert buckets[..][i][j] in buckets[..][i];
    }

    /** The entries of the chains before `i`, and of chain `i` those in `done`. */
    ghost predicate Moved(moved: map<K, V>, i: nat, done: seq<Entry<K, V>>)
      requires buckets.Length > 0
      reads this, buckets
    {
      && (forall k <- moved :: k in Model && moved[k] == Model[k])
      && (forall k <- Model :: k in moved <==>
            (Index(buckets.Length, H()(k)) < i
             || (Index(buckets.Length, H()(k)) == i && exists a :: 0 <= a < |done| && done[a].key == k)))
    }

    lemma StillToMove(moved: map<K, V>, i: nat, done: seq<Entry<K, V>>, e: Entry<K, V>, rest: seq<Entry<K, V>>)
      requires Valid() && i < buckets.Length && buckets[i] == done + ([e] + rest)
      requires Moved(moved, i, done)
      requires Stored(e, Model, H()) && Index(buckets.Length, e.hash) == i
      ensures forall a <- moved :: !equals(a, e.key)
    {
      var chain := buckets[..][i];
      assert chain[|done|] == e && Distinct(chain, equals);
      assert forall a :: 0 <= a < |done| ==> chain[a] == done[a];
      assert equals(e.key, e.key);
      assert e.key !in moved;
      hide HashKey, Table, Congruent, Distinct;
      forall a | a in moved ensures !equals(a, e.key) {
        if equals(a, e.key) { KeysDiffer(buckets[..], Model, a, e.key, H(), equals); }
      }
    }

    lemma MovedOneMore(moved: map<K, V>, i: nat, done: seq<Entry<K, V>>, e: Entry<K, V>)
      requires buckets.Length > 0 && Moved(moved, i, done)
      requires Stored(e, Model, H()) && Index(buckets.Length, e.hash) == i
      ensures Moved(moved[e.key := e.value], i, done + [e])
    {
      hide HashKey, Index;
      var longer := done + [e];
      assert longer[|done|] == e;
      assert forall a :: 0 <= a < |done| ==> longer[a] == done[a];
    }

    lemma ChainMoved(moved: map<K, V>, i: nat)
      requires Valid() && i < buckets.Length && Moved(moved, i, buckets[i])
      ensures Moved(moved, i + 1, [])
    {
      hide HashKey;
      var chain := buckets[..][i];
      forall k | k in Model && Index(buckets.Length, H()(k)) == i ensures k in moved {
        assert Entry(k, H()(k), Model[k]) in chain;
      }
    }

    lemma AllMoved(moved: map<K, V>)
      requires Valid() && Moved(moved, buckets.Length, [])
      ensures moved == Model
    {
      hide HashKey;
      assert (forall k :: k in moved <==> k in Model) && (forall k <- Model :: moved[k] == Model[k]) ==> moved == Model;
    }
  }

  lemma EmptyTable<K, V>(bs: seq<seq<Entry<K, V>>>, h: K -> int, eq: (K, K) -> bool)
    requires |bs| > 0 && (forall i :: 0 <= i < |bs| ==> bs[i] == [])
    ensures Table(bs, map[], h, eq)
  {
  }
}
