/** The chained hash map of libcutils: what its table stands for, and that each way
    of changing a chain keeps it so.  A chain is the sequence of its entries. */
module Hashmap {
  import opened Common

  datatype Entry<K, V> = Entry(key: K, hash: int, value: V)

  // --------------------------------------------------------------------------- hashing

  /** Doug Lea's supplemental hash, on the 32 bits of the int. */
  function Spread(h0: bv32): bv32 {
    var h1 := h0 + !(h0 << 9);
    var h2 := h1 ^ (h1 >> 14);
    var h3 := h2 + (h2 << 4);
    h3 ^ (h3 >> 10)
  }

  /** The signed int the 32 bits stand for. */
  function Signed(h: bv32): int {
    if h as int < 0x8000_0000 then h as int else h as int - 0x1_0000_0000
  }

  function HashKey(h: bv32): int {
    Signed(Spread(h))
  }

  /** calculateIndex.  Masking a two's complement number with a power of two less one
      is the remainder that is never negative. */
  function Index(bucketCount: nat, hash: int): (i: nat)
    requires bucketCount > 0
    ensures i < bucketCount
  {
    hash % bucketCount
  }

  predicate PowerOfTwo(n: nat) {
    n == 1 || (n > 1 && n % 2 == 0 && PowerOfTwo(n / 2))
  }

  // --------------------------------------------------------------------------- the keys

  /** equals is an equivalence, and equal keys have the same hash. */
  ghost predicate Congruent<K(!new)>(h: K -> int, eq: (K, K) -> bool) {
    && (forall a :: eq(a, a))
    && (forall a, b :: eq(a, b) ==> eq(b, a) && h(a) == h(b))
    && (forall a, b, c :: eq(a, b) && eq(b, c) ==> eq(a, c))
  }

  /** equalKeys, with its two short cuts. */
  predicate EqualKeys<K(==)>(a: K, hashA: int, b: K, hashB: int, eq: (K, K) -> bool) {
    a == b || (hashA == hashB && eq(a, b))
  }

  lemma EqualKeysIsEquals<K(!new)>(a: K, b: K, h: K -> int, eq: (K, K) -> bool)
    requires Congruent(h, eq)
    ensures EqualKeys(a, h(a), b, h(b), eq) <==> eq(a, b)
  {
  }

  // --------------------------------------------------------------------------- the table

  predicate Distinct<K, V>(chain: seq<Entry<K, V>>, eq: (K, K) -> bool) {
    forall a, b :: 0 <= a < b < |chain| ==> !eq(chain[a].key, chain[b].key)
  }

  predicate Stored<K, V(==)>(e: Entry<K, V>, m: map<K, V>, h: K -> int) {
    e.key in m && m[e.key] == e.value && e.hash == h(e.key)
  }

  /** `bs` holds exactly the entries of `m`, each in the bucket its hash selects. */
  ghost predicate Table<K, V>(bs: seq<seq<Entry<K, V>>>, m: map<K, V>, h: K -> int, eq: (K, K) -> bool) {
    && |bs| > 0
    && (forall i :: 0 <= i < |bs| ==> Distinct(bs[i], eq))
    && (forall i :: 0 <= i < |bs| ==> forall e <- bs[i] :: Stored(e, m, h) && Index(|bs|, e.hash) == i)
    && (forall k <- m :: Entry(k, h(k), m[k]) in bs[Index(|bs|, h(k))])
  }

  function Cut<T>(s: seq<T>, j: nat): seq<T>
    requires j < |s|
  {
    s[..j] + s[j + 1..]
  }

  /** Stored keys are pairwise unequal, in whatever buckets they are. */
  lemma KeysDiffer<K(!new), V>(bs: seq<seq<Entry<K, V>>>, m: map<K, V>, a: K, b: K, h: K -> int, eq: (K, K) -> bool)
    requires Congruent(h, eq) && Table(bs, m, h, eq)
    requires a in m && b in m && eq(a, b)
    ensures a == b
  {
    var chain := bs[Index(|bs|, h(a))];
    var i :| 0 <= i < |chain| && chain[i] == Entry(a, h(a), m[a]);
    var j :| 0 <= j < |chain| && chain[j] == Entry(b, h(b), m[b]);
    assert eq(b, a) && Distinct(chain, eq);
  }

  /** A key with no equal in its chain has none in the map. */
  lemma NotStored<K(!new), V>(bs: seq<seq<Entry<K, V>>>, m: map<K, V>, k: K, h: K -> int, eq: (K, K) -> bool)
    requires Congruent(h, eq) && Table(bs, m, h, eq)
    requires forall e <- bs[Index(|bs|, h(k))] :: !eq(e.key, k)
    ensures forall a <- m :: !eq(a, k)
  {
    forall a | a in m ensures !eq(a, k) {
      assert Entry(a, h(a), m[a]) in bs[Index(|bs|, h(a))];
    }
  }

  lemma TableAdds<K(!new), V>(bs: seq<seq<Entry<K, V>>>, m: map<K, V>, k: K, v: V, h: K -> int, eq: (K, K) -> bool,
                              chain: seq<Entry<K, V>>)
    requires Congruent(h, eq) && Table(bs, m, h, eq)
    requires forall a <- m :: !eq(a, k)
    requires var i := Index(|bs|, h(k));
             chain == bs[i] + [Entry(k, h(k), v)] || chain == [Entry(k, h(k), v)] + bs[i]
    ensures k !in m && Table(bs[Index(|bs|, h(k)) := chain], m[k := v], h, eq)
  {
    var i, e := Index(|bs|, h(k)), Entry(k, h(k), v);
    assert eq(k, k);
    assert forall x <- bs[i] :: x.key in m && !eq(x.key, k) && !eq(k, x.key);
    assert forall x :: x in chain <==> x == e || x in bs[i];
    hide Congruent, Index;
  }

  lemma TableReplaces<K(!new), V>(bs: seq<seq<Entry<K, V>>>, m: map<K, V>, i: nat, j: nat, v: V, h: K -> int,
                                  eq: (K, K) -> bool)
    requires Congruent(h, eq) && Table(bs, m, h, eq) && i < |bs| && j < |bs[i]|
    ensures var e := bs[i][j];
            e.key in m && Table(bs[i := bs[i][j := e.(value := v)]], m[e.key := v], h, eq)
  {
    var c, e, replaced := bs[i], bs[i][j], bs[i][j].(value := v);
    assert eq(e.key, e.key);
    assert forall a :: 0 <= a < |c| && a != j ==> c[a].key != e.key;
    OneReplaced(c, j, v);
    assert Distinct(c[j := replaced], eq);
    hide Congruent, Index, Distinct;
  }

  /** One entry with a new value, among others of other keys. */
  lemma OneReplaced<K(!new), V>(c: seq<Entry<K, V>>, j: nat, v: V)
    requires j < |c| && forall a :: 0 <= a < |c| && a != j ==> c[a].key != c[j].key
    ensures var r := c[j].(value := v);
      forall x :: x in c[j := r] <==> x == r || (x in c && x.key != r.key)
  {
    var r := c[j].(value := v);
    var d := c[j := r];
    assert d[j] == r;
    forall x | x in c && x.key != r.key ensures x in d {
      var a :| 0 <= a < |c| && c[a] == x;
      assert d[a] == x;
    }
  }

  lemma TableRemoves<K(!new), V>(bs: seq<seq<Entry<K, V>>>, m: map<K, V>, i: nat, j: nat, h: K -> int,
                                 eq: (K, K) -> bool)
    requires Congruent(h, eq) && Table(bs, m, h, eq) && i < |bs| && j < |bs[i]|
    ensures var e := bs[i][j];
            e.key in m && Table(bs[i := Cut(bs[i], j)], m - {e.key}, h, eq)
  {
  }

  // ---------------------------------------------------------------------- the listing

  function Pairs<K, V>(chain: seq<Entry<K, V>>): (ps: seq<(K, V)>)
    ensures |ps| == |chain|
    ensures forall i :: 0 <= i < |ps| ==> ps[i] == (chain[i].key, chain[i].value)
  {
    if chain == [] then [] else [(chain[0].key, chain[0].value)] + Pairs(chain[1..])
  }

  /** The entries in the order hashmapForEach comes to them. */
  function Listing<K, V>(bs: seq<seq<Entry<K, V>>>): seq<(K, V)> {
    if bs == [] then [] else Listing(bs[..|bs| - 1]) + Pairs(bs[|bs| - 1])
  }

  /** `ps` names every pair of `m`, once. */
  ghost predicate Lists<K(!new), V>(ps: seq<(K, V)>, m: map<K, V>) {
    && (forall p <- ps :: p.0 in m && m[p.0] == p.1)
    && (forall k <- m :: (k, m[k]) in ps)
    && (forall i, j :: 0 <= i < j < |ps| ==> ps[i].0 != ps[j].0)
  }

  /** The part of `m` whose keys fall in the first `n` buckets. */
  ghost predicate ListsPart<K(!new), V>(ps: seq<(K, V)>, m: map<K, V>, h: K -> int, count: nat, n: nat)
    requires count > 0
  {
    && (forall p <- ps :: p.0 in m && m[p.0] == p.1 && Index(count, h(p.0)) < n)
    && (forall k <- m :: Index(count, h(k)) < n ==> (k, m[k]) in ps)
    && (forall i, j :: 0 <= i < j < |ps| ==> ps[i].0 != ps[j].0)
  }

  lemma {:induction false} ListingParts<K(!new), V>(bs: seq<seq<Entry<K, V>>>, m: map<K, V>, h: K -> int,
                                                   eq: (K, K) -> bool, n: nat)
    requires Congruent(h, eq) && Table(bs, m, h, eq) && n <= |bs|
    ensures ListsPart(Listing(bs[..n]), m, h, |bs|, n)
  {
    assert |bs| > 0;
    hide Congruent, Table, Index, ListsPart, ListsBucket, Pairs;
    if n == 0 {
      NothingListed(m, h, |bs|);
    } else {
      ListingParts(bs, m, h, eq, n - 1);
      assert bs[..n][..n - 1] == bs[..n - 1];
      BucketListed(bs, m, h, eq, n - 1);
      ChainListed(m, h, |bs|, n - 1, Listing(bs[..n - 1]), Pairs(bs[n - 1]));
    }
  }

  lemma NothingListed<K(!new), V>(m: map<K, V>, h: K -> int, count: nat)
    requires count > 0
    ensures ListsPart([], m, h, count, 0)
  {
  }

  /** The pairs of one bucket. */
  ghost predicate ListsBucket<K(!new), V>(qs: seq<(K, V)>, m: map<K, V>, h: K -> int, count: nat, n: nat)
    requires count > 0
  {
    && (forall q <- qs :: q.0 in m && m[q.0] == q.1 && Index(count, h(q.0)) == n)
    && (forall k <- m :: Index(count, h(k)) == n ==> (k, m[k]) in qs)
    && (forall i, j :: 0 <= i < j < |qs| ==> qs[i].0 != qs[j].0)
  }

  lemma BucketListed<K(!new), V>(bs: seq<seq<Entry<K, V>>>, m: map<K, V>, h: K -> int, eq: (K, K) -> bool, n: nat)
    requires Congruent(h, eq) && Table(bs, m, h, eq) && n < |bs|
    ensures ListsBucket(Pairs(bs[n]), m, h, |bs|, n)
  {
    hide Index;
    var chain := bs[n];
    var qs := Pairs(chain);
    assert Distinct(chain, eq);
    PairsStored(bs, m, h, eq, n);
    KeysDistinct(chain, h, eq);
    hide Congruent, Pairs, Distinct;
    forall k | k in m && Index(|bs|, h(k)) == n ensures (k, m[k]) in qs {
      var i :| 0 <= i < |chain| && chain[i] == Entry(k, h(k), m[k]);
      assert qs[i] == (k, m[k]);
    }
  }

  lemma PairsStored<K(!new), V>(bs: seq<seq<Entry<K, V>>>, m: map<K, V>, h: K -> int, eq: (K, K) -> bool, n: nat)
    requires Table(bs, m, h, eq) && n < |bs|
    ensures forall q <- Pairs(bs[n]) :: q.0 in m && m[q.0] == q.1 && Index(|bs|, h(q.0)) == n
  {
    hide Index;
    var chain := bs[n];
    forall i | 0 <= i < |chain| ensures Stored(chain[i], m, h) && Index(|bs|, chain[i].hash) == n {
      assert chain[i] in chain;
    }
  }

  lemma KeysDistinct<K(!new), V>(chain: seq<Entry<K, V>>, h: K -> int, eq: (K, K) -> bool)
    requires Congruent(h, eq) && Distinct(chain, eq)
    ensures var qs := Pairs(chain); forall i, j :: 0 <= i < j < |qs| ==> qs[i].0 != qs[j].0
  {
    forall i, j | 0 <= i < j < |chain| ensures chain[i].key != chain[j].key {
      assert eq(chain[i].key, chain[i].key);
    }
  }

  lemma ChainListed<K(!new), V>(m: map<K, V>, h: K -> int, count: nat, n: nat, ps: seq<(K, V)>, qs: seq<(K, V)>)
    requires n < count && ListsPart(ps, m, h, count, n) && ListsBucket(qs, m, h, count, n)
    ensures ListsPart(ps + qs, m, h, count, n + 1)
  {
    hide Index;
    var all := ps + qs;
    assert forall x :: x in all <==> x in ps || x in qs;
    forall i, j | 0 <= i < j < |all| ensures all[i].0 != all[j].0 {
      if i < |ps| <= j {
        assert all[i] in ps && all[j] in qs;
      } else if j < |ps| {
        assert ps[i].0 != ps[j].0;
      } else {
        assert qs[i - |ps|].0 != qs[j - |ps|].0;
      }
    }
  }

  lemma ListingIsMap<K(!new), V>(bs: seq<seq<Entry<K, V>>>, m: map<K, V>, h: K -> int, eq: (K, K) -> bool)
    requires Congruent(h, eq) && Table(bs, m, h, eq)
    ensures Lists(Listing(bs), m)
  {
    ListingParts(bs, m, h, eq, |bs|);
    assert bs[..|bs|] == bs;
    hide Congruent, Table, Listing;
  }

  lemma ListingGrows<K, V>(bs: seq<seq<Entry<K, V>>>, i: nat)
    requires i < |bs|
    ensures Listing(bs[..i + 1]) == Listing(bs[..i]) + Pairs(bs[i])
  {
    assert bs[..i + 1][..i] == bs[..i];
  }

  lemma {:induction false} ListingPrefix<K, V>(bs: seq<seq<Entry<K, V>>>, i: nat)
    requires i <= |bs|
    ensures Listing(bs[..i]) <= Listing(bs)
    decreases |bs| - i
  {
    if i == |bs| {
      assert bs[..i] == bs;
    } else {
      ListingGrows(bs, i);
      ListingPrefix(bs, i + 1);
    }
  }
}
