/** str_parms over the hash map, for any hash of strings. */
module StrParmsImpl {
  import opened Common
  import opened Hashmap
  import opened HashmapImpl
  import opened StrParms

  function Equal(a: string, b: string): bool {
    a == b
  }

  lemma StringsAreCongruent(hash: string -> bv32)
    ensures Congruent(k => HashKey(hash(k)), Equal)
  {
  }

  /** str_parms_create_str: one token after the other goes into the map. */
  method CreateStr(text: string, hash: string -> bv32) returns (m: HashMap<string, string>)
    ensures fresh(m) && fresh(m.buckets) && m.Valid() && m.equals == Equal
    ensures m.Model == Parse(text)
  {
    hide HashKey, PowerOfTwo;
    StringsAreCongruent(hash);
    m := new HashMap(5, hash, Equal);
    var rest := text;
    while rest != []
      invariant m.Valid() && fresh(m.buckets) && m.equals == Equal
      invariant ParseInto(rest, m.Model) == Parse(text)
      decreases |rest|
    {
      if rest[0] == ';' {
        rest := rest[1..];
      } else {
        var end := Find(rest, ';');
        AddToken(m, rest[..end]);
        rest := rest[end..];
      }
    }
  }

  /** A token that starts with `=` is passed over; one without `=` has no value. */
  method AddToken(m: HashMap<string, string>, token: string)
    requires m.Valid() && m.equals == Equal && token != []
    modifies m, m.buckets
    ensures m.Valid() && (m.buckets == old(m.buckets) || fresh(m.buckets))
    ensures m.Model == Apply(old(m.Model), token)
  {
    hide HashKey, PowerOfTwo, Table, Congruent, Put, Got, Dropped;
    var eq := Find(token, '=');
    if eq == 0 { return; }
    var key := token[..eq];
    var value := if eq < |token| then token[eq + 1..] else "";
    assert eq == |token| ==> key == token;
    OnIdentity(m.Model, key, value, Equal);
    var canAllocate: bool := *;
    var previous := m.PutValue(key, value, canAllocate);
  }

  function Look(k: string, v: string): Visit {
    Visit(false, true)
  }

  /** str_parms_to_str: the pairs in the order the map hands them out. */
  method ToStr(m: HashMap<string, string>) returns (text: string)
    requires m.Valid()
    modifies m`size, m`Model, m.buckets
    ensures m.Valid() && m.Model == old(m.Model)
    ensures text == Print(Listing(old(m.buckets[..]))) && Lists(Listing(old(m.buckets[..])), m.Model)
  {
    ListingIsMap(m.buckets[..], m.Model, m.H(), m.equals);
    hide HashKey, PowerOfTwo, Table, Congruent, Lists, Listing, Walked, RemovedKeys, Print;
    ghost var ps := Listing(m.buckets[..]);
    var visited, go := m.ForEach(Look);
    OnlyLooking(old(m.Model), ps, visited, go);
    text := Combine(visited);
  }

  /** combine_strings, callback after callback. */
  method Combine(ps: seq<(string, string)>) returns (text: string)
    ensures text == Print(ps)
  {
    text := "";
    for i := 0 to |ps|
      invariant text == Print(ps[..i])
    {
      assert ps[..i + 1][..i] == ps[..i];
      text := if i == 0 then Pair(ps[i]) else text + ";" + Pair(ps[i]);
    }
    assert ps[..|ps|] == ps;
  }

  lemma OnlyLooking(m: map<string, string>, ps: seq<(string, string)>, visited: seq<(string, string)>, go: bool)
    requires Walked(visited, ps, Look, go)
    ensures go && m - RemovedKeys(visited, Look) == m
  {
  }

  /** remove_pair: everything goes, or the one key, and then the walk ends. */
  function Delete(key: Option<string>): (string, string) -> Visit {
    (k: string, v: string) => if key.None? then Visit(true, true) else Visit(k == key.value, k != key.value)
  }

  /** str_parms_del; without a key, as in str_parms_destroy, it empties the map. */
  method Del(m: HashMap<string, string>, key: Option<string>)
    requires m.Valid()
    modifies m`size, m`Model, m.buckets
    ensures m.Valid()
    ensures m.Model == match key case None => map[] case Some(k) => old(m.Model) - {k}
  {
    ListingIsMap(m.buckets[..], m.Model, m.H(), m.equals);
    hide HashKey, PowerOfTwo, Table, Congruent, Lists, Listing;
    ghost var ps := Listing(m.buckets[..]);
    var visited, go := m.ForEach(Delete(key));
    Deleted(ps, old(m.Model), visited, key, go);
  }

  lemma Deleted(ps: seq<(string, string)>, m: map<string, string>, visited: seq<(string, string)>,
                key: Option<string>, go: bool)
    requires Lists(ps, m) && Walked(visited, ps, Delete(key), go) && (go ==> visited == ps)
    ensures m - RemovedKeys(visited, Delete(key)) == match key case None => map[] case Some(k) => m - {k}
  {
    var gone := RemovedKeys(visited, Delete(key));
    forall k | k in m ensures k in gone <==> key.None? || k == key.value {
      if go {
        assert (k, m[k]) in visited;
      } else {
        assert visited[|visited| - 1].0 == key.value;
        assert visited[|visited| - 1] in visited;
      }
    }
    var left := match key case None => map[] case Some(k) => m - {k};
    assert (forall k :: k in m - gone <==> k in left) ==> m - gone == left;
  }
}
