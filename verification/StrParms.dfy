/** Parameter strings `k=v;k=v`: printing, parsing, and exactly when parsing gives
    back what was printed.  Strings are those of C: no character is NUL. */
module StrParms {
  import opened Common
  import opened Hashmap

  // -------------------------------------------------------------------------- parsing

  /** What one token between semicolons adds: nothing when it starts with `=`. */
  function Apply(m: map<string, string>, token: string): map<string, string>
    requires token != []
  {
    var eq := Find(token, '=');
    if eq == 0 then m
    else if eq < |token| then m[token[..eq] := token[eq + 1..]]
    else m[token := ""]
  }

  /** strtok_r skips semicolons, and takes what is before the next one. */
  function ParseInto(s: string, m: map<string, string>): map<string, string>
    decreases |s|
  {
    if s == [] then m
    else if s[0] == ';' then ParseInto(s[1..], m)
    else
      var end := Find(s, ';');
      ParseInto(s[end..], Apply(m, s[..end]))
  }

  function Parse(s: string): map<string, string> {
    ParseInto(s, map[])
  }

  // ------------------------------------------------------------------------- printing

  function Pair(p: (string, string)): string {
    p.0 + "=" + p.1
  }

  /** What combine_strings makes of the pairs, one after the other. */
  function Print(ps: seq<(string, string)>): string {
    if ps == [] then ""
    else
      var before := Print(ps[..|ps| - 1]);
      if |ps| == 1 then Pair(ps[0]) else before + ";" + Pair(ps[|ps| - 1])
  }

  function PutAll(m: map<string, string>, ps: seq<(string, string)>): map<string, string> {
    if ps == [] then m else PutAll(m, ps[..|ps| - 1])[ps[|ps| - 1].0 := ps[|ps| - 1].1]
  }

  // --------------------------------------------------------------------------- lemmas

  predicate CleanKey(k: string) {
    k != [] && '=' !in k && ';' !in k
  }

  predicate CleanPair(p: (string, string)) {
    CleanKey(p.0) && ';' !in p.1
  }

  ghost predicate Clean(m: map<string, string>) {
    forall k <- m :: CleanPair((k, m[k]))
  }

  lemma PairApplied(m: map<string, string>, p: (string, string))
    requires CleanPair(p)
    ensures Pair(p) != [] && Apply(m, Pair(p)) == m[p.0 := p.1]
  {
    var s := p.0 + "=" + p.1;
    FindFirst(p.0, '=', p.1);
    assert s[..|p.0|] == p.0 && s[|p.0| + 1..] == p.1;
  }

  lemma LastToken(t: string, m: map<string, string>)
    requires t != [] && ';' !in t
    ensures ParseInto(t, m) == Apply(m, t)
  {
    FindNone(t, ';');
    assert t[..|t|] == t && t[|t|..] == [];
  }

  /** A text and one more token after a semicolon. */
  lemma {:induction false} TokenAdded(s: string, t: string, m: map<string, string>)
    requires t != [] && ';' !in t
    ensures ParseInto(s + ";" + t, m) == Apply(ParseInto(s, m), t)
    decreases |s|
  {
    var all := s + ";" + t;
    if s == [] {
      assert all[1..] == t;
      LastToken(t, m);
    } else if s[0] == ';' {
      assert all[1..] == s[1..] + ";" + t;
      TokenAdded(s[1..], t, m);
    } else {
      var end := Find(s, ';');
      assert all == s[..end] + (s[end..] + ";" + t);
      FoundInside(s[..end], s[end..] + ";" + t);
      assert all[..end] == s[..end] && all[end..] == s[end..] + ";" + t;
      TokenAdded(s[end..], t, Apply(m, s[..end]));
    }
  }

  lemma FoundInside(a: string, b: string)
    requires ';' !in a && b != [] && b[0] == ';'
    ensures Find(a + b, ';') == |a|
  {
    assert b == [';'] + b[1..];
    assert a + [';'] + b[1..] == a + b;
    FindFirst(a, ';', b[1..]);
  }

  lemma {:induction false} ParsePrinted(ps: seq<(string, string)>)
    requires forall p <- ps :: CleanPair(p)
    ensures Parse(Print(ps)) == PutAll(map[], ps)
  {
    if ps != [] {
      var n := |ps| - 1;
      var before := ps[..n];
      ParsePrinted(before);
      PairApplied(PutAll(map[], before), ps[n]);
      NoSemicolon(ps[n]);
      if n == 0 {
        LastToken(Pair(ps[0]), map[]);
      } else {
        TokenAdded(Print(before), Pair(ps[n]), map[]);
      }
    }
  }

  lemma NoSemicolon(p: (string, string))
    requires CleanPair(p)
    ensures ';' !in Pair(p)
  {
  }

  lemma {:induction false} PutAllHas(ps: seq<(string, string)>, k: string)
    requires forall i, j :: 0 <= i < j < |ps| ==> ps[i].0 != ps[j].0
    ensures var r := PutAll(map[], ps); (k in r <==> exists p :: p in ps && p.0 == k) && (k in r ==> (k, r[k]) in ps)
  {
    if ps != [] {
      var n := |ps| - 1;
      PutAllHas(ps[..n], k);
      assert forall p :: p in ps <==> p in ps[..n] || p == ps[n];
    }
  }

  lemma PutAllIsMap(ps: seq<(string, string)>, m: map<string, string>)
    requires Lists(ps, m)
    ensures PutAll(map[], ps) == m
  {
    var r := PutAll(map[], ps);
    forall k ensures (k in r <==> k in m) && (k in r ==> r[k] == m[k]) {
      PutAllHas(ps, k);
      assert k in m ==> (k, m[k]) in ps;
    }
    assert (forall k :: (k in r <==> k in m) && (k in r ==> r[k] == m[k])) ==> r == m;
  }

  lemma ApplyClean(m: map<string, string>, t: string)
    requires Clean(m) && t != [] && ';' !in t
    ensures Clean(Apply(m, t))
  {
    var eq := Find(t, '=');
    if eq < |t| {
      assert forall c <- t[..eq] :: c in t && c != '=';
      assert forall c <- t[eq + 1..] :: c in t;
    }
  }

  /** Whatever text is parsed, only clean pairs come out. */
  lemma {:induction false} ParseIsClean(s: string, m: map<string, string>)
    requires Clean(m)
    ensures Clean(ParseInto(s, m))
    decreases |s|
  {
    if s != [] {
      if s[0] == ';' {
        ParseIsClean(s[1..], m);
      } else {
        var end := Find(s, ';');
        ApplyClean(m, s[..end]);
        ParseIsClean(s[end..], Apply(m, s[..end]));
      }
    }
  }

  /** Printing in any order and parsing again gives the map back exactly when its
      keys are not empty and free of `=` and `;`, and its values free of `;`. */
  lemma PrintParseIsIdentity(ps: seq<(string, string)>, m: map<string, string>)
    requires Lists(ps, m)
    ensures Parse(Print(ps)) == m <==> Clean(m)
  {
    if Clean(m) {
      ParsePrinted(ps);
      PutAllIsMap(ps, m);
    } else {
      ParseIsClean(Print(ps), map[]);
    }
  }

  /** A semicolon inside a value: what comes after it becomes a key of its own. */
  lemma ValueIsCut(k: string, v: string, tail: string)
    requires CleanPair((k, v)) && tail != [] && ';' !in tail && '=' !in tail
    ensures Parse(Print([(k, v + ";" + tail)])) == map[k := v, tail := ""]
  {
    var m: map<string, string> := map[];
    assert Print([(k, v + ";" + tail)]) == Pair((k, v)) + ";" + tail by {
      assert k + "=" + (v + ";" + tail) == (k + "=" + v) + ";" + tail;
    }
    PairApplied(m, (k, v));
    NoSemicolon((k, v));
    FindNone(tail, '=');
    hide Pair, CleanPair, Print;
    LastToken(Pair((k, v)), m);
    TokenAdded(Pair((k, v)), tail, m);
  }

  /** So a pair does not survive. */
  lemma SemicolonIsLost()
    ensures Parse(Print([("k", "a;b")])) == map["k" := "a", "b" := ""]
  {
    hide Parse, Print;
    assert "a;b" == "a" + ";" + "b";
    ValueIsCut("k", "a", "b");
  }
}
