/** Iterating a string-keyed map in key order, as std::map does. */
module OrderedMap {
  import opened Mac

  ghost predicate Least(k: string, keys: set<string>) {
    k in keys && forall j :: j in keys ==> j == k || LexLess(k, j)
  }

  lemma {:induction false} LeastExists(keys: set<string>)
    requires keys != {}
    ensures exists k :: Least(k, keys)
    decreases |keys|
  {
    var any :| any in keys;
    var rest := keys - {any};
    if rest == {} {
      assert forall j :: j in keys ==> j == any || j in rest;
      assert Least(any, keys);
    } else {
      LeastExists(rest);
      var k :| Least(k, rest);
      LexTotal(any, k);
      if LexLess(any, k) {
        forall j | j in keys ensures j == any || LexLess(any, j) {
          if j != any && j != k { LexTransitive(any, k, j); }
        }
        assert Least(any, keys);
      } else {
        assert Least(k, keys);
      }
    }
  }

  lemma LeastUnique(a: string, b: string, keys: set<string>)
    requires Least(a, keys) && Least(b, keys)
    ensures a == b
  {
    LexTotal(a, b);
  }

  ghost function Keys(keys: set<string>): (ks: seq<string>)
    decreases |keys|
  {
    if keys == {} then []
    else
      LeastExists(keys);
      var k :| Least(k, keys);
      [k] + Keys(keys - {k})
  }

  lemma KeysStep(keys: set<string>, k: string)
    requires Least(k, keys)
    ensures Keys(keys) == [k] + Keys(keys - {k})
  {
    var c :| Least(c, keys) && Keys(keys) == [c] + Keys(keys - {c});
    LeastUnique(c, k, keys);
  }

  ghost predicate Ascending(ks: seq<string>) { forall i, j :: 0 <= i < j < |ks| ==> LexLess(ks[i], ks[j]) }

  /** The keys, all of them, each once and in ascending order. */
  lemma {:induction false} KeysOrdered(keys: set<string>)
    ensures (forall k :: k in Keys(keys) <==> k in keys) && Ascending(Keys(keys))
    decreases |keys|
  {
    if keys != {} {
      LeastExists(keys);
      var k :| Least(k, keys);
      KeysStep(keys, k);
      KeysOrdered(keys - {k});
      var rest := Keys(keys - {k});
      assert forall i :: 0 <= i < |rest| ==> rest[i] in rest;
    }
  }

  /** The values in key order. */
  ghost function Listing<V>(m: map<string, V>): (s: seq<V>)
    ensures |s| == |Keys(m.Keys)|
  {
    KeysOrdered(m.Keys);
    var ks := Keys(m.Keys);
    assert forall i :: 0 <= i < |ks| ==> ks[i] in ks;
    seq(|ks|, i requires 0 <= i < |ks| => m[ks[i]])
  }

  lemma ListingStep<V>(m: map<string, V>, k: string)
    requires Least(k, m.Keys)
    ensures Listing(m) == [m[k]] + Listing(m - {k})
  {
    KeysStep(m.Keys, k);
    assert (m - {k}).Keys == m.Keys - {k};
    KeysOrdered(m.Keys);
    KeysOrdered((m - {k}).Keys);
    var ks, rest := Keys(m.Keys), Keys((m - {k}).Keys);
    forall i | 0 <= i < |ks| ensures Listing(m)[i] == ([m[k]] + Listing(m - {k}))[i] {
      assert ks[i] in ks;
      if i > 0 { assert rest[i - 1] in rest && ks[i] == rest[i - 1]; }
    }
  }

  method List<V>(m: map<string, V>) returns (out: seq<V>)
    ensures out == Listing(m)
  {
    out := [];
    var left := m;
    while left.Keys != {}
      invariant Listing(m) == out + Listing(left)
      decreases |left.Keys|
    {
      LeastExists(left.Keys);
      var k :| k in left.Keys && forall j :: j in left.Keys ==> j == k || LexLess(k, j);
      ListingStep(left, k);
      assert (out + [left[k]]) + Listing(left - {k}) == out + ([left[k]] + Listing(left - {k}));
      out := out + [left[k]];
      assert (left - {k}).Keys == left.Keys - {k};
      left := left - {k};
    }
    assert out + Listing(left) == out;
  }

  function Filter<V>(s: seq<V>, p: V -> bool): seq<V> {
    if s == [] then [] else (if p(s[0]) then [s[0]] else []) + Filter(s[1..], p)
  }

  lemma FilterStep<V>(x: V, s: seq<V>, p: V -> bool)
    ensures Filter([x] + s, p) == (if p(x) then [x] else []) + Filter(s, p)
  {
    assert ([x] + s)[1..] == s;
  }

  function Part<V>(m: map<string, V>, keep: set<string>): map<string, V> { map k | k in m && k in keep :: m[k] }

  lemma PartStep<V>(m: map<string, V>, keep: set<string>, k: string)
    requires Least(k, m.Keys)
    ensures k in keep ==> Least(k, Part(m, keep).Keys) && Part(m - {k}, keep) == Part(m, keep) - {k} && Part(m, keep)[k] == m[k]
    ensures k !in keep ==> Part(m - {k}, keep) == Part(m, keep)
  {
    assert (m - {k}).Keys == m.Keys - {k};
  }

  /** Listing part of a map is dropping the other values from the listing of all of it. */
  lemma {:induction false} ListingRestricted<V>(m: map<string, V>, keep: set<string>, p: V -> bool)
    requires forall k :: k in m ==> (p(m[k]) <==> k in keep)
    ensures Listing(Part(m, keep)) == Filter(Listing(m), p)
    decreases |m.Keys|
  {
    hide Part, Filter, Listing;
    if m.Keys == {} {
      NothingListed(m, keep, p);
    } else {
      LeastExists(m.Keys);
      var k :| Least(k, m.Keys);
      var rest := m - {k};
      assert rest.Keys == m.Keys - {k};
      ListingStep(m, k);
      FilterStep(m[k], Listing(rest), p);
      ListingRestricted(rest, keep, p);
      PartStep(m, keep, k);
      if k in keep {
        ListingStep(Part(m, keep), k);
      }
    }
  }

  lemma NothingListed<V>(m: map<string, V>, keep: set<string>, p: V -> bool)
    requires m.Keys == {}
    ensures Listing(Part(m, keep)) == Filter(Listing(m), p)
  {
    assert Part(m, keep).Keys == {};
  }
}
