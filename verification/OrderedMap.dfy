/**
  A map that remembers the order of its keys.
 */
module OrderedMap {

  ghost predicate Distinct<K>(s: seq<K>) {
    forall i, j :: 0 <= i < j < |s| ==> s[i] != s[j]
  }

  /** s lists the keys of m, each once. */
  ghost predicate Lists<K, V>(s: seq<K>, m: map<K, V>) {
    Distinct(s) && Elements(s) == m.Keys
  }

  ghost function Elements<K>(s: seq<K>): set<K> {
    set k | k in s
  }

  lemma {:induction false} ElementsAtMost<K>(s: seq<K>)
    ensures |Elements(s)| <= |s|
    decreases |s|
  {
    if s != [] {
      var n := |s| - 1;
      ElementsAtMost(s[..n]);
      assert Elements(s) == Elements(s[..n]) + {s[n]};
    }
  }

  /** Pigeonhole: as many entries as distinct elements means no entry twice. */
  lemma {:induction false} Pigeonhole<K>(s: seq<K>)
    requires |Elements(s)| == |s|
    ensures Distinct(s)
    decreases |s|
  {
    if s != [] {
      var n := |s| - 1;
      assert Elements(s) == Elements(s[..n]) + {s[n]};
      ElementsAtMost(s[..n]);
      assert s[n] !in Elements(s[..n]);
      Pigeonhole(s[..n]);
      assert forall i :: 0 <= i < n ==> s[i] == s[..n][i];
    }
  }

  /** An order as long as the map that mentions every key lists the keys. */
  lemma OrderLists<K, V>(m: map<K, V>, order: seq<K>)
    requires |m| == |order| && forall k :: k in m ==> k in order
    ensures Lists(order, m)
  {
    assert m.Keys <= Elements(order);
    ElementsAtMost(order);
    SubsetSize(m.Keys, Elements(order));
    Pigeonhole(order);
  }

  lemma SubsetSize<K>(a: set<K>, b: set<K>)
    requires a <= b && |b| <= |a|
    ensures a == b
  {
    assert b == a + (b - a);
    assert |b| == |a| + |b - a|;
  }

  /** The elements of `more` that are not yet keys, in their order. */
  function NewKeys<K(==), V>(m: map<K, V>, more: seq<K>): seq<K> {
    if more == [] then []
    else
      var n := |more| - 1;
      NewKeys(m, more[..n]) + (if more[n] in m || more[n] in more[..n] then [] else [more[n]])
  }

  lemma NewKeysSnoc<K, V>(m: map<K, V>, ks: seq<K>, key: K)
    ensures NewKeys(m, ks + [key]) == NewKeys(m, ks) + (if key in m || key in ks then [] else [key])
  {
  }

  /** The part of a map under some of its keys. */
  ghost function Part<K, V>(m: map<K, V>, ks: seq<K>): map<K, V> {
    map k | k in m && k in ks :: m[k]
  }

  lemma PartSnoc<K, V>(m0: map<K, V>, m: map<K, V>, ks: seq<K>, key: K)
    requires key in m && key !in ks
    ensures m0 + Part(m, ks + [key]) == (m0 + Part(m, ks))[key := m[key]]
    ensures key in m0 + Part(m, ks) <==> key in m0
  {
  }

  lemma PartEnds<K, V>(m0: map<K, V>, m: map<K, V>, ks: seq<K>)
    requires Lists(ks, m)
    ensures m0 + Part(m, []) == m0 && Part(m, ks) == m
    ensures NewKeys(m0, []) == []
    ensures forall i :: 0 <= i < |ks| ==> ks[i] in m && ks[i] !in ks[..i]
  {
  }

  class OrderedMap<K(==), V(0)> {
    var s: seq<K>
    var m: map<K, V>

    ghost predicate Valid()
      reads this
    {
      Lists(s, m)
    }

    constructor ()
      ensures Valid() && s == [] && m == map[]
    {
      s, m := [], map[];
    }

    /** From a map and an order of its keys; refused, as the source panics, unless the order is as long as
        the map and mentions every key. Then it lists the keys. */
    static method FromMapWithOrder(m: map<K, V>, order: seq<K>) returns (ok: bool, om: OrderedMap<K, V>)
      ensures ok <==> Lists(order, m)
      ensures fresh(om) && om.Valid()
      ensures ok ==> om.s == order && om.m == m
    {
      om := new OrderedMap<K, V>();
      if |m| != |order| {
        if Lists(order, m) {
          ListsSize(order, m);
        }
        return false, om;
      }
      var rest := m.Keys;
      while rest != {}
        invariant forall k :: k in m && k !in rest ==> k in order
        decreases rest
      {
        var key :| key in rest;
        if key !in order {
          return false, om;
        }
        rest := rest - {key};
      }
      OrderLists(m, order);
      om.s, om.m := order, m;
      return true, om;
    }

    /** Sets a value; a new key goes to the end. */
    method Set(key: K, value: V)
      requires Valid()
      modifies this
      ensures Valid() && m == old(m)[key := value]
      ensures s == if key in old(m) then old(s) else old(s) + [key]
    {
      if key !in m {
        s := s + [key];
      }
      m := m[key := value];
    }

    /** The values in the order of the keys. */
    method Values() returns (values: seq<V>)
      requires Valid()
      ensures |values| == |s| && forall i :: 0 <= i < |s| ==> s[i] in m && values[i] == m[s[i]]
    {
      values := [];
      for i := 0 to |s|
        invariant |values| == i && forall j :: 0 <= j < i ==> s[j] in m && values[j] == m[s[j]]
      {
        assert s[i] in Elements(s);
        values := values + [m[s[i]]];
      }
    }

    /** Takes over the other map: its values win, keys already there keep their place, the others follow
        in the other map's order. */
    method Merge(otherS: seq<K>, otherM: map<K, V>)
      requires Valid() && Lists(otherS, otherM)
      modifies this
      ensures Valid() && m == old(m) + otherM
      ensures s == old(s) + NewKeys(old(m), otherS)
    {
      hide Lists, Part, NewKeys;
      ghost var m0 := m;
      PartEnds(m0, otherM, otherS);
      for i := 0 to |otherS|
        invariant Valid()
        invariant m == m0 + Part(otherM, otherS[..i])
        invariant s == old(s) + NewKeys(m0, otherS[..i])
      {
        var key := otherS[i];
        assert otherS[..i + 1] == otherS[..i] + [key];
        PartSnoc(m0, otherM, otherS[..i], key);
        NewKeysSnoc(m0, otherS[..i], key);
        Set(key, otherM[key]);
      }
      assert otherS[..|otherS|] == otherS;
    }
  }

  lemma ListsSize<K, V>(s: seq<K>, m: map<K, V>)
    requires Lists(s, m)
    ensures |s| == |m|
  {
    assert Elements(s) == m.Keys;
    DistinctSize(s);
  }

  lemma {:induction false} DistinctSize<K>(s: seq<K>)
    requires Distinct(s)
    ensures |Elements(s)| == |s|
    decreases |s|
  {
    if s != [] {
      var n := |s| - 1;
      DistinctSize(s[..n]);
      assert Elements(s) == Elements(s[..n]) + {s[n]};
      assert s[n] !in Elements(s[..n]);
    }
  }
}
