/**
  The stack of variable scopes of a running template. Scopes hold references to variables, and the same
  variable may be held by several scopes.
 */
module VarTemp {
  import R = Runtime

  type Value = R.Value

  class Kv {
    const key: string
    var value: Value

    constructor (key: string, value: Value)
      ensures this.key == key && this.value == value
    {
      this.key, this.value := key, value;
    }
  }

  type Frame = seq<Kv>

  /** The last position of a variable named k in a scope, or -1. */
  function Last(f: Frame, k: string): (i: int)
    ensures -1 <= i < |f|
    ensures i >= 0 ==> f[i].key == k
    ensures forall j :: i < j < |f| ==> f[j].key != k
    decreases |f|
  {
    if f == [] then -1
    else if f[|f| - 1].key == k then |f| - 1
    else Last(f[..|f| - 1], k)
  }

  predicate Has(f: Frame, k: string) {
    Last(f, k) >= 0
  }

  /** The variable that k names in a stack of scopes: innermost scope first, newest entry first. */
  function Resolve(items: seq<Frame>, k: string): (r: Kv?)
    ensures r != null ==> r.key == k
    decreases |items|
  {
    if items == [] then null
    else
      var top := items[|items| - 1];
      if Has(top, k) then top[Last(top, k)] else Resolve(items[..|items| - 1], k)
  }

  /** What a name resolves to is held by one of the scopes. */
  lemma {:induction false} ResolveHeld(items: seq<Frame>, k: string) returns (i: nat)
    requires Resolve(items, k) != null
    ensures i < |items| && Resolve(items, k) in items[i]
    decreases |items|
  {
    var n := |items| - 1;
    if Has(items[n], k) {
      i := n;
    } else {
      i := ResolveHeld(items[..n], k);
    }
  }

  /** The newest variable of a name in a scope, if there is one. */
  ghost function Newest(f: Frame, k: string): set<Kv> {
    if Has(f, k) then {f[Last(f, k)]} else {}
  }

  /** A scope with its newest entry for the name of kv replaced by kv. */
  function Replace(f: Frame, kv: Kv): Frame {
    if Has(f, kv.key) then f[Last(f, kv.key) := kv] else f
  }

  lemma LastIs(f: Frame, k: string, i: int)
    requires -1 <= i < |f| && (i >= 0 ==> f[i].key == k) && forall j :: i < j < |f| ==> f[j].key != k
    ensures Last(f, k) == i
  {
  }

  /** Replacing keeps where every name is found, and for other names what is found. */
  lemma ReplaceLast(f: Frame, kv: Kv, k: string)
    ensures Last(Replace(f, kv), k) == Last(f, k)
    ensures k != kv.key && Has(f, k) ==> Replace(f, kv)[Last(f, k)] == f[Last(f, k)]
  {
  }

  /** What Set makes of the scopes when some scope knows the name. */
  ghost predicate Replaced(before: seq<Frame>, after: seq<Frame>, kv: Kv) {
    |after| == |before| && forall i :: 0 <= i < |before| ==> after[i] == Replace(before[i], kv)
  }

  ghost predicate Known(items: seq<Frame>, k: string) {
    exists i :: 0 <= i < |items| && Has(items[i], k)
  }

  lemma {:induction false} ResolveKnown(items: seq<Frame>, k: string)
    ensures Resolve(items, k) != null <==> Known(items, k)
    decreases |items|
  {
    if items != [] {
      var n := |items| - 1;
      ResolveKnown(items[..n], k);
      if Known(items, k) && !Has(items[n], k) {
        var i :| 0 <= i < |items| && Has(items[i], k);
        assert items[..n][i] == items[i];
      }
    }
  }

  /** After the replacement the name resolves to kv wherever it was bound, other names to what they
      resolved to. */
  lemma {:induction false} ReplacedResolves(before: seq<Frame>, after: seq<Frame>, kv: Kv, k: string)
    requires Replaced(before, after, kv)
    ensures Resolve(after, k) == if k != kv.key || Resolve(before, k) == null then Resolve(before, k) else kv
    decreases |before|
  {
    hide Last;
    if before != [] {
      var n := |before| - 1;
      ReplaceLast(before[n], kv, k);
      assert Replaced(before[..n], after[..n], kv);
      ReplacedResolves(before[..n], after[..n], kv, k);
    }
  }

  /** An empty innermost scope hides nothing. */
  lemma OpenScopeHidesNothing(items: seq<Frame>, k: string)
    ensures Resolve(items + [[]], k) == Resolve(items, k)
  {
  }

  class VarTemp {
    var items: seq<Frame>

    constructor ()
      ensures items == []
    {
      items := [];
    }

    /** Every variable named k that some scope holds. */
    ghost function Named(k: string): set<Kv>
      reads this
    {
      set f, x | f in items && x in f && x.key == k :: x
    }

    method Push(kv: Kv)
      requires |items| > 0
      modifies `items
      ensures items == old(items[..|items| - 1] + [items[|items| - 1] + [kv]])
      ensures Resolve(items, kv.key) == kv
    {
      var n := |items| - 1;
      items := items[n := items[n] + [kv]];
      LastIs(items[n], kv.key, |items[n]| - 1);
    }

    method Append()
      modifies `items
      ensures items == old(items) + [[]]
    {
      items := items + [[]];
    }

    method ClearTop() returns (ok: bool)
      modifies `items
      ensures ok <==> old(items) != []
      ensures items == if ok then old(items[..|items| - 1]) + [[]] else old(items)
    {
      if |items| == 0 {
        return false;
      }
      items := items[|items| - 1 := []];
      return true;
    }

    method Pop() returns (ok: bool)
      modifies `items
      ensures ok <==> old(items) != []
      ensures items == if ok then old(items[..|items| - 1]) else old(items)
    {
      if |items| == 0 {
        return false;
      }
      items := items[..|items| - 1];
      return true;
    }

    method GetValue(key: string) returns (r: Kv?)
      ensures r == Resolve(items, key)
    {
      var idx := |items| - 1;
      assert items[..idx + 1] == items;
      while idx >= 0
        invariant -1 <= idx < |items|
        invariant Resolve(items, key) == Resolve(items[..idx + 1], key)
      {
        var v := items[idx];
        var edx := |v| - 1;
        while edx >= 0
          invariant -1 <= edx < |v|
          invariant forall j :: edx < j < |v| ==> v[j].key != key
        {
          if v[edx].key == key {
            LastIs(v, key, edx);
            assert items[..idx + 1][idx] == v;
            return v[edx];
          }
          edx := edx - 1;
        }
        LastIs(v, key, -1);
        assert items[..idx + 1][idx] == v && items[..idx + 1][..idx] == items[..idx];
        idx := idx - 1;
      }
      return null;
    }

    /** Replaces the newest entry in one scope, writing through the reference it held. */
    method SetIn(idx: nat, kv: Kv) returns (found: bool)
      requires idx < |items|
      modifies `items, Newest(items[idx], kv.key)
      ensures found == old(Has(items[idx], kv.key))
      ensures items == old(items)[idx := Replace(old(items[idx]), kv)]
      ensures kv.value == old(kv.value)
      ensures forall x :: x in Newest(old(items[idx]), kv.key) ==> x.value == kv.value
    {
      var v := items[idx];
      var edx := |v| - 1;
      while edx >= 0
        invariant -1 <= edx < |v|
        invariant forall j :: edx < j < |v| ==> v[j].key != kv.key
      {
        var t := v[edx];
        if t.key == kv.key {
          LastIs(v, kv.key, edx);
          t.value := kv.value;
          items := items[idx := v[edx := kv]];
          return true;
        }
        edx := edx - 1;
      }
      LastIs(v, kv.key, -1);
      return false;
    }

    /** Replaces the newest entry of the name in every scope that has one. */
    method SetExisting(kv: Kv) returns (exist: bool)
      modifies `items, Named(kv.key)
      ensures Replaced(old(items), items, kv)
      ensures exist <==> Known(old(items), kv.key)
      ensures kv.value == old(kv.value)
      ensures forall i, x :: 0 <= i < |items| && x in Newest(old(items)[i], kv.key) ==> x.value == kv.value
    {
      hide Last, Replace;
      ghost var before := items;
      exist := false;
      var idx := |items| - 1;
      while idx >= 0
        invariant -1 <= idx < |before| == |items|
        invariant forall i :: 0 <= i <= idx ==> items[i] == before[i]
        invariant forall i :: idx < i < |before| ==> items[i] == Replace(before[i], kv)
        invariant exist <==> exists i :: idx < i < |before| && Has(before[i], kv.key)
        invariant kv.value == old(kv.value)
        invariant forall i, x :: idx < i < |before| && x in Newest(before[i], kv.key) ==> x.value == kv.value
      {
        assert before[idx] in before;
        assert Newest(before[idx], kv.key) <= old(Named(kv.key));
        var found := SetIn(idx, kv);
        exist := exist || found;
        idx := idx - 1;
      }
    }

    /** Set: at every depth of the stack the name is unbound, as it was, or resolves to kv; every
        other name resolves as before; and whoever still holds a variable the name resolved to
        reads the new value there. Only variables of that name are written. */
    method Set(kv: Kv)
      requires |items| > 0
      modifies `items, Named(kv.key)
      ensures |items| == |old(items)|
      ensures kv.value == old(kv.value)
      ensures Resolve(items, kv.key) == kv
      ensures forall d :: 0 <= d < |items| ==>
                Resolve(items[..d], kv.key) == if Resolve(old(items)[..d], kv.key) == null then null else kv
      ensures forall d, k :: 0 <= d <= |items| && k != kv.key ==> Resolve(items[..d], k) == Resolve(old(items)[..d], k)
      ensures forall i, x :: 0 <= i < |items| && x in items[i] ==> x == kv || x in old(items)[i]
      ensures forall i, x :: 0 <= i < |items| && x in Newest(old(items)[i], kv.key) ==> x.value == kv.value
    {
      hide Resolve, Last;
      ghost var before := items;
      var exist := SetExisting(kv);
      ResolveEach(before, items, kv);
      ResolveKnown(before, kv.key);
      assert before[..|before|] == before && items[..|items|] == items;
      if !exist {
        assert items == before by {
          assert forall i :: 0 <= i < |before| ==> !Has(before[i], kv.key);
        }
        items := items[|items| - 1 := items[|items| - 1] + [kv]];
        AppendedResolves(before, items, kv);
        assert items[..|items|] == items;
      }
    }
  }

  /** ReplacedResolves at every depth. */
  lemma ResolveEach(before: seq<Frame>, after: seq<Frame>, kv: Kv)
    requires Replaced(before, after, kv)
    ensures forall d, k :: 0 <= d <= |before| ==>
              Resolve(after[..d], k) == if k != kv.key || Resolve(before[..d], k) == null then Resolve(before[..d], k) else kv
  {
    forall d, k | 0 <= d <= |before|
      ensures Resolve(after[..d], k) == if k != kv.key || Resolve(before[..d], k) == null then Resolve(before[..d], k) else kv
    {
      ReplacedResolves(before[..d], after[..d], kv, k);
    }
  }

  /** A new entry in the innermost scope changes only what its own name resolves to there. */
  lemma AppendedResolves(before: seq<Frame>, after: seq<Frame>, kv: Kv)
    requires before != []
    requires after == before[|before| - 1 := before[|before| - 1] + [kv]]
    ensures Resolve(after, kv.key) == kv
    ensures forall d :: 0 <= d < |before| ==> after[..d] == before[..d]
    ensures forall k :: k != kv.key ==> Resolve(after, k) == Resolve(before, k)
  {
  }
}
