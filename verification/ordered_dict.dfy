/** Python's insertion-ordered `dict`: the keys in order, and what each maps to. */
module OrderedDict {

  function Remove<K(==,!new)>(keys: seq<K>, k: K): (r: seq<K>)
    ensures forall x :: x in r <==> x in keys && x != k
    ensures k !in keys ==> r == keys
    ensures |r| <= |keys| && (k in keys ==> |r| < |keys|)
  {
    if keys == [] then [] else
    var n := |keys| - 1;
    if keys[n] == k then Remove(keys[..n], k) else Remove(keys[..n], k) + [keys[n]]
  }

  predicate Distinct<K(==)>(keys: seq<K>) {
    keys == [] ||
    var n := |keys| - 1;
    keys[n] !in keys[..n] && Distinct(keys[..n])
  }

  lemma {:induction false} RemoveDistinct<K(!new)>(keys: seq<K>, k: K)
    requires Distinct(keys)
    ensures Distinct(Remove(keys, k))
    ensures k in keys ==> |Remove(keys, k)| == |keys| - 1
  {
    if keys != [] {
      var n := |keys| - 1;
      RemoveDistinct(keys[..n], k);
      if keys[n] != k {
        assert Remove(keys, k)[..|Remove(keys, k)| - 1] == Remove(keys[..n], k);
      }
    }
  }

  /** Distinct keys, stated position by position. */
  lemma {:induction false} DistinctAt<K>(keys: seq<K>, i: nat, j: nat)
    requires Distinct(keys) && i < j < |keys|
    ensures keys[i] != keys[j]
  {
    var n := |keys| - 1;
    if j < n {
      DistinctAt(keys[..n], i, j);
    } else {
      assert keys[i] in keys[..n];
    }
  }

  /** Without its oldest key. */
  lemma {:induction false} DistinctRest<K(!new)>(keys: seq<K>)
    requires Distinct(keys) && keys != []
    ensures Distinct(keys[1..])
    ensures forall x :: x in keys[1..] <==> x in keys && x != keys[0]
  {
    var n := |keys| - 1;
    if n > 0 {
      var front := keys[..n];
      DistinctRest(front);
      assert keys[1..][..n - 1] == front[1..] && keys[1..] == front[1..] + [keys[n]] && keys == front + [keys[n]];
      assert front[0] == keys[0] && keys[0] in front;
    } else {
      assert keys[1..] == [] && keys == [keys[0]];
    }
  }

  datatype Dict<V> = Dict(keys: seq<nat>, at: map<nat, V>) {
    ghost predicate Ok() {
      Distinct(keys) && forall k :: k in keys <==> k in at
    }

    function Set(k: nat, v: V): Dict<V> {
      Dict(if k in at then keys else keys + [k], at[k := v])
    }

    function Del(k: nat): Dict<V> {
      Dict(Remove(keys, k), at - {k})
    }
  }

  lemma DictOps<V>(d: Dict<V>, k: nat, v: V)
    requires d.Ok()
    ensures d.Set(k, v).Ok() && d.Del(k).Ok()
  {
    RemoveDistinct(d.keys, k);
    assert (d.keys + [k])[..|d.keys|] == d.keys;
  }
}
