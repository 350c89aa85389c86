/** The lease cache as its uses make it: which keys are still remembered, in terms of the uses alone. */
module LeaseCache {
  import opened OrderedDict
  import opened TieredLimiter

  /** The order of the cache after these uses of keys, each found there or stored there. */
  function After(size: nat, uses: seq<CacheKey>): seq<CacheKey> {
    if uses == [] then [] else Recent(Bump(After(size, uses[..|uses| - 1]), uses[|uses| - 1]), size)
  }

  function Keys(uses: seq<CacheKey>): set<CacheKey> {
    set k | k in uses
  }

  /** What stands behind a key. */
  function Behind(order: seq<CacheKey>, k: CacheKey): seq<CacheKey> {
    if order == [] || order[|order| - 1] == k then []
    else Behind(order[..|order| - 1], k) + [order[|order| - 1]]
  }

  /** A use of another key puts that one behind too. */
  lemma {:induction false} BehindRemove(order: seq<CacheKey>, k: CacheKey, x: CacheKey)
    requires k in order && x != k
    ensures Behind(Remove(order, x), k) == Remove(Behind(order, k), x)
  {
    var front, last := order[..|order| - 1], order[|order| - 1];
    if last != k {
      assert order == front + [last];
      BehindRemove(front, k, x);
      var b := Behind(front, k);
      assert (b + [last])[..|b|] == b;
      if last != x {
        var r := Remove(front, x);
        assert (r + [last])[..|r|] == r;
      }
    }
  }

  lemma BehindBump(order: seq<CacheKey>, k: CacheKey, x: CacheKey)
    requires k in order && x != k
    ensures Behind(Bump(order, x), k) == Remove(Behind(order, k), x) + [x]
  {
    BehindRemove(order, k, x);
    var r := Remove(order, x);
    assert Bump(order, x)[..|r|] == r;
  }

  lemma {:induction false} DistinctTail(order: seq<CacheKey>, n: nat)
    requires Distinct(order) && n <= |order|
    ensures Distinct(order[n..])
  {
    if n > 0 {
      DistinctRest(order);
      DistinctTail(order[1..], n - 1);
      assert order[n..] == order[1..][n - 1..];
    }
  }

  /** Behind a key is what follows its place. */
  lemma {:induction false} BehindAt(order: seq<CacheKey>, i: nat)
    requires Distinct(order) && i < |order|
    ensures Behind(order, order[i]) == order[i + 1..]
  {
    var n := |order| - 1;
    if i < n {
      DistinctAt(order, i, n);
      BehindAt(order[..n], i);
      assert order[i + 1..] == order[..n][i + 1..] + [order[n]];
    }
  }

  /** Eviction keeps a key exactly when fewer than `size` stand behind it, and keeps those. */
  lemma RecentKeeps(order: seq<CacheKey>, i: nat, size: nat)
    requires Distinct(order) && i < |order|
    ensures var k := order[i];
      && (k in Recent(order, size) <==> |Behind(order, k)| < size)
      && (k in Recent(order, size) ==> Behind(Recent(order, size), k) == Behind(order, k))
  {
    var recent := Recent(order, size);
    var cut := |order| - |recent|;
    BehindAt(order, i);
    if cut <= i {
      DistinctTail(order, cut);
      assert recent == order[cut..] && recent[i - cut] == order[i];
      BehindAt(recent, i - cut);
      assert recent[i - cut + 1..] == order[i + 1..];
    } else {
      forall j | 0 <= j < |recent| ensures recent[j] != order[i] { DistinctAt(order, i, cut + j); }
    }
  }

  /** The order lists its keys once each, within the size, and the last use is last. */
  lemma {:induction false} AfterOrdered(size: nat, uses: seq<CacheKey>)
    ensures Distinct(After(size, uses)) && |After(size, uses)| <= size
  {
    if uses != [] {
      var before, x := After(size, uses[..|uses| - 1]), uses[|uses| - 1];
      AfterOrdered(size, uses[..|uses| - 1]);
      BumpDistinct(before, x);
      var all := Bump(before, x);
      if |all| > size { DistinctTail(all, |all| - size); }
    }
  }

  lemma BumpDistinct(order: seq<CacheKey>, x: CacheKey)
    requires Distinct(order)
    ensures Distinct(Bump(order, x))
  {
    RemoveDistinct(order, x);
    assert Bump(order, x)[..|Remove(order, x)|] == Remove(order, x);
  }

  /** A key used at all: what stands behind it is what was used since, and it is there while that is fewer than `size`. */
  ghost predicate Remembered(size: nat, order: seq<CacheKey>, k: CacheKey, since: set<CacheKey>) {
    && (k in order <==> |since| < size)
    && (k in order ==> Keys(Behind(order, k)) == since)
  }

  lemma {:induction false} CountKeys(order: seq<CacheKey>)
    requires Distinct(order)
    ensures |Keys(order)| == |order|
  {
    if order != [] {
      var front := order[..|order| - 1];
      CountKeys(front);
      assert order == front + [order[|order| - 1]];
      assert Keys(order) == Keys(front) + {order[|order| - 1]};
    } else {
      assert Keys(order) == {};
    }
  }

  lemma UsedLast(size: nat, order: seq<CacheKey>, k: CacheKey)
    requires Distinct(order)
    ensures Remembered(size, Recent(Bump(order, k), size), k, {})
  {
    BumpDistinct(order, k);
    var all := Bump(order, k);
    BehindAt(all, |all| - 1);
    RecentKeeps(all, |all| - 1, size);
    assert Keys(Behind(all, k)) == {};
  }

  lemma KeysAdd(a: seq<CacheKey>, x: CacheKey)
    ensures Keys(Remove(a, x) + [x]) == Keys(a) + {x}
  {}

  lemma UsedOther(size: nat, order: seq<CacheKey>, k: CacheKey, since: set<CacheKey>, x: CacheKey)
    requires Distinct(order) && Remembered(size, order, k, since) && x != k
    ensures Remembered(size, Recent(Bump(order, x), size), k, since + {x})
  {
    if k in order {
      BehindBump(order, k, x);
      KeysAdd(Behind(order, k), x);
      StillThere(size, order, k, since + {x}, x);
    } else {
      assert k !in Bump(order, x);
      Grows(since, x);
    }
  }

  lemma StillThere(size: nat, order: seq<CacheKey>, k: CacheKey, since: set<CacheKey>, x: CacheKey)
    requires Distinct(order) && k in order && x != k && Keys(Behind(Bump(order, x), k)) == since
    ensures Remembered(size, Recent(Bump(order, x), size), k, since)
  {
    BumpDistinct(order, x);
    var all := Bump(order, x);
    assert k in Remove(order, x);
    var i :| 0 <= i < |all| && all[i] == k;
    RecentKeeps(all, i, size);
    BehindAt(all, i);
    DistinctTail(all, i + 1);
    CountKeys(Behind(all, k));
  }

  lemma Grows(s: set<CacheKey>, x: CacheKey)
    ensures |s| <= |s + {x}|
  {
    if x !in s { assert |s + {x}| == |s| + 1; } else { assert s + {x} == s; }
  }

  /** The keys used since the last use of `k`. */
  function Since(uses: seq<CacheKey>, k: CacheKey): set<CacheKey> {
    if uses == [] || uses[|uses| - 1] == k then {} else Since(uses[..|uses| - 1], k) + {uses[|uses| - 1]}
  }

  lemma {:induction false} RememberedAfter(size: nat, uses: seq<CacheKey>, k: CacheKey)
    requires k in uses
    ensures Remembered(size, After(size, uses), k, Since(uses, k))
  {
    var front, x := uses[..|uses| - 1], uses[|uses| - 1];
    AfterOrdered(size, front);
    if x == k {
      UsedLast(size, After(size, front), k);
    } else {
      assert uses == front + [x];
      RememberedAfter(size, front, k);
      UsedOther(size, After(size, front), k, Since(front, k), x);
    }
  }

  lemma {:induction false} OnlyUsed(size: nat, uses: seq<CacheKey>)
    ensures forall k :: k in After(size, uses) ==> k in uses
  {
    if uses != [] {
      OnlyUsed(size, uses[..|uses| - 1]);
      assert uses == uses[..|uses| - 1] + [uses[|uses| - 1]];
    }
  }

  /** Over any uses, a key is remembered exactly while fewer than `size` other keys were used since its last use. */
  lemma LeastRecentlyUsed(size: nat, uses: seq<CacheKey>, k: CacheKey)
    ensures k in After(size, uses) <==> k in uses && |Since(uses, k)| < size
  {
    OnlyUsed(size, uses);
    if k in uses { RememberedAfter(size, uses, k); }
  }
}
