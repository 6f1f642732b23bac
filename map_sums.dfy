/**
 * Sums of per-key amounts over a set of keys, in no particular order. A Java `HashMap` is
 * iterated in an unspecified order, so what the order-session code adds up over its cart
 * must not depend on the order; these lemmas say that it does not.
 */
module MapSums {

  /** The sum of `w[k]` over the keys `k` in `keys`, picking them in an arbitrary order. */
  ghost function SumOver(keys: set<string>, w: map<string, int>): int
    requires keys <= w.Keys
    decreases keys
  {
    if keys == {} then 0
    else
      var k :| k in keys;
      w[k] + SumOver(keys - {k}, w)
  }

  /** Any key can be taken first: the sum does not depend on the order of iteration. */
  lemma {:induction false} SumOverPick(keys: set<string>, w: map<string, int>, k: string)
    requires keys <= w.Keys && k in keys
    ensures SumOver(keys, w) == w[k] + SumOver(keys - {k}, w)
    decreases keys
  {
    var j :| j in keys && SumOver(keys, w) == w[j] + SumOver(keys - {j}, w);
    if j != k {
      SumOverPick(keys - {j}, w, k);
      SumOverPick(keys - {k}, w, j);
      assert keys - {j} - {k} == keys - {k} - {j};
    }
  }

  /** Amounts that agree on the keys give the same sum. */
  lemma {:induction false} SumOverAgree(keys: set<string>, w: map<string, int>, v: map<string, int>)
    requires keys <= w.Keys && keys <= v.Keys
    requires forall k :: k in keys ==> w[k] == v[k]
    ensures SumOver(keys, w) == SumOver(keys, v)
    decreases keys
  {
    if keys != {} {
      var k :| k in keys;
      SumOverPick(keys, w, k);
      SumOverPick(keys, v, k);
      SumOverAgree(keys - {k}, w, v);
    }
  }

  /** Non-negative amounts have a sum no smaller than any one of them. */
  lemma {:induction false} SumOverBoundsEach(keys: set<string>, w: map<string, int>, k: string)
    requires keys <= w.Keys && k in keys
    requires forall j :: j in keys ==> w[j] >= 0
    ensures w[k] <= SumOver(keys, w)
  {
    SumOverPick(keys, w, k);
    SumOverNonNegative(keys - {k}, w);
  }

  lemma {:induction false} SumOverNonNegative(keys: set<string>, w: map<string, int>)
    requires keys <= w.Keys
    requires forall j :: j in keys ==> w[j] >= 0
    ensures SumOver(keys, w) >= 0
    decreases keys
  {
    if keys != {} {
      var k :| k in keys;
      SumOverPick(keys, w, k);
      SumOverNonNegative(keys - {k}, w);
    }
  }

  /** Non-negative amounts sum to more than zero exactly when one of them is more than zero. */
  lemma {:induction false} SumOverPositive(keys: set<string>, w: map<string, int>)
    requires keys <= w.Keys
    requires forall j :: j in keys ==> w[j] >= 0
    ensures SumOver(keys, w) > 0 <==> exists k :: k in keys && w[k] > 0
    decreases keys
  {
    if keys != {} {
      var k :| k in keys;
      SumOverPick(keys, w, k);
      SumOverNonNegative(keys - {k}, w);
      SumOverPositive(keys - {k}, w);
    }
  }

  /** Changing one key's amount changes the sum by the same difference. */
  lemma SumOverUpdate(keys: set<string>, w: map<string, int>, k: string, x: int)
    requires keys <= w.Keys && k in keys
    ensures SumOver(keys, w[k := x]) == SumOver(keys, w) - w[k] + x
  {
    SumOverPick(keys, w, k);
    SumOverPick(keys, w[k := x], k);
    SumOverAgree(keys - {k}, w, w[k := x]);
  }

  /** Adding a new key adds its amount. */
  lemma SumOverInsert(keys: set<string>, w: map<string, int>, k: string)
    requires keys <= w.Keys && k in w && k !in keys
    ensures SumOver(keys + {k}, w) == SumOver(keys, w) + w[k]
  {
    SumOverPick(keys + {k}, w, k);
    assert keys + {k} - {k} == keys;
  }
}
