/** Sums over the values of a finite map. */
module Sums {

  ghost function Sum<K(!new)>(m: map<K, nat>): nat
    decreases |m|
  {
    if m == map[] then 0
    else
      var k :| k in m;
      m[k] + Sum(m - {k})
  }

  /** Any key may be taken out first. */
  lemma {:induction false} SumRemove<K(!new)>(m: map<K, nat>, k: K)
    requires k in m
    ensures Sum(m) == m[k] + Sum(m - {k})
    decreases |m|
  {
    var first :| first in m && Sum(m) == m[first] + Sum(m - {first});
    if first != k {
      SumRemove(m - {first}, k);
      SumRemove(m - {k}, first);
      assert m - {first} - {k} == m - {k} - {first};
    }
  }

  lemma {:induction false} SumSplit<K(!new)>(m: map<K, nat>, keys: set<K>)
    ensures Sum(m) == Sum(map k | k in m && k in keys :: m[k]) + Sum(m - keys)
    decreases |m|
  {
    var inside := map k | k in m && k in keys :: m[k];
    if k :| k in m && k in keys {
      SumRemove(m, k);
      SumRemove(inside, k);
      SumSplit(m - {k}, keys);
      assert (map x | x in m - {k} && x in keys :: (m - {k})[x]) == inside - {k};
      assert m - {k} - keys == m - keys;
    } else {
      assert m - keys == m && inside == map[];
    }
  }

  lemma {:induction false} SumsAdd<K(!new)>(a: map<K, nat>, b: map<K, nat>, c: map<K, nat>)
    requires a.Keys == b.Keys == c.Keys && forall k :: k in a ==> a[k] == b[k] + c[k]
    ensures Sum(a) == Sum(b) + Sum(c)
    decreases |a|
  {
    if k :| k in a {
      SumRemove(a, k);
      SumRemove(b, k);
      SumRemove(c, k);
      SumsAdd(a - {k}, b - {k}, c - {k});
    }
  }

  /** A map cut in two. */
  lemma SumParts<K(!new)>(m: map<K, nat>, a: map<K, nat>, b: map<K, nat>)
    requires forall k :: k in m ==> k in a || k in b
    requires forall k :: k in a ==> k in m && k !in b && m[k] == a[k]
    requires forall k :: k in b ==> k in m && m[k] == b[k]
    ensures Sum(m) == Sum(a) + Sum(b)
  {
    hide Sum;
    SumSplit(m, a.Keys);
    assert (map k | k in m && k in a.Keys :: m[k]) == a;
    assert m - a.Keys == b;
  }

  /** What shrinks loses what is gone and what each remaining value has lost. */
  lemma SumShrinks<K(!new)>(was: map<K, nat>, now: map<K, nat>, gone: map<K, nat>, lost: map<K, nat>)
    requires forall k :: k in was ==> k in now || k in gone
    requires lost.Keys == now.Keys && forall k :: k in now ==> k in was && k !in gone && was[k] == now[k] + lost[k]
    requires forall k :: k in gone ==> k in was && was[k] == gone[k]
    ensures Sum(was) == Sum(now) + Sum(gone) + Sum(lost)
  {
    hide Sum;
    var kept := map k | k in now :: was[k];
    SumParts(was, kept, gone);
    SumsAdd(kept, now, lost);
  }

  lemma {:induction false} SumOfZeros<K(!new)>(m: map<K, nat>)
    requires forall k :: k in m ==> m[k] == 0
    ensures Sum(m) == 0
    decreases |m|
  {
    if k :| k in m {
      SumRemove(m, k);
      SumOfZeros(m - {k});
    }
  }
}
