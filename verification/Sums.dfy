// Sums over the values of a finite map: SQL's SUM and the size walks.

module Sums {

  ghost function Sum<K(!new)>(m: map<K, nat>): nat {
    if m == map[] then 0
    else
      var k :| k in m;
      m[k] + Sum(m - {k})
  }

  lemma {:induction false} SumSplit<K(!new)>(m: map<K, nat>, k: K)
    requires k in m
    ensures Sum(m) == m[k] + Sum(m - {k})
    decreases |m|
  {
    var j :| j in m && Sum(m) == m[j] + Sum(m - {j});
    if j != k {
      assert |m - {j}| < |m| && |m - {k}| < |m| by {
        assert (m - {j}).Keys == m.Keys - {j} && (m - {k}).Keys == m.Keys - {k};
      }
      SumSplit(m - {j}, k);
      SumSplit(m - {k}, j);
      assert m - {j} - {k} == m - {k} - {j};
    }
  }

  lemma SumAdd<K(!new)>(m: map<K, nat>, k: K, v: nat)
    requires k !in m
    ensures Sum(m[k := v]) == Sum(m) + v
  {
    SumSplit(m[k := v], k);
    assert m[k := v] - {k} == m;
  }

  /** Renaming the keys one to one leaves the sum alone. */
  lemma {:induction false} SumRenamed<K(!new), L(!new)>(m: map<K, nat>, n: map<L, nat>, name: map<K, L>)
    requires name.Keys == m.Keys && name.Values == n.Keys
    requires forall j, k :: j in m && k in m && name[j] == name[k] ==> j == k
    requires forall k :: k in m ==> n[name[k]] == m[k]
    ensures Sum(m) == Sum(n)
    decreases |m|
  {
    if m == map[] {
      assert n == map[];
    } else {
      var k :| k in m;
      var l := name[k];
      SumSplit(m, k);
      SumSplit(n, l);
      var m', n', name' := m - {k}, n - {l}, name - {k};
      assert |m'| < |m| by {
        assert m'.Keys == m.Keys - {k};
      }
      assert name'.Values == n'.Keys by {
        forall x | x in n' ensures x in name'.Values {
          var j :| j in m && name[j] == x;
          assert name'[j] == x;
        }
      }
      SumRenamed(m', n', name');
    }
  }
}
