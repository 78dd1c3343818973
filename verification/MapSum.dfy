/** The sum of a finite map's values, independent of any order. */
module MapSum {
  ghost function Sum<K>(m: map<K, nat>): nat {
    if m == map[] then 0
    else
      var k :| k in m;
      m[k] + Sum(m - {k})
  }

  lemma {:induction false} SumPick<K>(m: map<K, nat>, k: K)
    requires k in m
    ensures Sum(m) == m[k] + Sum(m - {k})
    decreases |m|
  {
    var l :| l in m && Sum(m) == m[l] + Sum(m - {l});
    if l != k {
      SumPick(m - {l}, k);
      SumPick(m - {k}, l);
      assert m - {l} - {k} == m - {k} - {l};
    }
  }

  lemma SumInsert<K>(m: map<K, nat>, k: K, v: nat)
    requires k !in m
    ensures Sum(m[k := v]) == Sum(m) + v
  {
    SumPick(m[k := v], k);
    assert m[k := v] - {k} == m;
  }

  lemma UnionWithout<K>(a: map<K, nat>, b: map<K, nat>, k: K)
    requires k in b
    ensures a + b == (a + (b - {k}))[k := b[k]]
  {
  }

  lemma {:induction false} SumUnion<K>(a: map<K, nat>, b: map<K, nat>)
    requires forall k | k in a :: k !in b
    ensures Sum(a + b) == Sum(a) + Sum(b)
    decreases |b|
  {
    if b == map[] {
      assert a + b == a;
    } else {
      var k :| k in b;
      var rest := b - {k};
      SumUnion(a, rest);
      SumPick(b, k);
      UnionWithout(a, b, k);
      SumInsert(a + rest, k, b[k]);
    }
  }

  lemma {:induction false} SumZero<K>(m: map<K, nat>)
    ensures Sum(m) == 0 <==> forall k | k in m :: m[k] == 0
    decreases |m|
  {
    if m != map[] {
      var k :| k in m && Sum(m) == m[k] + Sum(m - {k});
      SumZero(m - {k});
      assert forall l | l in m && l != k :: l in m - {k};
    }
  }

  /** Renaming keys one to one does not change the sum. */
  lemma {:induction false} SumRename<K, L>(m: map<K, nat>, n: map<L, nat>, name: K -> L)
    requires forall k | k in m :: name(k) in n && n[name(k)] == m[k]
    requires forall k, l | k in m && l in m :: name(k) == name(l) ==> k == l
    requires forall l | l in n :: exists k :: k in m && name(k) == l
    ensures Sum(m) == Sum(n)
    decreases |m|
  {
    if m == map[] {
      assert n == map[];
    } else {
      var k :| k in m && Sum(m) == m[k] + Sum(m - {k});
      forall l | l in n - {name(k)} ensures exists k' :: k' in m - {k} && name(k') == l {
        var k' :| k' in m && name(k') == l;
        assert k' in m - {k} && name(k') == l;
      }
      SumRename(m - {k}, n - {name(k)}, name);
      SumPick(n, name(k));
    }
  }
}
