/** Sums over finite maps, and counting in finite sets. */
module Sums {
  ghost function AnyOf<T>(s: set<T>): (i: T)
    requires s != {}
    ensures i in s
  {
    var i :| i in s;
    i
  }

  method Pick<T(==)>(s: set<T>) returns (x: T)
    requires s != {}
    ensures x in s
  {
    x :| x in s;
  }

  ghost function Sum<K>(w: map<K, int>): int
    decreases |w|
  {
    if w.Keys == {} then 0
    else
      var k :| k in w.Keys;
      w[k] + Sum(w - {k})
  }

  /** The sum does not depend on the order of the keys. */
  lemma {:induction false} SumSplit<K>(w: map<K, int>, k: K)
    requires k in w
    ensures Sum(w) == w[k] + Sum(w - {k})
    decreases |w|
  {
    var p :| p in w.Keys && Sum(w) == w[p] + Sum(w - {p});
    if p != k {
      SumSplit(w - {p}, k);
      SumSplit(w - {k}, p);
      assert w - {p} - {k} == w - {k} - {p};
    }
  }

  lemma SumUpdate<K>(w: map<K, int>, k: K, x: int)
    ensures Sum(w[k := x]) == Sum(w - {k}) + x
    ensures k in w ==> Sum(w) == Sum(w - {k}) + w[k]
    ensures k !in w ==> Sum(w[k := x]) == Sum(w) + x
  {
    SumSplit(w[k := x], k);
    assert w[k := x] - {k} == w - {k};
    if k in w {
      SumSplit(w, k);
    } else {
      assert w - {k} == w;
    }
  }

  /** Adding up two columns. */
  lemma {:induction false} SumOfColumns<K>(w: map<K, int>, v: map<K, int>, both: map<K, int>)
    requires w.Keys == v.Keys == both.Keys
    requires forall k :: k in w ==> both[k] == w[k] + v[k]
    ensures Sum(both) == Sum(w) + Sum(v)
    decreases |w|
  {
    if w.Keys != {} {
      var k :| k in w.Keys;
      SumSplit(w, k);
      SumSplit(v, k);
      SumSplit(both, k);
      assert |w - {k}| < |w| by { assert (w - {k}).Keys < w.Keys; SmallerMap(w, k); }
      SumOfColumns(w - {k}, v - {k}, both - {k});
    }
  }

  lemma SmallerMap<K, V>(w: map<K, V>, k: K)
    requires k in w
    ensures |w - {k}| == |w| - 1
  {
    assert (w - {k}).Keys == w.Keys - {k};
  }

  /** A column of zeros and ones adds up to the number of ones. */
  lemma {:induction false} SumOfOnes<K>(w: map<K, int>, ones: set<K>)
    requires ones <= w.Keys && forall k :: k in w ==> w[k] == (if k in ones then 1 else 0)
    ensures Sum(w) == |ones|
    decreases |w|
  {
    if w.Keys == {} {
      assert ones == {};
    } else {
      var k :| k in w.Keys;
      SumSplit(w, k);
      SmallerMap(w, k);
      SumOfOnes(w - {k}, ones - {k});
    }
  }

  lemma {:induction false} SumNonNegative<K>(w: map<K, int>)
    requires forall k :: k in w ==> w[k] >= 0
    ensures Sum(w) >= 0
    decreases |w|
  {
    if w.Keys != {} {
      var k :| k in w.Keys && Sum(w) == w[k] + Sum(w - {k});
      SmallerMap(w, k);
      SumNonNegative(w - {k});
    }
  }

  /** A subset is no larger, and as large only when it is the whole set. */
  lemma SubsetSize<T>(a: set<T>, b: set<T>)
    requires a <= b
    ensures |a| <= |b| && (|a| == |b| ==> a == b)
  {
    assert b == a + (b - a);
  }

  /** The places of a list whose rows satisfy a condition. */
  ghost function Places<T>(rows: seq<T>, holds: T -> bool): set<nat> {
    set i: nat | i < |rows| && holds(rows[i])
  }

  /** Counts the rows that satisfy a condition: none exactly when no row does. */
  method CountRows<T>(rows: seq<T>, holds: T -> bool) returns (count: nat)
    ensures count == |Places(rows, holds)|
    ensures count == 0 <==> forall row :: row in rows ==> !holds(row)
  {
    count := 0;
    ghost var found: set<nat> := {};
    for i := 0 to |rows|
      invariant found == (set k: nat | k < i && holds(rows[k])) && count == |found|
    {
      if holds(rows[i]) {
        assert i !in found;
        count, found := count + 1, found + {i};
      }
    }
    assert found == Places(rows, holds);
    if count == 0 {
      assert found == {};
      forall row | row in rows ensures !holds(row) {
        var i :| 0 <= i < |rows| && rows[i] == row;
        assert i !in found;
      }
    } else {
      var i := AnyOf(found);
      assert rows[i] in rows && holds(rows[i]);
    }
  }

  /** The keys whose rows satisfy a condition. */
  ghost function KeysWhere<K, V>(rows: map<K, V>, holds: V -> bool): set<K> {
    set k | k in rows && holds(rows[k])
  }

  /** Counts the keys whose rows satisfy a condition. */
  method CountKeys<K(==), V>(rows: map<K, V>, holds: V -> bool) returns (count: nat)
    ensures count == |KeysWhere(rows, holds)|
  {
    count := 0;
    var rest := rows.Keys;
    ghost var found: set<K> := {};
    while rest != {}
      invariant rest <= rows.Keys && found == (set k | k in rows.Keys - rest && holds(rows[k])) && count == |found|
      decreases |rest|
    {
      var k := Pick(rest);
      if holds(rows[k]) {
        count, found := count + 1, found + {k};
      }
      rest := rest - {k};
    }
    assert found == KeysWhere(rows, holds);
  }
}
