/** Signed 64-bit arithmetic as Go does it. */
module Int64 {
  const TWO_63: int := 0x8000_0000_0000_0000
  const TWO_64: int := 0x1_0000_0000_0000_0000

  predicate InRange(x: int) {
    -TWO_63 <= x < TWO_63
  }

  function Min(a: int, b: int): (r: int)
    ensures r <= a && r <= b && (r == a || r == b)
  {
    if a < b then a else b
  }

  /** The int64 that `x` becomes when its high bits are dropped. */
  function Wrap(x: int): (r: int)
    ensures InRange(r)
    ensures InRange(x) ==> r == x
  {
    (x + TWO_63) % TWO_64 - TWO_63
  }

  lemma WrapAdd(a: int, b: int)
    ensures Wrap(Wrap(a) + b) == Wrap(a + b)
  {
    ModAdd(a + TWO_63, b);
    assert Wrap(a) + b + TWO_63 == (a + TWO_63) % TWO_64 + b;
  }

  lemma ModAdd(a: int, b: int)
    ensures (a % TWO_64 + b) % TWO_64 == (a + b) % TWO_64
  {
    var q, r := (a % TWO_64 + b) / TWO_64, (a % TWO_64 + b) % TWO_64;
    ModUnique(a + b, a / TWO_64 + q, r);
  }

  lemma ModUnique(x: int, q: int, r: int)
    requires x == TWO_64 * q + r && 0 <= r < TWO_64
    ensures x % TWO_64 == r
  {
  }
}

/** Sums over the values of a finite map, whatever the order they are taken in. */
module Totals {
  import opened Int64

  ghost function Total<K>(m: map<K, int>): int {
    if m == map[] then 0
    else
      var k :| k in m;
      m[k] + Total(m - {k})
  }

  lemma TotalPick<K>(m: map<K, int>) returns (k: K)
    requires m != map[]
    ensures k in m && Total(m) == m[k] + Total(m - {k})
  {
    k :| k in m && Total(m) == m[k] + Total(m - {k});
  }

  lemma {:induction false} TotalAt<K>(m: map<K, int>, k: K)
    requires k in m
    ensures Total(m) == m[k] + Total(m - {k})
    decreases |m|
  {
    hide Total;
    var j := TotalPick(m);
    if j != k {
      TotalAt(m - {j}, k);
      TotalAt(m - {k}, j);
      assert m - {j} - {k} == m - {k} - {j};
    }
  }

  lemma TotalInsert<K>(m: map<K, int>, k: K, v: int)
    requires k !in m
    ensures Total(m[k := v]) == Total(m) + v
  {
    TotalAt(m[k := v], k);
    assert m[k := v] - {k} == m;
  }

  lemma TotalUpdate<K>(m: map<K, int>, k: K, v: int)
    requires k in m
    ensures Total(m[k := v]) == Total(m) - m[k] + v
  {
    TotalAt(m, k);
    TotalAt(m[k := v], k);
    assert m[k := v] - {k} == m - {k};
  }

  /** The part of `m` that `g` sends to `n`. */
  ghost function Group<K, N>(m: map<K, int>, g: map<K, N>, n: N): map<K, int>
    requires g.Keys == m.Keys
  {
    map k | k in m && g[k] == n :: m[k]
  }

  ghost function GroupTotals<K, N(!new)>(m: map<K, int>, g: map<K, N>, names: set<N>): map<N, int>
    requires g.Keys == m.Keys
  {
    map n | n in names :: Total(Group(m, g, n))
  }

  lemma {:induction false} TotalOfZeros<K>(m: map<K, int>)
    requires forall k | k in m :: m[k] == 0
    ensures Total(m) == 0
    decreases |m|
  {
    if k :| k in m {
      TotalAt(m, k);
      TotalOfZeros(m - {k});
    }
  }

  /** Adding up group by group gives the whole. */
  lemma {:induction false} TotalByGroups<K, N(!new)>(m: map<K, int>, g: map<K, N>, names: set<N>)
    requires g.Keys == m.Keys && forall k | k in g :: g[k] in names
    ensures Total(GroupTotals(m, g, names)) == Total(m)
    decreases |m|
  {
    hide Total;
    if k :| k in m {
      var m', g', n := m - {k}, g - {k}, g[k];
      TotalAt(m, k);
      TotalByGroups(m', g', names);
      assert Group(m, g, n) == Group(m', g', n)[k := m[k]];
      TotalInsert(Group(m', g', n), k, m[k]);
      forall x | x in names && x != n ensures Group(m, g, x) == Group(m', g', x) {}
      var before := GroupTotals(m', g', names);
      assert GroupTotals(m, g, names) == before[n := before[n] + m[k]];
      TotalUpdate(before, n, before[n] + m[k]);
    } else {
      forall x | x in names ensures Group(m, g, x) == map[] {}
      TotalOfZeros<K>(map[]);
      TotalOfZeros(GroupTotals(m, g, names));
      TotalOfZeros(m);
    }
  }

  ghost function Wrapped<K>(m: map<K, int>): map<K, int> {
    map k | k in m :: Wrap(m[k])
  }

  /** Wrapping the parts first does not change the wrapped sum. */
  lemma {:induction false} TotalOfWrapped<K>(m: map<K, int>)
    ensures Wrap(Total(Wrapped(m))) == Wrap(Total(m))
    decreases |m|
  {
    hide Total, Wrap;
    if k :| k in m {
      TotalAt(m, k);
      TotalAt(Wrapped(m), k);
      assert Wrapped(m) - {k} == Wrapped(m - {k});
      TotalOfWrapped(m - {k});
      var rest, w := Total(m - {k}), Total(Wrapped(m - {k}));
      WrapAdd(m[k], w);
      WrapAdd(w, m[k]);
      WrapAdd(rest, m[k]);
    } else {
      assert Wrapped(m) == m;
    }
  }
}
