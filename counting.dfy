/**
 * Occurrence counting shared by the in-memory statistics and the durable
 * store: `counts[x]++` on a `std::map` and the `COALESCE(old + 1, 1)` upsert
 * are the same step, `Increment`, and folding it over a sequence yields the
 * exact occurrence count of every element (`Tally`).
 */
module Counting {

  function Min(a: nat, b: nat): nat
  {
    if a <= b then a else b
  }

  /** Number of occurrences of `x` in `s`. */
  function Count<T(==)>(s: seq<T>, x: T): (n: nat)
    ensures n <= |s|
    ensures n > 0 <==> x in s
  {
    if s == [] then 0
    else
      var init := s[..|s| - 1];
      assert s == init + [s[|s| - 1]];
      Count(init, x) + (if s[|s| - 1] == x then 1 else 0)
  }

  /**
   * One occurrence of `x` more: an absent key starts at 1, a present key is
   * raised by one, and every other key keeps its count.
   */
  function Increment<T>(m: map<T, nat>, x: T): (r: map<T, nat>)
    ensures r.Keys == m.Keys + {x}
    ensures x in m ==> r[x] == m[x] + 1
    ensures x !in m ==> r[x] == 1
    ensures forall y :: y in m && y != x ==> r[y] == m[y]
  {
    m[x := if x in m then m[x] + 1 else 1]
  }

  /** The occurrence map of `s`, built by incrementing once per element, oldest first. */
  function Tally<T>(s: seq<T>): map<T, nat>
  {
    if s == [] then map[] else Increment(Tally(s[..|s| - 1]), s[|s| - 1])
  }

  lemma TallySnoc<T>(s: seq<T>, x: T)
    ensures Tally(s + [x]) == Increment(Tally(s), x)
  {
    assert (s + [x])[..|s + [x]| - 1] == s;
  }

  lemma CountSnoc<T>(s: seq<T>, x: T, y: T)
    ensures Count(s + [x], y) == Count(s, y) + (if x == y then 1 else 0)
  {
    assert (s + [x])[..|s + [x]| - 1] == s;
  }

  /** The keys of the tally are exactly the values present, and each maps to its exact count. */
  lemma {:induction false} TallyIsExactCount<T>(s: seq<T>, x: T)
    ensures x in Tally(s) <==> x in s
    ensures x in Tally(s) ==> Tally(s)[x] == Count(s, x)
  {
    if s != [] {
      var init := s[..|s| - 1];
      assert s == init + [s[|s| - 1]];
      TallyIsExactCount(init, x);
      CountSnoc(init, s[|s| - 1], x);
    }
  }

  lemma TallyKeys<T>(s: seq<T>)
    ensures Tally(s).Keys == set x | x in s
  {
    forall x ensures x in Tally(s) <==> x in s {
      TallyIsExactCount(s, x);
    }
  }

  /** Positive counts: what a tally, and the durable table, hold for every key. */
  ghost predicate AllPositive<T>(m: map<T, nat>)
  {
    forall x :: x in m ==> m[x] >= 1
  }

  lemma {:induction false} TallyPositive<T>(s: seq<T>)
    ensures AllPositive(Tally(s))
  {
    if s != [] {
      TallyPositive(s[..|s| - 1]);
    }
  }

  /** Some key of a non-empty map, chosen once and for all so that `MapSum` is a function. */
  ghost function Pick<T>(m: map<T, nat>): (k: T)
    requires m != map[]
    ensures k in m
  {
    var k :| k in m; k
  }

  /** The sum of all values of `m` (SQL's `SUM` over a column, 0 on no rows). */
  ghost function MapSum<T>(m: map<T, nat>): nat
    decreases |m|
  {
    if m == map[] then 0
    else
      var k := Pick(m);
      assert |m - {k}| == |m| - 1;
      m[k] + MapSum(m - {k})
  }

  /** Any key may be taken out first: the sum does not depend on the order. */
  lemma {:induction false} MapSumRemove<T>(m: map<T, nat>, k: T)
    requires k in m
    ensures MapSum(m) == m[k] + MapSum(m - {k})
    decreases |m|
  {
    var j := Pick(m);
    if j != k {
      assert |m - {j}| == |m| - 1;
      assert |m - {k}| == |m| - 1;
      MapSumRemove(m - {j}, k);
      MapSumRemove(m - {k}, j);
      assert m - {j} - {k} == m - {k} - {j};
    }
  }

  lemma MapSumIncrement<T>(m: map<T, nat>, x: T)
    ensures MapSum(Increment(m, x)) == MapSum(m) + 1
  {
    var r := Increment(m, x);
    MapSumRemove(r, x);
    if x in m {
      MapSumRemove(m, x);
      assert r - {x} == m - {x};
    } else {
      assert r - {x} == m;
    }
  }

  /** The counts of a tally add up to the length of the sequence. */
  lemma {:induction false} TallySum<T>(s: seq<T>)
    ensures MapSum(Tally(s)) == |s|
  {
    if s != [] {
      TallySum(s[..|s| - 1]);
      MapSumIncrement(Tally(s[..|s| - 1]), s[|s| - 1]);
    }
  }

  /** `m` restricted to the keys in `keep`. */
  function Restrict<T>(m: map<T, nat>, keep: set<T>): (r: map<T, nat>)
    ensures r.Keys == m.Keys * keep
    ensures forall x :: x in r ==> r[x] == m[x]
  {
    map x | x in m && x in keep :: m[x]
  }

  /** Adds up the values of `m`, one key at a time in an unspecified order. */
  method SumValues<T>(m: map<T, nat>) returns (total: nat)
    ensures total == MapSum(m)
  {
    total := 0;
    var remaining := m.Keys;
    assert Restrict(m, remaining) == m;
    while remaining != {}
      invariant remaining <= m.Keys
      invariant total + MapSum(Restrict(m, remaining)) == MapSum(m)
      decreases |remaining|
    {
      var k :| k in remaining;
      MapSumRemove(Restrict(m, remaining), k);
      assert Restrict(m, remaining) - {k} == Restrict(m, remaining - {k});
      total := total + m[k];
      remaining := remaining - {k};
    }
    assert Restrict(m, remaining) == map[];
  }
}
