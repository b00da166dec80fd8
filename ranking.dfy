/**
 * Top-N rankings of a count map: copy the (key, count) pairs into an
 * array, sort it in place by descending count (ties in no particular
 * order, as with an unstable sort or an SQL `ORDER BY` on one column),
 * and keep the first `limit` entries.
 */
module Ranking {
  import opened Counting

  type Entry = (string, nat)

  ghost predicate NonIncreasing(r: seq<Entry>)
  {
    forall i, j :: 0 <= i < j < |r| ==> r[i].1 >= r[j].1
  }

  ghost predicate DistinctKeys(r: seq<Entry>)
  {
    forall i, j :: 0 <= i < j < |r| ==> r[i].0 != r[j].0
  }

  ghost function KeysOf(r: seq<Entry>): set<string>
  {
    set i | 0 <= i < |r| :: r[i].0
  }

  /** Every entry is a key of `counts` paired with its exact count. */
  ghost predicate ExactEntries(r: seq<Entry>, counts: map<string, nat>)
  {
    forall i :: 0 <= i < |r| ==> r[i].0 in counts && r[i].1 == counts[r[i].0]
  }

  /**
   * `r` is a top-`limit` ranking of `counts`: as many entries as the limit
   * and the number of keys allow, exact counts, no key twice, counts
   * non-increasing, and no key left out has a count above the last one kept.
   */
  ghost predicate IsTopN(r: seq<Entry>, counts: map<string, nat>, limit: nat)
  {
    && |r| == Min(limit, |counts|)
    && ExactEntries(r, counts)
    && DistinctKeys(r)
    && NonIncreasing(r)
    && (forall k :: k in counts && k !in KeysOf(r) && 0 < |r| ==> counts[k] <= r[|r| - 1].1)
  }

  method Swap(a: array<Entry>, i: nat, j: nat)
    requires i < a.Length && j < a.Length
    modifies a
    ensures a[i] == old(a[j]) && a[j] == old(a[i])
    ensures forall k :: 0 <= k < a.Length && k != i && k != j ==> a[k] == old(a[k])
    ensures multiset(a[..]) == multiset(old(a[..]))
  {
    a[i], a[j] := a[j], a[i];
  }

  /** Insertion sort by descending count; the result is a permutation of the input. */
  method SortByCountDescending(a: array<Entry>)
    modifies a
    ensures NonIncreasing(a[..])
    ensures multiset(a[..]) == multiset(old(a[..]))
  {
    var i := 0;
    while i < a.Length
      invariant 0 <= i <= a.Length
      invariant forall p, q :: 0 <= p < q < i ==> a[p].1 >= a[q].1
      invariant multiset(a[..]) == multiset(old(a[..]))
    {
      var j := i;
      while j > 0 && a[j - 1].1 < a[j].1
        invariant 0 <= j <= i
        invariant forall p, q :: 0 <= p < q <= i && p != j && q != j ==> a[p].1 >= a[q].1
        invariant forall q :: j < q <= i ==> a[j].1 >= a[q].1
        invariant multiset(a[..]) == multiset(old(a[..]))
      {
        Swap(a, j - 1, j);
        j := j - 1;
      }
      i := i + 1;
    }
  }

  /** The pairs of `counts`, one per key, in an unspecified order. */
  method EntriesOf(counts: map<string, nat>) returns (e: seq<Entry>)
    ensures |e| == |counts|
    ensures ExactEntries(e, counts)
    ensures DistinctKeys(e)
    ensures KeysOf(e) == counts.Keys
  {
    e := [];
    var remaining := counts.Keys;
    while remaining != {}
      invariant remaining <= counts.Keys
      invariant |e| + |remaining| == |counts|
      invariant ExactEntries(e, counts)
      invariant DistinctKeys(e)
      invariant KeysOf(e) == counts.Keys - remaining
      decreases |remaining|
    {
      var k :| k in remaining;
      NewKeyKeepsEntries(e, counts, k);
      e := e + [(k, counts[k])];
      remaining := remaining - {k};
    }
  }

  /** Appending the pair of a key not yet listed keeps the entries exact and distinct. */
  lemma NewKeyKeepsEntries(e: seq<Entry>, counts: map<string, nat>, k: string)
    requires k in counts && k !in KeysOf(e)
    requires ExactEntries(e, counts) && DistinctKeys(e)
    ensures ExactEntries(e + [(k, counts[k])], counts) && DistinctKeys(e + [(k, counts[k])])
    ensures KeysOf(e + [(k, counts[k])]) == KeysOf(e) + {k}
  {
    KeysOfSnoc(e, (k, counts[k]));
    assert forall i :: 0 <= i < |e| ==> e[i].0 in KeysOf(e);
  }

  lemma KeysOfSnoc(e: seq<Entry>, x: Entry)
    ensures KeysOf(e + [x]) == KeysOf(e) + {x.0}
  {
    var f := e + [x];
    forall k | k in KeysOf(f)
      ensures k in KeysOf(e) + {x.0}
    {
      var i :| 0 <= i < |f| && f[i].0 == k;
      if i < |e| {
        assert e[i].0 == k;
      }
    }
    forall k | k in KeysOf(e) + {x.0}
      ensures k in KeysOf(f)
    {
      if k == x.0 {
        assert f[|e|].0 == k;
      } else {
        var i :| 0 <= i < |e| && e[i].0 == k;
        assert f[i].0 == k;
      }
    }
  }

  /** With distinct keys, no entry occurs twice. */
  lemma {:induction false} DistinctKeysOccurOnce(e: seq<Entry>, x: Entry)
    requires DistinctKeys(e)
    ensures multiset(e)[x] <= 1
  {
    if e != [] {
      var init := e[..|e| - 1];
      assert e == init + [e[|e| - 1]];
      DistinctKeysOccurOnce(init, x);
      if x == e[|e| - 1] {
        assert x !in init;
      }
    }
  }

  lemma TwiceOccurring(l: seq<Entry>, i: nat, j: nat)
    requires i < j < |l| && l[i] == l[j]
    ensures multiset(l)[l[i]] >= 2
  {
    assert l == l[..j] + [l[j]] + l[j + 1..];
    assert l[i] in l[..j];
  }

  /** Exact entries of the same map with a shared key are the same entry. */
  lemma {:induction false} PermutationKeepsDistinctKeys(e: seq<Entry>, l: seq<Entry>, counts: map<string, nat>)
    requires multiset(l) == multiset(e)
    requires DistinctKeys(e) && ExactEntries(e, counts)
    ensures DistinctKeys(l) && ExactEntries(l, counts)
  {
    forall i | 0 <= i < |l|
      ensures l[i].0 in counts && l[i].1 == counts[l[i].0]
    {
      assert l[i] in multiset(l);
      assert l[i] in e;
    }
    forall i, j | 0 <= i < j < |l|
      ensures l[i].0 != l[j].0
    {
      if l[i].0 == l[j].0 {
        assert l[i] == l[j];
        TwiceOccurring(l, i, j);
        DistinctKeysOccurOnce(e, l[i]);
      }
    }
  }

  /** Every key of `counts` appears in a permutation of its entries. */
  lemma PermutationKeepsKeys(e: seq<Entry>, l: seq<Entry>, counts: map<string, nat>, k: string)
    requires multiset(l) == multiset(e)
    requires KeysOf(e) == counts.Keys
    requires k in counts
    ensures exists j :: 0 <= j < |l| && l[j].0 == k
  {
    var i :| 0 <= i < |e| && e[i].0 == k;
    assert e[i] in multiset(e);
    assert e[i] in l;
  }

  /** In a non-increasing list, an entry whose key is not in the first n is at most the n-th. */
  lemma OmittedIsBelowLast(l: seq<Entry>, n: nat, j: nat)
    requires NonIncreasing(l)
    requires 0 < n <= |l| && j < |l|
    requires l[j].0 !in KeysOf(l[..n])
    ensures l[j].1 <= l[n - 1].1
  {
    var r := l[..n];
    assert forall i :: 0 <= i < n ==> r[i].0 in KeysOf(r);
    assert n <= j;
  }

  /** A prefix of a list of distinct exact entries in non-increasing order is one too. */
  lemma PrefixKeepsOrder(l: seq<Entry>, counts: map<string, nat>, n: nat)
    requires n <= |l|
    requires DistinctKeys(l) && ExactEntries(l, counts) && NonIncreasing(l)
    ensures DistinctKeys(l[..n]) && ExactEntries(l[..n], counts) && NonIncreasing(l[..n])
  {
  }

  /** Keys cut off a sorted permutation of the entries count no more than the last one kept. */
  lemma CutKeysAreBelowLast(e: seq<Entry>, l: seq<Entry>, counts: map<string, nat>, n: nat)
    requires KeysOf(e) == counts.Keys && multiset(l) == multiset(e) && NonIncreasing(l)
    requires ExactEntries(l, counts) && n <= |l|
    ensures forall k :: k in counts && k !in KeysOf(l[..n]) && 0 < n ==> counts[k] <= l[..n][n - 1].1
  {
    forall k | k in counts && k !in KeysOf(l[..n]) && 0 < n
      ensures counts[k] <= l[..n][n - 1].1
    {
      PermutationKeepsKeys(e, l, counts, k);
      var j :| 0 <= j < |l| && l[j].0 == k;
      OmittedIsBelowLast(l, n, j);
    }
  }

  /** A sorted permutation of the entries, cut to `limit`, is a top-`limit` ranking. */
  lemma SortedPrefixIsTopN(e: seq<Entry>, l: seq<Entry>, counts: map<string, nat>, limit: nat)
    requires |e| == |counts| && ExactEntries(e, counts) && DistinctKeys(e) && KeysOf(e) == counts.Keys
    requires multiset(l) == multiset(e) && NonIncreasing(l)
    ensures IsTopN(l[..Min(limit, |l|)], counts, limit)
  {
    var n := Min(limit, |l|);
    assert |l| == |e| by {
      assert |multiset(l)| == |multiset(e)|;
    }
    PermutationKeepsDistinctKeys(e, l, counts);
    PrefixKeepsOrder(l, counts, n);
    CutKeysAreBelowLast(e, l, counts, n);
  }

  /**
   * The ranking `getTop*` returns: the map's pairs copied into an array,
   * sorted by descending count, and cut to `limit` entries.
   */
  method TopN(counts: map<string, nat>, limit: nat) returns (top: seq<Entry>)
    ensures IsTopN(top, counts, limit)
  {
    var e := EntriesOf(counts);
    var a := new Entry[|e|](i requires 0 <= i < |e| => e[i]);
    assert a[..] == e;
    SortByCountDescending(a);
    var sorted := a[..];
    SortedPrefixIsTopN(e, sorted, counts, limit);
    // resize(limit) when longer than the limit
    top := sorted[..Min(limit, |sorted|)];
  }

  /** The sum of the counts in a ranking. */
  function CountSum(r: seq<Entry>): nat
  {
    if r == [] then 0 else CountSum(r[..|r| - 1]) + r[|r| - 1].1
  }

  lemma {:induction false} DistinctKeysCardinality(r: seq<Entry>)
    requires DistinctKeys(r)
    ensures |KeysOf(r)| == |r|
  {
    if r != [] {
      var init := r[..|r| - 1];
      assert r == init + [r[|r| - 1]];
      DistinctKeysCardinality(init);
      KeysOfSnoc(init, r[|r| - 1]);
      assert r[|r| - 1].0 !in KeysOf(init);
    }
  }

  lemma {:induction false} SubsetOfSameSize(a: set<string>, b: set<string>)
    requires a <= b && |b| <= |a|
    ensures a == b
    decreases |a|
  {
    if a != {} {
      var x :| x in a;
      SubsetOfSameSize(a - {x}, b - {x});
      assert a == (a - {x}) + {x} && b == (b - {x}) + {x};
    }
  }

  /** A ranking whose limit admits every key lists every key. */
  lemma UnlimitedRankingHasEveryKey(r: seq<Entry>, counts: map<string, nat>, limit: nat)
    requires IsTopN(r, counts, limit)
    requires |counts| <= limit
    ensures KeysOf(r) == counts.Keys
  {
    DistinctKeysCardinality(r);
    var keys := KeysOf(r);
    assert keys <= counts.Keys;
    SubsetOfSameSize(keys, counts.Keys);
  }

  /** Exact entries covering every key of `m` once add up to the sum of `m`. */
  lemma {:induction false} EntriesSum(r: seq<Entry>, m: map<string, nat>)
    requires ExactEntries(r, m) && DistinctKeys(r) && KeysOf(r) == m.Keys
    ensures CountSum(r) == MapSum(m)
  {
    if r == [] {
      assert m.Keys == {};
      assert m == map[];
    } else {
      var init, last := r[..|r| - 1], r[|r| - 1];
      assert r == init + [last];
      KeysOfSnoc(init, last);
      assert last.0 !in KeysOf(init);
      var rest := m - {last.0};
      assert KeysOf(init) == rest.Keys;
      EntriesSum(init, rest);
      MapSumRemove(m, last.0);
    }
  }

  /** A ranking that lists every key adds up to the total of all counts. */
  lemma UnlimitedRankingSum(r: seq<Entry>, counts: map<string, nat>, limit: nat)
    requires IsTopN(r, counts, limit)
    requires |counts| <= limit
    ensures CountSum(r) == MapSum(counts)
  {
    UnlimitedRankingHasEveryKey(r, counts, limit);
    EntriesSum(r, counts);
  }
}
