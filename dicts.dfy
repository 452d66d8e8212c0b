/**
 * Python's insertion-ordered `dict`, and the `collections.Counter` operations the pipelines use:
 * `counter[k] += 1`, `Counter(list)`, `most_common(1)` and the counts of `most_common(k)`.
 */
module Dicts {

  /** A `dict`: `keys` in first-insertion order, `vals` the mapping itself. */
  datatype ODict<K(!new), V> = ODict(keys: seq<K>, vals: map<K, V>) {
    ghost predicate Valid() {
      && (forall i, j :: 0 <= i < j < |keys| ==> keys[i] != keys[j])
      && (forall k :: k in vals <==> k in keys)
    }
  }

  function Empty<K(!new), V>(): (d: ODict<K, V>)
    ensures d.Valid() && d.keys == [] && d.vals == map[]
  {
    ODict([], map[])
  }

  /** `d[k] = v`: a key already present keeps its place, a new key goes last. */
  function Put<K(!new), V>(d: ODict<K, V>, k: K, v: V): (r: ODict<K, V>)
    ensures r.vals == d.vals[k := v]
    ensures r.keys == if k in d.vals then d.keys else d.keys + [k]
  {
    if k in d.vals then ODict(d.keys, d.vals[k := v]) else ODict(d.keys + [k], d.vals[k := v])
  }

  /** Storing a key keeps the keys distinct and in step with the mapping. */
  lemma PutValid<K(!new), V>(d: ODict<K, V>, k: K, v: V)
    requires d.Valid()
    ensures Put(d, k, v).Valid()
  {
  }

  /** A counter lookup: missing keys count 0. */
  function Get<K(!new)>(d: ODict<K, nat>, k: K): nat {
    if k in d.vals then d.vals[k] else 0
  }

  /** The sum of the values stored under `keys`. */
  function Sum<K(!new)>(keys: seq<K>, m: map<K, nat>): nat
    requires forall k :: k in keys ==> k in m
  {
    if keys == [] then 0 else Sum(keys[..|keys| - 1], m) + m[keys[|keys| - 1]]
  }

  /** `sum(counter.values())`. */
  function Total<K(!new)>(d: ODict<K, nat>): nat
    requires d.Valid()
  {
    Sum(d.keys, d.vals)
  }

  /** The values of a dict in key order (`list(d.values())`). */
  function Values<K(!new), V>(d: ODict<K, V>): (vs: seq<V>)
    requires d.Valid()
    ensures |vs| == |d.keys| && forall i :: 0 <= i < |vs| ==> vs[i] == d.vals[d.keys[i]]
  {
    seq(|d.keys|, i requires 0 <= i < |d.keys| => d.vals[d.keys[i]])
  }

  lemma {:induction false} SumFrame<K(!new)>(keys: seq<K>, m: map<K, nat>, m': map<K, nat>)
    requires forall k :: k in keys ==> k in m && k in m' && m[k] == m'[k]
    ensures Sum(keys, m) == Sum(keys, m')
  {
    if keys != [] {
      SumFrame(keys[..|keys| - 1], m, m');
    }
  }

  /** Raising one key, which occurs once in `keys`, by one raises the sum by one. */
  lemma {:induction false} SumBump<K(!new)>(keys: seq<K>, m: map<K, nat>, k: K)
    requires forall x :: x in keys ==> x in m
    requires forall i, j :: 0 <= i < j < |keys| ==> keys[i] != keys[j]
    requires k in keys
    ensures Sum(keys, m[k := m[k] + 1]) == Sum(keys, m) + 1
  {
    var m' := m[k := m[k] + 1];
    var init := keys[..|keys| - 1];
    var last := keys[|keys| - 1];
    if last == k {
      assert k !in init by {
        forall i | 0 <= i < |init| ensures init[i] != k { assert keys[i] != keys[|keys| - 1]; }
      }
      SumFrame(init, m, m');
    } else {
      assert k in init by { var i :| 0 <= i < |keys| && keys[i] == k; assert i < |keys| - 1; assert init[i] == k; }
      SumBump(init, m, k);
    }
  }

  /** `counter[k] += 1` (also a `defaultdict(int)` entry): raises `k` by one, adding it last
      when new, and raises the total by one. */
  function Increment<K(!new)>(d: ODict<K, nat>, k: K): (r: ODict<K, nat>)
    requires d.Valid()
    ensures r.Valid()
    ensures Get(r, k) == Get(d, k) + 1
    ensures forall k' :: k' != k ==> Get(r, k') == Get(d, k') && (k' in r.vals <==> k' in d.vals)
    ensures r.keys == if k in d.vals then d.keys else d.keys + [k]
    ensures Total(r) == Total(d) + 1
  {
    var r := Put(d, k, Get(d, k) + 1);
    PutValid(d, k, Get(d, k) + 1);
    if k in d.vals then
      SumBump(d.keys, d.vals, k);
      r
    else
      assert r.keys[..|d.keys|] == d.keys;
      SumFrame(d.keys, d.vals, r.vals);
      r
  }

  /** An increment stores the raised count. */
  lemma IncrementIsPut<K(!new)>(d: ODict<K, nat>, k: K)
    requires d.Valid()
    ensures Increment(d, k) == Put(d, k, Get(d, k) + 1)
  {
  }

  /** `Counter(s)`: every element counted with its multiplicity, keys in first-seen order. */
  function TallyOf<T(!new)>(s: seq<T>): (r: ODict<T, nat>)
    ensures r.Valid()
    ensures forall x :: Get(r, x) == multiset(s)[x]
    ensures forall x :: x in r.vals <==> x in s
    ensures Total(r) == |s|
  {
    if s == [] then Empty()
    else
      var init := s[..|s| - 1];
      assert s == init + [s[|s| - 1]];
      Increment(TallyOf(init), s[|s| - 1])
  }

  /** Among positions `0..n-1` of `s`, the first whose element has the highest multiplicity in `s`. */
  function BestBefore<T(==)>(s: seq<T>, n: nat): (i: nat)
    requires 0 < n <= |s|
    ensures i < n
    ensures forall j :: 0 <= j < n ==> multiset(s)[s[j]] <= multiset(s)[s[i]]
    ensures forall j :: 0 <= j < i ==> multiset(s)[s[j]] < multiset(s)[s[i]]
  {
    if n == 1 then 0
    else
      var b := BestBefore(s, n - 1);
      if multiset(s)[s[n - 1]] > multiset(s)[s[b]] then n - 1 else b
  }

  /** `Counter(s).most_common(1)[0][0]`: an element of maximal count, the first seen among equals
      (counter keys are in first-seen order and `max` keeps the first of equal candidates). */
  function MostCommon<T(==)>(s: seq<T>): (x: T)
    requires |s| > 0
    ensures x in s
    ensures forall y :: y in s ==> multiset(s)[y] <= multiset(s)[x]
    ensures exists i :: 0 <= i < |s| && s[i] == x && forall j :: 0 <= j < i ==> multiset(s)[s[j]] < multiset(s)[x]
  {
    var i := BestBefore(s, |s|);
    s[i]
  }

  function Min(a: int, b: int): int { if a <= b then a else b }

  /** `max(0, n)`: also the number of steps of `range(1, n + 1)` and of `range(n, 0, -1)`. */
  function Max0(n: int): nat { if n < 0 then 0 else n }

  predicate NonIncreasing(s: seq<nat>) {
    forall a, b :: 0 <= a < b < |s| ==> s[a] >= s[b]
  }

  /** Puts `x` into `s` after the leading elements at least as large. */
  function InsertDesc(x: nat, s: seq<nat>): (r: seq<nat>)
    ensures |r| == |s| + 1
  {
    if s == [] then [x]
    else if s[0] < x then [x] + s
    else [s[0]] + InsertDesc(x, s[1..])
  }

  /** Inserting adds exactly `x`. */
  lemma {:induction false} InsertDescAdds(x: nat, s: seq<nat>)
    ensures multiset(InsertDesc(x, s)) == multiset(s) + multiset{x}
    ensures |InsertDesc(x, s)| == |s| + 1
  {
    if s != [] && s[0] >= x {
      InsertDescAdds(x, s[1..]);
      assert s == [s[0]] + s[1..];
    }
  }

  /** Every element is at most `b`. */
  predicate AtMost(s: seq<nat>, b: nat) {
    forall a :: 0 <= a < |s| ==> s[a] <= b
  }

  /** Inserting a value at most `b` among values at most `b` keeps them all at most `b`. */
  lemma {:induction false} InsertDescAtMost(x: nat, s: seq<nat>, b: nat)
    requires x <= b && AtMost(s, b)
    ensures AtMost(InsertDesc(x, s), b)
  {
    if s != [] && s[0] >= x {
      var tail := s[1..];
      assert AtMost(tail, b) by {
        forall a | 0 <= a < |tail| ensures tail[a] <= b { assert tail[a] == s[a + 1]; }
      }
      InsertDescAtMost(x, tail, b);
      ConsAtMost(s[0], InsertDesc(x, tail), b);
    } else if s != [] {
      ConsAtMost(x, s, b);
    }
  }

  lemma ConsAtMost(h: nat, t: seq<nat>, b: nat)
    requires h <= b && AtMost(t, b)
    ensures AtMost([h] + t, b)
  {
    var r := [h] + t;
    forall a | 0 <= a < |r| ensures r[a] <= b {
      if a > 0 { assert r[a] == t[a - 1]; }
    }
  }

  /** A head at least as large as every element of a non-increasing tail keeps it non-increasing. */
  lemma ConsSorted(h: nat, t: seq<nat>)
    requires NonIncreasing(t) && AtMost(t, h)
    ensures NonIncreasing([h] + t)
  {
    var r := [h] + t;
    forall a, b | 0 <= a < b < |r| ensures r[a] >= r[b] {
      assert r[b] == t[b - 1];
      if a > 0 {
        assert r[a] == t[a - 1];
      }
    }
  }

  /** The tail of a non-increasing sequence is non-increasing and bounded by the head. */
  lemma TailSorted(s: seq<nat>)
    requires s != [] && NonIncreasing(s)
    ensures NonIncreasing(s[1..]) && AtMost(s[1..], s[0])
  {
    var tail := s[1..];
    forall a, b | 0 <= a < b < |tail| ensures tail[a] >= tail[b] {
      assert tail[a] == s[a + 1] && tail[b] == s[b + 1];
    }
    forall a | 0 <= a < |tail| ensures tail[a] <= s[0] {
      assert tail[a] == s[a + 1];
    }
  }

  /** Inserting into a non-increasing sequence keeps it non-increasing. */
  lemma {:induction false} InsertDescSorted(x: nat, s: seq<nat>)
    requires NonIncreasing(s)
    ensures NonIncreasing(InsertDesc(x, s))
  {
    if s != [] {
      TailSorted(s);
      if s[0] >= x {
        var tail := s[1..];
        InsertDescSorted(x, tail);
        InsertDescAtMost(x, tail, s[0]);
        ConsSorted(s[0], InsertDesc(x, tail));
      } else {
        assert AtMost(s, x) by {
          forall a | 0 <= a < |s| ensures s[a] <= x {
            if a > 0 { assert s[a] == s[1..][a - 1]; }
          }
        }
        ConsSorted(x, s);
      }
    }
  }

  /** Insertion sort, largest first. */
  function SortDesc(vals: seq<nat>): (r: seq<nat>)
    ensures |r| == |vals|
  {
    if vals == [] then [] else InsertDesc(vals[|vals| - 1], SortDesc(vals[..|vals| - 1]))
  }

  /** The values of `vals`, largest first. */
  lemma {:induction false} SortDescSpec(vals: seq<nat>)
    ensures NonIncreasing(SortDesc(vals))
    ensures multiset(SortDesc(vals)) == multiset(vals)
    ensures |SortDesc(vals)| == |vals|
  {
    if vals != [] {
      var init := vals[..|vals| - 1];
      SortDescSpec(init);
      InsertDescAdds(vals[|vals| - 1], SortDesc(init));
      InsertDescSorted(vals[|vals| - 1], SortDesc(init));
      assert vals == init + [vals[|vals| - 1]];
    }
  }

  /** The counts `Counter.most_common(k)` reports: the `min(k, n)` largest of the `n` counts, largest
      first. Which of several equal counts comes first does not affect the values. */
  function TopCounts(vals: seq<nat>, k: nat): (r: seq<nat>)
    ensures |r| == Min(k, |vals|)
  {
    var s := SortDesc(vals);
    if |s| <= k then s else s[..k]
  }

  /** There are `min(k, n)` reported counts, in non-increasing order, taken from `vals`, and every
      count left out is at most each reported one. */
  lemma TopCountsAreLargest(vals: seq<nat>, k: nat)
    ensures |TopCounts(vals, k)| == Min(k, |vals|)
    ensures NonIncreasing(TopCounts(vals, k))
    ensures multiset(TopCounts(vals, k)) <= multiset(vals)
    ensures var c := TopCounts(vals, k);
      forall v, a :: v in multiset(vals) - multiset(c) && 0 <= a < |c| ==> v <= c[a]
  {
    SortDescSpec(vals);
    var s := SortDesc(vals);
    var m := Min(k, |s|);
    assert TopCounts(vals, k) == s[..m];
    SortedPrefix(s, m);
  }

  /** A prefix of a non-increasing sequence is non-increasing, and nothing left out exceeds it. */
  lemma SortedPrefix(s: seq<nat>, m: nat)
    requires NonIncreasing(s) && m <= |s|
    ensures NonIncreasing(s[..m])
    ensures multiset(s[..m]) <= multiset(s)
    ensures forall v, a :: v in multiset(s) - multiset(s[..m]) && 0 <= a < m ==> v <= s[..m][a]
  {
    var c := s[..m];
    assert s == c + s[m..];
    assert multiset(s) == multiset(c) + multiset(s[m..]);
    forall v, a | v in multiset(s) - multiset(c) && 0 <= a < m ensures v <= c[a] {
      assert v in s[m..];
      var i :| 0 <= i < |s[m..]| && s[m..][i] == v;
      assert s[m + i] == v && c[a] == s[a];
    }
  }
}
