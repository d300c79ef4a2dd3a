/**
 * Ordering explained-variance ratios. The ratios are PCA output and are
 * taken as given reals; what is modelled is the index arithmetic around them:
 * numpy's argsort, the reversal `[::-1]`, and applying one index array to
 * several aligned arrays (dashboard.py), against the unsorted bar chart of
 * example.py.
 */
module Ranking {

  /** The positions 0, 1, ..., n - 1. */
  function Range(n: nat): (r: seq<nat>)
    ensures |r| == n
    ensures forall i :: 0 <= i < n ==> r[i] == i
  {
    seq(n, i requires 0 <= i < n => i)
  }

  /** Every entry of `p` is a valid position of a length-`n` array. */
  predicate InRange(p: seq<nat>, n: nat)
  {
    forall i :: 0 <= i < |p| ==> p[i] < n
  }

  /** `p` lists each position 0..n-1 exactly once. */
  predicate IsPermutation(p: seq<nat>, n: nat)
  {
    multiset(p) == multiset(Range(n))
  }

  /** The values of `v` read along `p` never decrease. */
  predicate AscendingAlong(v: seq<real>, p: seq<nat>)
    requires InRange(p, |v|)
  {
    forall a, b :: 0 <= a < b < |p| ==> v[p[a]] <= v[p[b]]
  }

  /** The values of `v` read along `p` never increase. */
  predicate DescendingAlong(v: seq<real>, p: seq<nat>)
    requires InRange(p, |v|)
  {
    forall a, b :: 0 <= a < b < |p| ==> v[p[a]] >= v[p[b]]
  }

  /** Putting a position whose value is not above any of `rest` in front keeps the order ascending. */
  lemma AscendingCons(v: seq<real>, x: nat, rest: seq<nat>)
    requires x < |v| && InRange(rest, |v|)
    requires AscendingAlong(v, rest)
    requires forall b :: 0 <= b < |rest| ==> v[x] <= v[rest[b]]
    ensures InRange([x] + rest, |v|)
    ensures AscendingAlong(v, [x] + rest)
  {
    var r := [x] + rest;
    forall a, b | 0 <= a < b < |r| ensures v[r[a]] <= v[r[b]] {
      assert r[b] == rest[b - 1];
      if a > 0 {
        assert r[a] == rest[a - 1];
      }
    }
  }

  /** Every entry of an ascending order is at least as large, along `v`, as its first entry. */
  lemma HeadIsLeast(v: seq<real>, p: seq<nat>, j: nat, rest: seq<nat>)
    requires p != [] && InRange(p, |v|) && j < |v| && InRange(rest, |v|)
    requires AscendingAlong(v, p)
    requires v[p[0]] <= v[j]
    requires multiset(rest) == multiset(p[1..]) + multiset{j}
    ensures forall b :: 0 <= b < |rest| ==> v[p[0]] <= v[rest[b]]
  {
    forall b | 0 <= b < |rest| ensures v[p[0]] <= v[rest[b]] {
      assert rest[b] in multiset(rest);
      if rest[b] != j {
        assert rest[b] in multiset(p[1..]);
        var c :| 0 <= c < |p[1..]| && p[1..][c] == rest[b];
        assert p[c + 1] == rest[b];
      }
    }
  }

  /** Inserts position `j` into `p`, which is ascending along `v`, after every entry not above it. */
  function Insert(v: seq<real>, p: seq<nat>, j: nat): (r: seq<nat>)
    requires InRange(p, |v|) && j < |v|
    requires AscendingAlong(v, p)
    ensures |r| == |p| + 1
    ensures InRange(r, |v|)
    ensures multiset(r) == multiset(p) + multiset{j}
    ensures AscendingAlong(v, r)
  {
    if p == [] then [j]
    else if v[j] < v[p[0]] then
      AscendingCons(v, j, p);
      [j] + p
    else
      var rest := Insert(v, p[1..], j);
      HeadIsLeast(v, p, j, rest);
      AscendingCons(v, p[0], rest);
      assert p == [p[0]] + p[1..];
      [p[0]] + rest
  }

  /** The first `n` positions, ordered ascending along `v`. */
  function ArgSortPrefix(v: seq<real>, n: nat): (p: seq<nat>)
    requires n <= |v|
    ensures |p| == n
    ensures InRange(p, |v|)
    ensures IsPermutation(p, n)
    ensures AscendingAlong(v, p)
  {
    if n == 0 then []
    else
      assert Range(n) == Range(n - 1) + [n - 1];
      Insert(v, ArgSortPrefix(v, n - 1), n - 1)
  }

  /**
   * `np.argsort(v)`: the positions of `v` in ascending order of value. The
   * model breaks ties by position; numpy's default sort does not promise an
   * order for ties.
   */
  function ArgSort(v: seq<real>): (p: seq<nat>)
    ensures |p| == |v|
    ensures InRange(p, |v|)
    ensures IsPermutation(p, |v|)
    ensures AscendingAlong(v, p)
  {
    ArgSortPrefix(v, |v|)
  }

  /** `s[::-1]`. */
  function Reverse<T>(s: seq<T>): (r: seq<T>)
    ensures |r| == |s|
    ensures forall i :: 0 <= i < |s| ==> r[i] == s[|s| - 1 - i]
  {
    seq(|s|, i requires 0 <= i < |s| => s[|s| - 1 - i])
  }

  /** Reversing keeps every element with its multiplicity. */
  lemma {:induction false} ReverseMultiset<T>(s: seq<T>)
    ensures multiset(Reverse(s)) == multiset(s)
    decreases |s|
  {
    if s != [] {
      ReverseMultiset(s[1..]);
      assert Reverse(s) == Reverse(s[1..]) + [s[0]];
      assert s == [s[0]] + s[1..];
    }
  }

  /** `s[p]` for an integer index array `p`. */
  function Apply<T>(p: seq<nat>, s: seq<T>): (r: seq<T>)
    requires InRange(p, |s|)
    ensures |r| == |p|
    ensures forall i :: 0 <= i < |p| ==> r[i] == s[p[i]]
  {
    seq(|p|, i requires 0 <= i < |p| => s[p[i]])
  }

  /** The positions of `v` in descending order: `np.argsort(v)[::-1]`. */
  function DescendingOrder(v: seq<real>): (p: seq<nat>)
    ensures |p| == |v|
    ensures InRange(p, |v|)
    ensures IsPermutation(p, |v|)
    ensures DescendingAlong(v, p)
  {
    var up := ArgSort(v);
    ReverseMultiset(up);
    Reverse(up)
  }

  /** The explained-variance chart of dashboard.py: one index order applied to names and ratios. */
  datatype VarianceRanking = VarianceRanking(indices: seq<nat>, names: seq<string>, ratios: seq<real>)

  /**
   * dashboard.py's ranking. PCA runs with one component per feature column,
   * so there are as many ratios as names. The ranked ratios never increase,
   * and the same permutation of all columns reorders names and ratios, so
   * each name keeps the ratio it had.
   */
  function RankVariances(features: seq<string>, ratios: seq<real>): (r: VarianceRanking)
    requires |ratios| == |features|
    ensures |r.indices| == |r.names| == |r.ratios| == |features|
    ensures IsPermutation(r.indices, |features|) && InRange(r.indices, |features|)
    ensures forall i :: 0 <= i < |features| ==>
              r.names[i] == features[r.indices[i]] && r.ratios[i] == ratios[r.indices[i]]
    ensures forall a, b :: 0 <= a < b < |r.ratios| ==> r.ratios[a] >= r.ratios[b]
  {
    var indices := DescendingOrder(ratios);
    VarianceRanking(indices, Apply(indices, features), Apply(indices, ratios))
  }

  /**
   * Two arrays read side by side: the bars of a horizontal bar chart, as
   * example.py draws them, bar i labelled with column i and holding ratio i.
   */
  function Zip<A, B>(a: seq<A>, b: seq<B>): (r: seq<(A, B)>)
    requires |a| == |b|
    ensures |r| == |a|
    ensures forall i :: 0 <= i < |a| ==> r[i] == (a[i], b[i])
  {
    seq(|a|, i requires 0 <= i < |a| => (a[i], b[i]))
  }

  /** Taking out entry `k` of a sequence takes out one copy of `q[k]` from its multiset. */
  lemma RemoveOne(q: seq<nat>, k: nat)
    requires k < |q|
    ensures multiset(q) == multiset{q[k]} + multiset(q[..k] + q[k + 1..])
  {
    assert q == q[..k] + [q[k]] + q[k + 1..];
  }

  /** Picking along two index arrays one after the other picks the two results one after the other. */
  lemma ApplyConcat<T>(a: seq<nat>, b: seq<nat>, s: seq<T>)
    requires InRange(a, |s|) && InRange(b, |s|)
    ensures InRange(a + b, |s|)
    ensures Apply(a + b, s) == Apply(a, s) + Apply(b, s)
  {
    var ab := a + b;
    assert forall i :: 0 <= i < |ab| ==> ab[i] == if i < |a| then a[i] else b[i - |a|];
  }

  /** Taking out entry `k` of an index array takes out one element `s[q[k]]` of what it picks. */
  lemma RemoveAt<T>(q: seq<nat>, k: nat, s: seq<T>)
    requires InRange(q, |s|) && k < |q|
    ensures InRange(q[..k] + q[k + 1..], |s|)
    ensures multiset(q) == multiset{q[k]} + multiset(q[..k] + q[k + 1..])
    ensures multiset(Apply(q, s)) == multiset{s[q[k]]} + multiset(Apply(q[..k] + q[k + 1..], s))
  {
    var before, after := q[..k], q[k + 1..];
    assert q == before + ([q[k]] + after);
    ApplyConcat([q[k]], after, s);
    ApplyConcat(before, [q[k]] + after, s);
    ApplyConcat(before, after, s);
    var picked := Apply(before, s);
    var rest := Apply(after, s);
    assert Apply([q[k]], s) == [s[q[k]]];
    assert Apply(q, s) == picked + ([s[q[k]]] + rest);
    assert multiset(Apply(q, s)) == multiset(picked) + multiset{s[q[k]]} + multiset(rest);
  }

  /** One copy of the same element can be taken off both sides of a multiset equation. */
  lemma Cancel<T>(x: T, a: multiset<T>, b: multiset<T>)
    requires multiset{x} + a == multiset{x} + b
    ensures a == b
  {
    assert a == (multiset{x} + a) - multiset{x};
    assert b == (multiset{x} + b) - multiset{x};
  }

  /**
   * Index arrays with the same entries pick the same multiset of elements,
   * once the first entry of `p` and a matching entry `q[k]` are taken out.
   */
  lemma ApplyCancelStep<T>(p: seq<nat>, q: seq<nat>, k: nat, s: seq<T>)
    requires InRange(p, |s|) && InRange(q, |s|)
    requires p != [] && k < |q| && q[k] == p[0]
    requires InRange(p[1..], |s|) && InRange(q[..k] + q[k + 1..], |s|)
    requires multiset(Apply(p[1..], s)) == multiset(Apply(q[..k] + q[k + 1..], s))
    ensures multiset(Apply(p, s)) == multiset(Apply(q, s))
  {
    RemoveAt(p, 0, s);
    RemoveAt(q, k, s);
    assert p[..0] + p[1..] == p[1..];
  }

  /** Dropping entries of an index array keeps it in range. */
  lemma InRangeAfterRemoval(q: seq<nat>, k: nat, n: nat)
    requires InRange(q, n) && k < |q|
    ensures InRange(q[1..], n)
    ensures InRange(q[..k] + q[k + 1..], n)
  {
    var rest := q[..k] + q[k + 1..];
    forall i | 0 <= i < |rest| ensures rest[i] < n {
      assert rest[i] == if i < k then q[i] else q[i + 1];
    }
  }

  /** Taking the first entry of `p` and an equal entry of `q` out of two arrays with the same entries leaves the same entries. */
  lemma CancelMatching(p: seq<nat>, q: seq<nat>, k: nat)
    requires multiset(p) == multiset(q)
    requires p != [] && k < |q| && q[k] == p[0]
    ensures multiset(p[1..]) == multiset(q[..k] + q[k + 1..])
  {
    RemoveOne(p, 0);
    RemoveOne(q, k);
    assert p[..0] + p[1..] == p[1..];
    Cancel(p[0], multiset(p[1..]), multiset(q[..k] + q[k + 1..]));
  }

  /** Index arrays with the same entries pick the same multiset of elements. */
  lemma {:induction false} ApplySameMultiset<T>(p: seq<nat>, q: seq<nat>, s: seq<T>)
    requires InRange(p, |s|) && InRange(q, |s|)
    requires multiset(p) == multiset(q)
    ensures multiset(Apply(p, s)) == multiset(Apply(q, s))
    decreases |p|
  {
    if p == [] {
      assert |q| == |multiset(q)| == 0;
    } else {
      assert p[0] in multiset(q);
      var k :| 0 <= k < |q| && q[k] == p[0];
      CancelMatching(p, q, k);
      InRangeAfterRemoval(p, 0, |s|);
      InRangeAfterRemoval(q, k, |s|);
      ApplySameMultiset(p[1..], q[..k] + q[k + 1..], s);
      ApplyCancelStep(p, q, k, s);
    }
  }

  /** Reading an array along a permutation of its positions keeps its multiset of elements. */
  lemma PermutationKeepsElements<T>(p: seq<nat>, s: seq<T>)
    requires IsPermutation(p, |s|) && InRange(p, |s|)
    ensures multiset(Apply(p, s)) == multiset(s)
  {
    ApplySameMultiset(p, Range(|s|), s);
    assert Apply(Range(|s|), s) == s;
  }

  /**
   * The ranked chart of dashboard.py shows exactly the (name, ratio) bars of
   * example.py's unsorted chart, each name still with its own ratio; only
   * their order may differ.
   */
  lemma RankingPermutesBars(features: seq<string>, ratios: seq<real>)
    requires |ratios| == |features|
    ensures var r := RankVariances(features, ratios);
            multiset(Zip(r.names, r.ratios)) == multiset(Zip(features, ratios))
  {
    var r := RankVariances(features, ratios);
    var bars := Zip(features, ratios);
    assert Zip(r.names, r.ratios) == Apply(r.indices, bars);
    PermutationKeepsElements(r.indices, bars);
  }
}
