/** Counts and sums over maps and sequences, and how an update changes them. */
module Counting {

  function Bit(b: bool): nat {
    if b then 1 else 0
  }

  ghost function Having<K, V>(m: map<K, V>, p: V -> bool): set<K> {
    set k | k in m && p(m[k])
  }

  lemma CountWithout<K>(s: set<K>, k: K)
    ensures |s| == |s - {k}| + Bit(k in s)
  {
    if k in s {
      assert s == (s - {k}) + {k};
    } else {
      assert s == s - {k};
    }
  }

  lemma HavingUpdate<K, V>(m: map<K, V>, k: K, v: V, p: V -> bool)
    ensures |Having(m[k := v], p)| == |Having(m, p)| - Bit(k in m && p(m[k])) + Bit(p(v))
  {
    var before, after := Having(m, p), Having(m[k := v], p);
    assert after - {k} == before - {k};
    CountWithout(before, k);
    CountWithout(after, k);
  }

  /** Entries with a stronger property are fewer. */
  lemma HavingWeaker<K, V>(m: map<K, V>, p: V -> bool, q: V -> bool)
    requires forall k :: k in m && p(m[k]) ==> q(m[k])
    ensures |Having(m, p)| <= |Having(m, q)|
  {
    CountSubset(Having(m, p), Having(m, q));
  }

  /** A number above all in the set. */
  lemma Fresh(s: set<nat>) returns (n: nat)
    ensures forall k :: k in s ==> k < n
  {
    if s == {} {
      n := 0;
    } else {
      var k :| k in s;
      var m := Fresh(s - {k});
      n := if k < m then m else k + 1;
      assert forall j :: j in s ==> j == k || j in s - {k};
    }
  }

  lemma CountSubset<K>(a: set<K>, b: set<K>)
    requires a <= b
    ensures |a| <= |b|
  {
    assert b == a + (b - a);
  }

  // ----- sequences

  function Count<T>(xs: seq<T>, p: T -> bool): (n: nat)
    ensures n <= |xs|
  {
    if xs == [] then 0 else Count(xs[..|xs| - 1], p) + Bit(p(xs[|xs| - 1]))
  }

  /** The sum of the multisets that f gives for the elements. */
  function Sum<T, U>(xs: seq<T>, f: T -> multiset<U>): multiset<U> {
    if xs == [] then multiset{} else Sum(xs[..|xs| - 1], f) + f(xs[|xs| - 1])
  }

  lemma {:induction false} CountUpdate<T>(xs: seq<T>, k: nat, x: T, p: T -> bool)
    requires k < |xs|
    ensures Count(xs[k := x], p) == Count(xs, p) - Bit(p(xs[k])) + Bit(p(x))
  {
    var last := |xs| - 1;
    if k == last {
      assert xs[k := x][..last] == xs[..last];
    } else {
      assert xs[k := x][..last] == xs[..last][k := x];
      CountUpdate(xs[..last], k, x, p);
    }
  }

  lemma {:induction false} CountFull<T>(xs: seq<T>, p: T -> bool)
    ensures Count(xs, p) == |xs| <==> forall k :: 0 <= k < |xs| ==> p(xs[k])
  {
    if xs == [] {
    } else {
      var last := |xs| - 1;
      CountFull(xs[..last], p);
      assert forall k :: 0 <= k < last ==> xs[..last][k] == xs[k];
    }
  }

  lemma {:induction false} SumUpdate<T, U>(xs: seq<T>, k: nat, x: T, f: T -> multiset<U>, u: U)
    requires k < |xs|
    ensures Sum(xs[k := x], f)[u] + f(xs[k])[u] == Sum(xs, f)[u] + f(x)[u]
  {
    var last := |xs| - 1;
    if k == last {
      assert xs[k := x][..last] == xs[..last];
    } else {
      assert xs[k := x][..last] == xs[..last][k := x];
      SumUpdate(xs[..last], k, x, f, u);
    }
  }

  lemma SumSnoc<T, U>(xs: seq<T>, x: T, f: T -> multiset<U>)
    ensures Sum(xs + [x], f) == Sum(xs, f) + f(x)
  {
    assert (xs + [x])[..|xs|] == xs;
  }

  lemma CountSnoc<T>(xs: seq<T>, x: T, p: T -> bool)
    ensures Count(xs + [x], p) == Count(xs, p) + Bit(p(x))
  {
    assert (xs + [x])[..|xs|] == xs;
  }

  lemma {:induction false} SumEmpty<T, U>(xs: seq<T>, f: T -> multiset<U>)
    requires forall k :: 0 <= k < |xs| ==> f(xs[k]) == multiset{}
    ensures Sum(xs, f) == multiset{}
  {
    if xs == [] {
    } else {
      var last := |xs| - 1;
      assert forall k :: 0 <= k < last ==> xs[..last][k] == xs[k];
      SumEmpty(xs[..last], f);
    }
  }
}
