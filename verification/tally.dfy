/** Grouped sums: the pattern `acc[key] = (acc[key] || 0) + value` run over a
    list, which builds the per-customer and per-design counts and the monthly
    totals of the Dashboard. A list of
    (key, value) pairs stands for the contributions in list order. */
module Tally {
  import opened Wrappers
  import opened Seqs

  function KeysOf<K>(ps: seq<(K, int)>): (ks: seq<K>)
    ensures |ks| == |ps|
    ensures forall i :: 0 <= i < |ps| ==> ks[i] == ps[i].0
  {
    seq(|ps|, i requires 0 <= i < |ps| => ps[i].0)
  }

  /** The sum of all values. */
  function Total<K>(ps: seq<(K, int)>): int {
    if ps == [] then 0 else Total(ps[..|ps| - 1]) + ps[|ps| - 1].1
  }

  /** The sum of the values with key `k`: what `acc[k]` holds at the end. */
  function SumAt<K(==)>(ps: seq<(K, int)>, k: K): int {
    if ps == [] then 0
    else SumAt(ps[..|ps| - 1], k) + (if ps[|ps| - 1].0 == k then ps[|ps| - 1].1 else 0)
  }

  /** A key no pair carries sums to zero. */
  lemma {:induction false} SumAtAbsent<K>(ps: seq<(K, int)>, k: K)
    requires k !in KeysOf(ps)
    ensures SumAt(ps, k) == 0
    decreases |ps|
  {
    if ps != [] {
      var init := ps[..|ps| - 1];
      assert KeysOf(init) == KeysOf(ps)[..|ps| - 1];
      SumAtAbsent(init, k);
    }
  }

  /** The sum of a list of numbers. */
  function Sum(xs: seq<int>): int {
    if xs == [] then 0 else Sum(xs[..|xs| - 1]) + xs[|xs| - 1]
  }

  /** Replacing one entry changes the sum by the difference. */
  lemma {:induction false} SumUpdate(xs: seq<int>, j: nat, v: int)
    requires j < |xs|
    ensures Sum(xs[j := v]) == Sum(xs) - xs[j] + v
    decreases |xs|
  {
    var n := |xs| - 1;
    if j == n {
      assert xs[j := v][..n] == xs[..n];
    } else {
      SumUpdate(xs[..n], j, v);
      assert xs[j := v][..n] == xs[..n][j := v];
    }
  }

  /** Appending one entry adds it to the sum. */
  lemma SumPush(xs: seq<int>, v: int)
    ensures Sum(xs + [v]) == Sum(xs) + v
  {
    assert (xs + [v])[..|xs|] == xs;
  }

  /** A grouped table: one (key, sum) entry per key, in order of first
      appearance; an object `acc` enumerates its keys in that order only
      when none of them is an integer-like string. */
  function IndexOfKey<K(==)>(t: seq<(K, int)>, k: K): (r: Option<nat>)
    ensures r.Some? ==> r.value < |t| && t[r.value].0 == k
    ensures r.None? <==> k !in KeysOf(t)
  {
    if t == [] then None
    else if t[0].0 == k then Some(0)
    else match IndexOfKey(t[1..], k)
      case None =>
        assert KeysOf(t) == [t[0].0] + KeysOf(t[1..]);
        None
      case Some(j) => Some(j + 1)
  }

  /** `acc[k] = (acc[k] || 0) + v`. */
  function AddTo<K(==)>(t: seq<(K, int)>, k: K, v: int): seq<(K, int)> {
    match IndexOfKey(t, k)
    case Some(j) => t[j := (k, t[j].1 + v)]
    case None => t + [(k, v)]
  }

  /** The table the loop builds over the pairs `ps`. */
  function Group<K(==)>(ps: seq<(K, int)>): seq<(K, int)> {
    if ps == [] then [] else AddTo(Group(ps[..|ps| - 1]), ps[|ps| - 1].0, ps[|ps| - 1].1)
  }

  lemma {:induction false} TotalUpdate<K>(t: seq<(K, int)>, j: nat, e: (K, int))
    requires j < |t|
    ensures Total(t[j := e]) == Total(t) - t[j].1 + e.1
    decreases |t|
  {
    var n := |t| - 1;
    if j == n {
      assert t[j := e][..n] == t[..n];
    } else {
      TotalUpdate(t[..n], j, e);
      assert t[j := e][..n] == t[..n][j := e];
    }
  }

  /** The grouped table has one entry per distinct key, in order of first
      appearance, and each entry holds the sum of the values with its key. */
  lemma {:induction false} GroupSpec<K>(ps: seq<(K, int)>)
    ensures KeysOf(Group(ps)) == FirstOccurrences(KeysOf(ps))
    ensures forall j :: 0 <= j < |Group(ps)| ==> Group(ps)[j].1 == SumAt(ps, Group(ps)[j].0)
    decreases |ps|
  {
    if ps != [] {
      var init := ps[..|ps| - 1];
      var (k, v) := ps[|ps| - 1];
      var t := Group(init);
      GroupSpec(init);
      FirstOccurrencesSpec(KeysOf(init));
      var keys := KeysOf(ps);
      assert keys[..|keys| - 1] == KeysOf(init);
      var g := Group(ps);
      match IndexOfKey(t, k)
      case Some(j) =>
        assert KeysOf(g) == KeysOf(t);
        forall i | 0 <= i < |g| ensures g[i].1 == SumAt(ps, g[i].0) {
          if i != j {
            assert KeysOf(t)[i] != KeysOf(t)[j];
          }
        }
      case None =>
        assert KeysOf(g) == KeysOf(t) + [k];
        SumAtAbsent(init, k);
        forall i | 0 <= i < |g| ensures g[i].1 == SumAt(ps, g[i].0) {
          if i < |t| {
            assert KeysOf(t)[i] == t[i].0;
          }
        }
    }
  }

  /** Conservation: the grouped sums add up to the sum of all values. */
  lemma {:induction false} GroupTotal<K>(ps: seq<(K, int)>)
    ensures Total(Group(ps)) == Total(ps)
    decreases |ps|
  {
    if ps != [] {
      var init := ps[..|ps| - 1];
      var (k, v) := ps[|ps| - 1];
      var t := Group(init);
      GroupTotal(init);
      match IndexOfKey(t, k)
      case Some(j) =>
        TotalUpdate(t, j, (k, t[j].1 + v));
      case None =>
        assert (t + [(k, v)])[..|t|] == t;
    }
  }
}
