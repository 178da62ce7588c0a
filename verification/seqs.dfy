/** Sequence operations shared by the filters, folds and views of the model. */
module Seqs {

  /** `t` occurs in `s` as a contiguous block (JavaScript's `includes` on strings). */
  predicate Contains<T(==)>(s: seq<T>, t: seq<T>) {
    exists k | 0 <= k <= |s| - |t| :: OccursAt(s, t, k)
  }

  /** `t` occurs in `s` starting at index `k`. */
  predicate OccursAt<T(==)>(s: seq<T>, t: seq<T>, k: int) {
    0 <= k <= |s| - |t| && s[k..k + |t|] == t
  }

  /** The empty string is contained in every string (`"abc".includes("")`). */
  lemma ContainsEmpty<T>(s: seq<T>)
    ensures Contains(s, [])
  {
    assert OccursAt(s, [], 0);
  }

  /** `sub` is obtained from `s` by deleting some elements, keeping the order. */
  predicate IsSubsequence<T(==)>(sub: seq<T>, s: seq<T>)
    decreases |s|
  {
    if sub == [] then true
    else if s == [] then false
    else if sub[0] == s[0] then IsSubsequence(sub[1..], s[1..])
    else IsSubsequence(sub, s[1..])
  }

  /** Array.prototype.filter: the elements of `s` satisfying `p`, in order. */
  function Filter<T>(s: seq<T>, p: T -> bool): (r: seq<T>)
    ensures |r| <= |s|
  {
    if s == [] then []
    else if p(s[0]) then [s[0]] + Filter(s[1..], p)
    else Filter(s[1..], p)
  }

  /** The filter keeps exactly the elements satisfying the predicate, and
      what it keeps is an order-preserving subsequence of its input. */
  lemma {:induction false} FilterSpec<T>(s: seq<T>, p: T -> bool)
    ensures forall x :: x in Filter(s, p) <==> x in s && p(x)
    ensures IsSubsequence(Filter(s, p), s)
    decreases |s|
  {
    if s != [] {
      FilterSpec(s[1..], p);
      assert s == [s[0]] + s[1..];
      if p(s[0]) {
        assert Filter(s, p)[1..] == Filter(s[1..], p);
      }
    }
  }

  /** A predicate that holds everywhere keeps the whole sequence. */
  lemma {:induction false} FilterAll<T>(s: seq<T>, p: T -> bool)
    requires forall x :: x in s ==> p(x)
    ensures Filter(s, p) == s
    decreases |s|
  {
    if s != [] {
      assert s[0] in s;
      forall x | x in s[1..] ensures p(x) { assert x in s; }
      FilterAll(s[1..], p);
      assert [s[0]] + s[1..] == s;
    }
  }

  /** Predicates that agree on the elements filter alike. */
  lemma {:induction false} FilterCongruent<T>(s: seq<T>, p: T -> bool, q: T -> bool)
    requires forall x :: x in s ==> p(x) == q(x)
    ensures Filter(s, p) == Filter(s, q)
    decreases |s|
  {
    if s != [] {
      assert s[0] in s;
      forall x | x in s[1..] ensures p(x) == q(x) { assert x in s; }
      FilterCongruent(s[1..], p, q);
    }
  }

  /** Filtering distributes over concatenation. */
  lemma {:induction false} FilterAppend<T>(a: seq<T>, b: seq<T>, p: T -> bool)
    ensures Filter(a + b, p) == Filter(a, p) + Filter(b, p)
    decreases |a|
  {
    if a == [] {
      assert a + b == b;
    } else {
      assert (a + b)[0] == a[0];
      assert (a + b)[1..] == a[1..] + b;
      FilterAppend(a[1..], b, p);
    }
  }

  function Reverse<T>(s: seq<T>): (r: seq<T>)
    ensures |r| == |s|
  {
    if s == [] then [] else Reverse(s[1..]) + [s[0]]
  }

  lemma {:induction false} ReverseAt<T>(s: seq<T>, k: nat)
    requires k < |s|
    ensures Reverse(s)[k] == s[|s| - 1 - k]
    decreases |s|
  {
    if k < |s| - 1 {
      ReverseAt(s[1..], k);
    }
  }

  /** No element occurs twice. */
  predicate Distinct<T(==)>(s: seq<T>) {
    forall i, j :: 0 <= i < j < |s| ==> s[i] != s[j]
  }

  /** The elements of `s` in order of first occurrence, each once: element
      `s[i]` is kept exactly when it does not occur in `s[..i]`. */
  function FirstOccurrences<T(==)>(s: seq<T>): (r: seq<T>)
    decreases |s|
  {
    if s == [] then []
    else
      var init := s[..|s| - 1];
      var last := s[|s| - 1];
      if last in init then FirstOccurrences(init) else FirstOccurrences(init) + [last]
  }

  /** First-occurrence deduplication keeps every element once and nothing else. */
  lemma {:induction false} FirstOccurrencesSpec<T>(s: seq<T>)
    ensures forall x :: x in FirstOccurrences(s) <==> x in s
    ensures Distinct(FirstOccurrences(s))
    decreases |s|
  {
    if s != [] {
      var init := s[..|s| - 1];
      FirstOccurrencesSpec(init);
      assert s == init + [s[|s| - 1]];
    }
  }

  /** Inserting left to right into an insertion-ordered set (JavaScript's `Set`),
      starting from `acc`. */
  function InsertAll<T(==)>(acc: seq<T>, xs: seq<T>): (r: seq<T>)
    decreases |xs|
  {
    if xs == [] then acc
    else InsertAll(if xs[0] in acc then acc else acc + [xs[0]], xs[1..])
  }

  /** Building a `Set` from `p + xs`, having already inserted `p`, yields the
      first occurrences of `p + xs`. */
  lemma {:induction false} InsertAllFirstOccurrences<T>(p: seq<T>, xs: seq<T>)
    ensures InsertAll(FirstOccurrences(p), xs) == FirstOccurrences(p + xs)
    decreases |xs|
  {
    if xs == [] {
      assert p + xs == p;
    } else {
      var q := p + [xs[0]];
      calc {
        InsertAll(FirstOccurrences(p), xs);
        { FirstOccurrencesPush(p, xs[0]); }
        InsertAll(FirstOccurrences(q), xs[1..]);
        { InsertAllFirstOccurrences(q, xs[1..]); }
        FirstOccurrences(q + xs[1..]);
        { assert q + xs[1..] == p + xs; }
        FirstOccurrences(p + xs);
      }
    }
  }

  /** One more element is kept exactly when it is new. */
  lemma FirstOccurrencesPush<T>(p: seq<T>, x: T)
    ensures FirstOccurrences(p + [x]) ==
      if x in FirstOccurrences(p) then FirstOccurrences(p) else FirstOccurrences(p) + [x]
  {
    FirstOccurrencesSpec(p);
    var q := p + [x];
    assert q[..|q| - 1] == p && q[|q| - 1] == x;
  }

  /** `[...new Set(s)]` is the first-occurrence deduplication of `s`. */
  lemma SetSpreadIsFirstOccurrences<T>(s: seq<T>)
    ensures InsertAll([], s) == FirstOccurrences(s)
  {
    InsertAllFirstOccurrences([], s);
    assert [] + s == s;
  }

  /** Ordered by `key`, largest first. */
  predicate SortedDesc<T>(s: seq<T>, key: T -> int) {
    forall i, j :: 0 <= i < j < |s| ==> key(s[i]) >= key(s[j])
  }

  /** Inserts `x` before the first element whose key is not larger. */
  function InsertDesc<T>(x: T, s: seq<T>, key: T -> int): (r: seq<T>)
    decreases |s|
  {
    if s == [] || key(x) >= key(s[0]) then [x] + s
    else [s[0]] + InsertDesc(x, s[1..], key)
  }

  /** Inserting adds exactly `x`. */
  lemma {:induction false} InsertDescMultiset<T>(x: T, s: seq<T>, key: T -> int)
    ensures multiset(InsertDesc(x, s, key)) == multiset(s) + multiset{x}
    decreases |s|
  {
    if s != [] && key(x) < key(s[0]) {
      InsertDescMultiset(x, s[1..], key);
      assert s == [s[0]] + s[1..];
    }
  }

  /** Inserting into a sorted sequence keeps it sorted. */
  lemma {:induction false} InsertDescSorted<T>(x: T, s: seq<T>, key: T -> int)
    requires SortedDesc(s, key)
    ensures SortedDesc(InsertDesc(x, s, key), key)
    decreases |s|
  {
    if s == [] || key(x) >= key(s[0]) {
      ConsSorted(x, s, key);
    } else {
      var tail := InsertDesc(x, s[1..], key);
      InsertDescSorted(x, s[1..], key);
      InsertDescMultiset(x, s[1..], key);
      forall j | 0 <= j < |tail| ensures key(tail[j]) <= key(s[0]) {
        var y := tail[j];
        assert y in multiset(tail);
        if y != x {
          assert y in multiset(s[1..]);
          var k :| 0 <= k < |s[1..]| && s[1..][k] == y;
          assert s[k + 1] == y;
        }
      }
      ConsSorted(s[0], tail, key);
    }
  }

  /** A sorted sequence stays sorted below a head no smaller than any of it. */
  lemma ConsSorted<T>(h: T, t: seq<T>, key: T -> int)
    requires SortedDesc(t, key)
    requires forall j :: 0 <= j < |t| ==> key(t[j]) <= key(h)
    ensures SortedDesc([h] + t, key)
  {
    var r := [h] + t;
    forall i, j | 0 <= i < j < |r| ensures key(r[i]) >= key(r[j]) {
      assert r[j] == t[j - 1];
      if i > 0 {
        assert r[i] == t[i - 1];
      }
    }
  }

  /** A database sort on `key`, descending (`.sort({ key: -1 })`): a
      permutation of the input, largest key first. */
  function SortDesc<T>(s: seq<T>, key: T -> int): (r: seq<T>)
    ensures SortedDesc(r, key)
    ensures multiset(r) == multiset(s)
    ensures |r| == |s|
    decreases |s|
  {
    if s == [] then []
    else
      assert s == [s[0]] + s[1..];
      InsertDescSorted(s[0], SortDesc(s[1..], key), key);
      InsertDescMultiset(s[0], SortDesc(s[1..], key), key);
      InsertDesc(s[0], SortDesc(s[1..], key), key)
  }
}
