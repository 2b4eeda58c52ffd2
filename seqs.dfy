/** Sequence vocabulary shared by the aggregates: occurrence counts, the
    first-occurrence de-duplication that a JavaScript Map's insertion order
    produces, order-preserving filtering, summation, and the fact that a
    tally over distinct keys accounts for every element exactly once. */
module Seqs {

  datatype Option<+T> = None | Some(value: T)

  datatype Result<+T, +E> = Success(value: T) | Failure(error: E)

  /** Number of occurrences of `x` in `s`. */
  function Count<T(==)>(s: seq<T>, x: T): (n: nat)
    ensures n <= |s|
    ensures n > 0 <==> x in s
  {
    if s == [] then 0
    else
      assert s == s[..|s| - 1] + [s[|s| - 1]];
      Count(s[..|s| - 1], x) + (if s[|s| - 1] == x then 1 else 0)
  }

  lemma CountSnoc<T>(s: seq<T>, y: T, x: T)
    ensures Count(s + [y], x) == Count(s, x) + (if y == x then 1 else 0)
  {
    assert (s + [y])[..|s + [y]| - 1] == s;
  }

  ghost predicate Distinct<T>(s: seq<T>) {
    forall i, j :: 0 <= i < j < |s| ==> s[i] != s[j]
  }

  /** Appending an element not yet present keeps a list free of repeats. */
  lemma DistinctSnoc<T>(s: seq<T>, y: T)
    requires Distinct(s) && y !in s
    ensures Distinct(s + [y])
  {
  }

  /** Concatenation is associative. */
  lemma ConcatAssoc<T>(a: seq<T>, b: seq<T>, c: seq<T>)
    ensures (a + b) + c == a + (b + c)
  {
  }

  /** The empty list is neutral for concatenation. */
  lemma ConcatEmpty<T>(a: seq<T>)
    ensures a + [] == a && [] + a == a
  {
  }

  /** A non-empty list is its first element followed by the rest. */
  lemma HeadSplit<T>(s: seq<T>)
    requires s != []
    ensures s == [s[0]] + s[1..]
  {
  }

  /** A non-empty list is its front followed by its last element. */
  lemma LastSplit<T>(s: seq<T>)
    requires s != []
    ensures s == s[..|s| - 1] + [s[|s| - 1]]
  {
  }

  /** Putting an element in front of a list without repeats that does not
      hold it keeps the list without repeats. */
  lemma DistinctCons<T>(x: T, t: seq<T>)
    requires x !in t && Distinct(t)
    ensures Distinct([x] + t)
  {
    var s := [x] + t;
    forall i, j | 0 <= i < j < |s| ensures s[i] != s[j] {
      assert s[j] == t[j - 1];
      if i > 0 {
        assert s[i] == t[i - 1];
      }
    }
  }

  /** The distinct elements of `s`, each listed once, in the order of their
      first appearance (the key order of a Map filled by walking `s`). */
  function Dedup<T(==,!new)>(s: seq<T>): (d: seq<T>)
    ensures Distinct(d)
    ensures forall x :: x in d <==> x in s
    ensures |d| <= |s|
  {
    if s == [] then []
    else
      var d' := Dedup(s[..|s| - 1]);
      assert s == s[..|s| - 1] + [s[|s| - 1]];
      if s[|s| - 1] in d' then d' else d' + [s[|s| - 1]]
  }

  lemma DedupSnoc<T(!new)>(s: seq<T>, y: T)
    ensures Dedup(s + [y]) == if y in Dedup(s) then Dedup(s) else Dedup(s) + [y]
  {
    assert (s + [y])[..|s + [y]| - 1] == s;
  }

  /** Position of the first occurrence of `x` in `s`. */
  function IndexOf<T(==)>(s: seq<T>, x: T): (i: nat)
    requires x in s
    ensures i < |s| && s[i] == x && x !in s[..i]
  {
    if s[0] == x then 0
    else
      assert s == [s[0]] + s[1..];
      1 + IndexOf(s[1..], x)
  }

  lemma {:induction false} IndexOfPrefix<T>(s: seq<T>, t: seq<T>, x: T)
    requires x in s
    ensures IndexOf(s + t, x) == IndexOf(s, x)
  {
    if s[0] != x {
      assert (s + t)[1..] == s[1..] + t;
      IndexOfPrefix(s[1..], t, x);
    }
  }

  /** Dedup lists the distinct elements in the order in which they first
      occur in `s`. */
  lemma {:induction false} DedupFirstOccurrenceOrder<T(!new)>(s: seq<T>, i: nat, j: nat)
    requires i < j < |Dedup(s)|
    ensures IndexOf(s, Dedup(s)[i]) < IndexOf(s, Dedup(s)[j])
  {
    var n := |s| - 1;
    var p := s[..n];
    assert s == p + [s[n]];
    var d' := Dedup(p);
    var d := Dedup(s);
    assert d[i] in d' && d[i] in p;
    IndexOfPrefix(p, [s[n]], d[i]);
    if j < |d'| {
      DedupFirstOccurrenceOrder(p, i, j);
      IndexOfPrefix(p, [s[n]], d[j]);
    } else {
      assert d == d' + [s[n]] && d[j] == s[n];
      assert s[n] !in p;
      assert IndexOf(s, d[j]) == n;
    }
  }

  /** The elements of `s` satisfying `p`, in their original order. */
  function Filter<T(==,!new)>(s: seq<T>, p: T -> bool): (r: seq<T>)
    ensures |r| <= |s|
    ensures forall i :: 0 <= i < |r| ==> p(r[i])
    ensures forall x :: multiset(r)[x] == if p(x) then multiset(s)[x] else 0
  {
    if s == [] then []
    else
      assert s == s[..|s| - 1] + [s[|s| - 1]];
      Filter(s[..|s| - 1], p) + (if p(s[|s| - 1]) then [s[|s| - 1]] else [])
  }

  /** Sum of `f` over `xs`. */
  function Sum<T>(xs: seq<T>, f: T -> int): int {
    if xs == [] then 0 else f(xs[0]) + Sum(xs[1..], f)
  }

  /** Sum over `keys` of the number of occurrences of each key in `s`. */
  function CountAll<T(==)>(s: seq<T>, keys: seq<T>): nat {
    if keys == [] then 0 else Count(s, keys[0]) + CountAll(s, keys[1..])
  }

  lemma {:induction false} CountAllSnoc<T>(s: seq<T>, y: T, keys: seq<T>)
    requires Distinct(keys)
    ensures CountAll(s + [y], keys) == CountAll(s, keys) + (if y in keys then 1 else 0)
  {
    if keys != [] {
      CountSnoc(s, y, keys[0]);
      CountAllSnoc(s, y, keys[1..]);
      assert y in keys <==> y == keys[0] || y in keys[1..];
      assert y == keys[0] ==> y !in keys[1..];
    }
  }

  lemma {:induction false} CountAllCovers<T>(s: seq<T>, keys: seq<T>)
    requires Distinct(keys)
    requires forall x :: x in s ==> x in keys
    ensures CountAll(s, keys) == |s|
  {
    if s == [] {
      CountAllEmpty(keys);
    } else {
      var p := s[..|s| - 1];
      assert s == p + [s[|s| - 1]];
      CountAllCovers(p, keys);
      CountAllSnoc(p, s[|s| - 1], keys);
    }
  }

  lemma {:induction false} CountAllEmpty<T>(keys: seq<T>)
    ensures CountAll([], keys) == 0
  {
    if keys != [] {
      CountAllEmpty(keys[1..]);
    }
  }

  lemma {:induction false} SumIsCountAll<T, U>(s: seq<T>, xs: seq<U>, key: U -> T, count: U -> int, keys: seq<T>)
    requires |keys| == |xs|
    requires forall i :: 0 <= i < |xs| ==> keys[i] == key(xs[i]) && count(xs[i]) == Count(s, key(xs[i]))
    ensures Sum(xs, count) == CountAll(s, keys)
  {
    if xs != [] {
      SumIsCountAll(s, xs[1..], key, count, keys[1..]);
    }
  }

  /** A tally over pairwise distinct keys that cover every element of `s`
      accounts for each element exactly once: its counts sum to |s|. */
  lemma TallyConserves<T, U>(s: seq<T>, xs: seq<U>, key: U -> T, count: U -> int)
    requires forall i :: 0 <= i < |xs| ==> count(xs[i]) == Count(s, key(xs[i]))
    requires forall i, j :: 0 <= i < j < |xs| ==> key(xs[i]) != key(xs[j])
    requires forall x :: x in s ==> exists i :: 0 <= i < |xs| && key(xs[i]) == x
    ensures Sum(xs, count) == |s|
  {
    var keys := seq(|xs|, i requires 0 <= i < |xs| => key(xs[i]));
    SumIsCountAll(s, xs, key, count, keys);
    forall x | x in s ensures x in keys {
      var i :| 0 <= i < |xs| && key(xs[i]) == x;
      assert keys[i] == x;
    }
    CountAllCovers(s, keys);
  }

  /** An element of a list without repeats occurs in it at most once. */
  lemma {:induction false} DistinctOnce<T>(s: seq<T>, x: T)
    requires Distinct(s)
    ensures multiset(s)[x] <= 1
  {
    if s != [] {
      var p := s[..|s| - 1];
      assert s == p + [s[|s| - 1]];
      DistinctOnce(p, x);
      if s[|s| - 1] == x {
        assert x !in p;
      }
    }
  }

  /** Rearranging a list without repeats leaves it without repeats. */
  lemma PermutationDistinct<T>(s: seq<T>, t: seq<T>)
    requires Distinct(s) && multiset(s) == multiset(t)
    ensures Distinct(t)
  {
    forall i, j | 0 <= i < j < |t| ensures t[i] != t[j] {
      if t[i] == t[j] {
        assert t == t[..j] + t[j..];
        assert t[i] in t[..j] && t[j] in t[j..];
        assert multiset(t)[t[i]] == multiset(t[..j])[t[i]] + multiset(t[j..])[t[i]];
        DistinctOnce(s, t[i]);
      }
    }
  }

  /** Filtering two rearrangements of the same list keeps the same number
      of elements. */
  lemma FilterPermutation<T(!new)>(s: seq<T>, t: seq<T>, p: T -> bool)
    requires multiset(s) == multiset(t)
    ensures |Filter(s, p)| == |Filter(t, p)|
  {
    assert multiset(Filter(s, p)) == multiset(Filter(t, p));
    assert |multiset(Filter(s, p))| == |Filter(s, p)|;
    assert |multiset(Filter(t, p))| == |Filter(t, p)|;
  }

  /** When the first `n` elements satisfy `p`, the filter keeps at least `n`. */
  lemma FilterKeepsPrefix<T(!new)>(s: seq<T>, p: T -> bool, n: nat)
    requires n <= |s|
    requires forall k :: 0 <= k < n ==> p(s[k])
    ensures |Filter(s, p)| >= n
  {
    var prefix := s[..n];
    var kept := Filter(s, p);
    SplitMultiset(s, n);
    forall x ensures multiset(prefix)[x] <= multiset(kept)[x] {
      if !p(x) {
        assert x !in prefix;
      }
    }
    SubMultisetSize(multiset(prefix), multiset(kept));
  }

  /** When no element from index `n` on satisfies `p`, the filter keeps at
      most `n`. */
  lemma FilterWithinPrefix<T(!new)>(s: seq<T>, p: T -> bool, n: nat)
    requires n <= |s|
    requires forall k :: n <= k < |s| ==> !p(s[k])
    ensures |Filter(s, p)| <= n
  {
    var prefix := s[..n];
    var kept := Filter(s, p);
    SplitMultiset(s, n);
    forall x ensures multiset(kept)[x] <= multiset(prefix)[x] {
      if p(x) {
        assert x !in s[n..];
      }
    }
    SubMultisetSize(multiset(kept), multiset(prefix));
  }

  /** A list's elements are those of its first `n` and of the rest. */
  lemma SplitMultiset<T>(s: seq<T>, n: nat)
    requires n <= |s|
    ensures multiset(s) == multiset(s[..n]) + multiset(s[n..])
  {
    assert s == s[..n] + s[n..];
  }

  lemma SubMultisetSize<T>(a: multiset<T>, b: multiset<T>)
    requires a <= b
    ensures |a| <= |b|
  {
    assert b == a + (b - a);
  }

  /** `m` with the count of `k` raised by one, starting from 0 when `k` is
      new: `m.set(k, (m.get(k) ?? 0) + 1)`. */
  function Bump<T(!new)>(m: map<T, nat>, k: T): (r: map<T, nat>)
    ensures k in r && r[k] == (if k in m then m[k] else 0) + 1
    ensures forall x :: x in r <==> x in m || x == k
  {
    m[k := (if k in m then m[k] else 0) + 1]
  }

  /** The counting map built by walking `s` and bumping each element. */
  function Tally<T(!new)>(s: seq<T>): map<T, nat> {
    if s == [] then map[] else Bump(Tally(s[..|s| - 1]), s[|s| - 1])
  }

  /** The tally holds exactly the elements of `s`, each with its number of
      occurrences. */
  lemma {:induction false} TallyMeaning<T(!new)>(s: seq<T>)
    ensures forall x :: x in Tally(s) <==> x in s
    ensures forall x :: x in Tally(s) ==> Tally(s)[x] == Count(s, x)
  {
    if s != [] {
      var p := s[..|s| - 1];
      var y := s[|s| - 1];
      TallyMeaning(p);
      assert s == p + [y];
      forall x ensures x in Tally(s) <==> x in s {
        assert x in s <==> x in p || x == y;
      }
      forall x | x in Tally(s) ensures Tally(s)[x] == Count(s, x) {
        CountSnoc(p, y, x);
      }
    }
  }

  /** Extending the walked list by one element bumps that element. */
  lemma TallySnoc<T(!new)>(s: seq<T>, y: T)
    ensures Tally(s + [y]) == Bump(Tally(s), y)
  {
    assert (s + [y])[..|s + [y]| - 1] == s;
  }

  /** The set of the elements of `s`. */
  function Elements<T(!new)>(s: seq<T>): set<T> {
    set x | x in s
  }

  /** A list without repeats has as many elements as its set. */
  lemma {:induction false} DistinctSetSize<T(!new)>(s: seq<T>)
    requires Distinct(s)
    ensures |Elements(s)| == |s|
  {
    if s != [] {
      var p := s[..|s| - 1];
      var y := s[|s| - 1];
      assert s == p + [y];
      DistinctSetSize(p);
      assert Elements(s) == Elements(p) + {y};
      assert y !in Elements(p);
    }
  }

  /** De-duplication keeps one copy of each element: as many as the set
      of `s` holds (`new Set(s).size`). */
  lemma DedupSetSize<T(!new)>(s: seq<T>)
    ensures |Dedup(s)| == |Elements(s)|
  {
    DistinctSetSize(Dedup(s));
    assert Elements(Dedup(s)) == Elements(s);
  }

  /** With non-negative terms, each term is at most the sum. */
  lemma {:induction false} TermAtMostSum<T>(xs: seq<T>, f: T -> int, i: nat)
    requires i < |xs|
    requires forall j :: 0 <= j < |xs| ==> f(xs[j]) >= 0
    ensures f(xs[i]) <= Sum(xs, f)
  {
    SumNonNegative(xs[1..], f);
    if i > 0 {
      TermAtMostSum(xs[1..], f, i - 1);
    }
  }

  lemma {:induction false} SumNonNegative<T>(xs: seq<T>, f: T -> int)
    requires forall j :: 0 <= j < |xs| ==> f(xs[j]) >= 0
    ensures Sum(xs, f) >= 0
  {
    if xs != [] {
      SumNonNegative(xs[1..], f);
    }
  }
}
