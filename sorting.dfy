/** The two orderings the engine relies on: JavaScript's stable
    `Array.prototype.sort` with a numeric comparator, modelled as a stable
    insertion sort by an integer key, and the string order used for hour
    keys, modelled as code-unit lexicographic order. */
module Sorting {
  import opened Seqs

  ghost predicate SortedBy<T>(s: seq<T>, key: T -> int) {
    forall i, j :: 0 <= i < j < |s| ==> key(s[i]) <= key(s[j])
  }

  /** The elements of `s` whose key is `c`, in their order in `s`. */
  function Keep<T>(s: seq<T>, key: T -> int, c: int): seq<T> {
    if s == [] then []
    else Keep(s[..|s| - 1], key, c) + (if key(s[|s| - 1]) == c then [s[|s| - 1]] else [])
  }

  /** Places `x` after every element whose key does not exceed its own, so an
      element inserted later stays behind earlier ones with the same key. */
  function Insert<T(==)>(x: T, s: seq<T>, key: T -> int): (r: seq<T>)
    ensures |r| == |s| + 1
    ensures multiset(r) == multiset(s) + multiset{x}
  {
    if s == [] then [x]
    else if key(s[0]) <= key(x) then
      assert s == [s[0]] + s[1..];
      [s[0]] + Insert(x, s[1..], key)
    else
      [x] + s
  }

  lemma {:induction false} InsertSorted<T>(x: T, s: seq<T>, key: T -> int)
    requires SortedBy(s, key)
    ensures SortedBy(Insert(x, s, key), key)
  {
    if s != [] && key(s[0]) <= key(x) {
      var rest := Insert(x, s[1..], key);
      InsertSorted(x, s[1..], key);
      forall k | 0 <= k < |rest| ensures key(s[0]) <= key(rest[k]) {
        assert rest[k] in multiset(rest);
        if rest[k] != x {
          assert rest[k] in s[1..];
        }
      }
    }
  }

  lemma {:induction false} InsertLast<T>(x: T, s: seq<T>, key: T -> int)
    requires forall i :: 0 <= i < |s| ==> key(s[i]) <= key(x)
    ensures Insert(x, s, key) == s + [x]
  {
    if s != [] {
      InsertLast(x, s[1..], key);
      assert s == [s[0]] + s[1..];
    }
  }

  /** Stable ascending sort of `s` by `key`. */
  function SortBy<T(==)>(s: seq<T>, key: T -> int): (r: seq<T>)
    ensures |r| == |s|
    ensures multiset(r) == multiset(s)
    ensures SortedBy(r, key)
  {
    if s == [] then []
    else
      assert s == s[..|s| - 1] + [s[|s| - 1]];
      InsertSorted(s[|s| - 1], SortBy(s[..|s| - 1], key), key);
      Insert(s[|s| - 1], SortBy(s[..|s| - 1], key), key)
  }

  /** One step of the sort: the last element is inserted into the sorted rest. */
  lemma SortBySnoc<T>(s: seq<T>, key: T -> int)
    requires s != []
    ensures SortBy(s, key) == Insert(s[|s| - 1], SortBy(s[..|s| - 1], key), key)
  {
  }

  /** A list already in order is left as it is. */
  lemma {:induction false} SortBySorted<T>(s: seq<T>, key: T -> int)
    requires SortedBy(s, key)
    ensures SortBy(s, key) == s
  {
    if s == [] {
      assert SortBy(s, key) == [];
    } else {
      var p := s[..|s| - 1];
      var x := s[|s| - 1];
      assert SortedBy(p, key) by {
        forall i, j | 0 <= i < j < |p| ensures key(p[i]) <= key(p[j]) {
          assert p[i] == s[i] && p[j] == s[j];
        }
      }
      SortBySorted(p, key);
      forall i | 0 <= i < |p| ensures key(p[i]) <= key(x) {
        assert p[i] == s[i];
      }
      InsertLast(x, p, key);
      SortBySnoc(s, key);
      LastSplit(s);
    }
  }

  lemma {:induction false} KeepCons<T>(a: T, s: seq<T>, key: T -> int, c: int)
    ensures Keep([a] + s, key, c) == (if key(a) == c then [a] else []) + Keep(s, key, c)
  {
    if s != [] {
      var t := [a] + s;
      assert t[..|t| - 1] == [a] + s[..|s| - 1];
      KeepCons(a, s[..|s| - 1], key, c);
    } else {
      assert ([a] + s)[..0] == [];
    }
  }

  lemma {:induction false} KeepNone<T>(s: seq<T>, key: T -> int, c: int)
    requires forall i :: 0 <= i < |s| ==> key(s[i]) != c
    ensures Keep(s, key, c) == []
  {
    if s != [] {
      KeepNone(s[..|s| - 1], key, c);
    }
  }

  lemma {:induction false} KeepInsert<T>(x: T, t: seq<T>, key: T -> int, c: int)
    requires SortedBy(t, key)
    ensures Keep(Insert(x, t, key), key, c) == Keep(t, key, c) + (if key(x) == c then [x] else [])
  {
    if t == [] {
      assert Insert(x, t, key) == [] + [x];
      KeepCons(x, [], key, c);
    } else if key(t[0]) <= key(x) {
      HeadSplit(t);
      assert Insert(x, t, key) == [t[0]] + Insert(x, t[1..], key);
      KeepInsert(x, t[1..], key, c);
      KeepCons(t[0], Insert(x, t[1..], key), key, c);
      KeepCons(t[0], t[1..], key, c);
      ConcatAssoc(if key(t[0]) == c then [t[0]] else [], Keep(t[1..], key, c), if key(x) == c then [x] else []);
    } else {
      assert Insert(x, t, key) == [x] + t;
      KeepCons(x, t, key, c);
      if key(x) == c {
        KeepNone(t, key, c);
      }
      ConcatEmpty(Keep(t, key, c));
      ConcatEmpty([x]);
    }
  }

  /** The sort is stable: for every key value, the elements carrying it come
      out in the order in which they went in. */
  lemma {:induction false} SortByStable<T>(s: seq<T>, key: T -> int, c: int)
    ensures Keep(SortBy(s, key), key, c) == Keep(s, key, c)
  {
    if s != [] {
      var p := s[..|s| - 1];
      SortByStable(p, key, c);
      KeepInsert(s[|s| - 1], SortBy(p, key), key, c);
    }
  }

  /** Where `Insert` places `x`: after the leading elements whose key does
      not exceed its own. */
  function InsertPos<T>(x: T, s: seq<T>, key: T -> int): (m: nat)
    ensures m <= |s|
  {
    if s != [] && key(s[0]) <= key(x) then 1 + InsertPos(x, s[1..], key) else 0
  }

  lemma {:induction false} InsertAt<T>(x: T, s: seq<T>, key: T -> int)
    ensures Insert(x, s, key) == s[..InsertPos(x, s, key)] + [x] + s[InsertPos(x, s, key)..]
  {
    var m := InsertPos(x, s, key);
    if s != [] && key(s[0]) <= key(x) {
      var t := s[1..];
      InsertAt(x, t, key);
      assert m - 1 == InsertPos(x, t, key);
      assert Insert(x, s, key) == [s[0]] + Insert(x, t, key);
      assert s[..m] == [s[0]] + t[..m - 1];
      assert s[m..] == t[m - 1..];
      ConcatAssoc([s[0]], t[..m - 1] + [x], t[m - 1..]);
      ConcatAssoc([s[0]], t[..m - 1], [x]);
    } else {
      assert m == 0;
      assert s[..m] == [] && s[m..] == s;
      ConcatEmpty([x]);
    }
  }

  lemma {:induction false} InsertPosBefore<T>(x: T, s: seq<T>, key: T -> int, i: nat)
    requires i < InsertPos(x, s, key)
    ensures key(s[i]) <= key(x)
  {
    if i > 0 {
      InsertPosBefore(x, s[1..], key, i - 1);
    }
  }

  lemma {:induction false} InsertPosAfter<T>(x: T, s: seq<T>, key: T -> int, i: nat)
    requires SortedBy(s, key)
    requires InsertPos(x, s, key) <= i < |s|
    ensures key(x) < key(s[i])
  {
    if InsertPos(x, s, key) > 0 {
      assert SortedBy(s[1..], key) by {
        forall a, b | 0 <= a < b < |s[1..]| ensures key(s[1..][a]) <= key(s[1..][b]) {
          assert s[1..][a] == s[a + 1] && s[1..][b] == s[b + 1];
        }
      }
      InsertPosAfter(x, s[1..], key, i - 1);
    } else {
      assert key(x) < key(s[0]);
    }
  }

  lemma IndexOfSnoc<T>(p: seq<T>, x: T, a: T, b: T)
    requires a in p && b in p && IndexOf(p, a) < IndexOf(p, b)
    ensures IndexOf(p + [x], a) < IndexOf(p + [x], b)
  {
    IndexOfPrefix(p, [x], a);
    IndexOfPrefix(p, [x], b);
  }

  lemma IndexOfBeforeLast<T>(p: seq<T>, x: T, a: T)
    requires a in p && x !in p
    ensures IndexOf(p + [x], a) < IndexOf(p + [x], x)
  {
    IndexOfPrefix(p, [x], a);
    assert (p + [x])[..|p|] == p;
  }

  /** An element of the insertion result other than the inserted one, and
      where it came from. */
  lemma InsertedFrom<T>(x: T, t: seq<T>, key: T -> int, k: nat)
    requires k < |t| + 1 && k != InsertPos(x, t, key)
    ensures var m := InsertPos(x, t, key);
      Insert(x, t, key)[k] == t[if k < m then k else k - 1]
  {
    InsertAt(x, t, key);
  }

  /** Stable order of equal keys is kept when one more element, new to the
      list, is inserted into a sorted list `t` of the earlier elements `p`. */
  lemma InsertKeepsOrder<T>(p: seq<T>, x: T, key: T -> int, t: seq<T>, i: nat, j: nat)
    requires x !in p
    requires SortedBy(t, key) && multiset(t) == multiset(p)
    requires forall a, b :: 0 <= a < b < |t| && key(t[a]) == key(t[b]) ==>
      t[a] in p && t[b] in p && IndexOf(p, t[a]) < IndexOf(p, t[b])
    requires i < j < |t| + 1
    requires key(Insert(x, t, key)[i]) == key(Insert(x, t, key)[j])
    ensures Insert(x, t, key)[i] in p + [x] && Insert(x, t, key)[j] in p + [x]
    ensures IndexOf(p + [x], Insert(x, t, key)[i]) < IndexOf(p + [x], Insert(x, t, key)[j])
  {
    var r := Insert(x, t, key);
    var m := InsertPos(x, t, key);
    InsertAt(x, t, key);
    if j == m {
      InsertedFrom(x, t, key, i);
      assert r[i] in multiset(t);
      IndexOfBeforeLast(p, x, r[i]);
    } else if i != m {
      InsertedFrom(x, t, key, i);
      InsertedFrom(x, t, key, j);
      var i' := if i < m then i else i - 1;
      var j' := if j < m then j else j - 1;
      assert r[i] == t[i'] && r[j] == t[j'] && i' < j';
      IndexOfSnoc(p, x, r[i], r[j]);
    } else {
      InsertedFrom(x, t, key, j);
      InsertPosAfter(x, t, key, j - 1);
    }
  }

  /** The sort is stable, stated by position: of two elements with equal
      keys, the one that came first in the input comes first in the output. */
  lemma {:induction false} SortByStableOrder<T>(s: seq<T>, key: T -> int)
    requires Distinct(s)
    ensures forall i, j :: 0 <= i < j < |SortBy(s, key)| && key(SortBy(s, key)[i]) == key(SortBy(s, key)[j]) ==>
      SortBy(s, key)[i] in s && SortBy(s, key)[j] in s && IndexOf(s, SortBy(s, key)[i]) < IndexOf(s, SortBy(s, key)[j])
  {
    if s != [] {
      var p := s[..|s| - 1];
      var x := s[|s| - 1];
      var t := SortBy(p, key);
      assert s == p + [x];
      assert Distinct(p) && x !in p;
      SortByStableOrder(p, key);
      SortBySnoc(s, key);
      forall i, j | 0 <= i < j < |SortBy(s, key)| && key(SortBy(s, key)[i]) == key(SortBy(s, key)[j])
        ensures SortBy(s, key)[i] in s && SortBy(s, key)[j] in s && IndexOf(s, SortBy(s, key)[i]) < IndexOf(s, SortBy(s, key)[j])
      {
        InsertKeepsOrder(p, x, key, t, i, j);
      }
    }
  }

  /** Strict code-unit lexicographic order on strings: no string is below
      itself, and a proper prefix is below the longer string. */
  predicate Below(a: string, b: string): (below: bool)
    ensures below ==> a != b
    ensures |a| < |b| && a == b[..|a|] ==> below
  {
    if a == [] then b != []
    else if b == [] then false
    else if a[0] == b[0] then Below(a[1..], b[1..])
    else a[0] < b[0]
  }

  lemma {:induction false} BelowIrreflexive(a: string)
    ensures !Below(a, a)
  {
    if a != [] {
      BelowIrreflexive(a[1..]);
    }
  }

  lemma {:induction false} BelowTransitive(a: string, b: string, c: string)
    requires Below(a, b) && Below(b, c)
    ensures Below(a, c)
  {
    if a != [] && b != [] && c != [] && a[0] == b[0] && b[0] == c[0] {
      BelowTransitive(a[1..], b[1..], c[1..]);
    }
  }

  lemma {:induction false} BelowTotal(a: string, b: string)
    requires a != b
    ensures Below(a, b) || Below(b, a)
  {
    if a != [] && b != [] && a[0] == b[0] {
      assert a == [a[0]] + a[1..] && b == [b[0]] + b[1..];
      BelowTotal(a[1..], b[1..]);
    }
  }

  ghost predicate StrictlyAscending(s: seq<string>) {
    forall i, j :: 0 <= i < j < |s| ==> Below(s[i], s[j])
  }

  function InsertString(x: string, s: seq<string>): (r: seq<string>)
    ensures multiset(r) == multiset(s) + multiset{x}
  {
    if s == [] then [x]
    else if Below(s[0], x) then
      assert s == [s[0]] + s[1..];
      [s[0]] + InsertString(x, s[1..])
    else [x] + s
  }

  /** Ascending sort of strings (insertion sort). */
  function SortStrings(s: seq<string>): (r: seq<string>)
    ensures multiset(r) == multiset(s)
  {
    if s == [] then []
    else
      assert s == s[..|s| - 1] + [s[|s| - 1]];
      InsertString(s[|s| - 1], SortStrings(s[..|s| - 1]))
  }

  lemma {:induction false} InsertStringAscending(x: string, s: seq<string>)
    requires StrictlyAscending(s) && x !in s
    ensures StrictlyAscending(InsertString(x, s))
  {
    if s != [] {
      if Below(s[0], x) {
        InsertStringAscending(x, s[1..]);
        var rest := InsertString(x, s[1..]);
        forall k | 0 <= k < |rest| ensures Below(s[0], rest[k]) {
          assert rest[k] in multiset(rest);
          if rest[k] != x {
            assert rest[k] in s[1..];
          }
        }
      } else {
        BelowTotal(x, s[0]);
        forall k | 0 <= k < |s| ensures Below(x, s[k]) {
          if k > 0 {
            BelowTransitive(x, s[0], s[k]);
          }
        }
      }
    }
  }

  /** Sorting distinct keys yields a strictly ascending list of the same keys. */
  lemma {:induction false} SortStringsAscending(s: seq<string>)
    requires Distinct(s)
    ensures StrictlyAscending(SortStrings(s))
    ensures forall x :: x in SortStrings(s) <==> x in s
  {
    var r := SortStrings(s);
    forall x ensures x in r <==> x in s {
      assert x in r <==> x in multiset(r);
    }
    if s != [] {
      var p := s[..|s| - 1];
      SortStringsAscending(p);
      assert s[|s| - 1] !in p;
      InsertStringAscending(s[|s| - 1], SortStrings(p));
    }
  }

  /** A strictly ascending list holds no key twice. */
  lemma StrictlyAscendingDistinct(s: seq<string>)
    requires StrictlyAscending(s)
    ensures Distinct(s)
  {
    forall i, j | 0 <= i < j < |s| ensures s[i] != s[j] {
      BelowIrreflexive(s[i]);
    }
  }

  ghost predicate Increasing(s: seq<int>) {
    forall i, j :: 0 <= i < j < |s| ==> s[i] < s[j]
  }

  /** Two increasing lists holding the same numbers are the same list. */
  lemma {:induction false} IncreasingUnique(a: seq<int>, b: seq<int>)
    requires Increasing(a) && Increasing(b)
    requires forall x :: x in a <==> x in b
    ensures a == b
  {
    assert a != [] ==> a[0] in a && a[0] in b;
    assert b != [] ==> b[0] in b && b[0] in a;
    if a != [] && b != [] {
      assert a[0] in b && b[0] in a;
      assert a[0] == b[0] by {
        var i :| 0 <= i < |b| && b[i] == a[0];
        var j :| 0 <= j < |a| && a[j] == b[0];
        assert b[0] <= b[i] && a[0] <= a[j];
      }
      forall x ensures x in a[1..] <==> x in b[1..] {
        if x in a[1..] {
          var i :| 1 <= i < |a| && a[i] == x;
          assert x in a;
          var k :| 0 <= k < |b| && b[k] == x;
          assert k != 0 && b[1..][k - 1] == x;
        }
        if x in b[1..] {
          var i :| 1 <= i < |b| && b[i] == x;
          assert x in b;
          var k :| 0 <= k < |a| && a[k] == x;
          assert k != 0 && a[1..][k - 1] == x;
        }
      }
      IncreasingUnique(a[1..], b[1..]);
      assert a == [a[0]] + a[1..] && b == [b[0]] + b[1..];
    }
  }
}
