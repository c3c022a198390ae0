/** Sequence helpers behind the source's `filter`, `find`, `slice`, `includes` and (stable) `sort`. */
module Seqs {
  import opened Wrappers

  /** The position `s.find(p)` stops at: the first element satisfying `p`. */
  function FindIndex<T>(s: seq<T>, p: T -> bool): (r: Option<nat>)
    ensures r.None? <==> forall i :: 0 <= i < |s| ==> !p(s[i])
    ensures r.Some? ==> r.value < |s| && p(s[r.value])
    ensures r.Some? ==> forall j :: 0 <= j < r.value ==> !p(s[j])
  {
    if s == [] then None
    else if p(s[0]) then Some(0)
    else
      match FindIndex(s[1..], p)
      case None => None
      case Some(k) => Some(k + 1)
  }

  /** `s.find(p)`. */
  function Find<T>(s: seq<T>, p: T -> bool): (r: Option<T>)
    ensures r.None? <==> forall i :: 0 <= i < |s| ==> !p(s[i])
    ensures r.Some? ==> r.value in s && p(r.value)
  {
    match FindIndex(s, p)
    case None => None
    case Some(k) => Some(s[k])
  }

  /** Appending one match after a sequence with none: it is the one found. */
  lemma {:induction false} FindAfterMisses<T>(s: seq<T>, x: T, p: T -> bool)
    requires forall i :: 0 <= i < |s| ==> !p(s[i])
    requires p(x)
    ensures FindIndex(s + [x], p) == Some(|s|)
    ensures Find(s + [x], p) == Some(x)
  {
    if s != [] {
      assert (s + [x])[1..] == s[1..] + [x];
      FindAfterMisses(s[1..], x, p);
    }
  }

  /** Replacing the element found by another match: the search stops at the same place. */
  lemma {:induction false} FindPointUpdate<T>(s: seq<T>, p: T -> bool, i: nat, y: T)
    requires FindIndex(s, p) == Some(i)
    requires p(y)
    ensures FindIndex(s[i := y], p) == Some(i)
    ensures Find(s[i := y], p) == Some(y)
  {
    if i > 0 {
      assert s[i := y][1..] == s[1..][i - 1 := y];
      FindPointUpdate(s[1..], p, i - 1, y);
    }
  }

  /** `s.filter(p)`: the elements of `s` that satisfy `p`, in their original order. */
  function Filter<T(!new)>(s: seq<T>, p: T -> bool): (r: seq<T>)
    ensures |r| <= |s|
    ensures forall x :: x in r <==> x in s && p(x)
    ensures forall i :: 0 <= i < |r| ==> p(r[i])
  {
    if s == [] then []
    else
      var rest := Filter(s[1..], p);
      assert forall x :: x in s <==> x == s[0] || x in s[1..];
      if p(s[0]) then [s[0]] + rest else rest
  }

  lemma {:induction false} FilterAppend<T(!new)>(a: seq<T>, b: seq<T>, p: T -> bool)
    ensures Filter(a + b, p) == Filter(a, p) + Filter(b, p)
  {
    if a == [] {
      assert a + b == b;
    } else {
      assert (a + b)[1..] == a[1..] + b;
      FilterAppend(a[1..], b, p);
    }
  }

  /** Filtering never changes how often an accepted element occurs, and drops the rejected ones. */
  lemma {:induction false} FilterCount<T(!new)>(s: seq<T>, p: T -> bool, x: T)
    ensures multiset(Filter(s, p))[x] == if p(x) then multiset(s)[x] else 0
  {
    if s != [] {
      FilterCount(s[1..], p, x);
      assert s == [s[0]] + s[1..];
    }
  }

  /** A filter keeps each element at most as often as the input holds it. */
  lemma FilterShrinks<T(!new)>(s: seq<T>, p: T -> bool)
    ensures multiset(Filter(s, p)) <= multiset(s)
  {
    forall x ensures multiset(Filter(s, p))[x] <= multiset(s)[x] {
      FilterCount(s, p, x);
    }
  }

  /** Filtering a rearrangement of `Filter(s', p)` with `q` gives, up to order, `s'`
    * filtered by both predicates at once. */
  lemma FilterOfFiltered<T(!new)>(s: seq<T>, s': seq<T>, p: T -> bool, q: T -> bool, pq: T -> bool)
    requires multiset(s) == multiset(Filter(s', p))
    requires forall x :: pq(x) == (p(x) && q(x))
    ensures multiset(Filter(s, q)) == multiset(Filter(s', pq))
  {
    forall x ensures multiset(Filter(s, q))[x] == multiset(Filter(s', pq))[x] {
      FilterCount(s, q, x);
      FilterCount(s', p, x);
      FilterCount(s', pq, x);
    }
  }

  /** Filtering twice with the same predicate changes nothing the second time. */
  lemma {:induction false} FilterIdempotent<T(!new)>(s: seq<T>, p: T -> bool)
    ensures Filter(Filter(s, p), p) == Filter(s, p)
  {
    if s != [] {
      FilterIdempotent(s[1..], p);
      if p(s[0]) {
        assert ([s[0]] + Filter(s[1..], p))[1..] == Filter(s[1..], p);
      }
    }
  }

  /** A filter every element passes is the identity. */
  lemma {:induction false} FilterAllPass<T(!new)>(s: seq<T>, p: T -> bool)
    requires forall i :: 0 <= i < |s| ==> p(s[i])
    ensures Filter(s, p) == s
  {
    if s != [] {
      FilterAllPass(s[1..], p);
      assert [s[0]] + s[1..] == s;
    }
  }

  /** A filter no element passes leaves nothing. */
  lemma {:induction false} FilterNonePass<T(!new)>(s: seq<T>, p: T -> bool)
    requires forall i :: 0 <= i < |s| ==> !p(s[i])
    ensures Filter(s, p) == []
  {
    if s != [] {
      FilterNonePass(s[1..], p);
    }
  }

  /** Filtering keeps relative order: a sequence ordered by `le` stays ordered. */
  lemma {:induction false} FilterSorted<T(!new)>(s: seq<T>, p: T -> bool, le: (T, T) -> bool)
    requires SortedBy(s, le)
    ensures SortedBy(Filter(s, p), le)
  {
    if s != [] {
      FilterSorted(s[1..], p, le);
      var rest := Filter(s[1..], p);
      if p(s[0]) {
        var r := [s[0]] + rest;
        forall i, j | 0 <= i < j < |r| ensures le(r[i], r[j]) {
          if i == 0 {
            assert r[j] == rest[j - 1] && r[j] in s[1..];
            var k :| 0 <= k < |s[1..]| && s[1..][k] == r[j];
            assert s[k + 1] == r[j];
          } else {
            assert r[i] == rest[i - 1] && r[j] == rest[j - 1];
          }
        }
      }
    }
  }

  /** `s.filter((y) => y !== x)`: every occurrence of `x` removed. */
  function RemoveAll<T(==,!new)>(s: seq<T>, x: T): (r: seq<T>)
    ensures x !in r
    ensures forall y :: y in r <==> y in s && y != x
  {
    Filter(s, y => y != x)
  }

  /** Removing an element that is not there changes nothing. */
  lemma {:induction false} RemoveAllAbsent<T(!new)>(s: seq<T>, x: T)
    requires x !in s
    ensures RemoveAll(s, x) == s
  {
    if s != [] {
      RemoveAllAbsent(s[1..], x);
      assert [s[0]] + s[1..] == s;
    }
  }

  /** Removing the element just appended gives back the sequence it was appended to. */
  lemma RemoveAllAppended<T(!new)>(s: seq<T>, x: T)
    requires x !in s
    ensures RemoveAll(s + [x], x) == s
  {
    FilterAppend(s, [x], y => y != x);
    RemoveAllAbsent(s, x);
  }

  /** `n` copies of `x`. */
  function Repeat<T>(x: T, n: nat): (r: seq<T>)
    ensures |r| == n && forall i :: 0 <= i < n ==> r[i] == x
  {
    if n == 0 then [] else Repeat(x, n - 1) + [x]
  }

  /** `s.slice(0, n)`. */
  function Take<T>(s: seq<T>, n: nat): (r: seq<T>)
    ensures |r| == if n < |s| then n else |s|
    ensures r <= s
  {
    if n < |s| then s[..n] else s
  }

  ghost predicate NoDuplicates<T>(s: seq<T>) {
    forall i, j :: 0 <= i < j < |s| ==> s[i] != s[j]
  }

  /** The index of the first occurrence of `x` in `s`, -1 when absent: `s.indexOf(x)`. */
  function Position<T(==)>(s: seq<T>, x: T): (r: int)
    ensures x in s <==> 0 <= r < |s|
    ensures x !in s <==> r == -1
    ensures 0 <= r < |s| ==> s[r] == x
  {
    if s == [] then -1
    else if s[0] == x then 0
    else
      var p := Position(s[1..], x);
      if p < 0 then -1 else p + 1
  }

  /** The occurrences of `x` in `s` are those before the last element, plus the last. */
  lemma CountLast<T>(s: seq<T>, x: T)
    requires s != []
    ensures multiset(s)[x] == multiset(s[..|s| - 1])[x] + (if x == s[|s| - 1] then 1 else 0)
  {
    assert s == s[..|s| - 1] + [s[|s| - 1]];
  }

  lemma {:induction false} PositionOf<T>(s: seq<T>, i: nat)
    requires NoDuplicates(s) && i < |s|
    ensures Position(s, s[i]) == i
  {
    if i > 0 {
      PositionOf(s[1..], i - 1);
    }
  }

  /** A comparator `le` ("may come before") that is total and transitive. */
  ghost predicate TotalPreorder<T(!new)>(le: (T, T) -> bool) {
    && (forall a, b :: le(a, b) || le(b, a))
    && (forall a, b, c :: le(a, b) && le(b, c) ==> le(a, c))
  }

  ghost predicate SortedBy<T>(s: seq<T>, le: (T, T) -> bool) {
    forall i, j :: 0 <= i < j < |s| ==> le(s[i], s[j])
  }

  /** Inserts `x` in front of the first element it may precede. */
  function Insert<T>(x: T, s: seq<T>, le: (T, T) -> bool): (r: seq<T>)
    ensures |r| == |s| + 1
    ensures multiset(r) == multiset(s) + multiset{x}
  {
    if s == [] then [x]
    else if le(x, s[0]) then [x] + s
    else
      assert s == [s[0]] + s[1..];
      [s[0]] + Insert(x, s[1..], le)
  }

  /** The stable sort of JavaScript's `Array.prototype.sort`, as an insertion sort:
    * elements that compare equal keep their input order. */
  function SortBy<T>(s: seq<T>, le: (T, T) -> bool): (r: seq<T>)
    ensures |r| == |s|
    ensures multiset(r) == multiset(s)
  {
    if s == [] then []
    else
      assert s == [s[0]] + s[1..];
      Insert(s[0], SortBy(s[1..], le), le)
  }

  lemma {:induction false} InsertSorted<T(!new)>(x: T, s: seq<T>, le: (T, T) -> bool)
    requires TotalPreorder(le)
    requires SortedBy(s, le)
    ensures SortedBy(Insert(x, s, le), le)
  {
    if s != [] && !le(x, s[0]) {
      var tail := Insert(x, s[1..], le);
      InsertSorted(x, s[1..], le);
      forall y | y in tail ensures le(s[0], y) {
        assert y in multiset(tail);
        if y != x {
          assert y in multiset(s[1..]);
          var k :| 0 <= k < |s[1..]| && s[1..][k] == y;
          assert s[k + 1] == y;
        }
      }
      var r := [s[0]] + tail;
      forall i, j | 0 <= i < j < |r| ensures le(r[i], r[j]) {
        if i == 0 {
          assert r[j] == tail[j - 1];
          assert r[j] in tail;
        } else {
          assert r[i] == tail[i - 1] && r[j] == tail[j - 1];
        }
      }
    }
  }

  /** The result of `SortBy` is ordered by `le`. */
  lemma {:induction false} SortBySorted<T(!new)>(s: seq<T>, le: (T, T) -> bool)
    requires TotalPreorder(le)
    ensures SortedBy(SortBy(s, le), le)
  {
    if s != [] {
      SortBySorted(s[1..], le);
      InsertSorted(s[0], SortBy(s[1..], le), le);
    }
  }

  /** Sorting a sequence that is already in order changes nothing. */
  lemma {:induction false} SortByOfSorted<T>(s: seq<T>, le: (T, T) -> bool)
    requires SortedBy(s, le)
    ensures SortBy(s, le) == s
  {
    if s != [] {
      assert SortedBy(s[1..], le) by {
        forall i, j | 0 <= i < j < |s[1..]| ensures le(s[1..][i], s[1..][j]) {
          assert s[1..][i] == s[i + 1] && s[1..][j] == s[j + 1];
        }
      }
      SortByOfSorted(s[1..], le);
      assert s == [s[0]] + s[1..];
    }
  }

  /** Among elements that `le` cannot tell apart, `rank` increases along `s`. */
  ghost predicate TiesRanked<T>(s: seq<T>, le: (T, T) -> bool, rank: T -> int) {
    forall i, j :: 0 <= i < j < |s| && le(s[j], s[i]) ==> rank(s[i]) < rank(s[j])
  }

  lemma {:induction false} InsertTiesRanked<T>(x: T, s: seq<T>, le: (T, T) -> bool, rank: T -> int)
    requires TiesRanked(s, le, rank)
    requires forall y :: y in s ==> rank(x) < rank(y)
    ensures TiesRanked(Insert(x, s, le), le, rank)
  {
    if s != [] {
      var r := Insert(x, s, le);
      if le(x, s[0]) {
        assert r == [x] + s;
        forall i, j | 0 <= i < j < |r| && le(r[j], r[i]) ensures rank(r[i]) < rank(r[j]) {
          if i == 0 {
            assert r[j] == s[j - 1] && r[j] in s;
          } else {
            assert r[i] == s[i - 1] && r[j] == s[j - 1];
          }
        }
      } else {
        var tail := Insert(x, s[1..], le);
        InsertTiesRanked(x, s[1..], le, rank);
        assert r == [s[0]] + tail;
        forall i, j | 0 <= i < j < |r| && le(r[j], r[i]) ensures rank(r[i]) < rank(r[j]) {
          if i == 0 {
            var y := tail[j - 1];
            assert r[j] == y && y in multiset(tail);
            if y != x {
              assert y in multiset(s[1..]);
              var k :| 0 <= k < |s[1..]| && s[1..][k] == y;
              assert s[k + 1] == y;
            }
          } else {
            assert r[i] == tail[i - 1] && r[j] == tail[j - 1];
          }
        }
      }
    }
  }

  /** Stability: if `rank` increases along the input, it increases along every run of
    * equivalent elements of the sorted output (equal elements keep their input order). */
  lemma {:induction false} SortByStable<T>(s: seq<T>, le: (T, T) -> bool, rank: T -> int)
    requires forall i, j :: 0 <= i < j < |s| ==> rank(s[i]) < rank(s[j])
    ensures TiesRanked(SortBy(s, le), le, rank)
  {
    if s != [] {
      SortByStable(s[1..], le, rank);
      var sorted := SortBy(s[1..], le);
      forall y | y in sorted ensures rank(s[0]) < rank(y) {
        assert y in multiset(s[1..]);
        var k :| 0 <= k < |s[1..]| && s[1..][k] == y;
        assert s[k + 1] == y;
      }
      InsertTiesRanked(s[0], sorted, le, rank);
    }
  }
}
