/** The library sort: a permutation in order.  Elements that compare equal may come out in any order, so
    nothing else is assumed of it. */
module Sorting {

  ghost predicate Orders<T(!new)>(le: (T, T) -> bool) {
    && (forall x, y :: le(x, y) || le(y, x))
    && (forall x, y, z :: le(x, y) && le(y, z) ==> le(x, z))
  }

  ghost predicate Sorted<T>(s: seq<T>, le: (T, T) -> bool) {
    forall i, j | 0 <= i < j < |s| :: le(s[i], s[j])
  }

  function Insert<T>(x: T, s: seq<T>, le: (T, T) -> bool): (r: seq<T>) {
    if s == [] || le(x, s[0]) then [x] + s else [s[0]] + Insert(x, s[1..], le)
  }

  function Sort<T>(s: seq<T>, le: (T, T) -> bool): (r: seq<T>) {
    if s == [] then [] else Insert(s[0], Sort(s[1..], le), le)
  }

  lemma {:induction false} InsertPermutes<T>(x: T, s: seq<T>, le: (T, T) -> bool)
    ensures multiset(Insert(x, s, le)) == multiset(s) + multiset{x}
  {
    if s != [] && !le(x, s[0]) {
      InsertPermutes(x, s[1..], le);
      assert s == [s[0]] + s[1..];
    }
  }

  lemma {:induction false} InsertSorts<T(!new)>(x: T, s: seq<T>, le: (T, T) -> bool)
    requires Orders(le) && Sorted(s, le)
    ensures Sorted(Insert(x, s, le), le)
  {
    if s != [] && !le(x, s[0]) {
      InsertSorts(x, s[1..], le);
      InsertPermutes(x, s[1..], le);
      var rest := Insert(x, s[1..], le);
      forall k | 0 <= k < |rest|
        ensures le(s[0], rest[k])
      {
        assert rest[k] in multiset(rest);
        assert rest[k] == x || rest[k] in s[1..];
      }
    }
  }

  lemma {:induction false} SortSorts<T(!new)>(s: seq<T>, le: (T, T) -> bool)
    requires Orders(le)
    ensures Sorted(Sort(s, le), le)
    ensures multiset(Sort(s, le)) == multiset(s)
  {
    if s != [] {
      SortSorts(s[1..], le);
      InsertSorts(s[0], Sort(s[1..], le), le);
      InsertPermutes(s[0], Sort(s[1..], le), le);
      assert s == [s[0]] + s[1..];
    }
  }

  /** m is the element in the upper middle of the elements of s, put in order. */
  ghost predicate IsMedian(s: seq<int>, m: int) {
    exists t: seq<int> ::
      multiset(t) == multiset(s) && Sorted(t, (x: int, y: int) => x <= y) && |t| > |s| / 2 && m == t[|s| / 2]
  }

  lemma SortedMiddle(s: seq<int>, t: seq<int>)
    requires s != [] && multiset(t) == multiset(s) && Sorted(t, (x: int, y: int) => x <= y)
    ensures |t| == |s| && IsMedian(s, t[|s| / 2])
  {
    assert |multiset(s)| == |s| && |multiset(t)| == |t|;
  }

  /** Numbers can be put in order in one way only. */
  lemma {:induction false} SortedOnce(s: seq<int>, t: seq<int>)
    requires multiset(s) == multiset(t)
    requires Sorted(s, (x: int, y: int) => x <= y) && Sorted(t, (x: int, y: int) => x <= y)
    ensures s == t
  {
    assert |multiset(s)| == |s| && |multiset(t)| == |t|;
    if s != [] {
      assert s[0] in multiset(t) && t[0] in multiset(s);
      assert s[0] == t[0];
      WithoutFirst(s);
      WithoutFirst(t);
      SortedOnce(s[1..], t[1..]);
    }
  }

  lemma WithoutFirst<T>(s: seq<T>)
    requires s != []
    ensures multiset(s[1..]) == multiset(s) - multiset{s[0]}
  {
    assert s == [s[0]] + s[1..];
  }

  function CountIf(s: seq<int>, p: int -> bool): nat {
    if s == [] then 0 else CountIf(s[1..], p) + if p(s[0]) then 1 else 0
  }

  lemma {:induction false} CountIfConcat(s: seq<int>, t: seq<int>, p: int -> bool)
    ensures CountIf(s + t, p) == CountIf(s, p) + CountIf(t, p)
  {
    if s == [] {
      assert s + t == t;
    } else {
      CountIfConcat(s[1..], t, p);
      assert (s + t)[1..] == s[1..] + t;
    }
  }

  lemma {:induction false} CountIfPermutes(s: seq<int>, t: seq<int>, p: int -> bool)
    requires multiset(s) == multiset(t)
    ensures CountIf(s, p) == CountIf(t, p)
  {
    assert |multiset(s)| == |s| && |multiset(t)| == |t|;
    if s != [] {
      assert s[0] in multiset(t);
      var k :| 0 <= k < |t| && t[k] == s[0];
      var rest := t[..k] + t[k + 1..];
      assert t == t[..k] + ([t[k]] + t[k + 1..]);
      assert multiset(t) == multiset(rest) + multiset{t[k]};
      WithoutFirst(s);
      CountIfPermutes(s[1..], rest, p);
      CountIfConcat(t[..k], t[k + 1..], p);
      CountIfConcat(t[..k], [t[k]] + t[k + 1..], p);
    }
  }

  lemma {:induction false} CountIfNone(s: seq<int>, p: int -> bool)
    requires forall i | 0 <= i < |s| :: !p(s[i])
    ensures CountIf(s, p) == 0
  {
    if s != [] {
      CountIfNone(s[1..], p);
    }
  }

  lemma {:induction false} CountIfBound(s: seq<int>, p: int -> bool)
    ensures CountIf(s, p) <= |s|
  {
    if s != [] {
      CountIfBound(s[1..], p);
    }
  }

  function Below(m: int): int -> bool {
    (x: int) => x < m
  }

  function Above(m: int): int -> bool {
    (x: int) => x > m
  }

  lemma SortedCounts(t: seq<int>, k: nat)
    requires k < |t| && Sorted(t, (x: int, y: int) => x <= y)
    ensures CountIf(t, Below(t[k])) <= k && CountIf(t, Above(t[k])) <= |t| - k - 1
  {
    var less, more := Below(t[k]), Above(t[k]);
    assert t == t[..k] + t[k..] && t == t[..k + 1] + t[k + 1..];
    CountIfConcat(t[..k], t[k..], less);
    CountIfConcat(t[..k + 1], t[k + 1..], more);
    CountIfNone(t[k..], less);
    CountIfNone(t[..k + 1], more);
    CountIfBound(t[..k], less);
    CountIfBound(t[k + 1..], more);
  }

  /** The median is one of the elements; at most half of them are less, and fewer than half are greater. */
  lemma MedianIsMiddle(s: seq<int>, m: int)
    requires IsMedian(s, m)
    ensures m in s && 2 * CountIf(s, Below(m)) <= |s| && 2 * CountIf(s, Above(m)) < |s|
  {
    hide CountIf, Below, Above;
    var t: seq<int> :|
      multiset(t) == multiset(s) && Sorted(t, (x: int, y: int) => x <= y) && |t| > |s| / 2 && m == t[|s| / 2];
    assert |multiset(s)| == |s| && |multiset(t)| == |t|;
    assert m in multiset(s);
    CountIfPermutes(s, t, Below(m));
    CountIfPermutes(s, t, Above(m));
    SortedCounts(t, |s| / 2);
  }

  lemma MedianOnce(s: seq<int>, t: seq<int>, a: int, b: int)
    requires multiset(s) == multiset(t) && IsMedian(s, a) && IsMedian(t, b)
    ensures a == b
  {
    var x: seq<int> :|
      multiset(x) == multiset(s) && Sorted(x, (x: int, y: int) => x <= y) && |x| > |s| / 2 && a == x[|s| / 2];
    var y: seq<int> :|
      multiset(y) == multiset(t) && Sorted(y, (x: int, y: int) => x <= y) && |y| > |t| / 2 && b == y[|t| / 2];
    SortedOnce(x, y);
    assert |multiset(s)| == |s| && |multiset(t)| == |t|;
  }
}
