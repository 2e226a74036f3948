/** Counting, filtering and sorting of finite sequences, as the SQL and numpy calls of the repository use them. */
module Lists {

  datatype Option<+T> = None | Some(value: T)

  function Count<T>(s: seq<T>, p: T -> bool): nat {
    if s == [] then 0
    else Count(s[..|s| - 1], p) + (if p(s[|s| - 1]) then 1 else 0)
  }

  /** The elements that satisfy `p`, in their original order. */
  function Filter<T>(s: seq<T>, p: T -> bool): seq<T> {
    if s == [] then []
    else Filter(s[..|s| - 1], p) + (if p(s[|s| - 1]) then [s[|s| - 1]] else [])
  }

  lemma {:induction false} FilterMembers<T>(s: seq<T>, p: T -> bool)
    ensures |Filter(s, p)| == Count(s, p)
    ensures forall x | x in Filter(s, p) :: x in s && p(x)
    ensures forall x | x in s && p(x) :: x in Filter(s, p)
  {
    if s != [] {
      var front, last := s[..|s| - 1], s[|s| - 1];
      FilterMembers(front, p);
      assert s == front + [last];
    }
  }

  lemma CountSnoc<T>(s: seq<T>, x: T, p: T -> bool)
    ensures Count(s + [x], p) == Count(s, p) + (if p(x) then 1 else 0)
    ensures Filter(s + [x], p) == Filter(s, p) + (if p(x) then [x] else [])
  {
    assert (s + [x])[..|s|] == s;
  }

  lemma {:induction false} CountAppend<T>(a: seq<T>, b: seq<T>, p: T -> bool)
    ensures Count(a + b, p) == Count(a, p) + Count(b, p)
    ensures Filter(a + b, p) == Filter(a, p) + Filter(b, p)
  {
    if b == [] {
      assert a + b == a;
    } else {
      var front, last := b[..|b| - 1], b[|b| - 1];
      assert a + b == (a + front) + [last] && b == front + [last];
      CountSnoc(a + front, last, p);
      CountSnoc(front, last, p);
      CountAppend(a, front, p);
    }
  }

  lemma {:induction false} CountCongruence<T>(s: seq<T>, p: T -> bool, q: T -> bool)
    requires forall x | x in s :: p(x) == q(x)
    ensures Count(s, p) == Count(s, q)
    ensures Filter(s, p) == Filter(s, q)
  {
    if s != [] {
      CountCongruence(s[..|s| - 1], p, q);
      assert s[|s| - 1] in s;
    }
  }

  lemma {:induction false} CountNone<T>(s: seq<T>, p: T -> bool)
    requires forall x | x in s :: !p(x)
    ensures Count(s, p) == 0 && Filter(s, p) == []
  {
    if s != [] {
      CountNone(s[..|s| - 1], p);
      assert s[|s| - 1] in s;
    }
  }

  lemma {:induction false} CountPositive<T>(s: seq<T>, p: T -> bool)
    ensures Count(s, p) > 0 <==> exists x | x in s :: p(x)
  {
    if s != [] {
      var front, last := s[..|s| - 1], s[|s| - 1];
      CountPositive(front, p);
      assert s == front + [last];
    }
  }

  /** A disjoint split of the selected elements adds up. */
  lemma {:induction false} CountUnion<T>(s: seq<T>, p: T -> bool, q: T -> bool, both: T -> bool)
    requires forall x | x in s :: both(x) == (p(x) || q(x)) && !(p(x) && q(x))
    ensures Count(s, both) == Count(s, p) + Count(s, q)
  {
    if s != [] {
      CountUnion(s[..|s| - 1], p, q, both);
      assert s[|s| - 1] in s;
    }
  }

  /** Two lists whose elements pass position by position. */
  lemma {:induction false} CountsAgree<A, B>(a: seq<A>, p: A -> bool, b: seq<B>, q: B -> bool)
    requires |a| == |b| && forall i | 0 <= i < |a| :: p(a[i]) == q(b[i])
    ensures Count(a, p) == Count(b, q)
  {
    if a != [] {
      CountsAgree(a[..|a| - 1], p, b[..|b| - 1], q);
    }
  }

  lemma {:induction false} CountMonotone<T>(s: seq<T>, p: T -> bool, q: T -> bool)
    requires forall x | x in s && p(x) :: q(x)
    ensures Count(s, p) <= Count(s, q)
  {
    if s != [] {
      CountMonotone(s[..|s| - 1], p, q);
      assert s[|s| - 1] in s;
    }
  }

  lemma {:induction false} FilterFilter<T>(s: seq<T>, p: T -> bool, q: T -> bool, both: T -> bool)
    requires forall x | x in s :: both(x) == (p(x) && q(x))
    ensures Filter(Filter(s, p), q) == Filter(s, both)
    ensures Count(Filter(s, p), q) == Count(s, both)
  {
    if s != [] {
      var front, last := s[..|s| - 1], s[|s| - 1];
      FilterFilter(front, p, q, both);
      assert last in s;
      CountSnoc(front, last, both);
      CountSnoc(front, last, p);
      assert s == front + [last];
      if p(last) {
        CountSnoc(Filter(front, p), last, q);
      } else {
        assert Filter(s, p) == Filter(front, p);
      }
    }
  }

  /** Counting does not depend on the order of the rows. */
  lemma {:induction false} CountPermutation<T(!new)>(a: seq<T>, b: seq<T>, p: T -> bool)
    requires multiset(a) == multiset(b)
    ensures Count(a, p) == Count(b, p)
    ensures multiset(Filter(a, p)) == multiset(Filter(b, p))
  {
    FilterMultiset(a, p);
    FilterMultiset(b, p);
    FilterMembers(a, p);
    FilterMembers(b, p);
    forall x ensures multiset(Filter(a, p))[x] == multiset(Filter(b, p))[x] {
      assert multiset(a)[x] == multiset(b)[x];
    }
    assert multiset(Filter(a, p)) == multiset(Filter(b, p));
    assert |Filter(a, p)| == |multiset(Filter(a, p))|;
    assert |Filter(b, p)| == |multiset(Filter(b, p))|;
  }

  lemma {:induction false} FilterMultiset<T(!new)>(s: seq<T>, p: T -> bool)
    ensures forall x :: multiset(Filter(s, p))[x] == if p(x) then multiset(s)[x] else 0
  {
    if s != [] {
      var front, last := s[..|s| - 1], s[|s| - 1];
      FilterMultiset(front, p);
      assert s == front + [last];
      forall x ensures multiset(Filter(s, p))[x] == if p(x) then multiset(s)[x] else 0 {
        assert multiset(s)[x] == multiset(front)[x] + multiset([last])[x];
        if p(last) {
          assert multiset(Filter(s, p))[x] == multiset(Filter(front, p))[x] + multiset([last])[x];
        }
      }
    }
  }

  // Ascending integer lists: sorting and the two binary searches of numpy.

  predicate Sorted(s: seq<int>) {
    forall i, j | 0 <= i < j < |s| :: s[i] <= s[j]
  }

  /** Puts x after every entry that is not above it, scanning from the end. */
  function Insert(s: seq<int>, x: int): seq<int> {
    if s == [] || s[|s| - 1] <= x then s + [x]
    else Insert(s[..|s| - 1], x) + [s[|s| - 1]]
  }

  lemma {:induction false} InsertAdds(s: seq<int>, x: int)
    ensures multiset(Insert(s, x)) == multiset(s) + multiset{x}
  {
    if s != [] && s[|s| - 1] > x {
      assert s == s[..|s| - 1] + [s[|s| - 1]];
      InsertAdds(s[..|s| - 1], x);
    }
  }

  lemma {:induction false} InsertKeepsSorted(s: seq<int>, x: int)
    requires Sorted(s)
    ensures Sorted(Insert(s, x))
  {
    if s != [] && s[|s| - 1] > x {
      var front, last := s[..|s| - 1], s[|s| - 1];
      InsertKeepsSorted(front, x);
      InsertAdds(front, x);
      InsertedBound(Insert(front, x), front, x, last);
      SortedSnoc(Insert(front, x), last);
    }
  }

  lemma SortedSnoc(s: seq<int>, last: int)
    requires Sorted(s) && forall y | y in s :: y <= last
    ensures Sorted(s + [last])
  {
    assert forall i | 0 <= i < |s| :: s[i] in s;
  }

  lemma InsertedBound(r: seq<int>, front: seq<int>, x: int, last: int)
    requires multiset(r) == multiset(front) + multiset{x}
    requires x <= last && forall y | y in front :: y <= last
    ensures forall y | y in r :: y <= last
  {
    forall y | y in r ensures y <= last {
      assert y in multiset(r);
      assert y == x || y in front;
    }
  }

  function Sort(s: seq<int>): seq<int> {
    if s == [] then [] else Insert(Sort(s[..|s| - 1]), s[|s| - 1])
  }

  lemma {:induction false} SortSorts(s: seq<int>)
    ensures Sorted(Sort(s)) && multiset(Sort(s)) == multiset(s) && |Sort(s)| == |s|
  {
    if s != [] {
      var front, last := s[..|s| - 1], s[|s| - 1];
      assert s == front + [last];
      SortSorts(front);
      InsertKeepsSorted(Sort(front), last);
      InsertAdds(Sort(front), last);
      assert |Sort(s)| == |multiset(Sort(s))| == |multiset(s)| == |s|;
    }
  }

  /** An ascending list is determined by its multiset. */
  lemma {:induction false} SortedIsCanonical(a: seq<int>, b: seq<int>)
    requires Sorted(a) && Sorted(b) && multiset(a) == multiset(b)
    ensures a == b
  {
    assert |a| == |multiset(a)| == |multiset(b)| == |b|;
    if a != [] {
      SameLast(a, b);
      WithoutLast(a);
      WithoutLast(b);
      SortedIsCanonical(a[..|a| - 1], b[..|b| - 1]);
    }
  }

  lemma SameLast(a: seq<int>, b: seq<int>)
    requires Sorted(a) && Sorted(b) && multiset(a) == multiset(b) && a != [] && b != []
    ensures a[|a| - 1] == b[|b| - 1]
  {
    assert b[|b| - 1] in multiset(b) && a[|a| - 1] in multiset(a);
    LastIsGreatest(a, b[|b| - 1]);
    LastIsGreatest(b, a[|a| - 1]);
  }

  lemma WithoutLast(s: seq<int>)
    requires Sorted(s) && s != []
    ensures Sorted(s[..|s| - 1])
    ensures s == s[..|s| - 1] + [s[|s| - 1]]
    ensures multiset(s[..|s| - 1]) == multiset(s) - multiset{s[|s| - 1]}
  {
    assert s == s[..|s| - 1] + [s[|s| - 1]];
  }

  lemma LastIsGreatest(s: seq<int>, x: int)
    requires Sorted(s) && x in multiset(s)
    ensures x <= s[|s| - 1]
  {
    assert x in s;
  }

  /** `np.searchsorted(s, x, 'right')`: how many entries are at most x. */
  function SearchRight(s: seq<int>, x: int): (r: nat)
    requires Sorted(s)
    ensures r <= |s|
    ensures forall i | 0 <= i < r :: s[i] <= x
    ensures forall i | r <= i < |s| :: x < s[i]
  {
    SearchRightIn(s, x, 0, |s|)
  }

  function SearchRightIn(s: seq<int>, x: int, lo: nat, hi: nat): (r: nat)
    requires Sorted(s) && lo <= hi <= |s|
    requires forall i | 0 <= i < lo :: s[i] <= x
    requires forall i | hi <= i < |s| :: x < s[i]
    ensures lo <= r <= hi
    ensures forall i | 0 <= i < r :: s[i] <= x
    ensures forall i | r <= i < |s| :: x < s[i]
    decreases hi - lo
  {
    if lo == hi then lo
    else
      var mid := (lo + hi) / 2;
      if s[mid] <= x then SearchRightIn(s, x, mid + 1, hi) else SearchRightIn(s, x, lo, mid)
  }

  /** `np.searchsorted(s, x, 'left')`: how many entries are below x. */
  function SearchLeft(s: seq<int>, x: int): (r: nat)
    requires Sorted(s)
    ensures r <= |s|
    ensures forall i | 0 <= i < r :: s[i] < x
    ensures forall i | r <= i < |s| :: x <= s[i]
  {
    SearchRight(s, x - 1)
  }

  /** The binary search agrees with counting the entries one by one. */
  lemma SearchRightCounts(s: seq<int>, x: int)
    requires Sorted(s)
    ensures SearchRight(s, x) == Count(s, (y: int) => y <= x)
  {
    FilterPrefix(s, SearchRight(s, x), (y: int) => y <= x);
  }

  lemma {:induction false} CountAll<T>(s: seq<T>, p: T -> bool)
    requires forall x | x in s :: p(x)
    ensures Count(s, p) == |s| && Filter(s, p) == s
  {
    if s != [] {
      CountAll(s[..|s| - 1], p);
      assert s[|s| - 1] in s;
      assert s == s[..|s| - 1] + [s[|s| - 1]];
    }
  }

  lemma FilterSplit<T>(s: seq<T>, k: nat, p: T -> bool)
    requires k <= |s|
    ensures Filter(s, p) == Filter(s[..k], p) + Filter(s[k..], p) && Count(s, p) == Count(s[..k], p) + Count(s[k..], p)
  {
    assert s == s[..k] + s[k..];
    CountAppend(s[..k], s[k..], p);
  }

  /** A list whose selected entries are exactly its first k. */
  lemma FilterPrefix<T>(s: seq<T>, k: nat, p: T -> bool)
    requires k <= |s|
    requires forall i | 0 <= i < k :: p(s[i])
    requires forall i | k <= i < |s| :: !p(s[i])
    ensures Filter(s, p) == s[..k] && Count(s, p) == k
  {
    FilterSplit(s, k, p);
    CountAll(s[..k], p);
    CountNone(s[k..], p);
  }

  /** A list whose selected entries are exactly those from k on. */
  lemma FilterSuffix<T>(s: seq<T>, k: nat, p: T -> bool)
    requires k <= |s|
    requires forall i | 0 <= i < k :: !p(s[i])
    requires forall i | k <= i < |s| :: p(s[i])
    ensures Filter(s, p) == s[k..] && Count(s, p) == |s| - k
  {
    FilterSplit(s, k, p);
    CountNone(s[..k], p);
    CountAll(s[k..], p);
  }

  /** A list whose selected entries are exactly those from i up to k. */
  lemma FilterMiddle<T>(s: seq<T>, i: nat, k: nat, p: T -> bool)
    requires i <= k <= |s|
    requires forall j | 0 <= j < i :: !p(s[j])
    requires forall j | i <= j < k :: p(s[j])
    requires forall j | k <= j < |s| :: !p(s[j])
    ensures Filter(s, p) == s[i..k] && Count(s, p) == k - i
  {
    FilterSplit(s, k, p);
    FilterSuffix(s[..k], i, p);
    CountNone(s[k..], p);
    assert s[..k][i..] == s[i..k];
  }

  function Sorting(s: seq<int>): (r: seq<int>)
    ensures Sorted(r)
  {
    SortSorts(s);
    Sort(s)
  }

  function InRange(start: int, end: int): int -> bool {
    (x: int) => start < x <= end
  }

  /** The difference of two binary searches counts the entries of a half-open range, in whatever order they came. */
  lemma RangeCount(s: seq<int>, start: int, end: int)
    ensures start <= end ==> SearchRight(Sorting(s), end) - SearchRight(Sorting(s), start) == Count(s, InRange(start, end))
    ensures start > end ==> SearchRight(Sorting(s), end) - SearchRight(Sorting(s), start) <= 0 == Count(s, InRange(start, end))
  {
    var table := Sorting(s);
    SortSorts(s);
    SearchRightCounts(table, end);
    SearchRightCounts(table, start);
    CountPermutation(table, s, InRange(start, end));
    if start <= end {
      CountUnion(table, (y: int) => y <= start, InRange(start, end), (y: int) => y <= end);
    } else {
      CountNone(s, InRange(start, end));
      CountMonotone(table, (y: int) => y <= end, (y: int) => y <= start);
    }
  }
}
