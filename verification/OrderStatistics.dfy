/**
 Sorting and order statistics: the k-th smallest element of a list is at most x
 exactly when more than k elements are. The retarget and the median-time-past rule
 both read a sorted copy of a timestamp window.
 */
module OrderStatistics {
  import opened Types

  function Insert(x: U64, s: seq<U64>): (r: seq<U64>)
    ensures |r| == |s| + 1
  {
    if s == [] || x <= s[0] then [x] + s else [s[0]] + Insert(x, s[1..])
  }

  function Sorted(s: seq<U64>): (r: seq<U64>)
    ensures |r| == |s|
  {
    if s == [] then [] else Insert(s[0], Sorted(s[1..]))
  }

  predicate Ordered(s: seq<U64>) {
    forall i, j :: 0 <= i < j < |s| ==> s[i] <= s[j]
  }

  /** Sorting leaves an ordered list alone. */
  lemma {:induction false} SortedOfOrdered(s: seq<U64>)
    requires Ordered(s)
    ensures Sorted(s) == s
  {
    if s != [] {
      SortedOfOrdered(s[1..]);
      assert s == [s[0]] + s[1..];
    }
  }

  function CountLe(s: seq<U64>, x: int): (n: nat)
    ensures n <= |s|
  {
    if s == [] then 0 else (if s[0] <= x then 1 else 0) + CountLe(s[1..], x)
  }

  lemma {:induction false} InsertMembers(x: U64, s: seq<U64>, y: U64)
    ensures y in Insert(x, s) <==> y == x || y in s
  {
    if s == [] || x <= s[0] {
    } else {
      assert s == [s[0]] + s[1..];
      InsertMembers(x, s[1..], y);
    }
  }

  lemma {:induction false} InsertOrdered(x: U64, s: seq<U64>)
    requires Ordered(s)
    ensures Ordered(Insert(x, s))
  {
    if s == [] || x <= s[0] {
    } else {
      var rest := Insert(x, s[1..]);
      InsertOrdered(x, s[1..]);
      forall i | 0 <= i < |rest|
        ensures s[0] <= rest[i]
      {
        InsertMembers(x, s[1..], rest[i]);
      }
    }
  }

  lemma {:induction false} InsertMultiset(x: U64, s: seq<U64>)
    ensures multiset(Insert(x, s)) == multiset(s) + multiset{x}
  {
    if s == [] || x <= s[0] {
    } else {
      InsertMultiset(x, s[1..]);
      assert s == [s[0]] + s[1..];
    }
  }

  lemma {:induction false} SortedIsOrdered(s: seq<U64>)
    ensures Ordered(Sorted(s))
    ensures multiset(Sorted(s)) == multiset(s)
  {
    if s != [] {
      SortedIsOrdered(s[1..]);
      InsertOrdered(s[0], Sorted(s[1..]));
      InsertMultiset(s[0], Sorted(s[1..]));
      assert s == [s[0]] + s[1..];
    }
  }

  lemma {:induction false} CountLeInsert(y: U64, s: seq<U64>, x: int)
    ensures CountLe(Insert(y, s), x) == CountLe(s, x) + if y <= x then 1 else 0
  {
    if s == [] || y <= s[0] {
      assert ([y] + s)[1..] == s;
    } else {
      CountLeInsert(y, s[1..], x);
      assert ([s[0]] + Insert(y, s[1..]))[1..] == Insert(y, s[1..]);
    }
  }

  lemma {:induction false} CountLeSorted(s: seq<U64>, x: int)
    ensures CountLe(Sorted(s), x) == CountLe(s, x)
  {
    if s != [] {
      CountLeSorted(s[1..], x);
      CountLeInsert(s[0], Sorted(s[1..]), x);
    }
  }

  lemma {:induction false} CountLeNone(s: seq<U64>, x: int)
    requires forall i :: 0 <= i < |s| ==> s[i] > x
    ensures CountLe(s, x) == 0
  {
    if s != [] {
      CountLeNone(s[1..], x);
    }
  }

  lemma {:induction false} OrderedRank(s: seq<U64>, k: nat, x: int)
    requires Ordered(s) && k < |s|
    ensures s[k] <= x <==> k < CountLe(s, x)
  {
    if s[0] > x {
      CountLeNone(s, x);
    } else if k > 0 {
      OrderedRank(s[1..], k - 1, x);
    }
  }

  /** The order-statistic law every later bound rests on. */
  lemma Rank(s: seq<U64>, k: nat, x: int)
    requires k < |s|
    ensures Sorted(s)[k] <= x <==> k < CountLe(s, x)
  {
    SortedIsOrdered(s);
    CountLeSorted(s, x);
    OrderedRank(Sorted(s), k, x);
  }

  lemma {:induction false} CountLeConcat(a: seq<U64>, b: seq<U64>, x: int)
    ensures CountLe(a + b, x) == CountLe(a, x) + CountLe(b, x)
  {
    if a == [] {
      assert a + b == b;
    } else {
      assert (a + b)[1..] == a[1..] + b;
      CountLeConcat(a[1..], b, x);
    }
  }

  /** In how many positions two lists of one length differ. */
  function Differences(s: seq<U64>, t: seq<U64>): nat
    requires |s| == |t|
  {
    if s == [] then 0 else (if s[0] != t[0] then 1 else 0) + Differences(s[1..], t[1..])
  }

  lemma {:induction false} CountLeNearby(s: seq<U64>, t: seq<U64>, x: int)
    requires |s| == |t|
    ensures CountLe(s, x) <= CountLe(t, x) + Differences(s, t)
    ensures CountLe(t, x) <= CountLe(s, x) + Differences(s, t)
  {
    if s != [] {
      CountLeNearby(s[1..], t[1..], x);
    }
  }

  lemma OrderedShift(a: seq<U64>, b: seq<U64>, j: nat, d: nat)
    requires Ordered(a) && Ordered(b) && |a| == |b|
    requires d <= j < |a|
    requires CountLe(a, a[j]) <= CountLe(b, a[j]) + d
    ensures b[j - d] <= a[j]
  {
    OrderedRank(a, j, a[j]);
    OrderedRank(b, j - d, a[j]);
  }

  ghost predicate SameCounts(s: seq<U64>, t: seq<U64>) {
    forall x: int :: CountLe(t, x) == CountLe(s, x)
  }

  lemma OrderedRanksMove(s: seq<U64>, t: seq<U64>, a: seq<U64>, b: seq<U64>, k: nat, d: nat)
    requires |s| == |t| == |a| == |b| && Differences(s, t) <= d
    requires Ordered(a) && SameCounts(s, a) && Ordered(b) && SameCounts(t, b)
    requires d <= k && k + d < |s|
    ensures a[k - d] <= b[k] <= a[k + d]
  {
    CountLeNearby(s, t, a[k + d]);
    OrderedShift(a, b, k + d, d);
    CountLeNearby(s, t, b[k]);
    OrderedShift(b, a, k, d);
  }

  lemma SortedCounts(s: seq<U64>)
    ensures Ordered(Sorted(s)) && SameCounts(s, Sorted(s))
  {
    SortedIsOrdered(s);
    forall x: int
      ensures CountLe(Sorted(s), x) == CountLe(s, x)
    {
      CountLeSorted(s, x);
    }
  }

  /** Changing at most d elements moves every order statistic by at most d ranks. */
  lemma RanksMoveByDifferences(s: seq<U64>, t: seq<U64>, k: nat, d: nat)
    requires |s| == |t| && Differences(s, t) <= d
    requires d <= k && k + d < |s|
    ensures Sorted(s)[k - d] <= Sorted(t)[k] <= Sorted(s)[k + d]
  {
    SortedCounts(s);
    SortedCounts(t);
    OrderedRanksMove(s, t, Sorted(s), Sorted(t), k, d);
  }
}
