/**
 * Python's ordering of str values (lexicographic by code point) and sorted() on
 * a list of names, with the facts about sorted enumerations that the backup
 * retention rule relies on.
 */
module Ordering {

  /** a < b on Python strings. */
  predicate Less(a: string, b: string)
    decreases |a|
  {
    if |a| == 0 then |b| > 0
    else if |b| == 0 then false
    else if a[0] != b[0] then a[0] < b[0]
    else Less(a[1..], b[1..])
  }

  lemma {:induction false} LessIrreflexive(a: string)
    ensures !Less(a, a)
    decreases |a|
  {
    if |a| > 0 {
      LessIrreflexive(a[1..]);
    }
  }

  lemma {:induction false} LessTransitive(a: string, b: string, c: string)
    requires Less(a, b) && Less(b, c)
    ensures Less(a, c)
    decreases |a|
  {
    if |a| > 0 && a[0] == b[0] && b[0] == c[0] {
      LessTransitive(a[1..], b[1..], c[1..]);
    }
  }

  lemma {:induction false} LessTotal(a: string, b: string)
    ensures a == b || Less(a, b) || Less(b, a)
    decreases |a|
  {
    if |a| > 0 && |b| > 0 && a[0] == b[0] {
      LessTotal(a[1..], b[1..]);
      if a[1..] == b[1..] {
        assert a == [a[0]] + a[1..] && b == [b[0]] + b[1..];
      }
    }
  }

  lemma LessAsymmetric(a: string, b: string)
    requires Less(a, b)
    ensures !Less(b, a)
  {
    if Less(b, a) {
      LessTransitive(a, b, a);
      LessIrreflexive(a);
    }
  }

  /** Non-decreasing order, as sorted() produces. */
  predicate Sorted(s: seq<string>) {
    forall i, j :: 0 <= i < j < |s| ==> !Less(s[j], s[i])
  }

  /** Increasing order without repetitions. */
  predicate StrictlySorted(s: seq<string>) {
    forall i, j :: 0 <= i < j < |s| ==> Less(s[i], s[j])
  }

  predicate Distinct(s: seq<string>) {
    forall i, j :: 0 <= i < j < |s| ==> s[i] != s[j]
  }

  /** Insert x into a sorted list, after every element not greater than x. */
  function Insert(x: string, s: seq<string>): (r: seq<string>)
    requires Sorted(s)
    ensures Sorted(r)
    ensures multiset(r) == multiset(s) + multiset{x}
  {
    if s == [] || Less(x, s[0]) then
      assert forall j :: 0 <= j < |s| ==> !Less(s[j], x) by {
        if s != [] { LessIrreflexive(s[0]); }
        forall j | 0 <= j < |s| ensures !Less(s[j], x) {
          if Less(s[j], x) {
            LessTransitive(s[j], x, s[0]);
          }
        }
      }
      [x] + s
    else
      var t := Insert(x, s[1..]);
      assert s == [s[0]] + s[1..];
      assert forall k :: 0 <= k < |t| ==> !Less(t[k], s[0]) by {
        forall k | 0 <= k < |t| ensures !Less(t[k], s[0]) {
          assert t[k] in multiset(t);
          if t[k] == x {
            LessTotal(x, s[0]);
            if Less(x, s[0]) {} else if Less(s[0], x) { LessAsymmetric(s[0], x); } else { LessIrreflexive(x); }
          } else {
            assert t[k] in multiset(s[1..]);
            var j :| 0 <= j < |s[1..]| && s[1..][j] == t[k];
            assert s[j + 1] == t[k];
          }
        }
      }
      [s[0]] + t
  }

  /** sorted(): insertion sort. */
  function Sort(s: seq<string>): (r: seq<string>)
    ensures Sorted(r)
    ensures multiset(r) == multiset(s)
    ensures |r| == |s|
  {
    if s == [] then []
    else
      assert s == [s[0]] + s[1..];
      Insert(s[0], Sort(s[1..]))
  }

  /** A sorted list without repetitions is strictly increasing. */
  lemma SortedDistinct(s: seq<string>)
    requires Sorted(s) && Distinct(s)
    ensures StrictlySorted(s)
  {
    forall i, j | 0 <= i < j < |s| ensures Less(s[i], s[j]) {
      LessTotal(s[i], s[j]);
    }
  }

  /** A strictly increasing list is sorted. */
  lemma StrictlySortedIsSorted(s: seq<string>)
    requires StrictlySorted(s)
    ensures Sorted(s)
  {
    forall i, j | 0 <= i < j < |s| ensures !Less(s[j], s[i]) {
      LessAsymmetric(s[i], s[j]);
    }
  }

  lemma {:induction false} MultiplicityOfDistinct(s: seq<string>, x: string)
    requires Distinct(s)
    ensures multiset(s)[x] <= 1
  {
    if s != [] {
      assert s == [s[0]] + s[1..];
      MultiplicityOfDistinct(s[1..], x);
      if x == s[0] {
        assert x !in s[1..];
      }
    }
  }

  /** A list in which nothing occurs twice has no repetitions. */
  lemma {:induction false} DistinctOfMultiplicity(s: seq<string>)
    requires forall x :: multiset(s)[x] <= 1
    ensures Distinct(s)
  {
    if s != [] {
      assert s == [s[0]] + s[1..];
      assert multiset(s) == multiset{s[0]} + multiset(s[1..]);
      forall x ensures multiset(s[1..])[x] <= 1 {
        assert multiset(s)[x] <= 1;
      }
      DistinctOfMultiplicity(s[1..]);
      assert multiset(s[1..])[s[0]] == 0 by {
        assert multiset(s)[s[0]] <= 1;
      }
      forall j | 0 < j < |s| ensures s[0] != s[j] {
        assert s[j] in multiset(s[1..]) by { assert s[j] == s[1..][j - 1]; }
      }
    }
  }

  /** Sorting keeps a list free of repetitions. */
  lemma SortKeepsDistinct(s: seq<string>)
    requires Distinct(s)
    ensures Distinct(Sort(s))
  {
    forall x ensures multiset(Sort(s))[x] <= 1 {
      MultiplicityOfDistinct(s, x);
    }
    DistinctOfMultiplicity(Sort(s));
  }

  /** The set of the elements of a list. */
  function Elems(s: seq<string>): (r: set<string>)
    ensures forall x :: x in r <==> x in s
  {
    set x | x in s
  }

  /** A list without repetitions has as many elements as its set. */
  lemma {:induction false} DistinctCardinality(s: seq<string>)
    requires Distinct(s)
    ensures |Elems(s)| == |s|
  {
    if s != [] {
      DistinctCardinality(s[1..]);
      assert Elems(s) == Elems(s[1..]) + {s[0]};
      assert s[0] !in s[1..];
    }
  }

  /** Every finite set of strings has a strictly increasing enumeration. */
  lemma {:induction false} SortedEnumeration(m: set<string>) returns (s: seq<string>)
    ensures StrictlySorted(s) && Distinct(s)
    ensures forall x :: x in s <==> x in m
    ensures |s| == |m|
    decreases |m|
  {
    if m == {} {
      s := [];
    } else {
      var x :| x in m;
      var t := SortedEnumeration(m - {x});
      StrictlySortedIsSorted(t);
      s := Insert(x, t);
      assert forall y :: y in s <==> y in m by {
        forall y ensures y in s <==> y in m {
          assert y in s <==> y in multiset(s);
          assert y in t <==> y in multiset(t);
        }
      }
      assert Distinct(s) by {
        forall y ensures multiset(s)[y] <= 1 {
          MultiplicityOfDistinct(t, y);
          assert x !in multiset(t);
        }
        DistinctOfMultiplicity(s);
      }
      SortedDistinct(s);
      DistinctCardinality(s);
      assert Elems(s) == m;
    }
  }
}
