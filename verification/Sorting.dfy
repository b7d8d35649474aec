/** Stable sorting by a comparator, as Array.prototype.sort does it. */
module Sorting {

  type Comparator<!T> = (T, T) -> real

  predicate Leq<T>(compare: Comparator<T>, a: T, b: T) {
    compare(a, b) <= 0.0
  }

  /** The comparator never contradicts itself: any two elements are ordered, and the order is transitive. */
  ghost predicate Consistent<T(!new)>(compare: Comparator<T>) {
    && (forall a, b :: Leq(compare, a, b) || Leq(compare, b, a))
    && (forall a, b, c :: Leq(compare, a, b) && Leq(compare, b, c) ==> Leq(compare, a, c))
  }

  ghost predicate Sorted<T>(compare: Comparator<T>, s: seq<T>) {
    forall i, j :: 0 <= i < j < |s| ==> Leq(compare, s[i], s[j])
  }

  /** Puts x after every element that does not have to come behind it. */
  function Insert<T>(compare: Comparator<T>, s: seq<T>, x: T): seq<T> {
    if s == [] || Leq(compare, s[|s| - 1], x) then s + [x]
    else Insert(compare, s[..|s| - 1], x) + [s[|s| - 1]]
  }

  function Sort<T>(compare: Comparator<T>, s: seq<T>): seq<T> {
    if s == [] then [] else Insert(compare, Sort(compare, s[..|s| - 1]), s[|s| - 1])
  }

  lemma {:induction false} InsertPermutes<T>(compare: Comparator<T>, s: seq<T>, x: T)
    ensures multiset(Insert(compare, s, x)) == multiset(s) + multiset{x}
  {
    if s == [] || Leq(compare, s[|s| - 1], x) {
    } else {
      assert s == s[..|s| - 1] + [s[|s| - 1]];
      InsertPermutes(compare, s[..|s| - 1], x);
    }
  }

  lemma {:induction false} SortPermutes<T>(compare: Comparator<T>, s: seq<T>)
    ensures multiset(Sort(compare, s)) == multiset(s)
    ensures |Sort(compare, s)| == |s|
  {
    if s == [] {
    } else {
      assert s == s[..|s| - 1] + [s[|s| - 1]];
      SortPermutes(compare, s[..|s| - 1]);
      InsertPermutes(compare, Sort(compare, s[..|s| - 1]), s[|s| - 1]);
      assert |multiset(Sort(compare, s))| == |multiset(s)|;
    }
  }

  lemma SortKeepsMembers<T>(compare: Comparator<T>, s: seq<T>)
    ensures forall x :: x in Sort(compare, s) <==> x in s
  {
    SortPermutes(compare, s);
    forall x ensures x in Sort(compare, s) <==> x in s {
      assert x in multiset(Sort(compare, s)) <==> x in multiset(s);
    }
  }

  lemma {:induction false} InsertSorts<T(!new)>(compare: Comparator<T>, s: seq<T>, x: T)
    requires Consistent(compare) && Sorted(compare, s)
    ensures Sorted(compare, Insert(compare, s, x))
  {
    if s != [] && !Leq(compare, s[|s| - 1], x) {
      var front, last := s[..|s| - 1], s[|s| - 1];
      InsertSorts(compare, front, x);
      var inserted := Insert(compare, front, x);
      forall y | y in inserted ensures Leq(compare, y, last) {
        InsertPermutes(compare, front, x);
        assert y in multiset(inserted);
        if y in front {
          var i :| 0 <= i < |front| && front[i] == y;
          assert s[i] == y;
        } else {
          assert Leq(compare, x, last);
        }
      }
    } else if s != [] {
      var last := s[|s| - 1];
      forall i | 0 <= i < |s| ensures Leq(compare, s[i], x) {
        assert Leq(compare, s[i], last) && Leq(compare, last, x);
      }
    }
  }

  lemma {:induction false} SortSorts<T(!new)>(compare: Comparator<T>, s: seq<T>)
    requires Consistent(compare)
    ensures Sorted(compare, Sort(compare, s))
  {
    if s == [] {
    } else {
      SortSorts(compare, s[..|s| - 1]);
      InsertSorts(compare, Sort(compare, s[..|s| - 1]), s[|s| - 1]);
    }
  }

  /** The first element after sorting comes no later than any other. */
  lemma FirstIsLeast<T(!new)>(compare: Comparator<T>, s: seq<T>, x: T)
    requires Consistent(compare) && x in s
    ensures |Sort(compare, s)| == |s|
    ensures Sort(compare, s)[0] in s && Leq(compare, Sort(compare, s)[0], x)
  {
    SortPermutes(compare, s);
    SortSorts(compare, s);
    SortKeepsMembers(compare, s);
    var i :| 0 <= i < |s| && Sort(compare, s)[i] == x;
    assert Leq(compare, x, x);
  }

  /** The first of the least elements: nothing is smaller, and everything before it is larger. */
  ghost predicate IsFirstLeast<T>(compare: Comparator<T>, s: seq<T>, k: nat) {
    && k < |s|
    && (forall j :: 0 <= j < |s| ==> Leq(compare, s[k], s[j]))
    && (forall j :: 0 <= j < k ==> !Leq(compare, s[j], s[k]))
  }

  lemma {:induction false} InsertHead<T(!new)>(compare: Comparator<T>, s: seq<T>, x: T)
    requires Consistent(compare) && Sorted(compare, s) && s != []
    ensures Insert(compare, s, x)[0] == if Leq(compare, s[0], x) then s[0] else x
  {
    var last := s[|s| - 1];
    if Leq(compare, last, x) {
      assert Leq(compare, s[0], last);
    } else if |s| == 1 {
      assert s[..0] == [];
    } else {
      InsertHead(compare, s[..|s| - 1], x);
    }
  }

  /** Sorting is stable: what comes first is the first of the least. */
  lemma {:induction false} HeadIsFirstLeast<T(!new)>(compare: Comparator<T>, s: seq<T>) returns (k: nat)
    requires Consistent(compare) && s != []
    ensures |Sort(compare, s)| == |s| && IsFirstLeast(compare, s, k) && Sort(compare, s)[0] == s[k]
    decreases |s|
  {
    SortPermutes(compare, s);
    var front, x := s[..|s| - 1], s[|s| - 1];
    if front == [] {
      assert Leq(compare, x, x);
      k := 0;
    } else {
      k := HeadIsFirstLeast(compare, front);
      SortSorts(compare, front);
      InsertHead(compare, Sort(compare, front), x);
      FirstLeastOfMore(compare, s, k);
      if !Leq(compare, front[k], x) {
        k := |front|;
      }
    }
  }

  lemma FirstLeastOfMore<T(!new)>(compare: Comparator<T>, s: seq<T>, k: nat)
    requires Consistent(compare) && s != [] && IsFirstLeast(compare, s[..|s| - 1], k)
    ensures IsFirstLeast(compare, s, if Leq(compare, s[k], s[|s| - 1]) then k else |s| - 1)
  {
    var front, x := s[..|s| - 1], s[|s| - 1];
    assert forall j :: 0 <= j < |front| ==> front[j] == s[j];
    if !Leq(compare, s[k], x) {
      LessThanLeast(compare, front, k, x);
    }
  }

  lemma LessThanLeast<T(!new)>(compare: Comparator<T>, s: seq<T>, k: nat, x: T)
    requires Consistent(compare) && IsFirstLeast(compare, s, k) && !Leq(compare, s[k], x)
    ensures forall j :: 0 <= j < |s| ==> Leq(compare, x, s[j]) && !Leq(compare, s[j], x)
    ensures Leq(compare, x, x)
  {
    forall j | 0 <= j < |s| ensures Leq(compare, x, s[j]) && !Leq(compare, s[j], x) {
      assert Leq(compare, s[k], s[j]) && Leq(compare, x, s[k]);
    }
  }
}
