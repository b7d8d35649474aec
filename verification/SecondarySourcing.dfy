/** How many other suppliers it takes to cover a supplier's shortfall. */
module SecondarySourcing {
  import opened Sorting

  /** A supplier's id and available quantity, as one entry of an insertion-ordered map. */
  datatype Entry = Entry(id: nat, available: real)

  ghost predicate DistinctEntries(entries: seq<Entry>) {
    forall i, j :: 0 <= i < j < |entries| ==> entries[i].id != entries[j].id
  }

  ghost function EntryIds(entries: seq<Entry>): set<nat> {
    set e | e in entries :: e.id
  }

  function MostFirst(a: Entry, b: Entry): real { b.available - a.available }

  function Others(entries: seq<Entry>, supplierId: nat): seq<Entry> {
    if entries == [] then []
    else
      var last := entries[|entries| - 1];
      Others(entries[..|entries| - 1], supplierId) +
      (if last.id != supplierId && last.available > 0.0 then [last] else [])
  }

  /** What a choice of suppliers has available together. */
  ghost function SumOver(entries: seq<Entry>, chosen: set<nat>): real {
    if entries == [] then 0.0
    else
      var last := entries[|entries| - 1];
      SumOver(entries[..|entries| - 1], chosen) + (if last.id in chosen then last.available else 0.0)
  }

  /** A choice of suppliers, other than the given one, whose stock meets the shortfall. */
  ghost predicate Covers(entries: seq<Entry>, supplierId: nat, chosen: set<nat>, shortfall: real) {
    chosen <= EntryIds(entries) - {supplierId} && SumOver(entries, chosen) >= shortfall
  }

  ghost predicate Coverable(entries: seq<Entry>, supplierId: nat, shortfall: real) {
    exists chosen :: Covers(entries, supplierId, chosen, shortfall)
  }

  /** What the count must be: the size of a smallest covering choice, or everyone with stock if none covers. */
  ghost predicate IsSecondaryCount(entries: seq<Entry>, supplierId: nat, shortfall: real, count: nat) {
    if shortfall <= 0.0 then count == 0
    else if Coverable(entries, supplierId, shortfall) then
      && (exists chosen :: Covers(entries, supplierId, chosen, shortfall) && |chosen| == count)
      && (forall chosen :: Covers(entries, supplierId, chosen, shortfall) ==> count <= |chosen|)
    else count == |Others(entries, supplierId)|
  }

  // ---------------------------------------------------------------- the best k of a descending list

  ghost function TopSum(sorted: seq<Entry>, k: nat): real {
    if k == 0 then 0.0 else TopSum(sorted, k - 1) + (if k <= |sorted| then sorted[k - 1].available else 0.0)
  }

  ghost predicate AllPositive(entries: seq<Entry>) {
    forall i :: 0 <= i < |entries| ==> entries[i].available > 0.0
  }

  lemma {:induction false} TopSumGrows(sorted: seq<Entry>, j: nat, k: nat)
    requires AllPositive(sorted) && j <= k
    ensures TopSum(sorted, j) <= TopSum(sorted, k)
    ensures |sorted| <= j ==> TopSum(sorted, j) == TopSum(sorted, k)
  {
    if j < k { TopSumGrows(sorted, j, k - 1); }
  }

  lemma {:induction false} TopSumOfFront(sorted: seq<Entry>, k: nat)
    requires sorted != []
    ensures TopSum(sorted, k) ==
            TopSum(sorted[..|sorted| - 1], k) + (if k < |sorted| then 0.0 else sorted[|sorted| - 1].available)
  {
    if k == 0 {
    } else {
      TopSumOfFront(sorted, k - 1);
    }
  }

  lemma {:induction false} SumIgnores(entries: seq<Entry>, chosen: set<nat>, id: nat)
    requires id !in EntryIds(entries)
    ensures SumOver(entries, chosen) == SumOver(entries, chosen - {id}) == SumOver(entries, chosen + {id})
  {
    if entries == [] {
    } else {
      var front, last := entries[..|entries| - 1], entries[|entries| - 1];
      assert last in entries && forall e | e in front :: e in entries;
      SumIgnores(front, chosen, id);
    }
  }

  /** The exchange argument: no k suppliers have more together than the k largest. */
  lemma {:induction false} TopIsBest(sorted: seq<Entry>, chosen: set<nat>, k: nat)
    requires DistinctEntries(sorted) && AllPositive(sorted) && Sorted(MostFirst, sorted)
    requires |chosen| <= k
    ensures SumOver(sorted, chosen) <= TopSum(sorted, k)
  {
    if sorted == [] {
      TopSumGrows(sorted, 0, k);
    } else {
      var front, last := sorted[..|sorted| - 1], sorted[|sorted| - 1];
      if last.id in chosen {
        assert last.id !in EntryIds(front);
        SumIgnores(front, chosen, last.id);
        TopIsBest(front, chosen - {last.id}, k - 1);
        LastExchanges(sorted, k);
      } else {
        TopSumOfFront(sorted, k);
        TopIsBest(front, chosen, k);
      }
    }
  }

  /** Taking the last and the best k - 1 of the rest is no better than taking the best k. */
  lemma LastExchanges(sorted: seq<Entry>, k: nat)
    requires AllPositive(sorted) && Sorted(MostFirst, sorted) && sorted != [] && k > 0
    ensures TopSum(sorted[..|sorted| - 1], k - 1) + sorted[|sorted| - 1].available <= TopSum(sorted, k)
  {
    TopSumOfFront(sorted, k);
    TopSumOfFront(sorted, k - 1);
    if k < |sorted| {
      assert Leq(MostFirst, sorted[k - 1], sorted[|sorted| - 1]);
    }
  }

  ghost function FirstIds(sorted: seq<Entry>, k: nat): set<nat>
    requires k <= |sorted|
  {
    EntryIds(sorted[..k])
  }

  lemma {:induction false} FirstIdsReachTop(sorted: seq<Entry>, k: nat)
    requires DistinctEntries(sorted) && k <= |sorted|
    ensures SumOver(sorted, FirstIds(sorted, k)) == TopSum(sorted, k)
  {
    if sorted == [] {
    } else {
      var front, last := sorted[..|sorted| - 1], sorted[|sorted| - 1];
      TopSumOfFront(sorted, k);
      assert last.id !in EntryIds(front);
      if k < |sorted| {
        assert sorted[..k] == front[..k];
        FirstIdsReachTop(front, k);
        assert forall e | e in front[..k] :: e in front;
      } else {
        FirstIdsReachTop(front, k - 1);
        assert front[..k - 1] == front && sorted[..k] == front + [last];
        assert FirstIds(sorted, k) == EntryIds(front) + {last.id};
        SumIgnores(front, EntryIds(front), last.id);
        TopSumOfFront(sorted, k - 1);
      }
    }
  }

  lemma {:induction false} FirstIdsCount(sorted: seq<Entry>, k: nat)
    requires DistinctEntries(sorted) && k <= |sorted|
    ensures |FirstIds(sorted, k)| == k
  {
    if k == 0 {
    } else {
      FirstIdsCount(sorted, k - 1);
      FirstIdsStep(sorted, k);
      OneMore(FirstIds(sorted, k - 1), sorted[k - 1].id);
    }
  }

  lemma FirstIdsStep(sorted: seq<Entry>, k: nat)
    requires DistinctEntries(sorted) && 0 < k <= |sorted|
    ensures FirstIds(sorted, k) == FirstIds(sorted, k - 1) + {sorted[k - 1].id} && sorted[k - 1].id !in FirstIds(sorted, k - 1)
  {
    assert sorted[..k] == sorted[..k - 1] + [sorted[k - 1]];
  }

  lemma OneMore(ids: set<nat>, id: nat)
    requires id !in ids
    ensures |ids + {id}| == |ids| + 1
  {
  }

  // ---------------------------------------------------------------- sorting and filtering keep sums

  lemma {:induction false} OthersMembers(entries: seq<Entry>, supplierId: nat)
    requires DistinctEntries(entries)
    ensures forall e :: e in Others(entries, supplierId) <==> e in entries && e.id != supplierId && e.available > 0.0
    ensures DistinctEntries(Others(entries, supplierId))
  {
    if entries == [] {
    } else {
      var front, last := entries[..|entries| - 1], entries[|entries| - 1];
      OthersMembers(front, supplierId);
      assert entries == front + [last];
      forall e | e in Others(front, supplierId) ensures e.id != last.id {
        assert e in front;
      }
    }
  }

  lemma {:induction false} OthersHaveTheStock(entries: seq<Entry>, supplierId: nat, chosen: set<nat>)
    requires supplierId !in chosen
    ensures SumOver(entries, chosen) <= SumOver(Others(entries, supplierId), chosen)
    ensures (forall e | e in entries && e.id in chosen :: e.available > 0.0) ==>
              SumOver(entries, chosen) == SumOver(Others(entries, supplierId), chosen)
  {
    if entries == [] {
    } else {
      var front, last := entries[..|entries| - 1], entries[|entries| - 1];
      OthersHaveTheStock(front, supplierId, chosen);
      assert entries == front + [last];
      var others := Others(front, supplierId);
      if last.id != supplierId && last.available > 0.0 {
        assert (others + [last])[..|others|] == others;
      } else {
        assert others + [] == others;
      }
    }
  }

  lemma {:induction false} InsertKeepsSum(s: seq<Entry>, x: Entry, chosen: set<nat>)
    ensures SumOver(Insert(MostFirst, s, x), chosen) == SumOver(s, chosen) + (if x.id in chosen then x.available else 0.0)
  {
    var inserted := Insert(MostFirst, s, x);
    if s == [] || Leq(MostFirst, s[|s| - 1], x) {
      assert inserted[..|s|] == s;
    } else {
      InsertKeepsSum(s[..|s| - 1], x, chosen);
      assert inserted[..|inserted| - 1] == Insert(MostFirst, s[..|s| - 1], x);
    }
  }

  lemma {:induction false} InsertKeepsDistinct(s: seq<Entry>, x: Entry)
    requires DistinctEntries(s) && x.id !in EntryIds(s)
    ensures DistinctEntries(Insert(MostFirst, s, x))
  {
    if s != [] && !Leq(MostFirst, s[|s| - 1], x) {
      var front, last := s[..|s| - 1], s[|s| - 1];
      assert last in s && forall e | e in front :: e in s;
      InsertKeepsDistinct(front, x);
      InsertPermutes(MostFirst, front, x);
      forall e | e in Insert(MostFirst, front, x) ensures e.id != last.id {
        assert e in multiset(Insert(MostFirst, front, x));
        if e != x {
          assert e in front;
        }
      }
    } else {
      forall i | 0 <= i < |s| ensures s[i].id != x.id {
        assert s[i] in s;
      }
    }
  }

  lemma {:induction false} SortKeepsSum(s: seq<Entry>, chosen: set<nat>)
    requires DistinctEntries(s)
    ensures SumOver(Sort(MostFirst, s), chosen) == SumOver(s, chosen)
    ensures DistinctEntries(Sort(MostFirst, s))
  {
    if s == [] {
    } else {
      var front, last := s[..|s| - 1], s[|s| - 1];
      SortKeepsSum(front, chosen);
      InsertKeepsSum(Sort(MostFirst, front), last, chosen);
      SortKeepsMembers(MostFirst, front);
      assert last.id !in EntryIds(front);
      InsertKeepsDistinct(Sort(MostFirst, front), last);
    }
  }

  /** What the sorted others look like. */
  lemma SortedOthers(entries: seq<Entry>, supplierId: nat)
    requires DistinctEntries(entries)
    ensures var sorted := Sort(MostFirst, Others(entries, supplierId));
            && DistinctEntries(sorted) && AllPositive(sorted) && Sorted(MostFirst, sorted)
            && |sorted| == |Others(entries, supplierId)|
            && EntryIds(sorted) <= EntryIds(entries) - {supplierId}
  {
    var others := Others(entries, supplierId);
    OthersMembers(entries, supplierId);
    SortKeepsSum(others, {});
    SortPermutes(MostFirst, others);
    SortKeepsMembers(MostFirst, others);
    SortSorts(MostFirst, others);
    forall i | 0 <= i < |others| ensures Sort(MostFirst, others)[i].available > 0.0 {
      assert Sort(MostFirst, others)[i] in Sort(MostFirst, others);
    }
  }

  lemma ChoiceIsBounded(entries: seq<Entry>, supplierId: nat, chosen: set<nat>)
    requires DistinctEntries(entries) && supplierId !in chosen
    ensures SumOver(entries, chosen) <= TopSum(Sort(MostFirst, Others(entries, supplierId)), |chosen|)
  {
    var others := Others(entries, supplierId);
    SortedOthers(entries, supplierId);
    OthersMembers(entries, supplierId);
    OthersHaveTheStock(entries, supplierId, chosen);
    SortKeepsSum(others, chosen);
    TopIsBest(Sort(MostFirst, others), chosen, |chosen|);
  }

  lemma ChosenHaveStock(entries: seq<Entry>, supplierId: nat, k: nat, e: Entry)
    requires DistinctEntries(entries) && k <= |Sort(MostFirst, Others(entries, supplierId))|
    requires e in entries && e.id in FirstIds(Sort(MostFirst, Others(entries, supplierId)), k)
    ensures e.available > 0.0
  {
    var others := Others(entries, supplierId);
    OthersMembers(entries, supplierId);
    SortKeepsMembers(MostFirst, others);
    var f :| f in Sort(MostFirst, others)[..k] && f.id == e.id;
    assert f in Sort(MostFirst, others);
  }

  lemma LargestAreAChoice(entries: seq<Entry>, supplierId: nat, k: nat)
    requires DistinctEntries(entries) && k <= |Sort(MostFirst, Others(entries, supplierId))|
    ensures var sorted := Sort(MostFirst, Others(entries, supplierId));
            && FirstIds(sorted, k) <= EntryIds(entries) - {supplierId}
            && |FirstIds(sorted, k)| == k
            && SumOver(entries, FirstIds(sorted, k)) == TopSum(sorted, k)
  {
    var others := Others(entries, supplierId);
    var sorted := Sort(MostFirst, others);
    SortedOthers(entries, supplierId);
    FirstIdsCount(sorted, k);
    FirstIdsReachTop(sorted, k);
    var chosen := FirstIds(sorted, k);
    assert forall e | e in sorted[..k] :: e in sorted;
    forall e | e in entries && e.id in chosen ensures e.available > 0.0 {
      ChosenHaveStock(entries, supplierId, k, e);
    }
    OthersHaveTheStock(entries, supplierId, chosen);
    OthersMembers(entries, supplierId);
    SortKeepsSum(others, chosen);
  }

  /** Taking the largest others until the shortfall is met gives the smallest covering choice. */
  lemma GreedyIsMinimal(entries: seq<Entry>, supplierId: nat, shortfall: real, k: nat)
    requires DistinctEntries(entries) && shortfall > 0.0
    requires |Sort(MostFirst, Others(entries, supplierId))| == |Others(entries, supplierId)|
    requires var sorted := Sort(MostFirst, Others(entries, supplierId));
             0 < k <= |sorted| && TopSum(sorted, k - 1) < shortfall <= TopSum(sorted, k)
    ensures IsSecondaryCount(entries, supplierId, shortfall, k)
  {
    var sorted := Sort(MostFirst, Others(entries, supplierId));
    LargestAreAChoice(entries, supplierId, k);
    assert Covers(entries, supplierId, FirstIds(sorted, k), shortfall);
    forall chosen | Covers(entries, supplierId, chosen, shortfall) ensures k <= |chosen| {
      ChoiceIsBounded(entries, supplierId, chosen);
      SortedOthers(entries, supplierId);
      if |chosen| < k {
        TopSumGrows(sorted, |chosen|, k - 1);
      }
    }
  }

  lemma NothingCovers(entries: seq<Entry>, supplierId: nat, shortfall: real)
    requires DistinctEntries(entries) && shortfall > 0.0
    requires TopSum(Sort(MostFirst, Others(entries, supplierId)), |Others(entries, supplierId)|) < shortfall
    ensures IsSecondaryCount(entries, supplierId, shortfall, |Others(entries, supplierId)|)
  {
    var others := Others(entries, supplierId);
    SortedOthers(entries, supplierId);
    if chosen :| Covers(entries, supplierId, chosen, shortfall) {
      ChoiceIsBounded(entries, supplierId, chosen);
      if |chosen| <= |others| {
        TopSumGrows(Sort(MostFirst, others), |chosen|, |others|);
      } else {
        TopSumGrows(Sort(MostFirst, others), |others|, |chosen|);
      }
    }
  }

  method CountSecondarySuppliers(entries: seq<Entry>, supplierId: nat, requiredQuantity: real, ownAvailable: real)
    returns (count: nat)
    requires DistinctEntries(entries)
    ensures IsSecondaryCount(entries, supplierId, requiredQuantity - ownAvailable, count)
  {
    var remaining := if requiredQuantity - ownAvailable > 0.0 then requiredQuantity - ownAvailable else 0.0;
    if remaining <= 0.0 {
      return 0;
    }
    ghost var shortfall := remaining;
    count := 0;
    var sorted := Sort(MostFirst, Others(entries, supplierId));
    SortedOthers(entries, supplierId);
    while count < |sorted|
      invariant 0 <= count <= |sorted|
      invariant remaining == shortfall - TopSum(sorted, count) && remaining > 0.0
    {
      remaining := remaining - sorted[count].available;
      count := count + 1;
      if remaining <= 0.0 {
        GreedyIsMinimal(entries, supplierId, shortfall, count);
        return;
      }
    }
    NothingCovers(entries, supplierId, shortfall);
  }

  /** The count is determined: no two numbers can both be right. */
  lemma SecondaryCountUnique(entries: seq<Entry>, supplierId: nat, shortfall: real, a: nat, b: nat)
    requires IsSecondaryCount(entries, supplierId, shortfall, a)
    requires IsSecondaryCount(entries, supplierId, shortfall, b)
    ensures a == b
  {
  }
}
