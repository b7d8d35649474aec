/** Ranking suppliers and shortlisting them at an adaptive coverage threshold. */
module Shortlisting {
  import opened Collections
  import opened Sorting
  import opened SupplierCapability

  const MIN_RESULTS := 5
  const MAX_RESULTS := 12
  const THRESHOLDS: seq<real> := [100.0, 75.0, 50.0, 35.0, 25.0, 15.0, 10.0]
  const LOWEST_THRESHOLD := 10.0

  /** One assessed supplier. Its name stands for its place in the collation order. */
  datatype Supplier = Supplier(
    supplierId: nat,
    nameRank: int,
    status: Fulfilment,
    ownCoverage: real,
    totalPotential: real,
    secondaryCount: nat,
    exactMatch: bool,
    confidence: real,
    reliability: Option<real>,
    estimatedCost: Option<real>,
    risk: real)

  // ---------------------------------------------------------------- the nine-key ranking

  function StatusRank(status: Fulfilment): int {
    match status
    case OwnStock => 0
    case SourcingPossible => 1
    case PartialOnly => 2
    case Unavailable => 3
  }

  function CompareSuppliers(left: Supplier, right: Supplier): real {
    var statusDiff := StatusRank(left.status) - StatusRank(right.status);
    var leftReliability, rightReliability := left.reliability.GetOr(0.0), right.reliability.GetOr(0.0);
    var leftCost, rightCost := left.estimatedCost.GetOr(MAX_SAFE_INTEGER), right.estimatedCost.GetOr(MAX_SAFE_INTEGER);
    if statusDiff != 0 then statusDiff as real
    else if left.ownCoverage != right.ownCoverage then right.ownCoverage - left.ownCoverage
    else if left.secondaryCount != right.secondaryCount then (left.secondaryCount - right.secondaryCount) as real
    else if left.exactMatch != right.exactMatch then (if left.exactMatch then -1.0 else 1.0)
    else if left.confidence != right.confidence then right.confidence - left.confidence
    else if leftReliability != rightReliability then rightReliability - leftReliability
    else if leftCost != rightCost then leftCost - rightCost
    else if left.risk != right.risk then left.risk - right.risk
    else (left.nameRank - right.nameRank) as real
  }

  /** The ranking keys of a supplier, most significant first, each better when smaller. */
  function Keys(s: Supplier): seq<real> {
    [StatusRank(s.status) as real, -s.ownCoverage, s.secondaryCount as real, if s.exactMatch then 0.0 else 1.0,
     -s.confidence, -s.reliability.GetOr(0.0), s.estimatedCost.GetOr(MAX_SAFE_INTEGER), s.risk, s.nameRank as real]
  }

  /** The difference at the first key, from position i on, in which two lists differ. */
  function Lexicographic(a: seq<real>, b: seq<real>, i: nat): real
    requires |a| == |b| && i <= |a|
    decreases |a| - i
  {
    if i == |a| then 0.0
    else if a[i] != b[i] then a[i] - b[i]
    else Lexicographic(a, b, i + 1)
  }

  /** The comparator is the lexicographic order on the nine keys. */
  lemma ComparatorIsLexicographic(left: Supplier, right: Supplier)
    ensures CompareSuppliers(left, right) == Lexicographic(Keys(left), Keys(right), 0)
  {
    var a, b := Keys(left), Keys(right);
    assert Lexicographic(a, b, 8) == a[8] - b[8];
    assert Lexicographic(a, b, 7) == if a[7] != b[7] then a[7] - b[7] else Lexicographic(a, b, 8);
    assert Lexicographic(a, b, 6) == if a[6] != b[6] then a[6] - b[6] else Lexicographic(a, b, 7);
    assert Lexicographic(a, b, 5) == if a[5] != b[5] then a[5] - b[5] else Lexicographic(a, b, 6);
    assert Lexicographic(a, b, 4) == if a[4] != b[4] then a[4] - b[4] else Lexicographic(a, b, 5);
    assert Lexicographic(a, b, 3) == if a[3] != b[3] then a[3] - b[3] else Lexicographic(a, b, 4);
    assert Lexicographic(a, b, 2) == if a[2] != b[2] then a[2] - b[2] else Lexicographic(a, b, 3);
    assert Lexicographic(a, b, 1) == if a[1] != b[1] then a[1] - b[1] else Lexicographic(a, b, 2);
  }

  lemma {:induction false} LexicographicIsAnOrder(a: seq<real>, b: seq<real>, c: seq<real>, i: nat)
    requires |a| == |b| == |c| && i <= |a|
    ensures Lexicographic(b, a, i) == -Lexicographic(a, b, i)
    ensures Lexicographic(a, b, i) <= 0.0 && Lexicographic(b, c, i) <= 0.0 ==> Lexicographic(a, c, i) <= 0.0
    decreases |a| - i
  {
    if i < |a| { LexicographicIsAnOrder(a, b, c, i + 1); }
  }

  /** The ranking never contradicts itself, so sorting by it is meaningful. */
  lemma RankingIsConsistent()
    ensures Consistent(CompareSuppliers)
    ensures forall left, right :: CompareSuppliers(right, left) == -CompareSuppliers(left, right)
  {
    forall a, b ensures Leq(CompareSuppliers, a, b) || Leq(CompareSuppliers, b, a) {
      ComparatorIsLexicographic(a, b);
      ComparatorIsLexicographic(b, a);
      LexicographicIsAnOrder(Keys(a), Keys(b), Keys(b), 0);
    }
    forall a, b, c | Leq(CompareSuppliers, a, b) && Leq(CompareSuppliers, b, c) ensures Leq(CompareSuppliers, a, c) {
      ComparatorIsLexicographic(a, b);
      ComparatorIsLexicographic(b, c);
      ComparatorIsLexicographic(a, c);
      LexicographicIsAnOrder(Keys(a), Keys(b), Keys(c), 0);
    }
  }

  /** The nine keys in words: of two suppliers that agree on everything named before, the one with the better status,
      the larger own coverage, the fewer secondary suppliers, the exact match, the higher confidence, the better
      reliability, the lower cost, the lower risk, and finally the earlier name is ranked first. */
  lemma BetterRanksFirst(left: Supplier, right: Supplier)
    ensures left.status == OwnStock && right.status in {SourcingPossible, PartialOnly, Unavailable} ==> CompareSuppliers(left, right) < 0.0
    ensures left.status == SourcingPossible && right.status in {PartialOnly, Unavailable} ==> CompareSuppliers(left, right) < 0.0
    ensures left.status == PartialOnly && right.status == Unavailable ==> CompareSuppliers(left, right) < 0.0
    ensures left.status == right.status ==>
              var s := right.(ownCoverage := left.ownCoverage);
              var t := s.(secondaryCount := left.secondaryCount);
              var u := t.(exactMatch := left.exactMatch);
              var v := u.(confidence := left.confidence);
              var w := v.(reliability := left.reliability);
              var x := w.(estimatedCost := left.estimatedCost);
              var y := x.(risk := left.risk);
              && (left.ownCoverage > right.ownCoverage ==> CompareSuppliers(left, right) < 0.0)
              && (left.secondaryCount < s.secondaryCount ==> CompareSuppliers(left, s) < 0.0)
              && (left.exactMatch && !t.exactMatch ==> CompareSuppliers(left, t) < 0.0)
              && (left.confidence > u.confidence ==> CompareSuppliers(left, u) < 0.0)
              && (left.reliability.GetOr(0.0) > v.reliability.GetOr(0.0) ==> CompareSuppliers(left, v) < 0.0)
              && (left.estimatedCost.GetOr(MAX_SAFE_INTEGER) < w.estimatedCost.GetOr(MAX_SAFE_INTEGER) ==> CompareSuppliers(left, w) < 0.0)
              && (left.risk < x.risk ==> CompareSuppliers(left, x) < 0.0)
              && (left.nameRank < y.nameRank ==> CompareSuppliers(left, y) < 0.0)
  {
  }

  // ---------------------------------------------------------------- the adaptive threshold

  predicate IsEligible(s: Supplier, threshold: real, required: real) {
    if s.ownCoverage < threshold then false
    else if threshold >= 75.0 && s.ownCoverage < 100.0 then
      s.status == SourcingPossible && s.totalPotential >= required && s.secondaryCount > 0
    else true
  }

  function Candidates(ranked: seq<Supplier>): seq<Supplier> {
    if ranked == [] then []
    else
      var last := ranked[|ranked| - 1];
      Candidates(ranked[..|ranked| - 1]) + (if last.status != Unavailable then [last] else [])
  }

  function EligibleAt(candidates: seq<Supplier>, threshold: real, required: real): seq<Supplier> {
    if candidates == [] then []
    else
      var last := candidates[|candidates| - 1];
      EligibleAt(candidates[..|candidates| - 1], threshold, required) +
      (if IsEligible(last, threshold, required) then [last] else [])
  }

  /** Own coverage must reach the threshold; from 75 percent up a supplier short of 100 must also be able to source the
      whole demand with somebody's help. */
  lemma EligibleExactly(s: Supplier, threshold: real, required: real)
    ensures IsEligible(s, threshold, required) <==>
            && s.ownCoverage >= threshold
            && (|| threshold < 75.0
                || s.ownCoverage >= 100.0
                || (s.status == SourcingPossible && s.totalPotential >= required && s.secondaryCount >= 1))
  {
  }

  /** Both filters go supplier by supplier and keep the order. */
  lemma FiltersGrow(suppliers: seq<Supplier>, s: Supplier, threshold: real, required: real)
    ensures Candidates([]) == EligibleAt([], threshold, required) == []
    ensures Candidates(suppliers + [s]) == Candidates(suppliers) + (if s.status == Unavailable then [] else [s])
    ensures EligibleAt(suppliers + [s], threshold, required) ==
            EligibleAt(suppliers, threshold, required) + (if IsEligible(s, threshold, required) then [s] else [])
  {
    assert (suppliers + [s])[..|suppliers|] == suppliers;
  }

  /** Lowering the threshold never makes an eligible supplier ineligible, the stricter rule from 75 up included. */
  lemma EligibilityIsMonotone(s: Supplier, higher: real, lower: real, required: real)
    requires lower <= higher <= 100.0 && IsEligible(s, higher, required)
    ensures IsEligible(s, lower, required)
  {
  }

  lemma {:induction false} FewerAtHigherThreshold(candidates: seq<Supplier>, higher: real, lower: real, required: real)
    requires lower <= higher <= 100.0
    ensures |EligibleAt(candidates, higher, required)| <= |EligibleAt(candidates, lower, required)|
  {
    if candidates == [] {
    } else {
      FewerAtHigherThreshold(candidates[..|candidates| - 1], higher, lower, required);
    }
  }

  ghost predicate Enough(candidates: seq<Supplier>, threshold: real, required: real) {
    |EligibleAt(candidates, threshold, required)| >= MIN_RESULTS
  }

  /** The threshold that should be applied: the highest at which enough suppliers are eligible, else the lowest. */
  ghost predicate IsAppliedThreshold(candidates: seq<Supplier>, required: real, threshold: real) {
    && threshold in THRESHOLDS
    && (forall t | t in THRESHOLDS && t > threshold :: !Enough(candidates, t, required))
    && (Enough(candidates, threshold, required) || threshold == LOWEST_THRESHOLD)
  }

  /** The shortlist in closed form: the best twelve of those eligible there, or of all candidates if nobody is. */
  function Shortlist(candidates: seq<Supplier>, threshold: real, required: real): seq<Supplier> {
    var eligible := EligibleAt(candidates, threshold, required);
    var chosen := if eligible == [] then candidates else eligible;
    if |chosen| <= MAX_RESULTS then chosen else chosen[..MAX_RESULTS]
  }

  lemma FirstEnoughIsApplied(candidates: seq<Supplier>, required: real, k: nat)
    requires k < |THRESHOLDS|
    requires forall m :: 0 <= m < k ==> !Enough(candidates, THRESHOLDS[m], required)
    requires Enough(candidates, THRESHOLDS[k], required) || k == |THRESHOLDS| - 1
    ensures IsAppliedThreshold(candidates, required, THRESHOLDS[k])
  {
    forall t | t in THRESHOLDS && t > THRESHOLDS[k] ensures !Enough(candidates, t, required) {
      var m :| 0 <= m < |THRESHOLDS| && THRESHOLDS[m] == t;
      assert m < k;
    }
  }

  /** The thresholds from position `from` up to, not including, `to` leave nobody eligible. */
  ghost predicate NobodyBetween(candidates: seq<Supplier>, required: real, from: int, to: nat)
    requires -1 <= from && to <= |THRESHOLDS|
  {
    forall k :: from < k < to ==> EligibleAt(candidates, THRESHOLDS[k], required) == []
  }

  lemma LastNonEmptyIsLowest(candidates: seq<Supplier>, required: real, at: nat)
    requires at < |THRESHOLDS| && EligibleAt(candidates, THRESHOLDS[at], required) != []
    requires NobodyBetween(candidates, required, at, |THRESHOLDS|)
    ensures at == |THRESHOLDS| - 1
  {
    var last := |THRESHOLDS| - 1;
    assert THRESHOLDS[last] <= THRESHOLDS[at] <= 100.0;
    FewerAtHigherThreshold(candidates, THRESHOLDS[at], THRESHOLDS[last], required);
  }

  method ApplyAdaptiveThresholdShortlist(ranked: seq<Supplier>, required: real)
    returns (suppliers: seq<Supplier>, applied: real)
    ensures IsAppliedThreshold(Candidates(ranked), required, applied)
    ensures suppliers == Shortlist(Candidates(ranked), applied, required)
  {
    var candidates := Candidates(ranked);
    applied := THRESHOLDS[|THRESHOLDS| - 1];
    var selected := candidates;
    ghost var at := -1;
    for i := 0 to |THRESHOLDS|
      invariant forall k :: 0 <= k < i ==> !Enough(candidates, THRESHOLDS[k], required)
      invariant -1 <= at < i && NobodyBetween(candidates, required, at, i)
      invariant applied == if at < 0 then THRESHOLDS[|THRESHOLDS| - 1] else THRESHOLDS[at]
      invariant if at < 0 then selected == candidates else selected == EligibleAt(candidates, applied, required) != []
    {
      var threshold := THRESHOLDS[i];
      var filtered := EligibleAt(candidates, threshold, required);
      if |filtered| == 0 {
        continue;
      }
      selected, applied, at := filtered, threshold, i;
      if |filtered| >= MIN_RESULTS {
        FirstEnoughIsApplied(candidates, required, i);
        suppliers := if |selected| <= MAX_RESULTS then selected else selected[..MAX_RESULTS];
        return;
      }
    }
    FirstEnoughIsApplied(candidates, required, |THRESHOLDS| - 1);
    if at >= 0 {
      LastNonEmptyIsLowest(candidates, required, at);
    }
    suppliers := if |selected| <= MAX_RESULTS then selected else selected[..MAX_RESULTS];
  }

  /** The thresholds tried are 100, 75, 50, 35, 25, 15 and 10; five eligible suppliers are enough, and twelve are shown:
      the first eligible ones, or the first available ones if nobody is eligible even at 10. */
  lemma ShortlistInNumbers(candidates: seq<Supplier>, required: real, applied: real)
    requires IsAppliedThreshold(candidates, required, applied)
    ensures applied in {100.0, 75.0, 50.0, 35.0, 25.0, 15.0, 10.0}
    ensures |EligibleAt(candidates, applied, required)| >= 5 || applied == 10.0
    ensures forall t | t in {100.0, 75.0, 50.0, 35.0, 25.0, 15.0, 10.0} && t > applied :: |EligibleAt(candidates, t, required)| < 5
    ensures var eligible, shown := EligibleAt(candidates, applied, required), Shortlist(candidates, applied, required);
            && (if eligible == [] then shown <= candidates else shown <= eligible)
            && |shown| == (if eligible == [] then AtMost(|candidates|, 12) else AtMost(|eligible|, 12))
  {
    forall t | t in {100.0, 75.0, 50.0, 35.0, 25.0, 15.0, 10.0} && t > applied
      ensures |EligibleAt(candidates, t, required)| < 5
    {
      assert THRESHOLDS[0] == 100.0 && THRESHOLDS[1] == 75.0 && THRESHOLDS[2] == 50.0 && THRESHOLDS[3] == 35.0;
      assert THRESHOLDS[4] == 25.0 && THRESHOLDS[5] == 15.0 && THRESHOLDS[6] == 10.0;
      assert t in THRESHOLDS;
      assert !Enough(candidates, t, required);
    }
  }

  function AtMost(n: nat, top: nat): nat { if n <= top then n else top }

  // ---------------------------------------------------------------- what the buyer sees

  lemma {:induction false} CandidatesMembers(ranked: seq<Supplier>)
    ensures forall s :: s in Candidates(ranked) <==> s in ranked && s.status != Unavailable
    ensures Sorted(CompareSuppliers, ranked) ==> Sorted(CompareSuppliers, Candidates(ranked))
  {
    if ranked == [] {
    } else {
      var front, last := ranked[..|ranked| - 1], ranked[|ranked| - 1];
      CandidatesMembers(front);
      assert ranked == front + [last];
      if Sorted(CompareSuppliers, ranked) {
        forall s | s in Candidates(front) ensures Leq(CompareSuppliers, s, last) {
          var i :| 0 <= i < |front| && front[i] == s;
          assert ranked[i] == s;
        }
      }
    }
  }

  lemma {:induction false} EligibleMembers(candidates: seq<Supplier>, threshold: real, required: real)
    ensures forall s :: s in EligibleAt(candidates, threshold, required) <==> s in candidates && IsEligible(s, threshold, required)
  {
    if candidates == [] {
    } else {
      EligibleMembers(candidates[..|candidates| - 1], threshold, required);
      assert candidates == candidates[..|candidates| - 1] + [candidates[|candidates| - 1]];
    }
  }

  lemma {:induction false} EligibleSorted(candidates: seq<Supplier>, threshold: real, required: real)
    requires Sorted(CompareSuppliers, candidates)
    ensures Sorted(CompareSuppliers, EligibleAt(candidates, threshold, required))
  {
    if candidates == [] {
    } else {
      var front, last := candidates[..|candidates| - 1], candidates[|candidates| - 1];
      EligibleSorted(front, threshold, required);
      EligibleMembers(front, threshold, required);
      forall s | s in EligibleAt(front, threshold, required) ensures Leq(CompareSuppliers, s, last) {
        var i :| 0 <= i < |front| && front[i] == s;
        assert candidates[i] == s;
      }
    }
  }

  lemma TakenAreInFront<T>(s: seq<T>, cut: nat)
    requires cut <= |s|
    ensures forall j :: 0 <= j < cut ==> s[j] in s[..cut]
  {
    forall j | 0 <= j < cut ensures s[j] in s[..cut] {
      assert s[..cut][j] == s[j];
    }
  }

  /** No supplier left off the shortlist, though available and eligible at the applied threshold, ranks
      strictly ahead of one that is on it; nobody unavailable is ever shown. */
  lemma ShortlistIsTheBest(assessed: seq<Supplier>, threshold: real, required: real, shown: Supplier, left: Supplier)
    requires var candidates := Candidates(Sort(CompareSuppliers, assessed));
             shown in Shortlist(candidates, threshold, required)
    ensures shown in assessed && shown.status != Unavailable
    ensures var candidates := Candidates(Sort(CompareSuppliers, assessed));
            left in assessed && left.status != Unavailable && IsEligible(left, threshold, required) &&
            left !in Shortlist(candidates, threshold, required)
            ==> IsEligible(shown, threshold, required) && CompareSuppliers(shown, left) <= 0.0
  {
    var ranked := Sort(CompareSuppliers, assessed);
    var candidates := Candidates(ranked);
    RankingIsConsistent();
    SortSorts(CompareSuppliers, assessed);
    SortKeepsMembers(CompareSuppliers, assessed);
    CandidatesMembers(ranked);
    EligibleMembers(candidates, threshold, required);
    EligibleSorted(candidates, threshold, required);
    var eligible := EligibleAt(candidates, threshold, required);
    var shortlist := Shortlist(candidates, threshold, required);
    var i :| 0 <= i < |shortlist| && shortlist[i] == shown;
    if left in eligible && left !in shortlist {
      var j :| 0 <= j < |eligible| && eligible[j] == left;
      var cut := if |eligible| <= MAX_RESULTS then |eligible| else MAX_RESULTS;
      assert shortlist == eligible[..cut];
      TakenAreInFront(eligible, cut);
      assert Leq(CompareSuppliers, eligible[i], eligible[j]);
    }
  }
}
