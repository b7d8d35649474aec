/** Building candidate supplier combinations for a procurement package. */
module Procurement {
  import opened Collections
  import opened Rounding
  import opened Sorting

  const DEFAULT_MAX_SUPPLIERS := 12

  datatype Strategy = LowestCost | LowestRisk | FewestSuppliers | HighestConfidence | PreferLocal | Balanced

  const STRATEGIES := [LowestCost, LowestRisk, FewestSuppliers, HighestConfidence, PreferLocal, Balanced]

  /** One supplier found eligible for one requirement. */
  datatype Match = Match(
    supplierId: nat, cost: Option<real>, confidence: real, risk: real, distance: Option<real>,
    ownCoverage: real, currency: Option<string>)

  /** Eligible suppliers by requirement. */
  type Matches = map<nat, seq<Match>>

  datatype Candidate = Candidate(
    strategy: Strategy,
    requirements: seq<nat>,
    suppliers: seq<Match>,
    signature: multiset<(nat, nat)>,
    totalCost: Option<real>,
    confidence: real,
    risk: real,
    supplierCount: nat,
    currency: Option<string>)

  // ---------------------------------------------------------------- choosing for one requirement

  function CompareMatches(a: Match, b: Match, strategy: Strategy, preferred: Option<nat>): real {
    if preferred.Some? && a.supplierId == preferred.value then -1.0
    else if preferred.Some? && b.supplierId == preferred.value then 1.0
    else match strategy
      case LowestCost => a.cost.GetOr(MAX_SAFE_INTEGER) - b.cost.GetOr(MAX_SAFE_INTEGER)
      case LowestRisk => a.risk - b.risk
      case HighestConfidence => b.confidence - a.confidence
      case PreferLocal => a.distance.GetOr(MAX_SAFE_INTEGER) - b.distance.GetOr(MAX_SAFE_INTEGER)
      case FewestSuppliers => b.ownCoverage - a.ownCoverage
      case Balanced => if b.confidence != a.confidence then b.confidence - a.confidence else a.risk - b.risk
  }

  function Order(strategy: Strategy, preferred: Option<nat>): Comparator<Match> {
    (a, b) => CompareMatches(a, b, strategy, preferred)
  }

  lemma OrderIsConsistent(strategy: Strategy, preferred: Option<nat>)
    ensures Consistent(Order(strategy, preferred))
  {
  }

  function Options(matches: Matches, requirement: nat): seq<Match> {
    if requirement in matches then matches[requirement] else []
  }

  function Pick(options: seq<Match>, strategy: Strategy, preferred: Option<nat>): Option<Match> {
    SortPermutes(Order(strategy, preferred), options);
    if options == [] then None else Some(Sort(Order(strategy, preferred), options)[0])
  }

  lemma PickIsBest(options: seq<Match>, strategy: Strategy, preferred: Option<nat>, other: Match)
    requires other in options
    ensures var pick := Pick(options, strategy, preferred);
            pick.Some? && pick.value in options && CompareMatches(pick.value, other, strategy, preferred) <= 0.0
  {
    OrderIsConsistent(strategy, preferred);
    FirstIsLeast(Order(strategy, preferred), options, other);
  }

  // ---------------------------------------------------------------- totals and averages

  function Sum(values: seq<real>): real {
    if values == [] then 0.0 else Sum(values[..|values| - 1]) + values[|values| - 1]
  }

  function Average(values: seq<real>): real {
    if values == [] then 0.0 else Round2(Sum(values) / |values| as real)
  }

  function Confidences(suppliers: seq<Match>): (values: seq<real>)
    ensures |values| == |suppliers| && forall i :: 0 <= i < |suppliers| ==> values[i] == suppliers[i].confidence
  {
    seq(|suppliers|, i requires 0 <= i < |suppliers| => suppliers[i].confidence)
  }

  function Risks(suppliers: seq<Match>): (values: seq<real>)
    ensures |values| == |suppliers| && forall i :: 0 <= i < |suppliers| ==> values[i] == suppliers[i].risk
  {
    seq(|suppliers|, i requires 0 <= i < |suppliers| => suppliers[i].risk)
  }

  function Costs(suppliers: seq<Match>): (values: seq<real>)
    ensures |values| == |suppliers| && forall i :: 0 <= i < |suppliers| ==> values[i] == suppliers[i].cost.GetOr(0.0)
  {
    seq(|suppliers|, i requires 0 <= i < |suppliers| => suppliers[i].cost.GetOr(0.0))
  }

  /** The total is known only if every price is. */
  function TotalCost(suppliers: seq<Match>): Option<real> {
    if forall m :: m in suppliers ==> m.cost.Some? then Some(Sum(Costs(suppliers))) else None
  }

  function FirstCurrency(suppliers: seq<Match>): Option<string> {
    if suppliers == [] then None
    else if suppliers[0].currency.Some? then suppliers[0].currency
    else FirstCurrency(suppliers[1..])
  }

  /** Running totals from zero, one value at a time. */
  ghost predicate Running(totals: seq<real>, values: seq<real>) {
    |totals| == |values| + 1 && totals[0] == 0.0 && forall i :: 0 <= i < |values| ==> totals[i + 1] == totals[i] + values[i]
  }

  /** The values, added one after another, come to the total. */
  ghost predicate AddUpTo(values: seq<real>, total: real) {
    exists totals :: Running(totals, values) && totals[|values|] == total
  }

  lemma {:induction false} RunningIsSum(values: seq<real>) returns (totals: seq<real>)
    ensures Running(totals, values) && totals[|values|] == Sum(values)
  {
    if values == [] {
      totals := [0.0];
    } else {
      var front := values[..|values| - 1];
      var before := RunningIsSum(front);
      totals := before + [Sum(values)];
    }
  }

  lemma {:induction false} RunningIsUnique(totals: seq<real>, values: seq<real>, n: nat)
    requires Running(totals, values) && n <= |values|
    ensures totals[n] == Sum(values[..n])
  {
    if n == 0 {
    } else {
      RunningIsUnique(totals, values, n - 1);
      assert values[..n][..n - 1] == values[..n - 1];
      assert totals[n - 1 + 1] == totals[n - 1] + values[n - 1];
    }
  }

  /** The sum is what the values add up to, and nothing else is. */
  lemma SumExactly(values: seq<real>, total: real)
    ensures AddUpTo(values, total) <==> total == Sum(values)
  {
    var running := RunningIsSum(values);
    if totals :| Running(totals, values) && totals[|values|] == total {
      RunningIsUnique(totals, values, |values|);
      assert values[..|values|] == values;
    }
  }

  /** The average is the total shared out evenly, within half a hundredth; of nothing, it is zero. */
  lemma AverageIsNear(values: seq<real>, total: real) returns (share: real)
    requires AddUpTo(values, total)
    ensures values == [] ==> Average(values) == 0.0
    ensures values != [] ==> share * |values| as real == total
    ensures values != [] ==> InCents(Average(values)) && share - 0.005 < Average(values) <= share + 0.005
  {
    SumExactly(values, total);
    share := 0.0;
    if values != [] {
      share := total / |values| as real;
      RoundingIsNear(share);
      SharesAddUp(total, |values| as real);
    }
  }

  lemma SharesAddUp(total: real, n: real)
    requires n > 0.0
    ensures total / n * n == total
  {
  }

  /** A list of suppliers costs a total: every price is known, and they add up to it. */
  ghost predicate Cost(suppliers: seq<Match>, total: real) {
    exists prices: seq<real> ::
      |prices| == |suppliers| && (forall i :: 0 <= i < |suppliers| ==> suppliers[i].cost == Some(prices[i])) && AddUpTo(prices, total)
  }

  /** A candidate's total is known exactly when it costs that. */
  lemma TotalCostExactly(suppliers: seq<Match>, total: real)
    ensures TotalCost(suppliers) == Some(total) <==> Cost(suppliers, total)
  {
    if TotalCost(suppliers) == Some(total) {
      assert forall i :: 0 <= i < |suppliers| ==> suppliers[i] in suppliers;
      SumExactly(Costs(suppliers), total);
      assert Cost(suppliers, total);
    }
    if prices: seq<real> :| |prices| == |suppliers| && (forall i :: 0 <= i < |suppliers| ==> suppliers[i].cost == Some(prices[i])) && AddUpTo(prices, total) {
      SumExactly(prices, total);
      assert Costs(suppliers) == prices;
    }
  }

  lemma {:induction false} SumIsMonotone(a: seq<real>, b: seq<real>)
    requires |a| == |b| && forall i :: 0 <= i < |a| ==> a[i] <= b[i]
    ensures Sum(a) <= Sum(b)
  {
    if a == [] {
    } else {
      SumIsMonotone(a[..|a| - 1], b[..|b| - 1]);
    }
  }

  lemma AverageIsMonotone(a: seq<real>, b: seq<real>)
    requires |a| == |b| && forall i :: 0 <= i < |a| ==> a[i] <= b[i]
    ensures Average(a) <= Average(b)
  {
    if a != [] {
      SumIsMonotone(a, b);
      var n := |a| as real;
      assert Sum(b) / n - Sum(a) / n == (Sum(b) - Sum(a)) / n >= 0.0;
      RoundingIsMonotone(Sum(a) / n, Sum(b) / n);
    }
  }

  // ---------------------------------------------------------------- one candidate

  /** A choice of one eligible supplier for every requirement. */
  ghost predicate IsAssignment(requirements: seq<nat>, matches: Matches, suppliers: seq<Match>) {
    && |suppliers| == |requirements|
    && forall i :: 0 <= i < |requirements| ==> suppliers[i] in Options(matches, requirements[i])
  }

  function Signature(requirements: seq<nat>, suppliers: seq<Match>): multiset<(nat, nat)>
    requires |requirements| == |suppliers|
  {
    multiset(seq(|requirements|, i requires 0 <= i < |requirements| => (requirements[i], suppliers[i].supplierId)))
  }

  function SupplierIds(suppliers: seq<Match>): set<nat> {
    set m | m in suppliers :: m.supplierId
  }

  function Price(strategy: Strategy, requirements: seq<nat>, suppliers: seq<Match>): Candidate
    requires |requirements| == |suppliers|
  {
    Candidate(strategy, requirements, suppliers, Signature(requirements, suppliers), TotalCost(suppliers),
              Average(Confidences(suppliers)), Average(Risks(suppliers)), |SupplierIds(suppliers)|, FirstCurrency(suppliers))
  }

  ghost predicate AllHaveOptions(requirements: seq<nat>, matches: Matches) {
    forall i :: 0 <= i < |requirements| ==> Options(matches, requirements[i]) != []
  }

  function Chosen(requirements: seq<nat>, matches: Matches, strategy: Strategy, preferred: Option<nat>): (suppliers: seq<Match>)
    requires AllHaveOptions(requirements, matches)
    ensures |suppliers| == |requirements|
  {
    seq(|requirements|, i requires 0 <= i < |requirements| =>
      Pick(Options(matches, requirements[i]), strategy, preferred).value)
  }

  method MakeCandidate(requirements: seq<nat>, matches: Matches, strategy: Strategy, preferred: Option<nat>)
    returns (candidate: Option<Candidate>)
    ensures candidate.Some? <==> AllHaveOptions(requirements, matches)
    ensures candidate.Some? ==> candidate.value == Price(strategy, requirements, Chosen(requirements, matches, strategy, preferred))
  {
    var suppliers: seq<Match> := [];
    for i := 0 to |requirements|
      invariant |suppliers| == i && AllHaveOptions(requirements[..i], matches)
      invariant forall k :: 0 <= k < i ==>
                  Pick(Options(matches, requirements[k]), strategy, preferred) == Some(suppliers[k])
    {
      var pick := Pick(Options(matches, requirements[i]), strategy, preferred);
      if pick.None? {
        assert Options(matches, requirements[i]) == [];
        return None;
      }
      assert requirements[..i + 1] == requirements[..i] + [requirements[i]];
      suppliers := suppliers + [pick.value];
    }
    assert requirements[..|requirements|] == requirements;
    assert suppliers == Chosen(requirements, matches, strategy, preferred);
    return Some(Price(strategy, requirements, suppliers));
  }

  lemma ChosenIsAssignment(requirements: seq<nat>, matches: Matches, strategy: Strategy, preferred: Option<nat>)
    requires AllHaveOptions(requirements, matches)
    ensures IsAssignment(requirements, matches, Chosen(requirements, matches, strategy, preferred))
  {
    forall i | 0 <= i < |requirements|
      ensures Chosen(requirements, matches, strategy, preferred)[i] in Options(matches, requirements[i])
    {
      PickIsBest(Options(matches, requirements[i]), strategy, preferred, Options(matches, requirements[i])[0]);
    }
  }

  lemma ChosenIsBest(requirements: seq<nat>, matches: Matches, strategy: Strategy, suppliers: seq<Match>, i: nat)
    requires IsAssignment(requirements, matches, suppliers) && i < |requirements|
    ensures AllHaveOptions(requirements, matches)
    ensures CompareMatches(Chosen(requirements, matches, strategy, None)[i], suppliers[i], strategy, None) <= 0.0
  {
    forall k | 0 <= k < |requirements| ensures Options(matches, requirements[k]) != [] {
      assert suppliers[k] in Options(matches, requirements[k]);
    }
    PickIsBest(Options(matches, requirements[i]), strategy, None, suppliers[i]);
  }

  // ---------------------------------------------------------------- optimal over all assignments

  /** Of all assignments, none has a lower rounded average risk than the LowestRisk candidate. */
  lemma LowestRiskIsOptimal(requirements: seq<nat>, matches: Matches, suppliers: seq<Match>)
    requires IsAssignment(requirements, matches, suppliers)
    ensures AllHaveOptions(requirements, matches)
    ensures Price(LowestRisk, requirements, Chosen(requirements, matches, LowestRisk, None)).risk <=
            Price(LowestRisk, requirements, suppliers).risk
  {
    forall i | 0 <= i < |requirements| ensures Options(matches, requirements[i]) != [] {
      ChosenIsBest(requirements, matches, LowestRisk, suppliers, i);
    }
    var chosen := Chosen(requirements, matches, LowestRisk, None);
    forall i | 0 <= i < |requirements| ensures chosen[i].risk <= suppliers[i].risk {
      ChosenIsBest(requirements, matches, LowestRisk, suppliers, i);
    }
    AverageIsMonotone(Risks(chosen), Risks(suppliers));
  }

  /** Of all assignments, none has a higher rounded average confidence than the HighestConfidence candidate. */
  lemma HighestConfidenceIsOptimal(requirements: seq<nat>, matches: Matches, suppliers: seq<Match>)
    requires IsAssignment(requirements, matches, suppliers)
    ensures AllHaveOptions(requirements, matches)
    ensures Price(HighestConfidence, requirements, suppliers).confidence <=
            Price(HighestConfidence, requirements, Chosen(requirements, matches, HighestConfidence, None)).confidence
  {
    forall i | 0 <= i < |requirements| ensures Options(matches, requirements[i]) != [] {
      ChosenIsBest(requirements, matches, HighestConfidence, suppliers, i);
    }
    var best := Chosen(requirements, matches, HighestConfidence, None);
    forall i | 0 <= i < |requirements| ensures suppliers[i].confidence <= best[i].confidence {
      ChosenIsBest(requirements, matches, HighestConfidence, suppliers, i);
    }
    AverageIsMonotone(Confidences(suppliers), Confidences(best));
  }

  /** The Balanced candidate is as confident as the most confident one and no riskier, so it is never worse. */
  lemma BalancedDominatesConfidence(requirements: seq<nat>, matches: Matches)
    requires AllHaveOptions(requirements, matches)
    ensures var best := Price(HighestConfidence, requirements, Chosen(requirements, matches, HighestConfidence, None));
            var balanced := Price(Balanced, requirements, Chosen(requirements, matches, Balanced, None));
            balanced.confidence == best.confidence && balanced.risk <= best.risk
  {
    var best := Chosen(requirements, matches, HighestConfidence, None);
    var balanced := Chosen(requirements, matches, Balanced, None);
    ChosenIsAssignment(requirements, matches, HighestConfidence, None);
    ChosenIsAssignment(requirements, matches, Balanced, None);
    forall i | 0 <= i < |requirements| ensures best[i].confidence == balanced[i].confidence && balanced[i].risk <= best[i].risk {
      ChosenIsBest(requirements, matches, HighestConfidence, balanced, i);
      ChosenIsBest(requirements, matches, Balanced, best, i);
    }
    assert Confidences(best) == Confidences(balanced);
    AverageIsMonotone(Risks(balanced), Risks(best));
  }

  ghost predicate PricedBelowSentinel(requirements: seq<nat>, matches: Matches) {
    forall i, m :: 0 <= i < |requirements| && m in Options(matches, requirements[i]) && m.cost.Some? ==>
      m.cost.value < MAX_SAFE_INTEGER
  }

  ghost predicate HasPrice(options: seq<Match>) {
    exists m :: m in options && m.cost.Some?
  }

  /** With every price below the sentinel for unpriced options: the LowestCost candidate has a cost exactly when every
      requirement has a priced option, and then no assignment costs less. */
  lemma LowestCostIsOptimal(requirements: seq<nat>, matches: Matches)
    requires AllHaveOptions(requirements, matches) && PricedBelowSentinel(requirements, matches)
    ensures var best := Chosen(requirements, matches, LowestCost, None);
            && ((exists total :: Cost(best, total)) <==>
                forall i :: 0 <= i < |requirements| ==> HasPrice(Options(matches, requirements[i])))
            && (forall suppliers, total | IsAssignment(requirements, matches, suppliers) && Cost(suppliers, total) ::
                  exists least :: Cost(best, least) && least <= total)
  {
    var best := Chosen(requirements, matches, LowestCost, None);
    CheapestTotal(requirements, matches);
    forall total ensures Cost(best, total) <==> TotalCost(best) == Some(total) {
      TotalCostExactly(best, total);
    }
    if TotalCost(best).Some? {
      assert Cost(best, TotalCost(best).value);
    }
    forall suppliers, total | IsAssignment(requirements, matches, suppliers) && Cost(suppliers, total)
      ensures exists least :: Cost(best, least) && least <= total
    {
      TotalCostExactly(suppliers, total);
      assert Cost(best, TotalCost(best).value);
    }
  }

  lemma CheapestTotal(requirements: seq<nat>, matches: Matches)
    requires AllHaveOptions(requirements, matches) && PricedBelowSentinel(requirements, matches)
    ensures var best := TotalCost(Chosen(requirements, matches, LowestCost, None));
            && (best.Some? <==> forall i :: 0 <= i < |requirements| ==> HasPrice(Options(matches, requirements[i])))
            && (forall suppliers | IsAssignment(requirements, matches, suppliers) && TotalCost(suppliers).Some? ::
                  best.Some? && best.value <= TotalCost(suppliers).value)
  {
    var chosen := Chosen(requirements, matches, LowestCost, None);
    ChosenIsAssignment(requirements, matches, LowestCost, None);
    forall i | 0 <= i < |requirements| ensures chosen[i].cost.Some? <==> HasPrice(Options(matches, requirements[i])) {
      CheapestHasPrice(Options(matches, requirements[i]));
    }
    forall suppliers | IsAssignment(requirements, matches, suppliers) && TotalCost(suppliers).Some?
      ensures TotalCost(chosen).Some? && TotalCost(chosen).value <= TotalCost(suppliers).value
    {
      forall i | 0 <= i < |requirements| ensures chosen[i].cost.Some? && Costs(chosen)[i] <= Costs(suppliers)[i] {
        assert suppliers[i] in suppliers;
        ChosenIsBest(requirements, matches, LowestCost, suppliers, i);
      }
      SumIsMonotone(Costs(chosen), Costs(suppliers));
    }
    if !(forall i :: 0 <= i < |requirements| ==> HasPrice(Options(matches, requirements[i]))) {
      var i :| 0 <= i < |requirements| && !HasPrice(Options(matches, requirements[i]));
      assert chosen[i] in chosen;
    }
  }

  lemma CheapestHasPrice(options: seq<Match>)
    requires options != [] && forall m | m in options && m.cost.Some? :: m.cost.value < MAX_SAFE_INTEGER
    ensures Pick(options, LowestCost, None).value.cost.Some? <==> HasPrice(options)
  {
    PickIsBest(options, LowestCost, None, options[0]);
    if HasPrice(options) {
      var m :| m in options && m.cost.Some?;
      PickIsBest(options, LowestCost, None, m);
    }
  }

  /** Whatever the prices: an unpriced option is taken exactly when some unpriced option has no priced one
      below the sentinel anywhere and none at the sentinel in front of it. */
  lemma CheapestUnknownExactly(options: seq<Match>)
    requires options != []
    ensures Pick(options, LowestCost, None).value.cost.None? <==>
            exists k :: 0 <= k < |options| && options[k].cost.None? && UnpricedWins(options, k)
  {
    var compare := Order(LowestCost, None);
    OrderIsConsistent(LowestCost, None);
    var first := HeadIsFirstLeast(compare, options);
    assert Pick(options, LowestCost, None).value == options[first];
    assert forall j :: 0 <= j < |options| ==> Leq(compare, options[first], options[j]);
    assert forall j :: 0 <= j < first ==> !Leq(compare, options[j], options[first]);
    if options[first].cost.None? {
      assert UnpricedWins(options, first);
    }
    if k :| 0 <= k < |options| && options[k].cost.None? && UnpricedWins(options, k) {
      UnpricedTaken(options, first, k);
    }
  }

  lemma UnpricedTaken(options: seq<Match>, first: nat, k: nat)
    requires IsFirstLeast(Order(LowestCost, None), options, first)
    requires k < |options| && options[k].cost.None? && UnpricedWins(options, k)
    ensures options[first].cost.None?
  {
    var compare := Order(LowestCost, None);
    assert Leq(compare, options[first], options[k]);
    assert k < first ==> !Leq(compare, options[k], options[first]);
  }

  /** No option is priced below the sentinel, and none in front of position k is priced at it. */
  ghost predicate UnpricedWins(options: seq<Match>, k: nat) {
    && (forall j :: 0 <= j < |options| && options[j].cost.Some? ==> options[j].cost.value >= MAX_SAFE_INTEGER)
    && (forall j :: 0 <= j < |options| && j < k ==> options[j].cost != Some(MAX_SAFE_INTEGER))
  }

  // ---------------------------------------------------------------- all candidates of a package

  /** What a candidate must look like: priced from an assignment of the package. */
  ghost predicate IsPriced(requirements: seq<nat>, matches: Matches, c: Candidate) {
    && c.requirements == requirements
    && IsAssignment(requirements, matches, c.suppliers)
    && c == Price(c.strategy, requirements, c.suppliers)
  }

  function FindSignature(candidates: seq<Candidate>, signature: multiset<(nat, nat)>): (found: Option<nat>)
    ensures match found
            case Some(i) => i < |candidates| && candidates[i].signature == signature
            case None => forall c | c in candidates :: c.signature != signature
  {
    if candidates == [] then None
    else if candidates[|candidates| - 1].signature == signature then Some(|candidates| - 1)
    else FindSignature(candidates[..|candidates| - 1], signature)
  }

  /** Adds a candidate to an insertion-ordered map by signature: a later one takes the earlier one's place. */
  function Put(candidates: seq<Candidate>, c: Candidate): seq<Candidate> {
    match FindSignature(candidates, c.signature)
    case None => candidates + [c]
    case Some(i) => candidates[i := c]
  }

  function Deduplicate(candidates: seq<Candidate>): seq<Candidate> {
    if candidates == [] then [] else Put(Deduplicate(candidates[..|candidates| - 1]), candidates[|candidates| - 1])
  }

  ghost predicate DistinctSignatures(candidates: seq<Candidate>) {
    forall i, j :: 0 <= i < j < |candidates| ==> candidates[i].signature != candidates[j].signature
  }

  ghost predicate HasSignature(candidates: seq<Candidate>, signature: multiset<(nat, nat)>) {
    exists d :: d in candidates && d.signature == signature
  }

  lemma PutFacts(candidates: seq<Candidate>, c: Candidate)
    requires DistinctSignatures(candidates)
    ensures DistinctSignatures(Put(candidates, c))
    ensures forall d | d in Put(candidates, c) :: d == c || d in candidates
    ensures forall d | d in candidates || d == c :: HasSignature(Put(candidates, c), d.signature)
  {
    var after := Put(candidates, c);
    var at := match FindSignature(candidates, c.signature) case Some(i) => i case None => |candidates|;
    assert after[at] == c && c in after;
    forall d | d in candidates ensures HasSignature(after, d.signature) {
      var k :| 0 <= k < |candidates| && candidates[k] == d;
      assert after[k] in after && after[k].signature == d.signature;
    }
  }

  lemma {:induction false} DeduplicateFacts(candidates: seq<Candidate>)
    ensures DistinctSignatures(Deduplicate(candidates))
    ensures forall c | c in Deduplicate(candidates) :: c in candidates
    ensures forall c | c in candidates :: HasSignature(Deduplicate(candidates), c.signature)
  {
    if candidates == [] {
    } else {
      var front, last := candidates[..|candidates| - 1], candidates[|candidates| - 1];
      DeduplicateFacts(front);
      PutFacts(Deduplicate(front), last);
      assert candidates == front + [last];
      forall c | c in front ensures HasSignature(Deduplicate(candidates), c.signature) {
        var d :| d in Deduplicate(front) && d.signature == c.signature;
        assert HasSignature(Put(Deduplicate(front), last), d.signature);
      }
    }
  }

  /** Suppliers of a requirement are listed once each, and requirements are listed once each. */
  ghost predicate DistinctOffers(requirements: seq<nat>, matches: Matches) {
    && (forall i, j :: 0 <= i < j < |requirements| ==> requirements[i] != requirements[j])
    && (forall r, a, b :: a in Options(matches, r) && b in Options(matches, r) && a.supplierId == b.supplierId ==> a == b)
  }

  /** Equal signatures are equal assignments, so they cost, risk and promise the same. */
  lemma SignatureDeterminesAssignment(requirements: seq<nat>, matches: Matches, a: seq<Match>, b: seq<Match>)
    requires DistinctOffers(requirements, matches)
    requires IsAssignment(requirements, matches, a) && IsAssignment(requirements, matches, b)
    ensures Signature(requirements, a) == Signature(requirements, b) <==> a == b
  {
    if Signature(requirements, a) == Signature(requirements, b) {
      var left := seq(|requirements|, i requires 0 <= i < |requirements| => (requirements[i], a[i].supplierId));
      var right := seq(|requirements|, i requires 0 <= i < |requirements| => (requirements[i], b[i].supplierId));
      assert Signature(requirements, a) == multiset(left) && Signature(requirements, b) == multiset(right);
      forall i | 0 <= i < |requirements| ensures a[i] == b[i] {
        assert left[i] in multiset(left);
        assert left[i] in multiset(right);
        var j :| 0 <= j < |requirements| && right[j] == left[i];
        assert i == j;
      }
    }
  }

  /** The suppliers found for any requirement, in order of first appearance. */
  function SupplierIdsInOrder(requirements: seq<nat>, matches: Matches): seq<nat> {
    if requirements == [] then []
    else
      AddIds(SupplierIdsInOrder(requirements[..|requirements| - 1], matches),
             Options(matches, requirements[|requirements| - 1]))
  }

  function AddIds(ids: seq<nat>, options: seq<Match>): seq<nat> {
    if options == [] then ids
    else
      var rest := AddIds(ids, options[..|options| - 1]);
      var id := options[|options| - 1].supplierId;
      if id in rest then rest else rest + [id]
  }

  lemma {:induction false} AddIdsMembers(ids: seq<nat>, options: seq<Match>)
    ensures forall id :: id in AddIds(ids, options) <==> id in ids || exists m :: m in options && m.supplierId == id
  {
    if options == [] {
    } else {
      AddIdsMembers(ids, options[..|options| - 1]);
      assert options == options[..|options| - 1] + [options[|options| - 1]];
    }
  }

  lemma {:induction false} SupplierIdsComplete(requirements: seq<nat>, matches: Matches, i: nat, m: Match)
    requires i < |requirements| && m in Options(matches, requirements[i])
    ensures m.supplierId in SupplierIdsInOrder(requirements, matches)
  {
    var front, last := requirements[..|requirements| - 1], requirements[|requirements| - 1];
    AddIdsMembers(SupplierIdsInOrder(front, matches), Options(matches, last));
    if i < |front| {
      SupplierIdsComplete(front, matches, i, m);
    }
  }

  lemma {:induction false} SupplierIdsFound(requirements: seq<nat>, matches: Matches, id: nat) returns (i: nat, m: Match)
    requires id in SupplierIdsInOrder(requirements, matches)
    ensures i < |requirements| && m in Options(matches, requirements[i]) && m.supplierId == id
  {
    var front, last := requirements[..|requirements| - 1], requirements[|requirements| - 1];
    AddIdsMembers(SupplierIdsInOrder(front, matches), Options(matches, last));
    if id in SupplierIdsInOrder(front, matches) {
      i, m := SupplierIdsFound(front, matches, id);
    } else {
      i := |requirements| - 1;
      m :| m in Options(matches, last) && m.supplierId == id;
    }
  }

  /** The candidate that takes each requirement's best option under one strategy. */
  function Following(requirements: seq<nat>, matches: Matches, strategy: Strategy): Candidate
    requires AllHaveOptions(requirements, matches)
  {
    Price(strategy, requirements, Chosen(requirements, matches, strategy, None))
  }

  function ByStrategy(requirements: seq<nat>, matches: Matches, strategies: seq<Strategy>): (drafts: seq<Candidate>)
    requires AllHaveOptions(requirements, matches)
    ensures |drafts| == |strategies|
    ensures forall i :: 0 <= i < |strategies| ==> drafts[i] == Following(requirements, matches, strategies[i])
  {
    seq(|strategies|, i requires 0 <= i < |strategies| => Following(requirements, matches, strategies[i]))
  }

  lemma ByStrategyAppends(requirements: seq<nat>, matches: Matches, strategies: seq<Strategy>, i: nat)
    requires AllHaveOptions(requirements, matches) && i < |strategies|
    ensures ByStrategy(requirements, matches, strategies[..i + 1]) ==
            ByStrategy(requirements, matches, strategies[..i]) + [Following(requirements, matches, strategies[i])]
  {
    var shorter, longer := ByStrategy(requirements, matches, strategies[..i]), ByStrategy(requirements, matches, strategies[..i + 1]);
    assert longer[i] == Following(requirements, matches, strategies[i]);
    forall k | 0 <= k < i ensures longer[k] == shorter[k] {
      assert strategies[..i + 1][k] == strategies[..i][k];
    }
    EndsWith(shorter, longer, Following(requirements, matches, strategies[i]));
  }

  /** The balanced candidate that uses one supplier wherever it is eligible. */
  function Preferring(requirements: seq<nat>, matches: Matches, id: nat): Candidate
    requires AllHaveOptions(requirements, matches)
  {
    Price(Balanced, requirements, Chosen(requirements, matches, Balanced, Some(id)))
  }

  function BySupplier(requirements: seq<nat>, matches: Matches, ids: seq<nat>): (drafts: seq<Candidate>)
    requires AllHaveOptions(requirements, matches)
    ensures |drafts| == |ids|
  {
    seq(|ids|, i requires 0 <= i < |ids| => Preferring(requirements, matches, ids[i]))
  }

  lemma BySupplierAppends(requirements: seq<nat>, matches: Matches, ids: seq<nat>, i: nat)
    requires AllHaveOptions(requirements, matches) && i < |ids|
    ensures BySupplier(requirements, matches, ids[..i + 1]) ==
            BySupplier(requirements, matches, ids[..i]) + [Preferring(requirements, matches, ids[i])]
  {
    var shorter, longer := BySupplier(requirements, matches, ids[..i]), BySupplier(requirements, matches, ids[..i + 1]);
    assert longer[i] == Preferring(requirements, matches, ids[i]);
    forall k | 0 <= k < i ensures longer[k] == shorter[k] {
      assert ids[..i + 1][k] == ids[..i][k];
    }
    EndsWith(shorter, longer, Preferring(requirements, matches, ids[i]));
  }

  lemma EndsWith<T>(shorter: seq<T>, longer: seq<T>, last: T)
    requires |longer| == |shorter| + 1 && longer[|shorter|] == last
    requires forall k :: 0 <= k < |shorter| ==> longer[k] == shorter[k]
    ensures longer == shorter + [last]
  {
  }

  /** One candidate per strategy, then one per supplier that prefers it everywhere it is eligible. */
  function Drafted(requirements: seq<nat>, matches: Matches): (drafts: seq<Candidate>)
    requires AllHaveOptions(requirements, matches)
  {
    ByStrategy(requirements, matches, STRATEGIES) + BySupplier(requirements, matches, SupplierIdsInOrder(requirements, matches))
  }

  function WithinCap(candidates: seq<Candidate>, cap: nat): seq<Candidate> {
    if candidates == [] then []
    else
      var last := candidates[|candidates| - 1];
      WithinCap(candidates[..|candidates| - 1], cap) + (if last.supplierCount <= cap then [last] else [])
  }

  method MakeFollowing(requirements: seq<nat>, matches: Matches, strategy: Strategy) returns (candidate: Candidate)
    requires AllHaveOptions(requirements, matches)
    ensures candidate == Following(requirements, matches, strategy)
  {
    var made := MakeCandidate(requirements, matches, strategy, None);
    return made.value;
  }

  method DraftByStrategy(requirements: seq<nat>, matches: Matches, strategies: seq<Strategy>) returns (drafts: seq<Candidate>)
    requires AllHaveOptions(requirements, matches)
    ensures drafts == ByStrategy(requirements, matches, strategies)
  {
    drafts := [];
    for i := 0 to |strategies|
      invariant drafts == ByStrategy(requirements, matches, strategies[..i])
    {
      ByStrategyAppends(requirements, matches, strategies, i);
      var candidate := MakeFollowing(requirements, matches, strategies[i]);
      drafts := drafts + [candidate];
    }
    assert strategies[..|strategies|] == strategies;
  }

  method MakePreferring(requirements: seq<nat>, matches: Matches, id: nat) returns (candidate: Candidate)
    requires AllHaveOptions(requirements, matches)
    ensures candidate == Preferring(requirements, matches, id)
  {
    var made := MakeCandidate(requirements, matches, Balanced, Some(id));
    return made.value;
  }

  method DraftBySupplier(requirements: seq<nat>, matches: Matches, ids: seq<nat>) returns (drafts: seq<Candidate>)
    requires AllHaveOptions(requirements, matches)
    ensures drafts == BySupplier(requirements, matches, ids)
  {
    drafts := [];
    for i := 0 to |ids|
      invariant drafts == BySupplier(requirements, matches, ids[..i])
    {
      BySupplierAppends(requirements, matches, ids, i);
      var candidate := MakePreferring(requirements, matches, ids[i]);
      drafts := drafts + [candidate];
    }
    assert ids[..|ids|] == ids;
  }

  /** The solutions of a package under a cap on the number of suppliers. */
  function Solutions(requirements: seq<nat>, matches: Matches, cap: nat): seq<Candidate>
    requires AllHaveOptions(requirements, matches)
  {
    WithinCap(Deduplicate(Drafted(requirements, matches)), cap)
  }

  method BuildCandidates(requirements: seq<nat>, matches: Matches, maximumSuppliers: Option<nat>)
    returns (solutions: seq<Candidate>)
    ensures !AllHaveOptions(requirements, matches) ==> solutions == []
    ensures AllHaveOptions(requirements, matches) ==>
              solutions == Solutions(requirements, matches, maximumSuppliers.GetOr(12))
  {
    if exists i :: 0 <= i < |requirements| && Options(matches, requirements[i]) == [] {
      return [];
    }
    var byStrategy := DraftByStrategy(requirements, matches, STRATEGIES);
    var bySupplier := DraftBySupplier(requirements, matches, SupplierIdsInOrder(requirements, matches));
    solutions := WithinCap(Deduplicate(byStrategy + bySupplier), maximumSuppliers.GetOr(DEFAULT_MAX_SUPPLIERS));
  }

  // ---------------------------------------------------------------- laws of the list

  lemma {:induction false} WithinCapMembers(candidates: seq<Candidate>, cap: nat)
    requires DistinctSignatures(candidates)
    ensures forall c :: c in WithinCap(candidates, cap) <==> c in candidates && c.supplierCount <= cap
    ensures DistinctSignatures(WithinCap(candidates, cap))
  {
    if candidates == [] {
    } else {
      var front, last := candidates[..|candidates| - 1], candidates[|candidates| - 1];
      WithinCapMembers(front, cap);
      assert candidates == front + [last];
      forall c | c in WithinCap(front, cap) ensures c.signature != last.signature {
        assert c in front;
      }
    }
  }

  lemma ChosenIsPriced(requirements: seq<nat>, matches: Matches, strategy: Strategy, preferred: Option<nat>)
    requires AllHaveOptions(requirements, matches)
    ensures IsPriced(requirements, matches, Price(strategy, requirements, Chosen(requirements, matches, strategy, preferred)))
  {
    ChosenIsAssignment(requirements, matches, strategy, preferred);
  }

  lemma StrategyDraftsArePriced(requirements: seq<nat>, matches: Matches, c: Candidate)
    requires AllHaveOptions(requirements, matches) && c in ByStrategy(requirements, matches, STRATEGIES)
    ensures IsPriced(requirements, matches, c)
  {
    var i :| 0 <= i < |STRATEGIES| && ByStrategy(requirements, matches, STRATEGIES)[i] == c;
    ChosenIsPriced(requirements, matches, STRATEGIES[i], None);
  }

  lemma SupplierDraftsArePriced(requirements: seq<nat>, matches: Matches, ids: seq<nat>, c: Candidate)
    requires AllHaveOptions(requirements, matches) && c in BySupplier(requirements, matches, ids)
    ensures IsPriced(requirements, matches, c)
  {
    var i :| 0 <= i < |ids| && BySupplier(requirements, matches, ids)[i] == c;
    ChosenIsPriced(requirements, matches, Balanced, Some(ids[i]));
  }

  lemma DraftedArePriced(requirements: seq<nat>, matches: Matches, c: Candidate)
    requires AllHaveOptions(requirements, matches) && c in Drafted(requirements, matches)
    ensures IsPriced(requirements, matches, c)
  {
    if c in ByStrategy(requirements, matches, STRATEGIES) {
      StrategyDraftsArePriced(requirements, matches, c);
    } else {
      SupplierDraftsArePriced(requirements, matches, SupplierIdsInOrder(requirements, matches), c);
    }
  }

  ghost predicate SameButStrategy(c: Candidate, d: Candidate) {
    c.(strategy := d.strategy) == d
  }

  /** Solutions are assignments that occur once each, and deduplication loses none: every drafted
      combination within the cap is listed with the same suppliers, cost, confidence and risk. Only the
      strategy it is labelled with may be another's. */
  lemma SolutionsLoseNothing(requirements: seq<nat>, matches: Matches, cap: nat)
    requires AllHaveOptions(requirements, matches) && DistinctOffers(requirements, matches)
    ensures var solutions := Solutions(requirements, matches, cap);
            && (forall c | c in solutions :: IsPriced(requirements, matches, c) && c.supplierCount <= cap)
            && (forall i, j :: 0 <= i < j < |solutions| ==> solutions[i].suppliers != solutions[j].suppliers)
            && (forall c | c in Drafted(requirements, matches) && c.supplierCount <= cap ::
                  exists d :: d in solutions && SameButStrategy(c, d))
  {
    var drafts := Drafted(requirements, matches);
    var kept := Deduplicate(drafts);
    var solutions := WithinCap(kept, cap);
    DeduplicateFacts(drafts);
    forall c | c in drafts ensures IsPriced(requirements, matches, c) {
      DraftedArePriced(requirements, matches, c);
    }
    WithinCapMembers(kept, cap);
    forall i, j | 0 <= i < j < |solutions| ensures solutions[i].suppliers != solutions[j].suppliers {
      assert solutions[i] in solutions && solutions[j] in solutions;
      assert IsPriced(requirements, matches, solutions[i]) && IsPriced(requirements, matches, solutions[j]);
    }
    forall c | c in drafts && c.supplierCount <= cap ensures exists d :: d in solutions && SameButStrategy(c, d) {
      assert HasSignature(kept, c.signature);
      var d :| d in kept && d.signature == c.signature;
      assert IsPriced(requirements, matches, c) && IsPriced(requirements, matches, d);
      SignatureDeterminesAssignment(requirements, matches, c.suppliers, d.suppliers);
      assert SameButStrategy(c, d);
    }
  }

  /** A supplier eligible for every requirement. */
  ghost predicate ServesAll(requirements: seq<nat>, matches: Matches, supplierId: nat) {
    forall i :: 0 <= i < |requirements| ==> exists m :: m in Options(matches, requirements[i]) && m.supplierId == supplierId
  }

  lemma PreferredTakesAll(requirements: seq<nat>, matches: Matches, id: nat)
    requires AllHaveOptions(requirements, matches) && ServesAll(requirements, matches, id) && requirements != []
    ensures SupplierIds(Preferring(requirements, matches, id).suppliers) == {id}
    ensures Preferring(requirements, matches, id).supplierCount == 1
  {
    var chosen := Chosen(requirements, matches, Balanced, Some(id));
    forall i | 0 <= i < |chosen| ensures chosen[i].supplierId == id {
      var m :| m in Options(matches, requirements[i]) && m.supplierId == id;
      PreferredIsPicked(Options(matches, requirements[i]), id, m);
    }
    OneIdOnly(chosen, id);
  }

  lemma PreferredIsPicked(options: seq<Match>, id: nat, m: Match)
    requires m in options && m.supplierId == id
    ensures Pick(options, Balanced, Some(id)).Some? && Pick(options, Balanced, Some(id)).value.supplierId == id
  {
    PickIsBest(options, Balanced, Some(id), m);
  }

  lemma OneIdOnly(suppliers: seq<Match>, id: nat)
    requires suppliers != [] && forall i :: 0 <= i < |suppliers| ==> suppliers[i].supplierId == id
    ensures SupplierIds(suppliers) == {id}
  {
    assert suppliers[0] in suppliers;
  }

  lemma OneSupplierServesAll(requirements: seq<nat>, matches: Matches, suppliers: seq<Match>, supplierId: nat)
    requires IsAssignment(requirements, matches, suppliers) && SupplierIds(suppliers) == {supplierId}
    ensures ServesAll(requirements, matches, supplierId)
  {
    forall i | 0 <= i < |requirements| ensures exists m :: m in Options(matches, requirements[i]) && m.supplierId == supplierId {
      assert suppliers[i] in suppliers && suppliers[i].supplierId in SupplierIds(suppliers);
      assert suppliers[i] in Options(matches, requirements[i]) && suppliers[i].supplierId == supplierId;
    }
  }

  lemma SingletonOf(s: set<nat>) returns (x: nat)
    requires |s| == 1
    ensures s == {x}
  {
    x :| x in s;
    assert |s - {x}| == 0;
  }

  lemma OneSupplierSolutionOffered(requirements: seq<nat>, matches: Matches, cap: nat, id: nat) returns (c: Candidate)
    requires AllHaveOptions(requirements, matches) && DistinctOffers(requirements, matches)
    requires requirements != [] && cap >= 1 && ServesAll(requirements, matches, id)
    ensures c in Solutions(requirements, matches, cap) && SupplierIds(c.suppliers) == {id} && c.supplierCount == 1
  {
    SolutionsLoseNothing(requirements, matches, cap);
    DraftPreferring(requirements, matches, id);
    PreferredTakesAll(requirements, matches, id);
    c :| c in Solutions(requirements, matches, cap) && SameButStrategy(Preferring(requirements, matches, id), c);
  }

  lemma OneSupplierSolutionServes(requirements: seq<nat>, matches: Matches, cap: nat, c: Candidate) returns (id: nat)
    requires AllHaveOptions(requirements, matches) && DistinctOffers(requirements, matches)
    requires c in Solutions(requirements, matches, cap) && c.supplierCount == 1
    ensures ServesAll(requirements, matches, id)
  {
    SolutionsLoseNothing(requirements, matches, cap);
    assert IsPriced(requirements, matches, c);
    id := SingletonOf(SupplierIds(c.suppliers));
    OneSupplierServesAll(requirements, matches, c.suppliers, id);
  }

  ghost predicate OffersOneSupplier(solutions: seq<Candidate>) {
    exists c :: c in solutions && c.supplierCount == 1
  }

  /** The list offers a one-supplier solution exactly when some supplier is eligible for every requirement and
      the cap allows one. */
  lemma OneSupplierSolutionExactly(requirements: seq<nat>, matches: Matches, cap: nat)
    requires AllHaveOptions(requirements, matches) && DistinctOffers(requirements, matches) && requirements != []
    ensures OffersOneSupplier(Solutions(requirements, matches, cap)) <==>
            cap >= 1 && exists id :: ServesAll(requirements, matches, id)
  {
    if cap >= 1 {
      if id :| ServesAll(requirements, matches, id) {
        var c := OneSupplierSolutionOffered(requirements, matches, cap, id);
      }
    }
    if OffersOneSupplier(Solutions(requirements, matches, cap)) {
      var c :| c in Solutions(requirements, matches, cap) && c.supplierCount == 1;
      DeduplicateFacts(Drafted(requirements, matches));
      WithinCapMembers(Deduplicate(Drafted(requirements, matches)), cap);
      var id := OneSupplierSolutionServes(requirements, matches, cap, c);
    }
  }

  // ---------------------------------------------------------------- when the fewest suppliers are used

  /** A group of suppliers that between them have an option for every requirement. */
  ghost predicate Serves(requirements: seq<nat>, matches: Matches, ids: set<nat>) {
    forall i :: 0 <= i < |requirements| ==> HasOptionFrom(Options(matches, requirements[i]), ids)
  }

  ghost predicate HasOptionFrom(options: seq<Match>, ids: set<nat>) {
    exists m :: m in options && m.supplierId in ids
  }

  /** The first option with the highest own coverage. */
  function Widest(options: seq<Match>): (k: nat)
    requires options != []
    ensures k < |options|
    ensures forall j :: 0 <= j < |options| ==> options[j].ownCoverage <= options[k].ownCoverage
    ensures forall j :: 0 <= j < k ==> options[j].ownCoverage < options[k].ownCoverage
  {
    if |options| == 1 then 0
    else
      var k := Widest(options[..|options| - 1]);
      assert forall j :: 0 <= j < |options| - 1 ==> options[j] == options[..|options| - 1][j];
      if options[|options| - 1].ownCoverage > options[k].ownCoverage then |options| - 1 else k
  }

  lemma FewestTakesWidest(options: seq<Match>)
    requires options != []
    ensures Pick(options, FewestSuppliers, None) == Some(options[Widest(options)])
  {
    var compare, widest := Order(FewestSuppliers, None), Widest(options);
    OrderIsConsistent(FewestSuppliers, None);
    var first := HeadIsFirstLeast(compare, options);
    assert Leq(compare, options[first], options[widest]);
    assert forall j :: 0 <= j < first ==> !Leq(compare, options[j], options[first]);
    assert first == widest;
  }

  /** The suppliers of each requirement's first option with the highest own coverage. */
  function WidestSuppliers(requirements: seq<nat>, matches: Matches): set<nat>
    requires AllHaveOptions(requirements, matches)
  {
    set i | 0 <= i < |requirements| :: WidestAt(requirements, matches, i)
  }

  function WidestAt(requirements: seq<nat>, matches: Matches, i: nat): nat
    requires AllHaveOptions(requirements, matches) && i < |requirements|
  {
    Options(matches, requirements[i])[Widest(Options(matches, requirements[i]))].supplierId
  }

  /** These are the suppliers that strategy uses. */
  lemma FewestUsesWidest(requirements: seq<nat>, matches: Matches)
    requires AllHaveOptions(requirements, matches)
    ensures SupplierIds(Fewest(requirements, matches)) == WidestSuppliers(requirements, matches)
  {
    var chosen := Fewest(requirements, matches);
    forall i | 0 <= i < |requirements| ensures chosen[i].supplierId == WidestAt(requirements, matches, i) {
      FewestTakesWidest(Options(matches, requirements[i]));
    }
    forall id ensures id in SupplierIds(chosen) <==> id in WidestSuppliers(requirements, matches) {
      if id in SupplierIds(chosen) {
        var i :| 0 <= i < |chosen| && chosen[i].supplierId == id;
        assert WidestAt(requirements, matches, i) == id;
      }
      if i :| 0 <= i < |requirements| && WidestAt(requirements, matches, i) == id {
        assert chosen[i] in chosen;
      }
    }
  }

  function Fewest(requirements: seq<nat>, matches: Matches): seq<Match>
    requires AllHaveOptions(requirements, matches)
  {
    Chosen(requirements, matches, FewestSuppliers, None)
  }

  /** No assignment uses fewer suppliers. */
  ghost predicate UsesFewest(requirements: seq<nat>, matches: Matches, suppliers: seq<Match>) {
    forall other | IsAssignment(requirements, matches, other) :: |SupplierIds(suppliers)| <= |SupplierIds(other)|
  }

  lemma AssignmentServes(requirements: seq<nat>, matches: Matches, suppliers: seq<Match>)
    requires IsAssignment(requirements, matches, suppliers)
    ensures Serves(requirements, matches, SupplierIds(suppliers))
  {
    forall i | 0 <= i < |requirements|
      ensures HasOptionFrom(Options(matches, requirements[i]), SupplierIds(suppliers))
    {
      assert suppliers[i] in suppliers && suppliers[i] in Options(matches, requirements[i]);
      assert suppliers[i].supplierId in SupplierIds(suppliers);
    }
  }

  /** A group that serves the package can be turned into an assignment within the group. */
  lemma {:induction false} GroupAssigns(requirements: seq<nat>, matches: Matches, ids: set<nat>) returns (suppliers: seq<Match>)
    requires Serves(requirements, matches, ids)
    ensures IsAssignment(requirements, matches, suppliers) && SupplierIds(suppliers) <= ids
  {
    if requirements == [] {
      suppliers := [];
    } else {
      var front, last := requirements[..|requirements| - 1], requirements[|requirements| - 1];
      assert forall i :: 0 <= i < |front| ==> front[i] == requirements[i];
      var rest := GroupAssigns(front, matches, ids);
      assert HasOptionFrom(Options(matches, last), ids);
      var m :| m in Options(matches, last) && m.supplierId in ids;
      suppliers := rest + [m];
      assert forall s | s in suppliers :: s in rest || s == m;
    }
  }

  lemma SmallerSet(smaller: set<nat>, larger: set<nat>)
    requires smaller <= larger
    ensures |smaller| <= |larger|
  {
    if larger != {} {
      var x :| x in larger;
      SmallerSet(smaller - {x}, larger - {x});
    }
  }

  lemma FewestAgainstGroups(requirements: seq<nat>, matches: Matches)
    requires AllHaveOptions(requirements, matches)
    ensures UsesFewest(requirements, matches, Fewest(requirements, matches)) <==>
            forall ids: set<nat> | Serves(requirements, matches, ids) :: |SupplierIds(Fewest(requirements, matches))| <= |ids|
  {
    var chosen := Fewest(requirements, matches);
    if UsesFewest(requirements, matches, chosen) {
      forall ids: set<nat> | Serves(requirements, matches, ids) ensures |SupplierIds(chosen)| <= |ids| {
        var other := GroupAssigns(requirements, matches, ids);
        SmallerSet(SupplierIds(other), ids);
      }
    } else {
      var other :| IsAssignment(requirements, matches, other) && |SupplierIds(other)| < |SupplierIds(chosen)|;
      AssignmentServes(requirements, matches, other);
    }
  }

  /** The FewestSuppliers candidate uses the fewest suppliers exactly when no group of suppliers that has an option
      for every requirement is smaller than that of each requirement's first option with the highest own coverage. */
  lemma FewestIsFewestExactly(requirements: seq<nat>, matches: Matches)
    requires AllHaveOptions(requirements, matches)
    ensures UsesFewest(requirements, matches, Fewest(requirements, matches)) <==>
            forall ids: set<nat> | Serves(requirements, matches, ids) :: |WidestSuppliers(requirements, matches)| <= |ids|
  {
    FewestUsesWidest(requirements, matches);
    FewestAgainstGroups(requirements, matches);
  }

  lemma SomeoneIsUsed(requirements: seq<nat>, matches: Matches, suppliers: seq<Match>)
    requires IsAssignment(requirements, matches, suppliers) && requirements != []
    ensures |SupplierIds(suppliers)| >= 1
  {
    assert suppliers[0] in suppliers;
    assert suppliers[0].supplierId in SupplierIds(suppliers);
  }

  lemma FewerThanTwo(requirements: seq<nat>, matches: Matches, chosen: seq<Match>)
    requires AllHaveOptions(requirements, matches) && requirements != [] && IsAssignment(requirements, matches, chosen)
    ensures |SupplierIds(chosen)| == 1 ==> UsesFewest(requirements, matches, chosen)
    ensures |SupplierIds(chosen)| == 2 ==>
              (UsesFewest(requirements, matches, chosen) <==> forall id :: !ServesAll(requirements, matches, id))
  {
    forall other | IsAssignment(requirements, matches, other) ensures |SupplierIds(other)| >= 1 {
      SomeoneIsUsed(requirements, matches, other);
    }
    forall other | IsAssignment(requirements, matches, other) && |SupplierIds(other)| == 1
      ensures exists id :: ServesAll(requirements, matches, id)
    {
      var id := SingletonOf(SupplierIds(other));
      OneSupplierServesAll(requirements, matches, other, id);
    }
    if id :| ServesAll(requirements, matches, id) {
      PreferredTakesAll(requirements, matches, id);
      ChosenIsAssignment(requirements, matches, Balanced, Some(id));
    }
  }

  /** In particular, when those first options come from one supplier the fewest are always used, and when they come
      from two, exactly when no single supplier is eligible for everything. */
  lemma FewestOfTwoExactly(requirements: seq<nat>, matches: Matches)
    requires AllHaveOptions(requirements, matches) && requirements != []
    ensures |WidestSuppliers(requirements, matches)| == 1 ==> UsesFewest(requirements, matches, Fewest(requirements, matches))
    ensures |WidestSuppliers(requirements, matches)| == 2 ==>
              (UsesFewest(requirements, matches, Fewest(requirements, matches)) <==>
               forall id :: !ServesAll(requirements, matches, id))
  {
    FewestUsesWidest(requirements, matches);
    ChosenIsAssignment(requirements, matches, FewestSuppliers, None);
    FewerThanTwo(requirements, matches, Fewest(requirements, matches));
  }

  /** The strategy named FewestSuppliers does not minimise the number of suppliers: where two suppliers each cover
      more of one requirement than a third covers of both, it uses the two. */
  lemma FewestSuppliersIsNotFewest(wide: Match, left: Match, right: Match, requirements: seq<nat>, matches: Matches)
    requires wide.supplierId != left.supplierId && wide.supplierId != right.supplierId && left.supplierId != right.supplierId
    requires wide.ownCoverage < left.ownCoverage && wide.ownCoverage < right.ownCoverage
    requires requirements == [10, 20] && matches == map[10 := [wide, left], 20 := [wide, right]]
    ensures AllHaveOptions(requirements, matches) && |SupplierIds(Fewest(requirements, matches))| == 2
    ensures IsAssignment(requirements, matches, [wide, wide]) && |SupplierIds([wide, wide])| == 1
    ensures !UsesFewest(requirements, matches, Fewest(requirements, matches))
  {
    assert Options(matches, 10) == [wide, left] && Options(matches, 20) == [wide, right];
    FewestTakesWidest(Options(matches, 10));
    FewestTakesWidest(Options(matches, 20));
    var chosen := Fewest(requirements, matches);
    assert chosen[0] == left && chosen[1] == right;
    assert chosen == [left, right];
    assert SupplierIds(chosen) == {left.supplierId, right.supplierId};
    OneIdOnly([wide, wide], wide.supplierId);
  }

  lemma DraftPreferring(requirements: seq<nat>, matches: Matches, id: nat)
    requires AllHaveOptions(requirements, matches) && ServesAll(requirements, matches, id) && requirements != []
    ensures Preferring(requirements, matches, id) in Drafted(requirements, matches)
  {
    var ids, drafts := SupplierIdsInOrder(requirements, matches), Drafted(requirements, matches);
    var m :| m in Options(matches, requirements[0]) && m.supplierId == id;
    SupplierIdsComplete(requirements, matches, 0, m);
    var k :| 0 <= k < |ids| && ids[k] == id;
    assert BySupplier(requirements, matches, ids)[k] in drafts;
  }

  // ---------------------------------------------------------------- what each strategy goes by

  /** What the option taken under a strategy is better at than any other. */
  predicate AtLeastAsGood(pick: Match, other: Match, strategy: Strategy) {
    match strategy
    case LowestCost =>
      other.cost.Some? && other.cost.value < MAX_SAFE_INTEGER ==> pick.cost.Some? && pick.cost.value <= other.cost.value
    case LowestRisk => pick.risk <= other.risk
    case HighestConfidence => pick.confidence >= other.confidence
    case PreferLocal =>
      other.distance.Some? && other.distance.value < MAX_SAFE_INTEGER ==>
        pick.distance.Some? && pick.distance.value <= other.distance.value
    case FewestSuppliers => pick.ownCoverage >= other.ownCoverage
    case Balanced => pick.confidence > other.confidence || (pick.confidence == other.confidence && pick.risk <= other.risk)
  }

  lemma StrategyMeans(options: seq<Match>, strategy: Strategy, other: Match)
    requires other in options
    ensures Pick(options, strategy, None).Some? && AtLeastAsGood(Pick(options, strategy, None).value, other, strategy)
  {
    PickIsBest(options, strategy, None, other);
  }

  /** A preferred supplier is taken, under any strategy, wherever it has an option. */
  lemma PreferredIsTaken(options: seq<Match>, strategy: Strategy, id: nat, other: Match)
    requires other in options && other.supplierId == id
    ensures Pick(options, strategy, Some(id)).Some? && Pick(options, strategy, Some(id)).value.supplierId == id
  {
    PickIsBest(options, strategy, Some(id), other);
  }

  /** What a candidate says about its suppliers. */
  lemma CandidateSays(strategy: Strategy, requirements: seq<nat>, suppliers: seq<Match>)
    requires |requirements| == |suppliers|
    ensures var c := Price(strategy, requirements, suppliers);
            && c.strategy == strategy && c.requirements == requirements && c.suppliers == suppliers
            && (forall total :: c.totalCost == Some(total) <==> Cost(suppliers, total))
            && c.confidence == Average(Confidences(suppliers)) && c.risk == Average(Risks(suppliers))
            && c.supplierCount == |set i | 0 <= i < |suppliers| :: suppliers[i].supplierId|
            && (match c.currency
                case None => forall i :: 0 <= i < |suppliers| ==> suppliers[i].currency.None?
                case Some(currency) => exists i :: 0 <= i < |suppliers| && suppliers[i].currency == Some(currency) &&
                                                   forall j :: 0 <= j < i ==> suppliers[j].currency.None?)
  {
    forall total ensures TotalCost(suppliers) == Some(total) <==> Cost(suppliers, total) {
      TotalCostExactly(suppliers, total);
    }
    assert SupplierIds(suppliers) == set i | 0 <= i < |suppliers| :: suppliers[i].supplierId;
    FirstCurrencyIsFirst(suppliers);
  }

  lemma {:induction false} FirstCurrencyIsFirst(suppliers: seq<Match>)
    ensures match FirstCurrency(suppliers)
            case None => forall i :: 0 <= i < |suppliers| ==> suppliers[i].currency.None?
            case Some(currency) => exists i :: 0 <= i < |suppliers| && suppliers[i].currency == Some(currency) &&
                                               forall j :: 0 <= j < i ==> suppliers[j].currency.None?
  {
    if suppliers == [] {
    } else if suppliers[0].currency.Some? {
      assert suppliers[0].currency == FirstCurrency(suppliers);
    } else {
      FirstCurrencyIsFirst(suppliers[1..]);
      assert forall i :: 1 <= i < |suppliers| ==> suppliers[i] == suppliers[1..][i - 1];
      if FirstCurrency(suppliers).Some? {
        var i :| 0 <= i < |suppliers[1..]| && suppliers[1..][i].currency == FirstCurrency(suppliers) &&
                 forall j :: 0 <= j < i ==> suppliers[1..][j].currency.None?;
        assert suppliers[i + 1].currency == FirstCurrency(suppliers);
        forall j | 0 <= j < i + 1 ensures suppliers[j].currency.None? {
          assert j > 0 ==> suppliers[j] == suppliers[1..][j - 1];
        }
      }
    }
  }

  lemma {:induction false} StrategyDrafts(requirements: seq<nat>, matches: Matches, c: Candidate)
    requires AllHaveOptions(requirements, matches)
    ensures c in ByStrategy(requirements, matches, STRATEGIES) <==>
            exists strategy: Strategy :: c == Following(requirements, matches, strategy)
  {
    var drafts := ByStrategy(requirements, matches, STRATEGIES);
    if k :| 0 <= k < |drafts| && drafts[k] == c {
      assert c == Following(requirements, matches, STRATEGIES[k]);
    }
    if strategy: Strategy :| c == Following(requirements, matches, strategy) {
      var k := StrategyListed(strategy);
      assert drafts[k] == c;
    }
  }

  ghost predicate PrefersOneFound(requirements: seq<nat>, matches: Matches, c: Candidate)
    requires AllHaveOptions(requirements, matches)
  {
    exists i, m :: 0 <= i < |requirements| && m in Options(matches, requirements[i]) &&
                   c == Preferring(requirements, matches, m.supplierId)
  }

  lemma {:induction false} SupplierDrafts(requirements: seq<nat>, matches: Matches, ids: seq<nat>, c: Candidate)
    requires AllHaveOptions(requirements, matches) && ids == SupplierIdsInOrder(requirements, matches)
    ensures c in BySupplier(requirements, matches, ids) <==> PrefersOneFound(requirements, matches, c)
  {
    var drafts := BySupplier(requirements, matches, ids);
    if k :| 0 <= k < |drafts| && drafts[k] == c {
      var i, m := SupplierIdsFound(requirements, matches, ids[k]);
      assert c == Preferring(requirements, matches, m.supplierId);
    }
    if i, m :| 0 <= i < |requirements| && m in Options(matches, requirements[i]) && c == Preferring(requirements, matches, m.supplierId) {
      SupplierIdsComplete(requirements, matches, i, m);
      var k :| 0 <= k < |ids| && ids[k] == m.supplierId;
      assert drafts[k] == c;
    }
  }

  /** What is drafted: the best choice under each of the six strategies, and for each supplier found anywhere the
      balanced choice that prefers it; nothing else. */
  lemma {:induction false} DraftedExactly(requirements: seq<nat>, matches: Matches, c: Candidate)
    requires AllHaveOptions(requirements, matches)
    ensures c in Drafted(requirements, matches) <==>
            || (exists strategy: Strategy :: c == Following(requirements, matches, strategy))
            || PrefersOneFound(requirements, matches, c)
  {
    StrategyDrafts(requirements, matches, c);
    SupplierDrafts(requirements, matches, SupplierIdsInOrder(requirements, matches), c);
  }

  lemma StrategyListed(strategy: Strategy) returns (k: nat)
    ensures k < |STRATEGIES| && STRATEGIES[k] == strategy
  {
    k := match strategy
      case LowestCost => 0
      case LowestRisk => 1
      case FewestSuppliers => 2
      case HighestConfidence => 3
      case PreferLocal => 4
      case Balanced => 5;
  }

  /** Every solution was drafted and keeps to the cap. */
  lemma SolutionsAreDrafted(requirements: seq<nat>, matches: Matches, cap: nat, c: Candidate)
    requires AllHaveOptions(requirements, matches) && c in Solutions(requirements, matches, cap)
    ensures c in Drafted(requirements, matches) && c.supplierCount <= cap
  {
    DeduplicateFacts(Drafted(requirements, matches));
    WithinCapMembers(Deduplicate(Drafted(requirements, matches)), cap);
  }
}
