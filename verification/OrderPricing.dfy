/** Line and order money, computed once by the purchase orders and once by the drafts that become them. */
module OrderPricing {
  import opened Collections
  import opened Rounding

  /** The money columns of one line. */
  datatype Money = Money(subtotal: real, discount: real, tax: real, total: real)

  datatype Totals = Totals(subtotal: real, discount: real, tax: real, total: real)

  function Times(a: real, b: real): real { a * b }

  function Percent(amount: real, rate: real): real { Times(amount, rate) / 100.0 }

  function PriceLine(quantity: real, unitPrice: real, discountRate: real, taxRate: real): Money {
    var subtotal := Round2(Times(quantity, unitPrice));
    var discount := Round2(Percent(subtotal, discountRate));
    var taxable := Round2(subtotal - discount);
    var tax := Round2(Percent(taxable, taxRate));
    Money(subtotal, discount, tax, Round2(taxable + tax))
  }

  function SumSubtotals(lines: seq<Money>): real {
    if lines == [] then 0.0 else SumSubtotals(lines[..|lines| - 1]) + lines[|lines| - 1].subtotal
  }

  function SumDiscounts(lines: seq<Money>): real {
    if lines == [] then 0.0 else SumDiscounts(lines[..|lines| - 1]) + lines[|lines| - 1].discount
  }

  function SumTaxes(lines: seq<Money>): real {
    if lines == [] then 0.0 else SumTaxes(lines[..|lines| - 1]) + lines[|lines| - 1].tax
  }

  function SumTotals(lines: seq<Money>): real {
    if lines == [] then 0.0 else SumTotals(lines[..|lines| - 1]) + lines[|lines| - 1].total
  }

  function OrderTotals(lines: seq<Money>): Totals {
    Totals(Round2(SumSubtotals(lines)), Round2(SumDiscounts(lines)), Round2(SumTaxes(lines)), Round2(SumTotals(lines)))
  }

  function GrandTotal(lines: seq<Money>, deliveryFee: real): real {
    Round2(OrderTotals(lines).total + deliveryFee)
  }

  // ---------------------------------------------------------------- the totals add up

  /** Money that adds up to the cent: what every priced line is. */
  predicate AddsUp(m: Money) {
    && InCents(m.subtotal) && InCents(m.discount) && InCents(m.tax) && InCents(m.total)
    && m.total == m.subtotal - m.discount + m.tax
  }

  /** The same money from the unrounded amounts at each stage. */
  function Assemble(gross: real, rawDiscount: real, rawTax: real): Money {
    Money(Round2(gross), Round2(rawDiscount), Round2(rawTax), Round2(Round2(Round2(gross) - Round2(rawDiscount)) + Round2(rawTax)))
  }

  lemma AssembledAddsUp(gross: real, rawDiscount: real, rawTax: real)
    ensures var m := Assemble(gross, rawDiscount, rawTax);
            AddsUp(m) && Round2(m.subtotal - m.discount) == m.subtotal - m.discount
  {
    var subtotal, discount, tax := Round2(gross), Round2(rawDiscount), Round2(rawTax);
    RoundingIsNear(gross);
    RoundingIsNear(rawDiscount);
    RoundingIsNear(rawTax);
    CentsAdd(subtotal, discount);
    CentsStay(subtotal - discount);
    CentsAdd(subtotal - discount, tax);
    CentsStay(subtotal - discount + tax);
  }

  lemma PricedLineAddsUp(quantity: real, unitPrice: real, discountRate: real, taxRate: real)
    ensures AddsUp(PriceLine(quantity, unitPrice, discountRate, taxRate))
    ensures var m := PriceLine(quantity, unitPrice, discountRate, taxRate);
            m.tax == Round2(Percent(m.subtotal - m.discount, taxRate))
  {
    var gross := Times(quantity, unitPrice);
    var rawDiscount := Percent(Round2(gross), discountRate);
    AssembledAddsUp(gross, rawDiscount, Percent(Round2(Round2(gross) - Round2(rawDiscount)), taxRate));
  }

  /** What the price of a line is, without saying how it is computed: the subtotal is the rounded product, the
      discount the rounded share of the subtotal, the tax the rounded share of what the discount leaves, and the
      amounts add up. Nothing else is. */
  lemma PricedExactly(quantity: real, unitPrice: real, discountRate: real, taxRate: real, m: Money)
    ensures m == PriceLine(quantity, unitPrice, discountRate, taxRate) <==>
            && AddsUp(m)
            && RoundedTo(quantity * unitPrice, m.subtotal)
            && RoundedTo(Percent(m.subtotal, discountRate), m.discount)
            && RoundedTo(Percent(m.subtotal - m.discount, taxRate), m.tax)
    ensures Percent(m.subtotal, discountRate) == m.subtotal * discountRate / 100.0
  {
    var priced := PriceLine(quantity, unitPrice, discountRate, taxRate);
    PricedLineAddsUp(quantity, unitPrice, discountRate, taxRate);
    RoundedExactly(Times(quantity, unitPrice), m.subtotal);
    RoundedExactly(Percent(m.subtotal, discountRate), m.discount);
    RoundedExactly(Percent(m.subtotal - m.discount, taxRate), m.tax);
  }

  /** One more line adds each of its amounts to the sum of that amount. */
  lemma SumsGrow(lines: seq<Money>, m: Money)
    ensures SumSubtotals(lines + [m]) == SumSubtotals(lines) + m.subtotal
    ensures SumDiscounts(lines + [m]) == SumDiscounts(lines) + m.discount
    ensures SumTaxes(lines + [m]) == SumTaxes(lines) + m.tax
    ensures SumTotals(lines + [m]) == SumTotals(lines) + m.total
    ensures SumSubtotals([]) == SumDiscounts([]) == SumTaxes([]) == SumTotals([]) == 0.0
  {
    assert (lines + [m])[..|lines|] == lines;
  }

  /** The totals of priced lines are those sums: rounding them again does nothing. */
  lemma TotalsAreSums(lines: seq<Money>)
    requires forall i :: 0 <= i < |lines| ==> AddsUp(lines[i])
    ensures OrderTotals(lines) == Totals(SumSubtotals(lines), SumDiscounts(lines), SumTaxes(lines), SumTotals(lines))
  {
    SumsAddUp(lines);
    CentsStay(SumSubtotals(lines));
    CentsStay(SumDiscounts(lines));
    CentsStay(SumTaxes(lines));
    CentsStay(SumTotals(lines));
  }

  lemma {:induction false} SumsAddUp(lines: seq<Money>)
    requires forall i :: 0 <= i < |lines| ==> AddsUp(lines[i])
    ensures InCents(SumSubtotals(lines)) && InCents(SumDiscounts(lines)) && InCents(SumTaxes(lines)) && InCents(SumTotals(lines))
    ensures SumTotals(lines) == SumSubtotals(lines) - SumDiscounts(lines) + SumTaxes(lines)
  {
    if lines == [] {
    } else {
      var front, last := lines[..|lines| - 1], lines[|lines| - 1];
      SumsAddUp(front);
      CentsAdd(SumSubtotals(front), last.subtotal);
      CentsAdd(SumDiscounts(front), last.discount);
      CentsAdd(SumTaxes(front), last.tax);
      CentsAdd(SumTotals(front), last.total);
    }
  }

  /** The stored total is subtotal minus discount plus tax plus delivery fee, up to the last rounding, and
      exactly when the fee is in whole cents. */
  lemma OrderAddsUp(lines: seq<Money>, deliveryFee: real)
    requires forall i :: 0 <= i < |lines| ==> AddsUp(lines[i])
    ensures var t := OrderTotals(lines);
            && GrandTotal(lines, deliveryFee) == Round2(t.subtotal - t.discount + t.tax + deliveryFee)
            && (InCents(deliveryFee) <==> GrandTotal(lines, deliveryFee) == t.subtotal - t.discount + t.tax + deliveryFee)
  {
    SumsAddUp(lines);
    TotalsAreSums(lines);
    RoundedSumExactly(OrderTotals(lines).total, deliveryFee);
  }

  /** Adding to whole cents needs no rounding exactly when what is added is whole cents. */
  lemma RoundedSumExactly(cents: real, x: real)
    requires InCents(cents)
    ensures Round2(cents + x) == cents + x <==> InCents(x)
  {
    RoundingIsNear(cents + x);
    if InCents(x) {
      CentsAdd(cents, x);
      CentsStay(cents + x);
    }
    if Round2(cents + x) == cents + x {
      CentsAdd(cents + x, cents);
    }
  }

  // ---------------------------------------------------------------- how far rounding drifts

  function ExactTotal(quantity: real, unitPrice: real, discountRate: real, taxRate: real): real {
    Times(Times(Times(quantity, unitPrice), 1.0 - discountRate / 100.0), 1.0 + taxRate / 100.0)
  }

  function Abs(x: real): real { if x < 0.0 then -x else x }

  lemma ScaledError(error: real, bound: real, factor: real, limit: real)
    requires -bound <= error <= bound && 0.0 <= factor <= limit
    ensures -bound * limit <= error * factor <= bound * limit
  {
    assert (bound - error) * factor >= 0.0 && (bound + error) * factor >= 0.0;
    assert bound * (limit - factor) >= 0.0;
  }

  /** What each stage of a line adds to the drift, as plain linear facts. */
  lemma StagesDrift(gross: real, keep: real, grow: real, subtotal: real, discount: real, tax: real)
    requires -0.005 <= subtotal - gross <= 0.005 && 0.0 <= keep <= 1.0 && 1.0 <= grow <= 2.0
    requires -0.005 <= discount - (subtotal - Times(subtotal, keep)) <= 0.005
    requires -0.005 <= tax - (Times(subtotal - discount, grow) - (subtotal - discount)) <= 0.005
    ensures Abs(subtotal - discount + tax - Times(Times(gross, keep), grow)) <= 0.025
  {
    ScaledError(subtotal - gross, 0.005, keep, 1.0);
    assert (subtotal - gross) * keep == Times(subtotal, keep) - Times(gross, keep);
    var baseError := subtotal - discount - Times(gross, keep);
    ScaledError(baseError, 0.01, grow, 2.0);
    assert baseError * grow == Times(subtotal - discount, grow) - Times(Times(gross, keep), grow);
  }

  /** With both rates between 0 and 100 percent, four roundings move a line by at most two and a half cents. */
  lemma LineDrift(quantity: real, unitPrice: real, discountRate: real, taxRate: real)
    requires 0.0 <= discountRate <= 100.0 && 0.0 <= taxRate <= 100.0
    ensures Abs(PriceLine(quantity, unitPrice, discountRate, taxRate).total -
                ExactTotal(quantity, unitPrice, discountRate, taxRate)) <= 0.025
  {
    var gross := Times(quantity, unitPrice);
    var keep, grow := 1.0 - discountRate / 100.0, 1.0 + taxRate / 100.0;
    var m := PriceLine(quantity, unitPrice, discountRate, taxRate);
    PricedLineAddsUp(quantity, unitPrice, discountRate, taxRate);
    RoundingIsNear(gross);
    RoundingIsNear(Percent(m.subtotal, discountRate));
    RoundingIsNear(Percent(m.subtotal - m.discount, taxRate));
    PercentIsComplement(m.subtotal, discountRate);
    PercentIsGrowth(m.subtotal - m.discount, taxRate);
    StagesDrift(gross, keep, grow, m.subtotal, m.discount, m.tax);
  }

  lemma PercentIsComplement(amount: real, rate: real)
    ensures Percent(amount, rate) == amount - Times(amount, 1.0 - rate / 100.0)
  {
  }

  lemma PercentIsGrowth(amount: real, rate: real)
    ensures Percent(amount, rate) == Times(amount, 1.0 + rate / 100.0) - amount
  {
  }

  datatype LineTerms = LineTerms(quantity: real, unitPrice: real, discountRate: real, taxRate: real)

  function Priced(terms: seq<LineTerms>): (lines: seq<Money>)
    ensures |lines| == |terms|
    ensures forall i :: 0 <= i < |terms| ==>
              lines[i] == PriceLine(terms[i].quantity, terms[i].unitPrice, terms[i].discountRate, terms[i].taxRate)
  {
    seq(|terms|, i requires 0 <= i < |terms| =>
      PriceLine(terms[i].quantity, terms[i].unitPrice, terms[i].discountRate, terms[i].taxRate))
  }

  function ExactSum(terms: seq<LineTerms>): real {
    if terms == [] then 0.0
    else
      var last := terms[|terms| - 1];
      ExactSum(terms[..|terms| - 1]) + ExactTotal(last.quantity, last.unitPrice, last.discountRate, last.taxRate)
  }

  lemma {:induction false} OrderDrift(terms: seq<LineTerms>)
    requires forall i :: 0 <= i < |terms| ==> 0.0 <= terms[i].discountRate <= 100.0 && 0.0 <= terms[i].taxRate <= 100.0
    ensures Abs(SumTotals(Priced(terms)) - ExactSum(terms)) <= 0.025 * |terms| as real
  {
    if terms == [] {
    } else {
      var front, last := terms[..|terms| - 1], terms[|terms| - 1];
      OrderDrift(front);
      LineDrift(last.quantity, last.unitPrice, last.discountRate, last.taxRate);
      assert Priced(terms)[..|terms| - 1] == Priced(front);
    }
  }

  /** Nothing stops a discount above 100 percent. A line total is then not negative exactly while the
      discount exceeds the subtotal by less than half a cent. */
  lemma LineNotNegativeExactly(quantity: real, unitPrice: real, discountRate: real, taxRate: real)
    requires taxRate >= 0.0
    ensures var m := PriceLine(quantity, unitPrice, discountRate, taxRate);
            m.total >= 0.0 <==> Percent(m.subtotal, discountRate) - m.subtotal < 0.005
  {
    var m := PriceLine(quantity, unitPrice, discountRate, taxRate);
    PricedLineAddsUp(quantity, unitPrice, discountRate, taxRate);
    RoundingIsNear(Times(quantity, unitPrice));
    RoundedAtMostExactly(Percent(m.subtotal, discountRate), m.subtotal);
    TaxKeepsSign(m.subtotal - m.discount, taxRate);
  }

  lemma TaxKeepsSign(taxable: real, taxRate: real)
    requires taxRate >= 0.0
    ensures taxable >= 0.0 ==> Round2(Percent(taxable, taxRate)) >= 0.0
    ensures taxable < 0.0 ==> Round2(Percent(taxable, taxRate)) <= 0.0
  {
    PercentSign(taxable, taxRate);
    assert Round2(0.0) == 0.0;
    if taxable >= 0.0 {
      RoundingIsMonotone(0.0, Percent(taxable, taxRate));
    } else {
      RoundingIsMonotone(Percent(taxable, taxRate), 0.0);
    }
  }

  lemma PercentSign(amount: real, rate: real)
    requires rate >= 0.0
    ensures amount >= 0.0 ==> Percent(amount, rate) >= 0.0
    ensures amount < 0.0 ==> Percent(amount, rate) <= 0.0
  {
  }

  /** In particular a line with a discount of at most 100 percent is never negative. */
  lemma OrdinaryLineNotNegative(quantity: real, unitPrice: real, discountRate: real, taxRate: real)
    requires quantity >= 0.0 && unitPrice >= 0.0 && 0.0 <= discountRate <= 100.0 && taxRate >= 0.0
    ensures PriceLine(quantity, unitPrice, discountRate, taxRate).total >= 0.0
  {
    var m := PriceLine(quantity, unitPrice, discountRate, taxRate);
    LineNotNegativeExactly(quantity, unitPrice, discountRate, taxRate);
    GrossNotNegative(quantity, unitPrice);
    RoundingIsMonotone(0.0, Times(quantity, unitPrice));
    assert Round2(0.0) == 0.0;
    PartIsAtMostWhole(m.subtotal, discountRate);
  }

  lemma GrossNotNegative(quantity: real, unitPrice: real)
    requires quantity >= 0.0 && unitPrice >= 0.0
    ensures Times(quantity, unitPrice) >= 0.0
  {
  }

  lemma PartIsAtMostWhole(amount: real, rate: real)
    requires amount >= 0.0 && rate <= 100.0
    ensures Percent(amount, rate) <= amount
  {
    assert amount * (100.0 - rate) >= 0.0;
  }

  lemma RoundedAtMostExactly(x: real, cents: real)
    requires InCents(cents)
    ensures Round2(x) <= cents <==> x < cents + 0.005
  {
    var whole := (cents * 100.0).Floor;
    assert cents * 100.0 == whole as real;
    assert Round2(x) <= cents <==> RoundHalfUp(x * 100.0) <= whole;
  }

  /** A discount of 200 percent is accepted and pays the buyer. */
  lemma ExcessiveDiscountGoesNegative()
    ensures PriceLine(1.0, 1.0, 200.0, 0.0).total < 0.0
  {
    LineNotNegativeExactly(1.0, 1.0, 200.0, 0.0);
    assert Times(1.0, 1.0) == 1.0;
    CentsStay(1.0);
    assert Percent(1.0, 200.0) == 2.0;
  }

  // ---------------------------------------------------------------- drafts

  datatype DraftLine = DraftLine(
    supplierProductId: Option<nat>, quantity: real, unitPrice: real, discountPercent: real, vatPercent: real, money: Money)

  datatype DraftSummary = DraftSummary(subtotal: real, tax: real, discount: real, deliveryFee: real, total: real)

  datatype DraftPayload = DraftPayload(lines: seq<DraftLine>, deliveryFee: real, summary: DraftSummary)

  /** One reviewed line: the draft's own arithmetic. */
  function CreateDraftLine(
    supplierProductId: Option<nat>, quantity: real, unitPrice: real, discountPercent: Option<real>, vatPercent: Option<real>): DraftLine
  {
    var subtotal := Round2(Times(quantity, unitPrice));
    var discount := Round2(Percent(subtotal, discountPercent.GetOr(0.0)));
    var taxable := Round2(subtotal - discount);
    var tax := Round2(Percent(taxable, vatPercent.GetOr(0.0)));
    DraftLine(supplierProductId, quantity, unitPrice, discountPercent.GetOr(0.0), vatPercent.GetOr(0.0),
              Money(subtotal, discount, tax, Round2(taxable + tax)))
  }

  function MoneyOf(lines: seq<DraftLine>): (money: seq<Money>)
    ensures |money| == |lines| && forall i :: 0 <= i < |lines| ==> money[i] == lines[i].money
  {
    Map((line: DraftLine) => line.money, lines)
  }

  function Summarise(lines: seq<DraftLine>, deliveryFee: real): DraftSummary {
    var money := MoneyOf(lines);
    DraftSummary(Round2(SumSubtotals(money)), Round2(SumTaxes(money)), Round2(SumDiscounts(money)), deliveryFee,
                 Round2(SumTotals(money) + deliveryFee))
  }

  /** A payload as both extraction and review build it. */
  ghost predicate WellBuilt(p: DraftPayload) {
    && (forall i :: 0 <= i < |p.lines| ==> BuiltLine(p.lines[i]))
    && p.summary == Summarise(p.lines, p.deliveryFee)
  }

  datatype LineRequest = LineRequest(
    supplierProductId: nat, quantity: real, unitCost: real, vatPercent: Option<real>, discountPercent: Option<real>)

  /** What a commit asks the purchase orders to create; a line without a product names none. */
  function CreateRequest(line: DraftLine): Option<LineRequest> {
    if line.supplierProductId.None? then None
    else Some(LineRequest(line.supplierProductId.value, line.quantity, line.unitPrice, Some(line.vatPercent), Some(line.discountPercent)))
  }

  /** Rates of an ordered line: the request's, else the product's, else none. */
  function RequestMoney(request: LineRequest, productVat: Option<real>): Money {
    var taxRate := if request.vatPercent.Some? then request.vatPercent.value else productVat.GetOr(0.0);
    PriceLine(request.quantity, request.unitCost, request.discountPercent.GetOr(0.0), taxRate)
  }

  predicate BuiltLine(line: DraftLine) {
    line == CreateDraftLine(line.supplierProductId, line.quantity, line.unitPrice, Some(line.discountPercent), Some(line.vatPercent))
  }

  lemma DraftLineIsPriced(line: DraftLine)
    requires BuiltLine(line)
    ensures line.money == PriceLine(line.quantity, line.unitPrice, line.discountPercent, line.vatPercent)
    ensures AddsUp(line.money)
  {
    PricedLineAddsUp(line.quantity, line.unitPrice, line.discountPercent, line.vatPercent);
  }

  /** A reviewed line is priced as an order line would be, a rate left out being none. */
  lemma DraftLineIsPricedSo(
    supplierProductId: Option<nat>, quantity: real, unitPrice: real, discountPercent: Option<real>, vatPercent: Option<real>)
    ensures CreateDraftLine(supplierProductId, quantity, unitPrice, discountPercent, vatPercent).money ==
            PriceLine(quantity, unitPrice, discountPercent.GetOr(0.0), vatPercent.GetOr(0.0))
  {
  }

  /** Apart from its money it holds what was reviewed. */
  lemma DraftLineHolds(
    supplierProductId: Option<nat>, quantity: real, unitPrice: real, discountPercent: Option<real>, vatPercent: Option<real>)
    ensures var line := CreateDraftLine(supplierProductId, quantity, unitPrice, discountPercent, vatPercent);
            && line.supplierProductId == supplierProductId && line.quantity == quantity && line.unitPrice == unitPrice
            && line.discountPercent == (if discountPercent.Some? then discountPercent.value else 0.0)
            && line.vatPercent == (if vatPercent.Some? then vatPercent.value else 0.0)
  {
  }

  lemma CommittedLineEqualsDraft(line: DraftLine, productVat: Option<real>)
    requires BuiltLine(line) && CreateRequest(line).Some?
    ensures RequestMoney(CreateRequest(line).value, productVat) == line.money
  {
    DraftLineIsPriced(line);
  }

  lemma MoneyCommits(p: DraftPayload, vat: seq<Option<real>>, i: nat)
    requires WellBuilt(p) && |vat| == |p.lines| && i < |p.lines| && CreateRequest(p.lines[i]).Some?
    ensures RequestMoney(CreateRequest(p.lines[i]).value, vat[i]) == MoneyOf(p.lines)[i]
    ensures AddsUp(MoneyOf(p.lines)[i])
  {
    CommittedLineEqualsDraft(p.lines[i], vat[i]);
    DraftLineIsPriced(p.lines[i]);
  }

  lemma RoundingTheSumFirstIsHarmless(money: seq<Money>, deliveryFee: real)
    requires forall i :: 0 <= i < |money| ==> AddsUp(money[i])
    ensures GrandTotal(money, deliveryFee) == Round2(SumTotals(money) + deliveryFee)
  {
    SumsAddUp(money);
    CentsStay(SumTotals(money));
  }

  /** The lines of the order a draft is committed as. */
  function CommittedMoney(p: DraftPayload, vat: seq<Option<real>>): (money: seq<Money>)
    requires |vat| == |p.lines| && forall i :: 0 <= i < |p.lines| ==> CreateRequest(p.lines[i]).Some?
    ensures |money| == |p.lines|
  {
    seq(|p.lines|, i requires 0 <= i < |p.lines| => RequestMoney(CreateRequest(p.lines[i]).value, vat[i]))
  }

  /** A committed order carries exactly the draft's summary, whatever VAT its products have. */
  lemma CommittedOrderEqualsDraft(p: DraftPayload, vat: seq<Option<real>>)
    requires WellBuilt(p) && |vat| == |p.lines|
    requires forall i :: 0 <= i < |p.lines| ==> CreateRequest(p.lines[i]).Some?
    ensures var money := CommittedMoney(p, vat);
            var t := OrderTotals(money);
            && money == MoneyOf(p.lines)
            && t.subtotal == p.summary.subtotal && t.discount == p.summary.discount && t.tax == p.summary.tax
            && GrandTotal(money, p.deliveryFee) == p.summary.total
  {
    var money := MoneyOf(p.lines);
    forall i | 0 <= i < |p.lines| ensures CommittedMoney(p, vat)[i] == money[i] && AddsUp(money[i]) {
      MoneyCommits(p, vat, i);
    }
    assert CommittedMoney(p, vat) == money;
    RoundingTheSumFirstIsHarmless(money, p.deliveryFee);
  }
}
