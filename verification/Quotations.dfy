/** Quotations in whole cents: line pricing, totals, and what re-pricing stored lines does to them. */
module Quotations {
  import opened Collections

  datatype LineInput = LineInput(quantity: nat, unitPriceCents: nat, discountPercent: Option<int>, discountCents: Option<int>)

  datatype Line = Line(quantity: nat, unitPriceCents: nat, discountPercent: int, discountCents: int, lineTotalCents: int)

  datatype Pricing = Pricing(discountPercent: int, discountCents: int, lineTotalCents: int)

  datatype Header = Header(subtotal: int, discount: int, taxRate: int, tax: int, total: int)

  datatype Status = Draft | Sent | Accepted | Rejected | Expired | Cancelled

  datatype Quotation = Quotation(status: Status, archived: bool, items: seq<Line>, header: Header)

  datatype Outcome = Done | BadRequest

  /** A quotient rounded to the nearest whole number, halves upwards. */
  function RoundDiv(n: int, d: int): int
    requires d > 0
  {
    (2 * n + d) / (2 * d)
  }

  function Times(x: int, y: int): int { x * y }

  function Base(quantity: nat, unitPriceCents: nat): nat {
    ProductNotNegative(quantity, unitPriceCents);
    Times(quantity, unitPriceCents)
  }

  function Derived(base: nat, percent: int): int {
    RoundDiv(Times(base, percent), 100)
  }

  function PercentOf(discountCents: int, base: nat): int {
    if base > 0 then RoundDiv(100 * discountCents, base) else 0
  }

  /** The price of one line, or nothing when the line is rejected. */
  function PriceLine(item: LineInput): Option<Pricing> {
    var base := Base(item.quantity, item.unitPriceCents);
    var percent := item.discountPercent.GetOr(0);
    if percent < 0 || percent > 100 then None
    else
      var discount := if item.discountPercent.Some? then Derived(base, percent) else item.discountCents.GetOr(0);
      if discount > base then None
      else Some(Pricing(item.discountPercent.GetOr(PercentOf(discount, base)), discount, base - discount))
  }

  function Subtotal(items: seq<LineInput>): Option<int> {
    if items == [] then Some(0)
    else
      match (Subtotal(items[..|items| - 1]), PriceLine(items[|items| - 1]))
      case (Some(sum), Some(pricing)) => Some(sum + pricing.lineTotalCents)
      case _ => None
  }

  function HeaderOf(subtotal: int, discountCents: int, taxRate: int): Option<Header> {
    if taxRate > 100 || discountCents > subtotal then None
    else
      var taxable := subtotal - discountCents;
      var tax := RoundDiv(Times(taxable, taxRate), 100);
      Some(Header(subtotal, discountCents, taxRate, tax, taxable + tax))
  }

  function Totals(items: seq<LineInput>, discountCents: nat, taxRate: nat): Option<Header> {
    match Subtotal(items)
    case None => None
    case Some(subtotal) => HeaderOf(subtotal, discountCents, taxRate)
  }

  function NewLine(item: LineInput): Line {
    var pricing := PriceLine(item).GetOr(Pricing(0, 0, 0));
    Line(item.quantity, item.unitPriceCents, pricing.discountPercent, pricing.discountCents, pricing.lineTotalCents)
  }

  function NewLines(items: seq<LineInput>): (lines: seq<Line>)
    ensures |lines| == |items| && forall i :: 0 <= i < |items| ==> lines[i] == NewLine(items[i])
  {
    seq(|items|, i requires 0 <= i < |items| => NewLine(items[i]))
  }

  /** A stored line as an update without new lines prices it again: with its percentage set. */
  function Again(line: Line): LineInput {
    LineInput(line.quantity, line.unitPriceCents, Some(line.discountPercent), Some(line.discountCents))
  }

  function AgainAll(lines: seq<Line>): (items: seq<LineInput>)
    ensures |items| == |lines| && forall i :: 0 <= i < |lines| ==> items[i] == Again(lines[i])
  {
    seq(|lines|, i requires 0 <= i < |lines| => Again(lines[i]))
  }

  /** What request validation lets through; percentages are checked again by the pricing itself. */
  predicate ValidItems(items: seq<LineInput>) {
    forall i :: 0 <= i < |items| ==> items[i].discountCents.GetOr(0) >= 0
  }

  // ---------------------------------------------------------------- the operations

  function Create(items: seq<LineInput>, discountCents: nat, taxRate: nat, status: Status): Option<Quotation> {
    if status != Draft && status != Sent then None
    else match Totals(items, discountCents, taxRate)
      case None => None
      case Some(header) => Some(Quotation(status, false, NewLines(items), header))
  }

  datatype Op =
    | Update(items: Option<seq<LineInput>>, discountCents: Option<nat>, taxRate: Option<nat>)
    | SetStatus(next: Status)
    | Archive

  function UpdateStep(q: Quotation, items: Option<seq<LineInput>>, discountCents: Option<nat>, taxRate: Option<nat>): (Quotation, Outcome)
    requires q.header.discount >= 0 && q.header.taxRate >= 0
  {
    if q.archived then (q, BadRequest)
    else
      var source := if items.Some? then items.value else AgainAll(q.items);
      match Totals(source, discountCents.GetOr(q.header.discount), taxRate.GetOr(q.header.taxRate))
      case None => (q, BadRequest)
      case Some(header) =>
        (q.(items := if items.Some? then NewLines(items.value) else q.items, header := header), Done)
  }

  predicate ValidOp(op: Op) {
    op.Update? && op.items.Some? ==> ValidItems(op.items.value)
  }

  function Transitions(current: Status): set<Status> {
    match current
    case Draft => {Sent, Expired, Cancelled}
    case Sent => {Accepted, Rejected, Expired, Cancelled}
    case Accepted => {Cancelled}
    case Rejected => {}
    case Expired => {}
    case Cancelled => {}
  }

  function Step(q: Quotation, op: Op): (Quotation, Outcome)
    requires q.header.discount >= 0 && q.header.taxRate >= 0
  {
    match op
    case Update(items, discountCents, taxRate) => UpdateStep(q, items, discountCents, taxRate)
    case SetStatus(next) =>
      if q.archived || (next != q.status && next !in Transitions(q.status)) then (q, BadRequest)
      else (q.(status := next), Done)
    case Archive => (q.(archived := true), Done)
  }

  // ---------------------------------------------------------------- rounding

  /** Rounding moves a quotient by at most a half: the two bounds, cleared of fractions. */
  lemma RoundDivBounds(n: int, d: int)
    requires d > 0
    ensures 2 * n - d < 2 * Times(d, RoundDiv(n, d)) <= 2 * n + d
  {
    var r := RoundDiv(n, d);
    assert 2 * n + d == (2 * d) * r + (2 * n + d) % (2 * d);
    assert (2 * d) * r == 2 * (d * r);
  }

  /** The nearest whole number to a quotient, the upper one at a half. */
  ghost predicate Nearest(n: int, d: int, r: int) {
    2 * n - d < 2 * Times(d, r) <= 2 * n + d
  }

  lemma RoundDivExactly(n: int, d: int, r: int)
    requires d > 0
    ensures r == RoundDiv(n, d) <==> Nearest(n, d, r)
  {
    RoundDivBounds(n, d);
    if r > RoundDiv(n, d) {
      ProductGrows(d, RoundDiv(n, d), r);
    } else if r < RoundDiv(n, d) {
      ProductGrows(d, r, RoundDiv(n, d));
    }
  }

  lemma RoundDivInRange(n: int, d: int, top: int)
    requires d > 0 && 0 <= n <= Times(d, top)
    ensures 0 <= RoundDiv(n, d) <= top
  {
    RoundDivBounds(n, d);
    var r := RoundDiv(n, d);
    if r < 0 {
      NegativeProduct(d, r);
    }
    if r > top {
      ProductGrows(d, top, r);
    }
  }

  lemma NegativeProduct(d: int, r: int)
    requires d > 0 && r < 0
    ensures Times(d, r) <= -d
  {
    ProductGrows(d, r, 0);
    assert Times(d, 0) == 0;
  }

  lemma ProductGrows(d: int, top: int, r: int)
    requires d > 0 && r > top
    ensures Times(d, r) >= Times(d, top) + d
  {
    assert d * (r - top - 1) >= 0;
  }

  lemma ProductNotNegative(x: int, y: int)
    requires x >= 0 && y >= 0
    ensures Times(x, y) >= 0
  {
  }

  lemma PartWithinWhole(base: int, percent: int)
    requires base >= 0 && 0 <= percent <= 100
    ensures 0 <= Times(base, percent) <= Times(100, base)
  {
    assert base * (100 - percent) >= 0;
  }

  // ---------------------------------------------------------------- one line

  function LineBase(line: Line): nat { Base(line.quantity, line.unitPriceCents) }

  /** The discount equals what its percentage gives. */
  predicate PercentExact(line: Line) {
    line.discountCents == Derived(LineBase(line), line.discountPercent)
  }

  ghost predicate LineSound(line: Line) {
    && 0 <= line.discountPercent <= 100
    && 0 <= line.discountCents <= LineBase(line)
    && line.lineTotalCents == LineBase(line) - line.discountCents
    && (PercentExact(line) || line.discountPercent == PercentOf(line.discountCents, LineBase(line)))
  }

  lemma DerivedInRange(base: nat, percent: int)
    requires 0 <= percent <= 100
    ensures 0 <= Derived(base, percent) <= base
  {
    PartWithinWhole(base, percent);
    RoundDivInRange(Times(base, percent), 100, base);
  }

  lemma PercentInRange(discountCents: int, base: nat)
    requires 0 <= discountCents <= base
    ensures 0 <= PercentOf(discountCents, base) <= 100
  {
    if base > 0 {
      assert Times(base, 100) == 100 * base;
      RoundDivInRange(100 * discountCents, base, 100);
    }
  }

  lemma NewLineSound(item: LineInput)
    requires PriceLine(item).Some? && item.discountCents.GetOr(0) >= 0
    ensures LineSound(NewLine(item))
    ensures item.discountPercent.Some? ==> PercentExact(NewLine(item))
  {
    var base := Base(item.quantity, item.unitPriceCents);
    if item.discountPercent.Some? {
      DerivedInRange(base, item.discountPercent.value);
    } else {
      PercentInRange(item.discountCents.GetOr(0), base);
    }
  }

  /** Re-pricing a stored line is never rejected, and keeps the discount between nothing and the whole base. */
  lemma RepricingNeverRejects(line: Line)
    requires LineSound(line)
    ensures PriceLine(Again(line)).Some?
    ensures PriceLine(Again(line)).value == Pricing(line.discountPercent, Derived(LineBase(line), line.discountPercent),
                                                    LineBase(line) - Derived(LineBase(line), line.discountPercent))
    ensures 0 <= Derived(LineBase(line), line.discountPercent) <= LineBase(line)
  {
    DerivedInRange(LineBase(line), line.discountPercent);
  }

  /** An independent reference for a new line's total: quantity times price, less the amount given, or less the
      percentage given up to half a cent. */
  lemma LineNearExact(item: LineInput)
    requires PriceLine(item).Some?
    ensures var base := item.quantity * item.unitPriceCents;
            var total := PriceLine(item).value.lineTotalCents;
            match item.discountPercent
            case None => total == base - item.discountCents.GetOr(0)
            case Some(percent) => -50 <= 100 * total - Times(base, 100 - percent) <= 50
  {
    if item.discountPercent.Some? {
      var base, percent := Base(item.quantity, item.unitPriceCents), item.discountPercent.value;
      RoundDivBounds(Times(base, percent), 100);
      assert Times(100, Derived(base, percent)) == 100 * Derived(base, percent);
      assert Times(base, 100 - percent) == 100 * base - Times(base, percent);
    }
  }

  /** What the price of a line is, written out: the discount is the nearest whole cent to the percentage given, or the
      amount given; it leaves the rest as the total; and the percentage kept is the one given, or the nearest to the
      amount given. A line with a percentage outside 0..100, or a discount above its base, has no price. */
  ghost predicate Prices(item: LineInput, pricing: Pricing) {
    var base := item.quantity * item.unitPriceCents;
    && pricing.discountCents <= base && pricing.lineTotalCents == base - pricing.discountCents
    && (match item.discountPercent
        case Some(percent) =>
          0 <= percent <= 100 && pricing.discountPercent == percent && Nearest(Times(base, percent), 100, pricing.discountCents)
        case None =>
          && pricing.discountCents == (if item.discountCents.Some? then item.discountCents.value else 0)
          && (if base == 0 then pricing.discountPercent == 0
              else Nearest(100 * pricing.discountCents, base, pricing.discountPercent)))
  }

  lemma PricedExactly(item: LineInput, pricing: Pricing)
    ensures PriceLine(item) == Some(pricing) <==> Prices(item, pricing)
  {
    var base := Base(item.quantity, item.unitPriceCents);
    assert base == item.quantity * item.unitPriceCents;
    if item.discountPercent.Some? {
      RoundDivExactly(Times(base, item.discountPercent.value), 100, pricing.discountCents);
    } else if base > 0 {
      RoundDivExactly(100 * pricing.discountCents, base, pricing.discountPercent);
    }
  }

  /** It keeps the line total exactly when the discount is what its percentage gives. */
  lemma RepricingExactly(line: Line)
    requires LineSound(line)
    ensures NewLine(Again(line)) == line <==> PercentExact(line)
  {
    RepricingNeverRejects(line);
  }

  /** Otherwise the discount drifts by at most half a percent of the base and half a cent. */
  lemma RepricingDrift(line: Line)
    requires LineSound(line)
    ensures var base := LineBase(line);
            -(base + 100) <= 200 * (Derived(base, line.discountPercent) - line.discountCents) <= base + 100
  {
    var base, percent := LineBase(line), line.discountPercent;
    if !PercentExact(line) {
      RoundDivBounds(Times(base, percent), 100);
      assert Times(100, Derived(base, percent)) == 100 * Derived(base, percent);
      if base == 0 {
        DerivedInRange(base, percent);
      } else {
        RoundDivBounds(100 * line.discountCents, base);
      }
    }
  }

  /** The drift is real: a cent off two hundred is one percent, which is two cents when it is priced again. */
  lemma DriftHappens()
    ensures var line := NewLine(LineInput(1, 200, None, Some(1)));
            line.discountPercent == 1 && line.discountCents == 1 && NewLine(Again(line)).discountCents == 2
  {
    assert Base(1, 200) == 200 && Times(200, 1) == 200;
  }

  // ---------------------------------------------------------------- the quotation

  function StoredTotal(lines: seq<Line>): int {
    if lines == [] then 0 else StoredTotal(lines[..|lines| - 1]) + lines[|lines| - 1].lineTotalCents
  }

  function RepricedTotal(lines: seq<Line>): int {
    if lines == [] then 0
    else
      var last := lines[|lines| - 1];
      RepricedTotal(lines[..|lines| - 1]) + (LineBase(last) - Derived(LineBase(last), last.discountPercent))
  }

  function TotalBase(lines: seq<Line>): nat {
    if lines == [] then 0 else TotalBase(lines[..|lines| - 1]) + LineBase(lines[|lines| - 1])
  }

  ghost predicate LinesSound(lines: seq<Line>) {
    forall i :: 0 <= i < |lines| ==> LineSound(lines[i])
  }

  lemma {:induction false} CreatedSubtotal(items: seq<LineInput>)
    requires Subtotal(items).Some? && ValidItems(items)
    ensures LinesSound(NewLines(items)) && Subtotal(items).value == StoredTotal(NewLines(items))
  {
    if items == [] {
    } else {
      var front, last := items[..|items| - 1], items[|items| - 1];
      CreatedSubtotal(front);
      NewLineSound(last);
      assert NewLines(items)[..|items| - 1] == NewLines(front);
      assert forall i :: 0 <= i < |front| ==> NewLines(items)[i] == NewLines(front)[i];
    }
  }

  lemma {:induction false} RepricedSubtotal(lines: seq<Line>)
    requires LinesSound(lines)
    ensures Subtotal(AgainAll(lines)) == Some(RepricedTotal(lines))
  {
    if lines == [] {
    } else {
      var front, last := lines[..|lines| - 1], lines[|lines| - 1];
      RepricedSubtotal(front);
      RepricingNeverRejects(last);
      assert AgainAll(lines)[..|lines| - 1] == AgainAll(front);
    }
  }

  ghost predicate HeaderSound(h: Header) {
    && 0 <= h.taxRate <= 100
    && 0 <= h.discount <= h.subtotal
    && h.tax == RoundDiv(Times(h.subtotal - h.discount, h.taxRate), 100)
    && 0 <= h.tax <= h.subtotal - h.discount
    && h.total == h.subtotal - h.discount + h.tax
  }

  /** The subtotal is the sum of the line totals, as stored or as priced again. */
  ghost predicate Sound(q: Quotation) {
    && LinesSound(q.items)
    && HeaderSound(q.header)
    && (q.header.subtotal == StoredTotal(q.items) || q.header.subtotal == RepricedTotal(q.items))
  }

  lemma TotalsSound(items: seq<LineInput>, discountCents: nat, taxRate: nat)
    requires Totals(items, discountCents, taxRate).Some?
    ensures HeaderSound(Totals(items, discountCents, taxRate).value)
  {
    var taxable := Subtotal(items).value - discountCents;
    PartWithinWhole(taxable, taxRate);
    RoundDivInRange(Times(taxable, taxRate), 100, taxable);
  }

  /** The total is what is taxable plus tax, up to half a cent. */
  lemma TotalNearExact(h: Header)
    requires HeaderSound(h)
    ensures -50 <= 100 * h.total - Times(h.subtotal - h.discount, 100 + h.taxRate) <= 50
  {
    var taxable := h.subtotal - h.discount;
    RoundDivBounds(Times(taxable, h.taxRate), 100);
    assert Times(100, h.tax) == 100 * h.tax;
    assert Times(taxable, 100 + h.taxRate) == 100 * taxable + Times(taxable, h.taxRate);
  }

  /** One more line adds its total, or spoils the sum if it has no price. */
  lemma SubtotalGrows(items: seq<LineInput>, item: LineInput)
    ensures Subtotal([]) == Some(0)
    ensures Subtotal(items + [item]).Some? <==> Subtotal(items).Some? && PriceLine(item).Some?
    ensures Subtotal(items + [item]).Some? ==>
              Subtotal(items + [item]).value == Subtotal(items).value + PriceLine(item).value.lineTotalCents
  {
    assert (items + [item])[..|items|] == items;
  }

  /** The header of some lines: their subtotal, the discount and rate asked for, the nearest cent of tax on what the
      discount leaves, and the total of both. */
  ghost predicate Heads(subtotal: int, discountCents: nat, taxRate: nat, h: Header) {
    && taxRate <= 100 && discountCents <= subtotal
    && h.subtotal == subtotal && h.discount == discountCents && h.taxRate == taxRate
    && Nearest(Times(subtotal - discountCents, taxRate), 100, h.tax)
    && h.total == subtotal - discountCents + h.tax
  }

  lemma TotalsExactly(items: seq<LineInput>, discountCents: nat, taxRate: nat, h: Header)
    ensures Totals(items, discountCents, taxRate) == Some(h) <==>
            Subtotal(items).Some? && Heads(Subtotal(items).value, discountCents, taxRate, h)
    ensures Totals(items, discountCents, taxRate).Some? <==>
            Subtotal(items).Some? && discountCents <= Subtotal(items).value && taxRate <= 100
  {
    if Subtotal(items).Some? {
      RoundDivExactly(Times(Subtotal(items).value - discountCents, taxRate), 100, h.tax);
    }
  }

  /** What a stored line holds of the line it was made from. */
  ghost predicate Stores(line: Line, item: LineInput) {
    && line.quantity == item.quantity && line.unitPriceCents == item.unitPriceCents
    && Prices(item, Pricing(line.discountPercent, line.discountCents, line.lineTotalCents))
  }

  ghost predicate StoresAll(lines: seq<Line>, items: seq<LineInput>) {
    |lines| == |items| && forall i :: 0 <= i < |items| ==> Stores(lines[i], items[i])
  }

  lemma {:induction false} PricedLinesStored(items: seq<LineInput>)
    requires Subtotal(items).Some?
    ensures StoresAll(NewLines(items), items)
  {
    if items == [] {
    } else {
      var front, last := items[..|items| - 1], items[|items| - 1];
      PricedLinesStored(front);
      PricedExactly(last, PriceLine(last).value);
      forall i | 0 <= i < |items| ensures Stores(NewLines(items)[i], items[i]) {
        if i < |front| {
          assert items[i] == front[i] && Stores(NewLines(front)[i], front[i]);
        }
      }
    }
  }

  /** A quotation is created as a draft or as sent, exactly when its totals exist, and holds them and its lines. */
  lemma CreatedExactly(items: seq<LineInput>, discountCents: nat, taxRate: nat, status: Status)
    ensures var created := Create(items, discountCents, taxRate, status);
            && (created.Some? <==> status in {Draft, Sent} && Totals(items, discountCents, taxRate).Some?)
            && (created.Some? ==>
                  && created.value.status == status && !created.value.archived && StoresAll(created.value.items, items)
                  && Heads(Subtotal(items).value, discountCents, taxRate, created.value.header))
  {
    if Create(items, discountCents, taxRate, status).Some? {
      PricedLinesStored(items);
      TotalsExactly(items, discountCents, taxRate, Totals(items, discountCents, taxRate).value);
    }
  }

  /** The lines an update prices: the new ones, or the stored ones with the percentage each has. */
  function Priced(q: Quotation, items: Option<seq<LineInput>>): seq<LineInput> {
    if items.Some? then items.value
    else seq(|q.items|, i requires 0 <= i < |q.items| =>
           LineInput(q.items[i].quantity, q.items[i].unitPriceCents, Some(q.items[i].discountPercent), Some(q.items[i].discountCents)))
  }

  /** An update is accepted, whatever the status, exactly when the quotation is not archived and the lines, discount and
      rate it results in have totals. It sets the header to those, and the lines only if it brings new ones. */
  lemma UpdatedExactly(q: Quotation, items: Option<seq<LineInput>>, discountCents: Option<nat>, taxRate: Option<nat>)
    requires q.header.discount >= 0 && q.header.taxRate >= 0
    ensures var source := Priced(q, items);
            var discount: nat := if discountCents.Some? then discountCents.value else q.header.discount;
            var rate: nat := if taxRate.Some? then taxRate.value else q.header.taxRate;
            var (after, outcome) := UpdateStep(q, items, discountCents, taxRate);
            && (outcome == Done <==>
                  !q.archived && Subtotal(source).Some? && discount <= Subtotal(source).value && rate <= 100)
            && (outcome == Done ==>
                  && Heads(Subtotal(source).value, discount, rate, after.header)
                  && after.status == q.status && !after.archived
                  && (if items.Some? then StoresAll(after.items, items.value) else after.items == q.items))
            && (outcome != Done ==> after == q)
  {
    var source := Priced(q, items);
    var discount: nat := if discountCents.Some? then discountCents.value else q.header.discount;
    var rate: nat := if taxRate.Some? then taxRate.value else q.header.taxRate;
    assert items.None? ==> source == AgainAll(q.items);
    TotalsExactly(source, discount, rate, UpdateStep(q, items, discountCents, taxRate).0.header);
    if items.Some? && Subtotal(source).Some? {
      PricedLinesStored(source);
    }
  }

  /** A status may be set again; otherwise a draft may be sent, a sent quotation accepted or rejected, both may expire,
      and whatever is not over may be cancelled. */
  lemma StatusSetExactly(q: Quotation, next: Status)
    requires q.header.discount >= 0 && q.header.taxRate >= 0
    ensures Step(q, SetStatus(next)) == (q.(status := next), Done) <==>
            && !q.archived
            && (|| next == q.status
                || (q.status, next) in {(Draft, Sent), (Draft, Expired), (Draft, Cancelled), (Sent, Accepted), (Sent, Rejected),
                                        (Sent, Expired), (Sent, Cancelled), (Accepted, Cancelled)})
    ensures Step(q, SetStatus(next)).1 != Done ==> Step(q, SetStatus(next)).0 == q
    ensures Step(q, Archive) == (q.(archived := true), Done)
  {
  }

  /** A new quotation's header always agrees with its own lines. */
  lemma CreatedSound(items: seq<LineInput>, discountCents: nat, taxRate: nat, status: Status)
    requires Create(items, discountCents, taxRate, status).Some? && ValidItems(items)
    ensures var q := Create(items, discountCents, taxRate, status).value;
            Sound(q) && q.header.subtotal == StoredTotal(q.items)
  {
    TotalsSound(items, discountCents, taxRate);
    CreatedSubtotal(items);
  }

  lemma StepKeepsSound(q: Quotation, op: Op)
    requires Sound(q) && ValidOp(op)
    ensures Sound(Step(q, op).0)
  {
    if op.Update? && Step(q, op).1 == Done {
      var source := if op.items.Some? then op.items.value else AgainAll(q.items);
      TotalsSound(source, op.discountCents.GetOr(q.header.discount), op.taxRate.GetOr(q.header.taxRate));
      if op.items.Some? {
        CreatedSubtotal(op.items.value);
      } else {
        RepricedSubtotal(q.items);
      }
    }
  }

  ghost function Run(q: Quotation, ops: seq<Op>): Quotation
    requires Sound(q) && forall i :: 0 <= i < |ops| ==> ValidOp(ops[i])
    decreases |ops|
  {
    if ops == [] then q
    else
      StepKeepsSound(q, ops[0]);
      Run(Step(q, ops[0]).0, ops[1..])
  }

  // ---------------------------------------------------------------- updates that touch no line

  const TITLE_ONLY := Update(None, None, None)

  /** An update that changes neither lines nor discount nor tax is accepted exactly when the stored discount
      still fits the subtotal of the lines as priced again. */
  lemma TitleUpdateAcceptedExactly(q: Quotation)
    requires Sound(q) && !q.archived
    ensures Step(q, TITLE_ONLY).1 == Done <==> q.header.discount <= RepricedTotal(q.items)
  {
    TitleUpdateIs(q);
  }

  /** It leaves the money alone exactly when the subtotal already is that of the lines as priced again. */
  lemma TitleUpdateChangesNothingExactly(q: Quotation)
    requires Sound(q) && !q.archived
    ensures Step(q, TITLE_ONLY) == (q, Done) <==> q.header.subtotal == RepricedTotal(q.items)
  {
    TitleUpdateIs(q);
    HeaderReproduces(q.header);
  }

  /** When accepted, it sets the subtotal to that of the lines as priced again. */
  lemma TitleUpdateSubtotal(q: Quotation)
    requires Sound(q) && !q.archived && Step(q, TITLE_ONLY).1 == Done
    ensures Step(q, TITLE_ONLY).0.items == q.items && Step(q, TITLE_ONLY).0.header.subtotal == RepricedTotal(q.items)
  {
    TitleUpdateIs(q);
  }

  lemma HeaderReproduces(h: Header)
    requires HeaderSound(h)
    ensures HeaderOf(h.subtotal, h.discount, h.taxRate) == Some(h)
  {
  }

  /** What such an update comes down to. */
  lemma TitleUpdateIs(q: Quotation)
    requires Sound(q) && !q.archived
    ensures Step(q, TITLE_ONLY) ==
            match HeaderOf(RepricedTotal(q.items), q.header.discount, q.header.taxRate)
            case None => (q, BadRequest)
            case Some(header) => (q.(header := header), Done)
  {
    RepricedSubtotal(q.items);
  }

  /** Lines entered by percentage are priced again without any drift. */
  lemma {:induction false} PercentLinesDoNotDrift(lines: seq<Line>)
    requires forall i :: 0 <= i < |lines| ==> LineSound(lines[i]) && PercentExact(lines[i])
    ensures RepricedTotal(lines) == StoredTotal(lines)
  {
    if lines == [] {
    } else {
      PercentLinesDoNotDrift(lines[..|lines| - 1]);
    }
  }

  lemma {:induction false} SubtotalDrift(lines: seq<Line>)
    requires LinesSound(lines)
    ensures -(TotalBase(lines) + 100 * |lines|) <= 200 * (RepricedTotal(lines) - StoredTotal(lines)) <= TotalBase(lines) + 100 * |lines|
  {
    if lines == [] {
    } else {
      SubtotalDrift(lines[..|lines| - 1]);
      RepricingDrift(lines[|lines| - 1]);
    }
  }

  /** Doing an update without lines twice is doing it once. */
  lemma UpdateIsIdempotent(q: Quotation, discountCents: Option<nat>, taxRate: Option<nat>)
    requires Sound(q) && UpdateStep(q, None, discountCents, taxRate).1 == Done
    ensures var after := UpdateStep(q, None, discountCents, taxRate).0;
            after.header.discount >= 0 && after.header.taxRate >= 0 &&
            UpdateStep(after, None, discountCents, taxRate) == (after, Done)
  {
    StepKeepsSound(q, Update(None, discountCents, taxRate));
  }

  /** Whatever is done to a quotation, its header is within the drift of its own stored lines, and agrees with
      them whenever each line's discount is what its percentage gives. */
  lemma HeaderNearLines(q: Quotation)
    requires Sound(q)
    ensures var drift := 200 * (q.header.subtotal - StoredTotal(q.items));
            -(TotalBase(q.items) + 100 * |q.items|) <= drift <= TotalBase(q.items) + 100 * |q.items|
    ensures (forall i :: 0 <= i < |q.items| ==> PercentExact(q.items[i])) ==> q.header.subtotal == StoredTotal(q.items)
  {
    SubtotalDrift(q.items);
    if forall i :: 0 <= i < |q.items| ==> PercentExact(q.items[i]) {
      PercentLinesDoNotDrift(q.items);
    }
  }

  /** One cent off three euro is zero percent: after a change of title the header no longer adds up. */
  lemma TitleUpdateCanBreakSum(item: LineInput) returns (q: Quotation)
    requires item == LineInput(1, 300, None, Some(1))
    ensures Create([item], 50, 0, Draft) == Some(q) && Sound(q)
    ensures StoredTotal(q.items) == q.header.subtotal == 299 && RepricedTotal(q.items) == 300
    ensures Step(q, TITLE_ONLY).1 == Done && Step(q, TITLE_ONLY).0.header.subtotal == RepricedTotal(q.items)
  {
    ThreeEuro(item, 1, 0, 0);
    q := OneLineCreated(item, 50, 300);
    TitleUpdateAcceptedExactly(q);
    TitleUpdateSubtotal(q);
  }

  /** Two cents off three euro is one percent, three cents: with a discount of all the rest, a change of title
      alone is rejected. */
  lemma TitleUpdateCanBeRejected(item: LineInput) returns (q: Quotation)
    requires item == LineInput(1, 300, None, Some(2))
    ensures Create([item], 298, 0, Draft) == Some(q) && Sound(q)
    ensures q.header.total == 0 && Step(q, TITLE_ONLY) == (q, BadRequest)
  {
    ThreeEuro(item, 2, 1, 3);
    q := OneLineCreated(item, 298, 297);
    TitleUpdateAcceptedExactly(q);
  }

  lemma ThreeEuro(item: LineInput, discountCents: nat, percent: int, derived: int)
    requires item == LineInput(1, 300, None, Some(discountCents))
    requires (discountCents, percent, derived) in {(1, 0, 0), (2, 1, 3)}
    ensures && PriceLine(item) == Some(Pricing(percent, discountCents, 300 - discountCents))
            && LineBase(NewLine(item)) == 300 && Derived(300, percent) == derived
  {
    assert Base(1, 300) == 300;
    assert Times(300, percent) == 300 * percent;
  }

  lemma OneLineCreated(item: LineInput, discountCents: nat, repriced: int) returns (q: Quotation)
    requires PriceLine(item).Some? && item.discountCents.GetOr(0) >= 0 && discountCents <= PriceLine(item).value.lineTotalCents
    requires repriced == LineBase(NewLine(item)) - Derived(LineBase(NewLine(item)), NewLine(item).discountPercent)
    ensures Create([item], discountCents, 0, Draft) == Some(q) && Sound(q)
    ensures StoredTotal(q.items) == q.header.subtotal == PriceLine(item).value.lineTotalCents
    ensures q.header.total == q.header.subtotal - discountCents
    ensures RepricedTotal(q.items) == repriced && q.header.discount == discountCents && q.status == Draft && !q.archived
  {
    OneLine(item, discountCents);
    q := Create([item], discountCents, 0, Draft).value;
  }

  lemma UntaxedHeader(subtotal: int, discountCents: int)
    requires discountCents <= subtotal
    ensures HeaderOf(subtotal, discountCents, 0) == Some(Header(subtotal, discountCents, 0, 0, subtotal - discountCents))
  {
    assert Times(subtotal - discountCents, 0) == 0;
  }

  lemma OneLine(item: LineInput, discountCents: nat)
    requires PriceLine(item).Some? && item.discountCents.GetOr(0) >= 0 && discountCents <= PriceLine(item).value.lineTotalCents
    ensures var created := Create([item], discountCents, 0, Draft);
            && created.Some? && created.value.items == [NewLine(item)]
            && created.value.header == Header(PriceLine(item).value.lineTotalCents, discountCents, 0, 0,
                                              PriceLine(item).value.lineTotalCents - discountCents)
            && StoredTotal(created.value.items) == PriceLine(item).value.lineTotalCents
            && Sound(created.value)
    ensures RepricedTotal([NewLine(item)]) == LineBase(NewLine(item)) - Derived(LineBase(NewLine(item)), NewLine(item).discountPercent)
  {
    assert [item][..0] == [] && [NewLine(item)][..0] == [];
    assert NewLines([item]) == [NewLine(item)];
    assert Subtotal([item]) == Some(PriceLine(item).value.lineTotalCents);
    UntaxedHeader(PriceLine(item).value.lineTotalCents, discountCents);
    CreatedSound([item], discountCents, 0, Draft);
  }

  // ---------------------------------------------------------------- status

  /** No status protects the money: an accepted update leaves lines and header as they were exactly when it prices to
      the same lines, asks for the same discount and tax rate, and comes to the same subtotal. */
  lemma UpdateKeepsMoneyExactly(
    q: Quotation, items: Option<seq<LineInput>>, discountCents: Option<nat>, taxRate: Option<nat>)
    requires Sound(q) && (items.Some? ==> ValidItems(items.value)) && UpdateStep(q, items, discountCents, taxRate).1 == Done
    ensures UpdateStep(q, items, discountCents, taxRate).0 == q <==>
            && (if items.Some? then NewLines(items.value) == q.items && q.header.subtotal == StoredTotal(q.items)
                else q.header.subtotal == RepricedTotal(q.items))
            && discountCents.GetOr(q.header.discount) == q.header.discount
            && taxRate.GetOr(q.header.taxRate) == q.header.taxRate
  {
    HeaderReproduces(q.header);
    if items.Some? {
      CreatedSubtotal(items.value);
    } else {
      RepricedSubtotal(q.items);
    }
  }

  /** What changing the discount alone comes down to. */
  lemma DiscountUpdateIs(q: Quotation, discountCents: nat)
    requires Sound(q) && !q.archived
    ensures UpdateStep(q, None, Some(discountCents), None) ==
            match HeaderOf(RepricedTotal(q.items), discountCents, q.header.taxRate)
            case None => (q, BadRequest)
            case Some(header) => (q.(header := header), Done)
  {
    RepricedSubtotal(q.items);
  }

  /** A quotation is sent, accepted by the client, and then given another discount: it stays accepted. */
  lemma AcceptedQuotationRepriced(draft: Quotation, discountCents: nat)
    requires Sound(draft) && draft.status == Draft && !draft.archived && discountCents <= RepricedTotal(draft.items)
    ensures var accepted := draft.(status := Accepted);
            && Step(draft, SetStatus(Sent)) == (draft.(status := Sent), Done)
            && Step(draft.(status := Sent), SetStatus(Accepted)) == (accepted, Done) && Sound(accepted)
            && Step(accepted, Update(None, Some(discountCents), None)).1 == Done
            && Step(accepted, Update(None, Some(discountCents), None)).0.status == Accepted
            && Step(accepted, Update(None, Some(discountCents), None)).0.header.discount == discountCents
  {
    DiscountUpdateIs(draft.(status := Accepted), discountCents);
  }

  /** Such a draft: three euro less two cents, with a discount of fifty; a hundred is still possible. */
  lemma RepriceableDraft(item: LineInput) returns (draft: Quotation)
    requires item == LineInput(1, 300, None, Some(2))
    ensures Create([item], 50, 0, Draft) == Some(draft) && draft.status == Draft && !draft.archived
    ensures Sound(draft) && draft.header.discount == 50 && RepricedTotal(draft.items) == 297
  {
    ThreeEuro(item, 2, 1, 3);
    draft := OneLineCreated(item, 50, 297);
  }

  predicate Final(status: Status) {
    status == Rejected || status == Expired || status == Cancelled
  }

  /** How far along its life a quotation is. */
  function Stage(status: Status): nat {
    match status
    case Draft => 0
    case Sent => 1
    case Accepted => 2
    case Rejected => 3
    case Expired => 3
    case Cancelled => 3
  }

  /** Over any run the money stays sound, no status is ever left backwards, final ones are never left, and an
      archived quotation never changes again. */
  lemma {:induction false} EveryReachableQuotationIsSound(q: Quotation, ops: seq<Op>)
    requires Sound(q) && forall i :: 0 <= i < |ops| ==> ValidOp(ops[i])
    ensures Sound(Run(q, ops))
    ensures Stage(Run(q, ops).status) >= Stage(q.status)
    ensures Run(q, ops).status == q.status || Stage(Run(q, ops).status) > Stage(q.status)
    ensures Final(q.status) ==> Run(q, ops).status == q.status
    ensures q.archived ==> Run(q, ops) == q
    decreases |ops|
  {
    if ops == [] {
    } else {
      StepKeepsSound(q, ops[0]);
      EveryReachableQuotationIsSound(Step(q, ops[0]).0, ops[1..]);
    }
  }

  // ---------------------------------------------------------------- the service

  class QuotationService {
    var status: Status
    var archived: bool
    var items: seq<Line>
    var header: Header

    ghost function Value(): Quotation
      reads this
    {
      Quotation(status, archived, items, header)
    }

    ghost predicate Valid()
      reads this
    {
      Sound(Value())
    }

    constructor (q: Quotation)
      requires Sound(q)
      ensures Value() == q && Valid()
    {
      status, archived, items, header := q.status, q.archived, q.items, q.header;
    }

    method UpdateQuotation(newItems: Option<seq<LineInput>>, discountCents: Option<nat>, taxRate: Option<nat>) returns (outcome: Outcome)
      requires Valid() && ValidOp(Update(newItems, discountCents, taxRate))
      modifies this
      ensures (Value(), outcome) == Step(old(Value()), Update(newItems, discountCents, taxRate))
      ensures Valid()
    {
      StepKeepsSound(Value(), Update(newItems, discountCents, taxRate));
      if archived {
        return BadRequest;
      }
      var source := if newItems.Some? then newItems.value else AgainAll(items);
      var totals := Totals(source, discountCents.GetOr(header.discount), taxRate.GetOr(header.taxRate));
      if totals.None? {
        return BadRequest;
      }
      if newItems.Some? {
        items := NewLines(newItems.value);
      }
      header := totals.value;
      outcome := Done;
    }

    method UpdateStatus(next: Status) returns (outcome: Outcome)
      requires Valid()
      modifies this`status
      ensures (Value(), outcome) == Step(old(Value()), SetStatus(next))
      ensures Valid()
    {
      if archived {
        return BadRequest;
      }
      if status != next && next !in Transitions(status) {
        return BadRequest;
      }
      status := next;
      outcome := Done;
    }

    method ArchiveQuotation()
      requires Valid()
      modifies this`archived
      ensures (Value(), Done) == Step(old(Value()), Archive)
      ensures Valid()
    {
      archived := true;
    }
  }
}
