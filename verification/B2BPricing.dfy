// Contract prices for corporate customers and travel agencies, in whole rupees and basis points, rounded half up.

module B2BPricing {
  import opened Common

  datatype Product = Hotel | Flight | Bus | Car
  datatype Organization = Corporate | TravelAgency
  datatype Basis = SourceAmount | SellAmount

  // None stands for a value of the wrong kind: not in its list, or not a safe integer.
  datatype RawTerm = RawTerm(product: Option<Product>, inr: bool, discount: Option<int>, markup: Option<int>,
                             fee: Option<int>, commission: Option<int>, basis: Option<Basis>)
  datatype Input = Input(source: Option<int>, inr: bool, organization: Option<Organization>, product: Option<Product>, term: Option<RawTerm>)

  datatype Term = Term(product: Product, discount: nat, markup: nat, fee: nat, commission: nat, basis: Basis)

  datatype Snapshot = Snapshot(product: Product, organization: Organization, source: int, term: Term, discountAmount: int,
                               base: int, markupAmount: int, sell: int, commissionBase: int, commissionAmount: int)

  datatype Error =
    | InvalidTerm | InvalidProduct | ProductMismatch | InvalidOrganization | UnsupportedCurrency | InvalidSource
    | InvalidDiscount | InvalidMarkup | InvalidFee | InvalidCommission | InvalidBasis | CorporateCommission
    | SellOutOfRange | Overflow

  datatype Result<T> = Success(value: T) | Failure(error: Error)

  const MAX_AMOUNT := 100_000_000
  const FULL := 10_000
  const MAX_SAFE_INTEGER := 9_007_199_254_740_991

  predicate Safe(n: int) { -MAX_SAFE_INTEGER <= n <= MAX_SAFE_INTEGER }

  predicate Within(n: Option<int>, low: int, high: int) { n.Some? && low <= n.value <= high }

  function HalfUp(amount: int, basisPoints: int): Result<int> {
    if !Safe(amount * basisPoints) then Failure(Overflow) else Success(Rounded(amount, basisPoints))
  }

  function Rounded(amount: int, basisPoints: int): int { (amount * basisPoints + FULL / 2) / FULL }

  function ValidateTerm(t: RawTerm): Result<Term> {
    if t.product.None? then Failure(InvalidProduct)
    else if !t.inr then Failure(UnsupportedCurrency)
    else if t.basis.None? then Failure(InvalidBasis)
    else if !Within(t.discount, 0, FULL) then Failure(InvalidDiscount)
    else if !Within(t.markup, 0, FULL) then Failure(InvalidMarkup)
    else if !Within(t.fee, 0, MAX_AMOUNT) then Failure(InvalidFee)
    else if !Within(t.commission, 0, FULL) then Failure(InvalidCommission)
    else Success(Term(t.product.value, t.discount.value, t.markup.value, t.fee.value, t.commission.value, t.basis.value))
  }

  function Calculate(input: Input): Result<Snapshot> {
    if !Within(input.source, 1, MAX_AMOUNT) then Failure(InvalidSource)
    else if !input.inr then Failure(UnsupportedCurrency)
    else if input.product.None? then Failure(InvalidProduct)
    else if input.organization.None? then Failure(InvalidOrganization)
    else if input.term.None? then Failure(InvalidTerm)
    else
      var term := ValidateTerm(input.term.value);
      if term.Failure? then Failure(term.error)
      else if term.value.product != input.product.value then Failure(ProductMismatch)
      else if input.organization.value == Corporate && term.value.commission != 0 then Failure(CorporateCommission)
      else Price(term.value, input.organization.value, input.source.value)
  }

  function Price(term: Term, organization: Organization, source: int): Result<Snapshot> {
    var discount := HalfUp(source, term.discount);
    if discount.Failure? then Failure(discount.error)
    else
      var base := source - discount.value;
      var markup := HalfUp(base, term.markup);
      if markup.Failure? then Failure(markup.error)
      else
        var sell := base + markup.value + term.fee;
        if !Safe(sell) then Failure(Overflow)
        else if sell < 1 || sell > MAX_AMOUNT then Failure(SellOutOfRange)
        else
          var commissionBase := if term.basis == SourceAmount then source else sell;
          var commission := HalfUp(commissionBase, term.commission);
          if commission.Failure? then Failure(commission.error)
          else Success(Snapshot(term.product, organization, source, term, discount.value, base, markup.value, sell, commissionBase, commission.value))
  }

  // ---- rounding ----

  lemma RoundedIsHalfUp(amount: int, basisPoints: int)
    requires 0 <= amount && 0 <= basisPoints <= FULL
    ensures var r := Rounded(amount, basisPoints);
            && amount * basisPoints - 5_000 < FULL * r <= amount * basisPoints + 5_000
            && 0 <= r <= amount
  {
    assert 0 <= amount * basisPoints <= amount * FULL;
  }

  // A larger amount rounds no lower, and by no more than it is larger.
  lemma RoundedGrowsSlower(small: int, large: int, basisPoints: int)
    requires small <= large && 0 <= basisPoints <= FULL
    ensures 0 <= Rounded(large, basisPoints) - Rounded(small, basisPoints) <= large - small
  {
    var d := large - small;
    assert large * basisPoints == small * basisPoints + d * basisPoints;
    assert 0 <= d * basisPoints <= d * FULL;
    var x, y := small * basisPoints + 5_000, large * basisPoints + 5_000;
    assert x <= y <= x + d * FULL;
    QuotientGrowsSlower(x, y, d);
  }

  lemma QuotientGrowsSlower(x: int, y: int, d: int)
    requires x <= y <= x + d * FULL
    ensures x / FULL <= y / FULL <= x / FULL + d
  {
    assert x == x / FULL * FULL + x % FULL && y == y / FULL * FULL + y % FULL;
  }

  // ---- what a term makes of an amount ----

  function Base(term: Term, source: int): int { source - Rounded(source, term.discount) }

  function Sell(term: Term, source: int): int { Base(term, source) + Rounded(Base(term, source), term.markup) + term.fee }

  predicate ValidTerm(term: Term) {
    term.discount <= FULL && term.markup <= FULL && term.fee <= MAX_AMOUNT && term.commission <= FULL
  }

  lemma {:induction false} SellIsMonotone(term: Term, small: int, large: int)
    requires ValidTerm(term) && small <= large
    ensures Sell(term, small) <= Sell(term, large)
  {
    RoundedGrowsSlower(small, large, term.discount);
    RoundedGrowsSlower(Base(term, small), Base(term, large), term.markup);
  }

  lemma {:induction false} BoundedProduct(amount: int, basisPoints: int)
    requires 0 <= amount <= 3 * MAX_AMOUNT && 0 <= basisPoints <= FULL
    ensures Safe(amount * basisPoints)
  {
    ProductAtMost(amount, basisPoints, FULL);
  }

  lemma ProductAtMost(a: int, b: int, c: int)
    requires 0 <= a && 0 <= b <= c
    ensures 0 <= a * b <= a * c
  {
  }

  // Pricing with a valid term: no overflow, and exactly the range of the sell amount decides.
  lemma {:induction false} PriceOutcome(term: Term, organization: Organization, source: int)
    requires ValidTerm(term) && 1 <= source <= MAX_AMOUNT
    ensures var r, sell := Price(term, organization, source), Sell(term, source);
            && (r.Success? <==> 1 <= sell <= MAX_AMOUNT)
            && (r.Failure? ==> r.error == SellOutOfRange)
            && (r.Success? ==> r.value.sell == sell && r.value.base == Base(term, source) && r.value.source == source && r.value.term == term)
  {
    RoundedIsHalfUp(source, term.discount);
    BoundedProduct(source, term.discount);
    var base := Base(term, source);
    RoundedIsHalfUp(base, term.markup);
    BoundedProduct(base, term.markup);
    var sell := Sell(term, source);
    BoundedProduct(source, term.commission);
    if 1 <= sell <= MAX_AMOUNT {
      BoundedProduct(sell, term.commission);
    }
  }

  lemma ValidatedTermIsValid(t: RawTerm)
    requires ValidateTerm(t).Success?
    ensures ValidTerm(ValidateTerm(t).value)
  {
  }

  // ---- theorems over every input ----

  // What a request must satisfy before any amount is computed.
  predicate WellFormed(input: Input) {
    && input.source.Some? && 1 <= input.source.value <= 100_000_000
    && input.inr && input.product.Some? && input.organization.Some? && input.term.Some?
    && var t := input.term.value;
       && t.inr && t.product == input.product && t.basis.Some?
       && t.discount.Some? && 0 <= t.discount.value <= 10_000 && t.markup.Some? && 0 <= t.markup.value <= 10_000
       && t.fee.Some? && 0 <= t.fee.value <= 100_000_000 && t.commission.Some? && 0 <= t.commission.value <= 10_000
       && (input.organization == Some(Corporate) ==> t.commission == Some(0))
  }

  // A price comes back exactly for well-formed input whose sell amount is in range; overflow never happens.
  lemma {:induction false} SucceedsExactlyInRange(input: Input)
    ensures Calculate(input).Success? <==>
              WellFormed(input) && 1 <= Sell(ValidateTerm(input.term.value).value, input.source.value) <= MAX_AMOUNT
    ensures Calculate(input) != Failure(Overflow)
    ensures WellFormed(input) && Calculate(input).Failure? ==> Calculate(input).error == SellOutOfRange
  {
    if WellFormed(input) {
      ValidatedTermIsValid(input.term.value);
      PriceOutcome(ValidateTerm(input.term.value).value, input.organization.value, input.source.value);
    } else if Within(input.source, 1, MAX_AMOUNT) && input.term.Some? && ValidateTerm(input.term.value).Success? && input.organization.Some? {
      ValidatedTermIsValid(input.term.value);
      PriceOutcome(ValidateTerm(input.term.value).value, input.organization.value, input.source.value);
    }
  }

  // Each amount is within half a unit of exact and no more than what it is taken of; the parts make up the whole; a
  // corporate customer is charged no commission.
  lemma {:induction false} AmountsAreRoundedShares(input: Input)
    requires Calculate(input).Success?
    ensures var s := Calculate(input).value;
            && s.source * s.term.discount - 5_000 < FULL * s.discountAmount <= s.source * s.term.discount + 5_000
            && s.base * s.term.markup - 5_000 < FULL * s.markupAmount <= s.base * s.term.markup + 5_000
            && s.commissionBase * s.term.commission - 5_000 < FULL * s.commissionAmount <= s.commissionBase * s.term.commission + 5_000
            && 0 <= s.discountAmount <= s.source && 0 <= s.markupAmount <= s.base && 0 <= s.commissionAmount <= s.commissionBase
            && s.sell == s.source - s.discountAmount + s.markupAmount + s.term.fee
            && (s.organization == Corporate ==> s.commissionAmount == 0)
            && s.base == s.source - s.discountAmount && s.commissionBase == (match s.term.basis case SourceAmount => s.source case SellAmount => s.sell)
            && s.source == input.source.value && Some(s.product) == input.product && Some(s.organization) == input.organization
            && var raw := input.term.value;
               && raw.product == Some(s.term.product) && raw.discount == Some(s.term.discount) && raw.markup == Some(s.term.markup)
               && raw.fee == Some(s.term.fee) && raw.commission == Some(s.term.commission) && raw.basis == Some(s.term.basis)
  {
    SucceedsExactlyInRange(input);
    var term, source := ValidateTerm(input.term.value).value, input.source.value;
    PriceOutcome(term, input.organization.value, source);
    var s := Calculate(input).value;
    RoundedIsHalfUp(source, term.discount);
    RoundedIsHalfUp(s.base, term.markup);
    RoundedIsHalfUp(s.commissionBase, term.commission);
  }

  // Under one contract a higher source price never sells lower.
  lemma {:induction false} HigherSourceNeverSellsLower(a: Input, b: Input)
    requires a.term == b.term && a.organization == b.organization && Calculate(a).Success? && Calculate(b).Success?
    requires a.source.value <= b.source.value
    ensures Calculate(a).value.sell <= Calculate(b).value.sell
  {
    SucceedsExactlyInRange(a);
    SucceedsExactlyInRange(b);
    var term := ValidateTerm(a.term.value).value;
    ValidatedTermIsValid(a.term.value);
    PriceOutcome(term, a.organization.value, a.source.value);
    PriceOutcome(term, b.organization.value, b.source.value);
    SellIsMonotone(term, a.source.value, b.source.value);
  }

  // The source prices a contract can sell form one range: between two that sell, every price sells.
  lemma {:induction false} SellablePricesAreARange(low: Input, high: Input, source: int)
    requires Calculate(low).Success? && high == low.(source := high.source) && Calculate(high).Success?
    requires low.source.value <= source <= high.source.value
    ensures Calculate(low.(source := Some(source))).Success?
  {
    SucceedsExactlyInRange(low);
    SucceedsExactlyInRange(high);
    SucceedsExactlyInRange(low.(source := Some(source)));
    var term := ValidateTerm(low.term.value).value;
    ValidatedTermIsValid(low.term.value);
    SellIsMonotone(term, low.source.value, source);
    SellIsMonotone(term, source, high.source.value);
  }
}
