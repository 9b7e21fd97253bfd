/** Product-level discounts and order-level discount codes
    (product/models.py, classes `Discount` and `DiscountCode`).

    Prices and discount values are exact decimals, modelled as `real`; the
    clock is an integer time stamp that every operation receives as `now`. */
module Discounts {
  import opened Wrappers

  type Time = int

  /** `discount_type` is a free string column: the two offered choices, or
      anything else (choices are not enforced on `save`). */
  datatype DiscountType = Percent | Amount | Other

  /** A `Discount` row; the product it belongs to holds it (one-to-one). */
  datatype Discount = Discount(value: real, kind: DiscountType, start: Time, end: Time, active: bool)

  /** A `DiscountCode` row. `min_order_price` is never read by the shop and is left out. */
  datatype DiscountCode = DiscountCode(
    code: string, value: real, kind: DiscountType, start: Time, end: Time,
    maxUses: nat, usedCount: nat, active: bool)

  /** The reasons `clean` refuses a row, one per check, in the order they are checked. */
  datatype CleanError = PercentOverHundred | AmountOverPrice | EndNotAfterStart | UsedOverMax

  /** Python's `max(x, 0)`. */
  function Max0(x: real): real
  {
    if 0.0 > x then 0.0 else x
  }

  /** The price that is left of `price` after a discount of `kind` and `value`:
      `price * (1 - value / 100)` for a percentage, `max(price - value, 0)` for a
      fixed amount, and `price` itself for an unknown kind. Shared by both
      `apply_discount` methods. */
  function Reduce(kind: DiscountType, value: real, price: real): (r: real)
    ensures kind == Amount ==> 0.0 <= r && (value <= price ==> r == price - value) && (price <= value ==> r == 0.0)
    ensures kind == Other ==> r == price
    ensures value == 0.0 && 0.0 <= price ==> r == price
  {
    match kind
    case Percent => price * (1.0 - value / 100.0)
    case Amount => Max0(price - value)
    case Other => price
  }

  // ---------------------------------------------------------------------------
  // Discount

  /** `Discount.is_valid`: active, and `now` inside the window, both ends included. */
  predicate IsValid(d: Discount, now: Time)
    ensures IsValid(d, now) ==> d.active && d.start <= d.end
    ensures now < d.start || d.end < now ==> !IsValid(d, now)
  {
    d.active && d.start <= now <= d.end
  }

  /** `Discount.apply_discount`. */
  function Apply(d: Discount, price: real, now: Time): (r: real)
    ensures !IsValid(d, now) || d.kind == Other ==> r == price
    ensures IsValid(d, now) && d.kind == Amount ==> 0.0 <= r && (d.value <= price ==> r == price - d.value)
  {
    if !IsValid(d, now) then price else Reduce(d.kind, d.value, price)
  }

  /** The rules `Discount.clean` enforces, stated positively. */
  predicate Admissible(d: Discount, productPrice: real)
  {
    && (d.kind == Percent ==> d.value <= 100.0)
    && (d.kind == Amount ==> d.value <= productPrice)
    && d.start < d.end
  }

  /** `Discount.clean`: the first rule the row breaks, if any. */
  function Clean(d: Discount, productPrice: real): (r: Option<CleanError>)
    ensures r.None? <==> Admissible(d, productPrice)
    ensures r == Some(PercentOverHundred) <==> d.kind == Percent && d.value > 100.0
    ensures r == Some(AmountOverPrice) <==> d.kind == Amount && d.value > productPrice
    ensures r == Some(EndNotAfterStart) <==>
      && !(d.kind == Percent && d.value > 100.0)
      && !(d.kind == Amount && d.value > productPrice)
      && d.start >= d.end
    ensures r != Some(UsedOverMax)
  {
    if d.kind == Percent && d.value > 100.0 then Some(PercentOverHundred)
    else if d.kind == Amount && d.value > productPrice then Some(AmountOverPrice)
    else if d.start >= d.end then Some(EndNotAfterStart)
    else None
  }

  // ---------------------------------------------------------------------------
  // DiscountCode

  /** `DiscountCode.is_valid`: like a discount, and not used up. */
  predicate CodeIsValid(c: DiscountCode, now: Time)
    ensures CodeIsValid(c, now) ==> c.active && c.start <= c.end && c.usedCount < c.maxUses
    ensures now < c.start || c.end < now || c.maxUses <= c.usedCount ==> !CodeIsValid(c, now)
  {
    c.active && c.start <= now <= c.end && c.usedCount < c.maxUses
  }

  /** `DiscountCode.apply_discount`. */
  function ApplyCode(c: DiscountCode, price: real, now: Time): (r: real)
    ensures !CodeIsValid(c, now) || c.kind == Other ==> r == price
    ensures CodeIsValid(c, now) && c.kind == Amount ==> 0.0 <= r && (c.value <= price ==> r == price - c.value)
  {
    if CodeIsValid(c, now) then Reduce(c.kind, c.value, price) else price
  }

  /** The rules `DiscountCode.clean` enforces, stated positively. */
  predicate CodeAdmissible(c: DiscountCode)
  {
    && (c.kind == Percent ==> c.value <= 100.0)
    && c.start < c.end
    && c.usedCount <= c.maxUses
  }

  /** `DiscountCode.clean`: the first rule the row breaks, if any. */
  function CleanCode(c: DiscountCode): (r: Option<CleanError>)
    ensures r.None? <==> CodeAdmissible(c)
    ensures r == Some(PercentOverHundred) <==> c.kind == Percent && c.value > 100.0
    ensures r == Some(EndNotAfterStart) <==> !(c.kind == Percent && c.value > 100.0) && c.start >= c.end
    ensures r == Some(UsedOverMax) <==>
      && !(c.kind == Percent && c.value > 100.0)
      && c.start < c.end
      && c.usedCount > c.maxUses
    ensures r != Some(AmountOverPrice)
  {
    if c.kind == Percent && c.value > 100.0 then Some(PercentOverHundred)
    else if c.start >= c.end then Some(EndNotAfterStart)
    else if c.usedCount > c.maxUses then Some(UsedOverMax)
    else None
  }

  // ---------------------------------------------------------------------------
  // Properties

  /** A non-negative percentage of at most 100, or a non-negative fixed amount,
      never raises a non-negative price and never makes it negative. */
  lemma ReduceWithinPrice(kind: DiscountType, value: real, price: real)
    requires 0.0 <= price && 0.0 <= value
    requires kind == Percent ==> value <= 100.0
    ensures 0.0 <= Reduce(kind, value, price) <= price
  {
    if kind == Percent {
      var cut := value / 100.0;
      assert price * (1.0 - cut) == price - price * cut;
      ProductNonNegative(price, cut);
      ProductNonNegative(price, 1.0 - cut);
    }
  }

  lemma ProductNonNegative(a: real, b: real)
    requires 0.0 <= a && 0.0 <= b
    ensures 0.0 <= a * b
  {
  }

  /** A fixed-amount discount never yields a negative price, whatever the values. */
  lemma AmountNeverNegative(value: real, price: real)
    ensures Reduce(Amount, value, price) >= 0.0
    ensures value <= price ==> Reduce(Amount, value, price) == price - value
  {
  }

  /** The worked examples: 10% and 20% off 1000. */
  lemma PercentExamples()
    ensures Reduce(Percent, 10.0, 1000.0) == 900.0
    ensures Reduce(Percent, 20.0, 1000.0) == 800.0
  {
  }

  /** `apply_discount` is the identity when the discount is not valid or its kind is unknown. */
  lemma ApplyIsIdentityUnlessValid(d: Discount, price: real, now: Time)
    requires !IsValid(d, now) || d.kind == Other
    ensures Apply(d, price, now) == price
  {
  }

  /** Validity is inclusive at both ends of the window and false just outside it. */
  lemma WindowInclusive(d: Discount)
    requires d.active && d.start <= d.end
    ensures IsValid(d, d.start) && IsValid(d, d.end)
    ensures !IsValid(d, d.start - 1) && !IsValid(d, d.end + 1)
  {
  }

  /** A code whose uses have reached the cap is never valid, at any time. */
  lemma ExhaustedCodeNeverValid(c: DiscountCode, price: real, now: Time)
    requires c.usedCount >= c.maxUses
    ensures !CodeIsValid(c, now)
    ensures ApplyCode(c, price, now) == price
  {
  }

  /** Redeeming a valid code once keeps it admissible: `clean` passes on the
      incremented row, and the count stays within the cap. */
  lemma RedeemKeepsCodeAdmissible(c: DiscountCode, now: Time)
    requires CodeAdmissible(c) && CodeIsValid(c, now)
    ensures CleanCode(c.(usedCount := c.usedCount + 1)) == None
    ensures c.usedCount + 1 <= c.maxUses
  {
  }
}
