/**
 Order pricing on the checkout page: a fixed unit price, a shipping charge waived
 from two bottles on, and the total shown in the summary and on the pay button.
 Amounts are whole currency units; quantities are any integer, because the typed
 quantity input does not keep the quantity in the stepper's range.
 */
module Pricing {

  const UnitPrice: int := 35
  const StandardShipping: int := 5
  /** The smallest quantity that ships free. */
  const FreeShippingQuantity: int := 2

  /** `totalPrice`: the price of the bottles alone. */
  function Subtotal(quantity: int): int {
    UnitPrice * quantity
  }

  /** `shippingCost`: a single-threshold step function. */
  function ShippingCost(quantity: int): (cost: int)
    ensures cost == 0 || cost == StandardShipping
  {
    if quantity >= FreeShippingQuantity then 0 else StandardShipping
  }

  /** `totalPrice + shippingCost`, the amount the summary and the pay button show. */
  function Total(quantity: int): int {
    Subtotal(quantity) + ShippingCost(quantity)
  }

  /** Shipping is free exactly from two bottles on, and costs 5 otherwise. */
  lemma ShippingFreeIff(quantity: int)
    ensures ShippingCost(quantity) == 0 <==> quantity >= 2
    ensures ShippingCost(quantity) == 5 <==> quantity < 2
  {
  }

  /** The total in closed form: 35 per bottle, plus 5 for a single bottle. */
  lemma TotalClosedForm(quantity: int)
    ensures quantity >= 2 ==> Total(quantity) == 35 * quantity
    ensures quantity < 2 ==> Total(quantity) == 35 * quantity + 5
  {
  }

  lemma TotalExamples()
    ensures Total(1) == 40 && Total(2) == 70 && Total(10) == 350
  {
  }

  /** Buying more never costs less: the shipping waiver (5) is smaller than a bottle (35). */
  lemma TotalStrictlyIncreasing(q1: int, q2: int)
    requires q1 < q2
    ensures Total(q1) < Total(q2)
  {
  }

  /** Within the stepper's range the total lies between 40 and 350. */
  lemma TotalWithinStepperRange(quantity: int)
    requires 1 <= quantity <= 10
    ensures 40 <= Total(quantity) <= 350
  {
    TotalStrictlyIncreasing(quantity, 11);
    if quantity > 1 {
      TotalStrictlyIncreasing(1, quantity);
    }
  }
}
