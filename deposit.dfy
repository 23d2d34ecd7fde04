/** The deposit rule of the payment step: half the price, charged in cents. */
module Deposit {

  /** The share of the service price collected when booking. */
  const DepositPercentage: real := 0.5

  /** JavaScript's Math.round: halves go up, towards positive infinity. */
  function RoundHalfUp(x: real): (n: int)
    ensures n as real <= x + 0.5 < n as real + 1.0
  {
    (x + 0.5).Floor
  }

  /**
   * The deposit, in cents, for a total price of `totalPriceCents` cents: the
   * dollar price times the percentage, scaled to cents and rounded. It is the
   * integer nearest to half the price, a half cent rounding up.
   */
  function CalculateDeposit(totalPriceCents: int): (deposit: int)
    ensures totalPriceCents <= 2 * deposit <= totalPriceCents + 1
  {
    RoundHalfUp((totalPriceCents as real / 100.0) * DepositPercentage * 100.0)
  }

  /** An even price splits exactly; an odd price rounds its half cent up. */
  lemma DepositIsHalf(totalPriceCents: int)
    ensures totalPriceCents % 2 == 0 ==> CalculateDeposit(totalPriceCents) == totalPriceCents / 2
    ensures totalPriceCents % 2 == 1 ==> CalculateDeposit(totalPriceCents) == totalPriceCents / 2 + 1
  {
  }

  /** The deposit never exceeds the price and is never negative for a non-negative price. */
  lemma DepositWithinPrice(totalPriceCents: int)
    requires totalPriceCents >= 0
    ensures 0 <= CalculateDeposit(totalPriceCents) <= totalPriceCents
  {
  }

  /** A dearer service never asks for a smaller deposit. */
  lemma DepositMonotone(p: int, q: int)
    requires p <= q
    ensures CalculateDeposit(p) <= CalculateDeposit(q)
  {
  }

  /** A $40.00 service takes a $20.00 deposit. */
  lemma DepositExample()
    ensures CalculateDeposit(4000) == 2000
  {
  }
}
