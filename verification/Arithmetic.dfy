/** The few facts about products and quotients that the slot arithmetic rests on. */
module Arithmetic {

  lemma {:induction false} ProductMonotone(a: nat, b: nat, c: nat)
    requires a <= b
    ensures a * c <= b * c
    ensures a < b ==> a * c + c <= b * c
    decreases b
  {
    if a < b {
      ProductMonotone(a, b - 1, c);
      assert b * c == (b - 1) * c + c;
    }
  }

  lemma QuotientAndRemainder(x: nat, d: nat)
    requires d > 0
    ensures x == x / d * d + x % d
    ensures 0 <= x % d < d
    ensures 0 <= x / d
  {
    QuotientNonNegative(x, d);
  }

  lemma QuotientNonNegative(x: nat, d: nat)
    requires d > 0
    ensures x / d >= 0
  {
  }

  lemma QuotientWithin(x: nat, d: nat)
    requires d > 0
    ensures 0 <= x / d <= x
  {
    QuotientAndRemainder(x, d);
    ProductMonotone(1, d, x / d);
  }
}
