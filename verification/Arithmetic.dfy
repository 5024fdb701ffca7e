/** The step of nonlinear arithmetic that several proofs share. */
module Arithmetic {

  lemma MulLe(c: nat, x: int, y: int)
    requires x <= y
    ensures c * x <= c * y
  {
  }
}
