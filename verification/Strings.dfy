/** A law of concatenation that the verifier applies only where it is named. */
module Strings {

  lemma Associative(a: string, b: string, c: string)
    ensures (a + b) + c == a + (b + c)
  {
  }
}
