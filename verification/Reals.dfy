/** Arithmetic over the reals that other proofs need spelled out. */
module Reals {
  lemma ProductSign(x: real, y: real)
    requires x > 0.0 && y > 0.0
    ensures !(x * y <= 0.0)
  {}

  lemma ScaledLe(n: real, a: real, b: real)
    requires n > 0.0
    ensures n * a <= n * b <==> a <= b
  {}

  lemma DivideAndMultiply(a: real, n: real)
    requires n > 0.0
    ensures n * (a / n) == a
  {}
}
