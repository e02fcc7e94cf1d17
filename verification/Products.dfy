/** Facts about products of variables, which the verifier needs to be shown. */
module Products {

  lemma Product(a: nat, b: nat)
    ensures a * (b + 1) == a * b + a
  {
  }

  lemma ProductOrder(a: nat, b: nat, c: nat)
    requires b <= c
    ensures a * b <= a * c && b * a <= c * a
  {
  }
}
