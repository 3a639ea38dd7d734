/** Powers of a natural number. */
module Power {
  function Pow(b: nat, k: nat): nat {
    if k == 0 then 1 else b * Pow(b, k - 1)
  }

  lemma {:induction false} PowAdd(b: nat, j: nat, k: nat)
    ensures Pow(b, j + k) == Pow(b, j) * Pow(b, k)
  {
    if j != 0 {
      PowAdd(b, j - 1, k);
      assert Pow(b, j + k) == b * (Pow(b, j - 1) * Pow(b, k));
      assert b * (Pow(b, j - 1) * Pow(b, k)) == (b * Pow(b, j - 1)) * Pow(b, k);
    }
  }
}
