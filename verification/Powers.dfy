/** Powers of ten, by which the lengths of numbers are told. */
module Powers {
  function Pow10(k: nat): nat { if k == 0 then 1 else 10 * Pow10(k - 1) }

  lemma {:induction false} MulMono(a: nat, b: nat, c: nat)
    requires a >= b
    ensures a * c >= b * c
  {
  }

  lemma {:induction false} Pow10Grows(a: nat, b: nat)
    requires a <= b
    ensures Pow10(b) >= Pow10(a) > 0
    decreases b
  {
    if a < b {
      Pow10Grows(a, b - 1);
    } else if a > 0 {
      Pow10Grows(a - 1, b - 1);
    }
  }
}
