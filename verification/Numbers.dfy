/** Small functions on numbers that several modules use. */
module Numbers {

  type Byte = b: int | 0 <= b < 256

  function Min(a: int, b: int): int { if a <= b then a else b }

  function Max(a: int, b: int): int { if a >= b then a else b }

  /** One if the condition holds: for counting. */
  function One(holds: bool): nat { if holds then 1 else 0 }

  lemma {:induction false} Multiples(size: nat, k: nat, l: nat)
    ensures k < l ==> k * size + size <= l * size
    decreases l
  {
    if k < l {
      assert l * size == (l - 1) * size + size;
      Multiples(size, k, l - 1);
    }
  }
}
