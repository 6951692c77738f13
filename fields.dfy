/** Native field elements of the proof system the contract is written for:
    integers modulo the Pallas base-field prime, with the three operations
    the ledger uses (`add`, `sub`, `assertGte`). */
module Fields {

  /** The modulus of the native field (the Pallas base field). */
  const P: nat := 28948022309329048855892746252171976963363056481941560715954676764349967630337

  /** A field element, kept as its canonical representative in [0, P). */
  type Field = x: int | 0 <= x < P

  const Zero: Field := 0

  /** `a.add(b)`: addition modulo P. */
  function Add(a: Field, b: Field): (r: Field)
    ensures a + b < P ==> r == a + b
    ensures a + b >= P ==> r == a + b - P
  {
    (a + b) % P
  }

  /** `a.sub(b)`: subtraction modulo P. */
  function Sub(a: Field, b: Field): (r: Field)
    ensures a >= b ==> r == a - b
    ensures a < b ==> r == a - b + P
  {
    (a - b) % P
  }

  /** `a.assertGte(b)` passes exactly when this holds: the canonical
      representatives are compared as integers. */
  predicate Gte(a: Field, b: Field) {
    a >= b
  }

  /** Subtracting and then adding back the same amount returns the start,
      whether or not either step wrapped around. */
  lemma SubAddCancel(a: Field, b: Field)
    ensures Add(Sub(a, b), b) == a
  {
  }

  /** A debit from one field value and an equal credit to another leave
      their field sum unchanged. */
  lemma TransferConservesSum(sender: Field, recipient: Field, amount: Field)
    ensures Add(Sub(sender, amount), Add(recipient, amount)) == Add(sender, recipient)
  {
  }
}
