/**
 * A concrete prime field standing in for the generic field `F` of the
 * virtual columns. The prime is BabyBear, 15 * 2^27 + 1, one of the fields
 * the library is used with. Elements are kept in canonical form 0 <= x < P.
 */
module Field {

  const P: nat := 2013265921

  type Elem = x: int | 0 <= x < P

  const Zero: Elem := 0
  const One: Elem := 1
  /** The additive inverse of `One`, precomputed as the field's `neg_one`. */
  const NegOne: Elem := P - 1

  /** Field addition, reducing by one conditional subtraction. */
  function Add(a: Elem, b: Elem): (r: Elem)
    ensures r == (a + b) % P
  {
    if a + b < P then a + b else a + b - P
  }

  function Neg(a: Elem): (r: Elem)
    ensures Add(a, r) == Zero
  {
    if a == 0 then 0 else P - a
  }

  function Sub(a: Elem, b: Elem): (r: Elem)
    ensures Add(r, b) == a
  {
    Add(a, Neg(b))
  }

  function Mul(a: Elem, b: Elem): Elem
  {
    (a * b) % P
  }

  lemma AddCommutes(a: Elem, b: Elem)
    ensures Add(a, b) == Add(b, a)
  {
  }

  lemma AddAssociates(a: Elem, b: Elem, c: Elem)
    ensures Add(Add(a, b), c) == Add(a, Add(b, c))
  {
  }

  lemma AddZero(a: Elem)
    ensures Add(Zero, a) == a && Add(a, Zero) == a
  {
  }

  lemma NegOfSub(a: Elem, b: Elem)
    ensures Neg(Sub(a, b)) == Sub(b, a)
  {
  }

  /** Multiplying by the weight `One` leaves a value unchanged. */
  lemma MulOne(a: Elem)
    ensures Mul(a, One) == a
  {
  }

  /** `(q * P + r) % P == r` for a canonical remainder r. */
  lemma {:induction false} ModOfMultiple(q: nat, r: int)
    requires 0 <= r < P
    ensures (q * P + r) % P == r
  {
    if q > 0 {
      ModOfMultiple(q - 1, r);
      assert q * P + r == ((q - 1) * P + r) + P;
    }
  }

  /** Multiplying by the weight `NegOne` negates a value. */
  lemma MulNegOne(a: Elem)
    ensures Mul(a, NegOne) == Neg(a)
  {
    if a != 0 {
      assert a * (P - 1) == (a - 1) * P + (P - a);
      ModOfMultiple(a - 1, P - a);
    }
  }
}
