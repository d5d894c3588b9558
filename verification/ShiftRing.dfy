/**
  * Rings built from addition and one shift.
  *
  * A ring here is a commutative group of characteristic two with an additive map `shift`
  * (multiplication by x) and bits that select powers of x. The product is the shift-and-add
  * product. Everything a field of 2^k elements needs is proved from six small laws: the product
  * is bilinear, commutative and associative, and squaring k times fixes every element as soon as
  * it fixes x, which gives inverses by powers.
  *
  * Each law is a predicate with its instance as arguments, so that proofs name the instance they use.
  */
module ShiftRing {
  datatype Ring<!T> = Ring(zero: T, one: T, add: (T, T) -> T, shift: T -> T, bit: (T, nat) -> bool, width: nat)

  predicate AddComm<T(==)>(r: Ring<T>, a: T, b: T) { r.add(a, b) == r.add(b, a) }
  predicate AddAssoc<T(==)>(r: Ring<T>, a: T, b: T, c: T) { r.add(r.add(a, b), c) == r.add(a, r.add(b, c)) }
  predicate AddUnit<T(==)>(r: Ring<T>, a: T) { r.add(a, r.zero) == a && r.add(a, a) == r.zero }
  predicate ShiftAdds<T(==)>(r: Ring<T>, a: T, b: T) { r.shift(r.add(a, b)) == r.add(r.shift(a), r.shift(b)) }
  predicate BitAdds<T>(r: Ring<T>, a: T, b: T, i: nat) { r.bit(r.add(a, b), i) == (r.bit(a, i) != r.bit(b, i)) }
  predicate Spans<T(==)>(r: Ring<T>, b: T) { Prod(r, r.one, b, r.width) == b }

  ghost predicate Lawful<T(!new)>(r: Ring<T>) {
    && (forall a, b :: AddComm(r, a, b))
    && (forall a, b, c :: AddAssoc(r, a, b, c))
    && (forall a :: AddUnit(r, a))
    && (forall a, b :: ShiftAdds(r, a, b))
    && (forall a, b, i: nat :: i < r.width ==> BitAdds(r, a, b, i))
    && (forall b :: Spans(r, b))
  }

  function Iter<T>(r: Ring<T>, a: T, n: nat): T { if n == 0 then a else r.shift(Iter(r, a, n - 1)) }
  function Sel<T>(r: Ring<T>, c: bool, a: T): T { if c then a else r.zero }
  function Prod<T>(r: Ring<T>, a: T, b: T, n: nat): T {
    if n == 0 then r.zero else r.add(Prod(r, a, b, n - 1), Sel(r, r.bit(b, n - 1), Iter(r, a, n - 1)))
  }
  function Mul<T>(r: Ring<T>, a: T, b: T): T { Prod(r, a, b, r.width) }

  lemma Swap4<T(!new)>(r: Ring<T>, a: T, b: T, c: T, d: T)
    requires Lawful(r)
    ensures r.add(r.add(a, b), r.add(c, d)) == r.add(r.add(a, c), r.add(b, d))
  {
    assert AddAssoc(r, a, b, r.add(c, d));
    assert AddAssoc(r, b, c, d);
    assert AddComm(r, b, c);
    assert AddAssoc(r, c, b, d);
    assert AddAssoc(r, a, c, r.add(b, d));
  }

  lemma SelAdds<T(!new)>(r: Ring<T>, c: bool, a: T, b: T)
    requires Lawful(r)
    ensures Sel(r, c, r.add(a, b)) == r.add(Sel(r, c, a), Sel(r, c, b))
  {
    assert AddUnit(r, r.zero);
  }

  lemma SelXor<T(!new)>(r: Ring<T>, c: bool, d: bool, a: T)
    requires Lawful(r)
    ensures Sel(r, c != d, a) == r.add(Sel(r, c, a), Sel(r, d, a))
  {
    assert AddUnit(r, r.zero) && AddUnit(r, a) && AddComm(r, a, r.zero);
  }

  lemma ShiftZero<T(!new)>(r: Ring<T>)
    requires Lawful(r)
    ensures r.shift(r.zero) == r.zero
  {
    assert AddUnit(r, r.zero) && ShiftAdds(r, r.zero, r.zero) && AddUnit(r, r.shift(r.zero));
  }

  lemma {:induction false} IterAdds<T(!new)>(r: Ring<T>, a: T, b: T, n: nat)
    requires Lawful(r)
    ensures Iter(r, r.add(a, b), n) == r.add(Iter(r, a, n), Iter(r, b, n))
  {
    if n > 0 {
      IterAdds(r, a, b, n - 1);
      assert ShiftAdds(r, Iter(r, a, n - 1), Iter(r, b, n - 1));
    }
  }

  lemma {:induction false} ProdAddsLeft<T(!new)>(r: Ring<T>, a: T, c: T, b: T, n: nat)
    requires Lawful(r)
    ensures Prod(r, r.add(a, c), b, n) == r.add(Prod(r, a, b, n), Prod(r, c, b, n))
  {
    if n == 0 {
      assert AddUnit(r, r.zero);
    } else {
      ProdAddsLeft(r, a, c, b, n - 1);
      IterAdds(r, a, c, n - 1);
      var bit := r.bit(b, n - 1);
      var ia, ic := Iter(r, a, n - 1), Iter(r, c, n - 1);
      SelAdds(r, bit, ia, ic);
      Swap4(r, Prod(r, a, b, n - 1), Prod(r, c, b, n - 1), Sel(r, bit, ia), Sel(r, bit, ic));
    }
  }

  lemma {:induction false} ProdAddsRight<T(!new)>(r: Ring<T>, a: T, b: T, c: T, n: nat)
    requires Lawful(r) && n <= r.width
    ensures Prod(r, a, r.add(b, c), n) == r.add(Prod(r, a, b, n), Prod(r, a, c, n))
  {
    if n == 0 {
      assert AddUnit(r, r.zero);
    } else {
      ProdAddsRight(r, a, b, c, n - 1);
      var ia := Iter(r, a, n - 1);
      assert BitAdds(r, b, c, n - 1);
      SelXor(r, r.bit(b, n - 1), r.bit(c, n - 1), ia);
      Swap4(r, Prod(r, a, b, n - 1), Prod(r, a, c, n - 1), Sel(r, r.bit(b, n - 1), ia), Sel(r, r.bit(c, n - 1), ia));
    }
  }

  lemma {:induction false} IterShift<T>(r: Ring<T>, a: T, n: nat)
    ensures Iter(r, r.shift(a), n) == r.shift(Iter(r, a, n))
  {
    if n > 0 { IterShift(r, a, n - 1); }
  }

  lemma {:induction false} ProdShift<T(!new)>(r: Ring<T>, a: T, b: T, n: nat)
    requires Lawful(r)
    ensures Prod(r, r.shift(a), b, n) == r.shift(Prod(r, a, b, n))
  {
    ShiftZero(r);
    if n > 0 {
      ProdShift(r, a, b, n - 1);
      IterShift(r, a, n - 1);
      assert ShiftAdds(r, Prod(r, a, b, n - 1), Sel(r, r.bit(b, n - 1), Iter(r, a, n - 1)));
    }
  }

  lemma {:induction false} ProdZero<T(!new)>(r: Ring<T>, b: T, n: nat)
    requires Lawful(r)
    ensures Prod(r, r.zero, b, n) == r.zero
  {
    assert AddUnit(r, r.zero);
    ProdAddsLeft(r, r.zero, r.zero, b, n);
    assert AddUnit(r, Prod(r, r.zero, b, n));
  }

  // ----- The same facts about whole products. From here on proofs hide the body of Mul. -----

  lemma MulAdds<T(!new)>(r: Ring<T>, a: T, b: T, c: T)
    requires Lawful(r)
    ensures Mul(r, r.add(a, b), c) == r.add(Mul(r, a, c), Mul(r, b, c))
    ensures Mul(r, c, r.add(a, b)) == r.add(Mul(r, c, a), Mul(r, c, b))
  {
    ProdAddsLeft(r, a, b, c, r.width);
    ProdAddsRight(r, c, a, b, r.width);
  }

  lemma MulShift<T(!new)>(r: Ring<T>, a: T, b: T)
    requires Lawful(r)
    ensures Mul(r, r.shift(a), b) == r.shift(Mul(r, a, b))
  {
    ProdShift(r, a, b, r.width);
  }

  lemma MulUnits<T(!new)>(r: Ring<T>, a: T)
    requires Lawful(r)
    ensures Mul(r, r.one, a) == a && Mul(r, r.zero, a) == r.zero
  {
    assert Spans(r, a);
    ProdZero(r, a, r.width);
  }

  lemma {:induction false} MulIter<T(!new)>(r: Ring<T>, a: T, b: T, k: nat)
    requires Lawful(r)
    ensures Mul(r, Iter(r, a, k), b) == Iter(r, Mul(r, a, b), k)
  {
    hide Mul;
    if k > 0 {
      MulIter(r, a, b, k - 1);
      MulShift(r, Iter(r, a, k - 1), b);
    }
  }

  /** Multiplying the bit-by-bit expansion of b by a rebuilds the product a * b. */
  lemma {:induction false} ExpansionTimes<T(!new)>(r: Ring<T>, a: T, b: T, n: nat)
    requires Lawful(r)
    ensures Mul(r, Prod(r, r.one, b, n), a) == Prod(r, a, b, n)
  {
    hide Mul;
    MulUnits(r, a);
    if n > 0 {
      ExpansionTimes(r, a, b, n - 1);
      MulAdds(r, Prod(r, r.one, b, n - 1), Sel(r, r.bit(b, n - 1), Iter(r, r.one, n - 1)), a);
      MulIter(r, r.one, a, n - 1);
    }
  }

  lemma MulComm<T(!new)>(r: Ring<T>, a: T, b: T)
    requires Lawful(r)
    ensures Mul(r, a, b) == Mul(r, b, a)
  {
    ExpansionTimes(r, a, b, r.width);
    assert Spans(r, b);
  }

  lemma {:induction false} AssocPartial<T(!new)>(r: Ring<T>, a: T, b: T, c: T, n: nat)
    requires Lawful(r)
    ensures Mul(r, a, Prod(r, b, c, n)) == Prod(r, Mul(r, a, b), c, n)
  {
    hide Mul;
    MulComm(r, a, r.zero);
    MulUnits(r, a);
    if n > 0 {
      var x := Iter(r, b, n - 1);
      AssocPartial(r, a, b, c, n - 1);
      MulAdds(r, Prod(r, b, c, n - 1), Sel(r, r.bit(c, n - 1), x), a);
      MulComm(r, a, x);
      MulIter(r, b, a, n - 1);
      MulComm(r, b, a);
    }
  }

  lemma MulAssoc<T(!new)>(r: Ring<T>, a: T, b: T, c: T)
    requires Lawful(r)
    ensures Mul(r, Mul(r, a, b), c) == Mul(r, a, Mul(r, b, c))
  {
    AssocPartial(r, a, b, c, r.width);
  }

  // ----- Powers and the Frobenius map -----

  function Pow<T>(r: Ring<T>, a: T, n: nat): T {
    if n == 0 then r.one else Mul(r, Pow(r, a, n - 1), a)
  }

  function Pow2(k: nat): nat {
    if k == 0 then 1 else 2 * Pow2(k - 1)
  }

  /** a raised to 2^k, by k squarings. */
  function Frob<T>(r: Ring<T>, a: T, k: nat): T {
    if k == 0 then a else Mul(r, Frob(r, a, k - 1), Frob(r, a, k - 1))
  }

  lemma {:induction false} PowAdds<T(!new)>(r: Ring<T>, a: T, m: nat, n: nat)
    requires Lawful(r)
    ensures Pow(r, a, m + n) == Mul(r, Pow(r, a, m), Pow(r, a, n))
  {
    hide Mul;
    if n == 0 {
      MulComm(r, Pow(r, a, m), r.one);
      MulUnits(r, Pow(r, a, m));
    } else {
      PowAdds(r, a, m, n - 1);
      MulAssoc(r, Pow(r, a, m), Pow(r, a, n - 1), a);
    }
  }

  lemma {:induction false} PowFrob<T(!new)>(r: Ring<T>, a: T, k: nat)
    requires Lawful(r)
    ensures Pow(r, a, Pow2(k)) == Frob(r, a, k)
  {
    hide Mul;
    if k == 0 {
      assert Pow(r, a, 1) == Mul(r, Pow(r, a, 0), a);
      MulUnits(r, a);
    } else {
      PowFrob(r, a, k - 1);
      PowAdds(r, a, Pow2(k - 1), Pow2(k - 1));
    }
  }

  lemma MulSwap4<T(!new)>(r: Ring<T>, a: T, b: T, c: T, d: T)
    requires Lawful(r)
    ensures Mul(r, Mul(r, a, b), Mul(r, c, d)) == Mul(r, Mul(r, a, c), Mul(r, b, d))
  {
    hide Mul;
    MulAssoc(r, a, b, Mul(r, c, d));
    MulAssoc(r, b, c, d);
    MulComm(r, b, c);
    MulAssoc(r, c, b, d);
    MulAssoc(r, a, c, Mul(r, b, d));
  }

  lemma SquareAdds<T(!new)>(r: Ring<T>, a: T, b: T)
    requires Lawful(r)
    ensures Mul(r, r.add(a, b), r.add(a, b)) == r.add(Mul(r, a, a), Mul(r, b, b))
  {
    hide Mul;
    var aa, ab, bb := Mul(r, a, a), Mul(r, a, b), Mul(r, b, b);
    MulAdds(r, a, b, r.add(a, b));
    MulAdds(r, a, b, a);
    MulAdds(r, a, b, b);
    MulComm(r, b, a);
    assert AddAssoc(r, aa, ab, r.add(ab, bb)) && AddAssoc(r, ab, ab, bb) && AddUnit(r, ab);
    assert AddComm(r, r.zero, bb) && AddUnit(r, bb);
  }

  lemma {:induction false} FrobAdds<T(!new)>(r: Ring<T>, a: T, b: T, k: nat)
    requires Lawful(r)
    ensures Frob(r, r.add(a, b), k) == r.add(Frob(r, a, k), Frob(r, b, k))
  {
    hide Mul;
    if k > 0 {
      FrobAdds(r, a, b, k - 1);
      SquareAdds(r, Frob(r, a, k - 1), Frob(r, b, k - 1));
    }
  }

  lemma {:induction false} FrobMuls<T(!new)>(r: Ring<T>, a: T, b: T, k: nat)
    requires Lawful(r)
    ensures Frob(r, Mul(r, a, b), k) == Mul(r, Frob(r, a, k), Frob(r, b, k))
  {
    hide Mul;
    if k > 0 {
      FrobMuls(r, a, b, k - 1);
      MulSwap4(r, Frob(r, a, k - 1), Frob(r, b, k - 1), Frob(r, a, k - 1), Frob(r, b, k - 1));
    }
  }

  lemma {:induction false} FrobTwice<T>(r: Ring<T>, a: T, m: nat, n: nat)
    ensures Frob(r, Frob(r, a, m), n) == Frob(r, a, m + n)
  {
    hide Mul;
    if n > 0 { FrobTwice(r, a, m, n - 1); }
  }

  /** The square of x^n is x^(2n). */
  lemma SquareOfPower<T(!new)>(r: Ring<T>, n: nat)
    requires Lawful(r)
    ensures var x := Iter(r, r.one, n); Mul(r, x, x) == Iter(r, r.one, 2 * n)
  {
    hide Mul;
    var x := Iter(r, r.one, n);
    MulIter(r, r.one, x, n);
    MulUnits(r, x);
    IterTwice(r, r.one, n, n);
  }

  lemma {:induction false} IterTwice<T>(r: Ring<T>, a: T, m: nat, n: nat)
    ensures Iter(r, Iter(r, a, m), n) == Iter(r, a, m + n)
  {
    if n > 0 { IterTwice(r, a, m, n - 1); }
  }

  lemma {:induction false} FrobUnits<T(!new)>(r: Ring<T>, k: nat)
    requires Lawful(r)
    ensures Frob(r, r.zero, k) == r.zero && Frob(r, r.one, k) == r.one
  {
    hide Mul;
    if k > 0 {
      FrobUnits(r, k - 1);
      MulUnits(r, r.zero);
      MulUnits(r, r.one);
    }
  }

  /** If k squarings fix x, they fix every power of x. */
  lemma {:induction false} FrobFixesPowersOfX<T(!new)>(r: Ring<T>, k: nat, i: nat)
    requires Lawful(r) && Frob(r, r.shift(r.one), k) == r.shift(r.one)
    ensures Frob(r, Iter(r, r.one, i), k) == Iter(r, r.one, i)
  {
    hide Mul;
    FrobUnits(r, k);
    if i > 0 {
      var y := Iter(r, r.one, i - 1);
      FrobFixesPowersOfX(r, k, i - 1);
      FrobMuls(r, r.shift(r.one), y, k);
      MulShift(r, r.one, y);
      MulUnits(r, y);
    }
  }

  lemma {:induction false} FrobFixesExpansion<T(!new)>(r: Ring<T>, k: nat, b: T, n: nat)
    requires Lawful(r) && Frob(r, r.shift(r.one), k) == r.shift(r.one)
    ensures Frob(r, Prod(r, r.one, b, n), k) == Prod(r, r.one, b, n)
  {
    hide Mul;
    FrobUnits(r, k);
    if n > 0 {
      FrobFixesExpansion(r, k, b, n - 1);
      FrobFixesPowersOfX(r, k, n - 1);
      FrobAdds(r, Prod(r, r.one, b, n - 1), Sel(r, r.bit(b, n - 1), Iter(r, r.one, n - 1)), k);
    }
  }

  /** ... and with them every element, because the powers of x span the ring: b^(2^k) == b. */
  lemma FrobFixesAll<T(!new)>(r: Ring<T>, k: nat, b: T)
    requires Lawful(r) && Frob(r, r.shift(r.one), k) == r.shift(r.one)
    ensures Frob(r, b, k) == b
  {
    FrobFixesExpansion(r, k, b, r.width);
    assert Spans(r, b);
  }

  /**
    * If 2h squarings fix a, the norm a * a^(2^h) lies in the subfield that h squarings fix,
    * and it is zero only for a == 0.
    */
  lemma NormInSubfield<T(!new)>(r: Ring<T>, h: nat, a: T)
    requires Lawful(r) && h > 0 && Frob(r, a, 2 * h) == a
    ensures var n := Mul(r, a, Frob(r, a, h)); Frob(r, n, h) == n && (n == r.zero ==> a == r.zero)
  {
    hide Mul;
    var ah := Frob(r, a, h);
    FrobMuls(r, a, ah, h);
    FrobTwice(r, a, h, h);
    MulComm(r, ah, a);
    var m := Pow2(h);
    Pow2Sum(h);
    PowFrob(r, a, 2 * h);
    PowFrob(r, a, h);
    PowAdds(r, a, m + 1, Pow2(2 * h) - (m + 1));
    assert Pow(r, a, m + 1) == Mul(r, ah, a);
    MulUnits(r, Pow(r, a, Pow2(2 * h) - (m + 1)));
  }

  lemma {:induction false} Pow2Sum(h: nat)
    requires h > 0
    ensures Pow2(2 * h) >= Pow2(h) + 2 && Pow2(h) >= 2
  {
    if h > 1 {
      Pow2Sum(h - 1);
      assert Pow2(2 * h) == 2 * Pow2(2 * h - 1) == 4 * Pow2(2 * (h - 1));
    } else {
      assert Pow2(1) == 2 * Pow2(0) && Pow2(2) == 2 * Pow2(1);
    }
  }

  /** If k squarings fix an invertible a, then a^(2^k - 2) inverts it. */
  lemma FermatInverse<T(!new)>(r: Ring<T>, k: nat, a: T, i: T)
    requires Lawful(r) && k > 0 && Frob(r, a, k) == a
    requires Mul(r, a, i) == r.one
    ensures Pow2(k) >= 2 && Mul(r, a, Pow(r, a, Pow2(k) - 2)) == r.one
  {
    hide Mul;
    Pow2Sum(k);
    var q := Pow(r, a, Pow2(k) - 2);
    var p := Pow(r, a, Pow2(k) - 1);
    assert p == Mul(r, q, a) && Pow(r, a, Pow2(k)) == Mul(r, p, a);
    PowFrob(r, a, k);
    MulComm(r, q, a);
    MulAssoc(r, p, a, i);
    MulComm(r, p, r.one);
    MulUnits(r, p);
  }
}
