/**
  * GF(2^8) as src/core/sharing.rs computes it: bytes with exclusive or as addition and
  * eight rounds of shift-and-xor, reduction constant 0x1b, as multiplication.
  *
  * Facts about single bits are proved on bit-vectors; everything about products comes from
  * ShiftRing, and the field built here is handed to Polynomials.
  */
module GF256 {
  import opened ShiftRing
  import opened Polynomials

  // ----- the operations -----

  function BitMask(bit: bv8): bv8 {
    0 - (bit & 1)
  }

  /** Picks m where the mask is set and r where it is not. */
  function Blend(r: bv8, m: bv8, mask: bv8): bv8 {
    (r & !mask) | (m & mask)
  }

  function Xor(a: bv8, b: bv8): bv8 {
    a ^ b
  }

  /** Multiplication by x. */
  function XTime(a: bv8): bv8 {
    (a << 1) ^ (0x1b & BitMask(a >> 7))
  }

  function ShiftRight(b: bv8, n: nat): bv8 {
    if n == 0 then b else ShiftRight(b, n - 1) >> 1
  }

  predicate Bit(b: bv8, i: nat) {
    ShiftRight(b, i) & 1 == 1
  }

  const R: Ring<bv8> := Ring(0, 1, Xor, XTime, Bit, 8)

  function Times(a: bv8, b: bv8): bv8 {
    Mul(R, a, b)
  }

  function Inverse(a: bv8): bv8 {
    Pow(R, a, 254)
  }

  /** The field the shares live in. */
  const F: Field<bv8> := Field(0, 1, Xor, Times, Inverse)

  method GfMul(left0: bv8, right0: bv8) returns (product: bv8)
    ensures product == Times(left0, right0)
  {
    var left, right := left0, right0;
    product := 0;
    for i := 0 to 8
      invariant product == Prod(R, left0, right0, i)
      invariant left == Iter(R, left0, i)
      invariant right == ShiftRight(right0, i)
    {
      MaskSelects(product, left, right);
      product := product ^ (left & BitMask(right & 1));
      var carry := left >> 7;
      left := left << 1;
      left := left ^ (0x1b & BitMask(carry));
      right := right >> 1;
    }
  }

  method GfInverse(value: bv8) returns (result: bv8)
    ensures result == Inverse(value)
    ensures value != 0 ==> Times(value, result) == 1
  {
    hide Mul, BitMask, Blend, Pow, Pow2;
    result := 1;
    var base := value;
    var exponent: bv8 := 254;
    ghost var low := 0;
    FirstPowers(value);
    for bit := 0 to 8
      invariant base == Pow(R, value, Pow2(bit))
      invariant Pow2(bit) > 0 && low == 254 % Pow2(bit) && result == Pow(R, value, low)
    {
      var multiplied := GfMul(result, base);
      var mask := BitMask((exponent >> bit) & 1);
      BlendChooses(result, multiplied, bit);
      result := Blend(result, multiplied, mask);
      base := GfMul(base, base);
      SquareAndMultiply(value, bit, low);
      low := low + (if bit == 0 then 0 else Pow2(bit));
    }
    assert Pow2(8) == 256 by { SmallPowers(); }
    if value != 0 { InverseLaw(value); }
  }

  datatype Quotient = Quotient(value: bv8) | DivisionByZero

  method GfDiv(left: bv8, right: bv8) returns (r: Quotient)
    ensures r == if right == 0 then DivisionByZero else Quotient(F.mul(left, F.inv(right)))
  {
    if right == 0 { return DivisionByZero; }
    var i := GfInverse(right);
    var q := GfMul(left, i);
    return Quotient(q);
  }

  // ----- bit-level facts -----

  lemma MaskSelects(p: bv8, l: bv8, r: bv8)
    ensures p ^ (l & BitMask(r & 1)) == Xor(p, Sel(R, r & 1 == 1, l))
  {
  }

  lemma BlendChooses(r: bv8, m: bv8, bit: nat)
    requires bit < 8
    ensures Blend(r, m, BitMask((254 as bv8 >> bit) & 1)) == if bit == 0 then r else m
  {
    assert BitMask(0) == 0 && BitMask(1) == 0xff;
    if bit == 0 { } else if bit == 1 { } else if bit == 2 { } else if bit == 3 { }
    else if bit == 4 { } else if bit == 5 { } else if bit == 6 { } else { assert bit == 7; }
  }

  lemma SmallPowers()
    ensures Pow2(0) == 1 && Pow2(1) == 2 && Pow2(2) == 4 && Pow2(3) == 8 && Pow2(4) == 16
    ensures Pow2(5) == 32 && Pow2(6) == 64 && Pow2(7) == 128 && Pow2(8) == 256
  {
  }

  lemma ExponentBits(bit: nat)
    requires bit < 8
    ensures Pow2(bit) > 0 && 254 % Pow2(bit + 1) == 254 % Pow2(bit) + (if bit == 0 then 0 else Pow2(bit))
  {
    SmallPowers();
  }

  lemma FirstPowers(a: bv8)
    ensures Pow2(0) == 1 && Pow(R, a, 0) == 1 && Pow(R, a, 1) == a
  {
    hide Mul;
    RingLaws();
    MulUnits(R, a);
    assert Pow(R, a, 1) == Mul(R, Pow(R, a, 0), a);
  }

  /** One round: the base is squared, and multiplied in when the exponent has the bit. */
  lemma SquareAndMultiply(a: bv8, bit: nat, low: nat)
    requires bit < 8 && Pow2(bit) > 0 && low == 254 % Pow2(bit)
    ensures Mul(R, Pow(R, a, Pow2(bit)), Pow(R, a, Pow2(bit))) == Pow(R, a, Pow2(bit + 1))
    ensures Mul(R, Pow(R, a, low), Pow(R, a, Pow2(bit))) == Pow(R, a, low + Pow2(bit))
    ensures Pow2(bit + 1) > 0 && 254 % Pow2(bit + 1) == low + (if bit == 0 then 0 else Pow2(bit))
  {
    hide Mul, Pow;
    RingLaws();
    PowAdds(R, a, Pow2(bit), Pow2(bit));
    PowAdds(R, a, low, Pow2(bit));
    ExponentBits(bit);
  }

  lemma HalfXor(b: bv8, c: bv8)
    ensures (b ^ c) >> 1 == (b >> 1) ^ (c >> 1)
    ensures ((b ^ c) & 1 == 1) == ((b & 1 == 1) != (c & 1 == 1))
  {
  }

  lemma {:induction false} ShiftRightXor(b: bv8, c: bv8, n: nat)
    ensures ShiftRight(b ^ c, n) == ShiftRight(b, n) ^ ShiftRight(c, n)
  {
    if n > 0 {
      ShiftRightXor(b, c, n - 1);
      HalfXor(ShiftRight(b, n - 1), ShiftRight(c, n - 1));
    }
  }

  lemma XTimeXor(a: bv8, c: bv8)
    ensures XTime(a ^ c) == XTime(a) ^ XTime(c)
  {
  }

  lemma XorLaws(a: bv8, b: bv8, c: bv8)
    ensures (a ^ b) ^ c == a ^ (b ^ c) && a ^ b == b ^ a && a ^ 0 == a && a ^ a == 0
  {
  }

  lemma XorIs(p: bv8, q: bv8)
    ensures Xor(p, q) == p ^ q
  {
  }

  /** x^0 .. x^14, as far as squares of single bits need them. */
  lemma PowersOfX()
    ensures Iter(R, 1, 0) == 0x01 && Iter(R, 1, 1) == 0x02 && Iter(R, 1, 2) == 0x04 && Iter(R, 1, 3) == 0x08
    ensures Iter(R, 1, 4) == 0x10 && Iter(R, 1, 5) == 0x20 && Iter(R, 1, 6) == 0x40 && Iter(R, 1, 7) == 0x80
    ensures Iter(R, 1, 8) == 0x1b && Iter(R, 1, 10) == 0x6c && Iter(R, 1, 12) == 0xab && Iter(R, 1, 14) == 0x9a
  {
    assert Iter(R, 1, 1) == 0x02;
    assert Iter(R, 1, 3) == 0x08;
    assert Iter(R, 1, 5) == 0x20;
    assert Iter(R, 1, 7) == 0x80;
    assert Iter(R, 1, 9) == 0x36;
    assert Iter(R, 1, 11) == 0xd8;
    assert Iter(R, 1, 13) == 0x4d;
  }

  lemma ExpansionBits(b: bv8)
    ensures 0 ^ (if Bit(b, 0) then 0x01 else 0) == b & 0x01
    ensures (b & 0x01) ^ (if Bit(b, 1) then 0x02 else 0) == b & 0x03
    ensures (b & 0x03) ^ (if Bit(b, 2) then 0x04 else 0) == b & 0x07
    ensures (b & 0x07) ^ (if Bit(b, 3) then 0x08 else 0) == b & 0x0f
    ensures (b & 0x0f) ^ (if Bit(b, 4) then 0x10 else 0) == b & 0x1f
    ensures (b & 0x1f) ^ (if Bit(b, 5) then 0x20 else 0) == b & 0x3f
    ensures (b & 0x3f) ^ (if Bit(b, 6) then 0x40 else 0) == b & 0x7f
    ensures (b & 0x7f) ^ (if Bit(b, 7) then 0x80 else 0) == b
  {
  }

  lemma ExpansionStep(b: bv8, n: nat, power: bv8, below: bv8, upto: bv8)
    requires Prod(R, 1, b, n) == below && Iter(R, 1, n) == power
    requires below ^ (if Bit(b, n) then power else 0) == upto
    ensures Prod(R, 1, b, n + 1) == upto
  {
    hide Xor, XTime, Bit;
    XorIs(below, if Bit(b, n) then power else 0);
  }

  /** A byte is the sum of the powers of x its bits select. */
  lemma PowersSpan(b: bv8)
    ensures Prod(R, 1, b, 8) == b
  {
    hide *;
    PowersOfX();
    ExpansionBits(b);
    assert Prod(R, 1, b, 0) == 0 by { EmptyProduct(1, b); }
    ExpansionStep(b, 0, 0x01, 0, b & 0x01);
    ExpansionStep(b, 1, 0x02, b & 0x01, b & 0x03);
    ExpansionStep(b, 2, 0x04, b & 0x03, b & 0x07);
    ExpansionStep(b, 3, 0x08, b & 0x07, b & 0x0f);
    ExpansionStep(b, 4, 0x10, b & 0x0f, b & 0x1f);
    ExpansionStep(b, 5, 0x20, b & 0x1f, b & 0x3f);
    ExpansionStep(b, 6, 0x40, b & 0x3f, b & 0x7f);
    ExpansionStep(b, 7, 0x80, b & 0x7f, b);
  }

  lemma EmptyProduct(a: bv8, b: bv8)
    ensures Prod(R, a, b, 0) == 0
  {
  }

  // ----- squaring -----

  /** Moves bit i of the low nibble to bit 2i. */
  function Spread(n: bv8): bv8 {
    (n & 1) | ((n & 2) << 1) | ((n & 4) << 2) | ((n & 8) << 3)
  }

  function High(b: bv8): bv8 {
    b >> 4
  }

  /** The square, as a linear map on bits: the high nibble lands on x^8 and above. */
  function Square(b: bv8): bv8 {
    Xor(Spread(b), Iter(R, Spread(High(b)), 8))
  }

  function EightTimes(h: bv8): bv8 {
    XTime(XTime(XTime(XTime(XTime(XTime(XTime(XTime(h))))))))
  }

  lemma EightShifts(h: bv8)
    ensures Iter(R, h, 8) == EightTimes(h)
  {
    hide XTime;
    assert Iter(R, h, 1) == XTime(h);
    assert Iter(R, h, 2) == XTime(Iter(R, h, 1));
    assert Iter(R, h, 3) == XTime(Iter(R, h, 2));
    assert Iter(R, h, 4) == XTime(Iter(R, h, 3));
    assert Iter(R, h, 5) == XTime(Iter(R, h, 4));
    assert Iter(R, h, 6) == XTime(Iter(R, h, 5));
    assert Iter(R, h, 7) == XTime(Iter(R, h, 6));
  }

  lemma SpreadXor(a: bv8, b: bv8)
    ensures Spread(Xor(a, b)) == Xor(Spread(a), Spread(b)) && High(Xor(a, b)) == Xor(High(a), High(b))
  {
  }

  lemma SquareXor(a: bv8, b: bv8)
    ensures Square(Xor(a, b)) == Xor(Square(a), Square(b))
  {
    hide Spread, High, Xor, XTime, Bit, Prod, Iter;
    RingLaws();
    SpreadXor(a, b);
    SpreadXor(High(a), High(b));
    IterAdds(R, Spread(High(a)), Spread(High(b)), 8);
    Swap4(R, Spread(a), Spread(b), Iter(R, Spread(High(a)), 8), Iter(R, Spread(High(b)), 8));
  }

  lemma SquareOfBit(n: nat, x: bv8, x2: bv8)
    requires Iter(R, 1, n) == x && Iter(R, 1, 2 * n) == x2
    requires Xor(Spread(x), EightTimes(Spread(High(x)))) == x2
    ensures Mul(R, x, x) == Square(x)
  {
    hide Mul, Xor, Spread, High, EightTimes;
    RingLaws();
    SquareOfPower(R, n);
    EightShifts(Spread(High(x)));
  }

  lemma BitSquares()
    ensures Xor(Spread(0x01), EightTimes(Spread(High(0x01)))) == 0x01 && Xor(Spread(0x02), EightTimes(Spread(High(0x02)))) == 0x04
    ensures Xor(Spread(0x04), EightTimes(Spread(High(0x04)))) == 0x10 && Xor(Spread(0x08), EightTimes(Spread(High(0x08)))) == 0x40
    ensures Xor(Spread(0x10), EightTimes(Spread(High(0x10)))) == 0x1b && Xor(Spread(0x20), EightTimes(Spread(High(0x20)))) == 0x6c
    ensures Xor(Spread(0x40), EightTimes(Spread(High(0x40)))) == 0xab && Xor(Spread(0x80), EightTimes(Spread(High(0x80)))) == 0x9a
  {
  }

  lemma SquareOfX(n: nat)
    requires n < 8
    ensures var x := Iter(R, 1, n); Mul(R, x, x) == Square(x)
  {
    hide *;
    PowersOfX();
    BitSquares();
    if n == 0 { SquareOfBit(0, 0x01, 0x01); }
    else if n == 1 { SquareOfBit(1, 0x02, 0x04); }
    else if n == 2 { SquareOfBit(2, 0x04, 0x10); }
    else if n == 3 { SquareOfBit(3, 0x08, 0x40); }
    else if n == 4 { SquareOfBit(4, 0x10, 0x1b); }
    else if n == 5 { SquareOfBit(5, 0x20, 0x6c); }
    else if n == 6 { SquareOfBit(6, 0x40, 0xab); }
    else { SquareOfBit(7, 0x80, 0x9a); }
  }

  lemma {:induction false} SquareOfExpansion(b: bv8, n: nat)
    requires n <= 8
    ensures var p := Prod(R, 1, b, n); Mul(R, p, p) == Square(p)
  {
    hide Mul, Square, Xor, XTime, Bit;
    RingLaws();
    MulUnits(R, 0);
    SquareOfZero();
    if n > 0 {
      var p, x := Prod(R, 1, b, n - 1), Sel(R, Bit(b, n - 1), Iter(R, 1, n - 1));
      SquareOfExpansion(b, n - 1);
      SquareOfX(n - 1);
      SquareAdds(R, p, x);
      SquareXor(p, x);
    }
  }

  lemma SquareOfZero()
    ensures Square(0) == 0
  {
    EightShifts(0);
  }

  lemma SquareIsTimes(b: bv8)
    ensures Times(b, b) == Square(b)
  {
    SquareOfExpansion(b, 8);
    PowersSpan(b);
  }

  /** Only 0 and 1 are their own squares: the subfield GF(2). */
  lemma Idempotents(b: bv8)
    requires Square(b) == b
    ensures b == 0 || b == 1
  {
    EightShifts(Spread(High(b)));
  }

  // ----- the field laws -----

  lemma GroupLaws(a: bv8, b: bv8, c: bv8)
    ensures AddComm(R, a, b) && AddAssoc(R, a, b, c) && AddUnit(R, a)
  {
    XorLaws(a, b, c);
  }

  lemma ShiftLaw(a: bv8, b: bv8)
    ensures ShiftAdds(R, a, b)
  {
    hide XTime;
    XTimeXor(a, b);
  }

  lemma BitLaw(a: bv8, b: bv8, i: nat)
    ensures BitAdds(R, a, b, i)
  {
    hide ShiftRight;
    ShiftRightXor(a, b, i);
    HalfXor(ShiftRight(a, i), ShiftRight(b, i));
  }

  lemma SpanLaw(b: bv8)
    ensures Spans(R, b)
  {
    hide Prod;
    PowersSpan(b);
  }

  lemma RingLaws()
    ensures Lawful(R)
  {
    hide AddComm, AddAssoc, AddUnit, ShiftAdds, BitAdds, Spans;
    forall a, b ensures AddComm(R, a, b) { GroupLaws(a, b, 0); }
    forall a, b, c ensures AddAssoc(R, a, b, c) { GroupLaws(a, b, c); }
    forall a ensures AddUnit(R, a) { GroupLaws(a, a, a); }
    forall a, b ensures ShiftAdds(R, a, b) { ShiftLaw(a, b); }
    forall a, b, i: nat ensures BitAdds(R, a, b, i) { BitLaw(a, b, i); }
    forall b ensures Spans(R, b) { SpanLaw(b); }
  }

  lemma SquareStep(b: bv8, k: nat)
    ensures Frob(R, b, k + 1) == Square(Frob(R, b, k))
  {
    hide Square, Mul;
    SquareIsTimes(Frob(R, b, k));
  }

  lemma SquareValues()
    ensures Square(0x02) == 0x04 && Square(0x04) == 0x10 && Square(0x10) == 0x1b && Square(0x1b) == 0x5e
    ensures Square(0x5e) == 0xe4 && Square(0xe4) == 0x4d && Square(0x4d) == 0xfa && Square(0xfa) == 0x02
  {
    EightShifts(0x00);
    EightShifts(0x01);
    EightShifts(Spread(High(0x5e)));
    EightShifts(Spread(High(0xe4)));
    EightShifts(Spread(High(0x4d)));
    EightShifts(Spread(High(0xfa)));
    assert Spread(High(0x02)) == 0 && Spread(High(0x04)) == 0 && Spread(High(0x10)) == 1 && Spread(High(0x1b)) == 1;
  }

  /** x^256 == x, by eight squarings. */
  lemma FrobeniusFixesX()
    ensures Frob(R, XTime(1), 8) == XTime(1)
  {
    hide Square, Frob, Mul;
    SquareValues();
    assert XTime(1) == 2;
    assert Frob(R, 2, 0) == 2 by { NoSquarings(2); }
    SquareStep(2, 0);
    SquareStep(2, 1);
    SquareStep(2, 2);
    SquareStep(2, 3);
    SquareStep(2, 4);
    SquareStep(2, 5);
    SquareStep(2, 6);
    SquareStep(2, 7);
  }

  lemma NoSquarings(b: bv8)
    ensures Frob(R, b, 0) == b
  {
  }

  /** Taking norms down GF(256) > GF(16) > GF(4) > GF(2) exhibits an inverse of any non-zero byte. */
  lemma InverseExists(a: bv8) returns (i: bv8)
    requires a != 0
    ensures Frob(R, a, 8) == a && Mul(R, a, i) == 1
  {
    hide Mul, Square;
    RingLaws();
    FrobeniusFixesX();
    FrobFixesAll(R, 8, a);
    NormInSubfield(R, 4, a);
    var a' := Frob(R, a, 4);
    var b := Mul(R, a, a');
    NormInSubfield(R, 2, b);
    var b' := Frob(R, b, 2);
    var c := Mul(R, b, b');
    NormInSubfield(R, 1, c);
    var c' := Frob(R, c, 1);
    var d := Mul(R, c, c');
    SquareStep(d, 0);
    Idempotents(d);
    MulAssoc(R, b, b', c');
    MulAssoc(R, a, a', Mul(R, b', c'));
    i := Mul(R, a', Mul(R, b', c'));
  }

  /** Every non-zero byte is inverted by its 254th power. */
  lemma InverseLaw(a: bv8)
    requires a != 0
    ensures Times(a, Inverse(a)) == 1
  {
    hide Mul, Frob;
    RingLaws();
    var i := InverseExists(a);
    FermatInverse(R, 8, a, i);
    SmallPowers();
  }

  lemma FieldLaws()
    ensures IsField(F)
  {
    hide Sums, Products, Distributes, Inverts;
    forall a, b, c ensures Sums(F, a, b, c) { SumLaws(a, b, c); }
    forall a, b, c ensures Products(F, a, b, c) { ProductLaws(a, b, c); }
    forall a, b, c ensures Distributes(F, a, b, c) { DistributiveLaw(a, b, c); }
    forall a ensures Inverts(F, a) { InvertsLaw(a); }
  }

  lemma SumLaws(a: bv8, b: bv8, c: bv8)
    ensures Sums(F, a, b, c)
  {
    XorLaws(a, b, c);
  }

  lemma DistributiveLaw(a: bv8, b: bv8, c: bv8)
    ensures Distributes(F, a, b, c)
  {
    hide Mul, Xor;
    RingLaws();
    MulAdds(R, b, c, a);
  }

  lemma InvertsLaw(a: bv8)
    ensures Inverts(F, a)
  {
    hide Mul, Pow;
    if a != 0 { InverseLaw(a); }
  }

  lemma ProductLaws(a: bv8, b: bv8, c: bv8)
    ensures Products(F, a, b, c)
  {
    hide Mul;
    RingLaws();
    MulComm(R, a, b);
    MulAssoc(R, a, b, c);
    MulComm(R, a, 1);
    MulComm(R, a, 0);
    MulUnits(R, a);
  }

  // ----- the product is the remainder of the carry-less product (FIPS 197, section 4.2) -----

  function Widen(n: bv8): bv16 { n as bv16 }
  function Xor16(a: bv16, b: bv16): bv16 { a ^ b }
  function Shl(w: bv16): bv16 { w << 1 }

  function ShlN(w: bv16, n: nat): bv16 {
    if n == 0 then w else Shl(ShlN(w, n - 1))
  }

  /** The carry-less product of a and the low n bits of b. */
  function Clmul(a: bv8, b: bv8, n: nat): bv16 {
    if n == 0 then 0 else Xor16(Clmul(a, b, n - 1), if Bit(b, n - 1) then ShlN(Widen(a), n - 1) else 0)
  }

  /** q times x^8 + x^4 + x^3 + x + 1, without carries. */
  function ModulusTimes(q: bv16): bv16 {
    Xor16(Xor16(ShlN(q, 8), ShlN(q, 4)), Xor16(ShlN(q, 3), Xor16(ShlN(q, 1), q)))
  }

  /** wide and narrow differ by q times the modulus. */
  predicate Congruent(wide: bv16, narrow: bv8, q: bv16) {
    Xor16(wide, Widen(narrow)) == ModulusTimes(q)
  }

  lemma Xor16Cancels(a: bv16)
    ensures Xor16(a, a) == 0 && Xor16(a, 0) == a
  {
  }

  lemma Xor16Assoc(a: bv16, b: bv16, c: bv16)
    ensures Xor16(a, Xor16(b, c)) == Xor16(Xor16(a, b), c)
  {
  }

  lemma Xor16Comm(a: bv16, b: bv16)
    ensures Xor16(a, b) == Xor16(b, a)
  {
  }

  lemma Xor16Swaps(a: bv16, b: bv16, c: bv16, d: bv16)
    ensures Xor16(Xor16(a, b), Xor16(c, d)) == Xor16(Xor16(a, c), Xor16(b, d))
  {
    hide Xor16;
    Xor16Assoc(a, b, Xor16(c, d));
    Xor16Assoc(b, c, d);
    Xor16Comm(b, c);
    Xor16Assoc(c, b, d);
    Xor16Assoc(a, c, Xor16(b, d));
  }

  lemma ShlXor(a: bv16, b: bv16)
    ensures Shl(Xor16(a, b)) == Xor16(Shl(a), Shl(b))
  {
  }

  lemma WidenXor(a: bv8, b: bv8)
    ensures Widen(Xor(a, b)) == Xor16(Widen(a), Widen(b))
  {
  }

  lemma {:induction false} ShlNXor(a: bv16, b: bv16, n: nat)
    ensures ShlN(Xor16(a, b), n) == Xor16(ShlN(a, n), ShlN(b, n))
  {
    hide Xor16, Shl;
    if n > 0 {
      ShlNXor(a, b, n - 1);
      ShlXor(ShlN(a, n - 1), ShlN(b, n - 1));
    }
  }

  lemma {:induction false} ShlNShl(a: bv16, n: nat)
    ensures ShlN(Shl(a), n) == Shl(ShlN(a, n))
  {
    hide Shl;
    if n > 0 { ShlNShl(a, n - 1); }
  }

  lemma ModulusAdds(p: bv16, q: bv16)
    ensures ModulusTimes(Xor16(p, q)) == Xor16(ModulusTimes(p), ModulusTimes(q))
  {
    hide Xor16, ShlN;
    ShlNXor(p, q, 8);
    ShlNXor(p, q, 4);
    ShlNXor(p, q, 3);
    ShlNXor(p, q, 1);
    var p1, q1 := ShlN(p, 1), ShlN(q, 1);
    var p3, q3 := ShlN(p, 3), ShlN(q, 3);
    var p4, q4 := ShlN(p, 4), ShlN(q, 4);
    var p8, q8 := ShlN(p, 8), ShlN(q, 8);
    Xor16Swaps(p1, q1, p, q);
    Xor16Swaps(p3, q3, Xor16(p1, p), Xor16(q1, q));
    Xor16Swaps(p8, q8, p4, q4);
    Xor16Swaps(Xor16(p8, p4), Xor16(q8, q4), Xor16(p3, Xor16(p1, p)), Xor16(q3, Xor16(q1, q)));
  }

  lemma ModulusShifts(q: bv16)
    ensures ModulusTimes(Shl(q)) == Shl(ModulusTimes(q))
  {
    hide Xor16, Shl, ShlN;
    ShlNShl(q, 8);
    ShlNShl(q, 4);
    ShlNShl(q, 3);
    ShlNShl(q, 1);
    ShlXor(ShlN(q, 1), q);
    ShlXor(ShlN(q, 3), Xor16(ShlN(q, 1), q));
    ShlXor(ShlN(q, 8), ShlN(q, 4));
    ShlXor(Xor16(ShlN(q, 8), ShlN(q, 4)), Xor16(ShlN(q, 3), Xor16(ShlN(q, 1), q)));
  }

  function Carry(n: bv8): bv16 { if n & 0x80 != 0 then 1 else 0 }

  lemma ModulusValues()
    ensures ModulusTimes(0) == 0 && ModulusTimes(1) == 0x11b
  {
    assert ShlN(1, 2) == 4 && ShlN(1, 3) == 8 && ShlN(1, 4) == 0x10 && ShlN(1, 5) == 0x20;
    assert ShlN(1, 6) == 0x40 && ShlN(1, 7) == 0x80 && ShlN(1, 8) == 0x100;
    assert ShlN(0, 2) == 0 && ShlN(0, 4) == 0 && ShlN(0, 6) == 0;
  }

  lemma XTimeCarries(n: bv8)
    ensures Widen(XTime(n)) == Xor16(Shl(Widen(n)), if n & 0x80 != 0 then 0x11b else 0)
  {
  }

  lemma QuotientFits(q: bv16, n: bv8, limit: bv16)
    requires q < limit <= 0x40
    ensures Xor16(Shl(q), Carry(n)) < Shl(limit) <= 0x80
  {
  }

  /** Each doubling of a stays congruent to its shift. */
  lemma {:induction false} ShiftReduces(a: bv8, n: nat) returns (q: bv16)
    requires n < 8
    ensures Congruent(ShlN(Widen(a), n), Iter(R, a, n), q) && q < ShlN(1, n) <= 0x80
  {
    hide Xor16, Shl, Widen, XTime, ModulusTimes;
    if n == 0 {
      q := 0;
      ModulusValues();
      Xor16Cancels(Widen(a));
    } else {
      var p := ShiftReduces(a, n - 1);
      var narrow := Iter(R, a, n - 1);
      var wide := ShlN(Widen(a), n - 1);
      q := Xor16(Shl(p), Carry(narrow));
      XTimeCarries(narrow);
      ModulusValues();
      ModulusAdds(Shl(p), Carry(narrow));
      ModulusShifts(p);
      ShlXor(wide, Widen(narrow));
      Xor16Assoc(Shl(wide), Shl(Widen(narrow)), ModulusTimes(Carry(narrow)));
      LimitSmall(n);
      QuotientFits(p, narrow, ShlN(1, n - 1));
    }
  }

  lemma LimitSmall(n: nat)
    requires 0 < n < 8
    ensures ShlN(1, n - 1) <= 0x40
  {
    assert ShlN(1, 2) == 4 && ShlN(1, 3) == 8 && ShlN(1, 4) == 0x10 && ShlN(1, 5) == 0x20 && ShlN(1, 6) == 0x40;
  }

  lemma Xor16Fits(p: bv16, q: bv16)
    requires p < 0x80 && q < 0x80
    ensures Xor16(p, q) < 0x80
  {
  }

  lemma {:induction false} RemainderPartial(a: bv8, b: bv8, n: nat) returns (q: bv16)
    requires n <= 8
    ensures Congruent(Clmul(a, b, n), Prod(R, a, b, n), q) && q < 0x80
  {
    hide Xor16, Xor, Widen, ModulusTimes, Iter, ShlN, Bit;
    q := 0;
    ModulusValues();
    if n == 0 {
      ZeroWidens();
    } else {
      q := RemainderPartial(a, b, n - 1);
      var p, w := Prod(R, a, b, n - 1), Clmul(a, b, n - 1);
      if Bit(b, n - 1) {
        var s := ShiftReduces(a, n - 1);
        var x, y := Iter(R, a, n - 1), ShlN(Widen(a), n - 1);
        WidenXor(p, x);
        Xor16Swaps(w, y, Widen(p), Widen(x));
        ModulusAdds(q, s);
        Xor16Fits(q, s);
        q := Xor16(q, s);
      } else {
        Xor16Cancels(w);
        XorLaws(p, 0, 0);
        XorIs(p, 0);
      }
    }
  }

  lemma ZeroWidens()
    ensures Widen(0) == 0 && Xor16(0, 0) == 0
  {
  }

  /**
    * What gf_mul computes: the carry-less product of its arguments differs from the result by
    * a multiple q of x^8 + x^4 + x^3 + x + 1, of degree below 7, so nothing is lost in 16 bits.
    */
  lemma TimesIsRemainder(a: bv8, b: bv8) returns (q: bv16)
    ensures Clmul(a, b, 8) ^ (Times(a, b) as bv16) == ModulusTimes(q) && q < 0x80
  {
    q := RemainderPartial(a, b, 8);
  }
}
