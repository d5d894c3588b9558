/**
  * Threshold secret sharing: src/core/sharing.rs.
  *
  * One polynomial per secret byte, its low coefficient the byte and the others random; a share
  * is the value of every polynomial at the share's index. The random bytes are a parameter.
  */
module Sharing {
  import opened Sequences
  import opened GF256
  import opened Polynomials

  const MIN_THRESHOLD: nat := 2
  const MAX_SHARES: nat := 32
  const MAX_SECRET_BYTES: nat := 4096

  datatype Error =
    | ThresholdTooSmall | TooManyShares | ThresholdAboveShares
    | EmptySecret | SecretTooLong
    | NotEnoughShares | NoShares | IndexesNotUnique | LengthsDiffer | Inconsistent

  datatype Outcome<+T> = Ok(value: T) | Err(error: Error)

  datatype RawShare = RawShare(index: bv8, value: seq<bv8>)

  /** The fields of a profile that splitting reads. */
  datatype Profile = Profile(threshold: nat, shares: nat, maxSecretLen: nat)

  /** The bounds of a sharing profile. */
  function ValidateThreshold(threshold: nat, shares: nat): (r: Outcome<()>)
    ensures r.Ok? <==> 2 <= threshold <= shares <= 32
  {
    if threshold < MIN_THRESHOLD then Err(ThresholdTooSmall)
    else if shares > MAX_SHARES then Err(TooManyShares)
    else if threshold > shares then Err(ThresholdAboveShares)
    else Ok(())
  }

  predicate ValidProfile(p: Profile) {
    ValidateThreshold(p.threshold, p.shares).Ok? && 1 <= p.maxSecretLen <= MAX_SECRET_BYTES
  }

  // ----- splitting -----

  /** threshold - 1 random bytes for every byte of the secret. */
  predicate RandomFor(random: seq<seq<bv8>>, secret: seq<bv8>, threshold: nat) {
    |random| == |secret| && forall o :: 0 <= o < |random| ==> |random[o]| + 1 == threshold
  }

  /** index as u8 */
  function IndexByte(i: nat): (b: bv8)
    requires i <= 255
    ensures b as int == i
  {
    if i == 0 then 0 else IndexByte(i - 1) + 1
  }

  /** The byte of the share with this index at one offset. */
  function ShareByte(secret: seq<bv8>, random: seq<seq<bv8>>, o: nat, index: bv8): bv8
    requires o < |secret| == |random|
  {
    Eval(F, [secret[o]] + random[o], index)
  }

  predicate IsShareOf(share: RawShare, secret: seq<bv8>, random: seq<seq<bv8>>)
    requires |secret| == |random|
  {
    && |share.value| == |secret|
    && forall o :: 0 <= o < |secret| ==> share.value[o] == ShareByte(secret, random, o, share.index)
  }

  method Split(profile: Profile, secret: seq<bv8>, random: seq<seq<bv8>>) returns (r: Outcome<seq<RawShare>>)
    requires ValidProfile(profile) && RandomFor(random, secret, profile.threshold)
    ensures |secret| == 0 ==> r == Err(EmptySecret)
    ensures |secret| > profile.maxSecretLen ==> r == Err(SecretTooLong)
    ensures 0 < |secret| <= profile.maxSecretLen ==> r.Ok? && |r.value| == profile.shares
    ensures r.Ok? ==> forall i :: 0 <= i < |r.value| ==> r.value[i].index as int == i + 1
    ensures r.Ok? ==> forall i :: 0 <= i < |r.value| ==> IsShareOf(r.value[i], secret, random)
  {
    hide Eval, IndexByte;
    if |secret| == 0 { return Err(EmptySecret); }
    if |secret| > profile.maxSecretLen { return Err(SecretTooLong); }
    var n := profile.shares;
    var output := seq(n, i requires 0 <= i < n => RawShare(IndexByte(i + 1), seq(|secret|, _ => 0)));
    for offset := 0 to |secret|
      invariant |output| == n
      invariant forall i :: 0 <= i < n ==> output[i].index == IndexByte(i + 1) && |output[i].value| == |secret|
      invariant forall i, o :: 0 <= i < n && 0 <= o < offset ==>
        output[i].value[o] == ShareByte(secret, random, o, output[i].index)
    {
      var coefficients := [secret[offset]] + random[offset];
      for k := 0 to n
        invariant |output| == n
        invariant forall i :: 0 <= i < n ==> output[i].index == IndexByte(i + 1) && |output[i].value| == |secret|
        invariant forall i, o :: 0 <= i < n && 0 <= o < offset ==>
          output[i].value[o] == ShareByte(secret, random, o, output[i].index)
        invariant forall i :: 0 <= i < k ==>
          output[i].value[offset] == ShareByte(secret, random, offset, output[i].index)
      {
        var share := output[k];
        output := output[k := share.(value := share.value[offset := Eval(F, coefficients, share.index)])];
      }
    }
    return Ok(output);
  }

  // ----- combining -----

  function Indexes(shares: seq<RawShare>): (xs: seq<bv8>)
    ensures |xs| == |shares| && forall i :: 0 <= i < |xs| ==> xs[i] == shares[i].index
  {
    seq(|shares|, i requires 0 <= i < |shares| => shares[i].index)
  }

  function Column(shares: seq<RawShare>, o: nat): (ys: seq<bv8>)
    requires forall i :: 0 <= i < |shares| ==> o < |shares[i].value|
    ensures |ys| == |shares| && forall i :: 0 <= i < |ys| ==> ys[i] == shares[i].value[o]
  {
    seq(|shares|, i requires 0 <= i < |shares| => shares[i].value[o])
  }

  predicate SameLength(shares: seq<RawShare>, length: nat) {
    forall i :: 0 <= i < |shares| ==> |shares[i].value| == length
  }

  predicate GoodIndexes(shares: seq<RawShare>) {
    Distinct(Indexes(shares)) && forall i :: 0 <= i < |shares| ==> shares[i].index != 0
  }

  method ValidateRawShares(shares: seq<RawShare>) returns (r: Outcome<nat>)
    ensures r.Ok? <==> shares != [] && GoodIndexes(shares) && SameLength(shares, |shares[0].value|)
    ensures r.Ok? ==> r.value == |shares[0].value|
    ensures shares == [] ==> r == Err(NoShares)
    ensures r.Err? ==> r.error in {NoShares, IndexesNotUnique, LengthsDiffer}
  {
    if shares == [] { return Err(NoShares); }
    var length := |shares[0].value|;
    var indexes: set<bv8> := {};
    for k := 0 to |shares|
      invariant forall i :: 0 <= i < k ==> shares[i].index in indexes && shares[i].index != 0
      invariant forall x :: x in indexes ==> exists i :: 0 <= i < k && shares[i].index == x
      invariant forall i, j :: 0 <= i < j < k ==> shares[i].index != shares[j].index
      invariant forall i :: 0 <= i < k ==> |shares[i].value| == length
    {
      var share := shares[k];
      if share.index == 0 || share.index in indexes {
        if share.index in indexes {
          var i :| 0 <= i < k && shares[i].index == share.index;
          assert Indexes(shares)[i] == Indexes(shares)[k];
        }
        return Err(IndexesNotUnique);
      }
      indexes := indexes + {share.index};
      if |share.value| != length { return Err(LengthsDiffer); }
    }
    return Ok(length);
  }

  /** The inner loop of interpolate_at: the coefficient of shares[index] at x. */
  method CoefficientAt(shares: seq<RawShare>, index: nat, x: bv8) returns (r: GF256.Quotient)
    requires index < |shares|
    ensures var xs := Indexes(shares);
      r.DivisionByZero? <==> exists j :: 0 <= j < |xs| && j != index && xs[index] == xs[j]
    ensures r.Quotient? ==> r.value == Basis(F, Indexes(shares), index, x, |shares|)
  {
    hide Times, Xor, Inverse;
    var xs := Indexes(shares);
    var share := shares[index];
    var coefficient: bv8 := 1;
    for otherIndex := 0 to |shares|
      invariant coefficient == Basis(F, xs, index, x, otherIndex)
      invariant forall j :: 0 <= j < otherIndex && j != index ==> xs[index] != xs[j]
    {
      if index == otherIndex { continue; }
      var other := shares[otherIndex];
      var denominator := Xor(share.index, other.index);
      XorZero(share.index, other.index);
      var q := GfDiv(Xor(x, other.index), denominator);
      if q.DivisionByZero? {
        assert xs[index] == xs[otherIndex];
        return GF256.DivisionByZero;
      }
      coefficient := GfMul(coefficient, q.value);
    }
    return GF256.Quotient(coefficient);
  }

  method InterpolateAt(shares: seq<RawShare>, offset: nat, x: bv8) returns (r: GF256.Quotient)
    requires forall i :: 0 <= i < |shares| ==> offset < |shares[i].value|
    ensures r.DivisionByZero? <==> !Distinct(Indexes(shares))
    ensures r.Quotient? ==> r.value == Lagrange(F, Indexes(shares), Column(shares, offset), x, |shares|)
    ensures r.Quotient? ==> forall c: seq<bv8> :: |c| == |shares| && OnPolynomial(shares, offset, c) ==> r.value == Eval(F, c, x)
  {
    hide Times, Xor, Inverse, Basis, Eval;
    var xs, ys := Indexes(shares), Column(shares, offset);
    var value: bv8 := 0;
    for index := 0 to |shares|
      invariant value == Lagrange(F, xs, ys, x, index)
      invariant forall i, j :: 0 <= i < index && 0 <= j < |xs| && i != j ==> xs[i] != xs[j]
    {
      var coefficient := CoefficientAt(shares, index, x);
      if coefficient.DivisionByZero? { return GF256.DivisionByZero; }
      var term := GfMul(shares[index].value[offset], coefficient.value);
      value := Xor(value, term);
    }
    FieldLaws();
    forall c: seq<bv8> | |c| == |shares| && OnPolynomial(shares, offset, c) ensures value == Eval(F, c, x) {
      LagrangeRecovers(F, c, xs, ys, x);
    }
    return GF256.Quotient(value);
  }

  lemma XorZero(a: bv8, b: bv8)
    ensures Xor(a, b) == 0 <==> a == b
  {
  }

  /** Every share lies on the polynomial with coefficients c at this offset. */
  predicate OnPolynomial(shares: seq<RawShare>, o: nat, c: seq<bv8>)
    requires forall i :: 0 <= i < |shares| ==> o < |shares[i].value|
  {
    forall i :: 0 <= i < |shares| ==> shares[i].value[o] == Eval(F, c, shares[i].index)
  }

  ghost predicate ByteRecovers(shares: seq<RawShare>, threshold: nat, o: nat, byte: bv8)
    requires forall i :: 0 <= i < |shares| ==> o < |shares[i].value|
  {
    exists c: seq<bv8> :: |c| == threshold && OnPolynomial(shares, o, c) && byte == Eval(F, c, 0)
  }

  /** What combine is for: the shares are well formed, at each offset they all lie on one
    * polynomial of `threshold` coefficients, and the secret is its value at 0. */
  ghost predicate Recovers(shares: seq<RawShare>, threshold: nat, secret: seq<bv8>) {
    && shares != [] && |shares| >= threshold
    && GoodIndexes(shares) && SameLength(shares, |secret|)
    && forall o :: 0 <= o < |secret| ==> ByteRecovers(shares, threshold, o, secret[o])
  }

  method Combine(shares: seq<RawShare>, threshold: nat) returns (r: Outcome<seq<bv8>>)
    ensures r.Ok? ==> Recovers(shares, threshold, r.value)
    ensures r.Err? ==> forall secret :: !Recovers(shares, threshold, secret)
    ensures |shares| < threshold ==> r == Err(NotEnoughShares)
    ensures r == Err(Inconsistent) ==> |shares| > threshold && GoodIndexes(shares)
  {
    hide Lagrange, Eval, Distinct, OnPolynomial;
    if |shares| < threshold { return Err(NotEnoughShares); }
    var valid := ValidateRawShares(shares);
    if valid.Err? {
      assert shares != [] ==> forall n :: SameLength(shares, n) ==> n == |shares[0].value|;
      return Err(valid.error);
    }
    var length := valid.value;
    var basis := shares[..threshold];
    BasisIsDistinct(shares, threshold);
    var secret: seq<bv8> := seq(length, _ => 0);
    for offset := 0 to length
      invariant |secret| == length
      invariant forall o :: 0 <= o < offset ==> secret[o] == Interpolated(shares, threshold, o, 0)
    {
      var q := InterpolateAt(basis, offset, 0);
      secret := secret[offset := q.value];
    }
    for k := threshold to |shares|
      invariant forall i, o :: threshold <= i < k && 0 <= o < length ==> Checked(shares, threshold, i, o)
    {
      for offset := 0 to length
        invariant forall o :: 0 <= o < offset ==> Checked(shares, threshold, k, o)
      {
        var q := InterpolateAt(basis, offset, shares[k].index);
        if q.value != shares[k].value[offset] {
          forall s ensures !Recovers(shares, threshold, s) {
            if Recovers(shares, threshold, s) { RecoversMeansChecked(shares, threshold, s, k, offset); }
          }
          return Err(Inconsistent);
        }
      }
    }
    forall o | 0 <= o < length ensures ByteRecovers(shares, threshold, o, secret[o]) {
      CheckedMeansRecovers(shares, threshold, o);
    }
    return Ok(secret);
  }

  /** The value at x of the polynomial through the first `threshold` shares. */
  function Interpolated(shares: seq<RawShare>, threshold: nat, o: nat, x: bv8): bv8
    requires |shares| >= threshold && forall i :: 0 <= i < |shares| ==> o < |shares[i].value|
  {
    Lagrange(F, Indexes(shares[..threshold]), Column(shares[..threshold], o), x, threshold)
  }

  predicate Checked(shares: seq<RawShare>, threshold: nat, k: nat, o: nat)
    requires |shares| >= threshold && k < |shares| && forall i :: 0 <= i < |shares| ==> o < |shares[i].value|
  {
    shares[k].value[o] == Interpolated(shares, threshold, o, shares[k].index)
  }

  lemma BasisIsDistinct(shares: seq<RawShare>, threshold: nat)
    requires |shares| >= threshold && Distinct(Indexes(shares))
    ensures Distinct(Indexes(shares[..threshold]))
  {
    var xs, all := Indexes(shares[..threshold]), Indexes(shares);
    assert forall i :: 0 <= i < threshold ==> xs[i] == all[i];
  }

  lemma InterpolatedIsEval(shares: seq<RawShare>, threshold: nat, o: nat, c: seq<bv8>, x: bv8)
    requires |shares| >= threshold && GoodIndexes(shares) && |c| == threshold
    requires (forall i :: 0 <= i < |shares| ==> o < |shares[i].value|) && OnPolynomial(shares[..threshold], o, c)
    ensures Interpolated(shares, threshold, o, x) == Eval(F, c, x)
  {
    FieldLaws();
    BasisIsDistinct(shares, threshold);
    LagrangeRecovers(F, c, Indexes(shares[..threshold]), Column(shares[..threshold], o), x);
  }

  lemma RecoversMeansChecked(shares: seq<RawShare>, threshold: nat, secret: seq<bv8>, k: nat, o: nat)
    requires Recovers(shares, threshold, secret) && k < |shares| && o < |secret|
    ensures Checked(shares, threshold, k, o)
  {
    assert ByteRecovers(shares, threshold, o, secret[o]);
    var c: seq<bv8> :| |c| == threshold && OnPolynomial(shares, o, c) && secret[o] == Eval(F, c, 0);
    InterpolatedIsEval(shares, threshold, o, c, shares[k].index);
  }

  lemma CheckedMeansRecovers(shares: seq<RawShare>, threshold: nat, o: nat)
    requires |shares| >= threshold && GoodIndexes(shares)
    requires forall i :: 0 <= i < |shares| ==> o < |shares[i].value|
    requires forall i :: threshold <= i < |shares| ==> Checked(shares, threshold, i, o)
    ensures ByteRecovers(shares, threshold, o, Interpolated(shares, threshold, o, 0))
  {
    FieldLaws();
    BasisIsDistinct(shares, threshold);
    var basis := shares[..threshold];
    var xs, ys := Indexes(basis), Column(basis, o);
    var c := LagrangePoly(F, xs, ys, threshold);
    LagrangeInterpolates(F, xs, ys);
    forall i | 0 <= i < |shares| ensures shares[i].value[o] == Eval(F, c, shares[i].index) {
      if i < threshold {
        assert Eval(F, c, xs[i]) == ys[i];
      } else {
        assert Checked(shares, threshold, i, o);
      }
    }
  }
}
