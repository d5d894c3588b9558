/**
  * Polynomials over an arbitrary field of characteristic two, where subtraction is addition:
  * Horner evaluation, division by a linear factor, root counting, uniqueness of interpolation,
  * and the Lagrange form.
  */
module Polynomials {
  import opened Sequences

  datatype Field<!T> = Field(zero: T, one: T, add: (T, T) -> T, mul: (T, T) -> T, inv: T -> T)

  predicate Sums<T(==)>(f: Field<T>, a: T, b: T, c: T) {
    && f.add(a, b) == f.add(b, a)
    && f.add(f.add(a, b), c) == f.add(a, f.add(b, c))
    && f.add(a, f.zero) == a
    && f.add(a, a) == f.zero
  }
  predicate Products<T(==)>(f: Field<T>, a: T, b: T, c: T) {
    && f.mul(a, b) == f.mul(b, a)
    && f.mul(f.mul(a, b), c) == f.mul(a, f.mul(b, c))
    && f.mul(a, f.one) == a
    && f.mul(a, f.zero) == f.zero
  }
  predicate Distributes<T(==)>(f: Field<T>, a: T, b: T, c: T) {
    f.mul(a, f.add(b, c)) == f.add(f.mul(a, b), f.mul(a, c))
  }
  predicate Inverts<T(==)>(f: Field<T>, a: T) {
    a != f.zero ==> f.mul(a, f.inv(a)) == f.one
  }
  ghost predicate IsField<T(!new)>(f: Field<T>) {
    && f.zero != f.one
    && (forall a, b, c :: Sums(f, a, b, c))
    && (forall a, b, c :: Products(f, a, b, c))
    && (forall a, b, c :: Distributes(f, a, b, c))
    && (forall a :: Inverts(f, a))
  }

  // ----- field arithmetic -----

  lemma AddCancels<T(!new)>(f: Field<T>, a: T, b: T)
    requires IsField(f)
    ensures f.add(f.add(a, b), b) == a
    ensures f.add(a, b) == f.zero <==> a == b
  {
    assert Sums(f, a, b, b) && Sums(f, b, b, b) && Sums(f, a, a, b) && Sums(f, b, f.zero, b);
  }

  lemma AddSwap4<T(!new)>(f: Field<T>, a: T, b: T, c: T, d: T)
    requires IsField(f)
    ensures f.add(f.add(a, b), f.add(c, d)) == f.add(f.add(a, c), f.add(b, d))
  {
    assert Sums(f, a, b, f.add(c, d)) && Sums(f, b, c, d) && Sums(f, c, b, d) && Sums(f, a, c, f.add(b, d));
  }

  lemma ZeroProduct<T(!new)>(f: Field<T>, a: T, b: T)
    requires IsField(f) && f.mul(a, b) == f.zero
    ensures a == f.zero || b == f.zero
  {
    if a != f.zero {
      var i := f.inv(a);
      assert Inverts(f, a) && Products(f, a, i, b) && Products(f, i, a, b) && Products(f, f.one, b, b) && Products(f, b, f.one, b);
      assert Products(f, i, f.zero, b);
    }
  }

  // ----- evaluation -----

  /** Horner's rule, low-order coefficient first. */
  function Eval<T>(f: Field<T>, c: seq<T>, x: T): T {
    if c == [] then f.zero else f.add(f.mul(Eval(f, c[1..], x), x), c[0])
  }

  function Plus<T>(f: Field<T>, c: seq<T>, d: seq<T>): (r: seq<T>)
    requires |c| == |d|
    ensures |r| == |c|
  {
    if c == [] then [] else [f.add(c[0], d[0])] + Plus(f, c[1..], d[1..])
  }

  function Scale<T>(f: Field<T>, s: T, c: seq<T>): (r: seq<T>)
    ensures |r| == |c|
  {
    if c == [] then [] else [f.mul(s, c[0])] + Scale(f, s, c[1..])
  }

  function Zeros<T>(f: Field<T>, n: nat): (r: seq<T>)
    ensures |r| == n
  {
    if n == 0 then [] else [f.zero] + Zeros(f, n - 1)
  }

  lemma {:induction false} EvalPlus<T(!new)>(f: Field<T>, c: seq<T>, d: seq<T>, x: T)
    requires IsField(f) && |c| == |d|
    ensures Eval(f, Plus(f, c, d), x) == f.add(Eval(f, c, x), Eval(f, d, x))
  {
    if c == [] {
      assert Sums(f, f.zero, f.zero, f.zero);
    } else {
      var p, q := Eval(f, c[1..], x), Eval(f, d[1..], x);
      calc {
        Eval(f, Plus(f, c, d), x);
        { assert Plus(f, c, d)[1..] == Plus(f, c[1..], d[1..]); }
        f.add(f.mul(Eval(f, Plus(f, c[1..], d[1..]), x), x), f.add(c[0], d[0]));
        { EvalPlus(f, c[1..], d[1..], x); }
        f.add(f.mul(f.add(p, q), x), f.add(c[0], d[0]));
        { assert Products(f, f.add(p, q), x, x) && Distributes(f, x, p, q) && Products(f, p, x, x) && Products(f, q, x, x); }
        f.add(f.add(f.mul(p, x), f.mul(q, x)), f.add(c[0], d[0]));
        { AddSwap4(f, f.mul(p, x), f.mul(q, x), c[0], d[0]); }
        f.add(Eval(f, c, x), Eval(f, d, x));
      }
    }
  }

  lemma {:induction false} EvalScale<T(!new)>(f: Field<T>, s: T, c: seq<T>, x: T)
    requires IsField(f)
    ensures Eval(f, Scale(f, s, c), x) == f.mul(s, Eval(f, c, x))
  {
    if c == [] {
      assert Products(f, s, s, s);
    } else {
      var p := Eval(f, c[1..], x);
      calc {
        Eval(f, Scale(f, s, c), x);
        { assert Scale(f, s, c)[1..] == Scale(f, s, c[1..]); }
        f.add(f.mul(Eval(f, Scale(f, s, c[1..]), x), x), f.mul(s, c[0]));
        { EvalScale(f, s, c[1..], x); }
        f.add(f.mul(f.mul(s, p), x), f.mul(s, c[0]));
        { assert Products(f, s, p, x) && Distributes(f, s, f.mul(p, x), c[0]); }
        f.mul(s, Eval(f, c, x));
      }
    }
  }

  lemma {:induction false} EvalZeros<T(!new)>(f: Field<T>, n: nat, x: T)
    requires IsField(f)
    ensures Eval(f, Zeros(f, n), x) == f.zero
  {
    if n > 0 {
      EvalZeros(f, n - 1, x);
      assert Zeros(f, n)[1..] == Zeros(f, n - 1);
      assert Products(f, x, f.zero, x) && Products(f, f.zero, x, x) && Sums(f, f.zero, f.zero, x);
    }
  }

  function Power<T>(f: Field<T>, x: T, n: nat): T {
    if n == 0 then f.one else f.mul(Power(f, x, n - 1), x)
  }

  /** The sum of the first n terms c[i] * x^i. */
  function PowerSum<T>(f: Field<T>, c: seq<T>, x: T, n: nat): T
    requires n <= |c|
  {
    if n == 0 then f.zero else f.add(PowerSum(f, c, x, n - 1), f.mul(c[n - 1], Power(f, x, n - 1)))
  }

  lemma {:induction false} EvalLastTerm<T(!new)>(f: Field<T>, c: seq<T>, x: T)
    requires IsField(f) && c != []
    ensures Eval(f, c, x) == f.add(Eval(f, c[..|c| - 1], x), f.mul(c[|c| - 1], Power(f, x, |c| - 1)))
  {
    var a := c[|c| - 1];
    if |c| == 1 {
      assert c[1..] == [] && c[..0] == [];
      assert Products(f, f.zero, x, x) && Products(f, x, x, x) && Products(f, a, a, a) && Sums(f, f.zero, a, a);
    } else {
      var t, n := c[1..], |c| - 1;
      var front, y := t[..n - 1], Power(f, x, n - 1);
      assert c[..n][1..] == front && t[n - 1] == a;
      EvalLastTerm(f, t, x);
      var e := Eval(f, front, x);
      // (e + a*y)*x + c0  ==  (e*x + c0) + a*(y*x)
      calc {
        Eval(f, c, x);
        f.add(f.mul(f.add(e, f.mul(a, y)), x), c[0]);
        { assert Products(f, f.add(e, f.mul(a, y)), x, x) && Distributes(f, x, e, f.mul(a, y));
          assert Products(f, x, e, x) && Products(f, x, f.mul(a, y), x) && Products(f, a, y, x); }
        f.add(f.add(f.mul(e, x), f.mul(a, f.mul(y, x))), c[0]);
        { assert Sums(f, f.mul(e, x), f.mul(a, f.mul(y, x)), c[0]) && Sums(f, f.mul(a, f.mul(y, x)), c[0], x);
          assert Sums(f, f.mul(e, x), c[0], f.mul(a, f.mul(y, x))); }
        f.add(f.add(f.mul(e, x), c[0]), f.mul(a, f.mul(y, x)));
      }
    }
  }

  /** Horner's rule computes the sum of the terms c[i] * x^i. */
  lemma {:induction false} EvalIsPowerSum<T(!new)>(f: Field<T>, c: seq<T>, x: T, n: nat)
    requires IsField(f) && n <= |c|
    ensures Eval(f, c[..n], x) == PowerSum(f, c, x, n)
  {
    if n > 0 {
      EvalIsPowerSum(f, c, x, n - 1);
      assert c[..n][..n - 1] == c[..n - 1];
      EvalLastTerm(f, c[..n], x);
    }
  }

  // ----- division by a linear factor, roots, uniqueness -----

  /** The quotient of c by (X - r). */
  function Quotient<T>(f: Field<T>, c: seq<T>, r: T): (q: seq<T>)
    ensures |q| == if c == [] then 0 else |c| - 1
  {
    if |c| <= 1 then [] else [Eval(f, c[1..], r)] + Quotient(f, c[1..], r)
  }

  /** c(x) = (x - r) * q(x) + c(r) */
  lemma {:induction false} Division<T(!new)>(f: Field<T>, c: seq<T>, r: T, x: T)
    requires IsField(f)
    ensures Eval(f, c, x) == f.add(f.mul(f.add(x, r), Eval(f, Quotient(f, c, r), x)), Eval(f, c, r))
  {
    if |c| <= 1 {
      assert Quotient(f, c, r) == [];
      assert Eval(f, [], x) == f.zero;
      assert Products(f, f.add(x, r), x, x);
      assert Sums(f, f.zero, Eval(f, c, r), x) && Sums(f, Eval(f, c, r), x, x);
      if |c| == 1 {
        assert c[1..] == [];
        assert Products(f, x, x, x) && Products(f, r, r, r) && Products(f, f.zero, x, x) && Products(f, f.zero, r, r);
      }
    } else {
      var t := c[1..];
      var tr, q := Eval(f, t, r), Eval(f, Quotient(f, t, r), x);
      var d := f.add(x, r);
      Division(f, t, r, x);
      assert Quotient(f, c, r)[1..] == Quotient(f, t, r);
      // (d*q + tr)*x + c0  ==  d*(q*x + tr) + (tr*r + c0)
      var dqx := f.mul(d, f.mul(q, x));
      calc {
        Eval(f, c, x);
        f.add(f.mul(f.add(f.mul(d, q), tr), x), c[0]);
        { assert Products(f, f.add(f.mul(d, q), tr), x, x) && Distributes(f, x, f.mul(d, q), tr);
          assert Products(f, x, f.mul(d, q), x) && Products(f, d, q, x) && Products(f, x, tr, x); }
        f.add(f.add(dqx, f.mul(tr, x)), c[0]);
        { LinearStep(f, tr, x, r); }
        f.add(f.add(dqx, f.add(f.mul(d, tr), f.mul(tr, r))), c[0]);
        { assert Sums(f, dqx, f.mul(d, tr), f.mul(tr, r)); }
        f.add(f.add(f.add(dqx, f.mul(d, tr)), f.mul(tr, r)), c[0]);
        { assert Sums(f, f.add(dqx, f.mul(d, tr)), f.mul(tr, r), c[0]); }
        f.add(f.add(dqx, f.mul(d, tr)), Eval(f, c, r));
        { assert Distributes(f, d, f.mul(q, x), tr); }
        f.add(f.mul(d, f.add(f.mul(q, x), tr)), Eval(f, c, r));
      }
    }
  }

  lemma LinearStep<T(!new)>(f: Field<T>, t: T, x: T, r: T)
    requires IsField(f)
    ensures f.mul(t, x) == f.add(f.mul(f.add(x, r), t), f.mul(t, r))
  {
    assert Products(f, f.add(x, r), t, t) && Distributes(f, t, x, r);
    AddCancels(f, f.mul(t, x), f.mul(t, r));
  }

  /** A polynomial with as many distinct roots as coefficients is zero. */
  lemma {:induction false} RootCount<T(!new)>(f: Field<T>, c: seq<T>, roots: seq<T>)
    requires IsField(f) && Distinct(roots) && |roots| == |c|
    requires forall i :: 0 <= i < |roots| ==> Eval(f, c, roots[i]) == f.zero
    ensures c == Zeros(f, |c|)
    decreases |c|
  {
    if c != [] {
      var r, q := roots[0], Quotient(f, c, roots[0]);
      forall i | 0 <= i < |roots[1..]|
        ensures Eval(f, q, roots[1..][i]) == f.zero
      {
        var x := roots[i + 1];
        Division(f, c, r, x);
        var y := f.mul(f.add(x, r), Eval(f, q, x));
        assert Sums(f, y, y, y);
        AddCancels(f, x, r);
        ZeroProduct(f, f.add(x, r), Eval(f, q, x));
      }
      RootCount(f, q, roots[1..]);
      ZeroQuotient(f, c, r);
    }
  }

  lemma {:induction false} ZeroQuotient<T(!new)>(f: Field<T>, c: seq<T>, r: T)
    requires IsField(f) && c != []
    requires Eval(f, c, r) == f.zero && Quotient(f, c, r) == Zeros(f, |c| - 1)
    ensures c == Zeros(f, |c|)
  {
    var t := c[1..];
    if t == [] {
      assert Eval(f, t, r) == f.zero;
    } else {
      assert Quotient(f, c, r)[0] == f.zero;
      assert Quotient(f, t, r) == Quotient(f, c, r)[1..] == Zeros(f, |t| - 1);
      ZeroQuotient(f, t, r);
    }
    assert Products(f, r, f.zero, r) && Products(f, f.zero, r, r) && Sums(f, f.zero, c[0], r) && Sums(f, c[0], c[0], r);
    assert c == [c[0]] + t;
  }

  /** Interpolation is unique: n distinct points determine n coefficients. */
  lemma Uniqueness<T(!new)>(f: Field<T>, c: seq<T>, d: seq<T>, xs: seq<T>)
    requires IsField(f) && Distinct(xs) && |c| == |d| == |xs|
    requires forall i :: 0 <= i < |xs| ==> Eval(f, c, xs[i]) == Eval(f, d, xs[i])
    ensures c == d
  {
    var e := Plus(f, c, d);
    forall i | 0 <= i < |xs|
      ensures Eval(f, e, xs[i]) == f.zero
    {
      EvalPlus(f, c, d, xs[i]);
      AddCancels(f, Eval(f, c, xs[i]), Eval(f, d, xs[i]));
    }
    RootCount(f, e, xs);
    ZeroDifference(f, c, d);
  }

  lemma {:induction false} ZeroDifference<T(!new)>(f: Field<T>, c: seq<T>, d: seq<T>)
    requires IsField(f) && |c| == |d| && Plus(f, c, d) == Zeros(f, |c|)
    ensures c == d
  {
    if c != [] {
      assert Plus(f, c, d)[0] == f.zero && Plus(f, c, d)[1..] == Zeros(f, |c| - 1);
      AddCancels(f, c[0], d[0]);
      ZeroDifference(f, c[1..], d[1..]);
      assert c == [c[0]] + c[1..] && d == [d[0]] + d[1..];
    }
  }

  // ----- Lagrange interpolation -----

  /** The product over j < n, j != i, of (x - xs[j]) / (xs[i] - xs[j]). */
  function Basis<T>(f: Field<T>, xs: seq<T>, i: nat, x: T, n: nat): T
    requires i < |xs| && n <= |xs|
  {
    if n == 0 then f.one
    else if n - 1 == i then Basis(f, xs, i, x, n - 1)
    else f.mul(Basis(f, xs, i, x, n - 1), f.mul(f.add(x, xs[n - 1]), f.inv(f.add(xs[i], xs[n - 1]))))
  }

  /** The first n terms of the Lagrange form through the points (xs[i], ys[i]), at x. */
  function Lagrange<T>(f: Field<T>, xs: seq<T>, ys: seq<T>, x: T, n: nat): T
    requires |xs| == |ys| && n <= |xs|
  {
    if n == 0 then f.zero
    else f.add(Lagrange(f, xs, ys, x, n - 1), f.mul(ys[n - 1], Basis(f, xs, n - 1, x, |xs|)))
  }

  /** (X - r) * s * c */
  function TimesLinear<T>(f: Field<T>, c: seq<T>, r: T, s: T): (p: seq<T>)
    ensures |p| == |c| + 1
  {
    Scale(f, s, Plus(f, [f.zero] + c, Scale(f, r, c) + [f.zero]))
  }

  function BasisPoly<T>(f: Field<T>, xs: seq<T>, i: nat, n: nat): (p: seq<T>)
    requires i < |xs| && n <= |xs|
    ensures |p| == if i < n then n else n + 1
  {
    if n == 0 then [f.one]
    else if n - 1 == i then BasisPoly(f, xs, i, n - 1)
    else TimesLinear(f, BasisPoly(f, xs, i, n - 1), xs[n - 1], f.inv(f.add(xs[i], xs[n - 1])))
  }

  function LagrangePoly<T>(f: Field<T>, xs: seq<T>, ys: seq<T>, n: nat): (p: seq<T>)
    requires |xs| == |ys| && n <= |xs|
    ensures |p| == |xs|
  {
    if n == 0 then Zeros(f, |xs|)
    else Plus(f, LagrangePoly(f, xs, ys, n - 1), Scale(f, ys[n - 1], BasisPoly(f, xs, n - 1, |xs|)))
  }

  lemma {:induction false} EvalPadded<T(!new)>(f: Field<T>, c: seq<T>, x: T)
    requires IsField(f)
    ensures Eval(f, c + [f.zero], x) == Eval(f, c, x)
  {
    if c == [] {
      assert [f.zero][1..] == [];
      assert Products(f, f.zero, x, x) && Products(f, x, x, x) && Sums(f, f.zero, f.zero, x);
      assert c + [f.zero] == [f.zero];
    } else {
      EvalPadded(f, c[1..], x);
      assert (c + [f.zero])[1..] == c[1..] + [f.zero];
    }
  }

  lemma EvalTimesLinear<T(!new)>(f: Field<T>, c: seq<T>, r: T, s: T, x: T)
    requires IsField(f)
    ensures Eval(f, TimesLinear(f, c, r, s), x) == f.mul(Eval(f, c, x), f.mul(f.add(x, r), s))
  {
    var e := Eval(f, c, x);
    var shifted, scaled := [f.zero] + c, Scale(f, r, c) + [f.zero];
    calc {
      Eval(f, TimesLinear(f, c, r, s), x);
      { EvalScale(f, s, Plus(f, shifted, scaled), x); EvalPlus(f, shifted, scaled, x); }
      f.mul(s, f.add(Eval(f, shifted, x), Eval(f, scaled, x)));
      { assert shifted[1..] == c; assert Sums(f, f.mul(e, x), x, x); }
      f.mul(s, f.add(f.mul(e, x), Eval(f, scaled, x)));
      { EvalPadded(f, Scale(f, r, c), x); EvalScale(f, r, c, x); assert Products(f, r, e, x); }
      f.mul(s, f.add(f.mul(e, x), f.mul(e, r)));
      { assert Distributes(f, e, x, r); }
      f.mul(s, f.mul(e, f.add(x, r)));
      { assert Products(f, s, f.mul(e, f.add(x, r)), s) && Products(f, e, f.add(x, r), s); }
      f.mul(e, f.mul(f.add(x, r), s));
    }
  }

  lemma {:induction false} EvalBasisPoly<T(!new)>(f: Field<T>, xs: seq<T>, i: nat, n: nat, x: T)
    requires IsField(f) && i < |xs| && n <= |xs|
    ensures Eval(f, BasisPoly(f, xs, i, n), x) == Basis(f, xs, i, x, n)
  {
    if n == 0 {
      assert [f.one][1..] == [];
      assert Products(f, f.zero, x, x) && Products(f, x, x, x) && Sums(f, f.zero, f.one, x) && Sums(f, f.one, x, x);
    } else {
      EvalBasisPoly(f, xs, i, n - 1, x);
      EvalTimesLinear(f, BasisPoly(f, xs, i, n - 1), xs[n - 1], f.inv(f.add(xs[i], xs[n - 1])), x);
    }
  }

  lemma {:induction false} EvalLagrangePoly<T(!new)>(f: Field<T>, xs: seq<T>, ys: seq<T>, n: nat, x: T)
    requires IsField(f) && |xs| == |ys| && n <= |xs|
    ensures Eval(f, LagrangePoly(f, xs, ys, n), x) == Lagrange(f, xs, ys, x, n)
  {
    if n == 0 {
      EvalZeros(f, |xs|, x);
    } else {
      EvalLagrangePoly(f, xs, ys, n - 1, x);
      var b := BasisPoly(f, xs, n - 1, |xs|);
      EvalBasisPoly(f, xs, n - 1, |xs|, x);
      EvalScale(f, ys[n - 1], b, x);
      EvalPlus(f, LagrangePoly(f, xs, ys, n - 1), Scale(f, ys[n - 1], b), x);
    }
  }

  lemma {:induction false} BasisElsewhere<T(!new)>(f: Field<T>, xs: seq<T>, i: nat, k: nat, n: nat)
    requires IsField(f) && i < |xs| && k < n <= |xs| && k != i
    ensures Basis(f, xs, i, xs[k], n) == f.zero
  {
    var tail := f.inv(f.add(xs[i], xs[n - 1]));
    var d := f.add(xs[k], xs[n - 1]);
    var b := Basis(f, xs, i, xs[k], n - 1);
    if k == n - 1 {
      assert Sums(f, xs[k], xs[k], xs[k]);
      assert Products(f, f.zero, tail, b) && Products(f, tail, b, b) && Products(f, b, b, b);
    } else {
      BasisElsewhere(f, xs, i, k, n - 1);
      assert Products(f, f.zero, f.mul(d, tail), b) && Products(f, f.mul(d, tail), b, b);
    }
  }

  lemma {:induction false} BasisAtNode<T(!new)>(f: Field<T>, xs: seq<T>, i: nat, n: nat)
    requires IsField(f) && Distinct(xs) && i < |xs| && n <= |xs|
    ensures Basis(f, xs, i, xs[i], n) == f.one
  {
    if n > 0 {
      BasisAtNode(f, xs, i, n - 1);
      if n - 1 != i {
        var d := f.add(xs[i], xs[n - 1]);
        AddCancels(f, xs[i], xs[n - 1]);
        assert Inverts(f, d) && Products(f, f.one, d, d);
      }
    }
  }

  lemma {:induction false} LagrangeAtNode<T(!new)>(f: Field<T>, xs: seq<T>, ys: seq<T>, k: nat, n: nat)
    requires IsField(f) && Distinct(xs) && |xs| == |ys| && k < |xs| && n <= |xs|
    ensures Lagrange(f, xs, ys, xs[k], n) == if k < n then ys[k] else f.zero
  {
    if n > 0 {
      LagrangeAtNode(f, xs, ys, k, n - 1);
      var y := ys[n - 1];
      assert Products(f, y, y, y) && Sums(f, f.zero, y, y) && Sums(f, y, y, y) && Sums(f, ys[k], y, y) && Sums(f, f.zero, y, y);
      assert Sums(f, f.zero, f.zero, y);
      if k == n - 1 {
        BasisAtNode(f, xs, k, |xs|);
      } else {
        BasisElsewhere(f, xs, n - 1, k, |xs|);
      }
    }
  }

  /** The Lagrange form is, at every x, the value of one polynomial with |xs| coefficients, and that goes through all the points. */
  lemma LagrangeInterpolates<T(!new)>(f: Field<T>, xs: seq<T>, ys: seq<T>)
    requires IsField(f) && Distinct(xs) && |xs| == |ys|
    ensures var p := LagrangePoly(f, xs, ys, |xs|);
      && |p| == |xs|
      && (forall x: T :: Lagrange(f, xs, ys, x, |xs|) == Eval(f, p, x))
      && (forall k :: 0 <= k < |xs| ==> Eval(f, p, xs[k]) == ys[k])
  {
    hide Lagrange, LagrangePoly, Eval;
    var p := LagrangePoly(f, xs, ys, |xs|);
    forall x: T ensures Lagrange(f, xs, ys, x, |xs|) == Eval(f, p, x) { EvalLagrangePoly(f, xs, ys, |xs|, x); }
    forall k | 0 <= k < |xs| ensures Eval(f, p, xs[k]) == ys[k] { LagrangeAtNode(f, xs, ys, k, |xs|); }
  }

  /** The Lagrange form through |c| distinct points of c is c, at every x. */
  lemma LagrangeRecovers<T(!new)>(f: Field<T>, c: seq<T>, xs: seq<T>, ys: seq<T>, x: T)
    requires IsField(f) && Distinct(xs) && |xs| == |ys| == |c|
    requires forall i :: 0 <= i < |xs| ==> ys[i] == Eval(f, c, xs[i])
    ensures Lagrange(f, xs, ys, x, |xs|) == Eval(f, c, x)
  {
    var p := LagrangePoly(f, xs, ys, |xs|);
    LagrangeInterpolates(f, xs, ys);
    Uniqueness(f, p, c, xs);
  }

  /** The value at zero is the low coefficient. */
  lemma EvalAtZero<T(!new)>(f: Field<T>, c: seq<T>)
    requires IsField(f) && c != []
    ensures Eval(f, c, f.zero) == c[0]
  {
    var t := Eval(f, c[1..], f.zero);
    assert Products(f, t, t, t) && Sums(f, f.zero, c[0], t) && Sums(f, c[0], t, t);
  }

  /** Uniqueness, for points given as a set. */
  lemma UniquenessOnSet<T(!new)>(f: Field<T>, c: seq<T>, d: seq<T>, points: set<T>)
    requires IsField(f) && |c| == |d| <= |points|
    requires forall x :: x in points ==> Eval(f, c, x) == Eval(f, d, x)
    ensures c == d
  {
    var xs := Take(points, |c|);
    Uniqueness(f, c, d, xs);
  }

  lemma {:induction false} Take<T>(points: set<T>, n: nat) returns (xs: seq<T>)
    requires n <= |points|
    ensures |xs| == n && Distinct(xs) && forall i :: 0 <= i < n ==> xs[i] in points
    decreases n
  {
    xs := [];
    if n > 0 {
      var x :| x in points;
      var rest := Take(points - {x}, n - 1);
      xs := [x] + rest;
    }
  }
}
