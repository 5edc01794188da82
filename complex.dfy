/** Complex numbers as pairs of reals: the `Complex64` values the convolution
    engine works on, with IEEE rounding replaced by exact real arithmetic. */
module ComplexArith {

  datatype Complex = Complex(re: real, im: real)

  const Zero: Complex := Complex(0.0, 0.0)
  const One: Complex := Complex(1.0, 0.0)

  /** A real sample lifted into the complex plane, as `Complex::new(val, 0.0)`. */
  function FromReal(r: real): Complex {
    Complex(r, 0.0)
  }

  function Add(a: Complex, b: Complex): Complex {
    Complex(a.re + b.re, a.im + b.im)
  }

  function Sub(a: Complex, b: Complex): Complex {
    Complex(a.re - b.re, a.im - b.im)
  }

  /** (a.re + a.im i)(b.re + b.im i), the product behind `*=` on complex bins. */
  function Mul(a: Complex, b: Complex): Complex {
    Complex(a.re * b.re - a.im * b.im, a.re * b.im + a.im * b.re)
  }

  function Pow(z: Complex, n: nat): Complex
    decreases n
  {
    if n == 0 then One else Mul(z, Pow(z, n - 1))
  }

  lemma MulComm(a: Complex, b: Complex)
    ensures Mul(a, b) == Mul(b, a)
  {
  }

  lemma MulAssoc(a: Complex, b: Complex, c: Complex)
    ensures Mul(Mul(a, b), c) == Mul(a, Mul(b, c))
  {
    MulAssocRe(a, b, c);
    MulAssocIm(a, b, c);
  }

  lemma MulAssocRe(a: Complex, b: Complex, c: Complex)
    ensures Mul(Mul(a, b), c).re == Mul(a, Mul(b, c)).re
  {
    assert Mul(Mul(a, b), c).re == a.re * b.re * c.re - a.im * b.im * c.re - a.re * b.im * c.im - a.im * b.re * c.im;
    assert Mul(a, Mul(b, c)).re == a.re * b.re * c.re - a.re * b.im * c.im - a.im * b.re * c.im - a.im * b.im * c.re;
  }

  lemma MulAssocIm(a: Complex, b: Complex, c: Complex)
    ensures Mul(Mul(a, b), c).im == Mul(a, Mul(b, c)).im
  {
    assert Mul(Mul(a, b), c).im == a.re * b.re * c.im - a.im * b.im * c.im + a.re * b.im * c.re + a.im * b.re * c.re;
    assert Mul(a, Mul(b, c)).im == a.re * b.re * c.im + a.re * b.im * c.re + a.im * b.re * c.re - a.im * b.im * c.im;
  }

  /** (ab)(cd) = (ac)(bd). */
  lemma MulInterchange(a: Complex, b: Complex, c: Complex, d: Complex)
    ensures Mul(Mul(a, b), Mul(c, d)) == Mul(Mul(a, c), Mul(b, d))
  {
    calc {
      Mul(Mul(a, b), Mul(c, d));
      { MulAssoc(a, b, Mul(c, d)); }
      Mul(a, Mul(b, Mul(c, d)));
      { MulAssoc(b, c, d); MulComm(b, c); MulAssoc(c, b, d); }
      Mul(a, Mul(c, Mul(b, d)));
      { MulAssoc(a, c, Mul(b, d)); }
      Mul(Mul(a, c), Mul(b, d));
    }
  }

  /** x(yz) = z(xy). */
  lemma MulRotate(x: Complex, y: Complex, z: Complex)
    ensures Mul(x, Mul(y, z)) == Mul(z, Mul(x, y))
  {
    MulAssoc(x, y, z);
    MulComm(Mul(x, y), z);
  }

  lemma MulAddRight(a: Complex, b: Complex, c: Complex)
    ensures Mul(a, Add(b, c)) == Add(Mul(a, b), Mul(a, c))
  {
  }

  lemma MulSubLeft(a: Complex, b: Complex, c: Complex)
    ensures Mul(Sub(a, b), c) == Sub(Mul(a, c), Mul(b, c))
  {
  }

  lemma MulUnit(a: Complex)
    ensures Mul(One, a) == a && Mul(a, One) == a
  {
  }

  lemma MulZero(a: Complex)
    ensures Mul(Zero, a) == Zero && Mul(a, Zero) == Zero
  {
  }

  function Conj(a: Complex): Complex {
    Complex(a.re, -a.im)
  }

  function Product(x: real, y: real): real {
    x * y
  }

  /** |a|^2, written with `Product` so that its sign can be argued about separately. */
  function Norm(a: Complex): real {
    Product(a.re, a.re) + Product(a.im, a.im)
  }

  lemma ProductPositive(x: real, y: real)
    requires x > 0.0 && y > 0.0
    ensures Product(x, y) > 0.0
  {
  }

  lemma SquareSign(x: real)
    ensures Product(x, x) >= 0.0
    ensures x != 0.0 ==> Product(x, x) > 0.0
  {
    if x > 0.0 {
      ProductPositive(x, x);
    } else if x < 0.0 {
      ProductPositive(-x, -x);
      assert Product(-x, -x) == Product(x, x);
    }
  }

  lemma NormPositive(a: Complex)
    requires a != Zero
    ensures Norm(a) > 0.0
  {
    SquareSign(a.re);
    SquareSign(a.im);
  }

  lemma ConjTimes(a: Complex)
    ensures Mul(Conj(a), a) == FromReal(Norm(a))
  {
  }

  lemma ScaledZero(n: real, b: Complex)
    requires n > 0.0 && Mul(FromReal(n), b) == Zero
    ensures b == Zero
  {
    assert n * b.re == 0.0 && n * b.im == 0.0;
  }

  /** The complex numbers form a field: a product is zero only when a factor is. */
  lemma NoZeroDivisors(a: Complex, b: Complex)
    requires Mul(a, b) == Zero
    requires a != Zero
    ensures b == Zero
  {
    NormPositive(a);
    calc {
      Mul(FromReal(Norm(a)), b);
      { ConjTimes(a); }
      Mul(Mul(Conj(a), a), b);
      { MulAssoc(Conj(a), a, b); }
      Mul(Conj(a), Mul(a, b));
      { MulZero(Conj(a)); }
      Zero;
    }
    ScaledZero(Norm(a), b);
  }

  lemma {:induction false} PowAdd(z: Complex, a: nat, b: nat)
    ensures Pow(z, a + b) == Mul(Pow(z, a), Pow(z, b))
    decreases a
  {
    if a == 0 {
      MulUnit(Pow(z, b));
    } else {
      PowAdd(z, a - 1, b);
      MulAssoc(z, Pow(z, a - 1), Pow(z, b));
    }
  }

  lemma {:induction false} PowOfOne(n: nat)
    ensures Pow(One, n) == One
    decreases n
  {
    if n > 0 {
      PowOfOne(n - 1);
      calc {
        Pow(One, n);
        Mul(One, Pow(One, n - 1));
        Mul(One, One);
        { MulUnit(One); }
        One;
      }
    }
  }

  lemma MulNonneg(a: nat, b: nat)
    ensures a * b >= 0
  {
  }

  lemma MulSucc(a: nat, b: nat)
    ensures a * (b + 1) == a + a * b
  {
  }

  lemma {:induction false} PowMul(z: Complex, a: nat, b: nat)
    ensures Pow(z, a * b) == Pow(Pow(z, a), b)
    decreases b
  {
    if b == 0 {
      assert a * b == 0;
    } else {
      MulNonneg(a, b - 1);
      var c: nat := a * (b - 1);
      PowMul(z, a, b - 1);
      MulSucc(a, b - 1);
      PowAdd(z, a, c);
      calc {
        Pow(z, a * b);
        Pow(z, a + c);
        Mul(Pow(z, a), Pow(z, c));
        Mul(Pow(z, a), Pow(Pow(z, a), b - 1));
        Pow(Pow(z, a), b);
      }
    }
  }
}
