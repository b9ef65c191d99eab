/** Arithmetic modulo the reduction polynomial of the B-163 curve: a commutative ring, and a field
    under the hypothesis that the polynomial is irreducible. */
module Gf2Field {
  import opened Gf2Poly

  /** X^163 + X^7 + X^6 + X^3 + 1. */
  const POLY: Poly := {0, 3, 6, 7, 163}

  const DEGREE := 163

  predicate Reduced(a: Poly) { Below(a, DEGREE) }

  ghost function Residue(a: Poly): (r: Poly)
    ensures Reduced(r) && Cong(r, a, POLY)
  {
    PolySize();
    Mod(a, POLY)
  }

  ghost function FMul(a: Poly, b: Poly): (r: Poly)
    ensures Reduced(r)
  {
    Residue(Mul(a, b))
  }

  ghost function Sq(a: Poly): (r: Poly)
    ensures Reduced(r)
  {
    FMul(a, a)
  }

  lemma PolySize()
    ensures Size(POLY) == DEGREE + 1 && POLY != {}
  {
    SizeIs(POLY, DEGREE + 1);
  }

  lemma ReducedSize(a: Poly)
    ensures Reduced(a) <==> Size(a) < Size(POLY)
  {
    PolySize();
  }

  /** Reduced and congruent is to be the residue. */
  lemma ResidueIs(r: Poly, a: Poly)
    requires Reduced(r) && Cong(r, a, POLY)
    ensures Residue(a) == r
  {
    hide Residue, Cong, POLY;
    ReducedSize(r);
    ReducedSize(Residue(a));
    CongSym(Residue(a), a, POLY);
    CongTrans(r, a, Residue(a), POLY);
    CongUnique(r, Residue(a), POLY);
  }

  lemma SameResidue(a: Poly, b: Poly)
    requires Cong(a, b, POLY)
    ensures Residue(a) == Residue(b)
  {
    hide Residue, Cong, POLY;
    CongTrans(Residue(a), a, b, POLY);
    ResidueIs(Residue(a), b);
  }

  lemma ResidueOfReduced(a: Poly)
    requires Reduced(a)
    ensures Residue(a) == a
  {
    hide Residue, Cong;
    CongRefl(a, POLY);
    ResidueIs(a, a);
  }

  lemma ReducedAdd(a: Poly, b: Poly)
    requires Reduced(a) && Reduced(b)
    ensures Reduced(Add(a, b))
  {}

  // ----- ring laws -----

  lemma FMulComm(a: Poly, b: Poly)
    ensures FMul(a, b) == FMul(b, a)
  {
    MulComm(a, b);
  }

  lemma FMulAssoc(a: Poly, b: Poly, c: Poly)
    ensures FMul(FMul(a, b), c) == FMul(a, FMul(b, c))
  {
    hide Residue, Cong, POLY;
    CongRefl(a, POLY);
    CongRefl(c, POLY);
    CongMul(FMul(a, b), Mul(a, b), c, c, POLY);
    CongMul(a, a, FMul(b, c), Mul(b, c), POLY);
    MulAssoc(a, b, c);
    SameResidue(Mul(FMul(a, b), c), Mul(Mul(a, b), c));
    SameResidue(Mul(a, FMul(b, c)), Mul(a, Mul(b, c)));
  }

  lemma ResidueAdd(a: Poly, b: Poly)
    ensures Residue(Add(a, b)) == Add(Residue(a), Residue(b))
  {
    hide Residue, Cong, POLY;
    CongAdd(Residue(a), a, Residue(b), b, POLY);
    ResidueIs(Add(Residue(a), Residue(b)), Add(a, b));
  }

  lemma FMulAdd(a: Poly, b: Poly, c: Poly)
    ensures FMul(a, Add(b, c)) == Add(FMul(a, b), FMul(a, c))
    ensures FMul(Add(b, c), a) == Add(FMul(b, a), FMul(c, a))
  {
    hide Residue, Cong, POLY;
    MulAddRight(a, b, c);
    ResidueAdd(Mul(a, b), Mul(a, c));
    FMulComm(a, b);
    FMulComm(a, c);
    FMulComm(a, Add(b, c));
  }

  lemma FMulOne(a: Poly)
    requires Reduced(a)
    ensures FMul(a, ONE) == a && FMul(ONE, a) == a
  {
    MulOne(a);
    ResidueOfReduced(a);
  }

  lemma FMulZero(a: Poly)
    ensures FMul(a, {}) == {} && FMul({}, a) == {}
  {
    MulZero(a);
    ResidueOfReduced({});
  }

  /** Squaring is additive in characteristic two. */
  lemma SqAdd(a: Poly, b: Poly)
    ensures Sq(Add(a, b)) == Add(Sq(a), Sq(b))
  {
    hide FMul;
    FMulAdd(Add(a, b), a, b);
    FMulAdd(a, a, b);
    FMulAdd(b, a, b);
    FMulComm(a, b);
  }

  lemma SqMul(a: Poly, b: Poly)
    ensures Sq(FMul(a, b)) == FMul(Sq(a), Sq(b))
  {
    hide FMul;
    FMulAssoc(FMul(a, b), a, b);
    FMulComm(FMul(a, b), a);
    FMulAssoc(a, a, b);
    FMulAssoc(Sq(a), b, b);
  }

  // ----- inverses -----

  /** The hypothesis under which the ring is a field. */
  ghost predicate Irreducible() { forall x: Poly :: x != {} && Reduced(x) ==> Coprime(x, POLY) }

  ghost predicate IsInverse(x: Poly, z: Poly) { Reduced(z) && FMul(x, z) == ONE }

  ghost function Inv(x: Poly): (z: Poly)
    ensures Reduced(z)
  {
    if exists z: Poly :: IsInverse(x, z) then (var z: Poly :| IsInverse(x, z); z) else {}
  }

  lemma InvIs(x: Poly, z: Poly)
    requires IsInverse(x, z)
    ensures Inv(x) == z
  {
    hide FMul;
    var w := Inv(x);
    assert IsInverse(x, w);
    FMulOne(w);
    FMulOne(z);
    FMulAssoc(w, x, z);
    FMulComm(w, x);
  }

  /** Bezout's coefficient of x is its inverse. */
  lemma CoprimeHasInverse(x: Poly)
    requires Coprime(x, POLY)
    ensures IsInverse(x, Inv(x))
  {
    hide Residue, POLY, Cong;
    var a: Poly, b: Poly :| Add(Mul(a, x), Mul(b, POLY)) == ONE;
    CongBy(ONE, Mul(a, x), POLY, b) by { assert Add(ONE, Mul(a, x)) == Mul(b, POLY); }
    var z := Residue(a);
    CongRefl(x, POLY);
    CongMul(z, a, x, x, POLY);
    CongSym(ONE, Mul(a, x), POLY);
    CongTrans(Mul(z, x), Mul(a, x), ONE, POLY);
    SameResidue(Mul(z, x), ONE);
    ResidueOfReduced(ONE);
    FMulComm(x, z);
    InvIs(x, z);
  }

  lemma InverseExists(x: Poly)
    requires Irreducible() && x != {} && Reduced(x)
    ensures IsInverse(x, Inv(x))
  {
    CoprimeHasInverse(x);
  }

  lemma SumOfDifferent(a: Poly, b: Poly)
    requires a != b
    ensures Add(a, b) != {}
  {
    if k :| k in a && k !in b {
      assert k in Add(a, b);
    } else {
      var k :| k in b && k !in a;
      assert k in Add(a, b);
    }
  }

  /** An invertible factor may be cancelled. */
  lemma Cancel(x: Poly, a: Poly, z: Poly)
    requires IsInverse(x, z) && Reduced(a) && FMul(x, a) == {}
    ensures a == {}
  {
    hide FMul;
    FMulAssoc(z, x, a);
    FMulComm(z, x);
    FMulOne(a);
    FMulZero(z);
  }

  // ----- one step of the shift-and-reduce product -----

  lemma ShiftCong(b: Poly, p: Poly, n: nat)
    requires Cong(b, Shift(p, n), POLY)
    ensures Cong(Shift(b, 1), Shift(p, n + 1), POLY)
  {
    hide Shift, Cong, POLY;
    MulMonomial(1, b);
    MulMonomial(1, Shift(p, n));
    ShiftShift(p, n, 1);
    CongMulRight(b, Shift(p, n), {1}, POLY);
  }

  /** Doubling a reduced element needs at most one subtraction of the modulus. */
  lemma DoubleReduced(b: Poly)
    requires Reduced(b)
    ensures Below(Shift(b, 1), DEGREE + 1)
    ensures DEGREE in Shift(b, 1) ==> Reduced(Add(Shift(b, 1), POLY)) && Cong(Add(Shift(b, 1), POLY), Shift(b, 1), POLY)
    ensures DEGREE !in Shift(b, 1) ==> Reduced(Shift(b, 1))
  {
    hide Cong;
    CongModulus(Shift(b, 1), POLY);
    ShiftedBelow(b);
    if DEGREE in Shift(b, 1) {
      TopCancels(Shift(b, 1));
    }
  }

  lemma ShiftedBelow(b: Poly)
    requires Reduced(b)
    ensures Below(Shift(b, 1), DEGREE + 1)
  {}

  lemma TopCancels(s: Poly)
    requires Below(s, DEGREE + 1) && DEGREE in s
    ensures Reduced(Add(s, POLY))
  {
    PolySize();
  }

  lemma SumCong(z: Poly, s: Poly, b: Poly, t: Poly)
    requires Reduced(z) && Reduced(b) && Cong(z, s, POLY) && Cong(b, t, POLY)
    ensures Reduced(Add(z, b)) && Cong(Add(z, b), Add(s, t), POLY)
  {
    hide Cong, POLY;
    CongAdd(z, s, b, t, POLY);
  }

  lemma ProductDone(z: Poly, x: Poly, y: Poly)
    requires Reduced(z) && Reduced(y) && Cong(z, MulUpTo(y, x, DEGREE), POLY)
    ensures z == FMul(x, y)
  {
    hide Cong, POLY;
    MulIs(y, x, DEGREE);
    MulComm(x, y);
    ResidueIs(z, Mul(x, y));
  }

  // ----- the invariant of the inversion -----

  /** u and v are coprime and equal x z and x g modulo the polynomial; the cofactors are no larger than
      the progress on the other side allows. */
  ghost predicate Euclid(x: Poly, u: Poly, v: Poly, g: Poly, z: Poly) {
    && Coprime(u, v) && u != {} && v != {} && v != ONE
    && Cong(u, Mul(x, z), POLY) && Cong(v, Mul(x, g), POLY)
    && Size(z) + Size(v) <= DEGREE + 2 && Size(g) + Size(u) <= DEGREE + 2
  }

  lemma NotOne()
    ensures POLY != ONE
  {
    assert 3 in POLY;
  }

  lemma EuclidStart(x: Poly)
    requires Reduced(x) && Coprime(x, POLY)
    ensures Euclid(x, x, POLY, {}, ONE)
  {
    PolySize();
    NotOne();
    if x == {} {
      CoprimeZero(POLY);
    }
    hide POLY, Cong;
    MulOne(x);
    MulZero(x);
    CongRefl(x, POLY);
    CongModulus({}, POLY);
    assert Add({}, POLY) == POLY;
    SizeIs(ONE, 1);
    SizeIs({}, 0);
    ReducedSize(x);
  }

  lemma EuclidSwap(x: Poly, u: Poly, v: Poly, g: Poly, z: Poly)
    requires Euclid(x, u, v, g, z) && u != ONE
    ensures Euclid(x, v, u, z, g)
  {
    hide Cong, Coprime, POLY;
    CoprimeSym(u, v);
  }

  /** The step keeps the invariant, loses no bit of the 192 and shrinks u. */
  lemma EuclidStep(x: Poly, u: Poly, v: Poly, g: Poly, z: Poly, n: nat)
    requires Euclid(x, u, v, g, z) && Size(u) == Size(v) + n
    ensures Euclid(x, Add(u, Shift(v, n)), v, g, Add(z, Shift(g, n)))
    ensures Size(Add(u, Shift(v, n))) < Size(u)
    ensures Below(Shift(v, n), DEGREE + 2) && Below(Shift(g, n), DEGREE + 2)
  {
    hide Cong, Coprime, POLY, Shift, Add;
    ShiftSize(v, n);
    ShiftSize(g, n);
    AddSize(u, Shift(v, n));
    AddSize(z, Shift(g, n));
    CoprimeStep(u, v, n);
    if Add(u, Shift(v, n)) == {} {
      CoprimeZero(v);
    }
    // u + X^n v = x (z + X^n g)
    MulMonomial(n, v);
    CongMulRight(v, Mul(x, g), {n}, POLY);
    MulMonomial(n, Mul(x, g));
    MulShift(x, g, n);
    MulAddRight(x, z, Shift(g, n));
    CongAdd(u, Mul(x, z), Shift(v, n), Mul(x, Shift(g, n)), POLY);
  }

  lemma EuclidDone(x: Poly, v: Poly, g: Poly, z: Poly)
    requires Euclid(x, ONE, v, g, z)
    ensures IsInverse(x, z) && Inv(x) == z
  {
    hide Cong, Coprime, POLY;
    SizeTwo(v);
    CongSym(ONE, Mul(x, z), POLY);
    SameResidue(Mul(x, z), ONE);
    ResidueOfReduced(ONE);
    InvIs(x, z);
  }

  lemma SizeTwo(v: Poly)
    requires v != {} && v != ONE
    ensures Size(v) >= 2
  {
    if Size(v) == 1 {
      SizeOne(v);
    }
  }

  lemma SizeOne(v: Poly)
    requires Size(v) == 1
    ensures v == ONE
  {
    assert 0 in v;
  }
}

/** Points of y^2 + xy = x^3 + x^2 + b, with (0, 0) for the point at infinity, and the laws of
    doubling and adding them. */
module Gf2Curve {
  import opened Gf2Poly
  import opened Gf2Field

  datatype Point = Point(x: Poly, y: Poly)

  const O := Point({}, {})

  /** y^2 + xy + x^3 + x^2 + b. */
  ghost function Equation(b: Poly, x: Poly, y: Poly): Poly {
    Add(Add(Sq(y), FMul(x, y)), Add(Add(FMul(Sq(x), x), Sq(x)), b))
  }

  ghost predicate OnCurve(b: Poly, p: Point) {
    Reduced(p.x) && Reduced(p.y) && (p == O || Equation(b, p.x, p.y) == {})
  }

  /** The tangent construction: slope x + y/x. */
  ghost function Double(p: Point): Point {
    if p.x == {} then O
    else
      var l := Add(FMul(Inv(p.x), p.y), p.x);
      var x3 := Add(Add(Sq(l), l), ONE);
      Point(x3, Add(Sq(p.x), FMul(Add(l, ONE), x3)))
  }

  /** The chord construction: slope (y1 + y2)/(x1 + x2). */
  ghost function Chord(p: Point, q: Point): Point {
    var l := FMul(Inv(Add(p.x, q.x)), Add(p.y, q.y));
    var x3 := Add(Add(Add(Sq(l), l), Add(p.x, q.x)), ONE);
    Point(x3, Add(Add(FMul(l, Add(p.x, x3)), x3), p.y))
  }

  ghost function Plus(p: Point, q: Point): Point {
    if q == O then p
    else if p == O then q
    else if p.x == q.x then (if p.y == q.y then Double(p) else O)
    else Chord(p, q)
  }

  lemma OneReduced()
    ensures Reduced(ONE)
  {}

  lemma EmptyReduced()
    ensures Reduced({})
  {}

  // ----- doubling stays on the curve -----

  /** y = x^2 + xl on the curve means b = x^4 + x^2 (l^2 + l + 1). */
  lemma TangentConstant(b: Poly, x: Poly, l: Poly)
    requires Reduced(x) && Reduced(l) && Reduced(b) && Equation(b, x, Add(Sq(x), FMul(x, l))) == {}
    ensures b == Add(Sq(Sq(x)), FMul(Sq(x), Add(Add(Sq(l), l), ONE)))
  {
    hide FMul, Sq;
    SqAdd(Sq(x), FMul(x, l));
    SqMul(x, l);
    FMulAdd(x, Sq(x), FMul(x, l));
    FMulAssocSq(x, l);
    FMulComm(x, Sq(x));
    FMulAdd(Sq(x), Add(Sq(l), l), ONE);
    FMulAdd(Sq(x), Sq(l), l);
    FMulOne(Sq(x));
    hide Reduced, Add;
    TangentSum(Sq(Sq(x)), FMul(Sq(x), Sq(l)), FMul(Sq(x), x), FMul(Sq(x), l), Sq(x), b);
  }

  lemma FMulAssocSq(x: Poly, l: Poly)
    ensures FMul(x, FMul(x, l)) == FMul(Sq(x), l)
  {
    FMulAssoc(x, x, l);
  }

  lemma TangentSum(x4: Poly, x2l2: Poly, x3: Poly, x2l: Poly, x2: Poly, b: Poly)
    requires Add(Add(Add(x4, x2l2), Add(x3, x2l)), Add(Add(x3, x2), b)) == {}
    ensures b == Add(x4, Add(Add(x2l2, x2l), x2))
  {
    forall k: nat ensures k in b <==> k in Add(x4, Add(Add(x2l2, x2l), x2)) {
      assert k !in Add(Add(Add(x4, x2l2), Add(x3, x2l)), Add(Add(x3, x2), b));
    }
  }

  /** The third point of a tangent satisfies the equation. */
  lemma TangentThird(x: Poly, l: Poly, x3: Poly, b: Poly)
    requires Reduced(x) && Reduced(l) && x3 == Add(Add(Sq(l), l), ONE) && b == Add(Sq(Sq(x)), FMul(Sq(x), x3))
    ensures Equation(b, x3, Add(Sq(x), FMul(Add(l, ONE), x3))) == {}
  {
    hide FMul, Sq;
    OneReduced();
    var l1 := Add(l, ONE);
    SqAdd(Sq(x), FMul(l1, x3));
    SqMul(l1, x3);
    FMulAdd(x3, Sq(x), FMul(l1, x3));
    FMulComm(x3, Sq(x));
    FMulComm(l1, x3);
    FMulAssocSq(x3, l1);
    FMulComm(Sq(l1), Sq(x3));
    FMulAdd(Sq(x3), Sq(l1), l1);
    SqAdd(l, ONE);
    SqOne();
    assert Add(Sq(l1), l1) == Add(x3, ONE);
    FMulAdd(Sq(x3), x3, ONE);
    FMulOne(Sq(x3));
    hide Reduced, Add;
    ThirdSum(Sq(Sq(x)), FMul(Sq(x3), Sq(l1)), FMul(Sq(x), x3), FMul(Sq(x3), l1), FMul(Sq(x3), x3), Sq(x3), b);
  }

  lemma SqOne()
    ensures Sq(ONE) == ONE
  {
    OneReduced();
    FMulOne(ONE);
  }

  lemma ThirdSum(x4: Poly, q: Poly, x2x3: Poly, r: Poly, c: Poly, s: Poly, b: Poly)
    requires b == Add(x4, x2x3) && Add(q, r) == Add(c, s)
    ensures Add(Add(Add(x4, q), Add(x2x3, r)), Add(Add(c, s), b)) == {}
  {
    forall k: nat ensures k !in Add(Add(Add(x4, q), Add(x2x3, r)), Add(Add(c, s), b)) {
      assert k in Add(q, r) <==> k in Add(c, s);
    }
  }

  lemma DoubleOnCurve(b: Poly, p: Point)
    requires Irreducible() && Reduced(b) && OnCurve(b, p)
    ensures OnCurve(b, Double(p))
  {
    hide FMul, Sq, Inv, Equation, Irreducible, IsInverse, Add, Reduced;
    EmptyReduced();
    if p.x != {} {
      var l := Add(FMul(Inv(p.x), p.y), p.x);
      var x3 := Add(Add(Sq(l), l), ONE);
      OneReduced();
      ReducedAdd(FMul(Inv(p.x), p.y), p.x);
      ReducedAdd(Sq(l), l);
      ReducedAdd(Add(Sq(l), l), ONE);
      ReducedAdd(Sq(p.x), FMul(Add(l, ONE), x3));
      InverseExists(p.x);
      SlopeOfTangent(p.x, p.y, l);
      TangentConstant(b, p.x, l);
      TangentThird(p.x, l, x3, b);
    }
  }

  lemma SlopeOfTangent(x: Poly, y: Poly, l: Poly)
    requires Reduced(y) && IsInverse(x, Inv(x)) && l == Add(FMul(Inv(x), y), x)
    ensures y == Add(Sq(x), FMul(x, l))
  {
    hide FMul, Inv, Reduced;
    FMulAdd(x, FMul(Inv(x), y), x);
    FMulAssoc(x, Inv(x), y);
    FMulOne(y);
    assert FMul(x, l) == Add(y, Sq(x));
  }

  // ----- adding stays on the curve -----

  /** The curve equation along the line y = lx + m: a monic cubic in x. */
  ghost function Cubic(b: Poly, l: Poly, m: Poly, x: Poly): Poly {
    Add(Add(FMul(Sq(x), x), FMul(Add(Add(Sq(l), l), ONE), Sq(x))), Add(FMul(m, x), Add(Sq(m), b)))
  }

  lemma EquationOnLine(b: Poly, l: Poly, m: Poly, x: Poly)
    requires Reduced(x)
    ensures Equation(b, x, Add(FMul(l, x), m)) == Cubic(b, l, m, x)
  {
    hide FMul, Sq;
    SqAdd(FMul(l, x), m);
    SqMul(l, x);
    FMulAdd(x, FMul(l, x), m);
    FMulComm(l, x);
    FMulAssocSq(x, l);
    FMulComm(Sq(x), l);
    FMulComm(x, m);
    FMulAdd(Sq(x), Add(Sq(l), l), ONE);
    FMulAdd(Sq(x), Sq(l), l);
    FMulOne(Sq(x));
    hide Reduced, Add;
    LineSum(FMul(Sq(l), Sq(x)), Sq(m), FMul(l, Sq(x)), FMul(m, x), FMul(Sq(x), x), Sq(x), b);
  }

  lemma LineSum(a: Poly, m2: Poly, c: Poly, mx: Poly, x3: Poly, x2: Poly, b: Poly)
    ensures Add(Add(Add(a, m2), Add(c, mx)), Add(Add(x3, x2), b))
            == Add(Add(x3, Add(Add(a, c), x2)), Add(mx, Add(m2, b)))
  {}

  /** What divides out of the cubic at two places. */
  ghost function Quotient(s: Poly, m: Poly, x: Poly, z: Poly): Poly {
    Add(Add(Add(Sq(x), FMul(x, z)), Sq(z)), Add(FMul(s, Add(x, z)), m))
  }

  lemma CubicDifference(b: Poly, l: Poly, m: Poly, x: Poly, z: Poly)
    ensures Add(Cubic(b, l, m, x), Cubic(b, l, m, z)) == FMul(Add(x, z), Quotient(Add(Add(Sq(l), l), ONE), m, x, z))
  {
    hide FMul, Sq;
    var s, d := Add(Add(Sq(l), l), ONE), Add(x, z);
    FMulAdd(d, Add(Add(Sq(x), FMul(x, z)), Sq(z)), Add(FMul(s, d), m));
    FMulAdd(d, Add(Sq(x), FMul(x, z)), Sq(z));
    FMulAdd(d, Sq(x), FMul(x, z));
    FMulAdd(d, FMul(s, d), m);
    CubesFactor(x, z);
    SlopeFactor(s, x, z);
    FMulComm(d, m);
    FMulAdd(m, x, z);
    hide Add;
    DifferenceSum(FMul(Sq(x), x), FMul(s, Sq(x)), FMul(m, x), Add(Sq(m), b), FMul(Sq(z), z), FMul(s, Sq(z)), FMul(m, z),
                  FMul(d, Sq(x)), FMul(d, FMul(x, z)), FMul(d, Sq(z)), FMul(d, FMul(s, d)), FMul(d, m));
  }

  /** (x + z)(x^2 + xz + z^2) = x^3 + z^3. */
  lemma CubesFactor(x: Poly, z: Poly)
    ensures Add(Add(FMul(Add(x, z), Sq(x)), FMul(Add(x, z), FMul(x, z))), FMul(Add(x, z), Sq(z)))
            == Add(FMul(Sq(x), x), FMul(Sq(z), z))
  {
    hide FMul, Sq;
    FMulAdd(Sq(x), x, z);
    FMulAdd(Sq(z), x, z);
    FMulAdd(FMul(x, z), x, z);
    FMulComm(x, Sq(x));
    FMulComm(z, Sq(z));
    FMulAssocSq(x, z);
    FMulComm(x, z);
    FMulAssocSq(z, x);
    FMulComm(z, Sq(x));
    FMulComm(x, Sq(z));
  }

  /** (x + z) s (x + z) = s x^2 + s z^2. */
  lemma SlopeFactor(s: Poly, x: Poly, z: Poly)
    ensures FMul(Add(x, z), FMul(s, Add(x, z))) == Add(FMul(s, Sq(x)), FMul(s, Sq(z)))
  {
    hide FMul, Sq;
    FMulComm(s, Add(x, z));
    FMulAssocSq(Add(x, z), s);
    SqAdd(x, z);
    FMulAdd(s, Sq(x), Sq(z));
    FMulComm(s, Add(Sq(x), Sq(z)));
  }

  lemma DifferenceSum(x3: Poly, sx: Poly, mx: Poly, c: Poly, z3: Poly, sz: Poly, mz: Poly, p: Poly, q: Poly, r: Poly,
                      t: Poly, u: Poly)
    requires Add(Add(p, q), r) == Add(x3, z3) && t == Add(sx, sz) && u == Add(mx, mz)
    ensures Add(Add(Add(x3, sx), Add(mx, c)), Add(Add(z3, sz), Add(mz, c))) == Add(Add(Add(p, q), r), Add(t, u))
  {}

  /** The quotient at x1 and x2 is also the quotient at x1 and the third root. */
  lemma QuotientMoves(s: Poly, m: Poly, x1: Poly, x2: Poly)
    ensures Quotient(s, m, Add(s, Add(x1, x2)), x1) == Quotient(s, m, x1, x2)
  {
    hide FMul, Sq;
    var t := Add(s, x2);
    assert Add(s, Add(x1, x2)) == Add(x1, t) && Add(Add(x1, t), x1) == t;
    SqAdd(x1, t);
    FMulAdd(x1, x1, t);
    FMulComm(t, x1);
    SqAdd(s, x2);
    FMulAdd(s, s, x2);
    FMulAdd(x1, s, x2);
    FMulAdd(s, x1, x2);
    FMulComm(s, x1);
    SqIs(s);
    SqIs(x1);
    FMulComm(x1, x2);
    hide Add;
    MovedSum(Sq(x1), Sq(t), FMul(t, x1), FMul(s, t), m, Sq(s), Sq(x2), FMul(s, x1), FMul(x1, x2), FMul(s, x2));
  }

  lemma MovedSum(a: Poly, t2: Poly, tx: Poly, st: Poly, m: Poly, s2: Poly, c: Poly, sx: Poly, xx: Poly, sy: Poly)
    requires t2 == Add(s2, c) && tx == Add(sx, xx) && st == Add(s2, sy)
    ensures Add(Add(Add(Add(a, t2), Add(a, tx)), a), Add(st, m)) == Add(Add(Add(a, xx), c), Add(Add(sx, sy), m))
  {}

  lemma SqIs(a: Poly)
    ensures Sq(a) == FMul(a, a)
  {}

  /** On a chord the equation does not tell y from y + x. */
  lemma EquationMirrored(b: Poly, x: Poly, y: Poly)
    ensures Equation(b, x, Add(y, x)) == Equation(b, x, y)
  {
    hide FMul, Sq;
    SqAdd(y, x);
    FMulAdd(x, y, x);
    SqIs(x);
  }

  lemma ChordLine(x1: Poly, y1: Poly, x2: Poly, y2: Poly, l: Poly)
    requires IsInverse(Add(x1, x2), Inv(Add(x1, x2))) && l == FMul(Inv(Add(x1, x2)), Add(y1, y2)) && Reduced(y1)
             && Reduced(y2)
    ensures y1 == Add(FMul(l, x1), Add(FMul(l, x1), y1)) && y2 == Add(FMul(l, x2), Add(FMul(l, x1), y1))
  {
    hide FMul, Inv;
    var d := Add(x1, x2);
    FMulAssoc(d, Inv(d), Add(y1, y2));
    FMulOne(Add(y1, y2));
    FMulComm(d, l);
    FMulAdd(l, x1, x2);
    assert Add(FMul(l, x1), FMul(l, x2)) == Add(y1, y2);
  }

  lemma ChordOnCurve(b: Poly, p: Point, q: Point)
    requires Reduced(b) && OnCurve(b, p) && OnCurve(b, q) && p != O && q != O
             && IsInverse(Add(p.x, q.x), Inv(Add(p.x, q.x)))
    ensures OnCurve(b, Chord(p, q))
  {
    hide FMul, Sq, Inv, Equation, Cubic, Quotient, IsInverse, Add, Reduced;
    var d := Add(p.x, q.x);
    var l := FMul(Inv(d), Add(p.y, q.y));
    var m, s := Add(FMul(l, p.x), p.y), Add(Add(Sq(l), l), ONE);
    var x3 := Add(Add(Add(Sq(l), l), d), ONE);
    ChordReduced(p, q, l, m, x3);
    ChordLine(p.x, p.y, q.x, q.y, l);
    EquationOnLine(b, l, m, p.x);
    EquationOnLine(b, l, m, q.x);
    CubicDifference(b, l, m, p.x, q.x);
    SumsOfZero(Cubic(b, l, m, x3));
    QuotientReduced(s, m, p.x, q.x);
    Cancel(d, Quotient(s, m, p.x, q.x), Inv(d));
    ChordSums(Add(Sq(l), l), d, FMul(l, p.x), FMul(l, x3), x3, p.y);
    QuotientMoves(s, m, p.x, q.x);
    CubicDifference(b, l, m, x3, p.x);
    FMulZero(Add(x3, p.x));
    EquationOnLine(b, l, m, x3);
    EquationMirrored(b, x3, Add(FMul(l, x3), m));
    FMulAdd(l, p.x, x3);
  }

  lemma ChordReduced(p: Point, q: Point, l: Poly, m: Poly, x3: Poly)
    requires Reduced(p.x) && Reduced(p.y) && Reduced(q.x) && Reduced(q.y) && Reduced(l)
    requires m == Add(FMul(l, p.x), p.y) && x3 == Add(Add(Add(Sq(l), l), Add(p.x, q.x)), ONE)
    ensures Reduced(m) && Reduced(x3) && Reduced(Add(Add(FMul(l, Add(p.x, x3)), x3), p.y))
  {
    hide FMul, Sq, Add, Reduced;
    OneReduced();
    ReducedAdd(FMul(l, p.x), p.y);
    ReducedAdd(Sq(l), l);
    ReducedAdd(p.x, q.x);
    ReducedAdd(Add(Sq(l), l), Add(p.x, q.x));
    ReducedAdd(Add(Add(Sq(l), l), Add(p.x, q.x)), ONE);
    ReducedAdd(FMul(l, Add(p.x, x3)), x3);
    ReducedAdd(Add(FMul(l, Add(p.x, x3)), x3), p.y);
  }

  lemma SumsOfZero(c: Poly)
    ensures Add({}, {}) == {} && Add(c, {}) == c
  {}

  lemma ChordSums(a: Poly, d: Poly, lx: Poly, lx3: Poly, x3: Poly, y: Poly)
    ensures Add(Add(a, d), ONE) == Add(Add(a, ONE), d)
    ensures Add(Add(Add(lx, lx3), x3), y) == Add(Add(lx3, Add(lx, y)), x3)
  {}

  lemma QuotientReduced(s: Poly, m: Poly, x: Poly, z: Poly)
    requires Reduced(m)
    ensures Reduced(Quotient(s, m, x, z))
  {
    hide FMul, Sq;
  }

  /** Adding any two points of the curve, through every branch, gives a point of the curve. */
  lemma PlusOnCurve(b: Poly, p: Point, q: Point)
    requires Irreducible() && Reduced(b) && OnCurve(b, p) && OnCurve(b, q)
    ensures OnCurve(b, Plus(p, q))
  {
    hide FMul, Sq, Inv, Equation, Chord, Double, Irreducible, IsInverse;
    if q != O && p != O {
      if p.x == q.x {
        if p.y == q.y {
          DoubleOnCurve(b, p);
        }
      } else {
        var d := Add(p.x, q.x);
        SumOfDifferent(p.x, q.x);
        InverseExists(d);
        ChordOnCurve(b, p, q);
      }
    }
  }

  // ----- adding by the line through both points -----

  /** The mirror image of a point. */
  ghost function Neg(p: Point): Point { Point(p.x, Add(p.y, p.x)) }

  /** A point and its mirror image cancel. */
  lemma NegCancels(b: Poly, p: Point)
    requires OnCurve(b, p)
    ensures OnCurve(b, Neg(p)) && Plus(p, Neg(p)) == O == Plus(Neg(p), p) && Neg(Neg(p)) == p
  {
    hide FMul, Sq, Inv, Equation, Chord;
    EquationMirrored(b, p.x, p.y);
    ReducedAdd(p.y, p.x);
    if p.x != {} { SumMoves(p.y, p.x); }
    assert Add(Add(p.y, p.x), p.x) == p.y;
  }

  lemma SumMoves(a: Poly, d: Poly)
    requires d != {}
    ensures Add(a, d) != a
  {
    var k :| k in d;
    assert k in Add(a, d) <==> k !in a;
  }

  /** The slope of the line through two points of the curve, or of the tangent at one. */
  ghost predicate IsSlope(p: Point, q: Point, l: Poly) {
    && Reduced(l)
    && if p.x != q.x then FMul(l, Add(p.x, q.x)) == Add(p.y, q.y)
       else p == q && p.x != {} && FMul(l, p.x) == Add(Sq(p.x), p.y)
  }

  /** The line of slope l through p. */
  ghost function LineAt(l: Poly, p: Point, x: Poly): Poly { Add(p.y, FMul(l, Add(x, p.x))) }

  lemma SlopeExists(p: Point, q: Point) returns (l: Poly)
    requires Irreducible() && Reduced(p.x) && Reduced(p.y) && Reduced(q.x) && Reduced(q.y)
    requires p.x != q.x || (p == q && p.x != {})
    ensures IsSlope(p, q, l)
  {
    hide FMul, Sq, Inv, Irreducible, Add, Reduced;
    if p.x != q.x {
      ReducedAdd(p.x, q.x);
      ReducedAdd(p.y, q.y);
      SumOfDifferent(p.x, q.x);
      l := Divided(Add(p.y, q.y), Add(p.x, q.x));
    } else {
      ReducedAdd(Sq(p.x), p.y);
      l := Divided(Add(Sq(p.x), p.y), p.x);
    }
  }

  lemma Divided(a: Poly, d: Poly) returns (l: Poly)
    requires Irreducible() && Reduced(a) && Reduced(d) && d != {}
    ensures Reduced(l) && FMul(l, d) == a && l == FMul(Inv(d), a)
  {
    hide FMul, Inv, Irreducible;
    InverseExists(d);
    l := FMul(Inv(d), a);
    FMulComm(l, d);
    FMulAssoc(d, Inv(d), a);
    FMulOne(a);
  }

  lemma SlopeUnique(a: Poly, d: Poly, l: Poly)
    requires Irreducible() && Reduced(a) && Reduced(d) && d != {} && Reduced(l) && FMul(l, d) == a
    ensures l == FMul(Inv(d), a)
  {
    hide FMul, Inv, Irreducible;
    InverseExists(d);
    FMulComm(l, d);
    FMulComm(Inv(d), d);
    FMulAssoc(Inv(d), d, l);
    FMulOne(l);
  }

  /** A cubic with a root x1 and a quotient with a root x2 splits. */
  lemma LineMeets(b: Poly, l: Poly, m: Poly, x1: Poly, x2: Poly, x: Poly)
    requires Cubic(b, l, m, x1) == {} && Quotient(Add(Add(Sq(l), l), ONE), m, x1, x2) == {}
    ensures Cubic(b, l, m, x)
         == FMul(FMul(Add(x, x1), Add(x, x2)), Add(x, Add(Add(Add(Sq(l), l), ONE), Add(x1, x2))))
  {
    hide FMul, Sq, Cubic, Quotient;
    var s := Add(Add(Sq(l), l), ONE);
    CubicDifference(b, l, m, x, x1);
    QuotientSplits(s, m, x1, x2, x);
    FMulAssoc(Add(x, x1), Add(x, x2), Add(x, Add(s, Add(x1, x2))));
    hide Add;
    SumsOfZero(Cubic(b, l, m, x));
    SumsOfZero(Quotient(s, m, x, x1));
  }

  lemma QuotientSplits(s: Poly, m: Poly, x1: Poly, x2: Poly, x: Poly)
    ensures Add(Quotient(s, m, x, x1), Quotient(s, m, x1, x2)) == FMul(Add(x, x2), Add(x, Add(s, Add(x1, x2))))
  {
    hide FMul, Sq;
    var d := Add(x, x2);
    assert Add(x, Add(s, Add(x1, x2))) == Add(d, Add(x1, s));
    FMulAdd(d, d, Add(x1, s));
    FMulAdd(d, x1, s);
    SqIs(d);
    SqAdd(x, x2);
    FMulAdd(x1, x, x2);
    FMulAdd(s, x, x2);
    FMulAdd(s, x, x1);
    FMulAdd(s, x1, x2);
    FMulComm(x1, x2);
    FMulComm(d, s);
    hide Add;
    SplitSum(Sq(x), FMul(x, x1), Sq(x1), FMul(s, x), FMul(s, x1), m, FMul(x2, x1), Sq(x2), FMul(s, x2));
  }

  lemma SplitSum(xx: Poly, xa: Poly, aa: Poly, sx: Poly, sa: Poly, m: Poly, ba: Poly, bb: Poly, sb: Poly)
    ensures Add(Add(Add(Add(xx, xa), aa), Add(Add(sx, sa), m)), Add(Add(Add(aa, ba), bb), Add(Add(sa, sb), m)))
            == Add(Add(xx, bb), Add(Add(xa, ba), Add(sx, sb)))
  {}

  /** The line through both points, as lx + m. */
  lemma LineForm(l: Poly, p: Point, x: Poly)
    ensures LineAt(l, p, x) == Add(FMul(l, x), Add(FMul(l, p.x), p.y))
  {
    hide FMul;
    FMulAdd(l, x, p.x);
  }

  /** What the sum of two points is: the line through both (the tangent if they are one) meets the curve in
      the mirror image of the sum, and in no other third point. */
  lemma PlusIsThird(b: Poly, p: Point, q: Point, l: Poly)
    requires Irreducible() && Reduced(b) && OnCurve(b, p) && OnCurve(b, q) && p != O && q != O && IsSlope(p, q, l)
    ensures var r := Plus(p, q);
      && Neg(r).y == LineAt(l, p, r.x)
      && forall x: Poly :: Reduced(x) ==>
           Equation(b, x, LineAt(l, p, x)) == FMul(FMul(Add(x, p.x), Add(x, q.x)), Add(x, r.x))
  {
    hide FMul, Sq, Inv, Equation, Cubic, Quotient, Irreducible, Add, Reduced, LineAt, Chord, Double, IsInverse;
    var m, s := Add(FMul(l, p.x), p.y), Add(Add(Sq(l), l), ONE);
    LineForm(l, p, p.x);
    LineThrough(l, p);
    EquationOnLine(b, l, m, p.x);
    if p.x != q.x {
      ChordMeets(b, p, q, l);
      SumIsChord(b, p, q, l);
    } else {
      TangentMeets(b, p, l);
      SumIsDouble(b, p, l);
    }
    forall x: Poly | Reduced(x)
      ensures Equation(b, x, LineAt(l, p, x)) == FMul(FMul(Add(x, p.x), Add(x, q.x)), Add(x, Plus(p, q).x))
    {
      LineForm(l, p, x);
      EquationOnLine(b, l, m, x);
      LineMeets(b, l, m, p.x, q.x, x);
    }
  }

  lemma LineThrough(l: Poly, p: Point)
    ensures LineAt(l, p, p.x) == p.y
  {
    FMulZero(l);
    assert Add(p.x, p.x) == {} && Add(p.y, {}) == p.y;
  }

  lemma ChordMeets(b: Poly, p: Point, q: Point, l: Poly)
    requires Irreducible() && Reduced(b) && OnCurve(b, p) && OnCurve(b, q) && p != O && q != O
    requires p.x != q.x && IsSlope(p, q, l)
    ensures Quotient(Add(Add(Sq(l), l), ONE), Add(FMul(l, p.x), p.y), p.x, q.x) == {}
  {
    hide FMul, Sq, Inv, Equation, Cubic, Quotient, Irreducible, Reduced, LineAt, Add, IsInverse;
    var d, m, s := Add(p.x, q.x), Add(FMul(l, p.x), p.y), Add(Add(Sq(l), l), ONE);
    FMulAdd(l, p.x, q.x);
    OnChord(FMul(l, p.x), FMul(l, q.x), p.y, q.y);
    EquationOnLine(b, l, m, p.x);
    EquationOnLine(b, l, m, q.x);
    CubicDifference(b, l, m, p.x, q.x);
    SumsOfZero({});
    ReducedAdd(p.x, q.x);
    ReducedAdd(FMul(l, p.x), p.y);
    SumOfDifferent(p.x, q.x);
    InverseExists(d);
    QuotientReduced(s, m, p.x, q.x);
    Cancel(d, Quotient(s, m, p.x, q.x), Inv(d));
  }

  lemma OnChord(u: Poly, v: Poly, y: Poly, z: Poly)
    requires Add(u, v) == Add(y, z)
    ensures y == Add(u, Add(u, y)) && z == Add(v, Add(u, y))
  {
    assert Add(v, Add(u, y)) == Add(Add(u, v), y);
  }

  lemma TangentMeets(b: Poly, p: Point, l: Poly)
    requires FMul(l, p.x) == Add(Sq(p.x), p.y)
    ensures Quotient(Add(Add(Sq(l), l), ONE), Add(FMul(l, p.x), p.y), p.x, p.x) == {}
  {
    hide FMul, Sq;
    SqIs(p.x);
    assert Add(FMul(l, p.x), p.y) == Sq(p.x) && Add(p.x, p.x) == {};
    FMulZero(Add(Add(Sq(l), l), ONE));
  }

  lemma SumIsChord(b: Poly, p: Point, q: Point, l: Poly)
    requires Irreducible() && OnCurve(b, p) && OnCurve(b, q) && p != O && q != O && p.x != q.x && IsSlope(p, q, l)
    ensures var r := Plus(p, q);
      r.x == Add(Add(Add(Sq(l), l), ONE), Add(p.x, q.x)) && Neg(r).y == LineAt(l, p, r.x)
  {
    hide FMul, Sq, Inv, Equation, Irreducible, IsInverse, Add, Reduced;
    ReducedAdd(p.x, q.x);
    ReducedAdd(p.y, q.y);
    SumOfDifferent(p.x, q.x);
    SlopeUnique(Add(p.y, q.y), Add(p.x, q.x), l);
    var r := Plus(p, q);
    ChordSums(Add(Sq(l), l), Add(p.x, q.x), {}, {}, {}, {});
    MirrorSum(FMul(l, Add(p.x, r.x)), r.x, p.y);
    AddSwaps(p.x, r.x);
  }

  lemma AddSwaps(a: Poly, b: Poly)
    ensures Add(a, b) == Add(b, a)
  {}

  lemma MirrorSum(u: Poly, x: Poly, y: Poly)
    ensures Add(Add(Add(u, x), y), x) == Add(y, u)
  {}

  lemma SumIsDouble(b: Poly, p: Point, l: Poly)
    requires Irreducible() && OnCurve(b, p) && p != O && p.x != {} && IsSlope(p, p, l)
    ensures var r := Plus(p, p);
      r.x == Add(Add(Add(Sq(l), l), ONE), Add(p.x, p.x)) && Neg(r).y == LineAt(l, p, r.x)
  {
    hide FMul, Sq, Inv, Equation, Irreducible, IsInverse, Chord, Add, Reduced;
    TangentSlope(p, l);
    var r := Plus(p, p);
    OneReduced();
    ReducedAdd(Sq(l), l);
    ReducedAdd(Add(Sq(l), l), ONE);
    FMulAdd(r.x, l, ONE);
    FMulOne(r.x);
    FMulAdd(l, r.x, p.x);
    DoubleSum(Sq(p.x), FMul(l, r.x), r.x, p.y, p.x);
  }

  lemma DoubleSum(s: Poly, a: Poly, x3: Poly, y: Poly, x: Poly)
    ensures Add(Add(s, Add(a, x3)), x3) == Add(y, Add(a, Add(s, y))) && Add(x3, Add(x, x)) == x3
  {}

  lemma TangentSlope(p: Point, l: Poly)
    requires Irreducible() && Reduced(p.x) && Reduced(p.y) && p.x != {} && IsSlope(p, p, l)
    ensures l == Add(FMul(Inv(p.x), p.y), p.x)
  {
    hide FMul, Inv, Irreducible, Add, Reduced;
    ReducedAdd(Sq(p.x), p.y);
    SlopeUnique(Add(Sq(p.x), p.y), p.x, l);
    InverseExists(p.x);
    FMulAdd(Inv(p.x), Sq(p.x), p.y);
    FMulComm(Inv(p.x), p.x);
    SqIs(p.x);
    FMulAssoc(Inv(p.x), p.x, p.x);
    FMulOne(p.x);
    AddSwaps(p.x, FMul(Inv(p.x), p.y));
  }

  /** The same for the chord without its slope. */
  lemma ChordRelation(b: Poly, p: Point, q: Point)
    requires Irreducible() && Reduced(b) && OnCurve(b, p) && OnCurve(b, q) && p != O && q != O && p.x != q.x
    ensures var r := Plus(p, q);
      FMul(Add(p.y, q.y), Add(p.x, r.x)) == FMul(Add(p.x, q.x), Add(p.y, Neg(r).y))
  {
    hide FMul, Sq, Inv, Equation, Irreducible, Plus, Reduced, Add, Neg;
    var l := SlopeExists(p, q);
    SumIsChord(b, p, q, l);
    var r := Plus(p, q);
    FromLine(p.y, FMul(l, Add(r.x, p.x)));
    AddSwaps(p.x, r.x);
    FMulComm(l, Add(p.x, q.x));
    FMulAssoc(Add(p.x, q.x), l, Add(p.x, r.x));
  }

  lemma FromLine(y: Poly, u: Poly)
    ensures Add(y, Add(y, u)) == u
  {}

  // ----- multiples of a point -----

  /** The associative law of the curve, taken as a hypothesis where multiples are compared. */
  ghost predicate Associative(b: Poly) {
    forall p: Point, q: Point, r: Point :: OnCurve(b, p) && OnCurve(b, q) && OnCurve(b, r) ==>
        Plus(Plus(p, q), r) == Plus(p, Plus(q, r))
  }

  /** p added k times to the point at infinity. */
  ghost function Times(k: nat, p: Point): Point {
    if k == 0 then O else Plus(Times(k - 1, p), p)
  }

  lemma InfinityOnCurve(b: Poly)
    ensures OnCurve(b, O)
  {}

  lemma {:induction false} TimesOnCurve(b: Poly, k: nat, p: Point)
    requires Irreducible() && Reduced(b) && OnCurve(b, p)
    ensures OnCurve(b, Times(k, p))
  {
    hide OnCurve, Plus, Irreducible;
    if k == 0 {
      InfinityOnCurve(b);
    } else {
      TimesOnCurve(b, k - 1, p);
      PlusOnCurve(b, Times(k - 1, p), p);
    }
  }

  lemma {:induction false} TimesAdds(b: Poly, j: nat, k: nat, p: Point)
    requires Irreducible() && Associative(b) && Reduced(b) && OnCurve(b, p)
    ensures Times(j + k, p) == Plus(Times(j, p), Times(k, p))
    decreases k
  {
    hide OnCurve, Plus, Irreducible, Associative;
    if k == 0 {
      PlusInfinity(Times(j, p));
    } else {
      TimesAdds(b, j, k - 1, p);
      TimesOnCurve(b, j, p);
      TimesOnCurve(b, k - 1, p);
      Associate(b, Times(j, p), Times(k - 1, p), p);
    }
  }

  lemma PlusInfinity(p: Point)
    ensures Plus(p, O) == p && Plus(O, p) == p
  {}

  lemma Associate(b: Poly, p: Point, q: Point, r: Point)
    requires Associative(b) && OnCurve(b, p) && OnCurve(b, q) && OnCurve(b, r)
    ensures Plus(Plus(p, q), r) == Plus(p, Plus(q, r))
  {
    hide OnCurve, Plus;
  }

  lemma {:induction false} TimesTimes(b: Poly, j: nat, k: nat, p: Point)
    requires Irreducible() && Associative(b) && Reduced(b) && OnCurve(b, p)
    ensures Times(j, Times(k, p)) == Times(j * k, p)
  {
    hide OnCurve, Plus, Irreducible, Associative;
    if j != 0 {
      TimesTimes(b, j - 1, k, p);
      TimesAdds(b, (j - 1) * k, k, p);
      assert (j - 1) * k + k == j * k;
    }
  }

  /** Both ends of a key agreement reach the same point. */
  lemma MultiplesCommute(b: Poly, d: nat, k: nat, p: Point)
    requires Irreducible() && Associative(b) && Reduced(b) && OnCurve(b, p)
    ensures Times(d, Times(k, p)) == Times(k, Times(d, p))
  {
    hide OnCurve, Plus, Irreducible, Associative, Times;
    TimesTimes(b, d, k, p);
    TimesTimes(b, k, d, p);
    assert d * k == k * d;
  }

  lemma DoubleIsPlus(p: Point)
    ensures Double(p) == Plus(p, p)
  {}

  lemma {:induction false} TimesInfinity(k: nat)
    ensures Times(k, O) == O
  {
    hide Double, Chord;
    if k != 0 {
      TimesInfinity(k - 1);
    }
  }

  // ----- exponents -----

  /** The number whose binary digits are the exponents from i to n - 1, lowest first. */
  function Digits(e: Poly, i: nat, n: nat): nat
    decreases n - i
  {
    if i >= n then 0 else 2 * Digits(e, i + 1, n) + (if i in e then 1 else 0)
  }

  /** The number a bit vector stands for. */
  ghost function Number(e: Poly): nat { Digits(e, 0, Size(e)) }

  /** One round of double-and-add. */
  lemma DoubleAndAdd(b: Poly, e: Poly, i: nat, n: nat, p: Point)
    requires Irreducible() && Associative(b) && Reduced(b) && OnCurve(b, p) && i < n
    ensures var x := Double(Times(Digits(e, i + 1, n), p));
      Times(Digits(e, i, n), p) == if i in e then Plus(x, p) else x
  {
    hide OnCurve, Plus, Irreducible, Associative, Double;
    var m := Digits(e, i + 1, n);
    TimesAdds(b, m, m, p);
    DoubleIsPlus(Times(m, p));
  }
}
