/** The word-array arithmetic of the B-163 curve. */
module Ecies {
  import opened Gf2Poly
  import opened Gf2Field
  import opened Gf2Curve
  import opened EciesWords
  import opened Words

  function Value(a: array<Word>): Poly
    reads a
  {
    PolyOf(a[..])
  }

  const FIRST_WORD: Word := [true] + Falses(31)

  lemma ClearValue(s: seq<Word>)
    requires forall j :: 0 <= j < |s| ==> s[j] == CLEAR
    ensures PolyOf(s) == {}
  {}

  lemma OneValue(s: seq<Word>)
    requires |s| > 0 && s[0] == FIRST_WORD && forall j :: 1 <= j < |s| ==> s[j] == CLEAR
    ensures PolyOf(s) == ONE
  {
    hide PolyOf, GetBit;
    forall k: nat ensures k in PolyOf(s) <==> k in ONE {
      InPoly(s, k);
      if k < 32 * |s| {
        assert k == 32 * (k / 32) + k % 32;
        GetBitAt(s, k / 32, k % 32);
      } else {
        NoBit(s, k);
      }
    }
  }

  // ----- bit vectors -----

  /** bitstr_is_clear. */
  method BitstrIsClear(x: array<Word>) returns (r: bool)
    requires x.Length == WORDS
    ensures r <==> Value(x) == {}
  {
    hide PolyOf;
    var i := 0;
    while i < WORDS && x[i] == CLEAR
      invariant 0 <= i <= WORDS && forall j :: 0 <= j < i ==> x[j] == CLEAR
    {
      i := i + 1;
    }
    if i == WORDS {
      ClearValue(x[..]);
    } else {
      SomeBit(x[..], i);
    }
    return i == WORDS;
  }

  lemma SomeBit(s: seq<Word>, j: nat)
    requires j < |s| && s[j] != CLEAR
    ensures PolyOf(s) != {}
  {
    var i :| 0 <= i < 32 && s[j][i];
    GetBitAt(s, j, i);
    assert 32 * j + i in PolyOf(s);
  }

  /** bitstr_sizeinbits: the number of the highest one bit, plus one. */
  method BitstrSizeInBits(x: array<Word>) returns (n: nat)
    requires x.Length == WORDS
    ensures n == Size(Value(x)) <= BITS
  {
    hide PolyOf, GetBit;
    var w: int := WORDS;
    while w > 0 && x[w - 1] == CLEAR
      invariant 0 <= w <= WORDS && forall j :: w <= j < WORDS ==> x[j] == CLEAR
    {
      w := w - 1;
    }
    var i := 32 * w;
    if w > 0 {
      var top := x[w - 1];
      ghost var t :| 0 <= t < 32 && top[t];
      var mask := 31;
      while !top[mask]
        invariant t <= mask <= 31 && i == 32 * (w - 1) + mask + 1
        invariant forall b :: mask < b < 32 ==> !top[b]
        decreases mask
      {
        mask := mask - 1;
        i := i - 1;
      }
      TopBit(x[..], w - 1, mask);
    } else {
      ClearValue(x[..]);
      SizeIs({}, 0);
    }
    return i;
  }

  lemma TopBit(s: seq<Word>, w: nat, m: nat)
    requires w < |s| && m < 32 && s[w][m]
    requires forall j :: w < j < |s| ==> s[j] == CLEAR
    requires forall b :: m < b < 32 ==> !s[w][b]
    ensures Size(PolyOf(s)) == 32 * w + m + 1
  {
    hide PolyOf, GetBit;
    var n := 32 * w + m + 1;
    GetBitAt(s, w, m);
    InPoly(s, n - 1);
    forall k | k in PolyOf(s) ensures k < n {
      InPoly(s, k);
      if k < 32 * |s| {
        assert k == 32 * (k / 32) + k % 32;
        GetBitAt(s, k / 32, k % 32);
      } else {
        NoBit(s, k);
      }
    }
    SizeIs(PolyOf(s), n);
  }

  /** bitstr_lshift: B shifted left by count bits; what leaves the vector is lost. */
  method BitstrLshift(A: array<Word>, B: array<Word>, count: nat)
    requires A.Length == B.Length == WORDS && count < BITS
    modifies A
    ensures Value(A) == Cut(Shift(old(Value(B)), count), BITS)
  {
    hide PolyOf, Shl, Shr, Or, Cut, Shift;
    ghost var p, b := Value(B), B[..];
    var offs := count / 32;
    // memmove and memset
    forall j | 0 <= j < WORDS { A[j] := if j >= offs then B[j - offs] else CLEAR; }
    MovedIsShift(b, A[..], offs);
    if count % 32 != 0 {
      ShiftBits(A, count % 32);
      CutTwice(p, 32 * offs, count % 32, BITS);
    }
  }

  /** The loop of bitstr_lshift: shifts by less than a word, from the top down. */
  method ShiftBits(A: array<Word>, n: nat)
    requires A.Length == WORDS && 1 <= n < 32
    modifies A
    ensures Value(A) == Cut(Shift(old(Value(A)), n), BITS)
  {
    hide PolyOf, Shl, Shr, Or, Cut, Shift;
    ghost var s := A[..];
    var i := WORDS - 1;
    while i > 0
      invariant 0 <= i < WORDS
      invariant forall k :: 0 <= k <= i ==> A[k] == s[k]
      invariant forall k :: i < k < WORDS ==> A[k] == Or(Shl(s[k], n), Shr(s[k - 1], 32 - n))
    {
      A[i] := Or(Shl(A[i], n), Shr(A[i - 1], 32 - n));
      i := i - 1;
    }
    A[0] := Shl(A[0], n);
    ShiftedIsShift(s, A[..], n);
  }

  // ----- field arithmetic -----

  /** field_is1. */
  method FieldIs1(x: array<Word>) returns (r: bool)
    requires x.Length == WORDS
    ensures r <==> Value(x) == ONE
  {
    hide PolyOf;
    if x[0] != FIRST_WORD {
      NotOneWord(x[..], 0);
      return false;
    }
    var i := 1;
    while i < WORDS && x[i] == CLEAR
      invariant 1 <= i <= WORDS && forall j :: 1 <= j < i ==> x[j] == CLEAR
    {
      i := i + 1;
    }
    if i == WORDS {
      OneValue(x[..]);
    } else {
      NotOneWord(x[..], i);
    }
    return i == WORDS;
  }

  lemma NotOneWord(s: seq<Word>, j: nat)
    requires j < |s| && s[j] != if j == 0 then FIRST_WORD else CLEAR
    ensures PolyOf(s) != ONE
  {
    hide PolyOf, GetBit;
    var w := if j == 0 then FIRST_WORD else CLEAR;
    var i :| 0 <= i < 32 && s[j][i] != w[i];
    GetBitAt(s, j, i);
    InPoly(s, 32 * j + i);
  }

  /** field_add; z may be x or y. */
  method FieldAdd(z: array<Word>, x: array<Word>, y: array<Word>)
    requires z.Length == x.Length == y.Length == WORDS
    modifies z
    ensures Value(z) == Add(old(Value(x)), old(Value(y)))
  {
    hide PolyOf, Xor, Add;
    ghost var a, b := x[..], y[..];
    for i := 0 to WORDS
      invariant forall j :: 0 <= j < i ==> z[j] == Xor(a[j], b[j])
      invariant forall j :: i <= j < WORDS ==> x[j] == a[j] && y[j] == b[j]
    {
      z[i] := Xor(x[i], y[i]);
    }
    XorIsAdd(a, b, z[..]);
  }

  /** The inner loop of field_mult: b shifted left by one bit. */
  method ShiftOne(b: array<Word>)
    requires b.Length == WORDS
    modifies b
    ensures Value(b) == Cut(Shift(old(Value(b)), 1), BITS)
  {
    hide PolyOf, Shl, Shr, Or, Cut, Shift;
    ghost var s := b[..];
    var j := WORDS - 1;
    while j > 0
      invariant 0 <= j < WORDS
      invariant forall k :: 0 <= k <= j ==> b[k] == s[k]
      invariant forall k :: j < k < WORDS ==> b[k] == Or(Shl(s[k], 1), Shr(s[k - 1], 31))
    {
      b[j] := Or(Shl(b[j], 1), Shr(b[j - 1], 31));
      j := j - 1;
    }
    b[0] := Shl(b[0], 1);
    ShiftedIsShift(s, b[..], 1);
  }

  /** field_mult: the product modulo the polynomial. z may be x, but not y. */
  method FieldMult(z: array<Word>, x: array<Word>, y: array<Word>, poly: array<Word>)
    requires z.Length == x.Length == y.Length == poly.Length == WORDS && z != y && z != poly
    requires Value(poly) == POLY && Reduced(Value(x)) && Reduced(Value(y))
    modifies z
    ensures Value(z) == FMul(old(Value(x)), old(Value(y)))
  {
    hide PolyOf, GetBit, Cut, Shift, Add, FMul, Cong, POLY, Reduced, MulUpTo;
    ghost var p, q, xs := Value(x), Value(y), x[..];
    var b := new Word[WORDS];
    forall j | 0 <= j < WORDS { b[j] := x[j]; }
    ProductStarts(p, q);
    InPoly(y[..], 0);
    if GetBit(y[..], 0) {
      forall j | 0 <= j < WORDS { z[j] := b[j]; }
      assert z[..] == xs;
    } else {
      forall j | 0 <= j < WORDS { z[j] := CLEAR; }
      ClearValue(z[..]);
    }
    assert b[..] == xs;
    for i := 1 to DEGREE
      invariant Value(y) == q && Value(poly) == POLY
      invariant Reduced(Value(b)) && Cong(Value(b), Shift(p, i - 1), POLY)
      invariant Reduced(Value(z)) && Cong(Value(z), MulUpTo(q, p, i), POLY)
    {
      ghost var b0 := Value(b);
      ShiftOne(b);
      DoubledFits(b0, p, i - 1);
      InPoly(b[..], DEGREE);
      if GetBit(b[..], DEGREE) {
        FieldAdd(b, b, poly);
      }
      ProductGrows(q, p, i, Value(z), Value(b));
      InPoly(y[..], i);
      if GetBit(y[..], i) {
        FieldAdd(z, z, b);
      }
    }
    ProductDone(Value(z), p, q);
  }

  lemma ProductStarts(p: Poly, q: Poly)
    requires Reduced(p)
    ensures Cong(p, Shift(p, 0), POLY) && Reduced({})
    ensures Cong(if 0 in q then p else {}, MulUpTo(q, p, 1), POLY)
  {
    hide Cong, POLY;
    ShiftZero(p);
    CongRefl(p, POLY);
    CongRefl({}, POLY);
    assert MulUpTo(q, p, 1) == (if 0 in q then Add({}, Shift(p, 0)) else {});
    assert Add({}, p) == p;
  }

  /** What the shifted multiple is, before and after the subtraction of the modulus. */
  lemma DoubledFits(b: Poly, p: Poly, n: nat)
    requires Reduced(b) && Cong(b, Shift(p, n), POLY)
    ensures Cut(Shift(b, 1), BITS) == Shift(b, 1)
    ensures var s := if DEGREE in Shift(b, 1) then Add(Shift(b, 1), POLY) else Shift(b, 1);
      Reduced(s) && Cong(s, Shift(p, n + 1), POLY)
  {
    hide Cong, POLY, Shift;
    DoubleReduced(b);
    CutNothing(Shift(b, 1), BITS);
    ShiftCong(b, p, n);
    if DEGREE in Shift(b, 1) {
      CongTrans(Add(Shift(b, 1), POLY), Shift(b, 1), Shift(p, n + 1), POLY);
    }
  }

  lemma ProductGrows(q: Poly, p: Poly, i: nat, z: Poly, b: Poly)
    requires Reduced(z) && Reduced(b) && Cong(z, MulUpTo(q, p, i), POLY) && Cong(b, Shift(p, i), POLY)
    ensures Reduced(if i in q then Add(z, b) else z)
    ensures Cong(if i in q then Add(z, b) else z, MulUpTo(q, p, i + 1), POLY)
  {
    hide Cong, POLY, Shift, Add, Reduced;
    SumCong(z, MulUpTo(q, p, i), b, Shift(p, i));
    assert MulUpTo(q, p, i + 1) == if i in q then Add(MulUpTo(q, p, i), Shift(p, i)) else MulUpTo(q, p, i);
  }

  /** field_invert: Euclid's algorithm with cofactors. z may be x. */
  method FieldInvert(z: array<Word>, x: array<Word>, poly: array<Word>)
    requires z.Length == x.Length == poly.Length == WORDS && z != poly
    requires Value(poly) == POLY && Reduced(Value(x)) && Coprime(Value(x), POLY)
    modifies z
    ensures Value(z) == Inv(old(Value(x))) && IsInverse(old(Value(x)), Value(z))
  {
    hide PolyOf, Shift, Add, Cong, POLY, Reduced, Coprime, Euclid, Inv, FMul, Cut;
    ghost var p := Value(x);
    var u, v, g, h := new Word[WORDS], new Word[WORDS], new Word[WORDS], new Word[WORDS];
    InvertBegins(u, v, g, z, x, poly);
    EuclidStart(p);
    var done := FieldIs1(u);
    while !done
      invariant Euclid(p, Value(u), Value(v), Value(g), Value(z))
      invariant done <==> Value(u) == ONE
      decreases Size(Value(u)) + Size(Value(v)), !done
    {
      var su := BitstrSizeInBits(u);
      var sv := BitstrSizeInBits(v);
      var i := su as int - sv as int;
      if i < 0 {
        EuclidSwap(p, Value(u), Value(v), Value(g), Value(z));
        SwapVectors(u, v);
        SwapVectors(g, z);
        i := -i;
      }
      ghost var u0, v0, g0, z0 := Value(u), Value(v), Value(g), Value(z);
      EuclidFits(p, u0, v0, g0, z0, i);
      BitstrLshift(h, v, i);
      FieldAdd(u, u, h);
      BitstrLshift(h, g, i);
      FieldAdd(z, z, h);
      done := FieldIs1(u);
    }
    EuclidDone(p, Value(v), Value(g), Value(z));
  }

  /** The four assignments before the loop of field_invert. */
  method InvertBegins(u: array<Word>, v: array<Word>, g: array<Word>, z: array<Word>, x: array<Word>, poly: array<Word>)
    requires u.Length == v.Length == g.Length == z.Length == x.Length == poly.Length == WORDS
    requires u != v && u != g && u != z && v != g && v != z && g != z && x !in {u, v, g} && poly !in {u, v, g, z}
    modifies u, v, g, z
    ensures Value(u) == old(Value(x)) && Value(v) == old(Value(poly)) && Value(g) == {} && Value(z) == ONE
  {
    hide PolyOf;
    forall j | 0 <= j < WORDS { u[j] := x[j]; }
    forall j | 0 <= j < WORDS { v[j] := poly[j]; }
    forall j | 0 <= j < WORDS { g[j] := CLEAR; }
    forall j | 0 <= j < WORDS { z[j] := if j == 0 then FIRST_WORD else CLEAR; }
    assert u[..] == old(x[..]) && v[..] == old(poly[..]);
    ClearValue(g[..]);
    OneValue(z[..]);
  }

  lemma EuclidFits(x: Poly, u: Poly, v: Poly, g: Poly, z: Poly, n: nat)
    requires Euclid(x, u, v, g, z) && Size(u) == Size(v) + n && Size(u) <= BITS
    ensures n < BITS && Cut(Shift(v, n), BITS) == Shift(v, n) && Cut(Shift(g, n), BITS) == Shift(g, n)
    ensures Euclid(x, Add(u, Shift(v, n)), v, g, Add(z, Shift(g, n)))
    ensures Size(Add(u, Shift(v, n))) < Size(u)
  {
    hide Shift, Add, Cong, POLY, Coprime;
    EuclidStep(x, u, v, g, z, n);
    CutNothing(Shift(v, n), BITS);
    CutNothing(Shift(g, n), BITS);
  }

  /** bitstr_swap. */
  method SwapVectors(a: array<Word>, b: array<Word>)
    requires a.Length == b.Length == WORDS && a != b
    modifies a, b
    ensures Value(a) == old(Value(b)) && Value(b) == old(Value(a))
  {
    hide PolyOf;
    var h := new Word[WORDS];
    forall j | 0 <= j < WORDS { h[j] := a[j]; }
    forall j | 0 <= j < WORDS { a[j] := b[j]; }
    forall j | 0 <= j < WORDS { b[j] := h[j]; }
    assert a[..] == old(b[..]) && b[..] == old(a[..]);
  }

  /** field_add1. */
  method FieldAdd1(A: array<Word>)
    requires A.Length == WORDS
    modifies A
    ensures Value(A) == Add(old(Value(A)), ONE)
  {
    hide PolyOf, Xor, Add;
    ghost var s := A[..];
    ghost var one := [FIRST_WORD, CLEAR, CLEAR, CLEAR, CLEAR, CLEAR];
    OneValue(one);
    A[0] := Xor(A[0], FIRST_WORD);
    forall j | 1 <= j < WORDS ensures Xor(s[j], CLEAR) == s[j] { XorClear(s[j]); }
    XorIsAdd(s, one, A[..]);
  }

  lemma XorClear(w: Word)
    ensures Xor(w, CLEAR) == w
  {}

  /** bitstr_is_equal. */
  method BitstrIsEqual(x: array<Word>, y: array<Word>) returns (r: bool)
    requires x.Length == y.Length == WORDS
    ensures r <==> Value(x) == Value(y)
  {
    hide PolyOf;
    if Value(x) == Value(y) {
      PolyInjective(x[..], y[..]);
    }
    return x[..] == y[..];
  }

  /** bitstr_copy. */
  method Copy(A: array<Word>, B: array<Word>)
    requires A.Length == B.Length == WORDS
    modifies A
    ensures Value(A) == old(Value(B)) && A[..] == old(B[..])
  {
    forall j | 0 <= j < WORDS { A[j] := B[j]; }
    assert A[..] == old(B[..]);
  }

  /** bitstr_clear. */
  method Clear(A: array<Word>)
    requires A.Length == WORDS
    modifies A
    ensures Value(A) == {}
  {
    forall j | 0 <= j < WORDS { A[j] := CLEAR; }
    ClearValue(A[..]);
  }

  // ----- points -----

  /** A point held in two vectors. */
  function At(x: array<Word>, y: array<Word>): Point
    reads x, y
  {
    Point(Value(x), Value(y))
  }

  predicate IsPair(x: array<Word>, y: array<Word>) { x.Length == y.Length == WORDS && x != y }

  ghost predicate ReducedPoint(p: Point) { Reduced(p.x) && Reduced(p.y) }

  /** The curve: its reduction polynomial and the coefficient b, as words. */
  class Curve {
    const poly: array<Word>
    const coeffB: array<Word>

    ghost function Consts(): set<object> { {poly, coeffB} }

    ghost function B(): Poly
      reads coeffB
    {
      Value(coeffB)
    }

    /** The hypothesis that the reduction polynomial is irreducible is part of it. */
    ghost predicate Valid()
      reads poly, coeffB
    {
      poly.Length == coeffB.Length == WORDS && Value(poly) == POLY && Reduced(B()) && Irreducible()
    }

    /** point_is_zero. */
    method PointIsZero(x: array<Word>, y: array<Word>) returns (r: bool)
      requires x.Length == y.Length == WORDS
      ensures r <==> At(x, y) == O
    {
      hide PolyOf;
      r := BitstrIsClear(x);
      if r {
        r := BitstrIsClear(y);
      }
    }

    /** is_point_on_curve. */
    method IsPointOnCurve(x: array<Word>, y: array<Word>) returns (r: bool)
      requires Valid() && x.Length == y.Length == WORDS && ReducedPoint(At(x, y))
      ensures r <==> OnCurve(B(), At(x, y))
    {
      hide PolyOf, Add, FMul, Sq, Irreducible, Reduced, POLY;
      var zero := PointIsZero(x, y);
      if zero {
        return true;
      }
      ghost var X, Y := Value(x), Value(y);
      var a, b := new Word[WORDS], new Word[WORDS];
      FieldMult(a, x, x, poly);
      FieldMult(b, a, x, poly);
      FieldAdd(a, a, b);
      FieldAdd(a, a, coeffB);
      FieldMult(b, y, y, poly);
      FieldAdd(a, a, b);
      FieldMult(b, x, y, poly);
      SqIs(X);
      SqIs(Y);
      EquationSum(Sq(X), FMul(Sq(X), X), B(), Sq(Y), FMul(X, Y));
      r := BitstrIsEqual(a, b);
    }

    /** point_double: (x, y) becomes its double. */
    method PointDouble(x: array<Word>, y: array<Word>)
      requires Valid() && IsPair(x, y) && {x, y} !! Consts() && ReducedPoint(At(x, y))
      modifies x, y
      ensures At(x, y) == Double(old(At(x, y))) && ReducedPoint(At(x, y))
    {
      hide PolyOf, Add, FMul, Sq, Inv, Irreducible, Reduced, POLY, IsInverse, Coprime;
      ghost var X, Y := Value(x), Value(y);
      var zero := BitstrIsClear(x);
      EmptyReduced();
      if !zero {
        Invertible(X);
        var a := new Word[WORDS];
        FieldInvert(a, x, poly);
        FieldMult(a, a, y, poly);
        FieldAdd(a, a, x);
        ghost var l := Value(a);
        ReducedAdd(FMul(Inv(X), Y), X);
        FieldMult(y, x, x, poly);
        FieldMult(x, a, a, poly);
        FieldAdd1(a);
        FieldAdd(x, x, a);
        TangentSteps(X, l);
        FieldMult(a, a, x, poly);
        FieldAdd(y, y, a);
        ReducedAdd(Sq(X), FMul(Add(l, ONE), Value(x)));
      } else {
        Clear(y);
      }
    }

    /** point_add: (x1, y1) becomes the sum of both points. */
    method PointAdd(x1: array<Word>, y1: array<Word>, x2: array<Word>, y2: array<Word>)
      requires Valid() && IsPair(x1, y1) && x2.Length == y2.Length == WORDS && {x1, y1} !! (Consts() + {x2, y2})
      requires ReducedPoint(At(x1, y1)) && ReducedPoint(At(x2, y2))
      modifies x1, y1
      ensures At(x1, y1) == Plus(old(At(x1, y1)), old(At(x2, y2))) && ReducedPoint(At(x1, y1))
    {
      hide PolyOf, Add, FMul, Sq, Inv, Irreducible, Reduced, POLY, IsInverse, Coprime, Double, Chord;
      var zero2 := PointIsZero(x2, y2);
      if zero2 {
        return;
      }
      var zero1 := PointIsZero(x1, y1);
      if zero1 {
        Copy(x1, x2);
        Copy(y1, y2);
        return;
      }
      var sameX := BitstrIsEqual(x1, x2);
      if sameX {
        var sameY := BitstrIsEqual(y1, y2);
        if sameY {
          PointDouble(x1, y1);
        } else {
          EmptyReduced();
          Clear(x1);
          Clear(y1);
        }
        return;
      }
      AddDifferent(x1, y1, x2, y2);
    }

    /** The last branch of point_add: the chord through two points with different x. */
    method AddDifferent(x1: array<Word>, y1: array<Word>, x2: array<Word>, y2: array<Word>)
      requires Valid() && IsPair(x1, y1) && x2.Length == y2.Length == WORDS && {x1, y1} !! (Consts() + {x2, y2})
      requires ReducedPoint(At(x1, y1)) && ReducedPoint(At(x2, y2)) && Value(x1) != Value(x2)
      modifies x1, y1
      ensures At(x1, y1) == Chord(old(At(x1, y1)), old(At(x2, y2))) && ReducedPoint(At(x1, y1))
    {
      hide PolyOf, Add, FMul, Sq, Inv, Irreducible, Reduced, POLY, IsInverse, Coprime;
      ghost var p, q := At(x1, y1), At(x2, y2);
      var a, b, c, d := new Word[WORDS], new Word[WORDS], new Word[WORDS], new Word[WORDS];
      FieldAdd(a, y1, y2);
      FieldAdd(b, x1, x2);
      ReducedAdd(p.y, q.y);
      ReducedAdd(p.x, q.x);
      SumOfDifferent(p.x, q.x);
      Invertible(Add(p.x, q.x));
      FieldInvert(c, b, poly);
      FieldMult(c, c, a, poly);
      ghost var l := Value(c);
      FieldMult(d, c, c, poly);
      FieldAdd(d, d, c);
      FieldAdd(d, d, b);
      FieldAdd1(d);
      ghost var x3 := Value(d);
      SqIs(l);
      ChordReduced(p, q, l, Add(FMul(l, p.x), p.y), x3);
      FieldAdd(x1, x1, d);
      ReducedAdd(p.x, x3);
      FieldMult(a, x1, c, poly);
      FieldAdd(a, a, d);
      FieldAdd(y1, y1, a);
      Copy(x1, d);
      FMulComm(Add(p.x, x3), l);
      AddSwap(p.y, Add(FMul(l, Add(p.x, x3)), x3));
    }

    lemma Invertible(x: Poly)
      requires Valid() && Reduced(x) && x != {}
      ensures Coprime(x, POLY)
    {
      hide POLY, Coprime;
    }

    /** point_mult: double-and-add from the highest bit of the exponent. */
    method PointMult(x: array<Word>, y: array<Word>, exp: array<Word>)
      requires Valid() && IsPair(x, y) && exp.Length == WORDS && {x, y} !! (Consts() + {exp})
      requires Associative(B()) && OnCurve(B(), At(x, y))
      modifies x, y
      ensures At(x, y) == Times(Number(Value(exp)), old(At(x, y))) && OnCurve(B(), At(x, y))
    {
      hide PolyOf, GetBit, Irreducible, Associative, Plus, Double, Equation, POLY, Reduced, Times, Digits;
      ghost var p, e := At(x, y), Value(exp);
      var X, Y := new Word[WORDS], new Word[WORDS];
      Clear(X);
      Clear(Y);
      var n := BitstrSizeInBits(exp);
      var i := n as int - 1;
      NoDigits(e, n, p);
      EmptyReduced();
      while i >= 0
        invariant -1 <= i < n && At(x, y) == p && Value(exp) == e
        invariant At(X, Y) == Times(Digits(e, i + 1, n), p) && ReducedPoint(At(X, Y))
      {
        PointDouble(X, Y);
        InPoly(exp[..], i);
        if GetBit(exp[..], i) {
          PointAdd(X, Y, x, y);
        }
        DoubleAndAdd(B(), e, i, n, p);
        i := i - 1;
      }
      TimesOnCurve(B(), Digits(e, 0, n), p);
      Copy(x, X);
      Copy(y, Y);
    }
  }

  lemma NoDigits(e: Poly, n: nat, p: Point)
    ensures Times(Digits(e, n, n), p) == O
  {}

  lemma EquationSum(x2: Poly, x3: Poly, b: Poly, y2: Poly, xy: Poly)
    ensures Add(Add(y2, xy), Add(Add(x3, x2), b)) == {} <==> Add(Add(Add(x2, x3), b), y2) == xy
  {
    var l, r := Add(Add(y2, xy), Add(Add(x3, x2), b)), Add(Add(Add(x2, x3), b), y2);
    assert l == Add(r, xy);
    if r != xy { SumOfDifferent(r, xy); }
  }

  lemma TangentSteps(x: Poly, l: Poly)
    requires Reduced(x) && Reduced(l)
    ensures Sq(l) == FMul(l, l) && Sq(x) == FMul(x, x)
    ensures Add(Sq(l), Add(l, ONE)) == Add(Add(Sq(l), l), ONE) && Reduced(Add(l, ONE))
            && Reduced(Add(Sq(l), Add(l, ONE)))
  {
    hide FMul;
  }

  lemma AddSwap(a: Poly, b: Poly)
    ensures Add(a, b) == Add(b, a)
  {}
}
