/** The AES block cipher pair over any round keys: in-place methods, their specification on 16-byte
    states, and the proof that decryption undoes encryption. A byte is the set of its one bits, read as
    a polynomial over GF(2). */
module Aes {
  import opened Gf2Poly
  import opened AesTables

  /** A uint8_t. */
  predicate IsByte(b: Poly) { Below(b, 8) }

  // ----- bytes as numbers -----

  function Join(b: bool, m: nat): nat { (if b then 1 else 0) + 2 * m }

  function Odd(n: nat): bool { n % 2 == 1 }

  function Half(n: nat): nat { n / 2 }

  /** The number with the bits i to 7 of b. */
  function ValueFrom(b: Poly, i: nat): nat
    decreases 8 - i
  {
    if i >= 8 then 0 else Join(i in b, ValueFrom(b, i + 1))
  }

  function Value(b: Poly): nat { ValueFrom(b, 0) }

  /** The bits of n, the lowest at position i. */
  function BitsFrom(n: nat, i: nat): Poly
    decreases 8 - i
  {
    if i >= 8 then {} else (if Odd(n) then {i} else {}) + BitsFrom(Half(n), i + 1)
  }

  function ByteFrom(n: nat): Poly { BitsFrom(n, 0) }

  lemma JoinParts(b: bool, m: nat)
    ensures Odd(Join(b, m)) == b && Half(Join(b, m)) == m
  {}

  lemma {:induction false} BitsOfValue(b: Poly, i: nat)
    requires i <= 8 && IsByte(b)
    ensures BitsFrom(ValueFrom(b, i), i) == set k | k in b && k >= i
    decreases 8 - i
  {
    if i < 8 {
      hide Join, Odd, Half;
      JoinParts(i in b, ValueFrom(b, i + 1));
      BitsOfValue(b, i + 1);
    }
  }

  lemma ByteValue(b: Poly)
    requires IsByte(b)
    ensures ByteFrom(Value(b)) == b
  {
    BitsOfValue(b, 0);
  }

  function Pow2(n: nat): nat { if n == 0 then 1 else 2 * Pow2(n - 1) }

  lemma {:induction false} BitsBounds(n: nat, i: nat)
    requires i <= 8
    ensures forall k :: k in BitsFrom(n, i) ==> i <= k < 8
    decreases 8 - i
  {
    if i < 8 { BitsBounds(Half(n), i + 1); }
  }

  lemma {:induction false} ValueOfBits(n: nat, i: nat, b: Poly)
    requires i <= 8 && n < Pow2(8 - i) && forall k :: i <= k < 8 ==> (k in b <==> k in BitsFrom(n, i))
    ensures ValueFrom(b, i) == n
    decreases 8 - i
  {
    if i < 8 {
      BitsBounds(Half(n), i + 1);
      ValueOfBits(Half(n), i + 1, b);
    }
  }

  lemma {:induction false} ValueBound(b: Poly, i: nat)
    requires i <= 8
    ensures ValueFrom(b, i) < Pow2(8 - i)
    decreases 8 - i
  {
    if i < 8 { ValueBound(b, i + 1); }
  }

  lemma TwoToTheEight()
    ensures Pow2(8) == 256
  {
    assert Pow2(4) == 16;
  }

  lemma ValueByte(n: nat)
    requires n < 256
    ensures Value(ByteFrom(n)) == n && IsByte(ByteFrom(n))
  {
    TwoToTheEight();
    BitsBounds(n, 0);
    ValueOfBits(n, 0, ByteFrom(n));
  }

  function Sbox(b: Poly): Poly { ByteFrom(SboxAt(Value(b))) }

  function InvSbox(b: Poly): Poly { ByteFrom(InvSboxAt(Value(b))) }

  lemma SboxInverse(b: Poly)
    requires IsByte(b)
    ensures InvSbox(Sbox(b)) == b && IsByte(Sbox(b))
  {
    hide SboxAt, InvSboxAt, ValueFrom, BitsFrom, Pow2;
    ValueBound(b, 0);
    TwoToTheEight();
    TablesInverse(Value(b));
    ValueByte(SboxAt(Value(b)));
    ByteValue(b);
  }

  // ----- gf256mul -----

  /** b << 1 in eight bits. */
  function Twice(b: Poly): (r: Poly)
    ensures IsByte(r)
  {
    set k | k in Shift(b, 1) && k < 8
  }

  /** a >> 1. */
  function Halved(a: Poly): Poly { set k | k in a && k > 0 :: k - 1 }

  /** What the loop computes: the carry that triggers the reduction is the top bit of a, not of b. */
  ghost function Gf256(a: Poly, b: Poly, reducer: Poly): Poly
    decreases Size(a)
  {
    if a == {} then {}
    else
      HalvedSize(a);
      Add(if 0 in a then b else {}, Gf256(Halved(a), Add(Twice(b), if 7 in a then reducer else {}), reducer))
  }

  lemma HalvedSize(a: Poly)
    requires a != {}
    ensures Size(Halved(a)) == Size(a) - 1
  {
    var n := Size(a);
    if n > 1 { assert n - 2 in Halved(a); }
    SizeIs(Halved(a), n - 1);
  }

  method Gf256Mul(a0: Poly, b0: Poly, reducer: Poly) returns (ret: Poly)
    ensures ret == Gf256(a0, b0, reducer)
  {
    hide Add, Twice, Halved;
    var a, b := a0, b0;
    ret := {};
    AddNothing(Gf256(a0, b0, reducer));
    while a != {}
      invariant Add(ret, Gf256(a, b, reducer)) == Gf256(a0, b0, reducer)
      decreases Size(a)
    {
      HalvedSize(a);
      ghost var rest := Gf256(Halved(a), Add(Twice(b), if 7 in a then reducer else {}), reducer);
      AddGroups(ret, if 0 in a then b else {}, rest);
      AddNothing(ret);
      if 0 in a {
        ret := Add(ret, b);
      }
      var t := 7 in a;
      b := Twice(b);
      AddNothing(b);
      if t {
        b := Add(b, reducer);
      }
      a := Halved(a);
    }
    AddNothing(ret);
  }

  lemma AddNothing(a: Poly)
    ensures Add(a, {}) == a && Add({}, a) == a
  {}

  lemma AddGroups(a: Poly, b: Poly, c: Poly)
    ensures Add(Add(a, b), c) == Add(a, Add(b, c))
  {}

  /** The terms of a polynomial that fit a byte. */
  function Low(p: Poly): Poly { set k | k in p && k < 8 }

  /** Below 0x80 the reducer is never used: the product is carry-less and cut to eight bits. */
  lemma {:induction false} SmallProduct(a: Poly, b: Poly, reducer: Poly)
    requires 7 !in a && IsByte(a) && IsByte(b)
    ensures Gf256(a, b, reducer) == Low(Mul(a, b))
    decreases Size(a)
  {
    if a == {} {
      MulZero(b);
    } else {
      HalvedSize(a);
      AddNothing(Twice(b));
      SmallProduct(Halved(a), Twice(b), reducer);
      var low := if 0 in a then b else {};
      Halves(a, b);
      LowShift(Halved(a), b);
      LowAdd(low, Mul(Halved(a), Shift(b, 1)));
    }
  }

  /** a b = a0 b + (a >> 1)(b << 1). */
  lemma Halves(a: Poly, b: Poly)
    ensures Mul(a, b) == Add(if 0 in a then b else {}, Mul(Halved(a), Shift(b, 1)))
  {
    var c := if 0 in a then ONE else {};
    var d := Shift(Halved(a), 1);
    forall k | k in a && k > 0 ensures k in d { assert k - 1 in Halved(a); }
    assert a == Add(c, d);
    MulAddLeft(c, d, b);
    MulOne(b);
    MulZero(b);
    MulComm(d, b);
    MulShift(b, Halved(a), 1);
    MulComm(b, Halved(a));
    MulShift(Halved(a), b, 1);
  }

  lemma LowAdd(p: Poly, q: Poly)
    ensures Low(Add(p, q)) == Add(Low(p), Low(q)) && (IsByte(p) ==> Low(p) == p)
  {}

  /** What falls off the byte never comes back. */
  lemma {:induction false} LowShift(a: Poly, b: Poly)
    ensures Low(Mul(a, Twice(b))) == Low(Mul(a, Shift(b, 1)))
    decreases Size(a)
  {
    if a == {} {
      MulZero(Twice(b));
      MulZero(Shift(b, 1));
    } else {
      var k := Size(a) - 1;
      var r := a - {k};
      assert a == Add(r, {k});
      LowShift(r, b);
      MulAddLeft(r, {k}, Twice(b));
      MulAddLeft(r, {k}, Shift(b, 1));
      MulMonomial(k, Twice(b));
      MulMonomial(k, Shift(b, 1));
      LowAdd(Mul(r, Twice(b)), Shift(Twice(b), k));
      LowAdd(Mul(r, Shift(b, 1)), Shift(Shift(b, 1), k));
      LowOfShift(Shift(b, 1), k);
    }
  }

  lemma LowOfShift(p: Poly, n: nat)
    ensures Low(Shift(Low(p), n)) == Low(Shift(p, n))
  {
    forall k | k in Low(Shift(p, n)) ensures k in Low(Shift(Low(p), n)) {
      assert k - n in p && k - n in Low(p);
    }
  }

  const TWO: Poly := {1}
  const FOUR: Poly := {2}
  const NINE: Poly := {0, 3}

  /** The products the two mixing steps use. */
  lemma Multiples(b: Poly, reducer: Poly)
    requires IsByte(b)
    ensures Gf256(TWO, b, reducer) == Twice(b)
    ensures Gf256(FOUR, b, reducer) == Twice(Twice(b))
    ensures Gf256(NINE, b, reducer) == Add(Twice(Twice(Twice(b))), b)
  {
    hide Gf256, Add, Shift, Mul;
    SmallProduct(TWO, b, reducer);
    SmallProduct(FOUR, b, reducer);
    SmallProduct(NINE, b, reducer);
    MulMonomial(1, b);
    MulMonomial(2, b);
    MulMonomial(3, b);
    MulOne(b);
    NineSplits();
    MulAddLeft({3}, ONE, b);
    LowAdd(Shift(b, 3), b);
    LowAdd(b, b);
    TwiceShifts(b);
  }

  lemma NineSplits()
    ensures NINE == Add({3}, ONE)
  {}

  lemma TwiceShifts(b: Poly)
    ensures Twice(b) == Low(Shift(b, 1)) && Twice(Twice(b)) == Low(Shift(b, 2))
            && Twice(Twice(Twice(b))) == Low(Shift(b, 3))
  {
    ShiftShift(b, 1, 1);
    ShiftShift(b, 2, 1);
    LowOfShift(Shift(b, 1), 1);
    LowOfShift(Shift(b, 2), 1);
  }

  // ----- the mixing steps -----

  /** The reduction byte 0x1b. */
  const REDUCER: Poly := {0, 1, 3, 4}

  /** The modulus of the field of section 4.2 of FIPS 197. */
  const FIELD_MODULUS: Poly := {0, 1, 3, 4, 8}

  lemma {:induction false} LowestTerm(c: Poly) returns (j: nat)
    requires c != {}
    ensures j in c && forall i :: i in c ==> i >= j
    decreases c
  {
    var k :| k in c;
    var rest := set i | i in c && i < k;
    if rest == {} {
      j := k;
    } else {
      assert k !in rest;
      j := LowestTerm(rest);
    }
    forall i | i in c ensures i >= j {
      if i < k { assert i in rest; }
    }
  }

  lemma ModulusParts(n: Poly)
    requires n == {0, 2, 3, 7}
    ensures FIELD_MODULUS == Add(ONE, Shift(n, 1))
  {
    assert 0 + 1 in Shift(n, 1) && 2 + 1 in Shift(n, 1) && 3 + 1 in Shift(n, 1) && 7 + 1 in Shift(n, 1);
  }

  /** A multiple of the modulus starts where its factor starts. */
  lemma LowOfMultiple(c: Poly, j: nat)
    requires j in c && forall i :: i in c ==> i >= j
    ensures j in Mul(c, FIELD_MODULUS)
  {
    hide Mul;
    var d := set i | i in c :: if i >= j then i - j else 0;
    assert c == Shift(d, j) by { assert forall i :: i in c ==> (if i >= j then i - j else 0) in d; }
    var n := {0, 2, 3, 7};
    ModulusParts(n);
    MulAddRight(c, ONE, Shift(n, 1));
    MulOne(c);
    MulShift(c, n, 1);
    MulComm(c, n);
    MulShift(n, d, j);
    assert j !in Shift(Mul(c, n), 1);
  }

  /** For a below 0x80 the code's product is the product of the field exactly when the carry-less
      product fits a byte. */
  lemma FieldProductExactly(a: Poly, b: Poly)
    requires 7 !in a && IsByte(a) && IsByte(b)
    ensures Cong(Gf256(a, b, REDUCER), Mul(a, b), FIELD_MODULUS) <==> IsByte(Mul(a, b))
  {
    hide Mul, Gf256;
    var p := Mul(a, b);
    SmallProduct(a, b, REDUCER);
    if IsByte(p) {
      LowAdd(p, p);
      CongRefl(p, FIELD_MODULUS);
    } else if Cong(Low(p), p, FIELD_MODULUS) {
      var c :| Add(Low(p), p) == Mul(c, FIELD_MODULUS);
      MulSize(a, b);
      SizeBound(a, 7);
      SizeBound(b, 8);
      var k :| k in p && k >= 8;
      assert k in Add(Low(p), p);
      MulZero(FIELD_MODULUS);
      SizeIs(FIELD_MODULUS, 9);
      MulSize(c, FIELD_MODULUS);
      SizeBound(Add(Low(p), p), Size(p));
      var j := LowestTerm(c);
      LowOfMultiple(c, j);
    }
  }

  datatype Column = Column(c0: Poly, c1: Poly, c2: Poly, c3: Poly) {
    predicate Bytes() { IsByte(c0) && IsByte(c1) && IsByte(c2) && IsByte(c3) }
  }

  function Add3(a: Poly, b: Poly, c: Poly): Poly { Add(Add(a, b), c) }

  ghost function MixByte(r: Poly, a: Poly, b: Poly, t: Poly): Poly { Add3(Gf256(TWO, Add(a, b), r), a, t) }

  ghost function MixColumn(r: Poly, c: Column): Column {
    var t := Add(Add3(c.c0, c.c1, c.c2), c.c3);
    Column(MixByte(r, c.c0, c.c1, t), MixByte(r, c.c1, c.c2, t), MixByte(r, c.c2, c.c3, t), MixByte(r, c.c3, c.c0, t))
  }

  ghost function UnmixColumn(r: Poly, c: Column): Column {
    var t, u := Add(c.c3, c.c2), Add(c.c1, c.c0);
    var v9 := Gf256(NINE, Add(t, u), r);
    var w := Add(v9, Gf256(FOUR, Add(c.c2, c.c0), r));
    var v := Add(v9, Gf256(FOUR, Add(c.c3, c.c1), r));
    Column(Add3(c.c0, w, Gf256(TWO, u, r)), Add3(c.c1, v, Gf256(TWO, Add(c.c2, c.c1), r)),
           Add3(c.c2, w, Gf256(TWO, t, r)), Add3(c.c3, v, Gf256(TWO, Add(c.c0, c.c3), r)))
  }

  lemma TwiceAdd(a: Poly, b: Poly)
    ensures Twice(Add(a, b)) == Add(Twice(a), Twice(b))
  {
    ShiftAdd(a, b, 1);
    hide Shift;
    LowAdd(Shift(a, 1), Shift(b, 1));
  }

  lemma ByteAdd(a: Poly, b: Poly)
    requires IsByte(a) && IsByte(b)
    ensures IsByte(Add(a, b))
  {}

  function Sum4(a: Poly, b: Poly, c: Poly, d: Poly): Poly { Add(Add(a, b), Add(c, d)) }

  /** One mixed byte: 2a + 3b + c + d. */
  lemma MixedByte(r: Poly, a: Poly, b: Poly, t: Poly)
    requires IsByte(a) && IsByte(b) && IsByte(t)
    ensures MixByte(r, a, b, t) == Add(Add(Twice(a), Twice(b)), Add(a, t)) && IsByte(MixByte(r, a, b, t))
  {
    hide Gf256, Twice;
    ByteAdd(a, b);
    Multiples(Add(a, b), r);
    TwiceAdd(a, b);
  }

  lemma SumAll(xa: Poly, xb: Poly, xc: Poly, xd: Poly, a: Poly, b: Poly, c: Poly, d: Poly, t: Poly)
    ensures Add(Add(Add(Add(xd, xa), Add(d, t)), Add(Add(xc, xd), Add(c, t))),
            Add(Add(Add(xb, xc), Add(b, t)), Add(Add(xa, xb), Add(a, t)))) == Sum4(a, b, c, d)
  {}

  lemma SumOpposite(xa: Poly, xb: Poly, xc: Poly, xd: Poly, a: Poly, c: Poly, t: Poly)
    ensures Add(Add(Add(xc, xd), Add(c, t)), Add(Add(xa, xb), Add(a, t))) == Add(Sum4(xa, xb, xc, xd), Add(a, c))
  {}

  lemma SumNeighbours(xa: Poly, xb: Poly, xc: Poly, a: Poly, b: Poly, t: Poly)
    ensures Add(Add(Add(xb, xc), Add(b, t)), Add(Add(xa, xb), Add(a, t))) == Add(Add(xa, xc), Add(a, b))
  {}

  /** The sums the inverse step forms of mixed bytes, in terms of the unmixed ones. */
  lemma MixedSums(xa: Poly, xb: Poly, xc: Poly, xd: Poly, a: Poly, b: Poly, c: Poly, d: Poly, t: Poly, m0: Poly,
                  m1: Poly, m2: Poly, m3: Poly)
    requires m0 == Add(Add(xa, xb), Add(a, t)) && m1 == Add(Add(xb, xc), Add(b, t))
    requires m2 == Add(Add(xc, xd), Add(c, t)) && m3 == Add(Add(xd, xa), Add(d, t))
    ensures Add(Add(m3, m2), Add(m1, m0)) == Sum4(a, b, c, d)
    ensures Add(m2, m0) == Add(Sum4(xa, xb, xc, xd), Add(a, c)) && Add(m3, m1) == Add(Sum4(xa, xb, xc, xd), Add(b, d))
    ensures Add(m1, m0) == Add(Add(xa, xc), Add(a, b)) && Add(m2, m1) == Add(Add(xb, xd), Add(b, c))
    ensures Add(m3, m2) == Add(Add(xa, xc), Add(c, d)) && Add(m0, m3) == Add(Add(xb, xd), Add(d, a))
  {
    hide Add;
    SumAll(xa, xb, xc, xd, a, b, c, d, t);
    SumOpposite(xa, xb, xc, xd, a, c, t);
    SumOpposite(xb, xc, xd, xa, b, d, t);
    Rotations(xa, xb, xc, xd);
    SumNeighbours(xa, xb, xc, a, b, t);
    SumNeighbours(xb, xc, xd, b, c, t);
    SumNeighbours(xc, xd, xa, c, d, t);
    SumNeighbours(xd, xa, xb, d, a, t);
    Swap(xa, xc);
    Swap(xb, xd);
  }

  lemma TwiceSum(a: Poly, b: Poly, c: Poly, d: Poly)
    ensures Twice(Sum4(a, b, c, d)) == Sum4(Twice(a), Twice(b), Twice(c), Twice(d))
  {
    hide Add, Twice;
    TwiceAdd(a, b);
    TwiceAdd(c, d);
    TwiceAdd(Add(a, b), Add(c, d));
  }

  /** One unmixed byte: everything but p cancels. */
  lemma Cancels(p: Poly, q: Poly, r: Poly, s: Poly, xp: Poly, xq: Poly, xxp: Poly, xxr: Poly, y: Poly)
    ensures var t := Sum4(p, q, r, s);
      var m := Add(Add(xp, xq), Add(p, t));
      var w := Add(Add(y, t), Add(y, Add(xxp, xxr)));
      Add3(m, w, Add(Add(xxp, xxr), Add(xp, xq))) == p
  {}

  lemma UnmixMix(r: Poly, col: Column)
    requires col.Bytes()
    ensures UnmixColumn(r, MixColumn(r, col)) == col && MixColumn(r, col).Bytes()
  {
    hide Gf256, Add, Twice, MixByte, Below;
    var a, b, c, d := col.c0, col.c1, col.c2, col.c3;
    var t := Add(Add3(a, b, c), d);
    var m := MixColumn(r, col);
    SumForms(a, b, c, d);
    MixedByte(r, a, b, t);
    MixedByte(r, b, c, t);
    MixedByte(r, c, d, t);
    MixedByte(r, d, a, t);
    var xa, xb, xc, xd := Twice(a), Twice(b), Twice(c), Twice(d);
    var xxa, xxb, xxc, xxd := Twice(xa), Twice(xb), Twice(xc), Twice(xd);
    MixedSums(xa, xb, xc, xd, a, b, c, d, t, m.c0, m.c1, m.c2, m.c3);
    Products(r, m);
    var s := Twice(Twice(Twice(Sum4(a, b, c, d))));
    Fours(a, b, c, d, a, c);
    Fours(a, b, c, d, b, d);
    TwiceSum(xa, xc, a, b);
    TwiceSum(xb, xd, b, c);
    TwiceSum(xa, xc, c, d);
    TwiceSum(xb, xd, d, a);
    Cancels(a, b, c, d, xa, xb, xxa, xxc, s);
    Cancels(b, c, d, a, xb, xc, xxb, xxd, s);
    Cancels(c, d, a, b, xc, xd, xxc, xxa, s);
    Cancels(d, a, b, c, xd, xa, xxd, xxb, s);
    Rotations(a, b, c, d);
    Swap(xxa, xxc);
    Swap(xxb, xxd);
  }

  /** The seven products of the inverse step. */
  lemma Products(r: Poly, m: Column)
    requires m.Bytes()
    ensures Gf256(NINE, Add(Add(m.c3, m.c2), Add(m.c1, m.c0)), r)
         == Add(Twice(Twice(Twice(Add(Add(m.c3, m.c2), Add(m.c1, m.c0))))), Add(Add(m.c3, m.c2), Add(m.c1, m.c0)))
    ensures Gf256(FOUR, Add(m.c2, m.c0), r) == Twice(Twice(Add(m.c2, m.c0)))
            && Gf256(FOUR, Add(m.c3, m.c1), r) == Twice(Twice(Add(m.c3, m.c1)))
    ensures Gf256(TWO, Add(m.c1, m.c0), r) == Twice(Add(m.c1, m.c0))
            && Gf256(TWO, Add(m.c2, m.c1), r) == Twice(Add(m.c2, m.c1))
    ensures Gf256(TWO, Add(m.c3, m.c2), r) == Twice(Add(m.c3, m.c2))
            && Gf256(TWO, Add(m.c0, m.c3), r) == Twice(Add(m.c0, m.c3))
  {
    hide Gf256, Add, Twice, Below;
    ByteAdd(m.c2, m.c0);
    ByteAdd(m.c3, m.c1);
    ByteAdd(m.c1, m.c0);
    ByteAdd(m.c2, m.c1);
    ByteAdd(m.c3, m.c2);
    ByteAdd(m.c0, m.c3);
    ByteAdd(Add(m.c3, m.c2), Add(m.c1, m.c0));
    Multiples(Add(Add(m.c3, m.c2), Add(m.c1, m.c0)), r);
    Multiples(Add(m.c2, m.c0), r);
    Multiples(Add(m.c3, m.c1), r);
    Multiples(Add(m.c1, m.c0), r);
    Multiples(Add(m.c2, m.c1), r);
    Multiples(Add(m.c3, m.c2), r);
    Multiples(Add(m.c0, m.c3), r);
  }

  lemma SumForms(a: Poly, b: Poly, c: Poly, d: Poly)
    requires IsByte(a) && IsByte(b) && IsByte(c) && IsByte(d)
    ensures Add(Add3(a, b, c), d) == Sum4(a, b, c, d) && IsByte(Sum4(a, b, c, d))
  {}

  lemma Swap(a: Poly, b: Poly)
    ensures Add(a, b) == Add(b, a)
  {}

  lemma Rotations(a: Poly, b: Poly, c: Poly, d: Poly)
    ensures Sum4(b, c, d, a) == Sum4(a, b, c, d) == Sum4(c, d, a, b) && Sum4(d, a, b, c) == Sum4(a, b, c, d)
  {}

  /** Four times the sum of two opposite mixed bytes. */
  lemma Fours(a: Poly, b: Poly, c: Poly, d: Poly, p: Poly, q: Poly)
    ensures Twice(Twice(Add(Sum4(Twice(a), Twice(b), Twice(c), Twice(d)), Add(p, q))))
         == Add(Twice(Twice(Twice(Sum4(a, b, c, d)))), Add(Twice(Twice(p)), Twice(Twice(q))))
  {
    hide Add, Twice;
    var x := Sum4(Twice(a), Twice(b), Twice(c), Twice(d));
    TwiceSum(a, b, c, d);
    TwiceAdd(x, Add(p, q));
    TwiceAdd(p, q);
    TwiceAdd(Twice(x), Add(Twice(p), Twice(q)));
    TwiceAdd(Twice(p), Twice(q));
  }

  // ----- the mixing step and section 5.1.3 of FIPS 197 -----

  /** A mixed byte of the standard: 2a + 3b + c + d in the field. */
  ghost function FieldMix(a: Poly, b: Poly, c: Poly, d: Poly): Poly {
    Add(Add(Mul(TWO, a), Mul({0, 1}, b)), Add(c, d))
  }

  lemma ThreeB(x: Poly, y: Poly, b: Poly, c: Poly, d: Poly)
    ensures Add(Add(x, Add(y, b)), Add(c, d)) == Add(Add(x, y), Add(Add(b, c), d))
  {}

  lemma FieldMixForm(a: Poly, b: Poly, c: Poly, d: Poly)
    ensures FieldMix(a, b, c, d) == Add(Mul(TWO, Add(a, b)), Add(Add(b, c), d))
  {
    assert {0, 1} == Add(TWO, ONE);
    hide Mul, Add;
    MulAddLeft(TWO, ONE, b);
    MulOne(b);
    MulAddRight(TWO, a, b);
    ThreeB(Mul(TWO, a), Mul(TWO, b), b, c, d);
  }

  lemma MixForm(x: Poly, a: Poly, b: Poly, c: Poly, d: Poly)
    ensures Add3(x, a, Sum4(a, b, c, d)) == Add(x, Add(Add(b, c), d))
  {}

  lemma CongCancels(x: Poly, y: Poly, z: Poly, m: Poly)
    ensures Cong(Add(x, z), Add(y, z), m) <==> Cong(x, y, m)
  {
    hide Mul;
    assert Add(Add(x, z), Add(y, z)) == Add(x, y);
  }

  lemma TwiceFits(e: Poly)
    requires IsByte(e)
    ensures IsByte(Mul(TWO, e)) <==> 7 !in e
  {
    hide Mul;
    MulMonomial(1, e);
    assert 7 in e ==> 7 + 1 in Shift(e, 1);
  }

  lemma MixedExactly(a: Poly, b: Poly, c: Poly, d: Poly)
    requires IsByte(a) && IsByte(b)
    ensures Cong(MixByte(REDUCER, a, b, Sum4(a, b, c, d)), FieldMix(a, b, c, d), FIELD_MODULUS)
            <==> (7 in a <==> 7 in b)
  {
    hide Gf256, Mul, Cong, FieldMix, Sum4;
    var e := Add(a, b);
    ByteAdd(a, b);
    assert 7 !in e <==> (7 in a <==> 7 in b);
    hide Add;
    FieldMixForm(a, b, c, d);
    MixForm(Gf256(TWO, e, REDUCER), a, b, c, d);
    CongCancels(Gf256(TWO, e, REDUCER), Mul(TWO, e), Add(Add(b, c), d), FIELD_MODULUS);
    FieldProductExactly(TWO, e);
    TwiceFits(e);
  }

  /** A mixed column is the one of the standard exactly if the top bits of its four bytes are equal: where
      two neighbours differ, the code loses the carry. */
  lemma MixColumnExactly(col: Column)
    requires col.Bytes()
    ensures var m, a, b, c, d := MixColumn(REDUCER, col), col.c0, col.c1, col.c2, col.c3;
      (&& Cong(m.c0, FieldMix(a, b, c, d), FIELD_MODULUS) && Cong(m.c1, FieldMix(b, c, d, a), FIELD_MODULUS)
       && Cong(m.c2, FieldMix(c, d, a, b), FIELD_MODULUS) && Cong(m.c3, FieldMix(d, a, b, c), FIELD_MODULUS))
      <==> (7 in a <==> 7 in b) && (7 in b <==> 7 in c) && (7 in c <==> 7 in d)
  {
    hide MixByte, Cong, FieldMix, Add, Sum4, Below;
    var a, b, c, d := col.c0, col.c1, col.c2, col.c3;
    SumForms(a, b, c, d);
    Rotations(a, b, c, d);
    MixedExactly(a, b, c, d);
    MixedExactly(b, c, d, a);
    MixedExactly(c, d, a, b);
    MixedExactly(d, a, b, c);
  }

  // ----- the steps of a round -----

  predicate AllBytes(s: seq<Poly>) { forall i :: 0 <= i < |s| ==> IsByte(s[i]) }

  /** A cipher state or a round key. */
  predicate IsState(s: seq<Poly>) { |s| == 16 && AllBytes(s) }

  function SubByte(b: Poly, forward: bool): Poly { if forward then Sbox(b) else InvSbox(b) }

  function Mapped(s: seq<Poly>, forward: bool): (r: seq<Poly>)
    ensures |r| == |s|
  {
    if s == [] then [] else Mapped(s[..|s| - 1], forward) + [SubByte(s[|s| - 1], forward)]
  }

  lemma {:induction false} MappedAt(s: seq<Poly>, forward: bool, i: nat)
    requires i < |s|
    ensures Mapped(s, forward)[i] == SubByte(s[i], forward)
  {
    hide SubByte;
    if i < |s| - 1 { MappedAt(s[..|s| - 1], forward, i); }
  }

  function Shifted(s: seq<Poly>): (r: seq<Poly>)
    requires |s| == 16
    ensures |r| == 16
  {
    [s[0], s[5], s[10], s[15], s[4], s[9], s[14], s[3], s[8], s[13], s[2], s[7], s[12], s[1], s[6], s[11]]
  }

  function Unshifted(s: seq<Poly>): (r: seq<Poly>)
    requires |s| == 16
    ensures |r| == 16
  {
    [s[0], s[13], s[10], s[7], s[4], s[1], s[14], s[11], s[8], s[5], s[2], s[15], s[12], s[9], s[6], s[3]]
  }

  function Keyed(s: seq<Poly>, k: seq<Poly>): (r: seq<Poly>)
    requires |s| == |k|
    ensures |r| == |s|
  {
    if s == [] then [] else Keyed(s[..|s| - 1], k[..|k| - 1]) + [Add(s[|s| - 1], k[|k| - 1])]
  }

  lemma {:induction false} KeyedAt(s: seq<Poly>, k: seq<Poly>, i: nat)
    requires i < |s| == |k|
    ensures Keyed(s, k)[i] == Add(s[i], k[i])
  {
    hide Add;
    if i < |s| - 1 { KeyedAt(s[..|s| - 1], k[..|k| - 1], i); }
  }

  function ColumnAt(s: seq<Poly>, i: nat): Column
    requires |s| == 16 && i < 4
  {
    Column(s[4 * i], s[4 * i + 1], s[4 * i + 2], s[4 * i + 3])
  }

  function Bytes(c: Column): (r: seq<Poly>) { [c.c0, c.c1, c.c2, c.c3] }

  function Joined(c0: Column, c1: Column, c2: Column, c3: Column): (r: seq<Poly>)
    ensures |r| == 16
  {
    Bytes(c0) + Bytes(c1) + Bytes(c2) + Bytes(c3)
  }

  ghost function Mixed(s: seq<Poly>): (r: seq<Poly>)
    requires |s| == 16
    ensures |r| == 16
  {
    Joined(MixColumn(REDUCER, ColumnAt(s, 0)), MixColumn(REDUCER, ColumnAt(s, 1)),
           MixColumn(REDUCER, ColumnAt(s, 2)), MixColumn(REDUCER, ColumnAt(s, 3)))
  }

  ghost function Unmixed(s: seq<Poly>): (r: seq<Poly>)
    requires |s| == 16
    ensures |r| == 16
  {
    Joined(UnmixColumn(REDUCER, ColumnAt(s, 0)), UnmixColumn(REDUCER, ColumnAt(s, 1)),
           UnmixColumn(REDUCER, ColumnAt(s, 2)), UnmixColumn(REDUCER, ColumnAt(s, 3)))
  }

  // ----- each step undone -----

  lemma AddTwice(a: Poly, b: Poly)
    ensures Add(Add(a, b), b) == a
  {}

  lemma KeyTwice(s: seq<Poly>, k: seq<Poly>)
    requires |s| == |k|
    ensures Keyed(Keyed(s, k), k) == s
  {
    hide Add, Keyed;
    var r := Keyed(Keyed(s, k), k);
    forall i | 0 <= i < |s| ensures r[i] == s[i] {
      KeyedAt(s, k, i);
      KeyedAt(Keyed(s, k), k, i);
      AddTwice(s[i], k[i]);
    }
  }

  lemma KeyedState(s: seq<Poly>, k: seq<Poly>)
    requires IsState(s) && IsState(k)
    ensures IsState(Keyed(s, k))
  {
    hide Add, Keyed, Below;
    forall i | 0 <= i < 16 ensures IsByte(Keyed(s, k)[i]) {
      KeyedAt(s, k, i);
      ByteAdd(s[i], k[i]);
    }
  }

  lemma SubTwice(s: seq<Poly>)
    requires IsState(s)
    ensures Mapped(Mapped(s, true), false) == s && IsState(Mapped(s, true))
  {
    hide Sbox, InvSbox, Mapped, Below;
    var t := Mapped(s, true);
    forall i | 0 <= i < 16 ensures Mapped(t, false)[i] == s[i] && IsByte(t[i]) {
      MappedAt(s, true, i);
      MappedAt(t, false, i);
      SboxInverse(s[i]);
    }
  }

  lemma ShiftTwice(s: seq<Poly>)
    requires |s| == 16
    ensures Unshifted(Shifted(s)) == s
  {}

  lemma ShiftedState(s: seq<Poly>)
    requires IsState(s)
    ensures IsState(Shifted(s))
  {
    hide Below;
  }

  lemma JoinedColumns(c0: Column, c1: Column, c2: Column, c3: Column)
    ensures var s := Joined(c0, c1, c2, c3);
      ColumnAt(s, 0) == c0 && ColumnAt(s, 1) == c1 && ColumnAt(s, 2) == c2 && ColumnAt(s, 3) == c3
  {}

  lemma ColumnsJoined(s: seq<Poly>)
    requires |s| == 16
    ensures Joined(ColumnAt(s, 0), ColumnAt(s, 1), ColumnAt(s, 2), ColumnAt(s, 3)) == s
  {}

  lemma JoinedState(c0: Column, c1: Column, c2: Column, c3: Column)
    requires c0.Bytes() && c1.Bytes() && c2.Bytes() && c3.Bytes()
    ensures IsState(Joined(c0, c1, c2, c3))
  {
    hide Below;
  }

  lemma ColumnBytes(s: seq<Poly>, i: nat)
    requires IsState(s) && i < 4
    ensures ColumnAt(s, i).Bytes()
  {
    hide Below;
  }

  lemma MixTwice(s: seq<Poly>)
    requires IsState(s)
    ensures Unmixed(Mixed(s)) == s && IsState(Mixed(s))
  {
    hide MixColumn, UnmixColumn, ColumnAt, Joined, AllBytes, Column.Bytes;
    var a, b, c, d := ColumnAt(s, 0), ColumnAt(s, 1), ColumnAt(s, 2), ColumnAt(s, 3);
    ColumnBytes(s, 0);
    ColumnBytes(s, 1);
    ColumnBytes(s, 2);
    ColumnBytes(s, 3);
    UnmixMix(REDUCER, a);
    UnmixMix(REDUCER, b);
    UnmixMix(REDUCER, c);
    UnmixMix(REDUCER, d);
    JoinedColumns(MixColumn(REDUCER, a), MixColumn(REDUCER, b), MixColumn(REDUCER, c), MixColumn(REDUCER, d));
    JoinedState(MixColumn(REDUCER, a), MixColumn(REDUCER, b), MixColumn(REDUCER, c), MixColumn(REDUCER, d));
    ColumnsJoined(s);
  }

  // ----- the rounds -----

  ghost function EncRound(s: seq<Poly>, k: seq<Poly>): (r: seq<Poly>)
    requires |s| == |k| == 16
    ensures |r| == 16
  {
    Keyed(Mixed(Shifted(Mapped(s, true))), k)
  }

  function LastRound(s: seq<Poly>, k: seq<Poly>): (r: seq<Poly>)
    requires |s| == |k| == 16
    ensures |r| == 16
  {
    Keyed(Shifted(Mapped(s, true)), k)
  }

  ghost function DecRound(s: seq<Poly>, k: seq<Poly>): (r: seq<Poly>)
    requires |s| == |k| == 16
    ensures |r| == 16
  {
    Mapped(Unshifted(Unmixed(Keyed(s, k))), false)
  }

  function FirstRound(s: seq<Poly>, k: seq<Poly>): (r: seq<Poly>)
    requires |s| == |k| == 16
    ensures |r| == 16
  {
    Mapped(Unshifted(Keyed(s, k)), false)
  }

  predicate KeysOk(keys: seq<seq<Poly>>, n: nat) { n < |keys| && forall i :: 0 <= i <= n ==> IsState(keys[i]) }

  /** Rounds 1 to n - 1 of the encryption. */
  ghost function EncRounds(s: seq<Poly>, keys: seq<seq<Poly>>, n: nat): (r: seq<Poly>)
    requires |s| == 16 && KeysOk(keys, n)
    ensures |r| == 16
    decreases n
  {
    if n <= 1 then s else EncRound(EncRounds(s, keys, n - 1), keys[n - 1])
  }

  /** Rounds n - 1 down to 1 of the decryption. */
  ghost function DecRounds(s: seq<Poly>, keys: seq<seq<Poly>>, n: nat): (r: seq<Poly>)
    requires |s| == 16 && KeysOk(keys, n)
    ensures |r| == 16
    decreases n
  {
    if n <= 1 then s else DecRounds(DecRound(s, keys[n - 1]), keys, n - 1)
  }

  ghost function Encrypted(s: seq<Poly>, keys: seq<seq<Poly>>, rounds: nat): (r: seq<Poly>)
    requires |s| == 16 && KeysOk(keys, rounds)
    ensures |r| == 16
  {
    LastRound(EncRounds(Keyed(s, keys[0]), keys, rounds), keys[rounds])
  }

  ghost function Decrypted(s: seq<Poly>, keys: seq<seq<Poly>>, rounds: nat): (r: seq<Poly>)
    requires |s| == 16 && KeysOk(keys, rounds)
    ensures |r| == 16
  {
    Keyed(DecRounds(FirstRound(s, keys[rounds]), keys, rounds), keys[0])
  }

  lemma RoundUndone(s: seq<Poly>, k: seq<Poly>)
    requires IsState(s) && IsState(k)
    ensures DecRound(EncRound(s, k), k) == s && IsState(EncRound(s, k))
  {
    hide Mapped, Shifted, Unshifted, Mixed, Unmixed, Keyed, AllBytes;
    SubTwice(s);
    ShiftTwice(Mapped(s, true));
    ShiftedState(Mapped(s, true));
    MixTwice(Shifted(Mapped(s, true)));
    KeyedState(Mixed(Shifted(Mapped(s, true))), k);
    KeyTwice(Mixed(Shifted(Mapped(s, true))), k);
  }

  lemma LastRoundUndone(s: seq<Poly>, k: seq<Poly>)
    requires IsState(s) && IsState(k)
    ensures FirstRound(LastRound(s, k), k) == s
  {
    hide Mapped, Shifted, Unshifted, Keyed, AllBytes;
    SubTwice(s);
    ShiftTwice(Mapped(s, true));
    KeyTwice(Shifted(Mapped(s, true)), k);
  }

  lemma {:induction false} RoundsUndone(s: seq<Poly>, keys: seq<seq<Poly>>, n: nat)
    requires IsState(s) && KeysOk(keys, n)
    ensures DecRounds(EncRounds(s, keys, n), keys, n) == s && IsState(EncRounds(s, keys, n))
    decreases n
  {
    hide EncRound, DecRound, AllBytes;
    if n > 1 {
      RoundsUndone(s, keys, n - 1);
      RoundUndone(EncRounds(s, keys, n - 1), keys[n - 1]);
    }
  }

  /** For every state, all round keys and every number of rounds from 1 on, decryption undoes encryption. */
  lemma DecryptionInverts(s: seq<Poly>, keys: seq<seq<Poly>>, rounds: nat)
    requires IsState(s) && KeysOk(keys, rounds) && rounds >= 1
    ensures Decrypted(Encrypted(s, keys, rounds), keys, rounds) == s
  {
    hide EncRounds, DecRounds, LastRound, FirstRound, Keyed, AllBytes;
    KeyedState(s, keys[0]);
    var t := Keyed(s, keys[0]);
    RoundsUndone(t, keys, rounds);
    LastRoundUndone(EncRounds(t, keys, rounds), keys[rounds]);
    KeyTwice(s, keys[0]);
  }

  // ----- every round key matters -----

  lemma AddBack(a: Poly, b: Poly)
    ensures Add(a, Add(a, b)) == b
  {}

  /** Two round keys take a state to different states. */
  lemma KeyTells(s: seq<Poly>, k: seq<Poly>, l: seq<Poly>)
    requires |s| == |k| == |l| && k != l
    ensures Keyed(s, k) != Keyed(s, l)
  {
    hide Add, Keyed;
    var i :| 0 <= i < |s| && k[i] != l[i];
    KeyedAt(s, k, i);
    KeyedAt(s, l, i);
    AddBack(s[i], k[i]);
    AddBack(s[i], l[i]);
  }

  /** A round takes different states, or one state under different keys, to different states. */
  lemma RoundTells(s: seq<Poly>, t: seq<Poly>, k: seq<Poly>, l: seq<Poly>)
    requires IsState(s) && IsState(t) && IsState(k) && IsState(l)
    requires (s == t) != (k == l)
    ensures EncRound(s, k) != EncRound(t, l) && LastRound(s, k) != LastRound(t, l)
  {
    hide Mapped, Shifted, Mixed, Keyed, AllBytes, DecRound, FirstRound;
    if s == t {
      KeyTells(Mixed(Shifted(Mapped(s, true))), k, l);
      KeyTells(Shifted(Mapped(s, true)), k, l);
    } else {
      hide EncRound, LastRound;
      RoundUndone(s, k);
      RoundUndone(t, k);
      LastRoundUndone(s, k);
      LastRoundUndone(t, k);
    }
  }

  /** Two key schedules that differ in round key i and in no other. */
  predicate DifferAt(keys: seq<seq<Poly>>, other: seq<seq<Poly>>, n: nat, i: nat) {
    KeysOk(keys, n) && KeysOk(other, n) && forall j :: 0 <= j <= n ==> (keys[j] == other[j] <==> j != i)
  }

  lemma {:induction false} RoundsTell(s: seq<Poly>, t: seq<Poly>, keys: seq<seq<Poly>>, other: seq<seq<Poly>>, n: nat,
                                      i: nat)
    requires IsState(s) && IsState(t) && DifferAt(keys, other, n, i)
    requires s != t <==> i == 0
    ensures IsState(EncRounds(s, keys, n)) && IsState(EncRounds(t, other, n))
    ensures n >= 1 ==> (EncRounds(s, keys, n) == EncRounds(t, other, n) <==> i >= n)
    decreases n
  {
    hide EncRound, AllBytes;
    if n > 1 {
      RoundsTell(s, t, keys, other, n - 1, i);
      var a, b := EncRounds(s, keys, n - 1), EncRounds(t, other, n - 1);
      RoundUndone(a, keys[n - 1]);
      RoundUndone(b, other[n - 1]);
      if i < n { RoundTells(a, b, keys[n - 1], other[n - 1]); }
    }
  }

  /** Changing any one round key, whichever, changes the ciphertext of every state. */
  lemma EveryRoundKeyMatters(s: seq<Poly>, keys: seq<seq<Poly>>, other: seq<seq<Poly>>, rounds: nat, i: nat)
    requires IsState(s) && rounds >= 1 && i <= rounds && DifferAt(keys, other, rounds, i)
    ensures Encrypted(s, keys, rounds) != Encrypted(s, other, rounds)
  {
    hide EncRounds, LastRound, EncRound, Keyed, AllBytes;
    KeyedState(s, keys[0]);
    KeyedState(s, other[0]);
    var a, b := Keyed(s, keys[0]), Keyed(s, other[0]);
    if i == 0 { KeyTells(s, keys[0], other[0]); }
    RoundsTell(a, b, keys, other, rounds, i);
    RoundTells(EncRounds(a, keys, rounds), EncRounds(b, other, rounds), keys[rounds], other[rounds]);
  }

  // ----- the code in place -----

  function Wrap(n: nat): nat { n % 4 }

  /** The row that starts at the given byte, turned by some columns. */
  function Turned(s: seq<Poly>, row: nat, shift: nat): (r: seq<Poly>)
    requires |s| == 16 && row < 4
    ensures |r| == 16
  {
    s[row := s[row + 4 * Wrap(shift)]][row + 4 := s[row + 4 * Wrap(shift + 1)]]
     [row + 8 := s[row + 4 * Wrap(shift + 2)]][row + 12 := s[row + 4 * Wrap(shift + 3)]]
  }

  lemma TurnedRows(s: seq<Poly>)
    requires |s| == 16
    ensures Turned(Turned(Turned(s, 1, 1), 2, 2), 3, 3) == Shifted(s)
  {}

  lemma TurnedBack(s: seq<Poly>)
    requires |s| == 16
    ensures Turned(Turned(Turned(s, 1, 3), 2, 2), 3, 1) == Unshifted(s)
  {}

  lemma ColumnOf(s: seq<Poly>, row: nat, k: nat)
    requires |s| == 16 && row < 4 && k < 4
    ensures [s[row], s[row + 4], s[row + 8], s[row + 12]][k] == s[row + 4 * k]
  {}

  method ShiftCol(data: array<Poly>, row: nat, shift: nat)
    requires data.Length == 16 && row < 4
    modifies data
    ensures data[..] == Turned(old(data[..]), row, shift)
  {
    ghost var s := data[..];
    WrapBelow(shift);
    hide Wrap;
    var tmp := [data[row], data[row + 4], data[row + 8], data[row + 12]];
    ColumnOf(s, row, Wrap(shift));
    ColumnOf(s, row, Wrap(shift + 1));
    ColumnOf(s, row, Wrap(shift + 2));
    ColumnOf(s, row, Wrap(shift + 3));
    data[row] := tmp[Wrap(shift + 0)];
    data[row + 4] := tmp[Wrap(shift + 1)];
    data[row + 8] := tmp[Wrap(shift + 2)];
    data[row + 12] := tmp[Wrap(shift + 3)];
  }

  lemma WrapBelow(n: nat)
    ensures Wrap(n) < 4 && Wrap(n + 1) < 4 && Wrap(n + 2) < 4 && Wrap(n + 3) < 4
  {}

  method InvShiftCol(data: array<Poly>, row: nat, shift: nat)
    requires data.Length == 16 && row < 4 && shift <= 4
    modifies data
    ensures data[..] == Turned(old(data[..]), row, 4 - shift)
  {
    ghost var s := data[..];
    WrapBelow(4 - shift);
    hide Wrap;
    var tmp := [data[row], data[row + 4], data[row + 8], data[row + 12]];
    ColumnOf(s, row, Wrap(4 - shift));
    ColumnOf(s, row, Wrap(4 - shift + 1));
    ColumnOf(s, row, Wrap(4 - shift + 2));
    ColumnOf(s, row, Wrap(4 - shift + 3));
    data[row] := tmp[Wrap(4 - shift + 0)];
    data[row + 4] := tmp[Wrap(4 - shift + 1)];
    data[row + 8] := tmp[Wrap(4 - shift + 2)];
    data[row + 12] := tmp[Wrap(4 - shift + 3)];
  }

  method ShiftRows(data: array<Poly>)
    requires data.Length == 16
    modifies data
    ensures data[..] == Shifted(old(data[..]))
  {
    hide Turned, Shifted;
    ghost var s := data[..];
    ShiftCol(data, 1, 1);
    ShiftCol(data, 2, 2);
    ShiftCol(data, 3, 3);
    TurnedRows(s);
  }

  method InvShiftRows(data: array<Poly>)
    requires data.Length == 16
    modifies data
    ensures data[..] == Unshifted(old(data[..]))
  {
    hide Turned, Unshifted;
    ghost var s := data[..];
    InvShiftCol(data, 1, 1);
    InvShiftCol(data, 2, 2);
    InvShiftCol(data, 3, 3);
    TurnedBack(s);
  }

  /** Sends src through one of the tables into dst, which may be the same array. */
  method SubBytes(src: array<Poly>, dst: array<Poly>, forward: bool)
    requires src.Length == dst.Length == 16
    modifies dst
    ensures dst[..] == Mapped(old(src[..]), forward)
  {
    hide SubByte, Mapped;
    ghost var s := src[..];
    for i := 0 to 16
      invariant forall k :: 0 <= k < i ==> dst[k] == SubByte(s[k], forward)
      invariant forall k :: i <= k < 16 ==> src[k] == s[k]
    {
      dst[i] := SubByte(src[i], forward);
    }
    forall k | 0 <= k < 16 ensures dst[..][k] == Mapped(s, forward)[k] { MappedAt(s, forward, k); }
  }

  /** Adds a round key to src into dst, which may be the same array. */
  method AddKey(src: array<Poly>, dst: array<Poly>, key: seq<Poly>)
    requires src.Length == dst.Length == |key| == 16
    modifies dst
    ensures dst[..] == Keyed(old(src[..]), key)
  {
    hide Add, Keyed;
    ghost var s := src[..];
    for i := 0 to 16
      invariant forall k :: 0 <= k < i ==> dst[k] == Add(s[k], key[k])
      invariant forall k :: i <= k < 16 ==> src[k] == s[k]
    {
      dst[i] := Add(src[i], key[i]);
    }
    forall k | 0 <= k < 16 ensures dst[..][k] == Keyed(s, key)[k] { KeyedAt(s, key, k); }
  }

  lemma JoinedIs(s: seq<Poly>, c0: Column, c1: Column, c2: Column, c3: Column)
    requires |s| == 16
    requires ColumnAt(s, 0) == c0 && ColumnAt(s, 1) == c1 && ColumnAt(s, 2) == c2 && ColumnAt(s, 3) == c3
    ensures s == Joined(c0, c1, c2, c3)
  {
    ColumnsJoined(s);
  }

  /** One column of the forward mixing step. */
  method MixInto(tmp: array<Poly>, state: array<Poly>, i: nat)
    requires tmp.Length == state.Length == 16 && i < 4 && tmp != state
    modifies state
    ensures ColumnAt(state[..], i) == MixColumn(REDUCER, ColumnAt(tmp[..], i))
    ensures forall k :: 0 <= k < 16 && k / 4 != i ==> state[k] == old(state[k])
  {
    hide Add, Gf256;
    var t := Add(Add(Add(tmp[4 * i], tmp[4 * i + 1]), tmp[4 * i + 2]), tmp[4 * i + 3]);
    var m := Gf256Mul(TWO, Add(tmp[4 * i], tmp[4 * i + 1]), REDUCER);
    state[4 * i] := Add(Add(m, tmp[4 * i]), t);
    m := Gf256Mul(TWO, Add(tmp[4 * i + 1], tmp[4 * i + 2]), REDUCER);
    state[4 * i + 1] := Add(Add(m, tmp[4 * i + 1]), t);
    m := Gf256Mul(TWO, Add(tmp[4 * i + 2], tmp[4 * i + 3]), REDUCER);
    state[4 * i + 2] := Add(Add(m, tmp[4 * i + 2]), t);
    m := Gf256Mul(TWO, Add(tmp[4 * i + 3], tmp[4 * i]), REDUCER);
    state[4 * i + 3] := Add(Add(m, tmp[4 * i + 3]), t);
  }

  /** One column of the backward mixing step. */
  method UnmixInto(tmp: array<Poly>, state: array<Poly>, i: nat)
    requires tmp.Length == state.Length == 16 && i < 4 && tmp != state
    modifies state
    ensures ColumnAt(state[..], i) == UnmixColumn(REDUCER, ColumnAt(tmp[..], i))
    ensures forall k :: 0 <= k < 16 && k / 4 != i ==> state[k] == old(state[k])
  {
    hide Add, Gf256;
    var t := Add(tmp[4 * i + 3], tmp[4 * i + 2]);
    var u := Add(tmp[4 * i + 1], tmp[4 * i]);
    var v := Add(t, u);
    v := Gf256Mul(NINE, v, REDUCER);
    var m := Gf256Mul(FOUR, Add(tmp[4 * i + 2], tmp[4 * i]), REDUCER);
    var w := Add(v, m);
    m := Gf256Mul(FOUR, Add(tmp[4 * i + 3], tmp[4 * i + 1]), REDUCER);
    v := Add(v, m);
    m := Gf256Mul(TWO, Add(tmp[4 * i], tmp[4 * i + 3]), REDUCER);
    state[4 * i + 3] := Add(Add(tmp[4 * i + 3], v), m);
    m := Gf256Mul(TWO, t, REDUCER);
    state[4 * i + 2] := Add(Add(tmp[4 * i + 2], w), m);
    m := Gf256Mul(TWO, Add(tmp[4 * i + 2], tmp[4 * i + 1]), REDUCER);
    state[4 * i + 1] := Add(Add(tmp[4 * i + 1], v), m);
    m := Gf256Mul(TWO, u, REDUCER);
    state[4 * i] := Add(Add(tmp[4 * i], w), m);
  }

  lemma ColumnKept(s: seq<Poly>, t: seq<Poly>, i: nat, j: nat)
    requires |s| == |t| == 16 && i < 4 && j < 4 && i != j
    requires forall k :: 0 <= k < 16 && k / 4 != i ==> s[k] == t[k]
    ensures ColumnAt(s, j) == ColumnAt(t, j)
  {}

  method MixColumns(tmp: array<Poly>, state: array<Poly>)
    requires tmp.Length == state.Length == 16 && tmp != state
    modifies state
    ensures state[..] == Mixed(tmp[..])
  {
    hide ColumnAt, MixColumn, Joined;
    for i := 0 to 4
      invariant forall j :: 0 <= j < i ==> ColumnAt(state[..], j) == MixColumn(REDUCER, ColumnAt(tmp[..], j))
    {
      ghost var before := state[..];
      MixInto(tmp, state, i);
      forall j | 0 <= j < i
        ensures ColumnAt(state[..], j) == ColumnAt(before, j)
      {
        ColumnKept(state[..], before, i, j);
      }
    }
    JoinedIs(state[..], MixColumn(REDUCER, ColumnAt(tmp[..], 0)), MixColumn(REDUCER, ColumnAt(tmp[..], 1)),
             MixColumn(REDUCER, ColumnAt(tmp[..], 2)), MixColumn(REDUCER, ColumnAt(tmp[..], 3)));
  }

  method InvMixColumns(tmp: array<Poly>, state: array<Poly>)
    requires tmp.Length == state.Length == 16 && tmp != state
    modifies state
    ensures state[..] == Unmixed(tmp[..])
  {
    hide ColumnAt, UnmixColumn, Joined;
    for i := 0 to 4
      invariant forall j :: 0 <= j < i ==> ColumnAt(state[..], j) == UnmixColumn(REDUCER, ColumnAt(tmp[..], j))
    {
      ghost var before := state[..];
      UnmixInto(tmp, state, i);
      forall j | 0 <= j < i
        ensures ColumnAt(state[..], j) == ColumnAt(before, j)
      {
        ColumnKept(state[..], before, i, j);
      }
    }
    JoinedIs(state[..], UnmixColumn(REDUCER, ColumnAt(tmp[..], 0)), UnmixColumn(REDUCER, ColumnAt(tmp[..], 1)),
             UnmixColumn(REDUCER, ColumnAt(tmp[..], 2)), UnmixColumn(REDUCER, ColumnAt(tmp[..], 3)));
  }

  method EncryptRound(state: array<Poly>, key: seq<Poly>)
    requires state.Length == |key| == 16
    modifies state
    ensures state[..] == EncRound(old(state[..]), key)
  {
    hide Mapped, Shifted, Mixed, Keyed;
    var tmp := new Poly[16];
    SubBytes(state, tmp, true);
    ShiftRows(tmp);
    MixColumns(tmp, state);
    AddKey(state, state, key);
  }

  method EncryptLastRound(state: array<Poly>, key: seq<Poly>)
    requires state.Length == |key| == 16
    modifies state
    ensures state[..] == LastRound(old(state[..]), key)
  {
    hide Mapped, Shifted, Keyed;
    SubBytes(state, state, true);
    ShiftRows(state);
    AddKey(state, state, key);
  }

  method DecryptRound(state: array<Poly>, key: seq<Poly>)
    requires state.Length == |key| == 16
    modifies state
    ensures state[..] == DecRound(old(state[..]), key)
  {
    hide Mapped, Unshifted, Unmixed, Keyed;
    var tmp := new Poly[16];
    AddKey(state, tmp, key);
    InvMixColumns(tmp, state);
    InvShiftRows(state);
    SubBytes(state, state, false);
  }

  method DecryptFirstRound(state: array<Poly>, key: seq<Poly>)
    requires state.Length == |key| == 16
    modifies state
    ensures state[..] == FirstRound(old(state[..]), key)
  {
    hide Mapped, Unshifted, Keyed;
    AddKey(state, state, key);
    InvShiftRows(state);
    SubBytes(state, state, false);
  }

  method EncryptCore(state: array<Poly>, keys: seq<seq<Poly>>, rounds: nat)
    requires state.Length == 16 && KeysOk(keys, rounds) && 1 <= rounds < 256
    modifies state
    ensures state[..] == Encrypted(old(state[..]), keys, rounds)
  {
    hide EncRound, LastRound, Keyed, AllBytes;
    AddKey(state, state, keys[0]);
    ghost var start := state[..];
    var i, left := 1, rounds;
    while left > 1
      invariant 1 <= i <= rounds && i + left == rounds + 1
      invariant state[..] == EncRounds(start, keys, i)
      decreases left
    {
      EncryptRound(state, keys[i]);
      i := i + 1;
      left := left - 1;
    }
    EncryptLastRound(state, keys[i]);
  }

  method DecryptCore(state: array<Poly>, keys: seq<seq<Poly>>, rounds: nat)
    requires state.Length == 16 && KeysOk(keys, rounds) && 1 <= rounds < 256
    modifies state
    ensures state[..] == Decrypted(old(state[..]), keys, rounds)
  {
    hide DecRound, FirstRound, Keyed, AllBytes;
    DecryptFirstRound(state, keys[rounds]);
    ghost var start := state[..];
    var i, left := rounds, rounds;
    while left > 1
      invariant 1 <= i == left <= rounds
      invariant DecRounds(state[..], keys, i) == DecRounds(start, keys, rounds)
      decreases left
    {
      i := i - 1;
      DecryptRound(state, keys[i]);
      left := left - 1;
    }
    AddKey(state, state, keys[0]);
  }
}
