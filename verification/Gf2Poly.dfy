/** Polynomials over GF(2), as the finite sets of their exponents. Addition is symmetric
    difference, so sums can be compared member by member. */
module Gf2Poly {
  type Poly = set<nat>

  const ONE: Poly := {0}

  function Add(p: Poly, q: Poly): Poly { (p - q) + (q - p) }

  /** p times X to the n. */
  function Shift(p: Poly, n: nat): Poly { set k | k in p :: k + n }

  predicate Below(p: Poly, n: nat) { forall k :: k in p ==> k < n }

  /** The degree plus one, 0 for the zero polynomial. */
  ghost function Size(p: Poly): (n: nat)
    ensures Below(p, n) && (n > 0 ==> n - 1 in p)
  {
    if p == {} then 0
    else
      var k :| k in p;
      var n := Size(p - {k});
      assert p == p - {k} + {k};
      if k < n then n else k + 1
  }

  lemma SizeIs(p: Poly, n: nat)
    requires Below(p, n) && (n > 0 ==> n - 1 in p)
    ensures Size(p) == n
  {}

  lemma SizeBound(p: Poly, n: nat)
    requires Below(p, n)
    ensures Size(p) <= n
  {}

  /** The sum of the shifts of q by the exponents of p below n. */
  function MulUpTo(p: Poly, q: Poly, n: nat): Poly {
    if n == 0 then {}
    else if n - 1 in p then Add(MulUpTo(p, q, n - 1), Shift(q, n - 1))
    else MulUpTo(p, q, n - 1)
  }

  ghost function Mul(p: Poly, q: Poly): Poly { MulUpTo(p, q, Size(p)) }

  // ----- ring laws -----

  lemma {:induction false} MulUpToEnough(p: Poly, q: Poly, m: nat, n: nat)
    requires Below(p, m) && m <= n
    ensures MulUpTo(p, q, n) == MulUpTo(p, q, m)
  {
    if m < n {
      MulUpToEnough(p, q, m, n - 1);
    }
  }

  lemma MulIs(p: Poly, q: Poly, n: nat)
    requires Below(p, n)
    ensures Mul(p, q) == MulUpTo(p, q, n)
  {
    MulUpToEnough(p, q, Size(p), n);
  }

  lemma ShiftAdd(p: Poly, q: Poly, n: nat)
    ensures Shift(Add(p, q), n) == Add(Shift(p, n), Shift(q, n))
  {
    forall k | k in Add(Shift(p, n), Shift(q, n)) ensures k in Shift(Add(p, q), n) {
      assert k - n in Add(p, q);
    }
  }

  lemma ShiftShift(p: Poly, m: nat, n: nat)
    ensures Shift(Shift(p, m), n) == Shift(p, m + n)
  {
    forall k | k in Shift(p, m + n) ensures k in Shift(Shift(p, m), n) {
      assert k - n in Shift(p, m);
    }
  }

  lemma ShiftZero(p: Poly)
    ensures Shift(p, 0) == p
  {}

  lemma {:induction false} MulUpToAddLeft(p: Poly, p': Poly, q: Poly, n: nat)
    ensures MulUpTo(Add(p, p'), q, n) == Add(MulUpTo(p, q, n), MulUpTo(p', q, n))
  {
    if n != 0 {
      MulUpToAddLeft(p, p', q, n - 1);
    }
  }

  lemma {:induction false} MulUpToAddRight(p: Poly, q: Poly, q': Poly, n: nat)
    ensures MulUpTo(p, Add(q, q'), n) == Add(MulUpTo(p, q, n), MulUpTo(p, q', n))
  {
    if n != 0 {
      MulUpToAddRight(p, q, q', n - 1);
      ShiftAdd(q, q', n - 1);
    }
  }

  lemma MulAddLeft(p: Poly, p': Poly, q: Poly)
    ensures Mul(Add(p, p'), q) == Add(Mul(p, q), Mul(p', q))
  {
    var n := Size(p) + Size(p');
    MulIs(p, q, n);
    MulIs(p', q, n);
    MulIs(Add(p, p'), q, n);
    MulUpToAddLeft(p, p', q, n);
  }

  lemma MulAddRight(p: Poly, q: Poly, q': Poly)
    ensures Mul(p, Add(q, q')) == Add(Mul(p, q), Mul(p, q'))
  {
    MulUpToAddRight(p, q, q', Size(p));
  }

  lemma {:induction false} MulUpToMonomial(k: nat, q: Poly, n: nat)
    ensures MulUpTo({k}, q, n) == if k < n then Shift(q, k) else {}
  {
    if n != 0 {
      MulUpToMonomial(k, q, n - 1);
    }
  }

  lemma MulMonomial(k: nat, q: Poly)
    ensures Mul({k}, q) == Shift(q, k)
  {
    MulIs({k}, q, k + 1);
    MulUpToMonomial(k, q, k + 1);
  }

  lemma {:induction false} MulUpToByMonomial(p: Poly, k: nat, n: nat)
    requires Below(p, n)
    ensures MulUpTo(p, {k}, n) == Shift(p, k)
    decreases n
  {
    if n != 0 {
      var r := p - {n - 1};
      MulUpToByMonomial(r, k, n - 1);
      MulUpToLower(p, r, {k}, n - 1);
      assert Shift({k}, n - 1) == {k + n - 1};
      if n - 1 in p {
        assert p == Add(r, {n - 1});
        ShiftAdd(r, {n - 1}, k);
        assert Shift({n - 1}, k) == {k + n - 1};
      }
    }
  }

  /** Only the exponents below n matter. */
  lemma {:induction false} MulUpToLower(p: Poly, p': Poly, q: Poly, n: nat)
    requires forall k :: 0 <= k < n ==> (k in p <==> k in p')
    ensures MulUpTo(p, q, n) == MulUpTo(p', q, n)
  {
    if n != 0 {
      MulUpToLower(p, p', q, n - 1);
    }
  }

  lemma MulByMonomial(p: Poly, k: nat)
    ensures Mul(p, {k}) == Shift(p, k)
  {
    MulUpToByMonomial(p, k, Size(p));
  }

  lemma MulZero(p: Poly)
    ensures Mul(p, {}) == {} && Mul({}, p) == {}
  {
    MulAddRight(p, {}, {});
    assert Add({}, {}) == {} && Add(Mul(p, {}), Mul(p, {})) == {};
  }

  lemma MulOne(p: Poly)
    ensures Mul(p, ONE) == p && Mul(ONE, p) == p
  {
    MulByMonomial(p, 0);
    MulMonomial(0, p);
    ShiftZero(p);
  }

  lemma {:induction false} MulComm(p: Poly, q: Poly)
    ensures Mul(p, q) == Mul(q, p)
    decreases Size(q)
  {
    if q == {} {
      MulZero(p);
    } else {
      var k := Size(q) - 1;
      var r := q - {k};
      assert q == Add(r, {k});
      MulComm(p, r);
      MulAddRight(p, r, {k});
      MulAddLeft(r, {k}, p);
      MulByMonomial(p, k);
      MulMonomial(k, p);
    }
  }

  lemma {:induction false} MulShift(p: Poly, q: Poly, k: nat)
    ensures Mul(p, Shift(q, k)) == Shift(Mul(p, q), k)
    decreases Size(p)
  {
    if p == {} {
      MulZero(q);
      MulZero(Shift(q, k));
    } else {
      var j := Size(p) - 1;
      var r := p - {j};
      assert p == Add(r, {j});
      MulShift(r, q, k);
      MulAddLeft(r, {j}, q);
      MulAddLeft(r, {j}, Shift(q, k));
      MulMonomial(j, q);
      MulMonomial(j, Shift(q, k));
      ShiftShift(q, k, j);
      ShiftShift(q, j, k);
      ShiftAdd(Mul(r, q), Shift(q, j), k);
    }
  }

  lemma {:induction false} MulAssoc(p: Poly, q: Poly, r: Poly)
    ensures Mul(Mul(p, q), r) == Mul(p, Mul(q, r))
    decreases Size(p)
  {
    if p == {} {
      MulZero(q);
      MulZero(r);
      MulZero(Mul(q, r));
    } else {
      var k := Size(p) - 1;
      var s := p - {k};
      assert p == Add(s, {k});
      MulAssoc(s, q, r);
      MulAddLeft(s, {k}, q);
      MulAddLeft(Mul(s, q), Mul({k}, q), r);
      MulAddLeft(s, {k}, Mul(q, r));
      MulMonomial(k, q);
      MulMonomial(k, Mul(q, r));
      MulComm(Shift(q, k), r);
      MulShift(r, q, k);
      MulComm(r, q);
    }
  }

  // ----- degrees -----

  lemma ShiftSize(p: Poly, n: nat)
    ensures Size(Shift(p, n)) == if p == {} then 0 else Size(p) + n
  {
    if p == {} {
      assert Shift(p, n) == {};
    } else {
      assert Size(p) - 1 + n in Shift(p, n);
      SizeIs(Shift(p, n), Size(p) + n);
    }
  }

  lemma AddSize(p: Poly, q: Poly)
    ensures Size(Add(p, q)) <= (if Size(p) < Size(q) then Size(q) else Size(p))
    ensures Size(p) < Size(q) ==> Size(Add(p, q)) == Size(q)
    ensures 0 < Size(p) == Size(q) ==> Size(Add(p, q)) < Size(p)
  {
    var s := Add(p, q);
    if Size(p) < Size(q) {
      assert Size(q) - 1 in s;
      SizeIs(s, Size(q));
    } else {
      SizeBound(s, Size(p));
      if 0 < Size(p) == Size(q) {
        SizeBound(s, Size(p) - 1);
      }
    }
  }

  /** Degrees add up: there are no zero divisors. */
  lemma {:induction false} MulSize(p: Poly, q: Poly)
    ensures Size(Mul(p, q)) == if p == {} || q == {} then 0 else Size(p) + Size(q) - 1
    decreases Size(p)
  {
    if p == {} || q == {} {
      MulZero(p);
      MulZero(q);
    } else {
      var k := Size(p) - 1;
      var r := p - {k};
      assert p == Add(r, {k});
      MulSize(r, q);
      MulAddLeft(r, {k}, q);
      MulMonomial(k, q);
      ShiftSize(q, k);
      assert Below(r, k);
      SizeBound(r, k);
      AddSize(Mul(r, q), Shift(q, k));
    }
  }

  // ----- congruence modulo a polynomial -----

  ghost predicate Cong(a: Poly, b: Poly, m: Poly) { exists c: Poly :: Add(a, b) == Mul(c, m) }

  lemma CongBy(a: Poly, b: Poly, m: Poly, c: Poly)
    requires Add(a, b) == Mul(c, m)
    ensures Cong(a, b, m)
  {}

  lemma CongRefl(a: Poly, m: Poly)
    ensures Cong(a, a, m)
  {
    MulZero(m);
    CongBy(a, a, m, {});
  }

  lemma CongSym(a: Poly, b: Poly, m: Poly)
    requires Cong(a, b, m)
    ensures Cong(b, a, m)
  {
    var c: Poly :| Add(a, b) == Mul(c, m);
    assert Add(b, a) == Add(a, b);
    CongBy(b, a, m, c);
  }

  lemma CongTrans(a: Poly, b: Poly, c: Poly, m: Poly)
    requires Cong(a, b, m) && Cong(b, c, m)
    ensures Cong(a, c, m)
  {
    var d: Poly :| Add(a, b) == Mul(d, m);
    var e: Poly :| Add(b, c) == Mul(e, m);
    MulAddLeft(d, e, m);
    assert Add(a, c) == Add(Add(a, b), Add(b, c));
    CongBy(a, c, m, Add(d, e));
  }

  lemma CongAdd(a: Poly, b: Poly, c: Poly, d: Poly, m: Poly)
    requires Cong(a, b, m) && Cong(c, d, m)
    ensures Cong(Add(a, c), Add(b, d), m)
  {
    var s: Poly :| Add(a, b) == Mul(s, m);
    var t: Poly :| Add(c, d) == Mul(t, m);
    MulAddLeft(s, t, m);
    assert Add(Add(a, c), Add(b, d)) == Add(Add(a, b), Add(c, d));
    CongBy(Add(a, c), Add(b, d), m, Add(s, t));
  }

  lemma CongMulRight(a: Poly, b: Poly, c: Poly, m: Poly)
    requires Cong(a, b, m)
    ensures Cong(Mul(c, a), Mul(c, b), m)
  {
    var s: Poly :| Add(a, b) == Mul(s, m);
    MulAddRight(c, a, b);
    MulAssoc(c, s, m);
    CongBy(Mul(c, a), Mul(c, b), m, Mul(c, s));
  }

  lemma CongMul(a: Poly, b: Poly, c: Poly, d: Poly, m: Poly)
    requires Cong(a, b, m) && Cong(c, d, m)
    ensures Cong(Mul(a, c), Mul(b, d), m)
  {
    CongMulRight(c, d, a, m);
    CongMulRight(a, b, d, m);
    MulComm(a, d);
    MulComm(b, d);
    CongTrans(Mul(a, c), Mul(a, d), Mul(b, d), m);
  }

  /** The modulus itself vanishes. */
  lemma CongModulus(a: Poly, m: Poly)
    ensures Cong(Add(a, m), a, m)
  {
    MulOne(m);
    assert Add(Add(a, m), a) == m;
    CongBy(Add(a, m), a, m, ONE);
  }

  /** Congruent polynomials of smaller degree than the modulus are equal. */
  lemma CongUnique(a: Poly, b: Poly, m: Poly)
    requires Cong(a, b, m) && Size(a) < Size(m) && Size(b) < Size(m)
    ensures a == b
  {
    var c: Poly :| Add(a, b) == Mul(c, m);
    AddSize(a, b);
    MulSize(c, m);
    assert c == {};
    MulZero(m);
    assert a - b == {} && b - a == {};
  }

  /** The remainder of a modulo m. */
  ghost function Mod(a: Poly, m: Poly): (r: Poly)
    requires m != {}
    ensures Size(r) < Size(m) && Cong(r, a, m)
    decreases Size(a)
  {
    if Size(a) < Size(m) then
      CongRefl(a, m);
      a
    else
      var s := Shift(m, Size(a) - Size(m));
      ReduceOnce(a, m);
      var r := Mod(Add(a, s), m);
      CongTrans(r, Add(a, s), a, m);
      r
  }

  lemma AddBack(a: Poly, b: Poly)
    ensures Add(Add(a, b), a) == b
  {}

  lemma ReduceOnce(a: Poly, m: Poly)
    requires 0 < Size(m) <= Size(a)
    ensures Cong(Add(a, Shift(m, Size(a) - Size(m))), a, m) && Size(Add(a, Shift(m, Size(a) - Size(m)))) < Size(a)
  {
    hide Shift, Add, Mul;
    var n := Size(a) - Size(m);
    ShiftSize(m, n);
    AddSize(a, Shift(m, n));
    MulMonomial(n, m);
    AddBack(a, Shift(m, n));
    CongBy(Add(a, Shift(m, n)), a, m, {n});
  }

  // ----- coprime polynomials -----

  ghost predicate Coprime(u: Poly, v: Poly) { exists a: Poly, b: Poly :: Add(Mul(a, u), Mul(b, v)) == ONE }

  lemma CoprimeBy(u: Poly, v: Poly, a: Poly, b: Poly)
    requires Add(Mul(a, u), Mul(b, v)) == ONE
    ensures Coprime(u, v)
  {}

  lemma CoprimeSym(u: Poly, v: Poly)
    requires Coprime(u, v)
    ensures Coprime(v, u)
  {
    var a: Poly, b: Poly :| Add(Mul(a, u), Mul(b, v)) == ONE;
    assert Add(Mul(b, v), Mul(a, u)) == ONE;
  }

  /** Euclid's step: adding a multiple of v to u keeps them coprime. */
  lemma CoprimeStep(u: Poly, v: Poly, n: nat)
    requires Coprime(u, v)
    ensures Coprime(Add(u, Shift(v, n)), v)
  {
    var a: Poly, b: Poly :| Add(Mul(a, u), Mul(b, v)) == ONE;
    MulAddRight(a, u, Shift(v, n));
    MulMonomial(n, v);
    MulAssoc(a, {n}, v);
    MulAddLeft(b, Mul(a, {n}), v);
    assert Add(Mul(a, Add(u, Shift(v, n))), Mul(Add(b, Mul(a, {n})), v)) == ONE;
    CoprimeBy(Add(u, Shift(v, n)), v, a, Add(b, Mul(a, {n})));
  }

  /** Only 1 is coprime to zero. */
  lemma CoprimeZero(v: Poly)
    requires Coprime({}, v)
    ensures v == ONE
  {
    var a: Poly, b: Poly :| Add(Mul(a, {}), Mul(b, v)) == ONE;
    MulZero(a);
    assert Mul(b, v) == ONE;
    SizeIs(ONE, 1);
    MulSize(b, v);
    assert Size(v) == 1;
    assert v == ONE;
  }
}
