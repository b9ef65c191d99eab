/** Where the constants of SHA-256 come from: the first 32 binary places of the cube roots and square roots of
    the first primes, sections 4.2.2 and 5.3.3 of FIPS 180-4. */
module FipsConstants {
  import opened Fips180

  // ----- the first sixty-four primes -----

  function Product(a: nat, b: nat): nat { a * b }

  ghost predicate Prime(n: nat) { n >= 2 && forall a, b :: a >= 2 && b >= 2 ==> Product(a, b) != n }

  predicate Free(n: nat, p: nat)
    requires p > 0
  {
    n == p || n % p != 0
  }

  predicate Sieved(n: nat) {
    Free(n, 2) && Free(n, 3) && Free(n, 5) && Free(n, 7) && Free(n, 11) && Free(n, 13) && Free(n, 17)
  }

  lemma TimesGrows(a: int, b: int, m: nat, n: nat)
    requires a >= m && b >= n
    ensures a * b >= m * n
  {
    assert a * b >= a * n;
    assert a * n >= m * n;
  }

  lemma NoRest(p: nat, k: nat)
    requires p > 0
    ensures (p * k) % p == 0
  {
    var q, r := (p * k) / p, (p * k) % p;
    assert r == p * (k - q);
    if k > q { TimesGrows(k - q, p, 1, p); }
    if k < q { TimesGrows(q - k, p, 1, p); }
  }

  lemma FactorsOut(n: nat, p: nat, a: nat, b: nat)
    requires p >= 2 && a > 0 && b >= 2 && a % p == 0 && n == a * b
    ensures !Free(n, p)
  {
    var c := a / p;
    assert n == p * (c * b) by { assert a == p * c; }
    NoRest(p, c * b);
    TimesGrows(a, b, p, 2);
  }

  lemma SmallFactor(n: nat, a: nat, b: nat)
    requires 2 <= a < 19 && b >= 2 && n == a * b
    ensures !Sieved(n)
  {
    var p := if a % 2 == 0 then 2 else if a % 3 == 0 then 3 else if a % 5 == 0 then 5 else a;
    FactorsOut(n, p, a, b);
  }

  lemma NotFree(n: nat, p: nat)
    requires n >= 2 && p >= 2 && !Free(n, p)
    ensures !Prime(n)
  {
    var k := n / p;
    assert n == p * k;
    assert k == 0 ==> p * k == 0;
    assert Product(p, k) == n;
  }

  /** Below 19 * 19 a number is prime if no smaller prime up to 17 divides it. */
  lemma SieveIsRight(n: nat)
    requires 2 <= n < 361
    ensures Sieved(n) <==> Prime(n)
  {
    if Sieved(n) {
      forall a, b | a >= 2 && b >= 2 ensures Product(a, b) != n {
        if a * b == n {
          if a >= 19 && b >= 19 {
            TimesGrows(a, b, 19, 19);
          } else if a < 19 {
            SmallFactor(n, a, b);
          } else {
            SmallFactor(n, b, a);
          }
        }
      }
    } else {
      var p := if !Free(n, 2) then 2 else if !Free(n, 3) then 3 else if !Free(n, 5) then 5 else if !Free(n, 7) then 7
        else if !Free(n, 11) then 11 else if !Free(n, 13) then 13 else 17;
      NotFree(n, p);
    }
  }

  function PrimeAt(t: nat): nat {
    match t
    case 0 => 2 case 1 => 3 case 2 => 5 case 3 => 7
    case 4 => 11 case 5 => 13 case 6 => 17 case 7 => 19
    case 8 => 23 case 9 => 29 case 10 => 31 case 11 => 37
    case 12 => 41 case 13 => 43 case 14 => 47 case 15 => 53
    case 16 => 59 case 17 => 61 case 18 => 67 case 19 => 71
    case 20 => 73 case 21 => 79 case 22 => 83 case 23 => 89
    case 24 => 97 case 25 => 101 case 26 => 103 case 27 => 107
    case 28 => 109 case 29 => 113 case 30 => 127 case 31 => 131
    case 32 => 137 case 33 => 139 case 34 => 149 case 35 => 151
    case 36 => 157 case 37 => 163 case 38 => 167 case 39 => 173
    case 40 => 179 case 41 => 181 case 42 => 191 case 43 => 193
    case 44 => 197 case 45 => 199 case 46 => 211 case 47 => 223
    case 48 => 227 case 49 => 229 case 50 => 233 case 51 => 239
    case 52 => 241 case 53 => 251 case 54 => 257 case 55 => 263
    case 56 => 269 case 57 => 271 case 58 => 277 case 59 => 281
    case 60 => 283 case 61 => 293 case 62 => 307 case _ => 311
  }

  predicate Skipped(n: nat, q: nat) { n >= q || !Sieved(n) }

  /** q is the next sieved number after p; no two of them are further apart here. */
  predicate Follows(p: nat, q: nat) {
    p < q <= p + 14 && Sieved(q) && Skipped(p + 1, q) && Skipped(p + 2, q) && Skipped(p + 3, q) && Skipped(p + 4, q)
    && Skipped(p + 5, q) && Skipped(p + 6, q) && Skipped(p + 7, q) && Skipped(p + 8, q) && Skipped(p + 9, q)
    && Skipped(p + 10, q) && Skipped(p + 11, q) && Skipped(p + 12, q) && Skipped(p + 13, q)
  }

  lemma NothingBetween(p: nat, q: nat, m: nat)
    requires Follows(p, q) && p < m < q
    ensures !Sieved(m)
  {
    hide Sieved;
    assert Skipped(m, q);
  }

  lemma Following0()
    ensures Follows(2, 3) && Follows(3, 5) && Follows(5, 7)
  {}

  lemma Following1()
    ensures Follows(7, 11) && Follows(11, 13) && Follows(13, 17) && Follows(17, 19)
  {}

  lemma Following2()
    ensures Follows(19, 23) && Follows(23, 29) && Follows(29, 31) && Follows(31, 37)
  {}

  lemma Following3()
    ensures Follows(37, 41) && Follows(41, 43) && Follows(43, 47) && Follows(47, 53)
  {}

  lemma Following4()
    ensures Follows(53, 59) && Follows(59, 61) && Follows(61, 67) && Follows(67, 71)
  {}

  lemma Following5()
    ensures Follows(71, 73) && Follows(73, 79) && Follows(79, 83) && Follows(83, 89)
  {}

  lemma Following6()
    ensures Follows(89, 97) && Follows(97, 101) && Follows(101, 103) && Follows(103, 107)
  {}

  lemma Following7()
    ensures Follows(107, 109) && Follows(109, 113) && Follows(113, 127) && Follows(127, 131)
  {}

  lemma Following8()
    ensures Follows(131, 137) && Follows(137, 139) && Follows(139, 149) && Follows(149, 151)
  {}

  lemma Following9()
    ensures Follows(151, 157) && Follows(157, 163) && Follows(163, 167) && Follows(167, 173)
  {}

  lemma Following10()
    ensures Follows(173, 179) && Follows(179, 181) && Follows(181, 191) && Follows(191, 193)
  {}

  lemma Following11()
    ensures Follows(193, 197) && Follows(197, 199) && Follows(199, 211) && Follows(211, 223)
  {}

  lemma Following12()
    ensures Follows(223, 227) && Follows(227, 229) && Follows(229, 233) && Follows(233, 239)
  {}

  lemma Following13()
    ensures Follows(239, 241) && Follows(241, 251) && Follows(251, 257) && Follows(257, 263)
  {}

  lemma Following14()
    ensures Follows(263, 269) && Follows(269, 271) && Follows(271, 277) && Follows(277, 281)
  {}

  lemma Following15()
    ensures Follows(281, 283) && Follows(283, 293) && Follows(293, 307) && Follows(307, 311)
  {}

  lemma AllFollow(t: nat)
    requires 0 < t < 64
    ensures Follows(PrimeAt(t - 1), PrimeAt(t))
  {
    hide Follows;
    Following0();
    Following1();
    Following2();
    Following3();
    Following4();
    Following5();
    Following6();
    Following7();
    Following8();
    Following9();
    Following10();
    Following11();
    Following12();
    Following13();
    Following14();
    Following15();
  }

  /** The list starts at the least prime and goes on to the next prime at every step. */
  lemma FirstPrimes(t: nat)
    requires t < 64
    ensures Prime(PrimeAt(t)) && (t == 0 ==> PrimeAt(t) == 2)
    ensures t > 0 ==> PrimeAt(t - 1) < PrimeAt(t) && forall m :: PrimeAt(t - 1) < m < PrimeAt(t) ==> !Prime(m)
  {
    hide PrimeAt, Prime, Sieved;
    if t == 0 {
      FirstIsTwo();
    } else {
      AllFollow(t);
      PrimeBounds(t);
      SieveIsRight(PrimeAt(t));
      PrimeBounds(t - 1);
      forall m | PrimeAt(t - 1) < m < PrimeAt(t) ensures !Prime(m) {
        NothingBetween(PrimeAt(t - 1), PrimeAt(t), m);
        SieveIsRight(m);
      }
    }
  }

  lemma PrimeBounds(t: nat)
    ensures 2 <= PrimeAt(t) <= 311
  {}

  lemma FirstIsTwo()
    ensures PrimeAt(0) == 2 && Prime(2)
  {
    SieveIsRight(2);
  }

  // ----- the roots -----

  const TWO_32: nat := 0x1_0000_0000

  function Cube(n: nat): nat { n * n * n }

  function Square(n: nat): nat { n * n }

  /** c + f / 2^32 is the cube root of p, cut after 32 binary places. */
  predicate CubeRoot(p: nat, c: nat, f: nat) {
    f < TWO_32 && Cube(c * TWO_32 + f) <= p * Cube(TWO_32) < Cube(c * TWO_32 + f + 1)
  }

  predicate SquareRoot(p: nat, c: nat, f: nat) {
    f < TWO_32 && Square(c * TWO_32 + f) <= p * Square(TWO_32) < Square(c * TWO_32 + f + 1)
  }

  lemma Roots0()
    ensures CubeRoot(PrimeAt(0), 1, KNumber(0)) && CubeRoot(PrimeAt(1), 1, KNumber(1))
    ensures CubeRoot(PrimeAt(2), 1, KNumber(2)) && CubeRoot(PrimeAt(3), 1, KNumber(3))
    ensures CubeRoot(PrimeAt(4), 2, KNumber(4)) && CubeRoot(PrimeAt(5), 2, KNumber(5))
    ensures CubeRoot(PrimeAt(6), 2, KNumber(6)) && CubeRoot(PrimeAt(7), 2, KNumber(7))
  {}

  lemma Roots1()
    ensures CubeRoot(PrimeAt(8), 2, KNumber(8)) && CubeRoot(PrimeAt(9), 3, KNumber(9))
    ensures CubeRoot(PrimeAt(10), 3, KNumber(10)) && CubeRoot(PrimeAt(11), 3, KNumber(11))
    ensures CubeRoot(PrimeAt(12), 3, KNumber(12)) && CubeRoot(PrimeAt(13), 3, KNumber(13))
    ensures CubeRoot(PrimeAt(14), 3, KNumber(14)) && CubeRoot(PrimeAt(15), 3, KNumber(15))
  {}

  lemma Roots2()
    ensures CubeRoot(PrimeAt(16), 3, KNumber(16)) && CubeRoot(PrimeAt(17), 3, KNumber(17))
    ensures CubeRoot(PrimeAt(18), 4, KNumber(18)) && CubeRoot(PrimeAt(19), 4, KNumber(19))
    ensures CubeRoot(PrimeAt(20), 4, KNumber(20)) && CubeRoot(PrimeAt(21), 4, KNumber(21))
    ensures CubeRoot(PrimeAt(22), 4, KNumber(22)) && CubeRoot(PrimeAt(23), 4, KNumber(23))
  {}

  lemma Roots3()
    ensures CubeRoot(PrimeAt(24), 4, KNumber(24)) && CubeRoot(PrimeAt(25), 4, KNumber(25))
    ensures CubeRoot(PrimeAt(26), 4, KNumber(26)) && CubeRoot(PrimeAt(27), 4, KNumber(27))
    ensures CubeRoot(PrimeAt(28), 4, KNumber(28)) && CubeRoot(PrimeAt(29), 4, KNumber(29))
    ensures CubeRoot(PrimeAt(30), 5, KNumber(30)) && CubeRoot(PrimeAt(31), 5, KNumber(31))
  {}

  lemma Roots4()
    ensures CubeRoot(PrimeAt(32), 5, KNumber(32)) && CubeRoot(PrimeAt(33), 5, KNumber(33))
    ensures CubeRoot(PrimeAt(34), 5, KNumber(34)) && CubeRoot(PrimeAt(35), 5, KNumber(35))
  {}

  lemma Roots5()
    ensures CubeRoot(PrimeAt(36), 5, KNumber(36)) && CubeRoot(PrimeAt(37), 5, KNumber(37))
    ensures CubeRoot(PrimeAt(38), 5, KNumber(38)) && CubeRoot(PrimeAt(39), 5, KNumber(39))
  {}

  lemma Roots6()
    ensures CubeRoot(PrimeAt(40), 5, KNumber(40)) && CubeRoot(PrimeAt(41), 5, KNumber(41))
    ensures CubeRoot(PrimeAt(42), 5, KNumber(42)) && CubeRoot(PrimeAt(43), 5, KNumber(43))
  {}

  lemma Roots7()
    ensures CubeRoot(PrimeAt(44), 5, KNumber(44)) && CubeRoot(PrimeAt(45), 5, KNumber(45))
    ensures CubeRoot(PrimeAt(46), 5, KNumber(46)) && CubeRoot(PrimeAt(47), 6, KNumber(47))
  {}

  lemma Roots8()
    ensures CubeRoot(PrimeAt(48), 6, KNumber(48)) && CubeRoot(PrimeAt(49), 6, KNumber(49))
    ensures CubeRoot(PrimeAt(50), 6, KNumber(50)) && CubeRoot(PrimeAt(51), 6, KNumber(51))
  {}

  lemma Roots9()
    ensures CubeRoot(PrimeAt(52), 6, KNumber(52)) && CubeRoot(PrimeAt(53), 6, KNumber(53))
    ensures CubeRoot(PrimeAt(54), 6, KNumber(54)) && CubeRoot(PrimeAt(55), 6, KNumber(55))
  {}

  lemma Roots10()
    ensures CubeRoot(PrimeAt(56), 6, KNumber(56)) && CubeRoot(PrimeAt(57), 6, KNumber(57))
    ensures CubeRoot(PrimeAt(58), 6, KNumber(58)) && CubeRoot(PrimeAt(59), 6, KNumber(59))
  {}

  lemma Roots11()
    ensures CubeRoot(PrimeAt(60), 6, KNumber(60)) && CubeRoot(PrimeAt(61), 6, KNumber(61))
    ensures CubeRoot(PrimeAt(62), 6, KNumber(62)) && CubeRoot(PrimeAt(63), 6, KNumber(63))
  {}

  /** Round constant t is the fractional part of the cube root of prime t. */
  lemma KIsStandard(t: nat)
    requires t < 64
    ensures exists c :: CubeRoot(PrimeAt(t), c, KNumber(t))
  {
    hide CubeRoot, PrimeAt, KNumber;
    Roots0();
    Roots1();
    Roots2();
    Roots3();
    Roots4();
    Roots5();
    Roots6();
    Roots7();
    Roots8();
    Roots9();
    Roots10();
    Roots11();
  }

  /** Word i of the initial hash value is the fractional part of the square root of prime i. */
  lemma InitialHashIsStandard(i: nat)
    requires i < 8
    ensures exists c :: SquareRoot(PrimeAt(i), c, InitNumber(i))
  {
    assert SquareRoot(PrimeAt(0), 1, InitNumber(0));
    assert SquareRoot(PrimeAt(1), 1, InitNumber(1));
    assert SquareRoot(PrimeAt(2), 2, InitNumber(2));
    assert SquareRoot(PrimeAt(3), 2, InitNumber(3));
    assert SquareRoot(PrimeAt(4), 3, InitNumber(4));
    assert SquareRoot(PrimeAt(5), 3, InitNumber(5));
    assert SquareRoot(PrimeAt(6), 4, InitNumber(6));
    assert SquareRoot(PrimeAt(7), 4, InitNumber(7));
  }
}
