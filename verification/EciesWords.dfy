/** Vectors of words, and the polynomials they stand for. */
module EciesWords {
  import opened Gf2Poly
  import opened Words

  /** A bitstr_t. */
  const WORDS := 6
  const BITS := 192

  // ----- bit vectors as polynomials -----

  /** bitstr_getbit. */
  predicate GetBit(s: seq<Word>, k: nat) { k < 32 * |s| && s[k / 32][k % 32] }

  function PolyOf(s: seq<Word>): Poly { set k: nat | k < 32 * |s| && GetBit(s, k) }

  lemma GetBitAt(s: seq<Word>, j: nat, i: nat)
    requires j < |s| && i < 32
    ensures GetBit(s, 32 * j + i) == s[j][i]
  {}

  lemma InPoly(s: seq<Word>, k: nat)
    ensures k in PolyOf(s) <==> GetBit(s, k)
  {}

  /** Different bit vectors are different polynomials. */
  lemma PolyInjective(s: seq<Word>, t: seq<Word>)
    requires |s| == |t| && PolyOf(s) == PolyOf(t)
    ensures s == t
  {
    hide PolyOf, GetBit;
    forall j | 0 <= j < |s| ensures s[j] == t[j] {
      forall i | 0 <= i < 32 ensures s[j][i] == t[j][i] {
        GetBitAt(s, j, i);
        GetBitAt(t, j, i);
        InPoly(s, 32 * j + i);
        InPoly(t, 32 * j + i);
      }
    }
  }

  lemma XorBits(x: seq<Word>, y: seq<Word>, z: seq<Word>, k: nat)
    requires |x| == |y| == |z| && forall j :: 0 <= j < |x| ==> z[j] == Xor(x[j], y[j])
    ensures GetBit(z, k) == (GetBit(x, k) != GetBit(y, k))
  {
    if k < 32 * |z| {
      var j := k / 32;
      assert z[j] == Xor(x[j], y[j]);
    }
  }

  lemma XorIsAdd(x: seq<Word>, y: seq<Word>, z: seq<Word>)
    requires |x| == |y| == |z| && forall j :: 0 <= j < |x| ==> z[j] == Xor(x[j], y[j])
    ensures PolyOf(z) == Add(PolyOf(x), PolyOf(y))
  {
    hide PolyOf, GetBit;
    forall k: nat ensures k in PolyOf(z) <==> k in Add(PolyOf(x), PolyOf(y)) {
      InPoly(x, k);
      InPoly(y, k);
      InPoly(z, k);
      XorBits(x, y, z, k);
    }
  }

  /** The polynomial without the terms a vector of n bits has no room for. */
  function Cut(p: Poly, n: nat): Poly { set k | k in p && k < n }

  lemma CutNothing(p: Poly, n: nat)
    requires Below(p, n)
    ensures Cut(p, n) == p
  {}

  lemma InShift(p: Poly, n: nat, k: nat)
    ensures k in Shift(p, n) <==> n <= k && k - n in p
  {}

  lemma NoBit(s: seq<Word>, k: nat)
    requires k >= 32 * |s|
    ensures !GetBit(s, k)
  {}

  /** t is s shifted left by n bits, with the carries between words. */
  ghost predicate ShiftedBits(s: seq<Word>, t: seq<Word>, n: nat) {
    && n <= 32 && |s| == |t| && (|s| > 0 ==> t[0] == Shl(s[0], n))
    && forall j :: 1 <= j < |s| ==> t[j] == Or(Shl(s[j], n), Shr(s[j - 1], 32 - n))
  }

  lemma CarryBit(a: Word, b: Word, n: nat, i: nat)
    requires 1 <= n < 32 && i < 32
    ensures Or(Shl(a, n), Shr(b, 32 - n))[i] == if i >= n then a[i - n] else b[i + 32 - n]
    ensures Shl(a, n)[i] == (i >= n && a[i - n])
  {}

  lemma ShiftedWordBit(s: seq<Word>, t: seq<Word>, n: nat, j: nat, i: nat)
    requires 1 <= n < 32 && ShiftedBits(s, t, n) && j < |s| && i < 32
    ensures |t| == |s| && t[j][i] == if i >= n then s[j][i - n] else j > 0 && s[j - 1][i + 32 - n]
  {
    hide Shl, Shr, Or;
    if j == 0 {
      CarryBit(s[0], CLEAR, n, i);
    } else {
      CarryBit(s[j], s[j - 1], n, i);
      assert t[j] == Or(Shl(s[j], n), Shr(s[j - 1], 32 - n));
    }
  }

  lemma ShiftedBit(s: seq<Word>, t: seq<Word>, n: nat, k: nat)
    requires 1 <= n < 32 && ShiftedBits(s, t, n)
    ensures GetBit(t, k) <==> n <= k < 32 * |s| && GetBit(s, k - n)
  {
    hide GetBit, ShiftedBits;
    ShiftedLength(s, t, n);
    if k < 32 * |t| {
      var j, i := k / 32, k % 32;
      GetBitAt(t, j, i);
      ShiftedWordBit(s, t, n, j, i);
      if i >= n {
        GetBitAt(s, j, i - n);
      } else if j > 0 {
        GetBitAt(s, j - 1, i + 32 - n);
      }
    } else {
      NoBit(t, k);
    }
  }

  lemma ShiftedIsShift(s: seq<Word>, t: seq<Word>, n: nat)
    requires 1 <= n < 32 && ShiftedBits(s, t, n)
    ensures PolyOf(t) == Cut(Shift(PolyOf(s), n), 32 * |s|)
  {
    hide PolyOf, GetBit, Shift, ShiftedBits;
    assert |s| == |t| by { ShiftedLength(s, t, n); }
    forall k: nat ensures k in PolyOf(t) <==> k in Cut(Shift(PolyOf(s), n), 32 * |s|) {
      InPoly(t, k);
      InShift(PolyOf(s), n, k);
      if n <= k { InPoly(s, k - n); }
      ShiftedBit(s, t, n, k);
    }
  }

  lemma ShiftedLength(s: seq<Word>, t: seq<Word>, n: nat)
    requires ShiftedBits(s, t, n)
    ensures |s| == |t|
  {}

  lemma MovedBit(s: seq<Word>, t: seq<Word>, m: nat, k: nat)
    requires |s| == |t| && forall j :: 0 <= j < |s| ==> t[j] == if j >= m then s[j - m] else CLEAR
    ensures GetBit(t, k) <==> 32 * m <= k < 32 * |s| && GetBit(s, k - 32 * m)
  {
    hide GetBit;
    if k < 32 * |t| {
      var j, i := k / 32, k % 32;
      assert k == 32 * j + i;
      GetBitAt(t, j, i);
      if j >= m {
        GetBitAt(s, j - m, i);
      }
    } else {
      NoBit(t, k);
    }
  }

  /** t is s moved up by whole words. */
  lemma MovedIsShift(s: seq<Word>, t: seq<Word>, m: nat)
    requires |s| == |t| && forall j :: 0 <= j < |s| ==> t[j] == if j >= m then s[j - m] else CLEAR
    ensures PolyOf(t) == Cut(Shift(PolyOf(s), 32 * m), 32 * |s|)
  {
    hide PolyOf, GetBit, Shift;
    forall k: nat ensures k in PolyOf(t) <==> k in Cut(Shift(PolyOf(s), 32 * m), 32 * |s|) {
      InPoly(t, k);
      InShift(PolyOf(s), 32 * m, k);
      if 32 * m <= k { InPoly(s, k - 32 * m); }
      MovedBit(s, t, m, k);
    }
  }

  /** Shifting twice with cuts is shifting once. */
  lemma CutTwice(p: Poly, m: nat, n: nat, b: nat)
    ensures Cut(Shift(Cut(Shift(p, m), b), n), b) == Cut(Shift(p, m + n), b)
  {
    var l, r := Cut(Shift(Cut(Shift(p, m), b), n), b), Cut(Shift(p, m + n), b);
    forall k | k in r ensures k in l {
      assert k - (m + n) in p;
      assert k - n in Cut(Shift(p, m), b);
    }
  }
}
