/** 32-bit words and bytes as bit strings, with the operations C has on them. */
module Words {
  function Falses(n: nat): (r: seq<bool>)
    ensures |r| == n && forall i :: 0 <= i < n ==> !r[i]
  {
    if n == 0 then [] else Falses(n - 1) + [false]
  }

  /** A uint32_t, least significant bit first. */
  type Word = w: seq<bool> | |w| == 32 witness Falses(32)

  const CLEAR: Word := Falses(32)

  function Xor(a: Word, b: Word): (r: Word)
    ensures forall i :: 0 <= i < 32 ==> r[i] == (a[i] != b[i])
  {
    seq(32, i requires 0 <= i < 32 => a[i] != b[i])
  }

  function Or(a: Word, b: Word): (r: Word)
    ensures forall i :: 0 <= i < 32 ==> r[i] == (a[i] || b[i])
  {
    seq(32, i requires 0 <= i < 32 => a[i] || b[i])
  }

  /** w << n. */
  function Shl(w: Word, n: nat): (r: Word)
    ensures forall i :: 0 <= i < 32 ==> r[i] == (i >= n && w[i - n])
  {
    seq(32, i requires 0 <= i < 32 => i >= n && w[i - n])
  }

  /** w >> n. */
  function Shr(w: Word, n: nat): (r: Word)
    ensures forall i :: 0 <= i < 32 ==> r[i] == (i + n < 32 && w[i + n])
  {
    seq(32, i requires 0 <= i < 32 => i + n < 32 && w[i + n])
  }

  // ----- integers -----

  function Nat(bits: seq<bool>): nat { if bits == [] then 0 else (if bits[0] then 1 else 0) + 2 * Nat(bits[1..]) }

  function Bits(n: nat, len: nat): (r: seq<bool>)
    ensures |r| == len
  {
    if len == 0 then [] else [n % 2 == 1] + Bits(n / 2, len - 1)
  }

  /** Addition of uint32_t values. */
  function Sum(a: Word, b: Word): Word { Bits(Nat(a) + Nat(b), 32) }

  function Pow2(n: nat): (p: nat)
    ensures p >= 1
  {
    if n == 0 then 1 else 2 * Pow2(n - 1)
  }

  lemma {:induction false} NatBelow(w: seq<bool>)
    ensures Nat(w) < Pow2(|w|)
  {
    if w != [] {
      NatBelow(w[1..]);
    }
  }

  /** The bits of a number are its value modulo a power of two. */
  lemma {:induction false} NatOfBits(n: nat, len: nat)
    ensures Nat(Bits(n, len)) == n % Pow2(len)
  {
    if len != 0 {
      NatOfBits(n / 2, len - 1);
      assert Bits(n, len)[1..] == Bits(n / 2, len - 1);
      HalfMod(n, Pow2(len - 1));
    }
  }

  lemma HalfMod(n: nat, p: nat)
    requires p >= 1
    ensures n % (2 * p) == n % 2 + 2 * (n / 2 % p)
  {
    var q, r := n / 2 / p, n / 2 % p;
    assert n / 2 == q * p + r;
    assert n == 2 * (q * p + r) + n % 2;
    assert 2 * (q * p) == q * (2 * p);
    ModIs(n, 2 * p, q, n % 2 + 2 * r);
  }

  lemma ModIs(n: nat, m: nat, q: nat, r: nat)
    requires m >= 1 && n == q * m + r && r < m
    ensures n % m == r
  {
    var d := n / m;
    assert n == d * m + n % m;
    assert (q - d) * m == q * m - d * m && (d - q) * m == d * m - q * m;
    if d < q { Multiple(q - d, m); } else if q < d { Multiple(d - q, m); }
  }

  lemma Multiple(k: nat, m: nat)
    requires k >= 1
    ensures k * m >= m
  {}

  /** Words of equal value are equal. */
  lemma {:induction false} NatInjective(a: seq<bool>, b: seq<bool>)
    requires |a| == |b| && Nat(a) == Nat(b)
    ensures a == b
  {
    if a != [] {
      NatInjective(a[1..], b[1..]);
      assert a == [a[0]] + a[1..] && b == [b[0]] + b[1..];
    }
  }

  /** Adding the same word to different ones gives different ones. */
  lemma SumInjective(a: Word, b: Word, m: Word)
    requires Sum(a, m) == Sum(b, m)
    ensures a == b
  {
    hide Bits, Pow2, Nat;
    NatOfBits(Nat(a) + Nat(m), 32);
    NatOfBits(Nat(b) + Nat(m), 32);
    NatBelow(a);
    NatBelow(b);
    SameShift(Nat(a), Nat(b), Nat(m), Pow2(32));
    NatInjective(a, b);
  }

  lemma SameShift(a: nat, b: nat, m: nat, p: nat)
    requires a < p && b < p && (a + m) % p == (b + m) % p
    ensures a == b
  {
    var q, r := (a + m) / p, (b + m) / p;
    assert a + m == q * p + (a + m) % p && b + m == r * p + (b + m) % p;
    assert (q - r) * p == q * p - r * p && (r - q) * p == r * p - q * p;
    if q > r { Multiple(q - r, p); } else if q < r { Multiple(r - q, p); }
  }

  /** Numbers below 2^32 have different words. */
  lemma BitsInjective(a: nat, b: nat)
    requires a < 0x1_0000_0000 && b < 0x1_0000_0000 && Bits(a, 32) == Bits(b, 32)
    ensures a == b
  {
    hide Bits, Pow2, Nat;
    NatOfBits(a, 32);
    NatOfBits(b, 32);
    Pow32();
  }

  lemma Pow32()
    ensures Pow2(32) == 0x1_0000_0000
  {
    assert Pow2(8) == 0x100 && Pow2(16) == 0x1_0000 && Pow2(24) == 0x100_0000;
  }

  // ----- bytes -----

  /** A char, lowest bit first. */
  datatype Byte = Byte(b0: bool, b1: bool, b2: bool, b3: bool, b4: bool, b5: bool, b6: bool, b7: bool)

  const NUL := Byte(false, false, false, false, false, false, false, false)

  /** Bit i of a byte. */
  function BitOf(b: Byte, i: nat): bool {
    match i
    case 0 => b.b0
    case 1 => b.b1
    case 2 => b.b2
    case 3 => b.b3
    case 4 => b.b4
    case 5 => b.b5
    case 6 => b.b6
    case _ => b.b7
  }

  function CharBit(c: seq<Byte>, i: nat): bool { i / 8 < |c| && BitOf(c[i / 8], i % 8) }

  /** CHARS2INT, on a little-endian host. */
  function CharsToInt(c: seq<Byte>): (w: Word)
    ensures forall i :: 0 <= i < 32 ==> w[i] == CharBit(c, i)
  {
    seq(32, i requires 0 <= i < 32 => CharBit(c, i))
  }

  /** Eight bits of a word. */
  function ByteOf(w: Word, i: nat): Byte
    requires i <= 24
  {
    Byte(w[i], w[i + 1], w[i + 2], w[i + 3], w[i + 4], w[i + 5], w[i + 6], w[i + 7])
  }

  /** INT2CHARS. */
  function IntToChars(w: Word): (c: seq<Byte>)
    ensures |c| == 4
  {
    [ByteOf(w, 0), ByteOf(w, 8), ByteOf(w, 16), ByteOf(w, 24)]
  }

  lemma CharsRoundTrip(w: Word)
    ensures CharsToInt(IntToChars(w)) == w
  {
    var v := CharsToInt(IntToChars(w));
    forall i | 0 <= i < 32 ensures v[i] == w[i] {
      var j, k := i / 8, i % 8;
      assert IntToChars(w)[j] == ByteOf(w, 8 * j);
      ByteBits(w, 8 * j, k);
    }
  }

  lemma ByteBits(w: Word, i: nat, k: nat)
    requires i <= 24 && k < 8
    ensures BitOf(ByteOf(w, i), k) == w[i + k]
  {}

  /** Four bytes are told apart by their word. */
  lemma CharsInjective(c: seq<Byte>, d: seq<Byte>)
    requires |c| == |d| == 4 && CharsToInt(c) == CharsToInt(d)
    ensures c == d
  {
    var v, w := CharsToInt(c), CharsToInt(d);
    forall j | 0 <= j < 4 ensures c[j] == d[j] {
      forall i | 0 <= i < 8 ensures BitOf(c[j], i) == BitOf(d[j], i) {
        assert v[8 * j + i] == CharBit(c, 8 * j + i) && w[8 * j + i] == CharBit(d, 8 * j + i);
      }
      SameByte(c[j], d[j]);
    }
  }

  lemma SameByte(a: Byte, b: Byte)
    requires forall i :: 0 <= i < 8 ==> BitOf(a, i) == BitOf(b, i)
    ensures a == b
  {
    assert BitOf(a, 0) == BitOf(b, 0) && BitOf(a, 1) == BitOf(b, 1) && BitOf(a, 2) == BitOf(b, 2);
    assert BitOf(a, 3) == BitOf(b, 3) && BitOf(a, 4) == BitOf(b, 4) && BitOf(a, 5) == BitOf(b, 5);
    assert BitOf(a, 6) == BitOf(b, 6) && BitOf(a, 7) == BitOf(b, 7);
  }

  function XorByte(a: Byte, b: Byte): Byte {
    Byte(a.b0 != b.b0, a.b1 != b.b1, a.b2 != b.b2, a.b3 != b.b3, a.b4 != b.b4, a.b5 != b.b5, a.b6 != b.b6, a.b7 != b.b7)
  }

  lemma XorInjective(a: Byte, b: Byte, c: Byte)
    ensures XorByte(a, c) == XorByte(b, c) ==> a == b
    ensures XorByte(c, a) == XorByte(c, b) ==> a == b
  {}

  lemma XorTwice(a: Byte, b: Byte)
    ensures XorByte(XorByte(a, b), b) == a
  {}
}
