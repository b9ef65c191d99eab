/** SHA-256 as FIPS 180-4 defines it on bit strings: padding, parsing, compression and the fold. */
module Fips180 {
  import opened Words

  // ----- bits of bytes -----

  /** The bits of a byte in message order, the highest first. */
  function ByteBits8(b: Byte): (r: seq<bool>)
    ensures |r| == 8
  {
    [b.b7, b.b6, b.b5, b.b4, b.b3, b.b2, b.b1, b.b0]
  }

  /** A byte string as a message of section 5. */
  function BitsOf(s: seq<Byte>): (r: seq<bool>)
    ensures |r| == 8 * |s|
  {
    if s == [] then [] else BitsOf(s[..|s| - 1]) + ByteBits8(s[|s| - 1])
  }

  function BitAt(m: seq<bool>, i: nat): bool { i < |m| && m[i] }

  lemma {:induction false} BitsJoin(a: seq<Byte>, b: seq<Byte>)
    ensures BitsOf(a + b) == BitsOf(a) + BitsOf(b)
  {
    hide ByteBits8;
    if b == [] {
      assert a + b == a;
    } else {
      var b' := b[..|b| - 1];
      assert (a + b)[..|a + b| - 1] == a + b';
      BitsJoin(a, b');
    }
  }

  lemma ByteBitAt(b: Byte, k: nat)
    requires k < 8
    ensures ByteBits8(b)[k] == BitOf(b, 7 - k)
  {}

  lemma {:induction false} BitsOfAt(s: seq<Byte>, q: nat, k: nat)
    requires q < |s| && k < 8
    ensures BitsOf(s)[8 * q + k] == BitOf(s[q], 7 - k)
  {
    hide ByteBits8, BitOf;
    if q < |s| - 1 { BitsOfAt(s[..|s| - 1], q, k); } else { ByteBitAt(s[q], k); }
  }

  // ----- section 3.2 and 4.1.2: word operations -----

  function And(a: Word, b: Word): (r: Word)
    ensures forall i :: 0 <= i < 32 ==> r[i] == (a[i] && b[i])
  {
    seq(32, i requires 0 <= i < 32 => a[i] && b[i])
  }

  function Not(a: Word): (r: Word)
    ensures forall i :: 0 <= i < 32 ==> r[i] == !a[i]
  {
    seq(32, i requires 0 <= i < 32 => !a[i])
  }

  /** ROTR: a circular right shift. */
  function Rot(w: Word, n: nat): (r: Word)
    ensures forall i :: 0 <= i < 32 ==> r[i] == w[(i + n) % 32]
  {
    seq(32, i requires 0 <= i < 32 => w[(i + n) % 32])
  }

  function Ch(x: Word, y: Word, z: Word): Word { Xor(And(x, y), And(Not(x), z)) }

  function Maj(x: Word, y: Word, z: Word): Word { Xor(Xor(And(x, y), And(x, z)), And(y, z)) }

  function Sigma(x: Word, i: nat, j: nat, k: nat): Word { Xor(Xor(Rot(x, i), Rot(x, j)), Rot(x, k)) }

  function SmallSigma(x: Word, i: nat, j: nat, k: nat): Word { Xor(Xor(Rot(x, i), Rot(x, j)), Shr(x, k)) }

  function KNumber(t: nat): nat {
    match t
    case 0 => 0x428a_2f98 case 1 => 0x7137_4491 case 2 => 0xb5c0_fbcf case 3 => 0xe9b5_dba5
    case 4 => 0x3956_c25b case 5 => 0x59f1_11f1 case 6 => 0x923f_82a4 case 7 => 0xab1c_5ed5
    case 8 => 0xd807_aa98 case 9 => 0x1283_5b01 case 10 => 0x2431_85be case 11 => 0x550c_7dc3
    case 12 => 0x72be_5d74 case 13 => 0x80de_b1fe case 14 => 0x9bdc_06a7 case 15 => 0xc19b_f174
    case 16 => 0xe49b_69c1 case 17 => 0xefbe_4786 case 18 => 0x0fc1_9dc6 case 19 => 0x240c_a1cc
    case 20 => 0x2de9_2c6f case 21 => 0x4a74_84aa case 22 => 0x5cb0_a9dc case 23 => 0x76f9_88da
    case 24 => 0x983e_5152 case 25 => 0xa831_c66d case 26 => 0xb003_27c8 case 27 => 0xbf59_7fc7
    case 28 => 0xc6e0_0bf3 case 29 => 0xd5a7_9147 case 30 => 0x06ca_6351 case 31 => 0x1429_2967
    case 32 => 0x27b7_0a85 case 33 => 0x2e1b_2138 case 34 => 0x4d2c_6dfc case 35 => 0x5338_0d13
    case 36 => 0x650a_7354 case 37 => 0x766a_0abb case 38 => 0x81c2_c92e case 39 => 0x9272_2c85
    case 40 => 0xa2bf_e8a1 case 41 => 0xa81a_664b case 42 => 0xc24b_8b70 case 43 => 0xc76c_51a3
    case 44 => 0xd192_e819 case 45 => 0xd699_0624 case 46 => 0xf40e_3585 case 47 => 0x106a_a070
    case 48 => 0x19a4_c116 case 49 => 0x1e37_6c08 case 50 => 0x2748_774c case 51 => 0x34b0_bcb5
    case 52 => 0x391c_0cb3 case 53 => 0x4ed8_aa4a case 54 => 0x5b9c_ca4f case 55 => 0x682e_6ff3
    case 56 => 0x748f_82ee case 57 => 0x78a5_636f case 58 => 0x84c8_7814 case 59 => 0x8cc7_0208
    case 60 => 0x90be_fffa case 61 => 0xa450_6ceb case 62 => 0xbef9_a3f7 case _ => 0xc671_78f2
  }

  /** Section 4.2.2: the round constants. */
  function K(t: nat): Word { Bits(KNumber(t), 32) }

  function InitNumber(i: nat): nat {
    match i
    case 0 => 0x6a09_e667 case 1 => 0xbb67_ae85 case 2 => 0x3c6e_f372 case 3 => 0xa54f_f53a case 4
        => 0x510e_527f case 5 => 0x9b05_688c case 6 => 0x1f83_d9ab case _ => 0x5be0_cd19
  }

  function Init(n: nat): (r: seq<Word>)
    ensures |r| == n
  {
    if n == 0 then [] else Init(n - 1) + [Bits(InitNumber(n - 1), 32)]
  }

  /** Section 5.3.3: the initial hash value. */
  function InitialHash(): (r: seq<Word>)
    ensures |r| == 8
  {
    Init(8)
  }

  // ----- section 6.2.2: the hash computation -----

  /** Word t of a block: 32 message bits, the first one on top. */
  function BigWord(m: seq<bool>, off: nat): (w: Word)
    ensures forall i :: 0 <= i < 32 ==> w[i] == BitAt(m, off + 31 - i)
  {
    seq(32, i requires 0 <= i < 32 => BitAt(m, off + 31 - i))
  }

  function WordAt(s: seq<Word>, i: int): Word { if 0 <= i < |s| then s[i] else CLEAR }

  function NextWord(w: seq<Word>): Word {
    var t := |w|;
    Sum(Sum(Sum(SmallSigma(WordAt(w, t - 2), 17, 19, 10), WordAt(w, t - 7)),
        SmallSigma(WordAt(w, t - 15), 7, 18, 3)), WordAt(w, t - 16))
  }

  /** The first n words of the message schedule of a block. */
  function Schedule(m: seq<bool>, n: nat): (w: seq<Word>)
    ensures |w| == n
    decreases n, |m|
  {
    if n == 0 then []
    else
      var w := Schedule(m, n - 1);
      w + [if n <= 16 then BigWord(m, 32 * (n - 1)) else NextWord(w)]
  }

  function T1(a: seq<Word>, t: nat, w: Word): Word {
    Sum(Sum(Sum(Sum(WordAt(a, 7), Sigma(WordAt(a, 4), 6, 11, 25)), Ch(WordAt(a, 4), WordAt(a, 5), WordAt(a, 6))),
        K(t)), w)
  }

  function T2(a: seq<Word>): Word { Sum(Sigma(WordAt(a, 0), 2, 13, 22), Maj(WordAt(a, 0), WordAt(a, 1), WordAt(a, 2))) }

  /** One round on the working variables a to h. */
  function Round(a: seq<Word>, t: nat, w: Word): (r: seq<Word>)
    ensures |r| == 8
  {
    var t1 := T1(a, t, w);
    [Sum(t1, T2(a)), WordAt(a, 0), WordAt(a, 1), WordAt(a, 2), Sum(WordAt(a, 3), t1), WordAt(a, 4), WordAt(a, 5),
        WordAt(a, 6)]
  }

  function Rounds(a: seq<Word>, w: seq<Word>, n: nat): (r: seq<Word>)
    requires |a| == 8
    ensures |r| == 8
    decreases n, |w|
  {
    if n == 0 then a else Round(Rounds(a, w, n - 1), n - 1, WordAt(w, n - 1))
  }

  function SumAll(a: seq<Word>, b: seq<Word>): (r: seq<Word>)
    requires |a| == |b|
    ensures |r| == |a|
  {
    if a == [] then [] else SumAll(a[..|a| - 1], b[..|b| - 1]) + [Sum(a[|a| - 1], b[|b| - 1])]
  }

  lemma {:induction false} SumAllAt(a: seq<Word>, b: seq<Word>, i: nat)
    requires i < |a| == |b|
    ensures SumAll(a, b)[i] == Sum(a[i], b[i])
  {
    hide Sum;
    if i < |a| - 1 { SumAllAt(a[..|a| - 1], b[..|b| - 1], i); }
  }

  /** The next hash value from the last one and a 512-bit block. */
  function Compress(h: seq<Word>, m: seq<bool>): (r: seq<Word>)
    requires |h| == 8
    ensures |r| == 8
  {
    SumAll(h, Rounds(h, Schedule(m, 64), 64))
  }

  /** The fold over the blocks of a message whose length is a multiple of 512. */
  function Fold(h: seq<Word>, m: seq<bool>): (r: seq<Word>)
    requires |h| == 8
    ensures |r| == 8
    decreases |m|
  {
    if |m| < 512 then h else Compress(Fold(h, m[..|m| - 512]), m[|m| - 512..])
  }

  /** A whole number of blocks. */
  predicate Whole(n: nat) { n % 512 == 0 }

  lemma WholeNext(n: nat)
    requires Whole(n)
    ensures Whole(n + 512)
  {}

  lemma {:induction false} FoldJoin(h: seq<Word>, a: seq<bool>, b: seq<bool>)
    requires |h| == 8 && Whole(|a|) && Whole(|b|)
    ensures Fold(h, a + b) == Fold(Fold(h, a), b)
    decreases |b|
  {
    hide Compress;
    if |b| == 0 {
      assert a + b == a;
    } else {
      var b' := b[..|b| - 512];
      assert (a + b)[..|a + b| - 512] == a + b' && (a + b)[|a + b| - 512..] == b[|b| - 512..];
      FoldJoin(h, a, b');
    }
  }

  // ----- section 5.1.1: padding -----

  function Odd(n: nat): bool { n % 2 == 1 }

  function Half(n: nat): nat { n / 2 }

  /** n in len binary digits, the highest first. */
  function BigBits(n: nat, len: nat): (r: seq<bool>)
    ensures |r| == len
    decreases len, n
  {
    if len == 0 then [] else BigBits(Half(n), len - 1) + [Odd(n)]
  }

  /** The least k with l + 1 + k a multiple of 512 plus 448. */
  function ZeroCount(l: nat): (k: nat)
    ensures k < 512 && (l + 1 + k) % 512 == 448 && Whole(l + 1 + k + 64)
  {
    (959 - l % 512) % 512
  }

  function Padded(m: seq<bool>): (r: seq<bool>)
    ensures Whole(|r|)
  {
    m + [true] + Falses(ZeroCount(|m|)) + BigBits(|m|, 64)
  }

  /** The digest of a message, as eight words. */
  function Digest(m: seq<bool>): (r: seq<Word>)
    ensures |r| == 8
  {
    Fold(InitialHash(), Padded(m))
  }

  function Reversed(w: Word): (r: seq<bool>)
    ensures |r| == 32 && forall i :: 0 <= i < 32 ==> r[i] == w[31 - i]
  {
    seq(32, i requires 0 <= i < 32 => w[31 - i])
  }

  /** The digest as a bit string: the words one after the other, the highest bit first. */
  function WordsBits(h: seq<Word>): (r: seq<bool>)
    ensures |r| == 32 * |h|
  {
    if h == [] then [] else WordsBits(h[..|h| - 1]) + Reversed(h[|h| - 1])
  }
}
