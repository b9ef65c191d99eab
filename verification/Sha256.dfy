/** The streaming hash: word tricks, the block loops in place, the last block, and the whole function. */
module Sha256 {
  import opened Words
  import opened Fips180

  // ----- the word macros -----

  /** rotr32, by shifts. */
  function Rotr32(x: Word, n: nat): Word
    requires n <= 32
  {
    Or(Shr(x, n), Shl(x, 32 - n))
  }

  lemma RotrRotates(x: Word, n: nat)
    requires n <= 32
    ensures Rotr32(x, n) == Rot(x, n)
  {
    forall i | 0 <= i < 32 ensures Rotr32(x, n)[i] == Rot(x, n)[i] {
      if i + n < 32 { assert (i + n) % 32 == i + n; } else if i + n < 64 { assert (i + n) % 32 == i + n - 32; }
    }
  }

  /** Eight one bits from position lo on: the masks 0x0000ff00 and 0x00ff0000. */
  function Mask(lo: nat): (r: Word)
    ensures forall i :: 0 <= i < 32 ==> r[i] == (lo <= i < lo + 8)
  {
    seq(32, i requires 0 <= i < 32 => lo <= i < lo + 8)
  }

  /** change_endian32. */
  function ChangeEndian(x: Word): Word {
    Or(Or(Or(Shl(x, 24), Shr(x, 24)), Shl(And(x, Mask(8)), 8)), Shr(And(x, Mask(16)), 8))
  }

  lemma ChangeEndianBit(x: Word, j: nat, k: nat)
    requires j < 4 && k < 8
    ensures ChangeEndian(x)[8 * j + k] == x[8 * (3 - j) + k]
  {
    match j
    case 0 =>
    case 1 =>
    case 2 =>
    case _ =>
  }

  lemma CharsBitAt(c: seq<Byte>, j: nat, k: nat)
    requires |c| == 4 && j < 4 && k < 8
    ensures CharsToInt(c)[8 * j + k] == BitOf(c[j], k)
  {
    hide BitOf;
    assert (8 * j + k) / 8 == j && (8 * j + k) % 8 == k;
    assert CharsToInt(c)[8 * j + k] == CharBit(c, 8 * j + k);
  }

  lemma LoadedBit(c: seq<Byte>, s: seq<Byte>, i: nat, j: nat, k: nat)
    requires |c| == 4 && j < 4 && k < 8 && 4 * i + 3 - j < |s| && c[3 - j] == s[4 * i + 3 - j]
    ensures CharsToInt(c)[8 * (3 - j) + k] == BigWord(BitsOf(s), 32 * i)[8 * j + k]
  {
    hide BitOf, BitsOf, CharsToInt, BigWord, CharBit, BitAt;
    CharsBitAt(c, 3 - j, k);
    BitsOfAt(s, 4 * i + 3 - j, 7 - k);
    BitPosition(BitsOf(s), 32 * i, 8 * j + k, 8 * (4 * i + 3 - j) + (7 - k));
  }

  lemma BitPosition(m: seq<bool>, off: nat, p: nat, q: nat)
    requires p < 32 && q == off + 31 - p && q < |m|
    ensures BigWord(m, off)[p] == m[q]
  {}

  lemma LoadedBitAt(c: seq<Byte>, s: seq<Byte>, i: nat, p: nat, j: nat, k: nat)
    requires p == 8 * j + k && |c| == 4 && j < 4 && k < 8 && 4 * i + 4 <= |s| && c[3 - j] == s[4 * i + 3 - j]
    ensures ChangeEndian(CharsToInt(c))[p] == BigWord(BitsOf(s), 32 * i)[p]
  {
    hide CharsToInt, BigWord, ChangeEndian, BitsOf, CharBit, BitAt;
    ChangeEndianBit(CharsToInt(c), j, k);
    LoadedBit(c, s, i, j, k);
  }

  lemma ByteIndex(p: nat) returns (j: nat, k: nat)
    requires p < 32
    ensures p == 8 * j + k && j < 4 && k < 8
  {
    j, k := p / 8, p % 8;
  }

  /** A word loaded from memory and swapped is the word the message bits spell. */
  lemma LoadedWord(s: seq<Byte>, i: nat)
    requires 4 * i + 4 <= |s|
    ensures ChangeEndian(CharsToInt(s[4 * i..4 * i + 4])) == BigWord(BitsOf(s), 32 * i)
  {
    hide CharsToInt, BigWord, ChangeEndian, BitsOf, CharBit, BitAt;
    var c := s[4 * i..4 * i + 4];
    var x, y := ChangeEndian(CharsToInt(c)), BigWord(BitsOf(s), 32 * i);
    forall p | 0 <= p < 32 ensures x[p] == y[p] {
      var j, k := ByteIndex(p);
      LoadedBitAt(c, s, i, p, j, k);
    }
  }

  lemma StoredWord(w: Word)
    ensures BitsOf(IntToChars(ChangeEndian(w))) == Reversed(w)
  {
    hide BitOf, ChangeEndian, ByteOf;
    var x := ChangeEndian(w);
    var c := IntToChars(x);
    forall p | 0 <= p < 32 ensures BitsOf(c)[p] == Reversed(w)[p] {
      var j, k := p / 8, p % 8;
      BitsOfAt(c, j, k);
      assert c[j] == ByteOf(x, 8 * j);
      ByteBits(x, 8 * j, 7 - k);
      ChangeEndianBit(w, j, 7 - k);
    }
  }

  /** The four sigma macros. */
  function SigmaOf(x: Word, i: nat, j: nat, k: nat): Word
    requires i <= 32 && j <= 32 && k <= 32
  {
    Xor(Xor(Rotr32(x, i), Rotr32(x, j)), Rotr32(x, k))
  }

  function SmallSigmaOf(x: Word, i: nat, j: nat, k: nat): Word
    requires i <= 32 && j <= 32
  {
    Xor(Xor(Rotr32(x, i), Rotr32(x, j)), Shr(x, k))
  }

  lemma SigmasAgree(x: Word, i: nat, j: nat, k: nat)
    requires i <= 32 && j <= 32 && k <= 32
    ensures SigmaOf(x, i, j, k) == Sigma(x, i, j, k) && SmallSigmaOf(x, i, j, k) == SmallSigma(x, i, j, k)
  {
    hide Rotr32, Rot, Xor, Shr;
    RotrRotates(x, i);
    RotrRotates(x, j);
    RotrRotates(x, k);
  }

  // ----- lengths -----

  const TWO_TO_64: nat := 0x1_0000_0000_0000_0000

  /** An uint64_t. */
  function Wrap64(n: int): nat { n % TWO_TO_64 }

  lemma WrapSmall(n: nat)
    requires n < TWO_TO_64
    ensures Wrap64(n) == n && Wrap64(Wrap64(n + 512) - 512) == n
  {}

  /** n >> k. */
  function Down(n: nat, k: nat): nat
    decreases k, n
  {
    if k == 0 then n else Down(Half(n), k - 1)
  }

  lemma {:induction false} DownTwice(n: nat, j: nat, k: nat)
    ensures Down(Down(n, j), k) == Down(n, j + k)
    decreases j
  {
    hide Half;
    if j > 0 { DownTwice(Half(n), j - 1, k); }
  }

  lemma {:induction false} BigBitsAt(n: nat, len: nat, p: nat)
    requires p < len
    ensures BigBits(n, len)[p] == Odd(Down(n, len - 1 - p))
    decreases len
  {
    hide Half, Odd;
    if p < len - 1 { BigBitsAt(Half(n), len - 1, p); }
  }

  /** (uint8_t)n. */
  function LowByte(n: nat): Byte {
    Byte(Odd(n), Odd(Down(n, 1)), Odd(Down(n, 2)), Odd(Down(n, 3)), Odd(Down(n, 4)), Odd(Down(n, 5)),
         Odd(Down(n, 6)), Odd(Down(n, 7)))
  }

  lemma LowByteBit(n: nat, i: nat)
    requires i < 8
    ensures BitOf(LowByte(n), i) == Odd(Down(n, i))
  {
    hide Half, Odd;
  }

  /** The first i bytes of the stored length. */
  function LengthBytes(n: nat, i: nat): (s: seq<Byte>)
    requires i <= 8
    ensures |s| == i
    decreases i, n
  {
    if i == 0 then [] else LengthBytes(n, i - 1) + [LowByte(Down(n, 64 - 8 * i))]
  }

  lemma {:induction false} LengthBytesAt(n: nat, i: nat, j: nat)
    requires j < i <= 8
    ensures LengthBytes(n, i)[j] == LowByte(Down(n, 56 - 8 * j))
    decreases i
  {
    hide LowByte, Down;
    if j < i - 1 { LengthBytesAt(n, i - 1, j); }
  }

  /** The eight stored bytes are the 64 binary digits of the length. */
  lemma LengthStored(n: nat)
    ensures BitsOf(LengthBytes(n, 8)) == BigBits(n, 64)
  {
    hide LowByte, BitOf, Odd, Down, LengthBytes, BitsOf, BigBits;
    var s := LengthBytes(n, 8);
    forall p | 0 <= p < 64 ensures BitsOf(s)[p] == BigBits(n, 64)[p] {
      var j, k := p / 8, p % 8;
      BitsOfAt(s, j, k);
      LengthBytesAt(n, 8, j);
      LowByteBit(Down(n, 56 - 8 * j), 7 - k);
      DownTwice(n, 56 - 8 * j, 7 - k);
      BigBitsAt(n, 64, p);
    }
  }

  // ----- the final one bit -----

  function OrBits(a: Byte, b: Byte, i: nat): bool { BitOf(a, i) || BitOf(b, i) }

  /** a | b. */
  function OrByte(a: Byte, b: Byte): Byte {
    Byte(OrBits(a, b, 0), OrBits(a, b, 1), OrBits(a, b, 2), OrBits(a, b, 3),
         OrBits(a, b, 4), OrBits(a, b, 5), OrBits(a, b, 6), OrBits(a, b, 7))
  }

  /** 0x80 >> r. */
  function Marker(r: nat): Byte {
    Byte(r == 7, r == 6, r == 5, r == 4, r == 3, r == 2, r == 1, r == 0)
  }

  lemma OrBit(a: Byte, b: Byte, i: nat)
    requires i < 8
    ensures BitOf(OrByte(a, b), i) == OrBits(a, b, i)
  {
    hide OrBits;
  }

  lemma MarkerBit(r: nat, i: nat)
    requires i < 8
    ensures BitOf(Marker(r), i) == (r == 7 - i)
  {}

  /** The marker goes right behind the first r bits when the others are clear. */
  lemma MarkedByte(b: Byte, r: nat)
    requires r < 8 && ClearFrom(b, r)
    ensures ByteBits8(OrByte(b, Marker(r))) == ByteBits8(b)[..r] + [true] + Falses(7 - r)
  {
    hide ByteBits8, OrByte, Marker, BitOf, Falses;
    var c := OrByte(b, Marker(r));
    var d := ByteBits8(b)[..r] + [true] + Falses(7 - r);
    forall k | 0 <= k < 8 ensures ByteBits8(c)[k] == d[k] {
      ByteBitAt(c, k);
      ByteBitAt(b, k);
      OrBit(b, Marker(r), 7 - k);
      MarkerBit(r, 7 - k);
    }
  }

  function Nuls(n: nat): (r: seq<Byte>)
    ensures |r| == n && forall i :: 0 <= i < n ==> r[i] == NUL
  {
    if n == 0 then [] else Nuls(n - 1) + [NUL]
  }

  lemma {:induction false} NulBits(n: nat)
    ensures BitsOf(Nuls(n)) == Falses(8 * n)
  {
    if n > 0 { NulBits(n - 1); }
  }

  lemma {:induction false} FalsesJoin(a: nat, b: nat)
    ensures Falses(a) + Falses(b) == Falses(a + b)
  {}

  // ----- the padded tail -----

  /** Message bits behind a partial last byte are clear. */
  predicate ClearTail(block: seq<Byte>, bits: nat) {
    bits % 8 != 0 && bits / 8 < |block| ==> ClearFrom(block[bits / 8], bits % 8)
  }

  predicate ClearFrom(b: Byte, r: nat) { forall k :: r <= k < 8 ==> !ByteBits8(b)[k] }

  /** The message so far with the bits handed over in a block. */
  function Handed(m: seq<bool>, block: seq<Byte>, bits: nat): seq<bool> {
    if bits <= 8 * |block| then m + BitsOf(block)[..bits] else m
  }

  /** The last bytes of the message with the final one bit. */
  function Final(block: seq<Byte>, bits: nat): (f: seq<Byte>)
    requires bits <= 8 * |block|
    ensures |f| == bits / 8 + 1
  {
    block[..bits / 8] + [OrByte(if bits % 8 != 0 then block[bits / 8] else NUL, Marker(bits % 8))]
  }

  lemma OneByte(b: Byte)
    ensures BitsOf([b]) == ByteBits8(b)
  {
    hide ByteBits8;
    assert BitsOf([b]) == BitsOf([]) + ByteBits8(b);
  }

  lemma TakeThrough(a: seq<bool>, x: seq<bool>, y: seq<bool>, r: nat)
    requires r <= |x|
    ensures (a + (x + y))[..|a| + r] == a + x[..r]
  {}

  lemma TakeBits(block: seq<Byte>, q: nat, r: nat)
    requires 8 * q + r <= 8 * |block| && r < 8
    ensures BitsOf(block)[..8 * q + r] == BitsOf(block[..q]) + (if r > 0 then ByteBits8(block[q])[..r] else [])
  {
    hide ByteBits8, BitsOf;
    assert block == block[..q] + block[q..];
    BitsJoin(block[..q], block[q..]);
    if r > 0 {
      assert block[q..] == [block[q]] + block[q + 1..];
      BitsJoin([block[q]], block[q + 1..]);
      OneByte(block[q]);
      TakeThrough(BitsOf(block[..q]), ByteBits8(block[q]), BitsOf(block[q + 1..]), r);
    } else {
      TakeThrough(BitsOf(block[..q]), BitsOf(block[q..]), [], 0);
      assert BitsOf(block[q..]) + [] == BitsOf(block[q..]);
    }
  }

  lemma FinalBits(block: seq<Byte>, bits: nat)
    requires bits <= 8 * |block| && ClearTail(block, bits)
    ensures BitsOf(Final(block, bits)) == BitsOf(block)[..bits] + [true] + Falses(7 - bits % 8)
  {
    hide ByteBits8, OrByte, Marker, Falses, ClearFrom;
    var q, r := bits / 8, bits % 8;
    var b := if r != 0 then block[q] else NUL;
    TakeBits(block, q, r);
    if r == 0 { NulClear(); }
    MarkedByte(b, r);
    var f := Final(block, bits);
    assert f[..|f| - 1] == block[..q];
    assert BitsOf(f) == BitsOf(block[..q]) + (ByteBits8(b)[..r] + [true] + Falses(7 - r));
    if r == 0 { assert ByteBits8(b)[..r] == []; }
  }

  lemma NulClear()
    ensures ClearFrom(NUL, 0)
  {}

  /** The padded message from its last block boundary on. */
  function Tail(t: seq<bool>, l: nat): seq<bool> { t + [true] + Falses(ZeroCount(l)) + BigBits(l, 64) }

  lemma PaddedTail(m: seq<bool>, t: seq<bool>)
    ensures Padded(m + t) == m + Tail(t, |m| + |t|)
  {}

  /** The bits of the last block that hold message. */
  predicate Leaves(l: nat, bits: nat) { l % 512 == bits }

  lemma LeavesTail(n: nat, bits: nat)
    requires Whole(n) && bits < 512
    ensures Leaves(n + bits, bits)
  {}

  lemma ShortCount(l: nat, bits: nat)
    requires bits < 448 && Leaves(l, bits)
    ensures bits / 8 <= 55 && ZeroCount(l) == 7 - bits % 8 + 8 * (55 - bits / 8)
  {}

  lemma LongCount(l: nat, bits: nat)
    requires 448 <= bits < 512 && Leaves(l, bits)
    ensures bits / 8 <= 63 && ZeroCount(l) == 7 - bits % 8 + 8 * (63 - bits / 8) + 448
  {}

  /** A block filled up with zeros. */
  function OpenBlock(f: seq<Byte>): (b: seq<Byte>)
    requires |f| <= 64
    ensures |b| == 64
  {
    f + Nuls(64 - |f|)
  }

  /** A block that ends with the length. */
  function ClosingBlock(f: seq<Byte>, l: nat): (b: seq<Byte>)
    requires |f| <= 56
    ensures |b| == 64
  {
    f + Nuls(56 - |f|) + LengthBytes(l, 8)
  }

  lemma ClosingBits(f: seq<Byte>, l: nat)
    requires |f| <= 56
    ensures BitsOf(ClosingBlock(f, l)) == BitsOf(f) + Falses(8 * (56 - |f|)) + BigBits(l, 64)
  {
    hide Falses, BigBits, LengthBytes, BitsOf, Nuls;
    BitsJoin(f + Nuls(56 - |f|), LengthBytes(l, 8));
    BitsJoin(f, Nuls(56 - |f|));
    NulBits(56 - |f|);
    LengthStored(l);
  }

  lemma OpenBits(f: seq<Byte>)
    requires |f| <= 64
    ensures BitsOf(OpenBlock(f)) == BitsOf(f) + Falses(8 * (64 - |f|))
  {
    hide Falses, BitsOf, Nuls;
    BitsJoin(f, Nuls(64 - |f|));
    NulBits(64 - |f|);
  }

  /** One block is enough. */
  lemma ShortTail(block: seq<Byte>, bits: nat, l: nat)
    requires bits <= 8 * |block| && ClearTail(block, bits) && bits < 448 && Leaves(l, bits)
    ensures |Final(block, bits)| <= 56 && BitsOf(ClosingBlock(Final(block, bits), l)) == Tail(BitsOf(block)[..bits], l)
  {
    hide Falses, BigBits, Final, BitsOf, ClearTail, Leaves, ZeroCount, ClosingBlock;
    ShortCount(l, bits);
    ClosingBits(Final(block, bits), l);
    FinalBits(block, bits);
    FalsesJoin(7 - bits % 8, 8 * (55 - bits / 8));
    Regroup(BitsOf(block)[..bits], Falses(7 - bits % 8), Falses(8 * (55 - bits / 8)), BigBits(l, 64));
  }

  lemma Regroup(t: seq<bool>, a: seq<bool>, b: seq<bool>, n: seq<bool>)
    ensures ((t + [true] + a) + b) + n == t + [true] + (a + b) + n
  {}

  /** Two blocks: the length did not fit behind the final bit. */
  lemma LongTail(block: seq<Byte>, bits: nat, l: nat)
    requires bits <= 8 * |block| && ClearTail(block, bits) && 448 <= bits < 512 && Leaves(l, bits)
    ensures |Final(block, bits)| <= 64
    ensures BitsOf(OpenBlock(Final(block, bits))) + BitsOf(ClosingBlock([], l)) == Tail(BitsOf(block)[..bits], l)
  {
    hide Falses, BigBits, Final, BitsOf, ClearTail, Leaves, ZeroCount, ClosingBlock, OpenBlock;
    LongCount(l, bits);
    OpenBits(Final(block, bits));
    ClosingBits([], l);
    NoBytes();
    FinalBits(block, bits);
    FalsesJoin(7 - bits % 8, 8 * (63 - bits / 8));
    FalsesJoin(7 - bits % 8 + 8 * (63 - bits / 8), 448);
    RegroupTwo(BitsOf(block)[..bits], Falses(7 - bits % 8), Falses(8 * (63 - bits / 8)), Falses(448), BigBits(l, 64));
  }

  lemma NoBytes()
    ensures BitsOf([]) == []
  {}

  lemma RegroupTwo(t: seq<bool>, a: seq<bool>, b: seq<bool>, c: seq<bool>, n: seq<bool>)
    ensures ((t + [true] + a) + b) + ([] + c + n) == t + [true] + ((a + b) + c) + n
  {}

  lemma FoldOne(h: seq<Word>, x: seq<bool>)
    requires |h| == 8 && |x| == 512
    ensures Fold(h, x) == Compress(h, x)
  {
    hide Compress;
    assert x[|x| - 512..] == x;
    assert Fold(h, x[..0]) == h;
  }

  // ----- the context -----

  lemma ScheduleNext(m: seq<bool>, n: nat)
    ensures Schedule(m, n + 1) == Schedule(m, n) + [if n < 16 then BigWord(m, 32 * n) else NextWord(Schedule(m, n))]
  {
    hide NextWord, BigWord;
  }

  /** The line of the code that extends the schedule. */
  lemma NextWordAt(w: seq<Word>)
    requires |w| >= 16
    ensures var i := |w|;
      NextWord(w) == Sum(Sum(Sum(SmallSigmaOf(w[i - 2], 17, 19, 10), w[i - 7]), SmallSigmaOf(w[i - 15], 7, 18, 3)),
               w[i - 16])
  {
    hide Sum, SmallSigma, SmallSigmaOf;
    SigmasAgree(w[|w| - 2], 17, 19, 10);
    SigmasAgree(w[|w| - 15], 7, 18, 3);
  }

  lemma RoundsNext(a: seq<Word>, w: seq<Word>, n: nat)
    requires |a| == 8 && n < |w|
    ensures Rounds(a, w, n + 1) == Round(Rounds(a, w, n), n, w[n])
  {
    hide Round;
  }

  lemma RoundAt(a: seq<Word>, t: nat, w: Word, t1: Word, t2: Word)
    requires |a| == 8
    requires t1 == Sum(Sum(Sum(Sum(a[7], SigmaOf(a[4], 6, 11, 25)), Ch(a[4], a[5], a[6])), K(t)), w)
    requires t2 == Sum(SigmaOf(a[0], 2, 13, 22), Maj(a[0], a[1], a[2]))
    ensures Round(a, t, w) == [Sum(t1, t2), a[0], a[1], a[2], Sum(a[3], t1), a[4], a[5], a[6]]
  {
    hide Sum, Sigma, SigmaOf, Ch, Maj, K;
    SigmasAgree(a[4], 6, 11, 25);
    SigmasAgree(a[0], 2, 13, 22);
  }

  lemma CompressIs(h: seq<Word>, m: seq<bool>)
    requires |h| == 8
    ensures Compress(h, m) == SumAll(h, Rounds(h, Schedule(m, 64), 64))
  {
    hide SumAll, Rounds, Schedule;
  }

  lemma InitNext(n: nat)
    ensures Init(0) == [] && Init(n + 1) == Init(n) + [Bits(InitNumber(n), 32)]
  {
    hide Bits, InitNumber;
  }

  lemma FoldNone(h: seq<Word>)
    requires |h| == 8
    ensures Fold(h, []) == h
  {}

  class Context {
    const h: array<Word>
    var length: nat

    /** The state after the whole blocks m. */
    ghost predicate Absorbed(m: seq<bool>)
      reads this, h
    {
      h.Length == 8 && Whole(|m|) && h[..] == Fold(InitialHash(), m) && length == |m|
    }

    /** sha256_init. */
    constructor ()
      ensures Absorbed([]) && fresh(h)
    {
      hide Fold, Bits, InitNumber, Init;
      h := new Word[8];
      length := 0;
      new;
      InitNext(0);
      for c := 0 to 8
        modifies h
        invariant h[..c] == Init(c) && length == 0
      {
        InitNext(c);
        h[c] := Bits(InitNumber(c), 32);
        assert h[..c + 1] == h[..c] + [h[c]];
      }
      assert h[..] == h[..8];
      FoldNone(InitialHash());
    }

    /** The schedule loops. */
    method MakeSchedule(block: seq<Byte>) returns (w: array<Word>)
      requires |block| >= 64
      ensures fresh(w) && w[..] == Schedule(BitsOf(block), 64)
    {
      hide Schedule, ChangeEndian, CharsToInt, BigWord, NextWord, Sum, SmallSigmaOf, BitsOf;
      ghost var m := BitsOf(block);
      w := new Word[64];
      NoWords(m);
      for i := 0 to 16
        invariant w[..i] == Schedule(m, i)
      {
        w[i] := ChangeEndian(CharsToInt(block[4 * i..4 * i + 4]));
        LoadedWord(block, i);
        ScheduleNext(m, i);
        assert w[..i + 1] == w[..i] + [w[i]];
      }
      for i := 16 to 64
        invariant w[..i] == Schedule(m, i)
      {
        ghost var v := w[..i];
        w[i] := Sum(Sum(Sum(SmallSigmaOf(w[i - 2], 17, 19, 10), w[i - 7]), SmallSigmaOf(w[i - 15], 7, 18, 3)),
            w[i - 16]);
        NextWordAt(v);
        ScheduleNext(m, i);
        assert w[..i + 1] == v + [w[i]];
      }
      assert w[..] == w[..64];
    }

    /** The 64 rounds on the working variables. */
    method RunRounds(a: array<Word>, w: array<Word>)
      requires a.Length == 8 && w.Length == 64 && a != w
      modifies a
      ensures a[..] == Rounds(old(a[..]), w[..], 64)
    {
      hide Rounds, Round, Sum, SigmaOf, Ch, Maj, K;
      ghost var start, v := a[..], w[..];
      NoRounds(start, v);
      for i := 0 to 64
        modifies a
        invariant a[..] == Rounds(start, v, i)
      {
        ghost var s := a[..];
        var t1 := Sum(Sum(Sum(Sum(a[7], SigmaOf(a[4], 6, 11, 25)), Ch(a[4], a[5], a[6])), K(i)), w[i]);
        var t2 := Sum(SigmaOf(a[0], 2, 13, 22), Maj(a[0], a[1], a[2]));
        forall j | 1 <= j < 8 { a[j] := a[j - 1]; }
        assert a[..] == [s[0], s[0], s[1], s[2], s[3], s[4], s[5], s[6]];
        a[4] := Sum(a[4], t1);
        a[0] := Sum(t1, t2);
        assert a[..] == [Sum(t1, t2), s[0], s[1], s[2], Sum(s[3], t1), s[4], s[5], s[6]];
        assert w[i] == v[i];
        RoundAt(s, i, v[i], t1, t2);
        RoundsNext(start, v, i);
      }
      assert w[..] == v;
    }

    /** sha256_nextBlock. */
    method NextBlock(block: seq<Byte>)
      requires h.Length == 8 && |block| == 64
      modifies this, h
      ensures h[..] == Compress(old(h[..]), BitsOf(block)) && length == Wrap64(old(length) + 512)
    {
      hide Rounds, Schedule, Sum, SumAll, BitsOf, Compress;
      var w := MakeSchedule(block);
      var a := new Word[8];
      forall j | 0 <= j < 8 { a[j] := h[j]; }
      ghost var s := h[..];
      assert a[..] == s == old(h[..]);
      ghost var v := w[..];
      RunRounds(a, w);
      ghost var r := a[..];
      assert w[..] == v;
      for i := 0 to 8
        modifies h
        invariant forall k :: 0 <= k < 8 ==> h[k] == if k < i then Sum(s[k], a[k]) else s[k]
      {
        h[i] := Sum(h[i], a[i]);
      }
      assert a[..] == r;
      forall k | 0 <= k < 8 ensures h[..][k] == SumAll(s, r)[k] { SumAllAt(s, r, k); }
      length := Wrap64(length + 512);
      assert h[..] == SumAll(s, r);
      CompressIs(s, BitsOf(block));
      assert v == Schedule(BitsOf(block), 64) && r == Rounds(s, v, 64);
    }

    /** sha256_nextBlock on a context that has seen the whole blocks m. */
    method Absorb(block: seq<Byte>, ghost m: seq<bool>)
      requires Absorbed(m) && |block| == 64 && |m| + 512 < TWO_TO_64
      modifies this, h
      ensures Absorbed(m + BitsOf(block))
    {
      hide Fold, Compress, BitsOf, Wrap64, Whole;
      WrapSmall(|m| + 512);
      WholeNext(|m|);
      FoldBlock(m, BitsOf(block));
      NextBlock(block);
    }

    /** The message bytes and the final one bit go into the local block. */
    method FillBlock(lb: array<Byte>, block: seq<Byte>, bits: nat) returns (c: nat)
      requires lb.Length == 64 && bits < 512 && bits <= 8 * |block|
      modifies lb
      ensures c == |Final(block, bits)| <= 64 && lb[..c] == Final(block, bits)
    {
      hide OrByte, Marker;
      var q := bits / 8;
      forall j | 0 <= j < q { lb[j] := block[j]; }
      lb[q] := if bits % 8 != 0 then block[q] else NUL;
      lb[q] := OrByte(lb[q], Marker(bits % 8));
      c := q + 1;
    }

    /** The part of sha256_lastBlock behind its loop: less than a block is left. */
    method FinishBlock(block: seq<Byte>, bits: nat, ghost m: seq<bool>)
      requires Absorbed(m) && bits < 512 && bits <= 8 * |block| && |m| + bits < TWO_TO_64 && ClearTail(block, bits)
      modifies this, h
      ensures h[..] == Digest(Handed(m, block, bits))
    {
      hide Fold, Handed, ClearTail, Digest, Final, Wrap64, Whole, ShortEnd, LongEnd;
      WrapSmall(|m| + bits);
      ghost var l := |m| + bits;
      ghost var h0 := h[..];
      length := Wrap64(length + bits);
      var lb := new Byte[64];
      var c := FillBlock(lb, block, bits);
      assert h[..] == h0;
      if c > 56 {
        FinishLong(lb, c, Final(block, bits), l);
        LongDigest(m, block, bits);
      } else {
        FinishLength(lb, c, Final(block, bits), l);
        ShortDigest(m, block, bits);
      }
    }

    /** The length field does not fit: the block goes in without it, and another one follows. */
    method FinishLong(lb: array<Byte>, c0: nat, ghost f: seq<Byte>, ghost l: nat)
      requires h.Length == 8 && lb.Length == 64 && c0 == |f| <= 64 && lb[..c0] == f && length == l < TWO_TO_64
      modifies this, h, lb
      ensures h[..] == LongEnd(old(h[..]), f, l)
    {
      hide Compress, BitsOf, Nuls, Wrap64, ShortEnd;
      var c := c0;
      WrapSmall(l);
      FillOut(lb, c);
      assert h[..] == old(h[..]);
      NextBlock(lb[..]);
      length := Wrap64(length - 512);
      c := 0;
      FinishLength(lb, c, [], l);
    }

    /** Zeros behind the first c bytes. */
    method FillOut(lb: array<Byte>, c: nat)
      requires lb.Length == 64 && c <= 64
      modifies lb
      ensures lb[..] == old(lb[..c]) + Nuls(64 - c)
    {
      forall j | c <= j < 64 { lb[j] := NUL; }
    }

    /** sha256_lastBlock: with the bits handed over here, the hash value is the digest of all of them. */
    method LastBlock(block: seq<Byte>, count: nat, ghost m: seq<bool>)
      requires Absorbed(m) && count < 0x1_0000 && count <= 8 * |block| && |m| + count < TWO_TO_64
               && ClearTail(block, count)
      modifies this, h
      ensures h[..] == Digest(Handed(m, block, count))
    {
      hide Fold, Compress, BitsOf, ClearTail, Digest, Whole, Context.Absorbed, Handed;
      var rest := block;
      var bits: nat := count;
      ghost var done := m;
      while bits >= 512
        invariant Absorbed(done) && bits <= 8 * |rest| && bits <= count && ClearTail(rest, bits)
                  && |done| + bits == |m| + count
        invariant Handed(done, rest, bits) == Handed(m, block, count)
        decreases bits
      {
        ghost var x := BitsOf(rest[..64]);
        BlockOff(done, rest, bits);
        ClearLater(rest, bits);
        Absorb(rest[..64], done);
        bits := bits - 512;
        rest := rest[64..];
        done := done + x;
      }
      FinishBlock(rest, bits, done);
    }

    /** Zeros up to the length field, the length, and the last block. */
    method FinishLength(lb: array<Byte>, c: nat, ghost f: seq<Byte>, ghost l: nat)
      requires h.Length == 8 && lb.Length == 64 && c == |f| <= 56 && lb[..c] == f && length == l
      modifies this, h, lb
      ensures h[..] == ShortEnd(old(h[..]), f, l)
    {
      hide Compress, BitsOf, LowByte, Down, LengthBytes, Nuls;
      forall j | c <= j < 56 { lb[j] := NUL; }
      ghost var z := Nuls(56 - c);
      NulsAre(56 - c);
      assert lb[..56] == f + z;
      NoLength(l);
      for i := 1 to 9
        modifies lb
        invariant lb[..56] == f + z && lb[56..55 + i] == LengthBytes(l, i - 1)
      {
        lb[55 + i] := LowByte(Down(length, 64 - 8 * i));
        LengthNext(l, i);
        assert lb[56..56 + i] == lb[56..55 + i] + [lb[55 + i]];
      }
      assert lb[..] == f + z + LengthBytes(l, 8);
      assert h[..] == old(h[..]);
      NextBlock(lb[..]);
    }
  }

  /** One more whole block. */
  lemma FoldBlock(m: seq<bool>, x: seq<bool>)
    requires Whole(|m|) && |x| == 512
    ensures Fold(InitialHash(), m + x) == Compress(Fold(InitialHash(), m), x)
  {
    hide Compress, Fold;
    FoldJoin(InitialHash(), m, x);
    FoldOne(Fold(InitialHash(), m), x);
  }

  lemma TakeBehind(d: seq<bool>, x: seq<bool>, y: seq<bool>, n: nat)
    requires |x| <= n <= |x| + |y|
    ensures d + (x + y)[..n] == (d + x) + y[..n - |x|]
  {}

  lemma BlockOff(done: seq<bool>, rest: seq<Byte>, bits: nat)
    requires 512 <= bits <= 8 * |rest|
    ensures Handed(done, rest, bits) == Handed(done + BitsOf(rest[..64]), rest[64..], bits - 512)
  {
    hide BitsOf;
    assert rest == rest[..64] + rest[64..];
    BitsJoin(rest[..64], rest[64..]);
    TakeBehind(done, BitsOf(rest[..64]), BitsOf(rest[64..]), bits);
  }

  lemma ClearLater(rest: seq<Byte>, bits: nat)
    requires 512 <= bits <= 8 * |rest| && ClearTail(rest, bits)
    ensures ClearTail(rest[64..], bits - 512)
  {
    hide ByteBits8, ClearFrom;
    assert (bits - 512) % 8 == bits % 8 && (bits - 512) / 8 == bits / 8 - 64;
  }

  /** Folding on over one block, or over two. */
  lemma FoldTwo(m: seq<bool>, x: seq<bool>, y: seq<bool>)
    requires Whole(|m|) && (|x| == 512 || |x| == 0) && |y| == 512
    ensures var h := Fold(InitialHash(), m);
      Fold(InitialHash(), m + (x + y)) == Compress(if x == [] then h else Compress(h, x), y)
  {
    hide Compress, Fold;
    var h := Fold(InitialHash(), m);
    FoldJoin(InitialHash(), m, x + y);
    FoldOne(Fold(h, x), y);
    if x == [] {
      assert x + y == y;
      FoldOne(h, y);
    } else {
      FoldJoin(h, x, y);
      FoldOne(h, x);
    }
  }

  /** The hash value after one closing block. */
  function ShortEnd(h: seq<Word>, f: seq<Byte>, l: nat): (r: seq<Word>)
    requires |h| == 8 && |f| <= 56
    ensures |r| == 8
  {
    Compress(h, BitsOf(ClosingBlock(f, l)))
  }

  /** The hash value after two closing blocks. */
  function LongEnd(h: seq<Word>, f: seq<Byte>, l: nat): (r: seq<Word>)
    requires |h| == 8 && |f| <= 64
    ensures |r| == 8
  {
    ShortEnd(Compress(h, BitsOf(OpenBlock(f))), [], l)
  }

  lemma HandedPadded(m: seq<bool>, block: seq<Byte>, bits: nat)
    requires bits <= 8 * |block|
    ensures Padded(Handed(m, block, bits)) == m + Tail(BitsOf(block)[..bits], |m| + bits)
  {
    hide BitsOf, Padded, Tail;
    PaddedTail(m, BitsOf(block)[..bits]);
  }

  /** What the short end computes is the digest. */
  lemma ShortDigest(m: seq<bool>, block: seq<Byte>, bits: nat)
    requires Whole(|m|) && bits <= 8 * |block| && ClearTail(block, bits) && |Final(block, bits)| <= 56
    ensures Digest(Handed(m, block, bits)) == ShortEnd(Fold(InitialHash(), m), Final(block, bits), |m| + bits)
  {
    hide Fold, Compress, BitsOf, ClearTail, Final, Tail, Padded, InitialHash, Whole, Leaves, Handed, ClosingBlock;
    RoomFor(bits);
    LeavesTail(|m|, bits);
    ShortTail(block, bits, |m| + bits);
    HandedPadded(m, block, bits);
    var y := BitsOf(ClosingBlock(Final(block, bits), |m| + bits));
    assert [] + y == y;
    FoldTwo(m, [], y);
  }

  /** What the two-block end computes is the digest. */
  lemma LongDigest(m: seq<bool>, block: seq<Byte>, bits: nat)
    requires Whole(|m|) && bits <= 8 * |block| && ClearTail(block, bits) && bits < 512
             && 56 < |Final(block, bits)| <= 64
    ensures Digest(Handed(m, block, bits)) == LongEnd(Fold(InitialHash(), m), Final(block, bits), |m| + bits)
  {
    hide Fold, Compress, BitsOf, ClearTail, Final, Tail, Padded, InitialHash, Whole, Leaves, Handed, ClosingBlock,
         OpenBlock;
    RoomFor(bits);
    LeavesTail(|m|, bits);
    LongTail(block, bits, |m| + bits);
    HandedPadded(m, block, bits);
    FoldTwo(m, BitsOf(OpenBlock(Final(block, bits))), BitsOf(ClosingBlock([], |m| + bits)));
  }

  // ----- the whole function -----

  /** sha256_ctx2hash. */
  method CtxToHash(dest: array<Byte>, state: Context)
    requires dest.Length == 32 && state.h.Length == 8
    modifies dest
    ensures BitsOf(dest[..]) == WordsBits(state.h[..])
  {
    hide BitsOf, WordsBits, ChangeEndian, IntToChars, Reversed;
    ghost var h := state.h[..];
    NoBits();
    for i := 0 to 8
      invariant BitsOf(dest[..4 * i]) == WordsBits(h[..i])
    {
      ghost var before := dest[..4 * i];
      var c := IntToChars(ChangeEndian(state.h[i]));
      forall j | 0 <= j < 4 { dest[4 * i + j] := c[j]; }
      assert dest[..4 * i + 4] == before + c;
      BitsJoin(before, c);
      StoredWord(h[i]);
      WordsBitsNext(h, i);
    }
    assert dest[..] == dest[..32] && h[..8] == h;
  }

  lemma NoBits()
    ensures BitsOf([]) == [] && WordsBits([]) == []
  {}

  lemma WordsBitsNext(h: seq<Word>, i: nat)
    requires i < |h|
    ensures WordsBits(h[..i + 1]) == WordsBits(h[..i]) + Reversed(h[i])
  {
    hide Reversed;
    assert h[..i + 1][..i] == h[..i];
  }

  /** sha256: the digest of the message; len counts bytes, and the bit count wraps at 32 bits. */
  method Hash(dest: array<Byte>, msg: seq<Byte>, len: nat)
    requires dest.Length == 32 && len <= |msg| && len < 0x1_0000_0000
    modifies dest
    ensures BitsOf(dest[..]) == WordsBits(Digest(BitsOf(msg[..len % 0x2000_0000])))
  {
    hide BitsOf, WordsBits, Digest, Fold, Compress, Context.Absorbed;
    var s := new Context();
    var length: nat := (len * 8) % 0x1_0000_0000;
    ghost var all := length;
    WrappedLength(len);
    var rest := msg;
    ghost var done := [];
    while length >= 512
      invariant s.Absorbed(done) && fresh(s) && fresh(s.h) && length <= 8 * |rest| && length <= all < 0x1_0000_0000
                && length % 8 == 0
      invariant |done| + length == all
      invariant Handed(done, rest, length) == BitsOf(msg)[..all]
      decreases length
    {
      ghost var x := BitsOf(rest[..64]);
      BlockOff(done, rest, length);
      s.Absorb(rest[..64], done);
      rest := rest[64..];
      length := length - 512;
      done := done + x;
    }
    s.LastBlock(rest, length, done);
    TakeBits(msg, all / 8, 0);
    assert BitsOf(msg)[..all] == BitsOf(msg[..len % 0x2000_0000]);
    ghost var d := s.h[..];
    CtxToHash(dest, s);
    assert s.h[..] == d;
  }

  lemma WrappedLength(len: nat)
    ensures (len * 8) % 0x1_0000_0000 == 8 * (len % 0x2000_0000) && len % 0x2000_0000 <= len
  {}

  /** Any number of whole blocks, then the rest: always the digest of the message. */
  method HashInParts(msg: seq<Byte>, blocks: nat) returns (s: Context)
    requires 64 * blocks <= |msg| && 8 * (|msg| - 64 * blocks) < 0x1_0000 && 8 * |msg| < TWO_TO_64
    ensures fresh(s) && s.h.Length == 8 && s.h[..] == Digest(BitsOf(msg))
  {
    hide BitsOf, Digest, Fold, Compress, Context.Absorbed;
    s := new Context();
    ghost var done := [];
    assert msg[..0] == [];
    NoBits();
    for i := 0 to blocks
      invariant s.Absorbed(done) && fresh(s) && fresh(s.h) && done == BitsOf(msg[..64 * i])
    {
      ghost var x := BitsOf(msg[64 * i..64 * i + 64]);
      PrefixGrows(msg, 64 * i, 64 * i + 64);
      s.Absorb(msg[64 * i..64 * i + 64], done);
      done := done + x;
    }
    var rest := msg[64 * blocks..];
    AllOf(msg, 64 * blocks);
    assert Handed(done, rest, 8 * |rest|) == BitsOf(msg);
    s.LastBlock(rest, 8 * |rest|, done);
  }

  lemma PrefixGrows(msg: seq<Byte>, i: nat, j: nat)
    requires i <= j <= |msg|
    ensures BitsOf(msg[..j]) == BitsOf(msg[..i]) + BitsOf(msg[i..j])
  {
    hide BitsOf;
    assert msg[..i] + msg[i..j] == msg[..j];
    BitsJoin(msg[..i], msg[i..j]);
  }

  lemma AllOf(msg: seq<Byte>, i: nat)
    requires i <= |msg|
    ensures BitsOf(msg) == BitsOf(msg[..i]) + BitsOf(msg[i..])[..8 * |msg[i..]|]
  {
    hide BitsOf;
    assert msg == msg[..i] + msg[i..];
    BitsJoin(msg[..i], msg[i..]);
  }

  lemma RoomFor(bits: nat)
    ensures bits / 8 + 1 <= 56 <==> bits < 448
    ensures bits < 512 ==> bits / 8 + 1 <= 64
  {}

  lemma NulsAre(n: nat)
    ensures forall i :: 0 <= i < n ==> Nuls(n)[i] == NUL
  {}

  lemma NoLength(n: nat)
    ensures LengthBytes(n, 0) == []
  {}

  lemma LengthNext(n: nat, i: nat)
    requires 1 <= i <= 8
    ensures LengthBytes(n, i) == LengthBytes(n, i - 1) + [LowByte(Down(n, 64 - 8 * i))]
  {
    hide LowByte, Down;
  }

  lemma NoWords(m: seq<bool>)
    ensures Schedule(m, 0) == []
  {}

  lemma NoRounds(a: seq<Word>, w: seq<Word>)
    requires |a| == 8
    ensures Rounds(a, w, 0) == a
  {}
}
