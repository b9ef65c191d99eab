/** The byte-level side of the scheme: export and import of bit vectors, the XTEA block cipher and its
    counter, MAC and hash modes, and the key derivation. */
module EciesCipher {
  import opened EciesWords
  import opened Words

  function Nuls(n: nat): (r: seq<Byte>)
    ensures |r| == n
  {
    if n == 0 then [] else Nuls(n - 1) + [NUL]
  }

  // ----- words and bytes -----

  /** bitstr_export: the highest word first. */
  function Export(x: seq<Word>): (s: seq<Byte>)
    ensures |s| == 4 * |x|
  {
    if x == [] then [] else IntToChars(x[|x| - 1]) + Export(x[..|x| - 1])
  }

  /** bitstr_import. */
  function Import(s: seq<Byte>, n: nat): (x: seq<Word>)
    requires |s| == 4 * n
    ensures |x| == n
    decreases n, |s|
  {
    if n == 0 then [] else Import(s[4..], n - 1) + [CharsToInt(s[..4])]
  }

  lemma {:induction false} ExportImport(x: seq<Word>)
    ensures Import(Export(x), |x|) == x
  {
    if x != [] {
      var r := x[..|x| - 1];
      var s := Export(x);
      assert s[4..] == Export(r) && s[..4] == IntToChars(x[|x| - 1]);
      CharsRoundTrip(x[|x| - 1]);
      ExportImport(r);
      assert x == r + [x[|x| - 1]];
    }
  }

  // ----- XTEA -----

  function Delta(): Word { Bits(0x9e37_79b9, 32) }

  function Part(c: seq<Byte>, i: nat, j: nat): seq<Byte> { if i <= j <= |c| then c[i..j] else [] }

  /** XTEA_init_key. */
  function KeyWords(key: seq<Byte>): seq<Word> {
    [CharsToInt(Part(key, 0, 4)), CharsToInt(Part(key, 4, 8)), CharsToInt(Part(key, 8, 12)),
        CharsToInt(Part(key, 12, 16))]
  }

  /** One half round's scrambling of the other half. */
  function Mix(v: Word, s: Word): Word { Xor(Sum(Xor(Shl(v, 4), Shr(v, 5)), v), s) }

  /** Bits i and i + 1 of a word as an index. */
  function TwoBits(w: Word, i: nat): (n: nat)
    requires i < 31
    ensures n < 4
  {
    (if w[i] then 1 else 0) + (if w[i + 1] then 2 else 0)
  }

  function KeyAt(k: seq<Word>, i: nat): Word { if i < |k| then k[i] else CLEAR }

  function CharAt(c: seq<Byte>, i: nat): Byte { if i < |c| then c[i] else NUL }

  /** n rounds of the cipher on the halves y and z. */
  function Rounds(y: Word, z: Word, sum: Word, k: seq<Word>, n: nat): (Word, Word)
    decreases n, |k|
  {
    if n == 0 then (y, z)
    else
      var y' := Sum(y, Mix(z, Sum(sum, KeyAt(k, TwoBits(sum, 0)))));
      var sum' := Sum(sum, Delta());
      var z' := Sum(z, Mix(y', Sum(sum', KeyAt(k, TwoBits(sum', 11)))));
      Rounds(y', z', sum', k, n - 1)
  }

  function Encipher(b: seq<Byte>, k: seq<Word>): (r: seq<Byte>)
    ensures |r| == 8
  {
    var r := Rounds(CharsToInt(Part(b, 0, 4)), CharsToInt(Part(b, 4, 8)), CLEAR, k, 32);
    IntToChars(r.0) + IntToChars(r.1)
  }

  /** The loop of XTEA_encipher_block. */
  method RunRounds(y0: Word, z0: Word, k: seq<Word>) returns (y: Word, z: Word)
    ensures (y, z) == Rounds(y0, z0, CLEAR, k, 32)
  {
    hide Sum, Mix, TwoBits, KeyAt, Rounds, Delta;
    y, z := y0, z0;
    var sum := CLEAR;
    for i := 0 to 32
      invariant Rounds(y, z, sum, k, 32 - i) == Rounds(y0, z0, CLEAR, k, 32)
    {
      RoundsNext(y, z, sum, k, 32 - i);
      y := Sum(y, Mix(z, Sum(sum, KeyAt(k, TwoBits(sum, 0)))));
      sum := Sum(sum, Delta());
      z := Sum(z, Mix(y, Sum(sum, KeyAt(k, TwoBits(sum, 11)))));
    }
    NoRounds(y, z, sum, k);
  }

  lemma RoundsNext(y: Word, z: Word, sum: Word, k: seq<Word>, n: nat)
    requires n > 0
    ensures var y' := Sum(y, Mix(z, Sum(sum, KeyAt(k, TwoBits(sum, 0)))));
      var sum' := Sum(sum, Delta());
      var z' := Sum(z, Mix(y', Sum(sum', KeyAt(k, TwoBits(sum', 11)))));
      Rounds(y, z, sum, k, n) == Rounds(y', z', sum', k, n - 1)
  {
    hide Sum, Mix, TwoBits, KeyAt, Delta;
  }

  lemma NoRounds(y: Word, z: Word, sum: Word, k: seq<Word>)
    ensures Rounds(y, z, sum, k, 0) == (y, z)
  {}

  /** XTEA_encipher_block. */
  method EncipherBlock(data: array<Byte>, off: nat, k: seq<Word>)
    requires off + 8 <= data.Length
    modifies data
    ensures data[..] == old(data[..off]) + Encipher(old(data[off..off + 8]), k) + old(data[off + 8..])
  {
    hide Rounds, CharsToInt, IntToChars;
    ghost var b := data[off..off + 8];
    assert Part(b, 0, 4) == data[off..off + 4] && Part(b, 4, 8) == data[off + 4..off + 8];
    var y, z := RunRounds(CharsToInt(data[off..off + 4]), CharsToInt(data[off + 4..off + 8]), k);
    var out := IntToChars(y) + IntToChars(z);
    forall j | 0 <= j < 8 { data[off + j] := out[j]; }
  }

  /** The rounds can be undone one by one. */
  lemma {:induction false} RoundsInjective(y: Word, z: Word, u: Word, v: Word, sum: Word, k: seq<Word>, n: nat)
    requires Rounds(y, z, sum, k, n) == Rounds(u, v, sum, k, n)
    ensures y == u && z == v
    decreases n
  {
    hide Sum, Mix, TwoBits, KeyAt, Rounds, Delta;
    if n == 0 {
      NoRounds(y, z, sum, k);
      NoRounds(u, v, sum, k);
    } else {
      RoundsNext(y, z, sum, k, n);
      RoundsNext(u, v, sum, k, n);
      var s1 := Sum(sum, Delta());
      var y1 := Sum(y, Mix(z, Sum(sum, KeyAt(k, TwoBits(sum, 0)))));
      var u1 := Sum(u, Mix(v, Sum(sum, KeyAt(k, TwoBits(sum, 0)))));
      var key := Sum(s1, KeyAt(k, TwoBits(s1, 11)));
      RoundsInjective(y1, Sum(z, Mix(y1, key)), u1, Sum(v, Mix(u1, key)), s1, k, n - 1);
      SumInjective(z, v, Mix(y1, key));
      SumInjective(y, u, Mix(z, Sum(sum, KeyAt(k, TwoBits(sum, 0)))));
    }
  }

  /** Under one key different blocks are enciphered differently. */
  lemma EncipherInjective(a: seq<Byte>, b: seq<Byte>, k: seq<Word>)
    requires |a| == |b| == 8 && Encipher(a, k) == Encipher(b, k)
    ensures a == b
  {
    hide Rounds, CharsToInt, IntToChars;
    var r := Rounds(CharsToInt(a[..4]), CharsToInt(a[4..]), CLEAR, k, 32);
    var s := Rounds(CharsToInt(b[..4]), CharsToInt(b[4..]), CLEAR, k, 32);
    assert a[0..4] == a[..4] && a[4..8] == a[4..] && b[0..4] == b[..4] && b[4..8] == b[4..];
    assert IntToChars(r.0) == Encipher(a, k)[..4] && IntToChars(s.0) == Encipher(b, k)[..4];
    assert IntToChars(r.1) == Encipher(a, k)[4..] && IntToChars(s.1) == Encipher(b, k)[4..];
    CharsRoundTrip(r.0);
    CharsRoundTrip(s.0);
    CharsRoundTrip(r.1);
    CharsRoundTrip(s.1);
    RoundsInjective(CharsToInt(a[..4]), CharsToInt(a[4..]), CharsToInt(b[..4]), CharsToInt(b[4..]), CLEAR, k, 32);
    CharsInjective(a[..4], b[..4]);
    CharsInjective(a[4..], b[4..]);
    assert a == a[..4] + a[4..] && b == b[..4] + b[4..];
  }

  // ----- counter mode -----

  function CounterBlock(ctr: nat): (b: seq<Byte>)
    ensures |b| == 8
  {
    IntToChars(CLEAR) + IntToChars(Bits(ctr, 32))
  }

  /** Byte j of the key stream. */
  function StreamByte(k: seq<Word>, j: nat): Byte { CharAt(Encipher(CounterBlock(j / 8), k), j % 8) }

  function Ctr(k: seq<Word>, text: seq<Byte>): (r: seq<Byte>)
    ensures |r| == |text|
  {
    if text == [] then []
    else Ctr(k, text[..|text| - 1]) + [XorByte(text[|text| - 1], StreamByte(k, |text| - 1))]
  }

  lemma {:induction false} CtrAt(k: seq<Word>, text: seq<Byte>, j: nat)
    requires j < |text|
    ensures Ctr(k, text)[j] == XorByte(text[j], StreamByte(k, j))
  {
    hide StreamByte, XorByte;
    if j < |text| - 1 {
      CtrAt(k, text[..|text| - 1], j);
    }
  }

  /** Counter mode undoes itself. */
  lemma CtrTwice(k: seq<Word>, text: seq<Byte>)
    ensures Ctr(k, Ctr(k, text)) == text
  {
    hide StreamByte, XorByte, Ctr;
    var c := Ctr(k, text);
    var r := Ctr(k, c);
    forall j | 0 <= j < |text| ensures r[j] == text[j] {
      CtrAt(k, text, j);
      CtrAt(k, c, j);
      XorTwice(text[j], StreamByte(k, j));
    }
  }

  /** No block of the key stream repeats, for as long as the counter does not. */
  lemma StreamNeverRepeats(k: seq<Word>, i: nat, j: nat)
    requires i < 0x1_0000_0000 && j < 0x1_0000_0000 && i != j
    ensures Encipher(CounterBlock(i), k) != Encipher(CounterBlock(j), k)
  {
    hide Encipher, IntToChars, Bits;
    if Encipher(CounterBlock(i), k) == Encipher(CounterBlock(j), k) {
      EncipherInjective(CounterBlock(i), CounterBlock(j), k);
      assert IntToChars(Bits(i, 32)) == CounterBlock(i)[4..] && IntToChars(Bits(j, 32)) == CounterBlock(j)[4..];
      CharsRoundTrip(Bits(i, 32));
      CharsRoundTrip(Bits(j, 32));
      BitsInjective(i, j);
    }
  }

  /** The key stream block of a counter value. */
  method StreamBlock(ctr: nat, k: seq<Word>) returns (buf: array<Byte>)
    ensures fresh(buf) && buf.Length == 8 && buf[..] == Encipher(CounterBlock(ctr), k)
  {
    hide Encipher, CounterBlock;
    var block := CounterBlock(ctr);
    buf := new Byte[8];
    forall j | 0 <= j < 8 { buf[j] := block[j]; }
    assert buf[0..8] == block;
    EncipherBlock(buf, 0, k);
  }

  /** XTEA_ctr_crypt, on size bytes from an offset. */
  method CtrCrypt(data: array<Byte>, off: nat, size: nat, key: seq<Byte>)
    requires |key| == 16 && off + size <= data.Length
    modifies data
    ensures data[..] == old(data[..off]) + Ctr(KeyWords(key), old(data[off..off + size])) + old(data[off + size..])
  {
    hide Encipher, CounterBlock, KeyWords, StreamByte, XorByte, Ctr;
    var k := KeyWords(key);
    ghost var d := data[..];
    var ctr := 0;
    var left := size;
    var p := off;
    while left > 0
      invariant 0 <= left <= size && p == off + size - left && (left > 0 ==> p == off + 8 * ctr)
      invariant forall j :: 0 <= j < data.Length && !(off <= j < p) ==> data[j] == d[j]
      invariant forall j :: off <= j < p ==> data[j] == XorByte(d[j], StreamByte(k, j - off))
    {
      var buf := StreamBlock(ctr, k);
      var len := if left < 8 then left else 8;
      forall j | 0 <= j < len { data[p + j] := XorByte(data[p + j], buf[j]); }
      forall i | p <= i < p + len ensures data[i] == XorByte(d[i], StreamByte(k, i - off)) {
        StreamInBlock(k, ctr, i - p);
        assert buf[i - p] == buf[..][i - p];
        assert 8 * ctr + (i - p) == i - off;
      }
      ctr := ctr + 1;
      p := p + len;
      left := left - len;
    }
    ghost var c := Ctr(k, d[off..off + size]);
    forall j | 0 <= j < size ensures data[off + j] == c[j] {
      CtrAt(k, d[off..off + size], j);
    }
  }

  lemma StreamInBlock(k: seq<Word>, c: nat, j: nat)
    requires j < 8
    ensures StreamByte(k, 8 * c + j) == CharAt(Encipher(CounterBlock(c), k), j)
  {
    hide Encipher, CounterBlock;
  }

  // ----- the MAC -----

  /** A block with up to eight bytes laid over it. */
  function Absorb(mac: seq<Byte>, chunk: seq<Byte>): (r: seq<Byte>)
    ensures |r| == |mac| && forall j :: 0 <= j < |mac| ==>
            r[j] == if j < |chunk| then XorByte(mac[j], chunk[j]) else mac[j]
  {
    seq(|mac|, j requires 0 <= j < |mac| => if j < |chunk| then XorByte(mac[j], chunk[j]) else mac[j])
  }

  /** The MAC chained over the rest of the data. */
  function Chain(mac: seq<Byte>, data: seq<Byte>, k: seq<Word>): (r: seq<Byte>)
    ensures |mac| == 8 ==> |r| == 8
    decreases |data|
  {
    if data == [] then mac
    else if |data| <= 8 then Encipher(Absorb(mac, data), k)
    else Chain(Encipher(Absorb(mac, data[..8]), k), data[8..], k)
  }

  function CbcMac(data: seq<Byte>, k: seq<Word>): (r: seq<Byte>)
    ensures |r| == 8
  {
    Chain(Encipher(IntToChars(CLEAR) + IntToChars(Bits(|data|, 32)), k), data, k)
  }

  /** One round of the loop of XTEA_cbcmac. */
  method AbsorbAt(mac: array<Byte>, at: nat, chunk: seq<Byte>, k: seq<Word>)
    requires at + 8 <= mac.Length && |chunk| <= 8
    modifies mac
    ensures mac[..] == old(mac[..at]) + Encipher(Absorb(old(mac[at..at + 8]), chunk), k) + old(mac[at + 8..])
  {
    hide Encipher, XorByte;
    ghost var m := mac[..];
    forall j | 0 <= j < |chunk| { mac[at + j] := XorByte(mac[at + j], chunk[j]); }
    assert mac[at..at + 8] == Absorb(m[at..at + 8], chunk);
    assert mac[..at] == m[..at] && mac[at + 8..] == m[at + 8..];
    EncipherBlock(mac, at, k);
  }

  /** XTEA_cbcmac: mac is written at an offset of its buffer. */
  method XteaCbcMac(mac: array<Byte>, at: nat, data: seq<Byte>, key: seq<Byte>)
    requires |key| == 16 && at + 8 <= mac.Length
    modifies mac
    ensures mac[..] == old(mac[..at]) + CbcMac(data, KeyWords(key)) + old(mac[at + 8..])
  {
    hide Encipher, KeyWords, Absorb, Chain;
    var k := KeyWords(key);
    ghost var m := mac[..];
    var first := IntToChars(CLEAR) + IntToChars(Bits(|data|, 32));
    forall j | 0 <= j < 8 { mac[at + j] := first[j]; }
    assert mac[at..at + 8] == first && mac[..at] == m[..at] && mac[at + 8..] == m[at + 8..];
    EncipherBlock(mac, at, k);
    ghost var b := Encipher(first, k);
    var rest := data;
    while rest != []
      invariant |b| == 8 && mac[..] == m[..at] + b + m[at + 8..]
      invariant Chain(b, rest, k) == CbcMac(data, k)
      decreases |rest|
    {
      var len := if |rest| < 8 then |rest| else 8;
      assert mac[at..at + 8] == b && mac[..at] == m[..at] && mac[at + 8..] == m[at + 8..];
      ChainNext(b, rest, k);
      AbsorbAt(mac, at, rest[..len], k);
      b := Encipher(Absorb(b, rest[..len]), k);
      rest := rest[len..];
    }
    ChainEnd(b, k);
  }

  lemma ChainNext(mac: seq<Byte>, data: seq<Byte>, k: seq<Word>)
    requires data != []
    ensures var len := if |data| < 8 then |data| else 8;
      Chain(mac, data, k) == Chain(Encipher(Absorb(mac, data[..len]), k), data[len..], k)
  {
    hide Encipher, Absorb;
    if |data| <= 8 { assert data[..|data|] == data; }
  }

  lemma ChainEnd(mac: seq<Byte>, k: seq<Word>)
    ensures Chain(mac, [], k) == mac
  {}

  // ----- what the MAC tells apart -----

  lemma AbsorbInjective(m: seq<Byte>, n: seq<Byte>, c: seq<Byte>, d: seq<Byte>)
    requires |m| == |n| && |c| == |d| <= |m| && Absorb(m, c) == Absorb(n, d)
    ensures (c == d ==> m == n) && (m == n ==> c == d)
  {
    hide Absorb, XorByte;
    forall j | 0 <= j < |m| ensures ((j < |c| ==> c[j] == d[j]) ==> m[j] == n[j])
                                    && (j < |c| && m[j] == n[j] ==> c[j] == d[j])
    {
      assert Absorb(m, c)[j] == Absorb(n, d)[j];
      if j < |c| {
        XorInjective(m[j], n[j], c[j]);
        XorInjective(c[j], d[j], m[j]);
      }
    }
  }

  /** Chaining over the same data tells different states apart. */
  lemma {:induction false} ChainInjective(m: seq<Byte>, n: seq<Byte>, data: seq<Byte>, k: seq<Word>)
    requires |m| == |n| == 8 && Chain(m, data, k) == Chain(n, data, k)
    ensures m == n
    decreases |data|
  {
    hide Encipher, Absorb, Chain;
    if data == [] {
      ChainEnd(m, k);
      ChainEnd(n, k);
    } else {
      var len := if |data| < 8 then |data| else 8;
      var c := data[..len];
      ChainNext(m, data, k);
      ChainNext(n, data, k);
      ChainInjective(Encipher(Absorb(m, c), k), Encipher(Absorb(n, c), k), data[len..], k);
      EncipherInjective(Absorb(m, c), Absorb(n, c), k);
      AbsorbInjective(m, n, c, c);
    }
  }

  /** Data of the same length that differ in block i and nowhere else. */
  predicate DifferInBlock(a: seq<Byte>, b: seq<Byte>, i: nat) {
    |a| == |b| && a != b && forall j :: 0 <= j < |a| && j / 8 != i ==> a[j] == b[j]
  }

  lemma {:induction false} ChainTells(m: seq<Byte>, a: seq<Byte>, b: seq<Byte>, i: nat, k: seq<Word>)
    requires |m| == 8 && DifferInBlock(a, b, i)
    ensures Chain(m, a, k) != Chain(m, b, k)
    decreases |a|
  {
    hide Encipher, Absorb, Chain;
    var len := if |a| < 8 then |a| else 8;
    ChainNext(m, a, k);
    ChainNext(m, b, k);
    var c, d := a[..len], b[..len];
    assert a == c + a[len..] && b == d + b[len..];
    if i == 0 {
      forall j | 0 <= j < |a| - len ensures a[len..][j] == b[len..][j] {
        assert a[len + j] == b[len + j];
      }
      assert a[len..] == b[len..];
      if Chain(m, a, k) == Chain(m, b, k) {
        ChainInjective(Encipher(Absorb(m, c), k), Encipher(Absorb(m, d), k), a[len..], k);
        EncipherInjective(Absorb(m, c), Absorb(m, d), k);
        AbsorbInjective(m, m, c, d);
      }
    } else {
      assert c == d;
      forall j | 0 <= j < |a| - len && j / 8 != i - 1 ensures a[len..][j] == b[len..][j] {
        assert (j + 8) / 8 == j / 8 + 1;
        assert a[len + j] == b[len + j];
      }
      ChainTells(Encipher(Absorb(m, c), k), a[len..], b[len..], i - 1, k);
    }
  }

  /** Data that differ in one block, a short last one included, have different MACs. */
  lemma MacTellsBlock(a: seq<Byte>, b: seq<Byte>, i: nat, k: seq<Word>)
    requires DifferInBlock(a, b, i)
    ensures CbcMac(a, k) != CbcMac(b, k)
  {
    hide Encipher, Chain;
    ChainTells(Encipher(IntToChars(CLEAR) + IntToChars(Bits(|a|, 32)), k), a, b, i, k);
  }

  /** Data with zeros up to a whole number of blocks. */
  function Padded(data: seq<Byte>): seq<Byte> { data + Nuls((8 - |data| % 8) % 8) }

  lemma {:induction false} NulsAt(n: nat)
    ensures forall j :: 0 <= j < n ==> Nuls(n)[j] == NUL
  {
    if n != 0 {
      NulsAt(n - 1);
    }
  }

  lemma PaddedShort(data: seq<Byte>)
    requires 0 < |data| < 8
    ensures |Padded(data)| == 8 && Padded(data)[..|data|] == data
    ensures forall j :: |data| <= j < 8 ==> Padded(data)[j] == NUL
  {
    NulsAt((8 - |data| % 8) % 8);
  }

  lemma PaddedLong(data: seq<Byte>)
    requires |data| >= 8
    ensures |Padded(data)| >= 8 && Padded(data)[..8] == data[..8] && Padded(data)[8..] == Padded(data[8..])
  {
    hide Nuls;
    assert (|data| - 8) % 8 == |data| % 8;
  }

  lemma {:induction false} ChainPadded(m: seq<Byte>, data: seq<Byte>, k: seq<Word>)
    requires |m| == 8
    ensures Chain(m, Padded(data), k) == Chain(m, data, k)
    decreases |data|
  {
    hide Encipher, Absorb, Chain, Padded;
    var p := Padded(data);
    if data == [] {
      PaddedEmpty();
    } else if |data| < 8 {
      PaddedShort(data);
      ChainNext(m, data, k);
      ChainNext(m, p, k);
      assert p[..8] == p && data[..|data|] == data && p[8..] == [] == data[|data|..];
      AbsorbPadded(m, data, p);
    } else {
      PaddedLong(data);
      ChainNext(m, data, k);
      ChainNext(m, p, k);
      ChainPadded(Encipher(Absorb(m, data[..8]), k), data[8..], k);
    }
  }

  lemma PaddedEmpty()
    ensures Padded([]) == []
  {}

  lemma AbsorbPadded(m: seq<Byte>, data: seq<Byte>, p: seq<Byte>)
    requires |m| == |p| == 8 && |data| <= 8 && p[..|data|] == data && forall j :: |data| <= j < 8 ==> p[j] == NUL
    ensures Absorb(m, p) == Absorb(m, data)
  {
    var a, b := Absorb(m, p), Absorb(m, data);
    forall j | 0 <= j < 8 ensures a[j] == b[j] {
      if j < |data| { assert p[..|data|][j] == p[j]; }
    }
  }

  /** Data that only the number of zeros at the end tells apart have different MACs, thanks to the length block. */
  lemma MacTellsLength(a: seq<Byte>, b: seq<Byte>, k: seq<Word>)
    requires |a| != |b| && |a| < 0x1_0000_0000 && |b| < 0x1_0000_0000 && Padded(a) == Padded(b)
    ensures CbcMac(a, k) != CbcMac(b, k)
  {
    hide Encipher, Chain, IntToChars, Bits, Padded;
    if CbcMac(a, k) == CbcMac(b, k) {
      var u, v := IntToChars(CLEAR) + IntToChars(Bits(|a|, 32)), IntToChars(CLEAR) + IntToChars(Bits(|b|, 32));
      ChainPadded(Encipher(u, k), a, k);
      ChainPadded(Encipher(v, k), b, k);
      ChainInjective(Encipher(u, k), Encipher(v, k), Padded(a), k);
      EncipherInjective(u, v, k);
      assert u[4..] == IntToChars(Bits(|a|, 32)) && v[4..] == IntToChars(Bits(|b|, 32));
      CharsRoundTrip(Bits(|a|, 32));
      CharsRoundTrip(Bits(|b|, 32));
      BitsInjective(|a|, |b|);
    }
  }

  // ----- key derivation -----

  /** Davies-Meyer over blocks of 16 bytes. */
  function DaviesMeyer(h: seq<Byte>, input: seq<Byte>): (r: seq<Byte>)
    ensures |h| == 8 ==> |r| == 8
    decreases |input|
  {
    if |input| < 16 then h else DaviesMeyer(Absorb(h, Encipher(h, KeyWords(input[..16]))), input[16..])
  }

  /** XTEA_davies_meyer. */
  method XteaDaviesMeyer(input: seq<Byte>) returns (out: seq<Byte>)
    requires |input| % 16 == 0
    ensures |out| == 8 && out == DaviesMeyer(Nuls(8), input)
  {
    hide Encipher, KeyWords;
    out := Nuls(8);
    var rest := input;
    var buf := new Byte[8];
    while rest != []
      invariant |out| == 8 && |rest| % 16 == 0 && DaviesMeyer(out, rest) == DaviesMeyer(Nuls(8), input)
      decreases |rest|
    {
      var k := KeyWords(rest[..16]);
      forall j | 0 <= j < 8 { buf[j] := out[j]; }
      assert buf[0..8] == out;
      EncipherBlock(buf, 0, k);
      assert buf[..] == Encipher(out, k);
      out := Absorb(out, buf[..]);
      rest := rest[16..];
    }
  }

  /** A byte with a value below four. */
  function SmallByte(n: nat): Byte { NUL.(b0 := n % 2 == 1, b1 := n / 2 % 2 == 1) }

  /** The hashed buffer: three coordinates, a counter byte, and zeros up to five blocks. */
  function KdfBuffer(z: seq<Word>, rx: seq<Word>, ry: seq<Word>, c: Byte): (s: seq<Byte>)
    requires |z| == |rx| == |ry| == WORDS
    ensures |s| == 80
  {
    Export(z) + Export(rx) + Export(ry) + [c] + [NUL, NUL, NUL, NUL, NUL, NUL, NUL]
  }

  /** Every coordinate and the counter go into what is hashed: the four inputs of one exchange differ from each other
      and from those of any other exchange. */
  lemma KdfBufferTells(z: seq<Word>, rx: seq<Word>, ry: seq<Word>, m: nat, z': seq<Word>, rx': seq<Word>,
                       ry': seq<Word>,
                       n: nat)
    requires |z| == |rx| == |ry| == |z'| == |rx'| == |ry'| == WORDS && m < 4 && n < 4
    requires KdfBuffer(z, rx, ry, SmallByte(m)) == KdfBuffer(z', rx', ry', SmallByte(n))
    ensures z == z' && rx == rx' && ry == ry' && m == n
  {
    hide Export, Import;
    var b, b' := KdfBuffer(z, rx, ry, SmallByte(m)), KdfBuffer(z', rx', ry', SmallByte(n));
    assert b[..24] == Export(z) && b'[..24] == Export(z');
    assert b[24..48] == Export(rx) && b'[24..48] == Export(rx');
    assert b[48..72] == Export(ry) && b'[48..72] == Export(ry');
    assert b[72] == SmallByte(m) && b'[72] == SmallByte(n);
    ExportTells(z, z');
    ExportTells(rx, rx');
    ExportTells(ry, ry');
  }

  lemma ExportTells(x: seq<Word>, y: seq<Word>)
    requires |x| == |y| && Export(x) == Export(y)
    ensures x == y
  {
    ExportImport(x);
    ExportImport(y);
  }

  /** Half a derived key. */
  function KeyHalf(z: seq<Word>, rx: seq<Word>, ry: seq<Word>, n: nat): (r: seq<Byte>)
    requires |z| == |rx| == |ry| == WORDS
    ensures |r| == 8
  {
    DaviesMeyer(Nuls(8), KdfBuffer(z, rx, ry, SmallByte(n)))
  }

  /** The two keys: n is 0 for the cipher, 2 for the MAC. */
  function DerivedKey(z: seq<Word>, rx: seq<Word>, ry: seq<Word>, n: nat): (r: seq<Byte>)
    requires |z| == |rx| == |ry| == WORDS
    ensures |r| == 16
  {
    KeyHalf(z, rx, ry, n) + KeyHalf(z, rx, ry, n + 1)
  }

  /** ECIES_kdf. */
  method Kdf(z: seq<Word>, rx: seq<Word>, ry: seq<Word>) returns (k1: seq<Byte>, k2: seq<Byte>)
    requires |z| == |rx| == |ry| == WORDS
    ensures k1 == DerivedKey(z, rx, ry, 0) && k2 == DerivedKey(z, rx, ry, 2)
  {
    hide DaviesMeyer, KdfBuffer;
    var a := XteaDaviesMeyer(KdfBuffer(z, rx, ry, SmallByte(0)));
    var b := XteaDaviesMeyer(KdfBuffer(z, rx, ry, SmallByte(1)));
    var c := XteaDaviesMeyer(KdfBuffer(z, rx, ry, SmallByte(2)));
    var d := XteaDaviesMeyer(KdfBuffer(z, rx, ry, SmallByte(3)));
    return a + b, c + d;
  }

  /** The whole message: the ephemeral point, the encrypted text and its MAC. */
  function Sealed(z: seq<Word>, rx: seq<Word>, ry: seq<Word>, text: seq<Byte>): (m: seq<Byte>)
    requires |z| == |rx| == |ry| == WORDS
    ensures |m| == 48 + |text| + 8
  {
    var c := Ctr(KeyWords(DerivedKey(z, rx, ry, 0)), text);
    Export(rx) + Export(ry) + c + CbcMac(c, KeyWords(DerivedKey(z, rx, ry, 2)))
  }
}
