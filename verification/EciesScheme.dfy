/** Encryption and decryption on top of the curve and the cipher, and the proof that the second
    undoes the first. */
module EciesScheme {
  import opened Gf2Poly
  import opened Gf2Field
  import opened Gf2Curve
  import opened EciesWords
  import opened Words
  import opened EciesCipher
  import opened Ecies

  // ----- vectors of a polynomial -----

  function WordAt(p: Poly, j: nat): (w: Word)
    ensures forall i :: 0 <= i < 32 ==> w[i] == (32 * j + i in p)
  {
    seq(32, i requires 0 <= i < 32 => 32 * j + i in p)
  }

  /** The bit vector that holds a polynomial. */
  function WordsOf(p: Poly): (s: seq<Word>)
    ensures |s| == WORDS
  {
    [WordAt(p, 0), WordAt(p, 1), WordAt(p, 2), WordAt(p, 3), WordAt(p, 4), WordAt(p, 5)]
  }

  lemma WordsOfPoly(s: seq<Word>)
    requires |s| == WORDS
    ensures WordsOf(PolyOf(s)) == s
  {
    hide PolyOf, GetBit;
    var t := WordsOf(PolyOf(s));
    forall j | 0 <= j < WORDS ensures t[j] == s[j] {
      forall i | 0 <= i < 32 ensures t[j][i] == s[j][i] {
        GetBitAt(s, j, i);
        InPoly(s, 32 * j + i);
        assert t[j] == WordAt(PolyOf(s), j);
      }
    }
  }

  // ----- what the two ends compute -----

  /** The shared point: the multiple, doubled for the cofactor. */
  ghost function Shared(k: nat, p: Point): Point { Double(Times(k, p)) }

  ghost function PointOf(msg: seq<Byte>): Point
    requires |msg| >= 48
  {
    Point(PolyOf(Import(msg[..24], WORDS)), PolyOf(Import(msg[24..48], WORDS)))
  }

  ghost function SharedKey(msg: seq<Byte>, d: nat, n: nat): (key: seq<Byte>)
    requires |msg| >= 48
    ensures |key| == 16
  {
    DerivedKey(WordsOf(Shared(d, PointOf(msg)).x), Import(msg[..24], WORDS), Import(msg[24..48], WORDS), n)
  }

  ghost predicate ValidPoint(b: Poly, p: Point) { ReducedPoint(p) && p != O && OnCurve(b, p) }

  /** The checks decryption makes. */
  ghost predicate Accepted(b: Poly, msg: seq<Byte>, d: nat, len: nat)
    requires |msg| >= 48 + len + 8
  {
    && ValidPoint(b, PointOf(msg)) && Shared(d, PointOf(msg)) != O
    && msg[48 + len..48 + len + 8] == CbcMac(msg[48..48 + len], KeyWords(SharedKey(msg, d, 2)))
  }

  ghost function Opened(msg: seq<Byte>, d: nat, len: nat): seq<Byte>
    requires |msg| >= 48 + len
  {
    Ctr(KeyWords(SharedKey(msg, d, 0)), msg[48..48 + len])
  }

  /** The message for a text: ephemeral exponent k, public point p, base point g. */
  ghost function MessageFor(k: nat, p: Point, g: Point, text: seq<Byte>): (m: seq<Byte>)
    ensures |m| == 48 + |text| + 8
  {
    var r := Times(k, g);
    Sealed(WordsOf(Shared(k, p).x), WordsOf(r.x), WordsOf(r.y), text)
  }

  lemma Slices(a: seq<Byte>, b: seq<Byte>, c: seq<Byte>, d: seq<Byte>, m: seq<Byte>)
    requires |a| == |b| == 24 && |d| == 8 && m == a + b + c + d
    ensures m[..24] == a && m[24..48] == b && m[48..48 + |c|] == c && m[48 + |c|..48 + |c| + 8] == d
  {}

  lemma SealedParts(rx: seq<Word>, ry: seq<Word>, c: seq<Byte>, mac: seq<Byte>, m: seq<Byte>)
    requires |rx| == |ry| == WORDS && |mac| == 8 && m == Export(rx) + Export(ry) + c + mac
    ensures m[48..48 + |c|] == c && m[48 + |c|..48 + |c| + 8] == mac
    ensures Import(m[..24], WORDS) == rx && Import(m[24..48], WORDS) == ry
  {
    hide Export, Import;
    ExportImport(rx);
    ExportImport(ry);
    Slices(Export(rx), Export(ry), c, mac, m);
  }

  lemma PolyOfWords(p: Poly)
    requires Reduced(p)
    ensures PolyOf(WordsOf(p)) == p
  {
    hide PolyOf, GetBit;
    var s := WordsOf(p);
    forall k: nat ensures k in PolyOf(s) <==> k in p {
      InPoly(s, k);
      if k < BITS {
        var j, i := k / 32, k % 32;
        assert k == 32 * j + i;
        GetBitAt(s, j, i);
        assert s[j] == WordAt(p, j);
      } else {
        NoBit(s, k);
      }
    }
  }

  /** Whoever holds d with public point d g accepts the message for it and reads the text. */
  lemma MessageOpens(b: Poly, d: nat, k: nat, g: Point, text: seq<Byte>)
    requires Irreducible() && Associative(b) && Reduced(b) && OnCurve(b, g) && Shared(k, Times(d, g)) != O
    ensures var m := MessageFor(k, Times(d, g), g, text);
      Accepted(b, m, d, |text|) && Opened(m, d, |text|) == text
  {
    hide OnCurve, Times, Double, Irreducible, Associative, Ctr, KeyWords, DerivedKey, CbcMac, Import, Export,
         WordsOf, PolyOf, Reduced;
    var r, p := Times(k, g), Times(d, g);
    var m := MessageFor(k, p, g, text);
    var z := WordsOf(Shared(k, p).x);
    TimesOnCurve(b, k, g);
    OnCurveReduced(b, r);
    MultiplesCommute(b, d, k, g);
    ghost var c := Ctr(KeyWords(DerivedKey(z, WordsOf(r.x), WordsOf(r.y), 0)), text);
    SealedParts(WordsOf(r.x), WordsOf(r.y), c, CbcMac(c, KeyWords(DerivedKey(z, WordsOf(r.x), WordsOf(r.y), 2))), m);
    PolyOfWords(r.x);
    PolyOfWords(r.y);
    if r == O {
      TimesInfinity(d);
      DoubleInfinity();
    }
    CtrTwice(KeyWords(SharedKey(m, d, 0)), text);
  }

  /** A message that was accepted is refused after a change within one block of its ciphertext. */
  lemma TamperedRefused(b: Poly, msg: seq<Byte>, forged: seq<Byte>, d: nat, len: nat, i: nat)
    requires |msg| == |forged| && |msg| >= 48 + len + 8 && Accepted(b, msg, d, len)
    requires forged[..48] == msg[..48] && forged[48 + len..] == msg[48 + len..]
    requires DifferInBlock(msg[48..48 + len], forged[48..48 + len], i)
    ensures !Accepted(b, forged, d, len)
  {
    hide OnCurve, Times, Double, KeyWords, DerivedKey, CbcMac, Import, WordsOf, PolyOf, Reduced, DifferInBlock;
    assert forged[..24] == forged[..48][..24] && msg[..24] == msg[..48][..24];
    assert forged[24..48] == forged[..48][24..] && msg[24..48] == msg[..48][24..];
    assert forged[48 + len..48 + len + 8] == forged[48 + len..][..8] && msg[48 + len..48 + len + 8]
        == msg[48 + len..][..8];
    MacTellsBlock(msg[48..48 + len], forged[48..48 + len], i, KeyWords(SharedKey(msg, d, 2)));
  }

  lemma OnCurveReduced(b: Poly, p: Point)
    requires OnCurve(b, p)
    ensures ReducedPoint(p)
  {}

  lemma DoubleInfinity()
    ensures Double(O) == O
  {}

  // ----- the operations -----

  /** ECIES_embedded_public_key_validation. */
  method EmbeddedPublicKeyValidation(c: Curve, x: array<Word>, y: array<Word>) returns (r: int)
    requires c.Valid() && x.Length == y.Length == WORDS
    ensures r == if ValidPoint(c.B(), At(x, y)) then 1 else -1
  {
    hide PolyOf, Irreducible, POLY, OnCurve, Reduced;
    var sx := BitstrSizeInBits(x);
    var sy := BitstrSizeInBits(y);
    SizeReduced(Value(x));
    SizeReduced(Value(y));
    if sx > DEGREE || sy > DEGREE {
      return -1;
    }
    var zero := c.PointIsZero(x, y);
    if zero {
      return -1;
    }
    var on := c.IsPointOnCurve(x, y);
    return if on then 1 else -1;
  }

  lemma SizeReduced(p: Poly)
    ensures Reduced(p) <==> Size(p) <= DEGREE
  {
    if Reduced(p) { SizeBound(p, DEGREE); }
  }

  /** point_mult followed by the cofactor doubling. */
  method SharedPoint(c: Curve, x: array<Word>, y: array<Word>, exp: array<Word>)
    requires c.Valid() && IsPair(x, y) && exp.Length == WORDS && {x, y} !! (c.Consts() + {exp})
    requires Associative(c.B()) && OnCurve(c.B(), At(x, y))
    modifies x, y
    ensures At(x, y) == Shared(Number(Value(exp)), old(At(x, y)))
  {
    hide PolyOf, Irreducible, POLY, OnCurve, Reduced, Associative, Times, Double;
    c.PointMult(x, y, exp);
    OnCurveReduced(c.B(), At(x, y));
    c.PointDouble(x, y);
  }

  /** ECIES_encryption for one draw of the exponent k; ok is false when the original would draw again. */
  method Encryption(c: Curve, msg: array<Byte>, text: seq<Byte>, px: array<Word>, py: array<Word>,
                    baseX: array<Word>, baseY: array<Word>, k: array<Word>)
    returns (ok: bool)
    requires c.Valid() && Associative(c.B()) && msg.Length >= 48 + |text| + 8
    requires px.Length == py.Length == baseX.Length == baseY.Length == k.Length == WORDS
    requires OnCurve(c.B(), At(px, py)) && OnCurve(c.B(), At(baseX, baseY))
    modifies msg
    ensures ok <==> Shared(Number(Value(k)), At(px, py)) != O
    ensures ok ==> msg[..48 + |text| + 8] == MessageFor(Number(Value(k)), At(px, py), At(baseX, baseY), text)
  {
    hide PolyOf, Irreducible, POLY, OnCurve, Reduced, Associative, Times, Double, Ctr, KeyWords, DerivedKey, CbcMac,
         Export, WordsOf, Number;
    var zx, zy, rx, ry := new Word[WORDS], new Word[WORDS], new Word[WORDS], new Word[WORDS];
    Copy(zx, px);
    Copy(zy, py);
    SharedPoint(c, zx, zy, k);
    var zero := c.PointIsZero(zx, zy);
    if zero {
      return false;
    }
    Copy(rx, baseX);
    Copy(ry, baseY);
    ghost var z := zx[..];
    c.PointMult(rx, ry, k);
    assert zx[..] == z;
    WordsOfPoly(zx[..]);
    WordsOfPoly(rx[..]);
    WordsOfPoly(ry[..]);
    WriteMessage(msg, zx[..], rx[..], ry[..], text);
    return true;
  }

  /** The second half of ECIES_encryption: derives the keys and fills the buffer. */
  method WriteMessage(msg: array<Byte>, z: seq<Word>, rx: seq<Word>, ry: seq<Word>, text: seq<Byte>)
    requires |z| == |rx| == |ry| == WORDS && msg.Length >= 48 + |text| + 8
    modifies msg
    ensures msg[..48 + |text| + 8] == Sealed(z, rx, ry, text)
  {
    hide Ctr, KeyWords, DerivedKey, CbcMac, Export;
    var k1, k2 := Kdf(z, rx, ry);
    var n := |text|;
    var head := Export(rx) + Export(ry);
    forall j | 0 <= j < 48 { msg[j] := head[j]; }
    forall j | 0 <= j < n { msg[48 + j] := text[j]; }
    assert msg[..48] == head && msg[48..48 + n] == text;
    CtrCrypt(msg, 48, n, k1);
    ghost var ct := Ctr(KeyWords(k1), text);
    assert msg[..48] == head && msg[48..48 + n] == ct;
    XteaCbcMac(msg, 48 + n, msg[48..48 + n], k2);
    assert msg[..48 + n] == head + ct;
    assert msg[48 + n..48 + n + 8] == CbcMac(ct, KeyWords(k2));
    assert msg[..48 + n + 8] == msg[..48 + n] + msg[48 + n..48 + n + 8];
  }

  /** bitstr_import into a vector. */
  method BitstrImport(x: array<Word>, s: seq<Byte>)
    requires x.Length == WORDS && |s| == 24
    modifies x
    ensures x[..] == Import(s, WORDS)
  {
    hide CharsToInt;
    var i := 0;
    while i < WORDS
      invariant 0 <= i <= WORDS
      invariant Import(s, WORDS) == Import(s[4 * i..], WORDS - i) + x[WORDS - i..]
    {
      x[WORDS - 1 - i] := CharsToInt(s[4 * i..4 * i + 4]);
      ImportNext(s[4 * i..], WORDS - i);
      assert s[4 * i..][4..] == s[4 * (i + 1)..] && s[4 * i..][..4] == s[4 * i..4 * i + 4];
      i := i + 1;
    }
  }

  lemma ImportNext(s: seq<Byte>, n: nat)
    requires |s| == 4 * n && n > 0
    ensures Import(s, n) == Import(s[4..], n - 1) + [CharsToInt(s[..4])]
  {
    hide CharsToInt;
  }

  /** ECIES_decryption: 1 and the text, or -1 with the text buffer untouched. */
  method Decryption(c: Curve, text: array<Byte>, msg: seq<Byte>, len: nat, d: array<Word>) returns (r: int)
    requires c.Valid() && Associative(c.B()) && d.Length == WORDS && text.Length >= len && |msg| >= 48 + len + 8
    modifies text
    ensures r == if Accepted(c.B(), msg, Number(Value(d)), len) then 1 else -1
    ensures text[..] == if r == 1 then Opened(msg, Number(Value(d)), len) + old(text[len..]) else old(text[..])
  {
    hide PolyOf, Irreducible, POLY, OnCurve, Reduced, Associative, Times, Double, Ctr, KeyWords, DerivedKey, CbcMac,
         Import, WordsOf, Number;
    var rx, ry, zx, zy := new Word[WORDS], new Word[WORDS], new Word[WORDS], new Word[WORDS];
    BitstrImport(rx, msg[..24]);
    BitstrImport(ry, msg[24..48]);
    assert rx[..] == Import(msg[..24], WORDS);
    var valid := EmbeddedPublicKeyValidation(c, rx, ry);
    if valid < 0 {
      return -1;
    }
    ghost var wx, wy := rx[..], ry[..];
    Copy(zx, rx);
    Copy(zy, ry);
    SharedPoint(c, zx, zy, d);
    var zero := c.PointIsZero(zx, zy);
    if zero {
      return -1;
    }
    assert rx[..] == wx && ry[..] == wy;
    WordsOfPoly(zx[..]);
    r := OpenMessage(text, msg, len, zx[..], rx[..], ry[..]);
  }

  /** The second half of ECIES_decryption: checks the MAC and decrypts. */
  method OpenMessage(text: array<Byte>, msg: seq<Byte>, len: nat, z: seq<Word>, rx: seq<Word>, ry: seq<Word>)
    returns (r: int)
    requires text.Length >= len && |msg| >= 48 + len + 8 && |z| == |rx| == |ry| == WORDS
    modifies text
    ensures r == if msg[48 + len..48 + len + 8] == CbcMac(msg[48..48 + len], KeyWords(DerivedKey(z, rx, ry, 2)))
            then 1 else -1
    ensures text[..] == if r == 1 then Ctr(KeyWords(DerivedKey(z, rx, ry, 0)), msg[48..48 + len]) + old(text[len..])
            else old(text[..])
  {
    hide Ctr, KeyWords, DerivedKey, CbcMac;
    var k1, k2 := Kdf(z, rx, ry);
    var mac := new Byte[8];
    XteaCbcMac(mac, 0, msg[48..48 + len], k2);
    assert mac[..] == CbcMac(msg[48..48 + len], KeyWords(k2));
    if mac[..] != msg[48 + len..48 + len + 8] {
      return -1;
    }
    forall j | 0 <= j < len { text[j] := msg[48 + j]; }
    assert text[0..len] == msg[48..48 + len] && text[..0] == [];
    CtrCrypt(text, 0, len, k1);
    return 1;
  }

  /** Encrypting to the public point d G and decrypting with d returns the text, for every text. */
  method RoundTrip(c: Curve, text: seq<Byte>, px: array<Word>, py: array<Word>, baseX: array<Word>, baseY: array<Word>,
                   k: array<Word>, d: array<Word>)
    returns (ok: bool, r: int, out: array<Byte>)
    requires c.Valid() && Associative(c.B())
    requires px.Length == py.Length == baseX.Length == baseY.Length == k.Length == d.Length == WORDS
    requires OnCurve(c.B(), At(baseX, baseY)) && At(px, py) == Times(Number(Value(d)), At(baseX, baseY))
    ensures ok <==> Shared(Number(Value(k)), At(px, py)) != O
    ensures ok ==> r == 1 && out[..] == text
  {
    hide PolyOf, Irreducible, POLY, OnCurve, Reduced, Associative, Times, Double, WordsOf, Number, Shared,
         MessageFor, Accepted, Opened;
    var msg := new Byte[48 + |text| + 8];
    out := new Byte[|text|];
    ghost var dn, kn, g := Number(Value(d)), Number(Value(k)), At(baseX, baseY);
    TimesOnCurve(c.B(), dn, g);
    ok := Encryption(c, msg, text, px, py, baseX, baseY, k);
    if ok {
      MessageOpens(c.B(), dn, kn, g, text);
      assert msg[..] == msg[..48 + |text| + 8];
      r := Decryption(c, out, msg[..], |text|, d);
    } else {
      r := -1;
    }
  }
}
