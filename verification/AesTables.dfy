/** The two substitution tables. */
module AesTables {
  /** Entry c of a table row. */
  function Pick(c: nat, x0: nat, x1: nat, x2: nat, x3: nat, x4: nat, x5: nat, x6: nat, x7: nat,
                x8: nat, x9: nat, x10: nat, x11: nat, x12: nat, x13: nat, x14: nat, x15: nat): nat {
    match c
    case 0 => x0 case 1 => x1 case 2 => x2 case 3 => x3
    case 4 => x4 case 5 => x5 case 6 => x6 case 7 => x7
    case 8 => x8 case 9 => x9 case 10 => x10 case 11 => x11
    case 12 => x12 case 13 => x13 case 14 => x14 case _ => x15
  }

  /** aes_sbox: entry c of row r. */
  function SboxRow(r: nat, c: nat): nat {
    match r
    case 0 => Pick(c, 0x63, 0x7c, 0x77, 0x7b, 0xf2, 0x6b, 0x6f, 0xc5, 0x30, 0x01, 0x67, 0x2b, 0xfe, 0xd7, 0xab, 0x76)
    case 1 => Pick(c, 0xca, 0x82, 0xc9, 0x7d, 0xfa, 0x59, 0x47, 0xf0, 0xad, 0xd4, 0xa2, 0xaf, 0x9c, 0xa4, 0x72, 0xc0)
    case 2 => Pick(c, 0xb7, 0xfd, 0x93, 0x26, 0x36, 0x3f, 0xf7, 0xcc, 0x34, 0xa5, 0xe5, 0xf1, 0x71, 0xd8, 0x31, 0x15)
    case 3 => Pick(c, 0x04, 0xc7, 0x23, 0xc3, 0x18, 0x96, 0x05, 0x9a, 0x07, 0x12, 0x80, 0xe2, 0xeb, 0x27, 0xb2, 0x75)
    case 4 => Pick(c, 0x09, 0x83, 0x2c, 0x1a, 0x1b, 0x6e, 0x5a, 0xa0, 0x52, 0x3b, 0xd6, 0xb3, 0x29, 0xe3, 0x2f, 0x84)
    case 5 => Pick(c, 0x53, 0xd1, 0x00, 0xed, 0x20, 0xfc, 0xb1, 0x5b, 0x6a, 0xcb, 0xbe, 0x39, 0x4a, 0x4c, 0x58, 0xcf)
    case 6 => Pick(c, 0xd0, 0xef, 0xaa, 0xfb, 0x43, 0x4d, 0x33, 0x85, 0x45, 0xf9, 0x02, 0x7f, 0x50, 0x3c, 0x9f, 0xa8)
    case 7 => Pick(c, 0x51, 0xa3, 0x40, 0x8f, 0x92, 0x9d, 0x38, 0xf5, 0xbc, 0xb6, 0xda, 0x21, 0x10, 0xff, 0xf3, 0xd2)
    case 8 => Pick(c, 0xcd, 0x0c, 0x13, 0xec, 0x5f, 0x97, 0x44, 0x17, 0xc4, 0xa7, 0x7e, 0x3d, 0x64, 0x5d, 0x19, 0x73)
    case 9 => Pick(c, 0x60, 0x81, 0x4f, 0xdc, 0x22, 0x2a, 0x90, 0x88, 0x46, 0xee, 0xb8, 0x14, 0xde, 0x5e, 0x0b, 0xdb)
    case 10 => Pick(c, 0xe0, 0x32, 0x3a, 0x0a, 0x49, 0x06, 0x24, 0x5c, 0xc2, 0xd3, 0xac, 0x62, 0x91, 0x95, 0xe4, 0x79)
    case 11 => Pick(c, 0xe7, 0xc8, 0x37, 0x6d, 0x8d, 0xd5, 0x4e, 0xa9, 0x6c, 0x56, 0xf4, 0xea, 0x65, 0x7a, 0xae, 0x08)
    case 12 => Pick(c, 0xba, 0x78, 0x25, 0x2e, 0x1c, 0xa6, 0xb4, 0xc6, 0xe8, 0xdd, 0x74, 0x1f, 0x4b, 0xbd, 0x8b, 0x8a)
    case 13 => Pick(c, 0x70, 0x3e, 0xb5, 0x66, 0x48, 0x03, 0xf6, 0x0e, 0x61, 0x35, 0x57, 0xb9, 0x86, 0xc1, 0x1d, 0x9e)
    case 14 => Pick(c, 0xe1, 0xf8, 0x98, 0x11, 0x69, 0xd9, 0x8e, 0x94, 0x9b, 0x1e, 0x87, 0xe9, 0xce, 0x55, 0x28, 0xdf)
    case _ => Pick(c, 0x8c, 0xa1, 0x89, 0x0d, 0xbf, 0xe6, 0x42, 0x68, 0x41, 0x99, 0x2d, 0x0f, 0xb0, 0x54, 0xbb, 0x16)
  }

  /** aes_invsbox: entry c of row r. */
  function InvSboxRow(r: nat, c: nat): nat {
    match r
    case 0 => Pick(c, 0x52, 0x09, 0x6a, 0xd5, 0x30, 0x36, 0xa5, 0x38, 0xbf, 0x40, 0xa3, 0x9e, 0x81, 0xf3, 0xd7, 0xfb)
    case 1 => Pick(c, 0x7c, 0xe3, 0x39, 0x82, 0x9b, 0x2f, 0xff, 0x87, 0x34, 0x8e, 0x43, 0x44, 0xc4, 0xde, 0xe9, 0xcb)
    case 2 => Pick(c, 0x54, 0x7b, 0x94, 0x32, 0xa6, 0xc2, 0x23, 0x3d, 0xee, 0x4c, 0x95, 0x0b, 0x42, 0xfa, 0xc3, 0x4e)
    case 3 => Pick(c, 0x08, 0x2e, 0xa1, 0x66, 0x28, 0xd9, 0x24, 0xb2, 0x76, 0x5b, 0xa2, 0x49, 0x6d, 0x8b, 0xd1, 0x25)
    case 4 => Pick(c, 0x72, 0xf8, 0xf6, 0x64, 0x86, 0x68, 0x98, 0x16, 0xd4, 0xa4, 0x5c, 0xcc, 0x5d, 0x65, 0xb6, 0x92)
    case 5 => Pick(c, 0x6c, 0x70, 0x48, 0x50, 0xfd, 0xed, 0xb9, 0xda, 0x5e, 0x15, 0x46, 0x57, 0xa7, 0x8d, 0x9d, 0x84)
    case 6 => Pick(c, 0x90, 0xd8, 0xab, 0x00, 0x8c, 0xbc, 0xd3, 0x0a, 0xf7, 0xe4, 0x58, 0x05, 0xb8, 0xb3, 0x45, 0x06)
    case 7 => Pick(c, 0xd0, 0x2c, 0x1e, 0x8f, 0xca, 0x3f, 0x0f, 0x02, 0xc1, 0xaf, 0xbd, 0x03, 0x01, 0x13, 0x8a, 0x6b)
    case 8 => Pick(c, 0x3a, 0x91, 0x11, 0x41, 0x4f, 0x67, 0xdc, 0xea, 0x97, 0xf2, 0xcf, 0xce, 0xf0, 0xb4, 0xe6, 0x73)
    case 9 => Pick(c, 0x96, 0xac, 0x74, 0x22, 0xe7, 0xad, 0x35, 0x85, 0xe2, 0xf9, 0x37, 0xe8, 0x1c, 0x75, 0xdf, 0x6e)
    case 10 => Pick(c, 0x47, 0xf1, 0x1a, 0x71, 0x1d, 0x29, 0xc5, 0x89, 0x6f, 0xb7, 0x62, 0x0e, 0xaa, 0x18, 0xbe, 0x1b)
    case 11 => Pick(c, 0xfc, 0x56, 0x3e, 0x4b, 0xc6, 0xd2, 0x79, 0x20, 0x9a, 0xdb, 0xc0, 0xfe, 0x78, 0xcd, 0x5a, 0xf4)
    case 12 => Pick(c, 0x1f, 0xdd, 0xa8, 0x33, 0x88, 0x07, 0xc7, 0x31, 0xb1, 0x12, 0x10, 0x59, 0x27, 0x80, 0xec, 0x5f)
    case 13 => Pick(c, 0x60, 0x51, 0x7f, 0xa9, 0x19, 0xb5, 0x4a, 0x0d, 0x2d, 0xe5, 0x7a, 0x9f, 0x93, 0xc9, 0x9c, 0xef)
    case 14 => Pick(c, 0xa0, 0xe0, 0x3b, 0x4d, 0xae, 0x2a, 0xf5, 0xb0, 0xc8, 0xeb, 0xbb, 0x3c, 0x83, 0x53, 0x99, 0x61)
    case _ => Pick(c, 0x17, 0x2b, 0x04, 0x7e, 0xba, 0x77, 0xd6, 0x26, 0xe1, 0x69, 0x14, 0x63, 0x55, 0x21, 0x0c, 0x7d)
  }

  function SboxAt(n: nat): nat { SboxRow(n / 16, n % 16) }

  function InvSboxAt(n: nat): nat { InvSboxRow(n / 16, n % 16) }

  lemma Row0(c: nat)
    requires c < 16
    ensures SboxRow(0, c) < 256 && InvSboxAt(SboxRow(0, c)) == 0 + c
  {}

  lemma Row1(c: nat)
    requires c < 16
    ensures SboxRow(1, c) < 256 && InvSboxAt(SboxRow(1, c)) == 16 + c
  {}

  lemma Row2(c: nat)
    requires c < 16
    ensures SboxRow(2, c) < 256 && InvSboxAt(SboxRow(2, c)) == 32 + c
  {}

  lemma Row3(c: nat)
    requires c < 16
    ensures SboxRow(3, c) < 256 && InvSboxAt(SboxRow(3, c)) == 48 + c
  {}

  lemma Row4(c: nat)
    requires c < 16
    ensures SboxRow(4, c) < 256 && InvSboxAt(SboxRow(4, c)) == 64 + c
  {}

  lemma Row5(c: nat)
    requires c < 16
    ensures SboxRow(5, c) < 256 && InvSboxAt(SboxRow(5, c)) == 80 + c
  {}

  lemma Row6(c: nat)
    requires c < 16
    ensures SboxRow(6, c) < 256 && InvSboxAt(SboxRow(6, c)) == 96 + c
  {}

  lemma Row7(c: nat)
    requires c < 16
    ensures SboxRow(7, c) < 256 && InvSboxAt(SboxRow(7, c)) == 112 + c
  {}

  lemma Row8(c: nat)
    requires c < 16
    ensures SboxRow(8, c) < 256 && InvSboxAt(SboxRow(8, c)) == 128 + c
  {}

  lemma Row9(c: nat)
    requires c < 16
    ensures SboxRow(9, c) < 256 && InvSboxAt(SboxRow(9, c)) == 144 + c
  {}

  lemma Row10(c: nat)
    requires c < 16
    ensures SboxRow(10, c) < 256 && InvSboxAt(SboxRow(10, c)) == 160 + c
  {}

  lemma Row11(c: nat)
    requires c < 16
    ensures SboxRow(11, c) < 256 && InvSboxAt(SboxRow(11, c)) == 176 + c
  {}

  lemma Row12(c: nat)
    requires c < 16
    ensures SboxRow(12, c) < 256 && InvSboxAt(SboxRow(12, c)) == 192 + c
  {}

  lemma Row13(c: nat)
    requires c < 16
    ensures SboxRow(13, c) < 256 && InvSboxAt(SboxRow(13, c)) == 208 + c
  {}

  lemma Row14(c: nat)
    requires c < 16
    ensures SboxRow(14, c) < 256 && InvSboxAt(SboxRow(14, c)) == 224 + c
  {}

  lemma Row15(c: nat)
    requires c < 16
    ensures SboxRow(15, c) < 256 && InvSboxAt(SboxRow(15, c)) == 240 + c
  {}

  /** The inverse table undoes the forward one. */
  lemma TablesInverse(n: nat)
    requires n < 256
    ensures SboxAt(n) < 256 && InvSboxAt(SboxAt(n)) == n
  {
    hide InvSboxAt, SboxRow;
    var c := n % 16;
    match n / 16
    case 0 => Row0(c);
    case 1 => Row1(c);
    case 2 => Row2(c);
    case 3 => Row3(c);
    case 4 => Row4(c);
    case 5 => Row5(c);
    case 6 => Row6(c);
    case 7 => Row7(c);
    case 8 => Row8(c);
    case 9 => Row9(c);
    case 10 => Row10(c);
    case 11 => Row11(c);
    case 12 => Row12(c);
    case 13 => Row13(c);
    case 14 => Row14(c);
    case _ => Row15(c);
  }

  // ----- section 5.1.1 of FIPS 197 -----

  /** The product by x in the field, in eight bits. */
  function Double(b: bv8): bv8 { if b & 0x80 == 0 then b << 1 else (b << 1) ^ 0x1b }

  function Part(a: bv8, m: bv8, b: bv8): bv8 { if a & m == 0 then 0 else b }

  /** The product of section 4.2. */
  function Times(a: bv8, b: bv8): bv8 {
    var b1 := Double(b);
    var b2 := Double(b1);
    var b3 := Double(b2);
    var b4 := Double(b3);
    var b5 := Double(b4);
    var b6 := Double(b5);
    Part(a, 1, b) ^ Part(a, 2, b1) ^ Part(a, 4, b2) ^ Part(a, 8, b3) ^ Part(a, 16, b4) ^ Part(a, 32, b5)
    ^ Part(a, 64, b6) ^ Part(a, 128, Double(b6))
  }

  /** The affine transformation of section 5.1.1. */
  function Affine(x: bv8): bv8 {
    x ^ x.RotateLeft(1) ^ x.RotateLeft(2) ^ x.RotateLeft(3) ^ x.RotateLeft(4) ^ 0x63
  }

  function Unaffine(x: bv8): bv8 { x.RotateLeft(1) ^ x.RotateLeft(3) ^ x.RotateLeft(6) ^ 0x05 }

  lemma AffineUndone(x: bv8)
    ensures Affine(Unaffine(x)) == x
  {}

  /** The affine transformation takes the inverse of b in the field, or 0 if b is 0, to s. */
  predicate Substitutes(b: bv8, s: bv8) {
    if b == 0 then Unaffine(s) == 0 else Times(Unaffine(s), b) == 1
  }

  predicate Listed(b: bv8, s: bv8) { SboxAt(b as nat) == s as nat }

  lemma Listed0Low()
    ensures Listed(0x00, 0x63) && Listed(0x01, 0x7c) && Listed(0x02, 0x77) && Listed(0x03, 0x7b)
    ensures Listed(0x04, 0xf2) && Listed(0x05, 0x6b) && Listed(0x06, 0x6f) && Listed(0x07, 0xc5)
    ensures Listed(0x08, 0x30) && Listed(0x09, 0x01) && Listed(0x0a, 0x67) && Listed(0x0b, 0x2b)
    ensures Listed(0x0c, 0xfe) && Listed(0x0d, 0xd7) && Listed(0x0e, 0xab) && Listed(0x0f, 0x76)
    ensures Listed(0x10, 0xca) && Listed(0x11, 0x82) && Listed(0x12, 0xc9) && Listed(0x13, 0x7d)
    ensures Listed(0x14, 0xfa) && Listed(0x15, 0x59) && Listed(0x16, 0x47) && Listed(0x17, 0xf0)
    ensures Listed(0x18, 0xad) && Listed(0x19, 0xd4) && Listed(0x1a, 0xa2) && Listed(0x1b, 0xaf)
    ensures Listed(0x1c, 0x9c) && Listed(0x1d, 0xa4) && Listed(0x1e, 0x72) && Listed(0x1f, 0xc0)
  {}

  lemma Listed0High()
    ensures Listed(0x20, 0xb7) && Listed(0x21, 0xfd) && Listed(0x22, 0x93) && Listed(0x23, 0x26)
    ensures Listed(0x24, 0x36) && Listed(0x25, 0x3f) && Listed(0x26, 0xf7) && Listed(0x27, 0xcc)
    ensures Listed(0x28, 0x34) && Listed(0x29, 0xa5) && Listed(0x2a, 0xe5) && Listed(0x2b, 0xf1)
    ensures Listed(0x2c, 0x71) && Listed(0x2d, 0xd8) && Listed(0x2e, 0x31) && Listed(0x2f, 0x15)
    ensures Listed(0x30, 0x04) && Listed(0x31, 0xc7) && Listed(0x32, 0x23) && Listed(0x33, 0xc3)
    ensures Listed(0x34, 0x18) && Listed(0x35, 0x96) && Listed(0x36, 0x05) && Listed(0x37, 0x9a)
    ensures Listed(0x38, 0x07) && Listed(0x39, 0x12) && Listed(0x3a, 0x80) && Listed(0x3b, 0xe2)
    ensures Listed(0x3c, 0xeb) && Listed(0x3d, 0x27) && Listed(0x3e, 0xb2) && Listed(0x3f, 0x75)
  {}

  lemma Substitutes0()
    ensures Substitutes(0x00, 0x63) && Substitutes(0x01, 0x7c) && Substitutes(0x02, 0x77) && Substitutes(0x03, 0x7b)
    ensures Substitutes(0x04, 0xf2) && Substitutes(0x05, 0x6b) && Substitutes(0x06, 0x6f) && Substitutes(0x07, 0xc5)
    ensures Substitutes(0x08, 0x30) && Substitutes(0x09, 0x01) && Substitutes(0x0a, 0x67) && Substitutes(0x0b, 0x2b)
    ensures Substitutes(0x0c, 0xfe) && Substitutes(0x0d, 0xd7) && Substitutes(0x0e, 0xab) && Substitutes(0x0f, 0x76)
  {}

  lemma Substitutes1()
    ensures Substitutes(0x10, 0xca) && Substitutes(0x11, 0x82) && Substitutes(0x12, 0xc9) && Substitutes(0x13, 0x7d)
    ensures Substitutes(0x14, 0xfa) && Substitutes(0x15, 0x59) && Substitutes(0x16, 0x47) && Substitutes(0x17, 0xf0)
    ensures Substitutes(0x18, 0xad) && Substitutes(0x19, 0xd4) && Substitutes(0x1a, 0xa2) && Substitutes(0x1b, 0xaf)
    ensures Substitutes(0x1c, 0x9c) && Substitutes(0x1d, 0xa4) && Substitutes(0x1e, 0x72) && Substitutes(0x1f, 0xc0)
  {}

  lemma Substitutes2()
    ensures Substitutes(0x20, 0xb7) && Substitutes(0x21, 0xfd) && Substitutes(0x22, 0x93) && Substitutes(0x23, 0x26)
    ensures Substitutes(0x24, 0x36) && Substitutes(0x25, 0x3f) && Substitutes(0x26, 0xf7) && Substitutes(0x27, 0xcc)
    ensures Substitutes(0x28, 0x34) && Substitutes(0x29, 0xa5) && Substitutes(0x2a, 0xe5) && Substitutes(0x2b, 0xf1)
    ensures Substitutes(0x2c, 0x71) && Substitutes(0x2d, 0xd8) && Substitutes(0x2e, 0x31) && Substitutes(0x2f, 0x15)
  {}

  lemma Substitutes3()
    ensures Substitutes(0x30, 0x04) && Substitutes(0x31, 0xc7) && Substitutes(0x32, 0x23) && Substitutes(0x33, 0xc3)
    ensures Substitutes(0x34, 0x18) && Substitutes(0x35, 0x96) && Substitutes(0x36, 0x05) && Substitutes(0x37, 0x9a)
    ensures Substitutes(0x38, 0x07) && Substitutes(0x39, 0x12) && Substitutes(0x3a, 0x80) && Substitutes(0x3b, 0xe2)
    ensures Substitutes(0x3c, 0xeb) && Substitutes(0x3d, 0x27) && Substitutes(0x3e, 0xb2) && Substitutes(0x3f, 0x75)
  {}

  lemma Quarter0(b: bv8)
    requires b < 0x40
    ensures exists s: bv8 :: Listed(b, s) && Substitutes(b, s)
  {
    hide Listed, Substitutes;
    Listed0Low();
    Listed0High();
    Substitutes0();
    Substitutes1();
    Substitutes2();
    Substitutes3();
  }

  lemma Listed1Low()
    ensures Listed(0x40, 0x09) && Listed(0x41, 0x83) && Listed(0x42, 0x2c) && Listed(0x43, 0x1a)
    ensures Listed(0x44, 0x1b) && Listed(0x45, 0x6e) && Listed(0x46, 0x5a) && Listed(0x47, 0xa0)
    ensures Listed(0x48, 0x52) && Listed(0x49, 0x3b) && Listed(0x4a, 0xd6) && Listed(0x4b, 0xb3)
    ensures Listed(0x4c, 0x29) && Listed(0x4d, 0xe3) && Listed(0x4e, 0x2f) && Listed(0x4f, 0x84)
    ensures Listed(0x50, 0x53) && Listed(0x51, 0xd1) && Listed(0x52, 0x00) && Listed(0x53, 0xed)
    ensures Listed(0x54, 0x20) && Listed(0x55, 0xfc) && Listed(0x56, 0xb1) && Listed(0x57, 0x5b)
    ensures Listed(0x58, 0x6a) && Listed(0x59, 0xcb) && Listed(0x5a, 0xbe) && Listed(0x5b, 0x39)
    ensures Listed(0x5c, 0x4a) && Listed(0x5d, 0x4c) && Listed(0x5e, 0x58) && Listed(0x5f, 0xcf)
  {}

  lemma Listed1High()
    ensures Listed(0x60, 0xd0) && Listed(0x61, 0xef) && Listed(0x62, 0xaa) && Listed(0x63, 0xfb)
    ensures Listed(0x64, 0x43) && Listed(0x65, 0x4d) && Listed(0x66, 0x33) && Listed(0x67, 0x85)
    ensures Listed(0x68, 0x45) && Listed(0x69, 0xf9) && Listed(0x6a, 0x02) && Listed(0x6b, 0x7f)
    ensures Listed(0x6c, 0x50) && Listed(0x6d, 0x3c) && Listed(0x6e, 0x9f) && Listed(0x6f, 0xa8)
    ensures Listed(0x70, 0x51) && Listed(0x71, 0xa3) && Listed(0x72, 0x40) && Listed(0x73, 0x8f)
    ensures Listed(0x74, 0x92) && Listed(0x75, 0x9d) && Listed(0x76, 0x38) && Listed(0x77, 0xf5)
    ensures Listed(0x78, 0xbc) && Listed(0x79, 0xb6) && Listed(0x7a, 0xda) && Listed(0x7b, 0x21)
    ensures Listed(0x7c, 0x10) && Listed(0x7d, 0xff) && Listed(0x7e, 0xf3) && Listed(0x7f, 0xd2)
  {}

  lemma Substitutes4()
    ensures Substitutes(0x40, 0x09) && Substitutes(0x41, 0x83) && Substitutes(0x42, 0x2c) && Substitutes(0x43, 0x1a)
    ensures Substitutes(0x44, 0x1b) && Substitutes(0x45, 0x6e) && Substitutes(0x46, 0x5a) && Substitutes(0x47, 0xa0)
    ensures Substitutes(0x48, 0x52) && Substitutes(0x49, 0x3b) && Substitutes(0x4a, 0xd6) && Substitutes(0x4b, 0xb3)
    ensures Substitutes(0x4c, 0x29) && Substitutes(0x4d, 0xe3) && Substitutes(0x4e, 0x2f) && Substitutes(0x4f, 0x84)
  {}

  lemma Substitutes5()
    ensures Substitutes(0x50, 0x53) && Substitutes(0x51, 0xd1) && Substitutes(0x52, 0x00) && Substitutes(0x53, 0xed)
    ensures Substitutes(0x54, 0x20) && Substitutes(0x55, 0xfc) && Substitutes(0x56, 0xb1) && Substitutes(0x57, 0x5b)
    ensures Substitutes(0x58, 0x6a) && Substitutes(0x59, 0xcb) && Substitutes(0x5a, 0xbe) && Substitutes(0x5b, 0x39)
    ensures Substitutes(0x5c, 0x4a) && Substitutes(0x5d, 0x4c) && Substitutes(0x5e, 0x58) && Substitutes(0x5f, 0xcf)
  {}

  lemma Substitutes6()
    ensures Substitutes(0x60, 0xd0) && Substitutes(0x61, 0xef) && Substitutes(0x62, 0xaa) && Substitutes(0x63, 0xfb)
    ensures Substitutes(0x64, 0x43) && Substitutes(0x65, 0x4d) && Substitutes(0x66, 0x33) && Substitutes(0x67, 0x85)
    ensures Substitutes(0x68, 0x45) && Substitutes(0x69, 0xf9) && Substitutes(0x6a, 0x02) && Substitutes(0x6b, 0x7f)
    ensures Substitutes(0x6c, 0x50) && Substitutes(0x6d, 0x3c) && Substitutes(0x6e, 0x9f) && Substitutes(0x6f, 0xa8)
  {}

  lemma Substitutes7()
    ensures Substitutes(0x70, 0x51) && Substitutes(0x71, 0xa3) && Substitutes(0x72, 0x40) && Substitutes(0x73, 0x8f)
    ensures Substitutes(0x74, 0x92) && Substitutes(0x75, 0x9d) && Substitutes(0x76, 0x38) && Substitutes(0x77, 0xf5)
    ensures Substitutes(0x78, 0xbc) && Substitutes(0x79, 0xb6) && Substitutes(0x7a, 0xda) && Substitutes(0x7b, 0x21)
    ensures Substitutes(0x7c, 0x10) && Substitutes(0x7d, 0xff) && Substitutes(0x7e, 0xf3) && Substitutes(0x7f, 0xd2)
  {}

  lemma Quarter1(b: bv8)
    requires 0x40 <= b && b < 0x80
    ensures exists s: bv8 :: Listed(b, s) && Substitutes(b, s)
  {
    hide Listed, Substitutes;
    Listed1Low();
    Listed1High();
    Substitutes4();
    Substitutes5();
    Substitutes6();
    Substitutes7();
  }

  lemma Listed2Low()
    ensures Listed(0x80, 0xcd) && Listed(0x81, 0x0c) && Listed(0x82, 0x13) && Listed(0x83, 0xec)
    ensures Listed(0x84, 0x5f) && Listed(0x85, 0x97) && Listed(0x86, 0x44) && Listed(0x87, 0x17)
    ensures Listed(0x88, 0xc4) && Listed(0x89, 0xa7) && Listed(0x8a, 0x7e) && Listed(0x8b, 0x3d)
    ensures Listed(0x8c, 0x64) && Listed(0x8d, 0x5d) && Listed(0x8e, 0x19) && Listed(0x8f, 0x73)
    ensures Listed(0x90, 0x60) && Listed(0x91, 0x81) && Listed(0x92, 0x4f) && Listed(0x93, 0xdc)
    ensures Listed(0x94, 0x22) && Listed(0x95, 0x2a) && Listed(0x96, 0x90) && Listed(0x97, 0x88)
    ensures Listed(0x98, 0x46) && Listed(0x99, 0xee) && Listed(0x9a, 0xb8) && Listed(0x9b, 0x14)
    ensures Listed(0x9c, 0xde) && Listed(0x9d, 0x5e) && Listed(0x9e, 0x0b) && Listed(0x9f, 0xdb)
  {}

  lemma Listed2High()
    ensures Listed(0xa0, 0xe0) && Listed(0xa1, 0x32) && Listed(0xa2, 0x3a) && Listed(0xa3, 0x0a)
    ensures Listed(0xa4, 0x49) && Listed(0xa5, 0x06) && Listed(0xa6, 0x24) && Listed(0xa7, 0x5c)
    ensures Listed(0xa8, 0xc2) && Listed(0xa9, 0xd3) && Listed(0xaa, 0xac) && Listed(0xab, 0x62)
    ensures Listed(0xac, 0x91) && Listed(0xad, 0x95) && Listed(0xae, 0xe4) && Listed(0xaf, 0x79)
    ensures Listed(0xb0, 0xe7) && Listed(0xb1, 0xc8) && Listed(0xb2, 0x37) && Listed(0xb3, 0x6d)
    ensures Listed(0xb4, 0x8d) && Listed(0xb5, 0xd5) && Listed(0xb6, 0x4e) && Listed(0xb7, 0xa9)
    ensures Listed(0xb8, 0x6c) && Listed(0xb9, 0x56) && Listed(0xba, 0xf4) && Listed(0xbb, 0xea)
    ensures Listed(0xbc, 0x65) && Listed(0xbd, 0x7a) && Listed(0xbe, 0xae) && Listed(0xbf, 0x08)
  {}

  lemma Substitutes8()
    ensures Substitutes(0x80, 0xcd) && Substitutes(0x81, 0x0c) && Substitutes(0x82, 0x13) && Substitutes(0x83, 0xec)
    ensures Substitutes(0x84, 0x5f) && Substitutes(0x85, 0x97) && Substitutes(0x86, 0x44) && Substitutes(0x87, 0x17)
    ensures Substitutes(0x88, 0xc4) && Substitutes(0x89, 0xa7) && Substitutes(0x8a, 0x7e) && Substitutes(0x8b, 0x3d)
    ensures Substitutes(0x8c, 0x64) && Substitutes(0x8d, 0x5d) && Substitutes(0x8e, 0x19) && Substitutes(0x8f, 0x73)
  {}

  lemma Substitutes9()
    ensures Substitutes(0x90, 0x60) && Substitutes(0x91, 0x81) && Substitutes(0x92, 0x4f) && Substitutes(0x93, 0xdc)
    ensures Substitutes(0x94, 0x22) && Substitutes(0x95, 0x2a) && Substitutes(0x96, 0x90) && Substitutes(0x97, 0x88)
    ensures Substitutes(0x98, 0x46) && Substitutes(0x99, 0xee) && Substitutes(0x9a, 0xb8) && Substitutes(0x9b, 0x14)
    ensures Substitutes(0x9c, 0xde) && Substitutes(0x9d, 0x5e) && Substitutes(0x9e, 0x0b) && Substitutes(0x9f, 0xdb)
  {}

  lemma Substitutes10()
    ensures Substitutes(0xa0, 0xe0) && Substitutes(0xa1, 0x32) && Substitutes(0xa2, 0x3a) && Substitutes(0xa3, 0x0a)
    ensures Substitutes(0xa4, 0x49) && Substitutes(0xa5, 0x06) && Substitutes(0xa6, 0x24) && Substitutes(0xa7, 0x5c)
    ensures Substitutes(0xa8, 0xc2) && Substitutes(0xa9, 0xd3) && Substitutes(0xaa, 0xac) && Substitutes(0xab, 0x62)
    ensures Substitutes(0xac, 0x91) && Substitutes(0xad, 0x95) && Substitutes(0xae, 0xe4) && Substitutes(0xaf, 0x79)
  {}

  lemma Substitutes11()
    ensures Substitutes(0xb0, 0xe7) && Substitutes(0xb1, 0xc8) && Substitutes(0xb2, 0x37) && Substitutes(0xb3, 0x6d)
    ensures Substitutes(0xb4, 0x8d) && Substitutes(0xb5, 0xd5) && Substitutes(0xb6, 0x4e) && Substitutes(0xb7, 0xa9)
    ensures Substitutes(0xb8, 0x6c) && Substitutes(0xb9, 0x56) && Substitutes(0xba, 0xf4) && Substitutes(0xbb, 0xea)
    ensures Substitutes(0xbc, 0x65) && Substitutes(0xbd, 0x7a) && Substitutes(0xbe, 0xae) && Substitutes(0xbf, 0x08)
  {}

  lemma Quarter2(b: bv8)
    requires 0x80 <= b && b < 0xc0
    ensures exists s: bv8 :: Listed(b, s) && Substitutes(b, s)
  {
    hide Listed, Substitutes;
    Listed2Low();
    Listed2High();
    Substitutes8();
    Substitutes9();
    Substitutes10();
    Substitutes11();
  }

  lemma Listed3Low()
    ensures Listed(0xc0, 0xba) && Listed(0xc1, 0x78) && Listed(0xc2, 0x25) && Listed(0xc3, 0x2e)
    ensures Listed(0xc4, 0x1c) && Listed(0xc5, 0xa6) && Listed(0xc6, 0xb4) && Listed(0xc7, 0xc6)
    ensures Listed(0xc8, 0xe8) && Listed(0xc9, 0xdd) && Listed(0xca, 0x74) && Listed(0xcb, 0x1f)
    ensures Listed(0xcc, 0x4b) && Listed(0xcd, 0xbd) && Listed(0xce, 0x8b) && Listed(0xcf, 0x8a)
    ensures Listed(0xd0, 0x70) && Listed(0xd1, 0x3e) && Listed(0xd2, 0xb5) && Listed(0xd3, 0x66)
    ensures Listed(0xd4, 0x48) && Listed(0xd5, 0x03) && Listed(0xd6, 0xf6) && Listed(0xd7, 0x0e)
    ensures Listed(0xd8, 0x61) && Listed(0xd9, 0x35) && Listed(0xda, 0x57) && Listed(0xdb, 0xb9)
    ensures Listed(0xdc, 0x86) && Listed(0xdd, 0xc1) && Listed(0xde, 0x1d) && Listed(0xdf, 0x9e)
  {}

  lemma Listed3High()
    ensures Listed(0xe0, 0xe1) && Listed(0xe1, 0xf8) && Listed(0xe2, 0x98) && Listed(0xe3, 0x11)
    ensures Listed(0xe4, 0x69) && Listed(0xe5, 0xd9) && Listed(0xe6, 0x8e) && Listed(0xe7, 0x94)
    ensures Listed(0xe8, 0x9b) && Listed(0xe9, 0x1e) && Listed(0xea, 0x87) && Listed(0xeb, 0xe9)
    ensures Listed(0xec, 0xce) && Listed(0xed, 0x55) && Listed(0xee, 0x28) && Listed(0xef, 0xdf)
    ensures Listed(0xf0, 0x8c) && Listed(0xf1, 0xa1) && Listed(0xf2, 0x89) && Listed(0xf3, 0x0d)
    ensures Listed(0xf4, 0xbf) && Listed(0xf5, 0xe6) && Listed(0xf6, 0x42) && Listed(0xf7, 0x68)
    ensures Listed(0xf8, 0x41) && Listed(0xf9, 0x99) && Listed(0xfa, 0x2d) && Listed(0xfb, 0x0f)
    ensures Listed(0xfc, 0xb0) && Listed(0xfd, 0x54) && Listed(0xfe, 0xbb) && Listed(0xff, 0x16)
  {}

  lemma Substitutes12()
    ensures Substitutes(0xc0, 0xba) && Substitutes(0xc1, 0x78) && Substitutes(0xc2, 0x25) && Substitutes(0xc3, 0x2e)
    ensures Substitutes(0xc4, 0x1c) && Substitutes(0xc5, 0xa6) && Substitutes(0xc6, 0xb4) && Substitutes(0xc7, 0xc6)
    ensures Substitutes(0xc8, 0xe8) && Substitutes(0xc9, 0xdd) && Substitutes(0xca, 0x74) && Substitutes(0xcb, 0x1f)
    ensures Substitutes(0xcc, 0x4b) && Substitutes(0xcd, 0xbd) && Substitutes(0xce, 0x8b) && Substitutes(0xcf, 0x8a)
  {}

  lemma Substitutes13()
    ensures Substitutes(0xd0, 0x70) && Substitutes(0xd1, 0x3e) && Substitutes(0xd2, 0xb5) && Substitutes(0xd3, 0x66)
    ensures Substitutes(0xd4, 0x48) && Substitutes(0xd5, 0x03) && Substitutes(0xd6, 0xf6) && Substitutes(0xd7, 0x0e)
    ensures Substitutes(0xd8, 0x61) && Substitutes(0xd9, 0x35) && Substitutes(0xda, 0x57) && Substitutes(0xdb, 0xb9)
    ensures Substitutes(0xdc, 0x86) && Substitutes(0xdd, 0xc1) && Substitutes(0xde, 0x1d) && Substitutes(0xdf, 0x9e)
  {}

  lemma Substitutes14()
    ensures Substitutes(0xe0, 0xe1) && Substitutes(0xe1, 0xf8) && Substitutes(0xe2, 0x98) && Substitutes(0xe3, 0x11)
    ensures Substitutes(0xe4, 0x69) && Substitutes(0xe5, 0xd9) && Substitutes(0xe6, 0x8e) && Substitutes(0xe7, 0x94)
    ensures Substitutes(0xe8, 0x9b) && Substitutes(0xe9, 0x1e) && Substitutes(0xea, 0x87) && Substitutes(0xeb, 0xe9)
    ensures Substitutes(0xec, 0xce) && Substitutes(0xed, 0x55) && Substitutes(0xee, 0x28) && Substitutes(0xef, 0xdf)
  {}

  lemma Substitutes15()
    ensures Substitutes(0xf0, 0x8c) && Substitutes(0xf1, 0xa1) && Substitutes(0xf2, 0x89) && Substitutes(0xf3, 0x0d)
    ensures Substitutes(0xf4, 0xbf) && Substitutes(0xf5, 0xe6) && Substitutes(0xf6, 0x42) && Substitutes(0xf7, 0x68)
    ensures Substitutes(0xf8, 0x41) && Substitutes(0xf9, 0x99) && Substitutes(0xfa, 0x2d) && Substitutes(0xfb, 0x0f)
    ensures Substitutes(0xfc, 0xb0) && Substitutes(0xfd, 0x54) && Substitutes(0xfe, 0xbb) && Substitutes(0xff, 0x16)
  {}

  lemma Quarter3(b: bv8)
    requires 0xc0 <= b
    ensures exists s: bv8 :: Listed(b, s) && Substitutes(b, s)
  {
    hide Listed, Substitutes;
    Listed3Low();
    Listed3High();
    Substitutes12();
    Substitutes13();
    Substitutes14();
    Substitutes15();
  }

  /** The table is the one of FIPS 197: for every byte there is one x with x b = 1 in the field, or x = 0 for
      b = 0, and the entry of b is its affine transformation. */
  lemma SboxIsStandard(b: bv8)
    ensures exists x: bv8 :: SboxAt(b as nat) == Affine(x) as nat && if b == 0 then x == 0 else Times(x, b) == 1
  {
    hide Times, Affine, Unaffine;
    if b < 0x40 {
      Quarter0(b);
    } else if b < 0x80 {
      Quarter1(b);
    } else if b < 0xc0 {
      Quarter2(b);
    } else {
      Quarter3(b);
    }
    var s: bv8 :| Listed(b, s) && Substitutes(b, s);
    AffineUndone(s);
  }
}
