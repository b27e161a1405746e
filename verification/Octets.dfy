/** Octets, the exclusive-or of octets and the two IO-Link checks built on it:
    the ISDU check octet CHKPDU (A.5.6) and the six-bit message checksum (A.1.6). */
module Octets {

  type byte = x: int | 0 <= x < 256

  const U16 := 0x1_0000
  const U32 := 0x1_0000_0000

  type u16 = x: int | 0 <= x < U16
  type u32 = x: int | 0 <= x < U32

  function Min(a: int, b: int): int { if a <= b then a else b }

  function Max(a: int, b: int): int { if a >= b then a else b }

  function Zeros(n: nat): (z: seq<byte>)
    ensures |z| == n && forall i :: 0 <= i < n ==> z[i] == 0
  {
    seq(n, _ => 0)
  }

  // ---- exclusive or ----------------------------------------------------

  /** Bitwise exclusive or, low bit first. */
  function XorNat(a: nat, b: nat): nat
  {
    if a == 0 && b == 0 then 0
    else 2 * XorNat(a / 2, b / 2) + (if a % 2 == b % 2 then 0 else 1)
  }

  lemma XorHalves(a: nat, b: nat)
    ensures XorNat(a, b) / 2 == XorNat(a / 2, b / 2)
    ensures XorNat(a, b) % 2 == if a % 2 == b % 2 then 0 else 1
  {
  }

  function Pow2(k: nat): (r: nat)
    ensures r >= 1
  {
    if k == 0 then 1 else 2 * Pow2(k - 1)
  }

  lemma {:induction false} XorBound(k: nat, a: nat, b: nat)
    requires a < Pow2(k) && b < Pow2(k)
    ensures XorNat(a, b) < Pow2(k)
  {
    if k > 0 && (a > 0 || b > 0) {
      XorBound(k - 1, a / 2, b / 2);
    }
  }

  lemma {:induction false} XorNatAssoc(a: nat, b: nat, c: nat)
    ensures XorNat(XorNat(a, b), c) == XorNat(a, XorNat(b, c))
    decreases a + b + c
  {
    if a + b + c > 0 {
      XorNatAssoc(a / 2, b / 2, c / 2);
      var ab, bc := XorNat(a, b), XorNat(b, c);
      XorHalves(a, b);
      XorHalves(b, c);
      XorHalves(ab, c);
      XorHalves(a, bc);
      assert XorNat(ab, c) % 2 == XorNat(a, bc) % 2;
    }
  }

  lemma {:induction false} XorNatSelf(a: nat)
    ensures XorNat(a, a) == 0
  {
    if a > 0 { XorNatSelf(a / 2); }
  }

  lemma {:induction false} XorNatZero(a: nat)
    ensures XorNat(a, 0) == a && XorNat(0, a) == a
  {
    if a > 0 { XorNatZero(a / 2); }
  }

  lemma {:induction false} XorNatComm(a: nat, b: nat)
    ensures XorNat(a, b) == XorNat(b, a)
    decreases a + b
  {
    if a + b > 0 { XorNatComm(a / 2, b / 2); }
  }

  function Xor(a: byte, b: byte): byte
  {
    assert Pow2(8) == 256;
    XorBound(8, a, b);
    XorNat(a, b)
  }

  /** Two octets cancel exactly when they are equal. */
  lemma XorIsZero(a: byte, b: byte)
    ensures Xor(a, b) == 0 <==> a == b
  {
    XorNatSelf(a);
    if Xor(a, b) == 0 {
      XorNatAssoc(a, b, b);
      XorNatSelf(b);
      XorNatZero(a);
      XorNatZero(b);
    }
  }

  // ---- CHKPDU ----------------------------------------------------------

  /** XOR of every octet, the accumulator of the CHKPDU loop. */
  function XorAll(s: seq<byte>): byte
  {
    if s == [] then 0 else Xor(XorAll(s[..|s| - 1]), s[|s| - 1])
  }

  /** Appending an octet cancels the stream exactly when that octet is its CHKPDU. */
  lemma XorAllAppend(s: seq<byte>, x: byte)
    ensures XorAll(s + [x]) == Xor(XorAll(s), x)
    ensures XorAll(s + [x]) == 0 <==> x == XorAll(s)
  {
    assert (s + [x])[..|s|] == s;
    XorIsZero(XorAll(s), x);
  }

  lemma XorAllOne(a: byte)
    ensures XorAll([a]) == a
  {
    assert [a][..0] == [];
    XorNatZero(a);
    XorNatComm(a, 0);
  }

  lemma XorAllPair(a: byte, b: byte)
    ensures XorAll([a, b]) == Xor(a, b)
    ensures XorAll([a, b]) == 0 <==> a == b
  {
    assert [a, b][..1] == [a];
    XorAllOne(a);
    XorIsZero(a, b);
  }

  /** Corrupting any one octet of a stream changes its XOR. */
  lemma {:induction false} OneOctetErrorIsVisible(s: seq<byte>, i: nat, x: byte)
    requires i < |s| && x != s[i]
    ensures XorAll(s[i := x]) != XorAll(s)
  {
    var t := s[i := x];
    var n := |s| - 1;
    var p, q := XorAll(s[..n]), XorAll(t[..n]);
    if i == n {
      assert t[..n] == s[..n];
      XorCancel(p, x, s[n]);
    } else {
      assert t[..n] == s[..n][i := x];
      OneOctetErrorIsVisible(s[..n], i, x);
      XorNatComm(q, s[n]);
      XorNatComm(p, s[n]);
      XorCancel(s[n], q, p);
    }
  }

  lemma XorCancel(a: byte, b: byte, c: byte)
    ensures Xor(a, b) == Xor(a, c) <==> b == c
  {
    if Xor(a, b) == Xor(a, c) {
      XorNatAssoc(a, a, b);
      XorNatAssoc(a, a, c);
      XorNatSelf(a);
      XorNatZero(b);
      XorNatZero(c);
    }
  }

  // ---- message checksum ------------------------------------------------

  const CHECKSUM_SEED: byte := 0x52

  function Odd(n: int): (b: bool) { n % 2 != 0 }

  function Bit(b: bool): (n: int) { if b then 1 else 0 }

  /** Equations (A.1): eight XORed bits compressed to six. */
  function Compress(c: byte): (r: byte)
    ensures r < 64
  {
    32 * Bit(Odd(c / 128 + c / 32 + c / 8 + c / 2))
    + 16 * Bit(Odd(c / 64 + c / 16 + c / 4 + c))
    + 8 * Bit(Odd(c / 128 + c / 64))
    + 4 * Bit(Odd(c / 32 + c / 16))
    + 2 * Bit(Odd(c / 8 + c / 4))
    + Bit(Odd(c / 2 + c))
  }

  function Checksum6(s: seq<byte>): (r: byte)
    ensures r < 64
  {
    Compress(Xor(CHECKSUM_SEED, XorAll(s)))
  }

  /** Worked checksums: of the test message, a reply and the DeviceOperate command. */
  lemma LiteralChecksums()
    ensures Checksum6([0xA2, 0]) == 0 && Checksum6([0x1E, 0]) == 0x28 && Checksum6([0x20, 0, 0x99]) == 6
  {
    LiteralXors();
    hide XorNat, XorAll, Xor;
    XorAllPair(0xA2, 0);
    XorAllPair(0x1E, 0);
    XorAllTriple(0x20, 0, 0x99);
  }

  lemma XorAllTriple(a: byte, b: byte, c: byte)
    ensures XorAll([a, b, c]) == Xor(Xor(a, b), c)
  {
    hide Xor;
    assert [a, b, c][..2] == [a, b];
    XorAllPair(a, b);
  }

  /** Lowest digit of an exclusive or. */
  function Digit(a: nat, b: nat): nat { if a % 2 == b % 2 then 0 else 1 }

  lemma XorStep(a: nat, b: nat, a2: nat, b2: nat)
    requires a2 == a / 2 && b2 == b / 2
    ensures XorNat(a, b) == 2 * XorNat(a2, b2) + Digit(a, b)
  {
  }

  /** The exclusive or of two octets, digit by digit. */
  lemma XorByDigits(a: byte, b: byte)
    ensures Xor(a, b) == 128 * Digit(a / 128, b / 128) + 64 * Digit(a / 64, b / 64) + 32 * Digit(a / 32, b / 32)
                         + 16 * Digit(a / 16, b / 16) + 8 * Digit(a / 8, b / 8) + 4 * Digit(a / 4, b / 4)
                         + 2 * Digit(a / 2, b / 2) + Digit(a, b)
  {
    hide XorNat, Digit;
    XorStep(a, b, a / 2, b / 2);
    XorStep(a / 2, b / 2, a / 4, b / 4);
    XorStep(a / 4, b / 4, a / 8, b / 8);
    XorStep(a / 8, b / 8, a / 16, b / 16);
    XorStep(a / 16, b / 16, a / 32, b / 32);
    XorStep(a / 32, b / 32, a / 64, b / 64);
    XorStep(a / 64, b / 64, a / 128, b / 128);
    XorStep(a / 128, b / 128, 0, 0);
    XorNatZero(0);
  }

  lemma LiteralXors()
    ensures Xor(CHECKSUM_SEED, Xor(0xA2, 0)) == 0xF0
    ensures Xor(CHECKSUM_SEED, Xor(0x1E, 0)) == 0x4C
    ensures Xor(CHECKSUM_SEED, Xor(Xor(0x20, 0), 0x99)) == 0xEB
  {
    hide XorNat;
    XorNatZero(0xA2);
    XorNatZero(0x1E);
    XorNatZero(0x20);
    hide Xor;
    XorByDigits(0x52, 0xA2);
    XorByDigits(0x52, 0x1E);
    XorByDigits(0x20, 0x99);
    XorByDigits(0x52, 0xB9);
  }

  /** The two low bits of an exclusive or. */
  lemma XorLowBits(a: byte, b: byte)
    ensures Odd(Xor(a, b)) == (Odd(a) != Odd(b)) && Odd(Xor(a, b) / 2) == (Odd(a / 2) != Odd(b / 2))
  {
    XorHalves(a, b);
    XorHalves(a / 2, b / 2);
  }

  /** The two bits above them. */
  lemma XorNextBits(a: byte, b: byte)
    ensures Odd(Xor(a, b) / 4) == (Odd(a / 4) != Odd(b / 4)) && Odd(Xor(a, b) / 8) == (Odd(a / 8) != Odd(b / 8))
  {
    hide XorNat, Odd;
    XorHalves(a, b);
    XorHalves(a / 2, b / 2);
    XorHalves(a / 4, b / 4);
    var x := Xor(a, b);
    assert x / 4 == XorNat(a / 4, b / 4) && x / 8 == XorNat(a / 8, b / 8);
    OddXor(a / 4, b / 4);
    OddXor(a / 8, b / 8);
  }

  lemma OddXor(a: nat, b: nat)
    ensures Odd(XorNat(a, b)) == (Odd(a) != Odd(b))
  {
    XorHalves(a, b);
  }

  /** Compression keeps the parities of neighbouring bits; `seed` stands for the checksum seed. */
  lemma LowBitsOfFlags(seed: byte, flags: byte)
    requires seed % 16 == 2 && flags % 16 == 0
    ensures Compress(Xor(seed, flags)) % 4 == 1
  {
    hide XorNat, Xor, Odd, Compress;
    var c := Xor(seed, flags);
    ParityOfNibble(seed);
    ParityOfNibble(flags);
    XorLowBits(seed, flags);
    XorNextBits(seed, flags);
    LowBitsCompressed(c);
    ParityOfNibble(Compress(c));
  }

  lemma LowBitsCompressed(c: byte)
    ensures Odd(Compress(c)) == (Odd(c / 2) != Odd(c))
    ensures Odd(Compress(c) / 2) == (Odd(c / 8) != Odd(c / 4))
  {
    OddSum(c / 2, c);
    OddSum(c / 8, c / 4);
    CompressedLow(c);
  }

  lemma OddSum(a: int, b: int)
    ensures Odd(a + b) == (Odd(a) != Odd(b))
  {
  }

  lemma CompressedLow(c: byte)
    ensures Odd(Compress(c)) == Odd(c / 2 + c) && Odd(Compress(c) / 2) == Odd(c / 8 + c / 4)
  {
    hide Odd;
    Digits(Odd(c / 128 + c / 32 + c / 8 + c / 2), Odd(c / 64 + c / 16 + c / 4 + c), Odd(c / 128 + c / 64),
           Odd(c / 32 + c / 16), Odd(c / 8 + c / 4), Odd(c / 2 + c));
  }

  lemma Digits(b5: bool, b4: bool, b3: bool, b2: bool, b1: bool, b0: bool)
    ensures var n := 32 * Bit(b5) + 16 * Bit(b4) + 8 * Bit(b3) + 4 * Bit(b2) + 2 * Bit(b1) + Bit(b0);
            Odd(n) == b0 && Odd(n / 2) == b1
  {
    var n := 32 * Bit(b5) + 16 * Bit(b4) + 8 * Bit(b3) + 4 * Bit(b2) + 2 * Bit(b1) + Bit(b0);
    assert n / 2 == 16 * Bit(b5) + 8 * Bit(b4) + 4 * Bit(b3) + 2 * Bit(b2) + Bit(b1);
  }

  lemma ParityOfNibble(x: byte)
    ensures x % 16 == 2 ==> !Odd(x) && Odd(x / 2) && !Odd(x / 4) && !Odd(x / 8)
    ensures x % 16 == 0 ==> !Odd(x) && !Odd(x / 2) && !Odd(x / 4) && !Odd(x / 8)
    ensures x % 4 == 1 ==> Odd(x) && !Odd(x / 2)
    ensures x % 4 == 2 ==> !Odd(x) && Odd(x / 2)
    ensures x % 4 == 0 ==> !Odd(x) && !Odd(x / 2)
    ensures Odd(x) && !Odd(x / 2) ==> x % 4 == 1
    ensures !Odd(x) ==> x % 2 == 0
  {
  }

  lemma LowBitOfPair(seed: byte, a: byte, flags: byte)
    requires seed % 4 == 2 && a % 4 == 1 && flags % 4 == 0
    ensures Compress(Xor(seed, Xor(a, flags))) % 2 == 0
  {
    hide XorNat, Xor, Odd, Compress;
    ParityOfNibble(seed);
    ParityOfNibble(a);
    ParityOfNibble(flags);
    XorLowBits(a, flags);
    XorLowBits(seed, Xor(a, flags));
    LowBitsCompressed(Xor(seed, Xor(a, flags)));
    ParityOfNibble(Compress(Xor(seed, Xor(a, flags))));
  }

  lemma FlagsChecksum(flags: byte)
    requires flags % 64 == 0
    ensures Checksum6([flags]) % 4 == 1
  {
    hide XorNat, Xor, Compress;
    XorAllOne(flags);
    LowBitsOfFlags(CHECKSUM_SEED, flags);
  }

  lemma PairChecksum(a: byte, flags: byte)
    requires a % 4 == 1 && flags % 64 == 0
    ensures Checksum6([a, flags]) % 2 == 0
  {
    hide XorNat, Xor, Compress;
    XorAllPair(a, flags);
    LowBitOfPair(CHECKSUM_SEED, a, flags);
  }
}
