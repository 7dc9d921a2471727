/** The page checksum crc16_ccitt and the yes/no flag parser str2int of
    libs/utils.py. */
module Utils {
  import opened Bytes

  // ---------------------------------------------------------------------------
  // The checksum register. The source keeps it as two bytes `msb` and `lsb`
  // and masks every shifted value with 0xFF, which is arithmetic on `bv8`.

  datatype Register = Register(msb: bv8, lsb: bv8)

  const Init := Register(0xFF, 0xFF)

  /** y ^ (y >> 4) */
  function Fold(y: bv8): bv8
  {
    y ^ (y >> 4)
  }

  /** x = c ^ msb; x ^= x >> 4 */
  function Mix(c: bv8, msb: bv8): bv8
  {
    Fold(c ^ msb)
  }

  /** The new low byte, (x ^ (x << 5)) & 0xFF. */
  function Low(x: bv8): bv8
  {
    x ^ (x << 5)
  }

  /** The part of the new high byte that comes from x: the new high byte is
      (lsb ^ (x >> 3) ^ (x << 4)) & 0xFF. */
  function High(x: bv8): bv8
  {
    (x >> 3) ^ (x << 4)
  }

  /** The high byte after one iteration of the loop on byte `c`. */
  function NewMsb(msb: bv8, lsb: bv8, c: bv8): bv8
  {
    lsb ^ High(Mix(c, msb))
  }

  /** The low byte after one iteration of the loop on byte `c`. */
  function NewLsb(msb: bv8, c: bv8): bv8
  {
    Low(Mix(c, msb))
  }

  /** One iteration of the loop of crc16_ccitt on byte `c`. */
  function Step(r: Register, c: bv8): Register
  {
    Register(NewMsb(r.msb, r.lsb, c), NewLsb(r.msb, c))
  }

  /** The bytes of `data` as the 8-bit values the loop computes with. */
  function Bits(data: seq<byte>): (bits: seq<bv8>)
    ensures |bits| == |data|
  {
    seq(|data|, i requires 0 <= i < |data| => data[i] as bv8)
  }

  /** The register after feeding `data` to `r`, byte by byte. */
  function Feed(r: Register, data: seq<bv8>): Register
    decreases |data|
  {
    if data == [] then r else Feed(Step(r, data[0]), data[1..])
  }

  /** `(msb << 8) + lsb` */
  function Value(r: Register): (n: u16)
    ensures n / 0x100 == r.msb as int && n % 0x100 == r.lsb as int
  {
    (r.msb as int) * 0x100 + r.lsb as int
  }

  lemma ValueInjective(r1: Register, r2: Register)
    requires r1 != r2
    ensures Value(r1) != Value(r2)
  {
  }

  /** The checksum of `data` as crc16_ccitt returns it. */
  function Crc16(data: seq<byte>): u16
  {
    Value(Feed(Init, Bits(data)))
  }

  /** The body of the loop of crc16_ccitt, on the register halves and byte `c`. */
  method UpdateRegister(msb: bv8, lsb: bv8, c: bv8) returns (msb': bv8, lsb': bv8)
    ensures msb' == NewMsb(msb, lsb, c) && lsb' == NewLsb(msb, c)
  {
    var x := c ^ msb;
    x := x ^ (x >> 4);
    msb', lsb' := lsb ^ (x >> 3) ^ (x << 4), x ^ (x << 5);
  }

  /** crc16_ccitt: the loop over the bytes that updates the register halves
      `msb` and `lsb`. */
  method Crc16Ccitt(data: seq<byte>) returns (crc: int)
    ensures crc == Crc16(data)
    ensures 0 <= crc <= 0xFFFF
    ensures data == [] ==> crc == 0xFFFF
  {
    var bits := Bits(data);
    var msb: bv8 := 0xFF;
    var lsb: bv8 := 0xFF;
    var i := 0;
    while i < |bits|
      invariant 0 <= i <= |bits|
      invariant Feed(Register(msb, lsb), bits[i..]) == Feed(Init, bits)
    {
      assert bits[i..][1..] == bits[i + 1..];
      msb, lsb := UpdateRegister(msb, lsb, bits[i]);
      i := i + 1;
    }
    crc := (msb as int) * 0x100 + lsb as int;
  }

  // ---------------------------------------------------------------------------
  // Properties of the checksum.

  /** Feeding one more byte is one more `Step`. */
  lemma FeedCons(r: Register, c: bv8, rest: seq<bv8>)
    ensures Feed(r, [c] + rest) == Feed(Step(r, c), rest)
  {
    assert ([c] + rest)[1..] == rest;
  }

  lemma BitsOfText()
    ensures Bits([0x31, 0x32, 0x33, 0x34, 0x35, 0x36, 0x37, 0x38, 0x39])
         == [0x31, 0x32, 0x33, 0x34, 0x35, 0x36, 0x37, 0x38, 0x39]
  {
  }

  /** The registers crc16_ccitt passes through on the ASCII text "123456789". */
  lemma CheckSteps()
    ensures Step(Init, 0x31) == Register(0xC7, 0x82)
    ensures Step(Register(0xC7, 0x82), 0x32) == Register(0x3D, 0xBA)
    ensures Step(Register(0x3D, 0xBA), 0x33) == Register(0x5B, 0xCE)
    ensures Step(Register(0x5B, 0xCE), 0x34) == Register(0x53, 0x49)
    ensures Step(Register(0x53, 0x49), 0x35) == Register(0x45, 0x60)
    ensures Step(Register(0x45, 0x60), 0x36) == Register(0x2E, 0xF4)
    ensures Step(Register(0x2E, 0xF4), 0x37) == Register(0x77, 0x18)
    ensures Step(Register(0x77, 0x18), 0x38) == Register(0xA1, 0x2B)
    ensures Step(Register(0xA1, 0x2B), 0x39) == Register(0x29, 0xB1)
  {
  }

  /** The parameters are those of CRC-16/CCITT-FALSE (generator 0x1021 of ITU-T
      Recommendation V.41, initial register 0xFFFF, no reflection, no final XOR):
      the catalogue check value for the ASCII text "123456789" is 0x29B1. */
  lemma CheckValue()
    ensures Crc16([0x31, 0x32, 0x33, 0x34, 0x35, 0x36, 0x37, 0x38, 0x39]) == 0x29B1
  {
    var text := [0x31, 0x32, 0x33, 0x34, 0x35, 0x36, 0x37, 0x38, 0x39];
    var bits: seq<bv8> := [0x31, 0x32, 0x33, 0x34, 0x35, 0x36, 0x37, 0x38, 0x39];
    BitsOfText();
    CheckSteps();
    FeedCons(Init, 0x31, [0x32, 0x33, 0x34, 0x35, 0x36, 0x37, 0x38, 0x39]);
    FeedCons(Register(0xC7, 0x82), 0x32, [0x33, 0x34, 0x35, 0x36, 0x37, 0x38, 0x39]);
    FeedCons(Register(0x3D, 0xBA), 0x33, [0x34, 0x35, 0x36, 0x37, 0x38, 0x39]);
    FeedCons(Register(0x5B, 0xCE), 0x34, [0x35, 0x36, 0x37, 0x38, 0x39]);
    FeedCons(Register(0x53, 0x49), 0x35, [0x36, 0x37, 0x38, 0x39]);
    FeedCons(Register(0x45, 0x60), 0x36, [0x37, 0x38, 0x39]);
    FeedCons(Register(0x2E, 0xF4), 0x37, [0x38, 0x39]);
    FeedCons(Register(0x77, 0x18), 0x38, [0x39]);
    FeedCons(Register(0xA1, 0x2B), 0x39, []);
    assert Feed(Init, bits) == Register(0x29, 0xB1);
  }

  /** The checksum is a left fold: feeding `a + b` continues from the register
      left by `a`. */
  lemma {:induction false} FeedAppend(r: Register, a: seq<bv8>, b: seq<bv8>)
    ensures Feed(r, a + b) == Feed(Feed(r, a), b)
    decreases |a|
  {
    if a == [] {
      assert a + b == b;
    } else {
      assert (a + b)[1..] == a[1..] + b;
      FeedAppend(Step(r, a[0]), a[1..], b);
    }
  }

  // ---------------------------------------------------------------------------
  // The same checksum in the usual 16-bit form of CRC-16/CCITT: the register
  // shifted left by a byte, XOR the product of the mixed byte `x` and the
  // generator 0x1021 (x^12 + x^5 + 1) without carries.

  /** The register as one 16-bit value, `msb` high. */
  function Join(msb: bv8, lsb: bv8): bv16
  {
    (msb as bv16 << 8) | lsb as bv16
  }

  /** (crc << 8) ^ (x << 12) ^ (x << 5) ^ x */
  function Poly(crc: bv16, x: bv16): bv16
  {
    (crc << 8) ^ (x << 12) ^ (x << 5) ^ x
  }

  /** x ^ (x >> 4) on 16 bits */
  function Spread(x: bv16): bv16
  {
    x ^ (x >> 4)
  }

  /** The byte the generator is multiplied by: the register's high byte XOR
      `c`, spread. */
  function Wide(crc: bv16, c: bv8): bv16
  {
    Spread((crc >> 8) ^ c as bv16)
  }

  /** One byte of CRC-16/CCITT on a 16-bit register. */
  function Update(crc: bv16, c: bv8): bv16
  {
    Poly(crc, Wide(crc, c))
  }

  /** The 16-bit form applied to every byte of `data` in turn. */
  function UpdateAll(crc: bv16, data: seq<bv8>): bv16
    decreases |data|
  {
    if data == [] then crc else UpdateAll(Update(crc, data[0]), data[1..])
  }

  lemma JoinHigh(msb: bv8, lsb: bv8)
    ensures Join(msb, lsb) >> 8 == msb as bv16
  {
  }

  lemma SpreadMix(msb: bv8, c: bv8)
    ensures Spread(msb as bv16 ^ c as bv16) == Mix(c, msb) as bv16
  {
  }

  /** The multiplier of the 16-bit form is the mixed byte of the loop. */
  lemma WideIsMix(msb: bv8, lsb: bv8, c: bv8)
    ensures Wide(Join(msb, lsb), c) == Mix(c, msb) as bv16
  {
    var x0 := (Join(msb, lsb) >> 8) ^ c as bv16;
    JoinHigh(msb, lsb);
    assert x0 == msb as bv16 ^ c as bv16;
    SpreadMix(msb, c);
  }

  /** The product's bytes are the loop's new bytes: the high one gets `lsb`
      and the bits of x << 12 and x << 5 above bit 7, the low one the rest. */
  lemma PolyBytes(msb: bv8, lsb: bv8, x: bv8)
    ensures Poly(Join(msb, lsb), x as bv16) == Join(lsb ^ High(x), Low(x))
  {
  }

  /** One pass of the loop of crc16_ccitt on the two register bytes is one
      byte of CRC-16/CCITT with generator 0x1021 on the 16-bit register. */
  lemma StepIsPolynomial(msb: bv8, lsb: bv8, c: bv8)
    ensures Join(NewMsb(msb, lsb, c), NewLsb(msb, c)) == Update(Join(msb, lsb), c)
  {
    WideIsMix(msb, lsb, c);
    PolyBytes(msb, lsb, Mix(c, msb));
  }

  /** Feeding bytes to the register is the 16-bit form applied to them. */
  lemma {:induction false} FeedIsPolynomial(r: Register, data: seq<bv8>)
    ensures var f := Feed(r, data); Join(f.msb, f.lsb) == UpdateAll(Join(r.msb, r.lsb), data)
    decreases |data|
  {
    if data != [] {
      StepIsPolynomial(r.msb, r.lsb, data[0]);
      FeedIsPolynomial(Step(r, data[0]), data[1..]);
    }
  }

  lemma JoinIsSum(msb: bv8, lsb: bv8)
    ensures Join(msb, lsb) == (msb as bv16) * 256 + lsb as bv16
  {
  }

  lemma WidenByte(b: bv8)
    ensures b as bv16 < 256 && (b as bv16) as int == b as int
  {
  }

  lemma SumAsInt(a: bv16, b: bv16)
    requires a < 256 && b < 256
    ensures (a * 256 + b) as int == (a as int) * 256 + b as int
  {
  }

  /** The 16-bit value of the register is the number crc16_ccitt returns. */
  lemma JoinIsValue(r: Register)
    ensures Join(r.msb, r.lsb) as int == Value(r)
  {
    JoinIsSum(r.msb, r.lsb);
    WidenByte(r.msb);
    WidenByte(r.lsb);
    SumAsInt(r.msb as bv16, r.lsb as bv16);
  }

  /** crc16_ccitt is CRC-16/CCITT from 0xFFFF in its 16-bit form. */
  lemma Crc16IsPolynomial(data: seq<byte>)
    ensures Crc16(data) == UpdateAll(0xFFFF, Bits(data)) as int
  {
    FeedIsPolynomial(Init, Bits(data));
    JoinIsValue(Feed(Init, Bits(data)));
  }

  /** `Fold` and `Low` undo themselves on 8 bits: (y >> 4) >> 4 and
      (x << 5) << 5 are zero. */
  lemma FoldInvolution(y: bv8)
    ensures Fold(Fold(y)) == y
  {
  }

  lemma LowInvolution(x: bv8)
    ensures Low(Low(x)) == x
  {
  }

  lemma XorCancel(a: bv8, b: bv8, h: bv8)
    ensures a ^ h == b ^ h ==> a == b
  {
  }

  lemma MixInjectiveInByte(c1: bv8, c2: bv8, m: bv8)
    ensures Mix(c1, m) == Mix(c2, m) ==> c1 == c2
  {
    if Mix(c1, m) == Mix(c2, m) {
      FoldInvolution(c1 ^ m);
      FoldInvolution(c2 ^ m);
      XorCancel(c1, c2, m);
    }
  }

  lemma MixInjectiveInMsb(c: bv8, m1: bv8, m2: bv8)
    ensures Mix(c, m1) == Mix(c, m2) ==> m1 == m2
  {
    if Mix(c, m1) == Mix(c, m2) {
      FoldInvolution(c ^ m1);
      FoldInvolution(c ^ m2);
      assert c ^ m1 == c ^ m2;
      assert m1 == (c ^ m1) ^ c;
    }
  }

  lemma LowInjective(x1: bv8, x2: bv8)
    ensures Low(x1) == Low(x2) ==> x1 == x2
  {
    LowInvolution(x1);
    LowInvolution(x2);
  }

  lemma NewLsbInjective(m1: bv8, m2: bv8, c: bv8)
    ensures NewLsb(m1, c) == NewLsb(m2, c) ==> m1 == m2
  {
    LowInjective(Mix(c, m1), Mix(c, m2));
    MixInjectiveInMsb(c, m1, m2);
  }

  lemma NewMsbInjective(m: bv8, l1: bv8, l2: bv8, c: bv8)
    ensures NewMsb(m, l1, c) == NewMsb(m, l2, c) ==> l1 == l2
  {
    XorCancel(l1, l2, High(Mix(c, m)));
  }

  /** Different registers stay different after any byte. */
  lemma StepInjectiveInRegister(r1: Register, r2: Register, c: bv8)
    requires r1 != r2
    ensures Step(r1, c) != Step(r2, c)
  {
    NewLsbInjective(r1.msb, r2.msb, c);
    if r1.msb == r2.msb {
      NewMsbInjective(r1.msb, r1.lsb, r2.lsb, c);
    }
  }

  /** From the same register, different bytes give different registers. */
  lemma StepInjectiveInByte(r: Register, c1: bv8, c2: bv8)
    requires c1 != c2
    ensures Step(r, c1) != Step(r, c2)
  {
    LowInjective(Mix(c1, r.msb), Mix(c2, r.msb));
    MixInjectiveInByte(c1, c2, r.msb);
  }

  /** Registers that differ stay different whatever bytes follow. */
  lemma {:induction false} FeedInjective(r1: Register, r2: Register, data: seq<bv8>)
    requires r1 != r2
    ensures Feed(r1, data) != Feed(r2, data)
    decreases |data|
  {
    if data != [] {
      StepInjectiveInRegister(r1, r2, data[0]);
      FeedInjective(Step(r1, data[0]), Step(r2, data[0]), data[1..]);
    }
  }

  /** Feeding two different bytes followed by the same bytes ends in different
      registers. */
  lemma FeedDiffersAtByte(r: Register, c1: bv8, c2: bv8, rest: seq<bv8>)
    requires c1 != c2
    ensures Feed(r, [c1] + rest) != Feed(r, [c2] + rest)
  {
    assert ([c1] + rest)[1..] == rest && ([c2] + rest)[1..] == rest;
    StepInjectiveInByte(r, c1, c2);
    FeedInjective(Step(r, c1), Step(r, c2), rest);
  }

  lemma ByteToBv8RoundTrip(a: byte)
    ensures (a as bv8) as int == a
  {
    if a < 0x40 {
      if a < 0x20 { } else { }
    } else if a < 0x80 {
      if a < 0x60 { } else { }
    } else if a < 0xC0 {
      if a < 0xA0 { } else { }
    } else {
      if a < 0xE0 { } else { }
    }
  }

  /** Feeding two sequences that differ in exactly position `i` from the same
      register ends in different registers. */
  lemma FeedDetectsOneChange(r: Register, A: seq<bv8>, B: seq<bv8>, i: nat)
    requires |A| == |B| && i < |A| && A[i] != B[i]
    requires forall j :: 0 <= j < |A| && j != i ==> A[j] == B[j]
    ensures Feed(r, A) != Feed(r, B)
  {
    var rest := A[i + 1..];
    assert A == A[..i] + ([A[i]] + rest);
    assert B == A[..i] + ([B[i]] + rest);
    FeedAppend(r, A[..i], [A[i]] + rest);
    FeedAppend(r, A[..i], [B[i]] + rest);
    FeedDiffersAtByte(Feed(r, A[..i]), A[i], B[i], rest);
  }

  /** Two inputs of the same length that differ in exactly one byte have
      different checksums, so every single-byte (and so every single-bit)
      corruption of a page is detected. */
  lemma SingleByteChangeDetected(a: seq<byte>, b: seq<byte>, i: nat)
    requires |a| == |b| && i < |a|
    requires a[i] != b[i]
    requires forall j :: 0 <= j < |a| && j != i ==> a[j] == b[j]
    ensures Crc16(a) != Crc16(b)
  {
    ByteToBv8RoundTrip(a[i]);
    ByteToBv8RoundTrip(b[i]);
    FeedDetectsOneChange(Init, Bits(a), Bits(b), i);
    ValueInjective(Feed(Init, Bits(a)), Feed(Init, Bits(b)));
  }

  /** A page whose last two bytes are the big-endian checksum of the rest passes
      the verification of read_memory_page, and a page with one byte of its
      body changed does not. */
  lemma AppendedChecksumVerifies(body: seq<byte>, other: seq<byte>, i: nat)
    requires |other| == |body| && i < |body| && other[i] != body[i]
    requires forall j :: 0 <= j < |body| && j != i ==> other[j] == body[j]
    ensures var page := body + BE16(Crc16(body));
            Crc16(page[..|page| - 2]) == ReadBE16(page[|page| - 2..])
    ensures var page := other + BE16(Crc16(body));
            Crc16(page[..|page| - 2]) != ReadBE16(page[|page| - 2..])
  {
    var page := body + BE16(Crc16(body));
    assert page[..|page| - 2] == body;
    assert page[|page| - 2..] == BE16(Crc16(body));
    BE16RoundTrip(Crc16(body));
    var page' := other + BE16(Crc16(body));
    assert page'[..|page'| - 2] == other;
    assert page'[|page'| - 2..] == BE16(Crc16(body));
    SingleByteChangeDetected(body, other, i);
  }

  // ---------------------------------------------------------------------------
  // str2int

  function LowerChar(c: char): char
  {
    if 'A' <= c <= 'Z' then (c as int + 32) as char else c
  }

  /** `str.lower()` on ASCII letters. */
  function Lower(s: string): (r: string)
    ensures |r| == |s| && forall i :: 0 <= i < |s| ==> r[i] == LowerChar(s[i])
  {
    seq(|s|, i requires 0 <= i < |s| => LowerChar(s[i]))
  }

  const YesWords: seq<string> := ["yes", "true", "y", "1", "on"]
  const NoWords: seq<string> := ["no", "false", "n", "0", "off"]

  /** str2int: 1 for a yes-word, 0 for a no-word, -1 otherwise, ignoring case. */
  function Str2Int(v: string): (r: int)
    ensures r in {-1, 0, 1}
  {
    if Lower(v) in YesWords then 1
    else if Lower(v) in NoWords then 0
    else -1
  }

  /** Case-insensitive equality, character by character. */
  predicate EqualIgnoringCase(a: string, b: string)
  {
    |a| == |b| && forall i :: 0 <= i < |a| ==> LowerChar(a[i]) == LowerChar(b[i])
  }

  predicate IsLowerWord(w: string)
  {
    forall i :: 0 <= i < |w| ==> LowerChar(w[i]) == w[i]
  }

  lemma LowerMatchesWord(v: string, w: string)
    requires IsLowerWord(w)
    ensures Lower(v) == w <==> EqualIgnoringCase(v, w)
  {
    if EqualIgnoringCase(v, w) {
      assert forall i :: 0 <= i < |v| ==> Lower(v)[i] == w[i];
    }
  }

  /** str2int returns 1 exactly for the words yes/true/y/1/on written in any
      case, 0 exactly for no/false/n/0/off in any case, and -1 for anything
      else. */
  lemma Str2IntCaseInsensitive(v: string)
    ensures Str2Int(v) == 1 <==> exists w :: w in YesWords && EqualIgnoringCase(v, w)
    ensures Str2Int(v) == 0 <==> exists w :: w in NoWords && EqualIgnoringCase(v, w)
    ensures Str2Int(v) == -1 <==>
              (forall w :: w in YesWords + NoWords ==> !EqualIgnoringCase(v, w))
  {
    forall w | w in YesWords + NoWords
      ensures Lower(v) == w <==> EqualIgnoringCase(v, w)
    {
      LowerMatchesWord(v, w);
    }
    assert forall w :: w in YesWords ==> w !in NoWords;
  }
}
