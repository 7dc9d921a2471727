/** Byte-level helpers: the `struct` formats the source packs and unpacks, and the
    Python slice and BytesIO semantics the codecs rely on. */
module Bytes {

  type byte = x: int | 0 <= x < 0x100
  type u16 = x: int | 0 <= x < 0x1_0000
  type u32 = x: int | 0 <= x < 0x1_0000_0000

  predicate IsByte(x: int) { 0 <= x < 0x100 }

  predicate AllBytes(s: seq<int>) { forall i :: 0 <= i < |s| ==> IsByte(s[i]) }

  /** `struct.pack('>H', n)` */
  function BE16(n: u16): (r: seq<byte>)
    ensures |r| == 2
  {
    [n / 0x100, n % 0x100]
  }

  /** `struct.unpack('>H', s)` */
  function ReadBE16(s: seq<byte>): (n: u16)
    requires |s| == 2
    ensures BE16(n) == s
  {
    (s[0] as int) * 0x100 + s[1]
  }

  /** `struct.pack('<H', n)` */
  function LE16(n: u16): (r: seq<byte>)
    ensures |r| == 2
  {
    [n % 0x100, n / 0x100]
  }

  /** `struct.unpack('<H', s)` */
  function ReadLE16(s: seq<byte>): (n: u16)
    requires |s| == 2
    ensures LE16(n) == s
  {
    (s[1] as int) * 0x100 + s[0]
  }

  /** `struct.pack('>I', n)` */
  function BE32(n: u32): (r: seq<byte>)
    ensures |r| == 4
  {
    BE16(n / 0x1_0000) + BE16(n % 0x1_0000)
  }

  /** `int(bytes.hex(), 16)` of four bytes, i.e. `struct.unpack('>I', s)` */
  function ReadBE32(s: seq<byte>): (n: u32)
    requires |s| == 4
    ensures BE32(n) == s
  {
    var hi, lo := ReadBE16(s[..2]), ReadBE16(s[2..]);
    assert s == BE16(hi) + BE16(lo);
    (hi as int) * 0x1_0000 + lo
  }

  lemma BE16RoundTrip(n: u16)
    ensures ReadBE16(BE16(n)) == n
  {
  }

  lemma BE32RoundTrip(n: u32)
    ensures ReadBE32(BE32(n)) == n
  {
  }

  /** The signed reading of one byte, `struct.unpack('b', ...)`. */
  function SignedByte(b: byte): (v: int)
    ensures -0x80 <= v < 0x80
  {
    if b < 0x80 then b else b - 0x100
  }

  /** `struct.pack('b', v)`: two's complement of a value in -128..127. */
  function FromSignedByte(v: int): (b: byte)
    requires -0x80 <= v < 0x80
    ensures SignedByte(b) == v
  {
    if v >= 0 then v else v + 0x100
  }

  /** The signed reading of a big-endian 16-bit word, `struct.unpack('>h', ...)`. */
  function SignedBE16(s: seq<byte>): (v: int)
    requires |s| == 2
    ensures -0x8000 <= v < 0x8000
  {
    var n := ReadBE16(s);
    if n < 0x8000 then n else n - 0x1_0000
  }

  /** `struct.pack('>h', v)` */
  function FromSignedBE16(v: int): (r: seq<byte>)
    requires -0x8000 <= v < 0x8000
    ensures |r| == 2 && SignedBE16(r) == v
  {
    var r := BE16(if v >= 0 then v else v + 0x1_0000);
    BE16RoundTrip(if v >= 0 then v else v + 0x1_0000);
    r
  }

  /** `n` copies of byte `v`, e.g. `bytearray(n)` or `b'\xFF' * n`. */
  function Fill(n: nat, v: byte): (r: seq<byte>)
    ensures |r| == n && forall i :: 0 <= i < n ==> r[i] == v
  {
    seq(n, _ => v)
  }

  function Min(a: int, b: int): int { if a <= b then a else b }
  function Max(a: int, b: int): int { if a >= b then a else b }

  /** Python's `s[a:]` for a non-negative `a`: empty when `a` is past the end. */
  function Drop<T>(s: seq<T>, a: nat): (r: seq<T>)
    ensures |r| == Max(0, |s| - a)
  {
    if a <= |s| then s[a..] else []
  }

  /** Python's `s[a:b]` for non-negative bounds: clamped to the sequence. */
  function Slice<T>(s: seq<T>, a: nat, b: nat): (r: seq<T>)
    ensures |r| == Max(0, Min(b, |s|) - a)
  {
    if a <= Min(b, |s|) then s[a..Min(b, |s|)] else []
  }

  /** `(s + [0] * n)[:n]`: pad with zeros or truncate to exactly `n` elements. */
  function PadTo(s: seq<int>, n: nat): (r: seq<int>)
    ensures |r| == n
    ensures forall i :: 0 <= i < n ==> r[i] == if i < |s| then s[i] else 0
  {
    if |s| >= n then s[..n] else s + seq(n - |s|, _ => 0)
  }

  /** Python's slice assignment `s[a:b] = x` on a bytearray, for `0 <= a <= b`:
      both bounds are clamped to the current length, so writing past the end
      appends instead of failing. */
  function SliceAssign(s: seq<byte>, a: nat, b: nat, x: seq<byte>): (r: seq<byte>)
    requires a <= b
    ensures |r| == Min(a, |s|) + |x| + |s| - Min(b, |s|)
    ensures a <= |s| ==> r[..a] == s[..a] && r[a..a + |x|] == x
  {
    var lo := Min(a, |s|);
    var hi := Min(b, |s|);
    s[..lo] + x + s[hi..]
  }

  /** `s[a:a+|x|] = x` within bounds overwrites exactly those elements. */
  lemma SliceAssignInPlace(s: seq<byte>, a: nat, x: seq<byte>)
    requires a + |x| <= |s|
    ensures SliceAssign(s, a, a + |x|, x) == s[..a] + x + s[a + |x|..]
    ensures |SliceAssign(s, a, a + |x|, x)| == |s|
  {
  }

  /** Concatenation of a list of byte strings, `b''.join(...)`. */
  function Concat(parts: seq<seq<byte>>): (r: seq<byte>)
  {
    if parts == [] then [] else parts[0] + Concat(parts[1..])
  }

  lemma {:induction false} ConcatAppend(a: seq<seq<byte>>, b: seq<seq<byte>>)
    ensures Concat(a + b) == Concat(a) + Concat(b)
  {
    if a == [] {
      assert a + b == b;
    } else {
      assert (a + b)[1..] == a[1..] + b;
      ConcatAppend(a[1..], b);
    }
  }
}
