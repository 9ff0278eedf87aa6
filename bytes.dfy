/** Octets, the two positional number systems the codecs read (base 256
    for big-endian length and size fields, base 128 for the continuation
    octets of a high tag number), and C strings as octet buffers. */
module Bytes {

  /** An octet, as the Ruby code handles it: an Integer from 0 to 255. */
  type byte = x: int | 0 <= x < 256

  function Pow(base: nat, e: nat): (r: nat)
    ensures base > 0 ==> r > 0
  {
    if e == 0 then 1 else base * Pow(base, e - 1)
  }

  /** Reference reading of an unsigned big-endian number: the octets read
      left to right, each one shifting the number read so far by a
      position. */
  function BigEndian(s: seq<byte>): nat
  {
    if s == [] then 0 else BigEndian(s[..|s| - 1]) * 256 + s[|s| - 1]
  }

  /** Reference reading of a base-128 number: every octet contributes its
      low seven bits, the first octet being the most significant group. */
  function Base128(s: seq<byte>): nat
  {
    if s == [] then 0 else Base128(s[..|s| - 1]) * 128 + s[|s| - 1] % 128
  }

  /** Taking one more octet of `data` shifts the number by one position:
      the step `n = (n << 8) | b` of a left-to-right accumulation. */
  lemma BigEndianExtend(data: seq<byte>, from: nat, to: nat)
    requires from <= to < |data|
    ensures BigEndian(data[from..to + 1]) == BigEndian(data[from..to]) * 256 + data[to]
  {
    assert data[from..to + 1][..to - from] == data[from..to];
  }

  /** The step `n = (n << 7) | (b & 0x7F)` of the high-tag accumulation. */
  lemma Base128Extend(data: seq<byte>, from: nat, to: nat)
    requires from <= to < |data|
    ensures Base128(data[from..to + 1]) == Base128(data[from..to]) * 128 + data[to] % 128
  {
    assert data[from..to + 1][..to - from] == data[from..to];
  }

  /** Bitwise exclusive or, one binary digit at a time. */
  function XorBits(a: nat, b: nat): nat
    decreases a + b
  {
    if a == 0 && b == 0 then 0 else 2 * XorBits(a / 2, b / 2) + (a % 2 + b % 2) % 2
  }

  lemma {:induction false} XorBitsBound(a: nat, b: nat, n: nat)
    requires a < Pow(2, n) && b < Pow(2, n)
    ensures XorBits(a, b) < Pow(2, n)
    decreases a + b
  {
    if !(a == 0 && b == 0) {
      assert n > 0;
      XorBitsBound(a / 2, b / 2, n - 1);
    }
  }

  /** The defining step, for every pair including (0, 0). */
  lemma XorBitsStep(a: nat, b: nat)
    ensures XorBits(a, b) == 2 * XorBits(a / 2, b / 2) + (a % 2 + b % 2) % 2
  {
  }

  lemma {:induction false} XorBitsSelfInverse(a: nat, b: nat)
    ensures XorBits(XorBits(a, b), b) == a
    decreases a + b
  {
    if !(a == 0 && b == 0) {
      var h := XorBits(a / 2, b / 2);
      var x := XorBits(a, b);
      var c := (a % 2 + b % 2) % 2;
      XorBitsStep(a, b);
      Halves(x, h, c);
      XorBitsSelfInverse(a / 2, b / 2);
      XorBitsStep(x, b);
      BitUndo(a % 2, b % 2);
      Halves(a, a / 2, a % 2);
    }
  }

  /** Dividing 2h + c by two, for a binary digit c. */
  lemma Halves(x: nat, h: nat, c: nat)
    requires c < 2 && x == 2 * h + c
    ensures x / 2 == h && x % 2 == c
  {
  }

  /** Adding the same binary digit twice, modulo two, undoes it. */
  lemma BitUndo(a: nat, b: nat)
    requires a < 2 && b < 2
    ensures ((a + b) % 2 + b) % 2 == a
  {
  }

  /** Bitwise exclusive or of two octets, used by CBC chaining. */
  function Xor(a: byte, b: byte): (r: byte)
  {
    XorBitsBound(a, b, 8);
    XorBits(a, b)
  }

  lemma XorSelfInverse(a: byte, b: byte)
    ensures Xor(Xor(a, b), b) == a
  {
    XorBitsSelfInverse(a, b);
  }

  /** The two octets of the 16-bit big-endian encoding of n, after the
      truncation to 16 bits that Ruby's pack('n') performs. */
  function U16(n: nat): (r: seq<byte>)
    ensures |r| == 2
  {
    [(n / 256) % 256, n % 256]
  }

  /** The two octets read back as `hi * 256 + lo` give n. */
  lemma U16Octets(n: nat)
    requires n < 65536
    ensures U16(n)[0] as int * 256 + U16(n)[1] == n
  {
  }

  lemma U16RoundTrip(n: nat)
    requires n < 65536
    ensures BigEndian(U16(n)) == n
  {
    var s := U16(n);
    assert s[..1][..0] == [];
    assert BigEndian(s[..1]) == s[0];
    U16Octets(n);
  }

  /** The bytes of a C string: everything before the first NUL. */
  function UpToNul(s: seq<byte>): (r: seq<byte>)
    ensures |r| <= |s| && r == s[..|r|]
    ensures forall i :: 0 <= i < |r| ==> r[i] != 0
    ensures |r| < |s| ==> s[|r|] == 0
  {
    if s == [] || s[0] == 0 then [] else [s[0]] + UpToNul(s[1..])
  }

  /** A name without NUL bytes reads back whole. */
  lemma {:induction false} UpToNulNoNul(s: seq<byte>)
    requires forall i :: 0 <= i < |s| ==> s[i] != 0
    ensures UpToNul(s) == s
  {
    if s != [] {
      assert forall i :: 0 <= i < |s[1..]| ==> s[1..][i] != 0 by {
        forall i | 0 <= i < |s[1..]|
          ensures s[1..][i] != 0
        {
          assert s[1..][i] == s[i + 1];
        }
      }
      UpToNulNoNul(s[1..]);
      assert [s[0]] + s[1..] == s;
    }
  }
}
