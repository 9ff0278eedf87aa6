/** Ruby's `'%0Nx' % n` for a non-negative Integer: the lowercase
    hexadecimal digits of n, left-padded with '0' to at least N characters.
    Used by the error messages of iso_apdu! and ApduError. */
module HexFormat {
  import opened Bytes

  const HexChars: string := "0123456789abcdef"

  function HexDigit(d: nat): char
    requires d < 16
  {
    HexChars[d]
  }

  predicate IsHexDigit(c: char)
  {
    ('0' <= c <= '9') || ('a' <= c <= 'f')
  }

  /** The value of one lowercase hexadecimal digit (0 for anything else). */
  function DigitValue(c: char): nat
  {
    if '0' <= c <= '9' then (c - '0') as nat
    else if 'a' <= c <= 'f' then (c - 'a') as nat + 10
    else 0
  }

  lemma DigitValueOf(d: nat)
    requires d < 16
    ensures IsHexDigit(HexDigit(d)) && DigitValue(HexDigit(d)) == d
  {
  }

  /** The minimal digits of n, as `'%x' % n` prints them ("0" for zero). */
  function HexDigits(n: nat): (r: string)
    ensures |r| >= 1
    decreases n
  {
    if n < 16 then [HexDigit(n)] else HexDigits(n / 16) + [HexDigit(n % 16)]
  }

  function Zeros(k: nat): (r: string)
    ensures |r| == k && forall i :: 0 <= i < k ==> r[i] == '0'
  {
    if k == 0 then [] else Zeros(k - 1) + ['0']
  }

  /** `'%0{width}x' % n`. */
  function Format(n: nat, width: nat): string
  {
    var digits := HexDigits(n);
    if |digits| < width then Zeros(width - |digits|) + digits else digits
  }

  /** Reading a string of hexadecimal digits back, most significant first. */
  function HexValue(s: string): nat
  {
    if s == [] then 0 else HexValue(s[..|s| - 1]) * 16 + DigitValue(s[|s| - 1])
  }

  lemma {:induction false} HexDigitsValue(n: nat)
    ensures HexValue(HexDigits(n)) == n
    ensures forall i :: 0 <= i < |HexDigits(n)| ==> IsHexDigit(HexDigits(n)[i])
    decreases n
  {
    var r := HexDigits(n);
    if n < 16 {
      DigitValueOf(n);
      assert r[..0] == [];
    } else {
      HexDigitsValue(n / 16);
      DigitValueOf(n % 16);
      assert r[..|r| - 1] == HexDigits(n / 16);
    }
  }

  lemma {:induction false} ZerosValue(k: nat, s: string)
    ensures HexValue(Zeros(k) + s) == HexValue(s)
    decreases |s|, k
  {
    if s == [] {
      if k > 0 {
        assert Zeros(k) + s == Zeros(k - 1) + ['0'];
        assert (Zeros(k - 1) + ['0'])[..k - 1] == Zeros(k - 1) + [];
        ZerosValue(k - 1, []);
      }
      assert Zeros(k) + s == Zeros(k);
    } else {
      var t := Zeros(k) + s;
      assert t[..|t| - 1] == Zeros(k) + s[..|s| - 1];
      ZerosValue(k, s[..|s| - 1]);
    }
  }

  /** The digits of a number below 16^k fit in k characters. */
  lemma {:induction false} HexDigitsLength(n: nat, k: nat)
    requires 1 <= k && n < Pow(16, k)
    ensures |HexDigits(n)| <= k
    decreases n
  {
    if n >= 16 {
      assert k >= 2;
      assert n / 16 < Pow(16, k - 1);
      HexDigitsLength(n / 16, k - 1);
    }
  }

  /** The printed form reads back as n, is at least `width` characters and
      consists of lowercase hexadecimal digits only. */
  lemma FormatRoundTrip(n: nat, width: nat)
    ensures HexValue(Format(n, width)) == n
    ensures |Format(n, width)| >= width
    ensures forall i :: 0 <= i < |Format(n, width)| ==> IsHexDigit(Format(n, width)[i])
  {
    var digits := HexDigits(n);
    HexDigitsValue(n);
    if |digits| < width {
      ZerosValue(width - |digits|, digits);
      var r := Zeros(width - |digits|) + digits;
      forall i | 0 <= i < |r|
        ensures IsHexDigit(r[i])
      {
        if i >= width - |digits| {
          assert r[i] == digits[i - (width - |digits|)];
        }
      }
    }
  }

  /** A number below 16^width prints in exactly `width` characters. */
  lemma FormatWidth(n: nat, width: nat)
    requires 1 <= width && n < Pow(16, width)
    ensures |Format(n, width)| == width
  {
    HexDigitsLength(n, width);
  }

  /** `'%02x' % b` of an octet is two characters; `'%04x' % s` of a 16-bit
      status is four. */
  lemma OctetAndStatusWidths(b: byte, s: nat)
    requires s < 65536
    ensures |Format(b, 2)| == 2 && |Format(s, 4)| == 4
  {
    assert Pow(16, 2) == 256 by {
      assert Pow(16, 1) == 16;
    }
    assert Pow(16, 4) == 65536 by {
      assert Pow(16, 3) == 4096 by {
        assert Pow(16, 2) == 256 by {
          assert Pow(16, 1) == 16;
        }
      }
    }
    FormatWidth(b, 2);
    FormatWidth(s, 4);
  }
}
