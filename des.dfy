/** The DES and 3DES MAC logic of lib/smartcard/gp/des.rb: `crypt` in CBC
    mode with no padding, the padding method 2 of ISO/IEC 9797-1 (section
    6.1.2), MAC algorithm 3 of ISO/IEC 9797-1 (section 7.3, the retail MAC)
    and a full 3DES CBC-MAC.

    The DES block cipher itself is a pair of uninterpreted functions from a
    key and an 8-octet block to an 8-octet block; two-key 3DES (OpenSSL's
    DES-EDE) is built from them as E(K1, D(K2, E(K1, x))). */
module Des {
  import opened Wrappers
  import opened Bytes

  type Block = s: seq<byte> | |s| == 8 witness [0, 0, 0, 0, 0, 0, 0, 0]

  /** DES encryption and decryption under an 8-octet key. */
  datatype BlockCipher = BlockCipher(encrypt: (seq<byte>, Block) -> Block, decrypt: (seq<byte>, Block) -> Block)

  /** The cipher is a permutation of blocks for every key, as DES is. */
  ghost predicate Invertible(des: BlockCipher)
  {
    && (forall k, b :: des.decrypt(k, des.encrypt(k, b)) == b)
    && (forall k, b :: des.encrypt(k, des.decrypt(k, b)) == b)
  }

  datatype DesError =
    | KeyLength   // 'key length too short': under 8 octets for DES, under 16 for DES-EDE
    | IvLength    // 'iv length too short': under 8 octets
    | EmptyData   // Cipher#update refuses an empty string
    | DataLength  // with padding off, the data is not a whole number of blocks

  const ZeroBlock: Block := [0, 0, 0, 0, 0, 0, 0, 0]

  function XorBlock(a: Block, b: Block): Block
  {
    seq(8, i requires 0 <= i < 8 => Xor(a[i], b[i]))
  }

  lemma XorBlockSelfInverse(a: Block, b: Block)
    ensures XorBlock(XorBlock(a, b), b) == a
  {
    forall i | 0 <= i < 8
      ensures XorBlock(XorBlock(a, b), b)[i] == a[i]
    {
      XorSelfInverse(a[i], b[i]);
    }
  }

  lemma XorZero(a: Block)
    ensures XorBlock(a, ZeroBlock) == a
  {
    forall i | 0 <= i < 8
      ensures XorBlock(a, ZeroBlock)[i] == a[i]
    {
      assert XorBits(a[i], 0) == a[i] by {
        XorBitsZero(a[i]);
      }
    }
  }

  lemma {:induction false} XorBitsZero(a: nat)
    ensures XorBits(a, 0) == a
    decreases a
  {
    if a != 0 {
      XorBitsZero(a / 2);
    }
  }

  // ---------------------------------------------------------------------
  // CBC mode

  function CbcEncrypt(e: Block -> Block, iv: Block, data: seq<byte>): (r: seq<byte>)
    requires |data| % 8 == 0
    ensures |r| == |data|
    decreases |data|
  {
    if data == [] then []
    else
      var c := e(XorBlock(data[..8], iv));
      c + CbcEncrypt(e, c, data[8..])
  }

  function CbcDecrypt(d: Block -> Block, iv: Block, data: seq<byte>): (r: seq<byte>)
    requires |data| % 8 == 0
    ensures |r| == |data|
    decreases |data|
  {
    if data == [] then []
    else
      var c: Block := data[..8];
      XorBlock(d(c), iv) + CbcDecrypt(d, c, data[8..])
  }

  /** CBC decryption undoes CBC encryption under the same IV. */
  lemma {:induction false} CbcRoundTrip(e: Block -> Block, d: Block -> Block, iv: Block, data: seq<byte>)
    requires |data| % 8 == 0
    requires forall b :: d(e(b)) == b
    ensures CbcDecrypt(d, iv, CbcEncrypt(e, iv, data)) == data
    decreases |data|
  {
    if data != [] {
      var p: Block := data[..8];
      var c := e(XorBlock(p, iv));
      var rest := CbcEncrypt(e, c, data[8..]);
      var ct: seq<byte> := c + rest;
      assert ct[..8] == c && ct[8..] == rest;
      XorBlockSelfInverse(p, iv);
      CbcRoundTrip(e, d, c, data[8..]);
      assert p + data[8..] == data;
    }
  }

  /** The CBC chaining value after the data: the IV when there is none,
      otherwise the last cipher block. */
  function Chain(e: Block -> Block, h: Block, data: seq<byte>): Block
    requires |data| % 8 == 0
    decreases |data|
  {
    if data == [] then h else Chain(e, e(XorBlock(data[..8], h)), data[8..])
  }

  /** The last block of a CBC encryption is the chaining value. */
  lemma {:induction false} CbcLastBlock(e: Block -> Block, iv: Block, data: seq<byte>)
    requires |data| % 8 == 0 && |data| >= 8
    ensures CbcEncrypt(e, iv, data)[|data| - 8..] == Chain(e, iv, data)
    decreases |data|
  {
    var c: Block := e(XorBlock(data[..8], iv));
    var rest: seq<byte> := CbcEncrypt(e, c, data[8..]);
    if |data| == 8 {
      assert rest == [];
      assert (c + rest)[0..] == c;
    } else {
      CbcLastBlock(e, c, data[8..]);
      assert (c + rest)[|data| - 8..] == rest[|data| - 16..];
    }
  }

  // ---------------------------------------------------------------------
  // crypt

  function DesEncryptUnder(des: BlockCipher, k: seq<byte>): Block -> Block
  {
    b => des.encrypt(k, b)
  }

  /** Whether `cipher.key = key` is accepted: DES-CBC is chosen for an
      8-octet key and needs 8; DES-EDE-CBC is chosen for any other length
      and needs at least 16. */
  predicate KeyFits(key: seq<byte>)
  {
    |key| == 8 || |key| >= 16
  }

  /** The block function crypt selects: DES-CBC for an 8-octet key,
      DES-EDE-CBC under the first 16 octets otherwise. */
  function BlockFunction(des: BlockCipher, key: seq<byte>, decrypt: bool): Block -> Block
    requires KeyFits(key)
  {
    if |key| == 8 then
      if decrypt then b => des.decrypt(key, b) else b => des.encrypt(key, b)
    else
      var k1, k2 := key[..8], key[8..16];
      if decrypt then b => des.decrypt(k1, des.encrypt(k2, des.decrypt(k1, b)))
      else b => des.encrypt(k1, des.decrypt(k2, des.encrypt(k1, b)))
  }

  /** The IV crypt installs: the given one, or eight zero octets. */
  function IvOrZero(iv: Option<seq<byte>>): seq<byte>
  {
    if iv.Some? then iv.value else ZeroBlock
  }

  /** The block the cipher chains from: the first 8 octets of that IV. */
  function IvUsed(iv: Option<seq<byte>>): Block
    requires |IvOrZero(iv)| >= 8
  {
    IvOrZero(iv)[..8]
  }

  /** crypt(key, data, iv, decrypt): the cipher rejects a key or an IV that
      is too short (taking the leading octets of a longer one), an empty
      data string and, padding being off, data that is not a whole number
      of blocks; otherwise CBC over the data. */
  function Crypt(des: BlockCipher, key: seq<byte>, data: seq<byte>, iv: Option<seq<byte>>, decrypt: bool): (r: Result<seq<byte>, DesError>)
    ensures r.Success? <==> KeyFits(key) && |IvOrZero(iv)| >= 8 && |data| > 0 && |data| % 8 == 0
    ensures !KeyFits(key) ==> r == Failure(KeyLength)
    ensures KeyFits(key) && |IvOrZero(iv)| < 8 ==> r == Failure(IvLength)
    ensures KeyFits(key) && |IvOrZero(iv)| >= 8 && data == [] ==> r == Failure(EmptyData)
    ensures r.Success? ==> |r.value| == |data|
  {
    if !KeyFits(key) then Failure(KeyLength)
    else if |IvOrZero(iv)| < 8 then Failure(IvLength)
    else if data == [] then Failure(EmptyData)
    else if |data| % 8 != 0 then Failure(DataLength)
    else
      var f := BlockFunction(des, key, decrypt);
      if decrypt then Success(CbcDecrypt(f, IvUsed(iv), data))
      else Success(CbcEncrypt(f, IvUsed(iv), data))
  }

  /** A key longer than 16 octets and an IV longer than 8 act as their
      leading 16 and 8 octets. */
  lemma CryptTruncates(des: BlockCipher, key: seq<byte>, data: seq<byte>, iv: seq<byte>, decrypt: bool)
    requires |key| >= 16 && |iv| >= 8
    ensures Crypt(des, key, data, Some(iv), decrypt) == Crypt(des, key[..16], data, Some(iv[..8]), decrypt)
  {
    assert key[..16][..8] == key[..8] && key[..16][8..16] == key[8..16];
    assert BlockFunction(des, key, decrypt) == BlockFunction(des, key[..16], decrypt);
    assert IvUsed(Some(iv)) == IvUsed(Some(iv[..8]));
  }

  /** Decryption under the same key and IV recovers the plaintext, for DES
      and for 3DES alike. */
  lemma CryptRoundTrip(des: BlockCipher, key: seq<byte>, data: seq<byte>, iv: Option<seq<byte>>)
    requires Invertible(des)
    requires Crypt(des, key, data, iv, false).Success?
    ensures Crypt(des, key, Crypt(des, key, data, iv, false).value, iv, true) == Success(data)
  {
    var e := BlockFunction(des, key, false);
    var d := BlockFunction(des, key, true);
    assert forall b :: d(e(b)) == b;
    CbcRoundTrip(e, d, IvUsed(iv), data);
  }

  // ---------------------------------------------------------------------
  // Padding method 2 (ISO/IEC 9797-1 section 6.1.2)

  function ZeroOctets(k: nat): (r: seq<byte>)
    ensures |r| == k && forall i :: 0 <= i < k ==> r[i] == 0
  {
    if k == 0 then [] else ZeroOctets(k - 1) + [0]
  }

  /** `data + "\x80"`, then zeros up to a block boundary. */
  function Pad(data: seq<byte>): seq<byte>
  {
    var d := data + [0x80];
    if |d| % 8 == 0 then d else d + ZeroOctets(8 - |d| % 8)
  }

  /** The padded data is the least multiple of 8 octets strictly longer than
      the data, starts with the data, then 0x80, then zeros only. */
  lemma PadShape(data: seq<byte>)
    ensures |Pad(data)| == (|data| / 8 + 1) * 8
    ensures Pad(data)[..|data|] == data && Pad(data)[|data|] == 0x80
    ensures forall i :: |data| < i < |Pad(data)| ==> Pad(data)[i] == 0
  {
    var d := data + [0x80];
    assert d[..|data|] == data;
  }

  /** Removing the padding: the zeros at the end, then the 0x80 before them. */
  function Unpad(p: seq<byte>): Option<seq<byte>>
    decreases |p|
  {
    if p == [] then None
    else if p[|p| - 1] == 0 then Unpad(p[..|p| - 1])
    else if p[|p| - 1] == 0x80 then Some(p[..|p| - 1])
    else None
  }

  lemma {:induction false} UnpadZeros(data: seq<byte>, k: nat)
    ensures Unpad(data + [0x80] + ZeroOctets(k)) == Some(data)
    decreases k
  {
    var p := data + [0x80] + ZeroOctets(k);
    if k == 0 {
      assert p == data + [0x80];
      assert p[..|p| - 1] == data;
    } else {
      assert p[|p| - 1] == 0;
      assert p[..|p| - 1] == data + [0x80] + ZeroOctets(k - 1);
      UnpadZeros(data, k - 1);
    }
  }

  /** Padding is undone by Unpad: no two messages pad alike. */
  lemma PadRoundTrip(data: seq<byte>)
    ensures Unpad(Pad(data)) == Some(data)
  {
    var d := data + [0x80];
    if |d| % 8 == 0 {
      UnpadZeros(data, 0);
      assert d + ZeroOctets(0) == d;
    } else {
      UnpadZeros(data, 8 - |d| % 8);
    }
  }

  // ---------------------------------------------------------------------
  // The MACs

  /** Ruby's `s[-8, 8]`: the last 8 octets, nil when there are fewer. */
  function LastEight(s: seq<byte>): Option<seq<byte>>
  {
    if |s| < 8 then None else Some(s[|s| - 8..])
  }

  /** `key[0, 8]`. */
  function KeyPrefix(key: seq<byte>): seq<byte>
  {
    if |key| <= 8 then key else key[..8]
  }

  /** mac_retail as written: DES-CBC under the first key half over all but
      the last padded block, then crypt under the whole key over the last
      block, chained from the first pass's last block. With less than a
      block of data the first pass encrypts the empty string. */
  function MacRetail(des: BlockCipher, key: seq<byte>, data: seq<byte>, iv: Option<seq<byte>>): (r: Result<seq<byte>, DesError>)
    ensures r.Success? ==> |r.value| == 8
  {
    var padded := Pad(data);
    PadShape(data);
    var first :- Crypt(des, KeyPrefix(key), padded[..|padded| - 8], iv, false);
    Crypt(des, key, padded[|padded| - 8..], LastEight(first), false)
  }

  /** mac_retail with the first pass skipped when the padded data is a
      single block, the caller's IV then chaining into that block. */
  function MacRetailCorrected(des: BlockCipher, key: seq<byte>, data: seq<byte>, iv: Option<seq<byte>>): (r: Result<seq<byte>, DesError>)
    ensures r.Success? ==> |r.value| == 8
  {
    var padded := Pad(data);
    PadShape(data);
    var prefix := padded[..|padded| - 8];
    if prefix == [] then Crypt(des, key, padded[|padded| - 8..], iv, false)
    else
      var first :- Crypt(des, KeyPrefix(key), prefix, iv, false);
      Crypt(des, key, padded[|padded| - 8..], LastEight(first), false)
  }

  /** The output transformation of MAC algorithm 3 with K = key[..8] and
      K' = key[8..16]: E(K, D(K', E(K, x))), which is DES-EDE. */
  function OutputTransform(des: BlockCipher, key: seq<byte>, x: Block): Block
    requires |key| == 16
  {
    des.encrypt(key[..8], des.decrypt(key[8..16], des.encrypt(key[..8], x)))
  }

  /** ISO/IEC 9797-1 MAC algorithm 3 with initial value h0: the CBC chain
      under K over blocks D1..Dq-1, then the output transformation of
      Dq xor Hq-1. */
  function Algorithm3(des: BlockCipher, key: seq<byte>, padded: seq<byte>, h0: Block): Block
    requires |key| == 16 && |padded| % 8 == 0 && |padded| >= 8
  {
    var h := Chain(DesEncryptUnder(des, key[..8]), h0, padded[..|padded| - 8]);
    var last: Block := padded[|padded| - 8..];
    OutputTransform(des, key, XorBlock(last, h))
  }

  /** With a key of at least 16 octets, crypt over one block is the output
      transformation, under the first 16 octets, of the block xor the IV. */
  lemma LastBlockCrypt(des: BlockCipher, key: seq<byte>, last: Block, iv: Option<seq<byte>>)
    requires |key| >= 16 && |IvOrZero(iv)| >= 8
    ensures Crypt(des, key, last, iv, false) == Success(OutputTransform(des, key[..16], XorBlock(last, IvUsed(iv))))
  {
    var f := BlockFunction(des, key, false);
    var h := IvUsed(iv);
    assert key[..16][..8] == key[..8] && key[..16][8..16] == key[8..16];
    assert last[..8] == last && last[8..] == [];
    var x := XorBlock(last, h);
    assert f(x) == OutputTransform(des, key[..16], x);
    assert CbcEncrypt(f, h, last) == f(x) + [];
    assert Crypt(des, key, last, iv, false) == Success(CbcEncrypt(f, h, last));
    assert f(x) + [] == OutputTransform(des, key[..16], x);
  }

  /** The first pass of mac_retail: refused as empty data with less than a
      block of data; otherwise it leaves the CBC chaining value of D1..Dq-1
      under K as its last block. */
  lemma RetailFirstPass(des: BlockCipher, key: seq<byte>, data: seq<byte>, iv: Option<seq<byte>>)
    requires |key| >= 16 && |IvOrZero(iv)| >= 8
    ensures |Pad(data)| >= 8
    ensures |data| < 8 ==> Crypt(des, KeyPrefix(key), Pad(data)[..|Pad(data)| - 8], iv, false) == Failure(EmptyData)
    ensures |data| >= 8 ==> Crypt(des, KeyPrefix(key), Pad(data)[..|Pad(data)| - 8], iv, false).Success?
    ensures |data| >= 8 ==>
      var first := Crypt(des, KeyPrefix(key), Pad(data)[..|Pad(data)| - 8], iv, false).value;
      LastEight(first) == Some(Chain(DesEncryptUnder(des, key[..8]), IvUsed(iv), Pad(data)[..|Pad(data)| - 8]))
  {
    PadShape(data);
    var padded := Pad(data);
    var prefix := padded[..|padded| - 8];
    var e := DesEncryptUnder(des, key[..8]);
    assert BlockFunction(des, KeyPrefix(key), false) == e;
    if |prefix| >= 8 {
      CbcLastBlock(e, IvUsed(iv), prefix);
    }
  }

  /** With at least a block of data, mac_retail is ISO/IEC 9797-1 MAC
      algorithm 3 with the caller's IV; with less it raises, since its
      first pass hands crypt the empty string. */
  lemma MacRetailIsAlgorithm3(des: BlockCipher, key: seq<byte>, data: seq<byte>, iv: Option<seq<byte>>)
    requires |key| >= 16 && |IvOrZero(iv)| >= 8
    ensures |data| >= 8 ==> MacRetail(des, key, data, iv) == Success(Algorithm3(des, key[..16], Pad(data), IvUsed(iv)))
    ensures |data| < 8 ==> MacRetail(des, key, data, iv) == Failure(EmptyData)
  {
    RetailFirstPass(des, key, data, iv);
    PadShape(data);
    var padded := Pad(data);
    var prefix := padded[..|padded| - 8];
    var pass := Crypt(des, KeyPrefix(key), prefix, iv, false);
    if |data| >= 8 {
      assert key[..16][..8] == key[..8];
      var h := Chain(DesEncryptUnder(des, key[..8]), IvUsed(iv), prefix);
      assert IvUsed(LastEight(pass.value)) == h;
      LastBlockCrypt(des, key, padded[|padded| - 8..], LastEight(pass.value));
      assert MacRetail(des, key, data, iv) == Crypt(des, key, padded[|padded| - 8..], LastEight(pass.value), false);
    } else {
      assert pass == Failure(EmptyData);
    }
  }


  /** The corrected mac_retail is MAC algorithm 3 with the caller's IV for
      every data length. */
  lemma MacRetailCorrectedIsAlgorithm3(des: BlockCipher, key: seq<byte>, data: seq<byte>, iv: Option<seq<byte>>)
    requires |key| >= 16 && |IvOrZero(iv)| >= 8
    ensures MacRetailCorrected(des, key, data, iv) == Success(Algorithm3(des, key[..16], Pad(data), IvUsed(iv)))
  {
    RetailFirstPass(des, key, data, iv);
    assert key[..16][..8] == key[..8];
    var padded := Pad(data);
    var prefix := padded[..|padded| - 8];
    var h := Chain(DesEncryptUnder(des, key[..8]), IvUsed(iv), prefix);
    if prefix == [] {
      LastBlockCrypt(des, key, padded[|padded| - 8..], iv);
    } else {
      var first := Crypt(des, KeyPrefix(key), prefix, iv, false).value;
      assert IvUsed(LastEight(first)) == h;
      LastBlockCrypt(des, key, padded[|padded| - 8..], LastEight(first));
    }
  }

  /** An octet xor-ed with b is unchanged only when b is zero. */
  lemma {:induction false} XorBitsFixed(a: nat, b: nat)
    requires XorBits(a, b) == a
    ensures b == 0
    decreases a + b
  {
    if !(a == 0 && b == 0) {
      var h := XorBits(a / 2, b / 2);
      assert a == 2 * h + (a % 2 + b % 2) % 2;
      assert h == a / 2 && b % 2 == 0;
      XorBitsFixed(a / 2, b / 2);
    }
  }

  /** The output transformation is one-to-one when DES is. */
  lemma OutputTransformInjective(des: BlockCipher, key: seq<byte>, x: Block, y: Block)
    requires Invertible(des) && |key| == 16
    requires OutputTransform(des, key, x) == OutputTransform(des, key, y)
    ensures x == y
  {
    var k1, k2 := key[..8], key[8..16];
    assert des.decrypt(k1, des.encrypt(k2, des.decrypt(k1, OutputTransform(des, key, x)))) == x;
    assert des.decrypt(k1, des.encrypt(k2, des.decrypt(k1, OutputTransform(des, key, y)))) == y;
  }

  /** A non-zero IV changes the block it is XORed into. */
  lemma XorIvDiffers(last: Block, iv: Block)
    requires iv != ZeroBlock
    ensures XorBlock(last, ZeroBlock) != XorBlock(last, iv)
  {
    XorZero(last);
    if XorBlock(last, iv) == last {
      forall i | 0 <= i < 8
        ensures iv[i] == 0
      {
        assert XorBits(last[i], iv[i]) == last[i];
        XorBitsFixed(last[i], iv[i]);
      }
      assert false;
    }
  }

  /** Over one block, algorithm 3 gives different MACs for the zero IV and
      any other. */
  lemma OneBlockIvMatters(des: BlockCipher, key: seq<byte>, padded: seq<byte>, iv: Block)
    requires Invertible(des) && |key| == 16 && |padded| == 8 && iv != ZeroBlock
    ensures Algorithm3(des, key, padded, ZeroBlock) != Algorithm3(des, key, padded, iv)
  {
    var last: Block := padded[|padded| - 8..];
    assert padded[..|padded| - 8] == [];
    XorIvDiffers(last, iv);
    if Algorithm3(des, key, padded, ZeroBlock) == Algorithm3(des, key, padded, iv) {
      OutputTransformInjective(des, key, XorBlock(last, ZeroBlock), XorBlock(last, iv));
      assert false;
    }
  }

  /** With less than one block of data, mac_retail raises where MAC
      algorithm 3 with the caller's IV is what the corrected one returns. */
  lemma MacRetailShortData(des: BlockCipher, key: seq<byte>, data: seq<byte>, iv: Option<seq<byte>>)
    requires |key| >= 16 && |IvOrZero(iv)| >= 8 && |data| < 8
    ensures MacRetail(des, key, data, iv) == Failure(EmptyData)
    ensures MacRetailCorrected(des, key, data, iv) == Success(Algorithm3(des, key[..16], Pad(data), IvUsed(iv)))
  {
    MacRetailIsAlgorithm3(des, key, data, iv);
    MacRetailCorrectedIsAlgorithm3(des, key, data, iv);
  }

  /** mac_3des: the last block of 3DES-CBC with a zero IV over the padded
      data, i.e. the CBC chaining value. */
  function Mac3Des(des: BlockCipher, key: seq<byte>, data: seq<byte>): (r: Result<seq<byte>, DesError>)
    ensures r.Success? <==> KeyFits(key)
    ensures r.Success? ==> |r.value| == 8
  {
    var padded := Pad(data);
    PadShape(data);
    var crypted :- Crypt(des, key, padded, None, false);
    Success(crypted[|crypted| - 8..])
  }

  /** mac_3des is ISO/IEC 9797-1 MAC algorithm 1 (the plain CBC-MAC) over
      the block function crypt selects. */
  lemma Mac3DesIsCbcMac(des: BlockCipher, key: seq<byte>, data: seq<byte>)
    requires KeyFits(key)
    ensures Mac3Des(des, key, data) == Success(Chain(BlockFunction(des, key, false), ZeroBlock, Pad(data)))
  {
    PadShape(data);
    var padded := Pad(data);
    var crypted := CbcEncrypt(BlockFunction(des, key, false), ZeroBlock, padded);
    assert IvUsed(None) == ZeroBlock;
    assert Crypt(des, key, padded, None, false) == Success(crypted);
    CbcLastBlock(BlockFunction(des, key, false), ZeroBlock, padded);
  }
}
