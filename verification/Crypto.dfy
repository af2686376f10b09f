/** Encoding and decoding secrets: pkg/config/crypto.go.

    AES is a parameter: any family of keyed bijections on 16-byte blocks. Chaining is CBC
    (section 6.2 of NIST SP 800-38A), padding is that of section 6.3 of RFC 5652, the text form is
    base 16 (section 8 of RFC 4648). */
module Crypto {
  import opened GoText

  type byte = c: char | Byte(c) < 256 witness '\0'

  type Bytes = seq<byte>

  const BLOCK: nat := 16

  type Block = b: Bytes | |b| == BLOCK witness ZeroBytes(BLOCK)

  type Key = k: Bytes | |k| == 2 * BLOCK witness ZeroBytes(2 * BLOCK)

  datatype KeyValues = KeyValues(key: Key, iv: Block)

  datatype Error = NotBlockMultiple | DecodeFailed | PaddingSize | NotUtf8
                 | NoSeparator | BadHex | UnknownEntry | Incomplete | NotExist

  datatype Result<T> = Ok(value: T) | Err(error: Error)

  function ZeroBytes(n: nat): (b: Bytes)
    ensures |b| == n
  {
    seq(n, _ => '\0')
  }

  function Chr(n: nat): byte
    requires n < 256
  {
    n as char
  }

  // ----- exclusive or -----

  function XorNat(a: nat, b: nat): nat
    decreases a + b
  {
    if a + b == 0 then 0 else 2 * XorNat(a / 2, b / 2) + (a + b) % 2
  }

  lemma {:induction false} XorBound(a: nat, b: nat, bits: nat)
    requires a < Pow2(bits) && b < Pow2(bits)
    ensures XorNat(a, b) < Pow2(bits)
    decreases bits
  {
    if a + b > 0 && bits > 0 {
      XorBound(a / 2, b / 2, bits - 1);
    }
  }

  function Pow2(n: nat): (p: nat)
    ensures p > 0
  {
    if n == 0 then 1 else 2 * Pow2(n - 1)
  }

  lemma {:induction false} XorUndo(a: nat, b: nat)
    ensures XorNat(XorNat(a, b), b) == a
    decreases a + b
  {
    if a + b > 0 {
      var y := XorNat(a / 2, b / 2);
      var x := XorNat(a, b);
      XorUndo(a / 2, b / 2);
      HalfAndBit(y, (a + b) % 2, x);
      if x + b > 0 {
        assert XorNat(x, b) == 2 * (a / 2) + (x + b) % 2;
        BitUndo(a, b, x);
      }
    }
  }

  lemma HalfAndBit(y: nat, bit: nat, x: nat)
    requires bit < 2 && x == 2 * y + bit
    ensures x / 2 == y && x % 2 == bit
  {
  }

  lemma BitUndo(a: nat, b: nat, x: nat)
    requires x % 2 == (a + b) % 2
    ensures 2 * (a / 2) + (x + b) % 2 == a
  {
  }

  /** Bit `i` of a number, the lowest being bit 0. */
  function Bit(n: nat, i: nat): nat {
    n / Pow2(i) % 2
  }

  lemma HalfFirst(n: nat, p: nat)
    requires p > 0
    ensures n / (2 * p) == n / 2 / p
  {
    var q, r, c := n / 2 / p, n / 2 % p, n % 2;
    assert n == q * (2 * p) + (2 * r + c) by {
      assert n / 2 == q * p + r;
    }
    assert 0 <= 2 * r + c < 2 * p;
    Quotient(n, 2 * p, q, 2 * r + c);
  }

  lemma Quotient(n: nat, d: nat, q: nat, r: nat)
    requires d > 0 && r < d && n == q * d + r
    ensures n / d == q
  {
    assert (n / d - q) * d == r - n % d;
    NoMultiple(n / d - q, d);
  }

  lemma NoMultiple(x: int, d: int)
    requires -d < x * d < d
    ensures x == 0
  {
    assert x >= 1 ==> x * d >= d;
    assert x <= -1 ==> x * d <= -d;
  }

  /** A bit is set in the result exactly when it differs in the arguments. */
  lemma {:induction false} XorBit(a: nat, b: nat, i: nat)
    ensures Bit(XorNat(a, b), i) == 1 <==> Bit(a, i) != Bit(b, i)
    decreases i
  {
    if i == 0 {
      XorLowest(a, b);
    } else {
      XorBit(a / 2, b / 2, i - 1);
      XorUpper(a, b, i);
    }
  }

  lemma XorLowest(a: nat, b: nat)
    ensures Bit(XorNat(a, b), 0) == 1 <==> Bit(a, 0) != Bit(b, 0)
  {
    XorHalf(a, b);
    hide XorNat;
    assert Pow2(0) == 1;
  }

  lemma XorUpper(a: nat, b: nat, i: nat)
    requires i > 0
    ensures Bit(XorNat(a, b), i) == Bit(XorNat(a / 2, b / 2), i - 1)
    ensures Bit(a, i) == Bit(a / 2, i - 1) && Bit(b, i) == Bit(b / 2, i - 1)
  {
    XorHalf(a, b);
    hide XorNat, Bit;
    UpperBit(XorNat(a, b), i);
    UpperBit(a, i);
    UpperBit(b, i);
  }

  lemma XorHalf(a: nat, b: nat)
    ensures XorNat(a, b) / 2 == XorNat(a / 2, b / 2) && XorNat(a, b) % 2 == (a + b) % 2
  {
    if a + b > 0 {
      XorStep(a, b);
      hide XorNat;
      HalfAndBit(XorNat(a / 2, b / 2), (a + b) % 2, XorNat(a, b));
    }
  }

  lemma XorStep(a: nat, b: nat)
    requires a + b > 0
    ensures XorNat(a, b) == 2 * XorNat(a / 2, b / 2) + (a + b) % 2
  {
  }

  lemma UpperBit(n: nat, i: nat)
    requires i > 0
    ensures Bit(n, i) == Bit(n / 2, i - 1)
  {
    HalfFirst(n, Pow2(i - 1));
  }

  lemma {:induction false} XorSymmetric(a: nat, b: nat)
    ensures XorNat(a, b) == XorNat(b, a)
    decreases a + b
  {
    if a + b > 0 {
      XorSymmetric(a / 2, b / 2);
    }
  }

  function Xor(a: byte, b: byte): (x: byte)
    ensures Byte(x) == XorNat(Byte(a), Byte(b))
  {
    assert Pow2(8) == 256;
    XorBound(Byte(a), Byte(b), 8);
    Chr(XorNat(Byte(a), Byte(b)))
  }

  function XorBlock(a: Block, b: Block): Block {
    seq(BLOCK, i requires 0 <= i < BLOCK => Xor(a[i], b[i]))
  }

  lemma XorByteUndo(a: byte, b: byte)
    ensures Xor(Xor(a, b), b) == a
  {
    hide XorNat;
    XorUndo(Byte(a), Byte(b));
    assert Byte(Xor(Xor(a, b), b)) == Byte(a);
  }

  lemma XorBlockUndo(a: Block, b: Block)
    ensures XorBlock(XorBlock(a, b), b) == a
  {
    hide Xor;
    forall i | 0 <= i < BLOCK
      ensures XorBlock(XorBlock(a, b), b)[i] == a[i]
    {
      XorByteUndo(a[i], b[i]);
    }
  }

  // ----- the block cipher and its chaining -----

  datatype Aes = Aes(encrypt: (Key, Block) -> Block, decrypt: (Key, Block) -> Block) {
    ghost predicate Bijective() {
      && (forall k: Key, b: Block :: decrypt(k, encrypt(k, b)) == b)
      && (forall k: Key, b: Block :: encrypt(k, decrypt(k, b)) == b)
    }
  }

  function CbcEncrypt(aes: Aes, key: Key, prev: Block, text: Bytes): (out: Bytes)
    requires |text| % BLOCK == 0
    ensures |out| == |text|
    decreases |text|
  {
    if |text| == 0 then []
    else
      var c := aes.encrypt(key, XorBlock(text[..BLOCK], prev));
      c + CbcEncrypt(aes, key, c, text[BLOCK..])
  }

  function CbcDecrypt(aes: Aes, key: Key, prev: Block, text: Bytes): (out: Bytes)
    requires |text| % BLOCK == 0
    ensures |out| == |text|
    decreases |text|
  {
    if |text| == 0 then []
    else XorBlock(aes.decrypt(key, text[..BLOCK]), prev) + CbcDecrypt(aes, key, text[..BLOCK], text[BLOCK..])
  }

  lemma {:induction false} CbcUndo(aes: Aes, key: Key, prev: Block, text: Bytes)
    requires aes.Bijective() && |text| % BLOCK == 0
    ensures CbcDecrypt(aes, key, prev, CbcEncrypt(aes, key, prev, text)) == text
    decreases |text|
  {
    if |text| > 0 {
      hide XorBlock;
      var first: Block := text[..BLOCK];
      var c: Block := aes.encrypt(key, XorBlock(first, prev));
      var rest := CbcEncrypt(aes, key, c, text[BLOCK..]);
      var out := c + rest;
      assert out[..BLOCK] == c && out[BLOCK..] == rest;
      XorBlockUndo(first, prev);
      CbcUndo(aes, key, c, text[BLOCK..]);
      assert text[..BLOCK] + text[BLOCK..] == text;
    }
  }

  lemma {:induction false} CbcRedo(aes: Aes, key: Key, prev: Block, text: Bytes)
    requires aes.Bijective() && |text| % BLOCK == 0
    ensures CbcEncrypt(aes, key, prev, CbcDecrypt(aes, key, prev, text)) == text
    decreases |text|
  {
    if |text| > 0 {
      hide XorBlock;
      var c: Block := text[..BLOCK];
      var first := XorBlock(aes.decrypt(key, c), prev);
      var rest := CbcDecrypt(aes, key, c, text[BLOCK..]);
      var out: Bytes := first + rest;
      assert out[..BLOCK] == first && out[BLOCK..] == rest;
      XorBlockUndo(aes.decrypt(key, c), prev);
      CbcRedo(aes, key, c, text[BLOCK..]);
      assert text[..BLOCK] + text[BLOCK..] == text;
    }
  }

  /** `x` is `text` with the bits flipped that are set in `mask`. */
  ghost predicate Flipped(x: byte, text: byte, mask: byte) {
    forall i: nat :: Bit(Byte(x), i) == 1 <==> Bit(Byte(text), i) != Bit(Byte(mask), i)
  }

  lemma XorFlips(text: byte, mask: byte)
    ensures Flipped(Xor(text, mask), text, mask)
  {
    hide XorNat;
    forall i: nat ensures Bit(Byte(Xor(text, mask)), i) == 1 <==> Bit(Byte(text), i) != Bit(Byte(mask), i) {
      XorBit(Byte(text), Byte(mask), i);
    }
  }

  ghost predicate BlockFlipped(x: Block, text: Block, mask: Block) {
    forall j | 0 <= j < BLOCK :: Flipped(x[j], text[j], mask[j])
  }

  lemma XorBlockFlips(text: Block, mask: Block)
    ensures BlockFlipped(XorBlock(text, mask), text, mask)
  {
    hide Xor, Flipped;
    forall j | 0 <= j < BLOCK ensures Flipped(XorBlock(text, mask)[j], text[j], mask[j]) {
      XorFlips(text[j], mask[j]);
    }
  }

  function BlockAt(text: Bytes, n: nat): Block
    requires BLOCK * (n + 1) <= |text|
  {
    text[BLOCK * n..BLOCK * (n + 1)]
  }

  /** Block `n` of `c` is the cipher applied to that of `text`, each bit flipped by the block of `c` before it, or by
      `prev` in the first block. */
  ghost predicate ChainedAt(aes: Aes, key: Key, prev: Block, text: Bytes, c: Bytes, n: nat)
    requires |c| == |text| && BLOCK * (n + 1) <= |text|
  {
    exists x: Block ::
      && BlockAt(c, n) == aes.encrypt(key, x)
      && BlockFlipped(x, BlockAt(text, n), if n == 0 then prev else BlockAt(c, n - 1))
  }

  lemma ChainedFirst(aes: Aes, key: Key, prev: Block, text: Bytes)
    requires |text| % BLOCK == 0 && |text| > 0
    ensures ChainedAt(aes, key, prev, text, CbcEncrypt(aes, key, prev, text), 0)
  {
    hide XorBlock, BlockFlipped;
    var first: Block := text[..BLOCK];
    assert BlockAt(text, 0) == first;
    XorBlockFlips(first, prev);
    assert BlockAt(CbcEncrypt(aes, key, prev, text), 0) == aes.encrypt(key, XorBlock(first, prev));
  }

  lemma BlockBehind(first: Block, rest: Bytes, n: nat)
    requires BLOCK * (n + 1) <= |rest|
    ensures BlockAt(first + rest, 0) == first && BlockAt(first + rest, n + 1) == BlockAt(rest, n)
  {
  }

  lemma ChainedNext(aes: Aes, key: Key, prev: Block, first: Block, rest: Bytes, d: Block, e: Bytes, n: nat)
    requires |e| == |rest| && BLOCK * (n + 1) <= |rest| && ChainedAt(aes, key, d, rest, e, n)
    ensures ChainedAt(aes, key, prev, first + rest, d + e, n + 1)
  {
    hide BlockAt, BlockFlipped;
    BlockBehind(first, rest, n);
    BlockBehind(d, e, n);
    if n > 0 {
      BlockBehind(d, e, n - 1);
    }
    var x: Block :| BlockAt(e, n) == aes.encrypt(key, x)
      && BlockFlipped(x, BlockAt(rest, n), if n == 0 then d else BlockAt(e, n - 1));
    assert BlockFlipped(x, BlockAt(first + rest, n + 1), BlockAt(d + e, n));
  }

  function Head(text: Bytes): (head: Block)
    requires |text| >= BLOCK
  {
    text[..BLOCK]
  }

  function Behind(text: Bytes): (rest: Bytes)
    requires |text| >= BLOCK
    ensures |rest| == |text| - BLOCK && text == Head(text) + rest
  {
    text[BLOCK..]
  }

  lemma FirstCipherBlock(aes: Aes, key: Key, prev: Block, text: Bytes) returns (d: Block)
    requires |text| % BLOCK == 0 && |text| > 0
    ensures CbcEncrypt(aes, key, prev, text) == d + CbcEncrypt(aes, key, d, Behind(text))
  {
    d := aes.encrypt(key, XorBlock(text[..BLOCK], prev));
  }

  lemma {:induction false} Chained(aes: Aes, key: Key, prev: Block, text: Bytes, n: nat)
    requires |text| % BLOCK == 0 && BLOCK * (n + 1) <= |text|
    ensures ChainedAt(aes, key, prev, text, CbcEncrypt(aes, key, prev, text), n)
    decreases n
  {
    hide CbcEncrypt, ChainedAt, Head, Behind, XorBlock;
    if n == 0 {
      ChainedFirst(aes, key, prev, text);
    } else {
      var d := FirstCipherBlock(aes, key, prev, text);
      var rest := Behind(text);
      Chained(aes, key, d, rest, n - 1);
      ChainedNext(aes, key, prev, Head(text), rest, d, CbcEncrypt(aes, key, d, rest), n - 1);
    }
  }

  // ----- padding -----

  function PadLen(n: nat): (p: nat)
    ensures 1 <= p <= BLOCK && (n + p) % BLOCK == 0
  {
    BLOCK - n % BLOCK
  }

  function Padded(secret: Bytes): (text: Bytes)
    ensures |text| % BLOCK == 0
  {
    secret + seq(PadLen(|secret|), _ => Chr(PadLen(|secret|)))
  }

  /** A padded secret is the secret and then as many bytes as bring it to whole blocks, at least one and at most a
      block, each of them telling how many they are. */
  lemma PaddingBytes(secret: Bytes)
    ensures var text := Padded(secret); var p := |text| - |secret|;
            && 1 <= p <= BLOCK && |text| % BLOCK == 0 && text[..|secret|] == secret
            && forall i | |secret| <= i < |text| :: Byte(text[i]) == p
  {
  }

  // ----- base 16 -----

  function HexDigit(n: nat): byte
    requires n < 16
  {
    "0123456789ABCDEF"[n]
  }

  /** The value of a digit of either case, or 16. */
  function FromHex(c: char): (n: nat)
    ensures n <= 16
  {
    if '0' <= c <= '9' then Byte(c) - 48
    else if 'A' <= c <= 'F' then Byte(c) - 55
    else if 'a' <= c <= 'f' then Byte(c) - 87
    else 16
  }

  lemma HexDigitUndo(n: nat)
    requires n < 16
    ensures FromHex(HexDigit(n)) == n
    ensures HexDigit(n) in "0123456789ABCDEF"
  {
  }

  /** The digits stand in the order of their characters. */
  lemma DigitsAscend(m: nat, n: nat)
    requires m < 16 && n < 16
    ensures m < n <==> HexDigit(m) < HexDigit(n)
  {
  }

  /** A character has the value `n` exactly when it is the digit `n`, or that digit as a small letter. */
  lemma FromHexIff(c: char, n: nat)
    requires n < 16
    ensures FromHex(c) == n <==> c == HexDigit(n) || (n >= 10 && c as int == HexDigit(n) as int + 32)
  {
  }

  function HexEncode(s: Bytes): (out: Bytes)
    ensures |out| == 2 * |s|
  {
    seq(2 * |s|, i requires 0 <= i < 2 * |s| =>
      HexDigit(if i % 2 == 0 then Byte(s[i / 2]) / 16 else Byte(s[i / 2]) % 16))
  }

  predicate HexPair(src: string, j: nat) {
    2 * j + 1 < |src| && FromHex(src[2 * j]) < 16 && FromHex(src[2 * j + 1]) < 16
  }

  function HexByte(src: string, j: nat): byte
    requires HexPair(src, j)
  {
    Chr(16 * FromHex(src[2 * j]) + FromHex(src[2 * j + 1]))
  }

  /** How many pairs from `j` on `hex.Decode` converts before it stops at a bad digit. */
  function HexRun(src: string, j: nat): (n: nat)
    ensures forall k | j <= k < j + n :: HexPair(src, k)
    ensures !HexPair(src, j + n)
    decreases |src| - 2 * j
  {
    if HexPair(src, j) then 1 + HexRun(src, j + 1) else 0
  }

  /** The buffer after `hex.Decode` into zeroed memory, its error ignored. */
  function HexFill(src: string): (out: Bytes)
    ensures |out| == |src| / 2
  {
    var n := HexRun(src, 0);
    seq(|src| / 2, j requires 0 <= j < |src| / 2 => if j < n then HexByte(src, j) else '\0')
  }

  /** `hex.DecodeString`: the same, with its error. */
  function HexDecode(src: string): Result<Bytes> {
    if |src| % 2 == 0 && HexRun(src, 0) == |src| / 2 then Ok(HexFill(src)) else Err(BadHex)
  }

  /** A buffer holds the byte that two digits spell as long as no other character came before or there, and zeros from
      then on. */
  lemma HexFillAt(src: string, j: nat)
    requires j < |src| / 2
    ensures Byte(HexFill(src)[j]) ==
              if forall i | 0 <= i < 2 * j + 2 :: FromHex(src[i]) < 16 then 16 * FromHex(src[2 * j]) + FromHex(src[2 * j + 1])
              else 0
  {
    hide HexRun, FromHex;
    var n := HexRun(src, 0);
    if j < n {
      forall i | 0 <= i < 2 * j + 2 ensures FromHex(src[i]) < 16 {
        assert HexPair(src, i / 2);
      }
    } else {
      assert !HexPair(src, 0 + n);
      assert FromHex(src[2 * n]) >= 16 || FromHex(src[2 * n + 1]) >= 16;
    }
  }

  lemma HexPairUndo(s: Bytes, j: nat)
    requires j < |s|
    ensures HexPair(HexEncode(s), j) && HexByte(HexEncode(s), j) == s[j]
  {
    var b := Byte(s[j]);
    HexDigitUndo(b / 16);
    HexDigitUndo(b % 16);
    assert HexEncode(s)[2 * j] == HexDigit(b / 16);
    assert HexEncode(s)[2 * j + 1] == HexDigit(b % 16);
  }

  lemma HexUndo(s: Bytes)
    ensures HexDecode(HexEncode(s)) == Ok(s)
  {
    hide HexEncode, HexPair, HexByte, HexRun;
    var h := HexEncode(s);
    HexRunUndo(s, 0);
    forall j: nat | j < |s|
      ensures HexPair(h, j) && HexByte(h, j) == s[j]
    {
      HexPairUndo(s, j);
    }
    assert HexFill(h) == s;
  }

  lemma {:induction false} HexRunUndo(s: Bytes, j: nat)
    requires j <= |s|
    ensures HexRun(HexEncode(s), j) == |s| - j
    decreases |s| - j
  {
    hide HexEncode;
    if j < |s| {
      HexPairUndo(s, j);
      HexRunUndo(s, j + 1);
    }
  }

  // ----- encode and decode -----

  const PREFIX := "+encs+"

  function Encode(aes: Aes, kv: KeyValues, secret: Bytes): Bytes {
    HexEncode(CbcEncrypt(aes, kv.key, kv.iv, Padded(secret)))
  }

  /** What `Decode` makes of the bytes that came out of the cipher. */
  function Unpad(text: Bytes): Result<Bytes>
    requires |text| % BLOCK == 0
  {
    if |text| == 0 then Err(DecodeFailed)
    else
      var p := Byte(text[|text| - 1]);
      if p == 0 || p > BLOCK then Err(PaddingSize)
      else if !ValidFrom(text[..|text| - p], 0) then Err(NotUtf8)
      else Ok(text[..|text| - p])
  }

  function Trimmed(input: string): string {
    if PREFIX <= input then input[|PREFIX|..] else input
  }

  function Decode(aes: Aes, kv: KeyValues, input: string): Result<Bytes> {
    var text := HexFill(Trimmed(input));
    if |text| % BLOCK != 0 then Err(NotBlockMultiple)
    else Unpad(CbcDecrypt(aes, kv.key, kv.iv, text))
  }

  /** `hex.Decode` into a zeroed buffer. */
  method FillHex(text: array<byte>, input: string)
    requires text.Length == |input| / 2
    modifies text
    ensures text[..] == HexFill(input)
  {
    var out := HexFill(input);
    forall i | 0 <= i < text.Length {
      text[i] := out[i];
    }
  }

  /** `CryptBlocks` of the CBC decrypter, source and destination being the same buffer. */
  method CryptBlocks(aes: Aes, kv: KeyValues, text: array<byte>)
    requires text.Length % BLOCK == 0
    modifies text
    ensures text[..] == CbcDecrypt(aes, kv.key, kv.iv, old(text[..]))
  {
    var out := CbcDecrypt(aes, kv.key, kv.iv, text[..]);
    forall i | 0 <= i < text.Length {
      text[i] := out[i];
    }
  }

  method DecodeInPlace(aes: Aes, kv: KeyValues, input: string) returns (r: Result<Bytes>)
    ensures r == Decode(aes, kv, input)
  {
    var in_ := Trimmed(input);
    var text := new byte[|in_| / 2];
    FillHex(text, in_);
    if text.Length % BLOCK != 0 {
      return Err(NotBlockMultiple);
    }
    CryptBlocks(aes, kv, text);
    if text.Length == 0 {
      return Err(DecodeFailed);
    }
    var paddingLength := Byte(text[text.Length - 1]);
    if paddingLength == 0 || paddingLength > BLOCK {
      return Err(PaddingSize);
    }
    ghost var all := text[..];
    var plain := text[0..text.Length - paddingLength];
    assert plain == all[..|all| - paddingLength];
    if !ValidFrom(plain, 0) {
      return Err(NotUtf8);
    }
    return Ok(plain);
  }

  /** Unpadding a padded secret finds the secret, and complains exactly if it is not UTF-8. */
  lemma UnpadPadded(secret: Bytes)
    ensures Unpad(Padded(secret)) == if ValidFrom(secret, 0) then Ok(secret) else Err(NotUtf8)
  {
    var text, p := Padded(secret), PadLen(|secret|);
    assert text[|text| - 1] == Chr(p);
    assert text[..|text| - p] == secret;
  }

  lemma HexNoPrefix(s: Bytes)
    ensures Trimmed(HexEncode(s)) == HexEncode(s)
    ensures Trimmed(PREFIX + HexEncode(s)) == HexEncode(s)
  {
    var h := HexEncode(s);
    if |s| > 0 {
      HexPairUndo(s, 0);
      assert FromHex(h[0]) < 16;
      assert !(PREFIX <= h) by { assert PREFIX[0] == '+'; }
    }
    assert (PREFIX + h)[|PREFIX|..] == h;
  }

  /** Decoding what was encoded gives the secret back, with or without the prefix, exactly when the
      secret is valid UTF-8; any other secret is encoded but can never be decoded. */
  lemma DecodeEncode(aes: Aes, kv: KeyValues, secret: Bytes)
    requires aes.Bijective()
    ensures var want := if ValidFrom(secret, 0) then Ok(secret) else Err(NotUtf8);
            && Decode(aes, kv, Encode(aes, kv, secret)) == want
            && Decode(aes, kv, PREFIX + Encode(aes, kv, secret)) == want
  {
    hide CbcEncrypt, CbcDecrypt, HexEncode, HexFill, Padded, Unpad, ValidFrom, Trimmed;
    var text := Padded(secret);
    var c := CbcEncrypt(aes, kv.key, kv.iv, text);
    HexUndo(c);
    HexNoPrefix(c);
    CbcUndo(aes, kv.key, kv.iv, text);
    UnpadPadded(secret);
  }

  /** Every block of an encoded secret, the bytes that its digits spell, is the cipher applied to that of the padded
      secret with its bits flipped by the block before, those of the first by the vector. */
  lemma EncodedBlock(aes: Aes, kv: KeyValues, secret: Bytes, c: Bytes, n: nat)
    requires HexDecode(Encode(aes, kv, secret)) == Ok(c)
    requires BLOCK * (n + 1) <= |Padded(secret)|
    ensures |c| == |Padded(secret)| && ChainedAt(aes, kv.key, kv.iv, Padded(secret), c, n)
  {
    hide CbcEncrypt, HexEncode, HexDecode, Padded, ChainedAt;
    var text := Padded(secret);
    HexUndo(CbcEncrypt(aes, kv.key, kv.iv, text));
    Chained(aes, kv.key, kv.iv, text, n);
  }

  /** Under one key, two vectors give different encodings of any secret. */
  lemma VectorsTell(aes: Aes, key: Key, v: Block, w: Block, secret: Bytes)
    requires aes.Bijective()
    ensures Encode(aes, KeyValues(key, v), secret) == Encode(aes, KeyValues(key, w), secret) <==> v == w
  {
    hide CbcEncrypt, HexEncode, HexDecode, Padded;
    PaddingBytes(secret);
    var text := Padded(secret);
    if Encode(aes, KeyValues(key, v), secret) == Encode(aes, KeyValues(key, w), secret) {
      HexUndo(CbcEncrypt(aes, key, v, text));
      HexUndo(CbcEncrypt(aes, key, w, text));
      SameCipherText(aes, key, v, w, text);
    }
  }

  lemma SameCipherText(aes: Aes, key: Key, v: Block, w: Block, text: Bytes)
    requires aes.Bijective() && |text| % BLOCK == 0 && |text| > 0
    requires CbcEncrypt(aes, key, v, text) == CbcEncrypt(aes, key, w, text)
    ensures v == w
  {
    hide Xor;
    var first: Block := text[..BLOCK];
    assert CbcEncrypt(aes, key, v, text)[..BLOCK] == aes.encrypt(key, XorBlock(first, v));
    assert CbcEncrypt(aes, key, w, text)[..BLOCK] == aes.encrypt(key, XorBlock(first, w));
    var x, y := XorBlock(first, v), XorBlock(first, w);
    assert x == y by {
      assert aes.decrypt(key, aes.encrypt(key, x)) == x;
    }
    forall j | 0 <= j < BLOCK ensures v[j] == w[j] {
      assert x[j] == Xor(first[j], v[j]) && y[j] == Xor(first[j], w[j]);
      XorCancels(first[j], v[j], w[j]);
    }
  }

  lemma XorCancels(a: byte, b: byte, c: byte)
    requires Xor(a, b) == Xor(a, c)
    ensures b == c
  {
    hide XorNat;
    XorSymmetric(Byte(a), Byte(b));
    XorSymmetric(Byte(a), Byte(c));
    XorUndo(Byte(b), Byte(a));
    XorUndo(Byte(c), Byte(a));
  }

  /** The last byte of a padding tells its length; the others may be anything. */
  predicate Padding(p: Bytes) {
    1 <= |p| <= BLOCK && Byte(p[|p| - 1]) == |p|
  }

  /** Encrypting `text` gives the bytes that `input` spells, its prefix left out. */
  ghost predicate Enciphers(aes: Aes, kv: KeyValues, text: Bytes, input: string) {
    |text| % BLOCK == 0 && CbcEncrypt(aes, kv.key, kv.iv, text) == HexFill(Trimmed(input))
  }

  /** Decoding yields `v` exactly when `v` is UTF-8 and the input is a cipher text of `v` with a padding. */
  lemma DecodeOkIff(aes: Aes, kv: KeyValues, input: string, v: Bytes)
    requires aes.Bijective()
    ensures Decode(aes, kv, input) == Ok(v) <==>
              ValidFrom(v, 0) && exists p: Bytes :: Padding(p) && Enciphers(aes, kv, v + p, input)
  {
    hide CbcEncrypt, CbcDecrypt, HexFill, ValidFrom, Trimmed;
    var c := HexFill(Trimmed(input));
    if Decode(aes, kv, input) == Ok(v) {
      var text := CbcDecrypt(aes, kv.key, kv.iv, c);
      CbcRedo(aes, kv.key, kv.iv, c);
      var p := text[|v|..];
      assert v + p == text;
      assert Padding(p) && Enciphers(aes, kv, v + p, input);
    }
    if p: Bytes :| ValidFrom(v, 0) && Padding(p) && Enciphers(aes, kv, v + p, input) {
      CbcUndo(aes, kv.key, kv.iv, v + p);
      assert (v + p)[..|v|] == v;
    }
  }

  /** Which error an input gives: one about blocks for bytes that are not whole blocks, one of its own for no bytes,
      one about UTF-8 for the cipher text of other bytes with a padding, and one about padding for all else. */
  lemma DecodeErrors(aes: Aes, kv: KeyValues, input: string)
    requires aes.Bijective()
    ensures var c, r := HexFill(Trimmed(input)), Decode(aes, kv, input);
            && (r == Err(NotBlockMultiple) <==> |c| % BLOCK != 0)
            && (r == Err(DecodeFailed) <==> c == [])
            && (r == Err(NotUtf8) <==>
                  exists v: Bytes, p: Bytes :: !ValidFrom(v, 0) && Padding(p) && Enciphers(aes, kv, v + p, input))
            && (r.Err? ==> r.error in {NotBlockMultiple, DecodeFailed, NotUtf8, PaddingSize})
  {
    hide CbcEncrypt, CbcDecrypt, HexFill, ValidFrom, Trimmed;
    var c, r := HexFill(Trimmed(input)), Decode(aes, kv, input);
    if r == Err(NotUtf8) {
      var text := CbcDecrypt(aes, kv.key, kv.iv, c);
      CbcRedo(aes, kv.key, kv.iv, c);
      var n := |text| - Byte(text[|text| - 1]);
      var v, p := text[..n], text[n..];
      assert v + p == text;
      assert !ValidFrom(v, 0) && Padding(p) && Enciphers(aes, kv, v + p, input);
    }
    if v: Bytes, p: Bytes :| !ValidFrom(v, 0) && Padding(p) && Enciphers(aes, kv, v + p, input) {
      CbcUndo(aes, kv.key, kv.iv, v + p);
      assert (v + p)[..|v|] == v;
    }
  }

  /** The cipher text is the shortest whole number of blocks longer than the secret. */
  lemma EncodeLength(aes: Aes, kv: KeyValues, secret: Bytes, n: nat)
    ensures |Encode(aes, kv, secret)| == 2 * BLOCK * (|secret| / BLOCK + 1)
    ensures n % BLOCK == 0 && n > |secret| ==> 2 * n >= |Encode(aes, kv, secret)|
  {
  }

  lemma PaddedInjective(a: Bytes, b: Bytes)
    requires Padded(a) == Padded(b)
    ensures a == b
  {
    var x, y := Padded(a), Padded(b);
    assert x[|x| - 1] == Chr(PadLen(|a|)) && y[|y| - 1] == Chr(PadLen(|b|));
    assert PadLen(|a|) == Byte(Chr(PadLen(|a|))) == Byte(Chr(PadLen(|b|))) == PadLen(|b|);
    assert a == x[..|x| - PadLen(|a|)];
    assert b == y[..|y| - PadLen(|b|)];
  }

  /** No two secrets, UTF-8 or not, have the same encoding. */
  lemma EncodeInjective(aes: Aes, kv: KeyValues, a: Bytes, b: Bytes)
    requires aes.Bijective() && Encode(aes, kv, a) == Encode(aes, kv, b)
    ensures a == b
  {
    hide CbcEncrypt, CbcDecrypt, HexEncode, HexDecode, Padded;
    HexUndo(CbcEncrypt(aes, kv.key, kv.iv, Padded(a)));
    HexUndo(CbcEncrypt(aes, kv.key, kv.iv, Padded(b)));
    CbcUndo(aes, kv.key, kv.iv, Padded(a));
    CbcUndo(aes, kv.key, kv.iv, Padded(b));
    PaddedInjective(a, b);
  }
}
