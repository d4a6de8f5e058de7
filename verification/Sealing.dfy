/** How a secret column is sealed: PKCS#7 padding (section 6.3 of RFC 5652), CBC chaining
    (section 6.2 of NIST SP 800-38A) over a 16-byte block cipher, base64 (section 4 of RFC 4648).
    Go strings are byte sequences here. */
module Sealing {
  import opened Wrappers

  type Bytes = seq<bv8>

  const BLOCK_SIZE: nat := 16
  const DASH: Bytes := [45]

  // ---------- padding ----------

  function Repeat(b: bv8, n: nat): (r: Bytes)
    ensures |r| == n && forall k :: 0 <= k < n ==> r[k] == b
  {
    seq(n, _ => b)
  }

  function Pad(data: Bytes): (r: Bytes)
    ensures |r| % BLOCK_SIZE == 0 && |data| < |r| && data <= r
  {
    var padding := BLOCK_SIZE - |data| % BLOCK_SIZE;
    data + Repeat(padding as bv8, padding)
  }

  /** Indexing an empty slice, or slicing below zero, panics. */
  function Unpad(data: Bytes): Outcome<Bytes> {
    if data == [] then Panic
    else
      var unpadding := data[|data| - 1] as int;
      if unpadding > |data| then Panic else Ok(data[..|data| - unpadding])
  }

  lemma UnpadPad(data: Bytes)
    ensures Unpad(Pad(data)) == Ok(data)
  {}

  // ---------- CBC ----------

  /** A block cipher: for each 32-byte key a permutation of the 16-byte blocks. */
  datatype BlockFunctions = BlockFunctions(enc: (Bytes, Bytes) -> Bytes, dec: (Bytes, Bytes) -> Bytes) {
    ghost predicate Permutes() {
      forall k, b ::
        |b| == BLOCK_SIZE ==>
          && |enc(k, b)| == BLOCK_SIZE
          && |dec(k, b)| == BLOCK_SIZE
          && dec(k, enc(k, b)) == b
          && enc(k, dec(k, b)) == b
    }
  }

  type Cipher = c: BlockFunctions | c.Permutes() ghost witness BlockFunctions((_, b) => b, (_, b) => b)

  function Xor(a: Bytes, b: Bytes): (r: Bytes)
    requires |a| == |b|
    ensures |r| == |a|
  {
    seq(|a|, i requires 0 <= i < |a| => a[i] ^ b[i])
  }

  lemma XorTwice(a: Bytes, b: Bytes)
    requires |a| == |b|
    ensures Xor(Xor(a, b), b) == a
  {}

  /** CBC over whole blocks; each ciphertext block is the next block's chaining value. */
  function CbcEncrypt(c: Cipher, key: Bytes, iv: Bytes, data: Bytes): (r: Bytes)
    requires |iv| == BLOCK_SIZE && |data| % BLOCK_SIZE == 0
    ensures |r| == |data|
    decreases |data|
  {
    if data == [] then []
    else
      var block := c.enc(key, Xor(data[..BLOCK_SIZE], iv));
      block + CbcEncrypt(c, key, block, data[BLOCK_SIZE..])
  }

  function CbcDecrypt(c: Cipher, key: Bytes, iv: Bytes, data: Bytes): (r: Bytes)
    requires |iv| == BLOCK_SIZE && |data| % BLOCK_SIZE == 0
    ensures |r| == |data|
    decreases |data|
  {
    if data == [] then []
    else
      Xor(c.dec(key, data[..BLOCK_SIZE]), iv) + CbcDecrypt(c, key, data[..BLOCK_SIZE], data[BLOCK_SIZE..])
  }

  lemma {:induction false} CbcRoundTrip(c: Cipher, key: Bytes, iv: Bytes, data: Bytes)
    requires |iv| == BLOCK_SIZE && |data| % BLOCK_SIZE == 0
    ensures CbcDecrypt(c, key, iv, CbcEncrypt(c, key, iv, data)) == data
    decreases |data|
  {
    if data == [] {
    } else {
      var first, rest := data[..BLOCK_SIZE], data[BLOCK_SIZE..];
      var block := c.enc(key, Xor(first, iv));
      var out := CbcEncrypt(c, key, iv, data);
      assert out[..BLOCK_SIZE] == block && out[BLOCK_SIZE..] == CbcEncrypt(c, key, block, rest);
      CbcRoundTrip(c, key, block, rest);
      XorTwice(first, iv);
      assert data == first + rest;
    }
  }

  // ---------- base64 ----------

  function EncodeSextet(v: bv8): bv8 {
    if v < 26 then v + 65 else if v < 52 then v + 71 else if v < 62 then v - 4
    else if v == 62 then 43 else 47
  }

  function DecodeSextet(ch: bv8): Option<bv8> {
    if 65 <= ch <= 90 then Some(ch - 65)
    else if 97 <= ch <= 122 then Some(ch - 71)
    else if 48 <= ch <= 57 then Some(ch + 4)
    else if ch == 43 then Some(62)
    else if ch == 47 then Some(63)
    else None
  }

  lemma SextetRoundTrip(v: bv8)
    requires v < 64
    ensures DecodeSextet(EncodeSextet(v)) == Some(v)
    ensures EncodeSextet(v) != 61 && EncodeSextet(v) != 10 && EncodeSextet(v) != 13 && EncodeSextet(v) != 45
  {}

  const PAD_CHAR: bv8 := 61

  // Three bytes as four sextets, and back.
  function S0(b0: bv8): bv8 { b0 >> 2 }
  function S1(b0: bv8, b1: bv8): bv8 { ((b0 & 3) << 4) | (b1 >> 4) }
  function S2(b1: bv8, b2: bv8): bv8 { ((b1 & 15) << 2) | (b2 >> 6) }
  function S3(b2: bv8): bv8 { b2 & 63 }
  function B0(v0: bv8, v1: bv8): bv8 { (v0 << 2) | (v1 >> 4) }
  function B1(v1: bv8, v2: bv8): bv8 { (v1 << 4) | (v2 >> 2) }
  function B2(v2: bv8, v3: bv8): bv8 { (v2 << 6) | v3 }

  /** The group written for one, two or three bytes. */
  function EncodeGroup(b: Bytes): (r: Bytes)
    requires 1 <= |b| <= 3
    ensures |r| == 4
  {
    var b1 := if |b| > 1 then b[1] else 0;
    var b2 := if |b| > 2 then b[2] else 0;
    [ EncodeSextet(S0(b[0])),
      EncodeSextet(S1(b[0], b1)),
      if |b| > 1 then EncodeSextet(S2(b1, b2)) else PAD_CHAR,
      if |b| > 2 then EncodeSextet(S3(b2)) else PAD_CHAR ]
  }

  function Encode(data: Bytes): (r: Bytes)
    ensures |r| % 4 == 0 && (data != [] ==> |r| >= 4)
  {
    if data == [] then []
    else if |data| < 3 then EncodeGroup(data)
    else EncodeGroup(data[..3]) + Encode(data[3..])
  }

  /** One group of four; padding may replace the last one or two characters. Stray low bits of the last
      sextet are ignored, as the non-strict decoder does. */
  function DecodeGroup(g: Bytes): Option<Bytes>
    requires |g| == 4
  {
    match (DecodeSextet(g[0]), DecodeSextet(g[1]))
    case (Some(v0), Some(v1)) =>
      var b0 := B0(v0, v1);
      if g[2] == PAD_CHAR then
        if g[3] == PAD_CHAR then Some([b0]) else None
      else (
        match DecodeSextet(g[2])
        case None => None
        case Some(v2) =>
          var b1 := B1(v1, v2);
          if g[3] == PAD_CHAR then Some([b0, b1])
          else
            match DecodeSextet(g[3])
            case None => None
            case Some(v3) => Some([b0, b1, B2(v2, v3)])
      )
    case _ => None
  }

  /** Carriage returns and line feeds are skipped wherever they stand. */
  function DropNewlines(s: Bytes): Bytes {
    if s == [] then []
    else if s[0] == 10 || s[0] == 13 then DropNewlines(s[1..])
    else [s[0]] + DropNewlines(s[1..])
  }

  function DecodeGroups(s: Bytes): Option<Bytes> {
    if s == [] then Some([])
    else if |s| < 4 then None
    else
      match DecodeGroup(s[..4])
      case None => None
      case Some(b) =>
        if |b| < 3 then (if |s| == 4 then Some(b) else None)
        else
          match DecodeGroups(s[4..])
          case None => None
          case Some(rest) => Some(b + rest)
  }

  function Decode(s: Bytes): Option<Bytes> {
    DecodeGroups(DropNewlines(s))
  }

  predicate Plain(s: Bytes) {
    forall k :: 0 <= k < |s| ==> s[k] != 10 && s[k] != 13 && s[k] != 45
  }

  lemma GroupRoundTrip(b: Bytes)
    requires 1 <= |b| <= 3
    ensures DecodeGroup(EncodeGroup(b)) == Some(b)
    ensures Plain(EncodeGroup(b))
  {
    var b1 := if |b| > 1 then b[1] else 0;
    var b2 := if |b| > 2 then b[2] else 0;
    SextetsRejoin(b[0], b1, b2);
    SextetRoundTrip(S0(b[0]));
    SextetRoundTrip(S1(b[0], b1));
    SextetRoundTrip(S2(b1, b2));
    SextetRoundTrip(S3(b2));
    var g := EncodeGroup(b);
    assert DecodeSextet(g[0]) == Some(S0(b[0])) && DecodeSextet(g[1]) == Some(S1(b[0], b1));
    if |b| == 1 {
      assert b == [b[0]];
    } else if |b| == 2 {
      assert b == [b[0], b1];
    } else {
      assert b == [b[0], b1, b2];
    }
  }

  lemma SextetsRejoin(b0: bv8, b1: bv8, b2: bv8)
    ensures B0(S0(b0), S1(b0, b1)) == b0
    ensures B1(S1(b0, b1), S2(b1, b2)) == b1
    ensures B2(S2(b1, b2), S3(b2)) == b2
    ensures S0(b0) < 64 && S1(b0, b1) < 64 && S2(b1, b2) < 64 && S3(b2) < 64
  {}

  lemma {:induction false} PlainHasNoNewlines(s: Bytes)
    requires Plain(s)
    ensures DropNewlines(s) == s
  {
    if s == [] {
    } else {
      PlainHasNoNewlines(s[1..]);
      assert s == [s[0]] + s[1..];
    }
  }

  lemma {:induction false} GroupsRoundTrip(data: Bytes)
    ensures DecodeGroups(Encode(data)) == Some(data)
    ensures Plain(Encode(data))
  {
    if data == [] {
    } else {
      if |data| < 3 {
        GroupRoundTrip(data);
        assert Encode(data)[..4] == Encode(data);
      } else {
        GroupRoundTrip(data[..3]);
        GroupsRoundTrip(data[3..]);
        assert Encode(data)[..4] == EncodeGroup(data[..3]) && Encode(data)[4..] == Encode(data[3..]);
        assert data == data[..3] + data[3..];
      }
    }
  }

  lemma DecodeEncode(data: Bytes)
    ensures Decode(Encode(data)) == Some(data)
    ensures data != [] ==> Encode(data) != [] && Encode(data) != DASH
  {
    GroupsRoundTrip(data);
    PlainHasNoNewlines(Encode(data));
  }

  // ---------- one sealed value ----------

  predicate GoodKey(key: Bytes) {
    |key| in {16, 24, 32}
  }

  /** AesEncryptCBC followed by base64 encoding. The key's first block is the initialisation vector. */
  function Seal(c: Cipher, key: Bytes, plain: Bytes): Outcome<Bytes>
  {
    if !GoodKey(key) then Err
    else Ok(Encode(CbcEncrypt(c, key, key[..BLOCK_SIZE], Pad(plain))))
  }

  /** base64 decoding followed by AesDecryptCBC. A ciphertext that is not whole blocks panics. */
  function Open(c: Cipher, key: Bytes, text: Bytes): Outcome<Bytes>
  {
    match Decode(text)
    case None => Err
    case Some(data) =>
      if !GoodKey(key) then Err
      else if |data| % BLOCK_SIZE != 0 then Panic
      else Unpad(CbcDecrypt(c, key, key[..BLOCK_SIZE], data))
  }

  /** A sealed value opens to the plaintext, and is never one of the two sentinels. */
  lemma OpenSeal(c: Cipher, key: Bytes, plain: Bytes)
    requires GoodKey(key)
    ensures Seal(c, key, plain).Ok?
    ensures Open(c, key, Seal(c, key, plain).value) == Ok(plain)
    ensures Seal(c, key, plain).value != [] && Seal(c, key, plain).value != DASH
  {
    var iv := key[..BLOCK_SIZE];
    var data := CbcEncrypt(c, key, iv, Pad(plain));
    DecodeEncode(data);
    CbcRoundTrip(c, key, iv, Pad(plain));
    UnpadPad(plain);
  }

  // ---------- the formats ----------

  /** PKCS#7: between one and sixteen bytes are added, each of which is their number. */
  lemma PadExactly(data: Bytes)
    ensures var n := |Pad(data)| - |data|;
            && 1 <= n <= 16 && Pad(data)[..|data|] == data
            && forall k :: |data| <= k < |Pad(data)| ==> Pad(data)[k] as int == n
  {}

  function BlockOf(data: Bytes, k: nat): Bytes
    requires 16 * k + 16 <= |data|
  {
    data[16 * k..16 * k + 16]
  }

  /** CBC: each block of the ciphertext is the cipher of the plaintext's xored with the one before. */
  lemma {:induction false} CbcChains(c: Cipher, key: Bytes, iv: Bytes, data: Bytes, k: nat)
    requires |iv| == 16 && |data| % 16 == 0 && 16 * k + 16 <= |data|
    ensures var out := CbcEncrypt(c, key, iv, data);
            BlockOf(out, k) == c.enc(key, Xor(BlockOf(data, k), if k == 0 then iv else BlockOf(out, k - 1)))
    decreases k
  {
    var block, out := c.enc(key, Xor(data[..16], iv)), CbcEncrypt(c, key, iv, data);
    var rest := CbcEncrypt(c, key, block, data[16..]);
    assert out == block + rest && data[..16] == BlockOf(data, 0);
    if k > 0 {
      CbcChains(c, key, block, data[16..], k - 1);
      assert BlockOf(data[16..], k - 1) == BlockOf(data, k) && BlockOf(rest, k - 1) == BlockOf(out, k);
      if k > 1 {
        assert BlockOf(rest, k - 2) == BlockOf(out, k - 1);
      } else {
        assert BlockOf(out, 0) == block;
      }
    } else {
      assert BlockOf(out, 0) == block;
    }
  }

  /** A sealed value is the base64 text of such a chain over the padded plaintext; it starts from the first block of
      the key. */
  lemma SealExactly(c: Cipher, key: Bytes, plain: Bytes, k: nat)
    requires GoodKey(key) && 16 * k + 16 <= |Pad(plain)|
    ensures Seal(c, key, plain).Ok? && Decode(Seal(c, key, plain).value).Some?
    ensures var text := Decode(Seal(c, key, plain).value).value;
            && |text| == |Pad(plain)|
            && BlockOf(text, k)
               == c.enc(key, Xor(BlockOf(Pad(plain), k), if k == 0 then key[..16] else BlockOf(text, k - 1)))
  {
    DecodeEncode(CbcEncrypt(c, key, key[..16], Pad(plain)));
    CbcChains(c, key, key[..16], Pad(plain), k);
  }

  /** The examples of section 10 of RFC 4648: "f", "fo" and "foo" are "Zg==", "Zm8=" and "Zm9v". */
  lemma EncodeExamples()
    ensures Encode([102]) == [90, 103, 61, 61]
    ensures Encode([102, 111]) == [90, 109, 56, 61]
    ensures Encode([102, 111, 111]) == [90, 109, 57, 118]
  {
    assert [102, 111, 111][3..] == [] && [102, 111, 111][..3] == [102, 111, 111];
  }

  // ---------- sealing as the services see it ----------

  /** A pair of functions that seal and open a value under a key. */
  datatype SealingPair = SealingPair(seal: (Bytes, Bytes) -> Outcome<Bytes>, open: (Bytes, Bytes) -> Outcome<Bytes>) {
    ghost predicate Valid() {
      forall k, p {:trigger seal(k, p)} ::
        if GoodKey(k)
        then
          && seal(k, p).Ok?
          && open(k, seal(k, p).value) == Ok(p)
          && seal(k, p).value != [] && seal(k, p).value != DASH
        else seal(k, p) == Err
    }
  }

  type Vault = v: SealingPair | v.Valid() ghost witness (AesIsVault(IDENTITY); AesPair(IDENTITY))

  const IDENTITY: Cipher := BlockFunctions((_, b) => b, (_, b) => b)

  function AesPair(c: Cipher): SealingPair {
    SealingPair((k, p) => Seal(c, k, p), (k, t) => Open(c, k, t))
  }

  /** The pair the program uses is such a vault, for every block cipher. */
  lemma AesIsVault(c: Cipher)
    ensures AesPair(c).Valid()
  {
    forall k, p | GoodKey(k)
      ensures Seal(c, k, p).Ok? && Open(c, k, Seal(c, k, p).value) == Ok(p)
      ensures Seal(c, k, p).value != [] && Seal(c, k, p).value != DASH
    {
      OpenSeal(c, k, p);
    }
  }
}
