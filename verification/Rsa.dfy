/**
  The key wrap of the handshake: the client's PUBLICKEYBLOB, RSAES-PKCS1-v1_5 (section 7.2.1 of
  RFC 8017) and the SIMPLEBLOB that carries the session key back.
 */
module Rsa {
  import opened Arith
  import opened Bytes
  import opened Limbs
  import opened Bigint

  const PUBLICKEYBLOB: Byte := 0x06
  const SIMPLEBLOB: Byte := 0x01
  const BLOB_VERSION: Byte := 0x02
  const CALG_RSA_KEYX: nat := 0x0000A400
  const CALG_RC4: nat := 0x00006801
  const RSA1_MAGIC: nat := 0x31415352

  // --- Padding -----------------------------------------------------------------------------------

  /** The type-2 block: 00 02, padding, 00, message. */
  function Pad(message: seq<Byte>, padding: seq<Byte>): seq<Byte> { [0, 2] + padding + [0] + message }

  /** Random non-zero bytes, as many as fill the block. */
  predicate GoodPadding(k: nat, message: seq<Byte>, padding: seq<Byte>) {
    |message| + 11 <= k && |padding| == k - 3 - |message| && forall i | 0 <= i < |padding| :: padding[i] != 0
  }

  function FirstZero(em: seq<Byte>, i: nat): (z: nat)
    ensures z < |em| ==> i <= z && em[z] == 0
    decreases |em| - i
  {
    if i >= |em| then |em| else if em[i] == 0 then i else FirstZero(em, i + 1)
  }

  /** What the receiver does with a block: strip everything up to the zero after at least eight bytes. */
  function Unpad(em: seq<Byte>): Result<seq<Byte>> {
    if |em| < 11 || em[0] != 0 || em[1] != 2 then Err("decryption error")
    else
      var z := FirstZero(em, 2);
      if z >= |em| || z < 10 then Err("decryption error") else Ok(em[z + 1..])
  }

  lemma {:induction false} FirstZeroIs(em: seq<Byte>, i: nat, z: nat)
    requires i <= z < |em| && em[z] == 0 && forall k | i <= k < z :: em[k] != 0
    ensures FirstZero(em, i) == z
    decreases z - i
  {
    if i < z { FirstZeroIs(em, i + 1, z); }
  }

  lemma UnpadPad(k: nat, message: seq<Byte>, padding: seq<Byte>)
    requires GoodPadding(k, message, padding)
    ensures |Pad(message, padding)| == k && Unpad(Pad(message, padding)) == Ok(message)
  {
    var em := Pad(message, padding);
    var z := 2 + |padding|;
    FirstZeroIs(em, 2, z);
    assert em[z + 1..] == message;
  }

  // --- The cipher --------------------------------------------------------------------------------

  /** The number a big-endian block spells. */
  function BlockVal(em: seq<Byte>): nat { BytesVal(Reverse(em)) }

  /** What `mod_pow` makes of the block. */
  function Encrypted(em: seq<Byte>, e: nat, n: nat): nat { PowMod(BlockVal(em), e, n) }

  /** Undoing it with the private exponent. */
  function Decrypted(c: nat, d: nat, n: nat, k: nat): seq<Byte> { Reverse(LeBytes(Rem(Pow(c, d), n), k)) }

  /** `d` undoes `e` modulo `n`. */
  ghost predicate KeyPair(n: nat, e: nat, d: nat) {
    forall x: nat | x < n :: Rem(Pow(x, e * d), n) == x
  }

  /** The number recovered is the block's number reduced modulo `n`. */
  lemma RecoveredNumber(v: nat, e: nat, d: nat, n: nat)
    requires n > 0 && e > 0 && KeyPair(n, e, d)
    ensures Rem(Pow(PowMod(v, e, n), d), n) == v % n
  {
    hide Pow;
    var x := v % n;
    RemPow(v, e, n);
    assert PowMod(v, e, n) == Rem(Pow(x, e), n);
    RemPow(Pow(x, e), d, n);
    PowPow(x, e, d);
    assert Rem(Pow(x, e * d), n) == x;
  }

  /** The block comes back exactly when it denotes a number below the modulus. */
  lemma BlockRecovered(em: seq<Byte>, e: nat, d: nat, n: nat)
    requires 0 < n <= Pow(256, |em|) && e > 0 && KeyPair(n, e, d)
    ensures Decrypted(Encrypted(em, e, n), d, n, |em|) == em <==> BlockVal(em) < n
  {
    hide Pow;
    var v := BlockVal(em);
    RecoveredNumber(v, e, d, n);
    assert Decrypted(Encrypted(em, e, n), d, n, |em|) == Reverse(LeBytes(v % n, |em|));
    if v < n {
      DivModUnique(v, n, 0, v);
      SpellVal(Reverse(em));
      ReverseTwice(em);
    } else if Reverse(LeBytes(v % n, |em|)) == em {
      ReverseTwice(LeBytes(v % n, |em|));
      ValSpellFits(v % n, |em|);
      assert false;
    }
  }

  /** A leading zero byte keeps a block below any modulus whose top byte is not zero. */
  lemma PaddedBelow(k: nat, message: seq<Byte>, padding: seq<Byte>, n: nat)
    requires GoodPadding(k, message, padding) && Pow(256, k - 1) <= n
    ensures BlockVal(Pad(message, padding)) < n
  {
    var le := Reverse(Pad(message, padding));
    assert le[|le| - 1] == 0;
    TopZero(le);
  }

  // --- The blob ----------------------------------------------------------------------------------

  const SIMPLE_HEADER: seq<Byte> := [SIMPLEBLOB, BLOB_VERSION, 0, 0] + LeBytes(CALG_RC4, 4) + LeBytes(CALG_RSA_KEYX, 4)

  function SimpleBlob(n: nat, e: nat, k: nat, key: seq<Byte>, padding: seq<Byte>): seq<Byte> {
    SIMPLE_HEADER + LeBytes(Encrypted(Pad(key, padding), e, n), k)
  }

  /** What the client does with the blob: take the little-endian ciphertext, decrypt it, strip the padding. */
  function OpenBlob(blob: seq<Byte>, n: nat, d: nat, k: nat): Result<seq<Byte>> {
    if |blob| != 12 + k || blob[..12] != SIMPLE_HEADER then Err("bad blob")
    else Unpad(Decrypted(BytesVal(blob[12..]), d, n, k))
  }

  lemma ExponentPositive(n: nat, e: nat, d: nat)
    requires n > 2 && KeyPair(n, e, d)
    ensures e > 0
  {
    assert Rem(Pow(2, e * d), n) == 2;
    assert Pow(2, 0) == 1;
    assert e == 0 ==> e * d == 0;
  }

  lemma EncryptedBelow(v: nat, e: nat, n: nat)
    requires n > 0 && e > 0
    ensures PowMod(v, e, n) < n
  {
  }

  lemma BigModulus(k: nat, n: nat)
    requires k >= 2 && Pow(256, k - 1) <= n
    ensures n > 2
  {
    PowPositive(256, k - 2);
    assert Pow(256, k - 1) == 256 * Pow(256, k - 2);
  }

  /** Whatever the key and the padding, the client that opens the blob holds exactly the session key. */
  lemma SessionKeyArrives(n: nat, e: nat, d: nat, k: nat, key: seq<Byte>, padding: seq<Byte>)
    requires GoodPadding(k, key, padding) && Pow(256, k - 1) <= n < Pow(256, k) && KeyPair(n, e, d)
    ensures OpenBlob(SimpleBlob(n, e, k, key, padding), n, d, k) == Ok(key)
  {
    hide Pow;
    var em := Pad(key, padding);
    var blob := SimpleBlob(n, e, k, key, padding);
    var c := Encrypted(em, e, n);
    BigModulus(k, n);
    ExponentPositive(n, e, d);
    EncryptedBelow(BlockVal(em), e, n);
    ValSpellFits(c, k);
    assert blob[..12] == SIMPLE_HEADER && blob[12..] == LeBytes(c, k);
    UnpadPad(k, key, padding);
    PaddedBelow(k, key, padding, n);
    BlockRecovered(em, e, d, n);
  }

  // --- The client's public key -------------------------------------------------------------------

  /** A parsed key as numbers. */
  datatype KeyNumbers = KeyNumbers(modulus: nat, exponent: nat, bytes: nat)

  function ReadLe32(b: seq<Byte>, i: nat): nat
    requires i + 4 <= |b|
  {
    BytesVal(b[i..i + 4])
  }

  function ParsedKey(blob: seq<Byte>): Result<KeyNumbers> {
    if |blob| < 20 || blob[0] != PUBLICKEYBLOB then Err("not a PUBLICKEYBLOB")
    else if ReadLe32(blob, 8) != RSA1_MAGIC then Err("missing RSA1 magic")
    else
      var bitlen := ReadLe32(blob, 12);
      var size := bitlen / 8;
      if bitlen == 0 || bitlen % 8 != 0 || |blob| < 20 + size then Err("bad modulus length")
      else Ok(KeyNumbers(BytesVal(blob[20..20 + size]), ReadLe32(blob, 16), size))
  }

  /** The blob CryptExportKey writes for a public key. */
  function ExportedKey(key: KeyNumbers): seq<Byte> {
    [PUBLICKEYBLOB, BLOB_VERSION, 0, 0] + LeBytes(CALG_RSA_KEYX, 4) + LeBytes(RSA1_MAGIC, 4)
    + LeBytes(8 * key.bytes, 4) + LeBytes(key.exponent, 4) + LeBytes(key.modulus, key.bytes)
  }

  lemma FieldAt(a: seq<Byte>, v: nat, n: nat, c: seq<Byte>)
    requires v < Pow(256, n)
    ensures (a + LeBytes(v, n) + c)[|a|..|a| + n] == LeBytes(v, n)
    ensures BytesVal((a + LeBytes(v, n) + c)[|a|..|a| + n]) == v
  {
    assert (a + LeBytes(v, n) + c)[|a|..|a| + n] == LeBytes(v, n);
    ValSpellFits(v, n);
  }

  /** Parsing an exported key, whatever follows it, gives the key. */
  lemma ParsesExported(key: KeyNumbers, rest: seq<Byte>)
    requires 0 < key.bytes && 8 * key.bytes < BASE && key.exponent < BASE && key.modulus < Pow(256, key.bytes)
    ensures ParsedKey(ExportedKey(key) + rest) == Ok(key)
  {
    hide Pow, BytesVal, LeBytes;
    Pow256();
    var h := [PUBLICKEYBLOB, BLOB_VERSION, 0, 0] + LeBytes(CALG_RSA_KEYX, 4);
    var m, l := LeBytes(RSA1_MAGIC, 4), LeBytes(8 * key.bytes, 4);
    var x, n := LeBytes(key.exponent, 4), LeBytes(key.modulus, key.bytes);
    var blob := ExportedKey(key) + rest;
    assert blob == h + m + (l + x + n + rest);
    FieldAt(h, RSA1_MAGIC, 4, l + x + n + rest);
    assert blob == h + m + l + (x + n + rest);
    FieldAt(h + m, 8 * key.bytes, 4, x + n + rest);
    assert blob == h + m + l + x + (n + rest);
    FieldAt(h + m + l, key.exponent, 4, n + rest);
    assert blob == h + m + l + x + n + rest;
    FieldAt(h + m + l + x, key.modulus, key.bytes, rest);
  }

  /** Only such blobs are parsed: what was read is what an exported key has at those places. */
  lemma ParsedIsExported(blob: seq<Byte>)
    requires ParsedKey(blob).Ok?
    ensures var key := ParsedKey(blob).value;
            && 0 < key.bytes && 20 + key.bytes <= |blob| && blob[0] == 6
            && |ExportedKey(key)| == 20 + key.bytes && blob[8..20 + key.bytes] == ExportedKey(key)[8..]
  {
    hide LeBytes, BytesVal;
    var key := ParsedKey(blob).value;
    var k := key.bytes;
    FieldBack(blob, 8, 4);
    FieldBack(blob, 12, 4);
    FieldBack(blob, 16, 4);
    FieldBack(blob, 20, k);
    assert ReadLe32(blob, 12) == 8 * k;
    assert blob[8..20 + k] == blob[8..12] + blob[12..16] + blob[16..20] + blob[20..20 + k];
    HeaderFour();
  }

  lemma FieldBack(blob: seq<Byte>, at: nat, n: nat)
    requires at + n <= |blob|
    ensures LeBytes(BytesVal(blob[at..at + n]), n) == blob[at..at + n]
  {
    SpellVal(blob[at..at + n]);
  }

  lemma HeaderFour()
    ensures |LeBytes(CALG_RSA_KEYX, 4)| == 4
  {
  }

  /** `rsa_public_key` */
  datatype PublicKey = PublicKey(modulus: BigInt, exponent: BigInt, bytes: nat)

  ghost predicate Denotes(key: PublicKey, numbers: KeyNumbers)
    reads key.modulus, key.exponent
  {
    && key.modulus.Valid() && key.exponent.Valid()
    && KeyNumbers(key.modulus.Value(), key.exponent.Value(), key.bytes) == numbers
  }

  method ParsePublicKeyBlob(blob: seq<Byte>) returns (r: Result<PublicKey>)
    ensures r.Err? <==> ParsedKey(blob).Err?
    ensures r.Err? ==> r.error == ParsedKey(blob).error
    ensures r.Ok? ==> Denotes(r.value, ParsedKey(blob).value)
  {
    hide Val, BytesVal;
    if |blob| < 20 || blob[0] != PUBLICKEYBLOB {
      return Err("not a PUBLICKEYBLOB");
    }
    if ReadLe32(blob, 8) != RSA1_MAGIC {
      return Err("missing RSA1 magic");
    }
    var bitlen := ReadLe32(blob, 12);
    var pubexp := ReadLe32(blob, 16);
    var size := bitlen / 8;
    if bitlen == 0 || bitlen % 8 != 0 || |blob| < 20 + size {
      return Err("bad modulus length");
    }
    BytesValBound(blob[16..20]);
    Pow256();
    var modulus := BigInt.FromLeBytes(blob[20..20 + size]);
    var exponent := BigInt.FromU32(pubexp);
    return Ok(PublicKey(modulus, exponent, size));
  }

  // --- Building the blob -------------------------------------------------------------------------

  /** The block is laid out in a zeroed buffer; `padding` stands for the random draws. */
  method PadBlock(k: nat, message: seq<Byte>, padding: seq<Byte>) returns (em: seq<Byte>)
    requires |message| + 11 <= k && |padding| == k - 3 - |message|
    ensures em == Pad(message, padding)
  {
    var buffer := new Byte[k](_ => 0);
    buffer[1] := 2;
    for i := 0 to |padding|
      invariant buffer[0] == 0 && buffer[1] == 2
      invariant forall j | 0 <= j < i :: buffer[2 + j] == padding[j]
      invariant forall j | 2 + i <= j < k :: buffer[j] == 0
    {
      buffer[2 + i] := padding[i];
    }
    var start := 3 + |padding|;
    for i := 0 to |message|
      invariant buffer[0] == 0 && buffer[1] == 2 && buffer[start - 1] == 0
      invariant forall j | 0 <= j < |padding| :: buffer[2 + j] == padding[j]
      invariant forall j | 0 <= j < i :: buffer[start + j] == message[j]
    {
      buffer[start + i] := message[i];
    }
    em := buffer[..];
  }

  /** Ciphertext in big-endian order. */
  method Pkcs1Encrypt(key: PublicKey, message: seq<Byte>, padding: seq<Byte>) returns (r: Result<seq<Byte>>)
    requires key.modulus.Valid() && key.exponent.Valid()
    requires |message| + 11 <= key.bytes ==> |padding| == key.bytes - 3 - |message|
    ensures r == if |message| + 11 > key.bytes then Err("RSA message too long")
                 else var c := Encrypted(Pad(message, padding), key.exponent.Value(), key.modulus.Value());
                      Ok(Reverse(LeBytes(c, key.bytes)))
  {
    hide Val, Pow;
    if |message| + 11 > key.bytes {
      return Err("RSA message too long");
    }
    var em := PadBlock(key.bytes, message, padding);
    var block := BigInt.FromBeBytes(em);
    var c := BigInt.ModPow(block, key.exponent, key.modulus);
    var le := c.ToLeBytes(key.bytes);
    return Ok(Reverse(le));
  }

  method MakeSimpleBlob(key: PublicKey, sessionKey: seq<Byte>, padding: seq<Byte>) returns (r: Result<seq<Byte>>)
    requires key.modulus.Valid() && key.exponent.Valid()
    requires |sessionKey| + 11 <= key.bytes ==> |padding| == key.bytes - 3 - |sessionKey|
    ensures r == if |sessionKey| + 11 > key.bytes then Err("RSA message too long")
                 else Ok(SimpleBlob(key.modulus.Value(), key.exponent.Value(), key.bytes, sessionKey, padding))
  {
    var be := Pkcs1Encrypt(key, sessionKey, padding);
    if be.Err? {
      return Err(be.error);
    }
    ReverseTwice(LeBytes(Encrypted(Pad(sessionKey, padding), key.exponent.Value(), key.modulus.Value()), key.bytes));
    return Ok([SIMPLEBLOB, BLOB_VERSION, 0, 0] + LeBytes(CALG_RC4, 4) + LeBytes(CALG_RSA_KEYX, 4) + Reverse(be.value));
  }

  /** The whole exchange: a client that exports its key and opens the blob the server sends back holds the
      session key the server chose. */
  method WrapForClient(blob: seq<Byte>, sessionKey: seq<Byte>, padding: seq<Byte>, ghost key: KeyNumbers, ghost d: nat)
    returns (r: Result<seq<Byte>>)
    requires 0 < key.bytes && 8 * key.bytes < BASE && key.exponent < BASE && blob == ExportedKey(key)
    requires Pow(256, key.bytes - 1) <= key.modulus < Pow(256, key.bytes) && KeyPair(key.modulus, key.exponent, d)
    requires GoodPadding(key.bytes, sessionKey, padding)
    ensures r.Ok? && OpenBlob(r.value, key.modulus, d, key.bytes) == Ok(sessionKey)
  {
    hide Pow, ParsedKey, OpenBlob, SimpleBlob, KeyPair;
    ParsesExported(key, []);
    assert blob + [] == blob;
    var parsed := ParsePublicKeyBlob(blob);
    SessionKeyArrives(key.modulus, key.exponent, d, key.bytes, sessionKey, padding);
    r := MakeSimpleBlob(parsed.value, sessionKey, padding);
  }
}
