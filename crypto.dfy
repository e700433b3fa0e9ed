/** The cryptographic library the application calls (PyCryptodome): AES in the four
    block-cipher modes of sections 6.1-6.4 of NIST SP 800-38A, RSA-OAEP (section 7.1 of
    RFC 8017), SHA-256 and RSA key import/export.

    The library's code is not part of this model. Its functions are parameters: a
    `Primitives` value bundles them, and `Sound` states the only facts the protocol relies
    on (round trips and lengths). Every property proved about the protocol assumes `Sound`;
    `SoundIsSatisfiable` shows that these facts are consistent. What the model does
    check itself are the argument checks the library performs before it encrypts
    (key and IV lengths, block alignment, OAEP message length): each raises ValueError. */
module Crypto {
  import opened Wrappers
  import opened Bytes
  import opened Padding

  datatype Mode = ECB | CBC | CFB | OFB

  /** The mode as the UTF-8 string the GUI offers and the sender transmits. */
  function ModeName(m: Mode): (r: Bytes)
    ensures |r| == 3
  {
    match m
    case ECB => [0x45, 0x43, 0x42]
    case CBC => [0x43, 0x42, 0x43]
    case CFB => [0x43, 0x46, 0x42]
    case OFB => [0x4F, 0x46, 0x42]
  }

  /** The mode a string names, or None for any other string. */
  function ParseMode(name: Bytes): (r: Option<Mode>)
    ensures r.Some? ==> ModeName(r.value) == name
    ensures r.None? ==> forall m: Mode :: ModeName(m) != name
  {
    if name == ModeName(ECB) then Some(ECB)
    else if name == ModeName(CBC) then Some(CBC)
    else if name == ModeName(CFB) then Some(CFB)
    else if name == ModeName(OFB) then Some(OFB)
    else None
  }

  lemma ParseModeName(m: Mode)
    ensures ParseMode(ModeName(m)) == Some(m)
  {
  }

  /** `mode in ["ECB", "CBC"]`: the true block modes, which need padding. */
  predicate IsPadded(m: Mode)
  {
    m == ECB || m == CBC
  }

  /** CBC, CFB and OFB need an initialisation vector; ECB does not. */
  predicate UsesIv(m: Mode)
  {
    m != ECB
  }

  /** Handles on RSA keys; the material itself is the library's business. */
  datatype RsaPrivateKey = RsaPrivateKey(material: Bytes)
  datatype RsaPublicKey = RsaPublicKey(material: Bytes)

  /** An AES cipher object: its mode, key and IV (empty for ECB). */
  datatype Cipher = Cipher(mode: Mode, key: Bytes, iv: Bytes)

  /** ECB and CBC only process whole blocks; CFB and OFB process any length. */
  predicate Processable(m: Mode, data: Bytes)
  {
    !IsPadded(m) || |data| % BlockSize == 0
  }

  /** Largest message PKCS1_OAEP (SHA-1) encrypts under a 1024-bit key: 128 - 2*20 - 2. */
  const OaepMaxMessage: nat := 86

  /** Length of an RSA-OAEP ciphertext under a 1024-bit key. */
  const RsaBlock: nat := 128

  /** Length of the IV AES generates and of the one the key store draws. */
  const IvSize: nat := 16

  /** The library functions, each given by its table of results: an infinite map from
      arguments to result, read through the accessor of the same name (an argument outside
      the table gives a fixed default, so every table is some total function). A cipher
      object keeps state between calls (the CBC chain, the CFB/OFB stream position), so
      encryption and decryption of a chunk also take the plaintext the same object has
      already processed. */
  datatype Primitives = Primitives(
    aesEncryptTable: imap<(Cipher, Bytes, Bytes), Bytes>,
    aesDecryptTable: imap<(Cipher, Bytes, Bytes), Bytes>,
    sha256Table: imap<Bytes, Bytes>,
    oaepEncryptTable: imap<(RsaPublicKey, Bytes), Bytes>,
    oaepDecryptTable: imap<(RsaPrivateKey, Bytes), Option<Bytes>>,
    publicOfTable: imap<RsaPrivateKey, RsaPublicKey>,
    exportPrivateKeyTable: imap<RsaPrivateKey, Bytes>,
    importPrivateKeyTable: imap<Bytes, Option<RsaPrivateKey>>,
    exportPublicKeyTable: imap<RsaPublicKey, Bytes>,
    importPublicKeyTable: imap<Bytes, Option<RsaPublicKey>>)
  {
    /** `cipher.encrypt(x)` after `h` went through the same object. */
    function AesEncrypt(c: Cipher, h: Bytes, x: Bytes): Bytes
    {
      Lookup(aesEncryptTable, (c, h, x), [])
    }

    /** `cipher.decrypt(y)` after `h` came out of the same object. */
    function AesDecrypt(c: Cipher, h: Bytes, y: Bytes): Bytes
    {
      Lookup(aesDecryptTable, (c, h, y), [])
    }

    /** `SHA256.new(x).digest()`. */
    function Sha256(x: Bytes): Bytes
    {
      Lookup(sha256Table, x, [])
    }

    /** `PKCS1_OAEP.new(k).encrypt(x)`. */
    function OaepEncrypt(k: RsaPublicKey, x: Bytes): Bytes
    {
      Lookup(oaepEncryptTable, (k, x), [])
    }

    /** `PKCS1_OAEP.new(k).decrypt(y)`, None where it raises. */
    function OaepDecrypt(k: RsaPrivateKey, y: Bytes): Option<Bytes>
    {
      Lookup(oaepDecryptTable, (k, y), None)
    }

    /** `k.publickey()`. */
    function PublicOf(k: RsaPrivateKey): RsaPublicKey
    {
      Lookup(publicOfTable, k, RsaPublicKey([]))
    }

    /** `k.export_key()` of a private key. */
    function ExportPrivateKey(k: RsaPrivateKey): Bytes
    {
      Lookup(exportPrivateKeyTable, k, [])
    }

    /** `RSA.import_key(b)` of a private key, None where it raises ValueError. */
    function ImportPrivateKey(b: Bytes): Option<RsaPrivateKey>
    {
      Lookup(importPrivateKeyTable, b, None)
    }

    /** `k.export_key()` of a public key. */
    function ExportPublicKey(k: RsaPublicKey): Bytes
    {
      Lookup(exportPublicKeyTable, k, [])
    }

    /** `RSA.import_key(b)` of a public key, None where it raises ValueError. */
    function ImportPublicKey(b: Bytes): Option<RsaPublicKey>
    {
      Lookup(importPublicKeyTable, b, None)
    }
  }

  function Lookup<K, V>(table: imap<K, V>, k: K, default: V): V
  {
    if k in table then table[k] else default
  }

  /** The facts the protocol relies on. */
  ghost predicate Sound(p: Primitives)
  {
    // AES: decryption with the same key, IV and position undoes encryption, and the
    // ciphertext is as long as the plaintext it came from.
    && (forall c: Cipher, h: Bytes, x: Bytes :: Processable(c.mode, x) ==>
          |p.AesEncrypt(c, h, x)| == |x| && p.AesDecrypt(c, h, p.AesEncrypt(c, h, x)) == x)
    && (forall c: Cipher, h: Bytes, y: Bytes :: Processable(c.mode, y) ==> |p.AesDecrypt(c, h, y)| == |y|)
    // SHA-256 digests are 32 bytes.
    && (forall x: Bytes :: |p.Sha256(x)| == 32)
    // RSA-OAEP: the private key decrypts what its public half encrypted.
    && (forall k: RsaPrivateKey, x: Bytes :: |x| <= OaepMaxMessage ==> p.OaepDecrypt(k, p.OaepEncrypt(p.PublicOf(k), x)) == Some(x))
    // Key export and import are inverse.
    && (forall k: RsaPrivateKey :: p.ImportPrivateKey(p.ExportPrivateKey(k)) == Some(k))
    && (forall k: RsaPublicKey :: p.ImportPublicKey(p.ExportPublicKey(k)) == Some(k))
  }

  /** The keys are 1024-bit, so no OAEP ciphertext is longer than the modulus. Kept apart
      from `Sound` because only the lemmas about whole handshakes need it. */
  ghost predicate BoundedOaep(p: Primitives)
  {
    forall k: RsaPublicKey, x: Bytes :: |x| <= OaepMaxMessage ==> |p.OaepEncrypt(k, x)| <= RsaBlock
  }

  /** The facts in `Sound` and `BoundedOaep` do not contradict each other: the identity
      cipher and the identity key encoding satisfy them. */
  lemma SoundIsSatisfiable()
    ensures var p := Primitives(
      imap a: (Cipher, Bytes, Bytes) :: a.2,
      imap a: (Cipher, Bytes, Bytes) :: a.2,
      imap x: Bytes | |x| >= 0 :: seq(32, _ => 0 as byte),
      imap a: (RsaPublicKey, Bytes) :: a.1,
      imap a: (RsaPrivateKey, Bytes) :: Some(a.1),
      imap k: RsaPrivateKey :: RsaPublicKey(k.material),
      imap k: RsaPrivateKey :: k.material,
      imap b: Bytes :: Some(RsaPrivateKey(b)),
      imap k: RsaPublicKey :: k.material,
      imap b: Bytes :: Some(RsaPublicKey(b)));
      Sound(p) && BoundedOaep(p)
  {
  }

  /** `AES.new(key, mode[, iv])`: the key must be 16, 24 or 32 bytes and, for the modes
      that use one, the IV 16 bytes; otherwise ValueError. */
  function NewCipher(m: Mode, key: Bytes, iv: Bytes): (r: Result<Cipher>)
    ensures r.Ok? <==> (|key| == 16 || |key| == 24 || |key| == 32) && (UsesIv(m) ==> |iv| == IvSize)
    ensures r.Ok? ==> r.value.mode == m && r.value.key == key && r.value.iv == (if UsesIv(m) then iv else [])
  {
    if !(|key| == 16 || |key| == 24 || |key| == 32) then Err(ValueError)
    else if UsesIv(m) && |iv| != IvSize then Err(ValueError)
    else Ok(Cipher(m, key, if UsesIv(m) then iv else []))
  }

  /** `cipher.encrypt(data)` after `history` went through the same object. */
  function Encrypt(p: Primitives, c: Cipher, history: Bytes, data: Bytes): (r: Result<Bytes>)
    ensures r.Ok? <==> Processable(c.mode, data)
  {
    if Processable(c.mode, data) then Ok(p.AesEncrypt(c, history, data)) else Err(ValueError)
  }

  /** `cipher.decrypt(data)` after `history` came out of the same object. */
  function Decrypt(p: Primitives, c: Cipher, history: Bytes, data: Bytes): (r: Result<Bytes>)
    ensures r.Ok? <==> Processable(c.mode, data)
  {
    if Processable(c.mode, data) then Ok(p.AesDecrypt(c, history, data)) else Err(ValueError)
  }

  /** A ciphertext is as long as its plaintext, in every mode. */
  lemma EncryptLength(p: Primitives, c: Cipher, history: Bytes, data: Bytes)
    requires Sound(p) && Processable(c.mode, data)
    ensures Encrypt(p, c, history, data).Ok? && |Encrypt(p, c, history, data).value| == |data|
  {
  }

  /** Decryption recovers what encryption produced, for every mode and position. */
  lemma DecryptEncrypt(p: Primitives, c: Cipher, history: Bytes, data: Bytes)
    requires Sound(p)
    requires Processable(c.mode, data)
    ensures Encrypt(p, c, history, data).Ok?
    ensures Decrypt(p, c, history, Encrypt(p, c, history, data).value) == Ok(data)
  {
  }

  /** `PKCS1_OAEP.new(key).encrypt(data)` with the peer's key, which is None before it
      arrives; messages longer than the OAEP limit raise ValueError. */
  function OaepEncrypt(p: Primitives, key: Option<RsaPublicKey>, data: Bytes): (r: Result<Bytes>)
    ensures r.Ok? <==> key.Some? && |data| <= OaepMaxMessage
  {
    if key.None? then Err(AttributeError)
    else if |data| > OaepMaxMessage then Err(ValueError)
    else Ok(p.OaepEncrypt(key.value, data))
  }
}
