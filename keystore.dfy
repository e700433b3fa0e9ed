/** The key store of rsa_utils.py: RSA key-pair generation and the on-disk format of the
    key files. The private key file holds the exported private key, padded and encrypted
    with AES-CBC under the SHA-256 digest of the password, followed by the 16-byte IV.
    The public key file holds the exported public key in the clear.

    File I/O is not modelled: a file is its content, `None` when it does not exist.
    Randomness (the RSA generator, the IV) is a parameter. */
module KeyStore {
  import opened Wrappers
  import opened Bytes
  import opened Padding
  import opened Crypto

  /** `generate_keys()`: a new 1024-bit key (the parameter `generated`) and its public half. */
  function GenerateKeys(p: Primitives, generated: RsaPrivateKey): (pair: (RsaPrivateKey, RsaPublicKey))
    ensures pair.0 == generated && pair.1 == p.PublicOf(pair.0)
  {
    (generated, p.PublicOf(generated))
  }

  /** The two halves of a generated pair work together: what is encrypted under the public
      half, the private half decrypts. */
  lemma GeneratedPairMatches(p: Primitives, generated: RsaPrivateKey, message: Bytes)
    requires Sound(p) && |message| <= OaepMaxMessage
    ensures p.OaepDecrypt(GenerateKeys(p, generated).0, p.OaepEncrypt(GenerateKeys(p, generated).1, message)) == Some(message)
  {
  }

  /** `SHA256.new(password).digest()`: a function of the password alone, so encryption and
      decryption with the same password use the same key, and a valid AES-256 key. */
  function PasswordKey(p: Primitives, password: Bytes): (key: Bytes)
    ensures Sound(p) ==> |key| == 32
  {
    p.Sha256(password)
  }

  /** `encrypt_key(key, password)`, with `iv` the 16 random bytes it draws: pads the key
      and encrypts it with AES-CBC under the password key; returns the ciphertext and IV. */
  function EncryptKey(p: Primitives, key: Bytes, password: Bytes, iv: Bytes): (r: Result<(Bytes, Bytes)>)
    requires |iv| == IvSize
    ensures Sound(p) ==> r.Ok?
    ensures r.Ok? ==> r.value.1 == iv
    ensures Sound(p) && r.Ok? ==> |r.value.0| == |Pad(key)| && |r.value.0| % BlockSize == 0
  {
    match NewCipher(CBC, PasswordKey(p, password), iv)
    case Err(e) => Err(e)
    case Ok(cipher) =>
      match Encrypt(p, cipher, [], Pad(key))
      case Err(e) => Err(e)
      case Ok(encrypted) => Ok((encrypted, iv))
  }

  /** `decrypt_key(encrypted, iv, password)`: decrypts with AES-CBC under the password key
      and strips the padding without checking it. A bad IV length or an unaligned ciphertext
      raises ValueError; an empty ciphertext decrypts to nothing, and reading its last byte
      raises IndexError. */
  function DecryptKey(p: Primitives, encrypted: Bytes, iv: Bytes, password: Bytes): (r: Result<Bytes>)
    ensures Sound(p) ==> (r == Err(IndexError) <==> encrypted == [] && |iv| == IvSize)
    ensures Sound(p) ==> (r == Err(ValueError) <==> |iv| != IvSize || |encrypted| % BlockSize != 0)
  {
    match NewCipher(CBC, PasswordKey(p, password), iv)
    case Err(e) => Err(e)
    case Ok(cipher) =>
      match Decrypt(p, cipher, [], encrypted)
      case Err(e) => Err(e)
      case Ok(decrypted) =>
        if decrypted == [] then Err(IndexError) else Ok(StripKeyPadding(decrypted))
  }

  /** With the same password, `decrypt_key` undoes `encrypt_key`. */
  lemma DecryptEncryptKey(p: Primitives, key: Bytes, password: Bytes, iv: Bytes)
    requires Sound(p) && |iv| == IvSize
    ensures EncryptKey(p, key, password, iv).Ok?
    ensures DecryptKey(p, EncryptKey(p, key, password, iv).value.0, iv, password) == Ok(key)
  {
    var cipher := NewCipher(CBC, PasswordKey(p, password), iv).value;
    DecryptEncrypt(p, cipher, [], Pad(key));
    StripKeyPaddingOfPad(key);
  }

  /** The content `save_private_key` writes: the encrypted exported key, then the IV. */
  function PrivateKeyFile(p: Primitives, key: RsaPrivateKey, password: Bytes, iv: Bytes): (r: Result<Bytes>)
    requires |iv| == IvSize
    ensures Sound(p) ==> r.Ok?
    ensures r.Ok? ==> |r.value| >= IvSize && r.value[|r.value| - IvSize..] == iv
  {
    match EncryptKey(p, p.ExportPrivateKey(key), password, iv)
    case Err(e) => Err(e)
    case Ok(pair) => Ok(pair.0 + pair.1)
  }

  /** `content[:-16]` and `content[-16:]`: the ciphertext and the IV of a key file. */
  function SplitKeyFile(content: Bytes): (r: (Bytes, Bytes))
    ensures |content| >= IvSize ==> r.0 + r.1 == content && |r.1| == IvSize
    ensures |content| < IvSize ==> r.0 == [] && r.1 == content
  {
    (SliceToNegative(content, IvSize), SliceFromNegative(content, IvSize))
  }

  /** Splitting a file written as `ciphertext ‖ iv` gives back both parts. */
  lemma SplitJoinedKeyFile(encrypted: Bytes, iv: Bytes)
    requires |iv| == IvSize
    ensures SplitKeyFile(encrypted + iv) == (encrypted, iv)
  {
    NegativeSlicesSplit(encrypted, iv);
  }

  /** `read_private_key(password)` on the file content `file`. A missing file raises
      FileNotFoundError (the `open` is outside the `try`). A ValueError from decryption or
      import is caught and a freshly generated key, `generated`, is returned instead. The
      IndexError of an empty ciphertext is not caught. */
  function ReadPrivateKey(p: Primitives, file: Option<Bytes>, password: Bytes, generated: RsaPrivateKey): (r: Result<RsaPrivateKey>)
    ensures r.Err? ==> r.error == FileNotFoundError || r.error == IndexError
    ensures r == Err(FileNotFoundError) <==> file.None?
    ensures Sound(p) ==> (r == Err(IndexError) <==> file.Some? && |file.value| == IvSize)
  {
    match file
    case None => Err(FileNotFoundError)
    case Some(content) =>
      var (encrypted, iv) := SplitKeyFile(content);
      match DecryptKey(p, encrypted, iv, password)
      case Err(ValueError) => Ok(generated)
      case Err(e) => Err(e)
      case Ok(exported) =>
        match p.ImportPrivateKey(exported)
        case None => Ok(generated)
        case Some(key) => Ok(key)
  }

  /** A key saved with a password is read back, unchanged, with the same password. */
  lemma ReadSavedPrivateKey(p: Primitives, key: RsaPrivateKey, password: Bytes, iv: Bytes, generated: RsaPrivateKey)
    requires Sound(p) && |iv| == IvSize
    ensures PrivateKeyFile(p, key, password, iv).Ok?
    ensures ReadPrivateKey(p, Some(PrivateKeyFile(p, key, password, iv).value), password, generated) == Ok(key)
  {
    var exported := p.ExportPrivateKey(key);
    var encrypted := EncryptKey(p, exported, password, iv).value.0;
    SplitJoinedKeyFile(encrypted, iv);
    DecryptEncryptKey(p, exported, password, iv);
  }

  /** When the stored key cannot be decrypted or imported (a wrong password, a damaged
      file), reading falls back to the generated key instead of raising. */
  lemma ReadPrivateKeyFallsBack(p: Primitives, content: Bytes, password: Bytes, generated: RsaPrivateKey)
    requires
      var (encrypted, iv) := SplitKeyFile(content);
      var d := DecryptKey(p, encrypted, iv, password);
      d == Err(ValueError) || (d.Ok? && p.ImportPrivateKey(d.value).None?)
    ensures ReadPrivateKey(p, Some(content), password, generated) == Ok(generated)
  {
  }

  /** The content `save_public_key` writes: the exported key in the clear. */
  function PublicKeyFile(p: Primitives, key: RsaPublicKey): (r: Bytes)
    ensures Sound(p) ==> p.ImportPublicKey(r) == Some(key)
  {
    p.ExportPublicKey(key)
  }

  /** `read_public_key()`: FileNotFoundError for a missing file, ValueError when the
      content does not import; neither is caught. */
  function ReadPublicKey(p: Primitives, file: Option<Bytes>): (r: Result<RsaPublicKey>)
    ensures r.Err? <==> file.None? || p.ImportPublicKey(file.value).None?
    ensures r.Ok? ==> Some(r.value) == p.ImportPublicKey(file.value)
  {
    match file
    case None => Err(FileNotFoundError)
    case Some(content) =>
      match p.ImportPublicKey(content)
      case None => Err(ValueError)
      case Some(key) => Ok(key)
  }

  /** A saved public key is read back unchanged. */
  lemma ReadSavedPublicKey(p: Primitives, key: RsaPublicKey)
    requires Sound(p)
    ensures ReadPublicKey(p, Some(PublicKeyFile(p, key))) == Ok(key)
  {
  }
}
