/** The message layouts built on the frames of `Wire`: the handshake messages, the mode and
    IV frames that open every text or file message, and the text message itself.

    Each sender function gives the bytes `Communicator` writes; each parser gives what the
    peer's receiving code takes from the stream. The receiving side of the cipher set-up
    (cipher_utils.get_mode_and_cipher_to_receive) is not part of this model's source; it
    is modelled as the mirror of the sending side: the mode frame, then the IV frame when
    the mode uses one, and a cipher on the peer's session key. */
module Messages {
  import opened Wrappers
  import opened Bytes
  import opened Padding
  import opened Crypto
  import opened Wire

  // ----- Handshake messages -----

  /** `send_public_key()`: the PUBLIC_KEY tag, then the exported key as a plain frame.
      Without a key (`public_key` is None) the tag is written and `exportKey` raises
      AttributeError. */
  function PublicKeyMessage(p: Primitives, key: Option<RsaPublicKey>): (r: Output)
    ensures |r.bytes| >= FieldWidth && r.bytes[..FieldWidth] == HandlerTag(PublicKeyHandler)
    ensures key.None? ==> r == Output(HandlerTag(PublicKeyHandler), Fail(AttributeError))
  {
    match key
    case None => Output(HandlerTag(PublicKeyHandler), Fail(AttributeError))
    case Some(k) =>
      var frame := BytesFrame(p.ExportPublicKey(k));
      Output(HandlerTag(PublicKeyHandler) + frame.bytes, frame.outcome)
  }

  /** `receive_public_key()`: a frame holding an exported public key; RSA.import_key raises
      ValueError on anything else. */
  function ParsePublicKey(p: Primitives, stream: Bytes): (r: Option<(Result<RsaPublicKey>, Bytes)>)
    ensures r.Some? <==> ParseBytes(stream).Some?
  {
    match ParseBytes(stream)
    case None => None
    case Some((exported, rest)) =>
      match p.ImportPublicKey(exported)
      case None => Some((Err(ValueError), rest))
      case Some(key) => Some((Ok(key), rest))
  }

  /** The peer reads back the public key that was sent. */
  lemma ParsePublicKeyMessage(p: Primitives, key: RsaPublicKey, rest: Bytes)
    requires Sound(p)
    requires PublicKeyMessage(p, Some(key)).outcome.Pass?
    ensures var m := PublicKeyMessage(p, Some(key)).bytes;
      ParsePublicKey(p, m[FieldWidth..] + rest) == Some((Ok(key), rest))
  {
    var frame := BytesFrame(p.ExportPublicKey(key)).bytes;
    assert PublicKeyMessage(p, Some(key)).bytes[FieldWidth..] == frame;
    ParseBytesFrame(p.ExportPublicKey(key), rest);
  }

  /** `send_session_key()`: the SESSION_KEY tag, then the session key RSA-encrypted under
      the peer's public key. */
  function SessionKeyMessage(p: Primitives, peerKey: Option<RsaPublicKey>, sessionKey: Bytes): (r: Output)
    ensures |r.bytes| >= FieldWidth && r.bytes[..FieldWidth] == HandlerTag(SessionKeyHandler)
  {
    var frame := RsaFrame(p, peerKey, sessionKey);
    Output(HandlerTag(SessionKeyHandler) + frame.bytes, frame.outcome)
  }

  /** The holder of the private key reads back the session key that was sent. */
  lemma ParseSessionKeyMessage(p: Primitives, key: RsaPrivateKey, sessionKey: Bytes, rest: Bytes)
    requires Sound(p) && |sessionKey| <= OaepMaxMessage
    requires SessionKeyMessage(p, Some(p.PublicOf(key)), sessionKey).outcome.Pass?
    ensures var m := SessionKeyMessage(p, Some(p.PublicOf(key)), sessionKey).bytes;
      ParseRsaBytes(p, Ok(key), m[FieldWidth..] + rest) == Some((Ok(sessionKey), rest))
  {
    var frame := RsaFrame(p, Some(p.PublicOf(key)), sessionKey).bytes;
    assert SessionKeyMessage(p, Some(p.PublicOf(key)), sessionKey).bytes[FieldWidth..] == frame;
    ParseRsaFrame(p, key, sessionKey, rest);
  }

  // ----- Mode and IV -----

  /** What `get_cipher_to_encrypt` wrote and what it returned or raised. */
  datatype CipherSetup = CipherSetup(bytes: Bytes, cipher: Result<Cipher>)

  /** `get_cipher_to_encrypt(mode)`, with `iv` the 16 random bytes AES.new draws: an
      unknown mode raises before anything is written; ECB writes nothing; CBC, CFB and
      OFB write exactly one RSA frame holding the IV; the cipher uses the own session key. */
  function CipherToEncrypt(p: Primitives, peerKey: Option<RsaPublicKey>, sessionKey: Bytes, modeName: Bytes, iv: Bytes): (r: CipherSetup)
    requires |iv| == IvSize
    ensures ParseMode(modeName).None? ==> r == CipherSetup([], Err(NoSuchMode))
    ensures ParseMode(modeName) == Some(ECB) ==> r.bytes == []
    ensures ParseMode(modeName).Some? && UsesIv(ParseMode(modeName).value) && |sessionKey| == 32 ==>
      r.bytes == RsaFrame(p, peerKey, iv).bytes
    ensures r.cipher.Ok? ==> r.cipher.value == Cipher(ParseMode(modeName).value, sessionKey, r.cipher.value.iv)
    ensures r.cipher.Ok? && UsesIv(r.cipher.value.mode) ==> r.cipher.value.iv == iv
    ensures |sessionKey| == 32 && ParseMode(modeName).Some? ==>
      (r.cipher.Ok? <==> !UsesIv(ParseMode(modeName).value) || RsaFrame(p, peerKey, iv).outcome.Pass?)
  {
    match ParseMode(modeName)
    case None => CipherSetup([], Err(NoSuchMode))
    case Some(m) =>
      match NewCipher(m, sessionKey, iv)
      case Err(e) => CipherSetup([], Err(e))
      case Ok(c) =>
        if !UsesIv(m) then CipherSetup([], Ok(c))
        else
          var frame := RsaFrame(p, peerKey, iv);
          CipherSetup(frame.bytes, if frame.outcome.Fail? then Err(frame.outcome.error) else Ok(c))
  }

  /** The cipher `AES.new` gives for a received mode and IV on the peer's session key,
      which is None until it has arrived. */
  function CipherFor(m: Mode, peerSessionKey: Option<Bytes>, iv: Bytes): (r: Result<Cipher>)
    ensures peerSessionKey.None? ==> r.Err?
    ensures peerSessionKey.Some? ==> r == NewCipher(m, peerSessionKey.value, iv)
  {
    match peerSessionKey
    case None => Err(TypeError)
    case Some(key) => NewCipher(m, key, iv)
  }

  /** The receiving side: the mode frame, then the rest of the set-up for that mode. */
  function ParseCipher(p: Primitives, key: Result<RsaPrivateKey>, peerSessionKey: Option<Bytes>, stream: Bytes): (r: Option<(Result<Cipher>, Bytes)>)
  {
    match ParseRsaBytes(p, key, stream)
    case None => None
    case Some((name, rest)) =>
      match name
      case Err(e) => Some((Err(e), rest))
      case Ok(n) => ParseCipherForMode(p, key, peerSessionKey, ParseMode(n), rest)
  }

  /** After the mode frame: an unknown mode raises; the IV frame follows when the mode
      uses one. */
  function ParseCipherForMode(p: Primitives, key: Result<RsaPrivateKey>, peerSessionKey: Option<Bytes>, mode: Option<Mode>, stream: Bytes): (r: Option<(Result<Cipher>, Bytes)>)
    ensures mode == Some(ECB) ==> r == Some((CipherFor(ECB, peerSessionKey, []), stream))
  {
    match mode
    case None => Some((Err(NoSuchMode), stream))
    case Some(m) =>
      if !UsesIv(m) then Some((CipherFor(m, peerSessionKey, []), stream))
      else
        match ParseRsaBytes(p, key, stream)
        case None => None
        case Some((iv, rest)) =>
          match iv
          case Err(e) => Some((Err(e), rest))
          case Ok(v) => Some((CipherFor(m, peerSessionKey, v), rest))
  }

  /** The mode frame and the cipher set-up that `send_text` and `send_file` write: the mode
      frame always comes first and the IV frame, if any, right after it. */
  function CipherHeader(p: Primitives, peerKey: Option<RsaPublicKey>, sessionKey: Bytes, modeName: Bytes, iv: Bytes): (r: CipherSetup)
    requires |iv| == IvSize
    ensures RsaFrame(p, peerKey, modeName).outcome.Fail? ==>
      r == CipherSetup([], Err(RsaFrame(p, peerKey, modeName).outcome.error))
    ensures RsaFrame(p, peerKey, modeName).outcome.Pass? ==>
      r.bytes == RsaFrame(p, peerKey, modeName).bytes + CipherToEncrypt(p, peerKey, sessionKey, modeName, iv).bytes &&
      r.cipher == CipherToEncrypt(p, peerKey, sessionKey, modeName, iv).cipher
  {
    var mode := RsaFrame(p, peerKey, modeName);
    if mode.outcome.Fail? then CipherSetup([], Err(mode.outcome.error))
    else
      var setup := CipherToEncrypt(p, peerKey, sessionKey, modeName, iv);
      CipherSetup(mode.bytes + setup.bytes, setup.cipher)
  }

  /** Cipher round trip: the receiver builds a cipher with the sender's mode, key and IV. */
  lemma ParseCipherHeader(p: Primitives, key: RsaPrivateKey, sessionKey: Bytes, m: Mode, iv: Bytes, rest: Bytes)
    requires Sound(p) && |sessionKey| == 32 && |iv| == IvSize
    requires CipherHeader(p, Some(p.PublicOf(key)), sessionKey, ModeName(m), iv).cipher.Ok?
    ensures var h := CipherHeader(p, Some(p.PublicOf(key)), sessionKey, ModeName(m), iv);
      ParseCipher(p, Ok(key), Some(sessionKey), h.bytes + rest) == Some((h.cipher, rest))
  {
    var peerKey := Some(p.PublicOf(key));
    var h := CipherHeader(p, peerKey, sessionKey, ModeName(m), iv);
    ParseModeName(m);
    var modeFrame := RsaFrame(p, peerKey, ModeName(m)).bytes;
    var setup := CipherToEncrypt(p, peerKey, sessionKey, ModeName(m), iv);
    assert h.bytes == modeFrame + setup.bytes;
    AppendAssociates(modeFrame, setup.bytes, rest);
    ParseRsaFrame(p, key, ModeName(m), setup.bytes + rest);
    assert ParseRsaBytes(p, Ok(key), h.bytes + rest) == Some((Ok(ModeName(m)), setup.bytes + rest));
    if UsesIv(m) {
      ParseRsaFrame(p, key, iv, rest);
      assert ParseRsaBytes(p, Ok(key), setup.bytes + rest) == Some((Ok(iv), rest));
    } else {
      assert setup.bytes == [];
    }
  }

  // ----- Text -----

  /** `send_text(text, mode)`: the TEXT tag, the mode frame, the IV frame for CBC, CFB and
      OFB, then the encrypted text as a plain frame. Whatever was written before a raise
      stays written. */
  function TextMessage(p: Primitives, peerKey: Option<RsaPublicKey>, sessionKey: Bytes, modeName: Bytes, iv: Bytes, text: Bytes): (r: Output)
    requires |iv| == IvSize
    ensures |r.bytes| >= FieldWidth && r.bytes[..FieldWidth] == HandlerTag(TextHandler)
  {
    var tag := HandlerTag(TextHandler);
    var header := CipherHeader(p, peerKey, sessionKey, modeName, iv);
    match header.cipher
    case Err(e) => Output(tag + header.bytes, Fail(e))
    case Ok(c) =>
      var body := TextBody(p, c, text);
      Output(tag + header.bytes + body.bytes, body.outcome)
  }

  /** The text part of `send_text`: the text, padded for ECB and CBC, encrypted with a new
      cipher object and sent as a plain frame. */
  function TextBody(p: Primitives, c: Cipher, text: Bytes): (r: Output)
    ensures Sound(p) ==> (r.outcome.Pass? <==> |PadForMode(c.mode, text)| < Pow256(FieldWidth))
  {
    match Encrypt(p, c, [], PadForMode(c.mode, text))
    case Err(e) => Output([], Fail(e))
    case Ok(encrypted) => BytesFrame(encrypted)
  }

  /** `send_text` pads exactly for ECB and CBC; CFB and OFB encrypt the text as it is. */
  function PadForMode(m: Mode, text: Bytes): (r: Bytes)
    ensures Processable(m, r)
    ensures IsPadded(m) ==> r == Pad(text)
    ensures !IsPadded(m) ==> r == text
  {
    if IsPadded(m) then Pad(text) else text
  }

  /** What `receive_text` makes of a decrypted text: it unpads exactly for ECB and CBC. */
  function TextPlain(p: Primitives, c: Cipher, encrypted: Bytes): (r: Result<Bytes>)
    ensures !IsPadded(c.mode) ==> r == Decrypt(p, c, [], encrypted)
  {
    match Decrypt(p, c, [], encrypted)
    case Err(e) => Err(e)
    case Ok(decrypted) => if IsPadded(c.mode) then Unpad(decrypted) else Ok(decrypted)
  }

  /** The encrypted text frame of `receive_text`, decrypted and unpadded. */
  function ParseTextBody(p: Primitives, c: Cipher, stream: Bytes): (r: Option<(Result<Bytes>, Bytes)>)
    ensures r.Some? <==> ParseBytes(stream).Some?
  {
    match ParseBytes(stream)
    case None => None
    case Some((encrypted, rest)) => Some((TextPlain(p, c, encrypted), rest))
  }

  /** The receiver's unpadding matches the sender's padding in every mode. */
  lemma ParseTextBodyOfTextBody(p: Primitives, c: Cipher, text: Bytes, rest: Bytes)
    requires Sound(p)
    requires TextBody(p, c, text).outcome.Pass?
    ensures ParseTextBody(p, c, TextBody(p, c, text).bytes + rest) == Some((Ok(text), rest))
  {
    var plain := PadForMode(c.mode, text);
    DecryptEncrypt(p, c, [], plain);
    var encrypted := Encrypt(p, c, [], plain).value;
    ParseBytesFrame(encrypted, rest);
    if IsPadded(c.mode) {
      UnpadPad(text);
    }
  }

  /** `receive_text()` after its tag: the cipher set-up, then the encrypted text frame. */
  function ParseText(p: Primitives, key: Result<RsaPrivateKey>, peerSessionKey: Option<Bytes>, stream: Bytes): (r: Option<(Result<Bytes>, Bytes)>)
  {
    match ParseCipher(p, key, peerSessionKey, stream)
    case None => None
    case Some((Err(e), rest)) => Some((Err(e), rest))
    case Some((Ok(c), rest)) => ParseTextBody(p, c, rest)
  }

  /** Text round trip, for every mode: a peer that holds the private key the text was sent
      to and the sender's session key reads back exactly the text, and nothing more. */
  lemma ParseTextMessage(p: Primitives, key: RsaPrivateKey, sessionKey: Bytes, m: Mode, iv: Bytes, text: Bytes, rest: Bytes)
    requires Sound(p) && |sessionKey| == 32 && |iv| == IvSize
    requires TextMessage(p, Some(p.PublicOf(key)), sessionKey, ModeName(m), iv, text).outcome.Pass?
    ensures var out := TextMessage(p, Some(p.PublicOf(key)), sessionKey, ModeName(m), iv, text).bytes;
      ParseText(p, Ok(key), Some(sessionKey), out[FieldWidth..] + rest) == Some((Ok(text), rest))
  {
    var peerKey := Some(p.PublicOf(key));
    var header := CipherHeader(p, peerKey, sessionKey, ModeName(m), iv);
    var c := header.cipher.value;
    var body := TextBody(p, c, text).bytes;
    var out := TextMessage(p, peerKey, sessionKey, ModeName(m), iv, text).bytes;
    assert out[FieldWidth..] + rest == header.bytes + (body + rest) by {
      var tag := HandlerTag(TextHandler);
      assert out == tag + header.bytes + body;
      AppendAssociates(tag, header.bytes, body);
      DropPrefix(tag, header.bytes + body);
      AppendAssociates(header.bytes, body, rest);
    }
    ParseCipherHeader(p, key, sessionKey, m, iv, body + rest);
    ParseTextBodyOfTextBody(p, c, text, rest);
  }
}
