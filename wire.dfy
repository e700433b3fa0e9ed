/** The wire format of communicator.py: message-type tags and their dispatch, and the
    length-prefixed byte frames that carry every payload, in the clear or RSA-OAEP
    encrypted under the peer's public key.

    A sender is described by the bytes it writes before it returns or raises (`Output`);
    a receiver by what it takes from the front of the incoming byte stream and what it
    leaves (`None` when the stream ends before the read can complete: the real
    receiver then blocks). */
module Wire {
  import opened Wrappers
  import opened Bytes
  import opened Crypto

  /** The bytes an operation wrote (to the socket or to a file) before it returned,
      and whether it returned normally or raised. */
  datatype Output = Output(bytes: Bytes, outcome: Outcome)

  // ----- Message types and dispatch -----

  /** The four handlers of the routing table. */
  datatype Handler = SessionKeyHandler | FileHandler | TextHandler | PublicKeyHandler

  /** `MessageType.X.value[0]`: four distinct 4-byte tags. The real values live in
      message_type.py, which is not part of this model; any four distinct values behave
      the same. */
  function HandlerTag(h: Handler): (tag: Bytes)
    ensures |tag| == FieldWidth
  {
    match h
    case PublicKeyHandler => [0, 0, 0, 1]
    case SessionKeyHandler => [0, 0, 0, 2]
    case TextHandler => [0, 0, 0, 3]
    case FileHandler => [0, 0, 0, 4]
  }

  /** `routing_table[message_type]`: the handler registered for a tag, or None where the
      dictionary lookup raises KeyError. */
  function Route(tag: Bytes): (r: Option<Handler>)
    ensures r.Some? ==> HandlerTag(r.value) == tag
    ensures r.None? ==> forall h: Handler :: HandlerTag(h) != tag
  {
    if tag == HandlerTag(SessionKeyHandler) then Some(SessionKeyHandler)
    else if tag == HandlerTag(FileHandler) then Some(FileHandler)
    else if tag == HandlerTag(TextHandler) then Some(TextHandler)
    else if tag == HandlerTag(PublicKeyHandler) then Some(PublicKeyHandler)
    else None
  }

  /** Each tag reaches its own handler and no other: the tags are distinct. */
  lemma RouteHandlerTag(h: Handler)
    ensures Route(HandlerTag(h)) == Some(h)
    ensures forall g: Handler :: g != h ==> HandlerTag(g) != HandlerTag(h)
  {
  }

  // ----- Length-prefixed frames -----

  /** The bytes `send_bytes(data)` writes: the 4-byte length, then the data. A length that
      does not fit in four bytes raises OverflowError before anything is written. */
  function BytesFrame(data: Bytes): (r: Output)
    ensures r.outcome.Pass? <==> |data| < Pow256(FieldWidth)
    ensures r.outcome.Pass? ==> |r.bytes| == FieldWidth + |data| && r.bytes[FieldWidth..] == data
    ensures r.outcome.Fail? ==> r.bytes == []
  {
    match LengthField(|data|)
    case Err(e) => Output([], Fail(e))
    case Ok(field) => Output(field + data, Pass)
  }

  /** `receive_length()`: four bytes read as an unsigned big-endian integer. */
  function ParseLength(stream: Bytes): (r: Option<(nat, Bytes)>)
    ensures r.Some? <==> |stream| >= FieldWidth
    ensures r.Some? ==> r.value.0 < Pow256(FieldWidth) && r.value.1 == stream[FieldWidth..]
  {
    if |stream| < FieldWidth then None
    else Some((FromBigEndian(stream[..FieldWidth]), stream[FieldWidth..]))
  }

  /** `receive_bytes()`: the length, then exactly that many bytes. */
  function ParseBytes(stream: Bytes): (r: Option<(Bytes, Bytes)>)
    ensures r.Some? ==> |r.value.0| + |r.value.1| + FieldWidth == |stream|
  {
    match ParseLength(stream)
    case None => None
    case Some((n, rest)) => if |rest| < n then None else Some((rest[..n], rest[n..]))
  }

  /** Framing round trip: the receiver reads back exactly the bytes that were framed, and
      leaves whatever followed the frame, for every payload shorter than 2^32. */
  lemma ParseBytesFrame(data: Bytes, rest: Bytes)
    requires |data| < Pow256(FieldWidth)
    ensures ParseBytes(BytesFrame(data).bytes + rest) == Some((data, rest))
  {
    var frame := BytesFrame(data).bytes;
    var s := frame + rest;
    assert s[..FieldWidth] == frame[..FieldWidth];
    assert s[FieldWidth..] == data + rest;
  }

  /** Conversely, whatever `receive_bytes` reads is a frame the sender could have written. */
  lemma ParsedBytesAreFrame(stream: Bytes)
    requires ParseBytes(stream).Some?
    ensures var (data, rest) := ParseBytes(stream).value;
      BytesFrame(data).outcome.Pass? && stream == BytesFrame(data).bytes + rest
  {
    var (data, rest) := ParseBytes(stream).value;
    var field := stream[..FieldWidth];
    ToFromBigEndian(field);
    assert BytesFrame(data).bytes == field + data;
    assert stream == field + stream[FieldWidth..];
  }

  // ----- RSA-OAEP frames -----

  /** `send_bytes_with_rsa(data)`: the data encrypted under the peer's public key, framed.
      Nothing is written when the encryption raises. */
  function RsaFrame(p: Primitives, peerKey: Option<RsaPublicKey>, data: Bytes): (r: Output)
    ensures OaepEncrypt(p, peerKey, data).Err? ==> r == Output([], Fail(OaepEncrypt(p, peerKey, data).error))
    ensures r.outcome.Fail? ==> r.bytes == []
  {
    match OaepEncrypt(p, peerKey, data)
    case Err(e) => Output([], Fail(e))
    case Ok(encrypted) => BytesFrame(encrypted)
  }

  /** With the peer's key and a message OAEP accepts, the frame is always written. */
  lemma RsaFramePasses(p: Primitives, peerKey: RsaPublicKey, data: Bytes)
    requires BoundedOaep(p) && |data| <= OaepMaxMessage
    ensures RsaFrame(p, Some(peerKey), data).outcome.Pass?
    ensures |RsaFrame(p, Some(peerKey), data).bytes| <= FieldWidth + RsaBlock
  {
    FieldLimit();
  }

  /** `b'12341234'`, what `receive_bytes_with_rsa` returns when OAEP decryption fails. */
  const Placeholder: Bytes := [0x31, 0x32, 0x33, 0x34, 0x31, 0x32, 0x33, 0x34]

  /** The value `receive_bytes_with_rsa` produces from a received ciphertext, given what
      `read_private_key` returned: its error if it raised, else the OAEP plaintext, or the
      placeholder when decryption fails. */
  function RsaPayload(p: Primitives, key: Result<RsaPrivateKey>, encrypted: Bytes): (r: Result<Bytes>)
    ensures key.Err? ==> r == Err(key.error)
    ensures key.Ok? ==> r.Ok?
    ensures key.Ok? && p.OaepDecrypt(key.value, encrypted).None? ==> r == Ok(Placeholder)
    ensures key.Ok? && p.OaepDecrypt(key.value, encrypted).Some? ==> r == Ok(p.OaepDecrypt(key.value, encrypted).value)
  {
    match key
    case Err(e) => Err(e)
    case Ok(k) =>
      match p.OaepDecrypt(k, encrypted)
      case None => Ok(Placeholder)
      case Some(data) => Ok(data)
  }

  /** `receive_bytes_with_rsa()`: a frame, then its RSA decryption. */
  function ParseRsaBytes(p: Primitives, key: Result<RsaPrivateKey>, stream: Bytes): (r: Option<(Result<Bytes>, Bytes)>)
    ensures r.Some? <==> ParseBytes(stream).Some?
    ensures r.Some? ==> r.value.1 == ParseBytes(stream).value.1
  {
    match ParseBytes(stream)
    case None => None
    case Some((encrypted, rest)) => Some((RsaPayload(p, key, encrypted), rest))
  }

  /** RSA frame round trip: a receiver holding the private half of the key the sender
      encrypted under reads back the sender's data. */
  lemma ParseRsaFrame(p: Primitives, key: RsaPrivateKey, data: Bytes, rest: Bytes)
    requires Sound(p)
    requires |data| <= OaepMaxMessage
    requires RsaFrame(p, Some(p.PublicOf(key)), data).outcome.Pass?
    ensures ParseRsaBytes(p, Ok(key), RsaFrame(p, Some(p.PublicOf(key)), data).bytes + rest) == Some((Ok(data), rest))
  {
    var encrypted := p.OaepEncrypt(p.PublicOf(key), data);
    ParseBytesFrame(encrypted, rest);
  }
}
