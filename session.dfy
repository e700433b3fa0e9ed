/** What one `Communicator` knows and how each incoming message and each key operation
    changes it, as values: `Party` is the communicator's state apart from its socket,
    `ParseMessage` is `listen()` reading one message, `Deliver` is the effect of the handler
    that `route` calls. The class `Communication.Communicator` is proved against these
    functions, and the handshake of `Handshake` is built from them. */
module Session {
  import opened Wrappers
  import opened Bytes
  import opened Crypto
  import opened KeyStore
  import opened Wire
  import opened Messages
  import opened FileTransfer

  /** KEY_SIZE: the length of the session key `os.urandom` draws. */
  const KeySize: nat := 32

  /** What `data_received_signal` carries to the GUI: a received text, or the name of a
      received file. */
  datatype Event = TextReceived(text: Bytes) | FileReceived(name: Bytes)

  /** The fields of a communicator, with the two key files of its working directory and
      what it has shown and written. */
  datatype Party = Party(
    sessionKey: Bytes,
    password: Bytes,
    privateKey: Option<RsaPrivateKey>,
    publicKey: Option<RsaPublicKey>,
    reusingKeys: bool,
    foreignPublicKey: Option<RsaPublicKey>,
    foreignSessionKey: Option<Bytes>,
    privateKeyFile: Option<Bytes>,
    publicKeyFile: Option<Bytes>,
    events: seq<Event>,
    files: map<Bytes, Bytes>,
    aborted: bool)

  /** A communicator as `__init__` leaves it: no keys, nothing received. */
  function NewParty(sessionKey: Bytes, password: Bytes, privateKeyFile: Option<Bytes>, publicKeyFile: Option<Bytes>): (r: Party)
    ensures r.privateKey.None? && r.publicKey.None? && !r.reusingKeys
    ensures r.foreignPublicKey.None? && r.foreignSessionKey.None?
    ensures r.events == [] && r.files == map[] && !r.aborted
  {
    Party(sessionKey, password, None, None, false, None, None, privateKeyFile, publicKeyFile, [], map[], false)
  }

  // ----- Receiving -----

  /** One message as its handler reads it. */
  datatype Message =
    | PublicKeyMsg(publicKey: Result<RsaPublicKey>)
    | SessionKeyMsg(sessionKey: Result<Bytes>)
    | TextMsg(text: Result<Bytes>)
    | FileMsg(file: FileResult)
    | UnknownMsg

  /** `listen()`: the 4-byte tag, then the message its handler reads. An unknown tag is
      read and nothing more. `key` is what `read_private_key` gives for each RSA frame. */
  function ParseMessage(p: Primitives, key: Result<RsaPrivateKey>, peerSessionKey: Option<Bytes>, bs: BufferSize, stream: Bytes): (r: Option<(Message, Bytes)>)
    ensures r.Some? ==> |stream| >= FieldWidth
    ensures r.Some? && r.value.0.UnknownMsg? <==> |stream| >= FieldWidth && Route(stream[..FieldWidth]).None?
    ensures r.Some? && r.value.0.UnknownMsg? ==> r.value.1 == stream[FieldWidth..]
  {
    if |stream| < FieldWidth then None
    else
      var rest := stream[FieldWidth..];
      match Route(stream[..FieldWidth])
      case None => Some((UnknownMsg, rest))
      case Some(h) => Handle(p, key, peerSessionKey, bs, h, rest)
  }

  /** `routing_table[message_type]()`: the message the handler reads after its tag. */
  function Handle(p: Primitives, key: Result<RsaPrivateKey>, peerSessionKey: Option<Bytes>, bs: BufferSize, h: Handler, stream: Bytes): (r: Option<(Message, Bytes)>)
    ensures r.Some? ==> !r.value.0.UnknownMsg?
  {
    match h
    case PublicKeyHandler =>
      (match ParsePublicKey(p, stream)
       case None => None
       case Some((k, rest)) => Some((PublicKeyMsg(k), rest)))
    case SessionKeyHandler =>
      (match ParseRsaBytes(p, key, stream)
       case None => None
       case Some((k, rest)) => Some((SessionKeyMsg(k), rest)))
    case TextHandler =>
      (match ParseText(p, key, peerSessionKey, stream)
       case None => None
       case Some((t, rest)) => Some((TextMsg(t), rest)))
    case FileHandler =>
      (match ParseFile(p, key, peerSessionKey, bs, stream)
       case None => None
       case Some((f, rest)) => Some((FileMsg(f), rest)))
  }

  /** What the handler leaves behind. A public key or session key is stored only when it
      was read without raising; a text is shown; a file is written under its name, whole or
      up to where decryption raised, and shown when complete; an unknown tag ends the
      program (`exit(0)`). Receiving never touches the communicator's own keys. */
  function Deliver(party: Party, m: Message): (r: Party)
    ensures r.sessionKey == party.sessionKey && r.password == party.password
    ensures r.privateKey == party.privateKey && r.publicKey == party.publicKey && r.reusingKeys == party.reusingKeys
    ensures r.privateKeyFile == party.privateKeyFile && r.publicKeyFile == party.publicKeyFile
    ensures r.aborted <==> party.aborted || m.UnknownMsg?
    ensures !m.FileMsg? ==> r.files == party.files
    ensures m.PublicKeyMsg? && m.publicKey.Ok? ==> r.foreignPublicKey == Some(m.publicKey.value)
    ensures !(m.PublicKeyMsg? && m.publicKey.Ok?) ==> r.foreignPublicKey == party.foreignPublicKey
    ensures m.SessionKeyMsg? && m.sessionKey.Ok? ==> r.foreignSessionKey == Some(m.sessionKey.value)
    ensures !(m.SessionKeyMsg? && m.sessionKey.Ok?) ==> r.foreignSessionKey == party.foreignSessionKey
    ensures |party.events| <= |r.events| <= |party.events| + 1 && r.events[..|party.events|] == party.events
  {
    match m
    case PublicKeyMsg(Ok(k)) => party.(foreignPublicKey := Some(k))
    case SessionKeyMsg(Ok(k)) => party.(foreignSessionKey := Some(k))
    case TextMsg(Ok(t)) => party.(events := party.events + [TextReceived(t)])
    case FileMsg(FileWritten(name, content, outcome)) =>
      party.(files := party.files[name := content],
             events := if outcome.Pass? then party.events + [FileReceived(name)] else party.events)
    case UnknownMsg => party.(aborted := true)
    case _ => party
  }

  /** Whether the handler returned or raised. */
  function MessageOutcome(m: Message): (r: Outcome)
    ensures m.UnknownMsg? ==> r.Pass?
  {
    match m
    case PublicKeyMsg(Err(e)) => Fail(e)
    case SessionKeyMsg(Err(e)) => Fail(e)
    case TextMsg(Err(e)) => Fail(e)
    case FileMsg(FileFailed(e)) => Fail(e)
    case FileMsg(FileWritten(_, _, outcome)) => outcome
    case _ => Pass
  }

  /** The key `receive_bytes_with_rsa` decrypts with: whatever `read_private_key` reads
      from the key file, with `generated` the key it falls back to. */
  function StoredKey(p: Primitives, party: Party, generated: RsaPrivateKey): Result<RsaPrivateKey>
  {
    ReadPrivateKey(p, party.privateKeyFile, party.password, generated)
  }

  /** One `listen()`: the new state, the handler's outcome and the bytes left on the
      stream; None while the message is incomplete (the real `receive` waits). */
  function Listened(p: Primitives, party: Party, bs: BufferSize, generated: RsaPrivateKey, stream: Bytes): (r: Option<(Party, Outcome, Bytes)>)
    ensures r.Some? <==> ParseMessage(p, StoredKey(p, party, generated), party.foreignSessionKey, bs, stream).Some?
  {
    match ParseMessage(p, StoredKey(p, party, generated), party.foreignSessionKey, bs, stream)
    case None => None
    case Some((m, rest)) => Some((Deliver(party, m), MessageOutcome(m), rest))
  }

  /** Listening to a public key message stores the sender's key. */
  lemma ListenPublicKey(p: Primitives, party: Party, bs: BufferSize, generated: RsaPrivateKey, key: RsaPublicKey, rest: Bytes)
    requires Sound(p)
    requires PublicKeyMessage(p, Some(key)).outcome.Pass?
    ensures Listened(p, party, bs, generated, PublicKeyMessage(p, Some(key)).bytes + rest)
      == Some((party.(foreignPublicKey := Some(key)), Pass, rest))
  {
    var out := PublicKeyMessage(p, Some(key)).bytes;
    ParsePublicKeyMessage(p, key, rest);
    HandlePublicKey(p, StoredKey(p, party, generated), party.foreignSessionKey, bs, out[FieldWidth..] + rest, Ok(key), rest);
    ListenRouted(p, party, bs, generated, StoredKey(p, party, generated), PublicKeyHandler, out, rest, PublicKeyMsg(Ok(key)));
    assert Deliver(party, PublicKeyMsg(Ok(key))) == party.(foreignPublicKey := Some(key));
  }

  /** Listening to a session key message sent under the public half of the key in the
      listener's key file stores the sender's session key. */
  lemma ListenSessionKey(p: Primitives, party: Party, bs: BufferSize, generated: RsaPrivateKey, key: RsaPrivateKey, sessionKey: Bytes, rest: Bytes)
    requires Sound(p) && |sessionKey| <= OaepMaxMessage
    requires StoredKey(p, party, generated) == Ok(key)
    requires SessionKeyMessage(p, Some(p.PublicOf(key)), sessionKey).outcome.Pass?
    ensures Listened(p, party, bs, generated, SessionKeyMessage(p, Some(p.PublicOf(key)), sessionKey).bytes + rest)
      == Some((party.(foreignSessionKey := Some(sessionKey)), Pass, rest))
  {
    var out := SessionKeyMessage(p, Some(p.PublicOf(key)), sessionKey).bytes;
    ParseSessionKeyMessage(p, key, sessionKey, rest);
    ListenRouted(p, party, bs, generated, Ok(key), SessionKeyHandler, out, rest, SessionKeyMsg(Ok(sessionKey)));
  }

  /** Listening to a text message sent to this party, under its own key file, with the
      session key it already holds, shows exactly the sent text. */
  lemma ListenText(p: Primitives, party: Party, bs: BufferSize, generated: RsaPrivateKey, key: RsaPrivateKey,
                   sessionKey: Bytes, m: Mode, iv: Bytes, text: Bytes, rest: Bytes)
    requires Sound(p) && |sessionKey| == 32 && |iv| == IvSize
    requires StoredKey(p, party, generated) == Ok(key) && party.foreignSessionKey == Some(sessionKey)
    requires TextMessage(p, Some(p.PublicOf(key)), sessionKey, ModeName(m), iv, text).outcome.Pass?
    ensures Listened(p, party, bs, generated, TextMessage(p, Some(p.PublicOf(key)), sessionKey, ModeName(m), iv, text).bytes + rest)
      == Some((party.(events := party.events + [TextReceived(text)]), Pass, rest))
  {
    var out := TextMessage(p, Some(p.PublicOf(key)), sessionKey, ModeName(m), iv, text).bytes;
    ParseTextMessage(p, key, sessionKey, m, iv, text, rest);
    HandleText(p, Ok(key), Some(sessionKey), bs, out[FieldWidth..] + rest, Ok(text), rest);
    ListenRouted(p, party, bs, generated, Ok(key), TextHandler, out, rest, TextMsg(Ok(text)));
    assert Deliver(party, TextMsg(Ok(text))) == party.(events := party.events + [TextReceived(text)]);
  }

  /** Listening to a file message sent to this party writes the file, under the sent name,
      with exactly the sent content, and shows its name. */
  lemma ListenFile(p: Primitives, party: Party, bs: BufferSize, generated: RsaPrivateKey, key: RsaPrivateKey,
                   sessionKey: Bytes, m: Mode, iv: Bytes, name: Bytes, file: Option<Bytes>, rest: Bytes)
    requires Sound(p) && |sessionKey| == 32 && |iv| == IvSize
    requires StoredKey(p, party, generated) == Ok(key) && party.foreignSessionKey == Some(sessionKey)
    requires FileMessage(p, Some(p.PublicOf(key)), sessionKey, ModeName(m), iv, name, file, bs).outcome.Pass?
    ensures Listened(p, party, bs, generated, FileMessage(p, Some(p.PublicOf(key)), sessionKey, ModeName(m), iv, name, file, bs).bytes + rest)
      == Some((party.(files := party.files[name := FileContent(file)], events := party.events + [FileReceived(name)]), Pass, rest))
  {
    var out := FileMessage(p, Some(p.PublicOf(key)), sessionKey, ModeName(m), iv, name, file, bs).bytes;
    var written := FileWritten(name, FileContent(file), Pass);
    ParseFileMessage(p, key, sessionKey, m, iv, name, file, bs, rest);
    ListenRouted(p, party, bs, generated, Ok(key), FileHandler, out, rest, FileMsg(written));
    DeliverFile(party, name, FileContent(file), Pass);
  }

  /** A file that was written is stored under its name, and announced when it was written
      in full. */
  lemma DeliverFile(party: Party, name: Bytes, content: Bytes, outcome: Outcome)
    ensures Deliver(party, FileMsg(FileWritten(name, content, outcome)))
      == party.(files := party.files[name := content],
                events := if outcome.Pass? then party.events + [FileReceived(name)] else party.events)
    ensures MessageOutcome(FileMsg(FileWritten(name, content, outcome))) == outcome
  {
  }

  /** A file message whose set-up raised changes nothing. */
  lemma DeliverFileFailed(party: Party, e: Exception)
    ensures Deliver(party, FileMsg(FileFailed(e))) == party
    ensures MessageOutcome(FileMsg(FileFailed(e))) == Fail(e)
  {
  }

  /** A message whose tag is registered is read by that tag's handler. */
  lemma ParseRouted(p: Primitives, key: Result<RsaPrivateKey>, peerSessionKey: Option<Bytes>, bs: BufferSize, h: Handler, out: Bytes, rest: Bytes)
    requires |out| >= FieldWidth && out[..FieldWidth] == HandlerTag(h)
    ensures ParseMessage(p, key, peerSessionKey, bs, out + rest) == Handle(p, key, peerSessionKey, bs, h, out[FieldWidth..] + rest)
  {
    SliceAppend(out, FieldWidth, rest);
    RouteHandlerTag(h);
  }

  /** The text handler shows what `receive_text` read. */
  lemma HandleText(p: Primitives, key: Result<RsaPrivateKey>, peerSessionKey: Option<Bytes>, bs: BufferSize,
                   stream: Bytes, text: Result<Bytes>, rest: Bytes)
    requires ParseText(p, key, peerSessionKey, stream) == Some((text, rest))
    ensures Handle(p, key, peerSessionKey, bs, TextHandler, stream) == Some((TextMsg(text), rest))
  {
  }

  /** The public key handler stores what `receive_public_key` read. */
  lemma HandlePublicKey(p: Primitives, key: Result<RsaPrivateKey>, peerSessionKey: Option<Bytes>, bs: BufferSize,
                        stream: Bytes, publicKey: Result<RsaPublicKey>, rest: Bytes)
    requires ParsePublicKey(p, stream) == Some((publicKey, rest))
    ensures Handle(p, key, peerSessionKey, bs, PublicKeyHandler, stream) == Some((PublicKeyMsg(publicKey), rest))
  {
  }

  /** What `listen()` makes of a message with a registered tag: what that tag's handler
      reads, delivered. */
  lemma ListenRouted(p: Primitives, party: Party, bs: BufferSize, generated: RsaPrivateKey, key: Result<RsaPrivateKey>,
                     h: Handler, out: Bytes, rest: Bytes, m: Message)
    requires StoredKey(p, party, generated) == key
    requires |out| >= FieldWidth && out[..FieldWidth] == HandlerTag(h)
    requires Handle(p, key, party.foreignSessionKey, bs, h, out[FieldWidth..] + rest) == Some((m, rest))
    ensures Listened(p, party, bs, generated, out + rest) == Some((Deliver(party, m), MessageOutcome(m), rest))
  {
    ParseRouted(p, key, party.foreignSessionKey, bs, h, out, rest);
  }

  /** `listen()` after reading a registered tag: what that tag's handler reads, delivered. */
  lemma ListenedHandled(p: Primitives, party: Party, bs: BufferSize, generated: RsaPrivateKey, tag: Bytes, h: Handler, stream: Bytes)
    requires |tag| == FieldWidth && Route(tag) == Some(h)
    ensures var handled := Handle(p, StoredKey(p, party, generated), party.foreignSessionKey, bs, h, stream);
      && (Listened(p, party, bs, generated, tag + stream).Some? <==> handled.Some?)
      && (handled.Some? ==>
            Listened(p, party, bs, generated, tag + stream)
              == Some((Deliver(party, handled.value.0), MessageOutcome(handled.value.0), handled.value.1)))
  {
    DropPrefix(tag, stream);
  }

  /** A tag no handler is registered for ends the program and reads nothing after the tag. */
  lemma ListenUnknownTag(p: Primitives, party: Party, bs: BufferSize, generated: RsaPrivateKey, tag: Bytes, rest: Bytes)
    requires |tag| == FieldWidth && forall h: Handler :: HandlerTag(h) != tag
    ensures Listened(p, party, bs, generated, tag + rest) == Some((party.(aborted := true), Pass, rest))
  {
    assert (tag + rest)[..FieldWidth] == tag;
    assert (tag + rest)[FieldWidth..] == rest;
  }

  // ----- Keys -----

  /** `generate_keys()` on the communicator: a new pair, with `generated` the new key. */
  function GeneratedKeys(p: Primitives, party: Party, generated: RsaPrivateKey): (r: Party)
    ensures r.privateKey == Some(generated) && r.publicKey == Some(p.PublicOf(generated))
    ensures r.(privateKey := party.privateKey, publicKey := party.publicKey) == party
  {
    var (privateKey, publicKey) := GenerateKeys(p, generated);
    party.(privateKey := Some(privateKey), publicKey := Some(publicKey))
  }

  /** `reuse_keys()`: sets `reusing_keys`, then reads both key files; when either read
      raises, neither key is assigned. */
  function ReusedKeys(p: Primitives, party: Party, generated: RsaPrivateKey): (r: (Party, Outcome))
    ensures r.0.reusingKeys
    ensures r.1.Pass? <==> StoredKey(p, party, generated).Ok? && ReadPublicKey(p, party.publicKeyFile).Ok?
    ensures r.1.Pass? ==> r.0 == party.(reusingKeys := true, privateKey := Some(StoredKey(p, party, generated).value),
                                        publicKey := Some(ReadPublicKey(p, party.publicKeyFile).value))
    ensures r.1.Fail? ==> r.0 == party.(reusingKeys := true)
  {
    var party' := party.(reusingKeys := true);
    match StoredKey(p, party, generated)
    case Err(e) => (party', Fail(e))
    case Ok(k) =>
      match ReadPublicKey(p, party.publicKeyFile)
      case Err(e) => (party', Fail(e))
      case Ok(pub) => (party'.(privateKey := Some(k), publicKey := Some(pub)), Pass)
  }

  /** `save_public_key(public_key)` then `save_private_key(private_key, password)`, with
      `iv` the IV `encrypt_key` draws. Without a public key the public key file has already
      been opened for writing, and so emptied, when `exportKey` raises; without a private
      key `exportKey` raises before its file is opened. */
  function SavedKeys(p: Primitives, party: Party, iv: Bytes): (r: (Party, Outcome))
    requires |iv| == IvSize
    ensures r.0.(privateKeyFile := party.privateKeyFile, publicKeyFile := party.publicKeyFile) == party
    ensures party.publicKey.None? ==> r == (party.(publicKeyFile := Some([])), Fail(AttributeError))
    ensures party.publicKey.Some? && party.privateKey.None? ==> r.1 == Fail(AttributeError) && r.0.privateKeyFile == party.privateKeyFile
    ensures Sound(p) && party.publicKey.Some? && party.privateKey.Some? ==> r.1.Pass?
  {
    match party.publicKey
    case None => (party.(publicKeyFile := Some([])), Fail(AttributeError))
    case Some(pub) =>
      var party' := party.(publicKeyFile := Some(PublicKeyFile(p, pub)));
      match party.privateKey
      case None => (party', Fail(AttributeError))
      case Some(k) =>
        match PrivateKeyFile(p, k, party.password, iv)
        case Err(e) => (party', Fail(e))
        case Ok(content) => (party'.(privateKeyFile := Some(content)), Pass)
  }

  /** After saving, the key files give back the saved keys, whatever key the reader would
      fall back to. */
  lemma SavedKeysReadBack(p: Primitives, party: Party, iv: Bytes, generated: RsaPrivateKey)
    requires Sound(p) && |iv| == IvSize
    requires party.publicKey.Some? && party.privateKey.Some?
    ensures var saved := SavedKeys(p, party, iv).0;
      && StoredKey(p, saved, generated) == Ok(party.privateKey.value)
      && ReadPublicKey(p, saved.publicKeyFile) == Ok(party.publicKey.value)
  {
    ReadSavedPrivateKey(p, party.privateKey.value, party.password, iv, generated);
  }

  /** Keys saved in one session are the keys `reuse_keys` restores in the next one, with the
      same password. */
  lemma ReuseSavedKeys(p: Primitives, party: Party, iv: Bytes, generated: RsaPrivateKey)
    requires Sound(p) && |iv| == IvSize
    requires party.publicKey.Some? && party.privateKey.Some?
    ensures var (reused, outcome) := ReusedKeys(p, SavedKeys(p, party, iv).0, generated);
      && outcome.Pass?
      && reused.privateKey == party.privateKey && reused.publicKey == party.publicKey
  {
    SavedKeysReadBack(p, party, iv, generated);
  }
}
