/** The `Communicator` class of communicator.py and the socket it talks through.

    Every method is proved against the functions of `Wire`, `Messages`, `FileTransfer` and
    `Session`: a sending method appends to the socket exactly the bytes the matching message
    function gives and returns its outcome; a receiving method consumes exactly what the
    matching parser reads and leaves the state `Session.Deliver` gives. `State()` is the
    communicator's fields as a `Session.Party`. */
module Communication {
  import opened Wrappers
  import opened Bytes
  import opened Padding
  import opened Crypto
  import opened KeyStore
  import opened Wire
  import opened Messages
  import opened FileTransfer
  import opened Session
  import Handshake

  /** What `send_file` returns or raises once its message was written as far as it goes:
      the error of the message itself; else TypeError when there is no connection and a
      chunk had to be sent; else AttributeError when there is no progress bar. */
  function FileSendOutcome(message: Outcome, connected: bool, content: Bytes, hasBar: bool): (r: Outcome)
    ensures message.Fail? ==> r == message
    ensures r.Pass? <==> message.Pass? && (connected || content == []) && hasBar
  {
    if message.Fail? then message
    else if !connected && content != [] then Fail(TypeError)
    else if hasBar then Pass
    else Fail(AttributeError)
  }

  /** The progress bar over the send loop: values are only added, none exceeds 100, and
      nothing is added without a bar. */
  predicate ProgressKept(before: seq<nat>, after: seq<nat>, hasBar: bool)
  {
    && |before| <= |after| && after[..|before|] == before
    && (forall i | |before| <= i < |after| :: after[i] <= 100)
    && (!hasBar ==> after == before)
  }

  /** Reporting one more value of at most 100 keeps the progress bar as it should be. */
  lemma ProgressAdded(before: seq<nat>, after: seq<nat>, value: nat)
    requires ProgressKept(before, after, true) && value <= 100
    ensures ProgressKept(before, after + [value], true)
  {
    assert (after + [value])[..|before|] == after[..|before|];
  }

  /** The progress bar over one `send_file`: as over the loop, and a transfer that
      completes ends at 100. */
  predicate ProgressReported(before: seq<nat>, after: seq<nat>, hasBar: bool, outcome: Outcome)
  {
    && ProgressKept(before, after, hasBar)
    && (outcome.Pass? ==> |after| > |before| && after[|after| - 1] == 100)
  }

  /** What is left of a file's decryption, after `prefix` was already written. */
  function Prefixed(prefix: Bytes, o: Output): (r: Output)
    ensures r.outcome == o.outcome && |r.bytes| == |prefix| + |o.bytes|
  {
    Output(prefix + o.bytes, o.outcome)
  }

  /** Writing `first`, then `second`, then the rest is writing `first + second`, then the rest. */
  lemma PrefixedTwice(first: Bytes, second: Bytes, o: Output)
    ensures Prefixed(first, Prefixed(second, o)) == Prefixed(first + second, o)
  {
    AppendAssociates(first, second, o.bytes);
  }

  /** A connected TCP socket as two byte streams: what the peer has sent and this side has
      not received yet, and everything this side has sent. */
  class Socket {
    var incoming: Bytes
    var outgoing: Bytes

    constructor (incoming: Bytes)
      ensures this.incoming == incoming && outgoing == []
    {
      this.incoming := incoming;
      outgoing := [];
    }

    /** `recv(size)`: at least one and at most `size` of the waiting bytes; how many is up
        to the transport. The real call waits while nothing is waiting, and returns b''
        only once the peer has closed, which this model leaves out. */
    method Recv(size: nat) returns (data: Bytes)
      requires size > 0 && incoming != []
      modifies this
      ensures 0 < |data| <= size
      ensures old(incoming) == data + incoming
      ensures outgoing == old(outgoing)
    {
      assert 0 < 1 <= size && 1 <= |incoming|;
      var k :| 0 < k <= size && k <= |incoming|;
      data := incoming[..k];
      incoming := incoming[k..];
    }

    /** `send(data)`, taken to transmit all of `data` (a partial `send` is not modelled). */
    method Send(data: Bytes) returns (n: nat)
      modifies this
      ensures outgoing == old(outgoing) + data && incoming == old(incoming)
      ensures n == |data|
    {
      outgoing := outgoing + data;
      n := |data|;
    }
  }

  class Communicator {
    const crypto: Primitives
    const bufferSize: BufferSize
    const sessionKey: Bytes
    const password: Bytes
    var conn: Socket?
    var privateKey: Option<RsaPrivateKey>
    var publicKey: Option<RsaPublicKey>
    var reusingKeys: bool
    var foreignPublicKey: Option<RsaPublicKey>
    var foreignSessionKey: Option<Bytes>
    /** The contents of keys/private_key/private_key.txt and keys/public_key/public_key.txt. */
    var privateKeyFile: Option<Bytes>
    var publicKeyFile: Option<Bytes>
    /** What `data_received_signal` has carried, and the files `receive_file` wrote. */
    var events: seq<Event>
    var files: map<Bytes, Bytes>
    /** Set where `route` calls `exit(0)`. */
    var aborted: bool
    /** The values given to the progress bar by `send_file`. */
    var progress: seq<nat>

    function State(): Party
      reads this
    {
      Party(sessionKey, password, privateKey, publicKey, reusingKeys, foreignPublicKey, foreignSessionKey,
            privateKeyFile, publicKeyFile, events, files, aborted)
    }

    /** `__init__(buffer_size)`, with `sessionKey` the 32 random bytes it draws, `password`
        the password the GUI sets and the two key files of the working directory. */
    constructor (crypto: Primitives, bufferSize: BufferSize, sessionKey: Bytes, password: Bytes,
                 privateKeyFile: Option<Bytes>, publicKeyFile: Option<Bytes>)
      requires |sessionKey| == KeySize
      ensures State() == NewParty(sessionKey, password, privateKeyFile, publicKeyFile)
      ensures this.crypto == crypto && this.bufferSize == bufferSize
      ensures conn == null && progress == []
    {
      this.crypto := crypto;
      this.bufferSize := bufferSize;
      this.sessionKey := sessionKey;
      this.password := password;
      conn := null;
      privateKey := None;
      publicKey := None;
      reusingKeys := false;
      foreignPublicKey := None;
      foreignSessionKey := None;
      this.privateKeyFile := privateKeyFile;
      this.publicKeyFile := publicKeyFile;
      events := [];
      files := map[];
      aborted := false;
      progress := [];
    }

    /** `Communicator(buffer_size)`: refuses a buffer size that is not a positive multiple
        of the AES block size (the check as written lets 0 through). */
    static method Create(crypto: Primitives, bufferSize: int, sessionKey: Bytes, password: Bytes,
                         privateKeyFile: Option<Bytes>, publicKeyFile: Option<Bytes>) returns (c: Communicator?)
      requires |sessionKey| == KeySize
      ensures c == null <==> !(bufferSize > 0 && bufferSize % BlockSize == 0)
      ensures c != null ==> fresh(c) && c.bufferSize == bufferSize && c.conn == null
      ensures c != null ==> c.State() == NewParty(sessionKey, password, privateKeyFile, publicKeyFile)
    {
      if bufferSize > 0 && bufferSize % BlockSize == 0 {
        c := new Communicator(crypto, bufferSize, sessionKey, password, privateKeyFile, publicKeyFile);
      } else {
        c := null;
      }
    }

    /** The socket `init_connection` accepts or connects. */
    method Connect(socket: Socket)
      modifies this`conn
      ensures conn == socket
    {
      conn := socket;
    }

    // ----- Keys -----

    /** `generate_keys()`. */
    method GenerateKeys(generated: RsaPrivateKey)
      modifies this`privateKey, this`publicKey
      ensures State() == GeneratedKeys(crypto, old(State()), generated)
    {
      privateKey := Some(generated);
      publicKey := Some(crypto.PublicOf(generated));
    }

    /** `reuse_keys()`, with `generated` the key `read_private_key` falls back to. */
    method ReuseKeys(generated: RsaPrivateKey) returns (outcome: Outcome)
      modifies this`privateKey, this`publicKey, this`reusingKeys
      ensures (State(), outcome) == ReusedKeys(crypto, old(State()), generated)
    {
      reusingKeys := true;
      var k := ReadPrivateKey(crypto, privateKeyFile, password, generated);
      if k.Err? {
        return Fail(k.error);
      }
      var pub := ReadPublicKey(crypto, publicKeyFile);
      if pub.Err? {
        return Fail(pub.error);
      }
      privateKey, publicKey := Some(k.value), Some(pub.value);
      outcome := Pass;
    }

    /** `save_public_key(public_key)` then `save_private_key(private_key, password)`, as
        `init_connection` calls them, with `iv` the IV `encrypt_key` draws. */
    method SaveKeys(iv: Bytes) returns (outcome: Outcome)
      requires |iv| == IvSize
      modifies this`privateKeyFile, this`publicKeyFile
      ensures (State(), outcome) == SavedKeys(crypto, old(State()), iv)
    {
      if publicKey.None? {
        publicKeyFile := Some([]);
        return Fail(AttributeError);
      }
      publicKeyFile := Some(PublicKeyFile(crypto, publicKey.value));
      if privateKey.None? {
        return Fail(AttributeError);
      }
      var content := PrivateKeyFile(crypto, privateKey.value, password, iv);
      if content.Err? {
        return Fail(content.error);
      }
      privateKeyFile := Some(content.value);
      outcome := Pass;
    }

    // ----- Receiving -----

    /** `receive(length)`: calls `recv` for what is still missing until exactly `length`
        bytes have arrived, however the transport splits them. */
    method Receive(length: nat) returns (data: Bytes)
      requires conn != null && length <= |conn.incoming|
      modifies conn
      ensures |data| == length && old(conn.incoming) == data + conn.incoming
      ensures conn.outgoing == old(conn.outgoing)
    {
      var receivedLength := 0;
      data := [];
      while receivedLength < length
        invariant receivedLength == |data| <= length
        invariant old(conn.incoming) == data + conn.incoming
        invariant conn.outgoing == old(conn.outgoing)
        decreases length - receivedLength
      {
        var chunk := conn.Recv(length - receivedLength);
        data := data + chunk;
        receivedLength := |data|;
      }
    }

    /** `receive_length()`. */
    method ReceiveLength() returns (n: nat)
      requires conn != null && |conn.incoming| >= FieldWidth
      modifies conn
      ensures ParseLength(old(conn.incoming)) == Some((n, conn.incoming))
      ensures conn.outgoing == old(conn.outgoing)
    {
      var field := Receive(FieldWidth);
      assert field == old(conn.incoming)[..FieldWidth];
      n := FromBigEndian(field);
    }

    /** `receive_bytes()`. */
    method ReceiveBytes() returns (data: Bytes)
      requires conn != null && ParseBytes(conn.incoming).Some?
      modifies conn
      ensures ParseBytes(old(conn.incoming)) == Some((data, conn.incoming))
      ensures conn.outgoing == old(conn.outgoing)
    {
      var n := ReceiveLength();
      data := Receive(n);
      assert conn.incoming == old(conn.incoming)[FieldWidth..][n..];
    }

    /** `receive_bytes_with_rsa()`, with `generated` the key `read_private_key` falls back to. */
    method ReceiveBytesWithRsa(generated: RsaPrivateKey) returns (r: Result<Bytes>)
      requires conn != null && ParseBytes(conn.incoming).Some?
      modifies conn
      ensures ParseRsaBytes(crypto, StoredKey(crypto, State(), generated), old(conn.incoming)) == Some((r, conn.incoming))
      ensures conn.outgoing == old(conn.outgoing)
    {
      var encrypted := ReceiveBytes();
      r := RsaPayload(crypto, ReadPrivateKey(crypto, privateKeyFile, password, generated), encrypted);
    }

    /** The receiving half of the cipher set-up: the mode frame, then the IV frame when the
        mode uses one, and a cipher on the peer's session key. */
    method ReceiveCipher(generated: RsaPrivateKey) returns (c: Result<Cipher>)
      requires conn != null && ParseCipher(crypto, StoredKey(crypto, State(), generated), foreignSessionKey, conn.incoming).Some?
      modifies conn
      ensures ParseCipher(crypto, StoredKey(crypto, State(), generated), foreignSessionKey, old(conn.incoming)) == Some((c, conn.incoming))
      ensures conn.outgoing == old(conn.outgoing)
    {
      var name := ReceiveBytesWithRsa(generated);
      if name.Err? {
        return Err(name.error);
      }
      var mode := ParseMode(name.value);
      if mode.None? {
        return Err(NoSuchMode);
      }
      if !UsesIv(mode.value) {
        return CipherFor(mode.value, foreignSessionKey, []);
      }
      var iv := ReceiveBytesWithRsa(generated);
      // The key file was read for the mode frame already, and reads the same again.
      assert iv.Ok?;
      c := CipherFor(mode.value, foreignSessionKey, iv.value);
    }

    /** `receive_public_key()`. */
    method ReceivePublicKey() returns (outcome: Outcome)
      requires conn != null && ParseBytes(conn.incoming).Some?
      modifies this`foreignPublicKey, conn
      ensures var (k, rest) := ParsePublicKey(crypto, old(conn.incoming)).value;
        && conn.incoming == rest
        && State() == Deliver(old(State()), PublicKeyMsg(k))
        && outcome == MessageOutcome(PublicKeyMsg(k))
      ensures conn.outgoing == old(conn.outgoing)
    {
      var exported := ReceiveBytes();
      var k := crypto.ImportPublicKey(exported);
      if k.None? {
        return Fail(ValueError);
      }
      foreignPublicKey := k;
      outcome := Pass;
    }

    /** `receive_session_key()`. */
    method ReceiveSessionKey(generated: RsaPrivateKey) returns (outcome: Outcome)
      requires conn != null && ParseBytes(conn.incoming).Some?
      modifies this`foreignSessionKey, conn
      ensures var (k, rest) := ParseRsaBytes(crypto, StoredKey(crypto, old(State()), generated), old(conn.incoming)).value;
        && conn.incoming == rest
        && State() == Deliver(old(State()), SessionKeyMsg(k))
        && outcome == MessageOutcome(SessionKeyMsg(k))
      ensures conn.outgoing == old(conn.outgoing)
    {
      var k := ReceiveBytesWithRsa(generated);
      if k.Err? {
        return Fail(k.error);
      }
      foreignSessionKey := Some(k.value);
      outcome := Pass;
    }

    /** `receive_text()`: the cipher set-up, the encrypted text, then its decryption,
        unpadded for ECB and CBC; the text goes to the GUI. */
    method ReceiveText(generated: RsaPrivateKey) returns (outcome: Outcome)
      requires conn != null && ParseText(crypto, StoredKey(crypto, State(), generated), foreignSessionKey, conn.incoming).Some?
      modifies this`events, conn
      ensures var (t, rest) := ParseText(crypto, StoredKey(crypto, old(State()), generated), old(foreignSessionKey), old(conn.incoming)).value;
        && conn.incoming == rest
        && State() == Deliver(old(State()), TextMsg(t))
        && outcome == MessageOutcome(TextMsg(t))
      ensures conn.outgoing == old(conn.outgoing)
    {
      var c := ReceiveCipher(generated);
      if c.Err? {
        return Fail(c.error);
      }
      var encrypted := ReceiveBytes();
      var text := TextPlain(crypto, c.value, encrypted);
      if text.Err? {
        return Fail(text.error);
      }
      events := events + [TextReceived(text.value)];
      outcome := Pass;
    }

    /** `receive_file()`: the cipher set-up, the name and the size, then the encrypted body,
        collected in pieces of at most `buffer_size` bytes and never past its end, then
        decrypted chunk by chunk into the file. */
    method ReceiveFile(generated: RsaPrivateKey) returns (outcome: Outcome)
      requires conn != null && ParseFile(crypto, StoredKey(crypto, State(), generated), foreignSessionKey, bufferSize, conn.incoming).Some?
      modifies this`files, this`events, conn
      ensures var (f, rest) := ParseFile(crypto, StoredKey(crypto, old(State()), generated), old(foreignSessionKey), bufferSize, old(conn.incoming)).value;
        && conn.incoming == rest
        && State() == Deliver(old(State()), FileMsg(f))
        && outcome == MessageOutcome(FileMsg(f))
      ensures conn.outgoing == old(conn.outgoing)
    {
      ghost var party := State();
      ghost var key := StoredKey(crypto, party, generated);
      var c := ReceiveCipher(generated);
      ParseFileAfterCipher(crypto, key, foreignSessionKey, bufferSize, old(conn.incoming), c, conn.incoming);
      if c.Err? {
        DeliverFileFailed(party, c.error);
        return Fail(c.error);
      }
      var name, written;
      name, written, outcome := ReceiveFileBody(c.value, generated, key);
      files := files[name := written];
      if outcome.Pass? {
        events := events + [FileReceived(name)];
      }
      DeliverFile(party, name, written, outcome);
    }

    /** `receive_file` after the cipher set-up: the name, the size, then the body collected
        and decrypted. */
    method ReceiveFileBody(c: Cipher, generated: RsaPrivateKey, ghost key: Result<RsaPrivateKey>) returns (name: Bytes, written: Bytes, outcome: Outcome)
      requires conn != null && key == StoredKey(crypto, State(), generated) && key.Ok?
      requires ParseFileBody(crypto, key, c, bufferSize, conn.incoming).Some?
      modifies conn
      ensures ParseFileBody(crypto, key, c, bufferSize, old(conn.incoming)) == Some((FileWritten(name, written, outcome), conn.incoming))
      ensures conn.outgoing == old(conn.outgoing)
    {
      var r := ReceiveBytesWithRsa(generated);
      // The key file was read for the mode frame already, and reads the same again.
      name := r.value;
      ghost var afterName := conn.incoming;
      var size := ReceiveLength();
      var temp := CollectBody(BodyLength(c.mode, size));
      ParseFileBodyRead(crypto, key, c, bufferSize, old(conn.incoming), name, afterName, size, temp + conn.incoming, temp, conn.incoming);
      written, outcome := DecryptBody(c, temp, size);
    }

    /** The collection loop of `receive_file`, asking `recv` for at most `buffer_size` bytes
        and never for more than what is left of the body: exactly `length` bytes arrive. */
    method CollectBody(length: nat) returns (temp: Bytes)
      requires conn != null && length <= |conn.incoming|
      modifies conn
      ensures |temp| == length && old(conn.incoming) == temp + conn.incoming
      ensures conn.outgoing == old(conn.outgoing)
    {
      var bytesReceived := 0;
      temp := [];
      while length - bytesReceived > 0
        invariant bytesReceived == |temp| <= length
        invariant old(conn.incoming) == temp + conn.incoming
        invariant conn.outgoing == old(conn.outgoing)
        decreases length - bytesReceived
      {
        var buffer := conn.Recv(Min(bufferSize, length - bytesReceived));
        bytesReceived := bytesReceived + |buffer|;
        temp := temp + buffer;
      }
    }

    /** The decryption loop of `receive_file`: full buffers while at least `buffer_size`
        bytes of the file remain, then the last chunk, unpadded when it is not block aligned
        in ECB and CBC. */
    method DecryptBody(c: Cipher, temp: Bytes, size: nat) returns (written: Bytes, outcome: Outcome)
      ensures Output(written, outcome) == DecryptChunks(crypto, c, [], temp, size, bufferSize)
    {
      ghost var target := DecryptChunks(crypto, c, [], temp, size, bufferSize);
      ghost var rest := target;
      var bytesDecrypt := 0;
      var unread := temp;
      var history := [];
      written := [];
      while size - bytesDecrypt > 0
        invariant bytesDecrypt <= size && bytesDecrypt % bufferSize == 0
        invariant rest == DecryptChunks(crypto, c, history, unread, size - bytesDecrypt, bufferSize)
        invariant target == Prefixed(written, rest)
        decreases size - bytesDecrypt
      {
        var n := Min(bufferSize, |unread|);
        var buffer := unread[..n];
        var decrypted := Decrypt(crypto, c, history, buffer);
        if decrypted.Err? {
          return written, Fail(decrypted.error);
        }
        if size - bytesDecrypt < bufferSize {
          if (size - bytesDecrypt) % BlockSize != 0 && IsPadded(c.mode) {
            var unpadded := Unpad(decrypted.value);
            if unpadded.Err? {
              return written, Fail(unpadded.error);
            }
            return written + unpadded.value, Pass;
          }
          return written + decrypted.value, Pass;
        }
        ghost var left := size - bytesDecrypt - bufferSize;
        ghost var next := DecryptChunks(crypto, c, history + decrypted.value, unread[n..], left, bufferSize);
        DecryptChunksFull(crypto, c, history, unread, size - bytesDecrypt, bufferSize, n, decrypted.value);
        PrefixedTwice(written, decrypted.value, next);
        written := written + decrypted.value;
        history := history + decrypted.value;
        unread := unread[n..];
        AddBuffer(bytesDecrypt, bufferSize);
        bytesDecrypt := bytesDecrypt + bufferSize;
        assert size - bytesDecrypt == left;
        rest := next;
      }
      outcome := Pass;
    }

    /** `listen()`: reads a tag and calls its handler; a tag with no handler ends the
        program. `generated` is the key `read_private_key` falls back to. */
    method Listen(generated: RsaPrivateKey) returns (outcome: Outcome)
      requires conn != null && Listened(crypto, State(), bufferSize, generated, conn.incoming).Some?
      modifies this`foreignPublicKey, this`foreignSessionKey, this`events, this`files, this`aborted, conn
      ensures Listened(crypto, old(State()), bufferSize, generated, old(conn.incoming)) == Some((State(), outcome, conn.incoming))
      ensures conn.outgoing == old(conn.outgoing)
    {
      ghost var party := State();
      var tag := Receive(FieldWidth);
      ghost var stream := conn.incoming;
      var handler := Route(tag);
      match handler {
        case None =>
          ListenUnknownTag(crypto, party, bufferSize, generated, tag, stream);
          aborted := true;
          outcome := Pass;
        case Some(h) =>
          ListenedHandled(crypto, party, bufferSize, generated, tag, h, stream);
          match h {
            case PublicKeyHandler =>
              outcome := ReceivePublicKey();
            case SessionKeyHandler =>
              outcome := ReceiveSessionKey(generated);
            case TextHandler =>
              outcome := ReceiveText(generated);
            case FileHandler =>
              outcome := ReceiveFile(generated);
          }
      }
    }

    // ----- Sending -----

    /** `send(data)`: without a connection nothing is sent and the result is None. */
    method Send(data: Bytes) returns (n: Option<nat>)
      modifies conn
      ensures conn == null ==> n.None?
      ensures conn != null ==> n == Some(|data|) && conn.outgoing == old(conn.outgoing) + data
      ensures conn != null ==> conn.incoming == old(conn.incoming)
    {
      if conn != null {
        var sent := conn.Send(data);
        n := Some(sent);
      } else {
        n := None;
      }
    }

    /** `send_bytes(data)`. */
    method SendBytes(data: Bytes) returns (outcome: Outcome)
      modifies conn
      ensures outcome == BytesFrame(data).outcome
      ensures conn != null ==> conn.outgoing == old(conn.outgoing) + BytesFrame(data).bytes
      ensures conn != null ==> conn.incoming == old(conn.incoming)
    {
      var field := LengthField(|data|);
      if field.Err? {
        return Fail(field.error);
      }
      var _ := Send(field.value);
      var _ := Send(data);
      outcome := Pass;
      if conn != null {
        AppendAssociates(old(conn.outgoing), field.value, data);
      }
    }

    /** `send_bytes_with_rsa(data)`. */
    method SendBytesWithRsa(data: Bytes) returns (outcome: Outcome)
      modifies conn
      ensures outcome == RsaFrame(crypto, foreignPublicKey, data).outcome
      ensures conn != null ==> conn.outgoing == old(conn.outgoing) + RsaFrame(crypto, foreignPublicKey, data).bytes
      ensures conn != null ==> conn.incoming == old(conn.incoming)
    {
      var encrypted := OaepEncrypt(crypto, foreignPublicKey, data);
      if encrypted.Err? {
        return Fail(encrypted.error);
      }
      outcome := SendBytes(encrypted.value);
    }

    /** `send_public_key()`. */
    method SendPublicKey() returns (outcome: Outcome)
      modifies conn
      ensures outcome == PublicKeyMessage(crypto, publicKey).outcome
      ensures conn != null ==> conn.outgoing == old(conn.outgoing) + PublicKeyMessage(crypto, publicKey).bytes
      ensures conn != null ==> conn.incoming == old(conn.incoming)
    {
      var _ := Send(HandlerTag(PublicKeyHandler));
      if publicKey.None? {
        return Fail(AttributeError);
      }
      outcome := SendBytes(crypto.ExportPublicKey(publicKey.value));
      if conn != null {
        AppendAssociates(old(conn.outgoing), HandlerTag(PublicKeyHandler), BytesFrame(crypto.ExportPublicKey(publicKey.value)).bytes);
      }
    }

    /** `send_session_key()`. */
    method SendSessionKey() returns (outcome: Outcome)
      modifies conn
      ensures outcome == SessionKeyMessage(crypto, foreignPublicKey, sessionKey).outcome
      ensures conn != null ==> conn.outgoing == old(conn.outgoing) + SessionKeyMessage(crypto, foreignPublicKey, sessionKey).bytes
      ensures conn != null ==> conn.incoming == old(conn.incoming)
    {
      var _ := Send(HandlerTag(SessionKeyHandler));
      outcome := SendBytesWithRsa(sessionKey);
      if conn != null {
        AppendAssociates(old(conn.outgoing), HandlerTag(SessionKeyHandler), RsaFrame(crypto, foreignPublicKey, sessionKey).bytes);
      }
    }

    /** One step of `init_connection()`: `listen()`, `send_public_key()`, the key saving
        that is skipped when the keys are reused, or `send_session_key()`. Its effect on the
        communicator and its socket is the step `Handshake.Perform` describes, from which the
        handshake of two communicators is built. */
    method HandshakeStep(op: Handshake.Op, generated: RsaPrivateKey, iv: Bytes) returns (outcome: Outcome)
      requires conn != null && |iv| == IvSize
      requires Handshake.Perform(crypto, bufferSize, generated, iv, op, State(), conn.incoming).Some?
      modifies this`foreignPublicKey, this`foreignSessionKey, this`events, this`files, this`aborted
      modifies this`privateKeyFile, this`publicKeyFile, conn
      ensures var (party, result, rest, written) := Handshake.Perform(crypto, bufferSize, generated, iv, op, old(State()), old(conn.incoming)).value;
        && State() == party && outcome == result
        && conn.incoming == rest && conn.outgoing == old(conn.outgoing) + written
    {
      match op {
        case Listen =>
          outcome := Listen(generated);
          assert conn.outgoing == old(conn.outgoing) + [];
        case SendPublicKey =>
          outcome := SendPublicKey();
        case Save =>
          if reusingKeys {
            outcome := Pass;
          } else {
            outcome := SaveKeys(iv);
          }
          assert conn.outgoing == old(conn.outgoing) + [];
        case SendSessionKey =>
          outcome := SendSessionKey();
      }
    }

    /** `send_mode(mode)`. */
    method SendMode(modeName: Bytes) returns (outcome: Outcome)
      modifies conn
      ensures outcome == RsaFrame(crypto, foreignPublicKey, modeName).outcome
      ensures conn != null ==> conn.outgoing == old(conn.outgoing) + RsaFrame(crypto, foreignPublicKey, modeName).bytes
      ensures conn != null ==> conn.incoming == old(conn.incoming)
    {
      outcome := SendBytesWithRsa(modeName);
    }

    /** `get_cipher_to_encrypt(mode)`, with `iv` the IV AES.new draws. */
    method GetCipherToEncrypt(modeName: Bytes, iv: Bytes) returns (c: Result<Cipher>)
      requires |iv| == IvSize
      modifies conn
      ensures c == CipherToEncrypt(crypto, foreignPublicKey, sessionKey, modeName, iv).cipher
      ensures conn != null ==> conn.outgoing == old(conn.outgoing) + CipherToEncrypt(crypto, foreignPublicKey, sessionKey, modeName, iv).bytes
      ensures conn != null ==> conn.incoming == old(conn.incoming)
    {
      var mode := ParseMode(modeName);
      if mode.None? {
        return Err(NoSuchMode);
      }
      var cipher := NewCipher(mode.value, sessionKey, iv);
      if cipher.Err? || !UsesIv(mode.value) {
        return cipher;
      }
      var sent := SendBytesWithRsa(iv);
      c := if sent.Fail? then Err(sent.error) else cipher;
    }

    /** The cipher set-up that `send_text` and `send_file` both begin with: `send_mode`,
        then `get_cipher_to_encrypt`; nothing more is sent once `send_mode` raised. */
    method SendCipherHeader(modeName: Bytes, iv: Bytes) returns (c: Result<Cipher>)
      requires |iv| == IvSize
      modifies conn
      ensures c == CipherHeader(crypto, foreignPublicKey, sessionKey, modeName, iv).cipher
      ensures conn != null ==> conn.outgoing == old(conn.outgoing) + CipherHeader(crypto, foreignPublicKey, sessionKey, modeName, iv).bytes
      ensures conn != null ==> conn.incoming == old(conn.incoming)
    {
      var sent := SendMode(modeName);
      if sent.Fail? {
        return Err(sent.error);
      }
      c := GetCipherToEncrypt(modeName, iv);
      if conn != null {
        AppendAssociates(old(conn.outgoing), RsaFrame(crypto, foreignPublicKey, modeName).bytes,
                         CipherToEncrypt(crypto, foreignPublicKey, sessionKey, modeName, iv).bytes);
      }
    }

    /** `send_text(text, mode)`, with `iv` the IV AES.new draws. */
    method SendText(modeName: Bytes, iv: Bytes, text: Bytes) returns (outcome: Outcome)
      requires |iv| == IvSize
      modifies conn
      ensures outcome == TextMessage(crypto, foreignPublicKey, sessionKey, modeName, iv, text).outcome
      ensures conn != null ==> conn.outgoing == old(conn.outgoing) + TextMessage(crypto, foreignPublicKey, sessionKey, modeName, iv, text).bytes
      ensures conn != null ==> conn.incoming == old(conn.incoming)
    {
      ghost var header := CipherHeader(crypto, foreignPublicKey, sessionKey, modeName, iv);
      var _ := Send(HandlerTag(TextHandler));
      var c := SendCipherHeader(modeName, iv);
      if c.Err? {
        if conn != null {
          AppendAssociates(old(conn.outgoing), HandlerTag(TextHandler), header.bytes);
        }
        return Fail(c.error);
      }
      ghost var body := TextBody(crypto, c.value, text);
      var encrypted := Encrypt(crypto, c.value, [], PadForMode(c.value.mode, text));
      assert body == BytesFrame(encrypted.value);
      outcome := SendBytes(encrypted.value);
      if conn != null {
        AppendAssociates4(old(conn.outgoing), HandlerTag(TextHandler), header.bytes, body.bytes);
      }
    }

    /** `send_file(file_path, mode, progressbar)`, with `name` the base name of the path,
        `file` its content (None when it does not exist), `iv` the IV AES.new draws and
        `hasBar` whether a progress bar was passed. Without a connection `send` returns None
        and adding it to `bytes_sent` raises TypeError; without a bar the final
        `setValue(100)` raises AttributeError once everything was sent. */
    method SendFile(modeName: Bytes, iv: Bytes, name: Bytes, file: Option<Bytes>, hasBar: bool) returns (outcome: Outcome)
      requires Sound(crypto) && |iv| == IvSize
      modifies conn, this`progress
      ensures var message := FileMessage(crypto, foreignPublicKey, sessionKey, modeName, iv, name, file, bufferSize);
        && outcome == FileSendOutcome(message.outcome, conn != null, FileContent(file), hasBar)
        && (conn != null ==> conn.outgoing == old(conn.outgoing) + message.bytes)
      ensures conn != null ==> conn.incoming == old(conn.incoming)
      ensures ProgressReported(old(progress), progress, hasBar, outcome)
    {
      ghost var header := CipherHeader(crypto, foreignPublicKey, sessionKey, modeName, iv);
      var _ := Send(HandlerTag(FileHandler));
      var c := SendCipherHeader(modeName, iv);
      if c.Err? {
        if conn != null {
          AppendAssociates(old(conn.outgoing), HandlerTag(FileHandler), header.bytes);
        }
        return Fail(c.error);
      }
      ghost var tail := FileTail(crypto, foreignPublicKey, c.value, name, file, bufferSize);
      outcome := SendFileTail(c.value, name, file, hasBar);
      if conn != null {
        AppendAssociates4(old(conn.outgoing), HandlerTag(FileHandler), header.bytes, tail.bytes);
      }
    }

    /** The part of `send_file` after the cipher set-up: the RSA-encrypted name, the size,
        the body, and the final `setValue(100)`. */
    method SendFileTail(c: Cipher, name: Bytes, file: Option<Bytes>, hasBar: bool) returns (outcome: Outcome)
      requires Sound(crypto)
      modifies conn, this`progress
      ensures var tail := FileTail(crypto, foreignPublicKey, c, name, file, bufferSize);
        && outcome == FileSendOutcome(tail.outcome, conn != null, FileContent(file), hasBar)
        && (conn != null ==> conn.outgoing == old(conn.outgoing) + tail.bytes)
      ensures conn != null ==> conn.incoming == old(conn.incoming)
      ensures ProgressReported(old(progress), progress, hasBar, outcome)
    {
      ghost var tail := FileTail(crypto, foreignPublicKey, c, name, file, bufferSize);
      ghost var nameFrame := RsaFrame(crypto, foreignPublicKey, name);
      var sent := SendBytesWithRsa(name);
      if sent.Fail? {
        assert tail == nameFrame;
        return sent;
      }
      var content := FileContent(file);
      var size := LengthField(|content|);
      if size.Err? {
        assert tail == Output(nameFrame.bytes, Fail(size.error));
        return Fail(size.error);
      }
      var _ := Send(size.value);
      ghost var body := FileBody(crypto, c, [], content, bufferSize);
      assert tail == Output(nameFrame.bytes + size.value + body, Pass);
      ghost var expected := if conn != null then old(conn.outgoing) + tail.bytes else [];
      assert conn != null ==> conn.outgoing + body == expected by {
        if conn != null {
          AppendAssociates4(old(conn.outgoing), nameFrame.bytes, size.value, body);
        }
      }
      outcome := SendChunks(c, content, hasBar, expected);
      if outcome.Fail? {
        return;
      }
      if !hasBar {
        return Fail(AttributeError);
      }
      ProgressAdded(old(progress), progress, 100);
      progress := progress + [100];
    }

    /** The loop of `send_file`: reads `buffer_size` bytes at a time, pads the chunk for ECB
        and CBC when it is not block aligned, encrypts it with the one cipher object, sends
        it and adds what was sent to `bytes_sent`, until `bytes_sent` reaches the file size;
        reports the progress after each chunk. */
    method SendChunks(c: Cipher, content: Bytes, hasBar: bool, ghost expected: Bytes) returns (outcome: Outcome)
      requires Sound(crypto)
      requires conn != null ==> conn.outgoing + FileBody(crypto, c, [], content, bufferSize) == expected
      modifies conn, this`progress
      ensures conn != null ==> outcome.Pass? && conn.outgoing == expected && conn.incoming == old(conn.incoming)
      ensures conn == null ==> outcome == if content == [] then Pass else Fail(TypeError)
      ensures ProgressKept(old(progress), progress, hasBar)
    {
      if conn == null {
        // `send` returns None, and adding it to `bytes_sent` raises on the first chunk.
        return if content == [] then Pass else Fail(TypeError);
      }
      SoundSendsWhole(crypto, c, [], content, bufferSize);
      SendAllChunks(c, content, hasBar, expected);
      outcome := Pass;
    }

    /** The loop of `send_file` over a connected socket. */
    method SendAllChunks(c: Cipher, content: Bytes, hasBar: bool, ghost expected: Bytes)
      requires conn != null && SendsWhole(crypto, c, [], content, bufferSize)
      requires conn.outgoing + FileBody(crypto, c, [], content, bufferSize) == expected
      modifies conn, this`progress
      ensures conn.outgoing == expected && conn.incoming == old(conn.incoming)
      ensures ProgressKept(old(progress), progress, hasBar)
    {
      var bytesSent := 0;
      var pos := 0;
      var history := [];
      while |content| - bytesSent > 0
        invariant pos <= |content|
        invariant bytesSent < |content| ==> bytesSent == pos
        invariant bytesSent >= |content| ==> pos == |content|
        invariant conn.outgoing + FileBody(crypto, c, history, content[pos..], bufferSize) == expected
        invariant SendsWhole(crypto, c, history, content[pos..], bufferSize)
        invariant conn.incoming == old(conn.incoming)
        invariant ProgressKept(old(progress), progress, hasBar)
        decreases |content| - bytesSent
      {
        var n, plain, sent := SendNextChunk(c, history, content, pos, bytesSent, hasBar, expected, old(progress));
        bytesSent := bytesSent + sent;
        pos := pos + n;
        history := history + plain;
      }
    }

    /** `progressbar.setValue(min(int(bytes_sent / file_size * 100), 100))`, when there is a
        progress bar. */
    method ReportProgress(sent: nat, size: nat, hasBar: bool, ghost before: seq<nat>)
      requires size > 0 && ProgressKept(before, progress, hasBar)
      modifies this`progress
      ensures progress == if hasBar then old(progress) + [Progress(sent, size)] else old(progress)
      ensures ProgressKept(before, progress, hasBar)
    {
      if hasBar {
        ProgressAdded(before, progress, Progress(sent, size));
        progress := progress + [Progress(sent, size)];
      }
    }

    /** One pass of the loop of `send_file`: the next `buffer_size` bytes of the file from
        `pos`, padded for ECB and CBC when not block aligned, encrypted after `history` and
        sent, then the progress reported: the length of the chunk read, the plaintext
        encrypted and what `send` returned, the length of the ciphertext. */
    method SendNextChunk(c: Cipher, history: Bytes, content: Bytes, pos: nat, bytesSent: nat, hasBar: bool,
                         ghost expected: Bytes, ghost before: seq<nat>) returns (n: nat, plain: Bytes, sent: nat)
      requires pos < |content| && conn != null
      requires conn.outgoing + FileBody(crypto, c, history, content[pos..], bufferSize) == expected
      requires SendsWhole(crypto, c, history, content[pos..], bufferSize)
      requires ProgressKept(before, progress, hasBar)
      modifies conn, this`progress
      ensures n == ChunkSize(|content| - pos, bufferSize) && plain == ChunkPlain(c.mode, content[pos..pos + n])
      ensures sent == SendAdvance(crypto, c, history, content[pos..], bufferSize) && sent == |plain|
      ensures SendsWhole(crypto, c, history + plain, content[pos + n..], bufferSize)
      ensures conn.incoming == old(conn.incoming)
      ensures conn.outgoing + FileBody(crypto, c, history + plain, content[pos + n..], bufferSize) == expected
      ensures ProgressKept(before, progress, hasBar)
    {
      n := ChunkSize(|content| - pos, bufferSize);
      var buffer := content[pos..pos + n];
      plain := ChunkPlain(c.mode, buffer);
      var encrypted := Encrypt(crypto, c, history, plain);
      assert content[pos..][..n] == buffer && content[pos..][n..] == content[pos + n..];
      ghost var rest := FileBody(crypto, c, history + plain, content[pos + n..], bufferSize);
      assert FileBody(crypto, c, history, content[pos..], bufferSize) == encrypted.value + rest;
      var written := Send(encrypted.value);
      sent := written.value;
      AppendAssociates(old(conn.outgoing), encrypted.value, rest);
      ReportProgress(bytesSent + sent, |content|, hasBar, before);
    }
  }
}
