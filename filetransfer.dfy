/** The chunked file transfer of `send_file` and `receive_file`.

    The sender reads the file `buffer_size` bytes at a time and encrypts each chunk with
    the same cipher object, padding a chunk exactly when the mode is ECB or CBC and the
    chunk is not block aligned; with a buffer size that is a multiple of 16 only the last
    chunk can be. The receiver collects the encrypted body, then decrypts it in chunks of
    the same size and unpads the last one under the same condition.

    `FileBody` and `DecryptChunks` are the two loops as functions of what is left to do;
    the methods of `Communication.Communicator` run the loops themselves and are proved
    against them. The receiver collects exactly the body (`BodyLength` bytes);
    `CollectAsWritten` is the collection loop of communicator.py as it stands, with the
    inputs on which it goes wrong. */
module FileTransfer {
  import opened Wrappers
  import opened Bytes
  import opened Padding
  import opened Crypto
  import opened Wire
  import opened Messages

  /** The check in `Communicator.__init__` as written: any multiple of the block size,
      zero and negative multiples included. */
  predicate AcceptedBufferSize(size: int)
  {
    size % BlockSize == 0
  }

  /** The buffer sizes the transfer works with: positive multiples of the block size. */
  type BufferSize = n: nat | n > 0 && n % BlockSize == 0 witness 16

  function Min(a: int, b: int): int
  {
    if a < b then a else b
  }

  /** How many bytes `file.read(buffer_size)` or `temp_file.read(buffer_size)` returns when
      `remaining` bytes are left. */
  function ChunkSize(remaining: nat, bs: nat): (n: nat)
    ensures n <= remaining && n <= bs
    ensures n == remaining || n == bs
  {
    if remaining < bs then remaining else bs
  }

  /** The chunk as it goes into the cipher: padded when the mode is ECB or CBC and the chunk
      is not block aligned, as it is otherwise. Either way the cipher accepts it. */
  function ChunkPlain(m: Mode, chunk: Bytes): (r: Bytes)
    ensures Processable(m, r)
    ensures |chunk| <= |r| && r[..|chunk|] == chunk
    ensures |r| == BodyLength(m, |chunk|)
  {
    if IsPadded(m) && |chunk| % BlockSize != 0 then Pad(chunk) else chunk
  }

  /** How many encrypted bytes a file of `size` bytes takes on the wire: the size rounded
      up to whole blocks for ECB and CBC, the size itself for CFB and OFB. */
  function BodyLength(m: Mode, size: nat): (n: nat)
    ensures size <= n < size + BlockSize
    ensures IsPadded(m) ==> n % BlockSize == 0 && n - size == (BlockSize - size % BlockSize) % BlockSize
    ensures !IsPadded(m) ==> n == size
  {
    if IsPadded(m) && size % BlockSize != 0 then size + BlockSize - size % BlockSize else size
  }

  /** The encrypted body the loop of `send_file` writes for what is left of the file,
      `content`, when the cipher object has already encrypted `history`. */
  function FileBody(p: Primitives, c: Cipher, history: Bytes, content: Bytes, bs: BufferSize): (r: Bytes)
    decreases |content|
  {
    if content == [] then []
    else
      var n := ChunkSize(|content|, bs);
      var plain := ChunkPlain(c.mode, content[..n]);
      p.AesEncrypt(c, history, plain) + FileBody(p, c, history + plain, content[n..], bs)
  }

  /** Every chunk the loop of `send_file` encrypts for `content` comes out of the cipher as
      long as it went in, so that `bytes_sent`, which adds up what `send` returns, counts the
      chunks read, padding included. */
  ghost predicate SendsWhole(p: Primitives, c: Cipher, history: Bytes, content: Bytes, bs: BufferSize)
    decreases |content|
  {
    content == [] ||
    var n := ChunkSize(|content|, bs);
    var plain := ChunkPlain(c.mode, content[..n]);
    |p.AesEncrypt(c, history, plain)| == |plain| && SendsWhole(p, c, history + plain, content[n..], bs)
  }

  /** The library's ciphertexts are as long as their plaintexts, so every file is sent whole. */
  lemma {:induction false} SoundSendsWhole(p: Primitives, c: Cipher, history: Bytes, content: Bytes, bs: BufferSize)
    requires Sound(p)
    ensures SendsWhole(p, c, history, content, bs)
    decreases |content|
  {
    if content != [] {
      var n := ChunkSize(|content|, bs);
      var plain := ChunkPlain(c.mode, content[..n]);
      EncryptLength(p, c, history, plain);
      SoundSendsWhole(p, c, history + plain, content[n..], bs);
    }
  }

  /** A chunk size that is a multiple of the block size leaves the remainder modulo the block
      size unchanged. */
  lemma SubtractBlocks(size: nat, bs: BufferSize)
    requires size >= bs
    ensures (size - bs) % BlockSize == size % BlockSize
  {
    var k := bs / BlockSize;
    assert bs == BlockSize * k;
  }

  /** Counting in whole buffers keeps the count a multiple of the buffer size. */
  lemma AddBuffer(done: nat, bs: BufferSize)
    requires done % bs == 0
    ensures (done + bs) % bs == 0
  {
    var q := done / bs;
    var q' := (done + bs) / bs;
    var r := (done + bs) % bs;
    assert done == bs * q;
    assert done + bs == bs * q' + r;
    // r is a multiple of bs between 0 and bs - 1, so it is 0.
    var k := q + 1 - q';
    assert r == bs * k;
    if k >= 1 {
      MultipleAtLeast(bs, k);
    } else if k <= -1 {
      MultipleAtLeast(bs, -k);
    }
  }

  lemma MultipleAtLeast(a: nat, k: int)
    requires k >= 1
    ensures a * k >= a
  {
  }

  /** A short last chunk, padded, still fits in one buffer. */
  lemma PaddedChunkFits(n: nat, bs: BufferSize)
    requires n < bs
    ensures n + BlockSize - n % BlockSize <= bs
  {
    var k := bs / BlockSize;
    assert bs == BlockSize * k;
    assert n / BlockSize < k;
    assert n - n % BlockSize == BlockSize * (n / BlockSize);
  }

  /** The body is exactly `BodyLength` bytes: only the last chunk is padded. */
  lemma {:induction false} FileBodyLength(p: Primitives, c: Cipher, history: Bytes, content: Bytes, bs: BufferSize)
    requires Sound(p)
    ensures |FileBody(p, c, history, content, bs)| == BodyLength(c.mode, |content|)
    decreases |content|
  {
    if content != [] {
      var n := ChunkSize(|content|, bs);
      var plain := ChunkPlain(c.mode, content[..n]);
      FileBodyLength(p, c, history + plain, content[n..], bs);
      if n == bs {
        SubtractBlocks(|content|, bs);
      }
    }
  }

  /** The decryption loop of `receive_file` over the collected bytes `temp`, with `remaining`
      the value of `file_size - bytes_decrypt` and `history` what the cipher object has
      already decrypted: the bytes it writes to the file, and whether it raises. A full
      buffer is decrypted while at least `buffer_size` bytes remain; the last, shorter,
      chunk is decrypted and unpadded when it is not block aligned in ECB and CBC. */
  function DecryptChunks(p: Primitives, c: Cipher, history: Bytes, temp: Bytes, remaining: nat, bs: BufferSize): (r: Output)
    decreases remaining
  {
    if remaining == 0 then Output([], Pass)
    else
      var buffer := temp[..Min(bs, |temp|)];
      match Decrypt(p, c, history, buffer)
      case Err(e) => Output([], Fail(e))
      case Ok(d) =>
        if remaining < bs then
          if remaining % BlockSize != 0 && IsPadded(c.mode) then
            match Unpad(d)
            case Err(e) => Output([], Fail(e))
            case Ok(u) => Output(u, Pass)
          else Output(d, Pass)
        else
          var tail := DecryptChunks(p, c, history + d, temp[|buffer|..], remaining - bs, bs);
          Output(d + tail.bytes, tail.outcome)
  }

  /** One full buffer of the decryption loop: decrypted as it is, then the loop goes on
      with what follows it. */
  lemma DecryptChunksFull(p: Primitives, c: Cipher, history: Bytes, temp: Bytes, remaining: nat, bs: BufferSize, n: nat, d: Bytes)
    requires remaining >= bs && n == Min(bs, |temp|)
    requires Decrypt(p, c, history, temp[..n]) == Ok(d)
    ensures var tail := DecryptChunks(p, c, history + d, temp[n..], remaining - bs, bs);
      DecryptChunks(p, c, history, temp, remaining, bs) == Output(d + tail.bytes, tail.outcome)
  {
  }

  /** Chunk round trip: decrypting the body `send_file` wrote, with the same buffer size and
      the file's size, writes back exactly the file, in every mode. The receiver unpads
      exactly the chunk the sender padded. */
  lemma {:induction false} DecryptFileBody(p: Primitives, c: Cipher, history: Bytes, content: Bytes, bs: BufferSize)
    requires Sound(p)
    ensures DecryptChunks(p, c, history, FileBody(p, c, history, content, bs), |content|, bs) == Output(content, Pass)
    decreases |content|
  {
    if content != [] {
      var n := ChunkSize(|content|, bs);
      var plain := ChunkPlain(c.mode, content[..n]);
      var encrypted := p.AesEncrypt(c, history, plain);
      var tail := FileBody(p, c, history + plain, content[n..], bs);
      assert FileBody(p, c, history, content, bs) == encrypted + tail;
      if |content| < bs {
        assert content[n..] == [] && content[..n] == content;
        assert encrypted + tail == encrypted;
        DecryptLastChunk(p, c, history, content, bs);
      } else {
        SubtractBlocks(|content|, bs);
        DecryptFullChunk(p, c, history, plain, tail, |content|, bs);
        DecryptFileBody(p, c, history + plain, content[n..], bs);
        assert content == plain + content[n..];
      }
    }
  }

  /** The last chunk of a file shorter than one buffer comes back unpadded exactly when the
      sender padded it. */
  lemma DecryptLastChunk(p: Primitives, c: Cipher, history: Bytes, content: Bytes, bs: BufferSize)
    requires Sound(p) && 0 < |content| < bs
    ensures DecryptChunks(p, c, history, p.AesEncrypt(c, history, ChunkPlain(c.mode, content)), |content|, bs) == Output(content, Pass)
  {
    var plain := ChunkPlain(c.mode, content);
    var encrypted := p.AesEncrypt(c, history, plain);
    if IsPadded(c.mode) && |content| % BlockSize != 0 {
      PaddedChunkFits(|content|, bs);
      UnpadPad(content);
    }
    assert encrypted[..Min(bs, |encrypted|)] == encrypted;
    assert Decrypt(p, c, history, encrypted) == Ok(plain);
  }

  /** A full buffer is decrypted as it is and the loop carries on with the rest. */
  lemma DecryptFullChunk(p: Primitives, c: Cipher, history: Bytes, plain: Bytes, tail: Bytes, remaining: nat, bs: BufferSize)
    requires Sound(p) && |plain| == bs && remaining >= bs
    ensures var rest := DecryptChunks(p, c, history + plain, tail, remaining - bs, bs);
      DecryptChunks(p, c, history, p.AesEncrypt(c, history, plain) + tail, remaining, bs) == Output(plain + rest.bytes, rest.outcome)
  {
    var encrypted := p.AesEncrypt(c, history, plain);
    var temp := encrypted + tail;
    assert Processable(c.mode, plain);
    assert temp[..Min(bs, |temp|)] == encrypted;
    assert temp[|encrypted|..] == tail;
    assert Decrypt(p, c, history, encrypted) == Ok(plain);
  }

  /** The file `send_file` reads: its content, or nothing when it does not exist (the size
      sent is then 0). */
  function FileContent(file: Option<Bytes>): (content: Bytes)
    ensures file.None? ==> content == []
    ensures file.Some? ==> content == file.value
  {
    if file.None? then [] else file.value
  }

  /** `send_file(file_path, mode)` on a connected socket, with `name` the UTF-8 base name of
      the path and `iv` the IV AES.new draws: the FILE tag, the mode frame, the IV frame for
      CBC, CFB and OFB, the RSA-encrypted name, the 4-byte size, then the encrypted body.
      Whatever was written before a raise stays written. */
  function FileMessage(p: Primitives, peerKey: Option<RsaPublicKey>, sessionKey: Bytes, modeName: Bytes, iv: Bytes,
                       name: Bytes, file: Option<Bytes>, bs: BufferSize): (r: Output)
    requires |iv| == IvSize
    ensures |r.bytes| >= FieldWidth && r.bytes[..FieldWidth] == HandlerTag(FileHandler)
    ensures r.outcome.Pass? ==> CipherHeader(p, peerKey, sessionKey, modeName, iv).cipher.Ok?
  {
    var tag := HandlerTag(FileHandler);
    var header := CipherHeader(p, peerKey, sessionKey, modeName, iv);
    match header.cipher
    case Err(e) => Output(tag + header.bytes, Fail(e))
    case Ok(c) =>
      var tail := FileTail(p, peerKey, c, name, file, bs);
      Output(tag + header.bytes + tail.bytes, tail.outcome)
  }

  /** The part of `send_file` after the cipher set-up: the RSA-encrypted name, the size,
      then the encrypted body. */
  function FileTail(p: Primitives, peerKey: Option<RsaPublicKey>, c: Cipher, name: Bytes, file: Option<Bytes>, bs: BufferSize): (r: Output)
    ensures r.outcome.Pass? ==> RsaFrame(p, peerKey, name).outcome.Pass? && |FileContent(file)| < Pow256(FieldWidth)
  {
    var nameFrame := RsaFrame(p, peerKey, name);
    if nameFrame.outcome.Fail? then nameFrame
    else
      var content := FileContent(file);
      match LengthField(|content|)
      case Err(e) => Output(nameFrame.bytes, Fail(e))
      case Ok(size) => Output(nameFrame.bytes + size + FileBody(p, c, [], content, bs), Pass)
  }

  /** A missing file is announced with size 0 and no body follows. */
  lemma MissingFileSendsNoBody(p: Primitives, peerKey: Option<RsaPublicKey>, sessionKey: Bytes, modeName: Bytes, iv: Bytes,
                               name: Bytes, bs: BufferSize)
    requires |iv| == IvSize
    requires FileMessage(p, peerKey, sessionKey, modeName, iv, name, None, bs).outcome.Pass?
    ensures var header := CipherHeader(p, peerKey, sessionKey, modeName, iv);
      FileMessage(p, peerKey, sessionKey, modeName, iv, name, None, bs).bytes ==
        HandlerTag(FileHandler) + header.bytes + RsaFrame(p, peerKey, name).bytes + [0, 0, 0, 0]
  {
    assert ToBigEndian(0, FieldWidth) == [0, 0, 0, 0];
  }

  /** What `receive_file` does with one file message. */
  datatype FileResult =
    | FileFailed(error: Exception)                                  // raised before the file was opened
    | FileWritten(name: Bytes, content: Bytes, outcome: Outcome)    // the file written, and whether decryption raised

  /** `receive_file()` after its tag: the cipher set-up, the RSA-encrypted name, the size,
      then exactly the encrypted body, decrypted chunk by chunk. */
  function ParseFile(p: Primitives, key: Result<RsaPrivateKey>, peerSessionKey: Option<Bytes>, bs: BufferSize, stream: Bytes): (r: Option<(FileResult, Bytes)>)
  {
    match ParseCipher(p, key, peerSessionKey, stream)
    case None => None
    case Some((Err(e), rest)) => Some((FileFailed(e), rest))
    case Some((Ok(c), rest)) => ParseFileBody(p, key, c, bs, rest)
  }

  /** The part of `receive_file` after the cipher set-up. */
  function ParseFileBody(p: Primitives, key: Result<RsaPrivateKey>, c: Cipher, bs: BufferSize, stream: Bytes): (r: Option<(FileResult, Bytes)>)
  {
    match ParseRsaBytes(p, key, stream)
    case None => None
    case Some((Err(e), rest)) => Some((FileFailed(e), rest))
    case Some((Ok(name), rest)) =>
      match ParseLength(rest)
      case None => None
      case Some((size, rest')) =>
        var n := BodyLength(c.mode, size);
        if |rest'| < n then None
        else
          var written := DecryptChunks(p, c, [], rest'[..n], size, bs);
          Some((FileWritten(name, written.bytes, written.outcome), rest'[n..]))
  }

  /** `receive_file` after its cipher set-up: a set-up that raised ends the handler; one
      that succeeded read the key file without raising, and the rest of the message is read
      as `ParseFileBody` reads it. */
  lemma ParseFileAfterCipher(p: Primitives, key: Result<RsaPrivateKey>, peerSessionKey: Option<Bytes>, bs: BufferSize,
                             stream: Bytes, c: Result<Cipher>, rest: Bytes)
    requires ParseCipher(p, key, peerSessionKey, stream) == Some((c, rest))
    ensures c.Err? ==> ParseFile(p, key, peerSessionKey, bs, stream) == Some((FileFailed(c.error), rest))
    ensures c.Ok? ==> key.Ok? && ParseFile(p, key, peerSessionKey, bs, stream) == ParseFileBody(p, key, c.value, bs, rest)
  {
    if c.Ok? {
      assert ParseRsaBytes(p, key, stream).Some? && ParseRsaBytes(p, key, stream).value.0.Ok?;
    }
  }

  /** The file part of `receive_file`, read step by step: the name frame, the size, and a
      body of exactly the length the mode gives, decrypted. */
  lemma ParseFileBodyRead(p: Primitives, key: Result<RsaPrivateKey>, c: Cipher, bs: BufferSize, stream: Bytes,
                          name: Bytes, afterName: Bytes, size: nat, afterSize: Bytes, temp: Bytes, rest: Bytes)
    requires ParseRsaBytes(p, key, stream) == Some((Ok(name), afterName))
    requires ParseLength(afterName) == Some((size, afterSize))
    requires afterSize == temp + rest && |temp| == BodyLength(c.mode, size)
    ensures var written := DecryptChunks(p, c, [], temp, size, bs);
      ParseFileBody(p, key, c, bs, stream) == Some((FileWritten(name, written.bytes, written.outcome), rest))
  {
    DropPrefix(temp, rest);
  }

  /** File round trip, for every mode: a peer holding the private key the name and IV were
      sent to and the sender's session key writes a file with the sent name and exactly the
      sent content, and leaves what follows the message on the stream. */
  lemma ParseFileMessage(p: Primitives, key: RsaPrivateKey, sessionKey: Bytes, m: Mode, iv: Bytes,
                         name: Bytes, file: Option<Bytes>, bs: BufferSize, rest: Bytes)
    requires Sound(p) && |sessionKey| == 32 && |iv| == IvSize
    requires FileMessage(p, Some(p.PublicOf(key)), sessionKey, ModeName(m), iv, name, file, bs).outcome.Pass?
    ensures var out := FileMessage(p, Some(p.PublicOf(key)), sessionKey, ModeName(m), iv, name, file, bs).bytes;
      ParseFile(p, Ok(key), Some(sessionKey), bs, out[FieldWidth..] + rest) == Some((FileWritten(name, FileContent(file), Pass), rest))
  {
    var peerKey := Some(p.PublicOf(key));
    var header := CipherHeader(p, peerKey, sessionKey, ModeName(m), iv);
    var c := header.cipher.value;
    var tail := FileTail(p, peerKey, c, name, file, bs);
    var stream := FileMessage(p, peerKey, sessionKey, ModeName(m), iv, name, file, bs).bytes[FieldWidth..] + rest;
    assert stream == header.bytes + (tail.bytes + rest) && tail.outcome.Pass? by {
      FileMessageSplits(p, peerKey, sessionKey, ModeName(m), iv, name, file, bs);
      var tag := HandlerTag(FileHandler);
      AppendAssociates(tag, header.bytes, tail.bytes);
      DropPrefix(tag, header.bytes + tail.bytes);
      AppendAssociates(header.bytes, tail.bytes, rest);
    }
    assert ParseCipher(p, Ok(key), Some(sessionKey), stream) == Some((Ok(c), tail.bytes + rest)) by {
      ParseCipherHeader(p, key, sessionKey, m, iv, tail.bytes + rest);
    }
    assert ParseFileBody(p, Ok(key), c, bs, tail.bytes + rest) == Some((FileWritten(name, FileContent(file), Pass), rest)) by {
      ParseFileTail(p, key, c, name, file, bs, rest);
    }
  }

  /** Once the cipher is set up, the message is the tag, the set-up and the rest. */
  lemma FileMessageSplits(p: Primitives, peerKey: Option<RsaPublicKey>, sessionKey: Bytes, modeName: Bytes, iv: Bytes,
                          name: Bytes, file: Option<Bytes>, bs: BufferSize)
    requires |iv| == IvSize
    requires CipherHeader(p, peerKey, sessionKey, modeName, iv).cipher.Ok?
    ensures var header := CipherHeader(p, peerKey, sessionKey, modeName, iv);
      var tail := FileTail(p, peerKey, header.cipher.value, name, file, bs);
      var r := FileMessage(p, peerKey, sessionKey, modeName, iv, name, file, bs);
      r.bytes == HandlerTag(FileHandler) + header.bytes + tail.bytes && r.outcome == tail.outcome
  {
  }

  /** The part of the file round trip after the cipher set-up. */
  lemma ParseFileTail(p: Primitives, key: RsaPrivateKey, c: Cipher, name: Bytes, file: Option<Bytes>, bs: BufferSize, rest: Bytes)
    requires Sound(p)
    requires FileTail(p, Some(p.PublicOf(key)), c, name, file, bs).outcome.Pass?
    ensures ParseFileBody(p, Ok(key), c, bs, FileTail(p, Some(p.PublicOf(key)), c, name, file, bs).bytes + rest)
      == Some((FileWritten(name, FileContent(file), Pass), rest))
  {
    var content := FileContent(file);
    var nameFrame := RsaFrame(p, Some(p.PublicOf(key)), name).bytes;
    var size := LengthField(|content|).value;
    var body := FileBody(p, c, [], content, bs);
    AppendAssociates4(nameFrame, size, body, rest);
    AppendAssociates(size, body, rest);
    ParseRsaFrame(p, key, name, size + (body + rest));
    DropPrefix(size, body + rest);
    FileBodyLength(p, c, [], content, bs);
    ParseFileBodyRead(p, Ok(key), c, bs, nameFrame + (size + (body + rest)), name, size + (body + rest),
                      |content|, body + rest, body, rest);
    DecryptFileBody(p, c, [], content, bs);
  }

  // ----- Progress -----

  /** `min(int(bytes_sent / file_size * 100), 100)`, in integer arithmetic: below 100 until
      the whole file is sent, then 100. */
  function Progress(sent: nat, size: nat): (r: nat)
    requires size > 0
    ensures r <= 100
    ensures sent >= size <==> r == 100
  {
    var percent := sent * 100 / size;
    assert sent >= size ==> percent >= 100 by {
      if sent >= size {
        assert sent * 100 >= size * 100;
      }
    }
    assert sent < size ==> percent < 100 by {
      if sent < size {
        assert sent * 100 < size * 100;
      }
    }
    Min(percent, 100)
  }

  // ----- The collection loop as written -----

  /** The collection loop of `receive_file` as written: `recv(buffer_size)` until at least
      `file_size` bytes have arrived. `sizes` are the lengths the successive `recv` calls
      return; None when one of them is not a length `recv` can return (zero, more than was
      asked for, more than the peer sent) or when they run out first. */
  function CollectAsWritten(stream: Bytes, fileSize: int, bs: nat, sizes: seq<nat>): (r: Option<(Bytes, Bytes)>)
    ensures r.Some? ==> r.value.0 + r.value.1 == stream && |r.value.0| >= fileSize
    decreases |sizes|
  {
    if fileSize <= 0 then Some(([], stream))
    else if sizes == [] || sizes[0] == 0 || sizes[0] > bs || sizes[0] > |stream| then None
    else
      match CollectAsWritten(stream[sizes[0]..], fileSize - sizes[0], bs, sizes[1..])
      case None => None
      case Some((temp, rest)) =>
        assert stream == stream[..sizes[0]] + (temp + rest);
        Some((stream[..sizes[0]] + temp, rest))
  }

  /** The loop stops at `file_size` bytes although a padded body is longer: when the first
      `recv` of an ECB or CBC file shorter than one buffer and not block aligned returns only
      `file_size` bytes, the decryption of the partial block raises ValueError, and the rest
      of the body is left to be read as the next message. */
  lemma CollectionStopsShort(p: Primitives, c: Cipher, content: Bytes, bs: BufferSize, rest: Bytes)
    requires Sound(p) && IsPadded(c.mode)
    requires 0 < |content| < bs && |content| % BlockSize != 0
    ensures var body := FileBody(p, c, [], content, bs);
      && |body| > |content|
      && CollectAsWritten(body + rest, |content|, bs, [|content|]) == Some((body[..|content|], body[|content|..] + rest))
      && DecryptChunks(p, c, [], body[..|content|], |content|, bs) == Output([], Fail(ValueError))
  {
    var body := FileBody(p, c, [], content, bs);
    FileBodyLength(p, c, [], content, bs);
    assert (body + rest)[..|content|] == body[..|content|];
    assert (body + rest)[|content|..] == body[|content|..] + rest;
  }

  /** The loop asks for a whole buffer whatever is left of the body, so one `recv` can take
      bytes of the next message too: for a CFB or OFB file, the decrypted bytes of those are
      written to the file, which ends up longer than the one sent, and the next message
      loses its start. */
  lemma CollectionReadsPastBody(p: Primitives, c: Cipher, content: Bytes, bs: BufferSize, next: Bytes)
    requires Sound(p) && !IsPadded(c.mode)
    requires 0 < |content| && 0 < |next| && |content| + |next| <= bs
    ensures var body := FileBody(p, c, [], content, bs);
      && CollectAsWritten(body + next, |content|, bs, [|body| + |next|]) == Some((body + next, []))
      && DecryptChunks(p, c, [], body + next, |content|, bs).outcome.Pass?
      && |DecryptChunks(p, c, [], body + next, |content|, bs).bytes| == |content| + |next|
  {
    var body := FileBody(p, c, [], content, bs);
    FileBodyLength(p, c, [], content, bs);
    assert (body + next)[|body| + |next|..] == [];
  }

  // ----- Progress of the send loop -----

  /** How far one pass of the loop of `send_file` advances `bytes_sent` when `remaining` is
      what is left of the file: the length of the encrypted chunk. */
  function SendAdvance(p: Primitives, c: Cipher, history: Bytes, remaining: Bytes, bs: nat): nat
  {
    |p.AesEncrypt(c, history, ChunkPlain(c.mode, remaining[..ChunkSize(|remaining|, bs)]))|
  }

  /** As written, the constructor accepts a buffer size of 0; the send loop then reads empty
      chunks, `bytes_sent` never grows, and `send_file` of a non-empty file never returns. */
  lemma ZeroBufferStalls(p: Primitives, c: Cipher, history: Bytes, remaining: Bytes)
    requires Sound(p)
    ensures AcceptedBufferSize(0)
    ensures SendAdvance(p, c, history, remaining, 0) == 0
  {
  }

  /** With a positive buffer size every pass sends at least one chunk's worth, so the loop
      ends. */
  lemma SendAlwaysAdvances(p: Primitives, c: Cipher, history: Bytes, remaining: Bytes, bs: BufferSize)
    requires Sound(p) && remaining != []
    ensures SendAdvance(p, c, history, remaining, bs) >= ChunkSize(|remaining|, bs) > 0
  {
  }
}
