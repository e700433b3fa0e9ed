# EncryptionApp communicator: a Dafny model

EncryptionApp is a two-party chat and file-transfer program. Two `Communicator` objects,
one started as a server and one as a client, connect over TCP. During the connection
handshake each side sends its RSA public key, saves its key pair to password-protected key
files, and sends a random 32-byte AES session key encrypted under the peer's public key.
After that every text or file travels as a message with a type tag:

- the cipher mode and, for CBC, CFB and OFB, the IV, each RSA-encrypted;
- then the payload, encrypted with AES under the sender's session key.

Files go in chunks of `buffer_size` bytes, padded in ECB and CBC.

The project models the core of the program: the `Communicator` class of
`EncryptionApp/communicator.py` and the key store of `EncryptionApp/rsa_utils.py`.

| file | module | what it holds |
|---|---|---|
| `wrappers.dfy` | `Wrappers` | `Option`, `Result`, the exceptions the code raises, and `Outcome` (returned or raised). |
| `bytes.dfy` | `Bytes` | Byte strings, 4-byte big-endian length fields, and Python's negative slices. |
| `crypto.dfy` | `Crypto` | The library calls (AES modes, RSA-OAEP, SHA-256, key import/export). |
| `padding.dfy` | `Padding` | Block padding: `pad` and `unpad`, and the key store's own unchecked strip. |
| `keystore.dfy` | `KeyStore` | `rsa_utils.py`: key generation, `encrypt_key`/`decrypt_key`, and the two key files with their read-back and fallback. |
| `wire.dfy` | `Wire` | Type tags, `route`'s table, and the plain and RSA length-prefixed frames, as sender functions and parser functions. |
| `messages.dfy` | `Messages` | The public-key, session-key and text messages, and the cipher set-up of `get_cipher_to_encrypt` with its receiving mirror. |
| `filetransfer.dfy` | `FileTransfer` | The chunked send and decrypt loops of `send_file`/`receive_file` as functions, and the loop as written that the Findings are about. |
| `session.dfy` | `Session` | A communicator's state as a value (`Party`), `listen()` on a byte stream, and the key operations. |
| `communicator.dfy` | `Communication` | The `Communicator` class and its socket, as imperative Dafny. |
| `handshake.dfy` | `Handshake` | `init_connection()` on both ends, as two step programs run in any interleaving. |

### Cryptographic primitives

The library functions are a record of tables, `Crypto.Primitives`. The facts the protocol
relies on are collected in `Crypto.Sound`:

- decryption inverts encryption;
- OAEP decrypts what it encrypted under the matching key;
- import inverts export.

`Crypto.SoundIsSatisfiable` shows that these facts can all hold at once. Every round-trip
lemma takes `Sound` as a hypothesis.

### Sending, receiving and the handshake

Every sending method of `Communication.Communicator` is proved to append to the socket
exactly the bytes of the matching message function, and to return its outcome. Every
receiving method is proved to consume exactly what the matching parser reads, and to leave
the state `Session.Deliver` gives. The round-trip lemmas then connect senders and parsers:
each message a peer sends is read back by the other side in every mode.

The handshake is modelled as the two programs of `init_connection()`:

- server: listen, send public key, save, listen, send session key;
- client: send public key, listen, save, send session key, listen.

Both run over a pair of byte channels, and either side may take its next step whenever it
can complete. `Communication.Communicator.HandshakeStep` performs one such step on a real
communicator. `Handshake` proves three things:

- the invariant holds under every interleaving;
- the two sides never deadlock;
- once both are done, each holds the other's public key and session key, and both
  channels are empty.

### Error paths of the key store and the constructor

- **Missing key file.** `read_private_key` (`rsa_utils.py:65-77`) opens the key file
  outside its `try`, so a missing file raises FileNotFoundError; only a ValueError from
  decryption or import falls back to a freshly generated key. A file of exactly 16 bytes
  leaves an empty ciphertext, and `decrypted_key[-1]` then raises IndexError, which is not
  caught either (see `KeyStore.ReadPrivateKey`).
- **Buffer-size check.** The constructor's check as written accepts every multiple of 16,
  including 0 and negative multiples (see Findings).

## Model

| member | source | states |
|---|---|---|
| Bytes.ToBigEndian | EncryptionApp/communicator.py:207-209 | `to_bytes(width)` of a value below 256^width has exactly `width` bytes. |
| Bytes.FromBigEndian | EncryptionApp/communicator.py:110-113 | `int.from_bytes` of a string is below 256 to the power of its length. |
| Bytes.FromToBigEndian | EncryptionApp/communicator.py:110-113 | Reading back a written length gives the length, for every value below 256^width. |
| Bytes.ToFromBigEndian | EncryptionApp/communicator.py:207-209 | Writing back a value read from some bytes gives those same bytes. |
| Bytes.LengthField | EncryptionApp/communicator.py:243 | `to_bytes(4)` raises OverflowError exactly when the value is 2^32 or more; otherwise it gives 4 bytes that read back as the value. |
| Bytes.SliceToNegative | EncryptionApp/rsa_utils.py:69 | `s[:-k]` drops the last k bytes, and is the empty string when k is 0 or at least the length of s. |
| Bytes.SliceFromNegative | EncryptionApp/rsa_utils.py:70 | `s[-k:]` is the last k bytes, or all of s when s is shorter. |
| Bytes.NegativeSlicesSplit | EncryptionApp/rsa_utils.py:69-70 | Splitting `head + tail` with a 16-byte tail gives back both parts. |
| Crypto.ModeName | EncryptionApp/communicator.py:282-296 | Every mode name is a 3-byte string. |
| Crypto.ParseMode | EncryptionApp/communicator.py:282-296 | A string gives a mode only when it is that mode's name; a string that names no mode gives None. |
| Crypto.ParseModeName | EncryptionApp/communicator.py:282-296 | Parsing a mode's name gives the mode back. |
| Crypto.NewCipher | EncryptionApp/communicator.py:282-296 | `AES.new` accepts 16-, 24- or 32-byte keys, and a 16-byte IV for the modes that use one; ECB carries no IV. |
| Crypto.Encrypt | EncryptionApp/communicator.py:250 | ECB and CBC refuse data that is not block aligned; everything else is encrypted. |
| Crypto.Decrypt | EncryptionApp/communicator.py:168 | The same alignment rule on decryption. |
| Crypto.EncryptLength | EncryptionApp/communicator.py:249-250 | Under the library facts, encryption succeeds and the ciphertext is as long as the plaintext, in every mode. |
| Crypto.DecryptEncrypt | EncryptionApp/communicator.py:164-177 | Decryption after the same history recovers the encrypted data, in every mode. |
| Crypto.OaepEncrypt | EncryptionApp/communicator.py:212 | Encryption succeeds exactly when there is a peer key and the message is at most 86 bytes. |
| KeyStore.GenerateKeys | EncryptionApp/rsa_utils.py:9-12 | The pair is the new key and its own public half. |
| KeyStore.GeneratedPairMatches | EncryptionApp/rsa_utils.py:9-12 | What is encrypted under the generated public key decrypts under its private key. |
| KeyStore.PasswordKey | EncryptionApp/rsa_utils.py:18-19 | The AES key is the 32-byte SHA-256 digest of the password, a function of the password alone. |
| KeyStore.EncryptKey | EncryptionApp/rsa_utils.py:15-25 | Succeeds and returns the drawn IV; the ciphertext is as long as the padded key, in whole blocks. |
| KeyStore.DecryptKey | EncryptionApp/rsa_utils.py:28-36 | Raises IndexError exactly for an empty ciphertext with a good IV; raises ValueError exactly for an IV that is not 16 bytes or a ciphertext not in whole blocks. |
| KeyStore.DecryptEncryptKey | EncryptionApp/rsa_utils.py:15-36 | With the same password and IV, `decrypt_key` returns exactly the key `encrypt_key` was given. |
| KeyStore.PrivateKeyFile | EncryptionApp/rsa_utils.py:47-54 | Writing the private key file succeeds, and the file ends with the 16-byte IV. |
| KeyStore.SplitKeyFile | EncryptionApp/rsa_utils.py:69-70 | The file splits into all but its last 16 bytes and its last 16 bytes. |
| KeyStore.SplitJoinedKeyFile | EncryptionApp/rsa_utils.py:69-70 | Splitting a file written as ciphertext then IV gives back both parts. |
| KeyStore.ReadPrivateKey | EncryptionApp/rsa_utils.py:65-77 | Only FileNotFoundError and IndexError escape. FileNotFoundError is raised exactly when the file is missing, and IndexError exactly when the file holds only 16 bytes. |
| KeyStore.ReadSavedPrivateKey | EncryptionApp/rsa_utils.py:47-77 | A private key saved with a password is read back unchanged with that password. |
| KeyStore.ReadPrivateKeyFallsBack | EncryptionApp/rsa_utils.py:72-77 | When the stored key does not import, the reader returns the freshly generated key instead of raising. |
| KeyStore.PublicKeyFile | EncryptionApp/rsa_utils.py:39-44 | The public key file imports back as the key. |
| KeyStore.ReadPublicKey | EncryptionApp/rsa_utils.py:57-62 | Raises exactly when the file is missing or does not import; otherwise returns the imported key. |
| KeyStore.ReadSavedPublicKey | EncryptionApp/rsa_utils.py:39-62 | A saved public key is read back unchanged. |
| Padding.Pad | EncryptionApp/rsa_utils.py:22-23 | Adds 1 to 16 bytes, each holding the count, making the result block aligned and starting with the data. |
| Padding.PadAligned | EncryptionApp/rsa_utils.py:22-23 | Aligned data still gets a whole block of 0x10. |
| Padding.UnpadAcceptsWellPadded | EncryptionApp/communicator.py:189-190 | `unpad` accepts exactly the non-empty aligned strings whose last n bytes all equal n, with 1 <= n <= 16. |
| Padding.PadUnpad | EncryptionApp/communicator.py:189-190 | Whatever `unpad` accepts is `pad` of its result. |
| Padding.UnpadPad | EncryptionApp/communicator.py:189-190 | `unpad` undoes `pad`. |
| Padding.StripKeyPadding | EncryptionApp/rsa_utils.py:35 | The strip drops as many trailing bytes as the last byte says; for 0, or more than the length, it gives the empty string. |
| Padding.StripKeyPaddingOfPad | EncryptionApp/rsa_utils.py:22-35 | Stripping undoes the key store's padding. |
| Padding.StripKeyPaddingAgreesWithUnpad | EncryptionApp/rsa_utils.py:35 | On every string `unpad` accepts, the unchecked strip gives the same result. |
| Wire.HandlerTag | EncryptionApp/communicator.py:32-35 | Every tag is 4 bytes. |
| Wire.Route | EncryptionApp/communicator.py:98-103 | A tag finds the handler registered under it; a tag no handler has gives None, where the lookup raises KeyError. |
| Wire.RouteHandlerTag | EncryptionApp/communicator.py:32-35 | Each handler's tag routes to that handler, and the tags are distinct. |
| Wire.BytesFrame | EncryptionApp/communicator.py:207-209 | The frame is the 4-byte length then the data; data of 2^32 bytes or more raises with nothing written. |
| Wire.ParseLength | EncryptionApp/communicator.py:110-113 | Succeeds exactly when 4 bytes are waiting, gives a value below 2^32, and consumes exactly 4 bytes. |
| Wire.ParseBytes | EncryptionApp/communicator.py:124-127 | The data read, the 4-byte length and what is left make up the whole stream. |
| Wire.ParseBytesFrame | EncryptionApp/communicator.py:124-127 | Framing round trip: the receiver reads back exactly the framed data, and leaves what follows the frame. |
| Wire.ParsedBytesAreFrame | EncryptionApp/communicator.py:124-127 | Whatever `receive_bytes` reads was framed as `send_bytes` frames it. |
| Wire.RsaFrame | EncryptionApp/communicator.py:211-214 | When OAEP encryption raises, its error is the outcome and nothing is written. |
| Wire.RsaFramePasses | EncryptionApp/communicator.py:211-214 | With a peer key and at most 86 bytes, the frame is written and is at most 132 bytes. |
| Wire.RsaPayload | EncryptionApp/communicator.py:129-136 | A key-file error propagates; a failed OAEP decryption gives the placeholder `b'12341234'`; otherwise the plaintext. |
| Wire.ParseRsaBytes | EncryptionApp/communicator.py:129-136 | Completes exactly when a whole frame is waiting, and leaves what `receive_bytes` leaves. |
| Wire.ParseRsaFrame | EncryptionApp/communicator.py:129-136 | RSA frame round trip under the matching private key. |
| Messages.PublicKeyMessage | EncryptionApp/communicator.py:216-219 | Starts with the PUBLIC_KEY tag; without a key only the tag is written and AttributeError is raised. |
| Messages.ParsePublicKey | EncryptionApp/communicator.py:115-118 | Completes exactly when a whole frame is waiting. |
| Messages.ParsePublicKeyMessage | EncryptionApp/communicator.py:115-118 | The peer reads back the sent public key and leaves what follows the message. |
| Messages.SessionKeyMessage | EncryptionApp/communicator.py:221-224 | Starts with the SESSION_KEY tag. |
| Messages.ParseSessionKeyMessage | EncryptionApp/communicator.py:120-122 | The holder of the private key reads back the session key that was sent. |
| Messages.CipherToEncrypt | EncryptionApp/communicator.py:282-296 | An unknown mode raises before writing; ECB writes nothing; CBC, CFB and OFB write one RSA frame holding the IV; the cipher uses the mode and the own session key. |
| Messages.CipherFor | EncryptionApp/communicator.py:184-185 | The receiving cipher fails before the peer's session key has arrived, and otherwise uses it. |
| Messages.ParseCipherForMode | EncryptionApp/communicator.py:184-185 | For ECB no IV frame is read. |
| Messages.CipherHeader | EncryptionApp/communicator.py:263-266 | The mode frame comes first; when it raises nothing else is written, otherwise the IV frame follows. |
| Messages.ParseCipherHeader | EncryptionApp/communicator.py:262-266 | Cipher round trip: the receiver builds the sender's mode, key and IV. |
| Messages.TextMessage | EncryptionApp/communicator.py:262-276 | The message starts with the TEXT tag. |
| Messages.TextBody | EncryptionApp/communicator.py:270-273 | Sending succeeds exactly when the padded text fits a frame. |
| Messages.PadForMode | EncryptionApp/communicator.py:270-271 | ECB and CBC pad; CFB and OFB send the text as it is; the result is always processable. |
| Messages.TextPlain | EncryptionApp/communicator.py:187-190 | CFB and OFB return the decryption as it is. |
| Messages.ParseTextBody | EncryptionApp/communicator.py:186 | Completes exactly when a whole frame is waiting. |
| Messages.ParseTextBodyOfTextBody | EncryptionApp/communicator.py:186-190 | The receiver's unpadding matches the sender's padding in every mode. |
| Messages.ParseTextMessage | EncryptionApp/communicator.py:184-195 | Text round trip in every mode: the peer reads exactly the sent text and leaves what follows. |
| FileTransfer.ChunkSize | EncryptionApp/communicator.py:247 | `read(buffer_size)` returns all that is left or a full buffer. |
| FileTransfer.ChunkPlain | EncryptionApp/communicator.py:248-249 | The chunk begins with the read bytes, is always processable, and has `BodyLength` bytes. |
| FileTransfer.BodyLength | EncryptionApp/communicator.py:248-249 | ECB and CBC round up to whole blocks; CFB and OFB keep the size. |
| FileTransfer.FileBodyLength | EncryptionApp/communicator.py:245-255 | The encrypted body is exactly `BodyLength` bytes: only the last chunk is padded. |
| FileTransfer.DecryptChunksFull | EncryptionApp/communicator.py:173-177 | A full buffer is decrypted and the loop goes on with the rest. |
| FileTransfer.DecryptFileBody | EncryptionApp/communicator.py:164-177 | Chunk round trip: decrypting the body `send_file` wrote gives back exactly the file, in every mode. |
| FileTransfer.DecryptLastChunk | EncryptionApp/communicator.py:166-172 | The last chunk is unpadded exactly when the sender padded it. |
| FileTransfer.DecryptFullChunk | EncryptionApp/communicator.py:173-177 | A full buffer is decrypted as it is. |
| FileTransfer.FileContent | EncryptionApp/communicator.py:235-241 | A missing file is sent as empty. |
| FileTransfer.FileMessage | EncryptionApp/communicator.py:226-260 | Starts with the FILE tag, and passes only when the cipher set-up passed. |
| FileTransfer.FileTail | EncryptionApp/communicator.py:232-255 | Passes only when the name frame was written and the size fits in 4 bytes. |
| FileTransfer.MissingFileSendsNoBody | EncryptionApp/communicator.py:238-243 | A missing file is announced with size 0 and no body follows. |
| FileTransfer.ParseFileAfterCipher | EncryptionApp/communicator.py:146-150 | A failed set-up ends the handler; a good one goes on to the name. |
| FileTransfer.ParseFileBodyRead | EncryptionApp/communicator.py:148-177 | The name, the size, then `BodyLength` bytes decrypted into the file. |
| FileTransfer.ParseFileMessage | EncryptionApp/communicator.py:146-182 | File round trip in every mode: the sent name with exactly the sent content, and what follows is left. |
| FileTransfer.FileMessageSplits | EncryptionApp/communicator.py:226-234 | The message is the tag, the cipher set-up, then the tail. |
| FileTransfer.ParseFileTail | EncryptionApp/communicator.py:148-177 | Round trip of the name, the size and the body. |
| FileTransfer.Progress | EncryptionApp/communicator.py:252 | At most 100, and 100 exactly when everything was sent. |
| FileTransfer.CollectAsWritten | EncryptionApp/communicator.py:153-158 | The loop as written stops once at least `file_size` bytes have arrived. |
| FileTransfer.CollectionStopsShort | EncryptionApp/communicator.py:153-158 | A short ECB or CBC body can be cut at `file_size` bytes, and its decryption then raises. |
| FileTransfer.CollectionReadsPastBody | EncryptionApp/communicator.py:155 | A CFB or OFB receive can take the next message's bytes into the file. |
| FileTransfer.ZeroBufferStalls | EncryptionApp/communicator.py:28-29 | Buffer size 0 is accepted, and then the send loop never advances. |
| FileTransfer.SoundSendsWhole | EncryptionApp/communicator.py:245-250 | Under the library facts, every chunk of the send loop encrypts to a ciphertext of its own length, whatever the history. |
| FileTransfer.AddBuffer | EncryptionApp/communicator.py:175 | Adding `buffer_size` to a multiple of it gives a multiple of it. |
| FileTransfer.SendAlwaysAdvances | EncryptionApp/communicator.py:245-250 | With a positive multiple of 16, every pass advances by at least one chunk. |
| Session.NewParty | EncryptionApp/communicator.py:27-44 | A new communicator has no keys, no peer keys, no events and no files. |
| Session.ParseMessage | EncryptionApp/communicator.py:94-108 | Reads a 4-byte tag; an unknown tag reads nothing after it. |
| Session.Handle | EncryptionApp/communicator.py:98-103 | A registered handler never yields an unknown message. |
| Session.Deliver | EncryptionApp/communicator.py:115-182 | Receiving never touches the own keys; only a public-key message changes the peer key, only a session-key message the peer session key, only a file message the files; at most one event is added. |
| Session.MessageOutcome | EncryptionApp/communicator.py:98-103 | An unknown tag exits instead of raising. |
| Session.Listened | EncryptionApp/communicator.py:94-96 | `listen()` completes exactly when a whole message is waiting. |
| Session.ListenPublicKey | EncryptionApp/communicator.py:115-118 | A public-key message stores the sender's key. |
| Session.ListenSessionKey | EncryptionApp/communicator.py:120-122 | A session-key message sent under the listener's key stores the session key. |
| Session.ListenText | EncryptionApp/communicator.py:184-195 | A text message shows exactly the sent text. |
| Session.ListenFile | EncryptionApp/communicator.py:146-182 | A file message writes the sent file under its name and shows the name. |
| Session.DeliverFile | EncryptionApp/communicator.py:162-181 | A written file is stored under its name, and announced when it was written in full. |
| Session.DeliverFileFailed | EncryptionApp/communicator.py:146-147 | A file message whose set-up raised changes nothing. |
| Session.ParseRouted | EncryptionApp/communicator.py:98-100 | A registered tag's message is read by its handler. |
| Session.HandleText | EncryptionApp/communicator.py:184-192 | The text handler shows what was read. |
| Session.HandlePublicKey | EncryptionApp/communicator.py:115-117 | The public-key handler stores what was read. |
| Session.ListenRouted | EncryptionApp/communicator.py:94-100 | `listen()` delivers what the tag's handler read. |
| Session.ListenedHandled | EncryptionApp/communicator.py:94-100 | `listen()` after a registered tag delivers what the handler read. |
| Session.ListenUnknownTag | EncryptionApp/communicator.py:101-103 | An unknown tag ends the program and reads nothing more. |
| Session.GeneratedKeys | EncryptionApp/communicator.py:46-47 | Sets the new pair and changes nothing else. |
| Session.ReusedKeys | EncryptionApp/communicator.py:49-51 | Sets `reusing_keys`; the keys are assigned exactly when both files read. |
| Session.SavedKeys | EncryptionApp/communicator.py:61-63 | Only the key files change; without a public key its file is emptied and AttributeError is raised; with both keys saving succeeds. |
| Session.SavedKeysReadBack | EncryptionApp/rsa_utils.py:39-77 | After saving, both files give back the saved keys. |
| Session.ReuseSavedKeys | EncryptionApp/communicator.py:49-51 | Keys saved in one session are those `reuse_keys` restores with the same password. |
| Communication.FileSendOutcome | EncryptionApp/communicator.py:243-256 | TypeError without a connection once a chunk is sent; AttributeError without a progress bar. |
| Communication.ProgressAdded | EncryptionApp/communicator.py:251-253 | Adding a value of at most 100 keeps the progress bar valid. |
| Communication.Socket.Recv | EncryptionApp/communicator.py:142 | Returns 1 to `size` of the waiting bytes, in order. |
| Communication.Socket.Send | EncryptionApp/communicator.py:203 | Appends all the data. |
| Communication.Communicator.constructor | EncryptionApp/communicator.py:27-44 | The state is `NewParty`, with no connection. |
| Communication.Communicator.Create | EncryptionApp/communicator.py:27-29 | Refuses exactly the buffer sizes that are not positive multiples of 16. |
| Communication.Communicator.GenerateKeys | EncryptionApp/communicator.py:46-47 | The new state is `GeneratedKeys`. |
| Communication.Communicator.ReuseKeys | EncryptionApp/communicator.py:49-51 | The new state and outcome are `ReusedKeys`. |
| Communication.Communicator.SaveKeys | EncryptionApp/communicator.py:61-63 | The new state and outcome are `SavedKeys`. |
| Communication.Communicator.Receive | EncryptionApp/communicator.py:138-144 | Exactly `length` bytes, taken from the front of the stream, however `recv` splits them. |
| Communication.Communicator.ReceiveLength | EncryptionApp/communicator.py:110-113 | Consumes what `ParseLength` reads. |
| Communication.Communicator.ReceiveBytes | EncryptionApp/communicator.py:124-127 | Consumes what `ParseBytes` reads. |
| Communication.Communicator.ReceiveBytesWithRsa | EncryptionApp/communicator.py:129-136 | Consumes what `ParseRsaBytes` reads, with the key from the key file. |
| Communication.Communicator.ReceiveCipher | EncryptionApp/communicator.py:146 | Consumes what `ParseCipher` reads. |
| Communication.Communicator.ReceivePublicKey | EncryptionApp/communicator.py:115-118 | Consumes what `ParsePublicKey` reads and delivers it. |
| Communication.Communicator.ReceiveSessionKey | EncryptionApp/communicator.py:120-122 | Consumes what `ParseRsaBytes` reads, with the key from the key file, and delivers it. |
| Communication.Communicator.ReceiveText | EncryptionApp/communicator.py:184-195 | Consumes what `ParseText` reads, and shows the text. |
| Communication.Communicator.ReceiveFile | EncryptionApp/communicator.py:146-182 | Consumes what `ParseFile` reads, and writes and shows the file. |
| Communication.Communicator.ReceiveFileBody | EncryptionApp/communicator.py:148-179 | Consumes what `ParseFileBody` reads. |
| Communication.Communicator.CollectBody | EncryptionApp/communicator.py:153-158 | Exactly `length` bytes arrive, never more than `buffer_size` per `recv`. |
| Communication.Communicator.DecryptBody | EncryptionApp/communicator.py:164-177 | The loop writes what `DecryptChunks` gives; `bytes_decrypt` stays a multiple of `buffer_size` and never passes the body length. |
| Communication.Communicator.Listen | EncryptionApp/communicator.py:94-103 | The new state, outcome and stream are `Listened`. |
| Communication.Communicator.Send | EncryptionApp/communicator.py:201-205 | Without a connection it returns None; otherwise it appends the data. |
| Communication.Communicator.SendBytes | EncryptionApp/communicator.py:207-209 | Appends `BytesFrame`. |
| Communication.Communicator.SendBytesWithRsa | EncryptionApp/communicator.py:211-214 | Appends `RsaFrame` under the peer key. |
| Communication.Communicator.SendPublicKey | EncryptionApp/communicator.py:216-219 | Appends `PublicKeyMessage`. |
| Communication.Communicator.SendSessionKey | EncryptionApp/communicator.py:221-224 | Appends `SessionKeyMessage`. |
| Communication.Communicator.HandshakeStep | EncryptionApp/communicator.py:53-77 | One step of `init_connection()` has the effect `Handshake.Perform` gives. |
| Communication.Communicator.SendMode | EncryptionApp/communicator.py:278-280 | Appends the RSA frame of the mode name. |
| Communication.Communicator.GetCipherToEncrypt | EncryptionApp/communicator.py:282-296 | Appends and returns `CipherToEncrypt`. |
| Communication.Communicator.SendCipherHeader | EncryptionApp/communicator.py:227-230 | Appends and returns `CipherHeader`. |
| Communication.Communicator.SendText | EncryptionApp/communicator.py:262-276 | Appends `TextMessage` and returns its outcome. |
| Communication.Communicator.SendFile | EncryptionApp/communicator.py:226-260 | Appends `FileMessage`; progress values are at most 100 and end at 100 on success. |
| Communication.Communicator.SendFileTail | EncryptionApp/communicator.py:232-256 | Appends `FileTail`. |
| Communication.Communicator.SendChunks | EncryptionApp/communicator.py:245-255 | The loop sends exactly `FileBody`; without a connection a non-empty file raises TypeError. |
| Communication.Communicator.SendAllChunks | EncryptionApp/communicator.py:245-255 | Over a connection, sends exactly `FileBody`; `bytes_sent` grows by what each `send` returns, and the loop ends because each ciphertext is as long as its chunk (`SendsWhole`). |
| Communication.Communicator.ReportProgress | EncryptionApp/communicator.py:251-253 | Adds `Progress` only when there is a bar. |
| Communication.Communicator.SendNextChunk | EncryptionApp/communicator.py:247-250 | One pass sends the next chunk of `FileBody` and returns what `send` returned, the ciphertext length, which equals the chunk length; what is left still sends whole. |
| Handshake.Program | EncryptionApp/communicator.py:54-76 | Each side runs five steps. |
| Handshake.CountsFollowProgram | EncryptionApp/communicator.py:54-76 | Sends and listens alternate as the code orders them, with the save between the two listens. |
| Handshake.Start | EncryptionApp/communicator.py:58 | Both sides start at step 0 with empty channels. |
| Handshake.Step | EncryptionApp/communicator.py:54-76 | Only a running side before its end takes a step. |
| Handshake.Move | EncryptionApp/communicator.py:54-76 | A move changes only the moving side and its inbox, and appends what it wrote to the peer's inbox. |
| Handshake.PartyAt | EncryptionApp/communicator.py:54-76 | The handshake never changes a side's own keys or session key. |
| Handshake.InvStart | EncryptionApp/communicator.py:54-76 | The invariant holds at the start. |
| Handshake.ListenAsPlanned | EncryptionApp/communicator.py:59 | A listen waits on an empty inbox, and otherwise reads the peer's next message. |
| Handshake.ListenPublicKeyAsPlanned | EncryptionApp/communicator.py:71 | The first listen stores the peer's public key. |
| Handshake.ListenSessionKeyAsPlanned | EncryptionApp/communicator.py:64 | The second listen decrypts and stores the peer's session key. |
| Handshake.SendPublicKeyAsPlanned | EncryptionApp/communicator.py:70 | Sending the public key writes the side's first message. |
| Handshake.SendSessionKeyAsPlanned | EncryptionApp/communicator.py:75 | Sending the session key writes the second message, under the peer's key. |
| Handshake.SaveAsPlanned | EncryptionApp/communicator.py:72-74 | Saving writes both key files, or nothing when the keys are reused. |
| Handshake.MoveKeepsInv | EncryptionApp/communicator.py:54-76 | Every move keeps the invariant. |
| Handshake.NeverBothWaiting | EncryptionApp/communicator.py:54-76 | The two programs never wait on each other before both are done. |
| Handshake.NoDeadlock | EncryptionApp/communicator.py:54-76 | Until both are done, one side can always move. |
| Handshake.KeysExchanged | EncryptionApp/communicator.py:54-76 | When done, each side holds the peer's public and session keys and its own key file, and no bytes are in flight. |
| Handshake.RunKeepsInv | EncryptionApp/communicator.py:54-76 | The invariant holds under every interleaving. |
| Handshake.Completes | EncryptionApp/communicator.py:54-76 | From any state in the invariant, some interleaving finishes. |
| Handshake.HandshakeCompletes | EncryptionApp/communicator.py:53-77 | From the start, some interleaving completes both sides. |
| Handshake.HandshakeExchangesKeys | EncryptionApp/communicator.py:53-77 | Every completed run exchanges both public keys and both session keys, and leaves the channels empty. |
| Handshake.StoredKeyAt | EncryptionApp/communicator.py:61-64 | Before the second listen, the key file holds the side's private key. |

## Left out

- Sockets, files and threads are values: a `Socket` is two byte streams; key files and received files are `Option<Bytes>` and a map; the receiver thread and `close_connection` are not part of this model.
- Randomness (`os.urandom`, `Random.new().read`, the IVs `AES.new` draws, `RSA.generate`) is passed in as parameters. The key `read_private_key` falls back to (`rsa_utils.py:76-77`) is one parameter, `generated`: every fallback within one listen (and, in `Handshake`, within one side's whole run) returns that same key, where the source generates a new key on each call.
- The library (PyCryptodome AES, PKCS1_OAEP, SHA-256, RSA import/export) is a table of results, constrained only by the facts in `Crypto.Sound`.
- Logging, the GUI signal's string formatting, UTF-8 decoding of received text and file names, and `QApplication.processEvents` are left out.
- The values of the message-type tags and of `BYTE_ORDER` come from message_type.py, which is not part of this model. The model takes four distinct 4-byte tags and big-endian order.
- cipher_utils.py is not part of this model. The receive-side decorator `get_mode_and_cipher_to_receive` is modelled as the mirror of `get_cipher_to_encrypt`.
- Communication.Socket.Recv: returns at least one byte. A `recv` returning b'' after the peer closes is left out.
- Communication.Socket.Send: transmits all of `data` and returns its length. `communicator.py:203` calls `socket.send`, not `sendall`, and a partial `send` is not modelled. With one, the unsent rest would be silently lost (only `communicator.py:250` looks at the count), the peer's stream would go out of step with the framing, and in `send_file` `bytes_sent` would grow only by the count sent. Every sending contract, from `SendBytes` to `SendFile`'s "appends exactly `FileMessage`", rests on this.
- Communication.Communicator.Receive: requires the bytes to be already waiting, where the real call blocks. Blocking is modelled by the parsers returning None.
- Communication.Communicator.HandshakeStep: `init_connection()` has no single sequential method, because each of its listens waits on the peer. It is modelled as `Handshake` together with one-step `HandshakeStep`. Socket creation, bind, accept and connect are `Connect`.
- Handshake.HandshakeExchangesKeys: proved only for sides that are ready. Each side must:
  - hold a key pair;
  - have a 32-byte session key;
  - have an exported public key that fits a frame;
  - when reusing keys, have a key file holding its private key.
  A side that raises simply stops; its failure paths are modelled in `Session`.
  The two sides must also run in different working directories. Both key files live under `os.getcwd()` (`rsa_utils.py:40`, `48`, `59`, `67`), so two communicators in one directory share them, and an interleaving in which the client saves its keys between the server's save and the server's read makes the server read the client's private key. The model gives each side its own key file.
- Handshake.KeysExchanged: assumes each side has its own key file (sides in different working directories), as for `HandshakeExchangesKeys`.
- Handshake.StoredKeyAt: the key file is the side's own; a peer in the same working directory could overwrite it, which the model does not capture.
- Communication.Communicator.SendFile: progress is the integer `min(sent * 100 / size, 100)`, not the float computation.
- `exit(0)` on an unknown tag is modelled as setting `aborted`, not as ending the process.
- Communication.Communicator.CollectBody: the corrected loop, which reads exactly the body. The loop as written is `FileTransfer.CollectAsWritten` (see Findings).
- FileTransfer.DecryptFileBody: proved only when sender and receiver use the same buffer size: each communicator has its own `buffer_size` (`communicator.py:27`, `30`), and a stateful AES cipher gives the same bytes however the stream is split, so the source decrypts a body for any two accepted sizes; the library table in `Crypto.Sound` relates encryption and decryption only at the same history and the same split, so it does not capture that independence.
- FileTransfer.ParseFileBodyRead: built on the corrected collection, which reads exactly `BodyLength` bytes; the receive path and the file round trip are proved for that collection, not for the loop of `communicator.py:153-158` as written (see Findings).
- FileTransfer.ParseFileMessage: built on the corrected collection, which reads exactly `BodyLength` bytes; the receive path and the file round trip are proved for that collection, not for the loop of `communicator.py:153-158` as written (see Findings). Also proved only when sender and receiver use the same buffer size: each communicator has its own `buffer_size` (`communicator.py:27`, `30`), and a stateful AES cipher gives the same bytes however the stream is split, so the source round-trips a file for any two accepted sizes; the library table in `Crypto.Sound` relates encryption and decryption only at the same history and the same split, so it does not capture that independence.
- FileTransfer.ParseFileTail: built on the corrected collection, which reads exactly `BodyLength` bytes; the receive path and the file round trip are proved for that collection, not for the loop of `communicator.py:153-158` as written (see Findings). Also proved only when sender and receiver use the same buffer size: each communicator has its own `buffer_size` (`communicator.py:27`, `30`), and a stateful AES cipher gives the same bytes however the stream is split, so the source round-trips a file for any two accepted sizes; the library table in `Crypto.Sound` relates encryption and decryption only at the same history and the same split, so it does not capture that independence.
- Session.ListenFile: built on the corrected collection, which reads exactly `BodyLength` bytes; the receive path and the file round trip are proved for that collection, not for the loop of `communicator.py:153-158` as written (see Findings). Also proved only when sender and receiver use the same buffer size: each communicator has its own `buffer_size` (`communicator.py:27`, `30`), and a stateful AES cipher gives the same bytes however the stream is split, so the source round-trips a file for any two accepted sizes; the library table in `Crypto.Sound` relates encryption and decryption only at the same history and the same split, so it does not capture that independence.
- Communication.Communicator.ReceiveFile: built on the corrected collection, which reads exactly `BodyLength` bytes; the receive path and the file round trip are proved for that collection, not for the loop of `communicator.py:153-158` as written (see Findings). Also proved only when sender and receiver use the same buffer size: each communicator has its own `buffer_size` (`communicator.py:27`, `30`), and a stateful AES cipher gives the same bytes however the stream is split, so the source round-trips a file for any two accepted sizes; the library table in `Crypto.Sound` relates encryption and decryption only at the same history and the same split, so it does not capture that independence.
- Communication.Communicator.ReceiveFileBody: built on the corrected collection, which reads exactly `BodyLength` bytes; the receive path and the file round trip are proved for that collection, not for the loop of `communicator.py:153-158` as written (see Findings). Also proved only when sender and receiver use the same buffer size: each communicator has its own `buffer_size` (`communicator.py:27`, `30`), and a stateful AES cipher gives the same bytes however the stream is split, so the source round-trips a file for any two accepted sizes; the library table in `Crypto.Sound` relates encryption and decryption only at the same history and the same split, so it does not capture that independence.
- Communication.Communicator.SendFile: requires `Crypto.Sound`, the library facts; the send loop ends only because each ciphertext is as long as its chunk, and nothing is proved about a library that breaks this.
- Communication.Communicator.SendFileTail: requires `Crypto.Sound`, the library facts; the send loop ends only because each ciphertext is as long as its chunk, and nothing is proved about a library that breaks this.
- Communication.Communicator.SendChunks: requires `Crypto.Sound`, the library facts; the send loop ends only because each ciphertext is as long as its chunk, and nothing is proved about a library that breaks this.

## Findings

| source | as written | input that shows it | evidently intended | confidence | as-written member | corrected member |
|---|---|---|---|---|---|---|
| EncryptionApp/communicator.py:153-158 | collects until `file_size` bytes have arrived, but an ECB or CBC body is padded to whole blocks | a 5-byte file sent in ECB with buffer size 1024, where the first `recv` returns 5 bytes | collect `BodyLength(mode, file_size)` bytes | not executed | FileTransfer.CollectionStopsShort | Communication.Communicator.CollectBody |
| EncryptionApp/communicator.py:155 | `recv(self.buffer_size)` asks for a whole buffer whatever is left of the body | a 3-byte CFB file followed by another message, all in one `recv` | ask for at most what is left of the body | not executed | FileTransfer.CollectionReadsPastBody | Communication.Communicator.CollectBody |
| EncryptionApp/communicator.py:28-29 | accepts any multiple of 16, including 0 | buffer size 0, then `send_file` of any non-empty file never ends | accept only positive multiples of 16 | not executed | FileTransfer.ZeroBufferStalls | Communication.Communicator.Create |
