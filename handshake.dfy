/** The connection handshake of `init_connection()`: two communicators, one started as the
    server and one as the client, each running its own fixed sequence of sends, listens and
    key saves over a pair of byte channels.

    The two sides run concurrently; a listen blocks until a whole message is waiting. The
    model lets either side take its next step whenever that step can complete, in any
    order, and proves that under any such interleaving neither side raises, the two never
    wait on each other at once, every message sent is the one the peer's listen expects,
    and once both sides are done each holds the other's public key and session key and
    both channels are empty. */
module Handshake {
  import opened Wrappers
  import opened Bytes
  import opened Crypto
  import opened Wire
  import opened Messages
  import opened FileTransfer
  import opened Session

  // ----- The two programs -----

  datatype Role = Server | Client

  function Peer(role: Role): (r: Role)
    ensures r != role
  {
    if role.Server? then Client else Server
  }

  /** One step of `init_connection()`. `Save` is the `if not self.reusing_keys:` block that
      writes both key files. */
  datatype Op = Listen | SendPublicKey | Save | SendSessionKey

  /** The steps each side runs, in order, after the socket is connected. */
  function Program(role: Role): (ops: seq<Op>)
    ensures |ops| == Steps
  {
    match role
    case Server => [Listen, SendPublicKey, Save, Listen, SendSessionKey]
    case Client => [SendPublicKey, Listen, Save, SendSessionKey, Listen]
  }

  const Steps: nat := 5

  /** How many messages a side has sent once its first `pc` steps are done. */
  function SentCount(role: Role, pc: nat): (n: nat)
    requires pc <= Steps
    ensures n <= 2
  {
    match role
    case Server => if pc >= 5 then 2 else if pc >= 2 then 1 else 0
    case Client => if pc >= 4 then 2 else if pc >= 1 then 1 else 0
  }

  /** How many messages a side has listened to once its first `pc` steps are done. */
  function ReceivedCount(role: Role, pc: nat): (n: nat)
    requires pc <= Steps
    ensures n <= 2
  {
    match role
    case Server => if pc >= 4 then 2 else if pc >= 1 then 1 else 0
    case Client => if pc >= 5 then 2 else if pc >= 2 then 1 else 0
  }

  /** The counts follow the program: a send step adds one sent message, a listen one
      received message, a save neither; and both sides save after their first listen and
      before their second. */
  lemma CountsFollowProgram(role: Role, pc: nat)
    requires pc < Steps
    ensures SentCount(role, pc + 1) == SentCount(role, pc)
      + (if Program(role)[pc] in {SendPublicKey, SendSessionKey} then 1 else 0)
    ensures ReceivedCount(role, pc + 1) == ReceivedCount(role, pc)
      + (if Program(role)[pc] == Listen then 1 else 0)
    ensures Program(role)[pc] == Save <==> pc == 2
    ensures Program(role)[pc] == SendSessionKey ==> ReceivedCount(role, pc) >= 1
    ensures Program(role)[pc] == SendPublicKey ==> SentCount(role, pc) == 0
    ensures Program(role)[pc] == SendSessionKey ==> SentCount(role, pc) == 1
    ensures Program(role)[pc] == Listen && ReceivedCount(role, pc) == 0 ==> pc < 2
    ensures Program(role)[pc] == Listen && ReceivedCount(role, pc) == 1 ==> pc > 2
  {
  }

  // ----- Configuration and state -----

  /** Everything fixed before the handshake starts: the primitives, the buffer size, each
      side's communicator state after `generate_keys()` or `reuse_keys()`, and the values
      `os.urandom` supplies (the key `read_private_key` would fall back on, and the IV
      `save_private_key` draws). */
  datatype Config = Config(
    p: Primitives, bs: BufferSize,
    server: Party, client: Party,
    serverGenerated: RsaPrivateKey, clientGenerated: RsaPrivateKey,
    serverIv: Bytes, clientIv: Bytes)

  function Initial(cfg: Config, role: Role): Party
  {
    if role.Server? then cfg.server else cfg.client
  }

  function Generated(cfg: Config, role: Role): RsaPrivateKey
  {
    if role.Server? then cfg.serverGenerated else cfg.clientGenerated
  }

  function SaveIv(cfg: Config, role: Role): Bytes
  {
    if role.Server? then cfg.serverIv else cfg.clientIv
  }

  /** A side ready to connect: a key pair, a fresh session key, an exported public key
      that fits a frame, and, when it reuses keys, a key file holding its private key. */
  ghost predicate Ready(p: Primitives, party: Party, generated: RsaPrivateKey, iv: Bytes)
  {
    && party.privateKey.Some?
    && party.publicKey == Some(p.PublicOf(party.privateKey.value))
    && |party.sessionKey| == KeySize
    && !party.aborted
    && |iv| == IvSize
    && |p.ExportPublicKey(party.publicKey.value)| < Pow256(FieldWidth)
    && (party.reusingKeys ==> StoredKey(p, party, generated) == Ok(party.privateKey.value))
  }

  /** The IVs drawn for saving the private keys have the length AES expects. */
  predicate Wellformed(cfg: Config)
  {
    |cfg.serverIv| == IvSize && |cfg.clientIv| == IvSize
  }

  ghost predicate Good(cfg: Config)
  {
    && Wellformed(cfg)
    && Sound(cfg.p) && BoundedOaep(cfg.p)
    && Ready(cfg.p, cfg.server, cfg.serverGenerated, cfg.serverIv)
    && Ready(cfg.p, cfg.client, cfg.clientGenerated, cfg.clientIv)
  }

  lemma GoodRole(cfg: Config, role: Role)
    requires Good(cfg)
    ensures Ready(cfg.p, Initial(cfg, role), Generated(cfg, role), SaveIv(cfg, role))
  {
  }

  /** Where a side is: about to run step `pc`, or stopped because a step raised or the
      process exited on an unknown message type. */
  datatype Phase = At(pc: nat) | Stopped

  datatype Side = Side(party: Party, phase: Phase)

  /** Both sides and the bytes in flight towards each. */
  datatype World = World(server: Side, client: Side, toServer: Bytes, toClient: Bytes)

  function SideOf(w: World, role: Role): Side
  {
    if role.Server? then w.server else w.client
  }

  function Inbox(w: World, role: Role): Bytes
  {
    if role.Server? then w.toServer else w.toClient
  }

  /** The state right after both sockets are connected. */
  function Start(cfg: Config): (w: World)
    ensures forall role: Role :: SideOf(w, role) == Side(Initial(cfg, role), At(0)) && Inbox(w, role) == []
  {
    World(Side(cfg.server, At(0)), Side(cfg.client, At(0)), [], [])
  }

  // ----- One step -----

  function Continue(pc: nat, outcome: Outcome, party: Party): Phase
  {
    if outcome.Pass? && !party.aborted then At(pc + 1) else Stopped
  }

  /** One step of `init_connection()` on a communicator's state, as the communicator's
      methods perform it: the new state, the outcome, what is left of the inbox and the
      bytes written to the peer; None while a listen waits on an incomplete message. */
  function Perform(p: Primitives, bs: BufferSize, generated: RsaPrivateKey, iv: Bytes, op: Op, party: Party, inbox: Bytes)
    : (r: Option<(Party, Outcome, Bytes, Bytes)>)
    requires |iv| == IvSize
  {
    match op
    case Listen => Listening(p, bs, generated, party, inbox)
    case SendPublicKey => Some(Sending(party, PublicKeyMessage(p, party.publicKey), inbox))
    case Save => Some(Saving(p, iv, party, inbox))
    case SendSessionKey => Some(Sending(party, SessionKeyMessage(p, party.foreignPublicKey, party.sessionKey), inbox))
  }

  /** `listen()`: one whole message taken from the inbox and handled. */
  function Listening(p: Primitives, bs: BufferSize, generated: RsaPrivateKey, party: Party, inbox: Bytes)
    : Option<(Party, Outcome, Bytes, Bytes)>
  {
    match Listened(p, party, bs, generated, inbox)
    case None => None
    case Some((next, outcome, rest)) => Some((next, outcome, rest, []))
  }

  /** `send_public_key()` or `send_session_key()`: the message's bytes go to the peer. */
  function Sending(party: Party, m: Output, inbox: Bytes): (Party, Outcome, Bytes, Bytes)
  {
    (party, m.outcome, inbox, m.bytes)
  }

  /** The `if not self.reusing_keys:` block: both key files written, or nothing. */
  function Saving(p: Primitives, iv: Bytes, party: Party, inbox: Bytes): (Party, Outcome, Bytes, Bytes)
    requires |iv| == IvSize
  {
    if party.reusingKeys then (party, Pass, inbox, [])
    else
      var (next, outcome) := SavedKeys(p, party, iv);
      (next, outcome, inbox, [])
  }

  /** A side's next step: its new state, what is left of its inbox, and the bytes it wrote
      to its peer; None when it is done, stopped, or waiting on an incomplete message. A
      step that raises, or a listen that met an unknown message type, stops the side. */
  function Step(cfg: Config, role: Role, me: Side, inbox: Bytes): (r: Option<(Side, Bytes, Bytes)>)
    requires Wellformed(cfg)
    ensures r.Some? ==> me.phase.At? && me.phase.pc < Steps
  {
    match me.phase
    case Stopped => None
    case At(pc) =>
      if pc >= Steps then None
      else match Perform(cfg.p, cfg.bs, Generated(cfg, role), SaveIv(cfg, role), Program(role)[pc], me.party, inbox)
        case None => None
        case Some((next, outcome, rest, out)) => Some((Side(next, Continue(pc, outcome, next)), rest, out))
  }

  /** The world after `role` takes its next step, if it can. */
  function Move(cfg: Config, w: World, role: Role): (r: Option<World>)
    requires Wellformed(cfg)
    ensures r.Some? <==> Step(cfg, role, SideOf(w, role), Inbox(w, role)).Some?
    ensures r.Some? ==> var (s, rest, out) := Step(cfg, role, SideOf(w, role), Inbox(w, role)).value;
      && SideOf(r.value, role) == s && Inbox(r.value, role) == rest
      && SideOf(r.value, Peer(role)) == SideOf(w, Peer(role))
      && Inbox(r.value, Peer(role)) == Inbox(w, Peer(role)) + out
  {
    match Step(cfg, role, SideOf(w, role), Inbox(w, role))
    case None => None
    case Some((s, rest, out)) =>
      if role.Server? then Some(w.(server := s, toServer := rest, toClient := w.toClient + out))
      else Some(w.(client := s, toClient := rest, toServer := w.toServer + out))
  }

  // ----- What each side has and what is in flight -----

  /** The two messages a side sends, in order: its public key, then its session key
      encrypted under the peer's public key. */
  function Outgoing(cfg: Config, role: Role): (ms: seq<Bytes>)
    ensures |ms| == 2
  {
    var me := Initial(cfg, role);
    [PublicKeyMessage(cfg.p, me.publicKey).bytes,
     SessionKeyMessage(cfg.p, Initial(cfg, Peer(role)).publicKey, me.sessionKey).bytes]
  }

  /** The messages `from` up to `to` of `ms`, back to back; each message sent goes behind
      those already in flight. */
  function Pending(ms: seq<Bytes>, from: nat, to: nat): (r: Bytes)
    requires from <= to <= |ms|
    ensures from == to ==> r == []
  {
    if from == to then [] else Pending(ms, from, to - 1) + ms[to - 1]
  }

  /** Listening takes the first message in flight and leaves the rest. */
  lemma {:induction false} PendingFront(ms: seq<Bytes>, from: nat, to: nat)
    requires from < to <= |ms|
    ensures Pending(ms, from, to) == ms[from] + Pending(ms, from + 1, to)
  {
    if from + 1 < to {
      PendingFront(ms, from, to - 1);
      AppendAssociates(ms[from], Pending(ms, from + 1, to - 1), ms[to - 1]);
    }
  }

  /** A side's state once its first `pc` steps are done: the peer's public key after its
      first listen, its key files after the save, the peer's session key after its second
      listen. */
  function PartyAt(cfg: Config, role: Role, pc: nat): (r: Party)
    requires Wellformed(cfg) && pc <= Steps
    ensures r.publicKey == Initial(cfg, role).publicKey && r.privateKey == Initial(cfg, role).privateKey
    ensures r.sessionKey == Initial(cfg, role).sessionKey && r.reusingKeys == Initial(cfg, role).reusingKeys
    ensures r.aborted == Initial(cfg, role).aborted
  {
    var me := Initial(cfg, role);
    var heard := ReceivedCount(role, pc);
    var a := if heard >= 1 then me.(foreignPublicKey := Initial(cfg, Peer(role)).publicKey) else me;
    var b := if pc >= 3 && !me.reusingKeys then SavedKeys(cfg.p, a, SaveIv(cfg, role)).0 else a;
    if heard >= 2 then b.(foreignSessionKey := Some(Initial(cfg, Peer(role)).sessionKey)) else b
  }

  /** The handshake invariant: both sides are running, each side's state is the one its
      progress dictates, a side has never listened to more messages than its peer sent,
      and its inbox holds exactly the peer's messages it has not listened to yet. */
  ghost predicate Inv(cfg: Config, w: World)
  {
    && Good(cfg)
    && SideInv(cfg, w, Server)
    && SideInv(cfg, w, Client)
  }

  ghost predicate SideInv(cfg: Config, w: World, role: Role)
    requires Wellformed(cfg)
  {
    var me := SideOf(w, role);
    var peer := SideOf(w, Peer(role));
    && me.phase.At? && me.phase.pc <= Steps
    && peer.phase.At? && peer.phase.pc <= Steps
    && me.party == PartyAt(cfg, role, me.phase.pc)
    && ReceivedCount(role, me.phase.pc) <= SentCount(Peer(role), peer.phase.pc)
    && Inbox(w, role) == Pending(Outgoing(cfg, Peer(role)), ReceivedCount(role, me.phase.pc), SentCount(Peer(role), peer.phase.pc))
  }

  lemma InvStart(cfg: Config)
    requires Good(cfg)
    ensures Inv(cfg, Start(cfg))
  {
    var w := Start(cfg);
    assert SideInv(cfg, w, Server);
    assert SideInv(cfg, w, Client);
  }

  // ----- Each kind of step, from the state the invariant describes -----

  /** The bytes a side writes at step `pc`: its next message at a send, nothing at a listen
      or a save. */
  function Written(cfg: Config, role: Role, pc: nat): Bytes
    requires pc < Steps
  {
    match Program(role)[pc]
    case SendPublicKey => Outgoing(cfg, role)[0]
    case SendSessionKey => Outgoing(cfg, role)[1]
    case _ => []
  }

  /** What step `pc` of a side does from the state its progress dictates, when its peer has
      sent `sent` messages and the inbox holds those not listened to yet: it waits only at a
      listen with nothing in flight; otherwise it reaches the state of step `pc + 1`, takes
      exactly the next message when it listens and writes exactly its next message when it
      sends. */
  ghost predicate StepsAsPlanned(cfg: Config, role: Role, pc: nat, sent: nat, inbox: Bytes)
    requires Wellformed(cfg) && pc < Steps && ReceivedCount(role, pc) <= sent <= 2
  {
    var r := Step(cfg, role, Side(PartyAt(cfg, role, pc), At(pc)), inbox);
    && (r.None? <==> Program(role)[pc] == Listen && ReceivedCount(role, pc) == sent)
    && (r.Some? ==> r.value == (Side(PartyAt(cfg, role, pc + 1), At(pc + 1)),
          Pending(Outgoing(cfg, Peer(role)), ReceivedCount(role, pc + 1), sent), Written(cfg, role, pc)))
  }

  /** `Perform` for step `pc` of a side, in the terms of `StepsAsPlanned`: it waits only at
      a listen with nothing in flight, and otherwise passes and reaches the state of step
      `pc + 1`. */
  ghost predicate PerformsAsPlanned(cfg: Config, role: Role, pc: nat, sent: nat, inbox: Bytes)
    requires Wellformed(cfg) && pc < Steps && ReceivedCount(role, pc) <= sent <= 2
  {
    var r := Perform(cfg.p, cfg.bs, Generated(cfg, role), SaveIv(cfg, role), Program(role)[pc], PartyAt(cfg, role, pc), inbox);
    && (r.None? <==> Program(role)[pc] == Listen && ReceivedCount(role, pc) == sent)
    && (r.Some? ==> r.value == (PartyAt(cfg, role, pc + 1), Pass,
          Pending(Outgoing(cfg, Peer(role)), ReceivedCount(role, pc + 1), sent), Written(cfg, role, pc)))
  }

  /** A step that passes moves the side on to the next step of its program. */
  lemma StepFromPerform(cfg: Config, role: Role, pc: nat, sent: nat, inbox: Bytes)
    requires Wellformed(cfg) && pc < Steps && ReceivedCount(role, pc) <= sent <= 2
    requires !Initial(cfg, role).aborted
    requires PerformsAsPlanned(cfg, role, pc, sent, inbox)
    ensures StepsAsPlanned(cfg, role, pc, sent, inbox)
  {
  }

  /** How one step changes a side's state: a listen stores the peer's public key, then its
      session key; the save writes the key files unless the keys are reused; a send changes
      nothing. */
  lemma PartyAfter(cfg: Config, role: Role, pc: nat)
    requires Wellformed(cfg) && pc < Steps
    ensures var me := PartyAt(cfg, role, pc);
      var peer := Initial(cfg, Peer(role));
      PartyAt(cfg, role, pc + 1) == match Program(role)[pc]
        case Listen =>
          if ReceivedCount(role, pc) == 0 then me.(foreignPublicKey := peer.publicKey)
          else me.(foreignSessionKey := Some(peer.sessionKey))
        case Save => if me.reusingKeys then me else SavedKeys(cfg.p, me, SaveIv(cfg, role)).0
        case _ => me
  {
    CountsFollowProgram(role, pc);
  }

  /** A listen waits on an empty inbox; otherwise it reads back the peer's next message:
      the peer's public key first, then its session key. */
  lemma ListenAsPlanned(cfg: Config, role: Role, pc: nat, sent: nat, inbox: Bytes)
    requires Good(cfg) && pc < Steps && ReceivedCount(role, pc) <= sent <= 2
    requires Program(role)[pc] == Listen
    requires inbox == Pending(Outgoing(cfg, Peer(role)), ReceivedCount(role, pc), sent)
    ensures PerformsAsPlanned(cfg, role, pc, sent, inbox)
  {
    CountsFollowProgram(role, pc);
    var heard := ReceivedCount(role, pc);
    var me := PartyAt(cfg, role, pc);
    var gen := Generated(cfg, role);
    assert Perform(cfg.p, cfg.bs, gen, SaveIv(cfg, role), Listen, me, inbox) == Listening(cfg.p, cfg.bs, gen, me, inbox);
    if heard == sent {
      assert Listened(cfg.p, me, cfg.bs, gen, []).None?;
    } else {
      PendingFront(Outgoing(cfg, Peer(role)), heard, sent);
      if heard == 0 {
        ListenPublicKeyAsPlanned(cfg, role, pc, Pending(Outgoing(cfg, Peer(role)), heard + 1, sent));
      } else {
        ListenSessionKeyAsPlanned(cfg, role, pc, Pending(Outgoing(cfg, Peer(role)), heard + 1, sent));
      }
    }
  }

  /** The first listen stores the public key the peer sent. */
  lemma ListenPublicKeyAsPlanned(cfg: Config, role: Role, pc: nat, rest: Bytes)
    requires Good(cfg) && pc < Steps && Program(role)[pc] == Listen && ReceivedCount(role, pc) == 0
    ensures Listening(cfg.p, cfg.bs, Generated(cfg, role), PartyAt(cfg, role, pc), Outgoing(cfg, Peer(role))[0] + rest)
      == Some((PartyAt(cfg, role, pc + 1), Pass, rest, []))
  {
    PartyAfter(cfg, role, pc);
    GoodRole(cfg, role);
    GoodRole(cfg, Peer(role));
    var peer := Initial(cfg, Peer(role));
    ListenPublicKey(cfg.p, PartyAt(cfg, role, pc), cfg.bs, Generated(cfg, role), peer.publicKey.value, rest);
  }

  /** The second listen stores the peer's session key, which the side's own key file (saved
      one step before, or reused) decrypts. */
  lemma ListenSessionKeyAsPlanned(cfg: Config, role: Role, pc: nat, rest: Bytes)
    requires Good(cfg) && pc < Steps && Program(role)[pc] == Listen && ReceivedCount(role, pc) == 1
    ensures Listening(cfg.p, cfg.bs, Generated(cfg, role), PartyAt(cfg, role, pc), Outgoing(cfg, Peer(role))[1] + rest)
      == Some((PartyAt(cfg, role, pc + 1), Pass, rest, []))
  {
    CountsFollowProgram(role, pc);
    PartyAfter(cfg, role, pc);
    GoodRole(cfg, role);
    GoodRole(cfg, Peer(role));
    var me := PartyAt(cfg, role, pc);
    var peer := Initial(cfg, Peer(role));
    var key := me.privateKey.value;
    assert Peer(Peer(role)) == role;
    var m := SessionKeyMessage(cfg.p, Some(cfg.p.PublicOf(key)), peer.sessionKey);
    assert Outgoing(cfg, Peer(role))[1] == m.bytes;
    StoredKeyAt(cfg, role, pc);
    RsaFramePasses(cfg.p, cfg.p.PublicOf(key), peer.sessionKey);
    ListenSessionKey(cfg.p, me, cfg.bs, Generated(cfg, role), key, peer.sessionKey, rest);
    var next := me.(foreignSessionKey := Some(peer.sessionKey));
    assert Listened(cfg.p, me, cfg.bs, Generated(cfg, role), m.bytes + rest) == Some((next, Pass, rest));
  }

  /** Sending the public key writes the side's first message and changes nothing else. */
  lemma SendPublicKeyAsPlanned(cfg: Config, role: Role, pc: nat, sent: nat, inbox: Bytes)
    requires Good(cfg) && pc < Steps && ReceivedCount(role, pc) <= sent <= 2
    requires Program(role)[pc] == SendPublicKey
    requires inbox == Pending(Outgoing(cfg, Peer(role)), ReceivedCount(role, pc), sent)
    ensures PerformsAsPlanned(cfg, role, pc, sent, inbox)
  {
    CountsFollowProgram(role, pc);
    PartyAfter(cfg, role, pc);
    GoodRole(cfg, role);
    var me := PartyAt(cfg, role, pc);
    var m := PublicKeyMessage(cfg.p, me.publicKey);
    assert Perform(cfg.p, cfg.bs, Generated(cfg, role), SaveIv(cfg, role), SendPublicKey, me, inbox) == Some(Sending(me, m, inbox));
    assert m.outcome.Pass?;
  }

  /** Sending the session key encrypts it under the public key the side listened to first,
      which is the peer's: this writes the side's second message. */
  lemma SendSessionKeyAsPlanned(cfg: Config, role: Role, pc: nat, sent: nat, inbox: Bytes)
    requires Good(cfg) && pc < Steps && ReceivedCount(role, pc) <= sent <= 2
    requires Program(role)[pc] == SendSessionKey
    requires inbox == Pending(Outgoing(cfg, Peer(role)), ReceivedCount(role, pc), sent)
    ensures PerformsAsPlanned(cfg, role, pc, sent, inbox)
  {
    CountsFollowProgram(role, pc);
    PartyAfter(cfg, role, pc);
    GoodRole(cfg, role);
    GoodRole(cfg, Peer(role));
    var me := PartyAt(cfg, role, pc);
    var peer := Initial(cfg, Peer(role));
    assert me.foreignPublicKey == peer.publicKey;
    var m := SessionKeyMessage(cfg.p, peer.publicKey, me.sessionKey);
    assert Perform(cfg.p, cfg.bs, Generated(cfg, role), SaveIv(cfg, role), SendSessionKey, me, inbox) == Some(Sending(me, m, inbox));
    RsaFramePasses(cfg.p, peer.publicKey.value, me.sessionKey);
  }

  /** Saving the keys writes both key files, or nothing when the keys are reused. */
  lemma SaveAsPlanned(cfg: Config, role: Role, pc: nat, sent: nat, inbox: Bytes)
    requires Good(cfg) && pc < Steps && ReceivedCount(role, pc) <= sent <= 2
    requires Program(role)[pc] == Save
    requires inbox == Pending(Outgoing(cfg, Peer(role)), ReceivedCount(role, pc), sent)
    ensures PerformsAsPlanned(cfg, role, pc, sent, inbox)
  {
    CountsFollowProgram(role, pc);
    PartyAfter(cfg, role, pc);
    GoodRole(cfg, role);
    var me := PartyAt(cfg, role, pc);
    assert Perform(cfg.p, cfg.bs, Generated(cfg, role), SaveIv(cfg, role), Save, me, inbox) == Some(Saving(cfg.p, SaveIv(cfg, role), me, inbox));
  }

  lemma StepAsPlanned(cfg: Config, role: Role, pc: nat, sent: nat, inbox: Bytes)
    requires Good(cfg) && pc < Steps && ReceivedCount(role, pc) <= sent <= 2
    requires inbox == Pending(Outgoing(cfg, Peer(role)), ReceivedCount(role, pc), sent)
    ensures StepsAsPlanned(cfg, role, pc, sent, inbox)
  {
    match Program(role)[pc] {
      case Listen => ListenAsPlanned(cfg, role, pc, sent, inbox);
      case SendPublicKey => SendPublicKeyAsPlanned(cfg, role, pc, sent, inbox);
      case Save => SaveAsPlanned(cfg, role, pc, sent, inbox);
      case SendSessionKey => SendSessionKeyAsPlanned(cfg, role, pc, sent, inbox);
    }
    GoodRole(cfg, role);
    StepFromPerform(cfg, role, pc, sent, inbox);
  }

  /** What a side writes at a step is the next message its peer has not been sent yet. */
  lemma WrittenIsNext(cfg: Config, role: Role, pc: nat, from: nat)
    requires pc < Steps && from <= SentCount(role, pc)
    ensures Pending(Outgoing(cfg, role), from, SentCount(role, pc)) + Written(cfg, role, pc)
      == Pending(Outgoing(cfg, role), from, SentCount(role, pc + 1))
  {
    CountsFollowProgram(role, pc);
    var ms := Outgoing(cfg, role);
    if Program(role)[pc] in {Listen, Save} {
      assert Pending(ms, from, SentCount(role, pc)) + [] == Pending(ms, from, SentCount(role, pc));
    }
  }

  // ----- The handshake as a whole -----

  /** How far both sides have got. */
  function StepsTaken(w: World): nat
  {
    (if w.server.phase.At? then w.server.phase.pc else 0)
      + (if w.client.phase.At? then w.client.phase.pc else 0)
  }

  predicate Done(w: World)
  {
    w.server.phase == At(Steps) && w.client.phase == At(Steps)
  }

  /** The moving side's part of the invariant is kept by a step as planned. */
  lemma MoverKeepsInv(cfg: Config, w: World, role: Role)
    requires Wellformed(cfg) && SideInv(cfg, w, role)
    requires SideOf(w, role).phase.pc < Steps
    requires StepsAsPlanned(cfg, role, SideOf(w, role).phase.pc,
      SentCount(Peer(role), SideOf(w, Peer(role)).phase.pc), Inbox(w, role))
    ensures Move(cfg, w, role).Some? ==>
      && SideInv(cfg, Move(cfg, w, role).value, role)
      && SideOf(Move(cfg, w, role).value, role).phase == At(SideOf(w, role).phase.pc + 1)
  {
    CountsFollowProgram(role, SideOf(w, role).phase.pc);
  }

  /** The peer's part of the invariant is kept too: what the side wrote is the next
      message the peer has not been sent yet. */
  lemma PeerKeepsInv(cfg: Config, w: World, role: Role)
    requires Wellformed(cfg) && SideInv(cfg, w, role) && SideInv(cfg, w, Peer(role))
    requires SideOf(w, role).phase.pc < Steps
    requires StepsAsPlanned(cfg, role, SideOf(w, role).phase.pc,
      SentCount(Peer(role), SideOf(w, Peer(role)).phase.pc), Inbox(w, role))
    ensures Move(cfg, w, role).Some? ==> SideInv(cfg, Move(cfg, w, role).value, Peer(role))
  {
    var pc := SideOf(w, role).phase.pc;
    CountsFollowProgram(role, pc);
    WrittenIsNext(cfg, role, pc, ReceivedCount(Peer(role), SideOf(w, Peer(role)).phase.pc));
  }

  /** Whichever side moves, the invariant is kept: in particular no step raises and no
      listen reads anything but the message the peer sent for it. */
  lemma MoveKeepsInv(cfg: Config, w: World, role: Role)
    requires Inv(cfg, w)
    ensures Move(cfg, w, role).Some? ==>
      Inv(cfg, Move(cfg, w, role).value) && StepsTaken(Move(cfg, w, role).value) == StepsTaken(w) + 1
  {
    assert SideInv(cfg, w, role) && SideInv(cfg, w, Peer(role));
    var pc := SideOf(w, role).phase.pc;
    if pc < Steps {
      StepAsPlanned(cfg, role, pc, SentCount(Peer(role), SideOf(w, Peer(role)).phase.pc), Inbox(w, role));
      MoverKeepsInv(cfg, w, role);
      PeerKeepsInv(cfg, w, role);
      if Move(cfg, w, role).Some? {
        var w' := Move(cfg, w, role).value;
        assert SideInv(cfg, w', Server) && SideInv(cfg, w', Client) by {
          if role.Client? { assert Peer(role) == Server; }
        }
      }
    }
  }

  /** A side cannot step only when it is done, or when it listens and has already
      listened to every message its peer sent. */
  predicate Waiting(role: Role, pc: nat, sent: nat)
    requires pc <= Steps
  {
    pc == Steps || (Program(role)[pc] == Listen && ReceivedCount(role, pc) == sent)
  }

  lemma MoveWaits(cfg: Config, w: World, role: Role)
    requires Inv(cfg, w)
    ensures SideOf(w, role).phase.At? && SideOf(w, role).phase.pc <= Steps
    ensures SideOf(w, Peer(role)).phase.At? && SideOf(w, Peer(role)).phase.pc <= Steps
    ensures Move(cfg, w, role).None? <==>
      Waiting(role, SideOf(w, role).phase.pc, SentCount(Peer(role), SideOf(w, Peer(role)).phase.pc))
    ensures ReceivedCount(role, SideOf(w, role).phase.pc) <= SentCount(Peer(role), SideOf(w, Peer(role)).phase.pc)
  {
    assert SideInv(cfg, w, role);
    var pc := SideOf(w, role).phase.pc;
    if pc < Steps {
      StepAsPlanned(cfg, role, pc, SentCount(Peer(role), SideOf(w, Peer(role)).phase.pc), Inbox(w, role));
    }
  }

  /** The two programs never wait on each other: whenever both sides wait, both are done. */
  lemma NeverBothWaiting(sp: nat, cp: nat)
    requires sp <= Steps && cp <= Steps
    requires ReceivedCount(Server, sp) <= SentCount(Client, cp)
    requires ReceivedCount(Client, cp) <= SentCount(Server, sp)
    ensures Waiting(Server, sp, SentCount(Client, cp)) && Waiting(Client, cp, SentCount(Server, sp))
      ==> sp == Steps && cp == Steps
  {
  }

  /** No deadlock: until both sides are done, at least one of them can take its next step. */
  lemma NoDeadlock(cfg: Config, w: World)
    requires Inv(cfg, w) && !Done(w)
    ensures Move(cfg, w, Server).Some? || Move(cfg, w, Client).Some?
  {
    assert Peer(Server) == Client && Peer(Client) == Server;
    MoveWaits(cfg, w, Server);
    MoveWaits(cfg, w, Client);
    NeverBothWaiting(w.server.phase.pc, w.client.phase.pc);
  }

  /** Once both sides are done, each holds the other's public key and session key, each
      has its private key in its key file, and nothing is left in flight: every message
      sent was listened to. */
  lemma KeysExchanged(cfg: Config, w: World)
    requires Inv(cfg, w) && Done(w)
    ensures w.server.party.foreignPublicKey == cfg.client.publicKey
    ensures w.client.party.foreignPublicKey == cfg.server.publicKey
    ensures w.server.party.foreignSessionKey == Some(cfg.client.sessionKey)
    ensures w.client.party.foreignSessionKey == Some(cfg.server.sessionKey)
    ensures StoredKey(cfg.p, w.server.party, cfg.serverGenerated) == Ok(cfg.server.privateKey.value)
    ensures StoredKey(cfg.p, w.client.party, cfg.clientGenerated) == Ok(cfg.client.privateKey.value)
    ensures w.toServer == [] && w.toClient == []
  {
    assert SideInv(cfg, w, Server) && SideInv(cfg, w, Client);
    GoodRole(cfg, Server);
    GoodRole(cfg, Client);
    StoredKeyAt(cfg, Server, Steps);
    StoredKeyAt(cfg, Client, Steps);
  }

  /** The world after the sides move in the order `schedule` gives; None when one of them
      cannot take its next step at its turn. */
  function Run(cfg: Config, w: World, schedule: seq<Role>): (r: Option<World>)
    requires Wellformed(cfg)
    ensures schedule == [] ==> r == Some(w)
    decreases |schedule|
  {
    if schedule == [] then Some(w)
    else match Move(cfg, w, schedule[0])
      case None => None
      case Some(next) => Run(cfg, next, schedule[1..])
  }

  /** Safety under every interleaving: however the two sides' steps are ordered, the
      invariant holds after each of them. */
  lemma {:induction false} RunKeepsInv(cfg: Config, w: World, schedule: seq<Role>)
    requires Inv(cfg, w)
    ensures Run(cfg, w, schedule).Some? ==> Inv(cfg, Run(cfg, w, schedule).value)
    decreases |schedule|
  {
    if schedule != [] {
      MoveKeepsInv(cfg, w, schedule[0]);
      if Move(cfg, w, schedule[0]).Some? {
        RunKeepsInv(cfg, Move(cfg, w, schedule[0]).value, schedule[1..]);
      }
    }
  }

  /** Liveness: from any state the invariant describes, some order of steps brings both
      sides to the end. */
  lemma {:induction false} Completes(cfg: Config, w: World) returns (schedule: seq<Role>)
    requires Inv(cfg, w)
    ensures Run(cfg, w, schedule).Some? && Done(Run(cfg, w, schedule).value)
    decreases 2 * Steps - StepsTaken(w)
  {
    if Done(w) {
      schedule := [];
    } else {
      NoDeadlock(cfg, w);
      var role := if Move(cfg, w, Server).Some? then Server else Client;
      var next := Move(cfg, w, role).value;
      MoveKeepsInv(cfg, w, role);
      assert SideInv(cfg, next, Server) && SideInv(cfg, next, Client);
      var rest := Completes(cfg, next);
      schedule := [role] + rest;
      assert schedule[0] == role && schedule[1..] == rest;
    }
  }

  /** `init_connection()` on both ends: some interleaving completes the handshake, and
      every interleaving that completes it leaves the keys exchanged. */
  lemma HandshakeCompletes(cfg: Config) returns (schedule: seq<Role>)
    requires Good(cfg)
    ensures Run(cfg, Start(cfg), schedule).Some? && Done(Run(cfg, Start(cfg), schedule).value)
  {
    InvStart(cfg);
    schedule := Completes(cfg, Start(cfg));
  }

  lemma HandshakeExchangesKeys(cfg: Config, schedule: seq<Role>)
    requires Good(cfg)
    requires Run(cfg, Start(cfg), schedule).Some? && Done(Run(cfg, Start(cfg), schedule).value)
    ensures var w := Run(cfg, Start(cfg), schedule).value;
      && w.server.party.foreignSessionKey == Some(cfg.client.sessionKey)
      && w.client.party.foreignSessionKey == Some(cfg.server.sessionKey)
      && w.server.party.foreignPublicKey == cfg.client.publicKey
      && w.client.party.foreignPublicKey == cfg.server.publicKey
      && w.toServer == [] && w.toClient == []
  {
    InvStart(cfg);
    RunKeepsInv(cfg, Start(cfg), schedule);
    KeysExchanged(cfg, Run(cfg, Start(cfg), schedule).value);
  }

  /** Before its second listen a side's key file holds its private key: either it reused
      the keys it had saved, or it saved them one step earlier. */
  lemma StoredKeyAt(cfg: Config, role: Role, pc: nat)
    requires Wellformed(cfg) && Sound(cfg.p) && 2 < pc <= Steps
    requires Ready(cfg.p, Initial(cfg, role), Generated(cfg, role), SaveIv(cfg, role))
    ensures StoredKey(cfg.p, PartyAt(cfg, role, pc), Generated(cfg, role)) == Ok(Initial(cfg, role).privateKey.value)
  {
    var me := Initial(cfg, role);
    var a := if ReceivedCount(role, pc) >= 1 then me.(foreignPublicKey := Initial(cfg, Peer(role)).publicKey) else me;
    if !me.reusingKeys {
      SavedKeysReadBack(cfg.p, a, SaveIv(cfg, role), Generated(cfg, role));
    }
  }
}
