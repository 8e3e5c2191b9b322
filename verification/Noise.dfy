/** The Noise IKpsk2 handshake of one side, step by step, and what a completed exchange guarantees. */
module Noise {
  import opened Wrappers
  import opened Bytes
  import opened NoiseTerms

  datatype HandshakeState = Zeroed | InitiationCreated | InitiationConsumed | ResponseCreated | ResponseConsumed

  datatype Handshake = Handshake(
    state: HandshakeState,
    hash: Term,
    chainKey: Term,
    presharedKey: Term,
    localEphemeral: nat,
    localIndex: Uint32,
    remoteIndex: Uint32,
    remoteStatic: Term,
    remoteEphemeral: Term,
    precomputedStaticStatic: Term,
    lastTimestamp: nat,
    lastInitiationConsumption: int)

  datatype MessageInitiation = MessageInitiation(kind: Uint32, sender: Uint32, ephemeral: Term, static_: Term,
                                                 timestamp: Term)

  datatype MessageResponse = MessageResponse(kind: Uint32, sender: Uint32, receiver: Uint32, ephemeral: Term,
                                             empty: Term)

  const MESSAGE_INITIATION_TYPE: Uint32 := 1
  const MESSAGE_RESPONSE_TYPE: Uint32 := 2
  const HANDSHAKE_INITIATION_RATE := 20_000_000

  /** Handshake.Clear */
  function Cleared(hs: Handshake): Handshake {
    hs.(localEphemeral := 0, remoteEphemeral := Zeroes, chainKey := Zeroes, hash := Zeroes, localIndex := 0,
        state := Zeroed)
  }

  /** Nothing that a session could be derived from is left; what guards against replays stays. */
  ghost predicate Erased(hs: Handshake, r: Handshake) {
    && r.state == Zeroed && r.hash == Zeroes && r.chainKey == Zeroes && r.localEphemeral == 0
    && r.remoteEphemeral == Zeroes && r.localIndex == 0 && r.remoteIndex == hs.remoteIndex
    && r.remoteStatic == hs.remoteStatic && r.presharedKey == hs.presharedKey
    && r.precomputedStaticStatic == hs.precomputedStaticStatic
    && r.lastTimestamp == hs.lastTimestamp && r.lastInitiationConsumption == hs.lastInitiationConsumption
  }

  // ----- transcripts

  /** Hash, chain key and last key of a transcript, and what has been sealed so far. */
  datatype Transcript = Transcript(hash: Term, chainKey: Term)

  /** After the ephemeral key of an initiation to the given static key. */
  function AfterEphemeral(responder: Term, ephemeral: Term): Transcript {
    Transcript(Hash(Hash(INITIAL_HASH, responder), ephemeral), MixKey(INITIAL_CHAIN_KEY, ephemeral))
  }

  /** KDF2 on a shared secret: the chain key moves on, the second output seals the next field. */
  function Next(t: Transcript, secret: Term): Transcript { t.(chainKey := Kdf(1, t.chainKey, secret)) }

  function SealKey(t: Transcript, secret: Term): Term { Kdf(2, t.chainKey, secret) }

  function Mixed(t: Transcript, data: Term): Transcript { t.(hash := Hash(t.hash, data)) }

  /** After the static key of the initiator has been sealed or plain. */
  function AfterStatic(responder: Term, ephemeral: Term, es: Term, box: Term): Transcript {
    Mixed(Next(AfterEphemeral(responder, ephemeral), es), box)
  }

  /** After the whole initiation. */
  function AfterInitiation(responder: Term, ephemeral: Term, es: Term, box: Term, ss: Term, stamp: Term): Transcript {
    Mixed(Next(AfterStatic(responder, ephemeral, es, box), ss), stamp)
  }

  /** Up to the preshared key of a response. */
  function AfterSecrets(t: Transcript, ephemeral: Term, ee: Term, se: Term): Transcript {
    Transcript(Hash(t.hash, ephemeral), MixKey(MixKey(MixKey(t.chainKey, ephemeral), ee), se))
  }

  function AfterPsk(t: Transcript, psk: Term): Transcript {
    Transcript(Hash(t.hash, Kdf(2, t.chainKey, psk)), Kdf(1, t.chainKey, psk))
  }

  /** The box that authenticates a response. */
  function EmptyBox(t: Transcript, psk: Term): Term {
    Sealed(Kdf(3, t.chainKey, psk), Empty, AfterPsk(t, psk).hash)
  }

  function AfterResponse(t: Transcript, psk: Term): Transcript {
    Mixed(AfterPsk(t, psk), EmptyBox(t, psk))
  }

  function TranscriptOf(hs: Handshake): Transcript { Transcript(hs.hash, hs.chainKey) }

  // ----- one side

  /** The contents of an initiation, before an index is assigned. */
  datatype InitiationParts = InitiationParts(ephemeral: Term, static_: Term, timestamp: Term)

  /** CreateMessageInitiation up to the assignment of an index. */
  method WriteInitiation(hs: Handshake, identity: nat, ephemeral: nat, now: nat)
    returns (ok: bool, r: Handshake, parts: InitiationParts)
    ensures ok == CanInitiate(hs, ephemeral)
    ensures r == hs.(hash := r.hash, chainKey := r.chainKey, localEphemeral := ephemeral)
    ensures ok ==> r == Unstamped(hs, parts, ephemeral)
    ensures ok ==>
      parts == PartsOf(hs.remoteStatic, identity, ephemeral, SharedSecret(ephemeral, hs.remoteStatic).value,
                                    hs.precomputedStaticStatic, now)
  {
    r := hs.(hash := INITIAL_HASH, chainKey := INITIAL_CHAIN_KEY, localEphemeral := ephemeral);
    parts := InitiationParts(Pub(ephemeral), Empty, Empty);
    r := r.(hash := Hash(r.hash, r.remoteStatic));
    r := r.(chainKey := MixKey(r.chainKey, parts.ephemeral));
    r := r.(hash := Hash(r.hash, parts.ephemeral));
    var ss := SharedSecret(ephemeral, r.remoteStatic);
    if ss == None { return false, r, parts; }
    var key := Kdf(2, r.chainKey, ss.value);
    r := r.(chainKey := Kdf(1, r.chainKey, ss.value));
    parts := parts.(static_ := Sealed(key, Pub(identity), r.hash));
    r := r.(hash := Hash(r.hash, parts.static_));
    if r.precomputedStaticStatic == Zeroes { return false, r, parts; }
    key := Kdf(2, r.chainKey, r.precomputedStaticStatic);
    r := r.(chainKey := Kdf(1, r.chainKey, r.precomputedStaticStatic));
    parts := parts.(timestamp := Sealed(key, Tai(now), r.hash));
    ok := true;
  }

  /** The handshake before the sealed time is mixed into its hash. */
  function Unstamped(hs: Handshake, parts: InitiationParts, ephemeral: nat): Handshake
    requires SharedSecret(ephemeral, hs.remoteStatic).Some?
  {
    var es := SharedSecret(ephemeral, hs.remoteStatic).value;
    var t := Next(AfterStatic(hs.remoteStatic, Pub(ephemeral), es, parts.static_), hs.precomputedStaticStatic);
    hs.(hash := t.hash, chainKey := t.chainKey, localEphemeral := ephemeral)
  }

  predicate CanInitiate(hs: Handshake, ephemeral: nat) {
    SharedSecret(ephemeral, hs.remoteStatic).Some? && hs.precomputedStaticStatic != Zeroes
  }

  /** The initiation that a handshake sends. */
  function InitiationOf(hs: Handshake, identity: nat, ephemeral: nat, now: nat, index: Uint32,
                        kind: Uint32): MessageInitiation
    requires CanInitiate(hs, ephemeral)
  {
    var p := PartsOf(hs.remoteStatic, identity, ephemeral, SharedSecret(ephemeral, hs.remoteStatic).value,
                     hs.precomputedStaticStatic, now);
    MessageInitiation(kind, index, p.ephemeral, p.static_, p.timestamp)
  }

  /** The handshake once its initiation has been sent. */
  function Initiated(hs: Handshake, identity: nat, ephemeral: nat, now: nat, index: Uint32): Handshake
    requires CanInitiate(hs, ephemeral)
  {
    var es := SharedSecret(ephemeral, hs.remoteStatic).value;
    var p := PartsOf(hs.remoteStatic, identity, ephemeral, es, hs.precomputedStaticStatic, now);
    var t := AfterInitiation(hs.remoteStatic, Pub(ephemeral), es, p.static_, hs.precomputedStaticStatic, p.timestamp);
    hs.(state := InitiationCreated, hash := t.hash, chainKey := t.chainKey, localEphemeral := ephemeral,
        localIndex := index)
  }

  /** What an initiation from identity to responder consists of. */
  function PartsOf(responder: Term, identity: nat, ephemeral: nat, es: Term, ss: Term, now: nat): InitiationParts {
    var t := AfterEphemeral(responder, Pub(ephemeral));
    var box := Sealed(SealKey(t, es), Pub(identity), t.hash);
    var u := AfterStatic(responder, Pub(ephemeral), es, box);
    InitiationParts(Pub(ephemeral), box, Sealed(SealKey(u, ss), Tai(now), u.hash))
  }

  /** The first half of ConsumeMessageInitiation: who claims to have sent it, and the transcript so far. */
  method OpenStatic(identity: nat, msg: MessageInitiation) returns (r: Option<Term>, hash: Term, chainKey: Term)
    ensures r == Claimed(identity, msg)
    ensures r.Some? ==> OpenedAs(identity, msg, Transcript(hash, chainKey))
  {
    hash, chainKey := Zeroes, Zeroes;
    if msg.kind != MESSAGE_INITIATION_TYPE { return None, hash, chainKey; }
    hash := Hash(INITIAL_HASH, Pub(identity));
    hash := Hash(hash, msg.ephemeral);
    chainKey := MixKey(INITIAL_CHAIN_KEY, msg.ephemeral);
    var ss := SharedSecret(identity, msg.ephemeral);
    if ss == None { return None, hash, chainKey; }
    var key := Kdf(2, chainKey, ss.value);
    chainKey := Kdf(1, chainKey, ss.value);
    r := Open(key, msg.static_, hash);
    hash := Hash(hash, msg.static_);
  }

  /** t is the transcript of the initiation up to its static key. */
  predicate OpenedAs(identity: nat, msg: MessageInitiation, t: Transcript) {
    match SharedSecret(identity, msg.ephemeral)
    case Some(es) => t == AfterStatic(Pub(identity), msg.ephemeral, es, msg.static_)
    case None => false
  }

  /** The static key in an initiation, when it opens. */
  function Claimed(identity: nat, msg: MessageInitiation): Option<Term> {
    var es := SharedSecret(identity, msg.ephemeral);
    if msg.kind != MESSAGE_INITIATION_TYPE || es == None then None
    else
      var t := AfterEphemeral(Pub(identity), msg.ephemeral);
      Open(SealKey(t, es.value), msg.static_, t.hash)
  }

  /** The time in an initiation, when it opens under the peer's static-static secret. */
  function Stamped(identity: nat, msg: MessageInitiation, ss: Term): Option<nat> {
    match SharedSecret(identity, msg.ephemeral)
    case None => None
    case Some(es) =>
      var u := AfterStatic(Pub(identity), msg.ephemeral, es, msg.static_);
      match Open(SealKey(u, ss), msg.timestamp, u.hash)
      case Some(Tai(n)) => Some(n)
      case _ => None
  }

  /** The time sealed in an initiation. */
  function SealedTime(msg: MessageInitiation): Option<nat> {
    match msg.timestamp
    case Sealed(_, Tai(n), _) => Some(n)
    case _ => None
  }

  /** An initiation that this peer's handshake accepts at time `now`. */
  predicate Acceptable(hs: Handshake, identity: nat, msg: MessageInitiation, now: int) {
    && hs.precomputedStaticStatic != Zeroes
    && Stamped(identity, msg, hs.precomputedStaticStatic).Some?
    && Stamped(identity, msg, hs.precomputedStaticStatic).value > hs.lastTimestamp
    && now - hs.lastInitiationConsumption > HANDSHAKE_INITIATION_RATE
  }

  /** The second half of ConsumeMessageInitiation, on the claimed peer's handshake. */
  method AcceptInitiation(hs: Handshake, identity: nat, msg: MessageInitiation, hash0: Term, chainKey0: Term, now: int)
    returns (ok: bool, r: Handshake)
    requires Claimed(identity, msg).Some? && OpenedAs(identity, msg, Transcript(hash0, chainKey0))
    ensures ok == Acceptable(hs, identity, msg, now)
    ensures r == if ok then Consumed(hs, identity, msg, now) else hs
  {
    var hash, chainKey := hash0, chainKey0;
    if hs.precomputedStaticStatic == Zeroes { return false, hs; }
    var key := Kdf(2, chainKey, hs.precomputedStaticStatic);
    chainKey := Kdf(1, chainKey, hs.precomputedStaticStatic);
    var plain := Open(key, msg.timestamp, hash);
    if plain == None || !plain.value.Tai? { return false, hs; }
    var timestamp := plain.value.time;
    hash := Hash(hash, msg.timestamp);
    var replay := timestamp <= hs.lastTimestamp;
    var flood := now - hs.lastInitiationConsumption <= HANDSHAKE_INITIATION_RATE;
    if replay || flood { return false, hs; }
    r := hs.(hash := hash, chainKey := chainKey, remoteIndex := msg.sender, remoteEphemeral := msg.ephemeral);
    if timestamp > r.lastTimestamp { r := r.(lastTimestamp := timestamp); }
    if now > r.lastInitiationConsumption { r := r.(lastInitiationConsumption := now); }
    r := r.(state := InitiationConsumed);
    ok := true;
  }

  /** The handshake after an acceptable initiation. */
  function Consumed(hs: Handshake, identity: nat, msg: MessageInitiation, now: int): Handshake
    requires Claimed(identity, msg).Some? && Acceptable(hs, identity, msg, now)
  {
    var t := AfterInitiation(Pub(identity), msg.ephemeral, SharedSecret(identity, msg.ephemeral).value, msg.static_,
                             hs.precomputedStaticStatic, msg.timestamp);
    hs.(state := InitiationConsumed, hash := t.hash, chainKey := t.chainKey,
        remoteIndex := msg.sender, remoteEphemeral := msg.ephemeral,
        lastTimestamp := Stamped(identity, msg, hs.precomputedStaticStatic).value,
        lastInitiationConsumption := now)
  }

  /** CreateMessageResponse after the assignment of an index. */
  method WriteResponse(hs: Handshake, ephemeral: nat, kind: Uint32)
    returns (ok: bool, r: Handshake, msg: MessageResponse)
    ensures ok == Answerable(hs, ephemeral)
    ensures !ok ==> r == hs.(hash := r.hash, chainKey := r.chainKey, localEphemeral := ephemeral)
    ensures ok ==> r == Answered(hs, ephemeral) && msg == ResponseOf(hs, ephemeral, kind)
  {
    msg := MessageResponse(kind, hs.localIndex, hs.remoteIndex, Pub(ephemeral), Empty);
    r := hs.(localEphemeral := ephemeral);
    r := r.(hash := Hash(r.hash, msg.ephemeral));
    r := r.(chainKey := MixKey(r.chainKey, msg.ephemeral));
    var ss := SharedSecret(ephemeral, r.remoteEphemeral);
    if ss == None { return false, r, msg; }
    r := r.(chainKey := MixKey(r.chainKey, ss.value));
    ss := SharedSecret(ephemeral, r.remoteStatic);
    if ss == None { return false, r, msg; }
    r := r.(chainKey := MixKey(r.chainKey, ss.value));
    var tau, key := Kdf(2, r.chainKey, r.presharedKey), Kdf(3, r.chainKey, r.presharedKey);
    r := r.(chainKey := Kdf(1, r.chainKey, r.presharedKey));
    r := r.(hash := Hash(r.hash, tau));
    msg := msg.(empty := Sealed(key, Empty, r.hash));
    r := r.(hash := Hash(r.hash, msg.empty));
    r := r.(state := ResponseCreated);
    ok := true;
  }

  predicate Answerable(hs: Handshake, ephemeral: nat) {
    SharedSecret(ephemeral, hs.remoteEphemeral).Some? && SharedSecret(ephemeral, hs.remoteStatic).Some?
  }

  /** The responder's transcript up to the preshared key. */
  function ResponderSecrets(hs: Handshake, ephemeral: nat): Transcript
    requires Answerable(hs, ephemeral)
  {
    AfterSecrets(TranscriptOf(hs), Pub(ephemeral), SharedSecret(ephemeral, hs.remoteEphemeral).value,
                 SharedSecret(ephemeral, hs.remoteStatic).value)
  }

  function Answered(hs: Handshake, ephemeral: nat): Handshake
    requires Answerable(hs, ephemeral)
  {
    var t := AfterResponse(ResponderSecrets(hs, ephemeral), hs.presharedKey);
    hs.(state := ResponseCreated, localEphemeral := ephemeral, hash := t.hash, chainKey := t.chainKey)
  }

  function ResponseOf(hs: Handshake, ephemeral: nat, kind: Uint32): MessageResponse
    requires Answerable(hs, ephemeral)
  {
    MessageResponse(kind, hs.localIndex, hs.remoteIndex, Pub(ephemeral),
                    EmptyBox(ResponderSecrets(hs, ephemeral), hs.presharedKey))
  }

  /** ConsumeMessageResponse on the handshake found under the receiver index. */
  method ReadResponse(hs: Handshake, identity: nat, msg: MessageResponse) returns (ok: bool, r: Handshake)
    ensures ok == Completes(hs, identity, msg)
    ensures r == if ok then Completed(hs, identity, msg) else hs
  {
    if hs.state != InitiationCreated { return false, hs; }
    var hash := Hash(hs.hash, msg.ephemeral);
    var chainKey := MixKey(hs.chainKey, msg.ephemeral);
    var ss := SharedSecret(hs.localEphemeral, msg.ephemeral);
    if ss == None { return false, hs; }
    chainKey := MixKey(chainKey, ss.value);
    ss := SharedSecret(identity, msg.ephemeral);
    if ss == None { return false, hs; }
    chainKey := MixKey(chainKey, ss.value);
    var tau, key := Kdf(2, chainKey, hs.presharedKey), Kdf(3, chainKey, hs.presharedKey);
    chainKey := Kdf(1, chainKey, hs.presharedKey);
    hash := Hash(hash, tau);
    var plain := Open(key, msg.empty, hash);
    if plain != Some(Empty) { return false, hs; }
    hash := Hash(hash, msg.empty);
    r := hs.(hash := hash, chainKey := chainKey, remoteIndex := msg.sender, state := ResponseConsumed);
    ok := true;
  }

  /** The initiator's transcript up to the preshared key. */
  function InitiatorSecrets(hs: Handshake, identity: nat, ephemeral: Term): Option<Transcript> {
    match (SharedSecret(hs.localEphemeral, ephemeral), SharedSecret(identity, ephemeral))
    case (Some(ee), Some(se)) => Some(AfterSecrets(TranscriptOf(hs), ephemeral, ee, se))
    case _ => None
  }

  /** The response fits the initiation that this handshake sent. */
  predicate Completes(hs: Handshake, identity: nat, msg: MessageResponse) {
    var t := InitiatorSecrets(hs, identity, msg.ephemeral);
    hs.state == InitiationCreated && t.Some? && msg.empty == EmptyBox(t.value, hs.presharedKey)
  }

  function Completed(hs: Handshake, identity: nat, msg: MessageResponse): Handshake
    requires Completes(hs, identity, msg)
  {
    var t := AfterResponse(InitiatorSecrets(hs, identity, msg.ephemeral).value, hs.presharedKey);
    hs.(state := ResponseConsumed, hash := t.hash, chainKey := t.chainKey, remoteIndex := msg.sender)
  }

  /** The keys that BeginSymmetricSession derives: the initiator sends with the first, receives with the second. */
  function SendKey(hs: Handshake): Term {
    Kdf(if hs.state == ResponseConsumed then 1 else 2, hs.chainKey, Empty)
  }

  function ReceiveKey(hs: Handshake): Term {
    Kdf(if hs.state == ResponseConsumed then 2 else 1, hs.chainKey, Empty)
  }

  // ----- the exchange as a whole

  /** Two handshakes set up for each other. */
  predicate Paired(hsA: Handshake, a: nat, hsB: Handshake, b: nat) {
    && hsA.remoteStatic == Pub(b) && hsB.remoteStatic == Pub(a)
    && hsA.presharedKey == hsB.presharedKey
    && SharedSecret(a, Pub(b)) == Some(hsA.precomputedStaticStatic)
    && SharedSecret(b, Pub(a)) == Some(hsB.precomputedStaticStatic)
  }

  /** An exchange between paired handshakes goes through, and both sides end up with the same transcript and keys. */
  lemma ExchangeCompletes(hsA: Handshake, a: nat, hsB: Handshake, b: nat, ea: nat, eb: nat,
                          stamp: nat, now: int, ia: Uint32, ib: Uint32, kind: Uint32)
    requires Paired(hsA, a, hsB, b)
    requires stamp > hsB.lastTimestamp && now - hsB.lastInitiationConsumption > HANDSHAKE_INITIATION_RATE
    ensures CanInitiate(hsA, ea)
    ensures var msg1 := InitiationOf(hsA, a, ea, stamp, ia, MESSAGE_INITIATION_TYPE);
            var hsA1 := Initiated(hsA, a, ea, stamp, ia);
            && Claimed(b, msg1) == Some(Pub(a)) && Acceptable(hsB, b, msg1, now)
            && var hsB1 := Consumed(hsB, b, msg1, now).(localIndex := ib);
            && TranscriptOf(hsA1) == TranscriptOf(hsB1)
            && Answerable(hsB1, eb)
            && var msg2 := ResponseOf(hsB1, eb, kind);
            && var hsB2 := Answered(hsB1, eb);
            && Completes(hsA1, a, msg2)
            && var hsA2 := Completed(hsA1, a, msg2);
            && TranscriptOf(hsA2) == TranscriptOf(hsB2)
            && SendKey(hsA2) == ReceiveKey(hsB2) && ReceiveKey(hsA2) == SendKey(hsB2)
            && SendKey(hsA2) != ReceiveKey(hsA2)
            && hsA2.remoteIndex == ib == hsB2.localIndex && hsB2.remoteIndex == ia == hsA2.localIndex
  {
    OfferAgrees(hsA, a, hsB, b, ea, stamp, now, ia);
    var msg := InitiationOf(hsA, a, ea, stamp, ia, MESSAGE_INITIATION_TYPE);
    AnswerAgrees(Initiated(hsA, a, ea, stamp, ia), a, Consumed(hsB, b, msg, now).(localIndex := ib), ea, eb, kind);
  }

  /** The first message. */
  lemma OfferAgrees(hsA: Handshake, a: nat, hsB: Handshake, b: nat, ea: nat, stamp: nat, now: int, ia: Uint32)
    requires Paired(hsA, a, hsB, b)
    requires stamp > hsB.lastTimestamp && now - hsB.lastInitiationConsumption > HANDSHAKE_INITIATION_RATE
    ensures CanInitiate(hsA, ea)
    ensures var msg := InitiationOf(hsA, a, ea, stamp, ia, MESSAGE_INITIATION_TYPE);
            && Claimed(b, msg) == Some(Pub(a)) && Acceptable(hsB, b, msg, now)
            && TranscriptOf(Initiated(hsA, a, ea, stamp, ia)) == TranscriptOf(Consumed(hsB, b, msg, now))
  {
    SharedSecretCommutes(ea, b);
    SharedSecretCommutes(a, b);
  }

  /** The second message, between handshakes whose transcripts agree. */
  lemma AnswerAgrees(hsA: Handshake, a: nat, hsB: Handshake, ea: nat, eb: nat, kind: Uint32)
    requires hsA.state == InitiationCreated && TranscriptOf(hsA) == TranscriptOf(hsB)
    requires hsA.presharedKey == hsB.presharedKey && hsA.localEphemeral == ea
    requires hsB.remoteEphemeral == Pub(ea) && hsB.remoteStatic == Pub(a)
    ensures Answerable(hsB, eb) && Completes(hsA, a, ResponseOf(hsB, eb, kind))
    ensures var r, s := Completed(hsA, a, ResponseOf(hsB, eb, kind)), Answered(hsB, eb);
            && TranscriptOf(r) == TranscriptOf(s)
            && SendKey(r) == ReceiveKey(s) && ReceiveKey(r) == SendKey(s) && SendKey(r) != ReceiveKey(r)
            && r.remoteIndex == hsB.localIndex == s.localIndex
            && s.remoteIndex == hsB.remoteIndex && r.localIndex == hsA.localIndex
  {
    SharedSecretCommutes(ea, eb);
    SharedSecretCommutes(a, eb);
  }

  /** An initiation opens at exactly the device whose static key it was made for. */
  lemma ClaimedIff(hsA: Handshake, a: nat, ea: nat, stamp: nat, ia: Uint32, b: nat)
    requires CanInitiate(hsA, ea)
    ensures Claimed(b, InitiationOf(hsA, a, ea, stamp, ia, MESSAGE_INITIATION_TYPE))
            == if hsA.remoteStatic == Pub(b) then Some(Pub(a)) else None
  {
    SharedSecretCommutes(ea, b);
  }

  /** ... and its time opens only under the static-static secret it was sealed with. */
  lemma StampedIff(hsA: Handshake, a: nat, ea: nat, stamp: nat, ia: Uint32, b: nat, ss: Term)
    requires CanInitiate(hsA, ea) && hsA.remoteStatic == Pub(b)
    ensures Stamped(b, InitiationOf(hsA, a, ea, stamp, ia, MESSAGE_INITIATION_TYPE), ss)
            == if ss == hsA.precomputedStaticStatic then Some(stamp) else None
  {
    SharedSecretCommutes(ea, b);
  }

  /** A response is taken exactly when it was made under the same transcript, preshared key and secrets. */
  lemma CompletesIff(hsA: Handshake, a: nat, hsX: Handshake, ex: nat, kind: Uint32)
    requires hsA.state == InitiationCreated && Answerable(hsX, ex)
    ensures Completes(hsA, a, ResponseOf(hsX, ex, kind)) <==>
      && TranscriptOf(hsA) == TranscriptOf(hsX) && hsA.presharedKey == hsX.presharedKey
      && SharedSecret(hsA.localEphemeral, Pub(ex)) == SharedSecret(ex, hsX.remoteEphemeral)
      && SharedSecret(a, Pub(ex)) == SharedSecret(ex, hsX.remoteStatic)
  {
  }

  /** An initiator takes the response of a responder only when that responder consumed this very initiation. */
  lemma AnswersOwnInitiation(hsA: Handshake, a: nat, ea: nat, stamp: nat, ia: Uint32,
                             hsB: Handshake, b: nat, msg: MessageInitiation, now: int, ib: Uint32, eb: nat,
                             kind: Uint32)
    requires CanInitiate(hsA, ea)
    requires Claimed(b, msg).Some? && Acceptable(hsB, b, msg, now)
    requires Answerable(Consumed(hsB, b, msg, now).(localIndex := ib), eb)
    requires Completes(Initiated(hsA, a, ea, stamp, ia), a,
                       ResponseOf(Consumed(hsB, b, msg, now).(localIndex := ib), eb, kind))
    ensures var own := InitiationOf(hsA, a, ea, stamp, ia, msg.kind);
            msg == own.(sender := msg.sender)
    ensures hsA.remoteStatic == Pub(b) && Claimed(b, msg) == Some(Pub(a)) && hsA.presharedKey == hsB.presharedKey
  {
    CompletesIff(Initiated(hsA, a, ea, stamp, ia), a, Consumed(hsB, b, msg, now).(localIndex := ib), eb, kind);
    ClaimedIff(hsA, a, ea, stamp, msg.sender, b);
  }

  /** Sessions with different ephemeral keys on either side never share a key. */
  lemma FreshKeys(hsA: Handshake, a: nat, ea: nat, stampA: nat, ia: Uint32, exA: Term,
                  hsB: Handshake, b: nat, eb: nat, stampB: nat, ib: Uint32, exB: Term)
    requires CanInitiate(hsA, ea) && CanInitiate(hsB, eb) && (ea != eb || exA != exB)
    requires InitiatorSecrets(Initiated(hsA, a, ea, stampA, ia), a, exA).Some?
    requires InitiatorSecrets(Initiated(hsB, b, eb, stampB, ib), b, exB).Some?
    ensures var s := AfterResponse(InitiatorSecrets(Initiated(hsA, a, ea, stampA, ia), a, exA).value, hsA.presharedKey);
            var u := AfterResponse(InitiatorSecrets(Initiated(hsB, b, eb, stampB, ib), b, exB).value, hsB.presharedKey);
            s.chainKey != u.chainKey && forall i, j :: Kdf(i, s.chainKey, Empty) != Kdf(j, u.chainKey, Empty)
  {
  }
}
