/**
  The pattern IKpsk2 as the Noise Protocol Framework (revision 34) writes its messages, token by token;
  the messages of the handshake are the ones it prescribes.
 */
module NoisePattern {
  import opened Wrappers
  import opened Bytes
  import opened NoiseTerms
  import opened Noise

  datatype Token = E | S | EE | ES | SE | SS | Psk

  /** The symmetric state of section 5.2: chaining key, handshake hash and cipher key. */
  datatype Symmetric = Symmetric(ck: Term, h: Term, k: Term)

  function MixHash(y: Symmetric, data: Term): Symmetric { y.(h := Hash(y.h, data)) }

  function MixKeyOf(y: Symmetric, input: Term): Symmetric { y.(ck := Kdf(1, y.ck, input), k := Kdf(2, y.ck, input)) }

  function MixKeyAndHash(y: Symmetric, input: Term): Symmetric {
    MixHash(y.(ck := Kdf(1, y.ck, input), k := Kdf(3, y.ck, input)), Kdf(2, y.ck, input))
  }

  /** The keys of the side that writes: its own private ones and the public ones of the other side. */
  datatype Keys = Keys(initiator: bool, e: nat, s: nat, re: Term, rs: Term, psk: Term)

  /** The secret that a token calls for; the first letter is the initiator's key, the second the responder's. */
  function Dh(token: Token, keys: Keys): Option<Term> {
    match token
    case EE => SharedSecret(keys.e, keys.re)
    case ES => if keys.initiator then SharedSecret(keys.e, keys.rs) else SharedSecret(keys.s, keys.re)
    case SE => if keys.initiator then SharedSecret(keys.s, keys.re) else SharedSecret(keys.e, keys.rs)
    case SS => SharedSecret(keys.s, keys.rs)
    case _ => None
  }

  /** The state after some tokens, and the fields written so far. */
  datatype Written = Written(y: Symmetric, fields: seq<Term>)

  /** EncryptAndHash */
  function Encrypted(w: Written, plain: Term): Written {
    var box := Sealed(w.y.k, plain, w.y.h);
    Written(MixHash(w.y, box), w.fields + [box])
  }

  /** One token of WriteMessage, section 5.3; with a preshared key, section 9.2, an ephemeral key is also mixed in. */
  function WriteToken(w: Written, token: Token, keys: Keys): Option<Written> {
    match token
    case E => Some(Written(MixKeyOf(MixHash(w.y, Pub(keys.e)), Pub(keys.e)), w.fields + [Pub(keys.e)]))
    case S => Some(Encrypted(w, Pub(keys.s)))
    case Psk => Some(w.(y := MixKeyAndHash(w.y, keys.psk)))
    case _ =>
      match Dh(token, keys)
      case Some(secret) => Some(w.(y := MixKeyOf(w.y, secret)))
      case None => None
  }

  function WriteTokens(w: Written, tokens: seq<Token>, keys: Keys): Option<Written>
    decreases |tokens|
  {
    if tokens == [] then Some(w)
    else match WriteToken(w, tokens[0], keys)
      case Some(next) => WriteTokens(next, tokens[1..], keys)
      case None => None
  }

  /** A whole message, which ends with its payload. */
  function WriteMessage(y: Symmetric, tokens: seq<Token>, keys: Keys, payload: Term): Option<Written> {
    match WriteTokens(Written(y, []), tokens, keys)
    case Some(w) => Some(Encrypted(w, payload))
    case None => None
  }

  const INITIATION: seq<Token> := [E, ES, S, SS]
  const RESPONSE: seq<Token> := [E, EE, SE, Psk]

  /** Protocol name, prologue and the premessage, the static key of the responder. */
  function Start(responder: Term): Symmetric {
    MixHash(MixHash(Symmetric(INITIAL_CHAIN_KEY, INITIAL_CHAIN_KEY, Empty), Label(1)), responder)
  }

  lemma FourTokens(w: Written, a: Token, b: Token, c: Token, d: Token, keys: Keys)
    requires WriteToken(w, a, keys).Some?
    requires WriteToken(WriteToken(w, a, keys).value, b, keys).Some?
    requires WriteToken(WriteToken(WriteToken(w, a, keys).value, b, keys).value, c, keys).Some?
    ensures WriteTokens(w, [a, b, c, d], keys)
            == WriteToken(WriteToken(WriteToken(WriteToken(w, a, keys).value, b, keys).value, c, keys).value, d, keys)
  {
    hide WriteToken;
    var w1 := WriteToken(w, a, keys).value;
    var w2 := WriteToken(w1, b, keys).value;
    var w3 := WriteToken(w2, c, keys).value;
    assert [a, b, c, d][1..] == [b, c, d] && [b, c, d][1..] == [c, d] && [c, d][1..] == [d];
    assert WriteTokens(w3, [d], keys) == WriteToken(w3, d, keys);
    assert WriteTokens(w2, [c, d], keys) == WriteTokens(w3, [d], keys);
    assert WriteTokens(w1, [b, c, d], keys) == WriteTokens(w2, [c, d], keys);
  }

  /** The initiation is the first message of the pattern, and leaves its state. */
  lemma InitiationFollows(hs: Handshake, identity: nat, ephemeral: nat, now: nat, index: Uint32, kind: Uint32)
    requires CanInitiate(hs, ephemeral)
    requires SharedSecret(identity, hs.remoteStatic) == Some(hs.precomputedStaticStatic)
    ensures var keys := Keys(true, ephemeral, identity, hs.remoteEphemeral, hs.remoteStatic, hs.presharedKey);
            var w := WriteMessage(Start(hs.remoteStatic), INITIATION, keys, Tai(now));
            var msg, r := InitiationOf(hs, identity, ephemeral, now, index, kind),
                          Initiated(hs, identity, ephemeral, now, index);
            && w.Some? && w.value.fields == [msg.ephemeral, msg.static_, msg.timestamp]
            && w.value.y.h == r.hash && w.value.y.ck == r.chainKey
  {
    var keys := Keys(true, ephemeral, identity, hs.remoteEphemeral, hs.remoteStatic, hs.presharedKey);
    FourTokens(Written(Start(hs.remoteStatic), []), E, ES, S, SS, keys);
  }

  /** The response is the second message of the pattern, from the responder's side. */
  lemma ResponseFollows(hs: Handshake, identity: nat, ephemeral: nat, k: Term, kind: Uint32)
    requires Answerable(hs, ephemeral)
    ensures var keys := Keys(false, ephemeral, identity, hs.remoteEphemeral, hs.remoteStatic, hs.presharedKey);
            var w := WriteMessage(Symmetric(hs.chainKey, hs.hash, k), RESPONSE, keys, Empty);
            var msg, r := ResponseOf(hs, ephemeral, kind), Answered(hs, ephemeral);
            && w.Some? && w.value.fields == [msg.ephemeral, msg.empty]
            && w.value.y.h == r.hash && w.value.y.ck == r.chainKey
  {
    var keys := Keys(false, ephemeral, identity, hs.remoteEphemeral, hs.remoteStatic, hs.presharedKey);
    FourTokens(Written(Symmetric(hs.chainKey, hs.hash, k), []), E, EE, SE, Psk, keys);
  }
}
