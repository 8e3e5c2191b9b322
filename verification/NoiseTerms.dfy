/** Symbolic cryptography: byte strings as terms, every primitive a free constructor. */
module NoiseTerms {
  import opened Wrappers

  /**
    Pub(s) is the public key of private key s; Shared is the Diffie-Hellman secret of two private keys,
    Foreign the one with a public key whose private key nobody here holds. Kdf(n, ...) is output n of the
    HKDF chain. Sealed is an AEAD box under the zero nonce.
   */
  datatype Term =
    | Zeroes
    | Empty
    | Label(name: nat)
    | Preshared(id: nat)
    | Pub(secret: nat)
    | LowOrder
    | Raw(id: nat)
    | Shared(lo: nat, hi: nat)
    | Foreign(secret: nat, point: Term)
    | Hash(state: Term, data: Term)
    | Kdf(out: nat, key: Term, input: Term)
    | Tai(time: nat)
    | Sealed(key: Term, plain: Term, ad: Term)

  /** sharedSecret: an all-zero result is an error. */
  function SharedSecret(secret: nat, point: Term): Option<Term> {
    match point
    case Pub(other) => Some(if secret <= other then Shared(secret, other) else Shared(other, secret))
    case LowOrder => None
    case _ => Some(Foreign(secret, point))
  }

  /** aead.Open succeeds on exactly the boxes sealed with the same key and associated data. */
  function Open(key: Term, box: Term, ad: Term): Option<Term> {
    match box
    case Sealed(k, plain, a) => if k == key && a == ad then Some(plain) else None
    case _ => None
  }

  const INITIAL_CHAIN_KEY := Label(0)
  const INITIAL_HASH := Hash(INITIAL_CHAIN_KEY, Label(1))

  function MixKey(chainKey: Term, data: Term): Term { Kdf(1, chainKey, data) }

  lemma SharedSecretCommutes(a: nat, b: nat)
    ensures SharedSecret(a, Pub(b)) == SharedSecret(b, Pub(a))
  {}
}
