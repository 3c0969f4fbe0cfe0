/**
 * The per-session AEAD transport of `src/privileged/crypto.rs`.
 *
 * Cryptography is symbolic. A derived key is the term that records what it was
 * derived from, so two derivations agree only when every input agrees
 * (HKDF-SHA-256 and the SHA-256 salt are idealised as collision free). A
 * ciphertext is either the output of sealing under a named key, or bytes that
 * open under no key.
 */
module Transport {
  import opened Wrappers
  import opened Bytes

  datatype Role = Client | Broker

  /** The X25519 agreement between one broker key and one client key. */
  datatype SharedSecret = Dh(brokerPublic: Bytes, clientPublic: Bytes)

  datatype Direction = ClientToHost | HostToClient

  datatype Key = Hkdf(secret: SharedSecret, salt: Bytes, info: Direction)

  datatype Ciphertext =
    | Sealed(key: Key, nonce: Bytes, aad: Bytes, plaintext: Bytes)
    | Noise(bits: Bytes)

  datatype TransportError = EncryptionFailed | CounterExhausted | ReplayOrReordering | AuthenticationFailed

  /** The fields of one `Transport` object at one moment. */
  datatype TransportState = TransportState(
    send: Key, receive: Key, sendCounter: nat, receiveCounter: nat, requestId: Bytes)

  /** A u64 counter can be advanced by `checked_add(1)`. */
  predicate CanAdvance(counter: nat) {
    counter + 1 < U64_MODULUS
  }

  predicate InRange(t: TransportState) {
    t.sendCounter < U64_MODULUS && t.receiveCounter < U64_MODULUS
  }

  function Opposite(role: Role): Role {
    if role.Client? then Broker else Client
  }

  function SendKey(role: Role, secret: SharedSecret, manifest: Bytes): Key {
    Hkdf(secret, manifest, if role.Client? then ClientToHost else HostToClient)
  }

  function Derive(role: Role, secret: SharedSecret, manifest: Bytes, requestId: Bytes): TransportState {
    TransportState(SendKey(role, secret, manifest), SendKey(Opposite(role), secret, manifest), 0, 0, requestId)
  }

  /** Four zero bytes, then the counter as eight big-endian bytes. */
  function Nonce(counter: nat): (nonce: Bytes)
    ensures |nonce| == 12
  {
    [0, 0, 0, 0] + ToBigEndian(counter, 8)
  }

  /** Four zero bytes come first, and the rest is the counter, most significant byte first. */
  lemma NonceLayout(counter: nat)
    requires counter < U64_MODULUS
    ensures Nonce(counter)[..4] == [0, 0, 0, 0] && FromBigEndian(Nonce(counter)[4..]) == counter
  {
    WordCapacities();
    DecodeEncoded(counter, 8);
    assert Nonce(counter)[4..] == ToBigEndian(counter, 8);
  }

  /** The nonce layout loses nothing: below 2^64 the counter can be read back. */
  lemma NonceInjective(i: nat, j: nat)
    requires i < U64_MODULUS && j < U64_MODULUS
    ensures Nonce(i) == Nonce(j) <==> i == j
  {
    WordCapacities();
    DecodeEncoded(i, 8);
    DecodeEncoded(j, 8);
    assert Nonce(i)[4..] == ToBigEndian(i, 8) && Nonce(j)[4..] == ToBigEndian(j, 8);
  }

  /**
   * One call of `encrypt`. `accepted` is the AEAD's own verdict on the plaintext
   * (it refuses only oversized messages).
   */
  function Encrypt(t: TransportState, plaintext: Bytes, accepted: bool)
    : (TransportState, Result<(nat, Ciphertext), TransportError>)
  {
    if !accepted then (t, Err(EncryptionFailed))
    else if !CanAdvance(t.sendCounter) then (t, Err(CounterExhausted))
    else (
      t.(sendCounter := t.sendCounter + 1),
      Ok((t.sendCounter, Sealed(t.send, Nonce(t.sendCounter), t.requestId, plaintext))))
  }

  /** A ciphertext opens only under the key, nonce and associated data it was sealed with. */
  predicate Opens(t: TransportState, counter: nat, c: Ciphertext) {
    c.Sealed? && c.key == t.receive && c.nonce == Nonce(counter) && c.aad == t.requestId
  }

  function Decrypt(t: TransportState, counter: nat, c: Ciphertext)
    : (TransportState, Result<Bytes, TransportError>)
  {
    if counter != t.receiveCounter then (t, Err(ReplayOrReordering))
    else if !Opens(t, counter, c) then (t, Err(AuthenticationFailed))
    else if !CanAdvance(t.receiveCounter) then (t, Err(CounterExhausted))
    else (t.(receiveCounter := t.receiveCounter + 1), Ok(c.plaintext))
  }

  /** The mutable `Transport` object; every call is the function above on its state. */
  class Transport {
    const send: Key
    const receive: Key
    const requestId: Bytes
    var sendCounter: nat
    var receiveCounter: nat

    ghost function State(): TransportState
      reads this
    {
      TransportState(send, receive, sendCounter, receiveCounter, requestId)
    }

    ghost predicate Valid()
      reads this
    {
      InRange(State())
    }

    constructor (role: Role, secret: SharedSecret, manifest: Bytes, requestId: Bytes)
      ensures Valid() && State() == Derive(role, secret, manifest, requestId)
      ensures sendCounter == 0 && receiveCounter == 0 && this.requestId == requestId
      ensures send == Hkdf(secret, manifest, if role.Client? then ClientToHost else HostToClient)
      ensures receive == Hkdf(secret, manifest, if role.Client? then HostToClient else ClientToHost)
    {
      var clientToHost := Hkdf(secret, manifest, ClientToHost);
      var hostToClient := Hkdf(secret, manifest, HostToClient);
      if role.Client? {
        this.send, this.receive := clientToHost, hostToClient;
      } else {
        this.send, this.receive := hostToClient, clientToHost;
      }
      this.requestId := requestId;
      sendCounter, receiveCounter := 0, 0;
    }

    method Seal(plaintext: Bytes, accepted: bool) returns (r: Result<(nat, Ciphertext), TransportError>)
      requires Valid()
      modifies this`sendCounter
      ensures Valid() && (State(), r) == Encrypt(old(State()), plaintext, accepted)
      ensures r.Ok? <==> accepted && old(sendCounter) != U64_MODULUS - 1
      ensures r == Err(CounterExhausted) <==> accepted && old(sendCounter) == U64_MODULUS - 1
      ensures r.Ok? ==> r.value.1 == Sealed(send, Nonce(old(sendCounter)), requestId, plaintext)
      ensures r.Ok? ==> r.value.0 == old(sendCounter) && sendCounter == old(sendCounter) + 1
      ensures r.Err? ==> sendCounter == old(sendCounter)
    {
      var counter := sendCounter;
      var nonce := Nonce(counter);
      if !accepted {
        return Err(EncryptionFailed);
      }
      var data := Sealed(send, nonce, requestId, plaintext);
      if !CanAdvance(sendCounter) {
        return Err(CounterExhausted);
      }
      sendCounter := sendCounter + 1;
      return Ok((counter, data));
    }

    method Open(counter: nat, ciphertext: Ciphertext) returns (r: Result<Bytes, TransportError>)
      requires Valid() && counter < U64_MODULUS
      modifies this`receiveCounter
      ensures Valid() && (State(), r) == Decrypt(old(State()), counter, ciphertext)
      ensures r.Ok? <==> && counter == old(receiveCounter) && counter != U64_MODULUS - 1
                         && ciphertext.Sealed?
                         && ciphertext == Sealed(receive, Nonce(counter), requestId, ciphertext.plaintext)
      ensures r == Err(ReplayOrReordering) <==> counter != old(receiveCounter)
      ensures r.Err? ==> receiveCounter == old(receiveCounter)
      ensures r.Ok? ==> ciphertext == Sealed(receive, Nonce(old(receiveCounter)), requestId, r.value)
      ensures r.Ok? ==> receiveCounter == old(receiveCounter) + 1
    {
      if counter != receiveCounter {
        return Err(ReplayOrReordering);
      }
      if !Opens(TransportState(send, receive, sendCounter, receiveCounter, requestId), counter, ciphertext) {
        return Err(AuthenticationFailed);
      }
      if !CanAdvance(receiveCounter) {
        return Err(CounterExhausted);
      }
      receiveCounter := receiveCounter + 1;
      return Ok(ciphertext.plaintext);
    }
  }

  /** What one side seals the other opens, while both counters agree and are not exhausted. */
  lemma OpensWhatPeerSealed(
      role: Role, secret: SharedSecret, manifest: Bytes, requestId: Bytes,
      sender: TransportState, receiver: TransportState, plaintext: Bytes)
    requires sender == Derive(role, secret, manifest, requestId).(
               sendCounter := sender.sendCounter, receiveCounter := sender.receiveCounter)
    requires receiver == Derive(Opposite(role), secret, manifest, requestId).(
               sendCounter := receiver.sendCounter, receiveCounter := receiver.receiveCounter)
    requires sender.sendCounter == receiver.receiveCounter && CanAdvance(sender.sendCounter)
    ensures var (sender', frame) := Encrypt(sender, plaintext, true);
            frame.Ok? &&
            var (receiver', plain) := Decrypt(receiver, frame.value.0, frame.value.1);
            plain == Ok(plaintext) && sender'.sendCounter == receiver'.receiveCounter
  {
  }
}
