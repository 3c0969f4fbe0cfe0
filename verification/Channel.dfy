/**
 * Any number of transport endpoints joined by a relay that may drop, duplicate,
 * reorder, alter, reflect and splice frames between sessions.
 */
module Channel {
  import opened Wrappers
  import opened Bytes
  import opened Transport

  /** One `Transport` object: its side, its key agreement and the manifest bytes it was keyed with. */
  datatype EndpointId = EndpointId(role: Role, secret: SharedSecret, manifest: Bytes)

  /** `sent`: plaintexts whose ciphertext `encrypt` returned. `got`: plaintexts `decrypt` returned. */
  datatype Endpoint = Endpoint(transport: TransportState, sent: seq<Bytes>, got: seq<Bytes>)

  /**
   * `wire` holds every ciphertext ever released, in order. `exposed` holds the
   * agreements whose secret the relay knows (it chose the client key itself).
   */
  datatype State = State(exposed: set<SharedSecret>, endpoints: map<EndpointId, Endpoint>, wire: seq<Ciphertext>)

  datatype Action =
    | OpenEndpoint(id: EndpointId, requestId: Bytes)
    | Send(id: EndpointId, plaintext: Bytes, accepted: bool)
    | Deliver(id: EndpointId, counter: nat, ciphertext: Ciphertext)

  function Initial(exposed: set<SharedSecret>): State {
    State(exposed, map[], [])
  }

  function Peer(id: EndpointId): EndpointId {
    id.(role := Opposite(id.role))
  }

  /** Ideal AEAD: without the secret, the relay can only present what was released to it. */
  predicate Available(s: State, c: Ciphertext) {
    c.Sealed? ==> c in s.wire || c.key.secret in s.exposed
  }

  function Opened(s: State, id: EndpointId, requestId: Bytes): State {
    s.(endpoints := s.endpoints[id := Endpoint(Derive(id.role, id.secret, id.manifest, requestId), [], [])])
  }

  function Step(s: State, a: Action): State {
    match a
    case OpenEndpoint(id, requestId) =>
      if id in s.endpoints then s else Opened(s, id, requestId)
    case Send(id, plaintext, accepted) =>
      if id !in s.endpoints then s
      else
        var e := s.endpoints[id];
        var (t, r) := Encrypt(e.transport, plaintext, accepted);
        (match r
         case Err(_) => s.(endpoints := s.endpoints[id := e.(transport := t)])
         case Ok(frame) =>
           s.(endpoints := s.endpoints[id := e.(transport := t, sent := e.sent + [plaintext])],
              wire := s.wire + [frame.1]))
    case Deliver(id, counter, c) =>
      if id !in s.endpoints || !Available(s, c) then s
      else
        var e := s.endpoints[id];
        var (t, r) := Decrypt(e.transport, counter, c);
        (match r
         case Err(_) => s.(endpoints := s.endpoints[id := e.(transport := t)])
         case Ok(plaintext) =>
           s.(endpoints := s.endpoints[id := e.(transport := t, got := e.got + [plaintext])]))
  }

  function Run(s: State, actions: seq<Action>): State {
    if actions == [] then s else Step(Run(s, actions[..|actions| - 1]), actions[|actions| - 1])
  }

  /** What the peer that shares the manifest, the agreement and the request id has released. */
  function PeerSent(s: State, id: EndpointId): seq<Bytes>
    requires id in s.endpoints
  {
    if Peer(id) in s.endpoints && s.endpoints[Peer(id)].transport.requestId == s.endpoints[id].transport.requestId
    then s.endpoints[Peer(id)].sent
    else []
  }

  ghost predicate EndpointOk(id: EndpointId, e: Endpoint) {
    && e.transport == Derive(id.role, id.secret, id.manifest, e.transport.requestId).(
         sendCounter := |e.sent|, receiveCounter := |e.got|)
    && InRange(e.transport)
  }

  /** The sealing of message number `i` of endpoint `id`. */
  ghost function Message(id: EndpointId, e: Endpoint, i: nat): Ciphertext
    requires i < |e.sent|
  {
    Sealed(SendKey(id.role, id.secret, id.manifest), Nonce(i), e.transport.requestId, e.sent[i])
  }

  ghost predicate IsMessage(s: State, c: Ciphertext, id: EndpointId, i: nat) {
    id in s.endpoints && i < |s.endpoints[id].sent| && c == Message(id, s.endpoints[id], i)
  }

  ghost predicate OnWire(s: State, id: EndpointId)
    requires id in s.endpoints
  {
    forall i :: 0 <= i < |s.endpoints[id].sent| ==> Message(id, s.endpoints[id], i) in s.wire
  }

  ghost predicate FromEndpoint(s: State, c: Ciphertext) {
    exists id, i: nat :: IsMessage(s, c, id, i)
  }

  /** No two released ciphertexts carry the same key and the same nonce. */
  ghost predicate NoncesUnique(wire: seq<Ciphertext>) {
    forall i, j :: 0 <= i < j < |wire| && wire[i].Sealed? && wire[j].Sealed? && wire[i].key == wire[j].key
                   ==> wire[i].nonce != wire[j].nonce
  }

  ghost predicate Inv(s: State) {
    && (forall id <- s.endpoints :: EndpointOk(id, s.endpoints[id]))
    && (forall i :: 0 <= i < |s.wire| ==> FromEndpoint(s, s.wire[i]))
    && (forall id <- s.endpoints :: OnWire(s, id))
    && NoncesUnique(s.wire)
    && (forall id <- s.endpoints :: id.secret !in s.exposed ==> s.endpoints[id].got <= PeerSent(s, id))
  }

  /** `t` is a later state: endpoints keep their identity and only gain history. */
  ghost predicate Extends(s: State, t: State) {
    && t.exposed == s.exposed
    && s.wire <= t.wire
    && forall id <- s.endpoints ::
         && id in t.endpoints
         && s.endpoints[id].sent <= t.endpoints[id].sent
         && t.endpoints[id].transport.requestId == s.endpoints[id].transport.requestId
  }

  lemma OldWireKept(s: State, t: State)
    requires Inv(s) && Extends(s, t)
    ensures forall i :: 0 <= i < |s.wire| ==> FromEndpoint(t, t.wire[i])
  {
    forall i | 0 <= i < |s.wire| ensures FromEndpoint(t, t.wire[i]) {
      assert FromEndpoint(s, s.wire[i]);
      var id, k: nat :| IsMessage(s, s.wire[i], id, k);
      assert IsMessage(t, t.wire[i], id, k);
    }
  }

  /** An endpoint that itself did not move keeps its part of the invariant. */
  lemma UnmovedKept(s: State, t: State, x: EndpointId)
    requires Inv(s) && Extends(s, t) && x in s.endpoints && t.endpoints[x] == s.endpoints[x]
    requires Peer(x) in t.endpoints ==> Peer(x) in s.endpoints || t.endpoints[Peer(x)].sent == []
    ensures EndpointOk(x, t.endpoints[x]) && OnWire(t, x)
    ensures x.secret !in t.exposed ==> t.endpoints[x].got <= PeerSent(t, x)
  {
    assert EndpointOk(x, s.endpoints[x]) && OnWire(s, x);
    assert PeerSent(s, x) <= PeerSent(t, x);
  }

  /** The next nonce of an endpoint is one nobody has used under its key. */
  lemma NextNonceFresh(s: State, id: EndpointId, k: nat)
    requires Inv(s) && id in s.endpoints && k < |s.wire|
    requires s.wire[k].Sealed? && s.wire[k].key == s.endpoints[id].transport.send
    ensures s.wire[k].nonce != Nonce(|s.endpoints[id].sent|)
  {
    assert FromEndpoint(s, s.wire[k]);
    var id', i: nat :| IsMessage(s, s.wire[k], id', i);
    assert EndpointOk(id, s.endpoints[id]);
    assert id' == id;
    NonceInjective(i, |s.endpoints[id].sent|);
  }

  function Released(s: State, id: EndpointId, plaintext: Bytes): State
    requires id in s.endpoints
  {
    var e := s.endpoints[id];
    var n := e.transport.sendCounter;
    s.(endpoints := s.endpoints[id := e.(transport := e.transport.(sendCounter := n + 1), sent := e.sent + [plaintext])],
       wire := s.wire + [Sealed(e.transport.send, Nonce(n), e.transport.requestId, plaintext)])
  }

  lemma ReleaseKeepsWire(s: State, id: EndpointId, plaintext: Bytes)
    requires Inv(s) && id in s.endpoints && CanAdvance(s.endpoints[id].transport.sendCounter)
    ensures var t := Released(s, id, plaintext);
            NoncesUnique(t.wire) && forall i :: 0 <= i < |t.wire| ==> FromEndpoint(t, t.wire[i])
  {
    var t := Released(s, id, plaintext);
    var last := |s.wire|;
    assert EndpointOk(id, s.endpoints[id]);
    OldWireKept(s, t);
    assert IsMessage(t, t.wire[last], id, |s.endpoints[id].sent|);
    forall k | 0 <= k < last && s.wire[k].Sealed? && s.wire[k].key == t.wire[last].key
      ensures s.wire[k].nonce != t.wire[last].nonce
    {
      NextNonceFresh(s, id, k);
    }
  }

  lemma ReleaseKeepsSender(s: State, id: EndpointId, plaintext: Bytes)
    requires Inv(s) && id in s.endpoints && CanAdvance(s.endpoints[id].transport.sendCounter)
    ensures var t := Released(s, id, plaintext);
            && EndpointOk(id, t.endpoints[id])
            && OnWire(t, id)
            && (id.secret !in t.exposed ==> t.endpoints[id].got <= PeerSent(t, id))
  {
    var t := Released(s, id, plaintext);
    var e := s.endpoints[id];
    assert EndpointOk(id, e) && OnWire(s, id);
    forall i | 0 <= i < |t.endpoints[id].sent| ensures Message(id, t.endpoints[id], i) in t.wire {
      if i < |e.sent| {
        assert Message(id, t.endpoints[id], i) == Message(id, e, i);
      } else {
        assert Message(id, t.endpoints[id], i) == t.wire[|s.wire|];
      }
    }
    assert PeerSent(s, id) == PeerSent(t, id);
  }

  lemma SendKeepsInv(s: State, id: EndpointId, plaintext: Bytes, accepted: bool)
    requires Inv(s) && id in s.endpoints
    ensures Inv(Step(s, Send(id, plaintext, accepted)))
  {
    var t := Step(s, Send(id, plaintext, accepted));
    if accepted && CanAdvance(s.endpoints[id].transport.sendCounter) {
      assert t == Released(s, id, plaintext);
      ReleaseKeepsWire(s, id, plaintext);
      ReleaseKeepsSender(s, id, plaintext);
      forall x <- t.endpoints | x != id
        ensures EndpointOk(x, t.endpoints[x]) && OnWire(t, x)
        ensures x.secret !in t.exposed ==> t.endpoints[x].got <= PeerSent(t, x)
      {
        UnmovedKept(s, t, x);
      }
    } else {
      assert s.endpoints[id := s.endpoints[id]] == s.endpoints;
      assert t == s;
    }
  }

  /** What can be presented to an unexposed endpoint as message number `i` of its session is the peer's message `i`. */
  lemma PresentedIsSent(s: State, id: EndpointId, i: nat, c: Ciphertext)
    requires Inv(s) && id in s.endpoints && id.secret !in s.exposed && Available(s, c)
    requires i < U64_MODULUS && c.Sealed? && c.key == s.endpoints[id].transport.receive
    requires c.nonce == Nonce(i) && c.aad == s.endpoints[id].transport.requestId
    ensures i < |PeerSent(s, id)| && c.plaintext == PeerSent(s, id)[i]
  {
    assert EndpointOk(id, s.endpoints[id]);
    var k :| 0 <= k < |s.wire| && s.wire[k] == c;
    assert FromEndpoint(s, s.wire[k]);
    var id', j: nat :| IsMessage(s, c, id', j);
    assert id' == Peer(id);
    assert EndpointOk(id', s.endpoints[id']);
    NonceInjective(i, j);
  }

  /** An accepted frame on an unexposed session is the peer's next message. */
  lemma AcceptedIsNextMessage(s: State, id: EndpointId, counter: nat, c: Ciphertext)
    requires Inv(s) && id in s.endpoints && id.secret !in s.exposed && Available(s, c)
    requires Decrypt(s.endpoints[id].transport, counter, c).1.Ok?
    ensures |s.endpoints[id].got| < |PeerSent(s, id)|
    ensures c.plaintext == PeerSent(s, id)[|s.endpoints[id].got|]
  {
    assert EndpointOk(id, s.endpoints[id]);
    PresentedIsSent(s, id, counter, c);
  }

  function Accepted(s: State, id: EndpointId, plaintext: Bytes): State
    requires id in s.endpoints
  {
    var e := s.endpoints[id];
    s.(endpoints := s.endpoints[id := e.(
         transport := e.transport.(receiveCounter := e.transport.receiveCounter + 1), got := e.got + [plaintext])])
  }

  lemma AcceptKeepsReceiver(s: State, id: EndpointId, plaintext: Bytes)
    requires Inv(s) && id in s.endpoints && CanAdvance(s.endpoints[id].transport.receiveCounter)
    requires id.secret !in s.exposed ==>
               |s.endpoints[id].got| < |PeerSent(s, id)| && plaintext == PeerSent(s, id)[|s.endpoints[id].got|]
    ensures var t := Accepted(s, id, plaintext);
            && EndpointOk(id, t.endpoints[id])
            && OnWire(t, id)
            && (id.secret !in t.exposed ==> t.endpoints[id].got <= PeerSent(t, id))
  {
    var t := Accepted(s, id, plaintext);
    assert EndpointOk(id, s.endpoints[id]) && OnWire(s, id);
    assert PeerSent(s, id) == PeerSent(t, id);
    assert forall i :: 0 <= i < |s.endpoints[id].sent| ==>
               Message(id, t.endpoints[id], i) == Message(id, s.endpoints[id], i);
  }

  lemma AcceptKeepsOthers(s: State, id: EndpointId, plaintext: Bytes)
    requires Inv(s) && id in s.endpoints
    ensures var t := Accepted(s, id, plaintext);
            forall x <- t.endpoints | x != id ::
              && EndpointOk(x, t.endpoints[x]) && OnWire(t, x)
              && (x.secret !in t.exposed ==> t.endpoints[x].got <= PeerSent(t, x))
  {
    var t := Accepted(s, id, plaintext);
    forall x <- t.endpoints | x != id
      ensures EndpointOk(x, t.endpoints[x]) && OnWire(t, x)
      ensures x.secret !in t.exposed ==> t.endpoints[x].got <= PeerSent(t, x)
    {
      UnmovedKept(s, t, x);
    }
  }

  lemma DeliverKeepsInv(s: State, id: EndpointId, counter: nat, c: Ciphertext)
    requires Inv(s) && id in s.endpoints && Available(s, c)
    ensures Inv(Step(s, Deliver(id, counter, c)))
  {
    if Decrypt(s.endpoints[id].transport, counter, c).1.Ok? {
      var t := Accepted(s, id, c.plaintext);
      assert t == Step(s, Deliver(id, counter, c));
      OldWireKept(s, t);
      if id.secret !in s.exposed {
        AcceptedIsNextMessage(s, id, counter, c);
      }
      AcceptKeepsReceiver(s, id, c.plaintext);
      AcceptKeepsOthers(s, id, c.plaintext);
    } else {
      RefusedFrameChangesNothing(s, id, counter, c);
    }
  }

  lemma OpenKeepsInv(s: State, id: EndpointId, requestId: Bytes)
    requires Inv(s) && id !in s.endpoints
    ensures Inv(Opened(s, id, requestId))
  {
    var t := Opened(s, id, requestId);
    OldWireKept(s, t);
    forall x <- t.endpoints | x != id
      ensures EndpointOk(x, t.endpoints[x]) && OnWire(t, x)
      ensures x.secret !in t.exposed ==> t.endpoints[x].got <= PeerSent(t, x)
    {
      UnmovedKept(s, t, x);
    }
  }

  lemma StepKeepsInv(s: State, a: Action)
    requires Inv(s)
    ensures Inv(Step(s, a))
  {
    match a
    case OpenEndpoint(id, requestId) => if id !in s.endpoints { OpenKeepsInv(s, id, requestId); }
    case Send(id, plaintext, accepted) => if id in s.endpoints { SendKeepsInv(s, id, plaintext, accepted); }
    case Deliver(id, counter, c) => if id in s.endpoints && Available(s, c) { DeliverKeepsInv(s, id, counter, c); }
  }

  lemma {:induction false} RunKeepsInv(exposed: set<SharedSecret>, actions: seq<Action>)
    ensures Inv(Run(Initial(exposed), actions))
    ensures Run(Initial(exposed), actions).exposed == exposed
  {
    if actions == [] {
    } else {
      RunKeepsInv(exposed, actions[..|actions| - 1]);
      StepKeepsInv(Run(Initial(exposed), actions[..|actions| - 1]), actions[|actions| - 1]);
    }
  }

  /**
   * Whatever the relay does over a whole run with any number of sessions, what an
   * endpoint whose secret is not exposed has accepted is a prefix of what the
   * opposite endpoint of the same manifest, agreement and request id released.
   */
  lemma AcceptedIsPrefixOfSent(exposed: set<SharedSecret>, actions: seq<Action>, id: EndpointId)
    requires id in Run(Initial(exposed), actions).endpoints && id.secret !in exposed
    ensures var s := Run(Initial(exposed), actions); s.endpoints[id].got <= PeerSent(s, id)
  {
    RunKeepsInv(exposed, actions);
  }

  /** Over a whole run no key and nonce pair is used for two released ciphertexts, exposed sessions included. */
  lemma NoNonceReuse(exposed: set<SharedSecret>, actions: seq<Action>)
    ensures NoncesUnique(Run(Initial(exposed), actions).wire)
  {
    RunKeepsInv(exposed, actions);
  }

  /** A refused frame changes nothing at all, so the session can go on with the frame it was waiting for. */
  lemma RefusedFrameChangesNothing(s: State, id: EndpointId, counter: nat, c: Ciphertext)
    requires id in s.endpoints && Decrypt(s.endpoints[id].transport, counter, c).1.Err?
    ensures Step(s, Deliver(id, counter, c)) == s
  {
    assert s.endpoints[id := s.endpoints[id]] == s.endpoints;
  }

  /** In any state of a run, the peer's next message is on the wire and would be accepted. */
  lemma NextMessageOpens(s: State, id: EndpointId)
    requires Inv(s) && id in s.endpoints && |s.endpoints[id].got| < |PeerSent(s, id)|
    ensures var n := |s.endpoints[id].got|;
            var c := Message(Peer(id), s.endpoints[Peer(id)], n);
            c in s.wire && c.plaintext == PeerSent(s, id)[n] && Decrypt(s.endpoints[id].transport, n, c).1 == Ok(c.plaintext)
  {
    assert EndpointOk(id, s.endpoints[id]);
    assert EndpointOk(Peer(id), s.endpoints[Peer(id)]);
    assert OnWire(s, Peer(id));
  }

  /** The prefix can always grow: the relay holds the peer's next message, and delivering it is accepted. */
  lemma NextMessageIsAccepted(exposed: set<SharedSecret>, actions: seq<Action>, id: EndpointId)
    requires id in Run(Initial(exposed), actions).endpoints && id.secret !in exposed
    requires var s := Run(Initial(exposed), actions); |s.endpoints[id].got| < |PeerSent(s, id)|
    ensures var s := Run(Initial(exposed), actions);
            var n := |s.endpoints[id].got|;
            var c := Message(Peer(id), s.endpoints[Peer(id)], n);
            c in s.wire && Step(s, Deliver(id, n, c)).endpoints[id].got == PeerSent(s, id)[..n + 1]
  {
    RunKeepsInv(exposed, actions);
    var s := Run(Initial(exposed), actions);
    NextMessageOpens(s, id);
    NextMessageExtends(s, id);
  }

  lemma NextMessageExtends(s: State, id: EndpointId)
    requires Inv(s) && id in s.endpoints && id.secret !in s.exposed && |s.endpoints[id].got| < |PeerSent(s, id)|
    ensures var n := |s.endpoints[id].got|;
            var c := Message(Peer(id), s.endpoints[Peer(id)], n);
            Step(s, Deliver(id, n, c)).endpoints[id].got == PeerSent(s, id)[..n + 1]
  {
    NextMessageOpens(s, id);
    var n, sent := |s.endpoints[id].got|, PeerSent(s, id);
    assert sent[..n + 1] == sent[..n] + [sent[n]];
  }

  /** At the last counter value an endpoint releases, or accepts, nothing more over any continuation of the run. */
  lemma {:induction false} ExhaustedForEver(s: State, actions: seq<Action>, id: EndpointId)
    requires Inv(s) && id in s.endpoints
    ensures id in Run(s, actions).endpoints
    ensures |s.endpoints[id].sent| == U64_MODULUS - 1 ==> Run(s, actions).endpoints[id].sent == s.endpoints[id].sent
    ensures |s.endpoints[id].got| == U64_MODULUS - 1 ==> Run(s, actions).endpoints[id].got == s.endpoints[id].got
    ensures Inv(Run(s, actions))
  {
    if actions == [] {
    } else {
      var t, a := Run(s, actions[..|actions| - 1]), actions[|actions| - 1];
      ExhaustedForEver(s, actions[..|actions| - 1], id);
      StepKeepsInv(t, a);
      StepStaysExhausted(t, a, id);
    }
  }

  lemma StepStaysExhausted(s: State, a: Action, id: EndpointId)
    requires Inv(s) && id in s.endpoints
    ensures id in Step(s, a).endpoints
    ensures |s.endpoints[id].sent| == U64_MODULUS - 1 ==> Step(s, a).endpoints[id].sent == s.endpoints[id].sent
    ensures |s.endpoints[id].got| == U64_MODULUS - 1 ==> Step(s, a).endpoints[id].got == s.endpoints[id].got
  {
    assert EndpointOk(id, s.endpoints[id]);
  }

  // ---- Sessions that get through ----

  lemma RunSnoc(s: State, actions: seq<Action>, a: Action)
    ensures Run(s, actions + [a]) == Step(Run(s, actions), a)
  {
    assert (actions + [a])[..|actions|] == actions;
  }

  /** An endpoint that can still count releases what it is given. */
  lemma SendIs(s: State, id: EndpointId, plaintext: Bytes)
    requires Inv(s) && id in s.endpoints && |s.endpoints[id].sent| < U64_MODULUS - 1
    ensures var n := |s.endpoints[id].sent|;
            var c := Sealed(SendKey(id.role, id.secret, id.manifest), Nonce(n), s.endpoints[id].transport.requestId, plaintext);
            var t := Step(s, Send(id, plaintext, true));
            && Inv(t) && t.exposed == s.exposed && t.wire == s.wire + [c]
            && t.endpoints == s.endpoints[id := s.endpoints[id].(
                 sent := s.endpoints[id].sent + [plaintext],
                 transport := s.endpoints[id].transport.(sendCounter := n + 1))]
  {
    assert EndpointOk(id, s.endpoints[id]);
    StepKeepsInv(s, Send(id, plaintext, true));
  }

  /** And its peer accepts the message if it is the next one. */
  lemma DeliverIs(s: State, id: EndpointId, c: Ciphertext)
    requires Inv(s) && id in s.endpoints && c in s.wire && |s.endpoints[id].got| < U64_MODULUS - 1
    requires var n := |s.endpoints[id].got|;
             c == Sealed(SendKey(Opposite(id.role), id.secret, id.manifest), Nonce(n),
                         s.endpoints[id].transport.requestId, if c.Sealed? then c.plaintext else [])
    ensures var n := |s.endpoints[id].got|;
            var t := Step(s, Deliver(id, n, c));
            && Inv(t) && t.exposed == s.exposed && t.wire == s.wire
            && t.endpoints == s.endpoints[id := s.endpoints[id].(
                 got := s.endpoints[id].got + [c.plaintext],
                 transport := s.endpoints[id].transport.(receiveCounter := n + 1))]
  {
    assert EndpointOk(id, s.endpoints[id]);
    StepKeepsInv(s, Deliver(id, |s.endpoints[id].got|, c));
  }

  /** Sending and delivering some messages one after the other. */
  function Relayed(id: EndpointId, requestId: Bytes, plaintexts: seq<Bytes>): seq<Action> {
    if plaintexts == [] then []
    else
      var n, last := |plaintexts| - 1, plaintexts[|plaintexts| - 1];
      Relayed(id, requestId, plaintexts[..n])
      + [Send(id, last, true)]
      + [Deliver(Peer(id), n, Sealed(SendKey(id.role, id.secret, id.manifest), Nonce(n), requestId, last))]
  }

  /** Both endpoints of one session opened. */
  function Paired(s: State, id: EndpointId, requestId: Bytes): State {
    Step(Step(s, OpenEndpoint(id, requestId)), OpenEndpoint(Peer(id), requestId))
  }

  /** The session of these two endpoints has carried exactly these messages. */
  ghost predicate Carried(s: State, id: EndpointId, requestId: Bytes, plaintexts: seq<Bytes>) {
    && Inv(s) && id in s.endpoints && Peer(id) in s.endpoints
    && s.endpoints[id].sent == plaintexts && s.endpoints[Peer(id)].got == plaintexts
    && s.endpoints[id].transport.requestId == requestId == s.endpoints[Peer(id)].transport.requestId
  }

  lemma PairedIs(s: State, id: EndpointId, requestId: Bytes)
    requires Inv(s) && id !in s.endpoints && Peer(id) !in s.endpoints
    ensures Carried(Paired(s, id, requestId), id, requestId, [])
  {
    OpenKeepsInv(s, id, requestId);
    OpenKeepsInv(Opened(s, id, requestId), Peer(id), requestId);
  }

  lemma CarriesOneMore(s: State, id: EndpointId, requestId: Bytes, plaintexts: seq<Bytes>, last: Bytes)
    requires Carried(s, id, requestId, plaintexts) && |plaintexts| < U64_MODULUS - 1
    ensures var n := |plaintexts|;
            var c := Sealed(SendKey(id.role, id.secret, id.manifest), Nonce(n), requestId, last);
            Carried(Step(Step(s, Send(id, last, true)), Deliver(Peer(id), n, c)), id, requestId, plaintexts + [last])
  {
    var n := |plaintexts|;
    var c := Sealed(SendKey(id.role, id.secret, id.manifest), Nonce(n), requestId, last);
    SendIs(s, id, last);
    var u := Step(s, Send(id, last, true));
    assert u.wire[|s.wire|] == c;
    DeliverIs(u, Peer(id), c);
  }

  lemma RelayedLast(p: State, id: EndpointId, requestId: Bytes, plaintexts: seq<Bytes>)
    requires plaintexts != []
    ensures var n, last := |plaintexts| - 1, plaintexts[|plaintexts| - 1];
            var c := Sealed(SendKey(id.role, id.secret, id.manifest), Nonce(n), requestId, last);
            Run(p, Relayed(id, requestId, plaintexts))
            == Step(Step(Run(p, Relayed(id, requestId, plaintexts[..n])), Send(id, last, true)), Deliver(Peer(id), n, c))
  {
    var n, last := |plaintexts| - 1, plaintexts[|plaintexts| - 1];
    var front := Relayed(id, requestId, plaintexts[..n]);
    var c := Sealed(SendKey(id.role, id.secret, id.manifest), Nonce(n), requestId, last);
    RunSnoc(p, front, Send(id, last, true));
    RunSnoc(p, front + [Send(id, last, true)], Deliver(Peer(id), n, c));
  }

  /** The last message, delivered after all before it. */
  lemma CarriesLast(p: State, id: EndpointId, requestId: Bytes, plaintexts: seq<Bytes>, t: State)
    requires plaintexts != [] && |plaintexts| < U64_MODULUS
    requires t == Run(p, Relayed(id, requestId, plaintexts[..|plaintexts| - 1]))
    requires Carried(t, id, requestId, plaintexts[..|plaintexts| - 1])
    ensures Carried(Run(p, Relayed(id, requestId, plaintexts)), id, requestId, plaintexts)
  {
    var front, last := plaintexts[..|plaintexts| - 1], plaintexts[|plaintexts| - 1];
    var c := Sealed(SendKey(id.role, id.secret, id.manifest), Nonce(|front|), requestId, last);
    assert plaintexts == front + [last];
    assert Run(p, Relayed(id, requestId, plaintexts)) == Step(Step(t, Send(id, last, true)), Deliver(Peer(id), |front|, c)) by {
      RelayedLast(p, id, requestId, plaintexts);
    }
    CarriesOneMore(t, id, requestId, front, last);
  }

  lemma {:induction false} CarriesAll(p: State, id: EndpointId, requestId: Bytes, plaintexts: seq<Bytes>)
    requires Carried(p, id, requestId, []) && |plaintexts| < U64_MODULUS
    ensures Carried(Run(p, Relayed(id, requestId, plaintexts)), id, requestId, plaintexts)
  {
    if plaintexts == [] {
    } else {
      var front := plaintexts[..|plaintexts| - 1];
      CarriesAll(p, id, requestId, front);
      CarriesLast(p, id, requestId, plaintexts, Run(p, Relayed(id, requestId, front)));
    }
  }

  /**
   * Completeness: from any state, two fresh endpoints of one session carry any
   * messages that the counter can number from one to the other, in full and in order.
   */
  lemma SessionCarries(s: State, id: EndpointId, requestId: Bytes, plaintexts: seq<Bytes>)
    requires Inv(s) && id !in s.endpoints && Peer(id) !in s.endpoints && |plaintexts| < U64_MODULUS
    ensures Carried(Run(Paired(s, id, requestId), Relayed(id, requestId, plaintexts)), id, requestId, plaintexts)
  {
    PairedIs(s, id, requestId);
    CarriesAll(Paired(s, id, requestId), id, requestId, plaintexts);
  }

  /** Opening an endpoint that does not exist makes it, with nothing sent or accepted, and touches no other. */
  lemma OpeningIs(s: State, id: EndpointId, requestId: Bytes)
    requires id !in s.endpoints
    ensures Step(s, OpenEndpoint(id, requestId))
            == s.(endpoints := s.endpoints[id := Endpoint(TransportState(
                    SendKey(id.role, id.secret, id.manifest), SendKey(Opposite(id.role), id.secret, id.manifest),
                    0, 0, requestId), [], [])])
  {
  }
}
