/**
 * The gate and its encrypted sessions together: a start of a root operation is
 * what keys the broker's transport, so single use of approvals is what keeps its
 * keys and nonces single use.
 */
module TrustedSystem {
  import opened Bytes
  import opened Transport
  import opened Approval
  import G = GateProtocol
  import C = Channel
  import H = GateHandler

  datatype State = State(gate: G.State, net: C.State)

  datatype Action =
    | GateAction(action: G.Action)
    | ClientOpens(secret: SharedSecret, manifest: Bytes, requestId: Bytes)
    | ClientSends(id: C.EndpointId, plaintext: Bytes, accepted: bool)
    | ClientReceives(id: C.EndpointId, counter: nat, ciphertext: Ciphertext)
    | BrokerSends(conn: nat, plaintext: Bytes, accepted: bool)
    | BrokerReceives(conn: nat, counter: nat, ciphertext: Ciphertext)

  /** The transport `handle` derives for an approved manifest. */
  function BrokerId(gate: Gate, m: Manifest): C.EndpointId
    requires gate.canonical(m).Some?
  {
    C.EndpointId(Broker, Dh(gate.transportPublic, m.clientEphemeral), gate.canonical(m).value)
  }

  predicate Launches(gate: Gate, s: G.State, a: G.Action) {
    a.Launch? && G.At(s, a.conn).Approved? && gate.canonical(s.conns[a.conn].manifest).Some?
  }

  predicate IsRunning(gate: Gate, s: State, c: nat) {
    G.At(s.gate, c).Running? && gate.canonical(s.gate.conns[c].manifest).Some?
  }

  /** `encrypt` or `decrypt` failing ends the connection, as `?` does in `handle`. */
  function EndUnless(s: State, c: nat, ok: bool): G.State {
    if ok then s.gate else G.Move(s.gate, c, G.Dead)
  }

  /** A step of the broker's transport, which ends the connection unless it went well. */
  function BrokerMove(s: State, c: nat, a: C.Action, ok: bool): State {
    State(EndUnless(s, c, ok), C.Step(s.net, a))
  }

  function Step(gate: Gate, s: State, a: Action): State {
    match a
    case GateAction(ga) =>
      State(G.Step(gate, s.gate, ga),
            if Launches(gate, s.gate, ga)
            then C.Opened(s.net, BrokerId(gate, s.gate.conns[ga.conn].manifest), s.gate.conns[ga.conn].manifest.requestId)
            else s.net)
    case ClientOpens(secret, manifest, requestId) =>
      s.(net := C.Step(s.net, C.OpenEndpoint(C.EndpointId(Client, secret, manifest), requestId)))
    case ClientSends(id, plaintext, accepted) =>
      if id.role.Client? then s.(net := C.Step(s.net, C.Send(id, plaintext, accepted))) else s
    case ClientReceives(id, counter, ciphertext) =>
      if id.role.Client? then s.(net := C.Step(s.net, C.Deliver(id, counter, ciphertext))) else s
    case BrokerSends(c, plaintext, accepted) =>
      if !IsRunning(gate, s, c) then s
      else
        var send := C.Send(BrokerId(gate, s.gate.conns[c].manifest), plaintext, accepted);
        BrokerMove(s, c, send, |C.Step(s.net, send).wire| > |s.net.wire|)
    case BrokerReceives(c, counter, ciphertext) =>
      if !IsRunning(gate, s, c) || !s.gate.conns[c].manifest.operation.RootPty? || !C.Available(s.net, ciphertext) then s
      else
        var id := BrokerId(gate, s.gate.conns[c].manifest);
        BrokerMove(s, c, C.Deliver(id, counter, ciphertext),
                   id in s.net.endpoints && Decrypt(s.net.endpoints[id].transport, counter, ciphertext).1.Ok?)
  }

  function Initial(exposed: set<SharedSecret>): State {
    State(G.INITIAL, C.Initial(exposed))
  }

  function Run(gate: Gate, s: State, actions: seq<Action>): State {
    if actions == [] then s
    else Step(gate, Run(gate, s, actions[..|actions| - 1]), actions[|actions| - 1])
  }

  ghost predicate KeyedByLaunch(gate: Gate, s: State, id: C.EndpointId, c: nat, m: Manifest) {
    && G.Launched(c, m) in s.gate.trace
    && gate.canonical(m).Some? && id == BrokerId(gate, m)
    && id in s.net.endpoints && s.net.endpoints[id].transport.requestId == m.requestId
  }

  /** The broker's transports are exactly those of the operations started so far. */
  ghost predicate BrokersOk(gate: Gate, s: State) {
    && (forall id <- s.net.endpoints :: id.role.Broker? ==> exists c, m :: KeyedByLaunch(gate, s, id, c, m))
    && (forall c, m :: G.Launched(c, m) in s.gate.trace ==>
          gate.canonical(m).Some? && KeyedByLaunch(gate, s, BrokerId(gate, m), c, m))
  }

  ghost predicate Inv(gate: Gate, s: State) {
    G.Inv(gate, s.gate) && C.Inv(s.net) && BrokersOk(gate, s)
  }

  /** Starting an approved operation never re-keys a transport that already exists. */
  lemma LaunchKeysFreshTransport(gate: Gate, s: State, c: nat)
    requires InjectiveEncoding(gate.canonical) && Inv(gate, s)
    requires Launches(gate, s.gate, G.Launch(c))
    ensures BrokerId(gate, s.gate.conns[c].manifest) !in s.net.endpoints
  {
    var m := s.gate.conns[c].manifest;
    var id := BrokerId(gate, m);
    assert G.ConnOk(gate, s.gate, c);
    forall d, n | G.Launched(d, n) in s.gate.trace ensures gate.canonical(n) != gate.canonical(m) {
      assert n.requestId != m.requestId;
    }
  }

  lemma BrokersKept(gate: Gate, s: State, t: State)
    requires BrokersOk(gate, s)
    requires forall c, m :: G.Launched(c, m) in s.gate.trace <==> G.Launched(c, m) in t.gate.trace
    requires forall id <- s.net.endpoints :: id in t.net.endpoints
               && t.net.endpoints[id].transport.requestId == s.net.endpoints[id].transport.requestId
    requires forall id <- t.net.endpoints :: id.role.Broker? ==> id in s.net.endpoints
    ensures BrokersOk(gate, t)
  {
    forall id <- t.net.endpoints | id.role.Broker? ensures exists c, m :: KeyedByLaunch(gate, t, id, c, m) {
      var c, m :| KeyedByLaunch(gate, s, id, c, m);
      assert KeyedByLaunch(gate, t, id, c, m);
    }
    forall c, m | G.Launched(c, m) in t.gate.trace
      ensures gate.canonical(m).Some? && KeyedByLaunch(gate, t, BrokerId(gate, m), c, m)
    {
      assert KeyedByLaunch(gate, s, BrokerId(gate, m), c, m);
    }
  }

  lemma NetStep(s: C.State, a: C.Action)
    ensures forall id <- s.endpoints :: id in C.Step(s, a).endpoints
              && C.Step(s, a).endpoints[id].transport.requestId == s.endpoints[id].transport.requestId
    ensures forall id <- C.Step(s, a).endpoints :: id in s.endpoints || (a.OpenEndpoint? && id == a.id)
  {
  }

  lemma GateTrace(gate: Gate, s: G.State, a: G.Action)
    requires !Launches(gate, s, a)
    ensures forall c, m :: G.Launched(c, m) in s.trace <==> G.Launched(c, m) in G.Step(gate, s, a).trace
  {
    var t := G.Step(gate, s, a);
    assert t.trace == s.trace || (|t.trace| == |s.trace| + 1 && t.trace == s.trace + [t.trace[|s.trace|]]
                                  && !t.trace[|s.trace|].Launched?);
  }

  lemma BrokerAdded(gate: Gate, s: State, t: State, c: nat, m: Manifest)
    requires BrokersOk(gate, s) && gate.canonical(m).Some? && BrokerId(gate, m) !in s.net.endpoints
    requires t.gate.trace == s.gate.trace + [G.Launched(c, m)]
    requires t.net == C.Opened(s.net, BrokerId(gate, m), m.requestId)
    ensures BrokersOk(gate, t)
  {
    assert t.gate.trace[|s.gate.trace|] == G.Launched(c, m);
    assert KeyedByLaunch(gate, t, BrokerId(gate, m), c, m);
    forall id <- t.net.endpoints | id.role.Broker? ensures exists d, n :: KeyedByLaunch(gate, t, id, d, n) {
      if id != BrokerId(gate, m) {
        var d, n :| KeyedByLaunch(gate, s, id, d, n);
        assert KeyedByLaunch(gate, t, id, d, n);
      }
    }
    forall d, n | G.Launched(d, n) in t.gate.trace
      ensures gate.canonical(n).Some? && KeyedByLaunch(gate, t, BrokerId(gate, n), d, n)
    {
      if G.Launched(d, n) != G.Launched(c, m) {
        assert G.Launched(d, n) in s.gate.trace;
        assert KeyedByLaunch(gate, s, BrokerId(gate, n), d, n);
      }
    }
  }

  lemma LaunchKeepsInv(gate: Gate, s: State, c: nat)
    requires InjectiveEncoding(gate.canonical) && Inv(gate, s) && Launches(gate, s.gate, G.Launch(c))
    ensures Inv(gate, Step(gate, s, GateAction(G.Launch(c))))
  {
    var t := Step(gate, s, GateAction(G.Launch(c)));
    var m := s.gate.conns[c].manifest;
    G.StepKeepsInv(gate, s.gate, G.Launch(c));
    LaunchKeysFreshTransport(gate, s, c);
    C.OpenKeepsInv(s.net, BrokerId(gate, m), m.requestId);
    BrokerAdded(gate, s, t, c, m);
  }

  lemma NetKeepsInv(gate: Gate, s: State, a: C.Action)
    requires Inv(gate, s) && (a.OpenEndpoint? ==> a.id.role.Client?)
    ensures Inv(gate, s.(net := C.Step(s.net, a)))
  {
    NetStep(s.net, a);
    C.StepKeepsInv(s.net, a);
    BrokersKept(gate, s, s.(net := C.Step(s.net, a)));
  }

  lemma EndKeepsInv(gate: Gate, s: State, c: nat)
    requires Inv(gate, s)
    ensures Inv(gate, s.(gate := G.Move(s.gate, c, G.Dead)))
  {
    G.QuietStep(gate, s.gate, G.Move(s.gate, c, G.Dead));
    BrokersKept(gate, s, s.(gate := G.Move(s.gate, c, G.Dead)));
  }

  /** A broker's transport step keeps the invariant whether or not it also ends the connection. */
  lemma BrokerKeepsInv(gate: Gate, s: State, c: nat, a: C.Action, ok: bool)
    requires Inv(gate, s) && !a.OpenEndpoint?
    ensures Inv(gate, BrokerMove(s, c, a, ok))
  {
    NetKeepsInv(gate, s, a);
    EndKeepsInv(gate, s.(net := C.Step(s.net, a)), c);
  }

  lemma GateKeepsInv(gate: Gate, s: State, a: G.Action)
    requires InjectiveEncoding(gate.canonical) && Inv(gate, s)
    ensures Inv(gate, Step(gate, s, GateAction(a)))
  {
    if Launches(gate, s.gate, a) {
      LaunchKeepsInv(gate, s, a.conn);
    } else {
      G.StepKeepsInv(gate, s.gate, a);
      GateTrace(gate, s.gate, a);
      BrokersKept(gate, s, Step(gate, s, GateAction(a)));
    }
  }

  lemma ClientKeepsInv(gate: Gate, s: State, a: Action)
    requires Inv(gate, s) && (a.ClientOpens? || a.ClientSends? || a.ClientReceives?)
    ensures Inv(gate, Step(gate, s, a))
  {
    match a
    case ClientOpens(secret, manifest, requestId) =>
      NetKeepsInv(gate, s, C.OpenEndpoint(C.EndpointId(Client, secret, manifest), requestId));
    case ClientSends(id, plaintext, accepted) => NetKeepsInv(gate, s, C.Send(id, plaintext, accepted));
    case ClientReceives(id, counter, ciphertext) => NetKeepsInv(gate, s, C.Deliver(id, counter, ciphertext));
  }

  /** The broker's two steps, as moves of its transport. */
  lemma BrokerStepIsMove(gate: Gate, s: State, c: nat, plaintext: Bytes, accepted: bool, counter: nat, ciphertext: Ciphertext)
    requires IsRunning(gate, s, c)
    ensures var send := C.Send(BrokerId(gate, s.gate.conns[c].manifest), plaintext, accepted);
            Step(gate, s, BrokerSends(c, plaintext, accepted))
            == BrokerMove(s, c, send, |C.Step(s.net, send).wire| > |s.net.wire|)
    ensures var id := BrokerId(gate, s.gate.conns[c].manifest);
            var t := Step(gate, s, BrokerReceives(c, counter, ciphertext));
            t == s || t == BrokerMove(s, c, C.Deliver(id, counter, ciphertext),
                                      id in s.net.endpoints
                                      && Decrypt(s.net.endpoints[id].transport, counter, ciphertext).1.Ok?)
  {
  }

  lemma BrokerSendKeepsInv(gate: Gate, s: State, c: nat, plaintext: Bytes, accepted: bool)
    requires Inv(gate, s) && IsRunning(gate, s, c)
    ensures Inv(gate, Step(gate, s, BrokerSends(c, plaintext, accepted)))
  {
    var send := C.Send(BrokerId(gate, s.gate.conns[c].manifest), plaintext, accepted);
    BrokerStepIsMove(gate, s, c, plaintext, accepted, 0, Noise([]));
    BrokerKeepsInv(gate, s, c, send, |C.Step(s.net, send).wire| > |s.net.wire|);
  }

  lemma BrokerReceiveKeepsInv(gate: Gate, s: State, c: nat, counter: nat, ciphertext: Ciphertext)
    requires Inv(gate, s) && IsRunning(gate, s, c)
    ensures Inv(gate, Step(gate, s, BrokerReceives(c, counter, ciphertext)))
  {
    var id := BrokerId(gate, s.gate.conns[c].manifest);
    BrokerStepIsMove(gate, s, c, [], false, counter, ciphertext);
    BrokerKeepsInv(gate, s, c, C.Deliver(id, counter, ciphertext),
                   id in s.net.endpoints && Decrypt(s.net.endpoints[id].transport, counter, ciphertext).1.Ok?);
  }

  lemma StepKeepsInv(gate: Gate, s: State, a: Action)
    requires InjectiveEncoding(gate.canonical) && Inv(gate, s)
    ensures Inv(gate, Step(gate, s, a))
  {
    match a
    case GateAction(ga) => GateKeepsInv(gate, s, ga);
    case BrokerSends(c, plaintext, accepted) =>
      if IsRunning(gate, s, c) { BrokerSendKeepsInv(gate, s, c, plaintext, accepted); }
    case BrokerReceives(c, counter, ciphertext) =>
      if IsRunning(gate, s, c) { BrokerReceiveKeepsInv(gate, s, c, counter, ciphertext); }
    case _ => ClientKeepsInv(gate, s, a);
  }

  lemma ExposedKept(gate: Gate, s: State, a: Action)
    ensures Step(gate, s, a).net.exposed == s.net.exposed
  {
  }

  lemma {:induction false} ReachableInv(gate: Gate, exposed: set<SharedSecret>, actions: seq<Action>)
    requires InjectiveEncoding(gate.canonical)
    ensures Inv(gate, Run(gate, Initial(exposed), actions))
    ensures Run(gate, Initial(exposed), actions).net.exposed == exposed
  {
    if actions == [] {
    } else {
      ReachableInv(gate, exposed, actions[..|actions| - 1]);
      StepKeepsInv(gate, Run(gate, Initial(exposed), actions[..|actions| - 1]), actions[|actions| - 1]);
      ExposedKept(gate, Run(gate, Initial(exposed), actions[..|actions| - 1]), actions[|actions| - 1]);
    }
  }

  /**
   * End to end, over every run: an operation that was started has one transport,
   * and what the root PTY was fed through it is a prefix of what the client
   * endpoint of the same manifest and request id encrypted.
   */
  lemma RootInputIsPrefixOfClientOutput(
      gate: Gate, exposed: set<SharedSecret>, actions: seq<Action>, c: nat, m: Manifest)
    requires InjectiveEncoding(gate.canonical)
    requires G.Launched(c, m) in Run(gate, Initial(exposed), actions).gate.trace
    ensures var s := Run(gate, Initial(exposed), actions);
            && gate.canonical(m).Some?
            && BrokerId(gate, m) in s.net.endpoints
            && s.net.endpoints[BrokerId(gate, m)].transport.requestId == m.requestId
            && (BrokerId(gate, m).secret !in exposed ==>
                  s.net.endpoints[BrokerId(gate, m)].got <= C.PeerSent(s.net, BrokerId(gate, m)))
  {
    ReachableInv(gate, exposed, actions);
    var s := Run(gate, Initial(exposed), actions);
    assert KeyedByLaunch(gate, s, BrokerId(gate, m), c, m);
  }

  /** Every frame the loop of `run_pty` was shown is one that could be presented in this state. */
  ghost predicate Presentable(net: C.State, events: seq<H.PtyEvent>) {
    forall e <- events :: e.Incoming? && e.frame.CiphertextFrame? ==>
                            e.frame.counter < U64_MODULUS && C.Available(net, e.frame.data)
  }

  /** The transport as `handle` derives it, before the first frame. */
  function Fresh(gate: Gate, m: Manifest): TransportState
    requires gate.canonical(m).Some?
  {
    var id := BrokerId(gate, m);
    Derive(Broker, id.secret, id.manifest, m.requestId)
  }

  lemma ChunkIsSent(net: C.State, id: C.EndpointId, t: TransportState, e: H.PtyEvent, i: nat, chunk: Bytes)
    requires C.Inv(net) && id in net.endpoints && id.secret !in net.exposed
    requires t.receive == net.endpoints[id].transport.receive && t.requestId == net.endpoints[id].transport.requestId
    requires t.receiveCounter == 0 && t.receive.secret == id.secret
    requires H.FedBy(t, e, i, chunk) && i < U64_MODULUS && C.Available(net, e.frame.data)
    ensures i < |C.PeerSent(net, id)| && chunk <= C.PeerSent(net, id)[i]
    ensures e.io.Done? ==> chunk == C.PeerSent(net, id)[i]
  {
    C.PresentedIsSent(net, id, i, e.frame.data);
  }

  lemma FedChunkIsSent(
      net: C.State, id: C.EndpointId, t: TransportState, events: seq<H.PtyEvent>, i: nat, chunk: Bytes, whole: bool)
    requires C.Inv(net) && id in net.endpoints && id.secret !in net.exposed && Presentable(net, events)
    requires t.receive == net.endpoints[id].transport.receive && t.requestId == net.endpoints[id].transport.requestId
    requires t.receiveCounter == 0 && t.receive.secret == id.secret && H.Fed(t, events, i, chunk, whole)
    ensures i < |C.PeerSent(net, id)| && chunk <= C.PeerSent(net, id)[i]
    ensures whole ==> chunk == C.PeerSent(net, id)[i]
  {
    var e :| e in events && H.FedBy(t, e, i, chunk) && (whole ==> e.io.Done?);
    assert e.frame.counter < U64_MODULUS && C.Available(net, e.frame.data);
    ChunkIsSent(net, id, t, e, i, chunk);
  }

  lemma ShellBytesFrom(
      net: C.State, id: C.EndpointId, t: TransportState, events: seq<H.PtyEvent>, written: seq<Bytes>, errored: bool)
    requires C.Inv(net) && id in net.endpoints && id.secret !in net.exposed && Presentable(net, events)
    requires t.receive == net.endpoints[id].transport.receive && t.requestId == net.endpoints[id].transport.requestId
    requires t.receiveCounter == 0 && t.receive.secret == id.secret
    requires forall i :: 0 <= i < |written| ==> H.Fed(t, events, i, written[i], i < |written| - 1 || !errored)
    ensures Flat(written) <= Flat(C.PeerSent(net, id))
  {
    var sent := C.PeerSent(net, id);
    forall i | 0 <= i < |written|
      ensures i < |sent| && written[i] <= sent[i] && (i < |written| - 1 ==> written[i] == sent[i])
    {
      FedChunkIsSent(net, id, t, events, i, written[i], i < |written| - 1 || !errored);
    }
    if written != [] {
      var last := written[|written| - 1];
      assert |written| <= |sent|;
    }
    FlatPrefix(written, sent);
  }

  /**
   * Down to the bytes of the shell: in any state of any run, whatever frames the
   * relay has shown the loop of a started PTY, in whatever order, and however
   * writes to the shell fail, the bytes the shell has got are a prefix of the bytes
   * that the client endpoint of the same manifest and request id encrypted.
   */
  lemma ShellBytesArePrefix(
      gate: Gate, exposed: set<SharedSecret>, actions: seq<Action>, c: nat, m: Manifest,
      encode: H.Encoder, events: seq<H.PtyEvent>)
    requires InjectiveEncoding(gate.canonical) && gate.canonical(m).Some?
    requires G.Launched(c, m) in Run(gate, Initial(exposed), actions).gate.trace
    requires BrokerId(gate, m).secret !in exposed
    requires Presentable(Run(gate, Initial(exposed), actions).net, events)
    ensures var net := Run(gate, Initial(exposed), actions).net;
            var p := H.DispatchAll(H.Opened(Fresh(gate, m)), encode, events);
            BrokerId(gate, m) in net.endpoints && Flat(p.written) <= Flat(C.PeerSent(net, BrokerId(gate, m)))
  {
    ReachableInv(gate, exposed, actions);
    var s := Run(gate, Initial(exposed), actions);
    var id := BrokerId(gate, m);
    assert KeyedByLaunch(gate, s, id, c, m);
    assert C.EndpointOk(id, s.net.endpoints[id]);
    var p := H.DispatchAll(H.Opened(Fresh(gate, m)), encode, events);
    H.ShellInputIsAuthentic(Fresh(gate, m), encode, events);
    ShellBytesFrom(s.net, id, Fresh(gate, m), events, p.written, p.status.Errored?);
  }

  /** The other direction too: whatever any unexposed endpoint accepted is a prefix of what its peer released. */
  lemma EverySessionIsPrefix(gate: Gate, exposed: set<SharedSecret>, actions: seq<Action>, id: C.EndpointId)
    requires InjectiveEncoding(gate.canonical)
    requires id in Run(gate, Initial(exposed), actions).net.endpoints && id.secret !in exposed
    ensures var net := Run(gate, Initial(exposed), actions).net; net.endpoints[id].got <= C.PeerSent(net, id)
  {
    ReachableInv(gate, exposed, actions);
  }

  /** The gate never encrypts two messages under one key and nonce, across all connections, crashes and restarts. */
  lemma NoNonceReuseAcrossRestarts(gate: Gate, exposed: set<SharedSecret>, actions: seq<Action>)
    requires InjectiveEncoding(gate.canonical)
    ensures C.NoncesUnique(Run(gate, Initial(exposed), actions).net.wire)
  {
    ReachableInv(gate, exposed, actions);
  }

  /** Ending connections on transport errors takes nothing away from authorisation: every start is still accounted for. */
  lemma GateAuthorisationHolds(
      gate: Gate, exposed: set<SharedSecret>, actions: seq<Action>, e: nat)
    requires InjectiveEncoding(gate.canonical)
    requires var trace := Run(gate, Initial(exposed), actions).gate.trace; e < |trace| && trace[e].Launched?
    ensures var trace := Run(gate, Initial(exposed), actions).gate.trace;
            G.CommittedIn(gate, trace[..e], trace[e].conn, trace[e].manifest)
  {
    ReachableInv(gate, exposed, actions);
  }

  // ---- An operation from its Start to its first bytes ----

  lemma {:induction false} IssuedAsAsked(gate: Gate, exposed: set<SharedSecret>, actions: seq<Action>)
    ensures G.IssuedAsAsked(gate, Run(gate, Initial(exposed), actions).gate)
  {
    if actions == [] {
    } else {
      var s, a := Run(gate, Initial(exposed), actions[..|actions| - 1]), actions[|actions| - 1];
      IssuedAsAsked(gate, exposed, actions[..|actions| - 1]);
      if a.GateAction? { G.StepKeepsIssued(gate, s.gate, a.action); }
    }
  }

  /** The endpoint that a client keys from nothing but the manifest it was shown. */
  function ClientId(gate: Gate, m: Manifest): C.EndpointId
    requires gate.canonical(m).Some?
  {
    C.EndpointId(Client, Dh(m.brokerTransport, m.clientEphemeral), gate.canonical(m).value)
  }

  /** For every started operation, the client that follows its manifest is the peer of the gate's transport. */
  lemma ClientOfManifestIsPeer(gate: Gate, exposed: set<SharedSecret>, actions: seq<Action>, c: nat, m: Manifest)
    requires InjectiveEncoding(gate.canonical)
    requires G.Launched(c, m) in Run(gate, Initial(exposed), actions).gate.trace
    ensures gate.canonical(m).Some? && ClientId(gate, m) == C.Peer(BrokerId(gate, m))
  {
    ReachableInv(gate, exposed, actions);
    IssuedAsAsked(gate, exposed, actions);
    var s := Run(gate, Initial(exposed), actions);
    assert KeyedByLaunch(gate, s, BrokerId(gate, m), c, m);
    G.LaunchedIsConsumed(gate, s.gate, c, m);
    G.CommittedWasIssued(gate, s.gate.trace, c, m);
  }

  lemma RunSnoc(gate: Gate, s: State, actions: seq<Action>, a: Action)
    ensures Run(gate, s, actions + [a]) == Step(gate, Run(gate, s, actions), a)
  {
    assert (actions + [a])[..|actions|] == actions;
  }

  function GateActions(actions: seq<G.Action>): (r: seq<Action>)
    ensures |r| == |actions|
  {
    if actions == [] then [] else GateActions(actions[..|actions| - 1]) + [GateAction(actions[|actions| - 1])]
  }

  /** Steps of the gate other than a start leave all transports alone. */
  lemma {:induction false} GateOnly(gate: Gate, s: State, actions: seq<G.Action>)
    requires forall a <- actions :: !a.Launch?
    ensures Run(gate, s, GateActions(actions)) == State(G.Run(gate, s.gate, actions), s.net)
  {
    if actions == [] {
    } else {
      var front, last := actions[..|actions| - 1], actions[|actions| - 1];
      assert last in actions && forall a <- front :: a in actions;
      GateOnly(gate, s, front);
      RunSnoc(gate, s, GateActions(front), GateAction(last));
    }
  }

  /** After the six steps of an honest request its operation runs over a fresh transport. */
  lemma RequestOpensTransport(
      gate: Gate, s: State, c: nat, start: ClientFrame, issued: int, nonce: Key32, m: Manifest,
      approver: Key32, encoding: Bytes, approved: int)
    requires G.CanRun(gate, s.gate, c, start, issued, nonce, m, approver, approved)
    ensures var q := G.HonestActions(gate, c, start, issued, nonce, m, approver, encoding, approved);
            Run(gate, s, GateActions(q)) == State(G.Run(gate, s.gate, q), C.Opened(s.net, BrokerId(gate, m), m.requestId))
  {
    var q := G.HonestActions(gate, c, start, issued, nonce, m, approver, encoding, approved);
    var front := q[..5];
    assert q == front + [G.Launch(c)];
    GateOnly(gate, s, front);
    RunSnoc(gate, s, GateActions(front), GateAction(G.Launch(c)));
    G.RunSnoc(gate, s.gate, front, G.Launch(c));
    G.ApprovedBeforeLaunch(gate, s.gate, c, start, issued, nonce, m, approver, encoding, approved);
  }

  lemma RunTwo(gate: Gate, s: State, a: Action, b: Action)
    ensures Run(gate, s, [a, b]) == Step(gate, Step(gate, s, a), b)
  {
    assert [a, b] == [] + [a] + [b];
    RunSnoc(gate, s, [], a);
    RunSnoc(gate, s, [] + [a], b);
  }

  lemma {:induction false} RunAppend(gate: Gate, s: State, a: seq<Action>, b: seq<Action>)
    ensures Run(gate, s, a + b) == Run(gate, Run(gate, s, a), b)
  {
    if b == [] {
      assert a + b == a;
    } else {
      var front, last := b[..|b| - 1], b[|b| - 1];
      assert a + b == a + front + [last];
      RunAppend(gate, s, a, front);
      RunSnoc(gate, s, a + front, last);
    }
  }

  /** The sealing of message number `n` of an endpoint. */
  function Frame(id: C.EndpointId, n: nat, requestId: Bytes, plaintext: Bytes): Ciphertext {
    Sealed(SendKey(id.role, id.secret, id.manifest), Nonce(n), requestId, plaintext)
  }

  /** A PTY runs on this connection, and its session has these two ends with as much sent as accepted. */
  ghost predicate InSession(
      gate: Gate, s: State, c: nat, m: Manifest, toHost: seq<Bytes>, toClient: seq<Bytes>)
  {
    && gate.canonical(m).Some? && m.operation.RootPty? && G.At(s.gate, c) == G.Running(m)
    && C.Inv(s.net) && ClientId(gate, m) == C.Peer(BrokerId(gate, m))
    && BrokerId(gate, m) in s.net.endpoints && ClientId(gate, m) in s.net.endpoints
    && s.net.endpoints[BrokerId(gate, m)].transport.requestId == m.requestId
    && s.net.endpoints[ClientId(gate, m)].transport.requestId == m.requestId
    && s.net.endpoints[ClientId(gate, m)].sent == toHost && s.net.endpoints[BrokerId(gate, m)].got == toHost
    && s.net.endpoints[BrokerId(gate, m)].sent == toClient && s.net.endpoints[ClientId(gate, m)].got == toClient
  }

  /** What the client types reaches the PTY. */
  lemma InputGoesThrough(
      gate: Gate, s: State, c: nat, m: Manifest, toHost: seq<Bytes>, toClient: seq<Bytes>, plaintext: Bytes)
    requires InSession(gate, s, c, m, toHost, toClient) && |toHost| < U64_MODULUS - 1
    ensures var n := |toHost|;
            InSession(gate,
                      Run(gate, s, [ClientSends(ClientId(gate, m), plaintext, true),
                                    BrokerReceives(c, n, Frame(ClientId(gate, m), n, m.requestId, plaintext))]),
                      c, m, toHost + [plaintext], toClient)
  {
    var n, client, broker := |toHost|, ClientId(gate, m), BrokerId(gate, m);
    var f := Frame(client, n, m.requestId, plaintext);
    RunTwo(gate, s, ClientSends(client, plaintext, true), BrokerReceives(c, n, f));
    C.SendIs(s.net, client, plaintext);
    var u := Step(gate, s, ClientSends(client, plaintext, true));
    assert u.net.wire[|s.net.wire|] == f;
    C.DeliverIs(u.net, broker, f);
    ReceiveGoesOn(gate, u, c, m, f);
  }

  /** An accepted frame keeps the connection running. */
  lemma ReceiveGoesOn(gate: Gate, s: State, c: nat, m: Manifest, f: Ciphertext)
    requires gate.canonical(m).Some? && m.operation.RootPty? && G.At(s.gate, c) == G.Running(m)
    requires BrokerId(gate, m) in s.net.endpoints && f in s.net.wire
    requires var e := s.net.endpoints[BrokerId(gate, m)];
             C.Step(s.net, C.Deliver(BrokerId(gate, m), |e.got|, f)).endpoints.Keys == s.net.endpoints.Keys
             && BrokerId(gate, m) in C.Step(s.net, C.Deliver(BrokerId(gate, m), |e.got|, f)).endpoints
             && C.Step(s.net, C.Deliver(BrokerId(gate, m), |e.got|, f)).endpoints[BrokerId(gate, m)].got != e.got
    ensures var n := |s.net.endpoints[BrokerId(gate, m)].got|;
            Step(gate, s, BrokerReceives(c, n, f)) == State(s.gate, C.Step(s.net, C.Deliver(BrokerId(gate, m), n, f)))
  {
  }

  /** What the PTY prints reaches the client. */
  lemma OutputGoesThrough(
      gate: Gate, s: State, c: nat, m: Manifest, toHost: seq<Bytes>, toClient: seq<Bytes>, plaintext: Bytes)
    requires InSession(gate, s, c, m, toHost, toClient) && |toClient| < U64_MODULUS - 1
    ensures var n := |toClient|;
            InSession(gate,
                      Run(gate, s, [BrokerSends(c, plaintext, true),
                                    ClientReceives(ClientId(gate, m), n, Frame(BrokerId(gate, m), n, m.requestId, plaintext))]),
                      c, m, toHost, toClient + [plaintext])
  {
    var n, client, broker := |toClient|, ClientId(gate, m), BrokerId(gate, m);
    var f := Frame(broker, n, m.requestId, plaintext);
    RunTwo(gate, s, BrokerSends(c, plaintext, true), ClientReceives(client, n, f));
    C.SendIs(s.net, broker, plaintext);
    var u := Step(gate, s, BrokerSends(c, plaintext, true));
    assert u == State(s.gate, C.Step(s.net, C.Send(broker, plaintext, true)));
    assert u.net.wire[|s.net.wire|] == f;
    C.DeliverIs(u.net, client, f);
  }

  /** All an approved PTY takes, from its connection to the keying of both ends. */
  function OpeningActions(
      gate: Gate, c: nat, start: ClientFrame, issued: int, nonce: Key32, m: Manifest,
      approver: Key32, encoding: Bytes, approved: int): seq<Action>
    requires gate.canonical(m).Some?
  {
    GateActions(G.HonestActions(gate, c, start, issued, nonce, m, approver, encoding, approved))
    + [ClientOpens(ClientId(gate, m).secret, ClientId(gate, m).manifest, m.requestId)]
  }

  /**
   * Completeness, end to end: from any reachable state with the gate up, an honest
   * request for a PTY that an enrolled key signs in time is issued, approved and
   * started, and the client that keys itself from the manifest it was shown is in
   * session with it. From there every input and every output goes through.
   */
  lemma ApprovedPtyIsInSession(
      gate: Gate, exposed: set<SharedSecret>, actions: seq<Action>, c: nat, start: ClientFrame, issued: int,
      nonce: Key32, m: Manifest, approver: Key32, encoding: Bytes, approved: int)
    requires InjectiveEncoding(gate.canonical)
    requires G.CanRun(gate, Run(gate, Initial(exposed), actions).gate, c, start, issued, nonce, m, approver, approved)
    requires start.operation.RootPty?
    requires ClientId(gate, m) !in Run(gate, Initial(exposed), actions).net.endpoints
    ensures var s := Run(gate, Initial(exposed), actions);
            InSession(gate, Run(gate, s, OpeningActions(gate, c, start, issued, nonce, m, approver, encoding, approved)),
                      c, m, [], [])
  {
    var s := Run(gate, Initial(exposed), actions);
    var q := GateActions(G.HonestActions(gate, c, start, issued, nonce, m, approver, encoding, approved));
    var t := Run(gate, s, q);
    RequestOpensTransport(gate, s, c, start, issued, nonce, m, approver, encoding, approved);
    G.ApprovedRequestRuns(gate, s.gate, c, start, issued, nonce, m, approver, encoding, approved);
    RunAppend(gate, Initial(exposed), actions, q);
    ReachableInv(gate, exposed, actions + q);
    RunSnoc(gate, s, q, ClientOpens(ClientId(gate, m).secret, ClientId(gate, m).manifest, m.requestId));
    ClientJoins(gate, t, c, m);
  }

  /** The client's end, opened beside a fresh transport of the gate. */
  lemma ClientJoins(gate: Gate, s: State, c: nat, m: Manifest)
    requires gate.canonical(m).Some? && m.operation.RootPty? && G.At(s.gate, c) == G.Running(m) && C.Inv(s.net)
    requires m.brokerTransport == gate.transportPublic && ClientId(gate, m) !in s.net.endpoints
    requires BrokerId(gate, m) in s.net.endpoints
    requires var e := s.net.endpoints[BrokerId(gate, m)];
             e.sent == [] && e.got == [] && e.transport.requestId == m.requestId
    ensures InSession(gate, Step(gate, s, ClientOpens(ClientId(gate, m).secret, ClientId(gate, m).manifest, m.requestId)),
                      c, m, [], [])
  {
    C.OpenKeepsInv(s.net, ClientId(gate, m), m.requestId);
  }

  /** A frame that the transport refuses ends the connection and changes no transport. */
  lemma RefusedFrameEndsConnection(gate: Gate, s: State, c: nat, counter: nat, f: Ciphertext)
    requires IsRunning(gate, s, c) && s.gate.conns[c].manifest.operation.RootPty? && C.Available(s.net, f)
    requires var id := BrokerId(gate, s.gate.conns[c].manifest);
             id in s.net.endpoints && Decrypt(s.net.endpoints[id].transport, counter, f).1.Err?
    ensures var t := Step(gate, s, BrokerReceives(c, counter, f));
            G.At(t.gate, c) == G.Dead && t.net == s.net && t.gate == s.gate.(conns := s.gate.conns[c := G.Dead])
  {
    C.RefusedFrameChangesNothing(s.net, BrokerId(gate, s.gate.conns[c].manifest), counter, f);
  }
}
