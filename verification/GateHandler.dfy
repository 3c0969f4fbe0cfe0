/**
 * One connection of the gate as the code writes it, statement by statement:
 * `handle`, `run_command` and the frame dispatch of `run_pty` in
 * `src/bin/shellfleet-approval-gate.rs`. Interleavings with other connections
 * are the business of the gate protocol.
 */
module GateHandler {
  import opened Wrappers
  import opened Bytes
  import opened Approval
  import T = Transport

  const MAX_COMMAND_OUTPUT: nat := 8 * 1024 * 1024

  datatype Plaintext = Output(stream: string, data: Bytes) | Exit(code: int, message: string)

  /** `serde_json::to_vec` of a plaintext; it may fail. */
  type Encoder = Plaintext -> Option<Bytes>

  /**
   * The part of `handle` before the operation starts: the manifest that may run, if
   * any. `second` is absent also when the challenge could not be written.
   */
  method Authorise(
      state: GateState, first: Option<ClientFrame>, issuedAt: int, nonce: Key32, issueDb: bool,
      second: Option<ClientFrame>, approvedAt: int, approveDb: bool)
    returns (r: Option<Manifest>)
    modifies state`rows
    ensures first.None? ==> r.None? && state.rows == old(state.rows)
    ensures first.Some? ==>
              var (reply, issued) := IssueChallenge(
                                       state.gate, state.policy, old(state.rows), first.value, issuedAt, nonce, issueDb);
              && (r.Some? <==>
                    && reply.Ok? && second.Some? && second.value.Approve? && approveDb
                    && second.value.signedManifest == reply.value
                    && Grantable(state.gate, state.policy, state.keyring, issued, reply.value,
                                 second.value.approverPublic, second.value.approverSignature, approvedAt))
              && (r.Some? ==> r.value == reply.value.manifest)
              && state.rows == if r.None? then issued
                               else var id := r.value.requestId;
                                    issued[id := issued[id].(status := Consumed, consumedAt := Some(approvedAt))]
  {
    if first.None? {
      return None;
    }
    var challenge := state.Challenge(first.value, issuedAt, nonce, issueDb);
    if challenge.Err? || second.None? || !second.value.Approve? {
      return None;
    }
    if second.value.signedManifest != challenge.value {
      return None;
    }
    var approved := state.ApproveRequest(
      second.value.signedManifest, second.value.approverPublic, second.value.approverSignature, approvedAt, approveDb);
    if approved.Err? {
      return None;
    }
    return Some(approved.value);
  }

  /** Plaintext number `i` went out under the next counter in line. */
  ghost predicate SentInOrder(
      t: T.TransportState, encode: Encoder, plaintexts: seq<Plaintext>, frames: seq<(nat, T.Ciphertext)>)
  {
    && |frames| == |plaintexts|
    && forall i :: 0 <= i < |frames| ==>
         && encode(plaintexts[i]).Some?
         && frames[i] == (t.sendCounter + i, T.Sealed(t.send, T.Nonce(t.sendCounter + i), t.requestId,
                                                      encode(plaintexts[i]).value))
  }

  /** What becomes of one message: never sealed, sealed but not written out in full, or written out. */
  datatype Sending = NotSealed | Lost(frame: (nat, T.Ciphertext)) | Delivered(frame: (nat, T.Ciphertext))

  /** Sealing succeeds exactly when the message encodes, the AEAD takes it and the counter can advance. */
  predicate Sealable(encode: Encoder, plaintext: Plaintext, accepted: bool, counter: nat) {
    encode(plaintext).Some? && accepted && T.CanAdvance(counter)
  }

  /** `written` says whether the frame could be written out; the counter is spent before that is known. */
  method SendEncrypted(t: T.Transport, encode: Encoder, plaintext: Plaintext, accepted: bool, written: bool)
    returns (r: Sending)
    requires t.Valid()
    modifies t`sendCounter
    ensures t.Valid()
    ensures r.NotSealed? <==> !Sealable(encode, plaintext, accepted, old(t.sendCounter))
    ensures r.Delivered? <==> !r.NotSealed? && written
    ensures !r.NotSealed? ==> SentInOrder(old(t.State()), encode, [plaintext], [r.frame])
    ensures t.sendCounter == old(t.sendCounter) + (if r.NotSealed? then 0 else 1)
  {
    var encoded := encode(plaintext);
    if encoded.None? {
      return NotSealed;
    }
    var sealed := t.Seal(encoded.value, accepted);
    if sealed.Err? {
      return NotSealed;
    }
    if !written {
      return Lost(sealed.value);
    }
    return Delivered(sealed.value);
  }

  /** The messages a finished command produces: its output within one budget, then its exit code. */
  function CommandMessages(stdout: Bytes, stderr: Bytes, code: int): (messages: seq<Plaintext>)
    ensures messages != [] && messages[|messages| - 1] == Exit(code, "root command complete")
  {
    var out := if |stdout| > MAX_COMMAND_OUTPUT then stdout[..MAX_COMMAND_OUTPUT] else stdout;
    var room := MAX_COMMAND_OUTPUT - |out|;
    var err := if |stderr| > room then stderr[..room] else stderr;
    (if out != [] then [Output("stdout", out)] else [])
    + (if err != [] then [Output("stderr", err)] else [])
    + [Exit(code, "root command complete")]
  }

  function OutputBytes(messages: seq<Plaintext>): nat {
    if messages == [] then 0
    else (if messages[0].Output? then |messages[0].data| else 0) + OutputBytes(messages[1..])
  }

  lemma {:induction false} OutputBytesAppend(a: seq<Plaintext>, b: seq<Plaintext>)
    ensures OutputBytes(a + b) == OutputBytes(a) + OutputBytes(b)
  {
    if a == [] {
      assert a + b == b;
    } else {
      assert (a + b)[1..] == a[1..] + b;
      OutputBytesAppend(a[1..], b);
    }
  }

  /** Both streams together never exceed the budget, and bytes are cut only when they would. */
  lemma CommandOutputWithinBudget(stdout: Bytes, stderr: Bytes, code: int)
    ensures OutputBytes(CommandMessages(stdout, stderr, code))
            == if |stdout| + |stderr| <= MAX_COMMAND_OUTPUT then |stdout| + |stderr| else MAX_COMMAND_OUTPUT
  {
    var out := if |stdout| > MAX_COMMAND_OUTPUT then stdout[..MAX_COMMAND_OUTPUT] else stdout;
    var room := MAX_COMMAND_OUTPUT - |out|;
    var err := if |stderr| > room then stderr[..room] else stderr;
    var a := if out != [] then [Output("stdout", out)] else [];
    var b := if err != [] then [Output("stderr", err)] else [];
    OutputBytesAppend(a + b, [Exit(code, "root command complete")]);
    OutputBytesAppend(a, b);
    assert OutputBytes(a) == |out| && OutputBytes(b) == |err|;
  }

  /** What is sent under a label is the start of that stream, the error stream in what the output leaves of the budget. */
  lemma StreamsAreLabelled(stdout: Bytes, stderr: Bytes, code: int)
    ensures var messages := CommandMessages(stdout, stderr, code);
            var n := if |stdout| < MAX_COMMAND_OUTPUT then |stdout| else MAX_COMMAND_OUTPUT;
            var k := if |stderr| < MAX_COMMAND_OUTPUT - n then |stderr| else MAX_COMMAND_OUTPUT - n;
            && (n > 0 && k > 0 ==> messages == [Output("stdout", stdout[..n]), Output("stderr", stderr[..k]),
                                                Exit(code, "root command complete")])
            && (n > 0 && k == 0 ==> messages == [Output("stdout", stdout[..n]), Exit(code, "root command complete")])
            && (n == 0 && k > 0 ==> messages == [Output("stderr", stderr[..k]), Exit(code, "root command complete")])
            && (n == 0 && k == 0 ==> messages == [Exit(code, "root command complete")])
    ensures MAX_COMMAND_OUTPUT == 8388608
  {
    assert stdout[..|stdout|] == stdout && stderr[..|stderr|] == stderr;
  }

  lemma SentSnoc(
      t: T.TransportState, encode: Encoder, ps: seq<Plaintext>, fs: seq<(nat, T.Ciphertext)>,
      p: Plaintext, f: (nat, T.Ciphertext))
    requires SentInOrder(t, encode, ps, fs)
    requires SentInOrder(t.(sendCounter := t.sendCounter + |fs|), encode, [p], [f])
    ensures SentInOrder(t, encode, ps + [p], fs + [f])
  {
  }

  /** The first `n` messages went out: every one was accepted and written, under a counter that could advance. */
  ghost predicate WentOut(start: nat, accepted: set<nat>, written: set<nat>, n: nat) {
    forall i :: 0 <= i < n ==> i in accepted && i in written && T.CanAdvance(start + i)
  }

  /** Why message `i` did not go out: it was not sealed, or sealed and `lost` on the way. */
  ghost predicate StoppedAt(
      start: nat, encode: Encoder, message: Plaintext, accepted: set<nat>, written: set<nat>, i: nat, lost: bool)
  {
    (lost <==> Sealable(encode, message, i in accepted, start + i)) && (lost ==> i !in written)
  }

  /** One message after the other, until one fails; `lost` tells that this one was sealed. */
  method SendAll(
      t: T.Transport, encode: Encoder, messages: seq<Plaintext>, accepted: set<nat>, written: set<nat>)
    returns (frames: seq<(nat, T.Ciphertext)>, lost: bool)
    requires t.Valid()
    modifies t`sendCounter
    ensures t.Valid() && t.sendCounter == old(t.sendCounter) + |frames| + (if lost then 1 else 0)
    ensures |frames| <= |messages| && SentInOrder(old(t.State()), encode, messages[..|frames|], frames)
    ensures WentOut(old(t.sendCounter), accepted, written, |frames|)
    ensures if |frames| == |messages| then !lost
            else StoppedAt(old(t.sendCounter), encode, messages[|frames|], accepted, written, |frames|, lost)
  {
    ghost var start := t.State();
    frames := [];
    while |frames| < |messages|
      invariant |frames| <= |messages| && t.Valid() && t.sendCounter == start.sendCounter + |frames|
      invariant SentInOrder(start, encode, messages[..|frames|], frames)
      invariant WentOut(start.sendCounter, accepted, written, |frames|)
      decreases |messages| - |frames|
    {
      var i := |frames|;
      assert t.State() == start.(sendCounter := start.sendCounter + i);
      var sending := SendEncrypted(t, encode, messages[i], i in accepted, i in written);
      if !sending.Delivered? {
        return frames, sending.Lost?;
      }
      assert WentOut(start.sendCounter, accepted, written, i + 1);
      SentSnoc(start, encode, messages[..i], frames, messages[i], sending.frame);
      assert messages[..i + 1] == messages[..i] + [messages[i]];
      frames := frames + [sending.frame];
    }
    return frames, false;
  }

  /** The end of `run_command`; `accepted` and `written` number the messages that AEAD and socket take. */
  method SendCommandResult(
      t: T.Transport, encode: Encoder, stdout: Bytes, stderr: Bytes, code: int,
      accepted: set<nat>, written: set<nat>)
    returns (ok: bool, frames: seq<(nat, T.Ciphertext)>, lost: bool)
    requires t.Valid()
    modifies t`sendCounter
    ensures t.Valid() && t.sendCounter == old(t.sendCounter) + |frames| + (if lost then 1 else 0)
    ensures var messages := CommandMessages(stdout, stderr, code);
            && |frames| <= |messages| && SentInOrder(old(t.State()), encode, messages[..|frames|], frames)
            && (ok <==> |frames| == |messages|) && (ok ==> !lost)
            && (!ok ==> StoppedAt(old(t.sendCounter), encode, messages[|frames|], accepted, written, |frames|, lost))
    ensures WentOut(old(t.sendCounter), accepted, written, |frames|)
  {
    var messages := CommandMessages(stdout, stderr, code);
    frames, lost := SendAll(t, encode, messages, accepted, written);
    ok := |frames| == |messages|;
  }

  // ---- run_pty ----

  /** How an operation on the PTY master ends; a failed write has let some bytes through. */
  datatype Io = Done | Failed(through: nat)

  datatype PtyEvent =
    | DeadlineReached
    | ShellOutput(data: Option<Bytes>, accepted: bool, written: bool)
    | ReadFailed
    | Undecodable
    | Incoming(frame: ClientFrame, io: Io)

  /**
   * `Ended`: left by `break`, so the shell is killed and an Exit message follows.
   * `Errored`: left by `?`. `Closed`: the Exit message is out as well.
   */
  datatype Status = Active | Ended | Errored | Closed

  /** `written`: what reached the shell, per frame. `sent`: messages written out. `lost`: one more was sealed. */
  datatype Pty = Pty(
    transport: T.TransportState, written: seq<Bytes>, sent: seq<Plaintext>, lost: bool, status: Status)

  /** The part of the plaintext that the shell gets. */
  function Through(plaintext: Bytes, io: Io): Bytes {
    if io.Done? || io.through >= |plaintext| then plaintext else plaintext[..io.through]
  }

  function Opened(t: T.TransportState): Pty {
    Pty(t, [], [], false, Active)
  }

  function Emit(p: Pty, encode: Encoder, message: Plaintext, accepted: bool, written: bool): Pty {
    if encode(message).None? then p.(status := Errored)
    else
      var (t, r) := T.Encrypt(p.transport, encode(message).value, accepted);
      if r.Err? then p.(status := Errored)
      else if !written then p.(transport := t, lost := true, status := Errored)
      else p.(transport := t, sent := p.sent + [message])
  }

  function Dispatch(p: Pty, encode: Encoder, e: PtyEvent): Pty {
    if !p.status.Active? then p
    else
      match e
      case DeadlineReached => p.(status := Ended)
      case ReadFailed => p.(status := Ended)
      case Undecodable => p.(status := Errored)
      case ShellOutput(None, _, _) => p.(status := Ended)
      case ShellOutput(Some(data), accepted, written) => Emit(p, encode, Output("pty", data), accepted, written)
      case Incoming(CiphertextFrame(counter, data), io) =>
        var (t, r) := T.Decrypt(p.transport, counter, data);
        if r.Err? then p.(status := Errored)
        else p.(transport := t, written := p.written + [Through(r.value, io)],
                status := if io.Done? then Active else Errored)
      case Incoming(Resize(_, _), io) => if io.Done? then p else p.(status := Errored)
      case Incoming(Close, _) => p.(status := Ended)
      case Incoming(_, _) => p.(status := Errored)
  }

  function DispatchAll(p: Pty, encode: Encoder, events: seq<PtyEvent>): Pty {
    if events == [] then p
    else Dispatch(DispatchAll(p, encode, events[..|events| - 1]), encode, events[|events| - 1])
  }

  const PTY_CLOSED := Exit(0, "root PTY closed")

  /** After the loop: a shell that was killed in order is followed by its Exit message. */
  function Closing(p: Pty, encode: Encoder, accepted: bool, written: bool): Pty {
    if !p.status.Ended? then p
    else
      var q := Emit(p, encode, PTY_CLOSED, accepted, written);
      if q.status.Errored? then q else q.(status := Closed)
  }

  /** The select loop on the mutable transport, and what follows it. */
  method RunPty(t: T.Transport, encode: Encoder, events: seq<PtyEvent>, exitAccepted: bool, exitWritten: bool)
    returns (written: seq<Bytes>, sent: seq<Plaintext>, lost: bool, status: Status)
    requires t.Valid()
    requires forall e <- events :: e.Incoming? && e.frame.CiphertextFrame? ==> e.frame.counter < U64_MODULUS
    modifies t
    ensures t.Valid()
    ensures Pty(t.State(), written, sent, lost, status)
            == Closing(DispatchAll(Opened(old(t.State())), encode, events), encode, exitAccepted, exitWritten)
  {
    written, sent, lost, status := [], [], false, Active;
    for i := 0 to |events|
      invariant t.Valid()
      invariant Pty(t.State(), written, sent, lost, status)
                == DispatchAll(Opened(old(t.State())), encode, events[..i])
      invariant lost ==> status.Errored?
    {
      assert events[..i + 1][..i] == events[..i];
      if status.Active? {
        match events[i]
        case DeadlineReached => status := Ended;
        case ReadFailed => status := Ended;
        case Undecodable => status := Errored;
        case ShellOutput(data, accepted, delivered) =>
          if data.None? {
            status := Ended;
          } else {
            var message := Output("pty", data.value);
            var sending := SendEncrypted(t, encode, message, accepted, delivered);
            if sending.Delivered? {
              sent := sent + [message];
            } else {
              lost, status := sending.Lost?, Errored;
            }
          }
        case Incoming(CiphertextFrame(counter, data), io) =>
          assert events[i] in events;
          var plaintext := t.Open(counter, data);
          if plaintext.Err? {
            status := Errored;
          } else {
            written := written + [Through(plaintext.value, io)];
            if io.Failed? {
              status := Errored;
            }
          }
        case Incoming(Resize(_, _), io) =>
          if io.Failed? {
            status := Errored;
          }
        case Incoming(Close, _) => status := Ended;
        case Incoming(_, _) => status := Errored;
      }
    }
    assert events[..|events|] == events;
    if status.Ended? {
      var sending := SendEncrypted(t, encode, PTY_CLOSED, exitAccepted, exitWritten);
      if sending.Delivered? {
        sent, status := sent + [PTY_CLOSED], Closed;
      } else {
        lost, status := sending.Lost?, Errored;
      }
    }
  }

  /** The frame of this event opened under counter `start + i`, and the shell got `chunk` of it. */
  ghost predicate FedBy(t: T.TransportState, e: PtyEvent, i: nat, chunk: Bytes) {
    && e.Incoming? && e.frame.CiphertextFrame? && e.frame.data.Sealed?
    && e.frame.counter == t.receiveCounter + i
    && e.frame.data == T.Sealed(t.receive, T.Nonce(t.receiveCounter + i), t.requestId, e.frame.data.plaintext)
    && chunk == Through(e.frame.data.plaintext, e.io)
  }

  ghost predicate Fed(t: T.TransportState, events: seq<PtyEvent>, i: nat, chunk: Bytes, whole: bool) {
    exists e <- events :: FedBy(t, e, i, chunk) && (whole ==> e.io.Done?)
  }

  /**
   * The shell is fed exactly one chunk per consecutive receive counter, each the
   * plaintext of an authentic frame of this session, in full except for the last
   * one of a loop that failed. Every counter used for sending carried one message
   * that was written out, except the last one of a loop that failed.
   */
  lemma {:induction false} ShellInputIsAuthentic(t: T.TransportState, encode: Encoder, events: seq<PtyEvent>)
    ensures var p := DispatchAll(Opened(t), encode, events);
            && p.transport == t.(sendCounter := t.sendCounter + |p.sent| + (if p.lost then 1 else 0),
                                 receiveCounter := t.receiveCounter + |p.written|)
            && (p.lost ==> p.status.Errored?)
            && forall i :: 0 <= i < |p.written| ==>
                 Fed(t, events, i, p.written[i], i < |p.written| - 1 || !p.status.Errored?)
  {
    if events == [] {
    } else {
      var front, e := events[..|events| - 1], events[|events| - 1];
      ShellInputIsAuthentic(t, encode, front);
      var p, q := DispatchAll(Opened(t), encode, front), DispatchAll(Opened(t), encode, events);
      assert events == front + [e];
      DispatchFeeds(t, p, encode, e);
      forall i | 0 <= i < |q.written|
        ensures Fed(t, events, i, q.written[i], i < |q.written| - 1 || !q.status.Errored?)
      {
        if i < |p.written| {
          FedStays(t, front, e, i, p.written[i], i < |p.written| - 1 || !p.status.Errored?);
        } else {
          assert e in events;
        }
      }
    }
  }

  /** One event: at most one more chunk, from its own frame, and the counters move with what went through. */
  lemma DispatchFeeds(t: T.TransportState, p: Pty, encode: Encoder, e: PtyEvent)
    requires p.lost ==> p.status.Errored?
    requires p.transport == t.(sendCounter := t.sendCounter + |p.sent| + (if p.lost then 1 else 0),
                               receiveCounter := t.receiveCounter + |p.written|)
    ensures var q := Dispatch(p, encode, e);
            && q.transport == t.(sendCounter := t.sendCounter + |q.sent| + (if q.lost then 1 else 0),
                                 receiveCounter := t.receiveCounter + |q.written|)
            && (q.lost ==> q.status.Errored?)
            && p.written <= q.written && |q.written| <= |p.written| + 1
            && (p.status.Errored? ==> q == p)
            && (|q.written| > |p.written| ==>
                  FedBy(t, e, |p.written|, q.written[|p.written|]) && (!q.status.Errored? ==> e.io.Done?))
  {
  }

  lemma FedStays(t: T.TransportState, front: seq<PtyEvent>, e: PtyEvent, i: nat, chunk: Bytes, whole: bool)
    requires Fed(t, front, i, chunk, whole)
    ensures Fed(t, front + [e], i, chunk, whole)
  {
    var f :| f in front && FedBy(t, f, i, chunk) && (whole ==> f.io.Done?);
    assert f in front + [e];
  }

  /** The peer gets an Exit message exactly when the session closes in order, and shell output only before it. */
  lemma {:induction false} ExitClosesTheSession(
      t: T.TransportState, encode: Encoder, events: seq<PtyEvent>, accepted: bool, written: bool)
    ensures var q := Closing(DispatchAll(Opened(t), encode, events), encode, accepted, written);
            && (q.status.Closed? <==> PTY_CLOSED in q.sent)
            && forall i :: 0 <= i < |q.sent| ==>
                 if i == |q.sent| - 1 && q.status.Closed? then q.sent[i] == PTY_CLOSED
                 else q.sent[i].Output? && q.sent[i].stream == "pty"
  {
    OnlyOutputInTheLoop(t, encode, events);
  }

  lemma {:induction false} OnlyOutputInTheLoop(t: T.TransportState, encode: Encoder, events: seq<PtyEvent>)
    ensures var p := DispatchAll(Opened(t), encode, events);
            !p.status.Closed? && forall m <- p.sent :: m.Output? && m.stream == "pty"
  {
    if events == [] {
    } else {
      OnlyOutputInTheLoop(t, encode, events[..|events| - 1]);
    }
  }

  /** Nothing reaches the shell or the peer after the loop has been left. */
  lemma {:induction false} NothingAfterTheEnd(p: Pty, encode: Encoder, events: seq<PtyEvent>)
    requires !p.status.Active?
    ensures DispatchAll(p, encode, events) == p
  {
    if events == [] {
    } else {
      NothingAfterTheEnd(p, encode, events[..|events| - 1]);
    }
  }

  // ---- When the loop goes on, ends and fails ----

  /** The data of the shell's output events, in order. */
  function Outputs(events: seq<PtyEvent>): seq<Bytes> {
    if events == [] then []
    else
      var e := events[|events| - 1];
      Outputs(events[..|events| - 1]) + (if e.ShellOutput? && e.data.Some? then [e.data.value] else [])
  }

  /** The plaintexts sealed in the received frames, in order. */
  function Inputs(events: seq<PtyEvent>): seq<Bytes> {
    if events == [] then []
    else
      var e := events[|events| - 1];
      Inputs(events[..|events| - 1])
      + (if e.Incoming? && e.frame.CiphertextFrame? && e.frame.data.Sealed? then [e.frame.data.plaintext] else [])
  }

  function PtyOutputs(data: seq<Bytes>): (messages: seq<Plaintext>)
    ensures |messages| == |data| && forall i :: 0 <= i < |data| ==> messages[i] == Output("pty", data[i])
  {
    seq(|data|, i requires 0 <= i < |data| => Output("pty", data[i]))
  }

  /**
   * An event that goes well after `sent` outputs and `received` inputs: output that
   * is sealed and written, the next authentic frame written to the shell in full,
   * or a resize that works.
   */
  predicate GoesWell(t: T.TransportState, encode: Encoder, sent: nat, received: nat, e: PtyEvent) {
    match e
    case ShellOutput(Some(data), accepted, written) =>
      encode(Output("pty", data)).Some? && accepted && written && t.sendCounter + sent + 1 < U64_MODULUS
    case Incoming(CiphertextFrame(counter, c), io) =>
      && counter == t.receiveCounter + received && counter + 1 < U64_MODULUS && io.Done?
      && c.Sealed? && c == T.Sealed(t.receive, T.Nonce(counter), t.requestId, c.plaintext)
    case Incoming(Resize(_, _), io) => io.Done?
    case _ => false
  }

  /** The deadline, the end of the shell's output, a failed read, and a Close. */
  predicate EndsLoop(e: PtyEvent) {
    || e.DeadlineReached? || e.ReadFailed?
    || (e.ShellOutput? && e.data.None?)
    || (e.Incoming? && e.frame.Close?)
  }

  ghost predicate AllGoWell(t: T.TransportState, encode: Encoder, events: seq<PtyEvent>) {
    forall i :: 0 <= i < |events| ==>
      GoesWell(t, encode, |Outputs(events[..i])|, |Inputs(events[..i])|, events[i])
  }

  /** The record of a loop that has carried these outputs and inputs. */
  function Carried(t: T.TransportState, outputs: seq<Bytes>, inputs: seq<Bytes>, status: Status): Pty {
    Pty(t.(sendCounter := t.sendCounter + |outputs|, receiveCounter := t.receiveCounter + |inputs|),
        inputs, PtyOutputs(outputs), false, status)
  }

  lemma OneMore(t: T.TransportState, encode: Encoder, outputs: seq<Bytes>, inputs: seq<Bytes>, e: PtyEvent)
    requires GoesWell(t, encode, |outputs|, |inputs|, e)
    ensures Dispatch(Carried(t, outputs, inputs, Active), encode, e)
            == Carried(t, outputs + (if e.ShellOutput? then [e.data.value] else []),
                       inputs + (if e.Incoming? && e.frame.CiphertextFrame? then [e.frame.data.plaintext] else []), Active)
  {
    if e.ShellOutput? {
      assert PtyOutputs(outputs + [e.data.value]) == PtyOutputs(outputs) + [Output("pty", e.data.value)];
      assert inputs + [] == inputs;
    } else {
      assert outputs + [] == outputs;
      if !e.frame.CiphertextFrame? { assert inputs + [] == inputs; }
    }
  }

  lemma StopsOrFails(t: T.TransportState, encode: Encoder, outputs: seq<Bytes>, inputs: seq<Bytes>, e: PtyEvent)
    requires !GoesWell(t, encode, |outputs|, |inputs|, e)
    ensures EndsLoop(e) ==>
              Dispatch(Carried(t, outputs, inputs, Active), encode, e) == Carried(t, outputs, inputs, Ended)
    ensures !EndsLoop(e) ==> Dispatch(Carried(t, outputs, inputs, Active), encode, e).status.Errored?
  {
  }

  /** While all goes well the loop carries every output and every input, and nothing else. */
  lemma {:induction false} LoopGoesOn(t: T.TransportState, encode: Encoder, events: seq<PtyEvent>)
    requires AllGoWell(t, encode, events)
    ensures DispatchAll(Opened(t), encode, events) == Carried(t, Outputs(events), Inputs(events), Active)
  {
    if events == [] {
      assert PtyOutputs([]) == [];
    } else {
      var front, e := events[..|events| - 1], events[|events| - 1];
      assert forall i :: 0 <= i < |front| ==> events[..i] == front[..i];
      LoopGoesOn(t, encode, front);
      assert GoesWell(t, encode, |Outputs(events[..|front|])|, |Inputs(events[..|front|])|, events[|front|]);
      OneMore(t, encode, Outputs(front), Inputs(front), e);
    }
  }

  /** What follows an event after which the loop is over makes no difference. */
  lemma {:induction false} OverIsOver(p: Pty, encode: Encoder, front: seq<PtyEvent>, rest: seq<PtyEvent>)
    requires !DispatchAll(p, encode, front).status.Active?
    ensures DispatchAll(p, encode, front + rest) == DispatchAll(p, encode, front)
  {
    if rest == [] {
      assert front + rest == front;
    } else {
      assert (front + rest)[..|front + rest| - 1] == front + rest[..|rest| - 1];
      OverIsOver(p, encode, front, rest[..|rest| - 1]);
    }
  }

  /**
   * Exactly how a session ends. As long as all goes well it has carried every output
   * and every input. The first event that does not go well ends it: with the shell
   * killed and the Exit message sent if it is the deadline, the end of output, a
   * failed read or a Close, and as a failure without that message otherwise.
   */
  lemma SessionEndsAt(
      t: T.TransportState, encode: Encoder, front: seq<PtyEvent>, e: PtyEvent, rest: seq<PtyEvent>,
      accepted: bool, written: bool)
    requires AllGoWell(t, encode, front)
    requires !GoesWell(t, encode, |Outputs(front)|, |Inputs(front)|, e)
    ensures var p := DispatchAll(Opened(t), encode, front + [e] + rest);
            var q := Closing(p, encode, accepted, written);
            if EndsLoop(e) then
              && p == Carried(t, Outputs(front), Inputs(front), Ended)
              && q.written == Inputs(front)
              && (if encode(PTY_CLOSED).Some? && accepted && written && t.sendCounter + |Outputs(front)| + 1 < U64_MODULUS
                  then q.status.Closed? && q.sent == PtyOutputs(Outputs(front)) + [PTY_CLOSED]
                  else q.status.Errored? && q.sent == PtyOutputs(Outputs(front)))
            else p.status.Errored? && q == p
  {
    LoopGoesOn(t, encode, front);
    StopsOrFails(t, encode, Outputs(front), Inputs(front), e);
    assert (front + [e])[..|front|] == front;
    OverIsOver(Opened(t), encode, front + [e], rest);
  }
}
