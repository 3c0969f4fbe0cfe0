/**
 * The unprivileged relay: the TrustedOperationClient arm of `src/main.rs` and the
 * session queue of `src/privileged/client.rs`. The server may send any message.
 *
 * `decode` stands for the shared library's frame decoder, which is not part of
 * this model; all that is used is that it is a function of the payload.
 */
module Relay {
  import opened Wrappers
  import opened Bytes
  import opened Approval
  import opened Framing

  datatype ServerMessage = ServerMessage(requestId: Utf8, start: bool, close: bool, payload: Bytes)

  datatype Reply = EnvelopeMismatch | AlreadyActive | ConnectFailed | SendFailed | NotActive

  /** One gate connection: whom it was opened for, and the payloads its queue accepted, in order. */
  datatype Connection = Connection(owner: Utf8, queued: seq<Bytes>)

  /** `sessions` is the relay's map; `connections` keeps every connection ever opened. */
  datatype State = State(sessions: map<Utf8, nat>, connections: seq<Connection>)

  datatype Codec = Codec(decode: Bytes -> Option<ClientFrame>, limit: FrameLimit)

  /** What the world answers: can the gate be reached, is the session's writer still alive. */
  datatype Input = Input(message: ServerMessage, gateReachable: bool, writerAlive: bool)

  predicate EnvelopeMatches(codec: Codec, m: ServerMessage) {
    match codec.decode(m.payload)
    case Some(Start(inner, _, _)) => m.start && !m.close && inner == m.requestId
    case Some(Approve(signed, _, _)) => !m.start && !m.close && signed.manifest.requestId == m.requestId
    case Some(Close) => !m.start && m.close
    case Some(_) => !m.start && !m.close
    case None => false
  }

  /** Which frames fit which flags: Start and Approve must also name the envelope's id. */
  ghost predicate Fits(f: ClientFrame, m: ServerMessage) {
    || (f.Start? && m.start && !m.close && f.requestId == m.requestId)
    || (f.Approve? && !m.start && !m.close && f.signedManifest.manifest.requestId == m.requestId)
    || ((f.CiphertextFrame? || f.Resize?) && !m.start && !m.close)
    || (f.Close? && !m.start && m.close)
  }

  lemma EnvelopeMatchesIff(codec: Codec, m: ServerMessage)
    ensures EnvelopeMatches(codec, m) <==> codec.decode(m.payload).Some? && Fits(codec.decode(m.payload).value, m)
  {
  }

  /** One message: the state it leaves, and the error reported to the server, if any. */
  function Handle(codec: Codec, s: State, input: Input): (State, Option<Reply>) {
    var m := input.message;
    if !EnvelopeMatches(codec, m) then (s, Some(EnvelopeMismatch))
    else if m.start then
      if m.requestId in s.sessions then (s, Some(AlreadyActive))
      else if !input.gateReachable then (s, Some(ConnectFailed))
      else if !ValidBody(m.payload, codec.limit) then
        (s.(connections := s.connections + [Connection(m.requestId, [])]), Some(ConnectFailed))
      else
        (State(s.sessions[m.requestId := |s.connections|],
               s.connections + [Connection(m.requestId, [m.payload])]), None)
    else if m.requestId !in s.sessions || s.sessions[m.requestId] >= |s.connections| then (s, Some(NotActive))
    else
      var i := s.sessions[m.requestId];
      var accepted := ValidBody(m.payload, codec.limit) && input.writerAlive;
      var connections := if accepted
                         then s.connections[i := s.connections[i].(queued := s.connections[i].queued + [m.payload])]
                         else s.connections;
      (State(if m.close then s.sessions - {m.requestId} else s.sessions, connections),
       if accepted then None else Some(SendFailed))
  }

  /** The main loop's session map. */
  class Relay {
    const codec: Codec
    var sessions: map<Utf8, nat>
    var connections: seq<Connection>

    ghost function View(): State
      reads this
    {
      State(sessions, connections)
    }

    ghost predicate Valid()
      reads this
    {
      forall r <- sessions :: sessions[r] < |connections|
    }

    constructor (codec: Codec)
      ensures Valid() && View() == State(map[], []) && this.codec == codec
    {
      this.codec := codec;
      sessions, connections := map[], [];
    }

    /** `connect`: a refused first payload leaves a connection that never carries a frame. */
    method Connect(requestId: Utf8, first: Bytes, gateReachable: bool) returns (r: Option<nat>)
      modifies this`connections
      ensures r.Some? <==> gateReachable && ValidBody(first, codec.limit)
      ensures r.Some? ==> r.value == |old(connections)|
      ensures connections == if !gateReachable then old(connections)
                             else old(connections) + [Connection(requestId, if r.Some? then [first] else [])]
    {
      if !gateReachable {
        return None;
      }
      var index := |connections|;
      connections := connections + [Connection(requestId, [])];
      var sent := SendTo(index, first, true);
      assert [] + [first] == [first];
      if !sent {
        return None;
      }
      return Some(index);
    }

    /** `RelaySession::send`. */
    method SendTo(index: nat, payload: Bytes, writerAlive: bool) returns (sent: bool)
      requires index < |connections|
      modifies this`connections
      ensures sent <==> ValidBody(payload, codec.limit) && writerAlive
      ensures connections == if sent
                             then old(connections)[index := old(connections)[index].(
                                    queued := old(connections)[index].queued + [payload])]
                             else old(connections)
    {
      if |payload| == 0 || |payload| > codec.limit || !writerAlive {
        return false;
      }
      connections := connections[index := connections[index].(queued := connections[index].queued + [payload])];
      return true;
    }

    method OnMessage(input: Input) returns (reply: Option<Reply>)
      requires Valid()
      modifies this
      ensures Valid() && (View(), reply) == Handle(codec, old(View()), input)
      ensures old(Inv(codec, View())) ==> Inv(codec, View())
      ensures var m := input.message;
              var fits := codec.decode(m.payload).Some? && Fits(codec.decode(m.payload).value, m);
              var active := m.requestId in old(sessions);
              var sendable := 0 < |m.payload| <= codec.limit;
              && (reply == Some(EnvelopeMismatch) <==> !fits)
              && (reply == Some(AlreadyActive) <==> fits && m.start && active)
              && (reply == Some(ConnectFailed) <==> fits && m.start && !active && !(input.gateReachable && sendable))
              && (reply == Some(NotActive) <==> fits && !m.start && !active)
              && (reply == Some(SendFailed) <==> fits && !m.start && active && !(sendable && input.writerAlive))
    {
      EnvelopeMatchesIff(codec, input.message);
      if Inv(codec, View()) { HandleKeepsInv(codec, View(), input); }
      var m := input.message;
      if !EnvelopeMatches(codec, m) {
        return Some(EnvelopeMismatch);
      }
      if m.start {
        if m.requestId in sessions {
          return Some(AlreadyActive);
        }
        var session := Connect(m.requestId, m.payload, input.gateReachable);
        if session.None? {
          return Some(ConnectFailed);
        }
        sessions := sessions[m.requestId := session.value];
        return None;
      }
      if m.requestId !in sessions {
        return Some(NotActive);
      }
      var sent := SendTo(sessions[m.requestId], m.payload, input.writerAlive);
      reply := if sent then None else Some(SendFailed);
      if m.close {
        sessions := sessions - {m.requestId};
      }
    }
  }

  function Run(codec: Codec, s: State, inputs: seq<Input>): State {
    if inputs == [] then s else Handle(codec, Run(codec, s, inputs[..|inputs| - 1]), inputs[|inputs| - 1]).0
  }

  const INITIAL := State(map[], [])

  ghost predicate IsStartFor(codec: Codec, payload: Bytes, r: Utf8) {
    var f := codec.decode(payload); f.Some? && f.value.Start? && f.value.requestId == r
  }

  ghost predicate IsLaterFor(codec: Codec, payload: Bytes, r: Utf8) {
    var f := codec.decode(payload);
    f.Some? && !f.value.Start? && (f.value.Approve? ==> f.value.signedManifest.manifest.requestId == r)
  }

  ghost predicate IsClose(codec: Codec, payload: Bytes) {
    codec.decode(payload) == Some(Close)
  }

  /** One Start for the owner first, then only frames that may follow it, and nothing after a Close. */
  ghost predicate Disciplined(codec: Codec, c: Connection) {
    && (|c.queued| > 0 ==> IsStartFor(codec, c.queued[0], c.owner))
    && (forall i :: 0 < i < |c.queued| ==> IsLaterFor(codec, c.queued[i], c.owner))
    && (forall i :: 0 <= i < |c.queued| - 1 ==> !IsClose(codec, c.queued[i]))
    && (forall i :: 0 <= i < |c.queued| ==> ValidBody(c.queued[i], codec.limit))
  }

  /** The session stored under `r` is its own connection, open for `r`, and not yet closed. */
  ghost predicate Live(codec: Codec, s: State, r: Utf8)
    requires r in s.sessions
  {
    var i := s.sessions[r];
    && i < |s.connections| && s.connections[i].owner == r
    && |s.connections[i].queued| > 0
    && !IsClose(codec, s.connections[i].queued[|s.connections[i].queued| - 1])
  }

  ghost predicate Inv(codec: Codec, s: State) {
    && (forall i :: 0 <= i < |s.connections| ==> Disciplined(codec, s.connections[i]))
    && (forall r <- s.sessions :: Live(codec, s, r))
  }

  lemma StartKeepsInv(codec: Codec, s: State, input: Input)
    requires Inv(codec, s) && EnvelopeMatches(codec, input.message) && input.message.start
    ensures Inv(codec, Handle(codec, s, input).0)
  {
    var t := Handle(codec, s, input).0;
    forall r <- t.sessions ensures Live(codec, t, r) {
      if r in s.sessions { assert Live(codec, s, r); }
    }
  }

  /** Appending a frame that may follow keeps a connection disciplined. */
  lemma AppendKeepsDiscipline(codec: Codec, c: Connection, payload: Bytes)
    requires Disciplined(codec, c) && |c.queued| > 0 && !IsClose(codec, c.queued[|c.queued| - 1])
    requires IsLaterFor(codec, payload, c.owner) && ValidBody(payload, codec.limit)
    ensures Disciplined(codec, c.(queued := c.queued + [payload]))
  {
  }

  /** A session of another id is on another connection, which did not change. */
  lemma OtherStaysLive(codec: Codec, s: State, t: State, r: Utf8, m: Utf8)
    requires Inv(codec, s) && r in s.sessions && m in s.sessions && r != m
    requires r in t.sessions && t.sessions[r] == s.sessions[r] && |t.connections| == |s.connections|
    requires forall k :: 0 <= k < |s.connections| && k != s.sessions[m] ==> t.connections[k] == s.connections[k]
    ensures Live(codec, t, r)
  {
    assert Live(codec, s, r) && Live(codec, s, m);
  }

  /** What a later frame does: at most one append to the connection of its id, and the id is freed by a Close. */
  lemma LaterIs(codec: Codec, s: State, input: Input)
    requires Inv(codec, s) && EnvelopeMatches(codec, input.message) && !input.message.start
    requires input.message.requestId in s.sessions
    ensures var t, m := Handle(codec, s, input).0, input.message;
            var i := s.sessions[m.requestId];
            && t.sessions == (if m.close then s.sessions - {m.requestId} else s.sessions)
            && i < |s.connections|
            && t.connections == (if ValidBody(m.payload, codec.limit) && input.writerAlive
                                 then s.connections[i := s.connections[i].(queued := s.connections[i].queued + [m.payload])]
                                 else s.connections)
            && IsLaterFor(codec, m.payload, m.requestId)
            && (IsClose(codec, m.payload) <==> m.close)
  {
    assert Live(codec, s, input.message.requestId);
  }

  lemma LaterKeepsInv(codec: Codec, s: State, input: Input)
    requires Inv(codec, s) && EnvelopeMatches(codec, input.message) && !input.message.start
    requires input.message.requestId in s.sessions
    ensures Inv(codec, Handle(codec, s, input).0)
  {
    var t, m := Handle(codec, s, input).0, input.message;
    var i := s.sessions[m.requestId];
    LaterIs(codec, s, input);
    assert Live(codec, s, m.requestId) && Disciplined(codec, s.connections[i]);
    if ValidBody(m.payload, codec.limit) { AppendKeepsDiscipline(codec, s.connections[i], m.payload); }
    forall r <- t.sessions ensures Live(codec, t, r) {
      if r != m.requestId { OtherStaysLive(codec, s, t, r, m.requestId); }
    }
  }

  lemma HandleKeepsInv(codec: Codec, s: State, input: Input)
    requires Inv(codec, s)
    ensures Inv(codec, Handle(codec, s, input).0)
  {
    if EnvelopeMatches(codec, input.message) {
      if input.message.start {
        StartKeepsInv(codec, s, input);
      } else if input.message.requestId in s.sessions {
        LaterKeepsInv(codec, s, input);
      }
    }
  }

  /**
   * Whatever the server sends, over any number of concurrent ids: every gate
   * connection carries one Start for the id it was opened for and then only an
   * Approve for that id, Ciphertext, Resize or a final Close; and the session
   * stored under an id is such a connection, opened for that very id.
   */
  lemma {:induction false} SessionsAreDisciplined(codec: Codec, inputs: seq<Input>)
    ensures Inv(codec, Run(codec, INITIAL, inputs))
  {
    if inputs == [] {
    } else {
      SessionsAreDisciplined(codec, inputs[..|inputs| - 1]);
      HandleKeepsInv(codec, Run(codec, INITIAL, inputs[..|inputs| - 1]), inputs[|inputs| - 1]);
    }
  }

  lemma OneStartPerConnection(codec: Codec, inputs: seq<Input>, i: nat, k: nat)
    requires var s := Run(codec, INITIAL, inputs);
             i < |s.connections| && k < |s.connections[i].queued| &&
             var f := codec.decode(s.connections[i].queued[k]); f.Some? && f.value.Start?
    ensures k == 0
  {
    SessionsAreDisciplined(codec, inputs);
    var s := Run(codec, INITIAL, inputs);
    assert Disciplined(codec, s.connections[i]);
    var c := s.connections[i];
    forall j | 0 < j < |c.queued| ensures codec.decode(c.queued[j]).Some? && !codec.decode(c.queued[j]).value.Start? {
      assert IsLaterFor(codec, c.queued[j], c.owner);
    }
  }

  /** Ids do not interfere: a message for one id leaves every other id's session and connection alone. */
  lemma OtherIdsUntouched(codec: Codec, inputs: seq<Input>, input: Input, r: Utf8)
    requires r in Run(codec, INITIAL, inputs).sessions && r != input.message.requestId
    ensures var s := Run(codec, INITIAL, inputs);
            var t := Handle(codec, s, input).0;
            && r in t.sessions && t.sessions[r] == s.sessions[r]
            && s.sessions[r] < |s.connections| && s.sessions[r] < |t.connections|
            && t.connections[s.sessions[r]] == s.connections[s.sessions[r]]
  {
    SessionsAreDisciplined(codec, inputs);
    var s := Run(codec, INITIAL, inputs);
    assert Live(codec, s, r);
    if input.message.requestId in s.sessions { assert Live(codec, s, input.message.requestId); }
  }

  /** A message for `r` whose frame fits its flags. */
  ghost predicate ForId(codec: Codec, input: Input, r: Utf8) {
    && input.message.requestId == r
    && codec.decode(input.message.payload).Some?
    && Fits(codec.decode(input.message.payload).value, input.message)
  }

  /** A Start for `r` that the relay can pass on. */
  ghost predicate Starts(codec: Codec, input: Input, r: Utf8) {
    ForId(codec, input, r) && input.message.start && input.gateReachable && 0 < |input.message.payload| <= codec.limit
  }

  ghost predicate Closes(codec: Codec, input: Input, r: Utf8) {
    ForId(codec, input, r) && input.message.close
  }

  /** A later frame for `r` that a live session can pass on. */
  ghost predicate Carries(codec: Codec, input: Input, r: Utf8) {
    ForId(codec, input, r) && !input.message.start && input.writerAlive && 0 < |input.message.payload| <= codec.limit
  }

  /** The payloads of these messages that a session of `r` passes on, in order. */
  ghost function Passed(codec: Codec, inputs: seq<Input>, r: Utf8): seq<Bytes> {
    if inputs == [] then []
    else
      var last := inputs[|inputs| - 1];
      Passed(codec, inputs[..|inputs| - 1], r) + (if Carries(codec, last, r) then [last.message.payload] else [])
  }

  /** Some Start for `r` could be passed on, and no Close for `r` came after it. */
  ghost predicate StartedNotClosed(codec: Codec, inputs: seq<Input>, r: Utf8) {
    exists k :: 0 <= k < |inputs| && Starts(codec, inputs[k], r)
                && forall j :: k < j < |inputs| ==> !Closes(codec, inputs[j], r)
  }

  lemma StartedNotClosedSnoc(codec: Codec, inputs: seq<Input>, input: Input, r: Utf8)
    ensures StartedNotClosed(codec, inputs + [input], r)
            <==> Starts(codec, input, r) || (StartedNotClosed(codec, inputs, r) && !Closes(codec, input, r))
  {
    var all := inputs + [input];
    if Starts(codec, input, r) { assert Starts(codec, all[|inputs|], r); }
    if StartedNotClosed(codec, inputs, r) && !Closes(codec, input, r) {
      var k :| 0 <= k < |inputs| && Starts(codec, inputs[k], r)
               && forall j :: k < j < |inputs| ==> !Closes(codec, inputs[j], r);
      assert Starts(codec, all[k], r) && forall j :: k < j < |all| ==> !Closes(codec, all[j], r);
    }
    if StartedNotClosed(codec, all, r) && !Starts(codec, input, r) {
      var k :| 0 <= k < |all| && Starts(codec, all[k], r)
               && forall j :: k < j < |all| ==> !Closes(codec, all[j], r);
      assert k < |inputs| && all[k] == inputs[k] && all[|inputs|] == input;
      assert forall j :: k < j < |inputs| ==> inputs[j] == all[j];
    }
  }

  /** One message opens, closes or keeps the session of `r`. */
  lemma SessionAfter(codec: Codec, s: State, input: Input, r: Utf8)
    requires Inv(codec, s)
    ensures r in Handle(codec, s, input).0.sessions
            <==> Starts(codec, input, r) || (r in s.sessions && !Closes(codec, input, r))
  {
    var m := input.message;
    EnvelopeMatchesIff(codec, m);
    if EnvelopeMatches(codec, m) && !m.start && m.requestId in s.sessions { LaterIs(codec, s, input); }
  }

  /**
   * Over any messages for any ids, `r` has a session exactly when a Start for it
   * could be passed on and no Close for it has come since. Repeated Starts, failed
   * sends and other ids make no difference.
   */
  lemma {:induction false} SessionOpenIff(codec: Codec, inputs: seq<Input>, r: Utf8)
    ensures r in Run(codec, INITIAL, inputs).sessions <==> StartedNotClosed(codec, inputs, r)
  {
    if inputs == [] {
    } else {
      var front, last := inputs[..|inputs| - 1], inputs[|inputs| - 1];
      SessionOpenIff(codec, front, r);
      SessionsAreDisciplined(codec, front);
      SessionAfter(codec, Run(codec, INITIAL, front), last, r);
      StartedNotClosedSnoc(codec, front, last, r);
      assert inputs == front + [last];
    }
  }

  /** The Start that opened the session of `r`: none was open before it, and no Close came since. */
  ghost predicate OpenedAt(codec: Codec, inputs: seq<Input>, r: Utf8, k: nat) {
    && k < |inputs| && Starts(codec, inputs[k], r) && !StartedNotClosed(codec, inputs[..k], r)
    && forall j :: k < j < |inputs| ==> !Closes(codec, inputs[j], r)
  }

  /** The connection of `r` holds that Start and everything passed on since. */
  ghost predicate CarriedSince(codec: Codec, inputs: seq<Input>, r: Utf8, k: nat)
    requires k < |inputs|
  {
    var s := Run(codec, INITIAL, inputs);
    && r in s.sessions && s.sessions[r] < |s.connections|
    && s.connections[s.sessions[r]].owner == r
    && s.connections[s.sessions[r]].queued == [inputs[k].message.payload] + Passed(codec, inputs[k + 1..], r)
  }

  lemma OpenedAtFront(codec: Codec, inputs: seq<Input>, r: Utf8, k: nat)
    requires OpenedAt(codec, inputs, r, k) && k < |inputs| - 1
    ensures OpenedAt(codec, inputs[..|inputs| - 1], r, k)
  {
    var front := inputs[..|inputs| - 1];
    assert front[..k] == inputs[..k];
  }

  /** One more message leaves the session of `r` where it is, with what it passed on added. */
  lemma OneMoreMessage(codec: Codec, s: State, input: Input, r: Utf8)
    requires Inv(codec, s) && r in s.sessions && !Closes(codec, input, r)
    ensures var t := Handle(codec, s, input).0;
            && s.sessions[r] < |s.connections| && r in t.sessions && t.sessions[r] == s.sessions[r]
            && s.sessions[r] < |t.connections|
            && t.connections[s.sessions[r]]
               == s.connections[s.sessions[r]].(
                    queued := s.connections[s.sessions[r]].queued
                              + (if Carries(codec, input, r) then [input.message.payload] else []))
  {
    var m := input.message;
    EnvelopeMatchesIff(codec, m);
    assert Live(codec, s, r);
    var queued := s.connections[s.sessions[r]].queued;
    assert queued + [] == queued;
    if EnvelopeMatches(codec, m) && !m.start && m.requestId in s.sessions {
      LaterIs(codec, s, input);
      if m.requestId != r { OtherStaysLive(codec, s, Handle(codec, s, input).0, r, m.requestId); }
    }
  }

  /** A Start that finds no session opens one on a connection that holds just its own payload. */
  lemma StartMessage(codec: Codec, s: State, input: Input, r: Utf8)
    requires r !in s.sessions && Starts(codec, input, r)
    ensures var t := Handle(codec, s, input).0;
            && r in t.sessions && t.sessions[r] == |s.connections|
            && t.connections == s.connections + [Connection(r, [input.message.payload])]
  {
    EnvelopeMatchesIff(codec, input.message);
  }

  /**
   * What a live session has carried, exactly, over any messages for any ids: the
   * payload of the Start that opened it, and then, in order, every payload for its
   * id that fits its flags and the size limit and found the writer alive.
   */
  lemma {:induction false} SessionCarriesAll(codec: Codec, inputs: seq<Input>, r: Utf8, k: nat)
    requires OpenedAt(codec, inputs, r, k)
    ensures CarriedSince(codec, inputs, r, k)
  {
    var front, last := inputs[..|inputs| - 1], inputs[|inputs| - 1];
    var s := Run(codec, INITIAL, front);
    SessionsAreDisciplined(codec, front);
    if k == |inputs| - 1 {
      SessionOpenIff(codec, front, r);
      StartMessage(codec, s, last, r);
      assert inputs[k + 1..] == [];
    } else {
      OpenedAtFront(codec, inputs, r, k);
      SessionCarriesAll(codec, front, r, k);
      OneMoreMessage(codec, s, last, r);
      assert inputs[k + 1..][..|inputs[k + 1..]| - 1] == front[k + 1..];
    }
  }

  /** And some Start did open it. */
  lemma {:induction false} SessionWasOpened(codec: Codec, inputs: seq<Input>, r: Utf8) returns (k: nat)
    requires r in Run(codec, INITIAL, inputs).sessions
    ensures OpenedAt(codec, inputs, r, k) && CarriedSince(codec, inputs, r, k)
  {
    SessionOpenIff(codec, inputs, r);
    var front, last := inputs[..|inputs| - 1], inputs[|inputs| - 1];
    assert inputs == front + [last];
    StartedNotClosedSnoc(codec, front, last, r);
    if StartedNotClosed(codec, front, r) && !Closes(codec, last, r) {
      SessionOpenIff(codec, front, r);
      k := SessionWasOpened(codec, front, r);
      assert inputs[..k] == front[..k];
    } else {
      k := |front|;
    }
    SessionCarriesAll(codec, inputs, r, k);
  }

  /** Any other well-formed frame reaches the connection of its id exactly when that is live, and a Close ends it. */
  lemma LaterFrameIsForwarded(codec: Codec, inputs: seq<Input>, input: Input)
    requires EnvelopeMatches(codec, input.message) && !input.message.start
    requires input.message.requestId in Run(codec, INITIAL, inputs).sessions
    ensures var s := Run(codec, INITIAL, inputs);
            var (t, reply) := Handle(codec, s, input);
            var r, payload := input.message.requestId, input.message.payload;
            var i := s.sessions[r];
            && i < |s.connections| == |t.connections|
            && t.connections[i].queued
               == (if ValidBody(payload, codec.limit) && input.writerAlive
                   then s.connections[i].queued + [payload] else s.connections[i].queued)
            && (r in t.sessions <==> codec.decode(payload) != Some(Close))
            && (reply.None? <==> ValidBody(payload, codec.limit) && input.writerAlive)
  {
    SessionsAreDisciplined(codec, inputs);
    assert Live(codec, Run(codec, INITIAL, inputs), input.message.requestId);
  }
}
