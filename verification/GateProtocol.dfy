/**
 * Whole runs of the approval gate: any number of concurrent connections to
 * `handle` in `src/bin/shellfleet-approval-gate.rs`, one database table that
 * outlives crashes and restarts, a keyring file that may change at any time, and
 * an untrusted peer that chooses every frame.
 *
 * `approve` is two steps here, its checks with the SELECT and its guarded UPDATE
 * with the commit, and any other step may come between them.
 */
module GateProtocol {
  import opened Wrappers
  import opened Bytes
  import opened Policy
  import opened Approval

  datatype Conn =
    | AwaitStart
    | AwaitApprove(challenge: SignedManifest)
    | Selected(manifest: Manifest, now: int)
    | Approved(manifest: Manifest)
    | Running(manifest: Manifest)
    | Dead

  datatype Event =
    | Issued(conn: nat, manifest: Manifest)
    | ApproverSigned(key: Key32, message: Bytes)
    | Verified(conn: nat, manifest: Manifest, message: Bytes, approver: Key32, keyring: Keyring, now: int)
    | Committed(conn: nat, requestId: Utf8)
    | Launched(conn: nat, manifest: Manifest)

  /** How the UPDATE and its commit end: both done, undone, or done while the gate sees an error. */
  datatype CommitOutcome = Durable | RolledBack | DurableButFailed

  datatype Action =
    | Boot(policy: Utf8)
    | Crash
    | SetKeyring(keyring: Keyring)
    | ApproverSigns(key: Key32, message: Bytes)
    | Accept(conn: nat)
    | Hangup(conn: nat)
    | ReceiveStart(conn: nat, start: Option<ClientFrame>, now: int, nonce: Key32, databaseUp: bool)
    | ReceiveApproval(conn: nat, approval: Option<ClientFrame>, now: int, databaseUp: bool)
    | Update(conn: nat, outcome: CommitOutcome)
    | Launch(conn: nat)

  /** `trace` is history only: no step reads it except to limit the peer to signatures that exist. */
  datatype State = State(
    up: bool, policy: Utf8, keyring: Keyring, rows: Rows, conns: map<nat, Conn>, trace: seq<Event>)

  const INITIAL := State(false, [], Unreadable, map[], map[], [])

  function At(s: State, c: nat): Conn {
    if c in s.conns then s.conns[c] else Dead
  }

  function Move(s: State, c: nat, conn: Conn): State {
    s.(conns := s.conns[c := conn])
  }

  function Record(s: State, e: Event): State {
    s.(trace := s.trace + [e])
  }

  /** Unforgeability: an approver's signature exists only once its holder has made it. */
  predicate SignatureExists(gate: Gate, s: State, frame: Option<ClientFrame>) {
    frame.Some? && frame.value.Approve? && frame.value.approverSignature.Signed?
    && frame.value.approverSignature.signer != gate.hostPublic ==>
      ApproverSigned(frame.value.approverSignature.signer, frame.value.approverSignature.over) in s.trace
  }

  function OnStart(
      gate: Gate, s: State, c: nat, start: Option<ClientFrame>, now: int, nonce: Key32, databaseUp: bool): State
  {
    if start.None? then Move(s, c, Dead)
    else
      var (reply, rows) := IssueChallenge(gate, s.policy, s.rows, start.value, now, nonce, databaseUp);
      match reply
      case Err(_) => Move(s.(rows := rows), c, Dead)
      case Ok(challenge) => Record(Move(s.(rows := rows), c, AwaitApprove(challenge)), Issued(c, challenge.manifest))
  }

  function OnApproval(
      gate: Gate, s: State, c: nat, challenge: SignedManifest, approval: Option<ClientFrame>, now: int, databaseUp: bool)
    : State
  {
    if approval.None? || !approval.value.Approve? then Move(s, c, Dead)
    else
      var Approve(signed, approver, signature) := approval.value;
      if signed != challenge then Move(s, c, Dead)
      else
        var verified := VerifyApproval(gate, s.policy, s.keyring, signed, approver, signature, now);
        if verified.Err? || !databaseUp then Move(s, c, Dead)
        else if SelectPending(s.rows, signed.manifest.requestId, verified.value, now).Err? then Move(s, c, Dead)
        else
          Record(Move(s, c, Selected(signed.manifest, now)),
                 Verified(c, signed.manifest, verified.value, approver, s.keyring, now))
  }

  function OnUpdate(s: State, c: nat, m: Manifest, now: int, outcome: CommitOutcome): State {
    var (changed, rows) := ConsumePending(s.rows, m.requestId, now);
    if changed != 1 || outcome.RolledBack? then Move(s, c, Dead)
    else if outcome.DurableButFailed? then Move(s.(rows := rows), c, Dead)
    else Record(Move(s.(rows := rows), c, Approved(m)), Committed(c, m.requestId))
  }

  /** One step; an action that is not possible in `s` changes nothing. */
  function Step(gate: Gate, s: State, a: Action): State {
    match a
    case Boot(policy) => if s.up then s else s.(up := true, policy := policy)
    case Crash => s.(up := false, conns := map c <- s.conns :: Dead)
    case SetKeyring(keyring) => s.(keyring := keyring)
    case ApproverSigns(key, message) => Record(s, ApproverSigned(key, message))
    case Accept(c) => if s.up && c !in s.conns then Move(s, c, AwaitStart) else s
    case Hangup(c) => if c in s.conns then Move(s, c, Dead) else s
    case ReceiveStart(c, start, now, nonce, databaseUp) =>
      if At(s, c).AwaitStart? then OnStart(gate, s, c, start, now, nonce, databaseUp) else s
    case ReceiveApproval(c, approval, now, databaseUp) =>
      if At(s, c).AwaitApprove? && SignatureExists(gate, s, approval)
      then OnApproval(gate, s, c, s.conns[c].challenge, approval, now, databaseUp) else s
    case Update(c, outcome) =>
      if At(s, c).Selected? then OnUpdate(s, c, s.conns[c].manifest, s.conns[c].now, outcome) else s
    case Launch(c) =>
      if At(s, c).Approved? && gate.canonical(s.conns[c].manifest).Some?
      then Record(Move(s, c, Running(s.conns[c].manifest)), Launched(c, s.conns[c].manifest)) else s
  }

  function Run(gate: Gate, s: State, actions: seq<Action>): State {
    if actions == [] then s
    else Step(gate, Run(gate, s, actions[..|actions| - 1]), actions[|actions| - 1])
  }

  // ---- What must have happened, in order ----

  /** Some step checked this manifest for this connection, after it was issued there and signed by an enrolled key. */
  ghost predicate VerifiedIn(gate: Gate, p: seq<Event>, c: nat, m: Manifest) {
    exists v :: 0 <= v < |p| && VerifiedAt(gate, p, v, c, m)
  }

  ghost predicate VerifiedAt(gate: Gate, p: seq<Event>, v: nat, c: nat, m: Manifest)
    requires v < |p|
  {
    && p[v].Verified? && p[v].conn == c && p[v].manifest == m
    && gate.canonical(m) == Some(p[v].message)
    && Classify(m.operation).Ok?
    && p[v].now <= m.expiresAt
    && Usable(p[v].keyring, p[v].approver)
    && Issued(c, m) in p[..v]
    && (p[v].approver == gate.hostPublic || ApproverSigned(p[v].approver, p[v].message) in p[..v])
  }

  ghost predicate CommittedIn(gate: Gate, p: seq<Event>, c: nat, m: Manifest) {
    exists k :: 0 <= k < |p| && p[k] == Committed(c, m.requestId) && VerifiedIn(gate, p[..k], c, m)
  }

  lemma VerifiedStays(gate: Gate, p: seq<Event>, q: seq<Event>, c: nat, m: Manifest)
    requires p <= q && VerifiedIn(gate, p, c, m)
    ensures VerifiedIn(gate, q, c, m)
  {
    var v :| 0 <= v < |p| && VerifiedAt(gate, p, v, c, m);
    assert p[..v] == q[..v];
    assert VerifiedAt(gate, q, v, c, m);
  }

  lemma CommittedStays(gate: Gate, p: seq<Event>, q: seq<Event>, c: nat, m: Manifest)
    requires p <= q && CommittedIn(gate, p, c, m)
    ensures CommittedIn(gate, q, c, m) && Committed(c, m.requestId) in p
  {
    var k :| 0 <= k < |p| && p[k] == Committed(c, m.requestId) && VerifiedIn(gate, p[..k], c, m);
    assert p[..k] == q[..k];
    assert q[k] == p[k];
  }

  /** What a step may do to the table: add rows, and consume pending ones. */
  ghost predicate RowsGrow(before: Rows, after: Rows) {
    forall id <- before :: id in after && RowMoves(before[id], after[id])
  }

  ghost predicate RowMoves(before: Row, after: Row) {
    || after == before
    || (before.status.Pending? && after.consumedAt.Some?
        && after == before.(status := Consumed, consumedAt := after.consumedAt))
  }

  // ---- Invariants ----

  /** Every issued manifest owns a row, and no request id or connection was used twice. */
  ghost predicate IssuesOk(gate: Gate, s: State) {
    && (forall c, m :: Issued(c, m) in s.trace ==>
          && c in s.conns && !s.conns[c].AwaitStart?
          && m.requestId in s.rows
          && gate.canonical(m) == Some(s.rows[m.requestId].manifest)
          && s.rows[m.requestId].expiresAt == m.expiresAt)
    && (forall c, m, d, n | Issued(c, m) in s.trace && Issued(d, n) in s.trace ::
          m.requestId == n.requestId || c == d ==> c == d && m == n)
  }

  ghost predicate ConnOk(gate: Gate, s: State, c: nat)
    requires c in s.conns
  {
    match s.conns[c]
    case AwaitApprove(challenge) => Issued(c, challenge.manifest) in s.trace
    case Selected(m, _) => VerifiedIn(gate, s.trace, c, m) && Issued(c, m) in s.trace
    case Approved(m) =>
      && CommittedIn(gate, s.trace, c, m)
      && forall d, n :: Launched(d, n) in s.trace ==> n.requestId != m.requestId
    case Running(m) => Launched(c, m) in s.trace
    case _ => true
  }

  ghost predicate CommitsOk(s: State) {
    && (forall c, id :: Committed(c, id) in s.trace ==> id in s.rows && s.rows[id].status.Consumed?)
    && (forall i, j :: 0 <= i < j < |s.trace| && s.trace[i].Committed? && s.trace[j].Committed?
                       ==> s.trace[i].requestId != s.trace[j].requestId)
  }

  ghost predicate LaunchesOk(gate: Gate, s: State) {
    && (forall e :: 0 <= e < |s.trace| && s.trace[e].Launched? ==>
          CommittedIn(gate, s.trace[..e], s.trace[e].conn, s.trace[e].manifest))
    && (forall i, j :: 0 <= i < j < |s.trace| && s.trace[i].Launched? && s.trace[j].Launched?
                       ==> s.trace[i].manifest.requestId != s.trace[j].manifest.requestId)
  }

  ghost predicate Inv(gate: Gate, s: State) {
    IssuesOk(gate, s) && (forall c <- s.conns :: ConnOk(gate, s, c)) && CommitsOk(s) && LaunchesOk(gate, s)
  }

  /** A connection that did not move keeps its claim when the trace grows by something other than a launch. */
  lemma UnmovedConn(gate: Gate, s: State, t: State, c: nat)
    requires c in s.conns && c in t.conns && t.conns[c] == s.conns[c] && ConnOk(gate, s, c)
    requires s.trace <= t.trace
    requires forall i :: |s.trace| <= i < |t.trace| ==> !t.trace[i].Launched?
    ensures ConnOk(gate, t, c)
  {
    assert forall e :: e in s.trace ==> e in t.trace;
    match s.conns[c]
    case Selected(m, _) => VerifiedStays(gate, s.trace, t.trace, c, m);
    case Approved(m) =>
      CommittedStays(gate, s.trace, t.trace, c, m);
      forall d, n | Launched(d, n) in t.trace ensures n.requestId != m.requestId {
        assert Launched(d, n) in s.trace;
      }
    case _ =>
  }

  lemma LaunchesKept(gate: Gate, s: State, t: State)
    requires LaunchesOk(gate, s) && s.trace <= t.trace
    requires forall i :: |s.trace| <= i < |t.trace| ==> !t.trace[i].Launched?
    ensures LaunchesOk(gate, t)
  {
    forall e | 0 <= e < |t.trace| && t.trace[e].Launched?
      ensures CommittedIn(gate, t.trace[..e], t.trace[e].conn, t.trace[e].manifest)
    {
      assert t.trace[..e] == s.trace[..e];
    }
  }

  /** Steps that only end connections, open one, or change the environment. */
  lemma QuietStep(gate: Gate, s: State, t: State)
    requires Inv(gate, s) && t.trace == s.trace && t.rows == s.rows && s.conns.Keys <= t.conns.Keys
    requires forall c <- t.conns :: t.conns[c].Dead? || (c in s.conns && t.conns[c] == s.conns[c])
                                    || (c !in s.conns && t.conns[c].AwaitStart?)
    ensures Inv(gate, t)
  {
    forall c <- t.conns ensures ConnOk(gate, t, c) {
      if c in s.conns && t.conns[c] == s.conns[c] { UnmovedConn(gate, s, t, c); }
    }
  }

  lemma SigningStep(gate: Gate, s: State, key: Key32, message: Bytes)
    requires Inv(gate, s)
    ensures Inv(gate, Record(s, ApproverSigned(key, message)))
  {
    var t := Record(s, ApproverSigned(key, message));
    forall c <- t.conns ensures ConnOk(gate, t, c) { UnmovedConn(gate, s, t, c); }
    LaunchesKept(gate, s, t);
  }

  /** A fresh request id on a connection that has issued nothing yet. */
  lemma IssueCounted(gate: Gate, s: State, t: State, c: nat, m: Manifest)
    requires IssuesOk(gate, s) && t.trace == s.trace + [Issued(c, m)]
    requires At(s, c).AwaitStart? && m.requestId !in s.rows
    requires c in t.conns && t.conns == s.conns[c := t.conns[c]] && !t.conns[c].AwaitStart?
    requires m.requestId in t.rows && t.rows == s.rows[m.requestId := t.rows[m.requestId]]
    requires gate.canonical(m) == Some(t.rows[m.requestId].manifest) && t.rows[m.requestId].expiresAt == m.expiresAt
    ensures IssuesOk(gate, t)
  {
    forall d: nat, n | Issued(d, n) in t.trace && (d, n) != (c, m)
      ensures Issued(d, n) in s.trace && d != c && n.requestId != m.requestId
    {
    }
  }

  lemma StartIs(gate: Gate, s: State, c: nat, start: ClientFrame, now: int, nonce: Key32)
    requires IssueChallenge(gate, s.policy, s.rows, start, now, nonce, true).0.Ok?
    ensures var (reply, rows) := IssueChallenge(gate, s.policy, s.rows, start, now, nonce, true);
            var m := reply.value.manifest;
            && OnStart(gate, s, c, Some(start), now, nonce, true)
               == Record(Move(s.(rows := rows), c, AwaitApprove(reply.value)), Issued(c, m))
            && m.requestId !in s.rows && gate.canonical(m).Some?
            && rows == s.rows[m.requestId := Row(gate.canonical(m).value, Pending, m.expiresAt, None)]
  {
  }

  lemma StartStep(gate: Gate, s: State, c: nat, start: ClientFrame, now: int, nonce: Key32)
    requires Inv(gate, s) && At(s, c).AwaitStart?
    requires IssueChallenge(gate, s.policy, s.rows, start, now, nonce, true).0.Ok?
    ensures Inv(gate, OnStart(gate, s, c, Some(start), now, nonce, true))
  {
    var t := OnStart(gate, s, c, Some(start), now, nonce, true);
    StartIs(gate, s, c, start, now, nonce);
    var m := t.conns[c].challenge.manifest;
    IssueCounted(gate, s, t, c, m);
    forall d <- t.conns ensures ConnOk(gate, t, d) {
      if d != c { UnmovedConn(gate, s, t, d); } else { assert t.trace[|s.trace|] == Issued(c, m); }
    }
    LaunchesKept(gate, s, t);
    CommitsKept(gate, s, t);
  }

  /** What the checks of `approve` leave in the trace. */
  lemma JustVerified(
      gate: Gate, s: State, c: nat, challenge: SignedManifest, approver: Key32, signature: Signature, now: int)
    requires Issued(c, challenge.manifest) in s.trace
    requires SignatureExists(gate, s, Some(Approve(challenge, approver, signature)))
    requires VerifyApproval(gate, s.policy, s.keyring, challenge, approver, signature, now).Ok?
    ensures var message := VerifyApproval(gate, s.policy, s.keyring, challenge, approver, signature, now).value;
            VerifiedIn(gate, s.trace + [Verified(c, challenge.manifest, message, approver, s.keyring, now)],
                       c, challenge.manifest)
  {
    var message := VerifyApproval(gate, s.policy, s.keyring, challenge, approver, signature, now).value;
    var q := s.trace + [Verified(c, challenge.manifest, message, approver, s.keyring, now)];
    UsableIsLoaded(s.keyring, approver);
    assert q[..|s.trace|] == s.trace;
    assert VerifiedAt(gate, q, |s.trace|, c, challenge.manifest);
  }

  lemma ApprovalStep(
      gate: Gate, s: State, c: nat, challenge: SignedManifest, approver: Key32, signature: Signature, now: int)
    requires Inv(gate, s) && At(s, c) == AwaitApprove(challenge)
    requires SignatureExists(gate, s, Some(Approve(challenge, approver, signature)))
    requires VerifyApproval(gate, s.policy, s.keyring, challenge, approver, signature, now).Ok?
    ensures var message := VerifyApproval(gate, s.policy, s.keyring, challenge, approver, signature, now).value;
            Inv(gate, Record(Move(s, c, Selected(challenge.manifest, now)),
                             Verified(c, challenge.manifest, message, approver, s.keyring, now)))
  {
    var m := challenge.manifest;
    var message := VerifyApproval(gate, s.policy, s.keyring, challenge, approver, signature, now).value;
    assert ConnOk(gate, s, c);
    JustVerified(gate, s, c, challenge, approver, signature, now);
    SelectedKeepsInv(gate, s, c, m, now, Verified(c, m, message, approver, s.keyring, now));
  }

  lemma SelectedKeepsInv(gate: Gate, s: State, c: nat, m: Manifest, now: int, e: Event)
    requires Inv(gate, s) && c in s.conns && !s.conns[c].AwaitStart? && e.Verified?
    requires Issued(c, m) in s.trace && VerifiedIn(gate, s.trace + [e], c, m)
    ensures Inv(gate, Record(Move(s, c, Selected(m, now)), e))
  {
    var t := Record(Move(s, c, Selected(m, now)), e);
    forall d <- t.conns ensures ConnOk(gate, t, d) {
      if d != c { UnmovedConn(gate, s, t, d); } else { assert Issued(c, m) in t.trace; }
    }
    LaunchesKept(gate, s, t);
    IssuesKept(gate, s, t);
    CommitsKept(gate, s, t);
  }

  /** The guarded UPDATE: the row was pending, so nobody committed or launched it before. */
  lemma JustCommitted(gate: Gate, s: State, c: nat)
    requires Inv(gate, s) && At(s, c).Selected?
    requires var m := s.conns[c].manifest; m.requestId in s.rows && s.rows[m.requestId].status.Pending?
    ensures var m := s.conns[c].manifest;
            var q := s.trace + [Committed(c, m.requestId)];
            CommittedIn(gate, q, c, m) && forall d, n :: Launched(d, n) in q ==> n.requestId != m.requestId
  {
    var m := s.conns[c].manifest;
    var q := s.trace + [Committed(c, m.requestId)];
    assert ConnOk(gate, s, c);
    assert q[|s.trace|] == Committed(c, m.requestId) && q[..|s.trace|] == s.trace;
    forall d, n | Launched(d, n) in q ensures n.requestId != m.requestId {
      LaunchedIsConsumed(gate, s, d, n);
    }
  }

  lemma CommitsKept(gate: Gate, s: State, t: State)
    requires CommitsOk(s) && s.trace <= t.trace && RowsGrow(s.rows, t.rows)
    requires forall i :: |s.trace| <= i < |t.trace| ==> !t.trace[i].Committed?
    ensures CommitsOk(t)
  {
    assert forall c, id :: Committed(c, id) in t.trace ==> Committed(c, id) in s.trace;
  }

  lemma CommitCounted(s: State, t: State, c: nat, id: Utf8)
    requires CommitsOk(s) && RowsGrow(s.rows, t.rows) && t.trace == s.trace + [Committed(c, id)]
    requires id in s.rows && s.rows[id].status.Pending? && t.rows[id].status.Consumed?
    ensures CommitsOk(t)
  {
    forall d, x | Committed(d, x) in t.trace ensures x in t.rows && t.rows[x].status.Consumed? {
      if Committed(d, x) != Committed(c, id) { assert Committed(d, x) in s.trace; }
    }
    forall i | 0 <= i < |s.trace| && s.trace[i].Committed? ensures s.trace[i].requestId != id {
      assert Committed(s.trace[i].conn, s.trace[i].requestId) in s.trace;
    }
  }

  /** What `OnUpdate` comes to: the end of the connection, with or without the row consumed, or an approval. */
  lemma UpdateIs(s: State, c: nat, m: Manifest, now: int, outcome: CommitOutcome)
    ensures var id, t := m.requestId, OnUpdate(s, c, m, now, outcome);
            if id !in s.rows || !s.rows[id].status.Pending? || outcome.RolledBack? then t == Move(s, c, Dead)
            else
              var rows := s.rows[id := s.rows[id].(status := Consumed, consumedAt := Some(now))];
              if outcome.DurableButFailed? then t == Move(s.(rows := rows), c, Dead)
              else t == Record(Move(s.(rows := rows), c, Approved(m)), Committed(c, id))
  {
  }

  /** The row is consumed, but the connection never learns of it. */
  lemma UpdateUnnoticed(gate: Gate, s: State, c: nat, rows: Rows)
    requires Inv(gate, s) && At(s, c).Selected?
    requires RowsGrow(s.rows, rows)
    ensures Inv(gate, Move(s.(rows := rows), c, Dead))
  {
    var t := Move(s.(rows := rows), c, Dead);
    forall d <- t.conns | d != c ensures ConnOk(gate, t, d) { UnmovedConn(gate, s, t, d); }
    LaunchesKept(gate, s, t);
    IssuesKept(gate, s, t);
    CommitsKept(gate, s, t);
  }

  /** The connection's commit enters the trace; every other connection keeps its claim. */
  lemma ApprovedConns(gate: Gate, s: State, t: State, c: nat, m: Manifest)
    requires forall d <- s.conns :: ConnOk(gate, s, d)
    requires t.conns == s.conns[c := Approved(m)] && t.trace == s.trace + [Committed(c, m.requestId)]
    requires CommittedIn(gate, t.trace, c, m) && forall d, n :: Launched(d, n) in t.trace ==> n.requestId != m.requestId
    ensures forall d <- t.conns :: ConnOk(gate, t, d)
  {
    forall d <- t.conns | d != c ensures ConnOk(gate, t, d) { UnmovedConn(gate, s, t, d); }
  }

  lemma UpdateApproves(gate: Gate, s: State, c: nat, m: Manifest, rows: Rows)
    requires Inv(gate, s) && At(s, c).Selected? && s.conns[c].manifest == m
    requires m.requestId in s.rows && s.rows[m.requestId].status.Pending?
    requires m.requestId in rows && rows[m.requestId].status.Consumed? && RowsGrow(s.rows, rows)
    ensures Inv(gate, Record(Move(s.(rows := rows), c, Approved(m)), Committed(c, m.requestId)))
  {
    var t := Record(Move(s.(rows := rows), c, Approved(m)), Committed(c, m.requestId));
    assert forall d <- t.conns :: ConnOk(gate, t, d) by {
      JustCommitted(gate, s, c);
      ApprovedConns(gate, s, t, c, m);
    }
    assert LaunchesOk(gate, t) by { LaunchesKept(gate, s, t); }
    assert IssuesOk(gate, t) by { IssuesKept(gate, s, t); }
    assert CommitsOk(t) by { CommitCounted(s, t, c, m.requestId); }
  }

  lemma UpdateStep(gate: Gate, s: State, c: nat, outcome: CommitOutcome)
    requires Inv(gate, s) && At(s, c).Selected?
    ensures Inv(gate, OnUpdate(s, c, s.conns[c].manifest, s.conns[c].now, outcome))
  {
    var m, now := s.conns[c].manifest, s.conns[c].now;
    var id := m.requestId;
    UpdateIs(s, c, m, now, outcome);
    if id !in s.rows || !s.rows[id].status.Pending? || outcome.RolledBack? {
      QuietStep(gate, s, Move(s, c, Dead));
    } else {
      var rows := s.rows[id := s.rows[id].(status := Consumed, consumedAt := Some(now))];
      if outcome.DurableButFailed? {
        UpdateUnnoticed(gate, s, c, rows);
      } else {
        UpdateApproves(gate, s, c, m, rows);
      }
    }
  }

  lemma IssuesKept(gate: Gate, s: State, t: State)
    requires IssuesOk(gate, s) && s.trace <= t.trace
    requires forall i :: |s.trace| <= i < |t.trace| ==> !t.trace[i].Issued?
    requires RowsGrow(s.rows, t.rows)
    requires forall c <- s.conns :: c in t.conns && (t.conns[c].AwaitStart? ==> s.conns[c].AwaitStart?)
    ensures IssuesOk(gate, t)
  {
    assert forall c, m :: Issued(c, m) in t.trace ==> Issued(c, m) in s.trace;
  }

  lemma LaunchedIsConsumed(gate: Gate, s: State, c: nat, m: Manifest)
    requires Inv(gate, s) && Launched(c, m) in s.trace
    ensures m.requestId in s.rows && s.rows[m.requestId].status.Consumed?
    ensures CommittedIn(gate, s.trace, c, m)
  {
    var e :| 0 <= e < |s.trace| && s.trace[e] == Launched(c, m);
    CommittedStays(gate, s.trace[..e], s.trace, c, m);
    assert Committed(c, m.requestId) in s.trace;
  }

  /** The same request id cannot wait to be launched on two connections. */
  lemma OneApprovedConn(gate: Gate, s: State, c: nat, d: nat)
    requires Inv(gate, s) && At(s, c).Approved? && At(s, d).Approved? && c != d
    ensures s.conns[c].manifest.requestId != s.conns[d].manifest.requestId
  {
    assert ConnOk(gate, s, c) && ConnOk(gate, s, d);
    CommittedStays(gate, s.trace, s.trace, c, s.conns[c].manifest);
    CommittedStays(gate, s.trace, s.trace, d, s.conns[d].manifest);
    var i :| 0 <= i < |s.trace| && s.trace[i] == Committed(c, s.conns[c].manifest.requestId);
    var j :| 0 <= j < |s.trace| && s.trace[j] == Committed(d, s.conns[d].manifest.requestId);
    assert i != j;
  }

  lemma ApprovedConnKept(gate: Gate, s: State, t: State, c: nat, d: nat)
    requires Inv(gate, s) && At(s, c).Approved? && At(s, d).Approved? && c != d
    requires d in t.conns && t.conns[d] == s.conns[d] && t.trace == s.trace + [Launched(c, s.conns[c].manifest)]
    ensures ConnOk(gate, t, d)
  {
    assert ConnOk(gate, s, d);
    OneApprovedConn(gate, s, c, d);
    CommittedStays(gate, s.trace, t.trace, d, t.conns[d].manifest);
    forall x, n | Launched(x, n) in t.trace ensures n.requestId != t.conns[d].manifest.requestId {
      if Launched(x, n) != Launched(c, s.conns[c].manifest) { assert Launched(x, n) in s.trace; }
    }
  }

  lemma LaunchConns(gate: Gate, s: State, c: nat)
    requires Inv(gate, s) && At(s, c).Approved?
    ensures var t := Record(Move(s, c, Running(s.conns[c].manifest)), Launched(c, s.conns[c].manifest));
            forall d <- t.conns :: ConnOk(gate, t, d)
  {
    var m := s.conns[c].manifest;
    var t := Record(Move(s, c, Running(m)), Launched(c, m));
    assert t.trace[|s.trace|] == Launched(c, m);
    forall d <- t.conns | d != c ensures ConnOk(gate, t, d) {
      assert ConnOk(gate, s, d);
      if t.conns[d].Approved? {
        ApprovedConnKept(gate, s, t, c, d);
      } else {
        QuietConn(gate, s, t, d);
      }
    }
  }

  lemma LaunchTrace(gate: Gate, s: State, c: nat)
    requires Inv(gate, s) && At(s, c).Approved?
    ensures LaunchesOk(gate, Record(Move(s, c, Running(s.conns[c].manifest)), Launched(c, s.conns[c].manifest)))
  {
    var m := s.conns[c].manifest;
    var t := Record(Move(s, c, Running(m)), Launched(c, m));
    assert ConnOk(gate, s, c);
    forall e | 0 <= e < |t.trace| && t.trace[e].Launched?
      ensures CommittedIn(gate, t.trace[..e], t.trace[e].conn, t.trace[e].manifest)
    {
      assert t.trace[..e] == s.trace[..e];
      if e == |s.trace| { assert s.trace[..e] == s.trace; }
    }
    forall i | 0 <= i < |s.trace| && s.trace[i].Launched?
      ensures s.trace[i].manifest.requestId != m.requestId
    {
      assert Launched(s.trace[i].conn, s.trace[i].manifest) in s.trace;
    }
  }

  lemma LaunchStep(gate: Gate, s: State, c: nat)
    requires Inv(gate, s) && At(s, c).Approved?
    ensures Inv(gate, Record(Move(s, c, Running(s.conns[c].manifest)), Launched(c, s.conns[c].manifest)))
  {
    var m := s.conns[c].manifest;
    var t := Record(Move(s, c, Running(m)), Launched(c, m));
    LaunchConns(gate, s, c);
    LaunchTrace(gate, s, c);
    IssuesKept(gate, s, t);
    CommitsKept(gate, s, t);
  }

  lemma QuietConn(gate: Gate, s: State, t: State, c: nat)
    requires c in s.conns && c in t.conns && t.conns[c] == s.conns[c] && ConnOk(gate, s, c)
    requires s.trace <= t.trace && !s.conns[c].Approved?
    ensures ConnOk(gate, t, c)
  {
    assert forall e :: e in s.trace ==> e in t.trace;
    if s.conns[c].Selected? { VerifiedStays(gate, s.trace, t.trace, c, s.conns[c].manifest); }
  }

  lemma RefusedStart(
      gate: Gate, s: State, c: nat, start: ClientFrame, now: int, nonce: Key32, databaseUp: bool)
    requires IssueChallenge(gate, s.policy, s.rows, start, now, nonce, databaseUp).0.Err?
    ensures OnStart(gate, s, c, Some(start), now, nonce, databaseUp) == Move(s, c, Dead)
  {
  }

  lemma IssuedStart(gate: Gate, s: State, c: nat, start: ClientFrame, now: int, nonce: Key32, databaseUp: bool)
    requires IssueChallenge(gate, s.policy, s.rows, start, now, nonce, databaseUp).0.Ok?
    ensures databaseUp
  {
  }

  lemma OnStartKeepsInv(
      gate: Gate, s: State, c: nat, start: Option<ClientFrame>, now: int, nonce: Key32, databaseUp: bool)
    requires Inv(gate, s) && At(s, c).AwaitStart?
    ensures Inv(gate, OnStart(gate, s, c, start, now, nonce, databaseUp))
  {
    if start.None? {
      QuietStep(gate, s, Move(s, c, Dead));
    } else if IssueChallenge(gate, s.policy, s.rows, start.value, now, nonce, databaseUp).0.Err? {
      RefusedStart(gate, s, c, start.value, now, nonce, databaseUp);
      QuietStep(gate, s, Move(s, c, Dead));
    } else {
      IssuedStart(gate, s, c, start.value, now, nonce, databaseUp);
      StartStep(gate, s, c, start.value, now, nonce);
    }
  }

  lemma OnApprovalKeepsInv(
      gate: Gate, s: State, c: nat, approval: Option<ClientFrame>, now: int, databaseUp: bool)
    requires Inv(gate, s) && At(s, c).AwaitApprove? && SignatureExists(gate, s, approval)
    ensures Inv(gate, OnApproval(gate, s, c, s.conns[c].challenge, approval, now, databaseUp))
  {
    var challenge := s.conns[c].challenge;
    if OnApproval(gate, s, c, challenge, approval, now, databaseUp) == Move(s, c, Dead) {
      QuietStep(gate, s, Move(s, c, Dead));
    } else {
      ApprovalStep(gate, s, c, challenge, approval.value.approverPublic, approval.value.approverSignature, now);
    }
  }

  /** Steps of the environment, and the two ends of a connection's life. */
  predicate IsQuiet(a: Action) {
    a.Boot? || a.Crash? || a.SetKeyring? || a.Accept? || a.Hangup?
  }

  lemma QuietActionKeepsInv(gate: Gate, s: State, a: Action)
    requires Inv(gate, s) && IsQuiet(a)
    ensures Inv(gate, Step(gate, s, a))
  {
    QuietStep(gate, s, Step(gate, s, a));
  }

  lemma StepKeepsInv(gate: Gate, s: State, a: Action)
    requires Inv(gate, s)
    ensures Inv(gate, Step(gate, s, a))
  {
    if IsQuiet(a) {
      QuietActionKeepsInv(gate, s, a);
    } else {
      match a
      case ApproverSigns(key, message) => SigningStep(gate, s, key, message);
      case ReceiveStart(c, start, now, nonce, databaseUp) =>
        if At(s, c).AwaitStart? { OnStartKeepsInv(gate, s, c, start, now, nonce, databaseUp); }
      case ReceiveApproval(c, approval, now, databaseUp) =>
        if At(s, c).AwaitApprove? && SignatureExists(gate, s, approval) {
          OnApprovalKeepsInv(gate, s, c, approval, now, databaseUp);
        }
      case Update(c, outcome) => if At(s, c).Selected? { UpdateStep(gate, s, c, outcome); }
      case Launch(c) =>
        if At(s, c).Approved? && gate.canonical(s.conns[c].manifest).Some? { LaunchStep(gate, s, c); }
    }
  }

  lemma {:induction false} RunKeepsInv(gate: Gate, s: State, actions: seq<Action>)
    requires Inv(gate, s)
    ensures Inv(gate, Run(gate, s, actions))
  {
    if actions == [] {
    } else {
      RunKeepsInv(gate, s, actions[..|actions| - 1]);
      StepKeepsInv(gate, Run(gate, s, actions[..|actions| - 1]), actions[|actions| - 1]);
    }
  }

  lemma ReachableInv(gate: Gate, actions: seq<Action>)
    ensures Inv(gate, Run(gate, INITIAL, actions))
  {
    RunKeepsInv(gate, INITIAL, actions);
  }

  // ---- Runs that get through ----

  lemma RunSnoc(gate: Gate, s: State, actions: seq<Action>, a: Action)
    ensures Run(gate, s, actions + [a]) == Step(gate, Run(gate, s, actions), a)
  {
    assert (actions + [a])[..|actions|] == actions;
  }

  lemma RunThree(gate: Gate, s: State, q: seq<Action>)
    requires |q| == 3
    ensures Run(gate, s, q) == Step(gate, Step(gate, Step(gate, s, q[0]), q[1]), q[2])
  {
    assert q == [] + [q[0]] + [q[1]] + [q[2]];
    RunSnoc(gate, s, [], q[0]);
    RunSnoc(gate, s, [] + [q[0]], q[1]);
    RunSnoc(gate, s, [] + [q[0]] + [q[1]], q[2]);
  }

  /** A restart of the gate ends every connection, keeps the table and the trace, and takes up again. */
  lemma RestartIs(gate: Gate, s: State, policy: Utf8, keyring: Keyring)
    ensures var t := Run(gate, s, [Crash, Action.Boot(policy), SetKeyring(keyring)]);
            && t.up && t.policy == policy && t.keyring == keyring && t.rows == s.rows && t.trace == s.trace
            && t.conns.Keys == s.conns.Keys && forall c <- t.conns :: t.conns[c].Dead?
  {
    RunThree(gate, s, [Crash, Action.Boot(policy), SetKeyring(keyring)]);
  }

  /** The challenge for a manifest, signed by the host. */
  function ChallengeOf(gate: Gate, m: Manifest): SignedManifest
    requires gate.canonical(m).Some?
  {
    SignedManifest(m, gate.hostPublic, Signed(gate.hostPublic, gate.canonical(m).value, []))
  }

  /** What connection, client and approver do for one operation. */
  function HonestActions(
      gate: Gate, c: nat, start: ClientFrame, issued: int, nonce: Key32, m: Manifest,
      approver: Key32, encoding: Bytes, approved: int): seq<Action>
    requires gate.canonical(m).Some?
  {
    var message := gate.canonical(m).value;
    [Accept(c), ReceiveStart(c, Some(start), issued, nonce, true), ApproverSigns(approver, message),
     ReceiveApproval(c, Some(Approve(ChallengeOf(gate, m), approver, Signed(approver, message, encoding))), approved, true),
     Update(c, Durable), Launch(c)]
  }

  /** The circumstances under which a request can be answered, approved and run. */
  ghost predicate CanRun(
      gate: Gate, s: State, c: nat, start: ClientFrame, issued: int, nonce: Key32, m: Manifest, approver: Key32, approved: int)
  {
    && s.up && c !in s.conns
    && start.Start? && WellFormedId(start.requestId) && start.requestId !in s.rows && Allowed(start.operation)
    && IsManifestFor(m, gate, s.policy, start, issued, nonce) && gate.canonical(m).Some?
    && Usable(s.keyring, approver) && gate.isPoint(approver)
    && approved <= issued + Lifetime(start.operation)
  }

  /** Accept and Start: the connection waits with the challenge for exactly this manifest. */
  lemma StartAnswered(
      gate: Gate, s: State, c: nat, start: ClientFrame, issued: int, nonce: Key32, m: Manifest, approver: Key32, approved: int)
    requires CanRun(gate, s, c, start, issued, nonce, m, approver, approved)
    ensures Step(gate, Step(gate, s, Accept(c)), ReceiveStart(c, Some(start), issued, nonce, true))
            == s.(rows := s.rows[start.requestId := Row(gate.canonical(m).value, Pending, m.expiresAt, None)],
                  conns := s.conns[c := AwaitApprove(ChallengeOf(gate, m))],
                  trace := s.trace + [Issued(c, m)])
  {
    ChallengeIssuedIff(gate, s.policy, s.rows, start, issued, nonce, true, m);
    assert s.conns[c := AwaitStart][c := AwaitApprove(ChallengeOf(gate, m))]
        == s.conns[c := AwaitApprove(ChallengeOf(gate, m))];
  }

  /** A signed approval of the waiting challenge passes every check. */
  lemma ApprovalChecked(gate: Gate, s: State, c: nat, m: Manifest, approver: Key32, encoding: Bytes, approved: int)
    requires gate.canonical(m).Some? && At(s, c) == AwaitApprove(ChallengeOf(gate, m))
    requires ApproverSigned(approver, gate.canonical(m).value) in s.trace
    requires m.version == gate.protocolVersion && m.hostId == HostId(gate) && m.policyVersion == s.policy
    requires Allowed(m.operation) && Usable(s.keyring, approver) && gate.isPoint(approver) && approved <= m.expiresAt
    requires m.requestId in s.rows && s.rows[m.requestId] == Row(gate.canonical(m).value, Pending, m.expiresAt, None)
    ensures var message := gate.canonical(m).value;
            Step(gate, s, ReceiveApproval(
              c, Some(Approve(ChallengeOf(gate, m), approver, Signed(approver, message, encoding))), approved, true))
            == Record(Move(s, c, Selected(m, approved)), Verified(c, m, message, approver, s.keyring, approved))
  {
    AllowedIff(m.operation);
    UsableIsLoaded(s.keyring, approver);
  }

  /** One step before the start the connection holds the approved manifest. */
  lemma ApprovedBeforeLaunch(
      gate: Gate, s: State, c: nat, start: ClientFrame, issued: int, nonce: Key32, m: Manifest,
      approver: Key32, encoding: Bytes, approved: int)
    requires CanRun(gate, s, c, start, issued, nonce, m, approver, approved)
    ensures At(Run(gate, s, HonestActions(gate, c, start, issued, nonce, m, approver, encoding, approved)[..5]), c)
            == Approved(m)
  {
    var message := gate.canonical(m).value;
    var q := HonestActions(gate, c, start, issued, nonce, m, approver, encoding, approved);
    HonestPrefix(gate, s, q);
    StartAnswered(gate, s, c, start, issued, nonce, m, approver, approved);
    var s3 := Step(gate, Step(gate, Step(gate, s, q[0]), q[1]), q[2]);
    assert s3.trace[|s3.trace| - 1] == ApproverSigned(approver, message);
    ApprovalChecked(gate, s3, c, m, approver, encoding, approved);
    CommitAndLaunch(gate, Step(gate, s3, q[3]), c, m, approved);
  }

  lemma CommitAndLaunch(gate: Gate, s: State, c: nat, m: Manifest, approved: int)
    requires gate.canonical(m).Some? && At(s, c) == Selected(m, approved)
    requires m.requestId in s.rows && s.rows[m.requestId].status.Pending?
    ensures At(Step(gate, s, Update(c, Durable)), c) == Approved(m)
    ensures Step(gate, Step(gate, s, Update(c, Durable)), Launch(c))
            == s.(rows := s.rows[m.requestId := s.rows[m.requestId].(status := Consumed, consumedAt := Some(approved))],
                  conns := s.conns[c := Running(m)],
                  trace := s.trace + [Committed(c, m.requestId), Launched(c, m)])
  {
    var t := Step(gate, s, Update(c, Durable));
    assert t.conns[c := Running(m)] == s.conns[c := Running(m)];
    assert s.trace + [Committed(c, m.requestId)] + [Launched(c, m)] == s.trace + [Committed(c, m.requestId), Launched(c, m)];
  }

  /**
   * Completeness: from any state in which the gate is up, a well-formed request
   * for an allowed operation under a new id on a new connection, signed in time by
   * an enrolled key, is issued, checked, committed and started, with exactly the
   * manifest asked for, and nothing else in the state changes.
   */
  lemma ApprovedRequestRuns(
      gate: Gate, s: State, c: nat, start: ClientFrame, issued: int, nonce: Key32, m: Manifest,
      approver: Key32, encoding: Bytes, approved: int)
    requires CanRun(gate, s, c, start, issued, nonce, m, approver, approved)
    ensures var message := gate.canonical(m).value;
            Run(gate, s, HonestActions(gate, c, start, issued, nonce, m, approver, encoding, approved))
            == s.(rows := s.rows[m.requestId := Row(message, Consumed, m.expiresAt, Some(approved))],
                  conns := s.conns[c := Running(m)],
                  trace := s.trace + [Issued(c, m), ApproverSigned(approver, message),
                                      Verified(c, m, message, approver, s.keyring, approved),
                                      Committed(c, m.requestId), Launched(c, m)])
  {
    var message := gate.canonical(m).value;
    var q := HonestActions(gate, c, start, issued, nonce, m, approver, encoding, approved);
    HonestPrefix(gate, s, q);
    StartAnswered(gate, s, c, start, issued, nonce, m, approver, approved);
    var s2 := Step(gate, Step(gate, s, q[0]), q[1]);
    var s3 := Step(gate, s2, q[2]);
    assert s3.trace[|s3.trace| - 1] == ApproverSigned(approver, message);
    ApprovalChecked(gate, s3, c, m, approver, encoding, approved);
    var s4 := Step(gate, s3, q[3]);
    CommitAndLaunch(gate, s4, c, m, approved);
    AfterHonest(s, s4, c, m, message, approver, approved);
  }

  lemma HonestPrefix(gate: Gate, s: State, q: seq<Action>)
    requires |q| == 6
    ensures Run(gate, s, q[..5])
            == Step(gate, Step(gate, Step(gate, Step(gate, Step(gate, s, q[0]), q[1]), q[2]), q[3]), q[4])
    ensures Run(gate, s, q)
            == Step(gate, Step(gate, Step(gate, Step(gate, Step(gate, Step(gate, s, q[0]), q[1]), q[2]), q[3]), q[4]), q[5])
  {
    assert q == [] + [q[0]] + [q[1]] + [q[2]] + [q[3]] + [q[4]] + [q[5]];
    assert q[..5] == [] + [q[0]] + [q[1]] + [q[2]] + [q[3]] + [q[4]];
    RunSnoc(gate, s, [], q[0]);
    RunSnoc(gate, s, [] + [q[0]], q[1]);
    RunSnoc(gate, s, [] + [q[0]] + [q[1]], q[2]);
    RunSnoc(gate, s, [] + [q[0]] + [q[1]] + [q[2]], q[3]);
    RunSnoc(gate, s, [] + [q[0]] + [q[1]] + [q[2]] + [q[3]], q[4]);
    RunSnoc(gate, s, [] + [q[0]] + [q[1]] + [q[2]] + [q[3]] + [q[4]], q[5]);
  }

  lemma AfterHonest(
      s: State, s4: State, c: nat, m: Manifest, message: Bytes, approver: Key32, approved: int)
    requires s4.rows == s.rows[m.requestId := Row(message, Pending, m.expiresAt, None)]
    requires c in s4.conns && s4.conns == s.conns[c := s4.conns[c]]
    requires s4.trace == s.trace + [Issued(c, m)] + [ApproverSigned(approver, message)]
                         + [Verified(c, m, message, approver, s.keyring, approved)]
    ensures s4.rows[m.requestId := s4.rows[m.requestId].(status := Consumed, consumedAt := Some(approved))]
            == s.rows[m.requestId := Row(message, Consumed, m.expiresAt, Some(approved))]
    ensures s4.conns[c := Running(m)] == s.conns[c := Running(m)]
    ensures s4.trace + [Committed(c, m.requestId), Launched(c, m)]
            == s.trace + [Issued(c, m), ApproverSigned(approver, message),
                          Verified(c, m, message, approver, s.keyring, approved), Committed(c, m.requestId), Launched(c, m)]
  {
  }

  /** Every challenge of a run names the gate's own transport key, so that its client can reach it. */
  ghost predicate IssuedAsAsked(gate: Gate, s: State) {
    forall c, m :: Issued(c, m) in s.trace ==> m.brokerTransport == gate.transportPublic && m.hostId == HostId(gate)
  }

  lemma StepKeepsIssued(gate: Gate, s: State, a: Action)
    requires IssuedAsAsked(gate, s)
    ensures IssuedAsAsked(gate, Step(gate, s, a))
  {
  }

  // ---- Results over whole runs ----

  /** In every interleaving `approve` succeeds at most once for a request id. */
  lemma ApprovedAtMostOnce(gate: Gate, actions: seq<Action>, i: nat, j: nat)
    requires var trace := Run(gate, INITIAL, actions).trace;
             i < |trace| && j < |trace| && trace[i].Committed? && trace[j].Committed?
             && trace[i].requestId == trace[j].requestId
    ensures i == j
  {
    ReachableInv(gate, actions);
  }

  /**
   * Every root command or PTY that starts was issued as a challenge on this very
   * connection, then checked there (allowed, unexpired, its exact bytes signed by
   * an enrolled key), then committed, in that order, before it started.
   */
  lemma LaunchIsAuthorised(gate: Gate, actions: seq<Action>, e: nat)
    requires var trace := Run(gate, INITIAL, actions).trace; e < |trace| && trace[e].Launched?
    ensures var trace := Run(gate, INITIAL, actions).trace;
            CommittedIn(gate, trace[..e], trace[e].conn, trace[e].manifest)
  {
    ReachableInv(gate, actions);
  }

  /** No keyring so far, nor any that was checked against, made the host's own key an approver. */
  ghost predicate HostIsNoApprover(gate: Gate, s: State) {
    && !Usable(s.keyring, gate.hostPublic)
    && forall e <- s.trace :: e.Verified? ==> !Usable(e.keyring, gate.hostPublic)
  }

  lemma StepKeepsHostOut(gate: Gate, s: State, a: Action)
    requires HostIsNoApprover(gate, s)
    requires a.SetKeyring? ==> !Usable(a.keyring, gate.hostPublic)
    ensures HostIsNoApprover(gate, Step(gate, s, a))
  {
  }

  lemma {:induction false} RunKeepsHostOut(gate: Gate, actions: seq<Action>)
    requires forall a <- actions :: a.SetKeyring? ==> !Usable(a.keyring, gate.hostPublic)
    ensures HostIsNoApprover(gate, Run(gate, INITIAL, actions))
  {
    if actions == [] {
    } else {
      RunKeepsHostOut(gate, actions[..|actions| - 1]);
      StepKeepsHostOut(gate, Run(gate, INITIAL, actions[..|actions| - 1]), actions[|actions| - 1]);
    }
  }

  /**
   * If no keyring of the run makes the host's own key an approver, every start was
   * signed for: before it, the holder of an enrolled key other than the host's
   * signed the exact bytes of its manifest.
   */
  lemma LaunchWasSigned(gate: Gate, actions: seq<Action>, e: nat)
    requires forall a <- actions :: a.SetKeyring? ==> !Usable(a.keyring, gate.hostPublic)
    requires var trace := Run(gate, INITIAL, actions).trace; e < |trace| && trace[e].Launched?
    ensures var trace := Run(gate, INITIAL, actions).trace;
            exists key, message ::
              && ApproverSigned(key, message) in trace[..e] && key != gate.hostPublic
              && gate.canonical(trace[e].manifest) == Some(message)
  {
    var trace := Run(gate, INITIAL, actions).trace;
    LaunchIsAuthorised(gate, actions, e);
    RunKeepsHostOut(gate, actions);
    var c, m := trace[e].conn, trace[e].manifest;
    var k :| 0 <= k < e && trace[..e][k] == Committed(c, m.requestId) && VerifiedIn(gate, trace[..e][..k], c, m);
    var p := trace[..e][..k];
    var v :| 0 <= v < |p| && VerifiedAt(gate, p, v, c, m);
    assert p[v] == trace[v] && p[v] in trace;
    assert p[v].approver != gate.hostPublic;
    assert ApproverSigned(p[v].approver, p[v].message) in p[..v];
    assert forall x :: x in p[..v] ==> x in trace[..e];
    assert ApproverSigned(p[v].approver, p[v].message) in trace[..e];
  }

  /** Starts map injectively into consumed rows that store the canonical bytes of what was started. */
  lemma LaunchesMapIntoConsumedRows(gate: Gate, actions: seq<Action>, i: nat, j: nat)
    requires var trace := Run(gate, INITIAL, actions).trace;
             i < |trace| && j < |trace| && trace[i].Launched? && trace[j].Launched?
    ensures var s := Run(gate, INITIAL, actions);
            var id := s.trace[i].manifest.requestId;
            && id in s.rows && s.rows[id].status.Consumed?
            && gate.canonical(s.trace[i].manifest) == Some(s.rows[id].manifest)
            && (id == s.trace[j].manifest.requestId ==> i == j)
  {
    ReachableInv(gate, actions);
    var s := Run(gate, INITIAL, actions);
    var c, m := s.trace[i].conn, s.trace[i].manifest;
    assert Launched(c, m) in s.trace;
    LaunchedIsConsumed(gate, s, c, m);
    CommittedWasIssued(gate, s.trace, c, m);
  }

  lemma CommittedWasIssued(gate: Gate, p: seq<Event>, c: nat, m: Manifest)
    requires CommittedIn(gate, p, c, m)
    ensures Issued(c, m) in p
  {
    var k :| 0 <= k < |p| && p[k] == Committed(c, m.requestId) && VerifiedIn(gate, p[..k], c, m);
    var v :| 0 <= v < k && VerifiedAt(gate, p[..k], v, c, m);
    assert Issued(c, m) in p[..k][..v];
  }

  lemma StepGrowsRows(gate: Gate, s: State, a: Action)
    ensures RowsGrow(s.rows, Step(gate, s, a).rows)
  {
  }

  /** From any point of a run on, stored bytes and expiry are fixed and a consumed row never changes again. */
  lemma {:induction false} RowsOnlyGrow(gate: Gate, s: State, actions: seq<Action>)
    ensures RowsGrow(s.rows, Run(gate, s, actions).rows)
  {
    if actions == [] {
    } else {
      RowsOnlyGrow(gate, s, actions[..|actions| - 1]);
      StepGrowsRows(gate, Run(gate, s, actions[..|actions| - 1]), actions[|actions| - 1]);
    }
  }

  /** Once a row is consumed, nothing that names its request id is granted at any later point of any run. */
  lemma ConsumedIsNeverGrantable(
      gate: Gate, s: State, actions: seq<Action>, policy: Utf8, keyring: Keyring, signed: SignedManifest,
      approver: Key32, signature: Signature, now: int)
    requires signed.manifest.requestId in s.rows && s.rows[signed.manifest.requestId].status.Consumed?
    ensures !Grantable(gate, policy, keyring, Run(gate, s, actions).rows, signed, approver, signature, now)
  {
    var id := signed.manifest.requestId;
    RowsOnlyGrow(gate, s, actions);
    assert RowMoves(s.rows[id], Run(gate, s, actions).rows[id]);
  }

  /** A request whose issuing connection is gone while its row is still pending. */
  ghost predicate Abandoned(s: State, c: nat, m: Manifest) {
    && Issued(c, m) in s.trace && At(s, c).Dead?
    && m.requestId in s.rows && s.rows[m.requestId].status.Pending?
  }

  lemma StepHistory(gate: Gate, s: State, a: Action, c: nat)
    ensures s.trace <= Step(gate, s, a).trace
    ensures c in s.conns && s.conns[c].Dead? ==> At(Step(gate, s, a), c).Dead?
  {
  }

  /** Only the UPDATE of a connection that verified this very request id touches an existing row. */
  lemma RowTouched(gate: Gate, s: State, a: Action, id: Utf8)
    requires id in s.rows && Step(gate, s, a).rows[id] != s.rows[id]
    ensures a.Update? && At(s, a.conn).Selected? && s.conns[a.conn].manifest.requestId == id
  {
  }

  lemma StepKeepsAbandoned(gate: Gate, s: State, c: nat, m: Manifest, a: Action)
    requires Inv(gate, s) && Abandoned(s, c, m)
    ensures Abandoned(Step(gate, s, a), c, m)
  {
    assert c in s.conns;
    StepHistory(gate, s, a, c);
    StepGrowsRows(gate, s, a);
    if a.Update? && At(s, a.conn).Selected? {
      assert ConnOk(gate, s, a.conn);
      assert Issued(a.conn, s.conns[a.conn].manifest) in s.trace;
      assert s.conns[a.conn].manifest.requestId != m.requestId;
    }
    if Step(gate, s, a).rows[m.requestId] != s.rows[m.requestId] {
      RowTouched(gate, s, a, m.requestId);
    }
  }

  lemma {:induction false} AbandonedStaysPending(gate: Gate, s: State, c: nat, m: Manifest, later: seq<Action>)
    requires Inv(gate, s) && Abandoned(s, c, m)
    ensures Abandoned(Run(gate, s, later), c, m)
  {
    if later == [] {
    } else {
      AbandonedStaysPending(gate, s, c, m, later[..|later| - 1]);
      RunKeepsInv(gate, s, later[..|later| - 1]);
      StepKeepsAbandoned(gate, Run(gate, s, later[..|later| - 1]), c, m, later[|later| - 1]);
    }
  }

  /** It stays pending for ever: no later connection, whatever frames it sends, can consume it. */
  lemma AbandonedForEver(gate: Gate, earlier: seq<Action>, later: seq<Action>, c: nat, m: Manifest)
    requires Abandoned(Run(gate, INITIAL, earlier), c, m)
    ensures Abandoned(Run(gate, Run(gate, INITIAL, earlier), later), c, m)
  {
    ReachableInv(gate, earlier);
    AbandonedStaysPending(gate, Run(gate, INITIAL, earlier), c, m, later);
  }

  /** The two steps of `approve`, run back to back, are the whole call of the `GateState` object. */
  lemma StepsRefineApprove(
      gate: Gate, s: State, c: nat, challenge: SignedManifest, approver: Key32, signature: Signature, now: int)
    requires At(s, c) == AwaitApprove(challenge)
    requires SignatureExists(gate, s, Some(Approve(challenge, approver, signature)))
    ensures var s' := Step(gate, s, ReceiveApproval(c, Some(Approve(challenge, approver, signature)), now, true));
            var s'' := Step(gate, s', Update(c, Durable));
            var id := challenge.manifest.requestId;
            if Grantable(gate, s.policy, s.keyring, s.rows, challenge, approver, signature, now)
            then At(s'', c) == Approved(challenge.manifest)
                 && s''.rows == s.rows[id := s.rows[id].(status := Consumed, consumedAt := Some(now))]
            else At(s'', c) == Dead && s''.rows == s.rows
  {
    UsableIsLoaded(s.keyring, approver);
  }
}
