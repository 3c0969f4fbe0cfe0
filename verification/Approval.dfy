/**
 * The gate's persistent approval state, `src/privileged/approval.rs`: issuing a
 * challenge, checking an approval, and consuming the stored row exactly once.
 *
 * `canonical` stands for the shared library's `canonical_bytes`, which is not
 * part of this model; where a result needs it, its injectivity is a stated
 * requirement. Signatures are symbolic: a well-formed signature records the key
 * and the message it was made for, and an `encoding` that verification ignores.
 */
module Approval {
  import opened Wrappers
  import opened Bytes
  import opened Policy
  import opened Transport

  datatype Manifest = Manifest(
    version: nat,
    requestId: Utf8,
    hostId: Utf8,
    operation: TrustedOperation,
    clientEphemeral: Key32,
    brokerTransport: Key32,
    nonce: Key32,
    createdAt: int,
    expiresAt: int,
    policyVersion: Utf8)

  datatype Signature = Malformed | Signed(signer: Key32, over: Bytes, encoding: Bytes)

  datatype SignedManifest = SignedManifest(manifest: Manifest, hostIdentity: Key32, signature: Signature)

  datatype ClientFrame =
    | Start(requestId: Utf8, operation: TrustedOperation, clientEphemeral: Key32)
    | Approve(signedManifest: SignedManifest, approverPublic: Key32, approverSignature: Signature)
    | CiphertextFrame(counter: nat, data: Ciphertext)
    | Resize(cols: nat, rows: nat)
    | Close

  /** What never changes while the state directory lives: the two host keys and the shared library. */
  datatype Gate = Gate(
    protocolVersion: nat,
    hostPublic: Key32,
    transportPublic: Key32,
    canonical: Manifest -> Option<Bytes>,
    isPoint: Key32 -> bool)

  datatype Status = Pending | Consumed

  datatype Row = Row(manifest: Bytes, status: Status, expiresAt: int, consumedAt: Option<int>)

  /** The table `trusted_requests`, by its primary key. */
  type Rows = map<Utf8, Row>

  datatype KeyText = BadEncoding | Decoded(bytes: Bytes)

  /** The approver keyring as it is on disk. */
  datatype Keyring = Unreadable | InvalidJson | Entries(entries: map<Utf8, KeyText>)

  datatype GateError =
    | NotStart
    | BadRequestId
    | PolicyRefused(reason: PolicyError)
    | EncodingFailed
    | RequestIdExistsOrDatabaseFailed
    | StaleOrForeignManifest
    | InvalidHostSignature
    | KeyringUnreadable
    | KeyringInvalid
    | KeyringEmpty
    | KeyringEntryInvalid
    | NotEnrolled
    | InvalidApproverKey
    | InvalidApproverSignature
    | DatabaseFailed
    | UnknownRequest
    | AlteredExpiredOrConsumed
    | AlreadyConsumed

  ghost predicate InjectiveEncoding(canonical: Manifest -> Option<Bytes>) {
    forall m, n :: canonical(m).Some? && canonical(m) == canonical(n) ==> m == n
  }

  function HexDigit(d: nat): byte
    requires d < 16
  {
    if d < 10 then (48 + d) as byte else (87 + d) as byte
  }

  function Hex(bytes: Bytes): Utf8 {
    if bytes == [] then []
    else [HexDigit(bytes[0] as nat / 16), HexDigit(bytes[0] as nat % 16)] + Hex(bytes[1..])
  }

  function HostId(gate: Gate): Utf8 {
    Hex(gate.hostPublic[..16])
  }

  predicate ValidRequestId(id: Utf8) {
    8 <= |id| <= 128 && forall b <- id :: IsAsciiAlphanumeric(b) || b == 46 || b == 95 || b == 45
  }

  /** Eight to 128 letters, digits, dots, underscores and hyphens. */
  ghost predicate WellFormedId(id: Utf8) {
    8 <= |id| <= 128 && forall b <- id :: 0x30 <= b <= 0x39 || 0x41 <= b <= 0x5A || 0x61 <= b <= 0x7A || b in {0x2E, 0x5F, 0x2D}
  }

  predicate Verifies(signature: Signature, key: Key32, message: Bytes) {
    signature.Signed? && signature.signer == key && signature.over == message
  }

  /** `load_approvers`: one unusable entry makes the whole keyring unusable. */
  function LoadApprovers(keyring: Keyring): Result<set<Key32>, GateError> {
    match keyring
    case Unreadable => Err(KeyringUnreadable)
    case InvalidJson => Err(KeyringInvalid)
    case Entries(entries) =>
      if |entries| == 0 then Err(KeyringEmpty)
      else if exists id <- entries :: entries[id].BadEncoding? || |entries[id].bytes| != 32
      then Err(KeyringEntryInvalid)
      else Ok(set id <- entries :: var key: Key32 := entries[id].bytes; key)
  }

  function NewManifest(gate: Gate, policy: Utf8, start: ClientFrame, now: int, nonce: Key32): Manifest
    requires start.Start?
  {
    Manifest(gate.protocolVersion, start.requestId, HostId(gate), start.operation, start.clientEphemeral,
             gate.transportPublic, nonce, now, now + Clamp(RequestedTtl(start.operation), 60, 3600), policy)
  }

  /** `challenge` as a function of the table: the reply and the table it leaves behind. */
  function IssueChallenge(
      gate: Gate, policy: Utf8, rows: Rows, start: ClientFrame, now: int, nonce: Key32, databaseUp: bool)
    : (Result<SignedManifest, GateError>, Rows)
  {
    if !start.Start? then (Err(NotStart), rows)
    else if !ValidRequestId(start.requestId) then (Err(BadRequestId), rows)
    else if Classify(start.operation).Err? then (Err(PolicyRefused(Classify(start.operation).error)), rows)
    else
      var manifest := NewManifest(gate, policy, start, now, nonce);
      var canonical := gate.canonical(manifest);
      if canonical.None? then (Err(EncodingFailed), rows)
      else if !databaseUp || start.requestId in rows then (Err(RequestIdExistsOrDatabaseFailed), rows)
      else (
        Ok(SignedManifest(manifest, gate.hostPublic, Signed(gate.hostPublic, canonical.value, []))),
        rows[start.requestId := Row(canonical.value, Pending, manifest.expiresAt, None)])
  }

  /** The manifest of a challenge, field by field. */
  ghost predicate IsManifestFor(m: Manifest, gate: Gate, policy: Utf8, start: ClientFrame, now: int, nonce: Key32)
    requires start.Start?
  {
    && m.version == gate.protocolVersion && m.hostId == HostId(gate) && m.policyVersion == policy
    && m.requestId == start.requestId && m.operation == start.operation
    && m.clientEphemeral == start.clientEphemeral && m.brokerTransport == gate.transportPublic
    && m.nonce == nonce && m.createdAt == now && m.expiresAt == now + Lifetime(start.operation)
  }

  /** Exactly when a challenge is issued, and what it is. */
  lemma ChallengeIssuedIff(
      gate: Gate, policy: Utf8, rows: Rows, start: ClientFrame, now: int, nonce: Key32, databaseUp: bool, m: Manifest)
    requires start.Start? && IsManifestFor(m, gate, policy, start, now, nonce)
    ensures var (reply, rows') := IssueChallenge(gate, policy, rows, start, now, nonce, databaseUp);
            if WellFormedId(start.requestId) && Allowed(start.operation) && gate.canonical(m).Some?
               && databaseUp && start.requestId !in rows
            then reply == Ok(SignedManifest(m, gate.hostPublic, Signed(gate.hostPublic, gate.canonical(m).value, [])))
                 && rows' == rows[start.requestId := Row(gate.canonical(m).value, Pending, m.expiresAt, None)]
            else reply.Err? && rows' == rows
  {
    AllowedIff(start.operation);
    if Allowed(start.operation) { assert m == NewManifest(gate, policy, start, now, nonce); }
  }

  /** The checks of `approve` that do not touch the table; on success, the exact bytes approved. */
  function VerifyApproval(
      gate: Gate, policy: Utf8, keyring: Keyring, signed: SignedManifest,
      approver: Key32, signature: Signature, now: int): Result<Bytes, GateError>
  {
    var m := signed.manifest;
    if m.version != gate.protocolVersion || m.hostId != HostId(gate) || signed.hostIdentity != gate.hostPublic
       || m.expiresAt < now || m.policyVersion != policy
    then Err(StaleOrForeignManifest)
    else if Classify(m.operation).Err? then Err(PolicyRefused(Classify(m.operation).error))
    else if gate.canonical(m).None? then Err(EncodingFailed)
    else
      var canonical := gate.canonical(m).value;
      if !Verifies(signed.signature, gate.hostPublic, canonical) then Err(InvalidHostSignature)
      else if LoadApprovers(keyring).Err? then Err(LoadApprovers(keyring).error)
      else if approver !in LoadApprovers(keyring).value then Err(NotEnrolled)
      else if !gate.isPoint(approver) then Err(InvalidApproverKey)
      else if !Verifies(signature, approver, canonical) then Err(InvalidApproverSignature)
      else Ok(canonical)
  }

  /** The SELECT of `approve` and the tests on the row it returned. */
  function SelectPending(rows: Rows, requestId: Utf8, canonical: Bytes, now: int): Result<(), GateError> {
    if requestId !in rows then Err(UnknownRequest)
    else if rows[requestId].manifest != canonical || rows[requestId].status != Pending || rows[requestId].expiresAt < now
    then Err(AlteredExpiredOrConsumed)
    else Ok(())
  }

  /** `UPDATE … WHERE request_id=?1 AND status='pending'`: rows changed, and the table after it. */
  function ConsumePending(rows: Rows, requestId: Utf8, now: int): (nat, Rows) {
    if requestId in rows && rows[requestId].status.Pending?
    then (1, rows[requestId := rows[requestId].(status := Consumed, consumedAt := Some(now))])
    else (0, rows)
  }

  /** Everything an approval must satisfy, said about the inputs alone. */
  ghost predicate Grantable(
      gate: Gate, policy: Utf8, keyring: Keyring, rows: Rows, signed: SignedManifest,
      approver: Key32, signature: Signature, now: int)
  {
    var m := signed.manifest;
    && m.version == gate.protocolVersion && m.hostId == HostId(gate) && signed.hostIdentity == gate.hostPublic
    && m.policyVersion == policy
    && Classify(m.operation).Ok?
    && now <= m.expiresAt
    && Usable(keyring, approver) && gate.isPoint(approver)
    && m.requestId in rows
    && rows[m.requestId].status.Pending?
    && now <= rows[m.requestId].expiresAt
    && gate.canonical(m) == Some(rows[m.requestId].manifest)
    && Verifies(signed.signature, gate.hostPublic, rows[m.requestId].manifest)
    && Verifies(signature, approver, rows[m.requestId].manifest)
  }

  /** The keyring lists the key and every one of its entries is a 32-byte key. */
  ghost predicate Usable(keyring: Keyring, key: Key32) {
    && keyring.Entries?
    && (forall id <- keyring.entries :: keyring.entries[id].Decoded? && |keyring.entries[id].bytes| == 32)
    && exists id <- keyring.entries :: keyring.entries[id] == Decoded(key)
  }

  lemma UsableIsLoaded(keyring: Keyring, key: Key32)
    ensures Usable(keyring, key) <==> LoadApprovers(keyring).Ok? && key in LoadApprovers(keyring).value
  {
  }

  /** One gate process: its environment, its keyring file and the shared database table. */
  class GateState {
    const gate: Gate
    var policy: Utf8
    var keyring: Keyring
    var rows: Rows

    constructor (gate: Gate, policy: Utf8, keyring: Keyring, rows: Rows)
      ensures this.gate == gate && this.policy == policy && this.keyring == keyring && this.rows == rows
    {
      this.gate, this.policy, this.keyring, this.rows := gate, policy, keyring, rows;
    }

    method Challenge(start: ClientFrame, now: int, nonce: Key32, databaseUp: bool)
      returns (r: Result<SignedManifest, GateError>)
      modifies this`rows
      ensures (r, rows) == IssueChallenge(gate, policy, old(rows), start, now, nonce, databaseUp)
      ensures r.Err? ==> rows == old(rows)
      ensures !start.Start? ==> r.Err?
      ensures forall m | start.Start? && IsManifestFor(m, gate, policy, start, now, nonce) ::
                && (r.Ok? <==> && WellFormedId(start.requestId) && Allowed(start.operation) && gate.canonical(m).Some?
                               && databaseUp && start.requestId !in old(rows))
                && (r.Ok? ==> r.value.manifest == m)
      ensures r.Ok? ==> && start.Start? && start.requestId !in old(rows)
                        && start.requestId == r.value.manifest.requestId
                        && gate.canonical(r.value.manifest).Some?
                        && rows == old(rows)[start.requestId := Row(
                                     gate.canonical(r.value.manifest).value, Pending, r.value.manifest.expiresAt, None)]
    {
      if !start.Start? {
        return Err(NotStart);
      }
      forall m | IsManifestFor(m, gate, policy, start, now, nonce) {
        ChallengeIssuedIff(gate, policy, rows, start, now, nonce, databaseUp, m);
      }
      if !ValidRequestId(start.requestId) {
        return Err(BadRequestId);
      }
      var tier := Classify(start.operation);
      if tier.Err? {
        return Err(PolicyRefused(tier.error));
      }
      var manifest := NewManifest(gate, policy, start, now, nonce);
      var canonical := gate.canonical(manifest);
      if canonical.None? {
        return Err(EncodingFailed);
      }
      var signature := Signed(gate.hostPublic, canonical.value, []);
      if !databaseUp || start.requestId in rows {
        return Err(RequestIdExistsOrDatabaseFailed);
      }
      rows := rows[start.requestId := Row(canonical.value, Pending, manifest.expiresAt, None)];
      return Ok(SignedManifest(manifest, gate.hostPublic, signature));
    }

    /** An approval no other connection interleaves with; the gate protocol splits it at the transaction. */
    method ApproveRequest(
        signed: SignedManifest, approver: Key32, signature: Signature, now: int, databaseUp: bool)
      returns (r: Result<Manifest, GateError>)
      modifies this`rows
      ensures r.Ok? <==> databaseUp && Grantable(gate, policy, keyring, old(rows), signed, approver, signature, now)
      ensures r.Ok? ==> r.value == signed.manifest
      ensures r.Err? ==> rows == old(rows)
      ensures r.Ok? ==> var id := signed.manifest.requestId;
                        rows == old(rows)[id := old(rows)[id].(status := Consumed, consumedAt := Some(now))]
    {
      UsableIsLoaded(keyring, approver);
      var verified := VerifyApproval(gate, policy, keyring, signed, approver, signature, now);
      if verified.Err? {
        return Err(verified.error);
      }
      if !databaseUp {
        return Err(DatabaseFailed);
      }
      var selected := SelectPending(rows, signed.manifest.requestId, verified.value, now);
      if selected.Err? {
        return Err(selected.error);
      }
      var (changed, updated) := ConsumePending(rows, signed.manifest.requestId, now);
      if changed != 1 {
        return Err(AlreadyConsumed);
      }
      rows := updated;
      return Ok(signed.manifest);
    }
  }

  /** A challenge lives as long as its operation asks for, except that a command's grace minute is cut off at an hour. */
  lemma ChallengeLifetime(
      gate: Gate, policy: Utf8, rows: Rows, start: ClientFrame, now: int, nonce: Key32, databaseUp: bool)
    requires IssueChallenge(gate, policy, rows, start, now, nonce, databaseUp).0.Ok?
    ensures var m := IssueChallenge(gate, policy, rows, start, now, nonce, databaseUp).0.value.manifest;
            var lifetime := m.expiresAt - m.createdAt;
            && m.createdAt == now && 60 <= lifetime <= 3600
            && m.operation == start.operation && m.clientEphemeral == start.clientEphemeral && m.nonce == nonce
            && lifetime == (match start.operation
                            case RootPty(_, ttlSecs, _, _) => ttlSecs
                            case RootCommand(_, _, timeoutSecs) => if timeoutSecs <= 3540 then timeoutSecs + 60 else 3600)
  {
  }

  /** A refused approval names something that is wrong with it. */
  lemma RefusalIsTruthful(
      gate: Gate, policy: Utf8, keyring: Keyring, signed: SignedManifest, approver: Key32, signature: Signature, now: int)
    requires VerifyApproval(gate, policy, keyring, signed, approver, signature, now).Err?
    ensures var m := signed.manifest;
            match VerifyApproval(gate, policy, keyring, signed, approver, signature, now).error
            case StaleOrForeignManifest =>
              m.version != gate.protocolVersion || m.hostId != HostId(gate) || signed.hostIdentity != gate.hostPublic
              || now > m.expiresAt || m.policyVersion != policy
            case PolicyRefused(_) => !Allowed(m.operation)
            case EncodingFailed => gate.canonical(m).None?
            case InvalidHostSignature =>
              gate.canonical(m).Some? && !Verifies(signed.signature, gate.hostPublic, gate.canonical(m).value)
            case KeyringUnreadable => keyring.Unreadable?
            case KeyringInvalid => keyring.InvalidJson?
            case KeyringEmpty => keyring.Entries? && keyring.entries == map[]
            case KeyringEntryInvalid =>
              keyring.Entries? && exists id <- keyring.entries ::
                keyring.entries[id].BadEncoding? || |keyring.entries[id].bytes| != 32
            case NotEnrolled => !Usable(keyring, approver)
            case InvalidApproverKey => !gate.isPoint(approver)
            case InvalidApproverSignature =>
              gate.canonical(m).Some? && !Verifies(signature, approver, gate.canonical(m).value)
            case _ => false
  {
    AllowedIff(signed.manifest.operation);
    UsableIsLoaded(keyring, approver);
  }

  lemma {:induction false} HexAt(bytes: Bytes, i: nat)
    requires i < |bytes|
    ensures |Hex(bytes)| == 2 * |bytes|
    ensures Hex(bytes)[2 * i] == HexDigit(bytes[i] as nat / 16)
    ensures Hex(bytes)[2 * i + 1] == HexDigit(bytes[i] as nat % 16)
  {
    var rest := Hex(bytes[1..]);
    assert Hex(bytes)[2..] == rest;
    if i == 0 {
      if |bytes| > 1 { HexAt(bytes[1..], 0); }
    } else {
      HexAt(bytes[1..], i - 1);
      assert Hex(bytes)[2..][2 * (i - 1)] == rest[2 * (i - 1)] && Hex(bytes)[2..][2 * (i - 1) + 1] == rest[2 * (i - 1) + 1];
    }
  }

  /** Each byte is two lower-case hexadecimal digits, high digit first. */
  lemma HexDigits(bytes: Bytes, i: nat)
    requires i < |bytes|
    ensures |Hex(bytes)| == 2 * |bytes|
    ensures Hex(bytes)[2 * i] == Ascii("0123456789abcdef")[bytes[i] as nat / 16]
    ensures Hex(bytes)[2 * i + 1] == Ascii("0123456789abcdef")[bytes[i] as nat % 16]
  {
    HexAt(bytes, i);
    HexDigitIs(bytes[i] as nat / 16);
    HexDigitIs(bytes[i] as nat % 16);
  }

  lemma HexDigitIs(d: nat)
    requires d < 16
    ensures HexDigit(d) == Ascii("0123456789abcdef")[d]
  {
  }

  /** Host ids are faithful: two keys with the same id agree on their first sixteen bytes. */
  lemma {:induction false} HexInjective(a: Bytes, b: Bytes)
    requires |a| == |b|
    ensures Hex(a) == Hex(b) <==> a == b
  {
    if a == [] {
    } else {
      HexInjective(a[1..], b[1..]);
      assert Hex(a)[2..] == Hex(a[1..]) && Hex(b)[2..] == Hex(b[1..]);
      assert a == [a[0]] + a[1..] && b == [b[0]] + b[1..];
      if Hex(a) == Hex(b) {
        assert Hex(a)[0] == Hex(b)[0] && Hex(a)[1] == Hex(b)[1];
        assert a[0] as nat == 16 * (a[0] as nat / 16) + a[0] as nat % 16;
        assert b[0] as nat == 16 * (b[0] as nat / 16) + b[0] as nat % 16;
      }
    }
  }

  /** The challenge a gate has just issued is granted to an enrolled key that signs it, exactly until it expires. */
  lemma FreshChallengeIsGrantable(
      gate: Gate, policy: Utf8, keyring: Keyring, rows: Rows, start: ClientFrame, issued: int, nonce: Key32,
      approver: Key32, encoding: Bytes, now: int)
    requires IssueChallenge(gate, policy, rows, start, issued, nonce, true).0.Ok?
    requires Usable(keyring, approver) && gate.isPoint(approver)
    ensures var (reply, rows') := IssueChallenge(gate, policy, rows, start, issued, nonce, true);
            gate.canonical(reply.value.manifest).Some? &&
            (Grantable(gate, policy, keyring, rows', reply.value, approver,
                       Signed(approver, gate.canonical(reply.value.manifest).value, encoding), now)
             <==> now <= reply.value.manifest.expiresAt)
  {
  }

  /**
   * A keyring that lists the host's own key needs no approver: the challenge
   * itself carries a signature that counts as the approval.
   */
  lemma HostKeyApprovesItself(
      gate: Gate, policy: Utf8, keyring: Keyring, rows: Rows, start: ClientFrame, issued: int, nonce: Key32, now: int)
    requires IssueChallenge(gate, policy, rows, start, issued, nonce, true).0.Ok?
    requires Usable(keyring, gate.hostPublic) && gate.isPoint(gate.hostPublic)
    ensures var (reply, rows') := IssueChallenge(gate, policy, rows, start, issued, nonce, true);
            Grantable(gate, policy, keyring, rows', reply.value, gate.hostPublic, reply.value.signature, now)
            <==> now <= reply.value.manifest.expiresAt
  {
  }

  // ---- load_or_create_key ----

  datatype KeyError = WrongLength | CreateFailed | WriteFailed

  /**
   * One start of the gate: whether an existing file can be read, the random bytes
   * drawn, whether a new file can be created, and how many bytes reach it.
   */
  datatype Boot = Boot(readable: bool, random: Key32, creatable: bool, written: nat)

  /** The file that holds one host key. */
  class KeyFile {
    var contents: Option<Bytes>

    constructor (contents: Option<Bytes>)
      ensures this.contents == contents
    {
      this.contents := contents;
    }

    method LoadOrCreateKey(boot: Boot) returns (r: Result<Key32, KeyError>)
      modifies this
      ensures (r, contents) == LoadOrCreate(old(contents), boot)
      ensures r.Ok? ==> contents == Some(r.value)
      ensures old(contents).Some? ==> contents == old(contents)
    {
      if boot.readable && contents.Some? {
        if |contents.value| == 32 {
          return Ok(contents.value);
        }
        return Err(WrongLength);
      }
      var key := boot.random;
      if contents.Some? || !boot.creatable {
        return Err(CreateFailed);
      }
      contents := Some(key[..if boot.written < 32 then boot.written else 32]);
      if boot.written < 32 {
        return Err(WriteFailed);
      }
      assert key[..32] == key;
      return Ok(key);
    }
  }

  function LoadOrCreate(contents: Option<Bytes>, boot: Boot): (Result<Key32, KeyError>, Option<Bytes>) {
    if boot.readable && contents.Some? then
      (if |contents.value| == 32 then Ok(contents.value) else Err(WrongLength), contents)
    else if contents.Some? || !boot.creatable then (Err(CreateFailed), contents)
    else if boot.written < 32 then (Err(WriteFailed), Some(boot.random[..boot.written]))
    else (Ok(boot.random), Some(boot.random))
  }

  function FileAfter(contents: Option<Bytes>, boots: seq<Boot>): Option<Bytes> {
    if boots == [] then contents
    else LoadOrCreate(FileAfter(contents, boots[..|boots| - 1]), boots[|boots| - 1]).1
  }

  /** What start number `i` of the sequence returned. */
  function BootResult(contents: Option<Bytes>, boots: seq<Boot>, i: nat): Result<Key32, KeyError>
    requires i < |boots|
  {
    LoadOrCreate(FileAfter(contents, boots[..i]), boots[i]).0
  }

  lemma {:induction false} FileSettles(contents: Option<Bytes>, boots: seq<Boot>, k: nat)
    requires k <= |boots| && FileAfter(contents, boots[..k]).Some?
    ensures FileAfter(contents, boots) == FileAfter(contents, boots[..k])
  {
    if k == |boots| {
      assert boots[..k] == boots;
    } else {
      assert boots[..|boots| - 1][..k] == boots[..k];
      FileSettles(contents, boots[..|boots| - 1], k);
    }
  }

  /**
   * The host key is one key for ever: over any sequence of starts, with any
   * failures and torn writes, every start that returns a key returns the same one.
   */
  lemma HostKeyIsStable(contents: Option<Bytes>, boots: seq<Boot>, i: nat, j: nat)
    requires i <= j < |boots|
    requires BootResult(contents, boots, i).Ok? && BootResult(contents, boots, j).Ok?
    ensures BootResult(contents, boots, i) == BootResult(contents, boots, j)
  {
    if i < j {
      assert boots[..i + 1][..i] == boots[..i];
      assert boots[..j][..i + 1] == boots[..i + 1];
      FileSettles(contents, boots[..j], i + 1);
    }
  }

  /** Start `k` is the first that can create the key file. */
  predicate CreatesFile(boots: seq<Boot>, k: nat) {
    k < |boots| && boots[k].creatable && forall j :: 0 <= j < k ==> !boots[j].creatable
  }

  /**
   * Exactly which starts of a gate without a key file succeed. The first start
   * that can create the file decides for ever: it succeeds if its write was not
   * torn, and then every later start does that can read the file. After a torn
   * write, before that start, or if there is none, no start succeeds. Whoever
   * succeeds has the key drawn by that first start.
   */
  lemma StartSucceedsIff(boots: seq<Boot>, i: nat)
    requires i < |boots|
    ensures BootResult(None, boots, i).Ok?
            <==> exists k :: 0 <= k <= i && CreatesFile(boots, k) && boots[k].written >= 32
                             && (k == i || boots[i].readable)
    ensures forall k :: 0 <= k <= i && CreatesFile(boots, k) && BootResult(None, boots, i).Ok? ==>
              BootResult(None, boots, i).value == boots[k].random
  {
    if j :| 0 <= j <= i && boots[j].creatable {
      var k := FirstCreating(boots, j);
      AfterCreation(boots, k, i);
      assert forall k' | CreatesFile(boots, k') :: k' == k;
    } else {
      StillNoFile(boots, i);
    }
  }

  lemma {:induction false} FirstCreating(boots: seq<Boot>, j: nat) returns (k: nat)
    requires j < |boots| && boots[j].creatable
    ensures k <= j && CreatesFile(boots, k)
  {
    if i :| 0 <= i < j && boots[i].creatable {
      k := FirstCreating(boots, i);
    } else {
      k := j;
    }
  }

  lemma AfterCreation(boots: seq<Boot>, k: nat, i: nat)
    requires k <= i < |boots| && CreatesFile(boots, k)
    ensures BootResult(None, boots, i).Ok? <==> boots[k].written >= 32 && (k == i || boots[i].readable)
    ensures BootResult(None, boots, i).Ok? ==> BootResult(None, boots, i).value == boots[k].random
  {
    StillNoFile(boots, k);
    if k < i {
      assert boots[..k + 1][..k] == boots[..k];
      assert boots[..i][..k + 1] == boots[..k + 1];
      FileSettles(None, boots[..i], k + 1);
    }
  }

  lemma {:induction false} StillNoFile(boots: seq<Boot>, k: nat)
    requires k <= |boots| && forall j :: 0 <= j < k ==> !boots[j].creatable
    ensures FileAfter(None, boots[..k]).None?
  {
    if k == 0 {
    } else {
      StillNoFile(boots, k - 1);
      assert boots[..k][..k - 1] == boots[..k - 1];
    }
  }

  /** A file that was there before the first start is never replaced: it serves exactly when it can be read and fits. */
  lemma ExistingFileServesIff(contents: Bytes, boots: seq<Boot>, i: nat)
    requires i < |boots|
    ensures BootResult(Some(contents), boots, i).Ok? <==> boots[i].readable && |contents| == 32
    ensures BootResult(Some(contents), boots, i).Ok? ==> BootResult(Some(contents), boots, i).value == contents
  {
    assert boots[..i][..0] == [];
    FileSettles(Some(contents), boots[..i], 0);
  }
}
