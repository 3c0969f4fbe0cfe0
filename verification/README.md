# shellfleet-agent: verified model

A Dafny model of the parts of shellfleet-agent whose correctness is a claim about whole runs, all inputs or
several functions at once, with proofs of those claims. `dafny verify dfyconfig.toml` checks everything.

## What is modelled

**The trusted-operation protocol.** An untrusted server talks through the unprivileged agent to a root gate, which
issues a challenge, stores it as pending, checks an enrolled approver's signature over the exact manifest, consumes
the row and runs the operation over an encrypted transport.

- `Approval`: the gate's state (`GateState`, the table, the keyring, the host key file).
- `GateProtocol`: every run of any number of connections over one table, with crashes, restarts, keyring edits and
  an untrusted peer. `approve` is split at its transaction: its checks and SELECT are one step, its guarded UPDATE
  with the commit another, and anything may happen in between.
- `Transport` and `Channel`: the AEAD transport object, and any number of its endpoints joined by a relay that may
  drop, duplicate, reorder, alter, reflect or splice frames.
- `TrustedSystem`: the two together. Starting an operation is what keys the gate's transport, so single use of
  approvals is what makes keys and nonces single use across crashes and restarts.
- `GateHandler`: one connection statement by statement. `Relay`: the agent's session map. `Framing`, `Policy`,
  `Bytes`: frames, the local policy, big-endian integers.

**Output capture** (`Exec`): two reader tasks on one atomic budget, every atomic access its own step, weak
compare-exchange and stale relaxed loads included.

**Paths** (`PathNames`, `ConfigPath`, `BackupPath`): the two lexical normalisers and the two containment tests,
against pathname resolution on trees without symbolic links (section 4.13 of the POSIX.1-2017 Base Definitions).

**Small machines**: the probe reconciler (`Health`), the line batcher in both variants (`LineBatcher`), the command
tokenizer (`CommandSplit`), the multipart chunker (`Multipart`).

## How to read it

A run is a sequence of actions folded over a total `Step` function; an action that is not possible in a state
changes nothing, so "every sequence of actions" is "every run". Actions carry everything the environment decides:
frame contents, clock readings, random bytes, failures. Classes hold the fields the Rust code mutates; each method
is proved equal to a function on those fields, or against its promise directly, and the lemmas are about the functions.

Safety results say what no run does. Beside each machine stands a completeness result that says what some run does:
an honest request is started and its session carries data (`ApprovedRequestRuns`, `ApprovedPtyIsInSession`,
`InputGoesThrough`, `SessionCarries`), any output is captured (`SomeRunCaptures`), any lines are delivered
(`JournalStreamGetsThrough`). So the safety results are not about machines that stand still.

Assumptions, all visible in the statements:

- Cryptography is symbolic. A signature records its signer and its message, and an approver's signature can be
  presented only after the holder made it (section 5.1.7 of RFC 8032). A ciphertext opens only under the key, nonce
  and associated data it was sealed with (section 2.8 of RFC 8439). HKDF outputs differ unless secret, salt and info
  label all agree (section 2.3 of RFC 5869). Sessions whose client key the relay chose itself are `exposed`, and the
  delivery results exclude them; nonce uniqueness does not.
- The `shared` crate is not part of this model. Its `canonical_bytes` is a function parameter, required injective
  where that matters; its frame decoder is a function parameter; MAX_TRUSTED_FRAME_BYTES is any positive number that
  fits a u32; MAX_OUTPUT_BYTES is any number.
- Committed SQLite transactions survive crashes, and the primary key is enforced.
- A client keys at most one transport per manifest and key agreement.

## Findings

- A challenge for a command whose timeout exceeds 3540 seconds expires before the timeout plus the grace minute it
  asks for (`ChallengeLifetime`).
- A torn first write of a host key file is permanent. Without a key file, the first start that can create one
  decides: later starts succeed exactly if its write was whole and they can read the file (`StartSucceedsIff`).
- The lexical normal form of a path may resolve where the path itself does not (`NormalFormMayResolveMore`); they
  resolve alike exactly when the path reaches its end or nothing exists at its normal form (`ResolvesAlikeIff`).
- The config-path guard compares a lower-cased copy and hands on the original spelling (src/config.rs:167-177; the
  second look at the resolved path, src/config.rs:188-200, lower-cases too). "/ETC/x" is accepted and resolves outside
  every allowed directory (`AcceptedMayResolveOutside`). An accepted path that resolves lies inside one exactly when
  the names that its allow rule matched are in lower case (`AcceptedPathResolvesInside`).
- The same guard judges one spelling of a path, although a trailing slash does not change the node. /etc/ssh is
  accepted and /etc/ssh/ denied (`AcceptedThoughDeniedWithSlash`); /srv/.docker/config.json is denied and
  /srv/.docker/config.json/ accepted (`AcceptedThoughDeniedWithoutSlash`). A deny rule matches the node of an accepted
  path exactly when the path ends in no slash and with one is a deny prefix, or ends in a slash and its last names are
  .docker and config.json (`AcceptedNodeDeniedIff`).
- A keyring that lists the gate's own host key makes every fresh challenge its own approval until it expires
  (`HostKeyApprovesItself`); in runs without such a keyring every start was signed for by the holder of another
  enrolled key (`LaunchWasSigned`).
- The lexical backup test is containment for absolute paths and roots. A relative root accepts paths that lie outside
  it from some working directories: the root "data" accepts "../data/x" (`AcceptedMayEscape`), and "." accepts every
  absolute path. An accepted path lies in the root from every working directory exactly when both are absolute, or
  both are relative and rise equally far above their start, or both are relative, the root normalises to nothing and
  the path rises no further (`AcceptanceIsContainment`). From one given directory the condition is `ContinuesFrom`
  (`AcceptedFrom`); from "/", where a systemd service runs unless its unit says otherwise, as debian/shellfleet-agent.service
  does not, acceptance always implies containment (`AcceptanceAtRoot`).
- A space separates two halves of a command exactly when the first half ends outside quotes and not after a
  backslash (`SpaceSeparatesIff`), and empty arguments cannot be expressed (`RoundTripIff`).
- A probe listed twice with different settings is respawned even when the last listing is what already runs
  (`TaskKeptIff`).
- Part numbers count up from 1 exactly up to 2147483647 parts (`NumbersCountUp`).

## Model

| member | source | states |
|---|---|---|
| GateProtocol.ApprovedAtMostOnce | src/privileged/approval.rs:148-176 | in every interleaving, with crashes and restarts, no request id is approved twice |
| GateProtocol.ApprovedRequestRuns | src/bin/shellfleet-approval-gate.rs:129-207 | completeness: from any state with the gate up, a well-formed allowed request under a new id, signed in time by an enrolled key, is issued, checked, committed and started with exactly the manifest asked for |
| GateProtocol.RestartIs | src/bin/shellfleet-approval-gate.rs:60-83 | a restart ends every connection, keeps the table, and takes up again |
| GateProtocol.LaunchIsAuthorised | src/bin/shellfleet-approval-gate.rs:138-207 | every started operation was issued on the same connection, then checked there (allowed by policy, unexpired, exact bytes signed by an enrolled key), then committed, in that order, before it started |
| GateProtocol.LaunchWasSigned | src/privileged/approval.rs:116-147 | if no keyring of the run lists the host key, before every start the holder of another enrolled key signed the exact bytes of its manifest |
| GateProtocol.LaunchesMapIntoConsumedRows | src/bin/shellfleet-approval-gate.rs:166-207 | starts map one to one into consumed rows that store the canonical bytes of the started manifest |
| GateProtocol.RowsOnlyGrow | src/privileged/approval.rs:95-101 | over any run a row keeps its manifest and expiry, and its only change is from pending to consumed, once |
| GateProtocol.AbandonedForEver | src/bin/shellfleet-approval-gate.rs:140-171 | a request whose issuing connection is gone before approval stays pending whatever later connections send |
| GateProtocol.StepsRefineApprove | src/privileged/approval.rs:109-177 | the split steps run back to back succeed exactly when the declarative approval condition holds, and otherwise leave the table alone |
| GateProtocol.StepKeepsInv | src/bin/shellfleet-approval-gate.rs:129-209 | the protocol invariant is kept by every step of every connection and of the environment |
| Approval.GateState.Challenge | src/privileged/approval.rs:56-107 | a challenge is issued if and only if id, operation, encoding, database and table allow it; it carries exactly the manifest asked for, with the host's own keys, and inserts exactly one pending row for it; a refusal changes nothing |
| Approval.ChallengeIssuedIff | src/privileged/approval.rs:56-107 | exactly when a challenge is issued, and every field of it |
| Policy.AllowedIff | src/privileged/policy.rs:8-45 | the policy allows exactly the operations within its stated numbers |
| Approval.RefusalIsTruthful | src/privileged/approval.rs:109-147 | a refused approval names something that is wrong with it |
| Approval.GateState.ApproveRequest | src/privileged/approval.rs:109-177 | an approval succeeds if and only if every condition on manifest, policy, keyring, signatures, clock and row holds, and then consumes exactly that row |
| Approval.UsableIsLoaded | src/privileged/approval.rs:203-223 | a key is usable exactly when the keyring lists it and every entry of the keyring is a 32-byte key |
| Approval.FreshChallengeIsGrantable | src/privileged/approval.rs:56-177 | a challenge just issued, signed by an enrolled key, is granted exactly until it expires |
| GateProtocol.ConsumedIsNeverGrantable | src/privileged/approval.rs:109-177 | once a row is consumed, nothing naming its request id is granted at any later point of any run |
| Approval.HostKeyApprovesItself | src/privileged/approval.rs:129-147 | if the keyring lists the host key, a challenge is granted on its own signature exactly until it expires |
| Approval.ChallengeLifetime | src/privileged/approval.rs:70-90 | the manifest carries the requested operation and key, and its exact lifetime, between one minute and one hour |
| Approval.HexInjective | src/privileged/approval.rs:237-239 | host ids distinguish host keys that differ in their first sixteen bytes |
| Approval.HexDigits | src/privileged/approval.rs:237-239 | each byte is two lower-case hexadecimal digits, high digit first |
| Approval.KeyFile.LoadOrCreateKey | src/privileged/approval.rs:180-201 | a returned key is what the file holds, and an existing file is never changed |
| Approval.HostKeyIsStable | src/privileged/approval.rs:180-201 | over any sequence of starts, failures and torn writes, all starts that return a key return the same key |
| Approval.StartSucceedsIff | src/privileged/approval.rs:180-201 | without a key file, exactly which starts of any sequence succeed, none if no start can create the file, and all with the key of the first that can |
| Approval.ExistingFileServesIff | src/privileged/approval.rs:180-201 | with a key file, a start succeeds if and only if it can read the file and the file holds 32 bytes |
| Transport.NonceInjective | src/privileged/crypto.rs:79-83 | distinct u64 counters give distinct nonces |
| Transport.NonceLayout | src/privileged/crypto.rs:79-83 | four zero bytes, then the counter, most significant byte first |
| Transport.Transport.Seal | src/privileged/crypto.rs:85-104 | a ciphertext is released exactly when sealing succeeds and the counter is not 2^64-1; otherwise the counter stays |
| Transport.Transport.Open | src/privileged/crypto.rs:106-127 | a plaintext is released only for an authentic frame at the receive counter; a refusal leaves the counter unchanged |
| Transport.OpensWhatPeerSealed | src/privileged/crypto.rs:50-127 | each side opens what the other side sealed while their counters agree |
| Channel.AcceptedIsPrefixOfSent | src/privileged/crypto.rs:85-127 | whatever the relay does, an endpoint's accepted plaintexts are a prefix of those its peer released for the same manifest, agreement and request id |
| Channel.NoNonceReuse | src/privileged/crypto.rs:79-104 | over any run no two released ciphertexts share key and nonce |
| Channel.RefusedFrameChangesNothing | src/privileged/crypto.rs:106-121 | a refused frame leaves the whole session as it was |
| Channel.NextMessageIsAccepted | src/privileged/crypto.rs:106-127 | the relay always holds the peer's next message, and delivering it extends the accepted prefix by it |
| Channel.OpeningIs | src/privileged/crypto.rs:50-77 | opening an endpoint keys it by direction, with both counters at zero, and touches no other |
| Channel.SessionCarries | src/privileged/crypto.rs:50-127 | completeness: from any state two fresh endpoints of a session carry any messages the counter can number, in full and in order |
| Channel.ExhaustedForEver | src/privileged/crypto.rs:99-102 | an endpoint at 2^64-1 releases, or accepts, nothing more over any continuation of a run |
| Channel.StepKeepsInv | src/privileged/crypto.rs:50-127 | the channel invariant is kept by opening, sending and every delivery |
| TrustedSystem.LaunchKeysFreshTransport | src/bin/shellfleet-approval-gate.rs:175-180 | starting an approved operation never re-keys an existing transport |
| TrustedSystem.ClientOfManifestIsPeer | src/privileged/crypto.rs:18-47 | for every started operation of a run the client that keys itself from the manifest it was shown is the peer of the gate's transport |
| TrustedSystem.ApprovedPtyIsInSession | src/bin/shellfleet-approval-gate.rs:129-207 | completeness: an honest PTY request in any reachable state with the gate up ends in a session between gate and client |
| TrustedSystem.InputGoesThrough | src/bin/shellfleet-approval-gate.rs:356-363 | in session, what the client sends next reaches the PTY, and the session goes on |
| TrustedSystem.OutputGoesThrough | src/bin/shellfleet-approval-gate.rs:350-355 | in session, what the PTY prints next reaches the client, and the session goes on |
| TrustedSystem.RefusedFrameEndsConnection | src/bin/shellfleet-approval-gate.rs:356-363 | a frame that does not open ends the connection and changes no transport |
| TrustedSystem.NoNonceReuseAcrossRestarts | src/bin/shellfleet-approval-gate.rs:172-238 | the gate never uses a key and nonce twice across all connections, crashes and restarts |
| TrustedSystem.RootInputIsPrefixOfClientOutput | src/bin/shellfleet-approval-gate.rs:356-363 | every started operation has its transport, and the root PTY's input is a prefix of what the client of that manifest encrypted |
| TrustedSystem.ShellBytesArePrefix | src/bin/shellfleet-approval-gate.rs:347-363 | whatever frames the relay shows the loop and however writes fail, the bytes the shell got are a prefix of the bytes the client encrypted |
| TrustedSystem.EverySessionIsPrefix | src/privileged/crypto.rs:85-127 | the same in both directions for every unexposed session of the whole system |
| TrustedSystem.GateAuthorisationHolds | src/bin/shellfleet-approval-gate.rs:129-209 | authorisation of starts also holds when transport errors end connections |
| GateHandler.Authorise | src/bin/shellfleet-approval-gate.rs:137-171 | a connection gets to run exactly when its second frame approves its own challenge and the approval condition holds, and the table changes accordingly |
| GateHandler.SendEncrypted | src/bin/shellfleet-approval-gate.rs:231-239 | a message is sealed exactly when it encodes, the AEAD takes it and the counter can advance; sealing takes one counter value even if the frame is then not written out |
| GateHandler.SendCommandResult | src/bin/shellfleet-approval-gate.rs:257-292 | the frames sent are, in order and under consecutive counters, the result messages up to the first failure, with its cause; the counter counts them, plus one if the failed message was already sealed |
| GateHandler.CommandOutputWithinBudget | src/bin/shellfleet-approval-gate.rs:257-260 | both output streams together are cut to the budget, and only when they exceed it |
| GateHandler.StreamsAreLabelled | src/bin/shellfleet-approval-gate.rs:257-292 | under each label goes the start of that stream, within what the other leaves of the budget |
| GateHandler.RunPty | src/bin/shellfleet-approval-gate.rs:347-385 | the dispatch loop on the mutable transport, failed writes and resizes included, and the Exit message after it, are the fold of the dispatch function and its closing step |
| GateHandler.SessionEndsAt | src/bin/shellfleet-approval-gate.rs:347-385 | until the first event that does not go well every output and input is carried; the deadline, end of output, a failed read or a Close then end the session with its Exit message, anything else as a failure |
| GateHandler.ShellInputIsAuthentic | src/bin/shellfleet-approval-gate.rs:350-363 | the shell gets one chunk per consecutive counter, each from an authentic frame of this session and complete unless writing it ended the loop; likewise for the messages sent |
| GateHandler.ExitClosesTheSession | src/bin/shellfleet-approval-gate.rs:350-385 | the peer gets the Exit message exactly when the session closes in order, last, and before it only shell output |
| GateHandler.NothingAfterTheEnd | src/bin/shellfleet-approval-gate.rs:347-373 | once the loop is left no event reaches shell or peer |
| Relay.Relay.OnMessage | src/main.rs:768-859 | one server message on the session map is exactly the handling function and keeps the session discipline; each error reply is given exactly under its own condition on frame kind, flags, session, gate, size and writer |
| Relay.EnvelopeMatchesIff | src/main.rs:775-787 | which frame kinds fit which flags and ids |
| Relay.Relay.SendTo | src/privileged/client.rs:12-19 | a payload is queued exactly when its size is valid and the writer lives |
| Relay.Relay.Connect | src/privileged/client.rs:22-82 | a session exists exactly when the gate is reachable and the first payload is valid, and then carries it first |
| Relay.SessionsAreDisciplined | src/main.rs:774-858 | over any messages, each gate connection carries one Start for its id, then only matching frames, nothing after Close, and each stored session is such a connection for its id |
| Relay.SessionWasOpened | src/main.rs:800-846 | every live session has an opening Start and has carried what follows from it |
| Relay.OneStartPerConnection | src/main.rs:776-781 | no connection ever carries a second Start |
| Relay.OtherIdsUntouched | src/main.rs:800-846 | a message for one id leaves every other id's session alone |
| Relay.SessionOpenIff | src/main.rs:800-846 | over any messages an id has a session exactly when a Start for it could be passed on and no Close for it came since |
| Relay.SessionCarriesAll | src/main.rs:800-846 | over any messages a live session has carried exactly its Start and then, in order, every fitting payload for its id that found the writer alive |
| Relay.LaterFrameIsForwarded | src/main.rs:833-846 | a later well-formed frame is appended to its id's live connection, and Close frees the id |
| Framing.Reader.ReadFrame | src/privileged/framing.rs:3-17 | reads exactly the next frame or fails, advancing the stream past what it used |
| Framing.Writer.WriteFrame | src/privileged/framing.rs:19-35 | a valid body is appended as its encoding, up to where the stream fails, and success means all of it and the flush; any other body is refused |
| Framing.ReadingUndoesWriting | src/privileged/framing.rs:3-35 | reading the concatenated frames of valid bodies returns those bodies |
| Framing.CutStreamYieldsCompleteFrames | src/privileged/framing.rs:3-17 | a stream cut anywhere yields exactly the complete frames and then the right error |
| Framing.FailedWriteLosesItsBodyOnly | src/privileged/framing.rs:3-35 | after a failed write the reader still gets every earlier body, and the failed one exactly if all its bytes had gone out |
| Framing.WritingUndoesReading | src/privileged/framing.rs:3-35 | re-encoding what was read from any stream gives back the bytes consumed |
| Bytes.DecodeEncoded | src/privileged/crypto.rs:79-83 | big-endian encoding of a number that fits can be read back |
| Bytes.MostSignificantFirst | src/privileged/framing.rs:3-8 | in a decoded number the bytes that come first count most |
| Exec.BudgetIsConserved | src/exec.rs:91-113 | in every interleaving budget, bytes in flight and bytes queued add up to the limit |
| Exec.LimitMeansExactlyMax | src/exec.rs:107-112 | a result with the limit flag set carries exactly the limit |
| Exec.CapturedIsPrefix | src/exec.rs:77-116 | each captured stream is always a prefix of what its pipe carried |
| Exec.UntruncatedIsComplete | src/exec.rs:240-317 | a result not marked truncated holds both pipes completely |
| Exec.SomeRunCaptures | src/exec.rs:77-317 | completeness: for any two pipes some run captures them up to the limit, truncated exactly when something was cut, timed out exactly when the deadline ended the wait |
| Exec.IdleReadersAreAborted | src/exec.rs:240-301 | readers still waiting after deadline and grace are aborted, and the result says truncated and timed out |
| Exec.TruncationIsExactWhenJoined | src/exec.rs:276-301 | with both readers joined and error free, truncated means exactly that bytes were lost |
| Exec.ConcatenateNeverCuts | src/exec.rs:133-143 | what a run queues never exceeds the limit, so the cutting branch is unreachable |
| Exec.Concatenate | src/exec.rs:133-143 | returns the queued chunks in order up to the limit, and cuts exactly when they exceed it |
| Exec.ResultIsFinal | src/exec.rs:301-317 | no continuation of a run changes a result |
| Exec.StepKeepsInv | src/exec.rs:77-317 | the capture invariant is kept by every step of both tasks, the child and the runner |
| Exec.Reserve | src/exec.rs:91-106 | the reservation loop takes from the budget exactly what it reserves, and falls short only when the budget is empty |
| Exec.ReadToLimit | src/exec.rs:77-116 | every execution of the task against an interfering one is a replay of the step machine on the shared budget, less what others took between steps, and queues exactly what it takes |
| PathNames.PrefixByParts | src/config.rs:60-66 | a string prefix is exactly a component prefix with a partial last component |
| PathNames.SuffixByParts | src/config.rs:76-78 | a string suffix after a slash is exactly a suffix of components |
| PathNames.ResolutionIsStack | src/config.rs:145-154 | on any tree without links a path resolves exactly when the stack's intermediate points are directories and its end exists, and leads to the stack |
| PathNames.NormalFormResolvesTheSame | src/config.rs:134-154 | a path that resolves and its normal form resolve to the same node |
| PathNames.ResolvesAlikeIff | src/config.rs:134-154 | a path and its normal form resolve alike if and only if the path reaches its end or its normal form does not exist |
| PathNames.NormalFormMayResolveMore | src/config.rs:134-154 | for any missing directory name and any other existing name, the path /missing/../name does not resolve although its normal form does |
| PathNames.NormalIsNames | src/config.rs:146-153 | normal forms hold no empty, dot or dot-dot segment |
| ConfigPath.Check | src/config.rs:119-178 | the loops compute exactly the verdict on the normal form |
| ConfigPath.CheckIsIdempotent | src/config.rs:119-178 | checking an accepted path again returns it unchanged |
| ConfigPath.AcceptedIsNormal | src/config.rs:155-166 | an accepted string is the normal form with the input's trailing slash |
| ConfigPath.AcceptedExactly | src/config.rs:60-80 | a path is accepted if and only if it is absolute, NUL free, and its lower-cased normal form matches an allow rule and no deny rule, component by component |
| ConfigPath.AcceptedPlaces | src/config.rs:25-80 | the accepted paths place by place: which trees they lie in, which protected trees, files and names they avoid |
| ConfigPath.BlockedPlaces | src/config.rs:60-80 | the deny list answers exactly for absolute paths without NUL at a protected place, allowed or not |
| ConfigPath.LowerIsAscii | src/config.rs:167 | lower-casing changes the ASCII capitals and nothing else |
| ConfigPath.RefusalKinds | src/config.rs:119-133 | the three refusals that come before the rules, each exactly for its own cause |
| ConfigPath.VerdictDependsOnNormalForm | src/config.rs:167-177 | inputs with the same lower-cased normal form and trailing slash get the same verdict |
| ConfigPath.AllowPrefixIsDirectoryPrefix | src/config.rs:25-38 | an allow prefix matches exactly strictly below its directory, or the directory itself with a trailing slash |
| ConfigPath.AcceptedPathResolvesInside | src/config.rs:114-178 | on a tree without links an accepted request and the string handed on resolve to the same node; a deny rule matches that node in some spelling if and only if it is one that looks at the trailing slash; the node lies in an allowed directory if and only if the names matched in lower case are in lower case |
| ConfigPath.AcceptedNodeDeniedIff | src/config.rs:60-80 | the node of an accepted path is denied in some spelling, as spelt or lower-cased, exactly by a rule that looks at the trailing slash |
| ConfigPath.AcceptedThoughDeniedWithSlash | src/config.rs:60-66 | /etc/ssh is accepted, /etc/ssh/ denied |
| ConfigPath.AcceptedThoughDeniedWithoutSlash | src/config.rs:76-78 | /srv/.docker/config.json is denied, with a trailing slash accepted, and both resolve to one node |
| ConfigPath.AcceptedMayResolveOutside | src/config.rs:167-177 | "/ETC/x" is accepted, handed on as spelt, and resolves outside every allowed directory |
| BackupPath.NormalizeLexical | src/backup.rs:102-115 | the component loop on the growing buffer computes the normal form |
| BackupPath.FoldIsStack | src/backup.rs:104-112 | the component iterator and the segment stack yield the same names on every path |
| BackupPath.NormalisersAgree | src/backup.rs:102-115 | on accepted paths both normalisers produce the same string up to the kept trailing slash |
| BackupPath.RelativeTarget | src/backup.rs:102-115 | from any working directory a relative path leads to its normal form in the directory it rises to |
| BackupPath.AcceptanceIsContainment | src/backup.rs:123-128 | an accepted path lies in the root from every working directory if and only if the two are comparable: both absolute, or both relative and rising alike; the only contained paths refused are relative ones under "/" |
| BackupPath.AbsoluteAcceptance | src/backup.rs:123-128 | for two absolute paths acceptance is containment, whatever the working directory |
| BackupPath.AcceptedFrom | src/backup.rs:123-128 | from one given working directory, exactly which accepted paths lie in the root; from "/" all do |
| BackupPath.AcceptanceAtRoot | src/backup.rs:123-128 | from "/" acceptance is containment, except that pairs of different kinds are accepted only under an empty relative root |
| BackupPath.AcceptedTargetResolvesInside | src/backup.rs:118-128 | an accepted path that resolves on a tree without links, and is comparable or used from "/", resolves to a node at or below where the root leads |
| BackupPath.AcceptedMayEscape | src/backup.rs:123-128 | a relative root "name" accepts "../name/leaf", which leads beside it from any directory not called "name" |
| BackupPath.WithinRootsExactly | src/backup.rs:123-128 | for absolute roots and path acceptance is containment in some root; in general a comparable root accepts exactly when a root of the same kind holds the path from everywhere |
| BackupPath.DescentIsAccepted | src/backup.rs:102-128 | descending from a root without ever rising above it is accepted |
| BackupPath.EveryStepAcceptedIff | src/backup.rs:102-128 | every point on the way is inside exactly when no prefix of the suffix has more dot-dots than names |
| Multipart.UploadParts | src/backup.rs:241-295 | for every schedule of short reads the upload succeeds if and only if no read and no upload fails, and then the parts are the file in full chunks and one remainder and the total is its length; an error names what failed |
| Multipart.FillChunk | src/backup.rs:258-270 | fills the buffer with the next bytes, short only at the end of the file, and fails exactly when a read fails |
| Multipart.CutIsUnique | src/backup.rs:251-294 | the contract determines the parts completely |
| Multipart.BodiesLength | src/backup.rs:251-294 | the number of parts is the length divided by 16 MiB, rounded up |
| Multipart.NumbersCountUp | src/backup.rs:253-292 | part numbers are 1 to k exactly while k fits an i32 |
| Health.HealthProbes.Sync | src/health.rs:49-92 | the loops compute the reconciling function and keep live tasks equal to the map |
| Health.RunningSetMatchesLastRequest | src/health.rs:49-92 | after any sequence of calls live tasks, ids and signatures are those of the last request |
| Health.TaskKeptIff | src/health.rs:62-78 | a probe keeps its task if and only if all its specs in the request equal what runs; otherwise its task is new |
| LineBatcher.JournalStreamDelivers | src/journal_stream.rs:178-280 | in every interleaving chunks are well sized, none follows the end, delivery is a gap-free prefix, and each source keeps its order |
| LineBatcher.JournalStreamDeliversAll | src/journal_stream.rs:236-280 | if no send is refused every forwarded line is delivered before the end message |
| LineBatcher.JournalStreamGetsThrough | src/journal_stream.rs:178-280 | completeness: any lines from the two pipes have a run that delivers all of them and then the end message |
| LineBatcher.PodStreamDelivers | src/k8s_logs.rs:95-163 | the same for the single-loop variant |
| LineBatcher.PodReads | src/k8s_logs.rs:101-121 | while the loop runs it has taken in exactly the lines read, in order |
| LineBatcher.PodStreamEnds | src/k8s_logs.rs:122-148 | at the end of the stream everything read is delivered unless its chunk is refused, and the end message carries exactly the stream's error |
| LineBatcher.RunPodStream | src/k8s_logs.rs:101-163 | the loop is the fold of its step, and its chunks are well sized, none follows the end message, and they deliver a gap-free prefix |
| LineBatcher.TickDeliversEverything | src/journal_stream.rs:248-261 | an accepted tick delivers everything received so far |
| LineBatcher.Batcher.TakeLine | src/journal_stream.rs:221-234 | a line joins the buffer, the hundredth leaves with it as one chunk, no line is lost unless a send is refused, and the invariant is kept |
| LineBatcher.Batcher.Tick | src/journal_stream.rs:248-261 | a tick sends a non-empty buffer as one chunk, so that everything received is delivered unless refused, and the invariant is kept |
| LineBatcher.Batcher.Close | src/journal_stream.rs:236-245 | closing sends what is left, so that everything received is delivered unless refused, ends the task, and keeps the invariant |
| CommandSplit.SplitCommand | src/deploy.rs:16-53 | the character loop computes the split, and no token is empty |
| CommandSplit.SpaceSeparatesIff | src/deploy.rs:40-44 | a space separates whatever follows if and only if the first half ends unquoted and unescaped |
| CommandSplit.AsciiWhitespace | src/deploy.rs:40 | which ASCII characters separate |
| CommandSplit.SplitAtTabsAndNewlines | src/deploy.rs:38-45 | tabs and newlines separate like spaces |
| CommandSplit.UnterminatedRun | src/deploy.rs:34-52 | an unterminated quoted run yields its text as the last token |
| CommandSplit.ClosingQuoteIsOptional | src/deploy.rs:34-52 | a quote still open at the end may as well be closed there |
| CommandSplit.FinalBackslashIsDropped | src/deploy.rs:26-34 | a backslash at the very end disappears |
| CommandSplit.SplitUndoesRendering | src/deploy.rs:16-53 | any mix of plain, escaped and quoted text joined by whitespace splits back into its non-empty arguments |
| CommandSplit.RoundTripIff | src/deploy.rs:16-53 | protecting and joining arguments is undone by splitting if and only if none is empty |

## Left out

- Peer credentials, SQLite internals, PTYs, process spawning, sockets and the async runtime: replaced by steps and parameters.
- `handle` under concurrency is a state machine on values; `GateHandler` has its sequential statements. Aliasing of the shared gate state between tasks is not modelled beyond the one table.
- `read_to_limit` and `run` under concurrency are a state machine on values; `ReadToLimit` shows the code as written to be a replay of it, for executions with finitely many failing compare-exchanges.
- Error replies to the peer and the closing frame of a connection.
- Cancellation of a partly read frame in the PTY loop: incoming frames there are arbitrary.
- Enrolling an approver: the keyring file may become anything at any step.
- First of several invalid keyring entries: errors name the kind, not the entry or the message text.
- Relative order of database failures inside `approve`: one flag stands for all of them.
- Symbolic links, canonicalisation and file opening in the path guards.
- The pump that copies gate frames to the server, and everything after the outgoing queue.
- Start and stop of streams by id, probe execution, Docker, systemd, Kubernetes objects, apt, statistics, packaging.
- Ends of probe tasks other than by abort: a probe task loops for ever.
- JournalStreamDeliversAll: speaks of lines the readers forwarded, because a read error ends a reader early without a message.
