/** The local policy of `src/privileged/policy.rs` on operations that run as root. */
module Policy {
  import opened Wrappers
  import opened Bytes

  datatype TrustedOperation =
    | RootCommand(program: Utf8, args: seq<Utf8>, timeoutSecs: nat)
    | RootPty(shell: Utf8, ttlSecs: nat, cols: nat, rows: nat)

  datatype PolicyError =
    | ProgramNotBoundedAbsolute
    | ArgumentsExceedLimits
    | TimeoutOutsideLimits
    | ShellNotAllowed
    | PtyLimitsInvalid

  datatype Tier = Two

  const NUL: byte := 0

  predicate ProgramOk(program: Utf8) {
    |program| > 0 && program[0] == 47 && NUL !in program && |program| <= 4096
  }

  predicate ArgumentsOk(args: seq<Utf8>) {
    |args| <= 256 && forall arg <- args :: NUL !in arg && |arg| <= 16 * 1024
  }

  predicate ShellOk(shell: Utf8) {
    shell == Ascii("/bin/bash") || shell == Ascii("/bin/sh") || shell == Ascii("/usr/bin/bash")
  }

  function Classify(operation: TrustedOperation): Result<Tier, PolicyError> {
    match operation
    case RootCommand(program, args, timeoutSecs) =>
      if !ProgramOk(program) then Err(ProgramNotBoundedAbsolute)
      else if !ArgumentsOk(args) then Err(ArgumentsExceedLimits)
      else if !(1 <= timeoutSecs <= 3600) then Err(TimeoutOutsideLimits)
      else Ok(Two)
    case RootPty(shell, ttlSecs, cols, rows) =>
      if !ShellOk(shell) then Err(ShellNotAllowed)
      else if !(60 <= ttlSecs <= 3600) || cols == 0 || rows == 0 then Err(PtyLimitsInvalid)
      else Ok(Two)
  }

  /** How long a challenge for this operation asks to stay approvable. */
  function RequestedTtl(operation: TrustedOperation): nat {
    match operation
    case RootCommand(_, _, timeoutSecs) => timeoutSecs + 60
    case RootPty(_, ttlSecs, _, _) => ttlSecs
  }

  function Clamp(x: int, low: int, high: int): int
    requires low <= high
  {
    if x < low then low else if x > high then high else x
  }

  /** The policy in plain numbers: absolute bounded programs, bounded arguments and times, three shells. */
  ghost predicate Allowed(operation: TrustedOperation) {
    match operation
    case RootCommand(program, args, timeoutSecs) =>
      && 1 <= |program| <= 4096 && program[0] == 0x2F && 0 !in program
      && |args| <= 256 && (forall i :: 0 <= i < |args| ==> |args[i]| <= 16384 && 0 !in args[i])
      && 1 <= timeoutSecs <= 3600
    case RootPty(shell, ttlSecs, cols, rows) =>
      && shell in {Ascii("/bin/bash"), Ascii("/bin/sh"), Ascii("/usr/bin/bash")}
      && 60 <= ttlSecs <= 3600 && cols >= 1 && rows >= 1
  }

  lemma AllowedIff(operation: TrustedOperation)
    ensures Classify(operation).Ok? <==> Allowed(operation)
  {
  }

  /** Seconds an allowed operation stays approvable. */
  function Lifetime(operation: TrustedOperation): nat {
    match operation
    case RootPty(_, ttlSecs, _, _) => ttlSecs
    case RootCommand(_, _, timeoutSecs) => if timeoutSecs <= 3540 then timeoutSecs + 60 else 3600
  }
}
