/**
 * Output capture of `src/exec.rs`: two reader tasks share one atomic byte budget
 * while `run` waits, times out, joins and aborts them.
 *
 * Every atomic access, channel send and await is its own step, so every
 * interleaving is a run. A relaxed load may return any earlier (hence larger)
 * value of the budget and the weak compare-exchange may fail for no reason. A
 * task can be aborted only where it awaits, at its read. `max` stands for the
 * shared constant MAX_OUTPUT_BYTES, which is not part of this model.
 */
module Exec {
  import opened Bytes

  const READ_BUFFER: nat := 8192

  datatype Stream = Stdout | Stderr

  /** Where a reader task is in `read_to_limit`. */
  datatype Pc =
    | Reading
    | Loading(chunk: Bytes)
    | Swapping(chunk: Bytes, seen: nat)
    | Sending(chunk: Bytes, reserved: nat)
    | Flagging
    | Signalling
    | AtEof
    | AtLimit
    | Failed
    | Aborted

  /** `pipe` is all the child has written so far, `pos` how much of it was read, `sent` the chunks queued. */
  datatype Reader = Reader(pc: Pc, pipe: Bytes, closed: bool, pos: nat, sent: seq<Bytes>)

  datatype Phase = Waiting | Joining | Draining | Finished(stdout: Bytes, stderr: Bytes, truncated: bool)

  datatype State = State(
    budget: nat, limited: bool, signalled: bool, out: Reader, err: Reader,
    phase: Phase, timedOut: bool, joined: set<Stream>, failures: set<Stream>)

  datatype Action =
    | Produce(stream: Stream, bytes: Bytes)
    | ClosePipe(stream: Stream)
    | Read(stream: Stream, n: nat)
    | ReadEof(stream: Stream)
    | ReadError(stream: Stream)
    | Load(stream: Stream, seen: nat)
    | Swap(stream: Stream, spurious: bool)
    | Send(stream: Stream)
    | Flag(stream: Stream)
    | Signal(stream: Stream)
    | ChildExits
    | Deadline
    | LimitReceived
    | Join(stream: Stream)
    | GraceExpires
    | Abort(stream: Stream)
    | Finish

  function Min(a: nat, b: nat): nat {
    if a < b then a else b
  }

  /**
   * `concatenate`: drains the queued chunks, cutting at `max`. `cut` reports
   * whether the cutting branch was taken.
   */
  method Concatenate(chunks: seq<Bytes>, max: nat) returns (buf: Bytes, cut: bool)
    ensures cut <==> |Flat(chunks)| > max
    ensures buf == Flat(chunks)[..Min(|Flat(chunks)|, max)]
  {
    buf, cut := [], false;
    var i := 0;
    while i < |chunks|
      invariant 0 <= i <= |chunks|
      invariant buf == Flat(chunks[..i]) && |buf| <= max
    {
      var chunk := chunks[i];
      assert chunks[..i + 1][..i] == chunks[..i];
      if |buf| + |chunk| > max {
        FlatGrows(chunks, i + 1);
        assert Flat(chunks[..i + 1]) == buf + chunk;
        buf := buf + chunk[..max - |buf|];
        assert buf == Flat(chunks[..i + 1])[..max];
        return buf, true;
      }
      buf := buf + chunk;
      i := i + 1;
    }
    assert chunks[..i] == chunks;
  }

  function Initial(max: nat): State {
    var r := Reader(Reading, [], false, 0, []);
    State(max, false, false, r, r, Waiting, false, {}, {})
  }

  function Get(s: State, w: Stream): Reader {
    if w.Stdout? then s.out else s.err
  }

  function Set(s: State, w: Stream, r: Reader): State {
    if w.Stdout? then s.(out := r) else s.(err := r)
  }

  function Other(w: Stream): Stream {
    if w.Stdout? then Stderr else Stdout
  }

  predicate Ended(r: Reader) {
    r.pc.AtEof? || r.pc.AtLimit? || r.pc.Failed? || r.pc.Aborted?
  }

  /** One step of a reader task; the first component is the budget it leaves. */
  function ReaderStep(budget: nat, r: Reader, a: Action): (nat, Reader) {
    if r.pc.Reading? && a.Read? then
      (budget, if 0 < a.n <= READ_BUFFER && r.pos + a.n <= |r.pipe|
               then r.(pc := Loading(r.pipe[r.pos..r.pos + a.n]), pos := r.pos + a.n) else r)
    else if r.pc.Reading? && a.ReadEof? then
      (budget, if r.closed && r.pos == |r.pipe| then r.(pc := AtEof) else r)
    else if r.pc.Reading? && a.ReadError? then (budget, r.(pc := Failed))
    else if r.pc.Loading? && a.Load? then
      var chunk := r.pc.chunk;
      (budget, if a.seen < budget then r
               else if Min(|chunk|, a.seen) == 0 then r.(pc := Sending(chunk, 0))
               else r.(pc := Swapping(chunk, a.seen)))
    else if r.pc.Swapping? && a.Swap? then
      var chunk, seen := r.pc.chunk, r.pc.seen;
      if seen != budget || a.spurious then (budget, r.(pc := Loading(chunk)))
      else (budget - Min(|chunk|, seen), r.(pc := Sending(chunk, Min(|chunk|, seen))))
    else if r.pc.Sending? && a.Send? then
      var chunk, reserved := r.pc.chunk, r.pc.reserved;
      (budget, if reserved < |chunk| then r.(pc := Flagging, sent := r.sent + [chunk[..reserved]])
               else r.(pc := Reading, sent := r.sent + [chunk]))
    else if r.pc.Flagging? && a.Flag? then (budget, r.(pc := Signalling))
    else if r.pc.Signalling? && a.Signal? then (budget, r.(pc := AtLimit))
    else (budget, r)
  }

  predicate IsReaderAction(a: Action) {
    a.Read? || a.ReadEof? || a.ReadError? || a.Load? || a.Swap? || a.Send? || a.Flag? || a.Signal?
  }

  /** What `run` returns once both readers are over. */
  function Result(s: State): Phase {
    Finished(Flat(s.out.sent), Flat(s.err.sent),
             s.limited || s.joined != {Stdout, Stderr} || s.failures != {})
  }

  /** A task step, and what it does to the shared flag and the limit channel. */
  function TaskStep(s: State, w: Stream, a: Action): State {
    var r := Get(s, w);
    var (budget, r') := ReaderStep(s.budget, r, a);
    Set(s, w, r').(
      budget := budget,
      limited := s.limited || (a.Flag? && r.pc.Flagging?),
      signalled := s.signalled || (a.Signal? && r.pc.Signalling?))
  }

  /** A step of the child on one of its pipes. */
  function PipeStep(r: Reader, a: Action): Reader {
    if a.Produce? && !r.closed then r.(pipe := r.pipe + a.bytes)
    else if a.ClosePipe? then r.(closed := true)
    else r
  }

  /** A step of `run` itself. */
  function RunStep(s: State, a: Action): State {
    match a
    case ChildExits => if s.phase.Waiting? then s.(phase := Joining) else s
    case Deadline => if s.phase.Waiting? then s.(phase := Joining, timedOut := true) else s
    case LimitReceived => if s.phase.Waiting? && s.signalled then s.(phase := Joining) else s
    case Join(w) =>
      if s.phase.Joining? && w !in s.joined && Ended(Get(s, w)) then
        s.(joined := s.joined + {w},
           failures := if Get(s, w).pc.Failed? then s.failures + {w} else s.failures,
           phase := if Other(w) in s.joined then Draining else Joining)
      else s
    case GraceExpires => if s.phase.Joining? then s.(phase := Draining) else s
    case Abort(w) =>
      if s.phase.Draining? && w !in s.joined && Get(s, w).pc.Reading?
      then Set(s, w, Get(s, w).(pc := Aborted)) else s
    case Finish =>
      if s.phase.Draining? && Ended(s.out) && Ended(s.err) then s.(phase := Result(s)) else s
    case _ => s
  }

  function Step(s: State, a: Action): State {
    if IsReaderAction(a) then TaskStep(s, a.stream, a)
    else if a.Produce? || a.ClosePipe? then Set(s, a.stream, PipeStep(Get(s, a.stream), a))
    else RunStep(s, a)
  }

  function Run(s: State, actions: seq<Action>): State {
    if actions == [] then s else Step(Run(s, actions[..|actions| - 1]), actions[|actions| - 1])
  }

  /** Bytes taken from the budget whose chunk is not queued yet. */
  function InFlight(r: Reader): nat {
    if r.pc.Sending? then r.pc.reserved else 0
  }

  function Captured(r: Reader): Bytes {
    Flat(r.sent)
  }

  /** What one reader has queued, against what its pipe carried. */
  ghost predicate ReaderOk(budget: nat, r: Reader) {
    && r.pos <= |r.pipe|
    && match r.pc
       case Loading(chunk) => Captured(r) + chunk == r.pipe[..r.pos]
       case Swapping(chunk, seen) => Captured(r) + chunk == r.pipe[..r.pos]
       case Sending(chunk, reserved) =>
         && Captured(r) + chunk == r.pipe[..r.pos]
         && reserved <= |chunk| && (reserved < |chunk| ==> budget == 0)
       case Flagging => budget == 0 && Captured(r) < r.pipe[..r.pos]
       case Signalling => budget == 0 && Captured(r) < r.pipe[..r.pos]
       case AtLimit => budget == 0 && Captured(r) < r.pipe[..r.pos]
       case AtEof => r.closed && Captured(r) == r.pipe
       case _ => Captured(r) == r.pipe[..r.pos]
  }

  ghost predicate PastFlag(r: Reader) {
    r.pc.Signalling? || r.pc.AtLimit?
  }

  /** The two readers against the budget they share. */
  ghost predicate DataOk(max: nat, s: State) {
    && ReaderOk(s.budget, s.out) && ReaderOk(s.budget, s.err)
    && s.budget + |Captured(s.out)| + |Captured(s.err)| + InFlight(s.out) + InFlight(s.err) == max
    && (s.limited <==> PastFlag(s.out) || PastFlag(s.err))
  }

  ghost predicate JoinOk(s: State, w: Stream) {
    w in s.joined ==> Ended(Get(s, w)) && !Get(s, w).pc.Aborted? && (Get(s, w).pc.Failed? <==> w in s.failures)
  }

  ghost predicate RunOk(s: State) {
    && JoinOk(s, Stdout) && JoinOk(s, Stderr)
    && s.failures <= s.joined
    && (s.phase.Waiting? || s.phase.Joining? ==> !s.out.pc.Aborted? && !s.err.pc.Aborted?)
    && (s.phase.Finished? ==> Ended(s.out) && Ended(s.err) && s.phase == Result(s))
  }

  ghost predicate Inv(max: nat, s: State) {
    DataOk(max, s) && RunOk(s)
  }

  /** A reader step preserves its own part and moves bytes between budget, flight and queue only. */
  ghost predicate GoodStep(budget: nat, r: Reader, a: Action, b: nat, r': Reader) {
    && ReaderOk(b, r') && b <= budget
    && b + |Captured(r')| + InFlight(r') == budget + |Captured(r)| + InFlight(r)
    && (Ended(r) ==> r' == r)
    && (PastFlag(r') <==> PastFlag(r) || (a.Flag? && r.pc.Flagging?))
    && (r'.pc.Aborted? ==> r.pc.Aborted?)
  }

  lemma ReadOk(budget: nat, r: Reader, a: Action)
    requires ReaderOk(budget, r) && r.pc.Reading? && (a.Read? || a.ReadEof? || a.ReadError?)
    ensures GoodStep(budget, r, a, ReaderStep(budget, r, a).0, ReaderStep(budget, r, a).1)
  {
    assert r.pipe[..|r.pipe|] == r.pipe;
    if a.Read? && r.pos + a.n <= |r.pipe| {
      assert r.pipe[..r.pos] + r.pipe[r.pos..r.pos + a.n] == r.pipe[..r.pos + a.n];
    }
  }

  lemma SendOk(budget: nat, r: Reader, a: Action)
    requires ReaderOk(budget, r) && r.pc.Sending? && a.Send?
    ensures GoodStep(budget, r, a, ReaderStep(budget, r, a).0, ReaderStep(budget, r, a).1)
  {
    var chunk, reserved := r.pc.chunk, r.pc.reserved;
    FlatAppend(r.sent, chunk[..reserved]);
    FlatAppend(r.sent, chunk);
    if reserved < |chunk| {
      assert Captured(r) + chunk[..reserved] <= Captured(r) + chunk;
    }
  }

  /** The budget accesses and the flag leave pipe and queue alone. */
  lemma ReserveOk(budget: nat, r: Reader, a: Action)
    requires ReaderOk(budget, r) && (a.Load? || a.Swap? || a.Flag? || a.Signal?)
    ensures GoodStep(budget, r, a, ReaderStep(budget, r, a).0, ReaderStep(budget, r, a).1)
  {
    assert ReaderStep(budget, r, a).1.sent == r.sent;
  }

  lemma ReaderStepOk(budget: nat, r: Reader, a: Action)
    requires ReaderOk(budget, r) && IsReaderAction(a)
    ensures GoodStep(budget, r, a, ReaderStep(budget, r, a).0, ReaderStep(budget, r, a).1)
  {
    if r.pc.Reading? && (a.Read? || a.ReadEof? || a.ReadError?) {
      ReadOk(budget, r, a);
    } else if r.pc.Sending? && a.Send? {
      SendOk(budget, r, a);
    } else if a.Load? || a.Swap? || a.Flag? || a.Signal? {
      ReserveOk(budget, r, a);
    } else {
      assert ReaderStep(budget, r, a) == (budget, r);
    }
  }

  /** A reader keeps its part when the other one only lowers the budget. */
  lemma ReaderKept(budget: nat, lower: nat, r: Reader)
    requires ReaderOk(budget, r) && lower <= budget
    ensures ReaderOk(lower, r)
  {
  }

  lemma PipeOk(budget: nat, r: Reader, a: Action)
    requires ReaderOk(budget, r)
    ensures ReaderOk(budget, PipeStep(r, a))
  {
    if a.Produce? && !r.closed { assert (r.pipe + a.bytes)[..r.pos] == r.pipe[..r.pos]; }
  }

  lemma TaskKeepsData(max: nat, s: State, w: Stream, a: Action)
    requires DataOk(max, s) && IsReaderAction(a)
    ensures DataOk(max, TaskStep(s, w, a))
  {
    ReaderStepOk(s.budget, Get(s, w), a);
    ReaderKept(s.budget, ReaderStep(s.budget, Get(s, w), a).0, Get(s, Other(w)));
  }

  lemma TaskKeepsRun(max: nat, s: State, w: Stream, a: Action)
    requires Inv(max, s) && IsReaderAction(a)
    ensures RunOk(TaskStep(s, w, a))
  {
    ReaderStepOk(s.budget, Get(s, w), a);
  }

  lemma PipeKeepsData(max: nat, s: State, w: Stream, a: Action)
    requires DataOk(max, s)
    ensures DataOk(max, Set(s, w, PipeStep(Get(s, w), a)))
  {
    PipeOk(s.budget, Get(s, w), a);
    assert PipeStep(Get(s, w), a).sent == Get(s, w).sent && PipeStep(Get(s, w), a).pc == Get(s, w).pc;
  }

  lemma PipeKeepsRun(s: State, w: Stream, a: Action)
    requires RunOk(s)
    ensures RunOk(Set(s, w, PipeStep(Get(s, w), a)))
  {
    assert PipeStep(Get(s, w), a).sent == Get(s, w).sent && PipeStep(Get(s, w), a).pc == Get(s, w).pc;
  }

  lemma RunKeepsData(max: nat, s: State, a: Action)
    requires DataOk(max, s)
    ensures DataOk(max, RunStep(s, a))
  {
  }

  lemma RunKeepsRun(s: State, a: Action)
    requires RunOk(s)
    ensures RunOk(RunStep(s, a))
  {
  }

  lemma StepKeepsInv(max: nat, s: State, a: Action)
    requires Inv(max, s)
    ensures Inv(max, Step(s, a))
  {
    if IsReaderAction(a) {
      TaskKeepsData(max, s, a.stream, a);
      TaskKeepsRun(max, s, a.stream, a);
    } else if a.Produce? || a.ClosePipe? {
      PipeKeepsData(max, s, a.stream, a);
      PipeKeepsRun(s, a.stream, a);
    } else {
      RunKeepsData(max, s, a);
      RunKeepsRun(s, a);
    }
  }

  lemma {:induction false} ReachableInv(max: nat, actions: seq<Action>)
    ensures Inv(max, Run(Initial(max), actions))
  {
    if actions == [] {
    } else {
      ReachableInv(max, actions[..|actions| - 1]);
      StepKeepsInv(max, Run(Initial(max), actions[..|actions| - 1]), actions[|actions| - 1]);
    }
  }

  /** Conservation, in every state of every interleaving: budget, bytes in flight and bytes queued make `max`. */
  lemma BudgetIsConserved(max: nat, actions: seq<Action>)
    ensures var s := Run(Initial(max), actions);
            s.budget + InFlight(s.out) + InFlight(s.err) + |Captured(s.out)| + |Captured(s.err)| == max
  {
    ReachableInv(max, actions);
  }

  /** Each captured stream is a prefix of what its pipe produced, at every moment. */
  lemma CapturedIsPrefix(max: nat, actions: seq<Action>, w: Stream)
    ensures var r := Get(Run(Initial(max), actions), w); Captured(r) <= r.pipe
  {
    ReachableInv(max, actions);
    var r := Get(Run(Initial(max), actions), w);
    assert r.pipe[..r.pos] <= r.pipe;
  }

  /** A result with the limit flag set carries exactly `max` bytes, and the budget is gone. */
  lemma LimitMeansExactlyMax(max: nat, actions: seq<Action>)
    requires var s := Run(Initial(max), actions); s.phase.Finished? && s.limited
    ensures var s := Run(Initial(max), actions);
            s.budget == 0 && |s.phase.stdout| + |s.phase.stderr| == max && s.phase.truncated
  {
    ReachableInv(max, actions);
  }

  /** A result that does not claim truncation holds both pipes in full, both having been closed by the child. */
  lemma UntruncatedIsComplete(max: nat, actions: seq<Action>)
    requires var s := Run(Initial(max), actions); s.phase.Finished? && !s.phase.truncated
    ensures var s := Run(Initial(max), actions);
            && s.out.closed && s.phase.stdout == s.out.pipe
            && s.err.closed && s.phase.stderr == s.err.pipe
  {
    ReachableInv(max, actions);
    var s := Run(Initial(max), actions);
    assert Stdout in s.joined && Stderr in s.joined && JoinOk(s, Stdout) && JoinOk(s, Stderr);
  }

  /** When both readers were joined without an error, the flag is exact: set just when bytes were lost. */
  lemma TruncationIsExactWhenJoined(max: nat, actions: seq<Action>)
    requires var s := Run(Initial(max), actions);
             s.phase.Finished? && s.joined == {Stdout, Stderr} && s.failures == {}
    ensures var s := Run(Initial(max), actions);
            s.phase.truncated <==> s.phase.stdout != s.out.pipe || s.phase.stderr != s.err.pipe
  {
    ReachableInv(max, actions);
    var s := Run(Initial(max), actions);
    assert Stdout in s.joined && Stderr in s.joined && JoinOk(s, Stdout) && JoinOk(s, Stderr);
  }

  /** The cutting branch of `concatenate` is unreachable from `run`. */
  lemma ConcatenateNeverCuts(max: nat, actions: seq<Action>, w: Stream)
    ensures var chunks := Get(Run(Initial(max), actions), w).sent;
            |Flat(chunks)| <= max && Flat(chunks)[..Min(|Flat(chunks)|, max)] == Flat(chunks)
  {
    ReachableInv(max, actions);
  }

  /** A result is final: whatever the tasks still do, no continuation of the run changes it. */
  lemma {:induction false} ResultIsFinal(s: State, actions: seq<Action>)
    requires s.phase.Finished?
    ensures Run(s, actions).phase == s.phase
  {
    if actions == [] {
    } else {
      ResultIsFinal(s, actions[..|actions| - 1]);
    }
  }

  // ---- Runs that get through ----

  lemma RunSnoc(s: State, actions: seq<Action>, a: Action)
    ensures Run(s, actions + [a]) == Step(Run(s, actions), a)
  {
    assert (actions + [a])[..|actions|] == actions;
  }

  lemma {:induction false} RunAppend(s: State, a: seq<Action>, b: seq<Action>)
    ensures Run(s, a + b) == Run(Run(s, a), b)
  {
    if b == [] {
      assert a + b == a;
    } else {
      var front, last := b[..|b| - 1], b[|b| - 1];
      assert a + b == a + front + [last];
      RunAppend(s, a, front);
      RunSnoc(s, a + front, last);
    }
  }

  lemma RunTwo(s: State, a: Action, b: Action)
    ensures Run(s, [a, b]) == Step(Step(s, a), b)
  {
    assert [a, b] == [] + [a] + [b];
    RunSnoc(s, [], a);
    RunSnoc(s, [] + [a], b);
  }

  lemma RunFour(s: State, q: seq<Action>)
    requires |q| == 4
    ensures Run(s, q) == Step(Step(Step(Step(s, q[0]), q[1]), q[2]), q[3])
  {
    assert q == [q[0], q[1]] + [q[2], q[3]];
    RunTwo(s, q[0], q[1]);
    RunAppend(s, [q[0], q[1]], [q[2], q[3]]);
    RunTwo(Run(s, [q[0], q[1]]), q[2], q[3]);
  }

  /** A task on its own: its steps on a budget that nobody else touches. */
  function TaskAlone(budget: nat, r: Reader, actions: seq<Action>): (nat, Reader) {
    if actions == [] then (budget, r)
    else
      var (b, r') := TaskAlone(budget, r, actions[..|actions| - 1]);
      ReaderStep(b, r', actions[|actions| - 1])
  }

  lemma AloneSnoc(budget: nat, r: Reader, actions: seq<Action>, a: Action)
    ensures var (b, r') := TaskAlone(budget, r, actions);
            TaskAlone(budget, r, actions + [a]) == ReaderStep(b, r', a)
  {
    assert (actions + [a])[..|actions|] == actions;
  }

  lemma {:induction false} AloneAppend(budget: nat, r: Reader, a: seq<Action>, b: seq<Action>)
    ensures var (budget', r') := TaskAlone(budget, r, a);
            TaskAlone(budget, r, a + b) == TaskAlone(budget', r', b)
  {
    if b == [] {
      assert a + b == a;
    } else {
      var front, last := b[..|b| - 1], b[|b| - 1];
      assert a + b == a + front + [last];
      AloneAppend(budget, r, a, front);
      AloneSnoc(budget, r, a + front, last);
    }
  }

  ghost predicate OfTask(actions: seq<Action>, w: Stream) {
    forall a <- actions :: IsReaderAction(a) && a.stream == w
  }

  /** The state after steps of one task only: its reader, the budget, and what its end has flagged and signalled. */
  function TaskDone(s: State, w: Stream, budget: nat, r: Reader): State {
    Set(s, w, r).(budget := budget, limited := s.limited || r.pc.Signalling? || r.pc.AtLimit?,
                  signalled := s.signalled || r.pc.AtLimit?)
  }

  lemma OneTaskStep(s: State, w: Stream, b: nat, r: Reader, a: Action)
    requires IsReaderAction(a) && a.stream == w
    ensures Step(TaskDone(s, w, b, r), a) == TaskDone(s, w, ReaderStep(b, r, a).0, ReaderStep(b, r, a).1)
  {
  }

  /** Steps of one task in a run are its steps alone. */
  lemma {:induction false} RunOfTask(s: State, w: Stream, actions: seq<Action>)
    requires OfTask(actions, w) && !PastFlag(Get(s, w))
    ensures var (b, r) := TaskAlone(s.budget, Get(s, w), actions); Run(s, actions) == TaskDone(s, w, b, r)
  {
    if actions == [] {
    } else {
      var front, last := actions[..|actions| - 1], actions[|actions| - 1];
      RunOfTask(s, w, front);
      var (b, r) := TaskAlone(s.budget, Get(s, w), front);
      OneTaskStep(s, w, b, r, last);
    }
  }

  /** A reader at its read, with everything its pipe will ever carry. */
  ghost predicate AtRead(r: Reader) {
    r.pc.Reading? && r.closed && r.pos <= |r.pipe|
  }

  /** `actions` take a lone task from `r` with this budget to `r'` with that one. */
  ghost predicate Leads(budget: nat, r: Reader, actions: seq<Action>, w: Stream, budget': nat, r': Reader) {
    OfTask(actions, w) && TaskAlone(budget, r, actions) == (budget', r')
  }

  lemma LeadsThen(budget: nat, r: Reader, actions: seq<Action>, w: Stream, b: nat, r1: Reader, a: Action)
    requires Leads(budget, r, actions, w, b, r1) && IsReaderAction(a) && a.stream == w
    ensures Leads(budget, r, actions + [a], w, ReaderStep(b, r1, a).0, ReaderStep(b, r1, a).1)
  {
    AloneSnoc(budget, r, actions, a);
  }

  lemma LeadsOn(
      budget: nat, r: Reader, a: seq<Action>, w: Stream, b: nat, r1: Reader, c: seq<Action>, b': nat, r': Reader)
    requires Leads(budget, r, a, w, b, r1) && Leads(b, r1, c, w, b', r')
    ensures Leads(budget, r, a + c, w, b', r')
  {
    AloneAppend(budget, r, a, c);
  }

  /** A chunk of `n` bytes is read and reserved as far as the budget goes. */
  lemma ReserveChunk(budget: nat, r: Reader, w: Stream, n: nat) returns (q: seq<Action>, b: nat, r': Reader)
    requires AtRead(r) && 0 < n <= READ_BUFFER && r.pos + n <= |r.pipe|
    ensures Leads(budget, r, q, w, b, r') && b == budget - Min(n, budget)
    ensures r'.pc.Sending? && |r'.pc.chunk| == n && r'.pc.reserved == Min(n, budget)
    ensures r'.pipe == r.pipe && r'.closed && r'.pos == r.pos + n
  {
    q, b, r' := [], budget, r;
    LeadsThen(budget, r, q, w, b, r', Read(w, n));
    q, r' := q + [Read(w, n)], ReaderStep(b, r', Read(w, n)).1;
    assert r'.pc.Loading? && |r'.pc.chunk| == n && r'.pos == r.pos + n;
    LeadsThen(budget, r, q, w, b, r', Load(w, budget));
    q, r' := q + [Load(w, budget)], ReaderStep(b, r', Load(w, budget)).1;
    if budget > 0 {
      LeadsThen(budget, r, q, w, b, r', Swap(w, false));
      q, b, r' := q + [Swap(w, false)], ReaderStep(b, r', Swap(w, false)).0, ReaderStep(b, r', Swap(w, false)).1;
    }
  }

  /** If the budget covered the chunk it is sent and the task reads on; otherwise the task ends at the limit. */
  lemma SendChunk(budget: nat, r: Reader, w: Stream, n: nat) returns (q: seq<Action>, b: nat, r': Reader)
    requires AtRead(r) && 0 < n <= READ_BUFFER && r.pos + n <= |r.pipe|
    ensures Leads(budget, r, q, w, b, r') && b == budget - Min(n, budget)
    ensures r'.pipe == r.pipe && if n <= budget then AtRead(r') && r'.pos == r.pos + n else r'.pc.AtLimit?
  {
    q, b, r' := ReserveChunk(budget, r, w, n);
    LeadsThen(budget, r, q, w, b, r', Send(w));
    q, r' := q + [Send(w)], ReaderStep(b, r', Send(w)).1;
    if n > budget {
      LeadsThen(budget, r, q, w, b, r', Flag(w));
      q, r' := q + [Flag(w)], ReaderStep(b, r', Flag(w)).1;
      LeadsThen(budget, r, q, w, b, r', Signal(w));
      q, r' := q + [Signal(w)], ReaderStep(b, r', Signal(w)).1;
    }
  }

  /** A reader that goes on alone ends at the end of its pipe if the budget covers it, and at the limit otherwise. */
  lemma {:induction false} ReaderFinishes(budget: nat, r: Reader, w: Stream) returns (q: seq<Action>, b: nat, r': Reader)
    requires AtRead(r)
    ensures Leads(budget, r, q, w, b, r') && b == budget - Min(|r.pipe| - r.pos, budget)
    ensures r'.pipe == r.pipe && r'.pc == if |r.pipe| - r.pos <= budget then AtEof else AtLimit
    decreases |r.pipe| - r.pos
  {
    var n := Min(|r.pipe| - r.pos, READ_BUFFER);
    if n == 0 {
      q, b, r' := [], budget, r;
      LeadsThen(budget, r, q, w, b, r', ReadEof(w));
      q, r' := q + [ReadEof(w)], ReaderStep(b, r', ReadEof(w)).1;
    } else {
      q, b, r' := SendChunk(budget, r, w, n);
      if n <= budget {
        var rest, b2, r2 := ReaderFinishes(b, r', w);
        LeadsOn(budget, r, q, w, b, r', rest, b2, r2);
        q, b, r' := q + rest, b2, r2;
      }
    }
  }

  /** What the child writes before anything is read. */
  lemma Produced(max: nat, out: Bytes, err: Bytes)
    ensures Run(Initial(max), [Produce(Stdout, out), Produce(Stderr, err), ClosePipe(Stdout), ClosePipe(Stderr)])
            == State(max, false, false, Reader(Reading, out, true, 0, []), Reader(Reading, err, true, 0, []),
                     Waiting, false, {}, {})
  {
    RunFour(Initial(max), [Produce(Stdout, out), Produce(Stderr, err), ClosePipe(Stdout), ClosePipe(Stderr)]);
    assert [] + out == out && [] + err == err;
  }

  lemma StepJoins(s: State)
    requires s.phase.Joining? && s.joined == {} && s.failures == {}
    requires (s.out.pc.AtEof? || s.out.pc.AtLimit?) && (s.err.pc.AtEof? || s.err.pc.AtLimit?)
    ensures Step(Step(s, Join(Stdout)), Join(Stderr)) == s.(joined := {Stdout, Stderr}, phase := Draining)
  {
  }

  /** The wait ends by the child's exit, the deadline or the limit; then both readers are joined and the result formed. */
  lemma Concludes(s: State, how: Action)
    requires s.phase.Waiting? && s.joined == {} && s.failures == {} && !s.timedOut
    requires (s.out.pc.AtEof? || s.out.pc.AtLimit?) && (s.err.pc.AtEof? || s.err.pc.AtLimit?)
    requires how == ChildExits || how == Deadline || (how == LimitReceived && s.signalled)
    ensures var t := Run(s, [how, Join(Stdout), Join(Stderr), Finish]);
            && t.phase == Finished(Flat(s.out.sent), Flat(s.err.sent), s.limited)
            && (t.timedOut <==> how == Deadline)
  {
    RunFour(s, [how, Join(Stdout), Join(Stderr), Finish]);
    var s1 := Step(s, how);
    assert s1 == s.(phase := Joining, timedOut := how == Deadline);
    StepJoins(s1);
  }

  /** Both readers going on alone, one after the other; the budget is that of the moment between them. */
  lemma BothFinish(s: State) returns (q: seq<Action>, u: State, p: seq<Action>, t: State)
    requires AtRead(s.out) && AtRead(s.err)
    ensures u == Run(s, q) && t == Run(u, p) && u.out.pipe == s.out.pipe && t.err.pipe == s.err.pipe
    ensures u.out.pc == if |s.out.pipe| - s.out.pos <= s.budget then AtEof else AtLimit
    ensures t.err.pc == if |s.err.pipe| - s.err.pos <= u.budget then AtEof else AtLimit
    ensures u == s.(out := u.out, budget := s.budget - Min(|s.out.pipe| - s.out.pos, s.budget),
                    limited := s.limited || u.out.pc.AtLimit?, signalled := s.signalled || u.out.pc.AtLimit?)
    ensures t == u.(err := t.err, budget := t.budget,
                    limited := u.limited || t.err.pc.AtLimit?, signalled := u.signalled || t.err.pc.AtLimit?)
  {
    var b, r, c, r';
    q, b, r := ReaderFinishes(s.budget, s.out, Stdout);
    RunOfTask(s, Stdout, q);
    u := Run(s, q);
    p, c, r' := ReaderFinishes(u.budget, u.err, Stderr);
    RunOfTask(u, Stderr, p);
    t := Run(u, p);
  }

  /** What a run that read on to the end or the limit has captured, out of the invariant alone. */
  lemma CapturedIs(max: nat, out: Bytes, err: Bytes, u: State, t: State)
    requires DataOk(max, u) && DataOk(max, t) && u.out == t.out && u.err.sent == [] && u.err.pc.Reading?
    requires t.out.pipe == out && t.err.pipe == err && u.budget == max - Min(|out|, max)
    requires t.out.pc == (if |out| <= max then AtEof else AtLimit)
    requires t.err.pc == (if |err| <= u.budget then AtEof else AtLimit)
    ensures var n := Min(|out|, max);
            Flat(t.out.sent) == out[..n] && Flat(t.err.sent) == err[..Min(|err|, max - n)]
  {
    var n := Min(|out|, max);
    PrefixOfLength(Flat(t.out.sent), out, n);
    PrefixOfLength(Flat(t.err.sent), err, Min(|err|, max - n));
  }

  lemma PrefixOfLength(a: Bytes, b: Bytes, n: nat)
    requires n <= |b|
    ensures a <= b && |a| == n ==> a == b[..n]
  {
  }

  /** The state in which both readers have ended, with what they have captured. */
  lemma SomeReadersEnd(max: nat, out: Bytes, err: Bytes) returns (q: seq<Action>, t: State)
    ensures t == Run(Initial(max), q) && t.phase.Waiting? && t.joined == {} && t.failures == {} && !t.timedOut
    ensures (t.out.pc.AtEof? || t.out.pc.AtLimit?) && (t.err.pc.AtEof? || t.err.pc.AtLimit?)
    ensures t.limited == t.signalled == (|out| + |err| > max)
    ensures Flat(t.out.sent) == out[..Min(|out|, max)]
    ensures Flat(t.err.sent) == err[..Min(|err|, max - Min(|out|, max))]
  {
    var written := [Produce(Stdout, out), Produce(Stderr, err), ClosePipe(Stdout), ClosePipe(Stderr)];
    Produced(max, out, err);
    var s := Run(Initial(max), written);
    var first, u, second;
    first, u, second, t := BothFinish(s);
    q := written + first + second;
    RunAppend(Initial(max), written, first);
    RunAppend(Initial(max), written + first, second);
    assert DataOk(max, u) by { ReachableInv(max, written + first); }
    assert DataOk(max, t) by { ReachableInv(max, q); }
    CapturedIs(max, out, err, u, t);
  }

  /**
   * Completeness: whatever the child writes to the two pipes, some run captures all
   * of it up to the limit, the first pipe first, and says truncated exactly when
   * something was cut; and it says timed out exactly when the deadline ended the wait.
   */
  lemma SomeRunCaptures(max: nat, out: Bytes, err: Bytes, how: Action) returns (q: seq<Action>)
    requires how == ChildExits || how == Deadline || (how == LimitReceived && |out| + |err| > max)
    ensures var n := Min(|out|, max);
            var k := Min(|err|, max - n);
            && Run(Initial(max), q).phase == Finished(out[..n], err[..k], |out| + |err| > max)
            && (Run(Initial(max), q).timedOut <==> how == Deadline)
  {
    var front, t := SomeReadersEnd(max, out, err);
    q := front + [how, Join(Stdout), Join(Stderr), Finish];
    Concludes(t, how);
    RunAppend(Initial(max), front, [how, Join(Stdout), Join(Stderr), Finish]);
  }

  lemma StepAborts(s: State)
    requires s.phase.Draining? && s.joined == {} && s.out.pc.Reading? && s.err.pc.Reading?
    ensures Step(Step(s, Abort(Stdout)), Abort(Stderr)) == s.(out := s.out.(pc := Aborted), err := s.err.(pc := Aborted))
  {
  }

  /** Readers that are still waiting for input when the grace period is over are aborted, and that is reported. */
  lemma IdleReadersAreAborted(s: State)
    requires s.phase.Waiting? && s.joined == {} && s.out.pc.Reading? && s.err.pc.Reading?
    ensures var t := Run(s, [Deadline, GraceExpires, Abort(Stdout), Abort(Stderr)] + [Finish]);
            t.phase == Finished(Flat(s.out.sent), Flat(s.err.sent), true) && t.timedOut
  {
    var s2 := s.(phase := Draining, timedOut := true);
    assert Step(Step(s, Deadline), GraceExpires) == s2;
    StepAborts(s2);
    RunFour(s, [Deadline, GraceExpires, Abort(Stdout), Abort(Stderr)]);
    RunSnoc(s, [Deadline, GraceExpires, Abort(Stdout), Abort(Stderr)], Finish);
  }

  // ---- The reader task as written ----

  /** The two atomics and the limit channel; `others` counts what the other task has taken. */
  class Shared {
    var budget: nat
    var limited: bool
    var signalled: bool
    ghost var others: nat

    constructor (max: nat)
      ensures budget == max && !limited && !signalled && others == 0
    {
      budget, limited, signalled, others := max, false, false, 0;
    }

    /** Whatever the other reader does between two accesses of this one. */
    method Interfere()
      modifies this
      ensures budget + others == old(budget) + old(others) && budget <= old(budget)
      ensures old(limited) ==> limited
    {
      var taken: nat :| taken <= budget;
      budget, others := budget - taken, others + taken;
      var flagged: bool := *;
      limited, signalled := limited || flagged, signalled || flagged;
    }
  }

  /** A task's steps, each with the budget it found; the first component is the budget that the last one left. */
  function Replay(budget: nat, r: Reader, steps: seq<(nat, Action)>): (nat, Reader) {
    if steps == [] then (budget, r)
    else
      var last := steps[|steps| - 1];
      ReaderStep(last.0, Replay(budget, r, steps[..|steps| - 1]).1, last.1)
  }

  /** Between two steps of this task the budget can only have shrunk: the other one takes and never gives back. */
  ghost predicate Shrinking(budget: nat, r: Reader, steps: seq<(nat, Action)>) {
    forall k :: 0 <= k < |steps| ==> steps[k].0 <= Replay(budget, r, steps[..k]).0
  }

  /** Ghost record of one task: the steps it has taken, and the step machine's budget and state after them. */
  class TaskLog {
    ghost const pipe: Bytes
    ghost const initial: nat
    ghost var steps: seq<(nat, Action)>
    ghost var budget: nat
    ghost var reader: Reader

    ghost predicate Valid()
      reads this
    {
      var r := Reader(Reading, pipe, true, 0, []);
      (budget, reader) == Replay(initial, r, steps) && Shrinking(initial, r, steps)
    }

    ghost constructor (pipe: Bytes, budget: nat)
      ensures Valid() && this.pipe == pipe && reader == Reader(Reading, pipe, true, 0, [])
      ensures this.budget == budget && initial == budget
    {
      this.pipe, initial, steps, this.budget := pipe, budget, [], budget;
      reader := Reader(Reading, pipe, true, 0, []);
    }

    /** The only way to move: one step of the machine, on a budget that others may have lowered. */
    ghost method Do(found: nat, a: Action)
      requires Valid() && found <= budget
      modifies this
      ensures Valid() && (budget, reader) == ReaderStep(found, old(reader), a)
    {
      var r := Reader(Reading, pipe, true, 0, []);
      assert (steps + [(found, a)])[..|steps|] == steps;
      assert forall k :: 0 <= k < |steps| ==> (steps + [(found, a)])[..k] == steps[..k];
      steps := steps + [(found, a)];
      var (left, next) := ReaderStep(found, reader, a);
      budget, reader := left, next;
    }
  }

  /** `compare_exchange_weak` on the budget, as seen by the task: it takes its bytes only from the value it loaded. */
  method CompareExchange(
      shared: Shared, w: Stream, chunk: Bytes, seen: nat, spurious: bool, ghost log: TaskLog) returns (taken: bool)
    requires log.Valid() && log.reader.pc == Swapping(chunk, seen) && shared.budget <= log.budget
    modifies shared`budget, log
    ensures log.Valid() && shared.budget == log.budget
    ensures taken <==> old(shared.budget) == seen && !spurious
    ensures taken ==> log.reader == old(log.reader).(pc := Sending(chunk, Min(|chunk|, seen)))
    ensures !taken ==> log.reader == old(log.reader).(pc := Loading(chunk))
    ensures shared.budget == old(shared.budget) - (if taken then Min(|chunk|, seen) else 0)
  {
    log.Do(shared.budget, Swap(w, spurious));
    taken := shared.budget == seen && !spurious;
    if taken {
      shared.budget := shared.budget - Min(|chunk|, seen);
    }
  }

  /** The inner loop: reserve up to `|chunk|` bytes. `patience` is how many compare-exchanges will fail. */
  method Reserve(shared: Shared, w: Stream, chunk: Bytes, patience: nat, ghost log: TaskLog)
    returns (reserved: nat, left: nat)
    requires log.Valid() && log.reader.pc == Loading(chunk) && chunk != [] && shared.budget == log.budget
    modifies shared, log
    ensures log.Valid() && log.reader == old(log.reader).(pc := Sending(chunk, reserved))
    ensures shared.budget == log.budget
    ensures reserved <= |chunk| && (reserved < |chunk| ==> shared.budget == 0)
    ensures shared.budget + reserved + shared.others == old(shared.budget) + old(shared.others)
  {
    left := patience;
    while true
      invariant log.Valid() && log.reader == old(log.reader) && shared.budget == log.budget
      invariant shared.budget + shared.others == old(shared.budget) + old(shared.others)
      decreases left
    {
      shared.Interfere();
      var seen: nat :| seen >= shared.budget && (left == 0 ==> seen == shared.budget);
      log.Do(shared.budget, Load(w, seen));
      var take := Min(|chunk|, seen);
      if take == 0 {
        return 0, left;
      }
      var spurious := false;
      if left > 0 {
        shared.Interfere();
        spurious := *;
      }
      var taken := CompareExchange(shared, w, chunk, seen, spurious, log);
      if taken {
        return take, left;
      }
      left := left - 1;
    }
  }

  /** Queue what was reserved; if that cut the chunk, raise the flag and signal the limit. */
  method Deliver(shared: Shared, w: Stream, chunk: Bytes, reserved: nat, ghost log: TaskLog) returns (out: Bytes)
    requires reserved <= |chunk| && log.Valid() && log.reader.pc == Sending(chunk, reserved)
    requires shared.budget == log.budget
    modifies shared`limited, shared`signalled, log
    ensures shared.budget == log.budget
    ensures out == chunk[..reserved] && (reserved < |chunk| ==> shared.limited)
    ensures log.Valid()
    ensures log.reader == old(log.reader).(pc := if reserved < |chunk| then AtLimit else Reading,
                                           sent := old(log.reader).sent + [out])
  {
    out := chunk[..reserved];
    assert reserved == |chunk| ==> out == chunk;
    log.Do(shared.budget, Send(w));
    assert log.reader.sent == old(log.reader).sent + [out];
    if reserved < |chunk| {
      Overrun(shared, w, log);
    }
  }

  /** The chunk was cut: raise the flag and signal the limit. */
  method Overrun(shared: Shared, w: Stream, ghost log: TaskLog)
    requires log.Valid() && log.reader.pc == Flagging && shared.budget == log.budget
    modifies shared`limited, shared`signalled, log
    ensures log.Valid() && shared.limited && shared.budget == log.budget
    ensures log.reader == old(log.reader).(pc := AtLimit)
  {
    shared.limited := true;
    log.Do(shared.budget, Flag(w));
    shared.signalled := true;
    log.Do(shared.budget, Signal(w));
  }

  ghost method RecordRead(w: Stream, chunk: Bytes, log: TaskLog)
    requires log.Valid() && log.reader.pc == Reading
    requires 0 < |chunk| <= READ_BUFFER && log.reader.pos + |chunk| <= |log.reader.pipe|
    requires chunk == log.reader.pipe[log.reader.pos..log.reader.pos + |chunk|]
    modifies log
    ensures log.Valid() && log.budget == old(log.budget)
    ensures log.reader == old(log.reader).(pc := Loading(chunk), pos := old(log.reader).pos + |chunk|)
  {
    log.Do(log.budget, Read(w, |chunk|));
  }

  /** One turn of the outer loop: a read of `chunk`, its reservation, and its delivery. */
  method Capture(shared: Shared, w: Stream, chunk: Bytes, patience: nat, ghost log: TaskLog)
    returns (out: Bytes, left: nat)
    requires log.Valid() && shared.budget == log.budget && log.reader.pc == Reading
    requires 0 < |chunk| <= READ_BUFFER && log.reader.pos + |chunk| <= |log.reader.pipe|
    requires chunk == log.reader.pipe[log.reader.pos..log.reader.pos + |chunk|]
    modifies shared, log
    ensures log.Valid() && shared.budget == log.budget
    ensures log.reader == old(log.reader).(pc := if |out| < |chunk| then AtLimit else Reading,
                                           pos := old(log.reader).pos + |chunk|, sent := old(log.reader).sent + [out])
    ensures |out| <= |chunk| && (|out| < |chunk| ==> shared.limited && shared.budget == 0)
    ensures shared.budget + |out| + shared.others == old(shared.budget) + old(shared.others)
  {
    RecordRead(w, chunk, log);
    var reserved;
    reserved, left := Reserve(shared, w, chunk, patience, log);
    out := Deliver(shared, w, chunk, reserved, log);
  }

  /**
   * `read_to_limit` against an interfering reader: every execution is a replay of
   * reader steps of the machine above, where the shared budget is always what the
   * last step left less what others took since. It ends in one of the task's three
   * ends and takes from the budget exactly the bytes it queues.
   */
  method ReadToLimit(shared: Shared, w: Stream, pipe: Bytes, patience: nat, ghost log: TaskLog)
    returns (end: Pc, sent: seq<Bytes>)
    requires log.Valid() && log.pipe == pipe && log.reader == Reader(Reading, pipe, true, 0, [])
    requires shared.budget == log.budget
    modifies shared, log
    ensures log.Valid() && log.reader.pc == end && log.reader.sent == sent && shared.budget == log.budget
    ensures end.AtEof? || end.AtLimit? || end.Failed?
    ensures end.AtLimit? ==> shared.limited && shared.budget == 0
    ensures shared.budget + |Flat(sent)| + shared.others == old(shared.budget) + old(shared.others)
  {
    var pos, left := 0, patience;
    sent := [];
    while true
      invariant pos <= |pipe|
      invariant log.Valid() && log.reader == Reader(Reading, pipe, true, pos, sent) && shared.budget == log.budget
      invariant shared.budget + |Flat(sent)| + shared.others == old(shared.budget) + old(shared.others)
      decreases |pipe| - pos
    {
      var fails: bool := *;
      if fails {
        log.Do(shared.budget, ReadError(w));
        return Failed, sent;
      }
      if pos == |pipe| {
        log.Do(shared.budget, ReadEof(w));
        return AtEof, sent;
      }
      var n: nat :| 0 < n <= READ_BUFFER && pos + n <= |pipe|;
      var out;
      out, left := Capture(shared, w, pipe[pos..pos + n], left, log);
      pos := pos + n;
      FlatAppend(sent, out);
      sent := sent + [out];
      if |out| < n {
        return AtLimit, sent;
      }
    }
  }
}
