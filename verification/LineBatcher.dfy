/**
 * Line batching for log streams: the batcher task and end-of-stream ordering of
 * `src/journal_stream.rs`, and the inline copy of the same machine in
 * `src/k8s_logs.rs`. A send to the outgoing queue may be refused at any time.
 */
module LineBatcher {
  import opened Wrappers

  const MAX_LINES_PER_CHUNK: nat := 100

  datatype Source = Stdout | Stderr

  /** A line of text; `source` is bookkeeping that the message does not carry. */
  datatype Line = Line(source: Source, text: string)

  datatype Message = Chunk(lines: seq<Line>) | End(error: Option<string>)

  /**
   * `out`: messages the queue accepted. `received`: lines the batcher took in.
   * `failed`: some send was refused. `stopped`: the task has returned.
   */
  datatype Batch = Batch(buf: seq<Line>, out: seq<Message>, received: seq<Line>, failed: bool, stopped: bool)

  const EMPTY := Batch([], [], [], false, false)

  function Send(b: Batch, m: Message, ok: bool): Batch {
    if ok then b.(out := b.out + [m]) else b.(failed := true)
  }

  /** Hand the buffer over as one chunk; a refused send ends the task when `fatal`. */
  function Flush(b: Batch, ok: bool, fatal: bool): Batch {
    Send(b, Chunk(b.buf), ok).(buf := [], stopped := b.stopped || (fatal && !ok))
  }

  function OnLine(b: Batch, line: Line, ok: bool): Batch {
    var b' := b.(buf := b.buf + [line], received := b.received + [line]);
    if |b'.buf| >= MAX_LINES_PER_CHUNK then Flush(b', ok, true) else b'
  }

  function OnTick(b: Batch, ok: bool): Batch {
    if b.buf != [] then Flush(b, ok, true) else b
  }

  /** All sources closed: the final flush, whose result is ignored. */
  function OnClosed(b: Batch, ok: bool): Batch {
    (if b.buf != [] then Flush(b, ok, false) else b).(stopped := true)
  }

  /** The Kubernetes variant also sends the end message itself, after the final flush. */
  function OnStreamEnd(b: Batch, error: Option<string>, chunkOk: bool, endOk: bool): Batch {
    Send(OnClosed(b, chunkOk), End(error), endOk)
  }

  /** All lines of the accepted chunks, in order. */
  function Delivered(out: seq<Message>): seq<Line> {
    if out == [] then []
    else Delivered(out[..|out| - 1]) + (match out[|out| - 1] case Chunk(lines) => lines case End(_) => [])
  }

  ghost predicate WellFormed(out: seq<Message>) {
    && (forall i :: 0 <= i < |out| && out[i].Chunk? ==> 1 <= |out[i].lines| <= MAX_LINES_PER_CHUNK)
    && (forall i :: 0 <= i < |out| && out[i].End? ==> i == |out| - 1)
  }

  ghost predicate Inv(b: Batch) {
    && WellFormed(b.out)
    && |b.buf| < MAX_LINES_PER_CHUNK
    && (b.failed ==> b.stopped)
    && (!b.stopped ==> Delivered(b.out) + b.buf == b.received && forall m <- b.out :: m.Chunk?)
    && (b.stopped ==> Delivered(b.out) <= b.received)
    && (b.stopped && !b.failed ==> Delivered(b.out) == b.received)
  }

  lemma DeliveredSnoc(out: seq<Message>, m: Message)
    ensures Delivered(out + [m]) == Delivered(out) + (match m case Chunk(lines) => lines case End(_) => [])
  {
    assert (out + [m])[..|out|] == out;
  }

  /** A flush of 1 to 100 lines that are everything not delivered yet. */
  lemma FlushKeepsInv(b: Batch, ok: bool)
    requires WellFormed(b.out) && !b.failed && !b.stopped && (forall m <- b.out :: m.Chunk?)
    requires 1 <= |b.buf| <= MAX_LINES_PER_CHUNK && Delivered(b.out) + b.buf == b.received
    ensures Inv(Flush(b, ok, true)) && (forall m <- Flush(b, ok, true).out :: m.Chunk?)
  {
    DeliveredSnoc(b.out, Chunk(b.buf));
    assert Delivered(b.out) <= b.received;
    assert b.received + [] == b.received;
  }

  lemma LineKeepsInv(b: Batch, line: Line, ok: bool)
    requires Inv(b) && !b.stopped
    ensures Inv(OnLine(b, line, ok))
  {
    var b' := b.(buf := b.buf + [line], received := b.received + [line]);
    assert Delivered(b.out) + (b.buf + [line]) == b.received + [line];
    if |b'.buf| >= MAX_LINES_PER_CHUNK { FlushKeepsInv(b', ok); }
  }

  lemma TickKeepsInv(b: Batch, ok: bool)
    requires Inv(b) && !b.stopped
    ensures Inv(OnTick(b, ok))
  {
    if b.buf != [] { FlushKeepsInv(b, ok); }
  }

  /** An accepted tick leaves nothing waiting: all lines received so far have been delivered. */
  lemma TickDeliversEverything(b: Batch)
    requires Inv(b) && !b.stopped
    ensures Delivered(OnTick(b, true).out) == b.received && OnTick(b, true).buf == []
  {
    DeliveredSnoc(b.out, Chunk(b.buf));
  }

  lemma ClosedKeepsInv(b: Batch, ok: bool)
    requires Inv(b) && !b.stopped
    ensures Inv(OnClosed(b, ok)) && (forall m <- OnClosed(b, ok).out :: m.Chunk?)
  {
    if b.buf != [] {
      FlushKeepsInv(b, ok);
      assert OnClosed(b, ok) == Flush(b, ok, true).(stopped := true);
      assert Delivered(OnClosed(b, ok).out) + [] == Delivered(OnClosed(b, ok).out);
    } else {
      assert Delivered(b.out) + [] == Delivered(b.out);
    }
  }

  /** An end message may follow once the task is over, and changes no line. */
  lemma EndKeepsInv(b: Batch, error: Option<string>, ok: bool)
    requires Inv(b) && b.stopped && forall m <- b.out :: m.Chunk?
    ensures WellFormed(Send(b, End(error), ok).out) && Delivered(Send(b, End(error), ok).out) == Delivered(b.out)
  {
    DeliveredSnoc(b.out, End(error));
  }

  /** The batcher's local variables, driven by its select loop. */
  class Batcher {
    var buf: seq<Line>
    var out: seq<Message>
    ghost var received: seq<Line>
    var failed: bool
    var stopped: bool

    ghost function View(): Batch
      reads this
    {
      Batch(buf, out, received, failed, stopped)
    }

    constructor ()
      ensures View() == EMPTY
    {
      buf, out, received, failed, stopped := [], [], [], false, false;
    }

    method Emit(m: Message, ok: bool)
      modifies this`out, this`failed
      ensures View() == Send(old(View()), m, ok)
    {
      if ok {
        out := out + [m];
      } else {
        failed := true;
      }
    }

    method TakeLine(line: Line, ok: bool)
      requires !stopped
      modifies this
      ensures View() == OnLine(old(View()), line, ok)
      ensures received == old(received) + [line]
      ensures |old(buf)| < 99 ==> buf == old(buf) + [line] && out == old(out) && !stopped
      ensures |old(buf)| >= 99 ==> buf == [] && (stopped <==> !ok)
                                   && out == old(out) + (if ok then [Chunk(old(buf) + [line])] else [])
      ensures old(Inv(View())) ==>
                Inv(View()) && (!failed ==> Delivered(out) + buf == old(Delivered(out) + buf) + [line])
    {
      if Inv(View()) { LineKeepsInv(View(), line, ok); }
      buf := buf + [line];
      received := received + [line];
      if |buf| >= MAX_LINES_PER_CHUNK {
        var drained := buf;
        buf := [];
        Emit(Chunk(drained), ok);
        if !ok {
          stopped := true;
        }
      }
    }

    method Tick(ok: bool)
      requires !stopped
      modifies this
      ensures View() == OnTick(old(View()), ok)
      ensures buf == [] && received == old(received) && (stopped <==> old(buf) != [] && !ok)
      ensures out == old(out) + (if old(buf) != [] && ok then [Chunk(old(buf))] else [])
      ensures old(Inv(View())) ==> Inv(View()) && (!failed ==> Delivered(out) == old(Delivered(out) + buf) && buf == [])
    {
      if Inv(View()) { TickKeepsInv(View(), ok); }
      if |buf| > 0 {
        var drained := buf;
        buf := [];
        Emit(Chunk(drained), ok);
        if !ok {
          stopped := true;
        }
      }
    }

    method Close(ok: bool)
      requires !stopped
      modifies this
      ensures View() == OnClosed(old(View()), ok)
      ensures buf == [] && received == old(received) && stopped
      ensures out == old(out) + (if old(buf) != [] && ok then [Chunk(old(buf))] else [])
      ensures old(Inv(View())) ==> Inv(View()) && (!failed ==> Delivered(out) == old(Delivered(out) + buf))
    {
      if Inv(View()) { ClosedKeepsInv(View(), ok); }
      if |buf| > 0 {
        var drained := buf;
        buf := [];
        Emit(Chunk(drained), ok);
      }
      stopped := true;
    }
  }

  // ---- The Kubernetes stream: one loop ----

  /** What the select picks, with the answers the queue will give. */
  datatype PodEvent =
    | PodLine(text: string, ok: bool)
    | PodTick(ok: bool)
    | PodError(cause: string, chunkOk: bool, endOk: bool)
    | PodEof(chunkOk: bool, endOk: bool)

  function PodStep(b: Batch, e: PodEvent): Batch {
    if b.stopped then b
    else
      match e
      case PodLine(text, ok) => OnLine(b, Line(Stdout, text), ok)
      case PodTick(ok) => OnTick(b, ok)
      case PodError(cause, chunkOk, endOk) => OnStreamEnd(b, Some("stream: " + cause), chunkOk, endOk)
      case PodEof(chunkOk, endOk) => OnStreamEnd(b, None, chunkOk, endOk)
  }

  function PodRun(events: seq<PodEvent>): Batch {
    if events == [] then EMPTY else PodStep(PodRun(events[..|events| - 1]), events[|events| - 1])
  }

  method RunPodStream(events: seq<PodEvent>) returns (b: Batcher)
    ensures fresh(b) && b.View() == PodRun(events)
    ensures WellFormed(b.out) && Delivered(b.out) <= b.received
    ensures b.stopped && !b.failed ==> Delivered(b.out) == b.received
  {
    b := new Batcher();
    for i := 0 to |events|
      invariant fresh(b) && b.View() == PodRun(events[..i])
    {
      assert events[..i + 1][..i] == events[..i];
      if !b.stopped {
        match events[i]
        case PodLine(text, ok) => b.TakeLine(Line(Stdout, text), ok);
        case PodTick(ok) => b.Tick(ok);
        case PodError(cause, chunkOk, endOk) =>
          b.Close(chunkOk);
          b.Emit(End(Some("stream: " + cause)), endOk);
        case PodEof(chunkOk, endOk) =>
          b.Close(chunkOk);
          b.Emit(End(None), endOk);
      }
    }
    assert events[..|events|] == events;
    PodStreamDelivers(events);
  }

  /**
   * For every order of lines, ticks and refused sends: chunks carry 1 to 100
   * lines, what was delivered is a gap-free prefix of what was read, it is all of
   * it if the stream ended and nothing was refused, and no chunk follows the end.
   */
  lemma {:induction false} PodStreamDelivers(events: seq<PodEvent>)
    ensures var b := PodRun(events);
            && WellFormed(b.out)
            && Delivered(b.out) <= b.received
            && (b.stopped && !b.failed ==> Delivered(b.out) == b.received && b.out != [] && b.out[|b.out| - 1].End?)
            && (!b.stopped ==> Inv(b))
  {
    if events == [] {
    } else {
      var b, e := PodRun(events[..|events| - 1]), events[|events| - 1];
      PodStreamDelivers(events[..|events| - 1]);
      if !b.stopped {
        match e
        case PodLine(text, ok) => LineKeepsInv(b, Line(Stdout, text), ok);
        case PodTick(ok) => TickKeepsInv(b, ok);
        case PodError(cause, chunkOk, endOk) =>
          ClosedKeepsInv(b, chunkOk);
          EndKeepsInv(OnClosed(b, chunkOk), Some("stream: " + cause), endOk);
        case PodEof(chunkOk, endOk) =>
          ClosedKeepsInv(b, chunkOk);
          EndKeepsInv(OnClosed(b, chunkOk), None, endOk);
      }
    }
  }

  /** The lines of the stream among these events. */
  function PodLines(events: seq<PodEvent>): seq<Line> {
    if events == [] then []
    else
      var e := events[|events| - 1];
      PodLines(events[..|events| - 1]) + (if e.PodLine? then [Line(Stdout, e.text)] else [])
  }

  lemma PodRunSnoc(front: seq<PodEvent>, e: PodEvent)
    ensures PodRun(front + [e]) == PodStep(PodRun(front), e)
    ensures PodLines(front + [e]) == PodLines(front) + (if e.PodLine? then [Line(Stdout, e.text)] else [])
  {
    assert (front + [e])[..|front|] == front;
  }

  /** While the loop runs it has taken in exactly the lines read, in order. */
  lemma {:induction false} PodReads(events: seq<PodEvent>)
    requires !PodRun(events).stopped
    ensures PodRun(events).received == PodLines(events)
  {
    if events == [] {
    } else {
      var front, e := events[..|events| - 1], events[|events| - 1];
      PodReads(front);
      assert events == front + [e];
      PodRunSnoc(front, e);
      assert PodLines(front) + [] == PodLines(front);
    }
  }

  /** After the loop is over no event counts. */
  lemma {:induction false} PodIsOver(front: seq<PodEvent>, rest: seq<PodEvent>)
    requires PodRun(front).stopped
    ensures PodRun(front + rest) == PodRun(front)
  {
    if rest == [] {
      assert front + rest == front;
    } else {
      assert (front + rest)[..|front + rest| - 1] == front + rest[..|rest| - 1];
      PodIsOver(front, rest[..|rest| - 1]);
    }
  }

  /**
   * What an end or an error of the stream does, whatever was read before and comes
   * after: everything read is delivered unless its chunk is refused, and the end
   * message says the error, or that there was none.
   */
  lemma PodStreamEnds(front: seq<PodEvent>, e: PodEvent, rest: seq<PodEvent>)
    requires !PodRun(front).stopped && (e.PodEof? || e.PodError?)
    ensures var b := PodRun(front + [e] + rest);
            && b.stopped && b.received == PodLines(front)
            && (e.chunkOk ==> Delivered(b.out) == PodLines(front))
            && (e.endOk ==> b.out != [] && b.out[|b.out| - 1]
                            == End(if e.PodEof? then None else Some("stream: " + e.cause)))
            && (!e.endOk ==> forall m <- b.out :: m.Chunk?)
  {
    var b := PodRun(front);
    PodStreamDelivers(front);
    PodReads(front);
    PodRunSnoc(front, e);
    PodIsOver(front + [e], rest);
    ClosedKeepsInv(b, e.chunkOk);
    EndKeepsInv(OnClosed(b, e.chunkOk), if e.PodEof? then None else Some("stream: " + e.cause), e.endOk);
    DeliveredSnoc(b.out, Chunk(b.buf));
  }

  // ---- The journal stream: two readers, a channel, the batcher, and the end message ----

  /** `written`: lines the child put in the pipe. `forwarded`: how many the reader task queued. */
  datatype Pipe = Pipe(written: seq<string>, forwarded: nat, readerDone: bool)

  datatype Stream = Stream(stdout: Pipe, stderr: Pipe, queue: seq<Line>, batch: Batch, ended: bool)

  datatype JournalEvent =
    | Write(source: Source, text: string)
    | Forward(source: Source)
    | ReaderEnds(source: Source)
    | Receive(ok: bool)
    | ReceiveClosed(ok: bool)
    | TickFires(ok: bool)
    | SendEnd(error: Option<string>, ok: bool)

  const OPENED := Stream(Pipe([], 0, false), Pipe([], 0, false), [], EMPTY, false)

  function Get(s: Stream, source: Source): Pipe {
    if source.Stdout? then s.stdout else s.stderr
  }

  function Set(s: Stream, source: Source, p: Pipe): Stream {
    if source.Stdout? then s.(stdout := p) else s.(stderr := p)
  }

  function JournalStep(s: Stream, e: JournalEvent): Stream {
    match e
    case Write(source, text) => Set(s, source, Get(s, source).(written := Get(s, source).written + [text]))
    case Forward(source) =>
      var p := Get(s, source);
      if p.readerDone || p.forwarded >= |p.written| then s
      else if s.batch.stopped then Set(s, source, p.(readerDone := true))
      else Set(s, source, p.(forwarded := p.forwarded + 1)).(queue := s.queue + [Line(source, p.written[p.forwarded])])
    case ReaderEnds(source) => Set(s, source, Get(s, source).(readerDone := true))
    case Receive(ok) =>
      if s.batch.stopped || s.queue == [] then s
      else s.(queue := s.queue[1..], batch := OnLine(s.batch, s.queue[0], ok))
    case ReceiveClosed(ok) =>
      if s.batch.stopped || s.queue != [] || !s.stdout.readerDone || !s.stderr.readerDone then s
      else s.(batch := OnClosed(s.batch, ok))
    case TickFires(ok) => if s.batch.stopped then s else s.(batch := OnTick(s.batch, ok))
    case SendEnd(error, ok) =>
      if s.ended || !s.batch.stopped || !s.stdout.readerDone || !s.stderr.readerDone then s
      else s.(ended := true, batch := Send(s.batch, End(error), ok))
  }

  function JournalRun(events: seq<JournalEvent>): Stream {
    if events == [] then OPENED else JournalStep(JournalRun(events[..|events| - 1]), events[|events| - 1])
  }

  /** The texts of one source, in order. */
  function From(lines: seq<Line>, source: Source): seq<string> {
    if lines == [] then []
    else From(lines[..|lines| - 1], source)
         + (if lines[|lines| - 1].source == source then [lines[|lines| - 1].text] else [])
  }

  lemma FromSnoc(lines: seq<Line>, line: Line, source: Source)
    ensures From(lines + [line], source) == From(lines, source) + (if line.source == source then [line.text] else [])
  {
    assert (lines + [line])[..|lines|] == lines;
  }

  lemma {:induction false} FromPrefix(a: seq<Line>, b: seq<Line>, source: Source)
    requires a <= b
    ensures From(a, source) <= From(b, source)
  {
    if a == b {
    } else {
      FromPrefix(a, b[..|b| - 1], source);
    }
  }

  /** Lines queued and lines taken in are, per source, the lines its reader forwarded. */
  ghost predicate MergeOk(s: Stream, source: Source) {
    var p := Get(s, source);
    p.forwarded <= |p.written| && From(s.batch.received + s.queue, source) == p.written[..p.forwarded]
  }

  /** Before the end message the batch is as the batcher left it; after it, only that message was added. */
  ghost predicate StreamInv(s: Stream) {
    && MergeOk(s, Stdout) && MergeOk(s, Stderr)
    && (!s.ended ==> Inv(s.batch) && forall m <- s.batch.out :: m.Chunk?)
    && WellFormed(s.batch.out)
    && Delivered(s.batch.out) <= s.batch.received
    && (s.ended ==> s.batch.stopped && s.stdout.readerDone && s.stderr.readerDone)
    && (s.ended && !s.batch.failed ==>
          Delivered(s.batch.out) == s.batch.received && s.batch.out != [] && s.batch.out[|s.batch.out| - 1].End?)
    && (s.batch.stopped && !s.batch.failed ==> s.queue == [] && s.stdout.readerDone && s.stderr.readerDone)
  }

  lemma ForwardKeepsMerge(s: Stream, source: Source, other: Source)
    requires MergeOk(s, other) && Get(s, source).forwarded < |Get(s, source).written|
    ensures var p := Get(s, source);
            MergeOk(Set(s, source, p.(forwarded := p.forwarded + 1)).(
                      queue := s.queue + [Line(source, p.written[p.forwarded])]), other)
  {
    var p := Get(s, source);
    var line := Line(source, p.written[p.forwarded]);
    assert s.batch.received + (s.queue + [line]) == s.batch.received + s.queue + [line];
    FromSnoc(s.batch.received + s.queue, line, other);
    assert p.written[..p.forwarded + 1] == p.written[..p.forwarded] + [p.written[p.forwarded]];
  }

  lemma ReceiveKeepsStream(s: Stream, ok: bool)
    requires StreamInv(s) && !s.batch.stopped && s.queue != []
    ensures StreamInv(JournalStep(s, Receive(ok)))
  {
    LineKeepsInv(s.batch, s.queue[0], ok);
    assert s.batch.received + [s.queue[0]] + s.queue[1..] == s.batch.received + s.queue;
    ChunksOnly(s.batch, s.queue[0], ok);
  }

  lemma ChunksOnly(b: Batch, line: Line, ok: bool)
    requires forall m <- b.out :: m.Chunk?
    ensures forall m <- OnLine(b, line, ok).out :: m.Chunk?
    ensures forall m <- OnTick(b, ok).out :: m.Chunk?
  {
  }

  lemma TickKeepsStream(s: Stream, ok: bool)
    requires StreamInv(s) && !s.batch.stopped
    ensures StreamInv(JournalStep(s, TickFires(ok)))
  {
    TickKeepsInv(s.batch, ok);
    ChunksOnly(s.batch, Line(Stdout, ""), ok);
  }

  lemma CloseKeepsStream(s: Stream, ok: bool)
    requires StreamInv(s) && !s.batch.stopped
    ensures StreamInv(JournalStep(s, ReceiveClosed(ok)))
  {
    ClosedKeepsInv(s.batch, ok);
  }

  lemma EndKeepsStream(s: Stream, error: Option<string>, ok: bool)
    requires StreamInv(s) && s.batch.stopped && !s.ended
    ensures StreamInv(JournalStep(s, SendEnd(error, ok)))
  {
    EndKeepsInv(s.batch, error, ok);
  }

  lemma BatchStepKeepsStream(s: Stream, e: JournalEvent)
    requires StreamInv(s) && (e.Receive? || e.ReceiveClosed? || e.TickFires? || e.SendEnd?)
    ensures StreamInv(JournalStep(s, e))
  {
    match e
    case Receive(ok) => if !s.batch.stopped && s.queue != [] { ReceiveKeepsStream(s, ok); }
    case ReceiveClosed(ok) => if !s.batch.stopped { CloseKeepsStream(s, ok); }
    case TickFires(ok) => if !s.batch.stopped { TickKeepsStream(s, ok); }
    case SendEnd(error, ok) => if s.batch.stopped && !s.ended { EndKeepsStream(s, error, ok); }
  }

  lemma ForwardKeepsStream(s: Stream, source: Source)
    requires StreamInv(s)
    ensures StreamInv(JournalStep(s, Forward(source)))
  {
    if !s.batch.stopped && Get(s, source).forwarded < |Get(s, source).written| {
      ForwardKeepsMerge(s, source, Stdout);
      ForwardKeepsMerge(s, source, Stderr);
    }
  }

  lemma ReaderStepKeepsStream(s: Stream, e: JournalEvent)
    requires StreamInv(s) && (e.Write? || e.Forward? || e.ReaderEnds?)
    ensures StreamInv(JournalStep(s, e))
  {
    match e
    case Forward(source) => ForwardKeepsStream(s, source);
    case Write(source, text) =>
      var p := Get(s, source);
      assert (p.written + [text])[..p.forwarded] == p.written[..p.forwarded];
    case _ =>
  }

  lemma {:induction false} JournalInv(events: seq<JournalEvent>)
    ensures StreamInv(JournalRun(events))
  {
    if events == [] {
    } else {
      var s, e := JournalRun(events[..|events| - 1]), events[|events| - 1];
      JournalInv(events[..|events| - 1]);
      if e.Write? || e.Forward? || e.ReaderEnds? { ReaderStepKeepsStream(s, e); } else { BatchStepKeepsStream(s, e); }
    }
  }

  /**
   * For every interleaving of the child, the two readers, ticks and refused sends:
   * chunks carry 1 to 100 lines and none follows the end message; the delivered
   * lines are a gap-free prefix of the merged stream; and each source's delivered
   * lines are, in order, a prefix of what the child wrote to that source.
   */
  lemma JournalStreamDelivers(events: seq<JournalEvent>, source: Source)
    ensures var s := JournalRun(events);
            && WellFormed(s.batch.out)
            && Delivered(s.batch.out) <= s.batch.received
            && From(Delivered(s.batch.out), source) <= Get(s, source).written
  {
    JournalInv(events);
    var s := JournalRun(events);
    FromPrefix(Delivered(s.batch.out), s.batch.received, source);
    assert s.batch.received <= s.batch.received + s.queue;
    FromPrefix(s.batch.received, s.batch.received + s.queue, source);
    var p := Get(s, source);
    assert p.written[..p.forwarded] <= p.written;
  }

  /** When no send was refused, every line the readers forwarded has been delivered before the end message. */
  lemma JournalStreamDeliversAll(events: seq<JournalEvent>, source: Source)
    requires JournalRun(events).ended && !JournalRun(events).batch.failed
    ensures var s := JournalRun(events);
            && s.batch.out != [] && s.batch.out[|s.batch.out| - 1].End?
            && Get(s, source).forwarded <= |Get(s, source).written|
            && From(Delivered(s.batch.out), source) == Get(s, source).written[..Get(s, source).forwarded]
  {
    JournalInv(events);
    var s := JournalRun(events);
    assert s.batch.received + s.queue == s.batch.received;
  }

  // ---- A stream that gets through ----

  lemma JournalRunSnoc(front: seq<JournalEvent>, e: JournalEvent)
    ensures JournalRun(front + [e]) == JournalStep(JournalRun(front), e)
  {
    assert (front + [e])[..|front|] == front;
  }

  /** Each line written, forwarded and taken in before the next. */
  function Carry(lines: seq<Line>): seq<JournalEvent> {
    if lines == [] then []
    else
      var last := lines[|lines| - 1];
      Carry(lines[..|lines| - 1]) + [Write(last.source, last.text)] + [Forward(last.source)] + [Receive(true)]
  }

  /** Both pipes read to their end, the batcher closed, and the end message sent. */
  function Conclude(lines: seq<Line>, error: Option<string>): seq<JournalEvent> {
    Carry(lines) + [ReaderEnds(Stdout)] + [ReaderEnds(Stderr)] + [ReceiveClosed(true)] + [SendEnd(error, true)]
  }

  /** Nothing is under way, nothing was refused, and each pipe has carried its lines. */
  ghost predicate CarriedSoFar(s: Stream, lines: seq<Line>) {
    && !s.ended && s.queue == [] && !s.batch.stopped && !s.batch.failed && s.batch.received == lines
    && s.stdout == Pipe(From(lines, Stdout), |From(lines, Stdout)|, false)
    && s.stderr == Pipe(From(lines, Stderr), |From(lines, Stderr)|, false)
  }

  lemma AcceptedLine(b: Batch, line: Line)
    requires !b.stopped && !b.failed
    ensures var b' := OnLine(b, line, true); !b'.stopped && !b'.failed && b'.received == b.received + [line]
  {
  }

  /** A line that is written while nothing is under way arrives in the queue. */
  lemma WriteAndForward(s: Stream, line: Line)
    requires s.queue == [] && !s.batch.stopped
    requires var p := Get(s, line.source); p.forwarded == |p.written| && !p.readerDone
    ensures var p := Get(s, line.source);
            JournalStep(JournalStep(s, Write(line.source, line.text)), Forward(line.source))
            == Set(s, line.source, Pipe(p.written + [line.text], |p.written| + 1, false)).(queue := [line])
  {
    assert [] + [line] == [line];
  }

  lemma CarryOne(s: Stream, lines: seq<Line>, line: Line)
    requires CarriedSoFar(s, lines)
    ensures CarriedSoFar(JournalStep(JournalStep(JournalStep(s, Write(line.source, line.text)), Forward(line.source)),
                                     Receive(true)), lines + [line])
  {
    WriteAndForward(s, line);
    AcceptedLine(s.batch, line);
    FromSnoc(lines, line, Stdout);
    FromSnoc(lines, line, Stderr);
    assert From(lines, Stdout) + [] == From(lines, Stdout) && From(lines, Stderr) + [] == From(lines, Stderr);
  }

  lemma CarryLast(lines: seq<Line>)
    requires lines != []
    ensures var front, last := lines[..|lines| - 1], lines[|lines| - 1];
            JournalRun(Carry(lines))
            == JournalStep(JournalStep(JournalStep(JournalRun(Carry(front)), Write(last.source, last.text)),
                                       Forward(last.source)), Receive(true))
  {
    var front, last := lines[..|lines| - 1], lines[|lines| - 1];
    JournalRunSnoc(Carry(front), Write(last.source, last.text));
    JournalRunSnoc(Carry(front) + [Write(last.source, last.text)], Forward(last.source));
    JournalRunSnoc(Carry(front) + [Write(last.source, last.text)] + [Forward(last.source)], Receive(true));
  }

  lemma {:induction false} CarryAll(lines: seq<Line>)
    ensures CarriedSoFar(JournalRun(Carry(lines)), lines)
  {
    if lines == [] {
    } else {
      var front, last := lines[..|lines| - 1], lines[|lines| - 1];
      CarryAll(front);
      CarryLast(lines);
      CarryOne(JournalRun(Carry(front)), front, last);
      assert lines == front + [last];
    }
  }

  lemma ConcludeIs(lines: seq<Line>, error: Option<string>)
    ensures JournalRun(Conclude(lines, error))
            == JournalStep(JournalStep(JournalStep(JournalStep(JournalRun(Carry(lines)),
                 ReaderEnds(Stdout)), ReaderEnds(Stderr)), ReceiveClosed(true)), SendEnd(error, true))
  {
    JournalRunSnoc(Carry(lines), ReaderEnds(Stdout));
    JournalRunSnoc(Carry(lines) + [ReaderEnds(Stdout)], ReaderEnds(Stderr));
    JournalRunSnoc(Carry(lines) + [ReaderEnds(Stdout)] + [ReaderEnds(Stderr)], ReceiveClosed(true));
    JournalRunSnoc(Carry(lines) + [ReaderEnds(Stdout)] + [ReaderEnds(Stderr)] + [ReceiveClosed(true)], SendEnd(error, true));
  }

  /** Once everything is carried, the four last steps end the stream and refuse nothing. */
  lemma ConcludedWell(s: Stream, lines: seq<Line>, error: Option<string>)
    requires CarriedSoFar(s, lines)
    ensures var t := JournalStep(JournalStep(JournalStep(JournalStep(s,
                       ReaderEnds(Stdout)), ReaderEnds(Stderr)), ReceiveClosed(true)), SendEnd(error, true));
            && t.ended && !t.batch.failed && t.batch.received == lines
            && t.stdout.written == From(lines, Stdout) && t.stderr.written == From(lines, Stderr)
            && t.batch.out == OnClosed(s.batch, true).out + [End(error)]
  {
  }

  /**
   * Completeness: any lines from the two pipes, in any order, have a run in which
   * every one of them is delivered, in that order, and then the end message.
   */
  lemma JournalStreamGetsThrough(lines: seq<Line>, error: Option<string>)
    ensures var s := JournalRun(Conclude(lines, error));
            && s.ended && !s.batch.failed
            && s.stdout.written == From(lines, Stdout) && s.stderr.written == From(lines, Stderr)
            && Delivered(s.batch.out) == lines
            && s.batch.out != [] && s.batch.out[|s.batch.out| - 1] == End(error)
  {
    CarryAll(lines);
    ConcludeIs(lines, error);
    ConcludedWell(JournalRun(Carry(lines)), lines, error);
    JournalInv(Conclude(lines, error));
  }
}
