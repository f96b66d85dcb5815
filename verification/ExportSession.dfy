/**
  One export session (exporter/exporter.go) as a state machine: one producer inside NonblockingReceive, any number of
  callers of StopReceiving, and the handler goroutine that runs HandleTrace and then finish. A run is any interleaving
  of their atomic steps; a step that its actor cannot take at that point changes nothing.
*/
module ExportSession {
  import opened ExportParams
  import Keys

  type Trace = seq<Keys.byte>

  const NEWLINE: Keys.byte := 10

  function Line(t: Trace): seq<Keys.byte> {
    t + [NEWLINE]
  }

  // ---------------------------------------------------------------- states

  /** Where the producer stands in NonblockingReceive. */
  datatype Producer =
    | Idle
    | Checked(trace: Trace)
    | Sent(trace: Trace)
    | Counted
    | Stopping
    | Firing

  datatype FinishError = NotRunning | ShouldNotAccept | CloseFailed

  /** Where the handler stands in finish. */
  datatype Stage = CheckRunning | CheckAccepting | CloseFile | Remove | Release | Finished | Failed(error: FinishError)

  /** Where the handler goroutine stands; ok says that HandleTrace returned no error. */
  datatype Handler =
    | Selecting
    | Draining
    | Holding(held: Trace, draining: bool)
    | Finishing(stage: Stage, ok: bool)

  datatype Closer = Nobody | OwnLimit | Caller

  /** The sync.Once, how often the done channel was closed, and on whose behalf. */
  datatype Gate = Gate(once: bool, closes: nat, closer: Closer)

  /** What was written to the file, whether it is open, whether it was removed. */
  datatype Disk = Disk(file: seq<Keys.byte>, open: bool, removed: bool)

  /** History: traces written with their newline, held when a write failed, and what that write left behind. */
  datatype Log = Log(written: seq<Trace>, lost: seq<Trace>, partial: seq<Keys.byte>)

  datatype Session = Session(
    numTraces: int32, sizeLim: int32, clean: bool, running: bool,
    gate: Gate, queue: seq<Trace>, traceCount: int32, totalSize: int32, disk: Disk,
    producer: Producer, stops: nat, handler: Handler,
    /**
      history: traces sent on the channel, what became of them, sends refused by a full channel, completions of finish
    */
    accepted: seq<Trace>, log: Log, blocked: nat, finishes: nat)

  /** StartReceiving on a fresh file. */
  function Started(p: Params): Session {
    Session(
      p.numTraces, p.sizeLim, p.clean, true,
      Gate(false, 0, Nobody), [], 0, 0, Disk([], true, false),
      Idle, 0, Selecting,
      [], Log([], [], []), 0, 0)
  }

  /**
    StartReceiving without an Init since the last session ended: new channels, but the fired once, the counters and the
    closed file of the session before.
  */
  function Restarted(s: Session): Session {
    s.(running := true, gate := Gate(s.gate.once, 0, Nobody), queue := [],
       producer := Idle, stops := 0, handler := Selecting,
       accepted := [], log := Log([], [], []), blocked := 0, finishes := 0)
  }

  predicate Closed(s: Session) {
    s.gate.closes > 0
  }

  /** IsAcceptingData, both channels having been made. */
  predicate Accepting(s: Session) {
    !Closed(s)
  }

  predicate ReachedTraceCount(s: Session) {
    s.numTraces > 0 && s.traceCount >= s.numTraces
  }

  predicate ReachedSizeLimit(s: Session) {
    s.sizeLim > 0 && s.totalSize >= s.sizeLim
  }

  // ---------------------------------------------------------------- steps

  datatype Event =
    // NonblockingReceive
    | Check(trace: Trace)
    | Send
    | Count
    | Limit(timeUp: bool)
    | LimitStopCheck
    | LimitStopFire
    // a request to stop, which may first say whether to remove the file; StopReceiving, called from outside
    | SetClean(clean: bool)
    | StopCheck
    | StopFire
    // HandleTrace; a failed write leaves its first bytes in the file
    | SelectDone
    | SelectTrace
    | DrainTrace
    | DrainEmpty
    | Write(ok: bool, bytes: nat)
    // finish
    | FinishRunning
    | FinishAccepting
    | FinishClose(ok: bool)
    | FinishRemove(ok: bool)
    | FinishRelease

  /** once.Do(close(doneChan)) */
  function Fire(s: Session, closer: Closer): Session {
    if s.gate.once then s else s.(gate := Gate(true, s.gate.closes + 1, closer))
  }

  function ProducerStep(s: Session, e: Event): Session {
    if e.Check? || e.Send? || e.Count? then SendStep(s, e) else LimitStep(s, e)
  }

  /** The check, the send and the counters. */
  function SendStep(s: Session, e: Event): Session {
    match e
    case Check(trace) =>
      if s.producer.Idle? && Accepting(s) then s.(producer := Checked(trace)) else s
    case Send =>
      if !s.producer.Checked? then s
      else if |s.queue| < s.numTraces then
        s.(producer := Sent(s.producer.trace), queue := s.queue + [s.producer.trace],
           accepted := s.accepted + [s.producer.trace])
      else s.(producer := Idle, blocked := s.blocked + 1)
    case Count =>
      if s.producer.Sent? then
        s.(producer := Counted,
           traceCount := Int32(s.traceCount + 1),
           totalSize := Int32(s.totalSize + Int32(|s.producer.trace|)))
      else s
    case _ => s
  }

  /** The limits, and the stop that follows when one is reached. */
  function LimitStep(s: Session, e: Event): Session {
    match e
    case Limit(timeUp) =>
      if s.producer.Counted?
      then s.(producer := if ReachedTraceCount(s) || ReachedSizeLimit(s) || timeUp then Stopping else Idle)
      else s
    case LimitStopCheck =>
      if s.producer.Stopping? then s.(producer := if s.running then Firing else Idle) else s
    case LimitStopFire =>
      if s.producer.Firing? then Fire(s, OwnLimit).(producer := Idle) else s
    case _ => s
  }

  function StopperStep(s: Session, e: Event): Session {
    match e
    case SetClean(clean) => if s.running then s.(clean := clean) else s
    case StopCheck => if s.running then s.(stops := s.stops + 1) else s
    case StopFire => if s.stops > 0 then Fire(s, Caller).(stops := s.stops - 1) else s
    case _ => s
  }

  function Take(s: Session, draining: bool): Session
    requires s.queue != []
  {
    s.(queue := s.queue[1..], handler := Holding(s.queue[0], draining))
  }

  /** A failed write leaves fewer bytes than the line has, and none in a closed file. */
  function Torn(disk: Disk, t: Trace, bytes: nat): seq<Keys.byte> {
    if !disk.open then [] else if bytes <= |t| then t[..bytes] else t
  }

  predicate OfFinish(e: Event) {
    e.FinishRunning? || e.FinishAccepting? || e.FinishClose? || e.FinishRemove? || e.FinishRelease?
  }

  function HandlerStep(s: Session, e: Event): Session {
    if OfFinish(e) then FinishStep(s, e) else HandleStep(s, e)
  }

  function HandleStep(s: Session, e: Event): Session {
    match e
    case SelectDone =>
      if s.handler.Selecting? && Closed(s) then s.(handler := Draining) else s
    case SelectTrace =>
      if s.handler.Selecting? && s.queue != [] then Take(s, false) else s
    case DrainTrace =>
      if s.handler.Draining? && s.queue != [] then Take(s, true) else s
    case DrainEmpty =>
      if s.handler.Draining? && s.queue == [] then s.(handler := Finishing(CheckRunning, true)) else s
    case Write(ok, bytes) =>
      if !s.handler.Holding? then s
      else if ok && s.disk.open then
        s.(disk := s.disk.(file := s.disk.file + Line(s.handler.held)),
           log := s.log.(written := s.log.written + [s.handler.held]),
           handler := if s.handler.draining then Draining else Selecting)
      else
        s.(disk := s.disk.(file := s.disk.file + Torn(s.disk, s.handler.held, bytes)),
           log := s.log.(partial := Torn(s.disk, s.handler.held, bytes), lost := s.log.lost + [s.handler.held]),
           handler := Finishing(CheckRunning, false))
    case _ => s
  }

  function FinishStep(s: Session, e: Event): Session {
    match e
    case FinishRunning =>
      if s.handler.Finishing? && s.handler.stage.CheckRunning?
      then s.(handler := Finishing(if s.running then CheckAccepting else Failed(NotRunning), s.handler.ok))
      else s
    case FinishAccepting =>
      if s.handler.Finishing? && s.handler.stage.CheckAccepting?
      then s.(handler := Finishing(if Accepting(s) then Failed(ShouldNotAccept) else CloseFile, s.handler.ok))
      else s
    case FinishClose(ok) =>
      // closing a closed file is an error too
      if s.handler.Finishing? && s.handler.stage.CloseFile? then
        if ok && s.disk.open
        then s.(disk := s.disk.(open := false), handler := Finishing(Remove, s.handler.ok))
        else s.(handler := Finishing(Failed(CloseFailed), s.handler.ok))
      else s
    case FinishRemove(ok) =>
      // a failed removal is only logged
      if s.handler.Finishing? && s.handler.stage.Remove?
      then s.(disk := s.disk.(removed := s.clean && ok), handler := Finishing(Release, s.handler.ok))
      else s
    case FinishRelease =>
      if s.handler.Finishing? && s.handler.stage.Release? then
        if s.running
        then s.(running := false, finishes := s.finishes + 1, handler := Finishing(Finished, s.handler.ok))
        else s.(handler := Finishing(Failed(NotRunning), s.handler.ok))
      else s
    case _ => s
  }

  predicate ByProducer(e: Event) {
    e.Check? || e.Send? || e.Count? || e.Limit? || e.LimitStopCheck? || e.LimitStopFire?
  }

  predicate ByStopper(e: Event) {
    e.SetClean? || e.StopCheck? || e.StopFire?
  }

  predicate ByHandler(e: Event) {
    !ByProducer(e) && !ByStopper(e)
  }

  function Step(s: Session, e: Event): Session {
    if ByProducer(e) then ProducerStep(s, e) else if ByStopper(e) then StopperStep(s, e) else HandlerStep(s, e)
  }

  function Run(s: Session, es: seq<Event>): Session
    decreases |es|
  {
    if es == [] then s else Step(Run(s, es[..|es| - 1]), es[|es| - 1])
  }

  lemma {:induction false} RunAppend(s: Session, a: seq<Event>, b: seq<Event>)
    ensures Run(s, a + b) == Run(Run(s, a), b)
    decreases |b|
  {
    hide Step;
    if b == [] {
      assert a + b == a;
    } else {
      RunAppend(s, a, b[..|b| - 1]);
      assert (a + b)[..|a + b| - 1] == a + b[..|b| - 1];
    }
  }

  lemma RunSnoc(s: Session, es: seq<Event>, e: Event)
    ensures Run(s, es + [e]) == Step(Run(s, es), e)
  {
    assert (es + [e])[..|es + [e]| - 1] == es;
  }

  // ---------------------------------------------------------------- invariants

  /** Who may be where: the done channel, the running flag, the file and the handler's place agree. */
  ghost predicate Orderly(s: Session) {
    && s.gate.closes == (if s.gate.once then 1 else 0)
    && (s.gate.closer.Nobody? <==> !s.gate.once)
    && (s.running <==> s.finishes == 0)
    && s.finishes
    == (if s.handler == Finishing(Finished, true) || s.handler == Finishing(Finished, false) then 1 else 0)
    && (s.handler.Draining? ==> s.gate.once)
    && (s.handler.Holding? && s.handler.draining ==> s.gate.once)
    && (s.handler.Finishing? && s.handler.ok ==> s.gate.once && s.handler.stage != Failed(ShouldNotAccept))
    && (s.handler.Finishing? ==>
          (s.handler.stage.CloseFile? || PastClose(s.handler) ==> s.gate.once))
    && (s.handler.Finishing? ==> s.handler.stage != Failed(NotRunning))
    && (s.disk.open <==> !PastClose(s.handler))
    && (s.disk.removed ==> PastClose(s.handler) && !s.handler.stage.Remove?)
  }

  predicate PastClose(h: Handler) {
    h.Finishing? && (h.stage.Remove? || h.stage.Release? || h.stage.Finished?)
  }

  function Held(h: Handler): seq<Trace> {
    if h.Holding? then [h.held] else []
  }

  /** Accepted traces are, in order: written, at most one lost to a failed write, at most one in hand, queued. */
  ghost predicate Conserves(s: Session) {
    && s.accepted == s.log.written + s.log.lost + Held(s.handler) + s.queue
    && |s.log.lost| == (if s.handler.Finishing? && !s.handler.ok then 1 else 0)
  }

  function InFlight(p: Producer): nat {
    if p.Checked? then 1 else 0
  }

  /** After a clean return at most one trace is queued or about to be; none if the producer closed the session. */
  ghost predicate OneLate(s: Session) {
    && (s.gate.closer.OwnLimit? ==> s.producer.Idle?)
    && (s.handler.Finishing? && s.handler.ok ==>
          |s.queue| + InFlight(s.producer) <= (if s.gate.closer.OwnLimit? then 0 else 1))
  }

  /** The counter counts, and the channel has room whenever the producer has passed its check. */
  ghost predicate Counts(s: Session) {
    && 1 <= s.numTraces <= MAX_TRACE_COUNT && s.sizeLim >= 1
    && |s.accepted| <= s.numTraces
    && s.traceCount == |s.accepted| - (if s.producer.Sent? then 1 else 0)
    && (s.producer.Checked? || (s.producer.Idle? && !s.gate.once) ==> |s.accepted| < s.numTraces)
    && s.blocked == 0
  }

  lemma OrderlyStep(s: Session, e: Event)
    requires Orderly(s)
    ensures Orderly(Step(s, e))
  {
    hide Orderly, SendStep, LimitStep, StopperStep, FinishStep, HandleStep;
    if ByHandler(e) {
      if OfFinish(e) { OrderlyFinish(s, e); } else { OrderlyHandle(s, e); }
    } else if ByStopper(e) {
      OrderlyStop(s, e);
    } else if e.Check? || e.Send? || e.Count? {
      OrderlySend(s, e);
    } else {
      OrderlyLimit(s, e);
    }
  }

  lemma OrderlyFinish(s: Session, e: Event)
    requires Orderly(s)
    ensures Orderly(FinishStep(s, e))
  {
  }

  lemma OrderlyHandle(s: Session, e: Event)
    requires Orderly(s)
    ensures Orderly(HandleStep(s, e))
  {
  }

  lemma OrderlyStop(s: Session, e: Event)
    requires Orderly(s)
    ensures Orderly(StopperStep(s, e))
  {
  }

  lemma OrderlySend(s: Session, e: Event)
    requires Orderly(s)
    ensures Orderly(SendStep(s, e))
  {
  }

  lemma OrderlyLimit(s: Session, e: Event)
    requires Orderly(s)
    ensures Orderly(LimitStep(s, e))
  {
  }

  lemma ConservesStep(s: Session, e: Event)
    requires Conserves(s)
    ensures Conserves(Step(s, e))
  {
    if ByHandler(e) {
      if e.SelectTrace? || e.DrainTrace? {
        ConservesTake(s, e);
      } else if e.Write? {
        ConservesWrite(s, e.ok, e.bytes);
      } else if OfFinish(e) {
        FinishFrame(s, e);
      } else {
        HandlerWithoutTrace(s, e);
      }
    } else if e.Send? {
      ConservesSend(s);
    } else {
      OthersFrame(s, e);
    }
  }

  lemma ConservesSend(s: Session)
    requires Conserves(s)
    ensures Conserves(ProducerStep(s, Send))
  {
    if s.producer.Checked? {
      Regroup(s.log.written + s.log.lost + Held(s.handler), s.queue, [s.producer.trace]);
    }
  }

  lemma ConservesTake(s: Session, e: Event)
    requires Conserves(s) && (e.SelectTrace? || e.DrainTrace?)
    ensures Conserves(HandlerStep(s, e))
  {
    if s.queue != [] {
      assert s.queue == [s.queue[0]] + s.queue[1..];
      Regroup(s.log.written + s.log.lost, [s.queue[0]], s.queue[1..]);
      assert s.log.written + s.log.lost + [] == s.log.written + s.log.lost;
    }
  }

  lemma ConservesWrite(s: Session, ok: bool, bytes: nat)
    requires Conserves(s)
    ensures Conserves(HandlerStep(s, Write(ok, bytes)))
  {
    if s.handler.Holding? {
      assert s.log.written + [] + [s.handler.held] == s.log.written + [s.handler.held];
      assert s.log.written + [s.handler.held] + [] + [] == s.log.written + [s.handler.held];
    }
  }

  /** Neither the producer nor a stopper touches what belongs to the handler; only a send touches the lists. */
  ghost predicate HandlerUntouched(s: Session, s': Session) {
    && s'.handler == s.handler && s'.disk == s.disk && s'.log == s.log
    && s'.running == s.running && s'.finishes == s.finishes
    && s'.numTraces == s.numTraces && s'.sizeLim == s.sizeLim
    && (s.gate.once ==> s'.gate.once) && (Closed(s) ==> Closed(s'))
  }

  lemma SendFrame(s: Session, e: Event)
    ensures HandlerUntouched(s, SendStep(s, e))
    ensures !e.Send? ==> SendStep(s, e).queue == s.queue && SendStep(s, e).accepted == s.accepted
  {
    hide Int32;
  }

  lemma LimitFrame(s: Session, e: Event)
    ensures HandlerUntouched(s, LimitStep(s, e))
    ensures LimitStep(s, e).queue == s.queue && LimitStep(s, e).accepted == s.accepted
  {
    hide ReachedTraceCount, ReachedSizeLimit;
  }

  lemma ProducerFrame(s: Session, e: Event)
    ensures HandlerUntouched(s, ProducerStep(s, e))
    ensures !e.Send? ==> ProducerStep(s, e).queue == s.queue && ProducerStep(s, e).accepted == s.accepted
  {
    hide SendStep, LimitStep, HandlerUntouched;
    SendFrame(s, e);
    LimitFrame(s, e);
  }

  lemma StopperFrame(s: Session, e: Event)
    requires ByStopper(e)
    ensures HandlerUntouched(s, StopperStep(s, e))
    ensures StopperStep(s, e).queue == s.queue && StopperStep(s, e).accepted == s.accepted
  {
  }

  lemma OthersFrame(s: Session, e: Event)
    requires !ByHandler(e)
    ensures HandlerUntouched(s, Step(s, e))
    ensures !e.Send? ==> Step(s, e).queue == s.queue && Step(s, e).accepted == s.accepted
  {
    hide HandlerUntouched, ProducerStep, StopperStep;
    if ByProducer(e) { ProducerFrame(s, e); } else { StopperFrame(s, e); }
  }

  /** The handler touches nothing of the producer's. */
  ghost predicate ProducerUntouched(s: Session, s': Session) {
    && s'.producer == s.producer && s'.stops == s.stops && s'.accepted == s.accepted && s'.blocked == s.blocked
    && s'.traceCount == s.traceCount && s'.totalSize == s.totalSize
    && s'.numTraces == s.numTraces && s'.sizeLim == s.sizeLim && s'.clean == s.clean
    && s'.gate == s.gate
  }

  /** The steps of finish touch no trace. */
  lemma FinishFrame(s: Session, e: Event)
    ensures var s' := FinishStep(s, e);
            && ProducerUntouched(s, s')
            && s'.log == s.log && s'.queue == s.queue && s'.disk.file == s.disk.file
            && Held(s'.handler) == Held(s.handler)
            && (s'.handler.Finishing? && !s'.handler.ok <==> s.handler.Finishing? && !s.handler.ok)
  {
  }

  lemma HandleFrame(s: Session, e: Event)
    ensures ProducerUntouched(s, HandleStep(s, e))
    ensures HandleStep(s, e).running == s.running && HandleStep(s, e).disk.removed == s.disk.removed
    ensures !e.Write? ==> HandleStep(s, e).disk == s.disk && HandleStep(s, e).log == s.log
  {
  }

  lemma HandlerFrame(s: Session, e: Event)
    requires ByHandler(e)
    ensures ProducerUntouched(s, Step(s, e))
  {
    hide FinishStep, HandleStep, ProducerUntouched;
    FinishFrame(s, e);
    HandleFrame(s, e);
  }

  lemma HandlerWithoutTrace(s: Session, e: Event)
    requires e.SelectDone? || e.DrainEmpty?
    ensures var s' := HandleStep(s, e);
            && s'.accepted == s.accepted && s'.queue == s.queue
            && s'.log.written == s.log.written && s'.log.lost == s.log.lost
            && Held(s'.handler) == Held(s.handler)
            && (s'.handler.Finishing? && !s'.handler.ok <==> s.handler.Finishing? && !s.handler.ok)
  {
  }

  lemma Regroup<T>(a: seq<T>, b: seq<T>, c: seq<T>)
    ensures a + b + c == a + (b + c)
  {
  }

  lemma OneLateStep(s: Session, e: Event)
    requires Orderly(s) && OneLate(s)
    ensures OneLate(Step(s, e))
  {
  }

  lemma CountsStep(s: Session, e: Event)
    requires Orderly(s) && Conserves(s) && Counts(s)
    ensures Counts(Step(s, e))
  {
    hide Counts, Orderly, SendStep, LimitStep, StopperStep, HandlerStep;
    if ByHandler(e) {
      HandlerFrame(s, e);
      CountsUntouched(s, Step(s, e));
    } else if ByStopper(e) {
      CountsStop(s, e);
    } else if e.Check? || e.Send? || e.Count? {
      assert |s.queue| <= |s.accepted|;
      CountsSend(s, e);
    } else {
      CountsLimit(s, e);
    }
  }

  lemma CountsUntouched(s: Session, s': Session)
    requires Counts(s) && ProducerUntouched(s, s')
    ensures Counts(s')
  {
  }

  lemma CountsStop(s: Session, e: Event)
    requires Counts(s)
    ensures Counts(StopperStep(s, e))
  {
  }

  lemma CountsSend(s: Session, e: Event)
    requires Orderly(s) && Counts(s) && |s.queue| <= |s.accepted|
    ensures Counts(SendStep(s, e))
  {
    Int32Exact(s.traceCount + 1);
  }

  lemma CountsLimit(s: Session, e: Event)
    requires Orderly(s) && Counts(s)
    ensures Counts(LimitStep(s, e))
  {
  }

  ghost predicate Sound(s: Session) {
    Orderly(s) && Conserves(s) && OneLate(s) && Counts(s)
  }

  lemma {:induction false} RunKeepsSound(s: Session, es: seq<Event>)
    requires Sound(s)
    ensures Sound(Run(s, es))
    decreases |es|
  {
    if es != [] {
      hide Orderly, Conserves, OneLate, Counts, Step;
      var before, e := Run(s, es[..|es| - 1]), es[|es| - 1];
      RunKeepsSound(s, es[..|es| - 1]);
      OrderlyStep(before, e);
      ConservesStep(before, e);
      OneLateStep(before, e);
      CountsStep(before, e);
    }
  }

  lemma RunIsSound(p: Params, es: seq<Event>)
    requires Bounded(p)
    ensures Sound(Run(Started(p), es))
  {
    RunKeepsSound(Started(p), es);
  }
}
