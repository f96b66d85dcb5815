/**
  The Exporter object (exporter/exporter.go). Its methods execute the code of the source on the object's fields, and
  each is tied to the run of its own steps in the session's state machine, so everything proved of all interleavings
  holds of them. While the handler goroutine runs, the others move between its steps.
*/
module Exporter {
  import opened Wrappers
  import opened Chunking
  import opened ExportParams
  import opened ExportSession
  import opened ExportLaws
  import opened ExportFile
  import Keys

  datatype ExportError =
    | AlreadyRunning
    | NotRunningYet
    | NotAcceptingData
    | ShouldNotAcceptData
    | Invalid(error: ValidationError)
    | ChannelFull
    | FileError

  /** A channel that carries nothing and is only ever closed. */
  datatype DoneChan = Nil | Open | Done

  /** HandleTrace returns, or waits for a trace or the done channel. */
  datatype Outcome = Returned(err: Option<ExportError>) | Waiting

  function ReceiveEvents(t: Trace, timeUp: bool): seq<Event> {
    [Check(t), Send] + [Count, Limit(timeUp)] + [LimitStopCheck, LimitStopFire]
  }

  function FinishEvents(closeOk: bool, removeOk: bool): seq<Event> {
    [FinishRunning, FinishAccepting] + [FinishClose(closeOk), FinishRemove(removeOk)] + [FinishRelease]
  }

  ghost predicate ByOthers(es: seq<Event>) {
    forall i :: 0 <= i < |es| ==> !ByHandler(es[i])
  }

  /** The events of a run that are not the handler's, in their order. */
  ghost function OthersOf(es: seq<Event>): seq<Event>
    decreases |es|
  {
    if es == [] then []
    else
      var front, last := OthersOf(es[..|es| - 1]), es[|es| - 1];
      if ByHandler(last) then front else front + [last]
  }

  lemma {:induction false} OthersOfAppend(a: seq<Event>, b: seq<Event>)
    ensures OthersOf(a + b) == OthersOf(a) + OthersOf(b)
    decreases |b|
  {
    if b == [] {
      assert a + b == a;
    } else {
      OthersOfAppend(a, b[..|b| - 1]);
      assert (a + b)[..|a + b| - 1] == a + b[..|b| - 1];
    }
  }

  lemma {:induction false} OthersAreOthers(es: seq<Event>)
    requires ByOthers(es)
    ensures OthersOf(es) == es
    decreases |es|
  {
    if es != [] {
      OthersAreOthers(es[..|es| - 1]);
    }
  }

  /** A session begun by Init and StartReceiving, or one begun over a fired once. */
  ghost predicate Sane(s: Session) {
    Sound(s) || Stale(s)
  }

  lemma RunKeepsSane(s: Session, es: seq<Event>)
    requires Sane(s)
    ensures Sane(Run(s, es))
    ensures Sound(s) ==> Sound(Run(s, es))
  {
    hide Sound, Stale, Run;
    if Sound(s) { RunKeepsSound(s, es); }
    if Stale(s) { StaleRun(s, es); }
  }

  class Exporter {
    var running: bool
    var initialised: bool
    var params: Params
    var once: bool
    var doneChan: DoneChan
    var traceChan: Option<seq<Trace>>
    var traceCount: int32
    var totalSize: int32
    /** The file: what was written to it, whether it is open, whether it was removed. */
    var disk: Disk
    /** Where the producer stands in NonblockingReceive, and how many stop calls are under way. */
    var producer: Producer
    var stops: nat
    /** The state of the machine this object is in since StartReceiving. */
    ghost var session: Session

    ghost predicate Mirrors()
      reads this
    {
      && session.numTraces == params.numTraces && session.sizeLim == params.sizeLim && session.clean == params.clean
      && session.running == running && session.gate.once == once
      && doneChan == (if Closed(session) then Done else Open)
      && traceChan == Some(session.queue)
      && session.traceCount == traceCount && session.totalSize == totalSize
      && session.disk == disk
      && session.producer == producer && session.stops == stops
    }

    /** Initialised and not yet started. */
    ghost predicate Ready()
      reads this
    {
      !once && traceCount == 0 && totalSize == 0 && disk == Disk([], true, false) && producer.Idle? && stops == 0
    }

    ghost predicate Valid()
      reads this
    {
      && (initialised ==> Bounded(params))
      && (traceChan.None? <==> doneChan.Nil?)
      && (traceChan.None? ==> !running)
      && (initialised && traceChan.None? ==> Ready())
      && (traceChan.Some? ==> initialised && Mirrors() && Sane(session))
    }

    constructor ()
      ensures Valid() && !running && !initialised && traceChan.None?
    {
      running, initialised, once, doneChan, traceChan := false, false, false, Nil, None;
    }

    predicate IsAcceptingData()
      reads this
    {
      traceChan.Some? && doneChan == Open
    }

    /** Validates and creates a fresh file; a failed Init changes nothing, a successful one is not yet accepting. */
    method Init(p: Params, fileOk: bool) returns (err: Option<ExportError>)
      requires Valid()
      modifies this
      ensures Valid()
      ensures old(running) ==> err == Some(AlreadyRunning)
      ensures !old(running) ==>
                && (err == Some(Invalid(SizeLimOutOfRange)) <==> !SizeOk(p))
                && (err == Some(Invalid(NumTracesOutOfRange)) <==> SizeOk(p) && !CountOk(p))
                && (err == Some(Invalid(DurationOutOfRange)) <==> SizeOk(p) && CountOk(p) && !DurationOk(p))
                && (err == Some(Invalid(FileIdTooLong)) <==>
                      SizeOk(p) && CountOk(p) && DurationOk(p) && |p.fileId| > 10)
                && (err == Some(Invalid(FileIdNotAlphanumeric)) <==>
                      SizeOk(p) && CountOk(p) && DurationOk(p) && |p.fileId| <= 10 && !LettersAndDigits(p.fileId))
                && (err == Some(Invalid(NoLimitGiven)) <==>
                      && SizeOk(p) && CountOk(p) && DurationOk(p) && |p.fileId| <= 10 && LettersAndDigits(p.fileId)
                      && !SomeLimit(p))
                && (err == Some(FileError) <==> Acceptable(p) && !fileOk)
                && (err.None? <==> Acceptable(p) && fileOk)
      ensures err.Some? ==> unchanged(this)
      ensures err.None? ==> initialised && !IsAcceptingData() && !running && traceChan.None?
      ensures err.None? ==> !once && traceCount == 0 && totalSize == 0 && disk == Disk([], true, false)
      ensures err.None? ==>
                && params.fileId == p.fileId && params.clean == p.clean
                && params.numTraces == (if p.numTraces == 0 then 1_000_000 else p.numTraces)
                && params.sizeLim == (if p.sizeLim == 0 then 1_024_000_000 else p.sizeLim * 1_000_000)
                && params.duration == (if p.duration == 0 then 24 * 60 * 60 * 1_000_000_000 else p.duration)
    {
      hide *;
      ValidatesInOrder(p);
      EffectiveFields(p);
      if running {
        return Some(AlreadyRunning);
      }
      var invalid := Validate(p);
      if invalid.Some? {
        return Some(Invalid(invalid.value));
      }
      if !fileOk {
        return Some(FileError);
      }
      AcceptedParamsAreBounded(p);
      Reset(Effective(p));
      return None;
    }

    /** The end of Init: a fresh file, no channels yet, and the calls of the session before have returned. */
    method Reset(p: Params)
      requires Bounded(p) && !running
      modifies this
      ensures Valid() && initialised && params == p && !IsAcceptingData() && !running && traceChan.None?
      ensures !once && traceCount == 0 && totalSize == 0 && disk == Disk([], true, false)
    {
      initialised, params := true, p;
      traceCount, totalSize, disk := 0, 0, Disk([], true, false);
      once, doneChan, traceChan := false, Nil, None;
      producer, stops := Idle, 0;
    }

    /**
      Opens a session over what the last Init left; without one since the last session, over what that session left,
      which is the state nothing ends.
    */
    method StartReceiving() returns (err: Option<ExportError>)
      requires Valid() && initialised
      modifies this
      ensures Valid()
      ensures old(running) ==> err == Some(AlreadyRunning) && unchanged(this)
      ensures !old(running) ==> err.None? && running && IsAcceptingData() && params == old(params)
      ensures !old(running) ==>
                && traceChan == Some([]) && once == old(once) && disk == old(disk)
                && traceCount == old(traceCount) && totalSize == old(totalSize)
      ensures !old(running) && old(traceChan).None? ==> session == Started(params)
      ensures !old(running) && old(traceChan).Some? ==> session == Restarted(old(session)) && Stale(session)
    {
      hide Sound, Stale;
      if running {
        return Some(AlreadyRunning);
      }
      running := true;
      if traceChan.None? {
        session := Started(params);
        StartsSound(params);
      } else {
        EndedIsSound(session);
        RestartIsStale(session);
        session := Restarted(session);
      }
      traceChan := Some([]);
      doneChan := Open;
      producer, stops := Idle, 0;
      return None;
    }

    /** Any number of calls close the channel at most once. */
    method CloseOnce()
      modifies this`once, this`doneChan
      ensures once
      ensures doneChan == if old(once) then old(doneChan) else Done
    {
      if !once {
        once := true;
        doneChan := Done;
      }
    }

    /** A call of StopReceiving from outside. */
    method StopReceiving() returns (err: Option<ExportError>)
      requires Valid()
      modifies this
      ensures Valid()
      ensures err == if old(running) then None else Some(NotRunningYet)
      ensures !old(running) ==> unchanged(this)
      ensures old(running) ==> session == Run(old(session), [StopCheck, StopFire])
      ensures old(running) && Sound(old(session)) ==> !IsAcceptingData()
    {
      if !running {
        return Some(NotRunningYet);
      }
      hide Sane, Run, Ready;
      ghost var before := session;
      StopPair(before);
      RunKeepsSane(before, [StopCheck, StopFire]);
      FiresOnlyOpen(before);
      CloseOnce();
      session := Run(before, [StopCheck, StopFire]);
      return None;
    }

    predicate ReachedLimit(timeUp: bool)
      reads this
    {
      || (params.numTraces > 0 && traceCount >= params.numTraces)
      || (params.sizeLim > 0 && totalSize >= params.sizeLim)
      || timeUp
    }

    /**
      Accepts the trace exactly when data is accepted and the channel has room; in a session begun by Init it always
      has, and the stop after reaching a limit never fails. There is one producer, so it is in no other call.
    */
    method NonblockingReceive(trace: Trace, timeUp: bool) returns (err: Option<ExportError>)
      requires Valid() && (traceChan.Some? ==> producer.Idle?)
      modifies this
      ensures Valid()
      ensures !old(IsAcceptingData()) ==> err == Some(NotAcceptingData)
      ensures old(IsAcceptingData()) ==>
                err == if |old(traceChan).value| < params.numTraces then None else Some(ChannelFull)
      ensures old(IsAcceptingData()) && Sound(old(session)) ==> err.None?
      ensures old(traceChan).None? ==> unchanged(this)
      ensures old(traceChan).Some? ==> session == Run(old(session), ReceiveEvents(trace, timeUp)) && producer.Idle?
      ensures params == old(params) && disk == old(disk)
      ensures err.None? ==>
                && traceChan == Some(old(traceChan).value + [trace])
                && traceCount == Int32(old(traceCount) + 1)
                && totalSize == Int32(old(totalSize) + Int32(|trace|))
      ensures err.None? && !old(once) ==>
                (IsAcceptingData() <==>
                   && (params.numTraces <= 0 || traceCount < params.numTraces)
                   && (params.sizeLim <= 0 || totalSize < params.sizeLim) && !timeUp)
      ensures err.Some? ==>
                && traceChan == old(traceChan) && doneChan == old(doneChan) && once == old(once)
                && traceCount == old(traceCount) && totalSize == old(totalSize)
    {
      hide Sane, Run, Int32, ReceiveEvents, Ready;
      if !IsAcceptingData() {
        if traceChan.Some? {
          RefusedEvents(session, trace, timeUp);
        }
        return Some(NotAcceptingData);
      }
      ghost var before := session;
      HasRoom(before);
      if |traceChan.value| >= params.numTraces {
        FullEvents(before, trace, timeUp);
        RunKeepsSane(before, ReceiveEvents(trace, timeUp));
        session := Run(before, ReceiveEvents(trace, timeUp));
        return Some(ChannelFull);
      }
      err := Accept(trace, timeUp);
    }

    /** The rest of NonblockingReceive once the send goes through. */
    method Accept(trace: Trace, timeUp: bool) returns (err: Option<ExportError>)
      requires Valid() && IsAcceptingData() && producer.Idle? && running && |traceChan.value| < params.numTraces
      modifies this
      ensures Valid() && traceChan.Some? && err.None? && producer.Idle? && params == old(params)
      ensures session == Run(old(session), ReceiveEvents(trace, timeUp))
      ensures disk == old(disk) && traceChan == Some(old(traceChan).value + [trace])
      ensures traceCount == Int32(old(traceCount) + 1) && totalSize == Int32(old(totalSize) + Int32(|trace|))
      ensures !old(once) ==>
                (IsAcceptingData() <==>
                   && (params.numTraces <= 0 || traceCount < params.numTraces)
                   && (params.sizeLim <= 0 || totalSize < params.sizeLim) && !timeUp)
    {
      hide Sane, Run, Int32, ReceiveEvents, Ready;
      ghost var before := session;
      RunKeepsSane(before, ReceiveEvents(trace, timeUp));
      FiresOnlyOpen(before);
      ReceivedEvents(before, trace, timeUp);
      traceChan := Some(traceChan.value + [trace]);
      traceCount := Int32(traceCount + 1);
      totalSize := Int32(totalSize + Int32(|trace|));
      if ReachedLimit(timeUp) {
        if !running {
          return Some(NotRunningYet);
        }
        CloseOnce();
      }
      session := Run(before, ReceiveEvents(trace, timeUp));
      return None;
    }

    // -------------------------------------------------------------- the others, one step at a time

    /** One atomic step of NonblockingReceive up to the counters. */
    method SendMove(e: Event)
      requires Valid() && traceChan.Some? && (e.Check? || e.Send? || e.Count?)
      modifies this
      ensures Valid() && traceChan.Some? && session == Step(old(session), e)
    {
      hide Sane, Run, Int32, Ready;
      ghost var before := session;
      RunKeepsSane(before, [e]);
      RunOne(before, e);
      FiresOnlyOpen(before);
      session := Step(before, e);
      match e
      case Check(trace) =>
        if producer.Idle? && IsAcceptingData() { producer := Checked(trace); }
      case Send =>
        if producer.Checked? {
          if |traceChan.value| < params.numTraces {
            traceChan := Some(traceChan.value + [producer.trace]);
            producer := Sent(producer.trace);
          } else {
            producer := Idle;
          }
        }
      case Count =>
        if producer.Sent? {
          traceCount := Int32(traceCount + 1);
          totalSize := Int32(totalSize + Int32(|producer.trace|));
          producer := Counted;
        }
    }

    /** One atomic step of the limits and of the stop they cause. */
    method LimitMove(e: Event)
      requires Valid() && traceChan.Some? && (e.Limit? || e.LimitStopCheck? || e.LimitStopFire?)
      modifies this
      ensures Valid() && traceChan.Some? && session == Step(old(session), e)
    {
      hide Sane, Run, Int32, Ready;
      ghost var before := session;
      RunKeepsSane(before, [e]);
      RunOne(before, e);
      FiresOnlyOpen(before);
      session := Step(before, e);
      match e
      case Limit(timeUp) =>
        if producer.Counted? { producer := if ReachedLimit(timeUp) then Stopping else Idle; }
      case LimitStopCheck =>
        if producer.Stopping? { producer := if running then Firing else Idle; }
      case LimitStopFire =>
        if producer.Firing? {
          CloseOnce();
          producer := Idle;
        }
    }

    /** One atomic step of a stop request. */
    method StopMove(e: Event)
      requires Valid() && traceChan.Some? && ByStopper(e)
      modifies this
      ensures Valid() && traceChan.Some? && session == Step(old(session), e)
    {
      hide Sane, Run, Int32, Ready;
      ghost var before := session;
      RunKeepsSane(before, [e]);
      RunOne(before, e);
      FiresOnlyOpen(before);
      session := Step(before, e);
      match e
      case SetClean(clean) =>
        if running { params := params.(clean := clean); }
      case StopCheck =>
        if running { stops := stops + 1; }
      case StopFire =>
        if stops > 0 {
          CloseOnce();
          stops := stops - 1;
        }
    }

    /** One atomic step of the producer or of a stopper. */
    method OtherStep(e: Event)
      requires Valid() && traceChan.Some? && !ByHandler(e)
      modifies this
      ensures Valid() && traceChan.Some? && session == Step(old(session), e) && session.handler == old(session).handler
      ensures disk == old(disk) && session.log == old(session).log
      ensures old(doneChan).Done? ==> doneChan.Done?
    {
      hide Sane, Run, Step;
      OthersFrame(session, e);
      if ByStopper(e) {
        StopMove(e);
      } else if e.Limit? || e.LimitStopCheck? || e.LimitStopFire? {
        LimitMove(e);
      } else {
        SendMove(e);
      }
    }

    method OtherSteps(es: seq<Event>)
      requires Valid() && traceChan.Some? && ByOthers(es)
      modifies this
      ensures Valid() && traceChan.Some? && session == Run(old(session), es) && session.handler == old(session).handler
      ensures disk == old(disk) && session.log == old(session).log
      ensures old(doneChan).Done? ==> doneChan.Done?
    {
      hide Run, Valid, Step;
      RunNothing(session);
      assert es[..0] == [];
      for i := 0 to |es|
        invariant Valid() && traceChan.Some? && session == Run(old(session), es[..i])
        invariant session.handler == old(session).handler && disk == old(disk) && session.log == old(session).log
        invariant old(doneChan).Done? ==> doneChan.Done?
      {
        RunSnoc(old(session), es[..i], es[i]);
        assert es[..i + 1] == es[..i] + [es[i]];
        OtherStep(es[i]);
      }
      assert es[..|es|] == es;
    }

    // -------------------------------------------------------------- the handler

    /** Receives the first queued trace. */
    method TakeNext(draining: bool) returns (r: Trace)
      requires Valid() && traceChan.Some? && traceChan.value != []
      requires session.handler == (if draining then Draining else Selecting)
      modifies this`traceChan, this`session
      ensures Valid() && traceChan == Some(old(traceChan).value[1..]) && r == old(traceChan).value[0]
      ensures session == Step(old(session), TakeEvent(draining)) && session == Take(old(session), draining)
    {
      hide Sane, Run, Ready, Step, IsAcceptingData;
      ghost var before := session;
      RunKeepsSane(before, [TakeEvent(draining)]);
      RunOne(before, TakeEvent(draining));
      StepTakes(before, draining);
      r := traceChan.value[0];
      traceChan := Some(traceChan.value[1..]);
      session := Take(before, draining);
    }

    /** Writes the trace in hand; a failed write leaves some of its first bytes behind, and ends HandleTrace. */
    method WriteHeld(r: Trace, draining: bool) returns (ok: bool, ghost e: Event)
      requires Valid() && traceChan.Some? && session.handler == Holding(r, draining)
      modifies this`disk, this`session
      ensures Valid() && e.Write? && session == Step(old(session), e)
      ensures session.handler
           == if !ok then Finishing(CheckRunning, false) else if draining then Draining else Selecting
      ensures ok ==> session.log.written == old(session).log.written + [r] && disk.file == old(disk).file + Line(r)
    {
      hide Sane, Run, Torn, Line, Ready, Step, IsAcceptingData;
      ghost var before := session;
      var n: nat := *;
      ok := *;
      ok := ok && disk.open;
      e := Write(ok, n);
      RunKeepsSane(before, [e]);
      RunOne(before, e);
      StepWrites(before, ok, n);
      disk := disk.(file := disk.file + if ok then Line(r) else Torn(disk, r, n));
      session := Step(before, e);
    }

    /** Takes the first queued trace and writes it. */
    method WriteNext(draining: bool) returns (ok: bool, ghost es: seq<Event>)
      requires Valid() && traceChan.Some? && traceChan.value != []
      requires session.handler == (if draining then Draining else Selecting)
      modifies this
      ensures Valid() && traceChan == Some(old(traceChan).value[1..])
      ensures session == Run(old(session), es) && OthersOf(es) == []
      ensures ok ==> session.handler == old(session).handler
      ensures ok ==> session.log.written == old(session).log.written + [old(traceChan).value[0]]
      ensures ok ==> disk.file == old(disk).file + Line(old(traceChan).value[0])
      ensures !ok ==> session.handler == Finishing(CheckRunning, false)
    {
      hide Valid, Run, Step, Line, OthersOf;
      ghost var before, first := session, TakeEvent(draining);
      ghost var write;
      assert session.queue == traceChan.value by { QueueIsChannel(); }
      var r := TakeNext(draining);
      ok, write := WriteHeld(r, draining);
      es := [first, write];
      RunTwo(before, first, write);
      PairIsHandlers(first, write);
    }

    lemma QueueIsChannel()
      requires Valid() && traceChan.Some?
      ensures session.queue == traceChan.value
    {
    }

    /** What the handler has done since begin, with the others moving in between. */
    ghost predicate Progress(
      begin: Session, bytes: seq<Keys.byte>, es: seq<Event>, others: seq<Event>, done: seq<Trace>)
      reads this
    {
      && Valid() && traceChan.Some?
      && session == Run(begin, es) && OthersOf(es) == others
      && session.log.written == begin.log.written + done && disk.file == bytes + Lines(done)
    }

    lemma ProgressStarts()
      requires Valid() && traceChan.Some?
      ensures Progress(session, disk.file, [], [], [])
    {
      RunNothing(session);
      NoLines();
      assert session.log.written + [] == session.log.written && disk.file + [] == disk.file;
    }

    /** Lets the others move between two steps of the handler. */
    method LetOthers(
      ghost begin: Session, ghost bytes: seq<Keys.byte>, ghost before: seq<Event>, ghost others: seq<Event>,
      ghost done: seq<Trace>, now: seq<Event>)
      returns (ghost es: seq<Event>)
      requires Progress(begin, bytes, before, others, done) && ByOthers(now)
      modifies this
      ensures Progress(begin, bytes, es, others + now, done) && session.handler == old(session).handler
    {
      hide Valid, Run;
      OtherSteps(now);
      RunAppend(begin, before, now);
      OthersOfAppend(before, now);
      OthersAreOthers(now);
      es := before + now;
    }

    /** Writes the next trace; without an error the handler is where it was. */
    method WriteOne(
      draining: bool,
      ghost begin: Session, ghost bytes: seq<Keys.byte>, ghost before: seq<Event>, ghost others: seq<Event>,
      ghost done: seq<Trace>)
      returns (ok: bool, ghost es: seq<Event>, ghost done': seq<Trace>)
      requires Progress(begin, bytes, before, others, done) && traceChan.value != []
      requires session.handler == (if draining then Draining else Selecting)
      modifies this
      ensures Valid() && traceChan == Some(old(traceChan).value[1..])
      ensures session == Run(begin, es) && OthersOf(es) == others
      ensures ok ==> Progress(begin, bytes, es, others, done') && session.handler == old(session).handler
      ensures !ok ==> session.handler == Finishing(CheckRunning, false)
    {
      hide Valid, Run, Lines;
      ghost var r := traceChan.value[0];
      LinesSnoc(done, r);
      done' := done + [r];
      ghost var more;
      ok, more := WriteNext(draining);
      RunAppend(begin, before, more);
      OthersOfAppend(before, more);
      es := before + more;
      assert others + [] == others;
    }

    /** A step of the handler that touches no trace. */
    ghost method Move(
      begin: Session, bytes: seq<Keys.byte>, before: seq<Event>, others: seq<Event>, done: seq<Trace>, e: Event)
      returns (es: seq<Event>)
      requires Progress(begin, bytes, before, others, done) && ByHandler(e)
      requires Step(session, e) == session.(handler := Step(session, e).handler)
      modifies this`session
      ensures Progress(begin, bytes, es, others, done) && session == Step(old(session), e)
    {
      hide Run, Lines, Sane, Step;
      RunKeepsSane(session, [e]);
      RunOne(session, e);
      RunSnoc(begin, before, e);
      OthersOfAppend(before, [e]);
      HandlersHasNoOthers(e);
      es := before + [e];
      session := Step(session, e);
      assert others + [] == others;
    }

    /**
      The inner loop of HandleTrace: empties the channel and returns; others may still move, n of their turns are
      taken.
    */
    method Drain(
      others: seq<seq<Event>>, taken: nat,
      ghost begin: Session, ghost bytes: seq<Keys.byte>, ghost before: seq<Event>, ghost done: seq<Trace>)
      returns (err: Option<ExportError>, n: nat, ghost es: seq<Event>, ghost done': seq<Trace>)
      requires taken <= |others| && forall i :: 0 <= i < |others| ==> ByOthers(others[i])
      requires Progress(begin, bytes, before, Flatten(others[..taken]), done) && session.handler.Draining?
      modifies this
      ensures Valid() && traceChan.Some? && n <= |others|
      ensures session == Run(begin, es) && OthersOf(es) == Flatten(others[..n])
      ensures session.handler == Finishing(CheckRunning, err.None?)
      ensures err.None? ==> Progress(begin, bytes, es, Flatten(others[..n]), done') && traceChan == Some([])
    {
      hide Run, Progress, Flatten;
      n, es, done' := taken, before, done;
      while true
        invariant n <= |others| && Progress(begin, bytes, es, Flatten(others[..n]), done') && session.handler.Draining?
        decreases |others| - n, if traceChan.Some? then |traceChan.value| else 0
      {
        ProgressIsValid(begin, bytes, es, Flatten(others[..n]), done');
        if n < |others| {
          FlattenUpTo(others, n);
          es := LetOthers(begin, bytes, es, Flatten(others[..n]), done', others[n]);
          n := n + 1;
          ProgressIsValid(begin, bytes, es, Flatten(others[..n]), done');
        }
        if traceChan.value == [] {
          EndsDraining(session);
          es := Move(begin, bytes, es, Flatten(others[..n]), done', DrainEmpty);
          ProgressIsValid(begin, bytes, es, Flatten(others[..n]), done');
          return None, n, es, done';
        }
        var ok;
        ok, es, done' := WriteOne(true, begin, bytes, es, Flatten(others[..n]), done');
        if !ok {
          return Some(FileError), n, es, done';
        }
      }
    }

    lemma ProgressIsValid(begin: Session, bytes: seq<Keys.byte>, es: seq<Event>, others: seq<Event>, done: seq<Trace>)
      requires Progress(begin, bytes, es, others, done)
      ensures Valid() && traceChan.Some? && session.queue == traceChan.value && (doneChan.Done? <==> Closed(session))
      ensures session == Run(begin, es) && OthersOf(es) == others
      ensures session.log.written == begin.log.written + done && disk.file == bytes + Lines(done)
    {
    }

    /**
      HandleTrace, entered while data is accepted or not. others says what the other goroutines do before each of its
      turns; in the outer select either ready case may be taken, and with none ready it waits for them. The traces in
      done are what it wrote, in order; when it returns without error it has left nothing in the channel.
    */
    method HandleTrace(others: seq<seq<Event>>)
      returns (out: Outcome, n: nat, ghost es: seq<Event>, ghost done: seq<Trace>)
      requires Valid() && traceChan.Some? && session.handler.Selecting?
      requires forall i :: 0 <= i < |others| ==> ByOthers(others[i])
      modifies this
      ensures Valid() && traceChan.Some? && n <= |others|
      ensures session == Run(old(session), es) && OthersOf(es) == Flatten(others[..n])
      ensures out.Waiting? ==> n == |others| && session.handler.Selecting? && traceChan == Some([]) && IsAcceptingData()
      ensures out.Returned? ==> session.handler == Finishing(CheckRunning, out.err.None?)
      ensures out == Returned(None) ==> traceChan == Some([]) && doneChan.Done?
      ensures out.Waiting? || out.err.None? ==>
                session.log.written == old(session).log.written + done && disk.file == old(disk).file + Lines(done)
    {
      hide Run, Progress, Flatten;
      ghost var begin, bytes := session, disk.file;
      n, es, done := 0, [], [];
      ProgressStarts();
      assert others[..0] == [];
      FlattenNothing<Event>();
      while true
        invariant n <= |others| && Progress(begin, bytes, es, Flatten(others[..n]), done) && session.handler.Selecting?
        decreases |others| - n, if traceChan.Some? then |traceChan.value| else 0
      {
        ProgressIsValid(begin, bytes, es, Flatten(others[..n]), done);
        if n < |others| {
          FlattenUpTo(others, n);
          es := LetOthers(begin, bytes, es, Flatten(others[..n]), done, others[n]);
          n := n + 1;
          ProgressIsValid(begin, bytes, es, Flatten(others[..n]), done);
        }
        var takeTrace: bool := *;
        if doneChan.Done? && (traceChan.value == [] || !takeTrace) {
          StartsDraining(session);
          es := Move(begin, bytes, es, Flatten(others[..n]), done, SelectDone);
          var err;
          err, n, es, done := Drain(others, n, begin, bytes, es, done);
          if err.None? {
            ProgressIsValid(begin, bytes, es, Flatten(others[..n]), done);
            CleanReturnIsClosed(session);
          }
          return Returned(err), n, es, done;
        } else if traceChan.value != [] {
          var ok;
          ok, es, done := WriteOne(false, begin, bytes, es, Flatten(others[..n]), done);
          if !ok {
            return Returned(Some(FileError)), n, es, done;
          }
        } else if n == |others| {
          return Waiting, n, es, done;
        }
      }
    }

    /**
      finish, called once after HandleTrace: refused while data is accepted, otherwise it closes the file, removes it if
      that was asked for, and ends the session.
    */
    method Finish(closeOk: bool, removeOk: bool) returns (err: Option<ExportError>)
      requires Valid() && traceChan.Some?
      requires session.handler.Finishing? && session.handler.stage.CheckRunning?
      modifies this
      ensures Valid() && traceChan.Some?
      ensures session == Run(old(session), FinishEvents(closeOk, removeOk))
      ensures old(IsAcceptingData()) ==> err == Some(ShouldNotAcceptData) && running
      ensures !old(IsAcceptingData()) ==> (err.None? <==> closeOk) && running == !closeOk && disk.open == !closeOk
      ensures !old(IsAcceptingData()) && !closeOk ==> err == Some(FileError)
      ensures !old(IsAcceptingData()) && closeOk ==> disk.removed == (params.clean && removeOk)
      ensures disk.file == old(disk).file && params == old(params) && doneChan == old(doneChan)
      ensures traceChan == old(traceChan)
    {
      hide Sane, Run, FinishEvents, Ready;
      ghost var before := session;
      FinishPair(before, closeOk, removeOk);
      RunKeepsSane(before, FinishEvents(closeOk, removeOk));
      session := Run(before, FinishEvents(closeOk, removeOk));
      if !running {
        return Some(NotRunningYet);
      }
      if IsAcceptingData() {
        return Some(ShouldNotAcceptData);
      }
      if !closeOk {
        return Some(FileError);
      }
      disk := disk.(open := false);
      disk := disk.(removed := params.clean && removeOk);
      running := false;
      return None;
    }

    /** The handler goroutine: HandleTrace, and once it returns, whatever the others still do, finish. */
    method Orchestrate(others: seq<seq<Event>>, late: seq<Event>, closeOk: bool, removeOk: bool)
      returns (out: Outcome, finished: Option<ExportError>)
      requires Valid() && traceChan.Some? && session.handler.Selecting?
      requires ByOthers(late) && forall i :: 0 <= i < |others| ==> ByOthers(others[i])
      modifies this
      ensures Valid() && traceChan.Some?
      ensures out.Waiting? ==> IsAcceptingData() && finished.None?
      ensures out.Returned? ==> (finished == Some(ShouldNotAcceptData) <==> IsAcceptingData())
      ensures out == Returned(None) ==> !IsAcceptingData()
      ensures out.Returned? && !IsAcceptingData() ==> (finished.None? <==> closeOk) && running == !closeOk
    {
      hide Valid, Run, Flatten, FinishEvents, Sane;
      var n;
      ghost var es, done;
      out, n, es, done := HandleTrace(others);
      if out.Waiting? {
        return out, None;
      }
      OtherSteps(late);
      finished := Finish(closeOk, removeOk);
    }
  }

  // ---------------------------------------------------------------- calls as runs

  lemma RunOne(s: Session, e: Event)
    ensures Run(s, [e]) == Step(s, e)
  {
    RunSnoc(s, [], e);
    RunNothing(s);
    assert [] + [e] == [e];
  }

  lemma StartsSound(p: Params)
    requires Bounded(p)
    ensures Sound(Started(p))
  {
    RunIsSound(p, []);
    RunNothing(Started(p));
  }

  lemma EndedIsSound(s: Session)
    requires Sane(s) && !s.running
    ensures Sound(s)
  {
  }

  lemma HandlersHasNoOthers(e: Event)
    requires ByHandler(e)
    ensures OthersOf([e]) == []
  {
    assert [e][..0] == [];
  }

  lemma PairIsHandlers(a: Event, b: Event)
    requires ByHandler(a) && ByHandler(b)
    ensures OthersOf([a, b]) == []
  {
    HandlersHasNoOthers(a);
    assert [a, b][..1] == [a];
  }

  lemma FiresOnlyOpen(s: Session)
    requires Sane(s)
    ensures !s.gate.once ==> !Closed(s)
    ensures Sound(s) ==> (s.gate.once <==> Closed(s))
  {
  }

  lemma CleanReturnIsClosed(s: Session)
    requires Sane(s) && s.handler == Finishing(CheckRunning, true)
    ensures Closed(s)
  {
  }

  lemma HasRoom(s: Session)
    requires Sane(s) && s.producer.Idle? && Accepting(s)
    ensures s.running
    ensures Sound(s) ==> |s.queue| < s.numTraces
  {
    if Sound(s) {
      assert |s.queue| <= |s.accepted|;
    }
  }

  lemma StopPair(s: Session)
    requires s.running
    ensures Run(s, [StopCheck, StopFire])
         == if s.gate.once then s else s.(gate := Gate(true, s.gate.closes + 1, Caller))
  {
    hide Run;
    RunTwo(s, StopCheck, StopFire);
  }

  lemma FireLimit(s: Session)
    requires s.producer.Stopping? && s.running
    ensures Step(Step(s, LimitStopCheck), LimitStopFire) == Fire(s, OwnLimit).(producer := Idle)
  {
  }

  lemma NoLimit(s: Session)
    requires s.producer.Idle?
    ensures Step(Step(s, LimitStopCheck), LimitStopFire) == s
  {
  }

  lemma CountsAndDecides(s: Session, t: Trace, timeUp: bool)
    requires s.producer == Sent(t)
    ensures var s' := s.(traceCount := Int32(s.traceCount + 1), totalSize := Int32(s.totalSize + Int32(|t|)));
            Step(Step(s, Count), Limit(timeUp))
            == s'.(producer := if ReachedTraceCount(s') || ReachedSizeLimit(s') || timeUp then Stopping else Idle)
  {
    hide Int32;
  }

  /** The session after one accepted trace. */
  function Received(s: Session, t: Trace, timeUp: bool): Session {
    var s' := s.(queue := s.queue + [t], accepted := s.accepted + [t],
                 traceCount := Int32(s.traceCount + 1), totalSize := Int32(s.totalSize + Int32(|t|)));
    if ReachedTraceCount(s') || ReachedSizeLimit(s') || timeUp then Fire(s', OwnLimit) else s'
  }

  lemma ReceiveInPairs(s: Session, t: Trace, timeUp: bool)
    ensures Run(s, ReceiveEvents(t, timeUp))
         == Step(Step(Step(Step(Step(Step(s, Check(t)), Send), Count), Limit(timeUp)), LimitStopCheck), LimitStopFire)
  {
    hide Run, Step;
    RunTwo(s, Check(t), Send);
    var s2 := Step(Step(s, Check(t)), Send);
    RunTwo(s2, Count, Limit(timeUp));
    var s4 := Step(Step(s2, Count), Limit(timeUp));
    RunTwo(s4, LimitStopCheck, LimitStopFire);
    RunAppend(s, [Check(t), Send], [Count, Limit(timeUp)]);
    RunAppend(s, [Check(t), Send] + [Count, Limit(timeUp)], [LimitStopCheck, LimitStopFire]);
  }

  lemma ReceivedEvents(s: Session, t: Trace, timeUp: bool)
    requires s.producer.Idle? && Accepting(s) && |s.queue| < s.numTraces && s.running
    ensures Run(s, ReceiveEvents(t, timeUp)) == Received(s, t, timeUp)
  {
    hide Run, Step, Int32;
    ReceiveInPairs(s, t, timeUp);
    CheckThenSend(s, t);
    var s2 := s.(producer := Sent(t), queue := s.queue + [t], accepted := s.accepted + [t]);
    CountsAndDecides(s2, t, timeUp);
    var s3 := s2.(traceCount := Int32(s.traceCount + 1), totalSize := Int32(s.totalSize + Int32(|t|)));
    if ReachedTraceCount(s3) || ReachedSizeLimit(s3) || timeUp {
      FireLimit(s3.(producer := Stopping));
    } else {
      NoLimit(s3.(producer := Idle));
    }
  }

  lemma NothingToCount(s: Session, timeUp: bool)
    requires s.producer.Idle?
    ensures Step(Step(Step(Step(s, Count), Limit(timeUp)), LimitStopCheck), LimitStopFire) == s
  {
    hide Int32;
    assert Step(s, Count) == s && Step(s, Limit(timeUp)) == s;
    NoLimit(s);
  }

  lemma RefusedEvents(s: Session, t: Trace, timeUp: bool)
    requires s.producer.Idle? && !Accepting(s)
    ensures Run(s, ReceiveEvents(t, timeUp)) == s
  {
    hide Run, Int32;
    ReceiveInPairs(s, t, timeUp);
    assert Step(s, Check(t)) == s && Step(s, Send) == s;
    NothingToCount(s, timeUp);
  }

  lemma FullEvents(s: Session, t: Trace, timeUp: bool)
    requires s.producer.Idle? && Accepting(s) && |s.queue| >= s.numTraces
    ensures Run(s, ReceiveEvents(t, timeUp)) == s.(blocked := s.blocked + 1)
  {
    hide Run, Int32;
    ReceiveInPairs(s, t, timeUp);
    assert Step(Step(s, Check(t)), Send) == s.(blocked := s.blocked + 1);
    NothingToCount(s.(blocked := s.blocked + 1), timeUp);
  }

  function TakeEvent(draining: bool): Event {
    if draining then DrainTrace else SelectTrace
  }

  lemma StepTakes(s: Session, draining: bool)
    requires s.queue != [] && s.handler == (if draining then Draining else Selecting)
    ensures Step(s, TakeEvent(draining)) == Take(s, draining)
  {
  }

  /** A successful write adds the line; a failed one what it left, and the handler goes on to finish. */
  lemma StepWrites(s: Session, ok: bool, n: nat)
    requires s.handler.Holding? && (ok ==> s.disk.open)
    ensures var r := s.handler.held;
            Step(s, Write(ok, n))
            == if ok then
                 s.(disk := s.disk.(file := s.disk.file + Line(r)), log := s.log.(written := s.log.written + [r]),
                    handler := if s.handler.draining then Draining else Selecting)
               else
                 s.(disk := s.disk.(file := s.disk.file + Torn(s.disk, r, n)),
                    log := s.log.(partial := Torn(s.disk, r, n), lost := s.log.lost + [r]),
                    handler := Finishing(CheckRunning, false))
  {
  }

  lemma StartsDraining(s: Session)
    requires s.handler.Selecting? && Closed(s)
    ensures Step(s, SelectDone) == s.(handler := Draining)
  {
  }

  lemma EndsDraining(s: Session)
    requires s.handler.Draining? && s.queue == []
    ensures Step(s, DrainEmpty) == s.(handler := Finishing(CheckRunning, true))
  {
  }

  /** The session after finish. */
  function Ended(s: Session, closeOk: bool, removeOk: bool): Session
    requires s.handler.Finishing?
  {
    if Accepting(s) then s.(handler := Finishing(Failed(ShouldNotAccept), s.handler.ok))
    else if !closeOk then s.(handler := Finishing(Failed(CloseFailed), s.handler.ok))
    else s.(disk := Disk(s.disk.file, false, s.clean && removeOk), running := false, finishes := s.finishes + 1,
            handler := Finishing(Finished, s.handler.ok))
  }

  lemma StillRunning(s: Session)
    requires Sane(s) && s.handler.Finishing? && s.handler.stage.CheckRunning?
    ensures s.running && (Closed(s) ==> s.disk.open)
  {
  }

  lemma FinishPair(s: Session, closeOk: bool, removeOk: bool)
    requires Sane(s) && s.handler.Finishing? && s.handler.stage.CheckRunning?
    ensures Run(s, FinishEvents(closeOk, removeOk)) == Ended(s, closeOk, removeOk)
    ensures s.running && (Closed(s) ==> s.disk.open)
  {
    hide Run, Step, Sane;
    StillRunning(s);
    RunTwo(s, FinishRunning, FinishAccepting);
    AsksTwice(s);
    var s2 := s.(handler := Finishing(if Accepting(s) then Failed(ShouldNotAccept) else CloseFile, s.handler.ok));
    RunTwo(s2, FinishClose(closeOk), FinishRemove(removeOk));
    ClosesAndReleases(s2, closeOk, removeOk);
    var s4 := Step(Step(s2, FinishClose(closeOk)), FinishRemove(removeOk));
    RunOne(s4, FinishRelease);
    RunAppend(s, [FinishRunning, FinishAccepting], [FinishClose(closeOk), FinishRemove(removeOk)]);
    RunAppend(s, [FinishRunning, FinishAccepting] + [FinishClose(closeOk), FinishRemove(removeOk)], [FinishRelease]);
  }

  lemma AsksTwice(s: Session)
    requires s.handler.Finishing? && s.handler.stage.CheckRunning? && s.running
    ensures Step(Step(s, FinishRunning), FinishAccepting)
         == s.(handler := Finishing(if Accepting(s) then Failed(ShouldNotAccept) else CloseFile, s.handler.ok))
  {
  }

  lemma ClosesAndReleases(s: Session, closeOk: bool, removeOk: bool)
    requires s.handler.Finishing? && s.running && (s.handler.stage.CloseFile? ==> s.disk.open)
    ensures var s' := Step(Step(Step(s, FinishClose(closeOk)), FinishRemove(removeOk)), FinishRelease);
            && (s.handler.stage.Failed? ==> s' == s)
            && (s.handler.stage.CloseFile? && !closeOk ==>
                  s' == s.(handler := Finishing(Failed(CloseFailed), s.handler.ok)))
            && (s.handler.stage.CloseFile? && closeOk ==>
                  s' == s.(disk := Disk(s.disk.file, false, s.clean && removeOk), running := false,
                           finishes := s.finishes + 1, handler := Finishing(Finished, s.handler.ok)))
  {
  }
}
