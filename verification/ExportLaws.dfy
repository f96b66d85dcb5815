/**
  What every interleaving of an export session keeps: conservation of accepted traces, the capacity and size bounds,
  the order of close, finish and file writes, and when the handler ends the session.
*/
module ExportLaws {
  import opened ExportParams
  import opened ExportSession

  // ---------------------------------------------------------------- conservation

  /**
    Under every interleaving the accepted traces are, in order, the written ones, the one a failed write lost if any,
    the one in the handler's hand if any, and the queue.
  */
  lemma AcceptedIsConserved(p: Params, es: seq<Event>)
    requires Bounded(p)
    ensures var s := Run(Started(p), es);
            s.accepted == s.log.written + s.log.lost + Held(s.handler) + s.queue && |s.log.lost| <= 1
  {
    RunIsSound(p, es);
  }

  /**
    Once HandleTrace has returned without error, whatever happens later, at most one accepted trace is not written,
    it is still in the channel, and there is none if the producer's own limit closed the session.
  */
  lemma AtMostOneUnwritten(p: Params, es: seq<Event>)
    requires Bounded(p)
    ensures var s := Run(Started(p), es);
            s.handler.Finishing? && s.handler.ok ==>
              && s.accepted == s.log.written + s.queue
              && |s.queue| <= 1
              && (s.gate.closer.OwnLimit? ==> s.accepted == s.log.written)
  {
    RunIsSound(p, es);
    var s := Run(Started(p), es);
    if s.handler.Finishing? && s.handler.ok {
      assert s.log.lost == [] && Held(s.handler) == [];
      assert s.log.written + [] + [] + s.queue == s.log.written + s.queue;
    }
  }

  lemma RunTwo(s: Session, a: Event, b: Event)
    ensures Run(s, [a, b]) == Step(Step(s, a), b)
  {
    hide Step;
    RunSnoc(s, [], a);
    RunSnoc(s, [a], b);
    assert [] + [a] == [a] && [a] + [b] == [a, b];
  }

  /** Between check and send the producer may still send, whatever else happens; otherwise nothing is sent any more. */
  lemma {:induction false} OnlyTheCheckedTrace(s: Session, es: seq<Event>, late: seq<Trace>)
    requires Closed(s) && s.handler.Finishing?
    requires late == if s.producer.Checked? then [s.producer.trace] else []
    ensures var s' := Run(s, es);
            && Closed(s') && s'.handler.Finishing?
            && (s'.producer.Checked? ==> s'.producer == s.producer && s'.queue == s.queue)
            && (s'.queue == s.queue || s'.queue == s.queue + late)
    decreases |es|
  {
    if es != [] {
      hide Step;
      var before, e := Run(s, es[..|es| - 1]), es[|es| - 1];
      OnlyTheCheckedTrace(s, es[..|es| - 1], late);
      LateStep(before, e);
    }
  }

  lemma LateStep(s: Session, e: Event)
    requires Closed(s) && s.handler.Finishing?
    ensures var s' := Step(s, e);
            && Closed(s') && s'.handler.Finishing?
            && (s'.producer.Checked? ==> s'.producer == s.producer && s'.queue == s.queue)
            && (s'.queue == s.queue || (s.producer.Checked? && s'.queue == s.queue + [s.producer.trace]))
  {
    if OfFinish(e) {
      FinishFrame(s, e);
      ReturnedHandlerStep(s, e);
    } else if ByHandler(e) {
      assert HandleStep(s, e) == s;
    } else if e.Send? {
      SendAlone(s);
    } else {
      OthersFrame(s, e);
      NobodyChecks(s, e);
      if s.producer.Checked? {
        StillChecked(s, e);
      }
    }
  }

  lemma SendAlone(s: Session)
    ensures var s' := SendStep(s, Send);
            && s'.gate == s.gate && s'.handler == s.handler && !s'.producer.Checked?
            && (s'.queue == s.queue || (s.producer.Checked? && s'.queue == s.queue + [s.producer.trace]))
  {
  }

  lemma StillChecked(s: Session, e: Event)
    requires !ByHandler(e) && !e.Send? && s.producer.Checked?
    ensures Step(s, e).producer == s.producer
  {
    hide Int32;
  }

  /**
    When the handler is about to return, having found the channel empty, a trace can still be accepted and stay
    unwritten if and only if the producer stands between its check and its send; and then it is that trace.
  */
  lemma LateTraceIff(s: Session)
    requires Sound(s) && s.handler.Draining? && s.queue == []
    ensures (exists es :: Run(Step(s, DrainEmpty), es).queue != []) <==> s.producer.Checked?
    ensures forall es :: Run(Step(s, DrainEmpty), es).queue == []
                      || (s.producer.Checked? && Run(Step(s, DrainEmpty), es).queue == [s.producer.trace])
  {
    hide Run;
    var s' := Step(s, DrainEmpty);
    assert s' == s.(handler := Finishing(CheckRunning, true));
    var late := if s.producer.Checked? then [s.producer.trace] else [];
    assert [] + late == late;
    forall es ensures Run(s', es).queue == [] || (s.producer.Checked? && Run(s', es).queue == [s.producer.trace]) {
      OnlyTheCheckedTrace(s', es, late);
    }
    if s.producer.Checked? {
      RunNothing(s');
      RunSnoc(s', [], Send);
      assert [] + [Send] == [Send];
      assert Run(s', [Send]).queue != [];
    }
  }

  /** Such a schedule exists for every session, so one is the exact bound. */
  lemma OneTraceCanBeLost(p: Params, t: Trace)
    requires Bounded(p)
    ensures var s := Run(Started(p), [Check(t), StopCheck] + [StopFire, SelectDone] + [DrainEmpty, Send]);
            && s.handler == Finishing(CheckRunning, true)
            && s.accepted == [t] && s.log.written == [] && s.queue == [t]
  {
    hide Run;
    var s0 := Started(p);
    RunTwo(s0, Check(t), StopCheck);
    CheckThenStop(s0, t);
    var s2 := s0.(producer := Checked(t), stops := 1);
    RunTwo(s2, StopFire, SelectDone);
    StopThenSelect(s2);
    var s4 := s2.(gate := Gate(true, 1, Caller), stops := 0, handler := Draining);
    RunTwo(s4, DrainEmpty, Send);
    EmptyThenSend(s4, t);
    RunAppend(s0, [Check(t), StopCheck], [StopFire, SelectDone]);
    RunAppend(s0, [Check(t), StopCheck] + [StopFire, SelectDone], [DrainEmpty, Send]);
  }

  lemma CheckThenStop(s: Session, t: Trace)
    requires s.producer.Idle? && Accepting(s) && s.running
    ensures Step(Step(s, Check(t)), StopCheck) == s.(producer := Checked(t), stops := s.stops + 1)
  {
  }

  lemma StopThenSelect(s: Session)
    requires s.stops > 0 && !s.gate.once && s.handler.Selecting?
    ensures Step(Step(s, StopFire), SelectDone)
         == s.(gate := Gate(true, s.gate.closes + 1, Caller), stops := s.stops - 1, handler := Draining)
  {
  }

  lemma EmptyThenSend(s: Session, t: Trace)
    requires s.handler.Draining? && s.queue == [] && s.producer == Checked(t) && s.numTraces > 0
    ensures Step(Step(s, DrainEmpty), Send)
         == s.(handler := Finishing(CheckRunning, true), producer := Sent(t), queue := [t],
               accepted := s.accepted + [t])
  {
  }

  // ---------------------------------------------------------------- capacity and sizes

  /** The channel is never full when the producer sends, and no more traces are accepted than asked for. */
  lemma ChannelNeverFull(p: Params, es: seq<Event>)
    requires Bounded(p)
    ensures var s := Run(Started(p), es);
            && s.blocked == 0
            && |s.accepted| <= p.numTraces
            && (s.producer.Checked? ==> |s.queue| < s.numTraces)
  {
    RunIsSound(p, es);
    ParamsStay(Started(p), es);
    var s := Run(Started(p), es);
    assert |s.queue| <= |s.accepted|;
  }

  lemma {:induction false} ParamsStay(s: Session, es: seq<Event>)
    ensures Run(s, es).numTraces == s.numTraces && Run(s, es).sizeLim == s.sizeLim
    decreases |es|
  {
    if es != [] {
      hide Step;
      var before, e := Run(s, es[..|es| - 1]), es[|es| - 1];
      ParamsStay(s, es[..|es| - 1]);
      if ByHandler(e) { HandlerFrame(before, e); } else { OthersFrame(before, e); }
    }
  }

  function TotalLength(ts: seq<Trace>): nat
    decreases |ts|
  {
    if ts == [] then 0 else TotalLength(ts[..|ts| - 1]) + |ts[|ts| - 1]|
  }

  lemma TotalLengthSnoc(ts: seq<Trace>, t: Trace)
    ensures TotalLength(ts + [t]) == TotalLength(ts) + |t|
  {
    assert (ts + [t])[..|ts + [t]| - 1] == ts;
  }

  /**
    The longest trace a session may be sent with its counter still exact: what the size limit leaves of 31 bits, or all
    of them when the first trace is the last.
  */
  function ExactUpTo(numTraces: int32, sizeLim: int32): int {
    if numTraces == 1 then 0x7fff_ffff else 0x8000_0000 - sizeLim
  }

  ghost predicate NoLonger(es: seq<Event>, n: nat) {
    forall i :: 0 <= i < |es| && es[i].Check? ==> |es[i].trace| <= n
  }

  /** The traces whose length the producer has added. */
  function Added(s: Session): seq<Trace> {
    if s.producer.Sent? && s.accepted != [] then s.accepted[..|s.accepted| - 1] else s.accepted
  }

  predicate SizeExact(s: Session) {
    s.totalSize == TotalLength(Added(s))
  }

  /** Without its last trace the accepted data is below the limit, and while data is accepted all of it is. */
  ghost predicate SizesHold(s: Session, n: nat) {
    && s.sizeLim >= 1 && n <= ExactUpTo(s.numTraces, s.sizeLim)
    && |s.accepted| <= s.numTraces
    && (forall i :: 0 <= i < |s.accepted| ==> |s.accepted[i]| <= n)
    && (s.producer.Checked? ==> |s.producer.trace| <= n)
    && (s.producer.Sent? ==> s.accepted != [] && s.producer.trace == s.accepted[|s.accepted| - 1])
    && SizeExact(s)
    && (s.accepted != [] ==> TotalLength(s.accepted[..|s.accepted| - 1]) < s.sizeLim)
    && (s.producer.Checked? || (s.producer.Idle? && !s.gate.once) ==> TotalLength(s.accepted) < s.sizeLim)
  }

  lemma LastAdded(s: Session, n: nat)
    requires SizesHold(s, n) && s.accepted != []
    ensures TotalLength(s.accepted) == TotalLength(s.accepted[..|s.accepted| - 1]) + |s.accepted[|s.accepted| - 1]|
    ensures TotalLength(s.accepted) <= s.sizeLim - 1 + |s.accepted[|s.accepted| - 1]|
    ensures TotalLength(s.accepted) < 0x8000_0000
  {
    if s.numTraces == 1 {
      assert s.accepted[..|s.accepted| - 1] == [];
    }
  }

  lemma SizesStep(s: Session, e: Event, n: nat)
    requires Sound(s) && SizesHold(s, n) && (e.Check? ==> |e.trace| <= n)
    ensures SizesHold(Step(s, e), n)
  {
    hide SizesHold, Sound, SendStep, LimitStep, StopperStep, HandlerStep;
    if ByHandler(e) {
      HandlerFrame(s, e);
      SizesUntouched(s, Step(s, e), n);
    } else if e.Send? {
      RoomToSend(s);
      SizesSend(s, n);
    } else if e.Count? {
      SizesCount(s, n);
    } else {
      SizesOther(s, e, n);
    }
  }

  lemma SizesUntouched(s: Session, s': Session, n: nat)
    requires SizesHold(s, n) && ProducerUntouched(s, s')
    ensures SizesHold(s', n)
  {
    hide TotalLength;
  }

  lemma RoomToSend(s: Session)
    requires Sound(s)
    ensures s.producer.Checked? ==> |s.queue| <= |s.accepted| < s.numTraces
  {
    assert |s.queue| <= |s.accepted|;
  }

  lemma SizesSend(s: Session, n: nat)
    requires SizesHold(s, n) && (s.producer.Checked? ==> |s.queue| <= |s.accepted| < s.numTraces)
    ensures SizesHold(ProducerStep(s, Send), n)
  {
    hide TotalLength, ProducerStep, ExactUpTo;
    SendOutcome(s);
    if s.producer.Checked? {
      TotalLengthSnoc(s.accepted, s.producer.trace);
      ShortSnoc(s.accepted, s.producer.trace, n);
    }
  }

  lemma SendOutcome(s: Session)
    requires s.producer.Checked? ==> |s.queue| < s.numTraces
    ensures ProducerStep(s, Send)
         == if s.producer.Checked?
            then s.(producer := Sent(s.producer.trace), queue := s.queue + [s.producer.trace],
                    accepted := s.accepted + [s.producer.trace])
            else s
  {
    hide Int32;
  }

  lemma ShortSnoc(ts: seq<Trace>, t: Trace, n: nat)
    requires |t| <= n && forall i :: 0 <= i < |ts| ==> |ts[i]| <= n
    ensures forall i :: 0 <= i < |ts + [t]| ==> |(ts + [t])[i]| <= n
    ensures (ts + [t])[..|ts|] == ts && (ts + [t])[|ts|] == t && |ts + [t]| == |ts| + 1
  {
  }

  lemma SizesCount(s: Session, n: nat)
    requires SizesHold(s, n)
    ensures SizesHold(ProducerStep(s, Count), n)
  {
    hide TotalLength;
    if s.producer.Sent? {
      LastAdded(s, n);
      Int32Exact(|s.accepted[|s.accepted| - 1]|);
      Int32Exact(s.totalSize + |s.accepted[|s.accepted| - 1]|);
    }
  }

  lemma SizesOther(s: Session, e: Event, n: nat)
    requires Sound(s) && SizesHold(s, n) && (e.Check? ==> |e.trace| <= n) && !ByHandler(e) && !e.Send? && !e.Count?
    ensures SizesHold(Step(s, e), n)
  {
    hide TotalLength, Conserves, OneLate, Counts;
  }

  lemma {:induction false} RunKeepsSizes(s: Session, es: seq<Event>, n: nat)
    requires Sound(s) && SizesHold(s, n) && NoLonger(es, n)
    ensures SizesHold(Run(s, es), n)
    decreases |es|
  {
    if es != [] {
      hide Sound, SizesHold, Step;
      var front := es[..|es| - 1];
      assert forall i :: 0 <= i < |front| ==> front[i] == es[i];
      RunKeepsSizes(s, front, n);
      RunKeepsSound(s, front);
      SizesStep(Run(s, front), es[|es| - 1], n);
    }
  }

  /**
    For traces no longer than the session's own bound the 32-bit size counter is the exact number of bytes counted, and
    it stays below the limit plus the last trace.
  */
  lemma SizeBound(p: Params, es: seq<Event>)
    requires Bounded(p) && NoLonger(es, ExactUpTo(p.numTraces, p.sizeLim))
    ensures var s := Run(Started(p), es);
            && SizeExact(s)
            && (s.accepted != [] ==>
                  TotalLength(s.accepted) <= p.sizeLim - 1 + |s.accepted[|s.accepted| - 1]|
                  && TotalLength(s.accepted) < 0x8000_0000)
  {
    var n := ExactUpTo(p.numTraces, p.sizeLim);
    RunIsSound(p, []);
    RunNothing(Started(p));
    RunKeepsSizes(Started(p), es, n);
    ParamsStay(Started(p), es);
    var s := Run(Started(p), es);
    if s.accepted != [] {
      LastAdded(s, n);
    }
  }

  /** One uninterrupted NonblockingReceive before its time is up. */
  function Receive(t: Trace): seq<Event> {
    [Check(t), Send] + [Count, Limit(false)]
  }

  lemma ReceiveEffect(s: Session, t: Trace)
    requires s.producer.Idle? && Accepting(s) && |s.queue| < s.numTraces
    ensures var s' := Run(s, Receive(t));
            && s'.accepted == s.accepted + [t] && s'.queue == s.queue + [t]
            && s'.traceCount == Int32(s.traceCount + 1) && s'.totalSize == Int32(s.totalSize + Int32(|t|))
            && s'.numTraces == s.numTraces && s'.sizeLim == s.sizeLim && Accepting(s')
            && s'.producer == if ReachedTraceCount(s') || ReachedSizeLimit(s') then Stopping else Idle
  {
    hide Run, Int32;
    RunTwo(s, Check(t), Send);
    CheckThenSend(s, t);
    var s2 := s.(producer := Sent(t), queue := s.queue + [t], accepted := s.accepted + [t]);
    RunTwo(s2, Count, Limit(false));
    CountThenLimit(s2, t);
    RunAppend(s, [Check(t), Send], [Count, Limit(false)]);
  }

  lemma CheckThenSend(s: Session, t: Trace)
    requires s.producer.Idle? && Accepting(s) && |s.queue| < s.numTraces
    ensures Step(Step(s, Check(t)), Send)
         == s.(producer := Sent(t), queue := s.queue + [t], accepted := s.accepted + [t])
  {
  }

  lemma CountThenLimit(s: Session, t: Trace)
    requires s.producer == Sent(t)
    ensures var s' := s.(traceCount := Int32(s.traceCount + 1), totalSize := Int32(s.totalSize + Int32(|t|)));
            Step(Step(s, Count), Limit(false))
            == s'.(producer := if ReachedTraceCount(s') || ReachedSizeLimit(s') then Stopping else Idle)
  {
    hide Int32;
  }

  /**
    One byte more and the counter can wrap to its most negative value, where the size limit no longer stops anything.
  */
  lemma LongerTraceOverflows(p: Params, a: Trace, b: Trace)
    requires Bounded(p) && p.numTraces >= 2
    requires |a| == p.sizeLim - 1 && |b| == 0x8000_0000 - p.sizeLim + 1
    ensures var s := Run(Started(p), Receive(a) + Receive(b));
            && s.totalSize == -0x8000_0000
            && TotalLength(s.accepted) == 0x8000_0000 > p.sizeLim
            && (p.numTraces >= 3 ==> s.producer.Idle? && Accepting(s))
  {
    hide Receive, Int32, Run, Step, TotalLength;
    var s0 := Started(p);
    RunAppend(s0, Receive(a), Receive(b));
    Int32Exact(1);
    Int32Exact(2);
    Int32Exact(|a|);
    ReceiveEffect(s0, a);
    WrapsAtTop(|a|, |b|);
    ReceiveEffect(Run(s0, Receive(a)), b);
    TotalOfTwo(a, b);
    assert [] + [a] == [a] && [a] + [b] == [a, b];
  }

  lemma OnlyTraceOverflows(p: Params, a: Trace)
    requires Bounded(p) && |a| == 0x8000_0000
    ensures Run(Started(p), Receive(a)).totalSize == -0x8000_0000
  {
    hide Run, Receive, Int32;
    WrapsAtTop(0, |a|);
    ReceiveEffect(Started(p), a);
  }

  function Zeros(n: nat): (t: Trace)
    ensures |t| == n
  {
    seq(n, i => 0)
  }

  /** Whatever the traces of a given length, the counter stays exact. */
  ghost predicate AlwaysExact(p: Params, n: nat) {
    forall es :: NoLonger(es, n) ==> SizeExact(Run(Started(p), es))
  }

  /**
    The exact bound, session by session: traces of up to n bytes never falsify the counter if and only if n is within
    it.
  */
  lemma SizeExactIff(p: Params, n: nat)
    requires Bounded(p)
    ensures AlwaysExact(p, n) <==> n <= ExactUpTo(p.numTraces, p.sizeLim)
  {
    hide Run, SizeExact, Receive;
    if n <= ExactUpTo(p.numTraces, p.sizeLim) {
      forall es | NoLonger(es, n) ensures SizeExact(Run(Started(p), es)) {
        SizeBound(p, es);
      }
    } else if p.numTraces == 1 {
      OnlyTraceOverflows(p, Zeros(0x8000_0000));
      ReceivesNoLonger(Zeros(0x8000_0000), n);
      NegativeIsInexact(Run(Started(p), Receive(Zeros(0x8000_0000))));
    } else {
      var a, b := Zeros(p.sizeLim - 1), Zeros(0x8000_0000 - p.sizeLim + 1);
      LongerTraceOverflows(p, a, b);
      ReceivesNoLonger(a, n);
      ReceivesNoLonger(b, n);
      NegativeIsInexact(Run(Started(p), Receive(a) + Receive(b)));
    }
  }

  lemma ReceivesNoLonger(t: Trace, n: nat)
    requires |t| <= n
    ensures NoLonger(Receive(t), n)
  {
  }

  lemma NegativeIsInexact(s: Session)
    requires s.totalSize < 0
    ensures !SizeExact(s)
  {
  }

  lemma TotalOfTwo(a: Trace, b: Trace)
    ensures TotalLength([a, b]) == |a| + |b|
  {
    TotalLengthSnoc([], a);
    TotalLengthSnoc([a], b);
    assert [] + [a] == [a] && [a] + [b] == [a, b];
  }

  lemma WrapsAtTop(a: nat, b: nat)
    requires a + b == 0x8000_0000
    ensures Int32(a + Int32(b)) == -0x8000_0000
  {
  }

  // ---------------------------------------------------------------- lifecycle

  predicate Over(h: Handler) {
    h.Finishing? && (h.stage.Finished? || h.stage.Failed?)
  }

  predicate NoFailure(e: Event) {
    (e.Write? ==> e.ok) && (e.FinishClose? ==> e.ok)
  }

  /**
    In every reachable state: accepting data implies running; however many stops were called, the done channel was
    closed at most once; finish completed at most once, and exactly when the exporter stopped running.
  */
  lemma LifecycleHolds(p: Params, es: seq<Event>)
    requires Bounded(p)
    ensures var s := Run(Started(p), es);
            && (Accepting(s) ==> s.running)
            && s.gate.closes <= 1
            && s.finishes == (if s.running then 0 else 1)
            && (!s.running ==> Closed(s) && !s.disk.open)
            && (s.handler.Holding? ==> s.disk.open)
  {
    RunIsSound(p, es);
  }

  ghost predicate Unharmed(s: Session) {
    s.log.lost == [] && s.log.partial == [] && (s.handler.Finishing? ==> s.handler.ok && !s.handler.stage.Failed?)
  }

  lemma UnharmedStep(s: Session, e: Event)
    requires Orderly(s) && Unharmed(s) && NoFailure(e)
    ensures Unharmed(Step(s, e))
  {
  }

  /** In runs without file errors nothing is ever lost to a write, and finish is never refused. */
  lemma {:induction false} CleanRunsStayUnharmed(s: Session, es: seq<Event>)
    requires Sound(s) && Unharmed(s) && forall i :: 0 <= i < |es| ==> NoFailure(es[i])
    ensures Unharmed(Run(s, es))
    decreases |es|
  {
    if es != [] {
      CleanRunsStayUnharmed(s, es[..|es| - 1]);
      RunKeepsSound(s, es[..|es| - 1]);
      UnharmedStep(Run(s, es[..|es| - 1]), es[|es| - 1]);
    }
  }

  /**
    The outcome of a session without file errors once its handler is over: finish completed exactly once, nothing was
    lost to a write, and every accepted trace is written but for at most one still in the channel.
  */
  lemma CleanSessionOutcome(p: Params, es: seq<Event>)
    requires Bounded(p) && forall i :: 0 <= i < |es| ==> NoFailure(es[i])
    ensures var s := Run(Started(p), es);
            Over(s.handler) ==>
              && s.finishes == 1 && !s.running && !s.disk.open && s.log.lost == []
              && s.accepted == s.log.written + s.queue && |s.queue| <= (if s.gate.closer.OwnLimit? then 0 else 1)
  {
    RunIsSound(p, []);
    RunIsSound(p, es);
    CleanRunsStayUnharmed(Started(p), es);
    AtMostOneUnwritten(p, es);
  }

  /**
    Once HandleTrace has returned, no step of anyone writes to the file again, and a finished session stays finished.
  */
  lemma {:induction false} NothingWrittenAfterReturn(s: Session, es: seq<Event>)
    requires s.handler.Finishing?
    ensures var s' := Run(s, es);
            && s'.disk.file == s.disk.file && s'.log.written == s.log.written && s'.log.lost == s.log.lost
            && s'.handler.Finishing? && s'.handler.ok == s.handler.ok
            && (s.handler.stage.Finished? || s.handler.stage.Failed? ==>
                  s'.handler == s.handler && s'.running == s.running && s'.finishes == s.finishes)
    decreases |es|
  {
    if es != [] {
      hide Step;
      NothingWrittenAfterReturn(s, es[..|es| - 1]);
      ReturnedStep(Run(s, es[..|es| - 1]), es[|es| - 1]);
    }
  }

  lemma ReturnedStep(s: Session, e: Event)
    requires s.handler.Finishing?
    ensures var s' := Step(s, e);
            && s'.disk.file == s.disk.file && s'.log.written == s.log.written && s'.log.lost == s.log.lost
            && s'.handler.Finishing? && s'.handler.ok == s.handler.ok
            && (s.handler.stage.Finished? || s.handler.stage.Failed? ==>
                  s'.handler == s.handler && s'.running == s.running && s'.finishes == s.finishes)
  {
    if ByHandler(e) {
      ReturnedHandlerStep(s, e);
    } else {
      OthersFrame(s, e);
    }
  }

  lemma ReturnedHandlerStep(s: Session, e: Event)
    requires s.handler.Finishing?
    ensures var s' := HandlerStep(s, e);
            && s'.disk.file == s.disk.file && s'.log.written == s.log.written && s'.log.lost == s.log.lost
            && s'.handler.Finishing? && s'.handler.ok == s.handler.ok
            && (s.handler.stage.Finished? || s.handler.stage.Failed? ==>
                  s'.handler == s.handler && s'.running == s.running && s'.finishes == s.finishes)
  {
    if OfFinish(e) {
      hide HandleStep;
    } else {
      hide FinishStep, HandleStep;
      NothingInHand(s, e);
    }
  }

  lemma NothingInHand(s: Session, e: Event)
    requires s.handler.Finishing?
    ensures HandleStep(s, e) == s
  {
  }

  // ---------------------------------------------------------------- removing the file

  ghost predicate NeverAsked(p: Params, es: seq<Event>) {
    !p.clean && forall i :: 0 <= i < |es| ==> es[i] != SetClean(true)
  }

  lemma {:induction false} UnaskedFileStays(p: Params, es: seq<Event>)
    requires NeverAsked(p, es)
    ensures !Run(Started(p), es).clean && !Run(Started(p), es).disk.removed
    decreases |es|
  {
    if es != [] {
      hide Int32;
      var front, e := es[..|es| - 1], es[|es| - 1];
      assert forall i :: 0 <= i < |front| ==> front[i] == es[i];
      UnaskedFileStays(p, front);
      CleanStep(Run(Started(p), front), e);
    }
  }

  lemma CleanStep(s: Session, e: Event)
    ensures Step(s, e).clean == if e.SetClean? && s.running then e.clean else s.clean
    ensures Step(s, e).disk.removed ==> s.disk.removed || (e == FinishRemove(true) && s.clean)
  {
    hide Int32, ReachedTraceCount, ReachedSizeLimit;
  }

  /** A session that has ended stays ended: no stop call begins, and removal is no longer asked for. */
  lemma {:induction false} EndedTakesNoStop(s: Session, es: seq<Event>)
    requires !s.running
    ensures var s' := Run(s, es);
            !s'.running && s'.stops <= s.stops && s'.clean == s.clean
    decreases |es|
  {
    if es != [] {
      hide Step;
      EndedTakesNoStop(s, es[..|es| - 1]);
      EndedStep(Run(s, es[..|es| - 1]), es[|es| - 1]);
    }
  }

  lemma EndedStep(s: Session, e: Event)
    requires !s.running
    ensures var s' := Step(s, e);
            !s'.running && s'.stops <= s.stops && s'.clean == s.clean
  {
    hide Int32, ReachedTraceCount, ReachedSizeLimit;
  }

  /** The file is removed, for good, exactly when removal was last asked for before finish gets to it and succeeds. */
  lemma RemovedIff(s: Session, ok: bool, es: seq<Event>)
    requires s.handler.Finishing? && s.handler.stage.Remove?
    ensures Run(Step(s, FinishRemove(ok)), es).disk.removed <==> s.clean && ok
  {
    RemovalStays(Step(s, FinishRemove(ok)), es);
  }

  lemma {:induction false} RemovalStays(s: Session, es: seq<Event>)
    requires s.handler.Finishing? && (s.handler.stage.Release? || Over(s.handler))
    ensures var s' := Run(s, es);
            && s'.disk.removed == s.disk.removed
            && s'.handler.Finishing? && (s'.handler.stage.Release? || Over(s'.handler))
    decreases |es|
  {
    if es != [] {
      hide Step;
      RemovalStays(s, es[..|es| - 1]);
      RemovalStayStep(Run(s, es[..|es| - 1]), es[|es| - 1]);
    }
  }

  lemma RemovalStayStep(s: Session, e: Event)
    requires s.handler.Finishing? && (s.handler.stage.Release? || Over(s.handler))
    ensures var s' := Step(s, e);
            && s'.disk.removed == s.disk.removed
            && s'.handler.Finishing? && (s'.handler.stage.Release? || Over(s'.handler))
  {
    if !ByHandler(e) {
      OthersFrame(s, e);
    } else if !OfFinish(e) {
      assert HandleStep(s, e) == s;
    }
  }

  // ---------------------------------------------------------------- the handler ends the session

  /** A bound on the handler's remaining moves once the done channel is closed. */
  function Rank(s: Session): nat {
    var due := 2 * (|s.queue| + InFlight(s.producer));
    match s.handler
    case Selecting => 7 + due
    case Draining => 6 + due
    case Holding(_, draining) => if draining then 7 + due else 8 + due
    case Finishing(stage, _) =>
      match stage
      case CheckRunning => 5
      case CheckAccepting => 4
      case CloseFile => 3
      case Remove => 2
      case Release => 1
      case _ => 0
  }

  lemma RankStep(s: Session, e: Event)
    requires Closed(s)
    ensures Closed(Step(s, e)) && Rank(Step(s, e)) <= Rank(s)
    ensures ByHandler(e) && Step(s, e).handler != s.handler ==> Rank(Step(s, e)) < Rank(s)
  {
    if ByHandler(e) {
      RankHandlerStep(s, e);
      HandlerFrame(s, e);
    } else {
      OthersFrame(s, e);
      DueStays(s, e);
    }
  }

  lemma RankHandlerStep(s: Session, e: Event)
    ensures Rank(HandlerStep(s, e)) <= Rank(s)
    ensures HandlerStep(s, e).handler != s.handler ==> Rank(HandlerStep(s, e)) < Rank(s)
  {
  }

  lemma DueStays(s: Session, e: Event)
    requires Closed(s) && !ByHandler(e)
    ensures |Step(s, e).queue| + InFlight(Step(s, e).producer) <= |s.queue| + InFlight(s.producer)
  {
    if e.Send? {
      SendMoves(s);
    } else {
      OthersFrame(s, e);
      NobodyChecks(s, e);
    }
  }

  lemma SendMoves(s: Session)
    ensures |SendStep(s, Send).queue| + InFlight(SendStep(s, Send).producer) <= |s.queue| + InFlight(s.producer)
  {
  }

  lemma NobodyChecks(s: Session, e: Event)
    requires Closed(s) && !ByHandler(e) && !e.Send?
    ensures InFlight(Step(s, e).producer) <= InFlight(s.producer)
  {
    hide Int32;
  }

  /** How many events of the run moved the handler. */
  function Moves(s: Session, es: seq<Event>): nat
    decreases |es|
  {
    if es == [] then 0
    else
      var before := Run(s, es[..|es| - 1]);
      Moves(s, es[..|es| - 1]) + if Step(before, es[|es| - 1]).handler != before.handler then 1 else 0
  }

  /** The handler's next event, with no file error. */
  function Next(s: Session): Event {
    match s.handler
    case Selecting => SelectDone
    case Draining => if s.queue == [] then DrainEmpty else DrainTrace
    case Holding(_, _) => Write(true, 0)
    case Finishing(stage, _) =>
      match stage
      case CheckRunning => FinishRunning
      case CheckAccepting => FinishAccepting
      case CloseFile => FinishClose(true)
      case Remove => FinishRemove(true)
      case _ => FinishRelease
  }

  /**
    From the close of the done channel on, the handler is never blocked until it is over, and in every interleaving
    with the producer and the stoppers it makes at most 2 * (queued + in flight) + 8 more moves.
  */
  lemma {:induction false} HandlerMovesBounded(s: Session, es: seq<Event>)
    requires Closed(s)
    ensures Closed(Run(s, es))
    ensures Moves(s, es) + Rank(Run(s, es)) <= Rank(s) <= 2 * (|s.queue| + InFlight(s.producer)) + 8
    ensures !Over(Run(s, es).handler) ==> Step(Run(s, es), Next(Run(s, es))).handler != Run(s, es).handler
    decreases |es|
  {
    if es != [] {
      hide Step, Rank;
      var before, e := Run(s, es[..|es| - 1]), es[|es| - 1];
      HandlerMovesBounded(s, es[..|es| - 1]);
      RankStep(before, e);
      if !ByHandler(e) {
        OthersFrame(before, e);
      }
    }
    RankBound(s);
    if !Over(Run(s, es).handler) {
      NextMoves(Run(s, es));
    }
  }

  lemma RankBound(s: Session)
    ensures Rank(s) <= 2 * (|s.queue| + InFlight(s.producer)) + 8
  {
  }

  lemma NextMoves(s: Session)
    requires Closed(s) && !Over(s.handler)
    ensures ByHandler(Next(s)) && NoFailure(Next(s)) && Step(s, Next(s)).handler != s.handler
  {
  }

  /**
    From the close on, and with no file error, the handler alone brings the session to its end: it is no longer
    running, the file is closed, and if HandleTrace had not yet returned every accepted trace is written, in order.
  */
  lemma {:induction false} HandlerAloneFinishes(s: Session) returns (es: seq<Event>)
    requires Sound(s) && Closed(s) && !(s.handler.Finishing? && s.handler.stage.Failed?)
    ensures forall i :: 0 <= i < |es| ==> ByHandler(es[i]) && NoFailure(es[i])
    ensures var s' := Run(s, es);
            && s'.handler.Finishing? && s'.handler.stage.Finished? && !s'.running && !s'.disk.open
            && s'.accepted == s.accepted
            && (!s.handler.Finishing? ==> s'.log.written == s.accepted && s'.queue == [])
    decreases Rank(s)
  {
    if s.handler.Finishing? && s.handler.stage.Finished? {
      es := [];
    } else {
      hide Run;
      var e := Next(s);
      NextMoves(s);
      RankStep(s, e);
      RunKeepsSound(s, [e]);
      RunSnoc(s, [], e);
      RunNothing(s);
      assert [] + [e] == [e];
      NextKeeps(s);
      var rest := HandlerAloneFinishes(Step(s, e));
      es := [e] + rest;
      RunAppend(s, [e], rest);
      if !s.handler.Finishing? && Step(s, e).handler.Finishing? {
        NothingWrittenAfterReturn(Step(s, e), rest);
        QueueStays(Step(s, e), rest);
      }
    }
  }

  lemma RunNothing(s: Session)
    ensures Run(s, []) == s
  {
  }

  lemma NextKeeps(s: Session)
    requires Sound(s) && Closed(s) && !Over(s.handler)
    ensures var s' := Step(s, Next(s));
            && s'.accepted == s.accepted
            && !(s'.handler.Finishing? && s'.handler.stage.Failed?)
            && (!s.handler.Finishing? && s'.handler.Finishing? ==> s'.queue == [] && s'.log.written == s.accepted)
  {
    if s.handler.Draining? && s.queue == [] {
      assert s.log.written + [] + [] + [] == s.log.written;
    }
  }

  lemma {:induction false} QueueStays(s: Session, es: seq<Event>)
    requires s.handler.Finishing? && forall i :: 0 <= i < |es| ==> ByHandler(es[i])
    ensures Run(s, es).queue == s.queue
    decreases |es|
  {
    if es != [] {
      QueueStays(s, es[..|es| - 1]);
      NothingWrittenAfterReturn(s, es[..|es| - 1]);
    }
  }

  // ---------------------------------------------------------------- a write failure while data is accepted

  /** Some continuation of the run ends the session. */
  ghost predicate CanEnd(s: Session) {
    exists es :: !Run(s, es).running
  }

  /**
    When finish is about to ask whether data is still accepted, the session can still end if and only if the done
    channel is closed by then. Otherwise, which takes a failed write, it stays running in every continuation, with every
    trace accepted since left in the channel, and no stop ever helps.
  */
  lemma EndsIffClosedInTime(s: Session)
    requires Sound(s) && s.handler.Finishing? && s.handler.stage.CheckAccepting?
    ensures CanEnd(Step(s, FinishAccepting)) <==> Closed(s)
    ensures !Closed(s) ==> !s.handler.ok && |s.log.lost| == 1
    ensures !Closed(s) ==> forall es :: Run(Step(s, FinishAccepting), es).running
                                     && Run(Step(s, FinishAccepting), es).log.written == s.log.written
  {
    var s' := Step(s, FinishAccepting);
    if Closed(s) {
      RunKeepsSound(s, [FinishAccepting]);
      RunSnoc(s, [], FinishAccepting);
      assert [] + [FinishAccepting] == [FinishAccepting];
      var es := HandlerAloneFinishes(s');
    } else {
      forall es ensures Run(s', es).running && Run(s', es).log.written == s.log.written {
        NothingWrittenAfterReturn(s', es);
      }
    }
  }

  /** Such a state is reached by a single failed write. */
  lemma FailedWriteStrandsSession(p: Params, t: Trace)
    requires Bounded(p) && p.numTraces >= 2
    ensures var es := [Check(t), Send] + [SelectTrace, Write(false, 0)] + [FinishRunning, FinishAccepting];
            var s := Run(Started(p), es);
            s.handler == Finishing(Failed(ShouldNotAccept), false) && Accepting(s) && !CanEnd(s)
  {
    hide Run, Step;
    var s0 := Started(p);
    RunTwo(s0, Check(t), Send);
    CheckThenSend(s0, t);
    assert [] + [t] == [t];
    var s2 := s0.(producer := Sent(t), queue := [t], accepted := [t]);
    RunTwo(s2, SelectTrace, Write(false, 0));
    TakeThenFail(s2, t);
    var s4 := s2.(queue := [], log := s2.log.(lost := [t]), handler := Finishing(CheckRunning, false));
    RunTwo(s4, FinishRunning, FinishAccepting);
    AskThenRefuse(s4);
    RunAppend(s0, [Check(t), Send], [SelectTrace, Write(false, 0)]);
    RunAppend(s0, [Check(t), Send] + [SelectTrace, Write(false, 0)], [FinishRunning, FinishAccepting]);
    var s6 := s4.(handler := Finishing(Failed(ShouldNotAccept), false));
    forall es ensures Run(s6, es).running {
      NothingWrittenAfterReturn(s6, es);
    }
  }

  lemma TakeThenFail(s: Session, t: Trace)
    requires s.handler.Selecting? && s.queue == [t] && s.log.partial == [] && s.log.lost == []
    ensures Step(Step(s, SelectTrace), Write(false, 0))
         == s.(queue := [], log := s.log.(lost := [t]), handler := Finishing(CheckRunning, false))
  {
    var s1 := Step(s, SelectTrace);
    assert s1 == s.(queue := [], handler := Holding(t, false));
    assert Torn(s.disk, t, 0) == [] && s.disk.file + [] == s.disk.file && s.log.lost + [t] == [t];
  }

  lemma AskThenRefuse(s: Session)
    requires s.handler == Finishing(CheckRunning, false) && s.running && Accepting(s)
    ensures Step(Step(s, FinishRunning), FinishAccepting) == s.(handler := Finishing(Failed(ShouldNotAccept), false))
  {
  }

  // ---------------------------------------------------------------- a second session without Init

  /** A session started over a fired once: the handler can write nothing, and nothing can be closed. */
  ghost predicate Stale(s: Session) {
    && s.gate.once && !Closed(s) && s.running && !s.disk.open
    && match s.handler
       case Selecting => true
       case Draining => false
       case Holding(_, draining) => !draining
       case Finishing(stage, ok) =>
         !ok && (stage.CheckRunning? || stage.CheckAccepting? || stage == Failed(ShouldNotAccept))
  }

  lemma StaleStep(s: Session, e: Event)
    requires Stale(s)
    ensures Stale(Step(s, e)) && Step(s, e).log.written == s.log.written && Step(s, e).disk.file == s.disk.file
  {
    if ByHandler(e) {
      StaleHandlerStep(s, e);
    } else {
      OthersFrame(s, e);
      FiredStays(s, e);
    }
  }

  lemma StaleHandlerStep(s: Session, e: Event)
    requires Stale(s) && ByHandler(e)
    ensures Stale(Step(s, e)) && Step(s, e).log.written == s.log.written && Step(s, e).disk.file == s.disk.file
  {
    assert e.Write? && s.handler.Holding? ==>
        Torn(s.disk, s.handler.held, e.bytes) == [] && s.disk.file + [] == s.disk.file;
  }

  lemma FiredStays(s: Session, e: Event)
    requires s.gate.once && !ByHandler(e)
    ensures Step(s, e).gate == s.gate
  {
    hide Int32;
  }

  lemma {:induction false} StaleRun(s: Session, es: seq<Event>)
    requires Stale(s)
    ensures Stale(Run(s, es)) && Run(s, es).log.written == s.log.written
    decreases |es|
  {
    if es != [] {
      hide Stale, Step;
      StaleRun(s, es[..|es| - 1]);
      StaleStep(Run(s, es[..|es| - 1]), es[|es| - 1]);
    }
  }

  lemma RestartIsStale(s: Session)
    requires Sound(s) && !s.running
    ensures Stale(Restarted(s))
  {
  }

  /**
    After a session has ended, starting another without Init gives one that no stop and no limit ever ends, and that
    writes none of the traces it accepts.
  */
  lemma SecondStartNeverEnds(s: Session, es: seq<Event>)
    requires Sound(s) && !s.running
    ensures var s' := Run(Restarted(s), es);
            s'.running && Accepting(s') && s'.log.written == []
  {
    RestartIsStale(s);
    StaleRun(Restarted(s), es);
  }
}
