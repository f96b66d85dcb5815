/** The output file of an export session, read back by splitting it on newlines (exporter/exporter_test.go:82-89). */
module ExportFile {
  import opened ExportParams
  import opened ExportSession
  import opened ExportLaws
  import Keys

  /** Each trace followed by a newline. */
  function Lines(ts: seq<Trace>): seq<Keys.byte>
    decreases |ts|
  {
    if ts == [] then [] else Lines(ts[..|ts| - 1]) + Line(ts[|ts| - 1])
  }

  lemma LinesSnoc(ts: seq<Trace>, t: Trace)
    ensures Lines(ts + [t]) == Lines(ts) + Line(t)
  {
    assert (ts + [t])[..|ts + [t]| - 1] == ts;
  }

  lemma {:induction false} LinesAppend(a: seq<Trace>, b: seq<Trace>)
    ensures Lines(a + b) == Lines(a) + Lines(b)
    decreases |b|
  {
    if b == [] {
      assert a + b == a;
    } else {
      LinesAppend(a, b[..|b| - 1]);
      assert (a + b)[..|a + b| - 1] == a + b[..|b| - 1];
    }
  }

  /** In the file byte 10 stands behind every trace, and nothing else between two of them. */
  lemma LineOf(ts: seq<Trace>, i: nat)
    requires i < |ts|
    ensures Lines(ts) == Lines(ts[..i]) + ts[i] + [10] + Lines(ts[i + 1..])
  {
    hide Lines;
    CutOut(ts, i);
    LinesAppend(ts[..i] + [ts[i]], ts[i + 1..]);
    LineEnds(ts[..i], ts[i]);
  }

  lemma CutOut<T>(xs: seq<T>, i: nat)
    requires i < |xs|
    ensures xs == (xs[..i] + [xs[i]]) + xs[i + 1..]
  {
  }

  lemma LineEnds(front: seq<Trace>, t: Trace)
    ensures Lines(front + [t]) == Lines(front) + t + [10]
  {
    hide Lines;
    LinesSnoc(front, t);
    Regroup(Lines(front), t, [10]);
  }

  /** bytes.Split(bs, "\n"): one piece more than there are newlines. */
  function SplitLines(bs: seq<Keys.byte>): (pieces: seq<seq<Keys.byte>>)
    ensures pieces != []
    decreases |bs|
  {
    if bs == [] then [[]]
    else
      var front, last := SplitLines(bs[..|bs| - 1]), bs[|bs| - 1];
      if last == NEWLINE then front + [[]]
      else front[..|front| - 1] + [front[|front| - 1] + [last]]
  }

  predicate NewlineFree(t: seq<Keys.byte>) {
    NEWLINE !in t
  }

  lemma {:induction false} SplitThenRest(bs: seq<Keys.byte>, rest: seq<Keys.byte>)
    requires NewlineFree(rest)
    ensures var pieces := SplitLines(bs);
            SplitLines(bs + rest) == pieces[..|pieces| - 1] + [pieces[|pieces| - 1] + rest]
    decreases |rest|
  {
    hide SplitLines;
    var pieces := SplitLines(bs);
    var done, open := pieces[..|pieces| - 1], pieces[|pieces| - 1];
    if rest == [] {
      assert bs + rest == bs && open + [] == open && pieces == done + [open];
    } else {
      var front, last := rest[..|rest| - 1], rest[|rest| - 1];
      assert rest == front + [last];
      SplitThenRest(bs, front);
      SplitAtOther(bs + front, last);
      assert bs + rest == bs + front + [last];
      assert (done + [open + front])[..|done|] == done;
      assert open + front + [last] == open + rest;
    }
  }

  lemma SplitAtOther(bs: seq<Keys.byte>, b: Keys.byte)
    requires b != NEWLINE
    ensures var pieces := SplitLines(bs);
            SplitLines(bs + [b]) == pieces[..|pieces| - 1] + [pieces[|pieces| - 1] + [b]]
  {
    assert (bs + [b])[..|bs + [b]| - 1] == bs;
  }

  lemma SplitAtNewline(bs: seq<Keys.byte>)
    ensures SplitLines(bs + [NEWLINE]) == SplitLines(bs) + [[]]
  {
    assert (bs + [NEWLINE])[..|bs + [NEWLINE]| - 1] == bs;
  }

  ghost predicate AllNewlineFree(ts: seq<Trace>) {
    forall i :: 0 <= i < |ts| ==> NewlineFree(ts[i])
  }

  lemma NoLines()
    ensures Lines([]) == [] && SplitLines([]) == [[]]
  {
  }

  lemma {:induction false} SplitRecoversLines(ts: seq<Trace>)
    requires AllNewlineFree(ts)
    ensures SplitLines(Lines(ts)) == ts + [[]]
    decreases |ts|
  {
    NoLines();
    if ts != [] {
      hide SplitLines, Lines;
      var front, last := ts[..|ts| - 1], ts[|ts| - 1];
      SplitRecoversLines(front);
      assert ts == front + [last];
      LinesSnoc(front, last);
      SplitThenRest(Lines(front), last);
      SplitAtNewline(Lines(front) + last);
      assert Lines(ts) == Lines(front) + last + [NEWLINE];
      assert (front + [[]])[..|front|] == front && [] + last == last;
    }
  }

  lemma {:induction false} PiecesAreNewlineFree(bs: seq<Keys.byte>)
    ensures AllNewlineFree(SplitLines(bs))
    decreases |bs|
  {
    if bs != [] {
      PiecesAreNewlineFree(bs[..|bs| - 1]);
    }
  }

  // ---------------------------------------------------------------- the file of a session

  /** The file holds the written traces as lines, and after them what a failed write left of its trace. */
  ghost predicate FileHolds(s: Session) {
    && s.disk.file == Lines(s.log.written) + s.log.partial
    && (s.log.lost == [] ==> s.log.partial == [])
    && (s.log.lost != [] ==> s.log.partial <= s.log.lost[0])
  }

  lemma FileStep(s: Session, e: Event)
    requires Conserves(s) && FileHolds(s)
    ensures FileHolds(Step(s, e))
  {
    hide Lines;
    if e.Write? {
      if s.handler.Holding? {
        assert s.disk.file == Lines(s.log.written);
        LinesSnoc(s.log.written, s.handler.held);
      }
    } else if !ByHandler(e) {
      OthersFrame(s, e);
    } else if OfFinish(e) {
      FinishFrame(s, e);
    } else {
      HandleFrame(s, e);
    }
  }

  lemma {:induction false} RunKeepsFile(s: Session, es: seq<Event>)
    requires Sound(s) && FileHolds(s)
    ensures FileHolds(Run(s, es))
    decreases |es|
  {
    if es != [] {
      hide FileHolds, Step;
      RunKeepsFile(s, es[..|es| - 1]);
      RunKeepsSound(s, es[..|es| - 1]);
      FileStep(Run(s, es[..|es| - 1]), es[|es| - 1]);
    }
  }

  /**
    Under every interleaving, whether a trace was written in the main loop or in the drain: splitting the file on
    newlines gives back exactly the written traces and one empty piece, if and only if no written trace holds a newline.
    After a failed write the last piece is the part of the lost trace that reached the file.
  */
  lemma FileRoundTripIff(p: Params, es: seq<Event>)
    requires Bounded(p)
    ensures var s := Run(Started(p), es);
            && (s.log.lost == [] ==>
                  (SplitLines(s.disk.file) == s.log.written + [[]] <==> AllNewlineFree(s.log.written)))
            && (s.log.lost != [] && AllNewlineFree(s.log.written + s.log.lost) ==>
                  SplitLines(s.disk.file) == s.log.written + [s.log.partial] && s.log.partial <= s.log.lost[0])
  {
    RunIsSound(p, []);
    RunKeepsFile(Started(p), es);
    RunIsSound(p, es);
    var s := Run(Started(p), es);
    SplitOfFile(s.log.written, s.log.partial);
    if s.log.lost != [] && AllNewlineFree(s.log.written + s.log.lost) {
      assert (s.log.written + s.log.lost)[|s.log.written|] == s.log.lost[0];
      assert forall i :: 0 <= i < |s.log.written| ==> (s.log.written + s.log.lost)[i] == s.log.written[i];
    }
  }

  lemma SplitOfFile(written: seq<Trace>, partial: seq<Keys.byte>)
    ensures AllNewlineFree(written) && NewlineFree(partial) ==>
              SplitLines(Lines(written) + partial) == written + [partial]
    ensures SplitLines(Lines(written)) == written + [[]] ==> AllNewlineFree(written)
    ensures partial == [] ==> Lines(written) + partial == Lines(written)
  {
    if AllNewlineFree(written) && NewlineFree(partial) {
      SplitRecoversLines(written);
      SplitThenRest(Lines(written), partial);
      assert (written + [[]])[..|written|] == written && [] + partial == partial;
    }
    if SplitLines(Lines(written)) == written + [[]] {
      PiecesAreNewlineFree(Lines(written));
      assert forall i :: 0 <= i < |written| ==> (written + [[]])[i] == written[i];
    }
  }

  /** Any part of a trace may be all that a failed write leaves. */
  lemma AnyPartMayRemain(p: Params, t: Trace, n: nat) returns (es: seq<Event>)
    requires Bounded(p) && n <= |t|
    ensures var s := Run(Started(p), es);
            && s.disk.file == t[..n] && s.log.written == [] && s.log.lost == [t]
            && s.handler == Finishing(CheckRunning, false)
  {
    hide Run, Step;
    var s := Started(p);
    es := [Check(t), Send] + [SelectTrace, Write(false, n)];
    RunTwo(s, Check(t), Send);
    CheckThenSend(s, t);
    assert [] + [t] == [t];
    var s' := s.(producer := Sent(t), queue := [t], accepted := [t]);
    RunTwo(s', SelectTrace, Write(false, n));
    TakeThenTear(s', t, n);
    RunAppend(s, [Check(t), Send], [SelectTrace, Write(false, n)]);
  }

  lemma TakeThenTear(s: Session, t: Trace, n: nat)
    requires s.handler.Selecting? && s.queue == [t] && s.disk.open && s.disk.file == [] && s.log.lost == [] && n <= |t|
    ensures var s' := Step(Step(s, SelectTrace), Write(false, n));
            && s'.disk.file == t[..n] && s'.log.written == s.log.written && s'.log.lost == [t]
            && s'.handler == Finishing(CheckRunning, false)
  {
    hide Step, Torn;
    TakesFirst(s, t);
    Tears(s.(queue := [], handler := Holding(t, false)), t, n);
    assert [] + t[..n] == t[..n] && [] + [t] == [t];
  }

  lemma TakesFirst(s: Session, t: Trace)
    requires s.handler.Selecting? && s.queue == [t]
    ensures Step(s, SelectTrace) == s.(queue := [], handler := Holding(t, false))
  {
    hide Int32;
  }

  lemma Tears(s: Session, t: Trace, n: nat)
    requires s.handler == Holding(t, false) && s.disk.open && n <= |t|
    ensures Step(s, Write(false, n))
         == s.(disk := s.disk.(file := s.disk.file + t[..n]),
               log := s.log.(partial := t[..n], lost := s.log.lost + [t]), handler := Finishing(CheckRunning, false))
  {
    hide Int32;
  }

  /**
    What the exporter promises: when its own limit stopped a session without file errors, the file read back is exactly
    the accepted traces, in order, unless its removal was asked for; a stop request may do so until finish gets there.
  */
  lemma LimitedSessionReadsBack(p: Params, es: seq<Event>)
    requires Bounded(p) && forall i :: 0 <= i < |es| ==> NoFailure(es[i])
    ensures var s := Run(Started(p), es);
            Over(s.handler) && s.gate.closer.OwnLimit? && AllNewlineFree(s.accepted) && !s.disk.removed ==>
              SplitLines(s.disk.file) == s.accepted + [[]]
    ensures NeverAsked(p, es) ==> !Run(Started(p), es).disk.removed
  {
    CleanSessionOutcome(p, es);
    AtMostOneUnwritten(p, es);
    CleanRunsStayUnharmed(Started(p), es);
    FileRoundTripIff(p, es);
    if NeverAsked(p, es) {
      UnaskedFileStays(p, es);
    }
  }
}
