/** Theorems about every run of the transmit state machine. */
module TransmitRuns {
  import opened TransmitSpec

  // ---- what single steps do to the line ----

  /** The state a successful submission leaves behind. */
  predicate JustSent(l: Line) { l.busy && !l.completed && !l.HasVerdict() }

  /** Either nothing was submitted, or exactly one packet was and it left `m` just sent. */
  ghost predicate SubmitsAtMostOne(l: Line, m: Line) {
    && m.cm19a == l.cm19a
    && (m.log.sent == l.log.sent
        || (|m.log.sent| == |l.log.sent| + 1 && l.log.sent <= m.log.sent && JustSent(m)))
  }

  lemma MaybeFinishFrame(l: Line, rc: int)
    ensures var m := MaybeFinish(l, rc);
            SubmitsAtMostOne(l, m) && m.log.accepted == l.log.accepted && (!l.out.orphaned ==> !m.out.orphaned)
  {
  }

  /** The new packet a step adds to the accepted sequence, if any. */
  function AcceptedNow(e: Engine, ev: Event): seq<Packet> {
    match ev
    case Write(p, rc) => if X10Write(e.line, p, rc).1 >= 0 then [p] else []
    case _ => []
  }

  lemma WriteFrame(l: Line, p: Packet, rc: int)
    requires LineInv(l)
    ensures SubmitsAtMostOne(l, X10Write(l, p, rc).0)
    ensures !l.out.orphaned ==> !X10Write(l, p, rc).0.out.orphaned
  {
  }

  lemma StepFrame(e: Engine, ev: Event)
    requires Inv(e)
    ensures var f := Step(e, ev);
            SubmitsAtMostOne(e.line, f.line) && f.line.log.accepted == e.line.log.accepted + AcceptedNow(e, ev)
  {
    hide MaybeFinish, X10Write, SubmitsAtMostOne, Inv;
    NothingSubmitted(e.line, Step(e, ev).line);
    match ev
    case Write(p, rc) =>
      WriteAccepts(e, p, rc);
    case OutDone(status, rc) =>
      MaybeFinishFrame(Returned(e.line), rc);
      SameSent(e.line, Returned(e.line), MaybeFinish(Returned(e.line), rc));
    case InDone(status, data, rc, resubmit) =>
      MaybeFinishFrame(Acked(e.line), rc);
      SameSent(e.line, Acked(e.line), MaybeFinish(Acked(e.line), rc));
    case PollExpired(rc) =>
      MaybeFinishFrame(Expired(e.line), rc);
      SameSent(e.line, Expired(e.line), MaybeFinish(Expired(e.line), rc));
    case _ =>
  }

  lemma NothingSubmitted(l: Line, m: Line)
    ensures m.cm19a == l.cm19a && m.log.sent == l.log.sent ==> SubmitsAtMostOne(l, m)
  {
  }

  lemma SameSent(l: Line, changed: Line, m: Line)
    requires changed.cm19a == l.cm19a && changed.log.sent == l.log.sent
    ensures SubmitsAtMostOne(changed, m) ==> SubmitsAtMostOne(l, m)
  {
  }

  lemma WriteAccepts(e: Engine, p: Packet, rc: int)
    requires Inv(e)
    ensures var ev, m := Write(p, rc), X10Write(e.line, p, rc).0;
            SubmitsAtMostOne(e.line, m) && m.log.accepted == e.line.log.accepted + AcceptedNow(e, ev)
  {
    hide SubmitsAtMostOne;
    WriteFrame(e.line, p, rc);
  }

  // ---- safety ----

  lemma {:induction false} RunKeepsInv(e: Engine, run: seq<Event>)
    requires Inv(e) && Legal(e, run)
    ensures Inv(Run(e, run))
    decreases |run|
  {
    if run != [] {
      StepKeepsInv(e, run[0]);
      RunKeepsInv(Step(e, run[0]), run[1..]);
    }
  }

  /** The packets for which x10_write reported success, in call order. */
  function AcceptedBy(e: Engine, run: seq<Event>): seq<Packet>
    decreases |run|
  {
    if run == [] then [] else AcceptedNow(e, run[0]) + AcceptedBy(Step(e, run[0]), run[1..])
  }

  lemma {:induction false} AcceptedIsRecorded(e: Engine, run: seq<Event>)
    requires Inv(e) && Legal(e, run)
    ensures Run(e, run).line.log.accepted == e.line.log.accepted + AcceptedBy(e, run)
    decreases |run|
  {
    hide Step, Inv, AcceptedNow;
    if run != [] {
      StepFrame(e, run[0]);
      StepKeepsInv(e, run[0]);
      AcceptedIsRecorded(Step(e, run[0]), run[1..]);
    }
  }

  /** No packet is lost, duplicated, reordered or altered, whatever the controller does. */
  lemma FifoOverEveryRun(cm19a: bool, run: seq<Event>)
    requires Legal(Initial(cm19a), run)
    ensures var l := Run(Initial(cm19a), run).line;
            l.log.sent + l.queue == AcceptedBy(Initial(cm19a), run)
  {
    RunKeepsInv(Initial(cm19a), run);
    AcceptedIsRecorded(Initial(cm19a), run);
  }

  /** Exactly when x10_write refuses a packet, and that a refusal changes neither queue nor wire. */
  lemma WriteRefusedExactlyWhen(l: Line, p: Packet, rc: int)
    requires LineInv(l)
    ensures var (m, r) := X10Write(l, p, rc);
            && (r < 0 <==> || |p| > 8
                           || (l.busy && |l.queue| == 255)
                           || (!l.busy && (!l.out.held || rc < 0)))
            && (r < 0 ==> r == if |p| > 8 || l.busy then -1 else if !l.out.held then -19 else rc)
            && (r >= 0 ==> r == |p| && m.log.sent + m.queue == l.log.sent + l.queue + [p])
            && (r < 0 ==> m.log.sent == l.log.sent && m.queue == l.queue && m.busy == l.busy)
  {
    if l.busy { assert l.log.sent + (l.queue + [p]) == l.log.sent + l.queue + [p]; }
  }

  /** At most one OUT transfer is outstanding, and the bytes libusb was given stay put until its callback. */
  lemma SingleTransferInFlight(cm19a: bool, run: seq<Event>)
    requires Legal(Initial(cm19a), run)
    ensures var l := Run(Initial(cm19a), run).line;
            && (l.out.Active() ==> l.out.pending)
            && (l.out.pending ==> l.busy && !l.completed && l.log.sent != []
                                  && l.buffer == l.log.sent[|l.log.sent| - 1])
            && |l.log.sent| == l.log.callbacks + (if l.completed then 0 else 1)
            && !l.log.refusedBusy
  {
    RunKeepsInv(Initial(cm19a), run);
  }

  lemma IdleExactlyWhenNoDeadline(cm19a: bool, run: seq<Event>)
    requires Legal(Initial(cm19a), run)
    ensures var l := Run(Initial(cm19a), run).line;
            && (l.busy <==> l.pollTimeout == 2000)
            && (!l.busy <==> l.pollTimeout == -1)
            && (!l.busy ==> l.queue == [] && !l.out.pending && !l.out.Active() && l.log.sent == l.log.accepted)
  {
    RunKeepsInv(Initial(cm19a), run);
  }

  // ---- freeing transfers ----

  predicate AnswersNotFoundTooEarly(ev: Event) {
    (ev.CancelOut? || ev.CancelIn?) && ev.answer == -5 && ev.stillOwed
  }

  function TransferOf(e: Engine, output: bool): Transfer { if output then e.line.out else e.inp }

  predicate Returns(ev: Event, output: bool) { if output then ev.OutDone? else ev.InDone? }

  /** A cancel of an active transfer is answered NOT_FOUND although its callback is still to come. */
  predicate CancelsTooEarly(e: Engine, ev: Event, output: bool) {
    && (if output then ev.CancelOut? else ev.CancelIn?)
    && ev.answer == -5 && ev.stillOwed && TransferOf(e, output).Active()
  }

  /** Event `i` of a run is such a cancel, and the callback has not come since. */
  ghost predicate OrphanedAt(e: Engine, run: seq<Event>, i: int, output: bool)
    requires 0 <= i < |run|
  {
    CancelsTooEarly(Run(e, run[..i]), run[i], output) && forall j | i < j < |run| :: !Returns(run[j], output)
  }

  lemma MaybeFinishOrphans(l: Line, rc: int)
    requires l.out.Sound() && (l.out.pending ==> !l.completed)
    ensures MaybeFinish(l, rc).out.orphaned == l.out.orphaned
  {
  }

  lemma StepOrphans(e: Engine, ev: Event, output: bool)
    requires Inv(e) && Enabled(e, ev)
    ensures TransferOf(Step(e, ev), output).orphaned
       <==> CancelsTooEarly(e, ev, output) || (TransferOf(e, output).orphaned && !Returns(ev, output))
  {
    hide MaybeFinish;
    match ev
    case OutDone(status, rc) => MaybeFinishOrphans(Returned(e.line), rc);
    case InDone(status, data, rc, resubmit) => MaybeFinishOrphans(Acked(e.line), rc);
    case PollExpired(rc) => MaybeFinishOrphans(Expired(e.line), rc);
    case _ =>
  }

  lemma {:induction false} RunSplits(e: Engine, run: seq<Event>, n: nat)
    requires Legal(e, run) && n <= |run|
    ensures Legal(e, run[..n]) && Legal(Run(e, run[..n]), run[n..])
    ensures Run(e, run) == Run(Run(e, run[..n]), run[n..])
    decreases n
  {
    if n == 0 {
      assert run[..0] == [] && run[0..] == run;
    } else {
      RunSplits(Step(e, run[0]), run[1..], n - 1);
      assert run[..n][1..] == run[1..][..n - 1] && run[n..] == run[1..][n - 1..];
    }
  }

  lemma {:induction false} RunAppends(e: Engine, run: seq<Event>, ev: Event)
    requires Legal(e, run) && Enabled(Run(e, run), ev)
    ensures Legal(e, run + [ev]) && Run(e, run + [ev]) == Step(Run(e, run), ev)
    decreases |run|
  {
    if run == [] {
      assert run + [ev] == [ev] && [ev][1..] == [];
    } else {
      RunAppends(Step(e, run[0]), run[1..], ev);
      assert (run + [ev])[1..] == run[1..] + [ev];
    }
  }

  lemma {:induction false} OrphanedExactlyWhen(e: Engine, run: seq<Event>, output: bool)
    requires Inv(e) && Legal(e, run) && !TransferOf(e, output).orphaned
    ensures TransferOf(Run(e, run), output).orphaned <==> exists i | 0 <= i < |run| :: OrphanedAt(e, run, i, output)
    decreases |run|
  {
    hide Step, Inv, CancelsTooEarly, Returns;
    if run != [] {
      var n, before := |run| - 1, run[..|run| - 1];
      RunSplits(e, run, n);
      var last := Run(e, before);
      assert run[n..] == [run[n]] && Run(last, [run[n]]) == Step(last, run[n]);
      RunKeepsInv(e, before);
      OrphanedExactlyWhen(e, before, output);
      StepOrphans(last, run[n], output);
      OrphanedLater(e, run, output);
    }
  }

  /** A cancel too early either is the last event or came before it, and then the last event is not the callback. */
  lemma OrphanedLater(e: Engine, run: seq<Event>, output: bool)
    requires run != []
    ensures var n, before := |run| - 1, run[..|run| - 1];
            (exists i | 0 <= i < |run| :: OrphanedAt(e, run, i, output))
            <==> CancelsTooEarly(Run(e, before), run[n], output)
                 || (!Returns(run[n], output) && exists i | 0 <= i < n :: OrphanedAt(e, before, i, output))
  {
    hide CancelsTooEarly, Returns, Run;
    var n, before := |run| - 1, run[..|run| - 1];
    forall i | 0 <= i < n
      ensures OrphanedAt(e, run, i, output) <==> OrphanedAt(e, before, i, output) && !Returns(run[n], output)
    {
      assert before[..i] == run[..i];
      assert forall j | i < j < n :: before[j] == run[j];
    }
    assert OrphanedAt(e, run, n, output) <==> CancelsTooEarly(Run(e, before), run[n], output);
  }

  /** Freeing a transfer releases one libusb still uses exactly when such a cancel came and its callback did not. */
  lemma FreeHitsPendingExactlyWhenOrphaned(cm19a: bool, run: seq<Event>, output: bool)
    requires Legal(Initial(cm19a), run) && TransferOf(Run(Initial(cm19a), run), output).held
    ensures var t := TransferOf(Run(Initial(cm19a), run), output);
            (!t.Free().held && t.pending) <==> exists i | 0 <= i < |run| :: OrphanedAt(Initial(cm19a), run, i, output)
  {
    RunKeepsInv(Initial(cm19a), run);
    OrphanedExactlyWhen(Initial(cm19a), run, output);
  }

  ghost predicate NoOrphan(e: Engine) { !e.line.out.orphaned && !e.inp.orphaned }

  lemma StepKeepsNoOrphan(e: Engine, ev: Event)
    requires Inv(e) && NoOrphan(e) && !AnswersNotFoundTooEarly(ev)
    ensures NoOrphan(Step(e, ev))
  {
    match ev
    case Write(p, rc) => WriteFrame(e.line, p, rc);
    case OutDone(status, rc) => MaybeFinishFrame(Returned(e.line), rc);
    case InDone(status, data, rc, resubmit) => MaybeFinishFrame(Acked(e.line), rc);
    case PollExpired(rc) => MaybeFinishFrame(Expired(e.line), rc);
    case _ =>
  }

  lemma {:induction false} OrphansNeedAnEarlyNotFound(e: Engine, run: seq<Event>)
    requires Inv(e) && NoOrphan(e) && Legal(e, run)
    requires forall ev | ev in run :: !AnswersNotFoundTooEarly(ev)
    ensures NoOrphan(Run(e, run))
    decreases |run|
  {
    if run != [] {
      StepKeepsInv(e, run[0]);
      StepKeepsNoOrphan(e, run[0]);
      assert forall ev | ev in run[1..] :: ev in run;
      OrphansNeedAnEarlyNotFound(Step(e, run[0]), run[1..]);
    }
  }

  /** As long as NOT_FOUND means that no callback will come, no outstanding transfer is ever freed. */
  lemma FreedTransfersAreIdle(cm19a: bool, run: seq<Event>)
    requires Legal(Initial(cm19a), run)
    requires forall ev | ev in run :: !AnswersNotFoundTooEarly(ev)
    ensures var e := Run(Initial(cm19a), run);
            && (!e.line.out.held ==> !e.line.out.pending && !e.line.out.Active())
            && (!e.inp.held ==> !e.inp.pending && !e.inp.Active())
  {
    RunKeepsInv(Initial(cm19a), run);
    OrphansNeedAnEarlyNotFound(Initial(cm19a), run);
  }

  /** The assumption is needed: this run frees the OUT transfer while libusb still owes its callback. */
  lemma EarlyNotFoundFreesPending(p: Packet)
    requires |p| <= 8
    ensures var e := Step(Step(Step(Initial(false), Write(p, 0)), CancelOut(-5, true)), FreeOut);
            !e.line.out.held && e.line.out.pending
  {
  }

  /** Draining keeps every invariant, and answers zero, when neither transfer is active, -110 or the error it met. */
  lemma {:induction false} DrainedMeansIdle(e: Engine, max: nat, handled: seq<Handled>)
    requires Inv(e) && NoOrphan(e) && max <= |handled| && DrainLegal(e, max, handled)
    ensures var (d, r) := Drain(e, max, handled);
            && Inv(d) && NoOrphan(d) && (r == 0 ==> !AnyActive(d)) && (r == -110 || r == 0 || DrainError(handled, r))
    decreases max
  {
    hide Inv, NoOrphan, InsideHandling;
    if AnyActive(e) && max > 0 {
      var run := handled[0].inside;
      RunKeepsInv(e, run);
      HandlingAnswersNothing(run);
      OrphansNeedAnEarlyNotFound(e, run);
      if !GivesUp(handled[0]) { DrainedMeansIdle(Run(e, run), max - 1, handled[1..]); }
    }
  }

  /** Some call answered this, and it is not an interruption. */
  ghost predicate DrainError(handled: seq<Handled>, r: int) {
    r < 0 && r != -10 && exists i | 0 <= i < |handled| :: handled[i].rc == r
  }

  lemma HandlingAnswersNothing(run: seq<Event>)
    requires forall ev | ev in run :: InsideHandling(ev)
    ensures forall ev | ev in run :: !AnswersNotFoundTooEarly(ev)
  {
  }

  /** What is left after cancelling, draining and freeing both transfers. */
  function Shutdown(e: Engine, outAnswer: int, inAnswer: int, max: nat, handled: seq<Handled>): (Engine, int)
    requires max <= |handled|
  {
    var (d, r) := Drain(Cancelled(e, outAnswer, inAnswer), max, handled);
    (Step(Step(d, FreeIn), FreeOut), r)
  }

  function Cancelled(e: Engine, outAnswer: int, inAnswer: int): Engine {
    Step(Step(e, CancelOut(outAnswer, false)), CancelIn(inAnswer, false))
  }

  /** Shutdown frees exactly the inactive transfers, none of them outstanding, and both when the drain succeeds. */
  lemma ShutdownFreesIdleTransfers(e: Engine, outAnswer: int, inAnswer: int, max: nat, handled: seq<Handled>)
    requires Inv(e) && NoOrphan(e)
    requires max <= |handled| && DrainLegal(Cancelled(e, outAnswer, inAnswer), max, handled)
    ensures var (f, r) := Shutdown(e, outAnswer, inAnswer, max, handled);
            && (f.line.out.held <==> f.line.out.Active()) && (f.inp.held <==> f.inp.Active())
            && (!f.line.out.held ==> !f.line.out.pending) && (!f.inp.held ==> !f.inp.pending)
            && (r == 0 ==> !f.line.out.held && !f.inp.held)
  {
    hide Drain, DrainLegal;
    var c := Cancelled(e, outAnswer, inAnswer);
    StepKeepsInv(e, CancelOut(outAnswer, false));
    StepKeepsInv(Step(e, CancelOut(outAnswer, false)), CancelIn(inAnswer, false));
    DrainedMeansIdle(c, max, handled);
  }

  /** The same after any run of the daemon in which NOT_FOUND means that no callback will come. */
  lemma ShutdownFreesOnlyIdleTransfers(cm19a: bool, run: seq<Event>, outAnswer: int, inAnswer: int,
                                       max: nat, handled: seq<Handled>)
    requires Legal(Initial(cm19a), run) && forall ev | ev in run :: !AnswersNotFoundTooEarly(ev)
    requires max <= |handled| && DrainLegal(Cancelled(Run(Initial(cm19a), run), outAnswer, inAnswer), max, handled)
    ensures var (f, r) := Shutdown(Run(Initial(cm19a), run), outAnswer, inAnswer, max, handled);
            && (f.line.out.held <==> f.line.out.Active()) && (f.inp.held <==> f.inp.Active())
            && (!f.line.out.held ==> !f.line.out.pending) && (!f.inp.held ==> !f.inp.pending)
            && (r == 0 ==> !f.line.out.held && !f.inp.held)
  {
    hide Shutdown, DrainLegal;
    RunKeepsInv(Initial(cm19a), run);
    OrphansNeedAnEarlyNotFound(Initial(cm19a), run);
    ShutdownFreesIdleTransfers(Run(Initial(cm19a), run), outAnswer, inAnswer, max, handled);
  }

  // ---- pacing ----

  function Verdicts(l: Line): nat { l.log.acks + l.log.timeouts }

  /** Submissions, plus the one an unused verdict or an idle line still allows, less the verdicts heard. */
  function Spent(l: Line): int {
    |l.log.sent| + (if !l.busy || l.HasVerdict() then 1 else 0) - Verdicts(l)
  }

  lemma MaybeFinishSpends(l: Line, rc: int)
    requires !l.cm19a
    ensures Spent(MaybeFinish(l, rc)) <= Spent(l)
  {
  }

  lemma StepSpends(e: Engine, ev: Event)
    requires Inv(e) && Enabled(e, ev) && !e.line.cm19a
    ensures Spent(Step(e, ev).line) <= Spent(e.line)
  {
    match ev
    case OutDone(status, rc) => MaybeFinishSpends(Returned(e.line), rc);
    case InDone(status, data, rc, resubmit) => MaybeFinishSpends(Acked(e.line), rc);
    case PollExpired(rc) => MaybeFinishSpends(Expired(e.line), rc);
    case _ =>
  }

  lemma {:induction false} RunSpends(e: Engine, run: seq<Event>)
    requires Inv(e) && Legal(e, run) && !e.line.cm19a
    ensures Spent(Run(e, run).line) <= Spent(e.line)
    decreases |run|
  {
    if run != [] {
      StepKeepsInv(e, run[0]);
      StepFrame(e, run[0]);
      StepSpends(e, run[0]);
      RunSpends(Step(e, run[0]), run[1..]);
    }
  }

  /**
   From any submission on, each further submission costs one OUT callback and, on a CM15A,
   also one ACK or time-out heard after that first submission, however stale or early they are.
   StepFrame shows that a step submits at most one packet and then leaves JustSent.
   */
  lemma PacingAfterSubmission(e: Engine, run: seq<Event>)
    requires Inv(e) && JustSent(e.line) && Legal(e, run)
    ensures var l, m := e.line, Run(e, run).line;
            && |m.log.sent| - |l.log.sent| <= m.log.callbacks - l.log.callbacks
            && (!l.cm19a ==> |m.log.sent| - |l.log.sent| <= Verdicts(m) - Verdicts(l))
  {
    RunKeepsInv(e, run);
    if !e.line.cm19a { RunSpends(e, run); }
  }

  lemma PacingOverEveryRun(cm19a: bool, run: seq<Event>)
    requires Legal(Initial(cm19a), run)
    ensures var log := Run(Initial(cm19a), run).line.log;
            && |log.sent| <= 1 + log.callbacks
            && (!cm19a ==> |log.sent| <= 1 + log.acks + log.timeouts)
  {
    RunKeepsInv(Initial(cm19a), run);
    if !cm19a { RunSpends(Initial(cm19a), run); }
  }
}
