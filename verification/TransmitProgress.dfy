/** Progress of the transmit state machine, and which command an acknowledgement is credited to. */
module TransmitProgress {
  import opened TransmitSpec
  import opened TransmitRuns

  // ---- progress ----

  /** Productive steps still needed before the line is idle. */
  function Measure(l: Line): nat {
    if !l.busy then 0
    else 3 * |l.queue| + 1 + (if l.completed then 0 else 1) + (if l.cm19a || l.HasVerdict() then 0 else 1)
  }

  /** The transfer exists and an OUT callback is owed or has come. */
  predicate Live(l: Line) { l.out.held && (l.completed || l.out.pending) }

  /** A first ACK or time-out is what the line waits for. */
  predicate Awaits(l: Line) { l.busy && (l.completed || (!l.cm19a && !l.HasVerdict())) }

  /** The events that carry a queued packet forward, with a submit that works. */
  predicate Productive(e: Engine, ev: Event) {
    match ev
    case OutDone(status, rc) => status == Completed && rc >= 0
    case PollExpired(rc) => rc >= 0 && Awaits(e.line)
    case InDone(status, data, rc, _) => status == Completed && IsAck(data) && rc >= 0 && Awaits(e.line)
    case _ => false
  }

  lemma MaybeFinishDescends(l: Line, rc: int)
    requires Live(l) && (l.completed ==> !l.out.Active()) && rc >= 0
    requires forall p | p in l.queue :: |p| <= MAX_PACKET
    ensures var m := MaybeFinish(l, rc);
            && Live(m) && Measure(m) <= Measure(l)
            && (l.busy && l.completed && (l.cm19a || l.HasVerdict()) ==> Measure(m) < Measure(l))
            && m.log.sent + m.queue == l.log.sent + l.queue
  {
    if l.busy && l.queue != [] {
      assert l.log.sent + l.queue == (l.log.sent + [l.queue[0]]) + l.queue[1..];
    }
  }

  lemma QueueFits(l: Line)
    requires QueueInv(l)
    ensures forall p | p in l.queue :: |p| <= MAX_PACKET
  {
    forall p | p in l.queue
      ensures p in l.log.accepted
    {
      assert p in l.log.sent + l.queue;
    }
  }

  lemma ProductiveStepsDescend(e: Engine, ev: Event)
    requires Inv(e) && Live(e.line) && Enabled(e, ev) && Productive(e, ev)
    ensures var m := Step(e, ev).line;
            && Measure(m) < Measure(e.line) && Live(m)
            && m.log.sent + m.queue == e.line.log.sent + e.line.queue
  {
    QueueFits(e.line);
    match ev
    case OutDone(status, rc) => MaybeFinishDescends(Returned(e.line), rc);
    case InDone(status, data, rc, resubmit) => MaybeFinishDescends(Acked(e.line), rc);
    case PollExpired(rc) => MaybeFinishDescends(Expired(e.line), rc);
  }

  predicate AllProductive(e: Engine, run: seq<Event>)
    decreases |run|
  {
    run == [] || (Productive(e, run[0]) && AllProductive(Step(e, run[0]), run[1..]))
  }

  lemma {:induction false} LiveProductiveRuns(e: Engine, run: seq<Event>)
    requires Inv(e) && Live(e.line) && Legal(e, run) && AllProductive(e, run)
    ensures |run| + Measure(Run(e, run).line) <= Measure(e.line)
    decreases |run|
  {
    if run != [] {
      StepKeepsInv(e, run[0]);
      ProductiveStepsDescend(e, run[0]);
      LiveProductiveRuns(Step(e, run[0]), run[1..]);
    }
  }

  /** What to wait for next: the OUT callback when one is owed, otherwise the poll deadline. */
  function NextProductive(e: Engine): Event {
    if e.line.out.pending then OutDone(Completed, 0) else PollExpired(0)
  }

  lemma LiveStatesCanMove(e: Engine)
    requires Inv(e) && Live(e.line) && e.line.busy
    ensures Enabled(e, NextProductive(e)) && Productive(e, NextProductive(e))
  {
  }

  ghost function DrainRun(e: Engine): seq<Event>
    requires Inv(e) && Live(e.line)
    decreases Measure(e.line)
  {
    if !e.line.busy then []
    else
      var ev := NextProductive(e);
      LiveStatesCanMove(e);
      StepKeepsInv(e, ev);
      ProductiveStepsDescend(e, ev);
      [ev] + DrainRun(Step(e, ev))
  }

  /** A run that empties the queue onto the wire in order and leaves the line idle, within the measure. */
  ghost predicate Drains(e: Engine, run: seq<Event>) {
    && Legal(e, run) && AllProductive(e, run) && |run| <= Measure(e.line)
    && var m := Run(e, run).line;
       !m.busy && m.queue == [] && m.log.sent == e.line.log.sent + e.line.queue
  }

  lemma {:induction false} LiveQueueDrains(e: Engine)
    requires Inv(e) && Live(e.line)
    ensures Drains(e, DrainRun(e))
    decreases Measure(e.line)
  {
    if e.line.busy {
      var ev := NextProductive(e);
      LiveStatesCanMove(e);
      StepKeepsInv(e, ev);
      ProductiveStepsDescend(e, ev);
      LiveQueueDrains(Step(e, ev));
      assert DrainRun(e)[1..] == DrainRun(Step(e, ev));
    }
  }

  // ---- which runs keep the line alive ----

  /** The two events after which no OUT callback can ever come: a cancel that finds nothing, and a free. */
  predicate Stops(e: Engine, ev: Event) {
    match ev
    case CancelOut(answer, stillOwed) => e.line.out.Active() && answer == -5 && !stillOwed
    case FreeOut => !e.line.out.Active()
    case _ => false
  }

  predicate Undisturbed(e: Engine, run: seq<Event>)
    decreases |run|
  {
    run == [] || (!Stops(e, run[0]) && Undisturbed(Step(e, run[0]), run[1..]))
  }

  lemma MaybeFinishKeepsLive(l: Line, rc: int)
    requires QueueInv(l) && BusyInv(l) && TransferInv(l) && Live(l)
    ensures Live(MaybeFinish(l, rc))
  {
    QueueFits(l);
  }

  lemma StepKeepsLiveExactlyWhen(e: Engine, ev: Event)
    requires Inv(e) && Live(e.line) && Enabled(e, ev)
    ensures Live(Step(e, ev).line) <==> !Stops(e, ev)
  {
    hide MaybeFinish;
    match ev
    case OutDone(status, rc) => MaybeFinishKeepsLive(Returned(e.line), rc);
    case InDone(status, data, rc, resubmit) => MaybeFinishKeepsLive(Acked(e.line), rc);
    case PollExpired(rc) => MaybeFinishKeepsLive(Expired(e.line), rc);
    case _ =>
  }

  /** No OUT callback can come any more and none has come. */
  predicate Abandoned(l: Line) { !l.completed && !l.out.pending }

  lemma DeadMaybeFinish(l: Line, rc: int)
    requires !l.out.held || Abandoned(l)
    ensures var m := MaybeFinish(l, rc);
            && m.log.sent == l.log.sent && m.out == l.out
            && (!l.completed ==> !m.completed && m.busy == l.busy)
  {
  }

  lemma StepStaysDead(e: Engine, ev: Event)
    requires Inv(e) && !Live(e.line) && Enabled(e, ev)
    ensures var m := Step(e, ev).line;
            && !Live(m) && m.log.sent == e.line.log.sent
            && (Abandoned(e.line) ==> Abandoned(m) && m.busy)
  {
    hide MaybeFinish;
    match ev
    case InDone(status, data, rc, resubmit) => DeadMaybeFinish(Acked(e.line), rc);
    case PollExpired(rc) => DeadMaybeFinish(Expired(e.line), rc);
    case _ =>
  }

  /** A line that is no longer alive never submits again, and a busy one whose callback was lost stays busy. */
  lemma {:induction false} DeadLinesSubmitNothing(e: Engine, run: seq<Event>)
    requires Inv(e) && !Live(e.line) && Legal(e, run)
    ensures var m := Run(e, run).line;
            !Live(m) && m.log.sent == e.line.log.sent && (Abandoned(e.line) ==> Abandoned(m) && m.busy)
    decreases |run|
  {
    hide Step, Inv, Live;
    if run != [] {
      StepKeepsInv(e, run[0]);
      StepStaysDead(e, run[0]);
      DeadLinesSubmitNothing(Step(e, run[0]), run[1..]);
    } else {
      AbandonedIsBusy(e);
    }
  }

  lemma AbandonedIsBusy(e: Engine)
    requires Inv(e)
    ensures Abandoned(e.line) ==> e.line.busy
  {
  }

  lemma {:induction false} LiveExactlyWhenUndisturbed(e: Engine, run: seq<Event>)
    requires Inv(e) && Live(e.line) && Legal(e, run)
    ensures Live(Run(e, run).line) <==> Undisturbed(e, run)
    decreases |run|
  {
    hide Step, Inv, Live, Stops;
    if run != [] {
      StepKeepsInv(e, run[0]);
      StepKeepsLiveExactlyWhen(e, run[0]);
      if Stops(e, run[0]) {
        DeadLinesSubmitNothing(Step(e, run[0]), run[1..]);
      } else {
        LiveExactlyWhenUndisturbed(Step(e, run[0]), run[1..]);
      }
    }
  }

  // ---- progress of every reachable state ----

  lemma ReachedAlive(cm19a: bool, run: seq<Event>)
    requires Legal(Initial(cm19a), run)
    ensures var e := Run(Initial(cm19a), run);
            Inv(e) && (Live(e.line) <==> Undisturbed(Initial(cm19a), run))
  {
    RunKeepsInv(Initial(cm19a), run);
    LiveExactlyWhenUndisturbed(Initial(cm19a), run);
  }

  /** No busy state is stuck: the next productive event can happen, and it descends. */
  lemma BusyStatesCanMove(cm19a: bool, run: seq<Event>)
    requires Legal(Initial(cm19a), run) && Undisturbed(Initial(cm19a), run)
    requires Run(Initial(cm19a), run).line.busy
    ensures var e := Run(Initial(cm19a), run);
            && Enabled(e, NextProductive(e)) && Productive(e, NextProductive(e))
            && Measure(Step(e, NextProductive(e)).line) < Measure(e.line)
  {
    hide Step, Run, Legal, Undisturbed, Productive, NextProductive, Enabled, Measure;
    var e := Run(Initial(cm19a), run);
    ReachedAlive(cm19a, run);
    LiveStatesCanMove(e);
    ProductiveStepsDescend(e, NextProductive(e));
  }

  /** With no new writes and working submits the queue empties onto the wire, in order, within the measure. */
  lemma QueueDrains(cm19a: bool, run: seq<Event>)
    requires Legal(Initial(cm19a), run) && Undisturbed(Initial(cm19a), run)
    ensures exists more :: Drains(Run(Initial(cm19a), run), more)
  {
    hide Run, Legal, Undisturbed, Measure, DrainRun;
    ReachedAlive(cm19a, run);
    LiveQueueDrains(Run(Initial(cm19a), run));
  }

  /** Rounds in any order: from any such state a productive run is never longer than the measure it uses up. */
  lemma ProductiveRunsAreShort(cm19a: bool, run: seq<Event>, more: seq<Event>)
    requires Legal(Initial(cm19a), run) && Undisturbed(Initial(cm19a), run)
    requires var e := Run(Initial(cm19a), run); Legal(e, more) && AllProductive(e, more)
    ensures var e := Run(Initial(cm19a), run); |more| + Measure(Run(e, more).line) <= Measure(e.line)
  {
    ReachedAlive(cm19a, run);
    LiveProductiveRuns(Run(Initial(cm19a), run), more);
  }

  /** The waiting packets can still reach the wire exactly when no such event came; otherwise nothing ever will. */
  lemma WaitingPacketsCanBeSentExactlyWhen(cm19a: bool, run: seq<Event>)
    requires Legal(Initial(cm19a), run) && Run(Initial(cm19a), run).line.queue != []
    ensures var e := Run(Initial(cm19a), run);
            Undisturbed(Initial(cm19a), run)
            <==> exists more :: Legal(e, more) && e.line.log.sent + e.line.queue <= Run(e, more).line.log.sent
  {
    hide Undisturbed;
    var e := Run(Initial(cm19a), run);
    ReachedAlive(cm19a, run);
    if Undisturbed(Initial(cm19a), run) {
      LiveQueueDrains(e);
      assert e.line.log.sent + e.line.queue <= Run(e, DrainRun(e)).line.log.sent;
    } else {
      forall more | Legal(e, more)
        ensures !(e.line.log.sent + e.line.queue <= Run(e, more).line.log.sent)
      {
        DeadLinesSubmitNothing(e, more);
      }
    }
  }

  /** Such an event strands the line: it stays busy whatever happens, and what is queued is never sent. */
  lemma CancelledLineIsStuck(p: Packet, run: seq<Event>)
    requires |p| <= 8
    requires Legal(Stranded(p), run)
    ensures Run(Stranded(p), run).line.busy && Run(Stranded(p), run).line.log.sent == [p]
  {
    WriteKeepsInv(Initial(false).line, p, 0);
    DeadLinesSubmitNothing(Stranded(p), run);
  }

  /** A packet was sent, and a cancel found no transfer. */
  function Stranded(p: Packet): Engine {
    Step(Step(Initial(false), Write(p, 0)), CancelOut(-5, false))
  }

  // ---- which command an acknowledgement is credited to ----

  /** The command an ACK heard now is credited to: the last one submitted, by its number. */
  function CreditedTo(l: Line): nat { |l.log.sent| }

  /** Everything but an ACK, a cancel or a free of the OUT transfer, and with submissions that work. */
  predicate Unanswered(ev: Event) {
    match ev
    case Write(_, rc) => rc >= 0
    case OutDone(_, rc) => rc >= 0
    case InDone(status, data, _, _) => status != Completed || !IsAck(data)
    case PollExpired(rc) => rc >= 0
    case CancelOut(_, _) => false
    case FreeOut => false
    case _ => true
  }

  /** The second event releases the next packet because of the first: a time-out and the completion, in either order. */
  predicate ReleasesAfter(first: Event, second: Event) {
    || (first.PollExpired? && second.OutDone? && second.status == Completed)
    || (first.OutDone? && second.PollExpired?)
  }

  ghost predicate ReleasesNext(run: seq<Event>) { exists i, j | 0 <= i < j < |run| :: ReleasesAfter(run[i], run[j]) }

  /** The same, event by event, when the transfer may have returned or a time-out have come before. */
  predicate Releases(returned: bool, late: bool, run: seq<Event>)
    decreases |run|
  {
    run != [] && (ReleasesNow(returned, late, run[0])
                  || Releases(returned || run[0].OutDone?, late || run[0].PollExpired?, run[1..]))
  }

  predicate ReleasesNow(returned: bool, late: bool, ev: Event) {
    (late && ev.OutDone? && ev.status == Completed) || (returned && ev.PollExpired?)
  }

  lemma {:induction false} ReleasesMeans(returned: bool, late: bool, run: seq<Event>)
    ensures Releases(returned, late, run)
       <==> ReleasesNext(run) || exists j | 0 <= j < |run| :: ReleasesNow(returned, late, run[j])
    decreases |run|
  {
    if run != [] {
      var ev, rest := run[0], run[1..];
      ReleasesMeans(returned || ev.OutDone?, late || ev.PollExpired?, rest);
      if i, j :| 0 <= i < j < |run| && ReleasesAfter(run[i], run[j]) {
        if i == 0 { assert ReleasesNow(returned || ev.OutDone?, late || ev.PollExpired?, rest[j - 1]); }
        else { assert ReleasesAfter(rest[i - 1], rest[j - 1]); }
      }
      if j :| 0 <= j < |run| && ReleasesNow(returned, late, run[j]) {
        if j > 0 { assert ReleasesNow(returned || ev.OutDone?, late || ev.PollExpired?, rest[j - 1]); }
      }
      if j :| 0 <= j < |rest| && ReleasesNow(returned || ev.OutDone?, late || ev.PollExpired?, rest[j]) {
        assert ReleasesNow(returned, late, run[j + 1]) || ReleasesAfter(run[0], run[j + 1]);
      }
      if i, j :| 0 <= i < j < |rest| && ReleasesAfter(rest[i], rest[j]) {
        assert ReleasesAfter(run[i + 1], run[j + 1]);
      }
    }
  }

  /** A command on a CM15A with no ACK for it so far. */
  ghost predicate Unacknowledged(e: Engine) {
    Inv(e) && !e.line.cm19a && e.line.busy && !e.line.ack && e.line.out.held
  }

  ghost predicate Idle(e: Engine) { Inv(e) && !e.line.busy && e.line.out.held }

  predicate Brings(ev: Event) { ev.Write? && |ev.p| <= 8 }

  lemma MaybeFinishReleases(l: Line, rc: int)
    requires QueueInv(l) && BusyInv(l) && TransferInv(l) && rc >= 0
    requires !l.cm19a && l.busy && l.out.held && !l.ack
    ensures var m := MaybeFinish(l, rc);
            if !(l.completed && l.timedOut) then m == l
            else if l.queue != [] then |m.log.sent| == |l.log.sent| + 1
            else !m.busy && m.out.held && m.log.sent == l.log.sent
  {
    QueueFits(l);
  }

  lemma UnacknowledgedStep(e: Engine, ev: Event)
    requires Unacknowledged(e) && Enabled(e, ev) && Unanswered(ev)
    ensures var l, f := e.line, Step(e, ev);
            if !ReleasesNow(l.completed, l.timedOut, ev) then
              && Unacknowledged(f) && f.line.log.sent == l.log.sent
              && f.line.completed == (l.completed || ev.OutDone?)
              && f.line.timedOut == (l.timedOut || ev.PollExpired?)
              && (f.line.queue != [] <==> l.queue != [] || Brings(ev))
            else if l.queue != [] then |f.line.log.sent| > |l.log.sent|
            else Idle(f) && f.line.log.sent == l.log.sent
  {
    hide MaybeFinish;
    StepKeepsInv(e, ev);
    match ev
    case OutDone(status, rc) => MaybeFinishReleases(Returned(e.line), rc);
    case PollExpired(rc) => MaybeFinishReleases(Expired(e.line), rc);
    case _ =>
  }

  lemma IdleStep(e: Engine, ev: Event)
    requires Idle(e) && Enabled(e, ev) && Unanswered(ev)
    ensures var f := Step(e, ev);
            if Brings(ev) then |f.line.log.sent| > |e.line.log.sent|
            else Idle(f) && f.line.log.sent == e.line.log.sent
  {
    StepKeepsInv(e, ev);
  }

  lemma {:induction false} SentOnlyGrows(e: Engine, run: seq<Event>)
    requires Inv(e) && Legal(e, run)
    ensures |e.line.log.sent| <= |Run(e, run).line.log.sent|
    decreases |run|
  {
    hide Step;
    if run != [] {
      StepFrame(e, run[0]);
      StepKeepsInv(e, run[0]);
      SentOnlyGrows(Step(e, run[0]), run[1..]);
    }
  }

  lemma {:induction false} IdleRun(e: Engine, run: seq<Event>)
    requires Idle(e) && Legal(e, run) && forall ev | ev in run :: Unanswered(ev)
    ensures CreditedTo(Run(e, run).line) == CreditedTo(e.line) <==> !exists ev | ev in run :: Brings(ev)
    decreases |run|
  {
    hide Step, Unanswered, Inv, Enabled, Brings;
    if run != [] {
      assert run[0] in run && run == [run[0]] + run[1..];
      IdleStep(e, run[0]);
      if Brings(run[0]) {
        StepKeepsInv(e, run[0]);
        SentOnlyGrows(Step(e, run[0]), run[1..]);
      } else {
        IdleRun(Step(e, run[0]), run[1..]);
      }
    }
  }

  lemma {:induction false} UnacknowledgedRun(e: Engine, run: seq<Event>)
    requires Unacknowledged(e) && Legal(e, run) && forall ev | ev in run :: Unanswered(ev)
    ensures CreditedTo(Run(e, run).line) == CreditedTo(e.line)
       <==> !(Releases(e.line.completed, e.line.timedOut, run)
              && (e.line.queue != [] || exists ev | ev in run :: Brings(ev)))
    decreases |run|
  {
    hide Step, ReleasesNow, Unanswered, Inv, Enabled, Brings;
    if run != [] {
      assert run[0] in run && run == [run[0]] + run[1..];
      UnacknowledgedStep(e, run[0]);
      if !ReleasesNow(e.line.completed, e.line.timedOut, run[0]) {
        UnacknowledgedRun(Step(e, run[0]), run[1..]);
      } else if e.line.queue != [] {
        StepKeepsInv(e, run[0]);
        SentOnlyGrows(Step(e, run[0]), run[1..]);
      } else {
        WritesReleaseNothing(e.line.completed, e.line.timedOut, run[0]);
        IdleRun(Step(e, run[0]), run[1..]);
      }
    }
  }

  lemma WritesReleaseNothing(returned: bool, late: bool, ev: Event)
    ensures Brings(ev) ==> !ReleasesNow(returned, late, ev)
  {
  }

  lemma {:induction false} DeadRunsHaveNoCallback(e: Engine, run: seq<Event>)
    requires Inv(e) && !Live(e.line) && !e.line.completed && Legal(e, run)
    ensures forall ev | ev in run :: !ev.OutDone?
    decreases |run|
  {
    hide Step;
    if run != [] {
      StepKeepsInv(e, run[0]);
      StepStaysDead(e, run[0]);
      DeadStaysIncomplete(e, run[0]);
      DeadRunsHaveNoCallback(Step(e, run[0]), run[1..]);
    }
  }

  lemma DeadStaysIncomplete(e: Engine, ev: Event)
    requires Inv(e) && !Live(e.line) && !e.line.completed && Enabled(e, ev)
    ensures !Step(e, ev).line.completed
  {
    hide MaybeFinish;
    match ev
    case InDone(status, data, rc, resubmit) => DeadMaybeFinish(Acked(e.line), rc);
    case PollExpired(rc) => DeadMaybeFinish(Expired(e.line), rc);
    case _ =>
  }

  /**
   From the moment a command was submitted on a CM15A: an ACK that comes after a run without ACKs is
   credited to that command if and only if the run does not hold both what releases a waiting packet, a
   time-out and the completion of the transfer, and a packet to release, waiting at first or written later.
   A packet is released whether it was written before the line fell idle or after.
   */
  lemma AckIsCreditedExactlyWhen(e: Engine, run: seq<Event>)
    requires Inv(e) && !e.line.cm19a && JustSent(e.line)
    requires Legal(e, run) && forall ev | ev in run :: Unanswered(ev)
    ensures CreditedTo(Run(e, run).line) == CreditedTo(e.line)
       <==> !(ReleasesNext(run) && (e.line.queue != [] || exists w | w in run :: w.Write? && |w.p| <= 8))
  {
    hide ReleasesNow, Unanswered;
    ReleasesMeans(false, false, run);
    if e.line.out.held {
      NothingReleasesAtOnce(run);
      UnacknowledgedRun(e, run);
      assert forall w | w in run :: Brings(w) <==> w.Write? && |w.p| <= 8;
    } else {
      DeadLinesSubmitNothing(e, run);
      DeadRunsHaveNoCallback(e, run);
      assert forall i | 0 <= i < |run| :: run[i] in run;
    }
  }

  lemma NothingReleasesAtOnce(run: seq<Event>)
    ensures forall j | 0 <= j < |run| :: !ReleasesNow(false, false, run[j])
  {
  }

  /** When transfers only ever complete, that is: not both a completion and a time-out, in whichever order. */
  lemma EitherOrderReleases(run: seq<Event>)
    requires forall ev | ev in run && ev.OutDone? :: ev.status == Completed
    ensures ReleasesNext(run) <==> (exists ev | ev in run :: ev.OutDone?) && (exists ev | ev in run :: ev.PollExpired?)
  {
    if a, b :| a in run && b in run && a.OutDone? && b.PollExpired? {
      var i, j :| 0 <= i < |run| && 0 <= j < |run| && run[i] == a && run[j] == b;
      assert i < j ==> ReleasesAfter(run[i], run[j]);
      assert j < i ==> ReleasesAfter(run[j], run[i]);
    }
    if i, j :| 0 <= i < j < |run| && ReleasesAfter(run[i], run[j]) {
      assert run[i] in run && run[j] in run;
    }
  }

  /** It can fail: after a time-out released the second packet, a late ACK of the first releases the third. */
  lemma LateAckIsCreditedToTheNextCommand(a: Packet, b: Packet, c: Packet)
    requires |a| <= 8 && |b| <= 8 && |c| <= 8
    ensures var queued := Step(Step(Step(Initial(false), Write(a, 0)), Write(b, 0)), Write(c, 0));
            var timedOut := Step(Step(queued, OutDone(Completed, 0)), PollExpired(0));
            var lateAck := InDone(Completed, [0x55], 0, 0);
            && timedOut.line.log.sent == [a, b] && timedOut.line.log.acks == 0
            && Enabled(timedOut, lateAck)
            && Step(Step(timedOut, lateAck), OutDone(Completed, 0)).line.log.sent == [a, b, c]
  {
  }

  /** Nor need anything have been waiting: a late ACK of a command the line fell idle after releases a later packet. */
  lemma LateAckAfterIdleReleasesThePacketBehind(a: Packet, b: Packet, c: Packet)
    requires |a| <= 8 && |b| <= 8 && |c| <= 8
    ensures var sent := Step(Initial(false), Write(a, 0));
            var idle := Step(Step(sent, OutDone(Completed, 0)), PollExpired(0));
            var queued := Step(Step(idle, Write(b, 0)), Write(c, 0));
            var lateAck := InDone(Completed, [0x55], 0, 0);
            && JustSent(sent.line) && sent.line.queue == [] && !idle.line.busy
            && queued.line.log.sent == [a, b] && queued.line.log.acks == 0
            && Enabled(queued, lateAck)
            && Step(Step(queued, lateAck), OutDone(Completed, 0)).line.log.sent == [a, b, c]
  {
  }
}
