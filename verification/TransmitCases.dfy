/** What each event does to the line: which bytes acknowledge, what releases a packet, what ends the daemon. */
module TransmitCases {
  import opened TransmitSpec

  // ---- releasing a packet ----

  /** The event lets the next packet go, if there is one: the transfer is back and, on a CM15A, the verdict is in. */
  predicate LetsGo(l: Line, ev: Event) {
    match ev
    case OutDone(status, _) => status == Completed && (l.cm19a || l.ack || l.timedOut)
    case InDone(status, data, _, _) => status == Completed && data == [0x55] && l.completed
    case PollExpired(_) => l.completed
    case _ => false
  }

  function SubmitAnswer(ev: Event): int
    requires ev.OutDone? || ev.InDone? || ev.PollExpired?
  {
    ev.rc
  }

  lemma MaybeFinishReleases(l: Line, rc: int)
    requires QueueInv(l) && BusyInv(l) && TransferInv(l)
    ensures var m, goes := MaybeFinish(l, rc), l.completed && (l.cm19a || l.ack || l.timedOut);
            if goes && l.busy && l.queue != [] && l.out.held && rc >= 0
            then m.log.sent == l.log.sent + [l.queue[0]] && m.queue == l.queue[1..] && m.busy
            else m.log.sent == l.log.sent && m.queue == l.queue && (m.busy <==> l.busy && !(goes && l.queue == []))
  {
    if l.queue != [] { assert l.queue[0] in l.log.accepted by { assert l.log.accepted[|l.log.sent|] == l.queue[0]; } }
  }

  /**
   An event other than a write submits a packet if and only if it lets one go, one is waiting, the transfer
   exists and libusb takes it; then it is the oldest.  With nothing waiting it ends the busy period instead.
   */
  lemma ReleasedExactlyWhen(e: Engine, ev: Event)
    requires Inv(e) && Enabled(e, ev) && !ev.Write?
    ensures var l, m := e.line, Step(e, ev).line;
            if LetsGo(l, ev) && l.busy && l.queue != [] && l.out.held && SubmitAnswer(ev) >= 0
            then m.log.sent == l.log.sent + [l.queue[0]] && m.queue == l.queue[1..] && m.busy
            else && m.log.sent == l.log.sent && m.queue == l.queue
                 && (m.busy <==> l.busy && !(LetsGo(l, ev) && l.queue == []))
  {
    hide MaybeFinish;
    StepKeepsInv(e, ev);
    match ev
    case OutDone(status, rc) => MaybeFinishReleases(Returned(e.line), rc);
    case InDone(status, data, rc, resubmit) =>
      OneByte(data);
      MaybeFinishReleases(Acked(e.line), rc);
    case PollExpired(rc) => MaybeFinishReleases(Expired(e.line), rc);
    case _ =>
  }

  lemma OneByte(data: Packet)
    ensures |data| == 1 && data[0] == 0x55 <==> data == [0x55]
  {
  }

  /**
   Of all that the controller sends, the single byte 0x55 alone is an acknowledgement: anything else leaves the
   line as it was, and that byte is counted and, while the transfer is out, remembered.
   */
  lemma OnlyTheAckByteCounts(e: Engine, data: Packet, rc: int, resubmit: int)
    ensures var l, m := e.line, Step(e, InDone(Completed, data, rc, resubmit)).line;
            && (data != [0x55] ==> m == l)
            && (data == [0x55] ==> m.log.acks == l.log.acks + 1)
            && (data == [0x55] && !l.completed ==> m.ack && m.log.sent == l.log.sent && m.queue == l.queue)
  {
    OneByte(data);
  }

  /** So a power-line packet received while a command waits for its ACK releases nothing. */
  lemma APacketIsNoAck(a: Packet, b: Packet)
    requires |a| <= 8 && |b| <= 8
    ensures var waiting := Step(Step(Step(Initial(false), Write(a, 0)), Write(b, 0)), OutDone(Completed, 0));
            && Step(waiting, InDone(Completed, [0x5a, 0x02, 0x00, 0x66], 0, 0)).line.log.sent == [a]
            && Step(waiting, InDone(Completed, [0x55], 0, 0)).line.log.sent == [a, b]
  {
  }

  // ---- ending ----

  /** A failed transfer of either direction, an input transfer that cannot be submitted again, or a signal. */
  predicate Ends(ev: Event) {
    match ev
    case OutDone(status, _) => status == Failed
    case InDone(status, _, _, resubmit) => status == Failed || (status == Completed && resubmit < 0)
    case Signal => true
    case _ => false
  }

  lemma StepExits(e: Engine, ev: Event)
    ensures Step(e, ev).exiting <==> e.exiting || Ends(ev)
  {
    hide MaybeFinish, X10Write;
  }

  /** The daemon is told to exit exactly when one of these has happened. */
  lemma {:induction false} ExitsExactlyWhen(e: Engine, run: seq<Event>)
    ensures Run(e, run).exiting <==> e.exiting || exists ev | ev in run :: Ends(ev)
    decreases |run|
  {
    hide Step, Ends;
    if run != [] {
      assert run == [run[0]] + run[1..];
      StepExits(e, run[0]);
      ExitsExactlyWhen(Step(e, run[0]), run[1..]);
    }
  }

  predicate LeavesInput(ev: Event) {
    !ev.CancelIn? && !ev.FreeIn? && !(ev.InDone? && ev.status == Cancelled)
  }

  /** Until then, and while nobody cancels or frees it, the input transfer is submitted again after every packet. */
  lemma {:induction false} ListensUntilItExits(e: Engine, run: seq<Event>)
    requires e.inp.submitted && e.inp.pending && Legal(e, run) && forall ev | ev in run :: LeavesInput(ev)
    ensures var f := Run(e, run); !f.exiting ==> f.inp.submitted && f.inp.pending
    decreases |run|
  {
    hide MaybeFinish, X10Write;
    if run != [] {
      assert run[0] in run && forall ev | ev in run[1..] :: ev in run;
      var f := Step(e, run[0]);
      if f.inp.submitted && f.inp.pending {
        ListensUntilItExits(f, run[1..]);
      } else {
        ExitsExactlyWhen(f, run[1..]);
      }
    }
  }

  // ---- cancelling ----

  /**
   A cancel that is answered -5 makes the transfer free to go; after any other answer it can be freed only once its
   callback has come, and a successful cancel is remembered.
   */
  lemma CancelledThenFreed(t: Transfer, rc: int, stillOwed: bool)
    requires t.held && t.Active()
    ensures var c := t.Cancel(rc, stillOwed);
            && (!c.Free().held <==> rc == -5) && !c.Callback().Free().held
            && (c.canceling <==> rc >= 0 || (rc != -5 && t.canceling)) && (rc != -5 ==> c.pending == t.pending)
  {
  }

  // ---- draining ----

  /** Each call counts against the limit; an error other than an interruption ends the drain and is its answer. */
  lemma DrainEndsAtTheFirstError(e: Engine, max: nat, handled: seq<Handled>)
    requires max <= |handled| && (e.inp.Active() || e.line.out.Active())
    ensures max == 0 ==> Drain(e, max, handled) == (e, -110)
    ensures max > 0 && handled[0].rc < 0 && handled[0].rc != -10 ==>
              Drain(e, max, handled) == (Run(e, handled[0].inside), handled[0].rc)
    ensures max > 0 && (handled[0].rc >= 0 || handled[0].rc == -10) ==>
              Drain(e, max, handled) == Drain(Run(e, handled[0].inside), max - 1, handled[1..])
  {
    hide Run;
  }
}
