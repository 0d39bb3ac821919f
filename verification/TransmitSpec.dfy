/**
 The transmit path as a state machine over a first-in first-out queue of packets.

 One step is one call the daemon's single thread makes: a client write, a libusb
 callback, a poll time-out, or a shutdown call.  What libusb answers is part of the
 event, so a run quantifies over every behaviour of the controller.  The class
 TransmitEngine implements these steps on the real ring and flags.
 */
module TransmitSpec {
  import opened Bytes

  type Packet = seq<byte>

  const MAX_PACKET := 8
  const QUEUE_CAPACITY := 255
  const ACK_WAIT_MS := 2000
  const POLL_FOREVER := -1
  const ACK_BYTE: byte := 0x55
  const LIBUSB_ERROR_NOT_FOUND := -5
  const ENODEV := 19
  const EBUSY := 16
  const EINVAL := 22
  const ETIMEDOUT := 110
  const LIBUSB_ERROR_INTERRUPTED := -10

  /** One libusb transfer: the daemon's two flags, and what libusb itself knows. */
  datatype Transfer = Transfer(
    held: bool,
    submitted: bool,
    canceling: bool,
    pending: bool,   // libusb still owes a callback
    orphaned: bool   // libusb answered NOT_FOUND to a cancel and yet still owes a callback
  ) {
    predicate Active() { submitted || canceling }

    ghost predicate Sound() {
      && (Active() ==> pending && held)
      && (orphaned <==> pending && !Active())
    }

    function Submit(): Transfer { this.(submitted := true, canceling := false, pending := true) }

    function Callback(): Transfer {
      this.(submitted := false, canceling := false, pending := false, orphaned := false)
    }

    function Cancel(rc: int, stillOwed: bool): Transfer {
      if !held || !Active() then this
      else if rc == LIBUSB_ERROR_NOT_FOUND then
        this.(submitted := false, canceling := false,
              pending := pending && stillOwed, orphaned := pending && stillOwed)
      else if rc < 0 then this
      else this.(canceling := true)
    }

    function Free(): Transfer {
      if !held || Active() then this else this.(held := false)
    }
  }

  datatype Status = Completed | Cancelled | Failed

  /** What the outside world has seen of the line so far. */
  datatype Log = Log(
    accepted: seq<Packet>, // packets x10_write did not refuse
    sent: seq<Packet>,     // packets libusb accepted
    callbacks: nat,        // OUT callbacks of any status
    acks: nat,
    timeouts: nat,
    refusedBusy: bool      // write_usb has answered -EBUSY
  )

  datatype Line = Line(
    cm19a: bool,
    busy: bool,            // Outbusy
    pollTimeout: int,      // PollTimeOut
    queue: seq<Packet>,    // ring contents, oldest first
    out: Transfer,
    completed: bool,       // IntrOut_completed
    ack: bool,             // X10_ack_received
    timedOut: bool,        // X10_ack_timed_out
    buffer: Packet,        // the bytes of IntrOutBuf that the transfer names
    log: Log
  ) {
    predicate HasVerdict() { ack || timedOut }
  }

  datatype Engine = Engine(line: Line, inp: Transfer, exiting: bool)

  function Initial(cm19a: bool): Engine {
    Engine(Line(cm19a, false, POLL_FOREVER, [], Transfer(true, false, false, false, false),
                true, false, false, [], Log([], [], 0, 0, 0, false)),
           Transfer(true, true, false, true, false), false)
  }

  // ---- the daemon's functions ----

  /** The result is the new state and the C return value; `rc` is what libusb_submit_transfer answers. */
  function WriteUsb(l: Line, p: Packet, rc: int): (Line, int) {
    if !l.out.held then (l, -ENODEV)
    else if l.out.Active() then (l.(log := l.log.(refusedBusy := true)), -EBUSY)
    else if |p| > MAX_PACKET then (l, -EINVAL)
    else
      var filled := l.(buffer := p, completed := false, ack := false, timedOut := false);
      if rc < 0 then (filled.(completed := true), rc)
      else (filled.(out := l.out.Submit(), log := l.log.(sent := l.log.sent + [p])), 0)
  }

  function SendNext(l: Line, rc: int): Line {
    if !l.busy then l
    else if l.queue == [] then l.(busy := false, pollTimeout := POLL_FOREVER)
    else
      var (written, r) := WriteUsb(l, l.queue[0], rc);
      if r < 0 then written.(pollTimeout := ACK_WAIT_MS)
      else written.(queue := l.queue[1..])
  }

  function X10Write(l: Line, p: Packet, rc: int): (Line, int) {
    if |p| > MAX_PACKET then (l, -1)
    else if l.busy then
      if |l.queue| == QUEUE_CAPACITY then (l, -1)
      else (l.(queue := l.queue + [p], log := l.log.(accepted := l.log.accepted + [p])), |p|)
    else
      var (written, r) := WriteUsb(l.(busy := true), p, rc);
      if r < 0 then (written.(busy := false, pollTimeout := POLL_FOREVER), r)
      else (written.(pollTimeout := ACK_WAIT_MS, log := written.log.(accepted := l.log.accepted + [p])), |p|)
  }

  function MaybeFinish(l: Line, rc: int): Line {
    if !l.completed then l
    else if !l.cm19a && !l.HasVerdict() then l
    else SendNext(l.(ack := false, timedOut := false), rc)
  }

  /** The flag changes every OUT callback makes, whatever its status. */
  function Returned(l: Line): Line {
    l.(out := l.out.Callback(), completed := true, log := l.log.(callbacks := l.log.callbacks + 1))
  }

  function Acked(l: Line): Line { l.(ack := true, log := l.log.(acks := l.log.acks + 1)) }

  function Expired(l: Line): Line { l.(timedOut := true, log := l.log.(timeouts := l.log.timeouts + 1)) }

  function OutCallback(e: Engine, status: Status, rc: int): Engine {
    var back := Returned(e.line);
    e.(line := if status == Completed then MaybeFinish(back, rc) else back,
       exiting := e.exiting || status == Failed)
  }

  predicate IsAck(data: Packet) { |data| == 1 && data[0] == ACK_BYTE }

  function InCallback(e: Engine, status: Status, data: Packet, rc: int, resubmit: int): Engine {
    var back := e.inp.Callback();
    match status
    case Cancelled => e.(inp := back)
    case Failed => e.(inp := back, exiting := true)
    case Completed =>
      var line := if IsAck(data) then MaybeFinish(Acked(e.line), rc) else e.line;
      if e.exiting then e.(line := line, inp := back)
      else if resubmit < 0 then Engine(line, back, true)
      else e.(line := line, inp := back.(submitted := true, pending := true))
  }

  function PollTimeout(e: Engine, rc: int): Engine {
    e.(line := MaybeFinish(Expired(e.line), rc))
  }

  // ---- runs ----

  datatype Event =
    | Write(p: Packet, rc: int)
    | OutDone(status: Status, rc: int)
    | InDone(status: Status, data: Packet, rc: int, resubmit: int)
    | PollExpired(rc: int)
    | CancelOut(answer: int, stillOwed: bool)
    | CancelIn(answer: int, stillOwed: bool)
    | FreeOut
    | FreeIn
    | Signal

  function Step(e: Engine, ev: Event): Engine {
    match ev
    case Write(p, rc) => e.(line := X10Write(e.line, p, rc).0)
    case OutDone(status, rc) => OutCallback(e, status, rc)
    case InDone(status, data, rc, resubmit) => InCallback(e, status, data, rc, resubmit)
    case PollExpired(rc) => PollTimeout(e, rc)
    case CancelOut(answer, stillOwed) => e.(line := e.line.(out := e.line.out.Cancel(answer, stillOwed)))
    case CancelIn(answer, stillOwed) => e.(inp := e.inp.Cancel(answer, stillOwed))
    case FreeOut => e.(line := e.line.(out := e.line.out.Free()))
    case FreeIn => e.(inp := e.inp.Free())
    case Signal => e.(exiting := true)
  }

  /** libusb runs a callback only for a transfer it still owes one; anything else may happen at any time. */
  predicate Enabled(e: Engine, ev: Event) {
    && (ev.OutDone? ==> e.line.out.pending && e.line.out.held)
    && (ev.InDone? ==> e.inp.pending && e.inp.held)
  }

  predicate Legal(e: Engine, run: seq<Event>)
    decreases |run|
  {
    run == [] || (Enabled(e, run[0]) && Legal(Step(e, run[0]), run[1..]))
  }

  function Run(e: Engine, run: seq<Event>): Engine
    decreases |run|
  {
    if run == [] then e else Run(Step(e, run[0]), run[1..])
  }

  predicate AllWrites(run: seq<Event>) { forall w | w in run :: w.Write? }

  /** The line after a run of writes, which touch nothing else. */
  function WriteAll(l: Line, writes: seq<Event>): Line
    requires AllWrites(writes)
    decreases |writes|
  {
    if writes == [] then l else WriteAll(X10Write(l, writes[0].p, writes[0].rc).0, writes[1..])
  }

  lemma {:induction false} WritesTouchTheLine(e: Engine, writes: seq<Event>)
    requires AllWrites(writes)
    ensures Run(e, writes) == e.(line := WriteAll(e.line, writes))
    decreases |writes|
  {
    if writes != [] {
      assert writes[0] in writes && forall w | w in writes[1..] :: w in writes;
      WritesTouchTheLine(Step(e, writes[0]), writes[1..]);
    }
  }

  // ---- shutdown ----

  /** One call of libusb_handle_events: what happens inside it and what it returns. */
  datatype Handled = Handled(inside: seq<Event>, rc: int)

  predicate AnyActive(e: Engine) { e.inp.Active() || e.line.out.Active() }

  predicate GivesUp(h: Handled) { h.rc < 0 && h.rc != LIBUSB_ERROR_INTERRUPTED }

  /** drain_cancelled_transfers, which handles events at most `max` times while a transfer is active. */
  function Drain(e: Engine, max: nat, handled: seq<Handled>): (Engine, int)
    requires max <= |handled|
    decreases max
  {
    if !AnyActive(e) then (e, 0)
    else if max == 0 then (e, -ETIMEDOUT)
    else
      var after := Run(e, handled[0].inside);
      if GivesUp(handled[0]) then (after, handled[0].rc) else Drain(after, max - 1, handled[1..])
  }

  /** Callbacks, the writes that decoding a received packet makes inside one, and signals. */
  predicate InsideHandling(ev: Event) { ev.OutDone? || ev.InDone? || ev.Write? || ev.Signal? }

  /** Only such events happen, each callback when libusb owes it. */
  predicate DrainLegal(e: Engine, max: nat, handled: seq<Handled>)
    requires max <= |handled|
    decreases max
  {
    AnyActive(e) && max > 0 ==>
      && Legal(e, handled[0].inside) && (forall ev | ev in handled[0].inside :: InsideHandling(ev))
      && (!GivesUp(handled[0]) ==> DrainLegal(Run(e, handled[0].inside), max - 1, handled[1..]))
  }

  // ---- what every reachable state satisfies ----

  ghost predicate QueueInv(l: Line) {
    && l.log.sent + l.queue == l.log.accepted
    && |l.queue| <= QUEUE_CAPACITY
    && forall p | p in l.log.accepted :: |p| <= MAX_PACKET
  }

  ghost predicate BusyInv(l: Line) {
    && (l.busy <==> l.pollTimeout == ACK_WAIT_MS)
    && (!l.busy <==> l.pollTimeout == POLL_FOREVER)
    && (!l.busy ==> l.queue == [] && l.completed)
    && !l.log.refusedBusy
  }

  ghost predicate TransferInv(l: Line) {
    && l.out.Sound()
    && (l.out.pending ==> l.busy && !l.completed && l.log.sent != [] && l.buffer == l.log.sent[|l.log.sent| - 1])
    && |l.log.sent| == l.log.callbacks + (if l.completed then 0 else 1)
  }

  ghost predicate LineInv(l: Line) {
    QueueInv(l) && BusyInv(l) && TransferInv(l) && (!l.busy ==> !l.HasVerdict())
  }

  ghost predicate Inv(e: Engine) { LineInv(e.line) && e.inp.Sound() }

  lemma MaybeFinishKeepsInv(l: Line, rc: int)
    requires QueueInv(l) && BusyInv(l) && TransferInv(l)
    ensures LineInv(MaybeFinish(l, rc))
  {
    if l.busy && l.queue != [] {
      assert l.log.sent + l.queue == (l.log.sent + [l.queue[0]]) + l.queue[1..];
      assert l.queue[0] in l.log.accepted by { assert l.log.accepted[|l.log.sent|] == l.queue[0]; }
    }
  }

  lemma WriteKeepsInv(l: Line, p: Packet, rc: int)
    requires LineInv(l)
    ensures LineInv(X10Write(l, p, rc).0)
  {
    assert l.log.sent + (l.queue + [p]) == l.log.accepted + [p];
    if !l.busy { assert l.log.sent == l.log.accepted; }
  }

  lemma StepKeepsInv(e: Engine, ev: Event)
    requires Inv(e) && Enabled(e, ev)
    ensures Inv(Step(e, ev))
  {
    match ev
    case Write(p, rc) => WriteKeepsInv(e.line, p, rc);
    case OutDone(status, rc) => MaybeFinishKeepsInv(Returned(e.line), rc);
    case InDone(status, data, rc, resubmit) => MaybeFinishKeepsInv(Acked(e.line), rc);
    case PollExpired(rc) => MaybeFinishKeepsInv(Expired(e.line), rc);
    case _ =>
  }
}
