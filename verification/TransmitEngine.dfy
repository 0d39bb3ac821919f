/**
 The transmit path as the daemon keeps it: the 256-slot ring of src/usb/x10_write.c and the
 transfer flags of src/core/mochad.c.  Every method does on the ring and flags what its
 namesake in TransmitSpec does on the abstract queue.
 */
module TransmitEngine {
  import opened Bytes
  import opened TransmitSpec

  const RING_SLOTS := 256

  /** One ring slot: the 8-byte record buffer and how much of it is in use. */
  datatype OutRecord = OutRecord(len: nat, data: seq<byte>) {
    predicate Fits() { |data| == MAX_PACKET && len <= MAX_PACKET }
    function Packet(): seq<byte> requires Fits() { data[..len] }
  }

  predicate RingFits(recs: seq<OutRecord>, head: int, tail: int) {
    && |recs| == RING_SLOTS && 0 <= head < RING_SLOTS && 0 <= tail < RING_SLOTS
    && forall i | 0 <= i < RING_SLOTS :: recs[i].Fits()
  }

  function NextIndex(i: int): int { (i + 1) % RING_SLOTS }

  /** The slot of the i-th oldest queued packet. */
  function Slot(head: int, i: int): int {
    if head + 1 + i < RING_SLOTS then head + 1 + i else head + 1 + i - RING_SLOTS
  }

  function Queued(head: int, tail: int): int { if tail >= head then tail - head else tail - head + RING_SLOTS }

  /** The packets in slots head+1 .. tail, modulo the ring size. */
  function RingPackets(recs: seq<OutRecord>, head: int, tail: int): (q: seq<Packet>)
    requires RingFits(recs, head, tail)
    ensures |q| == Queued(head, tail)
  {
    seq(Queued(head, tail), i requires 0 <= i < Queued(head, tail) => recs[Slot(head, i)].Packet())
  }

  ghost predicate RingHolds(recs: seq<OutRecord>, head: int, tail: int, queue: seq<Packet>) {
    RingFits(recs, head, tail) && RingPackets(recs, head, tail) == queue
  }

  /** The ring is empty when the indices meet and full when the tail is just behind the head. */
  lemma RingLimits(recs: seq<OutRecord>, head: int, tail: int, queue: seq<Packet>)
    requires RingHolds(recs, head, tail, queue)
    ensures queue == [] <==> head == tail
    ensures |queue| <= 255
    ensures |queue| == 255 <==> NextIndex(tail) == head
  {
  }

  lemma RingPush(recs: seq<OutRecord>, head: int, tail: int, queue: seq<Packet>, rec: OutRecord)
    requires RingHolds(recs, head, tail, queue) && rec.Fits() && NextIndex(tail) != head
    ensures RingHolds(recs[NextIndex(tail) := rec], head, NextIndex(tail), queue + [rec.Packet()])
  {
    var n := Queued(head, tail);
    assert Queued(head, NextIndex(tail)) == n + 1;
    assert Slot(head, n) == NextIndex(tail);
    assert forall i | 0 <= i < n :: Slot(head, i) != NextIndex(tail);
  }

  lemma RingPop(recs: seq<OutRecord>, head: int, tail: int, queue: seq<Packet>)
    requires RingHolds(recs, head, tail, queue) && head != tail
    ensures queue != [] && queue[0] == recs[NextIndex(head)].Packet()
    ensures RingHolds(recs, NextIndex(head), tail, queue[1..])
  {
    var n := Queued(head, tail);
    assert Queued(NextIndex(head), tail) == n - 1;
    assert forall i | 0 <= i < n - 1 :: Slot(NextIndex(head), i) == Slot(head, i + 1);
  }

  /** Outrecs, Outhead and Outtail, and what add_x10out and send_next_x10out do to them. */
  class PacketRing {
    const outrecs: array<OutRecord>
    var outhead: int
    var outtail: int
    ghost var contents: seq<Packet>

    ghost predicate Valid()
      reads this, outrecs
    {
      outrecs.Length == RING_SLOTS && RingHolds(outrecs[..], outhead, outtail, contents)
    }

    constructor ()
      ensures Valid() && contents == [] && fresh(outrecs)
    {
      outrecs := new OutRecord[RING_SLOTS](_ => OutRecord(0, [0, 0, 0, 0, 0, 0, 0, 0]));
      outhead, outtail, contents := 0, 0, [];
    }

    predicate IsEmpty()
      requires Valid()
      reads this, outrecs
      ensures IsEmpty() <==> contents == []
    {
      RingLimits(outrecs[..], outhead, outtail, contents);
      outhead == outtail
    }

    method Add(buf: seq<byte>) returns (r: int)
      requires Valid()
      modifies this, outrecs
      ensures Valid()
      ensures (r < 0 <==> |buf| > 8 || |old(contents)| == 255) && (r < 0 ==> r == -1)
      ensures if r < 0 then contents == old(contents) else r == |buf| && contents == old(contents) + [buf]
    {
      if |buf| > MAX_PACKET { return -1; }
      var nxt := NextIndex(outtail);
      RingLimits(outrecs[..], outhead, outtail, contents);
      if nxt == outhead { return -1; }
      var rec := OutRecord(|buf|, Overlay(outrecs[nxt].data, buf));
      RingPush(outrecs[..], outhead, outtail, contents, rec);
      ghost var before := outrecs[..];
      outrecs[nxt] := rec;
      assert outrecs[..] == before[nxt := rec];
      outtail, contents := nxt, contents + [buf];
      return |buf|;
    }

    /** The record after the head, which stays queued until it is on the wire. */
    method Next() returns (p: Packet)
      requires Valid() && contents != []
      ensures p == contents[0]
    {
      RingLimits(outrecs[..], outhead, outtail, contents);
      RingPop(outrecs[..], outhead, outtail, contents);
      p := outrecs[NextIndex(outhead)].Packet();
    }

    method Advance()
      requires Valid() && contents != []
      modifies `outhead, `contents
      ensures Valid() && contents == old(contents)[1..]
    {
      RingLimits(outrecs[..], outhead, outtail, contents);
      RingPop(outrecs[..], outhead, outtail, contents);
      outhead, contents := NextIndex(outhead), contents[1..];
    }
  }

  lemma NoWrites(l: Line)
    ensures WriteAll(l, []) == l
  {
  }

  lemma WriteRefused(l: Line, p: Packet, rc: int)
    ensures !l.out.held ==> WriteUsb(l, p, rc) == (l, -ENODEV)
    ensures l.out.held && l.out.Active() ==> WriteUsb(l, p, rc) == (l.(log := l.log.(refusedBusy := true)), -EBUSY)
    ensures l.out.held && !l.out.Active() && |p| > MAX_PACKET ==> WriteUsb(l, p, rc) == (l, -EINVAL)
  {
  }

  lemma WriteTried(l: Line, p: Packet, rc: int)
    requires l.out.held && !l.out.Active() && |p| <= MAX_PACKET
    ensures var filled := l.(buffer := p, completed := false, ack := false, timedOut := false);
            WriteUsb(l, p, rc)
            == if rc < 0 then (filled.(completed := true), rc)
               else (filled.(out := l.out.Submit(), log := l.log.(sent := l.log.sent + [p])), 0)
  {
  }

  lemma OutputReturns(e: Engine, status: Status, rc: int)
    ensures OutCallback(e, status, rc)
         == match status
            case Completed => e.(line := MaybeFinish(Returned(e.line), rc))
            case Cancelled => e.(line := Returned(e.line))
            case Failed => e.(line := Returned(e.line), exiting := true)
  {
    hide MaybeFinish;
  }

  class TransmitEngine {
    const cm19a: bool

    // src/usb/x10_write.c
    const ring: PacketRing
    var outbusy: bool
    var pollTimeOut: int

    // src/core/mochad.c
    var intrOutBuf: seq<byte> // the bytes of IntrOutBuf that the transfer's length covers
    var out: Transfer         // IntrOut_submitted, IntrOut_canceling and what libusb knows
    var inp: Transfer
    var outCompleted: bool
    var ackReceived: bool
    var ackTimedOut: bool
    var doExit: bool

    // what has been seen from outside
    ghost var log: Log

    ghost predicate Valid()
      reads this, ring, ring.outrecs
    {
      ring.Valid()
    }

    ghost function AbsLine(): Line
      reads this, ring
    {
      Line(cm19a, outbusy, pollTimeOut, ring.contents, out, outCompleted, ackReceived, ackTimedOut, intrOutBuf, log)
    }

    ghost function Abs(): Engine
      reads this, ring
    {
      Engine(AbsLine(), inp, doExit)
    }

    /** The state once transfers are allocated and the input transfer is running. */
    constructor (cm19a: bool)
      ensures Valid() && Abs() == Initial(cm19a)
      ensures fresh(ring) && fresh(ring.outrecs)
    {
      this.cm19a := cm19a;
      ring := new PacketRing();
      outbusy, pollTimeOut := false, POLL_FOREVER;
      intrOutBuf := [];
      out, outCompleted := Transfer(true, false, false, false, false), true;
      inp := Transfer(true, true, false, true, false);
      ackReceived, ackTimedOut, doExit := false, false, false;
      log := Log([], [], 0, 0, 0, false);
    }

    method WriteUsb(buf: seq<byte>, rc: int) returns (r: int)
      requires Valid()
      modifies `intrOutBuf, `out, `outCompleted, `ackReceived, `ackTimedOut, `log
      ensures Valid() && (AbsLine(), r) == TransmitSpec.WriteUsb(old(AbsLine()), buf, rc)
    {
      hide PacketRing.Valid, TransmitSpec.WriteUsb;
      ghost var l := AbsLine();
      WriteRefused(l, buf, rc);
      if !out.held { return -ENODEV; }
      if out.submitted || out.canceling {
        log := log.(refusedBusy := true);
        return -EBUSY;
      }
      if |buf| > MAX_PACKET { return -EINVAL; }
      WriteTried(l, buf, rc);
      intrOutBuf := buf;
      outCompleted, ackReceived, ackTimedOut := false, false, false;
      ghost var filled := AbsLine();
      assert filled == l.(buffer := buf, completed := false, ack := false, timedOut := false);
      if rc < 0 {
        outCompleted := true;
        assert AbsLine() == filled.(completed := true);
        return rc;
      }
      out := out.(submitted := true, canceling := false, pending := true);
      log := log.(sent := log.sent + [buf]);
      assert AbsLine() == filled.(out := l.out.Submit(), log := l.log.(sent := l.log.sent + [buf]));
      return 0;
    }

    method SendNextX10Out(rc: int) returns (r: int)
      requires Valid()
      modifies `intrOutBuf, `out, `outCompleted, `ackReceived, `ackTimedOut, `log,
               `outbusy, `pollTimeOut, ring`outhead, ring`contents
      ensures Valid() && AbsLine() == TransmitSpec.SendNext(old(AbsLine()), rc)
    {
      if outbusy {
        if ring.IsEmpty() {
          outbusy := false;
          pollTimeOut := POLL_FOREVER;
        } else {
          var next := ring.Next();
          r := WriteUsb(next, rc);
          if r < 0 {
            pollTimeOut := ACK_WAIT_MS;
            return;
          }
          ring.Advance();
        }
      }
      return 0;
    }

    method X10Write(buf: seq<byte>, rc: int) returns (r: int)
      requires Valid()
      modifies ring, ring.outrecs, `intrOutBuf, `out, `outCompleted, `ackReceived, `ackTimedOut, `log,
               `outbusy, `pollTimeOut
      ensures Valid() && (AbsLine(), r) == TransmitSpec.X10Write(old(AbsLine()), buf, rc)
    {
      if |buf| > MAX_PACKET { return -1; }
      ghost var l := AbsLine();
      if outbusy {
        r := ring.Add(buf);
        if r >= 0 { log := log.(accepted := log.accepted + [buf]); }
        return;
      }
      outbusy := true;
      assert AbsLine() == l.(busy := true);
      r := WriteUsb(buf, rc);
      ghost var written := AbsLine();
      assert (written, r) == TransmitSpec.WriteUsb(l.(busy := true), buf, rc);
      if r < 0 {
        outbusy := false;
        pollTimeOut := POLL_FOREVER;
        assert AbsLine() == written.(busy := false, pollTimeout := POLL_FOREVER);
        return;
      }
      pollTimeOut := ACK_WAIT_MS;
      log := log.(accepted := log.accepted + [buf]);
      return |buf|;
    }

    method MaybeFinishX10Transmit(rc: int)
      requires Valid()
      modifies `intrOutBuf, `out, `outCompleted, `ackReceived, `ackTimedOut, `log,
               `outbusy, `pollTimeOut, ring`outhead, ring`contents
      ensures Valid() && AbsLine() == TransmitSpec.MaybeFinish(old(AbsLine()), rc)
    {
      if !outCompleted { return; }
      if cm19a {
        ackReceived, ackTimedOut := false, false;
        var _ := SendNextX10Out(rc);
        return;
      }
      if !ackReceived && !ackTimedOut { return; }
      ackReceived, ackTimedOut := false, false;
      var _ := SendNextX10Out(rc);
    }

    method IntrOutCb(status: Status, rc: int)
      requires Valid() && out.pending && out.held
      modifies ring, `doExit, `intrOutBuf, `out, `outCompleted, `ackReceived, `ackTimedOut, `log,
               `outbusy, `pollTimeOut
      ensures Valid() && Abs() == OutCallback(old(Abs()), status, rc)
    {
      hide MaybeFinish, PacketRing.Valid, OutCallback;
      ghost var l := AbsLine();
      OutputReturns(Abs(), status, rc);
      log := log.(callbacks := log.callbacks + 1);
      out := out.Callback();
      if status == Completed {
        outCompleted := true;
        assert AbsLine() == Returned(l);
        MaybeFinishX10Transmit(rc);
        assert AbsLine() == MaybeFinish(Returned(l), rc);
        return;
      }
      if status == Cancelled {
        outCompleted := true;
        assert AbsLine() == Returned(l);
        return;
      }
      outCompleted := true;
      doExit := true;
      assert AbsLine() == Returned(l);
    }

    /** The one-byte case of the input callback: an ACK may release the next packet. */
    method HearInput(data: seq<byte>, rc: int)
      requires Valid()
      modifies ring, `intrOutBuf, `out, `outCompleted, `ackReceived, `ackTimedOut, `log,
               `outbusy, `pollTimeOut
      ensures Valid()
      ensures AbsLine() == if data == [0x55] then MaybeFinish(Acked(old(AbsLine())), rc) else old(AbsLine())
    {
      if |data| == 1 && data[0] == ACK_BYTE {
        ackReceived := true;
        log := log.(acks := log.acks + 1);
        MaybeFinishX10Transmit(rc);
      }
    }

    /** The writes that decoding a received packet makes. */
    method PerformWrites(writes: seq<Event>)
      requires Valid() && AllWrites(writes)
      modifies ring, ring.outrecs, `intrOutBuf, `out, `outCompleted, `ackReceived, `ackTimedOut, `log,
               `outbusy, `pollTimeOut
      ensures Valid() && AbsLine() == WriteAll(old(AbsLine()), writes)
      decreases |writes|
    {
      if writes == [] { return; }
      assert writes[0] in writes && forall w | w in writes[1..] :: w in writes;
      var _ := X10Write(writes[0].p, writes[0].rc);
      PerformWrites(writes[1..]);
    }

    /**
     The input callback.  `writes` are the writes of cm15a_decode, which runs after the acknowledgement is
     heard and before the daemon looks whether it is exiting; shorter packets are not decoded.
     */
    method IntrInCb(status: Status, data: seq<byte>, rc: int, writes: seq<Event>, resubmit: int)
      requires Valid() && inp.pending && inp.held && AllWrites(writes)
      requires status != Completed || |data| < 4 ==> writes == []
      modifies ring, ring.outrecs, `inp, `doExit, `intrOutBuf, `out, `outCompleted, `ackReceived, `ackTimedOut, `log,
               `outbusy, `pollTimeOut
      ensures Valid() && Abs() == Run(InCallback(old(Abs()), status, data, rc, resubmit), writes)
      ensures status == Completed && data != [0x55] ==> AbsLine() == WriteAll(old(AbsLine()), writes)
    {
      hide WriteAll, MaybeFinish, Run;
      WritesTouchTheLine(InCallback(Abs(), status, data, rc, resubmit), writes);
      NoWrites(InCallback(Abs(), status, data, rc, resubmit).line);
      inp := inp.Callback();
      if status == Cancelled { return; }
      if status != Completed {
        doExit := true;
        return;
      }
      HearInput(data, rc);
      PerformWrites(writes);
      if doExit { return; }
      if resubmit < 0 {
        doExit := true;
        return;
      }
      inp := inp.(submitted := true, pending := true);
    }

    /** The time-out branch of the poll loop. */
    method PollDeadline(rc: int)
      requires Valid()
      modifies ring, `intrOutBuf, `out, `outCompleted, `ackReceived, `ackTimedOut, `log,
               `outbusy, `pollTimeOut
      ensures Valid() && Abs() == PollTimeout(old(Abs()), rc)
    {
      hide MaybeFinish;
      ghost var l := AbsLine();
      ackTimedOut := true;
      log := log.(timeouts := log.timeouts + 1);
      assert AbsLine() == Expired(l);
      MaybeFinishX10Transmit(rc);
      assert AbsLine() == MaybeFinish(Expired(l), rc);
    }

    method CancelOutput(answer: int, stillOwed: bool)
      requires Valid()
      modifies `out
      ensures Valid() && Abs() == Step(old(Abs()), CancelOut(answer, stillOwed))
    {
      if !out.held || !(out.submitted || out.canceling) { return; }
      if answer == LIBUSB_ERROR_NOT_FOUND {
        out := out.(submitted := false, canceling := false,
                    pending := out.pending && stillOwed, orphaned := out.pending && stillOwed);
        return;
      }
      if answer < 0 { return; }
      out := out.(canceling := true);
    }

    method CancelInput(answer: int, stillOwed: bool)
      requires Valid()
      modifies `inp
      ensures Valid() && Abs() == Step(old(Abs()), CancelIn(answer, stillOwed))
    {
      if !inp.held || !(inp.submitted || inp.canceling) { return; }
      if answer == LIBUSB_ERROR_NOT_FOUND {
        inp := inp.(submitted := false, canceling := false,
                    pending := inp.pending && stillOwed, orphaned := inp.pending && stillOwed);
        return;
      }
      if answer < 0 { return; }
      inp := inp.(canceling := true);
    }

    method FreeTransfers(output: bool)
      requires Valid()
      modifies `out, `inp
      ensures Valid() && Abs() == Step(old(Abs()), if output then FreeOut else FreeIn)
    {
      if output {
        if !out.held || out.submitted || out.canceling { return; }
        out := out.(held := false);
      } else {
        if !inp.held || inp.submitted || inp.canceling { return; }
        inp := inp.(held := false);
      }
    }

    /** Handle events until both transfers are inactive, an error other than an interruption, or the limit. */
    method DrainCancelled(maxEvents: nat, handled: seq<Handled>) returns (r: int)
      requires Valid() && maxEvents <= |handled| && DrainLegal(Abs(), maxEvents, handled)
      modifies this, ring, ring.outrecs
      ensures Valid() && (Abs(), r) == Drain(old(Abs()), maxEvents, handled)
    {
      var i := 0;
      while i < maxEvents && (inp.submitted || inp.canceling || out.submitted || out.canceling)
        invariant 0 <= i <= maxEvents && Valid() && DrainLegal(Abs(), maxEvents - i, handled[i..])
        invariant Drain(Abs(), maxEvents - i, handled[i..]) == Drain(old(Abs()), maxEvents, handled)
      {
        assert handled[i..][0] == handled[i] && handled[i..][1..] == handled[i + 1..];
        PerformAll(handled[i].inside);
        if handled[i].rc == LIBUSB_ERROR_INTERRUPTED {
          i := i + 1;
          continue;
        }
        if handled[i].rc < 0 { return handled[i].rc; }
        i := i + 1;
      }
      if inp.submitted || inp.canceling || out.submitted || out.canceling { return -ETIMEDOUT; }
      return 0;
    }

    /** One turn of the daemon's event loop. */
    method Perform(ev: Event)
      requires Valid() && Enabled(Abs(), ev)
      modifies this, ring, ring.outrecs
      ensures Valid() && Abs() == Step(old(Abs()), ev)
    {
      match ev
      case Write(p, rc) => var _ := X10Write(p, rc);
      case OutDone(status, rc) => IntrOutCb(status, rc);
      case InDone(status, data, rc, resubmit) => IntrInCb(status, data, rc, [], resubmit);
      case PollExpired(rc) => PollDeadline(rc);
      case CancelOut(answer, stillOwed) => CancelOutput(answer, stillOwed);
      case CancelIn(answer, stillOwed) => CancelInput(answer, stillOwed);
      case FreeOut => FreeTransfers(true);
      case FreeIn => FreeTransfers(false);
      case Signal => doExit := true;
    }

    /** Whatever the interleaving, ring and flags stay in step with the abstract queue. */
    method PerformAll(run: seq<Event>)
      requires Valid() && Legal(Abs(), run)
      modifies this, ring, ring.outrecs
      ensures Valid() && Abs() == Run(old(Abs()), run)
    {
      var i := 0;
      while i < |run|
        invariant 0 <= i <= |run| && Valid()
        invariant Legal(Abs(), run[i..]) && Run(Abs(), run[i..]) == Run(old(Abs()), run)
      {
        assert run[i..][1..] == run[i + 1..];
        Perform(run[i]);
        i := i + 1;
      }
    }
  }
}
