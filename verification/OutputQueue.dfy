/** The bounded output ring of one TCP client and the loop that flushes it to a socket. */
module OutputQueue {
  import opened Bytes
  import opened QueueSpec

  lemma SlotIsModular(head: int, i: int)
    requires 0 <= head < QUEUE_SIZE && 0 <= i <= QUEUE_SIZE
    ensures (head + i) % QUEUE_SIZE == Slot(head, i)
  {
  }

  ghost predicate RingHolds(data: seq<byte>, head: int, len: int, contents: seq<byte>): (b: bool)
    ensures b ==> |data| == QUEUE_SIZE && 0 <= head < QUEUE_SIZE && 0 <= len <= QUEUE_SIZE && |contents| == len
  {
    && |data| == QUEUE_SIZE && 0 <= head < QUEUE_SIZE && 0 <= len <= QUEUE_SIZE && |contents| == len
    && forall i | 0 <= i < len :: data[Slot(head, i)] == contents[i]
  }

  /** How much of a copy to position `tail` fits before the end of the buffer. */
  function FirstPart(tail: int, n: int): int { if QUEUE_SIZE - tail > n then n else QUEUE_SIZE - tail }

  /** The buffer after the two memcpy calls of an enqueue at position `tail`. */
  function WrapWrite(data: seq<byte>, tail: int, src: seq<byte>): (r: seq<byte>)
    requires |data| == QUEUE_SIZE && 0 <= tail < QUEUE_SIZE && |src| <= QUEUE_SIZE
    ensures |r| == QUEUE_SIZE
  {
    var first := FirstPart(tail, |src|);
    seq(QUEUE_SIZE, k requires 0 <= k < QUEUE_SIZE =>
      if tail <= k < tail + first then src[k - tail]
      else if k < |src| - first then src[first + k]
      else data[k])
  }

  lemma EmptyRing(data: seq<byte>)
    requires |data| == QUEUE_SIZE
    ensures RingHolds(data, 0, 0, [])
  {
  }

  lemma RingAppend(data: seq<byte>, head: int, len: int, contents: seq<byte>, src: seq<byte>)
    requires RingHolds(data, head, len, contents) && len + |src| <= QUEUE_SIZE
    ensures RingHolds(WrapWrite(data, Slot(head, len), src), head, len + |src|, contents + src)
  {
    var tail := Slot(head, len);
    var first := FirstPart(tail, |src|);
    forall i | 0 <= i < len + |src|
      ensures WrapWrite(data, tail, src)[Slot(head, i)] == (contents + src)[i]
    {
      if i < len {
        assert !(tail <= Slot(head, i) < tail + first) && !(Slot(head, i) < |src| - first);
      } else {
        assert Slot(head, i) == if i - len < first then tail + (i - len) else i - len - first;
      }
    }
  }

  lemma RingDrop(data: seq<byte>, head: int, len: int, contents: seq<byte>, n: int)
    requires RingHolds(data, head, len, contents) && 0 <= n <= len
    ensures RingHolds(data, Slot(head, n), len - n, contents[n..])
  {
    forall i | 0 <= i < len - n
      ensures data[Slot(Slot(head, n), i)] == contents[n..][i]
    {
      assert Slot(Slot(head, n), i) == Slot(head, n + i);
    }
  }

  function MoreUsed(f: Flow, n: nat): Flow { f.(used := f.used + n) }

  class ClientOutputQueue {
    const data: array<byte>
    var head: int
    var len: int
    var stalledSince: int
    ghost var contents: seq<byte>
    ghost var enqueued: seq<byte>
    ghost var delivered: seq<byte>

    ghost predicate Valid()
      reads this, data
    {
      data.Length == QUEUE_SIZE && RingHolds(data[..], head, len, contents) && View().Sound()
    }

    /** The queue this ring stands for. */
    ghost function View(): Queue
      reads this
    {
      Queue(head, contents, stalledSince, enqueued, delivered)
    }

    constructor ()
      ensures Valid() && View() == EMPTY && fresh(data)
    {
      data := new byte[QUEUE_SIZE](_ => 0);
      head, len, stalledSince := 0, 0, 0;
      contents, enqueued, delivered := [], [], [];
    }

    /** client_output_init, when a client connects to the slot. */
    method Init()
      requires Valid()
      modifies this
      ensures Valid() && View() == EMPTY
    {
      head, len, stalledSince := 0, 0, 0;
      contents, enqueued, delivered := [], [], [];
    }

    method CopyIn(tail: int, src: seq<byte>)
      requires data.Length == QUEUE_SIZE && 0 <= tail < QUEUE_SIZE && |src| <= QUEUE_SIZE
      modifies data
      ensures data[..] == WrapWrite(old(data[..]), tail, src)
    {
      var first := QUEUE_SIZE - tail;
      if first > |src| { first := |src|; }
      forall i | 0 <= i < first { data[tail + i] := src[i]; }
      if first < |src| {
        forall i | 0 <= i < |src| - first { data[i] := src[first + i]; }
      }
    }

    /** All or nothing: the bytes fit and are queued whole, or the queue does not change at all. */
    method Enqueue(src: seq<byte>) returns (ok: bool)
      requires Valid()
      modifies data, `len, `contents, `enqueued
      ensures Valid() && ok == (|old(contents)| + |src| <= 16384)
      ensures View() == if ok then Append(old(View()), src) else old(View())
    {
      hide RingHolds, WrapWrite, Slot;
      if |src| > QUEUE_SIZE - len { return false; }
      SlotIsModular(head, len);
      RingAppend(data[..], head, len, contents, src);
      CopyIn((head + len) % QUEUE_SIZE, src);
      len := len + |src|;
      contents, enqueued := contents + src, enqueued + src;
      assert enqueued == delivered + contents;
      return true;
    }

    /** The longest run of queued bytes that is contiguous in the ring. */
    method Peek() returns (available: int)
      requires Valid()
      ensures available == Chunk(View()) && 0 <= available <= len && (available == 0 <==> contents == [])
      ensures head + available <= QUEUE_SIZE && data[head..head + available] == contents[..available]
    {
      if len == 0 { return 0; }
      available := QUEUE_SIZE - head;
      if available > len { available := len; }
      assert forall i | 0 <= i < available :: Slot(head, i) == head + i;
    }

    method ConsumeFront(n: nat)
      requires Valid()
      modifies `head, `len, `stalledSince, `contents, `delivered
      ensures Valid() && View() == Consume(old(View()), n)
    {
      hide RingHolds, Slot;
      ghost var k := if n < len then n else len;
      ConsumeKeepsSound(View(), n);
      SlotIsModular(head, k);
      EmptyRing(data[..]);
      RingDrop(data[..], head, len, contents, k);
      assert contents[..|contents|] == contents;
      delivered, contents := delivered + contents[..k], contents[k..];
      if n >= len {
        head, len, stalledSince := 0, 0, 0;
        return;
      }
      head := (head + n) % QUEUE_SIZE;
      len := len - n;
    }

    /** The flush loop against an arbitrary socket; `used` counts the answers it reads. */
    method FlushTo(budget: nat, now: int, answers: seq<SendAnswer>) returns (result: FlushResult, left: nat, used: nat)
      requires Valid()
      modifies `head, `len, `stalledSince, `contents, `delivered
      ensures Valid() && Flow(View(), result, left, used) == Flush(old(View()), budget, now, answers)
    {
      hide RingHolds, Consume;
      left, used := budget, 0;
      while len > 0 && left > 0
        invariant Valid() && 0 <= used <= |answers|
        invariant Flush(old(View()), budget, now, answers) == MoreUsed(Flush(View(), left, now, answers[used..]), used)
        decreases |answers| - used
      {
        if used == |answers| { return Unfinished, left, used; }
        var wanted := Peek();
        if wanted > left { wanted := left; }
        assert answers[used..][0] == answers[used] && answers[used..][1..] == answers[used + 1..];
        used := used + 1;
        match answers[used - 1] {
          case Interrupted =>
          case WouldBlock =>
            if stalledSince == 0 { stalledSince := now; }
            return Kept, left, used;
          case Broken =>
            return Disconnected, left, used;
          case Took(n) =>
            if n == 0 {
              if stalledSince == 0 { stalledSince := now; }
              return Kept, left, used;
            }
            var written := if n < wanted then n else wanted;
            stalledSince := 0;
            ConsumeFront(written);
            left := left - written;
        }
      }
      result := Kept;
    }

    /** One operation, and whether the client survives it. */
    method ServeOne(op: ClientOp) returns (connected: bool)
      requires Valid()
      modifies this, data
      ensures Valid() && View() == After(old(View()), op) && connected == !Disconnects(old(View()), op)
    {
      match op
      case Send(bytes) => connected := Enqueue(bytes);
      case Writable(now, answers) =>
        var result, _, _ := FlushTo(WRITE_BUDGET, now, answers);
        connected := result != Disconnected;
    }

    /**
     Any sequence of sends and writable sockets, up to the first that disconnects the client.  The socket
     always has a prefix of what was sent, in order; while the client stays connected the rest is exactly
     what is queued.
     */
    method Serve(ops: seq<ClientOp>) returns (connected: bool, at: nat)
      requires Valid()
      modifies this, data
      ensures Valid() && at <= |ops| && (connected <==> at == |ops|)
      ensures forall i | 0 <= i < at :: !DisconnectsAt(old(View()), ops, i)
      ensures !connected ==> DisconnectsAt(old(View()), ops, at)
      ensures connected ==> View() == AfterAll(old(View()), ops)
      ensures connected ==> delivered + contents == old(enqueued) + SentTo(ops)
      ensures old(delivered) <= delivered <= old(enqueued) + SentTo(ops)
    {
      hide RingHolds, SentTo, AfterAll, Disconnects, After;
      connected, at := true, 0;
      NothingDoneYet(old(View()), ops);
      while at < |ops|
        invariant 0 <= at <= |ops| && Valid() && connected && View() == AfterAll(old(View()), ops[..at])
        invariant forall i | 0 <= i < at :: !DisconnectsAt(old(View()), ops, i)
      {
        OneMoreDone(old(View()), ops, at);
        connected := ServeOne(ops[at]);
        if !connected {
          DeliveredIsSent(old(View()), ops, at);
          return;
        }
        at := at + 1;
      }
      assert ops[..at] == ops;
      StreamIsConserved(old(View()), ops);
    }
  }
}
