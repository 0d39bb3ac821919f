/**
 The output queue of one TCP client as a value: the bytes in its ring, when it stalled, and what it has
 accepted and delivered since the client connected.  OutputQueue computes these functions on the ring.
 */
module QueueSpec {
  import opened Bytes

  const QUEUE_SIZE := 16384
  const WRITE_BUDGET := 65536

  datatype Queue = Queue(
    head: int,
    contents: seq<byte>,
    stalledSince: int,
    enqueued: seq<byte>,   // every byte accepted since the client connected
    delivered: seq<byte>   // every byte the socket took since then
  ) {
    /** Nothing accepted is ever lost or reordered, and only a non-empty queue can be stalled. */
    ghost predicate Sound(): (b: bool)
      ensures b ==> 0 <= head < QUEUE_SIZE
    {
      && 0 <= head < QUEUE_SIZE && |contents| <= QUEUE_SIZE
      && enqueued == delivered + contents
      && (stalledSince != 0 ==> contents != [])
    }
  }

  const EMPTY: Queue := Queue(0, [], 0, [], [])

  /** The position in the ring of the i-th byte after the head. */
  function Slot(head: int, i: int): int { if head + i < QUEUE_SIZE then head + i else head + i - QUEUE_SIZE }

  predicate Fits(q: Queue, src: seq<byte>) { |q.contents| + |src| <= QUEUE_SIZE }

  function Append(q: Queue, src: seq<byte>): Queue {
    q.(contents := q.contents + src, enqueued := q.enqueued + src)
  }

  /** The oldest `n` bytes, or all of them, are delivered. */
  function Consume(q: Queue, n: nat): Queue {
    if n >= |q.contents| then q.(head := 0, contents := [], stalledSince := 0, delivered := q.delivered + q.contents)
    else q.(head := Slot(q.head, n), contents := q.contents[n..], delivered := q.delivered + q.contents[..n])
  }

  function Stall(q: Queue, now: int): Queue { if q.stalledSince == 0 then q.(stalledSince := now) else q }

  /** The longest run of queued bytes that is contiguous in the ring. */
  function Chunk(q: Queue): int { if QUEUE_SIZE - q.head > |q.contents| then |q.contents| else QUEUE_SIZE - q.head }

  // ---- flushing ----

  /** What one call of send answers; Took(0) is a return value of zero. */
  datatype SendAnswer = Took(n: nat) | Interrupted | WouldBlock | Broken

  /** Unfinished means that the loop has used every answer it was given and would call send again. */
  datatype FlushResult = Kept | Disconnected | Unfinished

  /** A flush: the queue it leaves, how it ends, the budget it leaves, and how many answers it reads. */
  datatype Flow = Flow(queue: Queue, result: FlushResult, left: nat, used: nat)

  /** What a send that is offered a chunk within the budget takes. */
  function TakenFrom(q: Queue, left: nat, n: nat): (w: int)
    requires 0 <= q.head < QUEUE_SIZE
    ensures w <= n && w <= left && w <= |q.contents|
    ensures 0 < n && 0 < left && q.contents != [] ==> 0 < w
  {
    var wanted := if Chunk(q) > left then left else Chunk(q);
    if n < wanted then n else wanted
  }

  function Flush(q: Queue, left: nat, now: int, answers: seq<SendAnswer>): Flow
    requires 0 <= q.head < QUEUE_SIZE
    decreases |answers|
  {
    if q.contents == [] || left == 0 then Flow(q, Kept, left, 0)
    else if answers == [] then Flow(q, Unfinished, left, 0)
    else match answers[0]
      case Interrupted => OneMoreUsed(Flush(q, left, now, answers[1..]))
      case WouldBlock => Flow(Stall(q, now), Kept, left, 1)
      case Broken => Flow(q, Disconnected, left, 1)
      case Took(n) =>
        if n == 0 then Flow(Stall(q, now), Kept, left, 1)
        else
          var w := TakenFrom(q, left, n);
          OneMoreUsed(Flush(Consume(q.(stalledSince := 0), w), left - w, now, answers[1..]))
  }

  function OneMoreUsed(f: Flow): Flow { f.(used := f.used + 1) }

  function InterruptCount(answers: seq<SendAnswer>): nat {
    if answers == [] then 0 else InterruptCount(answers[1..]) + (if answers[0] == Interrupted then 1 else 0)
  }

  lemma ConsumeKeepsSound(q: Queue, n: nat)
    requires q.Sound()
    ensures Consume(q, n).Sound() && Consume(q, n).enqueued == q.enqueued && q.delivered <= Consume(q, n).delivered
    ensures q.stalledSince == 0 ==> Consume(q, n).stalledSince == 0
    ensures |Consume(q, n).delivered| + |Consume(q, n).contents| == |q.delivered| + |q.contents|
    ensures |Consume(q, n).contents| == if n >= |q.contents| then 0 else |q.contents| - n
  {
    if n < |q.contents| { assert q.contents == q.contents[..n] + q.contents[n..]; }
  }

  /** The bytes a flush moved from the queue to the socket. */
  function Moved(q: Queue, f: Flow): int { |q.contents| - |f.queue.contents| }

  /** What a flush promises: order, conservation, and how it ended. */
  ghost predicate FlushesWell(q: Queue, left: nat, now: int, answers: seq<SendAnswer>, f: Flow) {
    && f.queue.Sound() && f.queue.enqueued == q.enqueued && q.delivered <= f.queue.delivered
    && f.left == left - Moved(q, f) && f.used <= |answers|
    && (f.result == Disconnected <==> f.used > 0 && answers[f.used - 1] == Broken)
    && (f.result == Kept ==>
          || f.queue.contents == [] || f.left == 0
          || (f.used > 0 && answers[f.used - 1] in {WouldBlock, Took(0)} && (now != 0 ==> f.queue.stalledSince != 0)))
    && (f.result == Unfinished ==>
          && f.used == |answers| && f.queue.contents != [] && f.left > 0
          && |answers| <= Moved(q, f) + InterruptCount(answers))
    && (if q.stalledSince != 0 && |f.queue.delivered| == |q.delivered| then f.queue.stalledSince == q.stalledSince
        else f.queue.stalledSince in {0, now})
  }

  lemma AfterAnInterruption(q: Queue, left: nat, now: int, answers: seq<SendAnswer>, rest: Flow)
    requires answers != [] && answers[0] == Interrupted && FlushesWell(q, left, now, answers[1..], rest)
    ensures FlushesWell(q, left, now, answers, OneMoreUsed(rest))
  {
    hide Queue.Sound;
  }

  lemma NotStalled(q: Queue)
    requires q.Sound()
    ensures q.(stalledSince := 0).Sound()
  {
  }

  lemma AfterATaking(q: Queue, left: nat, now: int, answers: seq<SendAnswer>, n: nat, rest: Flow)
    requires q.Sound() && q.contents != [] && left > 0 && answers != [] && answers[0] == Took(n) && n > 0
    requires var w := TakenFrom(q, left, n);
             FlushesWell(Consume(q.(stalledSince := 0), w), left - w, now, answers[1..], rest)
    ensures FlushesWell(q, left, now, answers, OneMoreUsed(rest))
  {
    hide Queue.Sound, Consume;
    NotStalled(q);
    ConsumeKeepsSound(q.(stalledSince := 0), TakenFrom(q, left, n));
  }

  /**
   For any socket the bytes go out in order and none is lost; only an error disconnects, only a refusal
   marks a stall and a stall goes on until a byte is taken, and every call of send delivers a byte, is
   interrupted or ends the loop.
   */
  lemma {:induction false} FlushMeans(q: Queue, left: nat, now: int, answers: seq<SendAnswer>)
    requires q.Sound()
    ensures FlushesWell(q, left, now, answers, Flush(q, left, now, answers))
    decreases |answers|
  {
    hide Consume, TakenFrom;
    if q.contents != [] && left > 0 && answers != [] {
      match answers[0]
      case Interrupted =>
        FlushMeans(q, left, now, answers[1..]);
        AfterAnInterruption(q, left, now, answers, Flush(q, left, now, answers[1..]));
      case WouldBlock =>
      case Broken =>
      case Took(n) =>
        if n > 0 {
          var w := TakenFrom(q, left, n);
          var p := q.(stalledSince := 0);
          ConsumeKeepsSound(p, w);
          FlushMeans(Consume(p, w), left - w, now, answers[1..]);
          AfterATaking(q, left, now, answers, n, Flush(Consume(p, w), left - w, now, answers[1..]));
        }
    }
  }

  /** With the daemon's budget for one loop turn the budget never ends a flush: it empties or the socket stops it. */
  lemma BudgetNeverEndsAFlush(q: Queue, now: int, answers: seq<SendAnswer>)
    requires q.Sound()
    ensures var f := Flush(q, 65536, now, answers);
            && f.used <= |answers|
            && (f.result == Kept && f.queue.contents != [] ==>
                  f.used > 0 && answers[f.used - 1] in {WouldBlock, Took(0)})
            && (f.result == Unfinished ==> |answers| < |q.contents| + InterruptCount(answers))
  {
    FlushMeans(q, WRITE_BUDGET, now, answers);
  }

  // ---- one client over time ----

  /** What happens to one client: bytes sent to it, or its socket reported writable. */
  datatype ClientOp = Send(bytes: seq<byte>) | Writable(now: int, answers: seq<SendAnswer>)

  /** The client is disconnected: the bytes do not fit, or the flush reads an error. */
  predicate Disconnects(q: Queue, op: ClientOp)
    requires 0 <= q.head < QUEUE_SIZE
  {
    match op
    case Send(bytes) => |q.contents| + |bytes| > 16384
    case Writable(now, answers) => Flush(q, 65536, now, answers).result == Disconnected
  }

  function BytesOf(op: ClientOp): seq<byte> { if op.Send? then op.bytes else [] }

  /** The queue after an operation. */
  function After(q: Queue, op: ClientOp): Queue
    requires 0 <= q.head < QUEUE_SIZE
  {
    match op
    case Send(bytes) => if Fits(q, bytes) then Append(q, bytes) else q
    case Writable(now, answers) => Flush(q, WRITE_BUDGET, now, answers).queue
  }

  lemma AfterKeepsSound(q: Queue, op: ClientOp)
    requires q.Sound()
    ensures After(q, op).Sound() && q.delivered <= After(q, op).delivered
    ensures After(q, op).enqueued == if Disconnects(q, op) then q.enqueued else q.enqueued + BytesOf(op)
  {
    match op
    case Send(bytes) =>
      if Fits(q, bytes) {
        assert q.delivered + (q.contents + bytes) == q.delivered + q.contents + bytes;
        if bytes == [] { assert q.contents + bytes == q.contents; }
      }
    case Writable(now, answers) =>
      FlushMeans(q, WRITE_BUDGET, now, answers);
      assert q.enqueued + [] == q.enqueued;
  }

  function AfterAll(q: Queue, ops: seq<ClientOp>): (r: Queue)
    requires q.Sound()
    ensures r.Sound()
    decreases |ops|
  {
    if ops == [] then q
    else
      AfterKeepsSound(q, ops[0]);
      AfterAll(After(q, ops[0]), ops[1..])
  }

  /** Everything sent to the client, in order. */
  function SentTo(ops: seq<ClientOp>): seq<byte> {
    if ops == [] then [] else BytesOf(ops[0]) + SentTo(ops[1..])
  }

  /** Operation `i` of a sequence disconnects the client. */
  ghost predicate DisconnectsAt(q: Queue, ops: seq<ClientOp>, i: int)
    requires q.Sound() && 0 <= i < |ops|
  {
    Disconnects(AfterAll(q, ops[..i]), ops[i])
  }

  /** While the client stays connected, what it was sent is what the socket took and what is queued, in order. */
  lemma {:induction false} StreamIsConserved(q: Queue, ops: seq<ClientOp>)
    requires q.Sound() && forall i | 0 <= i < |ops| :: !DisconnectsAt(q, ops, i)
    ensures var r := AfterAll(q, ops);
            q.delivered <= r.delivered && r.delivered + r.contents == q.enqueued + SentTo(ops)
    decreases |ops|
  {
    hide After, Disconnects, BytesOf;
    if ops != [] {
      var p, rest := After(q, ops[0]), ops[1..];
      AfterKeepsSound(q, ops[0]);
      assert !DisconnectsAt(q, ops, 0) && ops[..0] == [];
      forall i | 0 <= i < |rest|
        ensures !DisconnectsAt(p, rest, i)
      {
        assert ops[..i + 1][1..] == rest[..i];
        assert !DisconnectsAt(q, ops, i + 1);
      }
      StreamIsConserved(p, rest);
      assert p.enqueued + SentTo(rest) == q.enqueued + SentTo(ops);
    }
  }

  lemma {:induction false} AfterOneMore(q: Queue, ops: seq<ClientOp>, op: ClientOp)
    requires q.Sound()
    ensures AfterAll(q, ops + [op]) == After(AfterAll(q, ops), op)
    decreases |ops|
  {
    if ops == [] {
      assert ops + [op] == [op] && [op][1..] == [];
    } else {
      AfterKeepsSound(q, ops[0]);
      AfterOneMore(After(q, ops[0]), ops[1..], op);
      assert (ops + [op])[1..] == ops[1..] + [op];
    }
  }

  lemma NothingDoneYet(q: Queue, ops: seq<ClientOp>)
    requires q.Sound()
    ensures AfterAll(q, ops[..0]) == q
  {
  }

  lemma OneMoreDone(q: Queue, ops: seq<ClientOp>, i: nat)
    requires q.Sound() && i < |ops|
    ensures AfterAll(q, ops[..i + 1]) == After(AfterAll(q, ops[..i]), ops[i])
  {
    hide AfterAll, After, Queue.Sound;
    var before, upTo := ops[..i], ops[..i + 1];
    assert upTo == before + [ops[i]];
    AfterOneMore(q, before, ops[i]);
  }

  lemma {:induction false} SentToSplits(ops: seq<ClientOp>, i: nat)
    requires i <= |ops|
    ensures SentTo(ops) == SentTo(ops[..i]) + SentTo(ops[i..])
    decreases i
  {
    if i == 0 {
      assert ops[0..] == ops && ops[..0] == [];
    } else {
      SentToSplits(ops[1..], i - 1);
      assert ops[..i][1..] == ops[1..][..i - 1] && ops[i..] == ops[1..][i - 1..];
      assert ops[..i][0] == ops[0];
    }
  }

  /** Also when operation `i` is the one that disconnects, the socket has a prefix of what was sent. */
  lemma DeliveredIsSent(q: Queue, ops: seq<ClientOp>, i: nat)
    requires q.Sound() && i < |ops| && (forall j | 0 <= j < i :: !DisconnectsAt(q, ops, j)) && DisconnectsAt(q, ops, i)
    ensures q.delivered <= AfterAll(q, ops[..i + 1]).delivered <= q.enqueued + SentTo(ops)
  {
    var p, r := AfterAll(q, ops[..i]), AfterAll(q, ops[..i + 1]);
    OneMoreDone(q, ops, i);
    AfterKeepsSound(p, ops[i]);
    forall j | 0 <= j < i
      ensures !DisconnectsAt(q, ops[..i], j)
    {
      assert ops[..i][..j] == ops[..j] && !DisconnectsAt(q, ops, j);
    }
    StreamIsConserved(q, ops[..i]);
    SentToSplits(ops, i);
    PrefixChain(r.delivered, p.enqueued, q.enqueued, SentTo(ops[..i]), SentTo(ops[i..]));
  }

  lemma PrefixChain(b: seq<byte>, c: seq<byte>, s: seq<byte>, t: seq<byte>, u: seq<byte>)
    requires b <= c == s + t
    ensures b <= s + (t + u)
  {
  }
}
