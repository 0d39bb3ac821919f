/** What any mix of table operations does to one client: nothing it is sent is lost while it stays connected. */
module ClientRuns {
  import opened Bytes
  import opened ClientTables
  import opened QueueSpec

  datatype TableOp =
    | Broadcasting(line: seq<byte>)
    | Sending(fd: nat, line: seq<byte>)
    | WritableSocket(fd: nat, now: int, answers: seq<SendAnswer>)
    | CheckingStalls(now: int)
    | Accepting(kind: nat, fd: nat, nonblocking: bool)
    | Deleting(fd: nat)

  /** What an operation makes of a live client of table `k`. */
  function SlotAfter(op: TableOp, k: int, s: Slot): Slot
    requires s.out.Sound()
  {
    match op
    case Broadcasting(line) => if k == OPENREMOTE then s else DeliverToAll(s, FormOf(k, line))
    case Sending(fd, line) => if fd == s.fd then Deliver(s, FormOf(k, line)) else s
    case WritableSocket(fd, now, answers) => if fd == s.fd then FlushSlot(s, now, answers) else s
    case CheckingStalls(now) => if Stalled(s, now) then FREE else s
    case Accepting(_, _, _) => s
    case Deleting(fd) => if fd == s.fd then FREE else s
  }

  /** The bytes an operation addresses to the client. */
  function GivenBy(op: TableOp, k: int, fd: int): seq<byte> {
    match op
    case Broadcasting(line) => if k == OPENREMOTE || fd <= 0 then [] else FormOf(k, line)
    case Sending(to, line) => if to == fd then FormOf(k, line) else []
    case _ => []
  }

  function GivenByAll(ops: seq<TableOp>, k: int, fd: int): seq<byte> {
    if ops == [] then [] else GivenBy(ops[0], k, fd) + GivenByAll(ops[1..], k, fd)
  }

  /** The client is dropped exactly by an overflow, a broken socket, a stall of thirty seconds, or its deletion. */
  lemma DroppedExactlyWhen(op: TableOp, k: int, s: Slot)
    requires s.out.Sound() && s.fd >= 0
    ensures !SlotAfter(op, k, s).Live() <==>
              match op
              case WritableSocket(fd, now, answers) =>
                fd == s.fd && Flush(s.out, 65536, now, answers).result == Disconnected
              case CheckingStalls(now) => Stalled(s, now)
              case Deleting(fd) => fd == s.fd
              case _ => |s.out.contents| + |GivenBy(op, k, s.fd)| > 16384
  {
  }

  lemma StepConserves(op: TableOp, k: int, s: Slot)
    requires s.out.Sound() && s.fd >= 0 && SlotAfter(op, k, s).Live()
    ensures var t := SlotAfter(op, k, s);
            && t.fd == s.fd && t.id == s.id && t.out.Sound() && s.out.delivered <= t.out.delivered
            && t.out.enqueued == s.out.enqueued + GivenBy(op, k, s.fd)
  {
    var given := GivenBy(op, k, s.fd);
    assert s.out.delivered + (s.out.contents + given) == s.out.delivered + s.out.contents + given;
    assert s.out.enqueued + [] == s.out.enqueued;
    if given == [] { assert s.out.contents + given == s.out.contents; }
    if op.WritableSocket? { FlushMeans(s.out, WRITE_BUDGET, op.now, op.answers); }
  }

  /** A socket that takes nothing for thirty seconds costs its client the connection, and not a second earlier. */
  lemma StalledClientIsDropped(k: int, s: Slot, since: int, now: int)
    requires s.out.Sound() && s.fd >= 0 && s.out.contents != [] && s.out.stalledSince == 0 && since != 0
    ensures var blocked := SlotAfter(WritableSocket(s.fd, since, [WouldBlock]), k, s);
            && blocked.out.Sound() && blocked.out.contents == s.out.contents
            && SlotAfter(CheckingStalls(now), k, blocked) == if now - since >= 30 then FREE else blocked
  {
  }

  /** The client is still connected after every one of the operations. */
  predicate Survives(ops: seq<TableOp>, k: int, s: Slot)
    requires s.out.Sound() && s.fd >= 0
    decreases |ops|
  {
    ops == [] || (SlotAfter(ops[0], k, s).Live()
                  && (StepConserves(ops[0], k, s); Survives(ops[1..], k, SlotAfter(ops[0], k, s))))
  }

  function SlotAfterAll(ops: seq<TableOp>, k: int, s: Slot): Slot
    requires s.out.Sound() && s.fd >= 0 && Survives(ops, k, s)
    decreases |ops|
  {
    if ops == [] then s
    else
      StepConserves(ops[0], k, s);
      SlotAfterAll(ops[1..], k, SlotAfter(ops[0], k, s))
  }

  lemma StepKeepsStall(op: TableOp, k: int, s: Slot)
    requires s.out.Sound() && s.fd >= 0 && SlotAfter(op, k, s).Live() && s.out.stalledSince != 0
    requires |SlotAfter(op, k, s).out.delivered| == |s.out.delivered|
    ensures SlotAfter(op, k, s).out.stalledSince == s.out.stalledSince
  {
    if op.WritableSocket? { FlushMeans(s.out, WRITE_BUDGET, op.now, op.answers); }
  }

  /**
   A stall lasts, whatever is sent and however often the socket is tried, until a byte is taken; so a client whose
   socket takes nothing is dropped by the first check thirty seconds or more after the stall began, and by none before.
   */
  lemma {:induction false} StallLastsUntilAByteIsTaken(ops: seq<TableOp>, k: int, s: Slot, now: int)
    requires s.out.Sound() && s.fd >= 0 && Survives(ops, k, s) && s.out.stalledSince != 0
    requires SlotAfterAll(ops, k, s).out.delivered == s.out.delivered
    ensures var t := SlotAfterAll(ops, k, s);
            && t.out.Sound() && t.out.stalledSince == s.out.stalledSince
            && SlotAfter(CheckingStalls(now), k, t) == if now - s.out.stalledSince >= 30 then FREE else t
    decreases |ops|
  {
    hide SlotAfter;
    if ops == [] {
      CheckDropsStalled(k, s, now);
    } else {
      var t := SlotAfter(ops[0], k, s);
      StepConserves(ops[0], k, s);
      ClientStreamIsConserved(ops[1..], k, t);
      StepKeepsStall(ops[0], k, s);
      StallLastsUntilAByteIsTaken(ops[1..], k, t, now);
    }
  }

  lemma CheckDropsStalled(k: int, s: Slot, now: int)
    requires s.out.Sound() && s.Live() && s.out.stalledSince != 0
    ensures SlotAfter(CheckingStalls(now), k, s) == if now - s.out.stalledSince >= 30 then FREE else s
  {
  }

  /** Whatever happens to the tables, a client that stays connected has received or queued exactly what it was sent. */
  lemma {:induction false} ClientStreamIsConserved(ops: seq<TableOp>, k: int, s: Slot)
    requires s.out.Sound() && s.fd >= 0 && Survives(ops, k, s)
    ensures var t := SlotAfterAll(ops, k, s);
            && t.fd == s.fd && t.id == s.id && s.out.delivered <= t.out.delivered
            && t.out.delivered + t.out.contents == s.out.enqueued + GivenByAll(ops, k, s.fd)
    decreases |ops|
  {
    if ops == [] {
      assert s.out.enqueued + [] == s.out.enqueued;
    } else {
      StepConserves(ops[0], k, s);
      ClientStreamIsConserved(ops[1..], k, SlotAfter(ops[0], k, s));
      var e, g, h := s.out.enqueued, GivenBy(ops[0], k, s.fd), GivenByAll(ops[1..], k, s.fd);
      assert (e + g) + h == e + (g + h);
    }
  }

  lemma {:induction false} MoreTableOps(a: seq<TableOp>, b: seq<TableOp>, k: int, s: Slot)
    requires s.out.Sound() && s.fd >= 0 && Survives(a + b, k, s)
    ensures Survives(a, k, s)
    ensures var t := SlotAfterAll(a, k, s);
            && t.fd == s.fd && t.out.Sound() && Survives(b, k, t)
            && SlotAfterAll(a + b, k, s) == SlotAfterAll(b, k, t)
    decreases |a|
  {
    hide SlotAfter;
    if a == [] {
      assert a + b == b;
    } else {
      assert (a + b)[1..] == a[1..] + b;
      StepConserves(a[0], k, s);
      MoreTableOps(a[1..], b, k, SlotAfter(a[0], k, s));
    }
  }

  // ---- lines for everybody ----

  function BroadcastBy(op: TableOp): seq<seq<byte>> { if op.Broadcasting? then [op.line] else [] }

  /** The lines sent to all clients. */
  function Broadcasts(ops: seq<TableOp>): seq<seq<byte>> {
    if ops == [] then [] else BroadcastBy(ops[0]) + Broadcasts(ops[1..])
  }

  function Joined(messages: seq<seq<byte>>): seq<byte> {
    if messages == [] then [] else messages[0] + Joined(messages[1..])
  }

  /** The lines in the form of a client's table. */
  function FormsOf(k: int, lines: seq<seq<byte>>): seq<seq<byte>> {
    seq(|lines|, i requires 0 <= i < |lines| => FormOf(k, lines[i]))
  }

  /** The messages addressed to a client. */
  function MessagesTo(ops: seq<TableOp>, k: int, fd: int): seq<seq<byte>> {
    if ops == [] then []
    else
      var rest := MessagesTo(ops[1..], k, fd);
      match ops[0]
      case Broadcasting(line) => if k == OPENREMOTE || fd <= 0 then rest else [FormOf(k, line)] + rest
      case Sending(to, line) => if to == fd then [FormOf(k, line)] + rest else rest
      case _ => rest
  }

  /** The first sequence is what is left of the second when some of its elements are taken away. */
  predicate InOrder<T(==)>(few: seq<T>, many: seq<T>) {
    few == [] || (many != [] && InOrder(if few[0] == many[0] then few[1..] else few, many[1..]))
  }

  lemma {:induction false} InOrderThrough<T>(few: seq<T>, more: seq<T>, many: seq<T>)
    requires InOrder(few, more) && InOrder(more, many)
    ensures InOrder(few, many)
    decreases |many|
  {
    if few != [] && few[0] != many[0] && more[0] == many[0] {
      InOrderThrough(few, more[1..], many[1..]);
    } else if few != [] && few[0] == many[0] {
      if more[0] == many[0] {
        InOrderThrough(few[1..], more[1..], many[1..]);
      } else {
        DropFirst(few, more);
        InOrderThrough(few[1..], more, many[1..]);
      }
    } else if few != [] {
      InOrderThrough(few, more, many[1..]);
    }
  }

  lemma {:induction false} FormsInOrder(k: int, few: seq<seq<byte>>, many: seq<seq<byte>>)
    requires InOrder(few, many)
    ensures InOrder(FormsOf(k, few), FormsOf(k, many))
    decreases |many|
  {
    hide FormOf;
    if few != [] {
      var rest := if few[0] == many[0] then few[1..] else few;
      FormsInOrder(k, rest, many[1..]);
      assert FormsOf(k, many) == [FormOf(k, many[0])] + FormsOf(k, many[1..]);
      assert FormsOf(k, few) == [FormOf(k, few[0])] + FormsOf(k, few[1..]);
      if few[0] != many[0] { SkipOne(FormsOf(k, few), FormOf(k, many[0]), FormsOf(k, many[1..])); }
    }
  }

  lemma {:induction false} MessagesAreGiven(ops: seq<TableOp>, k: int, fd: int)
    ensures Joined(MessagesTo(ops, k, fd)) == GivenByAll(ops, k, fd)
  {
    hide FormOf;
    if ops != [] {
      MessagesAreGiven(ops[1..], k, fd);
      var given, rest := GivenBy(ops[0], k, fd), MessagesTo(ops[1..], k, fd);
      assert ([given] + rest)[1..] == rest && [] + GivenByAll(ops[1..], k, fd) == GivenByAll(ops[1..], k, fd);
    }
  }

  lemma FirstForm(k: int, line: seq<byte>, lines: seq<seq<byte>>)
    ensures FormsOf(k, [line] + lines) == [FormOf(k, line)] + FormsOf(k, lines)
  {
    hide FormOf;
  }

  /** How one more operation at the front adds to the broadcast lines and to the messages of a client. */
  lemma FirstOperation(ops: seq<TableOp>, k: int, fd: int)
    requires ops != [] && k != OPENREMOTE && fd > 0
    ensures var lines, messages := Broadcasts(ops[1..]), MessagesTo(ops[1..], k, fd);
            match ops[0]
            case Broadcasting(line) =>
              Broadcasts(ops) == [line] + lines && MessagesTo(ops, k, fd) == [FormOf(k, line)] + messages
            case Sending(to, line) =>
              && Broadcasts(ops) == lines
              && MessagesTo(ops, k, fd) == if to == fd then [FormOf(k, line)] + messages else messages
            case _ => Broadcasts(ops) == lines && MessagesTo(ops, k, fd) == messages
  {
    hide FormOf;
    assert [] + Broadcasts(ops[1..]) == Broadcasts(ops[1..]);
  }

  lemma FirstInBoth<T>(one: T, few: seq<T>, many: seq<T>)
    requires InOrder(few, many)
    ensures InOrder([one] + few, [one] + many)
  {
    assert ([one] + few)[1..] == few && ([one] + many)[1..] == many;
  }

  lemma {:induction false} BroadcastsAreMessages(ops: seq<TableOp>, k: int, fd: int)
    requires k != OPENREMOTE && fd > 0
    ensures InOrder(FormsOf(k, Broadcasts(ops)), MessagesTo(ops, k, fd))
    ensures (forall op | op in ops && op.Sending? :: op.fd != fd) ==>
              FormsOf(k, Broadcasts(ops)) == MessagesTo(ops, k, fd)
  {
    if ops != [] {
      hide FormOf, FormsOf, Broadcasts, MessagesTo, InOrder;
      assert ops[0] in ops && forall op | op in ops[1..] :: op in ops;
      BroadcastsAreMessages(ops[1..], k, fd);
      FirstOperation(ops, k, fd);
      var lines, rest := Broadcasts(ops[1..]), MessagesTo(ops[1..], k, fd);
      match ops[0]
      case Broadcasting(line) =>
        FirstForm(k, line, lines);
        FirstInBoth(FormOf(k, line), FormsOf(k, lines), rest);
      case Sending(_, line) => SkipOne(FormsOf(k, lines), FormOf(k, line), rest);
      case _ =>
    }
  }

  lemma {:induction false} SkipOne<T>(few: seq<T>, one: T, many: seq<T>)
    requires InOrder(few, many)
    ensures InOrder(few, [one] + many)
    decreases |many|, 1
  {
    assert ([one] + many)[1..] == many;
    if few != [] && few[0] == one { DropFirst(few, many); }
  }

  lemma {:induction false} DropFirst<T>(few: seq<T>, many: seq<T>)
    requires InOrder(few, many) && few != []
    ensures InOrder(few[1..], many)
    decreases |many|, 0
  {
    if few[0] == many[0] {
      SkipOne(few[1..], many[0], many[1..]);
      assert [many[0]] + many[1..] == many;
    } else {
      DropFirst(few, many[1..]);
      SkipOne(few[1..], many[0], many[1..]);
      assert [many[0]] + many[1..] == many;
    }
  }

  /**
   Every line sent to all clients reaches each main and XML client that stays connected, whole, in its form
   and in order, whatever else is sent, flushed, checked, accepted or deleted in between.
   */
  lemma EveryBroadcastIsHeard(ops: seq<TableOp>, k: int, s: Slot)
    requires s.out.Sound() && s.fd > 0 && k != OPENREMOTE && Survives(ops, k, s)
    ensures var t, messages := SlotAfterAll(ops, k, s), MessagesTo(ops, k, s.fd);
            && t.out.delivered + t.out.contents == s.out.enqueued + Joined(messages)
            && InOrder(FormsOf(k, Broadcasts(ops)), messages)
            && ((forall op | op in ops && op.Sending? :: op.fd != s.fd) ==> messages == FormsOf(k, Broadcasts(ops)))
  {
    hide Survives, SlotAfterAll, MessagesTo, Broadcasts, InOrder;
    ClientStreamIsConserved(ops, k, s);
    MessagesAreGiven(ops, k, s.fd);
    BroadcastsAreMessages(ops, k, s.fd);
  }

  // ---- on the tables ----

  lemma FormsOfALine(line: seq<byte>)
    ensures FormOf(MAIN, line) == line && FormOf(XML, line) == XmlLine(line)
  {
  }

  /** Until the counter overflows it moves up by at most the number of clients accepted. */
  ghost predicate IdsMoved(wrapped: bool, next: nat, wrappedNow: bool, nextNow: nat, accepted: nat) {
    !wrapped && next + accepted < 0x1_0000_0000 ==> !wrappedNow && next <= nextNow <= next + accepted
  }

  /** An accepted descriptor is one that no client holds; any other is passed over. */
  method Perform(t: ClientTables, op: TableOp)
    requires t.Valid() && (op.Accepting? ==> op.kind < 3)
    modifies t
    ensures t.Valid()
    ensures forall k, i | InTable(k, i) && old(t.slots)[k][i].Live() ::
              t.slots[k][i] == SlotAfter(op, k, old(t.slots)[k][i])
    ensures IdsMoved(old(t.wrapped), old(t.nextClientId), t.wrapped, t.nextClientId, 1)
  {
    hide SlotsSound, IdsDistinctBelow, CountsMatch, Deliver, FlushSlot, FormOf, XmlLine, Stalled;
    match op
    case Broadcasting(line) =>
      FormsOfALine(line);
      t.Broadcast(line);
    case Sending(fd, line) => var _, _, _, _ := t.SendTo(fd, line, []);
    case WritableSocket(fd, now, answers) => t.FlushClient(fd, now, answers);
    case CheckingStalls(now) => t.DisconnectStalledClients(now);
    case Accepting(kind, fd, nonblocking) =>
      var k, _ := t.FindFd(fd);
      if k < 0 { var _ := t.AddClient(kind, fd, nonblocking); }
    case Deleting(fd) => var _ := t.DelClient(fd);
  }

  /** Where each client ends, if it stays connected. */
  ghost predicate ClientsFollow(before: Table, after: Table, ops: seq<TableOp>)
    requires Shaped(before) && Shaped(after) && SlotsSound(before)
  {
    forall k, i | InTable(k, i) && before[k][i].Live() && Survives(ops, k, before[k][i]) ::
      after[k][i] == SlotAfterAll(ops, k, before[k][i])
  }

  lemma FollowOn(before: Table, middle: Table, after: Table, a: seq<TableOp>, b: seq<TableOp>)
    requires Shaped(before) && Shaped(middle) && Shaped(after) && SlotsSound(before) && SlotsSound(middle)
    requires ClientsFollow(before, middle, a) && ClientsFollow(middle, after, b)
    ensures ClientsFollow(before, after, a + b)
  {
    forall k, i | InTable(k, i) && before[k][i].Live() && Survives(a + b, k, before[k][i])
      ensures after[k][i] == SlotAfterAll(a + b, k, before[k][i])
    {
      MoreTableOps(a, b, k, before[k][i]);
    }
  }

  /** Every client that survives a sequence of operations ends as those operations, taken one by one, leave it. */
  method PerformAll(t: ClientTables, ops: seq<TableOp>)
    requires t.Valid() && forall op | op in ops && op.Accepting? :: op.kind < 3
    modifies t
    ensures t.Valid()
    ensures ClientsFollow(old(t.slots), t.slots, ops)
    ensures IdsMoved(old(t.wrapped), old(t.nextClientId), t.wrapped, t.nextClientId, |ops|)
    ensures !old(t.wrapped) && old(t.nextClientId) + |ops| < 0x1_0000_0000 ==> IdsDistinctBelow(t.slots, t.nextClientId)
    decreases |ops|
  {
    if ops == [] { return; }
    assert ops[0] in ops && forall op | op in ops[1..] :: op in ops;
    Perform(t, ops[0]);
    PerformAll(t, ops[1..]);
  }
}
