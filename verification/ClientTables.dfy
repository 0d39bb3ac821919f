/**
 The three client tables of the daemon, their counters, the broadcast that may delete the clients it is
 writing to, and the poll array built from them.  A slot holds the value of its output queue, and every
 operation applies to it the function that OutputQueue computes on the ring.
 */
module ClientTables {
  import opened Bytes
  import opened PollArray
  import opened QueueSpec
  import SocketIo

  const MAX_CLIENTS := 32
  const NO_FD := -1
  const STALL_SECONDS := 30
  const ID_LIMIT := 0x1_0000_0000

  // rows of the slot table
  const MAIN := 0
  const XML := 1
  const OPENREMOTE := 2

  datatype Slot = Slot(fd: int, id: nat, out: Queue) {
    predicate Live() { fd != NO_FD }
  }

  const FREE: Slot := Slot(NO_FD, 0, EMPTY)

  type Table = seq<seq<Slot>>

  predicate InTable(k: int, i: int) { 0 <= k < 3 && 0 <= i < MAX_CLIENTS }

  predicate Shaped(t: Table) {
    |t| == 3 && |t[0]| == MAX_CLIENTS && |t[1]| == MAX_CLIENTS && |t[2]| == MAX_CLIENTS
  }

  function Put(t: Table, k: int, i: int, s: Slot): Table
    requires Shaped(t) && InTable(k, i)
  {
    t[k := t[k][i := s]]
  }

  function Occupied(row: seq<Slot>): nat {
    if row == [] then 0 else (if row[0].Live() then 1 else 0) + Occupied(row[1..])
  }

  lemma {:induction false} OccupiedAfterPut(row: seq<Slot>, i: int, s: Slot)
    requires 0 <= i < |row|
    ensures Occupied(row[i := s]) + (if row[i].Live() then 1 else 0) == Occupied(row) + (if s.Live() then 1 else 0)
  {
    if i == 0 {
      assert row[0 := s][1..] == row[1..];
    } else {
      assert row[i := s][1..] == row[1..][i - 1 := s];
      OccupiedAfterPut(row[1..], i - 1, s);
    }
  }

  lemma {:induction false} NoneOccupied(row: seq<Slot>)
    requires forall i | 0 <= i < |row| :: !row[i].Live()
    ensures Occupied(row) == 0
  {
    if row != [] { NoneOccupied(row[1..]); }
  }

  ghost predicate SlotsSound(t: Table)
    requires Shaped(t)
  {
    && (forall k, i | InTable(k, i) ::
          if t[k][i].Live() then t[k][i].fd >= 0 && 0 < t[k][i].id < ID_LIMIT else t[k][i] == FREE)
    && forall k, i {:trigger t[k][i].out.Sound()} | InTable(k, i) :: t[k][i].out.Sound()
  }

  ghost predicate FdsDistinct(t: Table)
    requires Shaped(t)
  {
    forall k, i, m, j | InTable(k, i) && InTable(m, j) && t[k][i].Live() && t[k][i].fd == t[m][j].fd ::
      k == m && i == j
  }

  ghost predicate IdsDistinctBelow(t: Table, limit: nat)
    requires Shaped(t)
  {
    && (forall k, i | InTable(k, i) && t[k][i].Live() :: t[k][i].id < limit)
    && (forall k, i, m, j | InTable(k, i) && InTable(m, j) && t[k][i].Live() && t[m][j].Live()
                            && t[k][i].id == t[m][j].id :: k == m && i == j)
  }

  ghost predicate FdLive(t: Table, fd: int)
    requires Shaped(t)
  {
    exists k, i | InTable(k, i) :: t[k][i].fd == fd
  }

  ghost predicate CountsMatch(t: Table, counts: seq<int>)
    requires Shaped(t)
  {
    |counts| == 3 && forall k | 0 <= k < 3 :: counts[k] == Occupied(t[k])
  }

  /** What a slot may be replaced by: a free slot, the same client, or a client with a new descriptor. */
  ghost predicate CanPut(t: Table, k: int, i: int, s: Slot)
    requires Shaped(t) && InTable(k, i)
  {
    && s.out.Sound()
    && (s == FREE || (s.fd >= 0 && 0 < s.id < ID_LIMIT && (s.fd == t[k][i].fd || !FdLive(t, s.fd))))
  }

  lemma PutKeepsSlots(t: Table, k: int, i: int, s: Slot)
    requires Shaped(t) && InTable(k, i) && CanPut(t, k, i, s) && SlotsSound(t) && FdsDistinct(t)
    ensures SlotsSound(Put(t, k, i, s)) && FdsDistinct(Put(t, k, i, s))
  {
    var u := Put(t, k, i, s);
    forall m, j | InTable(m, j)
      ensures u[m][j] == if m == k && j == i then s else t[m][j]
    {
    }
  }

  lemma PutKeepsCounts(t: Table, counts: seq<int>, k: int, i: int, s: Slot)
    requires Shaped(t) && InTable(k, i) && CountsMatch(t, counts)
    ensures CountsMatch(Put(t, k, i, s),
                        counts[k := counts[k] + (if s.Live() then 1 else 0) - (if t[k][i].Live() then 1 else 0)])
  {
    OccupiedAfterPut(t[k], i, s);
  }

  lemma PutKeepsIds(t: Table, limit: nat, k: int, i: int, s: Slot, above: nat)
    requires Shaped(t) && InTable(k, i) && IdsDistinctBelow(t, limit) && limit <= above
    requires s.Live() ==> s.id < above && (s.id >= limit || (t[k][i].Live() && s.id == t[k][i].id))
    ensures IdsDistinctBelow(Put(t, k, i, s), above)
  {
    var u := Put(t, k, i, s);
    forall m, j | InTable(m, j)
      ensures u[m][j] == if m == k && j == i then s else t[m][j]
    {
    }
  }

  // ---- what the operations do to one slot ----

  lemma AppendKeepsSound(q: Queue, bytes: seq<byte>)
    requires q.Sound() && Fits(q, bytes) && bytes != []
    ensures Append(q, bytes).Sound()
  {
    assert q.delivered + (q.contents + bytes) == q.delivered + q.contents + bytes;
  }

  /** Queue a message on a client, or drop the client when the message does not fit. */
  function Deliver(s: Slot, bytes: seq<byte>): Slot {
    if Fits(s.out, bytes) then s.(out := Append(s.out, bytes)) else FREE
  }

  /** The broadcast passes over free slots, and over descriptor zero. */
  function DeliverToAll(s: Slot, bytes: seq<byte>): Slot { if s.fd > 0 then Deliver(s, bytes) else s }

  /** Flush a client whose socket is writable, or drop it on an error. */
  function FlushSlot(s: Slot, now: int, answers: seq<SendAnswer>): Slot
    requires s.out.Sound()
  {
    var f := Flush(s.out, WRITE_BUDGET, now, answers);
    if f.result == Disconnected then FREE else s.(out := f.queue)
  }

  lemma NothingDelivered(t: Table, k: int, i: int)
    requires Shaped(t) && InTable(k, i) && t[k][i].out.Sound()
    ensures Put(t, k, i, Deliver(t[k][i], [])) == t
  {
    var q := t[k][i].out;
    assert q.contents + [] == q.contents && q.enqueued + [] == q.enqueued;
    assert t[k][i := t[k][i]] == t[k];
  }

  /** What an XML client reads of a line: the same bytes, but for a last newline, which becomes NUL. */
  predicate IsXmlForm(line: seq<byte>, sent: seq<byte>) {
    && |sent| == |line| && (forall i | 0 <= i < |line| - 1 :: sent[i] == line[i])
    && (line != [] ==> sent[|line| - 1] == if line[|line| - 1] == 10 then 0 else line[|line| - 1])
  }

  /** The XML form of a line: the final newline becomes NUL. */
  function XmlLine(line: seq<byte>): (r: seq<byte>)
    ensures IsXmlForm(line, r)
  {
    if line != [] && line[|line| - 1] == 10 then line[|line| - 1 := 0] else line
  }

  /** A client has these bytes behind the others in its queue, or has been dropped because they do not fit 16 KiB. */
  predicate Got(before: Slot, after: Slot, sent: seq<byte>) {
    if |before.out.contents| + |sent| <= 16384
    then after == before.(out := before.out.(contents := before.out.contents + sent,
                                             enqueued := before.out.enqueued + sent))
    else after == FREE
  }

  ghost predicate GotXml(before: Slot, after: Slot, line: seq<byte>) {
    exists sent :: IsXmlForm(line, sent) && Got(before, after, sent)
  }

  lemma DeliveredIsGot(s: Slot, bytes: seq<byte>)
    ensures Got(s, Deliver(s, bytes), bytes)
  {
  }

  lemma XmlDeliveredIsGot(s: Slot, line: seq<byte>)
    ensures GotXml(s, Deliver(s, XmlLine(line)), line)
  {
    DeliveredIsGot(s, XmlLine(line));
  }

  /** The line in the form of a client's table. */
  function FormOf(k: int, line: seq<byte>): seq<byte> { if k == XML then XmlLine(line) else line }

  /** The clients before position `n` of one table have been served, and no other slot has changed. */
  ghost predicate DeliveredBefore(before: Table, after: Table, kind: int, n: int, bytes: seq<byte>)
    requires Shaped(before) && Shaped(after)
  {
    forall k, i | InTable(k, i) ::
      after[k][i] == if k == kind && i < n then DeliverToAll(before[k][i], bytes) else before[k][i]
  }

  lemma NothingServed(t: Table, kind: int, bytes: seq<byte>)
    requires Shaped(t)
    ensures DeliveredBefore(t, t, kind, 0, bytes)
  {
  }

  lemma OneMoreServed(before: Table, t: Table, kind: int, n: int, bytes: seq<byte>)
    requires Shaped(before) && Shaped(t) && InTable(kind, n) && DeliveredBefore(before, t, kind, n, bytes)
    ensures var after := if t[kind][n].fd > 0 then Put(t, kind, n, Deliver(t[kind][n], bytes)) else t;
            DeliveredBefore(before, after, kind, n + 1, bytes)
  {
    hide Deliver;
  }

  lemma AllServed(before: Table, after: Table, kind: int, bytes: seq<byte>)
    requires Shaped(before) && Shaped(after) && DeliveredBefore(before, after, kind, MAX_CLIENTS, bytes)
    ensures forall k, i | InTable(k, i) ::
              after[k][i] == if k == kind then DeliverToAll(before[k][i], bytes) else before[k][i]
  {
  }

  predicate Stalled(s: Slot, now: int) {
    s.Live() && |s.out.contents| > 0 && s.out.stalledSince != 0 && now - s.out.stalledSince >= STALL_SECONDS
  }

  // ---- the poll array ----

  function EventsWanted(s: Slot): int { POLLIN + if |s.out.contents| > 0 then POLLOUT else 0 }

  function Entry(s: Slot): seq<PollFd> { if s.Live() then [PollFd(s.fd, EventsWanted(s))] else [] }

  function SlotEntries(t: Table, i: nat): seq<PollFd>
    requires Shaped(t) && i < MAX_CLIENTS
  {
    Entry(t[MAIN][i]) + Entry(t[XML][i]) + Entry(t[OPENREMOTE][i])
  }

  /** The clients to poll, slot by slot, each slot in the order main, XML, OpenRemote. */
  function LiveEntries(t: Table, n: nat): seq<PollFd>
    requires Shaped(t) && n <= MAX_CLIENTS
  {
    if n == 0 then [] else LiveEntries(t, n - 1) + SlotEntries(t, n - 1)
  }

  lemma NoLiveEntries(t: Table)
    requires Shaped(t)
    ensures LiveEntries(t, 0) == []
  {
  }

  lemma MoreLiveEntries(t: Table, n: nat)
    requires Shaped(t) && n < MAX_CLIENTS
    ensures LiveEntries(t, n + 1) == LiveEntries(t, n) + SlotEntries(t, n)
  {
  }

  lemma {:induction false} OccupiedSplit(row: seq<Slot>, n: nat)
    requires n < |row|
    ensures Occupied(row[..n + 1]) == Occupied(row[..n]) + |Entry(row[n])|
  {
    if n == 0 {
      assert row[..1] == [row[0]] && row[..0] == [];
    } else {
      assert row[..n + 1][1..] == row[1..][..n] && row[..n][1..] == row[1..][..n - 1];
      OccupiedSplit(row[1..], n - 1);
    }
  }

  lemma {:induction false} LiveEntriesCount(t: Table, n: nat)
    requires Shaped(t) && n <= MAX_CLIENTS
    ensures |LiveEntries(t, n)| == Occupied(t[0][..n]) + Occupied(t[1][..n]) + Occupied(t[2][..n])
  {
    if n > 0 {
      LiveEntriesCount(t, n - 1);
      OccupiedSplit(t[0], n - 1);
      OccupiedSplit(t[1], n - 1);
      OccupiedSplit(t[2], n - 1);
    }
  }

  /** The entry of a live client: always polled for input, and for output exactly while bytes are queued for it. */
  ghost predicate PollsFor(s: Slot, p: PollFd) {
    s.Live() && p.fd == s.fd && p.events == if s.out.contents != [] then 5 else 1
  }

  lemma EntryPollsFor(s: Slot, p: PollFd)
    ensures p in Entry(s) <==> PollsFor(s, p)
  {
  }

  /** The poll array has an entry for each live client of the three tables, and no other. */
  lemma {:induction false} LiveEntriesExactly(t: Table, n: nat, p: PollFd)
    requires Shaped(t) && n <= MAX_CLIENTS
    ensures p in LiveEntries(t, n) <==> exists k, i | InTable(k, i) && i < n :: PollsFor(t[k][i], p)
  {
    hide Entry, PollsFor;
    if n > 0 {
      LiveEntriesExactly(t, n - 1, p);
      EntryPollsFor(t[MAIN][n - 1], p);
      EntryPollsFor(t[XML][n - 1], p);
      EntryPollsFor(t[OPENREMOTE][n - 1], p);
      assert InTable(MAIN, n - 1) && InTable(XML, n - 1) && InTable(OPENREMOTE, n - 1);
      assert forall k, i | InTable(k, i) && i < n :: i < n - 1 || (i == n - 1 && k in {MAIN, XML, OPENREMOTE});
    }
  }

  lemma LiveEntriesMatchCounts(t: Table, counts: seq<int>)
    requires Shaped(t) && CountsMatch(t, counts)
    ensures |LiveEntries(t, |t[0]|)| == counts[0] + counts[1] + counts[2]
  {
    LiveEntriesCount(t, |t[0]|);
    assert t[0][..|t[0]|] == t[0] && t[1][..|t[0]|] == t[1] && t[2][..|t[0]|] == t[2];
  }

  lemma {:induction false} LiveEntriesGrow(t: Table, m: nat, n: nat)
    requires Shaped(t) && m <= n <= MAX_CLIENTS
    ensures |LiveEntries(t, m)| <= |LiveEntries(t, n)|
    decreases n
  {
    if m < n { LiveEntriesGrow(t, m, n - 1); }
  }

  lemma SlicesJoin<T>(s: seq<T>, a: int, b: int, c: int)
    requires 0 <= a <= b <= c <= |s|
    ensures s[a..b] + s[b..c] == s[a..c]
  {
  }

  lemma SlicesAgree<T>(s: seq<T>, t: seq<T>, a: int, b: int)
    requires 0 <= a <= b <= |s| == |t| && forall j | 0 <= j < b :: s[j] == t[j]
    ensures s[a..b] == t[a..b]
  {
  }

  lemma NobodyConnected(t: Table)
    requires Shaped(t) && forall k, i | InTable(k, i) :: t[k][i] == FREE
    ensures SlotsSound(t) && FdsDistinct(t) && CountsMatch(t, [0, 0, 0]) && IdsDistinctBelow(t, 1)
  {
    forall k | 0 <= k < 3
      ensures Occupied(t[k]) == 0
    {
      forall i | 0 <= i < MAX_CLIENTS
        ensures !t[k][i].Live()
      {
        assert InTable(k, i);
      }
      NoneOccupied(t[k]);
    }
  }

  class ClientTables {
    var slots: Table
    var counts: seq<int>      // NClients, NxmlClients, Nor20Clients
    var nextClientId: nat
    ghost var wrapped: bool   // the 32-bit id counter has overflowed at least once

    ghost predicate Valid()
      reads this
    {
      && Shaped(slots) && SlotsSound(slots) && FdsDistinct(slots)
      && CountsMatch(slots, counts)
      && nextClientId < ID_LIMIT
      && (!wrapped ==> 0 < nextClientId && IdsDistinctBelow(slots, nextClientId))
    }

    constructor ()
      ensures Valid() && !wrapped && nextClientId == 1
      ensures forall k, i | InTable(k, i) :: slots[k][i] == FREE
    {
      hide SlotsSound, FdsDistinct, CountsMatch, IdsDistinctBelow;
      var row := seq(MAX_CLIENTS, _ => FREE);
      slots := [row, row, row];
      counts := [0, 0, 0];
      nextClientId, wrapped := 1, false;
      NobodyConnected([row, row, row]);
    }

    method NextClientId() returns (id: nat)
      requires Valid()
      modifies `nextClientId, `wrapped
      ensures 0 < id < 0x1_0000_0000 && nextClientId == (id + 1) % 0x1_0000_0000
      ensures wrapped == (old(wrapped) || id + 1 == 0x1_0000_0000)
      ensures !old(wrapped) ==> id == old(nextClientId)
    {
      if nextClientId == 0 { nextClientId := 1; }
      id := nextClientId;
      nextClientId := (nextClientId + 1) % ID_LIMIT;
      if nextClientId == 0 { wrapped := true; }
    }

    /** Give a free slot to a new client with the next id and an empty queue. */
    method Occupy(kind: int, i: int, fd: int) returns (id: nat)
      requires Valid() && InTable(kind, i) && !slots[kind][i].Live() && fd >= 0 && !FdLive(slots, fd)
      modifies this
      ensures Valid() && slots == Put(old(slots), kind, i, Slot(fd, id, EMPTY)) && nextClientId == (id + 1) % ID_LIMIT
      ensures wrapped == (old(wrapped) || nextClientId == 0) && (!old(wrapped) ==> id == old(nextClientId))
    {
      ghost var limit := nextClientId;
      id := NextClientId();
      var added := Slot(fd, id, EMPTY);
      PutKeepsSlots(slots, kind, i, added);
      PutKeepsCounts(slots, counts, kind, i, added);
      if !wrapped { PutKeepsIds(slots, limit, kind, i, added, nextClientId); }
      slots := Put(slots, kind, i, added);
      counts := counts[kind := counts[kind] + 1];
    }

    /** Add a client to the first free slot of its table. */
    method AddClient(kind: int, fd: int, nonblocking: bool) returns (r: int)
      requires Valid() && 0 <= kind < 3 && fd >= 0 && !FdLive(slots, fd)
      modifies this
      ensures Valid()
      ensures r == 0 || r == -1
      ensures r == -1 <==> !nonblocking || old(counts)[kind] == 32
      ensures r == -1 ==>
                && slots == old(slots) && counts == old(counts)
                && nextClientId == old(nextClientId) && wrapped == old(wrapped)
      ensures r == 0 ==>
                exists i | InTable(kind, i) ::
                  && old(slots)[kind][i] == FREE && (forall j | 0 <= j < i :: old(slots)[kind][j].Live())
                  && slots == Put(old(slots), kind, i, Slot(fd, slots[kind][i].id, EMPTY))
                  && nextClientId == (slots[kind][i].id + 1) % ID_LIMIT
                  && wrapped == (old(wrapped) || nextClientId == 0)
                  && (!old(wrapped) ==> slots[kind][i].id == old(nextClientId))
    {
      hide FdsDistinct, IdsDistinctBelow, FdLive;
      var i := 0;
      while i < MAX_CLIENTS
        invariant 0 <= i <= MAX_CLIENTS && slots == old(slots) && counts == old(counts)
        invariant forall j | 0 <= j < i :: slots[kind][j].Live()
        invariant Valid() && wrapped == old(wrapped) && nextClientId == old(nextClientId)
      {
        if slots[kind][i].fd == NO_FD {
          FreeSlotMeansRoom(slots[kind], i);
          if !nonblocking { return -1; }
          var id := Occupy(kind, i, fd);
          return 0;
        }
        i := i + 1;
      }
      AllLive(slots[kind]);
      return -1;
    }

    /** Find and free the slot of a live client; any other descriptor changes nothing. */
    method DelClient(fd: int) returns (r: int)
      requires Valid() && fd >= 0
      modifies `slots, `counts
      ensures Valid()
      ensures r == 0 <==> FdLive(old(slots), fd)
      ensures r != 0 ==> r == -1 && slots == old(slots) && counts == old(counts)
      ensures forall k, i | InTable(k, i) && old(slots)[k][i].fd == fd :: slots == Put(old(slots), k, i, FREE)
    {
      var k, i := FindFd(fd);
      if k < 0 { return -1; }
      PutKeepsSlots(slots, k, i, FREE);
      PutKeepsCounts(slots, counts, k, i, FREE);
      if !wrapped { PutKeepsIds(slots, nextClientId, k, i, FREE, nextClientId); }
      slots := Put(slots, k, i, FREE);
      counts := counts[k := counts[k] - 1];
      return 0;
    }

    /** The search shared by every lookup by descriptor: slot by slot, main before XML before OpenRemote. */
    method FindFd(fd: int) returns (k: int, i: int)
      requires Valid() && fd >= 0
      ensures k >= 0 ==> InTable(k, i) && slots[k][i].fd == fd
      ensures k < 0 <==> !FdLive(slots, fd)
    {
      i := 0;
      while i < MAX_CLIENTS
        invariant 0 <= i <= MAX_CLIENTS
        invariant forall m, j | InTable(m, j) && j < i :: slots[m][j].fd != fd
      {
        if slots[MAIN][i].fd == fd { return MAIN, i; }
        if slots[XML][i].fd == fd { return XML, i; }
        if slots[OPENREMOTE][i].fd == fd { return OPENREMOTE, i; }
        i := i + 1;
      }
      k := -1;
    }

    /** Replace a live slot by what an operation made of it. */
    method Update(k: int, i: int, s: Slot)
      requires Valid() && InTable(k, i) && slots[k][i].Live()
      requires s == FREE || (s.fd == slots[k][i].fd && s.id == slots[k][i].id && s.out.Sound())
      modifies `slots, `counts
      ensures Valid() && slots == Put(old(slots), k, i, s)
    {
      if s == FREE {
        var _ := DelClient(slots[k][i].fd);
        return;
      }
      PutKeepsSlots(slots, k, i, s);
      PutKeepsCounts(slots, counts, k, i, s);
      if !wrapped { PutKeepsIds(slots, nextClientId, k, i, s, nextClientId); }
      slots := Put(slots, k, i, s);
      assert counts[k := counts[k]] == counts;
    }

    /**
     Queue bytes on a live client, or disconnect it when they do not fit.  A descriptor in no table is served
     by the blocking send, which `answers` feed and which puts `wire` on the socket.
     */
    method QueueClientBytes(fd: int, bytes: seq<byte>, answers: seq<SocketIo.Answer>)
      returns (queued: bool, wire: seq<byte>, outcome: SocketIo.Outcome, used: nat)
      requires Valid() && fd >= 0
      modifies `slots, `counts
      ensures Valid()
      ensures queued <==> bytes == [] || FdLive(old(slots), fd)
      ensures forall k, i | InTable(k, i) && old(slots)[k][i].fd == fd ::
                slots == Put(old(slots), k, i, Deliver(old(slots)[k][i], bytes))
      ensures !FdLive(old(slots), fd) ==> slots == old(slots)
      ensures queued ==> wire == []
      ensures !queued ==> used <= |answers| && SocketIo.SendsWell(bytes, answers, outcome, wire, used)
    {
      wire, outcome, used := [], SocketIo.Unfinished, 0;
      var k, i := FindFd(fd);
      if |bytes| == 0 {
        if k >= 0 { NothingDelivered(slots, k, i); }
        return true, wire, outcome, used;
      }
      if k < 0 {
        outcome, wire, used := SocketIo.SendAll(bytes, answers);
        return false, wire, outcome, used;
      }
      var s := slots[k][i];
      if Fits(s.out, bytes) { AppendKeepsSound(s.out, bytes); }
      Update(k, i, Deliver(s, bytes));
      queued := true;
    }

    /** Flush the client whose socket is writable. */
    method FlushClient(fd: int, now: int, answers: seq<SendAnswer>)
      requires Valid() && fd >= 0
      modifies `slots, `counts
      ensures Valid()
      ensures !FdLive(old(slots), fd) ==> slots == old(slots)
      ensures forall k, i | InTable(k, i) && old(slots)[k][i].fd == fd ::
                slots == Put(old(slots), k, i, FlushSlot(old(slots)[k][i], now, answers))
    {
      var k, i := FindFd(fd);
      if k < 0 { return; }
      FlushMeans(slots[k][i].out, WRITE_BUDGET, now, answers);
      Update(k, i, FlushSlot(slots[k][i], now, answers));
    }

    /**
     Send one line to every client.  Although an overflowing client is deleted while the table is
     being walked, every slot ends as if it had been served alone: main clients with the line, XML
     clients with its NUL-terminated form, OpenRemote clients not at all.
     */
    method Broadcast(line: seq<byte>)
      requires Valid()
      modifies `slots, `counts
      ensures Valid()
      ensures forall i | 0 <= i < MAX_CLIENTS ::
                && slots[MAIN][i] == DeliverToAll(old(slots)[MAIN][i], line)
                && slots[XML][i] == DeliverToAll(old(slots)[XML][i], XmlLine(line))
                && slots[OPENREMOTE][i] == old(slots)[OPENREMOTE][i]
      ensures forall i | 0 <= i < MAX_CLIENTS && old(slots)[MAIN][i].fd > 0 ::
                Got(old(slots)[MAIN][i], slots[MAIN][i], line)
      ensures forall i | 0 <= i < MAX_CLIENTS && old(slots)[XML][i].fd > 0 ::
                GotXml(old(slots)[XML][i], slots[XML][i], line)
    {
      hide Deliver, XmlLine, Got, GotXml, IsXmlForm;
      BroadcastTo(MAIN, line);
      BroadcastTo(XML, XmlLine(line));
      forall i | 0 <= i < MAX_CLIENTS
        ensures old(slots)[MAIN][i].fd > 0 ==> Got(old(slots)[MAIN][i], slots[MAIN][i], line)
        ensures old(slots)[XML][i].fd > 0 ==> GotXml(old(slots)[XML][i], slots[XML][i], line)
      {
        DeliveredIsGot(old(slots)[MAIN][i], line);
        XmlDeliveredIsGot(old(slots)[XML][i], line);
      }
    }

    /** One line to one client, in that client's form; any other descriptor gets it by the blocking send. */
    method SendTo(fd: int, line: seq<byte>, answers: seq<SocketIo.Answer>)
      returns (queued: bool, wire: seq<byte>, outcome: SocketIo.Outcome, used: nat)
      requires Valid() && fd >= 0
      modifies `slots, `counts
      ensures Valid()
      ensures queued <==> line == [] || FdLive(old(slots), fd)
      ensures forall k, i | InTable(k, i) && old(slots)[k][i].fd == fd ::
                && slots == Put(old(slots), k, i, Deliver(old(slots)[k][i], FormOf(k, line)))
                && if k == XML then GotXml(old(slots)[k][i], slots[k][i], line)
                   else Got(old(slots)[k][i], slots[k][i], line)
      ensures !FdLive(old(slots), fd) ==> slots == old(slots)
      ensures !queued ==> used <= |answers| && SocketIo.SendsWell(line, answers, outcome, wire, used)
    {
      var k, _ := FindFd(fd);
      queued, wire, outcome, used := QueueClientBytes(fd, FormOf(k, line), answers);
      forall k, i | InTable(k, i) && old(slots)[k][i].fd == fd
        ensures if k == XML then GotXml(old(slots)[k][i], slots[k][i], line)
                else Got(old(slots)[k][i], slots[k][i], line)
      {
        DeliveredIsGot(old(slots)[k][i], line);
        XmlDeliveredIsGot(old(slots)[k][i], line);
      }
    }

    method BroadcastTo(kind: int, bytes: seq<byte>)
      requires Valid() && 0 <= kind < 3
      modifies `slots, `counts
      ensures Valid()
      ensures forall k, i | InTable(k, i) ::
                slots[k][i] == if k == kind then DeliverToAll(old(slots)[k][i], bytes) else old(slots)[k][i]
    {
      hide SlotsSound, FdsDistinct, IdsDistinctBelow, CountsMatch, Deliver, FdLive, DeliveredBefore;
      ghost var start := slots;
      NothingServed(start, kind, bytes);
      var i := 0;
      while i < MAX_CLIENTS
        invariant 0 <= i <= MAX_CLIENTS && Valid() && DeliveredBefore(start, slots, kind, i, bytes)
      {
        OneMoreServed(start, slots, kind, i, bytes);
        if slots[kind][i].fd > 0 { var _, _, _, _ := QueueClientBytes(slots[kind][i].fd, bytes, []); }
        i := i + 1;
      }
      AllServed(start, slots, kind, bytes);
    }

    /** Disconnect exactly the clients whose output has been stalled for the time limit. */
    method DisconnectStalledClients(now: int)
      requires Valid()
      modifies `slots, `counts
      ensures Valid()
      ensures forall k, i | InTable(k, i) ::
                slots[k][i] == if Stalled(old(slots)[k][i], now) then FREE else old(slots)[k][i]
    {
      hide SlotsSound, FdsDistinct, IdsDistinctBelow, CountsMatch;
      var i := 0;
      while i < MAX_CLIENTS
        invariant 0 <= i <= MAX_CLIENTS && Valid()
        invariant forall k, j | InTable(k, j) ::
                    slots[k][j] == if j < i && Stalled(old(slots)[k][j], now) then FREE else old(slots)[k][j]
      {
        DropIfStalled(MAIN, i, now);
        DropIfStalled(XML, i, now);
        DropIfStalled(OPENREMOTE, i, now);
        i := i + 1;
      }
    }

    method DropIfStalled(k: int, i: int, now: int)
      requires Valid() && InTable(k, i)
      modifies `slots, `counts
      ensures Valid()
      ensures slots == if Stalled(old(slots)[k][i], now) then Put(old(slots), k, i, FREE) else old(slots)
    {
      if Stalled(slots[k][i], now) { var _ := DelClient(slots[k][i].fd); }
    }

    /** Write the live clients to the poll array from position `at`; exactly as many entries as the counters say. */
    method CopyClients(fds: array<PollFd>, at: int) returns (n: int)
      requires Valid() && 0 <= at && at + counts[0] + counts[1] + counts[2] <= fds.Length
      modifies fds
      ensures n == counts[0] + counts[1] + counts[2]
      ensures fds[at..at + n] == LiveEntries(slots, |slots[0]|)
      ensures forall j | 0 <= j < at || at + n <= j < fds.Length :: fds[j] == old(fds[j])
    {
      LiveEntriesMatchCounts(slots, counts);
      var next := CopySlots(fds, at, slots);
      n := next - at;
    }

    static method CopySlots(fds: array<PollFd>, at: int, t: Table) returns (next: int)
      requires Shaped(t) && 0 <= at && at + |LiveEntries(t, |t[0]|)| <= fds.Length
      modifies fds
      ensures next == at + |LiveEntries(t, |t[0]|)| && fds[at..next] == LiveEntries(t, |t[0]|)
      ensures forall j | 0 <= j < at || next <= j < fds.Length :: fds[j] == old(fds[j])
    {
      hide SlotEntries, LiveEntries;
      NoLiveEntries(t);
      var i := 0;
      next := at;
      while i < |t[0]|
        invariant 0 <= i <= |t[0]| && next == at + |LiveEntries(t, i)| <= fds.Length
        invariant fds[at..next] == LiveEntries(t, i)
        invariant forall j | 0 <= j < at || next <= j < fds.Length :: fds[j] == old(fds[j])
      {
        LiveEntriesGrow(t, i + 1, |t[0]|);
        MoreLiveEntries(t, i);
        ghost var done := fds[at..next];
        var after := CopySlot(fds, next, t, i);
        assert fds[at..next] == done;
        assert fds[at..after] == done + fds[next..after];
        next := after;
        i := i + 1;
      }
    }

    static method CopySlot(fds: array<PollFd>, at: int, t: Table, i: int) returns (next: int)
      requires Shaped(t) && 0 <= i < MAX_CLIENTS && 0 <= at && at + |SlotEntries(t, i)| <= fds.Length
      modifies fds
      ensures next == at + |SlotEntries(t, i)| && fds[at..next] == SlotEntries(t, i)
      ensures forall j | 0 <= j < at || next <= j < fds.Length :: fds[j] == old(fds[j])
    {
      hide Entry;
      var second := CopyEntry(fds, at, t[MAIN][i]);
      var third := CopyEntry(fds, second, t[XML][i]);
      ghost var two := fds[..];
      SlicesJoin(two, at, second, third);
      next := CopyEntry(fds, third, t[OPENREMOTE][i]);
      SlicesJoin(fds[..], at, third, next);
      SlicesAgree(two, fds[..], at, third);
    }

    static method CopyEntry(fds: array<PollFd>, at: int, s: Slot) returns (next: int)
      requires 0 <= at && at + |Entry(s)| <= fds.Length
      modifies fds
      ensures next == at + |Entry(s)| && fds[at..next] == Entry(s)
      ensures forall j | 0 <= j < at || next <= j < fds.Length :: fds[j] == old(fds[j])
    {
      if s.fd != NO_FD {
        fds[at] := PollFd(s.fd, EventsWanted(s));
        return at + 1;
      }
      return at;
    }

    /**
     The poll array of one loop turn: three listeners, the USB descriptors, then the clients.
     Growing first makes room for every entry that is written.
     */
    method BuildPollSet(fds: array<PollFd>, listeners: seq<PollFd>, usb: seq<PollFd>, canAllocate: bool)
      returns (r: int, grown: array<PollFd>, n: int)
      requires Valid() && |listeners| == 3
      modifies fds
      ensures r == 0 || (r == -ENOMEM && grown == fds && !canAllocate)
      ensures r == 0 ==> 0 <= n <= grown.Length && grown[..n] == listeners + usb + LiveEntries(slots, |slots[0]|)
    {
      hide SlotsSound, FdsDistinct, IdsDistinctBelow, LiveEntries;
      CountsAreNatural();
      n := 3 + |usb| + counts[0] + counts[1] + counts[2];
      r, grown := EnsureCapacity(fds, n, canAllocate);
      if r < 0 { return; }
      FillHead(grown, listeners, usb);
      var copied := CopyClients(grown, 3 + |usb|);
      assert grown[..n][..3 + |usb|] == listeners + usb;
    }

    static method FillHead(fds: array<PollFd>, listeners: seq<PollFd>, usb: seq<PollFd>)
      requires |listeners| + |usb| <= fds.Length
      modifies fds
      ensures fds[..|listeners| + |usb|] == listeners + usb
    {
      forall j | 0 <= j < |listeners| { fds[j] := listeners[j]; }
      forall j | 0 <= j < |usb| { fds[|listeners| + j] := usb[j]; }
    }

    lemma CountsAreNatural()
      requires Valid()
      ensures counts[0] >= 0 && counts[1] >= 0 && counts[2] >= 0
    {
    }
  }

  lemma {:induction false} AllLive(row: seq<Slot>)
    requires forall i | 0 <= i < |row| :: row[i].Live()
    ensures Occupied(row) == |row|
  {
    if row != [] { AllLive(row[1..]); }
  }

  lemma {:induction false} OccupiedAtMost(row: seq<Slot>)
    ensures Occupied(row) <= |row|
  {
    if row != [] { OccupiedAtMost(row[1..]); }
  }

  lemma FreeSlotMeansRoom(row: seq<Slot>, i: int)
    requires 0 <= i < |row| && !row[i].Live()
    ensures Occupied(row) < |row|
  {
    OccupiedAfterPut(row, i, row[i].(fd := 0));
    OccupiedAtMost(row[i := row[i].(fd := 0)]);
  }
}
