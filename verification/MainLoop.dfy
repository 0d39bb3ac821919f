/** The daemon and its clients together: what clients send is cut into lines, and what happens is told to them. */
module MainLoop {
  import opened Bytes
  import opened CommandPath
  import opened CommandTheorems
  import opened ClientTables
  import opened ClientRuns
  import opened Daemon
  import F = Framing

  // ---- the reads of one client ----

  /** The clock readings while a line is carried out, and libusb's answers to the writes it makes. */
  datatype Moment = Moment(now: nat, later: nat, wall: int, rcs: seq<int>)

  function LineOps(lines: seq<string>, or20: bool, moments: seq<Moment>): seq<DaemonOp>
    requires |lines| <= |moments|
  {
    seq(|lines|, i requires 0 <= i < |lines| =>
      Line(lines[i], or20, moments[i].now, moments[i].later, moments[i].wall, moments[i].rcs))
  }

  lemma LineOpsAppend(a: seq<string>, b: seq<string>, or20: bool, moments: seq<Moment>)
    requires |a| + |b| <= |moments|
    ensures LineOps(a + b, or20, moments)
         == LineOps(a, or20, moments[..|a|]) + LineOps(b, or20, moments[|a|..])
  {
  }

  lemma {:induction false} TimelyAppend(a: seq<DaemonOp>, b: seq<DaemonOp>, clock: nat)
    requires Timely(a + b, clock)
    ensures Timely(a, clock) && Timely(b, TimeAfter(a, clock))
    decreases |a|
  {
    if a == [] {
      assert a + b == b;
    } else {
      assert (a + b)[1..] == a[1..] + b;
      TimelyAppend(a[1..], b, if a[0].Usb? then clock else a[0].later);
    }
  }

  lemma FormedAppend(a: seq<DaemonOp>, b: seq<DaemonOp>)
    requires AllFormed(a + b)
    ensures AllFormed(a) && AllFormed(b)
  {
    assert forall op | op in a || op in b :: op in a + b;
  }

  /** The moments suffice for the lines, and the clock does not run backwards. */
  predicate InTime(lines: seq<string>, or20: bool, moments: seq<Moment>, clock: nat) {
    |lines| <= |moments| && AllFormed(LineOps(lines, or20, moments)) && Timely(LineOps(lines, or20, moments), clock)
  }

  lemma InTimeAppend(a: seq<string>, b: seq<string>, or20: bool, moments: seq<Moment>, clock: nat)
    requires InTime(a + b, or20, moments, clock)
    ensures InTime(a, or20, moments[..|a|], clock)
    ensures InTime(b, or20, moments[|a|..], TimeAfter(LineOps(a, or20, moments[..|a|]), clock))
  {
    hide AllFormed, Timely, TimeAfter, LineOps;
    LineOpsAppend(a, b, or20, moments);
    FormedAppend(LineOps(a, or20, moments[..|a|]), LineOps(b, or20, moments[|a|..]));
    TimelyAppend(LineOps(a, or20, moments[..|a|]), LineOps(b, or20, moments[|a|..]), clock);
  }

  lemma NothingRead(framer: F.Framer, or20: bool, moments: seq<Moment>, p: Past)
    ensures F.Feed(framer, F.Concat([])) == (framer, []) && LineOps([], or20, moments) == []
    ensures AllAnswered([], p, []) && AfterAll([], p, []) == p
  {
  }

  /** What a client sends, whatever reads it arrives in, does what the lines of the whole stream do. */
  method ReceiveReads(client: F.EncodeState, d: Daemon, chunks: seq<string>, or20: bool, moments: seq<Moment>,
                      ghost clock: nat)
    returns (answers: seq<bool>)
    requires client.Valid() && d.Valid() && d.dups.clock <= clock
    requires InTime(F.Feed(client.Abs(), F.Concat(chunks)).1, or20, moments, clock)
    modifies client, client.remainder
    modifies d`cfg, d`usb, d.tables, d.tables.state, d.tables.selected, d.tables.dim, d.tables.proto
    modifies d.sensors, d.sensors.records, d.dups, d.dups.dups, d.engine, d.engine.ring, d.engine.ring.outrecs
    ensures client.Valid() && d.Valid()
    ensures var (framer, lines) := F.Feed(old(client.Abs()), F.Concat(chunks));
            var ops := LineOps(lines, or20, moments);
            && client.Abs() == framer
            && AllAnswered(ops, old(d.Recorded()), answers) && |answers| == |ops|
            && d.Recorded() == AfterAll(ops, old(d.Recorded()), answers)
    decreases |chunks|
  {
    hide F.Feed, AllFormed, Timely, TimeAfter, LineOps, TransmitsInOrder, AllAnswered, AfterAll;
    if chunks == [] {
      NothingRead(client.Abs(), or20, moments, d.Recorded());
      return [];
    }
    ghost var framer, start, stream := client.Abs(), d.Recorded(), F.Concat(chunks[1..]);
    F.FeedAppends(framer, chunks[0], stream);
    var lines := client.Encode(chunks[0]);
    ghost var later := F.Feed(client.Abs(), stream).1;
    InTimeAppend(lines, later, or20, moments, clock);
    var first := d.PerformAll(LineOps(lines, or20, moments[..|lines|]), clock);
    var rest := ReceiveReads(client, d, chunks[1..], or20, moments[|lines|..],
                             TimeAfter(LineOps(lines, or20, moments[..|lines|]), clock));
    answers := first + rest;
    LineOpsAppend(lines, later, or20, moments);
    MoreOperations(LineOps(lines, or20, moments[..|lines|]), LineOps(later, or20, moments[|lines|..]), start,
                   first, rest);
  }

  // ---- everything the loop does ----

  /** A line, a packet or a USB event, or something that happens to the clients. */
  datatype LoopOp = Input(op: DaemonOp) | OnTables(table: TableOp)

  function InputOf(l: LoopOp): seq<DaemonOp> { if l.Input? then [l.op] else [] }

  function Inputs(run: seq<LoopOp>): seq<DaemonOp> {
    if run == [] then [] else InputOf(run[0]) + Inputs(run[1..])
  }

  /** How an event reads at a time of day; the words are left open. */
  type Wording = (int, Announcement) -> seq<byte>

  function Worded(events: seq<Announcement>, wall: int, text: Wording): seq<seq<byte>> {
    if events == [] then [] else [text(wall, events[0])] + Worded(events[1..], wall, text)
  }

  /** There is a line for each event, in its place. */
  lemma {:induction false} EachIsWorded(events: seq<Announcement>, wall: int, text: Wording)
    ensures |Worded(events, wall, text)| == |events|
    ensures forall i | 0 <= i < |events| :: Worded(events, wall, text)[i] == text(wall, events[i])
  {
    if events != [] { EachIsWorded(events[1..], wall, text); }
  }

  /** The lines that tell the clients of the events among the actions of an input. */
  function LinesBy(op: DaemonOp, cfg: Config, dup: bool, text: Wording): seq<seq<byte>>
    requires op.Formed()
  {
    if op.Usb? then [] else Worded(Announcements(ActionsOf(op, cfg, dup)), op.wall, text)
  }

  /** All lines that tell of events, in the order of the inputs and of the actions of each. */
  function LinesByAll(ops: seq<DaemonOp>, p: Past, dups: seq<bool>, text: Wording): seq<seq<byte>>
    requires AllFormed(ops) && |dups| == |ops|
    decreases |ops|
  {
    if ops == [] then []
    else
      FormedFirst(ops);
      LinesBy(ops[0], p.cfg, dups[0], text) + LinesByAll(ops[1..], After(ops[0], p, dups[0]), dups[1..], text)
  }

  function Tell(lines: seq<seq<byte>>): seq<TableOp> {
    if lines == [] then [] else [Broadcasting(lines[0])] + Tell(lines[1..])
  }

  /** What happens to the client tables. */
  function TableOps(run: seq<LoopOp>, p: Past, dups: seq<bool>, text: Wording): seq<TableOp>
    requires AllFormed(Inputs(run)) && |dups| == |Inputs(run)|
    decreases |run|
  {
    if run == [] then []
    else if run[0].OnTables? then [run[0].table] + TableOps(run[1..], p, dups, text)
    else
      FirstInput(run);
      Tell(LinesBy(run[0].op, p.cfg, dups[0], text))
      + TableOps(run[1..], After(run[0].op, p, dups[0]), dups[1..], text)
  }

  lemma FirstOfTheRun(run: seq<LoopOp>, p: Past, dup: bool, rest: seq<bool>, text: Wording)
    requires run != [] && run[0].Input? && run[0].op.Formed() && AllFormed(Inputs(run)) && AllFormed(Inputs(run[1..]))
    requires Answered(run[0].op, p, dup) && AllAnswered(Inputs(run[1..]), After(run[0].op, p, dup), rest)
    requires |rest| == |Inputs(run[1..])|
    ensures |[dup] + rest| == |Inputs(run)| && AllAnswered(Inputs(run), p, [dup] + rest)
    ensures AfterAll(Inputs(run), p, [dup] + rest) == AfterAll(Inputs(run[1..]), After(run[0].op, p, dup), rest)
    ensures TableOps(run, p, [dup] + rest, text)
         == Tell(LinesBy(run[0].op, p.cfg, dup, text)) + TableOps(run[1..], After(run[0].op, p, dup), rest, text)
  {
    hide After, Answered, AllFormed, Tell, LinesBy;
    FirstInput(run);
    FirstAnswer(Inputs(run), p, dup, rest);
    assert ([dup] + rest)[0] == dup && ([dup] + rest)[1..] == rest;
  }

  lemma FirstInput(run: seq<LoopOp>)
    requires run != [] && run[0].Input? && AllFormed(Inputs(run))
    ensures Inputs(run)[0] == run[0].op && Inputs(run)[1..] == Inputs(run[1..])
    ensures run[0].op.Formed() && AllFormed(Inputs(run[1..]))
  {
    FormedFirst(Inputs(run));
  }

  lemma TellsOne(line: seq<byte>, more: seq<TableOp>)
    ensures Broadcasts([Broadcasting(line)] + more) == [line] + Broadcasts(more)
  {
    assert ([Broadcasting(line)] + more)[1..] == more;
  }

  lemma {:induction false} TellsAll(lines: seq<seq<byte>>, more: seq<TableOp>)
    ensures Broadcasts(Tell(lines) + more) == lines + Broadcasts(more)
  {
    if lines == [] {
      assert Tell(lines) + more == more;
    } else {
      TellsAll(lines[1..], more);
      TellsOne(lines[0], Tell(lines[1..]) + more);
      Associate([Broadcasting(lines[0])], Tell(lines[1..]), more);
      Associate([lines[0]], lines[1..], Broadcasts(more));
      assert lines == [lines[0]] + lines[1..];
    }
  }

  /** The events are among the lines sent to all clients, in order. */
  lemma {:induction false} EventsAreBroadcast(run: seq<LoopOp>, p: Past, dups: seq<bool>, text: Wording)
    requires AllFormed(Inputs(run)) && |dups| == |Inputs(run)|
    ensures InOrder(LinesByAll(Inputs(run), p, dups, text), Broadcasts(TableOps(run, p, dups, text)))
    decreases |run|
  {
    hide LinesBy, After;
    if run != [] {
      if run[0].OnTables? {
        EventsAreBroadcast(run[1..], p, dups, text);
        assert Inputs(run) == Inputs(run[1..]);
        var lines, rest := LinesByAll(Inputs(run), p, dups, text), TableOps(run[1..], p, dups, text);
        assert ([run[0].table] + rest)[1..] == rest;
        if run[0].table.Broadcasting? {
          SkipOne(lines, run[0].table.line, Broadcasts(rest));
        } else {
          assert [] + Broadcasts(rest) == Broadcasts(rest);
        }
      } else {
        FirstInput(run);
        var q := After(run[0].op, p, dups[0]);
        EventsAreBroadcast(run[1..], q, dups[1..], text);
        var lines := LinesBy(run[0].op, p.cfg, dups[0], text);
        TellsAll(lines, TableOps(run[1..], q, dups[1..], text));
        InOrderAfter(lines, LinesByAll(Inputs(run[1..]), q, dups[1..], text),
                     Broadcasts(TableOps(run[1..], q, dups[1..], text)));
      }
    }
  }

  lemma {:induction false} InOrderAfter<T>(before: seq<T>, few: seq<T>, many: seq<T>)
    requires InOrder(few, many)
    ensures InOrder(before + few, before + many)
  {
    if before == [] {
      assert before + few == few && before + many == many;
    } else {
      InOrderAfter(before[1..], few, many);
      assert (before + few)[1..] == before[1..] + few && (before + many)[1..] == before[1..] + many;
    }
  }

  /**
   Every main and XML client that stays connected is told every event of every line and packet, whole, in its
   form and in order, among whatever else it is sent; what it has received and what is queued for it is all of it.
   */
  lemma EveryClientIsToldEveryEvent(run: seq<LoopOp>, p: Past, dups: seq<bool>, text: Wording, k: int, s: Slot)
    requires AllFormed(Inputs(run)) && |dups| == |Inputs(run)|
    requires s.out.Sound() && s.fd > 0 && k != OPENREMOTE && Survives(TableOps(run, p, dups, text), k, s)
    ensures var ops := TableOps(run, p, dups, text);
            var t, messages := SlotAfterAll(ops, k, s), MessagesTo(ops, k, s.fd);
            && t.out.delivered + t.out.contents == s.out.enqueued + Joined(messages)
            && InOrder(FormsOf(k, LinesByAll(Inputs(run), p, dups, text)), messages)
  {
    hide Survives, SlotAfterAll, TableOps, LinesByAll, Broadcasts, MessagesTo, InOrder, Inputs, FormsOf;
    var ops, lines := TableOps(run, p, dups, text), LinesByAll(Inputs(run), p, dups, text);
    EveryBroadcastIsHeard(ops, k, s);
    EventsAreBroadcast(run, p, dups, text);
    FormsInOrder(k, lines, Broadcasts(ops));
    InOrderThrough(FormsOf(k, lines), FormsOf(k, Broadcasts(ops)), MessagesTo(ops, k, s.fd));
  }

  predicate Acceptable(run: seq<LoopOp>) {
    forall l | l in run && l.OnTables? && l.table.Accepting? :: l.table.kind < 3
  }

  lemma OneByOne(run: seq<LoopOp>, clock: nat)
    requires run != [] && Acceptable(run) && AllFormed(Inputs(run)) && Timely(Inputs(run), clock)
    ensures Acceptable(run[1..])
    ensures if run[0].Input? then
              && run[0].op.Formed() && AllFormed(Inputs(run[1..]))
              && (!run[0].op.Usb? ==> clock <= run[0].op.now <= run[0].op.later)
              && Timely(Inputs(run[1..]), if run[0].op.Usb? then clock else run[0].op.later)
            else
              && (run[0].table.Accepting? ==> run[0].table.kind < 3)
              && Inputs(run[1..]) == Inputs(run)
  {
    assert run[0] in run && forall l | l in run[1..] :: l in run;
    if run[0].Input? { FirstInput(run); }
  }

  lemma {:induction false} TellIsBroadcast(lines: seq<seq<byte>>)
    ensures forall op | op in Tell(lines) :: op.Broadcasting?
  {
    if lines != [] { TellIsBroadcast(lines[1..]); }
  }

  lemma NothingHappened(t: ClientTables, p: Past, text: Wording)
    requires t.Valid()
    ensures Inputs([]) == [] && AllAnswered([], p, []) && AfterAll([], p, []) == p
    ensures ClientsFollow(t.slots, t.slots, TableOps([], p, [], text))
  {
  }

  /** An input is carried out and its events are told to the clients. */
  method CarryOut(d: Daemon, t: ClientTables, op: DaemonOp, text: Wording) returns (dup: bool)
    requires d.Valid() && t.Valid() && op.Formed() && (!op.Usb? ==> d.dups.clock <= op.now <= op.later)
    modifies d`cfg, d`usb, d.tables, d.tables.state, d.tables.selected, d.tables.dim, d.tables.proto
    modifies d.sensors, d.sensors.records, d.dups, d.dups.dups, d.engine, d.engine.ring, d.engine.ring.outrecs, t
    ensures d.Valid() && t.Valid() && d.dups.clock <= if op.Usb? then old(d.dups.clock) else op.later
    ensures Answered(op, old(d.Recorded()), dup) && d.Recorded() == After(op, old(d.Recorded()), dup)
    ensures ClientsFollow(old(t.slots), t.slots, Tell(LinesBy(op, old(d.cfg), dup, text)))
  {
    hide After, Answered, Tell, ClientsFollow, Worded, ActionsOf, Announcements;
    var acts;
    dup, acts := d.PerformOne(op);
    var lines := if op.Usb? then [] else Worded(Announcements(acts), op.wall, text);
    TellIsBroadcast(lines);
    PerformAll(t, Tell(lines));
  }

  /**
   Any run of the loop: the daemon's state is what the inputs alone make of it, and every client that stays
   connected ends as the announcements and what else happened to it, one by one, leave it.
   */
  method Loop(d: Daemon, t: ClientTables, run: seq<LoopOp>, text: Wording, ghost clock: nat)
    returns (answers: seq<bool>)
    requires d.Valid() && t.Valid() && d.dups.clock <= clock
    requires AllFormed(Inputs(run)) && Timely(Inputs(run), clock) && Acceptable(run)
    modifies d`cfg, d`usb, d.tables, d.tables.state, d.tables.selected, d.tables.dim, d.tables.proto
    modifies d.sensors, d.sensors.records, d.dups, d.dups.dups, d.engine, d.engine.ring, d.engine.ring.outrecs, t
    ensures d.Valid() && t.Valid()
    ensures AllAnswered(Inputs(run), old(d.Recorded()), answers) && |answers| == |Inputs(run)|
    ensures d.Recorded() == AfterAll(Inputs(run), old(d.Recorded()), answers)
    ensures ClientsFollow(old(t.slots), t.slots, TableOps(run, old(d.Recorded()), answers, text))
    decreases |run|
  {
    hide AllFormed, Timely, After, Answered, AllAnswered, AfterAll, Tell, LinesBy, ClientsFollow, Acceptable, Inputs,
         Daemon.Valid;
    if run == [] {
      NothingHappened(t, d.Recorded(), text);
      return [];
    }
    OneByOne(run, clock);
    ghost var start, before := d.Recorded(), t.slots;
    if run[0].OnTables? {
      PerformAll(t, [run[0].table]);
      ghost var middle := t.slots;
      answers := Loop(d, t, run[1..], text, clock);
      FollowOn(before, middle, t.slots, [run[0].table], TableOps(run[1..], start, answers, text));
    } else {
      var op := run[0].op;
      var dup := CarryOut(d, t, op, text);
      ghost var middle := t.slots;
      var rest := Loop(d, t, run[1..], text, if op.Usb? then clock else op.later);
      answers := [dup] + rest;
      FirstOfTheRun(run, start, dup, rest, text);
      FollowOn(before, middle, t.slots, Tell(LinesBy(op, start.cfg, dup, text)),
               TableOps(run[1..], After(op, start, dup), rest, text));
    }
  }
}
