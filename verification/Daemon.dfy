/**
 The whole state of the daemon: the duplicate filter, the house and unit tables, the sensor table, the
 transmit engine and the bridge and repeat settings, under lines, packets and everything USB does.
 */
module Daemon {
  import opened Bytes
  import opened Wrappers
  import opened Codec
  import opened CommandPath
  import opened CommandTheorems
  import opened BridgeTheorems
  import opened Effects
  import opened FilterQueries
  import D = DeviceState
  import F = DupFilter
  import R = TransmitRuns
  import S = SensorTable
  import T = TransmitSpec
  import TransmitEngine

  /** The client writes the transmit engine sees; `rcs` is what libusb answers to them. */
  function WriteEvents(wires: seq<seq<byte>>, rcs: seq<int>): (run: seq<T.Event>)
    requires |wires| <= |rcs|
    ensures |run| == |wires|
  {
    seq(|wires|, i requires 0 <= i < |wires| => T.Write(wires[i], rcs[i]))
  }

  lemma NoWrites(rcs: seq<int>)
    ensures WriteEvents([], rcs) == []
  {
  }

  lemma FirstWrite(p: seq<byte>, wires: seq<seq<byte>>, rcs: seq<int>)
    requires |wires| < |rcs|
    ensures WriteEvents([p] + wires, rcs) == [T.Write(p, rcs[0])] + WriteEvents(wires, rcs[1..])
  {
  }

  lemma NoActions(cfg: Config, now: int)
    ensures Wires([]) == [] && TableLog([]) == [] && SensorLog([], now) == [] && ConfiguredBy(cfg, []) == cfg
  {
  }

  lemma FirstAction(cfg: Config, acts: seq<Action>, now: int)
    requires acts != [] && TablesSafe(acts)
    ensures Wires(acts) == if acts[0].Transmit? then [acts[0].packet] + Wires(acts[1..]) else Wires(acts[1..])
    ensures TableLog(acts) == LogIn(acts[0]) + TableLog(acts[1..])
    ensures SensorLog(acts, now) == SensorIn(acts[0], now) + SensorLog(acts[1..], now)
    ensures ConfiguredBy(cfg, acts) == ConfiguredBy(Configured(cfg, acts[0]), acts[1..])
    ensures TablesSafe(acts[1..]) && (acts[0].Device? ==> InTables(acts[0].ev))
  {
    hide LogIn, SensorIn, Configured, InTables;
    assert acts[0] in acts && forall a | a in acts[1..] :: a in acts;
  }

  lemma NothingButAWrite(a: Action, now: int)
    requires a.Transmit?
    ensures LogIn(a) == [] && SensorIn(a, now) == [] && forall cfg :: Configured(cfg, a) == cfg
  {
  }

  /** The state of the engine is the one a legal run of events leads to. */
  ghost predicate EngineFollows(cm19a: bool, usb: seq<T.Event>, e: T.Engine) {
    T.Legal(T.Initial(cm19a), usb) && e == T.Run(T.Initial(cm19a), usb)
  }

  lemma EngineStep(cm19a: bool, usb: seq<T.Event>, e: T.Engine, ev: T.Event)
    requires EngineFollows(cm19a, usb, e) && T.Enabled(e, ev)
    ensures EngineFollows(cm19a, usb + [ev], T.Step(e, ev))
  {
    hide T.Step, T.Enabled;
    R.RunAppends(T.Initial(cm19a), usb, ev);
  }

  lemma WriteIsEnabled(e: T.Engine, p: seq<byte>, rc: int)
    ensures T.Enabled(e, T.Write(p, rc))
  {
  }

  /** What holds of the transmit path after any such run. */
  ghost predicate TransmitsInOrder(cm19a: bool, usb: seq<T.Event>, e: T.Engine) {
    T.Inv(e) && e.line.log.sent + e.line.queue == R.AcceptedBy(T.Initial(cm19a), usb)
  }

  lemma FollowersTransmitInOrder(cm19a: bool, usb: seq<T.Event>, e: T.Engine)
    requires EngineFollows(cm19a, usb, e)
    ensures TransmitsInOrder(cm19a, usb, e)
  {
    R.RunKeepsInv(T.Initial(cm19a), usb);
    R.FifoOverEveryRun(cm19a, usb);
  }

  // ---- everything that can happen ----

  datatype DaemonOp =
    | Line(line: string, or20: bool, now: nat, later: nat, wall: int, rcs: seq<int>)
    | Packet(buf: seq<byte>, len: int, scratch: seq<byte>, clock: seq<byte>,
             now: nat, later: nat, wall: int, rcs: seq<int>)
    | Usb(ev: T.Event)
  {
    predicate Formed() {
      match this
      case Line(_, _, _, _, _, rcs) => |rcs| == 4
      case Packet(buf, len, scratch, clock, _, _, _, rcs) =>
        |rcs| == 3 && |buf| == 8 && 0 <= len <= 8 && |scratch| == 9 && |clock| == 8
      case Usb(_) => true
    }
  }

  /** The monotonic clock does not run backwards. */
  predicate Timely(ops: seq<DaemonOp>, clock: nat)
    decreases |ops|
  {
    ops == [] ||
    if ops[0].Usb? then Timely(ops[1..], clock)
    else clock <= ops[0].now <= ops[0].later && Timely(ops[1..], ops[0].later)
  }

  // ---- what the operations do, as a function of the past ----

  /** The settings, and all that the filter, the tables, the sensor table and the transmit engine have seen. */
  datatype Past = Past(
    cfg: Config,
    decisions: seq<F.Decision>,
    tables: D.History,
    sensors: seq<S.SensorEvent>,
    usb: seq<T.Event>
  ) {
    function EngineState(): T.Engine { T.Run(T.Initial(cfg.cm19a), usb) }
  }

  /** The frame an operation asks the filter about. */
  function AskedBy(op: DaemonOp, cfg: Config): (f: Option<F.Frame>)
    requires op.Formed()
    ensures f.Some? ==> 5 <= |f.value| <= 8
  {
    match op
    case Line(line, _, _, _, _, _) => AskedByLine(line)
    case Packet(buf, len, scratch, _, _, _, _, _) => AskedByPacket(cfg, buf, len, scratch)
    case Usb(_) => None
  }

  function ActionsOf(op: DaemonOp, cfg: Config, dup: bool): (acts: seq<Action>)
    requires op.Formed()
    ensures !op.Usb? ==> |Wires(acts)| <= |op.rcs|
  {
    match op
    case Line(line, or20, _, _, _, _) =>
      LineSendsAtMostFour(cfg, dup, or20, line);
      ProcessLine(cfg, dup, or20, line)
    case Packet(buf, len, scratch, clock, _, _, _, _) =>
      PacketSendsAtMostThree(cfg, dup, buf, len, scratch, clock);
      DecodePacket(cfg, dup, buf, len, scratch, clock)
    case Usb(_) => []
  }

  /** The filter answers what the record of accepted frames says. */
  ghost predicate Answered(op: DaemonOp, p: Past, dup: bool)
    requires op.Formed()
  {
    match AskedBy(op, p.cfg)
    case None => !dup
    case Some(f) => !op.Usb? && F.Answers(F.LastAccepted(p.decisions), f, op.now, dup)
  }

  function Decided(asked: Option<F.Frame>, now: nat, later: nat, dup: bool): seq<F.Decision> {
    match asked
    case None => []
    case Some(f) => [F.Decision(f, if dup then now else later, dup)]
  }

  /** A callback that libusb does not owe is passed over. */
  function After(op: DaemonOp, p: Past, dup: bool): Past
    requires op.Formed()
  {
    if op.Usb? then if T.Enabled(p.EngineState(), op.ev) then p.(usb := p.usb + [op.ev]) else p
    else
      var acts := ActionsOf(op, p.cfg, dup);
      Past(ConfiguredBy(p.cfg, acts),
           p.decisions + Decided(AskedBy(op, p.cfg), op.now, op.later, dup),
           p.tables + TableLog(acts),
           p.sensors + SensorLog(acts, op.wall),
           p.usb + WriteEvents(Wires(acts), op.rcs))
  }

  predicate AllFormed(ops: seq<DaemonOp>) { forall op | op in ops :: op.Formed() }

  lemma FormedFirst(ops: seq<DaemonOp>)
    requires AllFormed(ops) && ops != []
    ensures ops[0].Formed() && AllFormed(ops[1..])
  {
    assert ops[0] in ops && forall op | op in ops[1..] :: op in ops;
  }

  ghost predicate AllAnswered(ops: seq<DaemonOp>, p: Past, dups: seq<bool>)
    requires AllFormed(ops)
    decreases |ops|
  {
    if ops == [] then dups == []
    else
      FormedFirst(ops);
      dups != [] && Answered(ops[0], p, dups[0]) && AllAnswered(ops[1..], After(ops[0], p, dups[0]), dups[1..])
  }

  function AfterAll(ops: seq<DaemonOp>, p: Past, dups: seq<bool>): Past
    requires AllFormed(ops) && |dups| == |ops|
    decreases |ops|
  {
    if ops == [] then p
    else
      FormedFirst(ops);
      AfterAll(ops[1..], After(ops[0], p, dups[0]), dups[1..])
  }

  lemma {:induction false} OneAnswerEach(ops: seq<DaemonOp>, p: Past, dups: seq<bool>)
    requires AllFormed(ops) && AllAnswered(ops, p, dups)
    ensures |dups| == |ops|
    decreases |ops|
  {
    if ops != [] {
      FormedFirst(ops);
      OneAnswerEach(ops[1..], After(ops[0], p, dups[0]), dups[1..]);
    }
  }

  lemma {:induction false} MoreOperations(a: seq<DaemonOp>, b: seq<DaemonOp>, p: Past,
                                         adups: seq<bool>, bdups: seq<bool>)
    requires AllFormed(a) && AllFormed(b) && AllAnswered(a, p, adups) && |adups| == |a|
    requires AllAnswered(b, AfterAll(a, p, adups), bdups) && |bdups| == |b|
    ensures AllFormed(a + b) && AllAnswered(a + b, p, adups + bdups)
    ensures AfterAll(a + b, p, adups + bdups) == AfterAll(b, AfterAll(a, p, adups), bdups)
    decreases |a|
  {
    hide After, Answered;
    if a == [] {
      assert a + b == b && adups + bdups == bdups;
    } else {
      FormedFirst(a);
      MoreOperations(a[1..], b, After(a[0], p, adups[0]), adups[1..], bdups);
      assert (a + b)[0] == a[0] && (a + b)[1..] == a[1..] + b;
      assert (adups + bdups)[0] == adups[0] && (adups + bdups)[1..] == adups[1..] + bdups;
    }
  }

  /** The last clock reading the operations make. */
  function TimeAfter(ops: seq<DaemonOp>, clock: nat): nat
    decreases |ops|
  {
    if ops == [] then clock else TimeAfter(ops[1..], if ops[0].Usb? then clock else ops[0].later)
  }

  // ---- what USB does not reach ----

  predicate SameButUsb(p: Past, q: Past) { p.(usb := []) == q.(usb := []) }

  /** The same line or packet when every submission works. */
  function Untroubled(op: DaemonOp): DaemonOp
    requires !op.Usb?
  {
    op.(rcs := seq(|op.rcs|, _ => 0))
  }

  lemma TroubleDoesNotMatter(op: DaemonOp, p: Past, q: Past, dup: bool)
    requires op.Formed() && !op.Usb? && SameButUsb(p, q) && Answered(op, p, dup)
    ensures Untroubled(op).Formed() && Answered(Untroubled(op), q, dup)
    ensures SameButUsb(After(op, p, dup), After(Untroubled(op), q, dup))
  {
    hide AskedByLine, AskedByPacket, ProcessLine, DecodePacket, F.Answers, Wires, TableLog, ConfiguredBy, SensorLog;
  }

  function Heard(ops: seq<DaemonOp>): seq<DaemonOp> {
    if ops == [] then [] else (if ops[0].Usb? then [] else [Untroubled(ops[0])]) + Heard(ops[1..])
  }

  function HeardAnswers(ops: seq<DaemonOp>, dups: seq<bool>): seq<bool>
    requires |dups| == |ops|
  {
    if ops == [] then [] else (if ops[0].Usb? then [] else [dups[0]]) + HeardAnswers(ops[1..], dups[1..])
  }

  /**
   Whatever libusb answers and whenever its callbacks come, the filter, the tables, the sensors and the
   settings end as the lines and packets alone would have left them with every submission working.
   */
  lemma {:induction false} UsbTouchesOnlyTheWire(ops: seq<DaemonOp>, p: Past, q: Past, dups: seq<bool>)
    requires AllFormed(ops) && AllAnswered(ops, p, dups) && |dups| == |ops| && SameButUsb(p, q)
    ensures AllFormed(Heard(ops)) && |HeardAnswers(ops, dups)| == |Heard(ops)|
    ensures AllAnswered(Heard(ops), q, HeardAnswers(ops, dups))
    ensures SameButUsb(AfterAll(ops, p, dups), AfterAll(Heard(ops), q, HeardAnswers(ops, dups)))
    decreases |ops|
  {
    hide T.Run, T.Enabled, AskedBy, ActionsOf, F.Answers, Answered, Untroubled;
    if ops != [] {
      FormedFirst(ops);
      var op, dup := ops[0], dups[0];
      var rest, restDups := Heard(ops[1..]), HeardAnswers(ops[1..], dups[1..]);
      if !op.Usb? { TroubleDoesNotMatter(op, p, q, dup); }
      var r := if op.Usb? then q else After(Untroubled(op), q, dup);
      UsbTouchesOnlyTheWire(ops[1..], After(op, p, dup), r, dups[1..]);
      if !op.Usb? {
        assert ([Untroubled(op)] + rest)[1..] == rest && ([dup] + restDups)[1..] == restDups;
      } else {
        assert [] + rest == rest && [] + restDups == restDups;
      }
    }
  }

  class Daemon {
    const dups: F.DupFilter
    const tables: D.DeviceTables
    const sensors: S.SensorTable
    const engine: TransmitEngine.TransmitEngine
    var cfg: Config
    ghost var usb: seq<T.Event>   // everything the transmit engine has seen

    ghost predicate Valid()
      reads this, dups, dups.dups, tables, tables.state, tables.selected, tables.dim, tables.proto
      reads sensors, sensors.records, engine, engine.ring, engine.ring.outrecs
    {
      dups.Valid() && tables.Valid() && sensors.Valid() && engine.Valid() && EngineFollows(cfg.cm19a, usb, engine.Abs())
    }

    ghost function Recorded(): Past
      reads this, dups, tables, sensors
    {
      Past(cfg, dups.log, tables.log, sensors.log, usb)
    }

    constructor (cm19a: bool)
      ensures Valid() && cfg == Config(cm19a, {}, 0)
      ensures dups.log == [] && tables.log == [] && sensors.log == [] && usb == []
      ensures dups.clock == 0
    {
      dups := new F.DupFilter();
      tables := new D.DeviceTables();
      sensors := new S.SensorTable();
      engine := new TransmitEngine.TransmitEngine(cm19a);
      cfg, usb := Config(cm19a, {}, 0), [];
    }

    /** A write, a callback, a poll time-out or a shutdown call. */
    method UsbEvent(ev: T.Event)
      requires Valid() && T.Enabled(engine.Abs(), ev)
      modifies `usb, engine, engine.ring, engine.ring.outrecs
      ensures Valid() && usb == old(usb) + [ev]
    {
      hide T.Step, T.Enabled, EngineFollows, F.DupFilter.Valid, D.DeviceTables.Valid, S.SensorTable.Valid,
           TransmitEngine.TransmitEngine.Abs;
      EngineStep(cfg.cm19a, usb, engine.Abs(), ev);
      engine.Perform(ev);
      usb := usb + [ev];
    }

    method Note(ev: D.DeviceEvent)
      requires tables.Valid() && InTables(ev)
      modifies tables, tables.state, tables.selected, tables.dim, tables.proto
      ensures tables.Valid() && tables.log == old(tables.log) + [ev]
    {
      match ev
      case Address(house, unit) => tables.Add(house, unit);
      case Func(house, on) => tables.FuncSelected(house, on);
      case AllFunc(house, on) => tables.FuncAll(house, on);
      case Xdim(house, unit, level) => tables.SetStatusXdim(house, unit, level);
      case Reset => tables.SecInit();
    }

    /** A change of the tables or of the settings. */
    method Record(a: Action, now: int)
      requires Valid() && !a.Transmit? && (a.Device? ==> InTables(a.ev))
      modifies `cfg, tables, tables.state, tables.selected, tables.dim, tables.proto, sensors, sensors.records
      ensures Valid() && cfg == Configured(old(cfg), a)
      ensures tables.log == old(tables.log) + LogIn(a) && sensors.log == old(sensors.log) + SensorIn(a, now)
    {
      hide EngineFollows, TransmitEngine.TransmitEngine.Abs, TransmitEngine.TransmitEngine.Valid, F.DupFilter.Valid,
           D.DeviceTables.Valid, S.SensorTable.Valid;
      match a
      case Device(ev) => Note(ev);
      case Sensor(b0, b1, b2, key, addr8) => sensors.SecEvent(b0, b1, b2, key, addr8, now);
      case ClearSensors => sensors.SecInit();
      case SetRfToPl(houses) => cfg := cfg.(rfToPl := houses);
      case SetRfToRf(value) => cfg := cfg.(rfToRf := value);
      case Dispatch(_, _) =>
      case Reply =>
    }

    /** Carry out actions in order; `rcs` are libusb's answers to the writes among them. */
    method ActAll(acts: seq<Action>, now: int, rcs: seq<int>)
      requires Valid() && TablesSafe(acts) && |Wires(acts)| <= |rcs|
      modifies `cfg, `usb, tables, tables.state, tables.selected, tables.dim, tables.proto, sensors, sensors.records
      modifies engine, engine.ring, engine.ring.outrecs
      ensures Valid() && cfg == ConfiguredBy(old(cfg), acts)
      ensures tables.log == old(tables.log) + TableLog(acts)
      ensures sensors.log == old(sensors.log) + SensorLog(acts, now)
      ensures usb == old(usb) + WriteEvents(Wires(acts), rcs)
      decreases |acts|
    {
      hide D.DeviceTables.Valid, S.SensorTable.Valid, TransmitEngine.TransmitEngine.Valid, T.Step,
           TransmitEngine.TransmitEngine.Abs, LogIn, SensorIn, Configured, WriteEvents, EngineFollows, T.Enabled,
           Wires, TableLog, SensorLog, ConfiguredBy, WiresIn, TablesSafe, F.DupFilter.Valid, InTables;
      NoWrites(rcs);
      NoActions(cfg, now);
      if acts == [] { return; }
      var a := acts[0];
      FirstAction(cfg, acts, now);
      if a.Transmit? {
        FirstWrite(a.packet, Wires(acts[1..]), rcs);
        WriteIsEnabled(engine.Abs(), a.packet, rcs[0]);
        UsbEvent(T.Write(a.packet, rcs[0]));
        NothingButAWrite(a, now);
        ActAll(acts[1..], now, rcs[1..]);
      } else {
        Record(a, now);
        ActAll(acts[1..], now, rcs);
      }
    }

    /** Ask the filter when there is a frame to ask about. */
    method Suppressed(asked: Option<F.Frame>, now: nat, later: nat) returns (dup: bool)
      requires dups.Valid() && dups.clock <= now <= later && (asked.Some? ==> 5 <= |asked.value| <= 8)
      modifies dups, dups.dups
      ensures dups.Valid() && dups.clock <= later
      ensures match asked
              case None => !dup && dups.log == old(dups.log)
              case Some(f) =>
                && F.Answers(F.LastAccepted(old(dups.log)), f, now, dup)
                && dups.log == old(dups.log) + [F.Decision(f, if dup then now else later, dup)]
    {
      dup := false;
      if asked.Some? { dup := dups.Filter(asked.value, now, later); }
    }

    /**
     `now` and `later` are the filter's two clock readings, `wall` the wall clock.
     Any client line: at most four writes, and every table index in range.
     */
    method CommandLine(line: string, or20: bool, now: nat, later: nat, wall: int, rcs: seq<int>)
      returns (dup: bool, acts: seq<Action>)
      requires Valid() && |rcs| == 4 && dups.clock <= now <= later
      modifies `cfg, `usb, tables, tables.state, tables.selected, tables.dim, tables.proto, sensors, sensors.records
      modifies dups, dups.dups, engine, engine.ring, engine.ring.outrecs
      ensures Valid() && acts == ProcessLine(old(cfg), dup, or20, line) && cfg == ConfiguredBy(old(cfg), acts)
      ensures match AskedByLine(line)
              case None => !dup && dups.log == old(dups.log)
              case Some(f) =>
                && F.Answers(F.LastAccepted(old(dups.log)), f, now, dup)
                && dups.log == old(dups.log) + [F.Decision(f, if dup then now else later, dup)]
      ensures tables.log == old(tables.log) + TableLog(acts)
      ensures sensors.log == old(sensors.log) + SensorLog(acts, wall) && dups.clock <= later
      ensures |Wires(acts)| <= 4 && usb == old(usb) + WriteEvents(Wires(acts), rcs)
    {
      hide ProcessLine, TablesSafe, Wires, F.DupFilter.Valid, D.DeviceTables.Valid, S.SensorTable.Valid;
      dup := Suppressed(AskedByLine(line), now, later);
      LineSendsAtMostFour(cfg, dup, or20, line);
      acts := ProcessLine(cfg, dup, or20, line);
      ActAll(acts, wall, rcs);
    }

    /** Any packet from the controller: at most three writes, and every table index in range. */
    method ReceivePacket(buf: seq<byte>, len: int, scratch: seq<byte>, clock: seq<byte>,
                         now: nat, later: nat, wall: int, rcs: seq<int>)
      returns (dup: bool, acts: seq<Action>)
      requires Valid() && |rcs| == 3 && |buf| == 8 && 0 <= len <= 8 && |scratch| == 9 && |clock| == 8
      requires dups.clock <= now <= later
      modifies `cfg, `usb, tables, tables.state, tables.selected, tables.dim, tables.proto, sensors, sensors.records
      modifies dups, dups.dups, engine, engine.ring, engine.ring.outrecs
      ensures Valid() && acts == DecodePacket(old(cfg), dup, buf, len, scratch, clock)
      ensures cfg == ConfiguredBy(old(cfg), acts)
      ensures match AskedByPacket(old(cfg), buf, len, scratch)
              case None => !dup && dups.log == old(dups.log)
              case Some(f) =>
                && F.Answers(F.LastAccepted(old(dups.log)), f, now, dup) && (dup ==> acts == [])
                && dups.log == old(dups.log) + [F.Decision(f, if dup then now else later, dup)]
      ensures tables.log == old(tables.log) + TableLog(acts)
      ensures sensors.log == old(sensors.log) + SensorLog(acts, wall) && dups.clock <= later
      ensures |Wires(acts)| <= 3 && usb == old(usb) + WriteEvents(Wires(acts), rcs)
    {
      hide DecodePacket, TablesSafe, Wires, F.DupFilter.Valid, D.DeviceTables.Valid, S.SensorTable.Valid, AskedByPacket;
      dup := Suppressed(AskedByPacket(cfg, buf, len, scratch), now, later);
      PacketAsksOnce(cfg, buf, len, scratch, clock);
      PacketSendsAtMostThree(cfg, dup, buf, len, scratch, clock);
      acts := DecodePacket(cfg, dup, buf, len, scratch, clock);
      ActAll(acts, wall, rcs);
    }

    /** One of them; libusb runs only callbacks it owes. */
    method PerformOne(op: DaemonOp) returns (dup: bool, acts: seq<Action>)
      requires Valid() && op.Formed() && (!op.Usb? ==> dups.clock <= op.now <= op.later)
      modifies `cfg, `usb, tables, tables.state, tables.selected, tables.dim, tables.proto, sensors, sensors.records
      modifies dups, dups.dups, engine, engine.ring, engine.ring.outrecs
      ensures Valid() && dups.clock <= if op.Usb? then old(dups.clock) else op.later
      ensures Answered(op, old(Recorded()), dup) && Recorded() == After(op, old(Recorded()), dup)
      ensures acts == ActionsOf(op, old(cfg), dup)
      ensures old(usb) <= usb && cfg.cm19a == old(cfg.cm19a)
    {
      hide ProcessLine, DecodePacket, AskedByLine, AskedByPacket, WriteEvents, ConfiguredBy, F.Answers,
           T.Run, D.DeviceTables.Valid, S.SensorTable.Valid, F.DupFilter.Valid;
      ghost var before := cfg;
      dup, acts := false, [];
      match op
      case Line(line, or20, now, later, wall, rcs) =>
        dup, acts := CommandLine(line, or20, now, later, wall, rcs);
        SettingsKeepTheModel(before, acts);
      case Packet(buf, len, scratch, clock, now, later, wall, rcs) =>
        dup, acts := ReceivePacket(buf, len, scratch, clock, now, later, wall, rcs);
        SettingsKeepTheModel(before, acts);
      case Usb(ev) =>
        if    (ev.OutDone? ==> engine.out.pending && engine.out.held)
           && (ev.InDone? ==> engine.inp.pending && engine.inp.held) {
          UsbEvent(ev);
        }
    }

    /**
     Any interleaving of lines, packets, callbacks, time-outs and failing submissions: the whole state is what the
     operations make of it one after the other, each filter answer is the right one, the packets submitted and
     those queued are the accepted ones in order, and every invariant of the transmit path holds.
     */
    method PerformAll(ops: seq<DaemonOp>, ghost clock: nat) returns (answers: seq<bool>)
      requires Valid() && dups.clock <= clock && Timely(ops, clock) && AllFormed(ops)
      modifies `cfg, `usb, tables, tables.state, tables.selected, tables.dim, tables.proto, sensors, sensors.records
      modifies dups, dups.dups, engine, engine.ring, engine.ring.outrecs
      ensures Valid() && AllAnswered(ops, old(Recorded()), answers) && |answers| == |ops|
      ensures Recorded() == AfterAll(ops, old(Recorded()), answers) && dups.clock <= TimeAfter(ops, clock)
      ensures old(usb) <= usb && TransmitsInOrder(cfg.cm19a, usb, engine.Abs())
      decreases |ops|
    {
      hide F.DupFilter.Valid, D.DeviceTables.Valid, S.SensorTable.Valid, EngineFollows, TransmitsInOrder, After,
           Answered, AllFormed;
      if ops == [] {
        FollowersTransmitInOrder(cfg.cm19a, usb, engine.Abs());
        return [];
      }
      FormedFirst(ops);
      ghost var start := Recorded();
      var dup, _ := PerformOne(ops[0]);
      var rest := PerformAll(ops[1..], if ops[0].Usb? then clock else ops[0].later);
      answers := [dup] + rest;
      FirstAnswer(ops, start, dup, rest);
    }
  }

  lemma FirstAnswer(ops: seq<DaemonOp>, p: Past, dup: bool, rest: seq<bool>)
    requires ops != [] && AllFormed(ops) && AllFormed(ops[1..]) && ops[0].Formed() && Answered(ops[0], p, dup)
    requires AllAnswered(ops[1..], After(ops[0], p, dup), rest) && |rest| == |ops| - 1
    ensures AllAnswered(ops, p, [dup] + rest) && |[dup] + rest| == |ops|
    ensures AfterAll(ops, p, [dup] + rest) == AfterAll(ops[1..], After(ops[0], p, dup), rest)
  {
    hide After, Answered, AllFormed;
    assert ([dup] + rest)[0] == dup && ([dup] + rest)[1..] == rest;
  }
}
