/** What holds of every command line and every received packet. */
module CommandTheorems {
  import opened Bytes
  import opened Codec
  import opened CommandPath
  import opened DeviceState

  // ---- parts of an action list ----

  function EventsIn(a: Action): seq<Event> { if a.Dispatch? then [a.event] else [] }
  function WiresIn(a: Action): seq<seq<byte>> { if a.Transmit? then [a.packet] else [] }
  function LogIn(a: Action): History { if a.Device? then [a.ev] else [] }

  /** The event lines for the clients. */
  function Events(acts: seq<Action>): seq<Event> {
    if acts == [] then [] else EventsIn(acts[0]) + Events(acts[1..])
  }

  /** An event as the clients are told of it: heard from outside, or sent. */
  datatype Announcement = Announcement(received: bool, event: Event)

  function AnnouncedIn(a: Action): seq<Announcement> { if a.Dispatch? then [Announcement(a.received, a.event)] else [] }

  function Announcements(acts: seq<Action>): seq<Announcement> {
    if acts == [] then [] else AnnouncedIn(acts[0]) + Announcements(acts[1..])
  }

  lemma {:induction false} AnnouncementsAppend(a: seq<Action>, b: seq<Action>)
    ensures Announcements(a + b) == Announcements(a) + Announcements(b)
  {
    hide AnnouncedIn;
    if a == [] {
      assert a + b == b;
    } else {
      AnnouncementsAppend(a[1..], b);
      assert a + b == [a[0]] + (a[1..] + b);
      Associate(AnnouncedIn(a[0]), Announcements(a[1..]), Announcements(b));
    }
  }

  /** Each event is announced once, in its place. */
  lemma {:induction false} AnnouncementsAreEvents(acts: seq<Action>)
    ensures |Announcements(acts)| == |Events(acts)|
    ensures forall i | 0 <= i < |Events(acts)| :: Announcements(acts)[i].event == Events(acts)[i]
  {
    if acts != [] { AnnouncementsAreEvents(acts[1..]); }
  }

  /** The packets handed to x10_write. */
  function Wires(acts: seq<Action>): seq<seq<byte>> {
    if acts == [] then [] else WiresIn(acts[0]) + Wires(acts[1..])
  }

  /** The events the house and unit tables see. */
  function TableLog(acts: seq<Action>): History {
    if acts == [] then [] else LogIn(acts[0]) + TableLog(acts[1..])
  }

  /** A change of the sensor table or of the settings. */
  predicate IsChange(a: Action) { a.Sensor? || a.ClearSensors? || a.SetRfToPl? || a.SetRfToRf? }

  function ChangesIn(a: Action): seq<Action> { if IsChange(a) then [a] else [] }

  /** The changes of the sensor table and of the settings, in order. */
  function Changes(acts: seq<Action>): seq<Action> {
    if acts == [] then [] else ChangesIn(acts[0]) + Changes(acts[1..])
  }

  lemma Associate<T>(a: seq<T>, b: seq<T>, c: seq<T>)
    ensures a + (b + c) == (a + b) + c
  {
  }

  lemma {:induction false} EventsAppend(a: seq<Action>, b: seq<Action>)
    ensures Events(a + b) == Events(a) + Events(b)
  {
    hide EventsIn;
    if a == [] {
      assert a + b == b;
    } else {
      EventsAppend(a[1..], b);
      assert a + b == [a[0]] + (a[1..] + b);
      Associate(EventsIn(a[0]), Events(a[1..]), Events(b));
    }
  }

  lemma {:induction false} WiresAppend(a: seq<Action>, b: seq<Action>)
    ensures Wires(a + b) == Wires(a) + Wires(b)
  {
    hide WiresIn;
    if a == [] {
      assert a + b == b;
    } else {
      WiresAppend(a[1..], b);
      assert a + b == [a[0]] + (a[1..] + b);
      Associate(WiresIn(a[0]), Wires(a[1..]), Wires(b));
    }
  }

  lemma {:induction false} LogAppend(a: seq<Action>, b: seq<Action>)
    ensures TableLog(a + b) == TableLog(a) + TableLog(b)
  {
    hide LogIn;
    if a == [] {
      assert a + b == b;
    } else {
      LogAppend(a[1..], b);
      assert a + b == [a[0]] + (a[1..] + b);
      Associate(LogIn(a[0]), TableLog(a[1..]), TableLog(b));
    }
  }

  lemma {:induction false} ChangesAppend(a: seq<Action>, b: seq<Action>)
    ensures Changes(a + b) == Changes(a) + Changes(b)
  {
    hide ChangesIn;
    if a == [] {
      assert a + b == b;
    } else {
      ChangesAppend(a[1..], b);
      assert a + b == [a[0]] + (a[1..] + b);
      Associate(ChangesIn(a[0]), Changes(a[1..]), Changes(b));
    }
  }

  lemma PartsAppend(a: seq<Action>, b: seq<Action>)
    ensures Events(a + b) == Events(a) + Events(b)
    ensures Wires(a + b) == Wires(a) + Wires(b)
    ensures TableLog(a + b) == TableLog(a) + TableLog(b)
    ensures Changes(a + b) == Changes(a) + Changes(b)
  {
    EventsAppend(a, b);
    WiresAppend(a, b);
    LogAppend(a, b);
    ChangesAppend(a, b);
  }

  lemma OnePart(a: Action)
    ensures Events([a]) == EventsIn(a) && Wires([a]) == WiresIn(a) && TableLog([a]) == LogIn(a)
    ensures Changes([a]) == ChangesIn(a)
  {
  }

  /** The parts of a three-action list. */
  lemma ThreeParts(a: Action, b: Action, c: Action)
    ensures var acts := [a, b, c];
            && Events(acts) == EventsIn(a) + EventsIn(b) + EventsIn(c)
            && Wires(acts) == WiresIn(a) + WiresIn(b) + WiresIn(c)
            && TableLog(acts) == LogIn(a) + LogIn(b) + LogIn(c)
            && Changes(acts) == ChangesIn(a) + ChangesIn(b) + ChangesIn(c)
  {
    hide Events, Wires, TableLog, Changes, EventsIn, WiresIn, LogIn, ChangesIn;
    PartsAppend([a], [b]);
    PartsAppend([a] + [b], [c]);
    OnePart(a);
    OnePart(b);
    OnePart(c);
    assert [a, b, c] == [a] + [b] + [c];
  }

  // ---- power-line commands ----

  /** The events a power-line command announces. */
  function EventsOf(c: PlCommand): seq<Event>
    requires c.Proper()
  {
    match c
    case SelectUnit(house, unit) => [PlAddress(house, unit + 1)]
    case HouseFunc(house, func) => [PlHouse(house, func)]
    case UnitFunc(house, unit, func) => [PlAddress(house, unit + 1), PlHouse(house, func)]
    case HouseDim(house, func, level) => [PlLevel(house, func, level % 32)]
    case UnitDim(house, unit, func, level) => [PlAddress(house, unit + 1), PlLevel(house, func, level % 32)]
    case Extended(house, unit, command, subcommand, data) =>
      [PlExtended(house, unit + 1, FUNC_EXTENDED_CODE_1, data as byte, CommandByte(command, subcommand))]
  }

  function CommandByte(command: int, subcommand: int): byte
    requires 0 <= command < 256 && 0 <= subcommand < 256
  {
    Pack((command as byte) & 0x0f, (subcommand as byte) & 0x0f)
  }

  /** What the controller is told, packet by packet. */
  function MeaningsOf(c: PlCommand): seq<WireMeaning>
    requires c.Proper()
  {
    match c
    case SelectUnit(house, unit) => [WireAddress(house, unit)]
    case HouseFunc(house, func) => [WireFunc(house, func)]
    case UnitFunc(house, unit, func) => [WireAddress(house, unit), WireFunc(house, func)]
    case HouseDim(house, func, level) => [WireDim(house, func, level % 32)]
    case UnitDim(house, unit, func, level) => [WireAddress(house, unit), WireDim(house, func, level % 32)]
    case Extended(house, unit, command, subcommand, data) =>
      [WireExtended(house, unit, data as byte, CommandByte(command, subcommand))]
  }

  function Meanings(wires: seq<seq<byte>>): seq<WireMeaning> {
    seq(|wires|, i requires 0 <= i < |wires| => ReadWire(wires[i]))
  }

  /** An action list announces these events, tells the controller this, records that, and does nothing else. */
  ghost predicate Means(acts: seq<Action>, events: seq<Event>, meanings: seq<WireMeaning>, log: History) {
    Events(acts) == events && Meanings(Wires(acts)) == meanings && TableLog(acts) == log && Changes(acts) == []
  }

  lemma MeaningsAppend(a: seq<seq<byte>>, b: seq<seq<byte>>)
    ensures Meanings(a + b) == Meanings(a) + Meanings(b)
  {
  }

  lemma MeansAppend(a: seq<Action>, b: seq<Action>, ea: seq<Event>, eb: seq<Event>,
                    ma: seq<WireMeaning>, mb: seq<WireMeaning>, la: History, lb: History)
    requires Means(a, ea, ma, la) && Means(b, eb, mb, lb)
    ensures Means(a + b, ea + eb, ma + mb, la + lb)
  {
    hide Events, Wires, TableLog, Changes, Meanings;
    PartsAppend(a, b);
    MeaningsAppend(Wires(a), Wires(b));
  }

  lemma AddressParts(house: int, unit: int)
    requires IsHouse(house) && IsHouse(unit)
    ensures Means(SendAddress(house, unit), [PlAddress(house, unit + 1)], [WireAddress(house, unit)],
                  [Address(house, unit)])
  {
    AddressRoundTrip(house, unit);
    AddressOnTheWire(house, unit);
    var table, event := Device(Address(house, unit)), Dispatch(false, PlAddress(house, unit + 1));
    var wire := Transmit(AddressWire(house, unit));
    ThreeParts(table, event, wire);
    assert SendAddress(house, unit) == [table, event, wire];
  }

  /** What a house function does to the tables, if anything. */
  function FuncLog(house: int, func: int): History {
    if func == FUNC_ALL_UNITS_OFF || func == FUNC_ALL_LIGHTS_OFF then [AllFunc(house, false)]
    else if func == FUNC_ALL_LIGHTS_ON then [AllFunc(house, true)]
    else if func == FUNC_ON || func == FUNC_STATUS_ON then [Func(house, true)]
    else if func == FUNC_OFF || func == FUNC_STATUS_OFF then [Func(house, false)]
    else []
  }

  lemma DimParts(house: int, func: int, param: int)
    requires IsHouse(house) && func in {FUNC_DIM, FUNC_BRIGHT} && 0 <= param < 256
    ensures Means(SendFunc(house, func, param), [PlLevel(house, func, param % 32)],
                  [WireDim(house, func, param % 32)], [])
  {
    DimRoundTrip(house, func, param);
    DimOnTheWire(house, func, param);
    var event, wire := Dispatch(false, PlLevel(house, func, param % 32)), Transmit(DimWire(house, func, param));
    PartsAppend([event], [wire]);
    OnePart(event);
    OnePart(wire);
  }

  lemma FuncActionParts(house: int, func: int)
    ensures var acts := FuncActions(house, func);
            Events(acts) == [] && Wires(acts) == [] && TableLog(acts) == FuncLog(house, func) && Changes(acts) == []
  {
    if FuncActions(house, func) != [] { OnePart(FuncActions(house, func)[0]); }
  }

  lemma FuncParts(house: int, func: int)
    requires IsHouse(house) && 0 <= func < 16 && func !in {FUNC_DIM, FUNC_BRIGHT}
    ensures Means(SendFunc(house, func, 0), [PlHouse(house, func)], [WireFunc(house, func)], FuncLog(house, func))
  {
    hide Events, Wires, TableLog, Changes, FuncActions, FuncLog, FuncFrame, FuncWire;
    FuncRoundTrip(house, func);
    FuncOnTheWire(house, func);
    var acts, event := FuncActions(house, func), Dispatch(false, PlHouse(house, func));
    var wire := Transmit(FuncWire(house, func));
    PartsAppend(acts + [event], [wire]);
    PartsAppend(acts, [event]);
    FuncActionParts(house, func);
    OnePart(event);
    OnePart(wire);
  }

  /** What a power-line command does to the tables. */
  function LogOf(c: PlCommand): History
    requires c.Proper()
  {
    match c
    case SelectUnit(house, unit) => [Address(house, unit)]
    case HouseFunc(house, func) => FuncLog(house, func)
    case UnitFunc(house, unit, func) => [Address(house, unit)] + FuncLog(house, func)
    case HouseDim(_, _, _) => []
    case UnitDim(house, unit, _, _) => [Address(house, unit)]
    case Extended(house, unit, _, _, data) => [Xdim(house, unit, data as byte)]
  }

  lemma EventTableWire(ev: Event, d: DeviceEvent, packet: seq<byte>)
    ensures Means([Dispatch(false, ev), Device(d), Transmit(packet)], [ev], [ReadWire(packet)], [d])
  {
    hide ReadWire;
    ThreeParts(Dispatch(false, ev), Device(d), Transmit(packet));
  }

  lemma ExtendedParts(house: int, unit: int, command: int, subcommand: int, data: int)
    requires Extended(house, unit, command, subcommand, data).Proper()
    ensures var c := Extended(house, unit, command, subcommand, data);
            Means(PerformPl(c), EventsOf(c), MeaningsOf(c), LogOf(c))
  {
    hide Means, ReadWire, DecodePlc, ExtendedFrame, ExtendedWire, Pack;
    ExtendedRoundTrip(house, unit, command, subcommand, data);
    ExtendedOnTheWire(house, unit, command, subcommand, data);
    var wire := ExtendedWire(house, unit, command, subcommand, data);
    var event := PlExtended(house, unit + 1, FUNC_EXTENDED_CODE_1, data as byte, CommandByte(command, subcommand));
    var table := Xdim(house, unit, data as byte);
    EventTableWire(event, table, wire);
    assert [Dispatch(false, event), Device(table)] + [Transmit(wire)]
        == [Dispatch(false, event), Device(table), Transmit(wire)];
  }

  lemma UnitFuncParts(house: int, unit: int, func: int)
    requires UnitFunc(house, unit, func).Proper()
    ensures Means(SendAddress(house, unit) + SendFunc(house, func, 0),
                  [PlAddress(house, unit + 1), PlHouse(house, func)],
                  [WireAddress(house, unit), WireFunc(house, func)], [Address(house, unit)] + FuncLog(house, func))
  {
    hide Means, SendAddress, SendFunc, FuncLog;
    AddressParts(house, unit);
    FuncParts(house, func);
    MeansAppend(SendAddress(house, unit), SendFunc(house, func, 0),
                [PlAddress(house, unit + 1)], [PlHouse(house, func)],
                [WireAddress(house, unit)], [WireFunc(house, func)], [Address(house, unit)], FuncLog(house, func));
    assert [PlAddress(house, unit + 1)] + [PlHouse(house, func)] == [PlAddress(house, unit + 1), PlHouse(house, func)];
    assert [WireAddress(house, unit)] + [WireFunc(house, func)] == [WireAddress(house, unit), WireFunc(house, func)];
  }

  lemma UnitDimParts(house: int, unit: int, func: int, level: int)
    requires UnitDim(house, unit, func, level).Proper()
    ensures var event, meaning := PlLevel(house, func, level % 32), WireDim(house, func, level % 32);
            Means(SendAddress(house, unit) + SendFunc(house, func, level), [PlAddress(house, unit + 1), event],
                  [WireAddress(house, unit), meaning], [Address(house, unit)])
  {
    hide Means, SendAddress, SendFunc;
    AddressParts(house, unit);
    DimParts(house, func, level);
    var event, meaning := PlLevel(house, func, level % 32), WireDim(house, func, level % 32);
    MeansAppend(SendAddress(house, unit), SendFunc(house, func, level), [PlAddress(house, unit + 1)], [event],
                [WireAddress(house, unit)], [meaning], [Address(house, unit)], []);
    assert [PlAddress(house, unit + 1)] + [event] == [PlAddress(house, unit + 1), event];
    assert [WireAddress(house, unit)] + [meaning] == [WireAddress(house, unit), meaning];
    assert [Address(house, unit)] + [] == [Address(house, unit)];
  }

  /** Every power-line command announces itself, is told to the controller and is recorded as what it is. */
  lemma PlCommandRoundTrip(c: PlCommand)
    requires c.Proper()
    ensures Means(PerformPl(c), EventsOf(c), MeaningsOf(c), LogOf(c))
  {
    hide Means, SendAddress, SendFunc, FuncLog;
    match c
    case SelectUnit(house, unit) => AddressParts(house, unit);
    case HouseFunc(house, func) => FuncParts(house, func);
    case UnitFunc(house, unit, func) => UnitFuncParts(house, unit, func);
    case HouseDim(house, func, level) => DimParts(house, func, level);
    case UnitDim(house, unit, func, level) => UnitDimParts(house, unit, func, level);
    case Extended(house, unit, command, subcommand, data) => ExtendedParts(house, unit, command, subcommand, data);
  }

  /** Replies at most. */
  predicate Silent(acts: seq<Action>) {
    Events(acts) == [] && Wires(acts) == [] && TableLog(acts) == [] && Changes(acts) == []
  }

  lemma SilentAround(before: seq<Action>, acts: seq<Action>, after: seq<Action>)
    requires Silent(before) && Silent(after)
    ensures Events(before + (acts + after)) == Events(acts) && Wires(before + (acts + after)) == Wires(acts)
    ensures TableLog(before + (acts + after)) == TableLog(acts) && Changes(before + (acts + after)) == Changes(acts)
  {
    PartsAppend(acts, after);
    PartsAppend(before, acts + after);
  }

  lemma RepliesAreSilent(rest: seq<string>)
    ensures Silent([Reply]) && Silent(CheckEnd(rest)) && Silent([])
  {
    OnePart(Reply);
  }

  /** The same for the text: whatever PL line the tokens spell, exactly that command is carried out. */
  lemma PlLineRoundTrip(cfg: Config, dup: bool, or20: bool, line: string)
    requires IsPlLine(line)
    ensures var acts := ProcessLine(cfg, dup, or20, line);
            match ParsePl(Tokens(line)[1..])
            case NotACommand => Silent(acts)
            case Parsed(c, _, _) => Means(acts, EventsOf(c), MeaningsOf(c), LogOf(c))
  {
    var args := Tokens(line)[1..];
    var ok: seq<Action> := if or20 then [Reply] else [];
    assert ProcessLine(cfg, dup, or20, line) == ok + PlActions(args);
    match ParsePl(args)
    case NotACommand =>
      RepliesAreSilent([]);
      SilentAround(ok, [], []);
    case Parsed(c, checked, rest) =>
      PlCommandRoundTrip(c);
      RepliesAreSilent(rest);
      SilentAround(ok, PerformPl(c), if checked then CheckEnd(rest) else []);
  }
}
