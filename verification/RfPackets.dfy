/** RF byte by byte: the frames of each command, what each received frame means, and which frames mean nothing. */
module RfPackets {
  import opened Bytes
  import opened Wrappers
  import opened Codec
  import opened CommandText
  import opened Encoders
  import opened CommandPath
  import opened CommandTheorems
  import opened CommandWords
  import opened BridgeTheorems
  import opened SpelledCommands
  import opened RfTheorems
  import opened RfText
  import opened FilterQueries
  import opened OtherCommands
  import opened Receiving
  import opened Directions
  import opened PlPackets
  import opened DeviceState

  /** The four-bit RF codes of houses A to P. */
  const RF_CODES: seq<byte> :=
    [0x6, 0x7, 0x4, 0x5, 0x8, 0x9, 0xA, 0xB, 0xE, 0xF, 0xC, 0xD, 0x0, 0x1, 0x2, 0x3]

  /** The bits of units 1 to 8 in the second byte of an on; units 9 to 16 have the same and a bit in the first byte. */
  const UNIT_BITS: seq<byte> := [0x00, 0x10, 0x08, 0x18, 0x40, 0x50, 0x48, 0x58]

  function FirstByte(house: int, unit: int): byte
    requires IsHouse(house) && IsHouse(unit)
  {
    Halves(RF_CODES[house], if unit < 8 then 0 else 4)
  }

  function SecondByte(unit: int, off: bool): byte
    requires IsHouse(unit)
  {
    UNIT_BITS[unit % 8] + if off then 0x20 else 0x00
  }

  /** A standard frame, each byte followed by its complement. */
  function Standard(first: byte, second: byte): seq<byte> { [0xeb, 0x20, first, 255 - first, second, 255 - second] }

  lemma Complement(b: byte)
    ensures !b == 255 - b && b ^ (255 - b) == 0xff && b ^ ((255 - b) ^ 0x04) == 0xfb
  {
  }

  lemma StandardIsStandardRf(first: byte, second: byte)
    ensures StandardRf(first, second) == Standard(first, second)
  {
    Complement(first);
    Complement(second);
  }

  lemma RfCodesOf(h: int)
    requires IsHouse(h)
    ensures RF_CODES[h] < 16 && X10_HOUSE_CODE_RF[h] == RF_CODES[h] && HouseOfRf(RF_CODES[h]) == h
  {
    HouseTableRfInverts(h);
  }

  lemma BitsOfUnit(unit: int)
    requires IsHouse(unit)
    ensures SpreadUnit(unit as byte) == UNIT_BITS[unit % 8]
    ensures ((unit as byte) & 0x08) >> 1 == if unit < 8 then 0 else 4
    ensures 0x20 | UNIT_BITS[unit % 8] == UNIT_BITS[unit % 8] + 0x20
  {
    if unit < 8 {
      if unit == 0 {} else if unit == 1 {} else if unit == 2 {} else if unit == 3 {}
      else if unit == 4 {} else if unit == 5 {} else if unit == 6 {} else {}
    } else {
      if unit == 8 {} else if unit == 9 {} else if unit == 10 {} else if unit == 11 {}
      else if unit == 12 {} else if unit == 13 {} else if unit == 14 {} else {}
    }
  }

  /** On and off, function by number. */
  lemma OnOffFrame(house: int, unit: int, off: bool)
    requires IsHouse(house) && IsHouse(unit)
    ensures RfFrame(house, unit, if off then 3 else 2)
         == Some(Standard(FirstByte(house, unit), SecondByte(unit, off)))
  {
    hide RfFrame, FirstByte, SecondByte, Standard, StandardRf, FirstRfByte, OnOffByte;
    BuiltFrame(house, unit, off);
    FirstIsBuilt(house, unit);
    SecondIsBuilt(unit, off);
    StandardIsStandardRf(FirstByte(house, unit), SecondByte(unit, off));
  }

  lemma BuiltFrame(house: int, unit: int, off: bool)
    requires IsHouse(house) && IsHouse(unit)
    ensures X10_HOUSE_CODE_RF[house] < 16
    ensures RfFrame(house, unit, if off then 3 else 2)
         == Some(StandardRf(FirstRfByte(X10_HOUSE_CODE_RF[house], unit as byte), OnOffByte(unit as byte, off)))
  {
    hide StandardRf, FirstRfByte, OnOffByte;
    RfCodesOf(house);
  }

  lemma FirstIsBuilt(house: int, unit: int)
    requires IsHouse(house) && IsHouse(unit)
    ensures X10_HOUSE_CODE_RF[house] < 16
    ensures FirstRfByte(X10_HOUSE_CODE_RF[house], unit as byte) == FirstByte(house, unit)
  {
    RfCodesOf(house);
    BitsOfUnit(unit);
    hide RF_CODES, X10_HOUSE_CODE_RF, UNIT_BITS, SpreadUnit;
    HalvesPack(RF_CODES[house], if unit < 8 then 0 else 4);
  }

  lemma SecondIsBuilt(unit: int, off: bool)
    requires IsHouse(unit)
    ensures OnOffByte(unit as byte, off) == SecondByte(unit, off)
  {
    hide SpreadUnit, UNIT_BITS;
    BitsOfUnit(unit);
  }

  /** Dim and bright; without a unit the bit of units 9 to 16 is set. */
  lemma DimFrame(house: int, unit: int, bright: bool)
    requires IsHouse(house) && -1 <= unit < 16
    ensures var first := FirstByte(house, if unit < 0 then 15 else unit);
            RfFrame(house, unit, if bright then 5 else 4) == Some(Standard(first, if bright then 0x88 else 0x98))
  {
    RfCodesOf(house);
    BitsOfUnit(if unit < 0 then 15 else unit);
    HalvesPack(RF_CODES[house], 0);
    HalvesPack(RF_CODES[house], 4);
    var first := FirstByte(house, if unit < 0 then 15 else unit);
    StandardIsStandardRf(first, 0x88);
    StandardIsStandardRf(first, 0x98);
  }

  // ---- what a frame means ----

  lemma StandardParts(first: byte, second: byte)
    ensures var f := Standard(first, second); |f| == 6 && f[2] == first && f[4] == second
  {
  }

  lemma OnOffDecodes(house: int, unit: int, off: bool)
    requires IsHouse(house) && IsHouse(unit)
    ensures DecodeHouseUnitFunc(FirstByte(house, unit), SecondByte(unit, off))
         == RfCommand(house, unit + 1, if off then 3 else 2)
  {
    hide DecodeHouseUnitFunc, RfFrame, FirstByte, SecondByte, IsCheckedRf, Standard;
    OnOffFrame(house, unit, off);
    StandardParts(FirstByte(house, unit), SecondByte(unit, off));
    RfOnOffRoundTrip(house, unit, off);
  }

  lemma DimDecodes(house: int, high: bool, bright: bool)
    requires IsHouse(house)
    ensures DecodeHouseUnitFunc(FirstByte(house, if high then 8 else 0), if bright then 0x88 else 0x98)
         == RfCommand(house, 0, if bright then 5 else 4)
  {
    hide DecodeHouseUnitFunc, RfFrame, FirstByte, IsCheckedRf;
    DimFrame(house, if high then 8 else 0, bright);
    RfDimRoundTrip(house, if high then 8 else 0, bright);
  }

  /** What the bridge adds to a command: the power-line command of the same house, unit and function. */
  lemma BridgeAdds(cfg: Config, dup: bool, c: RfCommand)
    requires IsRfCommand(c)
    ensures var acts := Bridge(cfg, dup, c);
            if BridgeIsOn(cfg, c.house) then
              && Announcements(acts) == Sent(EventsOf(Bridged(c))) && Wires(acts) == BytesOf(Bridged(c))
              && TableLog(acts) == LogOf(Bridged(c)) && Changes(acts) == []
            else acts == []
  {
    hide Announcements, EventsOf, BytesOf, LogOf, MeaningsOf, BridgeLine, ProcessLine, IsPlLine, Tokens, GetDeviceAddr,
         GetFunc, AddrText, NoneReceived, Wires, Bridged;
    if BridgeIsOn(cfg, c.house) {
      BridgeCarriesTheCommand(cfg, dup, c);
      BridgeDirection(cfg, dup, c);
      AllSent(Bridge(cfg, dup, c));
      BridgeParses(c);
      PlLineBytes(cfg, dup, false, BridgeLine(c));
    }
  }

  lemma BridgeParses(c: RfCommand)
    requires IsRfCommand(c)
    ensures IsPlLine(BridgeLine(c)) && ParsePl(Tokens(BridgeLine(c))[1..]) == Parsed(Bridged(c), true, [])
  {
    hide GetDeviceAddr, GetFunc, Tokens, BridgeLine, AddrText;
    BridgeLineTokens(c);
    AddrAndFuncParse(c.house, c.unit, c.func, []);
    assert Tokens(BridgeLine(c))[1..] == [AddrText(c.house, c.unit), FUNC_COMMANDS[c.func]] + [];
  }

  function Sent(events: seq<Event>): seq<Announcement> {
    seq(|events|, i requires 0 <= i < |events| => Announcement(false, events[i]))
  }

  lemma AllSent(acts: seq<Action>)
    requires NoneReceived(acts)
    ensures Announcements(acts) == Sent(Events(acts))
  {
    hide Announcements, Events;
    AnnouncementsAreEvents(acts);
    forall i | 0 <= i < |Events(acts)|
      ensures Announcements(acts)[i] == Announcement(false, Events(acts)[i])
    {
      assert Announcements(acts)[i] in Announcements(acts);
    }
  }

  /** A decoded frame announces, records and sends these. */
  ghost predicate Does(acts: seq<Action>, announced: seq<Announcement>, wires: seq<seq<byte>>, log: History) {
    Announcements(acts) == announced && Wires(acts) == wires && TableLog(acts) == log && Changes(acts) == []
  }

  /** The frame once more when the repeater is on; a CM19A is sent it without the marker. */
  function Repeated(cfg: Config, buf: seq<byte>, len: int): seq<seq<byte>>
    requires 1 <= len <= |buf|
  {
    if cfg.rfToRf == 0 then [] else [(if cfg.cm19a then [] else [0xeb]) + buf[1..len]]
  }

  lemma RepeatDoes(cfg: Config, buf: seq<byte>, len: int)
    requires 1 <= len <= |buf|
    ensures Does(RepeatRf(cfg, buf, len), [], Repeated(cfg, buf, len), [])
  {
    RepeatDirection(cfg, buf, len);
    if cfg.rfToRf != 0 {
      var wire := Transmit(RfWire(cfg.cm19a, [TX_MARKER] + buf[1..len]));
      PartsAppend([Reply], [wire]);
      OnePart(Reply);
      OnePart(wire);
      assert [Reply] + [wire] == [Reply, wire] && ([TX_MARKER] + buf[1..len])[1..] == buf[1..len];
      assert [] + buf[1..len] == buf[1..len];
    }
  }

  lemma DoesAppend(a: seq<Action>, b: seq<Action>, aa: seq<Announcement>, ba: seq<Announcement>,
                   aw: seq<seq<byte>>, bw: seq<seq<byte>>, al: History, bl: History)
    requires Does(a, aa, aw, al) && Does(b, ba, bw, bl)
    ensures Does(a + b, aa + ba, aw + bw, al + bl)
  {
    hide Announcements, Wires, TableLog, Changes;
    PartsAppend(a, b);
    AnnouncementsAppend(a, b);
  }

  lemma ReportDoes(received: bool, c: RfCommand)
    requires IsRfCommand(c)
    ensures Does(RfReport(received, c), [Announcement(received, RfEvent(c))], [], RfLog(c))
  {
    ReportParts(received, c);
    ReportDirection(received, c);
    AnnouncementsAreEvents(RfReport(received, c));
  }

  lemma CommandDoes(cfg: Config, received: bool, buf: seq<byte>, len: int, c: RfCommand)
    requires 1 <= len <= |buf| && IsRfCommand(c)
    ensures var on := BridgeIsOn(cfg, c.house);
            Does(RfReport(received, c) + RepeatRf(cfg, buf, len) + Bridge(cfg, false, c),
                 [Announcement(received, RfEvent(c))] + (if on then Sent(EventsOf(Bridged(c))) else []),
                 Repeated(cfg, buf, len) + (if on then BytesOf(Bridged(c)) else []),
                 RfLog(c) + (if on then LogOf(Bridged(c)) else []))
  {
    hide Does, RfReport, RepeatRf, Bridge, Repeated, BytesOf, EventsOf, LogOf, RfLog, RfEvent, Sent;
    var report, repeated, bridge := RfReport(received, c), RepeatRf(cfg, buf, len), Bridge(cfg, false, c);
    ReportDoes(received, c);
    RepeatDoes(cfg, buf, len);
    DoesAppend(report, repeated, [Announcement(received, RfEvent(c))], [], [], Repeated(cfg, buf, len), RfLog(c), []);
    BridgeDoes(cfg, c);
    var on := BridgeIsOn(cfg, c.house);
    DoesAppend(report + repeated, bridge, [Announcement(received, RfEvent(c))] + [],
               if on then Sent(EventsOf(Bridged(c))) else [], [] + Repeated(cfg, buf, len),
               if on then BytesOf(Bridged(c)) else [], RfLog(c) + [], if on then LogOf(Bridged(c)) else []);
    assert [Announcement(received, RfEvent(c))] + [] == [Announcement(received, RfEvent(c))];
    assert [] + Repeated(cfg, buf, len) == Repeated(cfg, buf, len) && RfLog(c) + [] == RfLog(c);
  }

  lemma BridgeDoes(cfg: Config, c: RfCommand)
    requires IsRfCommand(c)
    ensures var on := BridgeIsOn(cfg, c.house);
            Does(Bridge(cfg, false, c), if on then Sent(EventsOf(Bridged(c))) else [],
                 if on then BytesOf(Bridged(c)) else [], if on then LogOf(Bridged(c)) else [])
  {
    BridgeAdds(cfg, false, c);
  }

  /** The bytes after the marker are a standard frame; the second check byte may have bit 2 the wrong way round. */
  predicate IsStandard(buf: seq<byte>, first: byte, second: byte) {
    |buf| >= 6 && buf[1..5] == [0x20, first, 255 - first, second] && buf[5] in {255 - second, (255 - second) ^ 0x04}
  }

  lemma StandardIsDecoded(cfg: Config, buf: seq<byte>, len: int, first: byte, second: byte)
    requires 5 <= len <= 8 && len <= |buf| && IsStandard(buf, first, second)
    requires IsRfCommand(DecodeHouseUnitFunc(first, second))
    ensures var c := DecodeHouseUnitFunc(first, second);
            DecodeRf(cfg, false, buf, len)
            == RfReport(buf[0] == 0x5d, c) + RepeatRf(cfg, buf, len) + Bridge(cfg, false, c)
  {
    hide DecodeHouseUnitFunc, Bridge, RepeatRf, RfReport;
    RfCommandBounds(first, second);
    ChecksPass(buf, first, second);
    hide IsStandard;
    var received, repeated := buf[0] == 0x5d, RepeatRf(cfg, buf, len);
    assert DecodeRf(cfg, false, buf, len) == DecodeStandard(cfg, false, received, buf, len);
    assert DecodeStandard(cfg, false, received, buf, len)
        == StandardActions(cfg, false, received, first, 0xff, second, buf[4] ^ buf[5], repeated);
  }

  lemma FourBytes(buf: seq<byte>)
    requires |buf| >= 6
    ensures buf[1..5] == [buf[1], buf[2], buf[3], buf[4]]
  {
  }

  lemma ChecksPass(buf: seq<byte>, first: byte, second: byte)
    requires IsStandard(buf, first, second)
    ensures buf[1] == 0x20 && buf[2] == first && buf[4] == second
    ensures buf[2] ^ buf[3] == 0xff && buf[4] ^ buf[5] in {0xff, 0xfb}
  {
    FourBytes(buf);
    Complement(first);
    Complement(second);
  }

  /**
   RF on and off from outside: told to the clients as received and recorded; repeated and sent on to the power
   line, announced and recorded again as sent, where the settings ask for it.
   */
  lemma OnOffPacketIsHeard(cfg: Config, buf: seq<byte>, len: int, house: int, unit: int, off: bool)
    requires 5 <= len <= 8 && len <= |buf| && IsHouse(house) && IsHouse(unit)
    requires IsStandard(buf, FirstByte(house, unit), SecondByte(unit, off))
    ensures var n, pair := if off then 3 else 2, [Address(house, unit), Func(house, !off)];
            var heard := [Announcement(buf[0] == 0x5d, RfUnit(house, unit + 1, n))];
            if cfg.cm19a || house !in cfg.rfToPl then
              Does(DecodeRf(cfg, false, buf, len), heard, Repeated(cfg, buf, len), pair)
            else
              Does(DecodeRf(cfg, false, buf, len),
                   heard + [Announcement(false, PlAddress(house, unit + 1)), Announcement(false, PlHouse(house, n))],
                   Repeated(cfg, buf, len)
                   + [[0x04, Halves(CODES[house], CODES[unit])], [0x06, Halves(CODES[house], if off then 3 else 2)]],
                   pair + pair)
  {
    hide Does, DecodeRf, DecodeHouseUnitFunc, Halves, Repeated, FirstByte, SecondByte, RepeatRf, Bridge, RfReport,
         IsStandard, RfEvent, RfLog, EventsOf, LogOf, BytesOf, Bridged, Sent, IsRfCommand;
    var c := RfCommand(house, unit + 1, if off then 3 else 2);
    OnOffDecodes(house, unit, off);
    OnOffCommand(house, unit, off);
    StandardIsDecoded(cfg, buf, len, FirstByte(house, unit), SecondByte(unit, off));
    CommandDoes(cfg, buf[0] == 0x5d, buf, len, c);
    var heard, pair := [Announcement(buf[0] == 0x5d, RfEvent(c))], [Address(house, unit), Func(house, !off)];
    assert heard + [] == heard && pair + [] == pair && Repeated(cfg, buf, len) + [] == Repeated(cfg, buf, len);
  }

  lemma OnOffCommand(house: int, unit: int, off: bool)
    requires IsHouse(house) && IsHouse(unit)
    ensures var c, pair := RfCommand(house, unit + 1, if off then 3 else 2), [Address(house, unit), Func(house, !off)];
            && IsRfCommand(c) && RfEvent(c) == RfUnit(house, unit + 1, c.func)
            && RfLog(c) == pair && LogOf(Bridged(c)) == pair
            && Sent(EventsOf(Bridged(c)))
               == [Announcement(false, PlAddress(house, unit + 1)), Announcement(false, PlHouse(house, c.func))]
            && BytesOf(Bridged(c))
               == [[0x04, Halves(CODES[house], CODES[unit])], [0x06, Halves(CODES[house], if off then 3 else 2)]]
  {
    hide Halves, CODES;
    SmallFunc();
  }

  lemma SmallFunc()
    ensures (2 as int) as byte == 2 && (3 as int) as byte == 3 && (4 as int) as byte == 4 && (5 as int) as byte == 5
    ensures ((1 as int) as byte & 0x1f) * 8 + 6 == 14
  {
  }

  /** RF dim and bright from outside, for the house: announced, not recorded, and sent on as one step. */
  lemma DimPacketIsHeard(cfg: Config, buf: seq<byte>, len: int, house: int, high: bool, bright: bool)
    requires 5 <= len <= 8 && len <= |buf| && IsHouse(house)
    requires IsStandard(buf, FirstByte(house, if high then 8 else 0), if bright then 0x88 else 0x98)
    ensures var n := if bright then 5 else 4;
            var heard := [Announcement(buf[0] == 0x5d, RfHouse(house, n))];
            if cfg.cm19a || house !in cfg.rfToPl then
              Does(DecodeRf(cfg, false, buf, len), heard, Repeated(cfg, buf, len), [])
            else
              Does(DecodeRf(cfg, false, buf, len), heard + [Announcement(false, PlLevel(house, n, 1))],
                   Repeated(cfg, buf, len) + [[0x06, Halves(CODES[house], if bright then 5 else 4), 0x0e]], [])
  {
    hide Does, DecodeRf, DecodeHouseUnitFunc, Halves, Repeated, FirstByte, RepeatRf, Bridge, RfReport, IsStandard;
    var c := RfCommand(house, 0, if bright then 5 else 4);
    DimDecodes(house, high, bright);
    StandardIsDecoded(cfg, buf, len, FirstByte(house, if high then 8 else 0), if bright then 0x88 else 0x98);
    CommandDoes(cfg, buf[0] == 0x5d, buf, len, c);
    SmallFunc();
    assert Repeated(cfg, buf, len) + [] == Repeated(cfg, buf, len) && RfLog(c) == [] && LogOf(Bridged(c)) == [];
    assert RfEvent(c) == RfHouse(house, c.func) && RfLog(c) + [] == [];
    assert [Announcement(buf[0] == 0x5d, RfEvent(c))] + [] == [Announcement(buf[0] == 0x5d, RfEvent(c))];
    assert Sent(EventsOf(Bridged(c))) == [Announcement(false, PlLevel(house, c.func, 1))];
  }

  // ---- security and cameras ----

  lemma ReportDoesThese(cfg: Config, buf: seq<byte>, len: int, sensor: Action, received: bool, ev: Event)
    requires 1 <= len <= |buf| && sensor.Sensor?
    ensures var acts := [sensor, Dispatch(received, ev)] + RepeatRf(cfg, buf, len);
            && Announcements(acts) == [Announcement(received, ev)] && Wires(acts) == Repeated(cfg, buf, len)
            && TableLog(acts) == [] && Changes(acts) == [sensor]
  {
    hide RepeatRf, Repeated, Wires, TableLog, Changes, Announcements;
    RepeatDoes(cfg, buf, len);
    var report := [sensor, Dispatch(received, ev)];
    assert report == [sensor] + [Dispatch(received, ev)];
    PartsAppend([sensor], [Dispatch(received, ev)]);
    TwoAnnouncements(sensor, Dispatch(received, ev));
    OnePart(sensor);
    OnePart(Dispatch(received, ev));
    PartsAppend(report, RepeatRf(cfg, buf, len));
    AnnouncementsAppend(report, RepeatRf(cfg, buf, len));
    assert [] + Repeated(cfg, buf, len) == Repeated(cfg, buf, len);
  }

  /** A remote with an 8-bit address: its key is told to the clients and to the sensor table. */
  lemma ShortSecPacketIsHeard(cfg: Config, buf: seq<byte>, len: int, a: byte, key: byte)
    requires 5 <= len <= 8 && len <= |buf| && |buf| >= 6 && buf[1..6] == [0x20, a, a ^ 0x0f, key, 255 - key]
    ensures var acts := DecodeRf(cfg, false, buf, len);
            && Announcements(acts) == [Announcement(buf[0] == 0x5d, SecShort(a, key))]
            && Changes(acts) == [Sensor(0, 0, a, key, true)] && TableLog(acts) == []
            && Wires(acts) == Repeated(cfg, buf, len)
  {
    hide RepeatRf, Bridge, RfReport, DecodeHouseUnitFunc, Wires, TableLog, Changes, Announcements, Repeated;
    FiveAfter(buf, [0x20, a, a ^ 0x0f, key, 255 - key]);
    Complement(key);
    XorChecks(a, key);
    ReportDoesThese(cfg, buf, len, Sensor(0, 0, a, key, true), buf[0] == 0x5d, SecShort(a, key));
    var received, repeated := buf[0] == 0x5d, RepeatRf(cfg, buf, len);
    assert DecodeRf(cfg, false, buf, len) == DecodeStandard(cfg, false, received, buf, len);
    assert DecodeStandard(cfg, false, received, buf, len)
        == StandardActions(cfg, false, received, a, 0x0f, key, 0xff, repeated);
  }

  lemma FiveAfter(buf: seq<byte>, five: seq<byte>)
    requires |buf| >= 6 && |five| == 5 && buf[1..6] == five
    ensures buf[1] == five[0] && buf[2] == five[1] && buf[3] == five[2] && buf[4] == five[3] && buf[5] == five[4]
  {
  }

  /** A sensor with a 24-bit address, when its last two bytes XOR to even parity; otherwise only a complaint. */
  lemma LongSecPacketIsHeard(cfg: Config, buf: seq<byte>, a0: byte, a1: byte, a2: byte, key: byte)
    requires |buf| >= 8 && buf[1..8] == [0x29, a0, a0 ^ 0x0f, key, 255 - key, a1, a2]
    ensures var acts := DecodeRf(cfg, false, buf, 8);
            if OddParity(a1 ^ a2) then acts == [Reply]
            else
              && Announcements(acts) == [Announcement(buf[0] == 0x5d, SecLong(a0, a1, a2, key))]
              && Changes(acts) == [Sensor(a0, a1, a2, key, false)] && TableLog(acts) == []
              && Wires(acts) == Repeated(cfg, buf, 8)
  {
    hide RepeatRf, DecodeSecAddress, OddParity, Wires, TableLog, Changes, Announcements, Repeated;
    LongSecDecodes(buf, a0, a1, a2, key);
    ReportDoesThese(cfg, buf, 8, Sensor(a0, a1, a2, key, false), buf[0] == 0x5d, SecLong(a0, a1, a2, key));
  }

  lemma LongSecDecodes(buf: seq<byte>, a0: byte, a1: byte, a2: byte, key: byte)
    requires |buf| >= 8 && buf[1..8] == [0x29, a0, a0 ^ 0x0f, key, 255 - key, a1, a2]
    ensures buf[1] == 0x29
    ensures DecodeSecAddress(buf, 8) == if OddParity(a1 ^ a2) then BadParity else SecOk(a0, a1, a2, key)
  {
    hide OddParity, TableParity, DecodeSecAddress;
    SevenAfter(buf, [0x29, a0, a0 ^ 0x0f, key, 255 - key, a1, a2]);
    ChecksOf(a0, key);
    SecDecodes(buf);
  }

  lemma ChecksOf(a0: byte, key: byte)
    ensures a0 ^ (a0 ^ 0x0f) == 0x0f && key ^ (255 - key) == 0xff
  {
  }

  lemma SecDecodes(buf: seq<byte>)
    requires |buf| >= 8 && buf[2] ^ buf[3] == 0x0f && buf[4] ^ buf[5] == 0xff
    ensures DecodeSecAddress(buf, 8)
         == if OddParity(buf[6] ^ buf[7]) then BadParity else SecOk(buf[2], buf[6], buf[7], buf[4])
  {
    hide OddParity, TableParity;
    ParityTableIsOddParity(buf[6] ^ buf[7]);
  }

  lemma SevenAfter(buf: seq<byte>, seven: seq<byte>)
    requires |buf| >= 8 && |seven| == 7 && buf[1..8] == seven
    ensures buf[1] == seven[0] && buf[2] == seven[1] && buf[3] == seven[2] && buf[4] == seven[3]
    ensures buf[5] == seven[4] && buf[6] == seven[5] && buf[7] == seven[6]
  {
  }

  /** The frame of a camera key, byte by byte. */
  lemma CameraBytes(house: int, key: byte)
    requires IsHouse(house)
    ensures CameraFrame(house, key) == [0xeb, 0x14, RF_CODES[house] * 16 + (key - 0x2b), key, RF_CODES[house] * 16]
  {
    RfCodesOf(house);
    hide RF_CODES, X10_HOUSE_CODE_RF;
    InTheHighHalf(RF_CODES[house], 0);
  }

  lemma InTheHighHalf(code: byte, low: byte)
    requires code < 16 && low < 16
    ensures code << 4 == code * 16 && High(code * 16 + low) == code
  {
  }

  /** A camera key is announced and nothing else. */
  lemma CameraPacketIsHeard(cfg: Config, buf: seq<byte>, len: int, house: int, key: byte, low: byte)
    requires 5 <= len <= 8 && len <= |buf| && IsHouse(house) && low < 16
    requires 0x54 <= key as int <= 0x6E && key as int !in {0x5E, 0x5F, 0x6D}
    requires buf[1..5] == [0x14, RF_CODES[house] * 16 + (key - 0x2b), key, RF_CODES[house] * 16 + low]
    ensures Does(DecodeRf(cfg, false, buf, len), [Announcement(buf[0] == 0x5d, Camera(house, key))],
                 Repeated(cfg, buf, len), [])
  {
    hide RepeatRf, Repeated, DecodeCamera, IsCamKey, RF_CODES;
    KeysExactly(key);
    CameraDecodes(buf[1..len], house, key, low);
    var one := Dispatch(buf[0] == 0x5d, Camera(house, key));
    FourAfter(buf, len);
    assert DecodeRf(cfg, false, buf, len) == [one] + RepeatRf(cfg, buf, len);
    RepeatDoes(cfg, buf, len);
    OnePart(one);
    OneAnnouncement(one);
    DoesAppend([one], RepeatRf(cfg, buf, len), [Announcement(buf[0] == 0x5d, Camera(house, key))], [],
               [], Repeated(cfg, buf, len), [], []);
    assert [] + Repeated(cfg, buf, len) == Repeated(cfg, buf, len);
  }

  lemma FourAfter(buf: seq<byte>, len: int)
    requires 5 <= len <= |buf|
    ensures buf[1..len][..4] == buf[1..5] && buf[1] == buf[1..5][0]
  {
  }

  lemma CameraDecodes(command: seq<byte>, house: int, key: byte, low: byte)
    requires |command| >= 4 && IsHouse(house) && low < 16 && IsCamKey(key)
    requires command[..4] == [0x14, RF_CODES[house] * 16 + (key - 0x2b), key, RF_CODES[house] * 16 + low]
    ensures DecodeCamera(command) == Key(house, key)
  {
    hide DecodeCamera, HouseOfRf, IsCamKey;
    RfCodesOf(house);
    CodeDecodes(command, RF_CODES[house], key, low);
  }

  lemma CodeDecodes(command: seq<byte>, code: byte, key: byte, low: byte)
    requires |command| >= 4 && code < 16 && low < 16 && IsCamKey(key)
    requires command[..4] == [0x14, code * 16 + (key - 0x2b), key, code * 16 + low]
    ensures DecodeCamera(command) == Key(HouseOfRf(code), key)
  {
    hide IsCamKey, High, HouseOfRf;
    InTheHighHalf(code, low);
    FirstFour(command, [0x14, code * 16 + (key - 0x2b), key, code * 16 + low]);
  }

  // ---- which frames mean something ----

  /** The checks a frame must pass, by its type byte. */
  predicate Sensible(buf: seq<byte>, len: int)
    requires 5 <= len <= 8 && len <= |buf| && (buf[1] == 0x20 ==> |buf| >= 6)
  {
    match buf[1]
    case 0x14 =>
      && 0x54 <= buf[3] as int <= 0x6E && buf[3] as int !in {0x5E, 0x5F, 0x6D}
      && buf[2] == (buf[4] & 0xf0) + (buf[3] - 0x2b)
    case 0x20 =>
      || (buf[2] ^ buf[3] == 0x0f && buf[4] ^ buf[5] == 0xff)
      || (buf[2] ^ buf[3] == 0xff && buf[4] ^ buf[5] in {0xff, 0xfb})
    case 0x29 =>
      && len == 8 && buf[2] ^ buf[3] == 0x0f && buf[4] ^ buf[5] == 0xff
      && !OddParity(buf[6] ^ buf[7])
    case _ => false
  }

  lemma HighHalf(b: byte)
    ensures High(b) << 4 == b & 0xf0
  {
  }

  lemma CameraChecks(command: seq<byte>)
    requires |command| >= 4 && command[0] == 0x14
    ensures DecodeCamera(command).Key?
       <==> && 0x54 <= command[2] as int <= 0x6E && command[2] as int !in {0x5E, 0x5F, 0x6D}
            && command[1] == (command[3] & 0xf0) + (command[2] - 0x2b)
  {
    hide IsCamKey, High;
    KeysExactly(command[2]);
    HighHalf(command[3]);
  }

  /** Exactly those frames are put to the duplicate filter, marker and all, and any other gets a complaint alone. */
  lemma HeardExactly(cfg: Config, dup: bool, buf: seq<byte>, len: int)
    requires 5 <= len <= 8 && len <= |buf| && (buf[1] == 0x20 || buf[1] == RX_MARKER ==> |buf| >= 6)
    ensures Asked(buf, len) == if Sensible(buf, len) then Some(buf[..len]) else None
    ensures !Sensible(buf, len) ==> DecodeRf(cfg, dup, buf, len) == [Reply]
    ensures Sensible(buf, len) && dup ==> DecodeRf(cfg, dup, buf, len) == []
    ensures Sensible(buf, len) && !dup ==> Announcements(DecodeRf(cfg, dup, buf, len)) != []
  {
    hide Sensible, Asked, DecodeRf, Announcements;
    if buf[1] == 0x14 {
      CameraHeard(cfg, dup, buf, len);
    } else if buf[1] == 0x29 {
      LongHeard(cfg, dup, buf, len);
    } else if buf[1] == 0x20 {
      StandardHeard(cfg, dup, buf, len);
    } else {
      UnknownType(cfg, dup, buf, len);
    }
  }

  lemma UnknownType(cfg: Config, dup: bool, buf: seq<byte>, len: int)
    requires 5 <= len <= 8 && len <= |buf| && buf[1] !in {0x14, 0x20, 0x29}
    requires buf[1] == RX_MARKER ==> |buf| >= 6
    ensures Asked(buf, len) == None && !Sensible(buf, len) && DecodeRf(cfg, dup, buf, len) == [Reply]
  {
  }

  lemma CameraHeard(cfg: Config, dup: bool, buf: seq<byte>, len: int)
    requires 5 <= len <= 8 && len <= |buf| && buf[1] == 0x14
    ensures Asked(buf, len) == if Sensible(buf, len) then Some(buf[..len]) else None
    ensures var acts := DecodeRf(cfg, dup, buf, len);
            if !Sensible(buf, len) then acts == [Reply] else if dup then acts == [] else Announcements(acts) != []
  {
    hide DecodeCamera, RepeatRf, Announcements, Sensible;
    var received, command := buf[0] == 0x5d, buf[1..len];
    CameraIsSensible(buf, len);
    if DecodeCamera(command).Key? {
      var key := DecodeCamera(command);
      CameraAnnounced(received, Camera(key.house, key.key), cfg, buf, len);
    }
  }

  lemma CameraIsSensible(buf: seq<byte>, len: int)
    requires 5 <= len <= 8 && len <= |buf| && buf[1] == 0x14
    ensures Sensible(buf, len) <==> DecodeCamera(buf[1..len]).Key?
  {
    hide DecodeCamera;
    var command := buf[1..len];
    assert command[0] == buf[1] && command[1] == buf[2] && command[2] == buf[3] && command[3] == buf[4];
    CameraChecks(command);
  }

  lemma LongHeard(cfg: Config, dup: bool, buf: seq<byte>, len: int)
    requires 5 <= len <= 8 && len <= |buf| && buf[1] == 0x29
    ensures Asked(buf, len) == if Sensible(buf, len) then Some(buf[..len]) else None
    ensures var acts := DecodeRf(cfg, dup, buf, len);
            if !Sensible(buf, len) then acts == [Reply] else if dup then acts == [] else Announcements(acts) != []
  {
    hide DecodeSecAddress, RepeatRf, OddParity, Announcements, Repeated;
    LongChecks(buf, len);
    if DecodeSecAddress(buf, len).SecOk? {
      var s := DecodeSecAddress(buf, len);
      var sensor := Sensor(s.a0, s.a1, s.a2, s.key, false);
      ReportDoesThese(cfg, buf, len, sensor, buf[0] == 0x5d, SecLong(s.a0, s.a1, s.a2, s.key));
    }
  }

  lemma StandardHeard(cfg: Config, dup: bool, buf: seq<byte>, len: int)
    requires 5 <= len <= 8 && len <= |buf| && |buf| >= 6 && buf[1] == 0x20
    ensures Asked(buf, len) == if Sensible(buf, len) then Some(buf[..len]) else None
    ensures var acts := DecodeRf(cfg, dup, buf, len);
            if !Sensible(buf, len) then acts == [Reply] else if dup then acts == [] else Announcements(acts) != []
  {
    hide DecodeStandard, Announcements;
    StandardChecks(cfg, dup, buf[0] == 0x5d, buf, len);
  }

  lemma CameraAnnounced(received: bool, ev: Event, cfg: Config, buf: seq<byte>, len: int)
    requires 1 <= len <= |buf|
    ensures Announcements([Dispatch(received, ev)] + RepeatRf(cfg, buf, len)) != []
  {
    AnnouncementsAppend([Dispatch(received, ev)], RepeatRf(cfg, buf, len));
    OneAnnouncement(Dispatch(received, ev));
  }

  lemma LongChecks(buf: seq<byte>, len: int)
    requires 5 <= len <= 8 && len <= |buf|
    ensures DecodeSecAddress(buf, len).SecOk?
       <==> && len == 8 && buf[2] ^ buf[3] == 0x0f && buf[4] ^ buf[5] == 0xff
            && !OddParity(buf[6] ^ buf[7])
  {
    hide TableParity, OddParity;
    if len == 8 { ParityTableIsOddParity(buf[6] ^ buf[7]); }
  }

  lemma StandardChecks(cfg: Config, dup: bool, received: bool, buf: seq<byte>, len: int)
    requires 5 <= len <= 8 && len <= |buf| && |buf| >= 6 && buf[1] == 0x20
    ensures var acts := DecodeStandard(cfg, dup, received, buf, len);
            if !Sensible(buf, len) then acts == [Reply] else if dup then acts == [] else Announcements(acts) != []
  {
    hide Bridge, RepeatRf, RfReport, DecodeHouseUnitFunc, Announcements;
    RfCommandBounds(buf[2], buf[4]);
    var c, repeated := DecodeHouseUnitFunc(buf[2], buf[4]), RepeatRf(cfg, buf, len);
    ReportDoesThese(cfg, buf, len, Sensor(0, 0, buf[2], buf[4], true), received, SecShort(buf[2], buf[4]));
    ReportDirection(received, c);
    AnnouncementsAppend(RfReport(received, c), repeated);
    AnnouncementsAppend(RfReport(received, c) + repeated, Bridge(cfg, dup, c));
  }

  /** A frame of another length is complained about, unless it begins with markers that leave one of at most eight. */
  lemma WrongLengths(cfg: Config, dup: bool, buf: seq<byte>, len: int)
    requires 0 <= len <= |buf| && (len >= 5 && (buf[1] == 0x20 || buf[1] == RX_MARKER) ==> |buf| >= 6)
    ensures len < 5 || (len > 8 && buf[1] != 0x5d) ==> DecodeRf(cfg, dup, buf, len) == [Reply]
    ensures len > 8 && buf[1] == 0x5d ==> DecodeRf(cfg, dup, buf, len) == DecodeRf(cfg, dup, buf[1..], len - 1)
  {
  }

  /** What a CM19A hands over is the frame without its marker. */
  lemma Cm19aPacket(cfg: Config, dup: bool, buf: seq<byte>, len: int, scratch: seq<byte>, clock: seq<byte>)
    requires cfg.cm19a && Incoming(buf, len, scratch, clock) && 4 <= len <= 7 && FrameFits([0x5d] + buf[..len])
    ensures DecodePacket(cfg, dup, buf, len, scratch, clock) == DecodeRf(cfg, dup, [0x5d] + buf[..len], len + 1)
  {
    hide DecodeRf;
    var f := [0x5d] + buf[..len];
    PaddingDoesNotMatter(cfg, dup, f, Overlay(scratch, f));
  }

  /** What a CM15A hands over under marker 0x5d is the frame. */
  lemma Cm15aPacket(cfg: Config, dup: bool, buf: seq<byte>, len: int, scratch: seq<byte>, clock: seq<byte>)
    requires !cfg.cm19a && Incoming(buf, len, scratch, clock) && len >= 4 && buf[0] == 0x5d
    ensures DecodePacket(cfg, dup, buf, len, scratch, clock) == DecodeRf(cfg, dup, buf, len)
  {
    hide DecodeRf;
  }

  // ---- RF lines ----

  /** A frame as it is sent: a CM19A is sent it without its marker. */
  function SentAs(cfg: Config, frame: seq<byte>): seq<byte>
    requires frame != []
  {
    if cfg.cm19a then frame[1..] else frame
  }

  lemma PerformedDoes(cfg: Config, or20: bool, heard: seq<Action>, frame: seq<byte>,
                      announced: seq<Announcement>, wires: seq<seq<byte>>, log: History)
    requires frame != [] && Does(heard, announced, wires, log)
    ensures Does(Performed(cfg, or20, heard, frame, []), announced, wires + [SentAs(cfg, frame)], log)
  {
    hide Does;
    var wire := [Transmit(RfWire(cfg.cm19a, frame))];
    QuietDoes(cfg, or20, frame);
    DoesAppend(heard, wire, announced, [], wires, [SentAs(cfg, frame)], log, []);
    DoesAppend(heard + wire, CheckEnd([]), announced + [], [], wires + [SentAs(cfg, frame)], [], log + [], []);
    DoesAppend(Ok(or20), heard + wire + CheckEnd([]), [], announced + [] + [], [], wires + [SentAs(cfg, frame)] + [],
               [], log + [] + []);
    assert announced + [] == announced && log + [] == log && [] + announced == announced && [] + log == log;
    assert [] + (wires + [SentAs(cfg, frame)] + []) == wires + [SentAs(cfg, frame)];
  }

  lemma QuietDoes(cfg: Config, or20: bool, frame: seq<byte>)
    requires frame != []
    ensures Does([Transmit(RfWire(cfg.cm19a, frame))], [], [SentAs(cfg, frame)], [])
    ensures Does(CheckEnd([]), [], [], []) && Does(Ok(or20), [], [], []) && Does([], [], [], [])
  {
    OnePart(Transmit(RfWire(cfg.cm19a, frame)));
    OnePart(Reply);
    OneAnnouncement(Reply);
    OneAnnouncement(Transmit(RfWire(cfg.cm19a, frame)));
  }

  /**
   RF with a unit and ON or OFF sends this frame and, unless the filter takes it for a repetition, is heard,
   recorded, repeated and bridged as if received, but announced as sent.
   */
  lemma RfOnOffLineActs(cfg: Config, dup: bool, or20: bool, house: int, unit: int, off: bool,
                        blanks: seq<string>, words: seq<string>)
    requires IsHouse(house) && IsHouse(unit) && Separates(blanks, words)
    requires UpperAll(words) == ["RF", [LETTERS[house]] + NUMBERS[unit + 1], if off then "OFF" else "ON"]
    ensures var acts := ProcessLine(cfg, dup, or20, Spell(blanks, words));
            var f := Standard(FirstByte(house, unit), SecondByte(unit, off));
            var n, pair := if off then 3 else 2, [Address(house, unit), Func(house, !off)];
            var heard := [Announcement(false, RfUnit(house, unit + 1, n))];
            if dup then Does(acts, [], [SentAs(cfg, f)], [])
            else if cfg.cm19a || house !in cfg.rfToPl then
              Does(acts, heard, Repeated(cfg, f, 6) + [SentAs(cfg, f)], pair)
            else
              Does(acts,
                   heard + [Announcement(false, PlAddress(house, unit + 1)), Announcement(false, PlHouse(house, n))],
                   Repeated(cfg, f, 6)
                   + [[0x04, Halves(CODES[house], CODES[unit])], [0x06, Halves(CODES[house], if off then 3 else 2)]]
                   + [SentAs(cfg, f)],
                   pair + pair)
  {
    hide Does, ProcessLine, Separates, UpperAll, AddrText, DecodeRf, Halves, Repeated, FirstByte, SecondByte, RfFrame,
         Standard, Performed, Heard, RfReport, Bridge, RepeatRf, SentAs;
    var f := Standard(FirstByte(house, unit), SecondByte(unit, off));
    var c := RfCommand(house, unit + 1, if off then 3 else 2);
    AddressesAreWritten(house, unit + 1);
    OnOffFrame(house, unit, off);
    RfTextRoundTrip(cfg, dup, or20, house, unit + 1, if off then 3 else 2, blanks, words);
    StandardParts(FirstByte(house, unit), SecondByte(unit, off));
    QuietDoes(cfg, or20, f);
    if dup {
      assert Heard(cfg, dup, f, c) == [] by { DuplicateIsNotHeard(cfg, f, c); }
      PerformedDoes(cfg, or20, [], f, [], [], []);
      assert [] + [SentAs(cfg, f)] == [SentAs(cfg, f)];
    } else {
      StandardFits(FirstByte(house, unit), SecondByte(unit, off));
      OnOffPacketIsHeard(cfg, f, 6, house, unit, off);
      OnOffDecodes(house, unit, off);
      HeardIsDecoded(cfg, f, c);
      var bridged := !(cfg.cm19a || house !in cfg.rfToPl);
      var pair := [Address(house, unit), Func(house, !off)];
      var heard := [Announcement(false, RfUnit(house, unit + 1, c.func))];
      var more := [Announcement(false, PlAddress(house, unit + 1)), Announcement(false, PlHouse(house, c.func))];
      if bridged {
        PerformedDoes(cfg, or20, Heard(cfg, dup, f, c), f,
                      heard + more,
                      Repeated(cfg, f, 6) + [[0x04, Halves(CODES[house], CODES[unit])],
                                             [0x06, Halves(CODES[house], if off then 3 else 2)]],
                      pair + pair);
      } else {
        PerformedDoes(cfg, or20, Heard(cfg, dup, f, c), f, heard, Repeated(cfg, f, 6), pair);
      }
    }
  }

  lemma DuplicateIsNotHeard(cfg: Config, f: seq<byte>, c: RfCommand)
    requires |f| == 6 && IsRfCommand(c)
    ensures Heard(cfg, true, f, c) == []
  {
  }

  lemma StandardFits(first: byte, second: byte)
    ensures IsStandard(Standard(first, second), first, second) && Standard(first, second)[0] == 0xeb
  {
  }

  lemma HeardIsDecoded(cfg: Config, f: seq<byte>, c: RfCommand)
    requires exists first, second :: f == Standard(first, second)
    requires |f| == 6 && DecodeHouseUnitFunc(f[2], f[4]) == c && IsRfCommand(c)
    ensures Heard(cfg, false, f, c) == DecodeRf(cfg, false, f, 6)
  {
    hide DecodeHouseUnitFunc, DecodeRf, Heard;
    var first, second :| f == Standard(first, second);
    Complement(first);
    Complement(second);
    CheckedFrameIsHeard(cfg, false, f);
  }

  lemma HighUnitsAgree(house: int, unit: int)
    requires IsHouse(house) && IsHouse(unit)
    ensures FirstByte(house, if unit >= 8 then 8 else 0) == FirstByte(house, unit)
  {
  }

  /** RF DIM and BRIGHT do the same for the house, whatever the unit. */
  lemma RfDimLineActs(cfg: Config, dup: bool, or20: bool, house: int, unit: int, bright: bool,
                      blanks: seq<string>, words: seq<string>)
    requires IsHouse(house) && 0 <= unit <= 16 && Separates(blanks, words)
    requires UpperAll(words) == ["RF", [LETTERS[house]] + NUMBERS[unit], if bright then "BRIGHT" else "DIM"]
    ensures var acts, n := ProcessLine(cfg, dup, or20, Spell(blanks, words)), if bright then 5 else 4;
            var f := Standard(FirstByte(house, if unit == 0 then 15 else unit - 1), if bright then 0x88 else 0x98);
            var heard := [Announcement(false, RfHouse(house, n))];
            if dup then Does(acts, [], [SentAs(cfg, f)], [])
            else if cfg.cm19a || house !in cfg.rfToPl then Does(acts, heard, Repeated(cfg, f, 6) + [SentAs(cfg, f)], [])
            else
              Does(acts, heard + [Announcement(false, PlLevel(house, n, 1))],
                   Repeated(cfg, f, 6) + [[0x06, Halves(CODES[house], if bright then 5 else 4), 0x0e]]
                   + [SentAs(cfg, f)],
                   [])
  {
    hide Does, ProcessLine, Separates, UpperAll, AddrText, DecodeRf, Halves, Repeated, FirstByte, RfFrame,
         Standard, Performed, Heard, RfReport, Bridge, RepeatRf, SentAs;
    var n, u := if bright then 5 else 4, if unit == 0 then 15 else unit - 1;
    var second: byte := if bright then 0x88 else 0x98;
    var f, c := Standard(FirstByte(house, u), second), RfCommand(house, 0, n);
    AddressesAreWritten(house, unit);
    DimFrame(house, unit - 1, bright);
    RfTextRoundTrip(cfg, dup, or20, house, unit, n, blanks, words);
    StandardParts(FirstByte(house, u), second);
    if dup {
      QuietDoes(cfg, or20, f);
      DuplicateIsNotHeard(cfg, f, c);
      PerformedDoes(cfg, or20, [], f, [], [], []);
      assert [] + [SentAs(cfg, f)] == [SentAs(cfg, f)];
    } else {
      StandardFits(FirstByte(house, u), second);
      HighUnitsAgree(house, u);
      DimPacketIsHeard(cfg, f, 6, house, u >= 8, bright);
      DimDecodes(house, u >= 8, bright);
      HeardIsDecoded(cfg, f, c);
      var heard := [Announcement(false, RfHouse(house, n))];
      if cfg.cm19a || house !in cfg.rfToPl {
        PerformedDoes(cfg, or20, Heard(cfg, dup, f, c), f, heard, Repeated(cfg, f, 6), []);
      } else {
        PerformedDoes(cfg, or20, Heard(cfg, dup, f, c), f, heard + [Announcement(false, PlLevel(house, n, 1))],
                      Repeated(cfg, f, 6) + [[0x06, Halves(CODES[house], if bright then 5 else 4), 0x0e]], []);
      }
    }
  }

  // ---- RFSEC and RFCAM lines ----

  lemma PerformedParts(cfg: Config, or20: bool, heard: seq<Action>, frame: seq<byte>)
    requires frame != []
    ensures var acts := Performed(cfg, or20, heard, frame, []);
            && Announcements(acts) == Announcements(heard) && Wires(acts) == Wires(heard) + [SentAs(cfg, frame)]
            && TableLog(acts) == TableLog(heard) && Changes(acts) == Changes(heard)
  {
    hide Announcements, Wires, TableLog, Changes, Events, CheckEnd, Ok;
    var wire, quiet := [Transmit(RfWire(cfg.cm19a, frame))], CheckEnd([]);
    QuietDoes(cfg, or20, frame);
    PartsAppend(heard, wire);
    PartsAppend(heard + wire, quiet);
    PartsAppend(Ok(or20), heard + wire + quiet);
    AnnouncementsAppend(heard, wire);
    AnnouncementsAppend(heard + wire, quiet);
    AnnouncementsAppend(Ok(or20), heard + wire + quiet);
    assert Wires(heard) + [SentAs(cfg, frame)] + [] == Wires(heard) + [SentAs(cfg, frame)];
    assert [] + (Wires(heard) + [SentAs(cfg, frame)]) == Wires(heard) + [SentAs(cfg, frame)];
    assert forall t: History :: [] + t + [] == t;
    assert forall t: seq<Action> :: [] + t + [] == t;
    assert forall t: seq<Announcement> :: [] + t + [] == t;
  }

  /** The frame of a security event: an 8-bit address, or the three bytes of a 24-bit one around the event. */
  function SecBytes(addr8: bool, b: AddrBytes, code: byte): seq<byte> {
    if addr8 then [0xeb, 0x20, b.low, b.low ^ 0x0f, code, 255 - code]
    else [0xeb, 0x29, b.high, b.high ^ 0x0f, code, 255 - code, b.middle, b.low]
  }

  lemma SecBytesAreSent(a: RfAddr, code: byte)
    ensures SecFrameOf(a, code) == SecBytes(a.addr8, SplitAddr(a.address), code)
  {
    hide SplitAddr;
    Complement(code);
  }

  /** The sensor of an address, as the table is told of it: an 8-bit address has no other bytes. */
  function SensorOf(addr8: bool, b: AddrBytes, code: byte): Action {
    if addr8 then Sensor(0, 0, b.low, code, true) else Sensor(b.high, b.middle, b.low, code, false)
  }

  /** The frame is heard as its event, unless it is a repetition or has odd parity. */
  predicate SecIsTold(dup: bool, addr8: bool, b: AddrBytes) { !dup && (addr8 || !OddParity(b.middle ^ b.low)) }

  function SecEvent(addr8: bool, b: AddrBytes, code: byte): Event {
    if addr8 then SecShort(b.low, code) else SecLong(b.high, b.middle, b.low, code)
  }

  lemma SecHeardParts(cfg: Config, dup: bool, addr8: bool, b: AddrBytes, code: byte, f: seq<byte>)
    requires |f| >= 1
    ensures var acts := SecHeard(cfg, dup, addr8, b, code, f);
            && TableLog(acts) == []
            && if SecIsTold(dup, addr8, b) then
                 && Announcements(acts) == [Announcement(false, SecEvent(addr8, b, code))]
                 && Changes(acts) == [SensorOf(addr8, b, code)] && Wires(acts) == Repeated(cfg, f, |f|)
               else Announcements(acts) == [] && Changes(acts) == [] && Wires(acts) == []
  {
    hide OddParity, RepeatRf, Repeated, Announcements, Wires, TableLog, Changes;
    NothingButReplies(f, cfg);
    ReportDoesThese(cfg, f, |f|, SensorOf(addr8, b, code), false, SecEvent(addr8, b, code));
  }

  /**
   RFSEC with any spelling of an address and an event word sends the frame of its bytes and, unless the filter takes
   it for a repetition or a long address has odd parity, announces the event as sent and tells the sensor table.
   */
  lemma SecLineActs(cfg: Config, dup: bool, or20: bool, a: RfAddr, addr: string, n: int,
                    blanks: seq<string>, words: seq<string>)
    requires FitsRfAddr(a) && SpellsRfAddr(addr, a) && 0 <= n < |SecWords(a.addr8)|
    requires Separates(blanks, words) && UpperAll(words) == ["RFSEC", addr, SecWords(a.addr8)[n].word]
    ensures var acts, b, code := ProcessLine(cfg, dup, or20, Spell(blanks, words)), SplitAddr(a.address),
                                 SecWords(a.addr8)[n].code;
            var f := SecBytes(a.addr8, b, code);
            && b.Value() == a.address && TableLog(acts) == []
            && if SecIsTold(dup, a.addr8, b) then
                 && Announcements(acts) == [Announcement(false, SecEvent(a.addr8, b, code))]
                 && Changes(acts) == [SensorOf(a.addr8, b, code)]
                 && Wires(acts) == Repeated(cfg, f, |f|) + [SentAs(cfg, f)]
               else Announcements(acts) == [] && Changes(acts) == [] && Wires(acts) == [SentAs(cfg, f)]
  {
    hide ProcessLine, Separates, UpperAll, SpellsRfAddr, SecFrameOf, SplitAddr, SecHeard, Repeated, SecBytes, SensorOf,
         SecEvent, SecIsTold, Performed, SentAs, SecWords, SecNames, SecCodes, Announcements, Wires, TableLog, Changes;
    SecWordsAreTheTables(a.addr8);
    var b, code := SplitAddr(a.address), SecWords(a.addr8)[n].code;
    var f := SecBytes(a.addr8, b, code);
    SecTextRoundTrip(cfg, dup, or20, a, addr, n, blanks, words);
    SecBytesAreSent(a, code);
    PerformedParts(cfg, or20, SecHeard(cfg, dup, a.addr8, b, code, f), f);
    SecHeardParts(cfg, dup, a.addr8, b, code, f);
    NothingButReplies(f, cfg);
  }

  lemma NothingButReplies(f: seq<byte>, cfg: Config)
    requires f != []
    ensures Announcements([]) == [] && Wires([]) == [] && TableLog([]) == [] && Changes([]) == []
    ensures Announcements([Reply]) == [] && Wires([Reply]) == [] && TableLog([Reply]) == [] && Changes([Reply]) == []
    ensures [] + [SentAs(cfg, f)] == [SentAs(cfg, f)]
  {
    OneAnnouncement(Reply);
    OnePart(Reply);
  }

  /** RFCAM with a house and a key word sends the frame of the key and announces it as sent. */
  lemma CamLineActs(cfg: Config, dup: bool, or20: bool, house: int, n: int, blanks: seq<string>, words: seq<string>)
    returns (key: byte)
    requires IsHouse(house) && 0 <= n < |CAMERA_KEYS| && Separates(blanks, words)
    requires UpperAll(words) == ["RFCAM", [LETTERS[house]], CAMERA_KEYS[n].word]
    ensures key as int == CAMERA_KEYS[n].code
    ensures var acts := ProcessLine(cfg, dup, or20, Spell(blanks, words));
            var f := [0xeb, 0x14, RF_CODES[house] * 16 + (key - 0x2b), key, RF_CODES[house] * 16];
            && TableLog(acts) == [] && Changes(acts) == []
            && Announcements(acts) == (if dup then [] else [Announcement(false, Camera(house, key))])
            && Wires(acts) == (if dup then [] else Repeated(cfg, f, 5)) + [SentAs(cfg, f)]
  {
    hide ProcessLine, Separates, UpperAll, RepeatRf, Repeated, Performed, SentAs, Announcements, Wires, TableLog,
         Changes,
         CameraFrame, AddrText, CAM_KEYS, CAMERA_KEYS, RF_CODES, CamKey, IsCamKey, IndexOf;
    KeysAreTheTable(n);
    KeyWordsExactly(n);
    key := CamKey(CAMERA_KEYS[n].word).value;
    KeysAreNamed(key, n);
    AddressesAreWritten(house, 0);
    assert [LETTERS[house]] + NUMBERS[0] == [LETTERS[house]];
    CamLineIsPerformed(cfg, dup, or20, house, key, CAMERA_KEYS[n].word, blanks, words);
    CameraBytes(house, key);
    var f := CameraFrame(house, key);
    PerformedParts(cfg, or20, CamHeard(cfg, dup, house, key, f), f);
    NothingButReplies(f, cfg);
    CamHeardParts(cfg, house, key, f);
  }

  lemma CamHeardParts(cfg: Config, house: int, key: byte, f: seq<byte>)
    requires |f| == 5
    ensures Does(CamHeard(cfg, false, house, key, f), [Announcement(false, Camera(house, key))],
                 Repeated(cfg, f, 5), [])
  {
    hide RepeatRf, Repeated, Does;
    var one := Dispatch(false, Camera(house, key));
    OneDoes(one);
    RepeatDoes(cfg, f, 5);
    var told, log: History := [Announcement(false, Camera(house, key))], [];
    DoesAppend([one], RepeatRf(cfg, f, 5), told, [], [], Repeated(cfg, f, 5), log, log);
    assert log + log == log;
    assert [] + Repeated(cfg, f, 5) == Repeated(cfg, f, 5) && told + [] == told;
  }

  lemma OneDoes(a: Action)
    requires a.Dispatch?
    ensures Does([a], [Announcement(a.received, a.event)], [], [])
  {
    OnePart(a);
    OneAnnouncement(a);
  }

  lemma CamLineIsPerformed(cfg: Config, dup: bool, or20: bool, house: int, key: byte, name: string,
                           blanks: seq<string>, words: seq<string>)
    requires IsHouse(house) && CamKey(name) == Some(key) && name != "" && IsCamKey(key)
    requires Separates(blanks, words) && UpperAll(words) == ["RFCAM", AddrText(house, 0), name]
    ensures var f := CameraFrame(house, key);
            ProcessLine(cfg, dup, or20, Spell(blanks, words))
            == Performed(cfg, or20, CamHeard(cfg, dup, house, key, f), f, [])
  {
    hide Separates, ProcessLine, Tokens, Upper, UpperAll, GetDeviceAddr, AddrText, Performed, IsCamKey, CameraFrame,
         CamHeard, CamKey;
    var tokens := ["RFCAM", AddrText(house, 0), name];
    SpelledTokens(blanks, words, tokens);
    AddrParses(house, 0, [name]);
    assert tokens[1..] == [tokens[1]] + [name] && Rest(tokens[1..]) == [name] && Rest([name]) == [];
    CamLineRoundTrip(cfg, dup, or20, Spell(blanks, words), house, -1, key);
  }

  // ---- what the duplicate filter is asked ----

  /** A CM15A packet is put to the filter exactly when it is a frame that means something, marker and all. */
  lemma AskedPackets(cfg: Config, buf: seq<byte>, len: int, scratch: seq<byte>, clock: seq<byte>)
    requires !cfg.cm19a && Incoming(buf, len, scratch, clock)
    ensures AskedByPacket(cfg, buf, len, scratch)
         == if len >= 5 && buf[0] == 0x5d && Sensible(buf, len) then Some(buf[..len]) else None
  {
    hide Sensible, Asked;
    if len >= 5 { HeardExactly(cfg, false, buf, len); }
    if len == 4 { TooShortToAsk(buf); }
  }

  lemma TooShortToAsk(buf: seq<byte>)
    requires |buf| == 8
    ensures Asked(buf, 4) == None
  {
  }

  lemma BuiltAsks(cfg: Config, dup: bool, b: Built)
    requires b.Built? ==> FrameFits(b.frame)
    requires AskedByBuilt(b).Some?
    ensures b.Built? && AskedByBuilt(b).value == b.frame
    ensures var acts := SendBuilt(cfg, dup, b);
            (Announcements(acts) == [] <==> dup) && SentAs(cfg, b.frame) in Wires(acts)
  {
    hide Asked, DecodeRf, Announcements, Wires, Sensible, CheckEnd, RfWire, SentAs, SendBuilt;
    var f := b.frame;
    HeardExactly(cfg, dup, f, |f|);
    assert f[..|f|] == f;
    var heard, tail := DecodeRf(cfg, dup, f, |f|), [Transmit(RfWire(cfg.cm19a, f))] + CheckEnd(b.rest);
    NothingButReplies(f, cfg);
    TailParts(cfg, f, b.rest);
    AnnouncementsAppend(heard, tail);
    WiresAppend(heard, tail);
    SentThenChecked(cfg, dup, b);
  }

  lemma SentThenChecked(cfg: Config, dup: bool, b: Built)
    requires b.Built? && FrameFits(b.frame)
    ensures SendBuilt(cfg, dup, b)
         == DecodeRf(cfg, dup, b.frame, |b.frame|) + ([Transmit(RfWire(cfg.cm19a, b.frame))] + CheckEnd(b.rest))
  {
    hide DecodeRf, CheckEnd, RfWire;
    Associate(DecodeRf(cfg, dup, b.frame, |b.frame|), [Transmit(RfWire(cfg.cm19a, b.frame))], CheckEnd(b.rest));
  }

  lemma TailParts(cfg: Config, f: seq<byte>, rest: seq<string>)
    requires f != []
    ensures var tail := [Transmit(RfWire(cfg.cm19a, f))] + CheckEnd(rest);
            Announcements(tail) == [] && Wires(tail) == [SentAs(cfg, f)]
  {
    var tail := [Transmit(RfWire(cfg.cm19a, f))] + CheckEnd(rest);
    QuietActions(tail);
    hide CheckEnd, RfWire, SentAs, Wires, Announcements;
    WiresAppend([Transmit(RfWire(cfg.cm19a, f))], CheckEnd(rest));
    QuietDoes(cfg, false, f);
    RepliesAreSilent(rest);
    assert [SentAs(cfg, f)] + [] == [SentAs(cfg, f)];
  }

  /** A line that asks the filter sends that frame in any case, and is announced exactly when it is no repetition. */
  lemma AskedLines(cfg: Config, dup: bool, or20: bool, line: string)
    requires AskedByLine(line).Some?
    ensures var acts := ProcessLine(cfg, dup, or20, line);
            (Announcements(acts) == [] <==> dup) && SentAs(cfg, AskedByLine(line).value) in Wires(acts)
  {
    hide Tokens, Upper, BuildRf, BuildSec, BuildCam, SendBuilt, AskedByBuilt, Announcements, Wires, PlActions,
         OtherActions, SentAs;
    var tokens := Tokens(line);
    var ok: seq<Action> := if or20 then [Reply] else [];
    var b := if tokens[0] == "RF" then BuildRf(tokens[1..]) else if tokens[0] == "RFSEC" then BuildSec(tokens[1..])
             else BuildCam(tokens[1..]);
    BuiltAsks(cfg, dup, b);
    assert ProcessLine(cfg, dup, or20, line) == ok + SendBuilt(cfg, dup, b);
    NothingButReplies([0], cfg);
    WiresAppend(ok, SendBuilt(cfg, dup, b));
    AnnouncementsAppend(ok, SendBuilt(cfg, dup, b));
  }

  /** An RF, RFSEC or RFCAM line with a bad address or a word that is none of theirs does nothing but complain. */
  lemma BadLinesDoNothing(cfg: Config, dup: bool, or20: bool, command: string, addr: string, word: string,
                          blanks: seq<string>, words: seq<string>)
    requires Separates(blanks, words) && UpperAll(words) == [command, addr, word]
    requires || (command == "RF" && forall h, u :: !IsAddrSpelling(addr, h, u))
             || (command == "RF" && word !in FUNC_WORDS && word != "XDIM")
             || (command == "RFCAM" && forall h, u :: !IsAddrSpelling(addr, h, u))
             || (command == "RFCAM" && word !in CAM_KEYS)
             || (command == "RFSEC" && forall a :: !(SpellsRfAddr(addr, a) && FitsRfAddr(a)))
             || (command == "RFSEC" && forall addr8, n | 0 <= n < |SecWords(addr8)| :: SecWords(addr8)[n].word != word)
    ensures Silent(ProcessLine(cfg, dup, or20, Spell(blanks, words)))
  {
    hide Separates, Tokens, Upper, UpperAll, GetDeviceAddr, GetFunc, GetRfAddr, GetRfFunc, CamKey, RfFrame,
         IsAddrSpelling, SpellsRfAddr, SecWords, Silent;
    var tokens := [command, addr, word];
    assert |command| in {2, 5};
    SpelledTokens(blanks, words, tokens);
    var args := tokens[1..];
    assert args == [addr] + [word] && Rest(args) == [word] + [];
    NoneIsBad(addr, word);
    var b := if command == "RF" then BuildRf(args) else if command == "RFSEC" then BuildSec(args) else BuildCam(args);
    assert b.Refused?;
    var ok: seq<Action> := if or20 then [Reply] else [];
    assert tokens[0] == command && command in OK_COMMANDS;
    assert CommandActions(cfg, dup, tokens) == SendBuilt(cfg, dup, b) == b.actions;
    assert ProcessLine(cfg, dup, or20, Spell(blanks, words)) == ok + b.actions;
    RepliesOnly(ok + b.actions);
  }

  lemma NoneIsBad(addr: string, word: string)
    ensures (forall h, u :: !IsAddrSpelling(addr, h, u)) ==> GetDeviceAddr([addr] + [word]).None?
    ensures word !in FUNC_WORDS && word != "XDIM" ==> GetFunc([word] + []) == -1
    ensures word !in CAM_KEYS ==> CamKey(word).None?
    ensures (forall a :: !(SpellsRfAddr(addr, a) && FitsRfAddr(a))) ==> GetRfAddr([addr] + [word]).None?
    ensures (forall addr8, n | 0 <= n < |SecWords(addr8)| :: SecWords(addr8)[n].word != word) ==>
              GetRfFunc([word] + [], true).None? && GetRfFunc([word] + [], false).None?
  {
    hide GetDeviceAddr, GetFunc, GetRfAddr, GetRfFunc, IndexOf, IsAddrSpelling, SpellsRfAddr, FitsRfAddr, SecWords;
    if GetDeviceAddr([addr] + [word]).Some? {
      var d := GetDeviceAddr([addr] + [word]).value;
      AddrAcceptedExactly(addr, [word], d.house, d.unit);
    }
    if GetRfAddr([addr] + [word]).Some? { RfAddrExactly(addr, [word], GetRfAddr([addr] + [word]).value); }
    FuncWordsExactly(word, []);
    SecWordsExactly(true, word, []);
    SecWordsExactly(false, word, []);
  }

  lemma SensibleWhatever(f: seq<byte>, padded: seq<byte>)
    requires FrameFits(f) && f <= padded
    ensures Sensible(padded, |f|) <==> Sensible(f, |f|)
    ensures padded[..|f|] == f && padded[1] == f[1]
  {
    SamePrefix(f, padded);
  }

  /** A CM19A packet, which has no marker, is put to the filter under marker 0x5d. */
  lemma AskedCm19aPackets(cfg: Config, buf: seq<byte>, len: int, scratch: seq<byte>, clock: seq<byte>)
    requires cfg.cm19a && Incoming(buf, len, scratch, clock) && 4 <= len <= 7 && FrameFits([0x5d] + buf[..len])
    ensures var f := [0x5d] + buf[..len];
            AskedByPacket(cfg, buf, len, scratch) == if Sensible(f, |f|) then Some(f) else None
  {
    hide Sensible, Asked;
    var f := [0x5d] + buf[..len];
    var padded := Overlay(scratch, f);
    SensibleWhatever(f, padded);
    HeardExactly(cfg, false, padded, len + 1);
  }
}
