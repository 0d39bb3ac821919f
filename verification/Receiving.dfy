/** What receiving a frame means, whoever sent it: the marker, the repeater, and the two controllers' packets. */
module Receiving {
  import opened Bytes
  import opened Codec
  import opened CommandPath
  import opened CommandTheorems
  import opened BridgeTheorems
  import opened RfTheorems
  import opened Encoders
  import opened DeviceState
  import opened FilterQueries

  /** The same frame under another marker byte. */
  function Remarked(buf: seq<byte>, marker: byte): seq<byte>
    requires buf != []
  {
    [marker] + buf[1..]
  }

  /** Two action lists announce the same events, send the same packets and change the same tables and settings. */
  ghost predicate SameParts(a: seq<Action>, b: seq<Action>) {
    Events(a) == Events(b) && Wires(a) == Wires(b) && TableLog(a) == TableLog(b) && Changes(a) == Changes(b)
  }

  lemma SamePartsAppend(a: seq<Action>, b: seq<Action>, tail: seq<Action>)
    requires SameParts(a, b)
    ensures SameParts(a + tail, b + tail)
  {
    PartsAppend(a, tail);
    PartsAppend(b, tail);
  }

  lemma OneEventParts(r: bool, s: bool, ev: Event)
    ensures SameParts([Dispatch(r, ev)], [Dispatch(s, ev)])
  {
    OnePart(Dispatch(r, ev));
    OnePart(Dispatch(s, ev));
  }

  lemma SensorEventParts(r: bool, s: bool, sensor: Action, ev: Event)
    requires sensor.Sensor?
    ensures SameParts([sensor, Dispatch(r, ev)], [sensor, Dispatch(s, ev)])
  {
    PartsAppend([sensor], [Dispatch(r, ev)]);
    PartsAppend([sensor], [Dispatch(s, ev)]);
    OneEventParts(r, s, ev);
    assert [sensor] + [Dispatch(r, ev)] == [sensor, Dispatch(r, ev)];
    assert [sensor] + [Dispatch(s, ev)] == [sensor, Dispatch(s, ev)];
  }

  lemma CommandIgnoresDirection(cfg: Config, dup: bool, buf: seq<byte>, len: int, r: bool, s: bool, c: RfCommand)
    requires 1 <= len <= |buf| && IsRfCommand(c)
    ensures SameParts(RfReport(r, c) + RepeatRf(cfg, buf, len) + Bridge(cfg, dup, c),
                      RfReport(s, c) + RepeatRf(cfg, buf, len) + Bridge(cfg, dup, c))
  {
    hide SameParts, RfReport, RepeatRf, Bridge;
    SameReport(r, s, c);
    SamePartsAppend(RfReport(r, c), RfReport(s, c), RepeatRf(cfg, buf, len));
    SamePartsAppend(RfReport(r, c) + RepeatRf(cfg, buf, len), RfReport(s, c) + RepeatRf(cfg, buf, len),
                    Bridge(cfg, dup, c));
  }

  lemma StandardIgnoresDirection(cfg: Config, dup: bool, r: bool, s: bool, buf: seq<byte>, len: int)
    requires 5 <= len <= 8 && len <= |buf| && |buf| >= 6
    ensures SameParts(DecodeStandard(cfg, dup, r, buf, len), DecodeStandard(cfg, dup, s, buf, len))
  {
    hide SameParts, Bridge, RfReport, DecodeHouseUnitFunc, RepeatRf;
    var sensor, ev := Sensor(0, 0, buf[2], buf[4], true), SecShort(buf[2], buf[4]);
    ReportIgnoresDirection(cfg, buf, len, [sensor], r, s, ev);
    assert [sensor] + [Dispatch(r, ev)] == [sensor, Dispatch(r, ev)];
    assert [sensor] + [Dispatch(s, ev)] == [sensor, Dispatch(s, ev)];
    RfCommandBounds(buf[2], buf[4]);
    CommandIgnoresDirection(cfg, dup, buf, len, r, s, DecodeHouseUnitFunc(buf[2], buf[4]));
    SamePartsOfItself([Reply]);
    SamePartsOfItself([]);
  }

  lemma StandardIgnoresMarker(cfg: Config, dup: bool, s: bool, buf: seq<byte>, marked: seq<byte>, len: int)
    requires 5 <= len <= 8 && len <= |buf| && |buf| >= 6 && |marked| == |buf| && marked[1..] == buf[1..]
    ensures DecodeStandard(cfg, dup, s, marked, len) == DecodeStandard(cfg, dup, s, buf, len)
  {
    hide StandardActions, RepeatRf;
    SameTail(buf, marked);
    SameRepeat(cfg, buf, marked, len);
  }

  lemma SameTail(buf: seq<byte>, marked: seq<byte>)
    requires |marked| == |buf| >= 1 && marked[1..] == buf[1..]
    ensures forall i | 1 <= i < |buf| :: marked[i] == buf[i]
  {
    assert forall i | 1 <= i < |buf| :: marked[i] == marked[1..][i - 1] == buf[1..][i - 1] == buf[i];
  }

  lemma SameSecAddress(buf: seq<byte>, marked: seq<byte>, len: int)
    requires 1 <= len <= |buf| == |marked| && marked[1..] == buf[1..]
    ensures DecodeSecAddress(marked, len) == DecodeSecAddress(buf, len)
  {
    hide TableParity;
    SameTail(buf, marked);
  }

  lemma SameRepeat(cfg: Config, buf: seq<byte>, marked: seq<byte>, len: int)
    requires 1 <= len <= |buf| == |marked| && marked[1..] == buf[1..]
    ensures RepeatRf(cfg, marked, len) == RepeatRf(cfg, buf, len)
  {
    assert marked[1..len] == marked[1..][..len - 1] == buf[1..][..len - 1] == buf[1..len];
  }

  lemma SameReport(r: bool, s: bool, c: RfCommand)
    requires IsRfCommand(c)
    ensures SameParts(RfReport(r, c), RfReport(s, c))
  {
    ReportParts(r, c);
    ReportParts(s, c);
  }

  lemma SamePartsOfItself(a: seq<Action>)
    ensures SameParts(a, a)
  {
  }

  /**
   The marker says only whether a frame is reported as received or transmitted.  What a daemon hears of
   its own frame, another daemon hears of it over the air, and of the same frame repeated.
   */
  lemma MarkerOnlyMarksDirection(cfg: Config, dup: bool, buf: seq<byte>, len: int, marker: byte)
    requires 1 <= len <= |buf| && (len >= 5 && (buf[1] == 0x20 || buf[1] == RX_MARKER) ==> |buf| >= 6)
    ensures SameParts(DecodeRf(cfg, dup, buf, len), DecodeRf(cfg, dup, Remarked(buf, marker), len))
  {
    hide SameParts, DecodeStandard, RepeatRf, DecodeSecAddress, DecodeCamera;
    var marked := Remarked(buf, marker);
    assert marked[1..] == buf[1..];
    SameTail(buf, marked);
    SamePartsOfItself(DecodeRf(cfg, dup, buf, len));
    if 5 <= len <= 8 {
      assert marked[1..len] == buf[1..len];
      SameRepeat(cfg, buf, marked, len);
      SameSecAddress(buf, marked, len);
      var r, s := buf[0] == RX_MARKER, marker == RX_MARKER;
      if buf[1] == 0x20 {
        StandardIgnoresDirection(cfg, dup, r, s, buf, len);
        StandardIgnoresMarker(cfg, dup, s, buf, marked, len);
      } else if buf[1] == 0x14 && DecodeCamera(buf[1..len]).Key? {
        var key := DecodeCamera(buf[1..len]);
        ReportIgnoresDirection(cfg, buf, len, [], r, s, Camera(key.house, key.key));
        NothingBefore(Dispatch(r, Camera(key.house, key.key)));
        NothingBefore(Dispatch(s, Camera(key.house, key.key)));
      } else if buf[1] == 0x29 && DecodeSecAddress(buf, len).SecOk? {
        var sec := DecodeSecAddress(buf, len);
        var sensor, ev := Sensor(sec.a0, sec.a1, sec.a2, sec.key, false), SecLong(sec.a0, sec.a1, sec.a2, sec.key);
        ReportIgnoresDirection(cfg, buf, len, [sensor], r, s, ev);
        assert [sensor] + [Dispatch(r, ev)] == [sensor, Dispatch(r, ev)];
        assert [sensor] + [Dispatch(s, ev)] == [sensor, Dispatch(s, ev)];
      }
    }
  }

  lemma NothingBefore(a: Action)
    ensures [] + [a] == [a]
  {
  }

  lemma ReportIgnoresDirection(cfg: Config, buf: seq<byte>, len: int, sensor: seq<Action>, r: bool, s: bool, ev: Event)
    requires 1 <= len <= |buf| && |sensor| <= 1 && forall a | a in sensor :: a.Sensor?
    ensures SameParts(sensor + [Dispatch(r, ev)] + RepeatRf(cfg, buf, len),
                      sensor + [Dispatch(s, ev)] + RepeatRf(cfg, buf, len))
  {
    hide SameParts, RepeatRf;
    if sensor == [] {
      OneEventParts(r, s, ev);
      assert sensor + [Dispatch(r, ev)] == [Dispatch(r, ev)] && sensor + [Dispatch(s, ev)] == [Dispatch(s, ev)];
    } else {
      assert sensor == [sensor[0]];
      SensorEventParts(r, s, sensor[0], ev);
      assert sensor + [Dispatch(r, ev)] == [sensor[0], Dispatch(r, ev)];
      assert sensor + [Dispatch(s, ev)] == [sensor[0], Dispatch(s, ev)];
    }
    SamePartsAppend(sensor + [Dispatch(r, ev)], sensor + [Dispatch(s, ev)], RepeatRf(cfg, buf, len));
  }

  // ---- the repeater ----

  function RepeaterOff(cfg: Config): Config { cfg.(rfToRf := 0) }

  /** `a` does what `b` does, after sending the given packets. */
  ghost predicate AlsoSends(packets: seq<seq<byte>>, a: seq<Action>, b: seq<Action>) {
    Events(a) == Events(b) && Wires(a) == packets + Wires(b) && TableLog(a) == TableLog(b) && Changes(a) == Changes(b)
  }

  /** The packet the repeater owes for a frame that passed its checks. */
  function Repeats(cfg: Config, frame: seq<byte>): seq<seq<byte>>
    requires frame != []
  {
    if cfg.rfToRf == 0 then [] else [RfWire(cfg.cm19a, Remarked(frame, TX_MARKER))]
  }

  lemma RepeatParts(cfg: Config, buf: seq<byte>, len: int)
    requires 1 <= len <= |buf|
    ensures AlsoSends(Repeats(cfg, buf[..len]), RepeatRf(cfg, buf, len), [])
    ensures RepeatRf(RepeaterOff(cfg), buf, len) == []
  {
    if cfg.rfToRf != 0 {
      var wire := Transmit(RfWire(cfg.cm19a, [TX_MARKER] + buf[1..len]));
      PartsAppend([Reply], [wire]);
      OnePart(Reply);
      OnePart(wire);
      assert [Reply] + [wire] == [Reply, wire] && buf[..len][1..] == buf[1..len];
    }
  }

  lemma RepeatAmong(cfg: Config, report: seq<Action>, buf: seq<byte>, len: int, rest: seq<Action>)
    requires 1 <= len <= |buf| && Wires(report) == []
    ensures AlsoSends(Repeats(cfg, buf[..len]), report + RepeatRf(cfg, buf, len) + rest,
                      report + RepeatRf(RepeaterOff(cfg), buf, len) + rest)
  {
    hide RepeatRf, Repeats, Wires, Events, TableLog, Changes;
    var repeated := RepeatRf(cfg, buf, len);
    RepeatParts(cfg, buf, len);
    PartsAppend(report, repeated);
    PartsAppend(report + repeated, rest);
    PartsAppend(report, []);
    PartsAppend(report + [], rest);
    NoParts();
    assert Events(report) + [] == Events(report) && TableLog(report) + [] == TableLog(report);
    assert Changes(report) + [] == Changes(report);
  }

  lemma NoParts()
    ensures Events([]) == [] && Wires([]) == [] && TableLog([]) == [] && Changes([]) == []
  {
  }

  lemma RepeatLast(cfg: Config, report: seq<Action>, buf: seq<byte>, len: int)
    requires 1 <= len <= |buf| && Wires(report) == []
    ensures AlsoSends(Repeats(cfg, buf[..len]), report + RepeatRf(cfg, buf, len),
                      report + RepeatRf(RepeaterOff(cfg), buf, len))
  {
    hide RepeatRf, Repeats, Wires, AlsoSends;
    RepeatAmong(cfg, report, buf, len, []);
    NothingAfter(report + RepeatRf(cfg, buf, len));
    NothingAfter(report + RepeatRf(RepeaterOff(cfg), buf, len));
  }

  lemma NothingAfter(acts: seq<Action>)
    ensures acts + [] == acts
  {
  }

  lemma BridgeIgnoresTheRepeater(cfg: Config, dup: bool, c: RfCommand)
    requires IsRfCommand(c)
    ensures Bridge(RepeaterOff(cfg), dup, c) == Bridge(cfg, dup, c)
  {
    hide BridgeLine, ProcessLine, IsPlLine;
    if !cfg.cm19a && c.house in cfg.rfToPl {
      BridgeLineTokens(c);
      PlLineIgnoresSettings(cfg, RepeaterOff(cfg), dup, BridgeLine(c));
    }
  }

  lemma PlLineIgnoresSettings(cfg: Config, other: Config, dup: bool, line: string)
    requires IsPlLine(line)
    ensures ProcessLine(cfg, dup, false, line) == ProcessLine(other, dup, false, line)
  {
    hide Tokens, PlActions;
    var tokens := Tokens(line);
    assert CommandActions(cfg, dup, tokens) == PlActions(tokens[1..]) == CommandActions(other, dup, tokens);
  }

  lemma SensorReportParts(sensor: Action, report: Action)
    requires sensor.Sensor? && report.Dispatch?
    ensures Wires([sensor, report]) == []
  {
    PartsAppend([sensor], [report]);
    OnePart(sensor);
    OnePart(report);
    AfterOne(sensor, report);
  }

  lemma StandardRepeats(cfg: Config, dup: bool, received: bool, buf: seq<byte>, len: int)
    requires 5 <= len <= 8 && len <= |buf| && |buf| >= 6 && buf[1] == 0x20
    ensures AlsoSends(if Checks(buf, len) && !dup then Repeats(cfg, buf[..len]) else [],
                      DecodeStandard(cfg, dup, received, buf, len),
                      DecodeStandard(RepeaterOff(cfg), dup, received, buf, len))
  {
    hide AlsoSends, Repeats, RepeatRf, Bridge, RfReport, DecodeHouseUnitFunc, IsRfCommand;
    SendsNothingMore([]);
    SendsNothingMore([Reply]);
    if Checks(buf, len) && !dup {
      if buf[2] ^ buf[3] == 0x0f {
        var sensor, heard := Sensor(0, 0, buf[2], buf[4], true), Dispatch(received, SecShort(buf[2], buf[4]));
        SensorReportParts(sensor, heard);
        RepeatLast(cfg, [sensor, heard], buf, len);
      } else {
        CommandRepeats(cfg, received, buf, len);
      }
    }
  }

  lemma CommandRepeats(cfg: Config, received: bool, buf: seq<byte>, len: int)
    requires 5 <= len <= 8 && len <= |buf| && |buf| >= 6
    requires buf[2] ^ buf[3] == 0xff && (buf[4] ^ buf[5] == 0xff || buf[4] ^ buf[5] == 0xfb)
    ensures AlsoSends(Repeats(cfg, buf[..len]), DecodeStandard(cfg, false, received, buf, len),
                      DecodeStandard(RepeaterOff(cfg), false, received, buf, len))
  {
    hide AlsoSends, Repeats, RepeatRf, Bridge, RfReport, DecodeHouseUnitFunc, IsRfCommand;
    RfCommandBounds(buf[2], buf[4]);
    var c := DecodeHouseUnitFunc(buf[2], buf[4]);
    RfCommandIs(c);
    ReportParts(received, c);
    BridgeIgnoresTheRepeater(cfg, false, c);
    RepeatAmong(cfg, RfReport(received, c), buf, len, Bridge(cfg, false, c));
  }

  lemma RfCommandIs(c: RfCommand)
    requires IsHouse(c.house) && FUNC_ON <= c.func <= FUNC_BRIGHT
    requires (c.unit == 0 <==> c.func in {FUNC_DIM, FUNC_BRIGHT}) && 0 <= c.unit <= 16
    ensures IsRfCommand(c)
  {
  }

  lemma SendsNothingMore(acts: seq<Action>)
    ensures AlsoSends([], acts, acts)
  {
    assert [] + Wires(acts) == Wires(acts);
  }

  /**
   The repeater sends each frame that passes its checks once more under the transmit marker, unless it is a
   duplicate, before anything the bridge sends; it changes nothing else of what the decoding does.
   */
  lemma {:induction false} RepeaterSendsTheFrame(cfg: Config, dup: bool, buf: seq<byte>, len: int)
    requires 0 <= len <= |buf| && (len >= 5 && (buf[1] == 0x20 || buf[1] == RX_MARKER) ==> |buf| >= 6)
    ensures var asked := Asked(buf, len);
            var on, off := DecodeRf(cfg, dup, buf, len), DecodeRf(RepeaterOff(cfg), dup, buf, len);
            && Wires(on) == (if cfg.rfToRf != 0 && asked.Some? && !dup
                             then [RfWire(cfg.cm19a, Remarked(asked.value, TX_MARKER))] else []) + Wires(off)
            && Events(on) == Events(off) && TableLog(on) == TableLog(off) && Changes(on) == Changes(off)
    decreases len
  {
    hide DecodeStandard, RepeatRf, DecodeSecAddress, DecodeCamera;
    if len > 8 && buf[1] == RX_MARKER {
      RepeaterSendsTheFrame(cfg, dup, buf[1..], len - 1);
    } else if 5 <= len <= 8 && !dup {
      var received := buf[0] == RX_MARKER;
      if buf[1] == 0x20 {
        StandardRepeats(cfg, dup, received, buf, len);
      } else if buf[1] == 0x14 && DecodeCamera(buf[1..len]).Key? {
        var key := DecodeCamera(buf[1..len]);
        RepeatLast(cfg, [Dispatch(received, Camera(key.house, key.key))], buf, len);
      } else if buf[1] == 0x29 && DecodeSecAddress(buf, len).SecOk? {
        var sec := DecodeSecAddress(buf, len);
        var sensor := Sensor(sec.a0, sec.a1, sec.a2, sec.key, false);
        var heard := Dispatch(received, SecLong(sec.a0, sec.a1, sec.a2, sec.key));
        SensorReportParts(sensor, heard);
        RepeatLast(cfg, [sensor, heard], buf, len);
      }
    } else if 5 <= len <= 8 && buf[1] == 0x20 {
      StandardRepeats(cfg, dup, buf[0] == RX_MARKER, buf, len);
    }
  }

  lemma StandardIgnoresPadding(cfg: Config, dup: bool, r: bool, f: seq<byte>, padded: seq<byte>)
    requires 6 <= |f| <= 8 && f <= padded
    ensures DecodeStandard(cfg, dup, r, padded, |f|) == DecodeStandard(cfg, dup, r, f, |f|)
  {
    hide StandardActions, RepeatRf;
    SamePrefix(f, padded);
    PaddedRepeat(cfg, f, padded);
  }

  lemma SamePrefix(f: seq<byte>, padded: seq<byte>)
    requires f <= padded
    ensures forall i | 0 <= i < |f| :: padded[i] == f[i]
  {
  }

  lemma PaddedRepeat(cfg: Config, f: seq<byte>, padded: seq<byte>)
    requires 1 <= |f| && f <= padded
    ensures RepeatRf(cfg, padded, |f|) == RepeatRf(cfg, f, |f|) && padded[1..|f|] == f[1..|f|]
  {
    assert padded[1..|f|] == f[1..|f|];
  }

  lemma PaddedSecAddress(f: seq<byte>, padded: seq<byte>)
    requires f <= padded
    ensures DecodeSecAddress(padded, |f|) == DecodeSecAddress(f, |f|)
  {
    hide TableParity;
    SamePrefix(f, padded);
  }

  /** What the packet buffer holds behind a frame does not matter. */
  lemma PaddingDoesNotMatter(cfg: Config, dup: bool, f: seq<byte>, padded: seq<byte>)
    requires FrameFits(f) && f <= padded
    ensures DecodeRf(cfg, dup, padded, |f|) == DecodeRf(cfg, dup, f, |f|)
  {
    hide DecodeStandard, RepeatRf, DecodeSecAddress, DecodeCamera;
    SamePrefix(f, padded);
    PaddedRepeat(cfg, f, padded);
    PaddedSecAddress(f, padded);
    assert padded[1] == f[1] && padded[0] == f[0];
    if f[1] == 0x20 { StandardIgnoresPadding(cfg, dup, f[0] == RX_MARKER, f, padded); }
  }

  /** The packet a controller hands over for what its like was given to send; a CM19A knows no marker. */
  function AsReceived(cm19a: bool, wire: seq<byte>): seq<byte>
    requires wire != []
  {
    if cm19a then wire else Remarked(wire, 0x5d)
  }

  /**
   A frame one daemon transmits, received by another with the same settings through either controller and
   with anything behind it in the buffers, announces, sends and records what its sender's own decoding did.
   */
  lemma AnotherDaemonHearsTheSame(cfg: Config, dup: bool, f: seq<byte>, pad: seq<byte>,
                                  scratch: seq<byte>, clock: seq<byte>)
    requires FrameFits(f) && |AsReceived(cfg.cm19a, RfWire(cfg.cm19a, f)) + pad| == 8 && |scratch| == 9 && |clock| == 8
    ensures var packet := AsReceived(cfg.cm19a, RfWire(cfg.cm19a, f));
            SameParts(DecodeRf(cfg, dup, f, |f|), DecodePacket(cfg, dup, packet + pad, |packet|, scratch, clock))
  {
    hide SameParts, DecodeRf;
    var packet, marked := AsReceived(cfg.cm19a, RfWire(cfg.cm19a, f)), Remarked(f, RX_MARKER);
    var buf := packet + pad;
    MarkerOnlyMarksDirection(cfg, dup, f, |f|, RX_MARKER);
    assert buf[..|packet|] == packet;
    if cfg.cm19a {
      var local := Overlay(scratch, [RX_MARKER] + packet);
      assert marked == [RX_MARKER] + packet;
      assert local[..|marked|] == marked;
      PaddingDoesNotMatter(cfg, dup, marked, local);
    } else {
      PaddingDoesNotMatter(cfg, dup, marked, buf);
    }
  }

  // ---- power line ----

  lemma ExtendedIgnoresDirection(r: bool, s: bool, houseFunc: byte, unitCode: byte, data: byte, command: byte)
    ensures SameParts(ExtendedActions(r, houseFunc, unitCode, data, command),
                      ExtendedActions(s, houseFunc, unitCode, data, command))
  {
    var house, func, unit := HouseOf(High(houseFunc)), Low(houseFunc) as int, HouseOf(Low(unitCode)) + 1;
    var ev, table := PlExtended(house, unit, func, data, command), Device(Xdim(house, unit - 1, data));
    OneEventParts(r, s, ev);
    SamePartsAppend([Dispatch(r, ev)], [Dispatch(s, ev)], [table]);
    assert [Dispatch(r, ev)] + [table] == [Dispatch(r, ev), table];
    assert [Dispatch(s, ev)] + [table] == [Dispatch(s, ev), table];
  }

  lemma EventAfter(before: seq<Action>, r: bool, s: bool, ev: Event)
    ensures SameParts(before + [Dispatch(r, ev)], before + [Dispatch(s, ev)])
  {
    PartsAppend(before, [Dispatch(r, ev)]);
    PartsAppend(before, [Dispatch(s, ev)]);
    OneEventParts(r, s, ev);
  }

  /** On the power line, too, the marker says only whether a packet is reported as received or transmitted. */
  lemma PlMarkerOnlyMarksDirection(buf: seq<byte>, len: int, marker: byte)
    requires 1 <= len <= |buf| && (len >= 4 && buf[2] == 0x02 ==> |buf| >= 5)
    ensures SameParts(DecodePlc(buf, len), DecodePlc(Remarked(buf, marker), len))
  {
    hide SameParts, ExtendedActions, HouseOf, High, Low, FuncActions;
    var marked := Remarked(buf, marker);
    assert marked[1..] == buf[1..];
    SameTail(buf, marked);
    SamePartsOfItself([]);
    if 4 <= len <= 8 {
      var r, s := buf[0] == 0x5a, marker == 0x5a;
      var house, low := HouseOf(High(buf[3])), Low(buf[3]);
      if buf[2] == 0x00 {
        var unit := HouseOf(low) + 1;
        EventAfter([Device(Address(house, unit - 1))], r, s, PlAddress(house, unit));
        AfterOne(Device(Address(house, unit - 1)), Dispatch(r, PlAddress(house, unit)));
        AfterOne(Device(Address(house, unit - 1)), Dispatch(s, PlAddress(house, unit)));
      } else if buf[2] == 0x01 {
        EventAfter(FuncActions(house, low as int), r, s, PlHouse(house, low as int));
      } else if buf[2] == 0x02 {
        var ev := PlLevel(HouseOf(High(buf[4])), Low(buf[4]) as int, ((buf[3] & 0xf8) >> 3) as int);
        OneEventParts(r, s, ev);
      } else if len == 7 {
        ExtendedIgnoresDirection(r, s, buf[3], buf[4], buf[5], buf[6]);
        ExtendedIgnoresDirection(r, s, buf[6], buf[5], buf[4], buf[3]);
      }
    }
  }

  lemma AfterOne(a: Action, b: Action)
    ensures [a] + [b] == [a, b]
  {
  }

  /** An extended packet is received back to front under header 0x08, and means what the transmitted one does. */
  lemma ReversedExtendedMeansTheSame(shown: seq<byte>, header: seq<byte>)
    requires |shown| == 7 && shown[2] == 0x07 && |header| == 2
    ensures SameParts(DecodePlc(shown, 7),
                      DecodePlc(header + [0x08, shown[6], shown[5], shown[4], shown[3]], 7))
  {
    hide SameParts, ExtendedActions;
    var received := header + [0x08, shown[6], shown[5], shown[4], shown[3]];
    assert received[3] == shown[6] && received[4] == shown[5] && received[5] == shown[4] && received[6] == shown[3];
    ExtendedIgnoresDirection(shown[0] == 0x5a, header[0] == 0x5a, shown[3], shown[4], shown[5], shown[6]);
  }

  lemma PlPaddingDoesNotMatter(f: seq<byte>, padded: seq<byte>)
    requires 4 <= |f| <= 8 && f <= padded && (f[2] == 0x02 ==> |f| >= 5)
    ensures DecodePlc(padded, |f|) == DecodePlc(f, |f|)
  {
    hide ExtendedActions, HouseOf, High, Low, FuncActions;
    SamePrefix(f, padded);
  }

  /**
   A power-line frame one daemon shows itself and sends, received by another as a packet with anything behind
   it in the buffer, announces and records what its sender's own decoding did.
   */
  lemma AnotherDaemonHearsThePacket(cfg: Config, dup: bool, f: seq<byte>, pad: seq<byte>,
                                    scratch: seq<byte>, clock: seq<byte>)
    requires !cfg.cm19a && 4 <= |f| <= 8 && (f[2] == 0x02 ==> |f| >= 5)
    requires |f + pad| == 8 && |scratch| == 9 && |clock| == 8
    ensures SameParts(DecodePlc(f, |f|), DecodePacket(cfg, dup, Remarked(f, 0x5a) + pad, |f|, scratch, clock))
  {
    hide SameParts, DecodePlc;
    var packet := Remarked(f, 0x5a);
    PlMarkerOnlyMarksDirection(f, |f|, 0x5a);
    PlPaddingDoesNotMatter(packet, packet + pad);
    assert (packet + pad)[0] == 0x5a;
  }

  /** The same for an extended packet, which arrives back to front. */
  lemma AnotherDaemonHearsTheReversed(cfg: Config, dup: bool, shown: seq<byte>, count: byte, last: byte,
                                      scratch: seq<byte>, clock: seq<byte>)
    requires !cfg.cm19a && |shown| == 7 && shown[2] == 0x07 && |scratch| == 9 && |clock| == 8
    ensures var packet := [0x5a, count, 0x08, shown[6], shown[5], shown[4], shown[3]];
            SameParts(DecodePlc(shown, 7), DecodePacket(cfg, dup, packet + [last], 7, scratch, clock))
  {
    hide SameParts, DecodePlc;
    var packet := [0x5a, count, 0x08, shown[6], shown[5], shown[4], shown[3]];
    ReversedExtendedMeansTheSame(shown, [0x5a, count]);
    assert [0x5a, count] + [0x08, shown[6], shown[5], shown[4], shown[3]] == packet;
    PlPaddingDoesNotMatter(packet, packet + [last]);
    assert (packet + [last])[0] == 0x5a;
  }
}
