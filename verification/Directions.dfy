/** Which events are reported as received: exactly the first of a packet, and nothing of a client's line. */
module Directions {
  import opened Bytes
  import opened Codec
  import opened CommandText
  import opened Encoders
  import opened CommandPath
  import opened CommandTheorems

  predicate NoneReceived(acts: seq<Action>) { forall a | a in Announcements(acts) :: !a.received }

  /** The first event has this direction, and any other is sent. */
  predicate FirstIs(acts: seq<Action>, received: bool) {
    forall i | 0 <= i < |Announcements(acts)| :: Announcements(acts)[i].received == (received && i == 0)
  }

  lemma NoneReceivedAppends(a: seq<Action>, b: seq<Action>)
    requires NoneReceived(a) && NoneReceived(b)
    ensures NoneReceived(a + b)
  {
    AnnouncementsAppend(a, b);
  }

  lemma FirstThenSent(a: seq<Action>, b: seq<Action>, received: bool)
    requires FirstIs(a, received) && NoneReceived(b) && (received ==> Announcements(a) != [])
    ensures FirstIs(a + b, received)
  {
    AnnouncementsAppend(a, b);
    forall i | 0 <= i < |Announcements(a + b)|
      ensures Announcements(a + b)[i].received == (received && i == 0)
    {
      if i >= |Announcements(a)| { assert Announcements(a + b)[i] in Announcements(b); }
    }
  }

  lemma OneAnnouncement(a: Action)
    ensures Announcements([a]) == AnnouncedIn(a)
  {
  }

  lemma QuietActions(acts: seq<Action>)
    requires forall a | a in acts :: !a.Dispatch?
    ensures Announcements(acts) == []
  {
    if acts != [] {
      assert forall a | a in acts[1..] :: a in acts;
      QuietActions(acts[1..]);
    }
  }

  // ---- the power line ----

  /** A decoded packet announces at most one event, received exactly under marker 0x5a. */
  lemma PlDirection(buf: seq<byte>, len: int)
    requires 0 <= len <= |buf| && (len >= 4 && buf[2] == 0x02 ==> |buf| >= 5)
    ensures |Announcements(DecodePlc(buf, len))| <= 1
    ensures forall a | a in Announcements(DecodePlc(buf, len)) :: a.received == (buf[0] == 0x5a)
  {
    hide HouseOf, High, Low, FuncActions, Announcements;
    NothingAnnounced(false);
    if 4 <= len <= 8 {
      var r, acts := buf[0] == 0x5a, DecodePlc(buf, len);
      if buf[2] == 0x00 {
        if acts != [] {
          AddressAnnounces(acts[0], acts[1]);
          assert acts == [acts[0], acts[1]];
        }
      } else if buf[2] == 0x01 {
        FuncAnnounces(r, HouseOf(High(buf[3])), Low(buf[3]) as int);
      } else if buf[2] == 0x02 {
        if acts != [] {
          OneAnnouncement(acts[0]);
          assert acts == [acts[0]];
        }
      } else if len == 7 {
        ExtendedAnnounces(r, buf[3], buf[4], buf[5], buf[6]);
        ExtendedAnnounces(r, buf[6], buf[5], buf[4], buf[3]);
      }
    }
  }

  lemma AddressAnnounces(table: Action, event: Action)
    requires table.Device? && event.Dispatch?
    ensures Announcements([table, event]) == [Announcement(event.received, event.event)]
  {
    TwoAnnouncements(table, event);
  }

  lemma FuncAnnounces(r: bool, house: int, func: int)
    ensures Announcements(FuncActions(house, func) + [Dispatch(r, PlHouse(house, func))])
         == [Announcement(r, PlHouse(house, func))]
  {
    hide FuncActions;
    FuncActionsAreQuiet(house, func);
    AnnouncementsAppend(FuncActions(house, func), [Dispatch(r, PlHouse(house, func))]);
    OneAnnouncement(Dispatch(r, PlHouse(house, func)));
  }

  lemma FuncActionsAreQuiet(house: int, func: int)
    ensures Announcements(FuncActions(house, func)) == []
  {
    QuietActions(FuncActions(house, func));
  }

  lemma TwoAnnouncements(a: Action, b: Action)
    ensures Announcements([a, b]) == AnnouncedIn(a) + AnnouncedIn(b)
  {
    AnnouncementsAppend([a], [b]);
    OneAnnouncement(a);
    OneAnnouncement(b);
    assert [a] + [b] == [a, b];
  }

  lemma ExtendedAnnounces(r: bool, houseFunc: byte, unitCode: byte, data: byte, command: byte)
    ensures var acts := ExtendedActions(r, houseFunc, unitCode, data, command);
            |Announcements(acts)| == 1 && Announcements(acts)[0].received == r
  {
    hide HouseOf, High, Low;
    var acts := ExtendedActions(r, houseFunc, unitCode, data, command);
    TwoAnnouncements(acts[0], acts[1]);
    assert acts == [acts[0], acts[1]];
  }

  lemma SendAddressDirection(house: int, unit: int)
    requires IsHouse(house) && IsHouse(unit)
    ensures NoneReceived(SendAddress(house, unit))
  {
    hide DecodePlc;
    PlDirection(AddressFrame(house, unit), 4);
    OneAnnouncement(Transmit(AddressWire(house, unit)));
    NoneReceivedAppends(DecodePlc(AddressFrame(house, unit), 4), [Transmit(AddressWire(house, unit))]);
  }

  lemma SendFuncDirection(house: int, func: int, param: int)
    requires IsHouse(house) && 0 <= func < 16 && 0 <= param < 256
    ensures NoneReceived(SendFunc(house, func, param))
  {
    hide DecodePlc;
    if func == FUNC_DIM || func == FUNC_BRIGHT {
      PlDirection(DimFrame(house, func, param), 5);
      OneAnnouncement(Transmit(DimWire(house, func, param)));
      NoneReceivedAppends(DecodePlc(DimFrame(house, func, param), 5), [Transmit(DimWire(house, func, param))]);
    } else {
      PlDirection(FuncFrame(house, func), 4);
      OneAnnouncement(Transmit(FuncWire(house, func)));
      NoneReceivedAppends(DecodePlc(FuncFrame(house, func), 4), [Transmit(FuncWire(house, func))]);
    }
  }

  lemma PlCommandDirection(c: PlCommand)
    requires c.Proper()
    ensures NoneReceived(PerformPl(c))
  {
    hide SendAddress, SendFunc, NoneReceived, DecodePlc;
    match c
    case SelectUnit(house, unit) => SendAddressDirection(house, unit);
    case HouseFunc(house, func) => SendFuncDirection(house, func, 0);
    case UnitFunc(house, unit, func) =>
      SendAddressDirection(house, unit);
      SendFuncDirection(house, func, 0);
      NoneReceivedAppends(SendAddress(house, unit), SendFunc(house, func, 0));
    case HouseDim(house, func, level) => SendFuncDirection(house, func, level);
    case UnitDim(house, unit, func, level) =>
      SendAddressDirection(house, unit);
      SendFuncDirection(house, func, level);
      NoneReceivedAppends(SendAddress(house, unit), SendFunc(house, func, level));
    case Extended(house, unit, command, subcommand, data) =>
      ExtendedDirection(house, unit, command, subcommand, data);
  }

  lemma ExtendedDirection(house: int, unit: int, command: int, subcommand: int, data: int)
    requires Extended(house, unit, command, subcommand, data).Proper()
    ensures NoneReceived(PerformPl(Extended(house, unit, command, subcommand, data)))
  {
    hide DecodePlc, Pack;
    var frame := ExtendedFrame(house, unit, command, subcommand, data);
    var wire := Transmit(ExtendedWire(house, unit, command, subcommand, data));
    PlDirection(frame, 7);
    OneAnnouncement(wire);
    NoneReceivedAppends(DecodePlc(frame, 7), [wire]);
  }

  lemma PlActionsDirection(args: seq<string>)
    ensures NoneReceived(PlActions(args))
  {
    hide PerformPl, NoneReceived, GetDeviceAddr, GetFunc, GetParam;
    Quiet();
    match ParsePl(args)
    case NotACommand =>
    case Parsed(command, checked, rest) =>
      PlCommandDirection(command);
      NoneReceivedAppends(PerformPl(command), if checked then CheckEnd(rest) else []);
  }

  lemma Quiet()
    ensures NoneReceived([]) && NoneReceived([Reply])
  {
  }

  // ---- RF ----

  lemma BridgeDirection(cfg: Config, dup: bool, c: RfCommand)
    requires IsHouse(c.house) && 0 <= c.unit <= 16 && FUNC_ON <= c.func <= FUNC_BRIGHT
    ensures NoneReceived(Bridge(cfg, dup, c))
  {
    hide NoneReceived, BridgeLine, ProcessLine, IsPlLine;
    Quiet();
    if !cfg.cm19a && c.house in cfg.rfToPl {
      BridgeLineTokens(c);
      PlLineDirection(cfg, dup, false, BridgeLine(c));
    }
  }

  lemma PlLineDirection(cfg: Config, dup: bool, or20: bool, line: string)
    requires IsPlLine(line)
    ensures NoneReceived(ProcessLine(cfg, dup, or20, line))
  {
    hide Tokens, PlActions, NoneReceived, Upper;
    var tokens := Tokens(line);
    Quiet();
    PlActionsDirection(tokens[1..]);
    var ok: seq<Action> := if or20 then [Reply] else [];
    assert CommandActions(cfg, dup, tokens) == PlActions(tokens[1..]);
    assert ProcessLine(cfg, dup, or20, line) == ok + PlActions(tokens[1..]);
    NoneReceivedAppends(ok, PlActions(tokens[1..]));
  }

  lemma RepeatDirection(cfg: Config, buf: seq<byte>, len: int)
    requires 1 <= len <= |buf|
    ensures Announcements(RepeatRf(cfg, buf, len)) == []
  {
    QuietActions(RepeatRf(cfg, buf, len));
  }

  lemma ReportDirection(received: bool, c: RfCommand)
    ensures |Announcements(RfReport(received, c))| == 1 && FirstIs(RfReport(received, c), received)
  {
    if c.func != FUNC_DIM && c.func != FUNC_BRIGHT {
      var acts := RfReport(received, c);
      QuietActions(acts[..2]);
      OneAnnouncement(acts[2]);
      AnnouncementsAppend(acts[..2], [acts[2]]);
      assert acts == acts[..2] + [acts[2]];
    }
  }

  lemma ReportThenRepeat(report: seq<Action>, received: bool, cfg: Config, buf: seq<byte>, len: int)
    requires 1 <= len <= |buf| && FirstIs(report, received) && |Announcements(report)| == 1
    ensures FirstIs(report + RepeatRf(cfg, buf, len), received)
    ensures |Announcements(report + RepeatRf(cfg, buf, len))| == 1
  {
    hide RepeatRf;
    RepeatDirection(cfg, buf, len);
    AnnouncementsAppend(report, RepeatRf(cfg, buf, len));
    assert Announcements(report) + [] == Announcements(report);
  }

  lemma SensorDirection(sensor: Action, received: bool, ev: Event)
    requires sensor.Sensor?
    ensures var acts := [sensor, Dispatch(received, ev)]; FirstIs(acts, received) && |Announcements(acts)| == 1
  {
    OneAnnouncement(Dispatch(received, ev));
    OneAnnouncement(sensor);
    AnnouncementsAppend([sensor], [Dispatch(received, ev)]);
    assert [sensor] + [Dispatch(received, ev)] == [sensor, Dispatch(received, ev)];
  }

  lemma NothingAnnounced(received: bool)
    ensures FirstIs([], received) && FirstIs([Reply], received) && Announcements([]) == []
  {
  }

  lemma StandardDirection(cfg: Config, dup: bool, received: bool, buf: seq<byte>, len: int)
    requires 5 <= len <= 8 && len <= |buf| && |buf| >= 6
    ensures FirstIs(DecodeStandard(cfg, dup, received, buf, len), received)
  {
    hide FirstIs, RepeatRf, RfReport, Bridge, DecodeHouseUnitFunc, Announcements;
    NothingAnnounced(received);
    var sensor, ev := Sensor(0, 0, buf[2], buf[4], true), SecShort(buf[2], buf[4]);
    SensorDirection(sensor, received, ev);
    ReportThenRepeat([sensor, Dispatch(received, ev)], received, cfg, buf, len);
    RfCommandBounds(buf[2], buf[4]);
    var c := DecodeHouseUnitFunc(buf[2], buf[4]);
    ReportDirection(received, c);
    ReportThenRepeat(RfReport(received, c), received, cfg, buf, len);
    BridgeDirection(cfg, dup, c);
    OneIsSome(RfReport(received, c) + RepeatRf(cfg, buf, len));
    FirstThenSent(RfReport(received, c) + RepeatRf(cfg, buf, len), Bridge(cfg, dup, c), received);
  }

  lemma OneIsSome(acts: seq<Action>)
    ensures |Announcements(acts)| == 1 ==> Announcements(acts) != []
  {
  }

  /** A decoded frame reports its own event under its marker, and whatever is bridged as sent. */
  lemma {:induction false} RfDirection(cfg: Config, dup: bool, buf: seq<byte>, len: int)
    requires 0 <= len <= |buf| && (len >= 5 && (buf[1] == 0x20 || buf[1] == RX_MARKER) ==> |buf| >= 6)
    ensures FirstIs(DecodeRf(cfg, dup, buf, len), len > 8 || (len > 0 && buf[0] == 0x5d))
    decreases len
  {
    hide FirstIs, RepeatRf, DecodeStandard, DecodeSecAddress, DecodeCamera;
    NothingAnnounced(len > 8 || (len > 0 && buf[0] == 0x5d));
    if len > 8 && buf[1] == RX_MARKER {
      RfDirection(cfg, dup, buf[1..], len - 1);
    } else if 5 <= len <= 8 {
      var received := buf[0] == 0x5d;
      if buf[1] == 0x20 {
        StandardDirection(cfg, dup, received, buf, len);
      } else if buf[1] == 0x14 && DecodeCamera(buf[1..len]).Key? {
        var key := DecodeCamera(buf[1..len]);
        CameraDirection(received, Camera(key.house, key.key));
        ReportThenRepeat([Dispatch(received, Camera(key.house, key.key))], received, cfg, buf, len);
      } else if buf[1] == 0x29 && DecodeSecAddress(buf, len).SecOk? {
        var s := DecodeSecAddress(buf, len);
        var sensor, ev := Sensor(s.a0, s.a1, s.a2, s.key, false), SecLong(s.a0, s.a1, s.a2, s.key);
        SensorDirection(sensor, received, ev);
        ReportThenRepeat([sensor, Dispatch(received, ev)], received, cfg, buf, len);
      }
    }
  }

  lemma CameraDirection(received: bool, ev: Event)
    ensures FirstIs([Dispatch(received, ev)], received) && |Announcements([Dispatch(received, ev)])| == 1
  {
    OneAnnouncement(Dispatch(received, ev));
  }

  // ---- packets and lines ----

  /** Of a packet from either controller the first event is received, and anything it causes is sent. */
  lemma PacketsAreReceived(cfg: Config, dup: bool, buf: seq<byte>, len: int, scratch: seq<byte>, clock: seq<byte>)
    requires |buf| == 8 && 0 <= len <= 8 && |scratch| == 9 && |clock| == 8
    ensures FirstIs(DecodePacket(cfg, dup, buf, len, scratch, clock), true)
  {
    hide DecodeRf, DecodePlc;
    NothingAnnounced(true);
    QuietActions([Transmit(clock)]);
    if len >= 4 {
      if cfg.cm19a {
        RfDirection(cfg, dup, Overlay(scratch, [RX_MARKER] + buf[..len]), len + 1);
      } else if buf[0] == 0x5a {
        PlDirection(buf, len);
      } else if buf[0] == RX_MARKER {
        RfDirection(cfg, dup, buf, len);
      }
    }
  }

  lemma SentIsNotReceived(acts: seq<Action>)
    requires FirstIs(acts, false)
    ensures NoneReceived(acts)
  {
  }

  lemma BuiltDirection(cfg: Config, dup: bool, b: Built)
    requires b.Built? ==> FrameFits(b.frame) && b.frame[0] == TX_MARKER
    requires b.Refused? ==> forall a | a in b.actions :: a == Reply
    ensures NoneReceived(SendBuilt(cfg, dup, b))
  {
    hide DecodeRf, NoneReceived, FirstIs, Announcements;
    match b
    case Refused(actions) =>
      QuietActions(actions);
      QuietIsSent(actions);
    case Built(frame, rest) =>
      RfDirection(cfg, dup, frame, |frame|);
      SentIsNotReceived(DecodeRf(cfg, dup, frame, |frame|));
      var tail := [Transmit(RfWire(cfg.cm19a, frame))] + CheckEnd(rest);
      QuietActions(tail);
      QuietIsSent(tail);
      NoneReceivedAppends(DecodeRf(cfg, dup, frame, |frame|), tail);
      assert SendBuilt(cfg, dup, b) == DecodeRf(cfg, dup, frame, |frame|) + tail;
  }

  lemma QuietIsSent(acts: seq<Action>)
    requires Announcements(acts) == []
    ensures NoneReceived(acts)
  {
  }

  lemma BuiltMarkers(args: seq<string>)
    ensures BuildRf(args).Built? ==> BuildRf(args).frame[0] == TX_MARKER
    ensures BuildSec(args).Built? ==> BuildSec(args).frame[0] == TX_MARKER
    ensures BuildCam(args).Built? ==> BuildCam(args).frame[0] == TX_MARKER
  {
    hide GetDeviceAddr, GetFunc, GetRfAddr, GetRfFunc, CamKey, SplitAddr;
  }

  lemma OtherDirection(command: string, args: seq<string>)
    ensures forall a | a in OtherActions(command, args) :: !a.Dispatch?
  {
    hide GetDeviceAddr, GetRfAddr, GetHexData, HouseSet, ParseDecimalInt;
  }

  /** Nothing a client's line does is reported as received. */
  lemma LinesAreSent(cfg: Config, dup: bool, or20: bool, line: string)
    ensures NoneReceived(ProcessLine(cfg, dup, or20, line))
  {
    hide NoneReceived, Tokens, Upper, CommandActions, Announcements;
    var tokens := Tokens(line);
    Quiet();
    if tokens != [] {
      CommandDirection(cfg, dup, tokens);
      NoneReceivedAppends(if or20 && tokens[0] in OK_COMMANDS then [Reply] else [], CommandActions(cfg, dup, tokens));
    }
  }

  lemma CommandDirection(cfg: Config, dup: bool, tokens: seq<string>)
    requires tokens != []
    ensures NoneReceived(CommandActions(cfg, dup, tokens))
  {
    hide NoneReceived, PlActions, SendBuilt, BuildRf, BuildSec, BuildCam, OtherActions, Announcements;
    var args := tokens[1..];
    PlActionsDirection(args);
    BuiltMarkers(args);
    BuiltDirection(cfg, dup, BuildRf(args));
    BuiltDirection(cfg, dup, BuildSec(args));
    BuiltDirection(cfg, dup, BuildCam(args));
    OtherDirection(tokens[0], args);
    QuietActions(OtherActions(tokens[0], args));
    QuietIsSent(OtherActions(tokens[0], args));
  }
}
