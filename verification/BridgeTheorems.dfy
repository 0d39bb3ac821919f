/** The RF-to-PL bridge, the RF, security and camera commands, and how much any input can send. */
module BridgeTheorems {
  import opened Bytes
  import opened Codec
  import opened CommandText
  import opened CommandPath
  import opened CommandTheorems
  import opened Encoders
  import opened SpelledCommands
  import opened DeviceState

  predicate IsRfCommand(c: RfCommand) {
    && IsHouse(c.house) && FUNC_ON <= c.func <= FUNC_BRIGHT && 0 <= c.unit <= 16
    && (c.unit == 0 <==> c.func in {FUNC_DIM, FUNC_BRIGHT})
  }

  /** The power-line command that carries the same house, unit and function; a dim is by one step. */
  function Bridged(c: RfCommand): (p: PlCommand)
    requires IsRfCommand(c)
    ensures p.Proper()
  {
    if c.unit == 0 then HouseDim(c.house, c.func, 1) else UnitFunc(c.house, c.unit - 1, c.func)
  }

  predicate BridgeIsOn(cfg: Config, house: int) { !cfg.cm19a && house in cfg.rfToPl }

  /** The bridge writes a line that carries exactly the received command, and that line never reaches the RF decoder. */
  lemma BridgeCarriesTheCommand(cfg: Config, dup: bool, c: RfCommand)
    requires IsRfCommand(c)
    ensures if BridgeIsOn(cfg, c.house)
            then var p := Bridged(c); Means(Bridge(cfg, dup, c), EventsOf(p), MeaningsOf(p), LogOf(p))
            else Bridge(cfg, dup, c) == []
  {
    hide Means, GetDeviceAddr, GetFunc, Tokens, BridgeLine, AddrText;
    if BridgeIsOn(cfg, c.house) {
      BridgeLineTokens(c);
      AddrAndFuncParse(c.house, c.unit, c.func, []);
      assert Tokens(BridgeLine(c))[1..] == [AddrText(c.house, c.unit), FUNC_COMMANDS[c.func]] + [];
      assert ParsePl(Tokens(BridgeLine(c))[1..]) == Parsed(Bridged(c), true, []);
      PlLineRoundTrip(cfg, dup, false, BridgeLine(c));
    }
  }

  // ---- how many packets, and how long ----

  /** The tables are 16 by 16. */
  predicate InTables(ev: DeviceEvent) {
    && (!ev.Reset? ==> IsHouse(ev.house))
    && (ev.Address? || ev.Xdim? ==> IsHouse(ev.unit))
  }

  /** No house or unit index falls outside the tables. */
  predicate TablesSafe(acts: seq<Action>) { forall a | a in acts && a.Device? :: InTables(a.ev) }

  /** At most `n` packets are handed to x10_write, each fits its 8-byte limit, and table indices are in range. */
  predicate Sends(acts: seq<Action>, n: int) {
    |Wires(acts)| <= n && (forall p | p in Wires(acts) :: |p| <= 8) && TablesSafe(acts)
  }

  lemma SendsAppend(a: seq<Action>, b: seq<Action>, m: int, n: int)
    requires Sends(a, m) && Sends(b, n)
    ensures Sends(a + b, m + n)
  {
    WiresAppend(a, b);
  }

  lemma SendsMore(acts: seq<Action>, m: int, n: int)
    requires Sends(acts, m) && m <= n
    ensures Sends(acts, n)
  {
  }

  lemma SendsOne(a: Action)
    requires (a.Transmit? ==> |a.packet| <= 8) && (a.Device? ==> InTables(a.ev))
    ensures Sends([a], if a.Transmit? then 1 else 0) && Sends([], 0)
  {
  }

  lemma SendsTwo(a: Action, b: Action)
    requires !a.Transmit? && !a.Device? && (b.Transmit? ==> |b.packet| <= 8) && !b.Device?
    ensures Sends([a, b], if b.Transmit? then 1 else 0)
  {
    assert [a, b] == [a] + [b];
    WiresAppend([a], [b]);
  }

  lemma DecodePlcSendsNothing(buf: seq<byte>, len: int)
    requires 0 <= len <= |buf| && (len >= 4 && buf[2] == 0x02 ==> |buf| >= 5)
    ensures Sends(DecodePlc(buf, len), 0)
  {
    hide HouseOf, High, Low;
    forall i | 0 <= i < |buf|
      ensures IsHouse(HouseOf(High(buf[i]))) && IsHouse(HouseOf(Low(buf[i])))
    {
      HouseTablesOnto(High(buf[i]));
      HouseTablesOnto(Low(buf[i]));
    }
    NoTransmitSendsNothing(DecodePlc(buf, len));
  }

  lemma {:induction false} NoTransmitSendsNothing(acts: seq<Action>)
    requires (forall a | a in acts :: !a.Transmit?) && TablesSafe(acts)
    ensures Sends(acts, 0)
  {
    if acts != [] {
      assert forall a | a in acts[1..] :: a in acts;
      NoTransmitSendsNothing(acts[1..]);
    }
  }

  lemma SendAddressSends(house: int, unit: int)
    requires IsHouse(house) && IsHouse(unit)
    ensures Sends(SendAddress(house, unit), 1)
  {
    DecodePlcSendsNothing(AddressFrame(house, unit), 4);
    SendsOne(Transmit(AddressWire(house, unit)));
    SendsAppend(DecodePlc(AddressFrame(house, unit), 4), [Transmit(AddressWire(house, unit))], 0, 1);
  }

  lemma SendFuncSends(house: int, func: int, param: int)
    requires IsHouse(house) && 0 <= func < 16 && 0 <= param < 256
    ensures Sends(SendFunc(house, func, param), 1)
  {
    if func == FUNC_DIM || func == FUNC_BRIGHT {
      DecodePlcSendsNothing(DimFrame(house, func, param), 5);
      SendsOne(Transmit(DimWire(house, func, param)));
      SendsAppend(DecodePlc(DimFrame(house, func, param), 5), [Transmit(DimWire(house, func, param))], 0, 1);
    } else {
      DecodePlcSendsNothing(FuncFrame(house, func), 4);
      SendsOne(Transmit(FuncWire(house, func)));
      SendsAppend(DecodePlc(FuncFrame(house, func), 4), [Transmit(FuncWire(house, func))], 0, 1);
    }
  }

  lemma PerformPlSends(c: PlCommand)
    requires c.Proper()
    ensures Sends(PerformPl(c), 2)
  {
    match c
    case SelectUnit(house, unit) => SendAddressSends(house, unit);
    case HouseFunc(house, func) => SendFuncSends(house, func, 0);
    case UnitFunc(house, unit, func) =>
      SendAddressSends(house, unit);
      SendFuncSends(house, func, 0);
      SendsAppend(SendAddress(house, unit), SendFunc(house, func, 0), 1, 1);
    case HouseDim(house, func, level) => SendFuncSends(house, func, level);
    case UnitDim(house, unit, func, level) =>
      SendAddressSends(house, unit);
      SendFuncSends(house, func, level);
      SendsAppend(SendAddress(house, unit), SendFunc(house, func, level), 1, 1);
    case Extended(house, unit, command, subcommand, data) =>
      var frame := ExtendedFrame(house, unit, command, subcommand, data);
      var wire := ExtendedWire(house, unit, command, subcommand, data);
      DecodePlcSendsNothing(frame, 7);
      SendsOne(Transmit(wire));
      SendsAppend(DecodePlc(frame, 7), [Transmit(wire)], 0, 1);
  }

  lemma CheckEndSends(rest: seq<string>)
    ensures Sends(CheckEnd(rest), 0)
  {
    SendsOne(Reply);
  }

  lemma PlActionsSend(args: seq<string>)
    ensures Sends(PlActions(args), 2)
  {
    match ParsePl(args)
    case NotACommand =>
    case Parsed(c, checked, rest) =>
      PerformPlSends(c);
      CheckEndSends(rest);
      SendsAppend(PerformPl(c), if checked then CheckEnd(rest) else [], 2, 0);
  }

  lemma PlLineSends(cfg: Config, dup: bool, line: string)
    requires IsPlLine(line)
    ensures Sends(ProcessLine(cfg, dup, false, line), 2)
  {
    hide Sends, PlActions, Tokens, Upper;
    var args := Tokens(line)[1..];
    PlActionsSend(args);
    assert ProcessLine(cfg, dup, false, line) == [] + PlActions(args);
    assert [] + PlActions(args) == PlActions(args);
  }

  lemma BridgeSends(cfg: Config, dup: bool, c: RfCommand)
    requires IsRfCommand(c)
    ensures Sends(Bridge(cfg, dup, c), 2)
  {
    hide Sends, ProcessLine, IsPlLine, BridgeLine, Tokens;
    SendsOne(Reply);
    SendsMore([], 0, 2);
    if BridgeIsOn(cfg, c.house) {
      BridgeLineTokens(c);
      PlLineSends(cfg, dup, BridgeLine(c));
    }
  }

  lemma RepeatRfSends(cfg: Config, buf: seq<byte>, len: int)
    requires 1 <= len <= |buf| && len <= 8
    ensures Sends(RepeatRf(cfg, buf, len), 1)
  {
    if cfg.rfToRf != 0 {
      SendsTwo(Reply, Transmit(RfWire(cfg.cm19a, [TX_MARKER] + buf[1..len])));
    }
  }

  lemma ReportAndRepeat(report: seq<Action>, cfg: Config, buf: seq<byte>, len: int)
    requires 1 <= len <= |buf| && len <= 8 && (forall a | a in report :: !a.Transmit?) && TablesSafe(report)
    ensures Sends(report + RepeatRf(cfg, buf, len), 1)
  {
    NoTransmitSendsNothing(report);
    RepeatRfSends(cfg, buf, len);
    SendsAppend(report, RepeatRf(cfg, buf, len), 0, 1);
  }

  /** A received frame hands at most three packets to x10_write: the repeat and the bridged pair. */
  lemma {:induction false} DecodeRfSends(cfg: Config, dup: bool, buf: seq<byte>, len: int)
    requires 0 <= len <= |buf| && (len >= 5 && (buf[1] == 0x20 || buf[1] == RX_MARKER) ==> |buf| >= 6)
    ensures Sends(DecodeRf(cfg, dup, buf, len), 3)
    decreases len
  {
    hide Sends, RepeatRf, DecodeStandard, DecodeCamera, DecodeSecAddress;
    SendsOne(Reply);
    SendsMore([Reply], 0, 3);
    SendsMore([], 0, 3);
    if len > 8 && buf[1] == RX_MARKER {
      DecodeRfSends(cfg, dup, buf[1..], len - 1);
    } else if 5 <= len <= 8 {
      var received := buf[0] == RX_MARKER;
      if buf[1] == 0x20 {
        DecodeStandardSends(cfg, dup, received, buf, len);
      } else if buf[1] == 0x14 && DecodeCamera(buf[1..len]).Key? {
        var k := DecodeCamera(buf[1..len]);
        var report := [Dispatch(received, Camera(k.house, k.key))];
        ReportAndRepeat(report, cfg, buf, len);
        SendsMore(report + RepeatRf(cfg, buf, len), 1, 3);
      } else if buf[1] == 0x29 && DecodeSecAddress(buf, len).SecOk? {
        var s := DecodeSecAddress(buf, len);
        var report := [Sensor(s.a0, s.a1, s.a2, s.key, false), Dispatch(received, SecLong(s.a0, s.a1, s.a2, s.key))];
        ReportAndRepeat(report, cfg, buf, len);
        SendsMore(report + RepeatRf(cfg, buf, len), 1, 3);
      }
    }
  }

  lemma DecodeStandardSends(cfg: Config, dup: bool, received: bool, buf: seq<byte>, len: int)
    requires 5 <= len <= 8 && len <= |buf| && |buf| >= 6
    ensures Sends(DecodeStandard(cfg, dup, received, buf, len), 3)
  {
    hide Sends, RepeatRf, Bridge, DecodeHouseUnitFunc;
    SendsOne(Reply);
    SendsMore([Reply], 0, 3);
    SendsMore([], 0, 3);
    var report := [Sensor(0, 0, buf[2], buf[4], true), Dispatch(received, SecShort(buf[2], buf[4]))];
    ReportAndRepeat(report, cfg, buf, len);
    SendsMore(report + RepeatRf(cfg, buf, len), 1, 3);
    RfCommandBounds(buf[2], buf[4]);
    StandardCommandSends(cfg, dup, received, buf, len, DecodeHouseUnitFunc(buf[2], buf[4]));
  }

  lemma StandardCommandSends(cfg: Config, dup: bool, received: bool, buf: seq<byte>, len: int, c: RfCommand)
    requires 5 <= len <= 8 && len <= |buf| && IsRfCommand(c)
    ensures Sends(RfReport(received, c) + RepeatRf(cfg, buf, len) + Bridge(cfg, dup, c), 3)
  {
    ReportAndRepeat(RfReport(received, c), cfg, buf, len);
    BridgeSends(cfg, dup, c);
    SendsAppend(RfReport(received, c) + RepeatRf(cfg, buf, len), Bridge(cfg, dup, c), 1, 2);
  }

  /** Any packet from the controller. */
  lemma PacketSendsAtMostThree(cfg: Config, dup: bool, buf: seq<byte>, len: int, scratch: seq<byte>, clock: seq<byte>)
    requires |buf| == 8 && 0 <= len <= 8 && |scratch| == 9 && |clock| == 8
    ensures Sends(DecodePacket(cfg, dup, buf, len, scratch, clock), 3)
  {
    if len >= 4 {
      if cfg.cm19a {
        DecodeRfSends(cfg, dup, Overlay(scratch, [RX_MARKER] + buf[..len]), len + 1);
      } else if buf[0] == 0xa5 {
        SendsOne(Transmit(clock));
      } else if buf[0] == 0x5a {
        DecodePlcSendsNothing(buf, len);
      } else if buf[0] == RX_MARKER {
        DecodeRfSends(cfg, dup, buf, len);
      }
    }
  }

  /** A command that builds a frame sends what decoding it sends, and the frame itself. */
  lemma BuiltSends(cfg: Config, dup: bool, b: Built)
    requires b.Built? ==> FrameFits(b.frame)
    requires b.Refused? ==> forall a | a in b.actions :: a == Reply
    ensures Sends(SendBuilt(cfg, dup, b), 4)
  {
    match b
    case Refused(actions) => NoTransmitSendsNothing(actions);
    case Built(frame, rest) =>
      DecodeRfSends(cfg, dup, frame, |frame|);
      var acts, wire := DecodeRf(cfg, dup, frame, |frame|), [Transmit(RfWire(cfg.cm19a, frame))];
      SendsOne(wire[0]);
      CheckEndSends(rest);
      SendsAppend(acts, wire, 3, 1);
      SendsAppend(acts + wire, CheckEnd(rest), 4, 0);
  }

  lemma OtherActionsSend(command: string, args: seq<string>)
    ensures Sends(OtherActions(command, args), 1)
  {
    var acts := OtherActions(command, args);
    if command == "PT" && GetHexData(args).Some? && GetHexData(args).value != [] {
      HexBytesFit(args);
      SendsOne(Transmit(GetHexData(args).value));
    } else {
      NoTransmitSendsNothing(acts);
    }
  }

  lemma {:induction false} HexBytesFit(tokens: seq<string>)
    ensures HexBytes(tokens).Some? ==> |HexBytes(tokens).value| == |tokens|
  {
    if tokens != [] { HexBytesFit(tokens[1..]); }
  }

  lemma CommandSends(cfg: Config, dup: bool, tokens: seq<string>)
    requires tokens != []
    ensures Sends(CommandActions(cfg, dup, tokens), 4)
  {
    hide Sends, SendBuilt, PlActions, BuildRf, BuildSec, BuildCam, OtherActions;
    var args := tokens[1..];
    PlActionsSend(args);
    SendsMore(PlActions(args), 2, 4);
    BuiltSends(cfg, dup, BuildRf(args));
    BuiltSends(cfg, dup, BuildSec(args));
    BuiltSends(cfg, dup, BuildCam(args));
    OtherActionsSend(tokens[0], args);
    SendsMore(OtherActions(tokens[0], args), 1, 4);
  }

  /** Any client line. */
  lemma LineSendsAtMostFour(cfg: Config, dup: bool, or20: bool, line: string)
    ensures Sends(ProcessLine(cfg, dup, or20, line), 4)
  {
    hide Sends, CommandActions, Tokens, Upper;
    var tokens := Tokens(line);
    SendsOne(Reply);
    SendsMore([Reply], 0, 4);
    SendsMore([], 0, 4);
    if tokens != [] {
      CommandSends(cfg, dup, tokens);
      SendsAppend(if or20 && tokens[0] in OK_COMMANDS then [Reply] else [], CommandActions(cfg, dup, tokens), 0, 4);
    }
  }
}
