/** The RF, security and camera commands from text to frame to what is heard, and the tables under the bridge. */
module RfTheorems {
  import opened Bytes
  import opened Wrappers
  import opened Codec
  import opened CommandText
  import opened CommandPath
  import opened CommandTheorems
  import opened BridgeTheorems
  import opened Encoders
  import opened DeviceState

  // ---- lines ----

  function Ok(or20: bool): seq<Action> { if or20 then [Reply] else [] }

  /** The order in which a command that built a frame acts: what decoding it does, the frame, the closing check. */
  function Performed(cfg: Config, or20: bool, heard: seq<Action>, frame: seq<byte>, rest: seq<string>): seq<Action>
    requires frame != []
  {
    Ok(or20) + (heard + [Transmit(RfWire(cfg.cm19a, frame))] + CheckEnd(rest))
  }

  // ---- RF ----

  /** A dim or bright carries no unit. */
  function Meant(house: int, unit: int, func: int): RfCommand {
    RfCommand(house, if func == FUNC_DIM || func == FUNC_BRIGHT then 0 else unit + 1, func)
  }

  lemma RfFrameRoundTrip(house: int, unit: int, func: int)
    requires IsHouse(house) && -1 <= unit < 16 && RfFrame(house, unit, func).Some?
    ensures IsRfCommand(Meant(house, unit, func))
    ensures var f := RfFrame(house, unit, func).value;
            IsCheckedRf(f) && DecodeHouseUnitFunc(f[2], f[4]) == Meant(house, unit, func)
  {
    RfFrameExists(house, unit, func);
    hide RfFrame, IsCheckedRf, DecodeHouseUnitFunc;
    if func == FUNC_DIM || func == FUNC_BRIGHT {
      RfDimRoundTrip(house, unit, func == FUNC_BRIGHT);
    } else {
      RfOnOffRoundTrip(house, unit, func == FUNC_OFF);
    }
  }

  function Heard(cfg: Config, dup: bool, frame: seq<byte>, c: RfCommand): seq<Action>
    requires |frame| == 6 && IsRfCommand(c)
  {
    if dup then [] else RfReport(false, c) + RepeatRf(cfg, frame, 6) + Bridge(cfg, dup, c)
  }

  lemma CheckedFrameIsHeard(cfg: Config, dup: bool, f: seq<byte>)
    requires IsCheckedRf(f) && IsRfCommand(DecodeHouseUnitFunc(f[2], f[4]))
    ensures DecodeRf(cfg, dup, f, 6) == Heard(cfg, dup, f, DecodeHouseUnitFunc(f[2], f[4]))
  {
    hide DecodeHouseUnitFunc, Bridge, RepeatRf, RfReport;
    RfCommandBounds(f[2], f[4]);
  }

  /**
   An RF line sends the frame it names, and the daemon hears its own frame as exactly that house, unit
   and function, the unit being dropped from a dim or bright.
   */
  lemma RfLineRoundTrip(cfg: Config, dup: bool, or20: bool, line: string, house: int, unit: int, func: int)
    requires IsLine(line, "RF") && IsHouse(house) && -1 <= unit < 16 && func >= 0
    requires var args := Tokens(line)[1..];
             GetDeviceAddr(args) == Some(DeviceAddr(house, unit)) && GetFunc(Rest(args)) == func
    ensures var rest := Rest(Rest(Tokens(line)[1..]));
            match RfFrame(house, unit, func)
            case None => ProcessLine(cfg, dup, or20, line) == Ok(or20) + CheckEnd(rest)
            case Some(f) =>
              && IsRfCommand(Meant(house, unit, func))
              && ProcessLine(cfg, dup, or20, line)
                 == Performed(cfg, or20, Heard(cfg, dup, f, Meant(house, unit, func)), f, rest)
  {
    hide RfFrame, GetDeviceAddr, GetFunc, Tokens, Upper, IsCheckedRf, DecodeHouseUnitFunc, DecodeRf, Heard;
    assert ProcessLine(cfg, dup, or20, line) == Ok(or20) + CommandActions(cfg, dup, Tokens(line));
    assert CommandActions(cfg, dup, Tokens(line)) == SendBuilt(cfg, dup, BuildRf(Tokens(line)[1..]));
    if RfFrame(house, unit, func).Some? {
      RfFrameRoundTrip(house, unit, func);
      CheckedFrameIsHeard(cfg, dup, RfFrame(house, unit, func).value);
    }
  }

  /** What the clients read of an RF line: the command, and the same command on the power line where it is bridged. */
  lemma RfLineAnnounces(cfg: Config, or20: bool, line: string, house: int, unit: int, func: int)
    requires IsLine(line, "RF") && IsHouse(house) && -1 <= unit < 16 && func >= 0
    requires var args := Tokens(line)[1..];
             GetDeviceAddr(args) == Some(DeviceAddr(house, unit)) && GetFunc(Rest(args)) == func
    requires RfFrame(house, unit, func).Some?
    ensures var c := Meant(house, unit, func);
            && IsRfCommand(c)
            && Events(ProcessLine(cfg, false, or20, line))
               == [RfEvent(c)] + if BridgeIsOn(cfg, house) then EventsOf(Bridged(c)) else []
  {
    hide RfFrame, GetDeviceAddr, GetFunc, ProcessLine, Tokens, Upper, Performed, Heard, Events, EventsOf, RfEvent;
    RfLineRoundTrip(cfg, false, or20, line, house, unit, func);
    var f, c := RfFrame(house, unit, func).value, Meant(house, unit, func);
    PerformedEvents(cfg, or20, Heard(cfg, false, f, c), f, Rest(Rest(Tokens(line)[1..])));
    HeardEvents(cfg, f, c);
  }

  lemma PerformedEvents(cfg: Config, or20: bool, heard: seq<Action>, frame: seq<byte>, rest: seq<string>)
    requires frame != []
    ensures Events(Performed(cfg, or20, heard, frame, rest)) == Events(heard)
  {
    hide Events, CheckEnd, RfWire;
    var wire := Transmit(RfWire(cfg.cm19a, frame));
    EventsAppend(Ok(or20), heard + [wire] + CheckEnd(rest));
    EventsAppend(heard + [wire], CheckEnd(rest));
    EventsAppend(heard, [wire]);
    RepliesAreSilent(rest);
    OnePart(wire);
  }

  lemma HeardEvents(cfg: Config, frame: seq<byte>, c: RfCommand)
    requires |frame| == 6 && IsRfCommand(c)
    ensures Events(Heard(cfg, false, frame, c))
         == [RfEvent(c)] + if BridgeIsOn(cfg, c.house) then EventsOf(Bridged(c)) else []
  {
    hide Events, EventsOf, RfEvent, Bridge, RepeatRf, RfReport, Bridged;
    var report, repeated, bridged := RfReport(false, c), RepeatRf(cfg, frame, 6), Bridge(cfg, false, c);
    EventsAppend(report + repeated, bridged);
    EventsAppend(report, repeated);
    ReportParts(false, c);
    RepeatHasNoEvents(cfg, frame, 6);
    BridgeCarriesTheCommand(cfg, false, c);
    if !BridgeIsOn(cfg, c.house) { RepliesAreSilent([]); }
  }

  function RfEvent(c: RfCommand): Event
    requires IsRfCommand(c)
  {
    if c.unit == 0 then RfHouse(c.house, c.func) else RfUnit(c.house, c.unit, c.func)
  }

  /** What a received command does to the tables; a dim or bright does nothing. */
  function RfLog(c: RfCommand): History
    requires IsRfCommand(c)
  {
    if c.unit == 0 then [] else [Address(c.house, c.unit - 1), Func(c.house, c.func == FUNC_ON)]
  }

  lemma ReportParts(received: bool, c: RfCommand)
    requires IsRfCommand(c)
    ensures var acts := RfReport(received, c);
            Events(acts) == [RfEvent(c)] && Wires(acts) == [] && TableLog(acts) == RfLog(c) && Changes(acts) == []
  {
    if c.unit == 0 {
      OnePart(Dispatch(received, RfHouse(c.house, c.func)));
    } else {
      ThreeParts(Device(Address(c.house, c.unit - 1)), Device(Func(c.house, c.func == FUNC_ON)),
                 Dispatch(received, RfUnit(c.house, c.unit, c.func)));
    }
  }

  lemma RepeatHasNoEvents(cfg: Config, buf: seq<byte>, len: int)
    requires 1 <= len <= |buf|
    ensures var acts := RepeatRf(cfg, buf, len); Events(acts) == [] && TableLog(acts) == [] && Changes(acts) == []
  {
    if cfg.rfToRf != 0 {
      var wire := Transmit(RfWire(cfg.cm19a, [TX_MARKER] + buf[1..len]));
      PartsAppend([Reply], [wire]);
      OnePart(Reply);
      OnePart(wire);
    }
  }

  // ---- RFSEC ----

  /** An address is eight bits after 0X and twenty-four bits as six digits. */
  lemma RfAddrFits(tokens: seq<string>)
    ensures match GetRfAddr(tokens)
            case None => true
            case Some(a) => a.address < if a.addr8 then 0x100 else 0x100_0000
  {
    if tokens != [] && !HasHexPrefix(tokens[0]) && ParseHexUlong(tokens[0], 6).Some? {
      HexValueBound(tokens[0]);
      assert Pow16(6) == 0x100_0000;
    }
  }

  /** The long form is heard exactly when its last two address bytes XOR to even parity. */
  predicate SecIsHeard(addr8: bool, b: AddrBytes) { addr8 || !OddParity(b.middle ^ b.low) }

  function SecHeard(cfg: Config, dup: bool, addr8: bool, b: AddrBytes, func: byte, frame: seq<byte>): seq<Action>
    requires |frame| >= 1
  {
    if !SecIsHeard(addr8, b) then [Reply]
    else if dup then []
    else
      (if addr8 then [Sensor(0, 0, b.low, func, true), Dispatch(false, SecShort(b.low, func))]
       else [Sensor(b.high, b.middle, b.low, func, false), Dispatch(false, SecLong(b.high, b.middle, b.low, func))])
      + RepeatRf(cfg, frame, |frame|)
  }

  /** A 24-bit address is put back together from its bytes, and an 8-bit one is its last byte. */
  lemma AddrBytesRoundTrip(a: RfAddr)
    requires a.address < if a.addr8 then 0x100 else 0x100_0000
    ensures var b := SplitAddr(a.address); b.Value() == a.address && (a.addr8 ==> b.low as int == a.address)
  {
    hide LowByte;
    BaseDigits(a.address);
  }

  lemma BaseDigits(x: nat)
    requires x < 0x100_0000
    ensures x == x / 0x1_0000 % 0x100 * 0x1_0000 + x / 0x100 % 0x100 * 0x100 + x % 0x100
  {
  }

  lemma ShortSecIsHeard(cfg: Config, dup: bool, low: byte, func: byte)
    ensures var f := ShortSecFrame(low, func);
            DecodeRf(cfg, dup, f, 6) == SecHeard(cfg, dup, true, AddrBytes(0, 0, low), func, f)
  {
    hide RepeatRf, Bridge, DecodeHouseUnitFunc, RfReport, OddParity;
    ShortSecRoundTrip(low, func);
    var f := ShortSecFrame(low, func);
    assert DecodeRf(cfg, dup, f, 6) == DecodeStandard(cfg, dup, false, f, 6);
  }

  lemma LongSecHeader(a0: byte, a1: byte, a2: byte, func: byte)
    ensures var f := LongSecFrame(a0, a1, a2, func); |f| == 8 && f[0] == TX_MARKER && f[1] == 0x29
  {
  }

  lemma LongFrameIsDecoded(cfg: Config, dup: bool, f: seq<byte>)
    requires |f| == 8 && f[0] == TX_MARKER && f[1] == 0x29
    ensures DecodeRf(cfg, dup, f, 8)
         == match DecodeSecAddress(f, 8)
            case SecOk(a0, a1, a2, key) =>
              if dup then []
              else [Sensor(a0, a1, a2, key, false), Dispatch(false, SecLong(a0, a1, a2, key))] + RepeatRf(cfg, f, 8)
            case _ => [Reply]
  {
    hide RepeatRf, DecodeSecAddress, DecodeStandard, DecodeCamera;
  }

  lemma LongSecIsHeard(cfg: Config, dup: bool, b: AddrBytes, func: byte)
    ensures var f := LongSecFrame(b.high, b.middle, b.low, func);
            DecodeRf(cfg, dup, f, 8) == SecHeard(cfg, dup, false, b, func, f)
  {
    hide RepeatRf, OddParity, DecodeSecAddress, DecodeRf, LongSecFrame;
    LongSecHeader(b.high, b.middle, b.low, func);
    LongSecRoundTrip(b.high, b.middle, b.low, func);
    LongFrameIsDecoded(cfg, dup, LongSecFrame(b.high, b.middle, b.low, func));
  }

  lemma SecFrameIsHeard(cfg: Config, dup: bool, a: RfAddr, func: byte)
    ensures var f := SecFrameOf(a, func);
            DecodeRf(cfg, dup, f, |f|) == SecHeard(cfg, dup, a.addr8, SplitAddr(a.address), func, f)
  {
    hide DecodeRf, ShortSecFrame, LongSecFrame, LowByte;
    var b := SplitAddr(a.address);
    if a.addr8 {
      ShortSecIsHeard(cfg, dup, b.low, func);
    } else {
      LongSecIsHeard(cfg, dup, b, func);
    }
  }

  /**
   An RFSEC line sends the frame of its address and function whatever they are, and the daemon hears the
   same address and function back, except a long address of odd parity, which it reports as invalid.
   */
  lemma SecLineRoundTrip(cfg: Config, dup: bool, or20: bool, line: string, a: RfAddr, func: byte)
    requires IsLine(line, "RFSEC")
    requires var args := Tokens(line)[1..]; GetRfAddr(args) == Some(a) && GetRfFunc(Rest(args), a.addr8) == Some(func)
    ensures var b, f, rest := SplitAddr(a.address), SecFrameOf(a, func), Rest(Rest(Tokens(line)[1..]));
            && b.Value() == a.address && (a.addr8 ==> b.low as int == a.address)
            && ProcessLine(cfg, dup, or20, line)
               == Performed(cfg, or20, SecHeard(cfg, dup, a.addr8, b, func, f), f, rest)
  {
    hide GetRfAddr, GetRfFunc, Tokens, Upper, DecodeRf, SecHeard, SecFrameOf, SplitAddr;
    RfAddrFits(Tokens(line)[1..]);
    AddrBytesRoundTrip(a);
    SecFrameIsHeard(cfg, dup, a, func);
    assert ProcessLine(cfg, dup, or20, line) == Ok(or20) + CommandActions(cfg, dup, Tokens(line));
    assert CommandActions(cfg, dup, Tokens(line)) == SendBuilt(cfg, dup, BuildSec(Tokens(line)[1..]));
  }

  // ---- RFCAM ----

  function CamHeard(cfg: Config, dup: bool, house: int, key: byte, frame: seq<byte>): seq<Action>
    requires |frame| == 5
  {
    if dup then [] else [Dispatch(false, Camera(house, key))] + RepeatRf(cfg, frame, 5)
  }

  lemma CameraFrameIsHeard(cfg: Config, dup: bool, house: int, key: byte)
    requires IsHouse(house) && IsCamKey(key)
    ensures var f := CameraFrame(house, key); DecodeRf(cfg, dup, f, 5) == CamHeard(cfg, dup, house, key, f)
  {
    hide DecodeCamera, RepeatRf, Bridge;
    CameraRoundTrip(house, key);
    assert CameraFrame(house, key)[1..5] == CameraFrame(house, key)[1..];
  }

  /** An RFCAM line with a named key is heard as that house and a key of that name. */
  lemma CamLineRoundTrip(cfg: Config, dup: bool, or20: bool, line: string, house: int, unit: int, key: byte)
    requires IsLine(line, "RFCAM") && IsHouse(house)
    requires var args := Tokens(line)[1..];
             && GetDeviceAddr(args) == Some(DeviceAddr(house, unit))
             && Rest(args) != [] && CamKey(Rest(args)[0]) == Some(key)
    ensures IsCamKey(key) && CamKeyName(key) == Rest(Tokens(line)[1..])[0]
    ensures var f, rest := CameraFrame(house, key), Rest(Rest(Tokens(line)[1..]));
            ProcessLine(cfg, dup, or20, line)
            == Performed(cfg, or20, CamHeard(cfg, dup, house, key, f), f, rest)
  {
    hide GetDeviceAddr, CamKey, Tokens, Upper, DecodeRf, CamHeard, IsCamKey, CamKeyName, IsWord;
    NamedKey(line, key);
    CameraFrameIsHeard(cfg, dup, house, key);
    assert ProcessLine(cfg, dup, or20, line) == Ok(or20) + CommandActions(cfg, dup, Tokens(line));
    assert CommandActions(cfg, dup, Tokens(line)) == SendBuilt(cfg, dup, BuildCam(Tokens(line)[1..]));
  }

  lemma NamedKey(line: string, key: byte)
    requires |Tokens(line)| > 2 && CamKey(Tokens(line)[2]) == Some(key)
    ensures |Tokens(line)[2]| > 0 && IsCamKey(key) && CamKeyName(key) == Tokens(line)[2]
  {
    hide CamKey, IsCamKey, CamKeyName;
    WordsAreWords(Upper(line));
    assert IsWord(Tokens(line)[2]);
    CamKeyIsNamed(Tokens(line)[2]);
  }

  // ---- the tables under the bridge ----

  function Unbridged(cfg: Config): Config { cfg.(rfToPl := {}) }

  /** The house, unit and function command of a frame that the decoder acts on, if it is one. */
  function HeardCommand(dup: bool, buf: seq<byte>, len: int): Option<RfCommand>
    requires 0 <= len <= |buf| && (len >= 5 && (buf[1] == 0x20 || buf[1] == RX_MARKER) ==> |buf| >= 6)
    decreases len
  {
    if len > 8 && buf[1] == RX_MARKER then HeardCommand(dup, buf[1..], len - 1)
    else if len < 5 || len > 8 || buf[1] != 0x20 then None
    else StandardCommand(dup, buf[2], buf[2] ^ buf[3], buf[4], buf[4] ^ buf[5])
  }

  function StandardCommand(dup: bool, first: byte, firstCheck: byte, second: byte, secondCheck: byte)
    : Option<RfCommand>
  {
    if !dup && firstCheck == 0xff && (secondCheck == 0xff || secondCheck == 0xfb)
    then Some(DecodeHouseUnitFunc(first, second))
    else None
  }

  function RfPair(house: int, unit: int, on: bool): History { [Address(house, unit), Func(house, on)] }

  lemma BridgedLog(c: RfCommand)
    requires IsRfCommand(c)
    ensures LogOf(Bridged(c)) == RfLog(c)
  {
  }

  lemma BridgedCommandIsRecordedTwice(cfg: Config, dup: bool, received: bool, buf: seq<byte>, len: int, c: RfCommand)
    requires 1 <= len <= |buf| && IsRfCommand(c)
    ensures TableLog(RfReport(received, c) + RepeatRf(cfg, buf, len) + Bridge(cfg, dup, c))
         == RfLog(c) + if BridgeIsOn(cfg, c.house) then RfLog(c) else []
  {
    hide RfReport, RepeatRf, Bridge, TableLog, LogOf, EventsOf, MeaningsOf, Bridged, RfLog;
    BridgedLog(c);
    LogAppend(RfReport(received, c) + RepeatRf(cfg, buf, len), Bridge(cfg, dup, c));
    LogAppend(RfReport(received, c), RepeatRf(cfg, buf, len));
    ReportParts(received, c);
    RepeatHasNoEvents(cfg, buf, len);
    BridgeCarriesTheCommand(cfg, dup, c);
    if !BridgeIsOn(cfg, c.house) { RepliesAreSilent([]); }
  }

  /** What decoding a frame records: its command, and the bridged command once more. */
  function HeardLog(cfg: Config, heard: Option<RfCommand>): History
    requires heard.Some? ==> IsRfCommand(heard.value)
  {
    match heard
    case None => []
    case Some(c) => RfLog(c) + if BridgeIsOn(cfg, c.house) then RfLog(c) else []
  }

  lemma ReportedOnlyIsNotRecorded(report: seq<Action>, cfg: Config, buf: seq<byte>, len: int)
    requires 1 <= len <= |buf| && forall a | a in report :: !a.Device?
    ensures TableLog(report + RepeatRf(cfg, buf, len)) == []
  {
    LogAppend(report, RepeatRf(cfg, buf, len));
    RepeatHasNoEvents(cfg, buf, len);
    NoDeviceNoLog(report);
  }

  lemma {:induction false} NoDeviceNoLog(acts: seq<Action>)
    requires forall a | a in acts :: !a.Device?
    ensures TableLog(acts) == []
  {
    if acts != [] {
      assert forall a | a in acts[1..] :: a in acts;
      NoDeviceNoLog(acts[1..]);
    }
  }

  lemma StandardIsRecorded(cfg: Config, dup: bool, received: bool, buf: seq<byte>, len: int)
    requires 5 <= len <= 8 && len <= |buf| && |buf| >= 6
    ensures var heard := StandardCommand(dup, buf[2], buf[2] ^ buf[3], buf[4], buf[4] ^ buf[5]);
            && (heard.Some? ==> IsRfCommand(heard.value))
            && TableLog(DecodeStandard(cfg, dup, received, buf, len)) == HeardLog(cfg, heard)
  {
    hide RfReport, Bridge, TableLog, DecodeHouseUnitFunc, RepeatRf, RfLog;
    var c := DecodeHouseUnitFunc(buf[2], buf[4]);
    RfCommandBounds(buf[2], buf[4]);
    BridgedCommandIsRecordedTwice(cfg, dup, received, buf, len, c);
    var report := [Sensor(0, 0, buf[2], buf[4], true), Dispatch(received, SecShort(buf[2], buf[4]))];
    ReportedOnlyIsNotRecorded(report, cfg, buf, len);
    NoDeviceNoLog([Reply]);
    NoDeviceNoLog([]);
  }

  lemma {:induction false} HeardIsRecorded(cfg: Config, dup: bool, buf: seq<byte>, len: int)
    requires 0 <= len <= |buf| && (len >= 5 && (buf[1] == 0x20 || buf[1] == RX_MARKER) ==> |buf| >= 6)
    ensures var heard := HeardCommand(dup, buf, len);
            (heard.Some? ==> IsRfCommand(heard.value)) && TableLog(DecodeRf(cfg, dup, buf, len)) == HeardLog(cfg, heard)
    decreases len
  {
    hide HeardLog, TableLog, DecodeStandard, StandardCommand, DecodeCamera, DecodeSecAddress, RepeatRf;
    NothingHeard(cfg);
    NoDeviceNoLog([Reply]);
    NoDeviceNoLog([]);
    if len > 8 && buf[1] == RX_MARKER {
      HeardIsRecorded(cfg, dup, buf[1..], len - 1);
    } else if 5 <= len <= 8 {
      var r := buf[0] == RX_MARKER;
      if buf[1] == 0x20 {
        StandardIsRecorded(cfg, dup, r, buf, len);
      } else if buf[1] == 0x14 && DecodeCamera(buf[1..len]).Key? {
        var key := DecodeCamera(buf[1..len]);
        ReportedOnlyIsNotRecorded([Dispatch(r, Camera(key.house, key.key))], cfg, buf, len);
      } else if buf[1] == 0x29 && DecodeSecAddress(buf, len).SecOk? {
        var s := DecodeSecAddress(buf, len);
        var sensor, ev := Sensor(s.a0, s.a1, s.a2, s.key, false), SecLong(s.a0, s.a1, s.a2, s.key);
        ReportedOnlyIsNotRecorded([sensor, Dispatch(r, ev)], cfg, buf, len);
      }
    }
  }

  lemma NothingHeard(cfg: Config)
    ensures HeardLog(cfg, None) == []
  {
  }

  lemma AfterOneMore(log: History, ev: DeviceEvent)
    ensures Before(log + [ev]) == log && Last(log + [ev]) == ev
  {
  }

  /** What an address followed by an on or off leaves behind. */
  lemma AfterPair(log: History, house: int, unit: int, on: bool, h: int, u: int)
    ensures var after := log + RfPair(house, unit, on);
            && GroupClosed(after, h) == (h == house || GroupClosed(log, h))
            && Selected(after, h) == (if h != house then Selected(log, h)
                                      else if GroupClosed(log, h) then {unit} else Selected(log, h) + {unit})
            && Status(after, h, u) == (if h == house && u in Selected(after, h)
                                       then StatusFrom(Func(house, on)) else Status(log, h, u))
            && Dim(after, h, u) == (if h == house && u in Selected(after, h)
                                    then DimFrom(Func(house, on)) else Dim(log, h, u))
  {
    var addressed := log + [Address(house, unit)];
    AfterOneMore(log, Address(house, unit));
    AfterOneMore(addressed, Func(house, on));
    assert log + RfPair(house, unit, on) == addressed + [Func(house, on)];
  }

  /** Recording an on or off twice changes no state, and the selection exactly when it held other units. */
  lemma TwiceKeepsTheState(log: History, house: int, unit: int, on: bool, h: int, u: int)
    ensures var once, twice := log + RfPair(house, unit, on), log + (RfPair(house, unit, on) + RfPair(house, unit, on));
            && Status(twice, h, u) == Status(once, h, u) && Dim(twice, h, u) == Dim(once, h, u)
            && (Selected(twice, h) == Selected(once, h)
                <==> h != house || GroupClosed(log, h) || Selected(log, h) <= {unit})
  {
    hide Status, Dim, Selected, GroupClosed;
    var pair := RfPair(house, unit, on);
    AfterPair(log, house, unit, on, h, u);
    AfterPair(log + pair, house, unit, on, h, u);
    assert log + (pair + pair) == (log + pair) + pair;
  }

  lemma HeardLogs(cfg: Config, c: RfCommand)
    requires IsRfCommand(c)
    ensures c.unit == 0 ==> HeardLog(cfg, Some(c)) == []
    ensures c.unit > 0 ==>
              var pair := RfPair(c.house, c.unit - 1, c.func == FUNC_ON);
              HeardLog(cfg, Some(c)) == if BridgeIsOn(cfg, c.house) then pair + pair else pair
  {
  }

  /**
   Whatever the frame, every unit's state and brightness are the same with the bridge on or off.  The
   selection of a house is the same exactly when the frame is no bridged on or off for it, or no other unit
   was selected in an open group.
   */
  lemma BridgeKeepsTables(log: History, cfg: Config, dup: bool, buf: seq<byte>, len: int, h: int, u: int)
    requires 0 <= len <= |buf| && (len >= 5 && (buf[1] == 0x20 || buf[1] == RX_MARKER) ==> |buf| >= 6)
    ensures var bridged := log + TableLog(DecodeRf(cfg, dup, buf, len));
            var alone := log + TableLog(DecodeRf(Unbridged(cfg), dup, buf, len));
            && Status(bridged, h, u) == Status(alone, h, u) && Dim(bridged, h, u) == Dim(alone, h, u)
            && (Selected(bridged, h) == Selected(alone, h)
                <==> match HeardCommand(dup, buf, len)
                     case None => true
                     case Some(c) =>
                       || !BridgeIsOn(cfg, c.house) || c.unit == 0 || c.house != h
                       || GroupClosed(log, h) || Selected(log, h) <= {c.unit - 1})
  {
    hide Status, Dim, Selected, GroupClosed, DecodeRf, TableLog, RfPair, HeardLog, HeardCommand;
    HeardIsRecorded(cfg, dup, buf, len);
    HeardIsRecorded(Unbridged(cfg), dup, buf, len);
    var heard := HeardCommand(dup, buf, len);
    if heard.None? {
      NothingHeard(cfg);
      NothingHeard(Unbridged(cfg));
    } else {
      var c := heard.value;
      HeardLogs(cfg, c);
      HeardLogs(Unbridged(cfg), c);
      TwiceKeepsTheState(log, c.house, c.unit - 1, c.func == FUNC_ON, h, u);
    }
  }

  /** The frame of RF A1 ON. */
  const A1_ON: seq<byte> := [0x5d, 0x20, 0x60, 0x9f, 0x00, 0xff]

  /** A selection that differs can show later: A5 selected, RF A1 on, and then a bare off for the house. */
  lemma LaterCommandsMayDiffer()
    ensures var log: History, cfg, off := [Address(0, 4)], Config(false, {0}, 0), [Func(0, false)];
            var bridged := log + TableLog(DecodeRf(cfg, false, A1_ON, 6));
            var alone := log + TableLog(DecodeRf(Unbridged(cfg), false, A1_ON, 6));
            && Selected(bridged, 0) == {0} && Selected(alone, 0) == {0, 4}
            && Status(bridged + off, 0, 4) == ON && Status(alone + off, 0, 4) == OFF
  {
    hide DecodeRf, TableLog, HeardCommand, HeardLog;
    var log: History, cfg, pair, off := [Address(0, 4)], Config(false, {0}, 0), RfPair(0, 0, true), Func(0, false);
    A1OnIsRecorded(cfg);
    A1OnIsRecorded(Unbridged(cfg));
    AfterPair(log, 0, 0, true, 0, 4);
    AfterPair(log + pair, 0, 0, true, 0, 4);
    assert log + (pair + pair) == log + pair + pair;
    AfterOneMore(log + pair, off);
    AfterOneMore(log + (pair + pair), off);
    assert Before(log) == [] && !GroupClosed(log, 0) && Selected(log, 0) == {4};
  }

  lemma A1OnIsRecorded(cfg: Config)
    ensures var pair := RfPair(0, 0, true);
            TableLog(DecodeRf(cfg, false, A1_ON, 6)) == if BridgeIsOn(cfg, 0) then pair + pair else pair
  {
    hide DecodeRf, TableLog, HeardCommand, HeardLog;
    HeardIsRecorded(cfg, false, A1_ON, 6);
    A1OnIsHeard();
    HeardLogs(cfg, RfCommand(0, 1, FUNC_ON));
  }

  lemma A1OnIsHeard()
    ensures HeardCommand(false, A1_ON, 6) == Some(RfCommand(0, 1, FUNC_ON))
  {
  }
}
