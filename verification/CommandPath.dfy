/**
 From a command line or a received packet to everything the daemon does about it.  The two
 interpreters call each other: a client's RF command is decoded as if received, and a received RF
 command may be bridged by writing a power-line command and interpreting that.
 */
module CommandPath {
  import opened Bytes
  import opened Wrappers
  import opened Codec
  import opened CommandText
  import opened Encoders

  /** Cm19a, RfToPl16 (the houses whose bit is set) and RfToRf16. */
  datatype Config = Config(cm19a: bool, rfToPl: set<int>, rfToRf: int)

  // ---- tokens ----

  const FUNC_COMMANDS: seq<string> :=
    ["ALL_UNITS_OFF", "ALL_LIGHTS_ON", "ON", "OFF", "DIM", "BRIGHT", "ALL_LIGHTS_OFF", "EXTENDED_CODE_1",
     "HAIL_REQUEST", "HAIL_ACK", "EXTENDED_CODE_3", "UNUSED", "EXTENDED_CODE_2", "STATUS_ON", "STATUS_OFF",
     "STATUS_REQUEST", "XDIM"]

  /** The first index of a name in a table, or -1. */
  function IndexOf(names: seq<string>, name: string): (i: int)
    ensures -1 <= i < |names|
    ensures i >= 0 ==> names[i] == name && forall j | 0 <= j < i :: names[j] != name
    ensures i < 0 ==> forall j | 0 <= j < |names| :: names[j] != name
  {
    if names == [] then -1
    else if names[0] == name then 0
    else
      var i := IndexOf(names[1..], name);
      if i < 0 then -1 else i + 1
  }

  function Rest(tokens: seq<string>): seq<string> { if tokens == [] then [] else tokens[1..] }

  function GetFunc(tokens: seq<string>): (f: int)
    ensures -1 <= f <= FUNC_EXTENDED_DIM
  {
    if tokens == [] then -1 else IndexOf(FUNC_COMMANDS, tokens[0])
  }

  /** A missing or malformed parameter takes the default. */
  function GetParam(tokens: seq<string>, default: int): (p: int)
    requires 0 <= default < 256
    ensures 0 <= p < 256
  {
    if tokens == [] then default
    else match ParseDecimalInt(tokens[0], 0, 255)
      case None => default
      case Some(value) => value
  }

  /** The house, and the unit or -1. */
  datatype DeviceAddr = DeviceAddr(house: int, unit: int)

  function GetDeviceAddr(tokens: seq<string>): (a: Option<DeviceAddr>)
    ensures a.Some? ==> IsHouse(a.value.house) && -1 <= a.value.unit < 16
  {
    if tokens == [] || tokens[0] == [] || |tokens[0]| > 3 || !('A' <= tokens[0][0] <= 'P') then None
    else
      var house := tokens[0][0] as int - 'A' as int;
      if |tokens[0]| == 1 then Some(DeviceAddr(house, -1))
      else match ParseDecimalInt(tokens[0][1..], 1, 16)
        case None => None
        case Some(unit) => Some(DeviceAddr(house, unit - 1))
  }

  /** An 8-bit address after 0X, or exactly six hexadecimal digits. */
  datatype RfAddr = RfAddr(addr8: bool, address: nat)

  function GetRfAddr(tokens: seq<string>): Option<RfAddr> {
    if tokens == [] then None
    else if HasHexPrefix(tokens[0]) then
      match ParseHexUlong(tokens[0], -1)
      case None => None
      case Some(value) => if value > 0xff then None else Some(RfAddr(true, value))
    else
      match ParseHexUlong(tokens[0], 6)
      case None => None
      case Some(value) => Some(RfAddr(false, value))
  }

  const SEC_SHORT_NAMES: seq<string> :=
    ["ARM", "ARM_HOME_MIN", "ARM_AWAY_MIN", "ARM_HOME_MAX", "ARM_AWAY_MAX",
     "DISARM", "PANIC", "LIGHTS_ON", "LIGHTS_OFF"]
  const SEC_SHORT_CODES: seq<byte> := [0x06, 0x0E, 0x06, 0x0A, 0x02, 0x82, 0x22, 0x42, 0xC2]

  const SEC_LONG_NAMES: seq<string> :=
    ["MOTION_ALERT", "MOTION_NORMAL", "MOTION_ALERT_LOW", "MOTION_NORMAL_LOW", "CONTACT_ALERT_MIN",
     "CONTACT_NORMAL_MIN", "CONTACT_ALERT_MAX", "CONTACT_NORMAL_MAX", "CONTACT_ALERT_MIN_LOW",
     "CONTACT_NORMAL_MIN_LOW", "CONTACT_ALERT_MAX_LOW", "CONTACT_NORMAL_MAX_LOW", "ARM", "DISARM",
     "LIGHTS_ON", "LIGHTS_OFF", "PANIC"]
  const SEC_LONG_CODES: seq<byte> :=
    [0x0C, 0x8C, 0x0D, 0x8D, 0x04, 0x84, 0x00, 0x80, 0x01, 0x81, 0x05, 0x85, 0x06, 0x86, 0x46, 0xC6, 0x26]

  function GetRfFunc(tokens: seq<string>, addr8: bool): Option<byte> {
    if tokens == [] then None
    else
      var i := IndexOf(if addr8 then SEC_SHORT_NAMES else SEC_LONG_NAMES, tokens[0]);
      if i < 0 then None else Some(if addr8 then SEC_SHORT_CODES[i] else SEC_LONG_CODES[i])
  }

  /** Up to eight byte values; a ninth token or a malformed one fails. */
  function GetHexData(tokens: seq<string>): Option<seq<byte>>
  {
    if |tokens| > 8 then None else HexBytes(tokens)
  }

  function HexBytes(tokens: seq<string>): Option<seq<byte>> {
    if tokens == [] then Some([])
    else match ParseHexUlong(tokens[0], -1)
      case None => None
      case Some(value) =>
        if value > 0xff then None
        else match HexBytes(tokens[1..])
          case None => None
          case Some(more) => Some([value as byte] + more)
  }

  function HouseSet(text: string): set<int> {
    if text == "*" then set h: int | 0 <= h < 16 && IsHouse(h)
    else set c | c in text && 'A' <= c <= 'P' :: c as int - 'A' as int
  }

  // ---- power-line commands ----

  datatype PlCommand =
    | SelectUnit(house: int, unit: int)
    | HouseFunc(house: int, func: int)
    | UnitFunc(house: int, unit: int, func: int)
    | HouseDim(house: int, func: int, level: int)
    | UnitDim(house: int, unit: int, func: int, level: int)
    | Extended(house: int, unit: int, command: int, subcommand: int, data: int)
  {
    predicate Proper() {
      && IsHouse(house)
      && (HouseFunc? || HouseDim? || IsHouse(unit))
      && (HouseFunc? || UnitFunc? ==> 0 <= func < 16 && func !in {FUNC_DIM, FUNC_BRIGHT})
      && (HouseDim? || UnitDim? ==> func in {FUNC_DIM, FUNC_BRIGHT} && 0 <= level < 256)
      && (Extended? ==> 0 <= command < 256 && 0 <= subcommand < 256 && 0 <= data < 256)
    }
  }

  /** The command the tokens after PL spell, and the tokens it leaves unread. */
  datatype PlParse = NotACommand | Parsed(command: PlCommand, checked: bool, rest: seq<string>)

  function ParsePl(args: seq<string>): (p: PlParse)
    ensures p.Parsed? ==> p.command.Proper()
  {
    match GetDeviceAddr(args)
    case None => NotACommand
    case Some(DeviceAddr(house, unit)) =>
      var func, after := GetFunc(Rest(args)), Rest(Rest(args));
      if unit < 0 then
        if func < 0 || func == FUNC_EXTENDED_DIM then NotACommand
        else if func == FUNC_DIM || func == FUNC_BRIGHT then
          Parsed(HouseDim(house, func, GetParam(after, 1)), true, Rest(after))
        else Parsed(HouseFunc(house, func), true, after)
      else if func < 0 then Parsed(SelectUnit(house, unit), false, [])
      else if func == FUNC_EXTENDED_DIM then
        Parsed(Extended(house, unit, 3, 1, GetParam(after, 1)), true, Rest(after))
      else if func == FUNC_DIM || func == FUNC_BRIGHT then
        Parsed(UnitDim(house, unit, func, GetParam(after, 1)), true, Rest(after))
      else if func == FUNC_EXTENDED_CODE_1 then
        Parsed(Extended(house, unit, GetParam(after, 0), GetParam(Rest(after), 0), GetParam(Rest(Rest(after)), 0)),
               true, Rest(Rest(Rest(after))))
      else Parsed(UnitFunc(house, unit, func), true, after)
  }

  function SendAddress(house: int, unit: int): seq<Action>
    requires IsHouse(house) && IsHouse(unit)
  {
    DecodePlc(AddressFrame(house, unit), 4) + [Transmit(AddressWire(house, unit))]
  }

  function SendFunc(house: int, func: int, param: int): seq<Action>
    requires IsHouse(house) && 0 <= func < 16 && 0 <= param < 256
  {
    if func == FUNC_DIM || func == FUNC_BRIGHT
    then DecodePlc(DimFrame(house, func, param), 5) + [Transmit(DimWire(house, func, param))]
    else DecodePlc(FuncFrame(house, func), 4) + [Transmit(FuncWire(house, func))]
  }

  function PerformPl(c: PlCommand): seq<Action>
    requires c.Proper()
  {
    match c
    case SelectUnit(house, unit) => SendAddress(house, unit)
    case HouseFunc(house, func) => SendFunc(house, func, 0)
    case UnitFunc(house, unit, func) => SendAddress(house, unit) + SendFunc(house, func, 0)
    case HouseDim(house, func, level) => SendFunc(house, func, level)
    case UnitDim(house, unit, func, level) => SendAddress(house, unit) + SendFunc(house, func, level)
    case Extended(house, unit, command, subcommand, data) =>
      DecodePlc(ExtendedFrame(house, unit, command, subcommand, data), 7)
      + [Transmit(ExtendedWire(house, unit, command, subcommand, data))]
  }

  /** The closing check of every command that runs to its end: leftover tokens are an error. */
  function CheckEnd(rest: seq<string>): seq<Action> { if rest == [] then [] else [Reply] }

  function PlActions(args: seq<string>): seq<Action> {
    match ParsePl(args)
    case NotACommand => []
    case Parsed(command, checked, rest) => PerformPl(command) + (if checked then CheckEnd(rest) else [])
  }

  // ---- lines and packets ----

  /** The tokens of a line, which the interpreter first turns to upper case. */
  function Tokens(line: string): seq<string> { Words(Upper(line)) }

  predicate IsLine(line: string, command: string) {
    Upper(line) != POLICY_REQUEST && Tokens(line) != [] && |Tokens(line)| <= MAX_TOKENS && Tokens(line)[0] == command
  }

  predicate IsPlLine(line: string) { IsLine(line, "PL") }

  const POLICY_REQUEST := "<POLICY-FILE-REQUEST/>"
  const OK_COMMANDS: set<string> := {"PL", "RF", "RFSEC", "RFCAM", "PT", "RFTOPL", "RFTORF"}
  const DIAGNOSTICS: set<string> := {"HELLO", "CAPABILITIES", "HEALTH", "CLIENTS", "CONFIG", "VERSION"}
  const REPLY_ONLY: set<string> := {"INFO", "QUIT", "HELP", "?"}

  /**
   processcommandline.  `dup` is what the duplicate filter answers if it is asked, and `or20` whether
   the client is an OpenRemote one.  Termination needs that the bridge only ever writes PL lines.
   */
  function ProcessLine(cfg: Config, dup: bool, or20: bool, line: string): seq<Action>
    decreases if IsPlLine(line) then 0 else 4, 1
  {
    var tokens := Tokens(line);
    if Upper(line) == POLICY_REQUEST then [Reply]
    else if |tokens| > MAX_TOKENS then [Reply]
    else if tokens == [] then []
    else (if or20 && tokens[0] in OK_COMMANDS then [Reply] else []) + CommandActions(cfg, dup, tokens)
  }

  function CommandActions(cfg: Config, dup: bool, tokens: seq<string>): seq<Action>
    requires tokens != []
    decreases if tokens[0] == "PL" then 0 else 3, 0
  {
    if tokens[0] == "PL" then PlActions(tokens[1..])
    else if tokens[0] == "RF" then SendBuilt(cfg, dup, BuildRf(tokens[1..]))
    else if tokens[0] == "RFSEC" then SendBuilt(cfg, dup, BuildSec(tokens[1..]))
    else if tokens[0] == "RFCAM" then SendBuilt(cfg, dup, BuildCam(tokens[1..]))
    else OtherActions(tokens[0], tokens[1..])
  }

  /** The frame an RF command builds and the tokens left, or what happens instead. */
  datatype Built = Refused(actions: seq<Action>) | Built(frame: seq<byte>, rest: seq<string>)

  /** A frame is decoded as if received, sent, and then the tokens are checked. */
  function SendBuilt(cfg: Config, dup: bool, b: Built): seq<Action>
    requires b.Built? ==> FrameFits(b.frame)
    decreases 2, 10
  {
    match b
    case Refused(actions) => actions
    case Built(frame, rest) =>
      DecodeRf(cfg, dup, frame, |frame|) + [Transmit(RfWire(cfg.cm19a, frame))] + CheckEnd(rest)
  }

  predicate FrameFits(frame: seq<byte>) {
    5 <= |frame| <= 8 && (frame[1] == 0x20 ==> |frame| >= 6) && frame[1] != RX_MARKER
  }

  function BuildRf(args: seq<string>): (b: Built)
    ensures b.Built? ==> FrameFits(b.frame)
    ensures b.Refused? ==> forall a | a in b.actions :: a == Reply
  {
    hide RfFrame;
    match GetDeviceAddr(args)
    case None => Refused([])
    case Some(DeviceAddr(house, unit)) =>
      var func := GetFunc(Rest(args));
      if func < 0 then Refused([])
      else
        match RfFrame(house, unit, func)
        case None => Refused(CheckEnd(Rest(Rest(args))))
        case Some(frame) => Built(frame, Rest(Rest(args)))
  }

  /** The last three bytes of an address, highest first. */
  datatype AddrBytes = AddrBytes(high: byte, middle: byte, low: byte) {
    function Value(): int { high as int * 0x1_0000 + middle as int * 0x100 + low as int }
  }

  function SplitAddr(address: nat): AddrBytes {
    AddrBytes(LowByte(address / 0x1_0000), LowByte(address / 0x100), LowByte(address))
  }

  /** The frame an RFSEC address and function build. */
  function SecFrameOf(a: RfAddr, func: byte): (f: seq<byte>)
    ensures |f| == (if a.addr8 then 6 else 8) && FrameFits(f)
  {
    var b := SplitAddr(a.address);
    if a.addr8 then ShortSecFrame(b.low, func) else LongSecFrame(b.high, b.middle, b.low, func)
  }

  function BuildSec(args: seq<string>): (b: Built)
    ensures b.Built? ==> FrameFits(b.frame)
    ensures b.Refused? ==> forall a | a in b.actions :: a == Reply
  {
    match GetRfAddr(args)
    case None => Refused([])
    case Some(a) =>
      match GetRfFunc(Rest(args), a.addr8)
      case None => Refused([])
      case Some(func) => Built(SecFrameOf(a, func), Rest(Rest(args)))
  }

  /** The key code of a camera key name. */
  function CamKey(name: string): Option<byte> {
    var i := IndexOf(CAM_KEYS, name);
    if i < 0 then None else Some(CAM_FIRST_KEY + i as byte)
  }

  lemma CamKeyIsNamed(name: string)
    requires CamKey(name).Some? && |name| > 0
    ensures IsCamKey(CamKey(name).value) && CamKeyName(CamKey(name).value) == name
  {
    var i := IndexOf(CAM_KEYS, name);
    CamKeyOfIndex(i);
  }

  function BuildCam(args: seq<string>): (b: Built)
    ensures b.Built? ==> FrameFits(b.frame)
    ensures b.Refused? ==> forall a | a in b.actions :: a == Reply
  {
    match GetDeviceAddr(args)
    case None => Refused([])
    case Some(DeviceAddr(house, _)) =>
      if Rest(args) == [] || |Rest(args)[0]| == 0 then Refused([])
      else
        match CamKey(Rest(args)[0])
        case None => Refused([Reply] + CheckEnd(Rest(Rest(args))))
        case Some(key) => Built(CameraFrame(house, key), Rest(Rest(args)))
  }

  /** The commands that send at most raw bytes. */
  function OtherActions(command: string, args: seq<string>): seq<Action> {
    if command in DIAGNOSTICS || command in REPLY_ONLY then [Reply]
    else if command == "PT" then
      match GetHexData(args)
      case None => []
      case Some(bytes) => if bytes == [] then [] else [Transmit(bytes)]
    else if command == "RFTOPL" then
      [SetRfToPl(if args == [] then {} else HouseSet(args[0])), Reply] + CheckEnd(Rest(args))
    else if command == "RFTORF" then
      if args == [] then [Reply]
      else
        match ParseDecimalInt(args[0], 0, 65535)
        case None => []
        case Some(value) => [SetRfToRf(value), Reply] + CheckEnd(Rest(args))
    else if command == "ST" then
      (if args != [] && args[0] == "0" then [Device(DeviceState.Reset), ClearSensors] else [Reply])
      + CheckEnd(Rest(args))
    else if command == "HEX" then (if args == [] then [] else [Reply])
    else if command == "GETSTATUS" then
      match GetDeviceAddr(args)
      case None => []
      case Some(DeviceAddr(_, unit)) => if unit < 0 then [] else [Reply] + CheckEnd(Rest(Rest(args)))
    else if command == "GETSTATUSSEC" then
      match GetRfAddr(args)
      case None => []
      case Some(_) => [Reply] + CheckEnd(Rest(args))
    else []
  }

  /** repeatRF: the frame goes out again with the transmit marker. */
  function RepeatRf(cfg: Config, buf: seq<byte>, len: int): seq<Action>
    requires 1 <= len <= |buf|
  {
    if cfg.rfToRf == 0 then [] else [Reply, Transmit(RfWire(cfg.cm19a, [TX_MARKER] + buf[1..len]))]
  }

  function FuncName(func: int): string {
    if func == FUNC_ON then "On" else if func == FUNC_OFF then "Off" else if func == FUNC_DIM then "Dim" else "Bright"
  }

  /** The text the bridge writes: PL, the house, the unit unless it is a dim or bright, and the function. */
  function BridgeLine(c: RfCommand): string
    requires IsHouse(c.house) && 0 <= c.unit <= 16
  {
    "PL " + AddrText(c.house, c.unit) + " " + FuncName(c.func)
  }

  function Bridge(cfg: Config, dup: bool, c: RfCommand): seq<Action>
    requires IsHouse(c.house) && 0 <= c.unit <= 16 && FUNC_ON <= c.func <= FUNC_BRIGHT
    decreases 1, 0
  {
    if cfg.cm19a || c.house !in cfg.rfToPl then []
    else
      BridgeLineTokens(c);
      ProcessLine(cfg, dup, false, BridgeLine(c))
  }

  /** cm15a_decode_rf.  `buf` is the whole packet buffer; a standard packet is read up to its sixth byte. */
  function DecodeRf(cfg: Config, dup: bool, buf: seq<byte>, len: int): seq<Action>
    requires 0 <= len <= |buf| && (len >= 5 && (buf[1] == 0x20 || buf[1] == RX_MARKER) ==> |buf| >= 6)
    decreases 2, len
  {
    if len > 8 && buf[1] == RX_MARKER then DecodeRf(cfg, dup, buf[1..], len - 1)
    else if len < 5 || len > 8 then [Reply]
    else
      var received := buf[0] == RX_MARKER;
      if buf[1] == 0x14 then
        match DecodeCamera(buf[1..len])
        case NoKey => [Reply]
        case Key(house, key) =>
          if dup then [] else [Dispatch(received, Camera(house, key))] + RepeatRf(cfg, buf, len)
      else if buf[1] == 0x20 then
        DecodeStandard(cfg, dup, received, buf, len)
      else if buf[1] == 0x29 then
        match DecodeSecAddress(buf, len)
        case BadChecksum => [Reply]
        case BadParity => [Reply]
        case SecOk(a0, a1, a2, key) =>
          if dup then []
          else [Sensor(a0, a1, a2, key, false), Dispatch(received, SecLong(a0, a1, a2, key))] + RepeatRf(cfg, buf, len)
      else [Reply]
  }

  /** The 0x20 packets: an 8-bit security address when the first check is 0x0f, house and unit when it is 0xff. */
  function DecodeStandard(cfg: Config, dup: bool, received: bool, buf: seq<byte>, len: int): seq<Action>
    requires 5 <= len <= 8 && len <= |buf| && |buf| >= 6
    decreases 1, 2
  {
    StandardActions(cfg, dup, received, buf[2], buf[2] ^ buf[3], buf[4], buf[4] ^ buf[5], RepeatRf(cfg, buf, len))
  }

  function StandardActions(cfg: Config, dup: bool, received: bool, first: byte, firstCheck: byte,
                           second: byte, secondCheck: byte, repeated: seq<Action>): seq<Action>
    decreases 1, 1
  {
    if firstCheck == 0x0f then
      if secondCheck != 0xff then [Reply]
      else if dup then []
      else [Sensor(0, 0, first, second, true), Dispatch(received, SecShort(first, second))] + repeated
    else if firstCheck == 0xff then
      if secondCheck != 0xff && secondCheck != 0xfb then [Reply]
      else if dup then []
      else
        RfCommandBounds(first, second);
        var c := DecodeHouseUnitFunc(first, second);
        RfReport(received, c) + repeated + Bridge(cfg, dup, c)
    else [Reply]
  }

  /** What a standard RF command is recorded and reported as: a dim or bright has no unit. */
  function RfReport(received: bool, c: RfCommand): seq<Action> {
    if c.func == FUNC_DIM || c.func == FUNC_BRIGHT then [Dispatch(received, RfHouse(c.house, c.func))]
    else [Device(DeviceState.Address(c.house, c.unit - 1)), Device(DeviceState.Func(c.house, c.func == FUNC_ON)),
          Dispatch(received, RfUnit(c.house, c.unit, c.func))]
  }

  /**
   cm15a_decode on the 8-byte input buffer.  A CM19A packet is copied behind a marker into a 9-byte
   local buffer, `scratch` before the copy; `clock` is the answer to a clock request.
   */
  function DecodePacket(cfg: Config, dup: bool, buf: seq<byte>, len: int, scratch: seq<byte>, clock: seq<byte>)
    : seq<Action>
    requires |buf| == 8 && 0 <= len <= 8 && |scratch| == 9 && |clock| == 8
  {
    if len < 4 then []
    else if cfg.cm19a then DecodeRf(cfg, dup, Overlay(scratch, [RX_MARKER] + buf[..len]), len + 1)
    else if buf[0] == 0xa5 then [Transmit(clock)]
    else if buf[0] == 0x5a then DecodePlc(buf, len)
    else if buf[0] == RX_MARKER then DecodeRf(cfg, dup, buf, len)
    else []
  }

  lemma RfCommandBounds(first: byte, second: byte)
    ensures var c := DecodeHouseUnitFunc(first, second);
            && IsHouse(c.house) && FUNC_ON <= c.func <= FUNC_BRIGHT
            && (c.unit == 0 <==> c.func in {FUNC_DIM, FUNC_BRIGHT}) && 0 <= c.unit <= 16
  {
    HouseTablesOnto(High(first));
    assert GatherUnit(first, second) < 16;
  }

  function AddrText(house: int, unit: int): string
    requires IsHouse(house) && 0 <= unit <= 16
  {
    [('A' as int + house) as char] + (if unit == 0 then "" else Decimal(unit))
  }

  lemma AddrTextIsWord(house: int, unit: int)
    requires IsHouse(house) && 0 <= unit <= 16
    ensures IsWord(AddrText(house, unit)) && Upper(AddrText(house, unit)) == AddrText(house, unit)
  {
    if unit > 0 { ParseDecimalOf(unit, 1, 16); }
  }

  lemma FuncNameIsWord(func: int)
    requires FUNC_ON <= func <= FUNC_BRIGHT
    ensures Upper(FuncName(func)) == FUNC_COMMANDS[func] && IsWord(FUNC_COMMANDS[func])
  {
  }

  /** The bridge's line is a PL line, whatever the house, unit and function. */
  lemma BridgeLineTokens(c: RfCommand)
    requires IsHouse(c.house) && 0 <= c.unit <= 16 && FUNC_ON <= c.func <= FUNC_BRIGHT
    ensures IsPlLine(BridgeLine(c))
    ensures Tokens(BridgeLine(c)) == ["PL", AddrText(c.house, c.unit), FUNC_COMMANDS[c.func]]
  {
    hide IsWord, Words, Upper, AddrText, BridgeLine, FuncName;
    var addr, name := AddrText(c.house, c.unit), FUNC_COMMANDS[c.func];
    AddrTextIsWord(c.house, c.unit);
    FuncNameIsWord(c.func);
    BridgeLineUpper(c);
    PlIsWord();
    ThreeWords(Upper(BridgeLine(c)), "PL", addr, name);
    assert Upper(BridgeLine(c))[0] == 'P';
  }

  lemma PlIsWord()
    ensures IsWord("PL")
  {
  }

  lemma BridgeLineUpper(c: RfCommand)
    requires IsHouse(c.house) && 0 <= c.unit <= 16 && FUNC_ON <= c.func <= FUNC_BRIGHT
    ensures Upper(BridgeLine(c)) == "PL" + [' '] + (AddrText(c.house, c.unit) + [' '] + FUNC_COMMANDS[c.func])
  {
    hide IsWord, AddrText;
    var addr := AddrText(c.house, c.unit);
    AddrTextIsWord(c.house, c.unit);
    FuncNameIsWord(c.func);
    UpperAppends("PL " + addr + " ", FuncName(c.func));
    UpperAppends("PL " + addr, " ");
    UpperAppends("PL ", addr);
    assert Upper("PL ") == "PL" + [' '] && Upper(" ") == [' '];
  }

  lemma ThreeWords(text: string, a: string, b: string, c: string)
    requires text == a + [' '] + (b + [' '] + c) && IsWord(a) && IsWord(b) && IsWord(c)
    ensures Words(text) == [a, b, c]
  {
    BlankSeparatesWords(a, ' ', b + [' '] + c);
    BlankSeparatesWords(b, ' ', c);
    SingleWord(a);
    SingleWord(b);
    SingleWord(c);
  }
}
