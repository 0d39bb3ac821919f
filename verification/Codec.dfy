/**
 Frames: what the decoders of src/x10/decode.c make of a packet, and what the encoders of
 src/x10/encode.c build.  Decoding yields the actions the daemon takes, so that an encoder can be
 held against the decoder it feeds.  Houses are 0 (A) to 15 (P); units in events are 1 to 16.
 */
module Codec {
  import opened Bytes
  import opened Wrappers
  import DeviceState

  datatype Event =
    | PlAddress(house: int, unit: int)
    | PlHouse(house: int, func: int)
    | PlLevel(house: int, func: int, level: int)
    | PlExtended(house: int, unit: int, func: int, data: byte, command: byte)
    | RfUnit(house: int, unit: int, func: int)
    | RfHouse(house: int, func: int)
    | SecShort(address: byte, key: byte)
    | SecLong(a0: byte, a1: byte, a2: byte, key: byte)
    | Camera(house: int, key: byte)

  /** What handling a packet or a command does, in order. */
  datatype Action =
    | Dispatch(received: bool, event: Event)   // an event line for the clients
    | Device(ev: DeviceState.DeviceEvent)      // a call into the house and unit tables
    | Sensor(b0: byte, b1: byte, b2: byte, key: byte, addr8: bool)
    | ClearSensors
    | Transmit(packet: seq<byte>)              // a call of x10_write
    | Reply                                    // text for one or all clients
    | SetRfToPl(houses: set<int>)
    | SetRfToRf(value: int)

  // ---- code tables ----

  const HOUSE_UNIT_TABLE: string := "MECKOGAINFDLPHBJ"
  const HOUSE_TABLE_RF: string := "MNOPCDABEFGHKLIJ"

  const X10_HOUSE_CODE: seq<byte> :=
    [0x06, 0x0e, 0x02, 0x0a, 0x01, 0x09, 0x05, 0x0d, 0x07, 0x0f, 0x03, 0x0b, 0x00, 0x08, 0x04, 0x0c]

  const X10_HOUSE_CODE_RF: seq<byte> :=
    [0x06, 0x07, 0x04, 0x05, 0x08, 0x09, 0x0a, 0x0b, 0x0e, 0x0f, 0x0c, 0x0d, 0x00, 0x01, 0x02, 0x03]

  predicate IsHouse(h: int) { 0 <= h < 16 }

  function High(b: byte): (n: byte) ensures n < 16 { (b & 0xf0) >> 4 }

  function Low(b: byte): (n: byte) ensures n < 16 { b & 0x0f }

  function Pack(high: byte, low: byte): byte requires high < 16 && low < 16 { (high << 4) | low }

  function HouseOf(code: byte): int requires code < 16 { HOUSE_UNIT_TABLE[code as int] as int - 'A' as int }

  function HouseOfRf(code: byte): int requires code < 16 { HOUSE_TABLE_RF[code as int] as int - 'A' as int }

  lemma HouseTableInverts(h: int)
    requires IsHouse(h)
    ensures X10_HOUSE_CODE[h] < 16 && HouseOf(X10_HOUSE_CODE[h]) == h
  {
  }

  lemma HouseTableRfInverts(h: int)
    requires IsHouse(h)
    ensures X10_HOUSE_CODE_RF[h] < 16 && HouseOfRf(X10_HOUSE_CODE_RF[h]) == h
  {
  }

  lemma HouseTablesOnto(code: byte)
    requires code < 16
    ensures IsHouse(HouseOf(code)) && X10_HOUSE_CODE[HouseOf(code)] == code
    ensures IsHouse(HouseOfRf(code)) && X10_HOUSE_CODE_RF[HouseOfRf(code)] == code
  {
  }

  lemma PackSplits(high: byte, low: byte)
    requires high < 16 && low < 16
    ensures High(Pack(high, low)) == high && Low(Pack(high, low)) == low
  {
  }

  // ---- power-line packets ----

  const FUNC_ALL_UNITS_OFF := 0
  const FUNC_ALL_LIGHTS_ON := 1
  const FUNC_ON := 2
  const FUNC_OFF := 3
  const FUNC_DIM := 4
  const FUNC_BRIGHT := 5
  const FUNC_ALL_LIGHTS_OFF := 6
  const FUNC_EXTENDED_CODE_1 := 7
  const FUNC_STATUS_ON := 13
  const FUNC_STATUS_OFF := 14
  const FUNC_EXTENDED_DIM := 16

  /** What a house function does to the device tables. */
  function FuncActions(house: int, func: int): seq<Action> {
    if func == FUNC_ALL_UNITS_OFF || func == FUNC_ALL_LIGHTS_OFF then [Device(DeviceState.AllFunc(house, false))]
    else if func == FUNC_ALL_LIGHTS_ON then [Device(DeviceState.AllFunc(house, true))]
    else if func == FUNC_ON || func == FUNC_STATUS_ON then [Device(DeviceState.Func(house, true))]
    else if func == FUNC_OFF || func == FUNC_STATUS_OFF then [Device(DeviceState.Func(house, false))]
    else []
  }

  /** `buf` is the whole packet buffer; a dim packet is read one byte past a length of 4. */
  function DecodePlc(buf: seq<byte>, len: int): seq<Action>
    requires 0 <= len <= |buf| && (len >= 4 && buf[2] == 0x02 ==> |buf| >= 5)
  {
    if len < 4 || len > 8 then []
    else
      var received := buf[0] == 0x5a;
      if buf[2] == 0x00 then
        if buf[1] != 2 then []
        else
          var house, unit := HouseOf(High(buf[3])), HouseOf(Low(buf[3])) + 1;
          [Device(DeviceState.Address(house, unit - 1)), Dispatch(received, PlAddress(house, unit))]
      else if buf[2] == 0x01 then
        if buf[1] != 2 then []
        else
          var house, func := HouseOf(High(buf[3])), Low(buf[3]) as int;
          FuncActions(house, func) + [Dispatch(received, PlHouse(house, func))]
      else if buf[2] == 0x02 then
        if buf[1] != 3 then []
        else
          var house, func := HouseOf(High(buf[4])), Low(buf[4]) as int;
          [Dispatch(received, PlLevel(house, func, ((buf[3] & 0xf8) >> 3) as int))]
      else if buf[2] == 0x07 then
        if len != 7 then []
        else ExtendedActions(received, buf[3], buf[4], buf[5], buf[6])
      else if buf[2] == 0x08 then
        if len != 7 then []
        else ExtendedActions(received, buf[6], buf[5], buf[4], buf[3])
      else []
  }

  function ExtendedActions(received: bool, houseFunc: byte, unitCode: byte, data: byte, command: byte): seq<Action> {
    var house, func := HouseOf(High(houseFunc)), Low(houseFunc) as int;
    var unit := HouseOf(Low(unitCode)) + 1;
    [Dispatch(received, PlExtended(house, unit, func, data, command)),
     Device(DeviceState.Xdim(house, unit - 1, data))]
  }

  // ---- RF packets ----

  const RX_MARKER: byte := 0x5d
  const TX_MARKER: byte := 0xeb

  /** The house, unit (0 for dim and bright) and function of a standard RF packet. */
  datatype RfCommand = RfCommand(house: int, unit: int, func: int)

  function DecodeHouseUnitFunc(houseUnit: byte, unitFunc: byte): RfCommand {
    var house := HouseOfRf(High(houseUnit));
    if unitFunc == 0x88 then RfCommand(house, 0, FUNC_BRIGHT)
    else if unitFunc == 0x98 then RfCommand(house, 0, FUNC_DIM)
    else
      RfCommand(house, GatherUnit(houseUnit, unitFunc) as int + 1, if unitFunc & 0x20 == 0 then FUNC_ON else FUNC_OFF)
  }

  /** The four unit bits are spread over two bytes. */
  function GatherUnit(houseUnit: byte, unitFunc: byte): byte {
    ((houseUnit & 0x04) << 1) | ((unitFunc & 0x40) >> 4) | ((unitFunc & 0x08) >> 2) | ((unitFunc & 0x10) >> 4)
  }

  // The 256-entry table, written in its rows of 32; there are only two different rows.
  const EVEN_ROW: string := "01101001100101101001011001101001"
  const ODD_ROW: string := "10010110011010010110100110010110"
  const PARITY_TABLE: seq<string> :=
    [EVEN_ROW, ODD_ROW, ODD_ROW, EVEN_ROW, ODD_ROW, EVEN_ROW, EVEN_ROW, ODD_ROW]

  function TableParity(b: byte): bool { PARITY_TABLE[(b >> 5) as int][(b & 0x1f) as int] == '1' }

  /** Odd parity: an odd number of bits is set. */
  function OddParity(b: byte): bool {
    var b4 := b ^ (b >> 4);
    var b2 := b4 ^ (b4 >> 2);
    (b2 ^ (b2 >> 1)) & 1 == 1
  }

  lemma ParityTableIsOddParity(b: byte)
    ensures TableParity(b) == OddParity(b)
  {
  }

  datatype SecResult = BadChecksum | BadParity | SecOk(a0: byte, a1: byte, a2: byte, key: byte)

  function DecodeSecAddress(buf: seq<byte>, len: int): SecResult
    requires 0 <= len <= |buf|
  {
    if len < 8 then BadChecksum
    else if buf[2] ^ buf[3] != 0x0f || buf[4] ^ buf[5] != 0xff then BadChecksum
    else if TableParity(buf[6] ^ buf[7]) then BadParity
    else SecOk(buf[2], buf[6], buf[7], buf[4])
  }

  const CAM_FIRST_KEY: byte := 0x54

  /** Camera key names from key code 0x54 on; an empty name is a code without a key. */
  const CAM_KEYS: seq<string> :=
    ["CAMPRESET5", "CAMEDITPRESET5", "CAMPRESET6", "CAMEDITPRESET6", "CAMPRESET7", "CAMEDITPRESET7",
     "CAMPRESET8", "CAMEDITPRESET8", "CAMPRESET9", "CAMEDITPRESET9", "", "",
     "CAMLEFT", "CAMRIGHT", "CAMUP", "CAMDOWN", "CAMPRESET1", "CAMEDITPRESET1", "CAMPRESET2", "CAMEDITPRESET2",
     "CAMPRESET3", "CAMEDITPRESET3", "CAMPRESET4", "CAMEDITPRESET4", "CAMCENTER", "", "CAMSWEEP"]

  predicate IsCamKey(key: byte) {
    key >= CAM_FIRST_KEY && (key - CAM_FIRST_KEY) as int < |CAM_KEYS| && CAM_KEYS[(key - CAM_FIRST_KEY) as int] != ""
  }

  function CamKeyName(key: byte): string
    requires IsCamKey(key)
  {
    CAM_KEYS[(key - CAM_FIRST_KEY) as int]
  }

  lemma CamKeyOfIndex(i: int)
    requires 0 <= i < |CAM_KEYS|
    ensures var key := CAM_FIRST_KEY + i as byte; key >= CAM_FIRST_KEY && (key - CAM_FIRST_KEY) as int == i
  {
  }

  datatype CamResult = NoKey | Key(house: int, key: byte)

  /** findCamRemoteName on the bytes after the marker. */
  function DecodeCamera(command: seq<byte>): CamResult {
    if |command| < 4 || command[0] != 0x14 then NoKey
    else
      var housecode := High(command[3]);
      if command[1] != (housecode << 4) + (command[2] - 0x2b) || !IsCamKey(command[2]) then NoKey
      else Key(HouseOfRf(housecode), command[2])
  }

  // ---- frames the encoders build ----

  function AddressFrame(house: int, unit: int): seq<byte>
    requires IsHouse(house) && IsHouse(unit)
  {
    HouseTableInverts(house);
    HouseTableInverts(unit);
    [0x00, 0x02, 0x00, Pack(X10_HOUSE_CODE[house], X10_HOUSE_CODE[unit])]
  }

  function FuncFrame(house: int, func: int): seq<byte>
    requires IsHouse(house) && 0 <= func < 16
  {
    HouseTableInverts(house);
    [0x00, 0x02, 0x01, Pack(X10_HOUSE_CODE[house], func as byte)]
  }

  function DimBits(param: int): byte requires 0 <= param < 256 { ((param as byte) & 0x1f) << 3 }

  function DimFrame(house: int, func: int, param: int): seq<byte>
    requires IsHouse(house) && (func == FUNC_DIM || func == FUNC_BRIGHT) && 0 <= param < 256
  {
    HouseTableInverts(house);
    [0x00, 0x03, 0x02, DimBits(param) | 0x01, Pack(X10_HOUSE_CODE[house], func as byte)]
  }

  function ExtendedFrame(house: int, unit: int, command: int, subcommand: int, param: int): seq<byte>
    requires IsHouse(house) && IsHouse(unit) && 0 <= command < 256 && 0 <= subcommand < 256 && 0 <= param < 256
  {
    HouseTableInverts(house);
    [0x00, 0x05, 0x07, Pack(X10_HOUSE_CODE[house], 0x07), X10_HOUSE_CODE[unit], param as byte,
     Pack((command as byte) & 0x0f, (subcommand as byte) & 0x0f)]
  }

  function AddressWire(house: int, unit: int): seq<byte>
    requires IsHouse(house) && IsHouse(unit)
  {
    [0x04, AddressFrame(house, unit)[3]]
  }

  function FuncWire(house: int, func: int): seq<byte>
    requires IsHouse(house) && 0 <= func < 16
  {
    [0x06, FuncFrame(house, func)[3]]
  }

  function DimWire(house: int, func: int, param: int): seq<byte>
    requires IsHouse(house) && (func == FUNC_DIM || func == FUNC_BRIGHT) && 0 <= param < 256
  {
    [0x06, DimFrame(house, func, param)[4], 0x06 | DimBits(param)]
  }

  function ExtendedWire(house: int, unit: int, command: int, subcommand: int, param: int): seq<byte>
    requires IsHouse(house) && IsHouse(unit) && 0 <= command < 256 && 0 <= subcommand < 256 && 0 <= param < 256
  {
    ExtendedFrame(house, unit, command, subcommand, param)[2..]
  }

  /** The frame of rf_tx_houseunitfunc; a dim or bright without a unit passes -1, whose bit 3 is set. */
  function RfFrame(house: int, unit: int, func: int): (f: Option<seq<byte>>)
    requires IsHouse(house) && -1 <= unit < 16
    ensures f.Some? ==> |f.value| == 6 && f.value[0] == TX_MARKER && f.value[1] == 0x20
  {
    HouseTableRfInverts(house);
    var u: byte := if unit < 0 then 0xff else unit as byte;
    var first := FirstRfByte(X10_HOUSE_CODE_RF[house], u);
    if func in {FUNC_ON, FUNC_OFF} && unit >= 0 then Some(StandardRf(first, OnOffByte(u, func == FUNC_OFF)))
    else if func == FUNC_DIM then Some(StandardRf(first, 0x98))
    else if func == FUNC_BRIGHT then Some(StandardRf(first, 0x88))
    else None
  }

  function SpreadUnit(u: byte): byte { ((u & 0x04) << 4) | ((u & 0x02) << 2) | ((u & 0x01) << 4) }

  /** House code and the top unit bit. */
  function FirstRfByte(code: byte, u: byte): byte requires code < 16 { Pack(code, (u & 0x08) >> 1) }

  function OnOffByte(u: byte, off: bool): byte { if off then 0x20 | SpreadUnit(u) else SpreadUnit(u) }

  function StandardRf(first: byte, second: byte): seq<byte> {
    [TX_MARKER, 0x20, first, !first, second, !second]
  }

  /** The two frames of rfsec_tx. */
  function ShortSecFrame(a: byte, func: byte): seq<byte> { [TX_MARKER, 0x20, a, a ^ 0x0f, func, !func] }

  function LongSecFrame(a0: byte, a1: byte, a2: byte, func: byte): (f: seq<byte>)
    ensures |f| == 8
  {
    [TX_MARKER, 0x29, a0, a0 ^ 0x0f, func, !func, a1, a2]
  }

  function CameraFrame(house: int, key: byte): seq<byte>
    requires IsHouse(house)
  {
    var code := X10_HOUSE_CODE_RF[house] << 4;
    [TX_MARKER, 0x14, code + (key - 0x2b), key, code]
  }

  // ---- each encoder against its decoder ----

  lemma AddressRoundTrip(house: int, unit: int)
    requires IsHouse(house) && IsHouse(unit)
    ensures DecodePlc(AddressFrame(house, unit), 4)
         == [Device(DeviceState.Address(house, unit)), Dispatch(false, PlAddress(house, unit + 1))]
  {
    HouseTableInverts(house);
    HouseTableInverts(unit);
    PackSplits(X10_HOUSE_CODE[house], X10_HOUSE_CODE[unit]);
  }

  lemma FuncRoundTrip(house: int, func: int)
    requires IsHouse(house) && 0 <= func < 16
    ensures DecodePlc(FuncFrame(house, func), 4)
         == FuncActions(house, func) + [Dispatch(false, PlHouse(house, func))]
  {
    HouseTableInverts(house);
    PackSplits(X10_HOUSE_CODE[house], func as byte);
  }

  lemma LowFiveBits(param: int)
    requires 0 <= param < 256
    ensures ((param as byte) & 0x1f) as int == param % 32
  {
    ByteValue(param);
    LowBits(param as byte);
  }

  lemma DimBitsSurvive(d: byte)
    requires d < 32
    ensures (((d << 3) | 0x01) & 0xf8) >> 3 == d && ((0x06 | (d << 3)) & 0xf8) >> 3 == d
  {
  }

  lemma DimLevel(param: int)
    requires 0 <= param < 256
    ensures (((DimBits(param) | 0x01) & 0xf8) >> 3) as int == param % 32
    ensures (((0x06 | DimBits(param)) & 0xf8) >> 3) as int == param % 32
  {
    LowFiveBits(param);
    DimBitsSurvive((param as byte) & 0x1f);
  }

  lemma DimRoundTrip(house: int, func: int, param: int)
    requires IsHouse(house) && (func == FUNC_DIM || func == FUNC_BRIGHT) && 0 <= param < 256
    ensures DecodePlc(DimFrame(house, func, param), 5) == [Dispatch(false, PlLevel(house, func, param % 32))]
  {
    HouseTableInverts(house);
    PackSplits(X10_HOUSE_CODE[house], func as byte);
    DimLevel(param);
  }

  lemma ExtendedRoundTrip(house: int, unit: int, command: int, subcommand: int, param: int)
    requires IsHouse(house) && IsHouse(unit) && 0 <= command < 256 && 0 <= subcommand < 256 && 0 <= param < 256
    ensures DecodePlc(ExtendedFrame(house, unit, command, subcommand, param), 7)
         == [Dispatch(false, PlExtended(house, unit + 1, FUNC_EXTENDED_CODE_1, param as byte,
                                        Pack((command as byte) & 0x0f, (subcommand as byte) & 0x0f))),
             Device(DeviceState.Xdim(house, unit, param as byte))]
  {
    HouseTableInverts(house);
    HouseTableInverts(unit);
    PackSplits(X10_HOUSE_CODE[house], 0x07);
  }

  /** A clear top bit means an on or off with a unit. */
  lemma UnitFuncDecodes(first: byte, second: byte)
    requires second & 0x80 == 0
    ensures DecodeHouseUnitFunc(first, second)
         == RfCommand(HouseOfRf(High(first)), GatherUnit(first, second) as int + 1,
                      if second & 0x20 == 0 then FUNC_ON else FUNC_OFF)
  {
  }

  lemma StandardRfIsChecked(first: byte, second: byte)
    ensures IsCheckedRf(StandardRf(first, second))
  {
    ComplementChecks(first);
    ComplementChecks(second);
  }

  lemma OnOffBytesDecode(code: byte, u: byte, off: bool)
    requires code < 16
    ensures DecodeHouseUnitFunc(FirstRfByte(code, u), OnOffByte(u, off))
         == RfCommand(HouseOfRf(code), (u & 0x0f) as int + 1, if off then FUNC_OFF else FUNC_ON)
  {
    PackSplits(code, (u & 0x08) >> 1);
    UnitBitsRoundTrip(code, u);
    UnitFuncDecodes(FirstRfByte(code, u), OnOffByte(u, off));
  }

  /** On and off: the same house, unit and function come back, with complementary check bytes. */
  lemma RfOnOffRoundTrip(house: int, unit: int, off: bool)
    requires IsHouse(house) && IsHouse(unit)
    ensures var func := if off then FUNC_OFF else FUNC_ON;
            && RfFrame(house, unit, func).Some?
            && var f := RfFrame(house, unit, func).value;
               && IsCheckedRf(f) && DecodeHouseUnitFunc(f[2], f[4]) == RfCommand(house, unit + 1, func)
  {
    HouseTableRfInverts(house);
    var code, u := X10_HOUSE_CODE_RF[house], unit as byte;
    OnOffBytesDecode(code, u, off);
    StandardRfIsChecked(FirstRfByte(code, u), OnOffByte(u, off));
    LowFourBits(unit);
  }

  /** Dim and bright: the house and function come back, whatever the unit, even without one. */
  lemma RfDimRoundTrip(house: int, unit: int, bright: bool)
    requires IsHouse(house) && -1 <= unit < 16
    ensures var func := if bright then FUNC_BRIGHT else FUNC_DIM;
            && RfFrame(house, unit, func).Some?
            && var f := RfFrame(house, unit, func).value;
               && IsCheckedRf(f) && DecodeHouseUnitFunc(f[2], f[4]) == RfCommand(house, 0, func)
  {
    HouseTableRfInverts(house);
    var u: byte := if unit < 0 then 0xff else unit as byte;
    PackSplits(X10_HOUSE_CODE_RF[house], (u & 0x08) >> 1);
    StandardRfIsChecked(FirstRfByte(X10_HOUSE_CODE_RF[house], u), if bright then 0x88 else 0x98);
  }

  /** No other function, and no on or off without a unit, has an RF frame. */
  lemma RfFrameExists(house: int, unit: int, func: int)
    requires IsHouse(house) && -1 <= unit < 16
    ensures RfFrame(house, unit, func).Some?
       <==> func in {FUNC_DIM, FUNC_BRIGHT} || (func in {FUNC_ON, FUNC_OFF} && unit >= 0)
  {
  }

  /** The form the RF decoder accepts: both check bytes are complements. */
  predicate IsCheckedRf(f: seq<byte>) {
    |f| == 6 && f[0] == TX_MARKER && f[1] == 0x20 && f[2] ^ f[3] == 0xff && f[4] ^ f[5] == 0xff
  }

  lemma LowFourBits(unit: int)
    requires 0 <= unit < 16
    ensures ((unit as byte) & 0x0f) as int == unit
  {
    ByteValue(unit);
    LowBits(unit as byte);
  }

  lemma ComplementChecks(b: byte)
    ensures b ^ !b == 0xff
  {
  }

  lemma UnitBitsRoundTrip(code: byte, u: byte)
    requires code < 16
    ensures forall off :: GatherUnit(FirstRfByte(code, u), OnOffByte(u, off)) == u & 0x0f
    ensures forall off :: OnOffByte(u, off) & 0x80 == 0 && (OnOffByte(u, off) & 0x20 == 0 <==> !off)
  {
  }

  lemma ShortSecRoundTrip(a: byte, func: byte)
    ensures var f := ShortSecFrame(a, func);
            f[2] == a && f[2] ^ f[3] == 0x0f && f[4] == func && f[4] ^ f[5] == 0xff
  {
    XorChecks(a, func);
  }

  lemma CheckedSecDecodes(f: seq<byte>)
    requires |f| == 8 && f[2] ^ f[3] == 0x0f && f[4] ^ f[5] == 0xff
    ensures DecodeSecAddress(f, 8) == if OddParity(f[6] ^ f[7]) then BadParity else SecOk(f[2], f[6], f[7], f[4])
  {
    hide TableParity, OddParity;
    ParityTableIsOddParity(f[6] ^ f[7]);
  }

  /** A long frame comes back exactly when the last two address bytes XOR to even parity. */
  lemma LongSecRoundTrip(a0: byte, a1: byte, a2: byte, func: byte)
    ensures DecodeSecAddress(LongSecFrame(a0, a1, a2, func), 8)
         == if OddParity(a1 ^ a2) then BadParity else SecOk(a0, a1, a2, func)
  {
    hide DecodeSecAddress, OddParity, LongSecFrame;
    LongSecIsChecked(a0, a1, a2, func);
    CheckedSecDecodes(LongSecFrame(a0, a1, a2, func));
  }

  lemma LongSecIsChecked(a0: byte, a1: byte, a2: byte, func: byte)
    ensures var f := LongSecFrame(a0, a1, a2, func);
            && f[2] == a0 && f[2] ^ f[3] == 0x0f && f[4] == func && f[4] ^ f[5] == 0xff && f[6] == a1 && f[7] == a2
  {
    XorChecks(a0, func);
  }

  lemma XorChecks(a: byte, func: byte)
    ensures a ^ (a ^ 0x0f) == 0x0f && func ^ !func == 0xff
  {
  }

  lemma CameraRoundTrip(house: int, key: byte)
    requires IsHouse(house)
    ensures DecodeCamera(CameraFrame(house, key)[1..]) == if IsCamKey(key) then Key(house, key) else NoKey
  {
    HouseTableRfInverts(house);
    var code := X10_HOUSE_CODE_RF[house];
    assert High(code << 4) == code;
  }

  // ---- what the controller reads off the power-line wire ----

  datatype WireMeaning =
    | WireAddress(house: int, unit: int)
    | WireFunc(house: int, func: int)
    | WireDim(house: int, func: int, level: int)
    | WireExtended(house: int, unit: int, data: byte, command: byte)
    | WireOther

  /** Header 0x04 announces an address, 0x06 a function with an optional level byte, 0x07 extended code 1. */
  function ReadWire(p: seq<byte>): WireMeaning {
    if |p| == 2 && p[0] == 0x04 then WireAddress(HouseOf(High(p[1])), HouseOf(Low(p[1])))
    else if |p| == 2 && p[0] == 0x06 then WireFunc(HouseOf(High(p[1])), Low(p[1]) as int)
    else if |p| == 3 && p[0] == 0x06 && p[2] & 0x07 == 0x06 then
      WireDim(HouseOf(High(p[1])), Low(p[1]) as int, ((p[2] & 0xf8) >> 3) as int)
    else if |p| == 5 && p[0] == 0x07 && Low(p[1]) == 0x07 then
      WireExtended(HouseOf(High(p[1])), HouseOf(Low(p[2])), p[3], p[4])
    else WireOther
  }

  lemma AddressOnTheWire(house: int, unit: int)
    requires IsHouse(house) && IsHouse(unit)
    ensures ReadWire(AddressWire(house, unit)) == WireAddress(house, unit)
  {
    HouseTableInverts(house);
    HouseTableInverts(unit);
    PackSplits(X10_HOUSE_CODE[house], X10_HOUSE_CODE[unit]);
  }

  lemma FuncOnTheWire(house: int, func: int)
    requires IsHouse(house) && 0 <= func < 16
    ensures ReadWire(FuncWire(house, func)) == WireFunc(house, func)
  {
    HouseTableInverts(house);
    PackSplits(X10_HOUSE_CODE[house], func as byte);
  }

  lemma DimOnTheWire(house: int, func: int, param: int)
    requires IsHouse(house) && (func == FUNC_DIM || func == FUNC_BRIGHT) && 0 <= param < 256
    ensures ReadWire(DimWire(house, func, param)) == WireDim(house, func, param % 32)
  {
    HouseTableInverts(house);
    PackSplits(X10_HOUSE_CODE[house], func as byte);
    DimLevel(param);
    assert (0x06 | DimBits(param)) & 0x07 == 0x06;
  }

  lemma ExtendedOnTheWire(house: int, unit: int, command: int, subcommand: int, param: int)
    requires IsHouse(house) && IsHouse(unit) && 0 <= command < 256 && 0 <= subcommand < 256 && 0 <= param < 256
    ensures ReadWire(ExtendedWire(house, unit, command, subcommand, param))
         == WireExtended(house, unit, param as byte, Pack((command as byte) & 0x0f, (subcommand as byte) & 0x0f))
  {
    HouseTableInverts(house);
    HouseTableInverts(unit);
    PackSplits(X10_HOUSE_CODE[house], 0x07);
  }
}
