/**
 The encoders as the daemon runs them: a local buffer is filled byte by byte, shown to the decoder,
 and then rewritten in place into the bytes for the controller.  `shown` is what the decoder sees
 and `wire` what x10_write gets.
 */
module Encoders {
  import opened Bytes
  import opened Codec

  method PlTxHouseUnit(house: int, unit: int) returns (shown: seq<byte>, wire: seq<byte>)
    requires IsHouse(house) && IsHouse(unit)
    ensures shown == AddressFrame(house, unit) && wire == AddressWire(house, unit)
    ensures DecodePlc(shown, |shown|)
         == [Device(DeviceState.Address(house, unit)), Dispatch(false, PlAddress(house, unit + 1))]
    ensures ReadWire(wire) == WireAddress(house, unit)
  {
    var buf := new byte[4](_ => 0);
    buf[0], buf[1], buf[2] := 0x00, 0x02, 0x00;
    HouseTableInverts(house);
    HouseTableInverts(unit);
    buf[3] := Pack(X10_HOUSE_CODE[house], X10_HOUSE_CODE[unit]);
    shown := buf[..];
    buf[2] := 0x04;
    wire := buf[2..4];
    AddressRoundTrip(house, unit);
    AddressOnTheWire(house, unit);
  }

  method PlTxExtendedCode1(house: int, unit: int, command: int, subcommand: int, param: int)
    returns (shown: seq<byte>, wire: seq<byte>)
    requires IsHouse(house) && IsHouse(unit) && 0 <= command < 256 && 0 <= subcommand < 256 && 0 <= param < 256
    ensures shown == ExtendedFrame(house, unit, command, subcommand, param)
    ensures wire == ExtendedWire(house, unit, command, subcommand, param)
    ensures ReadWire(wire)
         == WireExtended(house, unit, param as byte, Pack((command as byte) & 0x0f, (subcommand as byte) & 0x0f))
  {
    var buf := new byte[7](_ => 0);
    buf[0], buf[1], buf[2] := 0x00, 0x05, 0x07;
    HouseTableInverts(house);
    buf[3] := Pack(X10_HOUSE_CODE[house], 0x07);
    buf[4] := X10_HOUSE_CODE[unit];
    buf[5] := param as byte;
    buf[6] := Pack((command as byte) & 0x0f, (subcommand as byte) & 0x0f);
    shown := buf[..];
    wire := buf[2..7];
    ExtendedOnTheWire(house, unit, command, subcommand, param);
  }

  method PlTxHouseFunc(house: int, func: int, param: int) returns (shown: seq<byte>, wire: seq<byte>)
    requires IsHouse(house) && 0 <= func < 16 && 0 <= param < 256
    ensures if func in {FUNC_DIM, FUNC_BRIGHT}
            then && shown == DimFrame(house, func, param) && wire == DimWire(house, func, param)
                 && DecodePlc(shown, |shown|) == [Dispatch(false, PlLevel(house, func, param % 32))]
                 && ReadWire(wire) == WireDim(house, func, param % 32)
            else && shown == FuncFrame(house, func) && wire == FuncWire(house, func)
                 && DecodePlc(shown, |shown|) == FuncActions(house, func) + [Dispatch(false, PlHouse(house, func))]
                 && ReadWire(wire) == WireFunc(house, func)
  {
    HouseTableInverts(house);
    var code := Pack(X10_HOUSE_CODE[house], func as byte);
    if func == FUNC_DIM || func == FUNC_BRIGHT {
      shown, wire := PlTxDim(code, DimBits(param) | 0x01, 0x06 | DimBits(param));
      DimRoundTrip(house, func, param);
      DimOnTheWire(house, func, param);
    } else {
      shown, wire := PlTxPlain(code);
      FuncRoundTrip(house, func);
      FuncOnTheWire(house, func);
    }
  }

  method PlTxPlain(houseFunc: byte) returns (shown: seq<byte>, wire: seq<byte>)
    ensures shown == [0x00, 0x02, 0x01, houseFunc] && wire == [0x06, houseFunc]
  {
    var buf := new byte[7](_ => 0);
    buf[0], buf[1], buf[2], buf[3] := 0x00, 0x02, 0x01, houseFunc;
    shown := buf[..4];
    buf[2] := 0x06;
    wire := buf[2..4];
  }

  /** Dim and bright swap the last two bytes and replace the level byte. */
  method PlTxDim(houseFunc: byte, shownLevel: byte, wireLevel: byte) returns (shown: seq<byte>, wire: seq<byte>)
    ensures shown == [0x00, 0x03, 0x02, shownLevel, houseFunc] && wire == [0x06, houseFunc, wireLevel]
  {
    var buf := new byte[7](_ => 0);
    buf[0], buf[1], buf[2], buf[3], buf[4] := 0x00, 0x03, 0x02, shownLevel, houseFunc;
    shown := buf[..5];
    buf[2] := 0x06;
    buf[3] := buf[4];
    buf[4] := wireLevel;
    wire := buf[2..5];
  }

  /** A CM19A is sent the frame without its marker byte. */
  function RfWire(cm19a: bool, frame: seq<byte>): seq<byte>
    requires frame != []
  {
    if cm19a then frame[1..] else frame
  }

  method RfTxHouseUnitFunc(cm19a: bool, house: int, unit: int, func: int)
    returns (ok: bool, shown: seq<byte>, wire: seq<byte>)
    requires IsHouse(house) && -1 <= unit < 16
    ensures ok <==> RfFrame(house, unit, func).Some?
    ensures ok ==> shown == RfFrame(house, unit, func).value && wire == RfWire(cm19a, shown)
  {
    HouseTableRfInverts(house);
    var u: byte := if unit < 0 then 0xff else unit as byte;
    var first := FirstRfByte(X10_HOUSE_CODE_RF[house], u);
    var second: byte := 0;
    shown, wire := [], [];
    if func == FUNC_OFF || func == FUNC_ON {
      if func == FUNC_OFF { second := 0x20; }
      if unit < 0 { return false, shown, wire; }
      second := second | SpreadUnit(u);
      OrZero(SpreadUnit(u));
    } else if func == FUNC_DIM {
      second := 0x98;
    } else if func == FUNC_BRIGHT {
      second := 0x88;
    } else {
      return false, shown, wire;
    }
    ok := true;
    shown, wire := FillRf(cm19a, first, second, !first, !second);
  }

  /** The check bytes are filled in last. */
  method FillRf(cm19a: bool, first: byte, second: byte, notFirst: byte, notSecond: byte)
    returns (shown: seq<byte>, wire: seq<byte>)
    ensures shown == [TX_MARKER, 0x20, first, notFirst, second, notSecond] && wire == RfWire(cm19a, shown)
  {
    var buf := new byte[6](_ => 0);
    buf[0], buf[1], buf[2], buf[4] := TX_MARKER, 0x20, first, second;
    buf[3] := notFirst;
    buf[5] := notSecond;
    shown := buf[..];
    wire := if cm19a then buf[1..] else buf[..];
  }

  lemma OrZero(b: byte)
    ensures 0 | b == b
  {
  }

  method RfSecTx(cm19a: bool, addr8: bool, address: int, func: byte) returns (shown: seq<byte>, wire: seq<byte>)
    requires 0 <= address < (if addr8 then 0x100 else 0x100_0000)
    ensures shown == if addr8 then ShortSecFrame(address as byte, func)
                     else LongSecFrame((address / 0x1_0000) as byte, (address / 0x100 % 0x100) as byte,
                                       (address % 0x100) as byte, func)
    ensures wire == RfWire(cm19a, shown)
  {
    if addr8 {
      var a := address as byte;
      shown, wire := FillRf(cm19a, a, func, a ^ 0x0f, !func);
    } else {
      var a0 := (address / 0x1_0000) as byte;
      shown, wire := FillLongSec(cm19a, a0, a0 ^ 0x0f, func, !func,
                                 (address / 0x100 % 0x100) as byte, (address % 0x100) as byte);
    }
  }

  method FillLongSec(cm19a: bool, a0: byte, check0: byte, func: byte, notFunc: byte, a1: byte, a2: byte)
    returns (shown: seq<byte>, wire: seq<byte>)
    ensures shown == [TX_MARKER, 0x29, a0, check0, func, notFunc, a1, a2] && wire == RfWire(cm19a, shown)
  {
    var buf := new byte[8](_ => 0);
    buf[0], buf[1], buf[2], buf[3] := TX_MARKER, 0x29, a0, check0;
    buf[4], buf[5], buf[6], buf[7] := func, notFunc, a1, a2;
    shown := buf[..];
    wire := if cm19a then buf[1..] else buf[..];
  }
}
