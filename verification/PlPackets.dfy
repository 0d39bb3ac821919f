/** The power line byte by byte: what each command writes and what each received packet means. */
module PlPackets {
  import opened Bytes
  import opened Wrappers
  import opened Codec
  import opened CommandText
  import opened CommandPath
  import opened CommandTheorems
  import opened CommandWords
  import opened SpelledCommands
  import opened Directions
  import opened DeviceState

  /** The four-bit codes of houses A to P, which are also those of units 1 to 16. */
  const CODES: seq<byte> :=
    [0x6, 0xE, 0x2, 0xA, 0x1, 0x9, 0x5, 0xD, 0x7, 0xF, 0x3, 0xB, 0x0, 0x8, 0x4, 0xC]

  const LETTERS := "ABCDEFGHIJKLMNOP"

  /** A unit as it is written, or nothing for the house alone. */
  const NUMBERS: seq<string> :=
    ["", "1", "2", "3", "4", "5", "6", "7", "8", "9", "10", "11", "12", "13", "14", "15", "16"]

  /** The text of an address: a letter, and the number of a unit. */
  lemma AddressesAreWritten(house: int, unit: int)
    requires IsHouse(house) && 0 <= unit <= 16
    ensures AddrText(house, unit) == [LETTERS[house]] + NUMBERS[unit]
  {
    if 10 <= unit { assert Decimal(unit) == Decimal(1) + [Digit(unit - 10)]; }
  }

  lemma TableSizes()
    ensures |LETTERS| == 16 && |NUMBERS| == 17 && |CODES| == 16 && |FUNC_WORDS| == 16
  {
  }

  /** A code in the high half of a byte and another in the low half. */
  function Halves(high: byte, low: byte): byte { high * 16 + low }

  lemma HalvesPack(high: byte, low: byte)
    requires high < 16 && low < 16
    ensures Pack(high, low) == Halves(high, low)
    ensures High(Halves(high, low)) == high && Low(Halves(high, low)) == low
  {
  }

  lemma CodesOf(h: int)
    requires IsHouse(h)
    ensures CODES[h] < 16 && X10_HOUSE_CODE[h] == CODES[h] && HouseOf(CODES[h]) == h
  {
    HouseTableInverts(h);
  }

  lemma AddressBytes(house: int, unit: int)
    requires IsHouse(house) && IsHouse(unit)
    ensures AddressWire(house, unit) == [0x04, Halves(CODES[house], CODES[unit])]
  {
    CodesOf(house);
    CodesOf(unit);
    HalvesPack(CODES[house], CODES[unit]);
  }

  lemma FuncBytes(house: int, func: int)
    requires IsHouse(house) && 0 <= func < 16
    ensures FuncWire(house, func) == [0x06, Halves(CODES[house], func as byte)]
  {
    CodesOf(house);
    ByteValue(func);
    HalvesPack(CODES[house], func as byte);
  }

  lemma DimBytes(house: int, func: int, level: int)
    requires IsHouse(house) && func in {FUNC_DIM, FUNC_BRIGHT} && 0 <= level < 256
    ensures DimWire(house, func, level) == [0x06, Halves(CODES[house], func as byte), (level as byte & 0x1f) * 8 + 6]
  {
    CodesOf(house);
    HalvesPack(CODES[house], func as byte);
    ShiftedLevel(level as byte & 0x1f);
  }

  lemma ShiftedLevel(d: byte)
    requires d < 32
    ensures 0x06 | (d << 3) == d * 8 + 6
  {
  }

  lemma ExtendedBytes(house: int, unit: int, command: int, subcommand: int, data: int)
    requires IsHouse(house) && IsHouse(unit) && 0 <= command < 256 && 0 <= subcommand < 256 && 0 <= data < 256
    ensures ExtendedWire(house, unit, command, subcommand, data)
         == [0x07, Halves(CODES[house], 7), CODES[unit], data as byte,
             Halves(command as byte & 0x0f, subcommand as byte & 0x0f)]
  {
    CodesOf(house);
    CodesOf(unit);
    HalvesPack(CODES[house], 7);
    HalvesPack(command as byte & 0x0f, subcommand as byte & 0x0f);
  }

  // ---- what a command writes ----

  /** The packets of a command, byte by byte. */
  function BytesOf(c: PlCommand): seq<seq<byte>>
    requires c.Proper()
  {
    var code := CODES[c.house];
    match c
    case SelectUnit(_, unit) => [[0x04, Halves(code, CODES[unit])]]
    case HouseFunc(_, func) => [[0x06, Halves(code, func as byte)]]
    case UnitFunc(_, unit, func) => [[0x04, Halves(code, CODES[unit])], [0x06, Halves(code, func as byte)]]
    case HouseDim(_, func, level) => [[0x06, Halves(code, func as byte), (level as byte & 0x1f) * 8 + 6]]
    case UnitDim(_, unit, func, level) =>
      [[0x04, Halves(code, CODES[unit])], [0x06, Halves(code, func as byte), (level as byte & 0x1f) * 8 + 6]]
    case Extended(_, unit, command, subcommand, data) =>
      [[0x07, Halves(code, 7), CODES[unit], data as byte, Halves(command as byte & 0x0f, subcommand as byte & 0x0f)]]
  }

  lemma OneTransmit(acts: seq<Action>, packet: seq<byte>)
    requires Wires(acts) == []
    ensures Wires(acts + [Transmit(packet)]) == [packet]
  {
    WiresAppend(acts, [Transmit(packet)]);
    OnePart(Transmit(packet));
  }

  lemma AddressIsSent(house: int, unit: int)
    requires IsHouse(house) && IsHouse(unit)
    ensures Wires(SendAddress(house, unit)) == [AddressWire(house, unit)]
  {
    AddressRoundTrip(house, unit);
    var table, event := Device(Address(house, unit)), Dispatch(false, PlAddress(house, unit + 1));
    ThreeParts(table, event, Transmit(AddressWire(house, unit)));
    assert SendAddress(house, unit) == [table, event, Transmit(AddressWire(house, unit))];
  }

  lemma FuncIsSent(house: int, func: int, level: int)
    requires IsHouse(house) && 0 <= func < 16 && 0 <= level < 256
    ensures Wires(SendFunc(house, func, level))
         == [if func in {FUNC_DIM, FUNC_BRIGHT} then DimWire(house, func, level) else FuncWire(house, func)]
  {
    hide Wires, FuncActions, DimFrame, DimWire, FuncFrame, FuncWire, DecodePlc;
    if func in {FUNC_DIM, FUNC_BRIGHT} {
      DimRoundTrip(house, func, level);
      OnePart(Dispatch(false, PlLevel(house, func, level % 32)));
      OneTransmit([Dispatch(false, PlLevel(house, func, level % 32))], DimWire(house, func, level));
    } else {
      FuncRoundTrip(house, func);
      FuncActionParts(house, func);
      OnePart(Dispatch(false, PlHouse(house, func)));
      WiresAppend(FuncActions(house, func), [Dispatch(false, PlHouse(house, func))]);
      OneTransmit(FuncActions(house, func) + [Dispatch(false, PlHouse(house, func))], FuncWire(house, func));
    }
  }

  lemma ExtendedIsSent(house: int, unit: int, command: int, subcommand: int, data: int)
    requires Extended(house, unit, command, subcommand, data).Proper()
    ensures Wires(PerformPl(Extended(house, unit, command, subcommand, data)))
         == [ExtendedWire(house, unit, command, subcommand, data)]
  {
    hide Wires, ExtendedFrame, ExtendedWire, DecodePlc, Pack;
    ExtendedRoundTrip(house, unit, command, subcommand, data);
    var event := PlExtended(house, unit + 1, FUNC_EXTENDED_CODE_1, data as byte, CommandByte(command, subcommand));
    var shown := [Dispatch(false, event), Device(Xdim(house, unit, data as byte))];
    PartsAppend([shown[0]], [shown[1]]);
    OnePart(shown[0]);
    OnePart(shown[1]);
    assert shown == [shown[0]] + [shown[1]];
    OneTransmit(shown, ExtendedWire(house, unit, command, subcommand, data));
  }

  /** Every power-line command writes exactly these bytes. */
  lemma PlCommandBytes(c: PlCommand)
    requires c.Proper()
    ensures Wires(PerformPl(c)) == BytesOf(c)
  {
    hide Wires, SendAddress, SendFunc, AddressWire, FuncWire, DimWire, ExtendedWire, Halves;
    match c
    case SelectUnit(house, unit) =>
      AddressIsSent(house, unit);
      AddressBytes(house, unit);
    case HouseFunc(house, func) =>
      FuncIsSent(house, func, 0);
      FuncBytes(house, func);
    case UnitFunc(house, unit, func) =>
      WiresAppend(SendAddress(house, unit), SendFunc(house, func, 0));
      AddressIsSent(house, unit);
      AddressBytes(house, unit);
      FuncIsSent(house, func, 0);
      FuncBytes(house, func);
    case HouseDim(house, func, level) =>
      FuncIsSent(house, func, level);
      DimBytes(house, func, level);
    case UnitDim(house, unit, func, level) =>
      WiresAppend(SendAddress(house, unit), SendFunc(house, func, level));
      AddressIsSent(house, unit);
      AddressBytes(house, unit);
      FuncIsSent(house, func, level);
      DimBytes(house, func, level);
    case Extended(house, unit, command, subcommand, data) =>
      ExtendedIsSent(house, unit, command, subcommand, data);
      ExtendedBytes(house, unit, command, subcommand, data);
  }

  /** So does the line that spells it. */
  lemma PlLineBytes(cfg: Config, dup: bool, or20: bool, line: string)
    requires IsPlLine(line)
    ensures var parsed := ParsePl(Tokens(line)[1..]);
            Wires(ProcessLine(cfg, dup, or20, line)) == if parsed.Parsed? then BytesOf(parsed.command) else []
  {
    hide Wires, BytesOf, PerformPl, Tokens, Upper;
    var args := Tokens(line)[1..];
    var ok: seq<Action> := if or20 then [Reply] else [];
    assert ProcessLine(cfg, dup, or20, line) == ok + PlActions(args);
    RepliesAreSilent([]);
    match ParsePl(args)
    case NotACommand => SilentAround(ok, [], []);
    case Parsed(c, checked, rest) =>
      PlCommandBytes(c);
      RepliesAreSilent(rest);
      SilentAround(ok, PerformPl(c), if checked then CheckEnd(rest) else []);
  }

  // ---- what each word does ----

  /** What a function by its number does to the tables. */
  function Recorded(house: int, n: int): History {
    if n == 0 || n == 6 then [AllFunc(house, false)]
    else if n == 1 then [AllFunc(house, true)]
    else if n == 2 || n == 13 then [Func(house, true)]
    else if n == 3 || n == 14 then [Func(house, false)]
    else []
  }

  lemma RecordedIsFuncLog(house: int, n: int)
    ensures FuncLog(house, n) == Recorded(house, n)
  {
  }

  /** The words spell this command, or none, and leave these unread. */
  lemma LineActs(cfg: Config, dup: bool, or20: bool, tokens: seq<string>, blanks: seq<string>, words: seq<string>)
    requires 2 <= |tokens| <= 16 && tokens[0] == "PL" && Separates(blanks, words) && UpperAll(words) == tokens
    ensures var acts := ProcessLine(cfg, dup, or20, Spell(blanks, words));
            match ParsePl(tokens[1..])
            case NotACommand => Silent(acts)
            case Parsed(c, _, _) =>
              && Events(acts) == EventsOf(c) && TableLog(acts) == LogOf(c) && Wires(acts) == BytesOf(c)
              && Changes(acts) == []
  {
    hide Separates, ProcessLine, ParsePl, Tokens, Upper, UpperAll, BytesOf, EventsOf, LogOf, MeaningsOf, Meanings,
         Events, TableLog, Wires, Changes;
    SpelledTokens(blanks, words, tokens);
    PlLineRoundTrip(cfg, dup, or20, Spell(blanks, words));
    PlLineBytes(cfg, dup, or20, Spell(blanks, words));
  }

  /** A number less than sixteen is read as the function word of that number, after a house or a unit. */
  lemma AddressAndWord(house: int, unit: int, n: int, rest: seq<string>)
    requires IsHouse(house) && 0 <= unit <= 16 && 0 <= n < 16
    ensures var args := ["PL", [LETTERS[house]] + NUMBERS[unit], FUNC_WORDS[n]] + rest;
            && |args| == 3 + |rest| && args[0] == "PL"
            && GetDeviceAddr(args[1..]) == Some(DeviceAddr(house, unit - 1))
            && GetFunc(Rest(args[1..])) == n && Rest(Rest(args[1..])) == rest
  {
    hide AddrText, GetDeviceAddr, GetFunc, LETTERS, NUMBERS;
    TableSizes();
    var args := ["PL", [LETTERS[house]] + NUMBERS[unit], FUNC_WORDS[n]] + rest;
    AddressesAreWritten(house, unit);
    AddrParses(house, unit, [FUNC_WORDS[n]] + rest);
    FuncWordsExactly("", rest);
    assert args[1..] == [AddrText(house, unit)] + ([FUNC_WORDS[n]] + rest) by {
      hide FUNC_WORDS;
      assert args == ["PL"] + ([AddrText(house, unit)] + ([FUNC_WORDS[n]] + rest));
    }
    assert Rest(args[1..]) == [FUNC_WORDS[n]] + rest;
  }

  /**
   Each function word but DIM and BRIGHT, after a house or a unit and in any case and with any blanks, sends,
   announces and records the function of its number, whatever words follow it.
   */
  lemma FunctionWordsAct(cfg: Config, dup: bool, or20: bool, house: int, unit: int, n: int, extra: seq<string>,
                         blanks: seq<string>, words: seq<string>)
    requires IsHouse(house) && 0 <= unit <= 16 && 0 <= n < 16 && n !in {4, 5} && (unit > 0 ==> n != 7)
    requires Separates(blanks, words) && |extra| <= 13
    requires UpperAll(words) == ["PL", [LETTERS[house]] + NUMBERS[unit], FUNC_WORDS[n]] + extra
    ensures var acts := ProcessLine(cfg, dup, or20, Spell(blanks, words));
            if unit == 0 then
              && Events(acts) == [PlHouse(house, n)] && TableLog(acts) == Recorded(house, n)
              && Wires(acts) == [[0x06, Halves(CODES[house], n as byte)]] && Changes(acts) == []
            else
              && Events(acts) == [PlAddress(house, unit), PlHouse(house, n)]
              && TableLog(acts) == [Address(house, unit - 1)] + Recorded(house, n)
              && Wires(acts) == [[0x04, Halves(CODES[house], CODES[unit - 1])], [0x06, Halves(CODES[house], n as byte)]]
              && Changes(acts) == []
  {
    hide Separates, ProcessLine, UpperAll, Wires, Events, TableLog, Changes, Halves, Recorded, FuncLog, GetDeviceAddr,
         GetFunc, LETTERS, NUMBERS, FUNC_WORDS, CODES;
    TableSizes();
    var tokens := ["PL", [LETTERS[house]] + NUMBERS[unit], FUNC_WORDS[n]] + extra;
    AddressAndWord(house, unit, n, extra);
    LineActs(cfg, dup, or20, tokens, blanks, words);
    RecordedIsFuncLog(house, n);
    var c := if unit == 0 then HouseFunc(house, n) else UnitFunc(house, unit - 1, n);
    assert ParsePl(tokens[1..]) == Parsed(c, true, extra);
  }

  /** DIM and BRIGHT with a level from 0 to 255 do the same by that level modulo 32; a house alone sends no unit. */
  lemma LevelWordsAct(cfg: Config, dup: bool, or20: bool, house: int, unit: int, bright: bool, level: int,
                      params: seq<string>, blanks: seq<string>, words: seq<string>)
    requires IsHouse(house) && 0 <= unit <= 16 && 0 <= level < 256
    requires (params == [] && level == 1) || params == [Decimal(level)]
    requires Separates(blanks, words)
    requires UpperAll(words) == ["PL", [LETTERS[house]] + NUMBERS[unit], if bright then "BRIGHT" else "DIM"] + params
    ensures var acts, n := ProcessLine(cfg, dup, or20, Spell(blanks, words)), if bright then 5 else 4;
            var packet := [0x06, Halves(CODES[house], n as byte), (level as byte & 0x1f) * 8 + 6];
            if unit == 0 then
              && Events(acts) == [PlLevel(house, n, level % 32)] && TableLog(acts) == []
              && Wires(acts) == [packet] && Changes(acts) == []
            else
              && Events(acts) == [PlAddress(house, unit), PlLevel(house, n, level % 32)]
              && TableLog(acts) == [Address(house, unit - 1)]
              && Wires(acts) == [[0x04, Halves(CODES[house], CODES[unit - 1])], packet] && Changes(acts) == []
  {
    hide Separates, ProcessLine, UpperAll, Wires, Events, TableLog, Changes, Halves, GetDeviceAddr, GetFunc, GetParam,
         Decimal, LETTERS, NUMBERS, FUNC_WORDS, CODES;
    TableSizes();
    var n := if bright then 5 else 4;
    LevelWords();
    var tokens := ["PL", [LETTERS[house]] + NUMBERS[unit], FUNC_WORDS[n]] + params;
    AddressAndWord(house, unit, n, params);
    LineActs(cfg, dup, or20, tokens, blanks, words);
    if params == [] { NoParam(1); } else { ParamParses(level, 1, []); }
    var c := if unit == 0 then HouseDim(house, n, level) else UnitDim(house, unit - 1, n, level);
    assert ParsePl(tokens[1..]) == Parsed(c, true, []);
  }

  lemma LevelWords()
    ensures |FUNC_WORDS| == 16 && FUNC_WORDS[4] == "DIM" && FUNC_WORDS[5] == "BRIGHT"
  {
  }

  /** A unit alone, or with a word that is no function, is selected; a house alone or with such a word does nothing. */
  lemma OtherWordsSelect(cfg: Config, dup: bool, or20: bool, house: int, unit: int, rest: seq<string>,
                         blanks: seq<string>, words: seq<string>)
    requires IsHouse(house) && 0 <= unit <= 16 && |rest| <= 14
    requires rest == [] || (rest[0] !in FUNC_WORDS && (unit > 0 ==> rest[0] != "XDIM"))
    requires Separates(blanks, words) && UpperAll(words) == ["PL", [LETTERS[house]] + NUMBERS[unit]] + rest
    ensures var acts := ProcessLine(cfg, dup, or20, Spell(blanks, words));
            if unit == 0 then Silent(acts)
            else
              && Events(acts) == [PlAddress(house, unit)] && TableLog(acts) == [Address(house, unit - 1)]
              && Wires(acts) == [[0x04, Halves(CODES[house], CODES[unit - 1])]] && Changes(acts) == []
  {
    hide Separates, ProcessLine, UpperAll, Wires, Events, TableLog, Changes, Halves, GetDeviceAddr, GetFunc, LETTERS,
         NUMBERS, FUNC_WORDS, CODES, Silent;
    TableSizes();
    var tokens := ["PL", [LETTERS[house]] + NUMBERS[unit]] + rest;
    AddressAndNoWord(house, unit, rest);
    LineActs(cfg, dup, or20, tokens, blanks, words);
    assert ParsePl(tokens[1..]) == if unit == 0 then NotACommand else Parsed(SelectUnit(house, unit - 1), false, []);
  }

  lemma AddressAndNoWord(house: int, unit: int, rest: seq<string>)
    requires IsHouse(house) && 0 <= unit <= 16
    requires rest == [] || (rest[0] !in FUNC_WORDS && (unit > 0 ==> rest[0] != "XDIM"))
    ensures var args := ["PL", [LETTERS[house]] + NUMBERS[unit]] + rest;
            && |args| == 2 + |rest| && args[0] == "PL"
            && GetDeviceAddr(args[1..]) == Some(DeviceAddr(house, unit - 1))
            && (GetFunc(Rest(args[1..])) == -1 || (unit == 0 && GetFunc(Rest(args[1..])) == 16))
  {
    hide AddrText, GetDeviceAddr, GetFunc, LETTERS, NUMBERS, FUNC_WORDS;
    TableSizes();
    var args := ["PL", [LETTERS[house]] + NUMBERS[unit]] + rest;
    AddressesAreWritten(house, unit);
    AddrParses(house, unit, rest);
    assert args[1..] == [AddrText(house, unit)] + rest && Rest(args[1..]) == rest;
    NoFunc();
    if rest != [] {
      FuncWordsExactly(rest[0], rest[1..]);
      assert rest == [rest[0]] + rest[1..];
    }
  }

  /**
   EXTENDED_CODE_1 sends its command, subcommand and data, and XDIM a level as command 3, subcommand 1; both are
   announced as extended code 1 and recorded as the unit's level.
   */
  lemma ExtendedWordsAct(cfg: Config, dup: bool, or20: bool, house: int, unit: int, xdim: bool,
                         command: int, subcommand: int, data: int, blanks: seq<string>, words: seq<string>)
    requires IsHouse(house) && 1 <= unit <= 16 && (xdim ==> command == 3 && subcommand == 1)
    requires 0 <= command < 256 && 0 <= subcommand < 256 && 0 <= data < 256 && Separates(blanks, words)
    requires var addr := [LETTERS[house]] + NUMBERS[unit];
             UpperAll(words)
             == if xdim then ["PL", addr, "XDIM", Decimal(data)]
                else ["PL", addr, "EXTENDED_CODE_1", Decimal(command), Decimal(subcommand), Decimal(data)]
    ensures var acts := ProcessLine(cfg, dup, or20, Spell(blanks, words));
            var nibbles := Halves(command as byte & 0x0f, subcommand as byte & 0x0f);
            && Events(acts) == [PlExtended(house, unit, 7, data as byte, nibbles)]
            && TableLog(acts) == [Xdim(house, unit - 1, data as byte)] && Changes(acts) == []
            && Wires(acts) == [[0x07, Halves(CODES[house], 7), CODES[unit - 1], data as byte, nibbles]]
  {
    hide Separates, ProcessLine, UpperAll, Wires, Events, TableLog, Changes, Halves, Pack, ParsePl, Decimal, LETTERS,
         NUMBERS, CODES, EventsOf, LogOf, BytesOf;
    TableSizes();
    var c, addr := Extended(house, unit - 1, command, subcommand, data), [LETTERS[house]] + NUMBERS[unit];
    ExtendedWordsParse(house, unit, xdim, command, subcommand, data);
    var tokens := if xdim then ["PL", addr, "XDIM", Decimal(data)]
                  else ["PL", addr, "EXTENDED_CODE_1", Decimal(command), Decimal(subcommand), Decimal(data)];
    LineActs(cfg, dup, or20, tokens, blanks, words);
    ExtendedDoes(c);
  }

  lemma ExtendedDoes(c: PlCommand)
    requires c.Extended? && c.Proper()
    ensures var nibbles := Halves(c.command as byte & 0x0f, c.subcommand as byte & 0x0f);
            && EventsOf(c) == [PlExtended(c.house, c.unit + 1, 7, c.data as byte, nibbles)]
            && LogOf(c) == [Xdim(c.house, c.unit, c.data as byte)]
            && BytesOf(c) == [[0x07, Halves(CODES[c.house], 7), CODES[c.unit], c.data as byte, nibbles]]
  {
    hide Halves, Pack, CODES;
    HalvesPack(c.command as byte & 0x0f, c.subcommand as byte & 0x0f);
  }

  lemma ExtendedWordsParse(house: int, unit: int, xdim: bool, command: int, subcommand: int, data: int)
    requires IsHouse(house) && 1 <= unit <= 16 && (xdim ==> command == 3 && subcommand == 1)
    requires 0 <= command < 256 && 0 <= subcommand < 256 && 0 <= data < 256
    ensures var addr := [LETTERS[house]] + NUMBERS[unit];
            var tokens := if xdim then ["PL", addr, "XDIM", Decimal(data)]
                          else ["PL", addr, "EXTENDED_CODE_1", Decimal(command), Decimal(subcommand), Decimal(data)];
            ParsePl(tokens[1..]) == Parsed(Extended(house, unit - 1, command, subcommand, data), true, [])
  {
    hide ParsePl, Decimal, LETTERS, NUMBERS, AddrText;
    AddressesAreWritten(house, unit);
    TableSizes();
    var c, addr := Extended(house, unit - 1, command, subcommand, data), [LETTERS[house]] + NUMBERS[unit];
    if xdim {
      XdimParses(house, unit, [Decimal(data)], data);
      assert ["PL", addr, "XDIM", Decimal(data)][1..] == [addr, "XDIM"] + [Decimal(data)];
    } else {
      RenderParses(c);
      RenderedExtended(c);
    }
  }

  lemma RenderedExtended(c: PlCommand)
    requires c.Extended? && c.Proper()
    ensures Render(c) == ["PL", AddrText(c.house, c.unit + 1), "EXTENDED_CODE_1",
                          Decimal(c.command), Decimal(c.subcommand), Decimal(c.data)]
  {
  }

  // ---- what a received packet means ----

  /** What the decoder is handed: the 8-byte input buffer, of which `len` bytes came. */
  predicate Incoming(buf: seq<byte>, len: int, scratch: seq<byte>, clock: seq<byte>) {
    |buf| == 8 && 0 <= len <= 8 && |scratch| == 9 && |clock| == 8
  }

  /** 5A 02 00 selects and announces the unit of its codes. */
  lemma AddressPacket(cfg: Config, dup: bool, buf: seq<byte>, len: int, scratch: seq<byte>, clock: seq<byte>,
                      house: int, unit: int)
    requires !cfg.cm19a && Incoming(buf, len, scratch, clock) && len >= 4 && IsHouse(house) && IsHouse(unit)
    requires buf[..4] == [0x5a, 0x02, 0x00, Halves(CODES[house], CODES[unit])]
    ensures DecodePacket(cfg, dup, buf, len, scratch, clock)
         == [Device(Address(house, unit)), Dispatch(true, PlAddress(house, unit + 1))]
  {
    CodesOf(house);
    CodesOf(unit);
    HalvesPack(CODES[house], CODES[unit]);
    FirstFour(buf, [0x5a, 0x02, 0x00, Halves(CODES[house], CODES[unit])]);
  }

  lemma FirstFour(buf: seq<byte>, start: seq<byte>)
    requires |buf| >= 4 == |start| && buf[..4] == start
    ensures buf[0] == start[0] && buf[1] == start[1] && buf[2] == start[2] && buf[3] == start[3]
  {
  }

  /** 5A 02 01 records and announces the function of its number. */
  lemma FunctionPacket(cfg: Config, dup: bool, buf: seq<byte>, len: int, scratch: seq<byte>, clock: seq<byte>,
                       house: int, n: byte)
    requires !cfg.cm19a && Incoming(buf, len, scratch, clock) && len >= 4 && IsHouse(house) && n < 16
    requires buf[..4] == [0x5a, 0x02, 0x01, Halves(CODES[house], n)]
    ensures var acts := DecodePacket(cfg, dup, buf, len, scratch, clock);
            && Announcements(acts) == [Announcement(true, PlHouse(house, n as int))]
            && TableLog(acts) == Recorded(house, n as int) && Wires(acts) == [] && Changes(acts) == []
  {
    hide Halves, FuncActions, Recorded, FuncLog, Wires, TableLog, Changes, Announcements, Events;
    CodesOf(house);
    HalvesPack(CODES[house], n);
    FirstFour(buf, [0x5a, 0x02, 0x01, Halves(CODES[house], n)]);
    FuncActionParts(house, n as int);
    RecordedIsFuncLog(house, n as int);
    var event := Dispatch(true, PlHouse(house, n as int));
    assert DecodePacket(cfg, dup, buf, len, scratch, clock) == FuncActions(house, n as int) + [event];
    PartsAppend(FuncActions(house, n as int), [event]);
    OnePart(event);
    FuncAnnounces(true, house, n as int);
  }

  /** 5A 03 02 announces a dim or bright by its level; it is not recorded. */
  lemma LevelPacket(cfg: Config, dup: bool, buf: seq<byte>, len: int, scratch: seq<byte>, clock: seq<byte>,
                    house: int, n: byte, level: byte, low: byte)
    requires !cfg.cm19a && Incoming(buf, len, scratch, clock) && len >= 4 && IsHouse(house) && n < 16
    requires level < 32 && low < 8
    requires buf[..4] == [0x5a, 0x03, 0x02, level * 8 + low] && buf[4] == Halves(CODES[house], n)
    ensures DecodePacket(cfg, dup, buf, len, scratch, clock)
         == [Dispatch(true, PlLevel(house, n as int, level as int))]
  {
    hide Halves;
    CodesOf(house);
    HalvesPack(CODES[house], n);
    FirstFour(buf, [0x5a, 0x03, 0x02, level * 8 + low]);
    UpperFive(level, low);
  }

  lemma UpperFive(level: byte, low: byte)
    requires level < 32 && low < 8
    ensures ((level * 8 + low) & 0xf8) >> 3 == level
  {
  }

  /** Seven bytes 5A xx 07, and the same four bytes back to front after 5A xx 08, announce and record a level. */
  lemma ExtendedPacket(cfg: Config, dup: bool, buf: seq<byte>, scratch: seq<byte>, clock: seq<byte>,
                       house: int, n: byte, unit: int, high: byte, data: byte, command: byte)
    requires !cfg.cm19a && Incoming(buf, 7, scratch, clock) && IsHouse(house) && n < 16 && IsHouse(unit) && high < 16
    requires var four := [Halves(CODES[house], n), Halves(high, CODES[unit]), data, command];
             && buf[0] == 0x5a
             && (buf[2..7] == [0x07] + four || buf[2..7] == [0x08, four[3], four[2], four[1], four[0]])
    ensures DecodePacket(cfg, dup, buf, 7, scratch, clock)
         == [Dispatch(true, PlExtended(house, unit + 1, n as int, data, command)), Device(Xdim(house, unit, data))]
  {
    hide Halves, ExtendedActions, CODES;
    ExtendedIs(house, n, unit, high, data, command);
    FiveBytes(buf);
  }

  lemma FiveBytes(buf: seq<byte>)
    requires |buf| == 8
    ensures buf[2..7] == [buf[2], buf[3], buf[4], buf[5], buf[6]]
  {
  }

  lemma ExtendedIs(house: int, n: byte, unit: int, high: byte, data: byte, command: byte)
    requires IsHouse(house) && n < 16 && IsHouse(unit) && high < 16
    ensures ExtendedActions(true, Halves(CODES[house], n), Halves(high, CODES[unit]), data, command)
         == [Dispatch(true, PlExtended(house, unit + 1, n as int, data, command)), Device(Xdim(house, unit, data))]
  {
    hide Halves;
    CodesOf(house);
    CodesOf(unit);
    HalvesPack(CODES[house], n);
    HalvesPack(high, CODES[unit]);
  }

  /** A clock request is answered, and no other packet but these and those of the RF decoder does anything. */
  lemma OtherPackets(cfg: Config, dup: bool, buf: seq<byte>, len: int, scratch: seq<byte>, clock: seq<byte>)
    requires !cfg.cm19a && Incoming(buf, len, scratch, clock)
    ensures len >= 4 && buf[0] == 0xa5 ==> DecodePacket(cfg, dup, buf, len, scratch, clock) == [Transmit(clock)]
    ensures len < 4 || buf[0] !in {0xa5, 0x5a, 0x5d} ==> DecodePacket(cfg, dup, buf, len, scratch, clock) == []
    ensures len >= 4 && buf[0] == 0x5a ==>
              (DecodePacket(cfg, dup, buf, len, scratch, clock) == []
               <==> match buf[2]
                    case 0x00 => buf[1] != 2
                    case 0x01 => buf[1] != 2
                    case 0x02 => buf[1] != 3
                    case 0x07 => len != 7
                    case 0x08 => len != 7
                    case _ => true)
  {
    hide DecodeRf, HouseOf, FuncActions;
  }
}
