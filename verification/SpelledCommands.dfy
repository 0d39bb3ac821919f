/** Every power-line command can be spelled, and every way of spelling it means the same. */
module SpelledCommands {
  import opened Bytes
  import opened Wrappers
  import opened Codec
  import opened CommandText
  import opened CommandPath
  import opened CommandTheorems

  // ---- lines as blanks and words ----

  /** The words with the given blanks before, between and after them. */
  function Spell(blanks: seq<string>, words: seq<string>): string
    requires |blanks| == |words| + 1
  {
    if words == [] then blanks[0] else blanks[0] + (words[0] + Spell(blanks[1..], words[1..]))
  }

  /** Only the outermost blanks may be empty. */
  ghost predicate Separates(blanks: seq<string>, words: seq<string>): (b: bool)
    ensures b ==> |blanks| == |words| + 1
  {
    && |blanks| == |words| + 1
    && (forall i | 0 <= i < |blanks| :: IsBlank(blanks[i]))
    && (forall i | 0 < i < |words| :: blanks[i] != [])
    && (forall i | 0 <= i < |words| :: IsWord(words[i]))
  }

  lemma {:induction false} LeadingBlanks(blank: string, s: string)
    requires IsBlank(blank)
    ensures Words(blank + s) == Words(s)
  {
    if blank == [] {
      assert blank + s == s;
    } else {
      LeadingBlanks(blank[1..], s);
      SkipBlank(blank[0], blank[1..] + s);
      assert blank + s == [blank[0]] + (blank[1..] + s);
    }
  }

  lemma {:induction false} SpelledWords(blanks: seq<string>, words: seq<string>)
    requires Separates(blanks, words)
    ensures Words(Spell(blanks, words)) == words
  {
    if words == [] {
      BlankHasNoWords(blanks[0]);
    } else {
      var rest := Spell(blanks[1..], words[1..]);
      SpelledWords(blanks[1..], words[1..]);
      LeadingWord(words[0], rest);
      LeadingBlanks(blanks[0], words[0] + rest);
    }
  }

  lemma BlankInFront(c: char, blanks: seq<string>, words: seq<string>)
    requires IsSpace(c) && Separates(blanks, words)
    ensures var more := [[c] + blanks[0]] + blanks[1..];
            Separates(more, words) && Spell(more, words) == [c] + Spell(blanks, words)
  {
    var more := [[c] + blanks[0]] + blanks[1..];
    assert more[1..] == blanks[1..];
  }

  lemma WordInFront(w: string, blanks: seq<string>, words: seq<string>)
    requires IsWord(w) && Separates(blanks, words) && (words != [] ==> blanks[0] != [])
    ensures Separates([""] + blanks, [w] + words)
    ensures Spell([""] + blanks, [w] + words) == w + Spell(blanks, words)
  {
    assert ([""] + blanks)[1..] == blanks && ([w] + words)[1..] == words;
  }

  /** Conversely every line is its words and the blanks around them: the words are the maximal non-blank runs. */
  lemma {:induction false} EveryLineIsSpelled(s: string)
    ensures exists blanks :: Separates(blanks, Words(s)) && Spell(blanks, Words(s)) == s
    decreases |s|
  {
    hide Separates, Spell;
    if s == [] {
      EmptyLineIsSpelled();
    } else if IsSpace(s[0]) {
      EveryLineIsSpelled(s[1..]);
      var blanks :| Separates(blanks, Words(s)) && Spell(blanks, Words(s)) == s[1..];
      BlankInFront(s[0], blanks, Words(s));
      assert s == [s[0]] + s[1..];
    } else {
      var k := WordLength(s);
      var rest := Words(s[k..]);
      EveryLineIsSpelled(s[k..]);
      var blanks :| Separates(blanks, rest) && Spell(blanks, rest) == s[k..];
      HasFirstBlank(blanks, rest);
      WordInFront(s[..k], blanks, rest);
      assert Words(s) == [s[..k]] + rest && s == s[..k] + s[k..];
    }
  }

  lemma EmptyLineIsSpelled()
    ensures Separates([""], Words("")) && Spell([""], Words("")) == ""
  {
  }

  /** A line that starts with a blank or is empty has a first blank unless it has no words. */
  lemma HasFirstBlank(blanks: seq<string>, words: seq<string>)
    requires Separates(blanks, words)
    ensures var s := Spell(blanks, words); words != [] && s != [] && IsSpace(s[0]) ==> blanks[0] != []
  {
    if words != [] && blanks[0] == [] { assert Spell(blanks, words)[0] == words[0][0]; }
  }

  function UpperAll(words: seq<string>): (r: seq<string>)
    ensures |r| == |words| && forall i | 0 <= i < |words| :: r[i] == Upper(words[i])
  {
    seq(|words|, i requires 0 <= i < |words| => Upper(words[i]))
  }

  lemma {:induction false} UpperSpells(blanks: seq<string>, words: seq<string>)
    requires Separates(blanks, words)
    ensures Separates(blanks, UpperAll(words)) && Upper(Spell(blanks, words)) == Spell(blanks, UpperAll(words))
  {
    assert Upper(blanks[0]) == blanks[0];
    if words != [] {
      UpperSpells(blanks[1..], words[1..]);
      assert UpperAll(words)[1..] == UpperAll(words[1..]);
      UpperAppends(words[0], Spell(blanks[1..], words[1..]));
      UpperAppends(blanks[0], words[0] + Spell(blanks[1..], words[1..]));
    }
  }

  /**
   Neither the blanks nor the case of a line matter, except to the policy request, which is recognised only
   without blanks: lines with the same tokens act the same exactly when not just one of them is that request.
   */
  lemma SpellingMattersOnlyToThePolicy(cfg: Config, dup: bool, or20: bool, line: string, other: string)
    requires Tokens(line) == Tokens(other)
    ensures ProcessLine(cfg, dup, or20, line) == ProcessLine(cfg, dup, or20, other)
       <==> (Upper(line) == POLICY_REQUEST <==> Upper(other) == POLICY_REQUEST)
  {
    hide CommandActions, Upper, IsWord, Words;
    PolicyIsWord();
    SingleWord(POLICY_REQUEST);
    if Tokens(line) == [POLICY_REQUEST] {
      PolicyLine(cfg, dup, or20, line);
      PolicyLine(cfg, dup, or20, other);
    }
  }

  lemma PolicyLine(cfg: Config, dup: bool, or20: bool, line: string)
    requires Tokens(line) == [POLICY_REQUEST]
    ensures ProcessLine(cfg, dup, or20, line) == if Upper(line) == POLICY_REQUEST then [Reply] else []
  {
    hide CommandActions, Upper, Tokens;
    PolicyIsNoCommand(cfg, dup);
  }

  /** Among blanks the request is an unknown command. */
  lemma PolicyIsNoCommand(cfg: Config, dup: bool)
    ensures CommandActions(cfg, dup, [POLICY_REQUEST]) == [] && POLICY_REQUEST !in OK_COMMANDS
  {
    assert POLICY_REQUEST[0] == '<';
    assert forall c | c in OK_COMMANDS + DIAGNOSTICS + REPLY_ONLY :: c[0] != '<';
  }

  lemma PolicyIsWord()
    ensures IsWord(POLICY_REQUEST)
  {
  }

  /** A line of more than sixteen words is refused, the policy request answered and a blank line ignored. */
  lemma OddLines(cfg: Config, dup: bool, or20: bool, line: string)
    ensures Upper(line) == "<POLICY-FILE-REQUEST/>" || |Words(Upper(line))| > 16 ==>
              ProcessLine(cfg, dup, or20, line) == [Reply]
    ensures IsBlank(line) ==> ProcessLine(cfg, dup, or20, line) == []
  {
    hide CommandActions, Words;
    if IsBlank(line) {
      BlankHasNoWords(Upper(line));
      assert line != [] ==> Upper(line)[0] != '<';
    }
  }

  // ---- every command as text ----

  /** Extended code 1 on a unit is always sent with its three parameters. */
  predicate Expressible(c: PlCommand) { c.Proper() && !(c.UnitFunc? && c.func == FUNC_EXTENDED_CODE_1) }

  function Render(c: PlCommand): (words: seq<string>)
    requires c.Proper()
    ensures |words| > 0 && words[0] == "PL"
  {
    match c
    case SelectUnit(house, unit) => ["PL", AddrText(house, unit + 1)]
    case HouseFunc(house, func) => ["PL", AddrText(house, 0), FUNC_COMMANDS[func]]
    case UnitFunc(house, unit, func) => ["PL", AddrText(house, unit + 1), FUNC_COMMANDS[func]]
    case HouseDim(house, func, level) => ["PL", AddrText(house, 0), FUNC_COMMANDS[func], Decimal(level)]
    case UnitDim(house, unit, func, level) => ["PL", AddrText(house, unit + 1), FUNC_COMMANDS[func], Decimal(level)]
    case Extended(house, unit, command, subcommand, data) =>
      ["PL", AddrText(house, unit + 1), FUNC_COMMANDS[FUNC_EXTENDED_CODE_1],
       Decimal(command), Decimal(subcommand), Decimal(data)]
  }

  lemma FuncNamesDiffer(i: int, j: int)
    requires 0 <= i < j < |FUNC_COMMANDS|
    ensures FUNC_COMMANDS[i] != FUNC_COMMANDS[j]
  {
    var names := FUNC_COMMANDS;
    assert |names[0]| == 13 && |names[1]| == 13 && |names[2]| == 2 && |names[3]| == 3 && |names[4]| == 3;
    assert |names[5]| == 6 && |names[6]| == 14 && |names[7]| == 15 && |names[8]| == 12 && |names[9]| == 8;
    assert |names[10]| == 15 && |names[11]| == 6 && |names[12]| == 15 && |names[13]| == 9 && |names[14]| == 10;
    assert |names[15]| == 14 && |names[16]| == 4;
    assert names[0][4] == 'U' && names[1][4] == 'L' && names[3][0] == 'O' && names[4][0] == 'D';
    assert names[5][0] == 'B' && names[11][0] == 'U' && names[6][0] == 'A' && names[15][0] == 'S';
    assert names[7][14] == '1' && names[10][14] == '3' && names[12][14] == '2';
  }

  lemma FuncParses(func: int, rest: seq<string>)
    requires 0 <= func <= FUNC_EXTENDED_DIM
    ensures GetFunc([FUNC_COMMANDS[func]] + rest) == func
  {
    var i := IndexOf(FUNC_COMMANDS, FUNC_COMMANDS[func]);
    if 0 <= i < func { FuncNamesDiffer(i, func); }
  }

  lemma AddrParses(house: int, unit: int, rest: seq<string>)
    requires IsHouse(house) && 0 <= unit <= 16
    ensures GetDeviceAddr([AddrText(house, unit)] + rest) == Some(DeviceAddr(house, unit - 1))
  {
    if unit > 0 {
      ParseDecimalOf(unit, 1, 16);
      assert AddrText(house, unit)[1..] == Decimal(unit);
    }
  }

  /** A token that names a house, alone or with a unit from 1 to 16 under an optional sign, in three characters. */
  ghost predicate IsAddrSpelling(token: string, house: int, unit: int) {
    && IsHouse(house) && 1 <= |token| <= 3 && token[0] == ('A' as int + house) as char
    && if |token| == 1 then unit == -1 else 0 <= unit < 16 && Reads(token[1..], unit + 1)
  }

  /** Exactly those tokens are accepted as an address. */
  lemma AddrAcceptedExactly(token: string, rest: seq<string>, house: int, unit: int)
    ensures GetDeviceAddr([token] + rest) == Some(DeviceAddr(house, unit)) <==> IsAddrSpelling(token, house, unit)
  {
    hide Reads, ParseDecimalInt;
    if token != [] { ParseDecimalExactly(token[1..], 1, 16, unit + 1); }
  }

  /** So every spelling of a unit selects it, with a leading zero or a plus sign as without. */
  lemma SpellingsOfAUnit(house: int, unit: int, rest: seq<string>)
    requires IsHouse(house) && 0 <= unit < 9
    ensures var letter, digits := [('A' as int + house) as char], Decimal(unit + 1);
            forall token | token in [letter + digits, letter + "0" + digits, letter + "+" + digits] ::
              GetDeviceAddr([token] + rest) == Some(DeviceAddr(house, unit))
  {
    var letter, digits := [('A' as int + house) as char], Decimal(unit + 1);
    DecimalReads(unit + 1);
    LeadingZero(digits);
    assert (letter + digits)[1..] == digits && (letter + "0" + digits)[1..] == "0" + digits;
    assert (letter + "+" + digits)[1..] == "+" + digits;
    assert ReadsDigits(digits, unit + 1, digits) && ReadsDigits("0" + digits, unit + 1, "0" + digits);
    assert ReadsDigits("+" + digits, unit + 1, digits);
    AddrAcceptedExactly(letter + digits, rest, house, unit);
    AddrAcceptedExactly(letter + "0" + digits, rest, house, unit);
    AddrAcceptedExactly(letter + "+" + digits, rest, house, unit);
  }

  /** A parameter is the byte its token spells, and the default when there is no token or it spells none. */
  lemma ParamExactly(tokens: seq<string>, default: int, value: int)
    requires 0 <= default < 256
    ensures GetParam(tokens, default) == value
       <==> if tokens != [] && exists v | 0 <= v <= 255 :: Reads(tokens[0], v)
            then 0 <= value <= 255 && Reads(tokens[0], value) else value == default
  {
    hide Reads, ParseDecimalInt;
    if tokens != [] {
      forall v
        ensures ParseDecimalInt(tokens[0], 0, 255) == Some(v) <==> Reads(tokens[0], v) && 0 <= v <= 255
      {
        ParseDecimalExactly(tokens[0], 0, 255, v);
      }
    }
  }

  lemma ParamParses(value: int, default: int, rest: seq<string>)
    requires 0 <= value < 256 && 0 <= default < 256
    ensures GetParam([Decimal(value)] + rest, default) == value
    ensures rest == [] ==> GetParam([Decimal(value)], default) == value
  {
    assert rest == [] ==> [Decimal(value)] + rest == [Decimal(value)];
    ParseDecimalOf(value, 0, 255);
  }

  /** An address, a function name and parameters are read one after the other. */
  lemma AddrAndFuncParse(house: int, unit: int, func: int, params: seq<string>)
    requires IsHouse(house) && 0 <= unit <= 16 && 0 <= func <= FUNC_EXTENDED_DIM
    ensures var args := [AddrText(house, unit), FUNC_COMMANDS[func]] + params;
            && GetDeviceAddr(args) == Some(DeviceAddr(house, unit - 1))
            && GetFunc(Rest(args)) == func && Rest(Rest(args)) == params
  {
    hide GetDeviceAddr, GetFunc, AddrText;
    var args := [AddrText(house, unit), FUNC_COMMANDS[func]] + params;
    AddrParses(house, unit, args[1..]);
    FuncParses(func, params);
    assert args == [args[0]] + args[1..] && Rest(args) == [FUNC_COMMANDS[func]] + params;
  }

  lemma ExtendedParses(c: PlCommand)
    requires Expressible(c) && c.Extended?
    ensures ParsePl(Render(c)[1..]) == Parsed(c, true, [])
  {
    hide GetDeviceAddr, GetFunc, GetParam, AddrText, Decimal;
    var command, subcommand, data := Decimal(c.command), Decimal(c.subcommand), Decimal(c.data);
    AddrAndFuncParse(c.house, c.unit + 1, FUNC_EXTENDED_CODE_1, [command, subcommand, data]);
    ParamParses(c.command, 0, [subcommand, data]);
    ParamParses(c.subcommand, 0, [data]);
    ParamParses(c.data, 0, []);
    assert [command, subcommand, data] == [command] + [subcommand, data] && [subcommand, data] == [subcommand] + [data];
    assert Rest([command] + [subcommand, data]) == [subcommand] + [data] && Rest([subcommand] + [data]) == [data];
    assert Render(c)[1..]
        == [AddrText(c.house, c.unit + 1), FUNC_COMMANDS[FUNC_EXTENDED_CODE_1]] + [command, subcommand, data];
  }

  /** The parser undoes the rendering. */
  lemma RenderParses(c: PlCommand)
    requires Expressible(c)
    ensures ParsePl(Render(c)[1..]) == Parsed(c, !c.SelectUnit?, [])
  {
    hide GetDeviceAddr, GetFunc, GetParam, AddrText, Decimal;
    if c.Extended? {
      ExtendedParses(c);
    } else if c.SelectUnit? {
      AddrParses(c.house, c.unit + 1, []);
      NoFunc();
      assert Render(c)[1..] == [AddrText(c.house, c.unit + 1)] + [];
    } else {
      var unit := if c.HouseFunc? || c.HouseDim? then 0 else c.unit + 1;
      var params := if c.HouseDim? || c.UnitDim? then [Decimal(c.level)] else [];
      AddrAndFuncParse(c.house, unit, c.func, params);
      if params != [] { ParamParses(c.level, 1, []); }
      assert Render(c)[1..] == [AddrText(c.house, unit), FUNC_COMMANDS[c.func]] + params;
    }
  }

  lemma NoFunc()
    ensures GetFunc([]) < 0
  {
  }

  /** The commands a line can give are exactly the expressible ones. */
  lemma ExpressibleExactlyWhenParsed(c: PlCommand)
    ensures Expressible(c) <==> exists args :: ParsePl(args) == Parsed(c, !c.SelectUnit?, [])
  {
    hide GetDeviceAddr, GetFunc, GetParam, Render;
    if Expressible(c) { RenderParses(c); }
  }

  /** A line spelled in any case and with any blanks has its words, in upper case, as tokens. */
  lemma SpelledTokens(blanks: seq<string>, words: seq<string>, tokens: seq<string>)
    requires Separates(blanks, words) && UpperAll(words) == tokens && tokens != [POLICY_REQUEST]
    ensures Tokens(Spell(blanks, words)) == tokens && Upper(Spell(blanks, words)) != POLICY_REQUEST
  {
    hide Separates, IsWord;
    UpperSpells(blanks, words);
    SpelledWords(blanks, tokens);
    PolicyIsWord();
    SingleWord(POLICY_REQUEST);
  }

  /** Rendered in any case and with any blanks, a command is announced, told to the controller and recorded. */
  lemma CommandTextRoundTrip(cfg: Config, dup: bool, or20: bool, c: PlCommand, blanks: seq<string>, words: seq<string>)
    requires Expressible(c) && Separates(blanks, words) && UpperAll(words) == Render(c)
    ensures Means(ProcessLine(cfg, dup, or20, Spell(blanks, words)), EventsOf(c), MeaningsOf(c), LogOf(c))
  {
    hide Means, Separates, ProcessLine, ParsePl, Tokens, Upper, UpperAll;
    SpelledTokens(blanks, words, Render(c));
    RenderParses(c);
    PlLineRoundTrip(cfg, dup, or20, Spell(blanks, words));
  }

  // ---- the other spellings ----

  /** XDIM is extended code 1 with command 3 and subcommand 1; without a level it is one step. */
  lemma XdimParses(house: int, unit: int, params: seq<string>, level: int)
    requires IsHouse(house) && 1 <= unit <= 16
    requires (params == [] && level == 1) || (0 <= level < 256 && params == [Decimal(level)])
    ensures ParsePl([AddrText(house, unit), "XDIM"] + params)
         == Parsed(Extended(house, unit - 1, 3, 1, level), true, [])
  {
    hide GetDeviceAddr, GetFunc, GetParam, AddrText, Decimal;
    AddrAndFuncParse(house, unit, FUNC_EXTENDED_DIM, params);
    if params == [] { NoParam(1); } else { ParamParses(level, 1, []); }
  }

  lemma NoParam(default: int)
    requires 0 <= default < 256
    ensures GetParam([], default) == default
  {
  }

  /** In any case and with any blanks, XDIM announces, transmits and records its level. */
  lemma XdimTextRoundTrip(cfg: Config, dup: bool, or20: bool, house: int, unit: int, level: int,
                          blanks: seq<string>, words: seq<string>)
    requires IsHouse(house) && 1 <= unit <= 16 && 0 <= level < 256
    requires Separates(blanks, words) && UpperAll(words) == ["PL", AddrText(house, unit), "XDIM", Decimal(level)]
    ensures var acts := ProcessLine(cfg, dup, or20, Spell(blanks, words));
            && Events(acts) == [PlExtended(house, unit, FUNC_EXTENDED_CODE_1, level as byte, 0x31)]
            && Meanings(Wires(acts)) == [WireExtended(house, unit - 1, level as byte, 0x31)]
            && TableLog(acts) == [DeviceState.Xdim(house, unit - 1, level as byte)] && Changes(acts) == []
  {
    hide Separates, ProcessLine, ParsePl, Tokens, Upper, UpperAll, AddrText, Decimal, Events, Wires, TableLog;
    var tokens := ["PL", AddrText(house, unit), "XDIM", Decimal(level)];
    SpelledTokens(blanks, words, tokens);
    XdimParses(house, unit, [Decimal(level)], level);
    assert tokens[1..] == [AddrText(house, unit), "XDIM"] + [Decimal(level)];
    PlLineRoundTrip(cfg, dup, or20, Spell(blanks, words));
    XdimByte();
  }

  lemma XdimByte()
    ensures CommandByte(3, 1) == 0x31
  {
  }

  /** A dim or bright without a level, or with a malformed one, is by one step; extended code 1 then sends zeros. */
  lemma DefaultParameters(house: int, unit: int, func: int, params: seq<string>)
    requires IsHouse(house) && 1 <= unit <= 16 && func in {FUNC_DIM, FUNC_BRIGHT, FUNC_EXTENDED_CODE_1}
    requires params == [] || (|params| == 1 && ParseDecimalInt(params[0], 0, 255).None?)
    ensures ParsePl([AddrText(house, unit), FUNC_COMMANDS[func]] + params)
         == Parsed(if func == FUNC_EXTENDED_CODE_1 then Extended(house, unit - 1, 0, 0, 0)
                   else UnitDim(house, unit - 1, func, 1), true, [])
  {
    hide GetDeviceAddr, GetFunc, AddrText, ParseDecimalInt;
    AddrAndFuncParse(house, unit, func, params);
    assert Rest(params) == [] && Rest(Rest(params)) == [];
  }
}
