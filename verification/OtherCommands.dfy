/** The pass-through command, the bridge and repeat settings, and the reset. */
module OtherCommands {
  import opened Bytes
  import opened Wrappers
  import opened Codec
  import opened CommandText
  import opened CommandPath
  import opened CommandTheorems
  import opened BridgeTheorems
  import opened SpelledCommands
  import opened PlPackets
  import opened Effects

  // ---- PT ----

  /** Each byte as two hexadecimal digits. */
  function HexWords(bytes: seq<byte>): (words: seq<string>)
    ensures |words| == |bytes|
  {
    if bytes == [] then [] else [HexText(bytes[0] as int, 2)] + HexWords(bytes[1..])
  }

  lemma {:induction false} HexWordsRead(bytes: seq<byte>)
    ensures HexBytes(HexWords(bytes)) == Some(bytes)
  {
    if bytes != [] {
      var b := bytes[0];
      OneByteReads(b);
      HexWordsRead(bytes[1..]);
      var words := HexWords(bytes);
      assert words[0] == HexText(b as int, 2) && words[1..] == HexWords(bytes[1..]);
      ByteOfValue(b);
      assert bytes == [b] + bytes[1..];
    }
  }

  lemma ByteOfValue(b: byte)
    ensures (b as int) as byte == b
  {
  }

  lemma OneByteReads(b: byte)
    ensures ParseHexUlong(HexText(b as int, 2), -1) == Some(b as int)
  {
    var text := HexText(b as int, 2);
    assert Pow16(2) == 0x100;
    HexReads(b as int, 2);
    assert IsHexDigit(text[1]) && !IsHexDigit('X');
    assert forall c | c in text :: IsHexDigit(c);
  }

  /** Each word spells its byte: hexadecimal digits in any number, bare or after 0X. */
  ghost predicate SpellBytes(tokens: seq<string>, bytes: seq<byte>) {
    |tokens| == |bytes| && forall i | 0 <= i < |tokens| :: ReadsHex(tokens[i], -1, bytes[i] as int)
  }

  lemma SpellFirst(tokens: seq<string>, bytes: seq<byte>)
    requires tokens != [] && bytes != []
    ensures SpellBytes(tokens, bytes)
       <==> ReadsHex(tokens[0], -1, bytes[0] as int) && SpellBytes(tokens[1..], bytes[1..])
  {
    hide ReadsHex;
    if ReadsHex(tokens[0], -1, bytes[0] as int) && SpellBytes(tokens[1..], bytes[1..]) {
      forall i | 0 <= i < |tokens|
        ensures ReadsHex(tokens[i], -1, bytes[i] as int)
      {
        if i > 0 { assert tokens[i] == tokens[1..][i - 1] && bytes[i] == bytes[1..][i - 1]; }
      }
    }
  }

  /** The parser reads exactly the words that spell bytes, and reads the bytes they spell. */
  lemma {:induction false} HexBytesExactly(tokens: seq<string>, bytes: seq<byte>)
    ensures HexBytes(tokens) == Some(bytes) <==> SpellBytes(tokens, bytes)
  {
    hide ReadsHex, SpellBytes, ParseHexUlong;
    if tokens == [] || bytes == [] {
      NothingSpelled(tokens, bytes);
    } else {
      HexBytesExactly(tokens[1..], bytes[1..]);
      SpellFirst(tokens, bytes);
      ParseHexExactly(tokens[0], -1, bytes[0] as int);
      FirstByteRead(tokens, bytes);
    }
  }

  lemma NothingSpelled(tokens: seq<string>, bytes: seq<byte>)
    requires tokens == [] || bytes == []
    ensures HexBytes(tokens) == Some(bytes) <==> SpellBytes(tokens, bytes)
  {
  }

  lemma FirstByteRead(tokens: seq<string>, bytes: seq<byte>)
    requires tokens != [] && bytes != []
    ensures HexBytes(tokens) == Some(bytes)
       <==> ParseHexUlong(tokens[0], -1) == Some(bytes[0] as int) && HexBytes(tokens[1..]) == Some(bytes[1..])
  {
    hide ParseHexUlong, HexBytes;
    match (ParseHexUlong(tokens[0], -1), HexBytes(tokens[1..]))
    case (None, _) => FirstByteFails(tokens);
    case (_, None) => FirstByteFails(tokens);
    case (Some(value), Some(more)) =>
      if value > 0xff {
        FirstByteFails(tokens);
      } else {
        FirstByteFits(tokens, value, more);
        ValueOfByte(value, bytes[0]);
        assert bytes == [bytes[0]] + bytes[1..];
        assert ([value as byte] + more)[1..] == more;
      }
  }

  lemma FirstByteFails(tokens: seq<string>)
    requires tokens != []
    requires || ParseHexUlong(tokens[0], -1).None? || ParseHexUlong(tokens[0], -1).value > 0xff
             || HexBytes(tokens[1..]).None?
    ensures HexBytes(tokens).None?
  {
    hide ParseHexUlong;
  }

  lemma FirstByteFits(tokens: seq<string>, value: nat, more: seq<byte>)
    requires tokens != [] && value <= 0xff
    requires ParseHexUlong(tokens[0], -1) == Some(value) && HexBytes(tokens[1..]) == Some(more)
    ensures HexBytes(tokens) == Some([value as byte] + more)
  {
    hide ParseHexUlong;
  }

  lemma ValueOfByte(value: nat, b: byte)
    requires value <= 0xff
    ensures value as byte == b <==> value == b as int
  {
    ByteValue(value);
    ByteOfValue(b);
  }

  function Sent(read: Option<seq<byte>>): seq<Action> {
    match read
    case None => []
    case Some(bytes) => if 1 <= |bytes| <= 8 then [Transmit(bytes)] else []
  }

  lemma PassThroughActions(args: seq<string>)
    ensures OtherActions("PT", args) == Sent(HexBytes(args))
  {
    hide HexBytes;
    HexBytesFit(args);
  }

  /** PT sends one to eight bytes exactly as its words spell them, and nothing when they spell no such bytes. */
  lemma PassThroughSendsTheBytes(cfg: Config, dup: bool, or20: bool, args: seq<string>, bytes: seq<byte>,
                                 blanks: seq<string>, words: seq<string>)
    requires |args| < MAX_TOKENS && Separates(blanks, words) && UpperAll(words) == ["PT"] + args
    ensures var wires := Wires(ProcessLine(cfg, dup, or20, Spell(blanks, words)));
            |wires| <= 1 && (wires == [bytes] <==> SpellBytes(args, bytes) && 1 <= |bytes| <= 8)
  {
    hide Separates, Tokens, Upper, UpperAll, OtherActions, Wires, HexBytes, SpellBytes;
    var tokens := ["PT"] + args;
    assert |tokens[0]| == 2;
    SpelledTokens(blanks, words, tokens);
    assert tokens[0] == "PT" && tokens[1..] == args;
    PassThroughActions(args);
    HexBytesExactly(args, bytes);
    var ok: seq<Action> := if or20 then [Reply] else [];
    var sent := Sent(HexBytes(args));
    assert ProcessLine(cfg, dup, or20, Spell(blanks, words)) == ok + sent;
    WiresAppend(ok, sent);
    RepliesAreSilent([]);
    if sent != [] {
      var read := HexBytes(args).value;
      OnePart(Transmit(read));
      assert [] + [read] == [read];
    }
  }

  // ---- settings and reset ----

  lemma HouseSetIsExact(text: string, h: int)
    ensures h in HouseSet(text) <==> IsHouse(h) && (text == "*" || LETTERS[h] in text)
  {
    if IsHouse(h) { assert LETTERS[h] as int - 'A' as int == h; }
  }

  /** RFTOPL turns the bridge on for exactly the houses it names, or for all with an asterisk. */
  lemma BridgeSettingIsExact(cfg: Config, dup: bool, or20: bool, text: string, blanks: seq<string>, words: seq<string>)
    returns (houses: set<int>)
    requires Separates(blanks, words) && UpperAll(words) == ["RFTOPL", text]
    ensures forall h :: h in houses <==> IsHouse(h) && (text == "*" || LETTERS[h] in text)
    ensures var acts := ProcessLine(cfg, dup, or20, Spell(blanks, words));
            && ConfiguredBy(cfg, acts) == Config(cfg.cm19a, houses, cfg.rfToRf)
            && Events(acts) == [] && Wires(acts) == [] && TableLog(acts) == [] && Changes(acts) == [SetRfToPl(houses)]
  {
    hide Separates, Tokens, Upper, UpperAll, HouseSet;
    var tokens := ["RFTOPL", text];
    assert |tokens[0]| == 6;
    SpelledTokens(blanks, words, tokens);
    houses := HouseSet(text);
    forall h
      ensures h in houses <==> IsHouse(h) && (text == "*" || LETTERS[h] in text)
    {
      HouseSetIsExact(text, h);
    }
    assert tokens[1..] == [text] && [SetRfToPl(houses), Reply] + [] == [SetRfToPl(houses), Reply];
    var ok: seq<Action> := if or20 then [Reply] else [];
    assert ProcessLine(cfg, dup, or20, Spell(blanks, words)) == ok + [SetRfToPl(houses), Reply];
    SettingParts(cfg, ok, SetRfToPl(houses));
  }

  lemma SettingParts(cfg: Config, ok: seq<Action>, setting: Action)
    requires ok in {[], [Reply]} && (setting.SetRfToPl? || setting.SetRfToRf?)
    ensures var acts := ok + [setting, Reply];
            && Changes(acts) == [setting] && Events(acts) == [] && Wires(acts) == [] && TableLog(acts) == []
            && ConfiguredBy(cfg, acts) == Configured(cfg, setting)
  {
    RepliesAreSilent([]);
    OnePart(setting);
    PartsAppend([setting], [Reply]);
    PartsAppend(ok, [setting, Reply]);
    assert [setting] + [Reply] == [setting, Reply];
    ChangesDecide(ok + [setting, Reply], cfg, 0);
    assert ConfiguredBy(cfg, [setting]) == Configured(cfg, setting);
  }

  /** RFTORF sets the repeat setting to the number it is given, from 0 to 65535; anything else sets nothing. */
  lemma RepeatSettingIsExact(cfg: Config, dup: bool, or20: bool, text: string, value: int,
                             blanks: seq<string>, words: seq<string>)
    requires Separates(blanks, words) && UpperAll(words) == ["RFTORF", text]
    ensures var acts := ProcessLine(cfg, dup, or20, Spell(blanks, words));
            && Events(acts) == [] && Wires(acts) == [] && TableLog(acts) == [] && |Changes(acts)| <= 1
            && (Changes(acts) == [SetRfToRf(value)] <==> Reads(text, value) && 0 <= value <= 65535)
            && ConfiguredBy(cfg, acts).rfToPl == cfg.rfToPl && ConfiguredBy(cfg, acts).cm19a == cfg.cm19a
            && (Reads(text, value) && 0 <= value <= 65535 ==> ConfiguredBy(cfg, acts).rfToRf == value)
  {
    hide Separates, UpperAll, ParseDecimalInt, Reads, ProcessLine, Events, Wires, TableLog, Changes, ConfiguredBy;
    ParseDecimalExactly(text, 0, 65535, value);
    RepeatActions(cfg, dup, or20, text, blanks, words);
    var ok: seq<Action> := if or20 then [Reply] else [];
    match ParseDecimalInt(text, 0, 65535)
    case None => NoSetting(cfg, ok);
    case Some(v) => SettingParts(cfg, ok, SetRfToRf(v));
  }

  lemma NoSetting(cfg: Config, ok: seq<Action>)
    requires ok in {[], [Reply]}
    ensures Changes(ok) == [] && Events(ok) == [] && Wires(ok) == [] && TableLog(ok) == []
    ensures ConfiguredBy(cfg, ok) == cfg
  {
    RepliesAreSilent([]);
    ChangesDecide(ok, cfg, 0);
  }

  lemma RepeatActions(cfg: Config, dup: bool, or20: bool, text: string, blanks: seq<string>, words: seq<string>)
    requires Separates(blanks, words) && UpperAll(words) == ["RFTORF", text]
    ensures var ok: seq<Action> := if or20 then [Reply] else [];
            ProcessLine(cfg, dup, or20, Spell(blanks, words))
            == match ParseDecimalInt(text, 0, 65535)
               case None => ok
               case Some(v) => ok + [SetRfToRf(v), Reply]
  {
    hide Separates, Tokens, Upper, UpperAll, ParseDecimalInt;
    var tokens := ["RFTORF", text];
    assert |tokens[0]| == 6;
    SpelledTokens(blanks, words, tokens);
    assert tokens[1..] == [text];
    var ok: seq<Action> := if or20 then [Reply] else [];
    match ParseDecimalInt(text, 0, 65535)
    case None => assert ok + [] == ok;
    case Some(v) => assert [SetRfToRf(v), Reply] + [] == [SetRfToRf(v), Reply];
  }

  /** ST 0 clears the device tables and the sensors, and does nothing else. */
  lemma ResetClearsEverything(cfg: Config, dup: bool, or20: bool, blanks: seq<string>, words: seq<string>)
    requires Separates(blanks, words) && UpperAll(words) == ["ST", "0"]
    ensures ProcessLine(cfg, dup, or20, Spell(blanks, words)) == [Device(DeviceState.Reset), ClearSensors]
  {
    hide Separates, Tokens, Upper, UpperAll;
    var tokens := ["ST", "0"];
    assert |tokens[0]| == 2;
    SpelledTokens(blanks, words, tokens);
    assert tokens[1..] == ["0"];
    var reset: seq<Action> := [Device(DeviceState.Reset), ClearSensors];
    assert CommandActions(cfg, dup, tokens) == reset + [] == reset;
    assert [] + reset == reset;
  }

  // ---- answers ----

  /** The commands that are answered with a text and do nothing else. */
  const ANSWERED: seq<string> :=
    ["HELLO", "CAPABILITIES", "HEALTH", "CLIENTS", "CONFIG", "VERSION", "INFO", "QUIT", "HELP", "?"]

  const OTHERS: seq<string> :=
    ["PL", "RF", "RFSEC", "RFCAM", "PT", "RFTOPL", "RFTORF", "ST", "HEX", "GETSTATUS", "GETSTATUSSEC"]

  /** These are answered whatever follows them, and any word that is no command is ignored with its line. */
  lemma AnsweredOrIgnored(cfg: Config, dup: bool, or20: bool, word: string, args: seq<string>,
                          blanks: seq<string>, words: seq<string>)
    requires |args| < 16 && Separates(blanks, words) && UpperAll(words) == [word] + args
    requires word != "<POLICY-FILE-REQUEST/>"
    ensures word in ANSWERED ==> ProcessLine(cfg, dup, or20, Spell(blanks, words)) == [Reply]
    ensures word !in ANSWERED + OTHERS ==> ProcessLine(cfg, dup, or20, Spell(blanks, words)) == []
  {
    hide Separates, Tokens, Upper, UpperAll, PlActions, SendBuilt, BuildRf, BuildSec, BuildCam;
    var tokens := [word] + args;
    assert tokens[0] == word && tokens[1..] == args;
    SpelledTokens(blanks, words, tokens);
    WordIsAnswered(word, args);
    assert ProcessLine(cfg, dup, or20, Spell(blanks, words))
        == (if or20 && word in OK_COMMANDS then [Reply] else []) + CommandActions(cfg, dup, tokens);
    assert [] + [Reply] == [Reply];
  }

  lemma WordIsAnswered(word: string, args: seq<string>)
    ensures word in ANSWERED ==> OtherActions(word, args) == [Reply] && word !in OK_COMMANDS
    ensures word in ANSWERED ==> word !in {"PL", "RF", "RFSEC", "RFCAM"}
    ensures word !in ANSWERED + OTHERS ==> OtherActions(word, args) == [] && word !in OK_COMMANDS
    ensures word !in ANSWERED + OTHERS ==> word !in {"PL", "RF", "RFSEC", "RFCAM"}
  {
    hide GetHexData, GetDeviceAddr, GetRfAddr, HouseSet;
    assert OTHERS[0] == "PL" && OTHERS[1] == "RF" && OTHERS[2] == "RFSEC" && OTHERS[3] == "RFCAM" && OTHERS[4] == "PT";
    assert OTHERS[5] == "RFTOPL" && OTHERS[6] == "RFTORF" && OTHERS[7] == "ST" && OTHERS[8] == "HEX";
    assert OTHERS[9] == "GETSTATUS" && OTHERS[10] == "GETSTATUSSEC";
    assert ANSWERED[0] == "HELLO" && ANSWERED[1] == "CAPABILITIES" && ANSWERED[2] == "HEALTH";
    assert ANSWERED[3] == "CLIENTS";
    assert ANSWERED[4] == "CONFIG" && ANSWERED[5] == "VERSION" && ANSWERED[6] == "INFO" && ANSWERED[7] == "QUIT";
    assert ANSWERED[8] == "HELP" && ANSWERED[9] == "?";
    if word in ANSWERED {
      assert |word| in {5, 12, 6, 7, 4, 1};
      assert |word| == 6 ==> word[0] in "HC";
    }
  }

  /** An OpenRemote client is told ok before these seven commands, and nothing else differs for it. */
  lemma OpenRemoteIsAcknowledged(cfg: Config, dup: bool, blanks: seq<string>, words: seq<string>)
    requires Separates(blanks, words) && 1 <= |words| <= 16 && UpperAll(words) != ["<POLICY-FILE-REQUEST/>"]
    ensures var plain := ProcessLine(cfg, dup, false, Spell(blanks, words));
            ProcessLine(cfg, dup, true, Spell(blanks, words))
            == if UpperAll(words)[0] in {"PL", "RF", "RFSEC", "RFCAM", "PT", "RFTOPL", "RFTORF"}
               then [Reply] + plain else plain
  {
    hide Separates, Tokens, Upper, UpperAll, CommandActions;
    var tokens := UpperAll(words);
    SpelledTokens(blanks, words, tokens);
    AsManyWords(words);
    assert [] + CommandActions(cfg, dup, tokens) == CommandActions(cfg, dup, tokens);
  }

  lemma AsManyWords(words: seq<string>)
    ensures |UpperAll(words)| == |words|
  {
  }

  /** Words left over after a complete power-line command are complained about, and the command is carried out. */
  lemma LeftoversAreReported(cfg: Config, dup: bool, line: string, more: string)
    requires IsPlLine(line) && IsPlLine(more)
    requires var args := Tokens(line)[1..];
             ParsePl(args).Parsed? && ParsePl(args).checked && ParsePl(args).rest == []
             && exists extra :: extra != [] && ParsePl(Tokens(more)[1..]) == ParsePl(args).(rest := extra)
    ensures ProcessLine(cfg, dup, false, more) == ProcessLine(cfg, dup, false, line) + [Reply]
  {
    hide Tokens, Upper, ParsePl, PerformPl;
    var args := Tokens(line)[1..];
    var acts := PerformPl(ParsePl(args).command);
    assert ProcessLine(cfg, dup, false, line) == [] + (acts + []) == acts;
    assert ProcessLine(cfg, dup, false, more) == [] + (acts + [Reply]) == acts + [Reply];
  }

  /** RFTOPL alone turns the bridge off for every house. */
  lemma NoHousesNoBridge(cfg: Config, dup: bool, or20: bool, blanks: seq<string>, words: seq<string>)
    requires Separates(blanks, words) && UpperAll(words) == ["RFTOPL"]
    ensures var acts := ProcessLine(cfg, dup, or20, Spell(blanks, words));
            ConfiguredBy(cfg, acts) == Config(cfg.cm19a, {}, cfg.rfToRf) && Changes(acts) == [SetRfToPl({})]
            && Events(acts) == [] && Wires(acts) == [] && TableLog(acts) == []
  {
    hide Separates, Tokens, Upper, UpperAll, HouseSet;
    var tokens := ["RFTOPL"];
    assert |tokens[0]| == 6;
    SpelledTokens(blanks, words, tokens);
    assert tokens[1..] == [] && [SetRfToPl({}), Reply] + [] == [SetRfToPl({}), Reply];
    var ok: seq<Action> := if or20 then [Reply] else [];
    assert ProcessLine(cfg, dup, or20, Spell(blanks, words)) == ok + [SetRfToPl({}), Reply];
    SettingParts(cfg, ok, SetRfToPl({}));
  }

  /** Only ST 0 resets: ST alone or with another word is answered and changes nothing, and so is HEX. */
  lemma OtherwiseOnlyAnswered(cfg: Config, dup: bool, or20: bool, word: string, args: seq<string>,
                              blanks: seq<string>, words: seq<string>)
    requires Separates(blanks, words) && |args| < 16 && UpperAll(words) == [word] + args
    requires (word == "ST" && (args == [] || args[0] != "0")) || word == "HEX"
    ensures Silent(ProcessLine(cfg, dup, or20, Spell(blanks, words)))
    ensures word == "ST" || args != [] ==> Reply in ProcessLine(cfg, dup, or20, Spell(blanks, words))
  {
    hide Separates, Tokens, Upper, UpperAll, Silent, OtherActions;
    var tokens := [word] + args;
    assert tokens[0] == word && tokens[1..] == args && |word| in {2, 3};
    SpelledTokens(blanks, words, tokens);
    var acts := OtherActions(word, args);
    assert ProcessLine(cfg, dup, or20, Spell(blanks, words)) == [] + acts == acts;
    StAndHexReply(word, args);
    RepliesOnly(acts);
  }

  lemma StAndHexReply(word: string, args: seq<string>)
    requires (word == "ST" && (args == [] || args[0] != "0")) || word == "HEX"
    ensures forall a | a in OtherActions(word, args) :: a == Reply
    ensures word == "ST" || args != [] ==> Reply in OtherActions(word, args)
  {
  }

  lemma {:induction false} RepliesOnly(acts: seq<Action>)
    requires forall a | a in acts :: a == Reply
    ensures Silent(acts)
  {
    if acts != [] {
      assert acts[0] in acts && forall a | a in acts[1..] :: a in acts;
      RepliesOnly(acts[1..]);
    }
  }
}
