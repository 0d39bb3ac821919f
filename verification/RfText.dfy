/** RF, security and camera commands spelled as text, in any case and with any blanks. */
module RfText {
  import opened Bytes
  import opened Wrappers
  import opened Codec
  import opened CommandText
  import opened CommandPath
  import opened BridgeTheorems
  import opened SpelledCommands
  import opened RfTheorems

  /** The word for an RFSEC address: 0X and two digits, or six digits. */
  function RfAddrText(a: RfAddr): string { if a.addr8 then "0X" + HexText(a.address, 2) else HexText(a.address, 6) }

  predicate FitsRfAddr(a: RfAddr) { a.address < if a.addr8 then 0x100 else 0x100_0000 }

  lemma RfAddrParses(a: RfAddr, rest: seq<string>)
    requires FitsRfAddr(a)
    ensures GetRfAddr([RfAddrText(a)] + rest) == Some(a)
  {
    var text, k := RfAddrText(a), if a.addr8 then 2 else 6;
    assert Pow16(2) == 0x100 && Pow16(6) == 0x100_0000;
    HexReads(a.address, k);
    var digits := HexText(a.address, k);
    assert !IsHexDigit('X');
    if a.addr8 {
      assert text[2..] == digits;
    } else {
      assert IsHexDigit(text[1]);
    }
    assert forall c | c in digits :: IsHexDigit(c);
  }

  /** Any hexadecimal digits after 0X, or exactly six digits. */
  ghost predicate SpellsRfAddr(text: string, a: RfAddr) {
    HasHexPrefix(text) == a.addr8 && ReadsHex(text, if a.addr8 then -1 else 6, a.address)
  }

  /** Exactly the spellings of an address that fits its width are accepted, and each is read as that address. */
  lemma RfAddrExactly(text: string, rest: seq<string>, a: RfAddr)
    ensures GetRfAddr([text] + rest) == Some(a) <==> SpellsRfAddr(text, a) && FitsRfAddr(a)
  {
    hide ReadsHex, ParseHexUlong;
    ParseHexExactly(text, if HasHexPrefix(text) then -1 else 6, a.address);
    RfAddrFits([text] + rest);
    assert ([text] + rest)[0] == text;
  }

  function SecNames(addr8: bool): seq<string> { if addr8 then SEC_SHORT_NAMES else SEC_LONG_NAMES }

  function SecCodes(addr8: bool): seq<byte> { if addr8 then SEC_SHORT_CODES else SEC_LONG_CODES }

  lemma ShortNamesDiffer(i: int, j: int)
    requires 0 <= i < j < |SEC_SHORT_NAMES|
    ensures SEC_SHORT_NAMES[i] != SEC_SHORT_NAMES[j]
  {
    var names := SEC_SHORT_NAMES;
    assert |names[0]| == 3 && |names[1]| == 12 && |names[2]| == 12 && |names[3]| == 12 && |names[4]| == 12;
    assert |names[5]| == 6 && |names[6]| == 5 && |names[7]| == 9 && |names[8]| == 10;
    assert names[1][4] == 'H' && names[2][4] == 'A' && names[3][4] == 'H' && names[4][4] == 'A';
    assert names[1][10] == 'I' && names[2][10] == 'I' && names[3][10] == 'A' && names[4][10] == 'A';
  }

  lemma LongNamesDiffer(i: int, j: int)
    requires 0 <= i < j < |SEC_LONG_NAMES|
    ensures SEC_LONG_NAMES[i] != SEC_LONG_NAMES[j]
  {
    var names := SEC_LONG_NAMES;
    assert |names[0]| == 12 && |names[1]| == 13 && |names[2]| == 16 && |names[3]| == 17 && |names[4]| == 17;
    assert |names[5]| == 18 && |names[6]| == 17 && |names[7]| == 18 && |names[8]| == 21 && |names[9]| == 22;
    assert |names[10]| == 21 && |names[11]| == 22 && |names[12]| == 3 && |names[13]| == 6 && |names[14]| == 9;
    assert |names[15]| == 10 && |names[16]| == 5;
    assert names[3][0] == 'M' && names[4][0] == 'C' && names[6][0] == 'C' && names[4][15] == 'I' && names[6][15] == 'A';
    assert names[5][16] == 'I' && names[7][16] == 'A' && names[8][15] == 'I' && names[10][15] == 'A';
    assert names[9][16] == 'I' && names[11][16] == 'A';
  }

  lemma SecNameIsFirst(addr8: bool, i: int)
    requires 0 <= i < |SecNames(addr8)|
    ensures IndexOf(SecNames(addr8), SecNames(addr8)[i]) == i
  {
    hide IndexOf;
    var names := SecNames(addr8);
    var j := IndexOf(names, names[i]);
    if 0 <= j < i {
      if addr8 { ShortNamesDiffer(j, i); } else { LongNamesDiffer(j, i); }
    }
  }

  lemma SecFuncParses(addr8: bool, i: int, rest: seq<string>)
    requires 0 <= i < |SecNames(addr8)|
    ensures |SecCodes(addr8)| == |SecNames(addr8)|
    ensures GetRfFunc([SecNames(addr8)[i]] + rest, addr8) == Some(SecCodes(addr8)[i])
  {
    hide IndexOf;
    SecNameIsFirst(addr8, i);
  }

  /** RF with a house, perhaps a unit, and a function. */
  lemma RfTextRoundTrip(cfg: Config, dup: bool, or20: bool, house: int, unit: int, func: int,
                        blanks: seq<string>, words: seq<string>)
    requires IsHouse(house) && 0 <= unit <= 16 && FUNC_ON <= func <= FUNC_BRIGHT && (unit == 0 ==> func >= FUNC_DIM)
    requires Separates(blanks, words) && UpperAll(words) == ["RF", AddrText(house, unit), FUNC_COMMANDS[func]]
    ensures RfFrame(house, unit - 1, func).Some? && IsRfCommand(Meant(house, unit - 1, func))
    ensures var f := RfFrame(house, unit - 1, func).value;
            ProcessLine(cfg, dup, or20, Spell(blanks, words))
            == Performed(cfg, or20, Heard(cfg, dup, f, Meant(house, unit - 1, func)), f, [])
  {
    hide Separates, ProcessLine, Tokens, Upper, UpperAll, GetDeviceAddr, GetFunc, RfFrame, AddrText, Performed, Heard;
    var tokens := ["RF", AddrText(house, unit), FUNC_COMMANDS[func]];
    SpelledTokens(blanks, words, tokens);
    AddrAndFuncParse(house, unit, func, []);
    assert tokens[1..] == [AddrText(house, unit), FUNC_COMMANDS[func]] + [];
    RfFrameExists(house, unit - 1, func);
    RfLineRoundTrip(cfg, dup, or20, Spell(blanks, words), house, unit - 1, func);
  }

  /** RFSEC with any spelling of any address and any function name of its kind. */
  lemma SecTextRoundTrip(cfg: Config, dup: bool, or20: bool, a: RfAddr, addr: string, i: int,
                         blanks: seq<string>, words: seq<string>)
    requires FitsRfAddr(a) && SpellsRfAddr(addr, a) && 0 <= i < |SecNames(a.addr8)|
    requires Separates(blanks, words) && UpperAll(words) == ["RFSEC", addr, SecNames(a.addr8)[i]]
    ensures |SecCodes(a.addr8)| == |SecNames(a.addr8)|
    ensures var func, b := SecCodes(a.addr8)[i], SplitAddr(a.address);
            var f := SecFrameOf(a, func);
            && b.Value() == a.address
            && ProcessLine(cfg, dup, or20, Spell(blanks, words))
               == Performed(cfg, or20, SecHeard(cfg, dup, a.addr8, b, func, f), f, [])
  {
    hide Separates, ProcessLine, Tokens, Upper, UpperAll, GetRfAddr, GetRfFunc, SpellsRfAddr, SecNames, SecCodes,
         Performed, SecHeard, SecFrameOf, SplitAddr;
    var tokens := ["RFSEC", addr, SecNames(a.addr8)[i]];
    SpelledTokens(blanks, words, tokens);
    RfAddrExactly(addr, tokens[2..], a);
    SecFuncParses(a.addr8, i, []);
    assert tokens[1..] == [tokens[1]] + tokens[2..] && tokens[2..] == [tokens[2]] + [];
    SecLineRoundTrip(cfg, dup, or20, Spell(blanks, words), a, SecCodes(a.addr8)[i]);
  }

  /** RFCAM with a house and a key name: a key of that name is sent and heard. */
  lemma CamTextRoundTrip(cfg: Config, dup: bool, or20: bool, house: int, name: string,
                         blanks: seq<string>, words: seq<string>) returns (key: byte)
    requires IsHouse(house) && name in CAM_KEYS && name != ""
    requires Separates(blanks, words) && UpperAll(words) == ["RFCAM", AddrText(house, 0), name]
    ensures IsCamKey(key) && CamKeyName(key) == name
    ensures var f := CameraFrame(house, key);
            ProcessLine(cfg, dup, or20, Spell(blanks, words))
            == Performed(cfg, or20, CamHeard(cfg, dup, house, key, f), f, [])
  {
    hide Separates, ProcessLine, Tokens, Upper, UpperAll, GetDeviceAddr, AddrText, Performed, IsCamKey, CamKeyName,
         CameraFrame, CamHeard, CamKey;
    var tokens := ["RFCAM", AddrText(house, 0), name];
    SpelledTokens(blanks, words, tokens);
    AddrParses(house, 0, [name]);
    assert tokens[1..] == [tokens[1]] + [name];
    NamedKeyExists(name);
    key := CamKey(name).value;
    CamLineRoundTrip(cfg, dup, or20, Spell(blanks, words), house, -1, key);
  }

  lemma NamedKeyExists(name: string)
    requires name in CAM_KEYS
    ensures CamKey(name).Some?
  {
  }
}
