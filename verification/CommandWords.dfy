/** The words of the commands, one by one: functions, security events, camera keys and addresses. */
module CommandWords {
  import opened Bytes
  import opened Wrappers
  import opened Codec
  import opened CommandPath
  import opened SpelledCommands
  import opened RfText

  // ---- function words ----

  /** The function words in the order of their numbers in the X10 protocol. */
  const FUNC_WORDS: seq<string> :=
    ["ALL_UNITS_OFF", "ALL_LIGHTS_ON", "ON", "OFF", "DIM", "BRIGHT", "ALL_LIGHTS_OFF", "EXTENDED_CODE_1",
     "HAIL_REQUEST", "HAIL_ACK", "EXTENDED_CODE_3", "UNUSED", "EXTENDED_CODE_2", "STATUS_ON", "STATUS_OFF",
     "STATUS_REQUEST"]

  /** Each word is read as its number, XDIM as the one after them, and no other word as any. */
  lemma FuncWordsExactly(word: string, rest: seq<string>)
    ensures forall n | 0 <= n < 16 :: GetFunc([FUNC_WORDS[n]] + rest) == n
    ensures GetFunc(["XDIM"] + rest) == 16
    ensures GetFunc([word] + rest) == -1 <==> word !in FUNC_WORDS && word != "XDIM"
  {
    hide IndexOf;
    assert |FUNC_WORDS| == 16 && FUNC_COMMANDS == FUNC_WORDS + ["XDIM"];
    forall n | 0 <= n < 16
      ensures GetFunc([FUNC_WORDS[n]] + rest) == n
    {
      FuncParses(n, rest);
      assert FUNC_COMMANDS[n] == FUNC_WORDS[n];
    }
    FuncParses(16, rest);
    assert FUNC_COMMANDS[16] == "XDIM";
    assert GetFunc([word] + rest) == IndexOf(FUNC_COMMANDS, word);
    assert word in FUNC_COMMANDS <==> exists j | 0 <= j < |FUNC_COMMANDS| :: FUNC_COMMANDS[j] == word;
  }

  // ---- security words ----

  /** A word of a command and the byte it stands for. */
  datatype Coded = Coded(word: string, code: byte)

  /** The events of a sensor or remote with a 24-bit address. */
  const LONG_SEC_WORDS: seq<Coded> :=
    [Coded("MOTION_ALERT", 0x0C), Coded("MOTION_NORMAL", 0x8C),
     Coded("MOTION_ALERT_LOW", 0x0D), Coded("MOTION_NORMAL_LOW", 0x8D),
     Coded("CONTACT_ALERT_MIN", 0x04), Coded("CONTACT_NORMAL_MIN", 0x84),
     Coded("CONTACT_ALERT_MAX", 0x00), Coded("CONTACT_NORMAL_MAX", 0x80),
     Coded("CONTACT_ALERT_MIN_LOW", 0x01), Coded("CONTACT_NORMAL_MIN_LOW", 0x81),
     Coded("CONTACT_ALERT_MAX_LOW", 0x05), Coded("CONTACT_NORMAL_MAX_LOW", 0x85),
     Coded("ARM", 0x06), Coded("DISARM", 0x86), Coded("LIGHTS_ON", 0x46), Coded("LIGHTS_OFF", 0xC6),
     Coded("PANIC", 0x26)]

  /** The keys of a remote with an 8-bit address. */
  const SHORT_SEC_WORDS: seq<Coded> :=
    [Coded("ARM", 0x06), Coded("ARM_HOME_MIN", 0x0E), Coded("ARM_AWAY_MIN", 0x06), Coded("ARM_HOME_MAX", 0x0A),
     Coded("ARM_AWAY_MAX", 0x02), Coded("DISARM", 0x82), Coded("PANIC", 0x22), Coded("LIGHTS_ON", 0x42),
     Coded("LIGHTS_OFF", 0xC2)]

  function SecWords(addr8: bool): seq<Coded> { if addr8 then SHORT_SEC_WORDS else LONG_SEC_WORDS }

  lemma SecWordsAreTheTables(addr8: bool)
    ensures |SecWords(addr8)| == |SecNames(addr8)| == |SecCodes(addr8)|
    ensures forall n | 0 <= n < |SecWords(addr8)| ::
              SecNames(addr8)[n] == SecWords(addr8)[n].word && SecCodes(addr8)[n] == SecWords(addr8)[n].code
  {
  }

  /** Each word is read as its byte, and no other word as any. */
  lemma SecWordsExactly(addr8: bool, word: string, rest: seq<string>)
    ensures forall n | 0 <= n < |SecWords(addr8)| ::
              GetRfFunc([SecWords(addr8)[n].word] + rest, addr8) == Some(SecWords(addr8)[n].code)
    ensures GetRfFunc([word] + rest, addr8).None?
       <==> forall n | 0 <= n < |SecWords(addr8)| :: SecWords(addr8)[n].word != word
  {
    hide IndexOf, SecNames, SecCodes, SecWords;
    SecWordsAreTheTables(addr8);
    forall n | 0 <= n < |SecWords(addr8)|
      ensures GetRfFunc([SecWords(addr8)[n].word] + rest, addr8) == Some(SecWords(addr8)[n].code)
    {
      SecFuncParses(addr8, n, rest);
    }
    ReadAsNone(addr8, word, rest);
  }

  lemma ReadAsNone(addr8: bool, word: string, rest: seq<string>)
    ensures GetRfFunc([word] + rest, addr8).None?
       <==> forall n | 0 <= n < |SecNames(addr8)| :: SecNames(addr8)[n] != word
  {
    hide IndexOf;
    var i := IndexOf(SecNames(addr8), word);
  }

  // ---- camera keys ----

  /** A camera key and its code. */
  datatype CameraKey = CameraKey(word: string, code: int)

  const CAMERA_KEYS: seq<CameraKey> :=
    [CameraKey("CAMPRESET5", 0x54), CameraKey("CAMEDITPRESET5", 0x55), CameraKey("CAMPRESET6", 0x56),
     CameraKey("CAMEDITPRESET6", 0x57), CameraKey("CAMPRESET7", 0x58), CameraKey("CAMEDITPRESET7", 0x59),
     CameraKey("CAMPRESET8", 0x5A), CameraKey("CAMEDITPRESET8", 0x5B), CameraKey("CAMPRESET9", 0x5C),
     CameraKey("CAMEDITPRESET9", 0x5D), CameraKey("CAMLEFT", 0x60), CameraKey("CAMRIGHT", 0x61),
     CameraKey("CAMUP", 0x62),
     CameraKey("CAMDOWN", 0x63), CameraKey("CAMPRESET1", 0x64), CameraKey("CAMEDITPRESET1", 0x65),
     CameraKey("CAMPRESET2", 0x66),
     CameraKey("CAMEDITPRESET2", 0x67), CameraKey("CAMPRESET3", 0x68), CameraKey("CAMEDITPRESET3", 0x69),
     CameraKey("CAMPRESET4", 0x6A), CameraKey("CAMEDITPRESET4", 0x6B), CameraKey("CAMCENTER", 0x6C),
     CameraKey("CAMSWEEP", 0x6E)]

  lemma KeysAreTheTable(n: int)
    requires 0 <= n < |CAMERA_KEYS|
    ensures 0x54 <= CAMERA_KEYS[n].code < 0x54 + |CAM_KEYS| && CAMERA_KEYS[n].word != ""
    ensures CAM_KEYS[CAMERA_KEYS[n].code - 0x54] == CAMERA_KEYS[n].word
  {
  }

  lemma KeyIndex(key: byte)
    ensures key as int >= 0x54 <==> key >= 0x54
    ensures key >= 0x54 ==> (key - 0x54) as int == key as int - 0x54
  {
  }

  /** A code in this list is the key of its word. */
  lemma KeysAreNamed(key: byte, n: int)
    requires 0 <= n < |CAMERA_KEYS| && CAMERA_KEYS[n].code == key as int
    ensures IsCamKey(key) && CamKeyName(key) == CAMERA_KEYS[n].word
  {
    hide CAM_KEYS, CAMERA_KEYS;
    KeysAreTheTable(n);
    KeyIndex(key);
  }

  /** Any other code is no key. */
  lemma KeysExactly(key: byte)
    ensures IsCamKey(key) <==> 0x54 <= key as int <= 0x6E && key as int !in {0x5E, 0x5F, 0x6D}
  {
    KeyIndex(key);
    var i := key as int - 0x54;
    if 0 <= i < 27 { KeyGaps(i); }
  }

  lemma KeyGaps(i: int)
    requires 0 <= i < 27
    ensures |CAM_KEYS| == 27 && (CAM_KEYS[i] == "" <==> i in {10, 11, 25})
  {
  }

  predicate IsPreset(i: int) { 0 <= i < 10 || 16 <= i < 24 }

  /** The presets differ by length and last digit. */
  lemma PresetsAreMarked(i: int)
    requires IsPreset(i)
    ensures |CAM_KEYS| == 27 && |CAM_KEYS[i]| == (if i % 2 == 0 then 10 else 14)
    ensures CAM_KEYS[i][|CAM_KEYS[i]| - 1] as int == if i < 10 then '5' as int + i / 2 else '1' as int + i / 2 - 8
  {
  }

  /** And the other keys by length and fourth letter. */
  lemma OtherKeysAreMarked()
    ensures |CAM_KEYS[12]| == 7 && |CAM_KEYS[13]| == 8 && |CAM_KEYS[14]| == 5 && |CAM_KEYS[15]| == 7
    ensures |CAM_KEYS[24]| == 9 && |CAM_KEYS[26]| == 8
    ensures CAM_KEYS[12][3] == 'L' && CAM_KEYS[15][3] == 'D' && CAM_KEYS[13][3] == 'R' && CAM_KEYS[26][3] == 'S'
  {
  }

  lemma KeysDiffer(i: int, j: int)
    requires 0 <= i < j < 27 && i !in {10, 11, 25} && j !in {10, 11, 25}
    ensures |CAM_KEYS| == 27 && CAM_KEYS[i] != CAM_KEYS[j]
  {
    if IsPreset(i) { PresetsAreMarked(i); }
    if IsPreset(j) { PresetsAreMarked(j); }
    hide CAM_KEYS;
    OtherKeysAreMarked();
    assert |CAM_KEYS| == 27 by { KeyGaps(0); }
  }

  lemma FirstOfItsName(n: int)
    requires 0 <= n < |CAMERA_KEYS|
    ensures IndexOf(CAM_KEYS, CAMERA_KEYS[n].word) == CAMERA_KEYS[n].code - 0x54
  {
    hide CAM_KEYS, CAMERA_KEYS, IndexOf;
    KeyGaps(0);
    KeysAreTheTable(n);
    var at := CAMERA_KEYS[n].code - 0x54;
    var i := IndexOf(CAM_KEYS, CAMERA_KEYS[n].word);
    KeyGaps(at);
    if 0 <= i < at {
      KeyGaps(i);
      KeysDiffer(i, at);
    }
  }

  lemma CodeOfIndex(word: string, i: int)
    requires IndexOf(CAM_KEYS, word) == i >= 0
    ensures CamKey(word).Some? && CamKey(word).value as int == 0x54 + i
  {
    hide CAM_KEYS, IndexOf;
    KeyGaps(0);
    ByteValue(i);
  }

  /** The text of a key is found as the code that it names. */
  lemma KeyWordsExactly(n: int)
    requires 0 <= n < |CAMERA_KEYS|
    ensures CamKey(CAMERA_KEYS[n].word).Some? && CamKey(CAMERA_KEYS[n].word).value as int == CAMERA_KEYS[n].code
  {
    hide CAM_KEYS, CAMERA_KEYS, IndexOf, CamKey;
    FirstOfItsName(n);
    KeysAreTheTable(n);
    CodeOfIndex(CAMERA_KEYS[n].word, CAMERA_KEYS[n].code - 0x54);
  }
}
