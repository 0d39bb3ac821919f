/** What a client reads when it asks for the state of a unit or a sensor. */
module StatusQueries {
  import opened Wrappers
  import opened CommandText
  import opened CommandPath
  import opened SpelledCommands
  import opened Bytes
  import opened Codec
  import opened CommandTheorems
  import opened RfTheorems
  import opened RfText
  import opened CommandWords
  import opened RfPackets
  import opened Effects
  import D = DeviceState
  import S = SensorTable

  function OnOrOff(on: bool): string { if on then "on" else "off" }

  /** The text of the answer, without its line end, if the command gives one. */
  function StatusReply(log: D.History, events: seq<S.SensorEvent>, tokens: seq<string>): Option<string> {
    if tokens == [] then None
    else if tokens[0] == "GETSTATUS" then
      match GetDeviceAddr(tokens[1..])
      case None => None
      case Some(DeviceAddr(house, unit)) =>
        var args := Rest(tokens[1..]);
        if unit < 0 then None
        else if args == [] then Some(OnOrOff(D.Status(log, house, unit) == D.ON))
        else if args[0] == "XDIM" then Some(Decimal(D.Dim(log, house, unit) as int))
        else Some("-1")
    else if tokens[0] == "GETSTATUSSEC" then
      match GetRfAddr(tokens[1..])
      case None => None
      case Some(a) => Some(OnOrOff(S.Lookup(S.Known(events), a.addr8, a.address) == 1))
    else None
  }

  /** The two handlers, on the tables themselves. */
  method Answer(tables: D.DeviceTables, sensors: S.SensorTable, tokens: seq<string>) returns (reply: Option<string>)
    requires tables.Valid() && sensors.Valid()
    ensures reply == StatusReply(tables.log, sensors.log, tokens)
  {
    reply := None;
    if tokens == [] { return; }
    if tokens[0] == "GETSTATUS" {
      var addr := GetDeviceAddr(tokens[1..]);
      if addr.None? || addr.value.unit < 0 { return; }
      var args := Rest(tokens[1..]);
      var status, level := tables.GetStatus(addr.value.house, addr.value.unit);
      if args == [] { return Some(if status == D.ON then "on" else "off"); }
      if args[0] == "XDIM" { return Some(Decimal(level as int)); }
      return Some("-1");
    } else if tokens[0] == "GETSTATUSSEC" {
      var a := GetRfAddr(tokens[1..]);
      if a.None? { return; }
      var state := sensors.GetStatusSec(a.value.addr8, a.value.address);
      return Some(if state == 1 then "on" else "off");
    }
  }

  /** The commands that get no answer here get none from the interpreter: a missing or bad address, or a house alone. */
  lemma AnsweredTogether(log: D.History, events: seq<S.SensorEvent>, tokens: seq<string>)
    requires tokens != [] && tokens[0] in {"GETSTATUS", "GETSTATUSSEC"}
    ensures StatusReply(log, events, tokens).Some?
       <==> if tokens[0] == "GETSTATUS"
            then exists house, unit :: GetDeviceAddr(tokens[1..]) == Some(DeviceAddr(house, unit)) && unit >= 0
            else GetRfAddr(tokens[1..]).Some?
    ensures StatusReply(log, events, tokens).Some? <==> Reply in OtherActions(tokens[0], tokens[1..])
  {
    hide GetDeviceAddr, GetRfAddr, D.Status, S.Lookup;
    assert |tokens[0]| in {9, 12};
    if tokens[0] == "GETSTATUS" && GetDeviceAddr(tokens[1..]).Some? {
      var addr := GetDeviceAddr(tokens[1..]).value;
      assert GetDeviceAddr(tokens[1..]) == Some(DeviceAddr(addr.house, addr.unit));
    }
  }

  /** The last event that covers a unit turned it on, or set it to a level above zero. */
  ghost predicate LastTurnedOn(log: D.History, house: int, unit: int) {
    exists k | 0 <= k < |log| ::
      && D.Covers(log, k, house, unit) && (forall j | k < j < |log| :: !D.Covers(log, j, house, unit))
      && D.TurnsOn(log[k])
  }

  lemma OnExactlyWhenTurnedOn(log: D.History, house: int, unit: int)
    ensures D.Status(log, house, unit) == D.ON <==> LastTurnedOn(log, house, unit)
  {
    D.StateIsLastCoveringEvent(log, house, unit);
    if LastTurnedOn(log, house, unit) {
      var k :| 0 <= k < |log| && D.Covers(log, k, house, unit)
            && (forall j | k < j < |log| :: !D.Covers(log, j, house, unit)) && D.TurnsOn(log[k]);
      var m :| 0 <= m < |log| && D.Covers(log, m, house, unit)
            && (forall j | m < j < |log| :: !D.Covers(log, j, house, unit))
            && D.StateIsFrom(log, m, house, unit);
      assert k == m;
    }
  }

  /** In any spelling, a client reads `on` for a unit if and only if the last event covering it turned it on. */
  lemma ReadsOnExactlyWhenTurnedOn(log: D.History, events: seq<S.SensorEvent>, house: int, unit: int,
                                   blanks: seq<string>, words: seq<string>)
    requires 0 <= house < 16 && 0 <= unit < 16
    requires Separates(blanks, words) && UpperAll(words) == ["GETSTATUS", AddrText(house, unit + 1)]
    ensures StatusReply(log, events, Tokens(Spell(blanks, words))) 
         == Some(if LastTurnedOn(log, house, unit) then "on" else "off")
  {
    hide Separates, Tokens, Upper, UpperAll, AddrText, GetDeviceAddr, LastTurnedOn, D.Status;
    var tokens := ["GETSTATUS", AddrText(house, unit + 1)];
    SpelledTokens(blanks, words, tokens);
    AddrParses(house, unit + 1, []);
    assert tokens[1..] == [AddrText(house, unit + 1)] + [];
    OnExactlyWhenTurnedOn(log, house, unit);
  }

  /** With XDIM the answer is the level that event set, and zero without one; any other word is answered -1. */
  lemma ReadsTheLevel(log: D.History, events: seq<S.SensorEvent>, house: int, unit: int, word: string, level: int,
                      blanks: seq<string>, words: seq<string>)
    requires 0 <= house < 16 && 0 <= unit < 16
    requires Separates(blanks, words) && UpperAll(words) == ["GETSTATUS", AddrText(house, unit + 1), word]
    requires (D.StateIsUnknown(log, house, unit) && level == 0)
             || exists k | 0 <= k < |log| ::
                  && D.StateIsFrom(log, k, house, unit)
                  && level == if log[k].Xdim? then log[k].level as int else if D.TurnsOn(log[k]) then 63 else 0
    ensures StatusReply(log, events, Tokens(Spell(blanks, words)))
         == Some(if word == "XDIM" then Decimal(level) else "-1")
  {
    hide Separates, Tokens, Upper, UpperAll, AddrText, GetDeviceAddr, D.Status, D.Dim, Decimal, D.Covers;
    var tokens := ["GETSTATUS", AddrText(house, unit + 1), word];
    SpelledTokens(blanks, words, tokens);
    AddrParses(house, unit + 1, [word]);
    assert tokens[1..] == [AddrText(house, unit + 1)] + [word] && Rest(tokens[1..]) == [word];
  }

  /** The sensor's first event had this width, and its latest tells an alert. */
  ghost predicate IsAlerting(events: seq<S.SensorEvent>, a: RfAddr) {
    && S.FirstHadWidth(events, a.address, a.addr8)
    && exists k, status | 0 <= k < |events| ::
         && S.LastTold(events, a.address, k, status)
         && if a.addr8 then status == 0x04 else status in {0x00, 0x01, 0x04, 0x05, 0x0C, 0x0D}
  }

  /** In any spelling, a client reads `on` for a sensor if and only if that holds. */
  lemma ReadsAlertExactlyWhen(log: D.History, events: seq<S.SensorEvent>, a: RfAddr, addr: string,
                              blanks: seq<string>, words: seq<string>)
    requires FitsRfAddr(a) && SpellsRfAddr(addr, a)
    requires Separates(blanks, words) && UpperAll(words) == ["GETSTATUSSEC", addr]
    ensures StatusReply(log, events, Tokens(Spell(blanks, words)))
         == Some(if IsAlerting(events, a) then "on" else "off")
  {
    hide Separates, Tokens, Upper, UpperAll, S.Known, S.Lookup, GetRfAddr, SpellsRfAddr;
    var tokens := ["GETSTATUSSEC", addr];
    SpelledTokens(blanks, words, tokens);
    RfAddrExactly(addr, [], a);
    assert tokens[1..] == [addr] + [];
    S.AnswersExactly(events, a.addr8, a.address);
  }

  // ---- from one command to the other ----

  lemma ToldOnce(acts: seq<Action>, wall: int, sensor: Action)
    requires Changes(acts) == [sensor] && sensor.Sensor?
    ensures SensorLog(acts, wall)
         == [S.Seen(S.Address(sensor.b0, sensor.b1, sensor.b2), sensor.addr8, sensor.key, wall)]
  {
    ChangesDecide(acts, Config(false, {}, 0), wall);
    assert SensorLog([sensor], wall) == SensorIn(sensor, wall) + [];
  }

  lemma SensorAddress(a: RfAddr, code: byte)
    requires FitsRfAddr(a)
    ensures var s := SensorOf(a.addr8, SplitAddr(a.address), code);
            s.Sensor? && S.Address(s.b0, s.b1, s.b2) == a.address && s.addr8 == a.addr8 && s.key == code
  {
    hide SplitAddr;
    AddrBytesRoundTrip(a);
  }

  /** Among the words of a 24-bit sensor, the six alerts and their normals alternate. */
  lemma AlertWords(addr8: bool, n: int)
    requires 0 <= n < |SecWords(addr8)|
    ensures var code := SecWords(addr8)[n].code;
            (if addr8 then code == 0x04 else code in {0x00, 0x01, 0x04, 0x05, 0x0C, 0x0D})
            <==> !addr8 && n in {0, 2, 4, 6, 8, 10}
  {
  }

  lemma LatestTells(events: seq<S.SensorEvent>, a: RfAddr, code: byte, wall: int)
    requires FitsRfAddr(a)
    requires var known := S.Known(events);
             if a.address in known then known[a.address].addr8 == a.addr8 else |known| < 511
    ensures var after := events + [S.Seen(a.address, a.addr8, code, wall)];
            IsAlerting(after, a)
            <==> if a.addr8 then code == 0x04 else code in {0x00, 0x01, 0x04, 0x05, 0x0C, 0x0D}
  {
    var after, n := events + [S.Seen(a.address, a.addr8, code, wall)], |events|;
    assert after[..n] == events;
    assert S.LastTold(after, a.address, n, code);
    S.AnswersExactly(after, a.addr8, a.address);
  }

  /**
   A sensor sent by RFSEC and then asked for by GETSTATUSSEC, each in any spelling, reads on after MOTION_ALERT,
   MOTION_ALERT_LOW and the four CONTACT_ALERT words and off after any other, when the table knows it in that width
   or has room for it.
   */
  lemma AlertIsReadBack(cfg: Config, log: D.History, events: seq<S.SensorEvent>, a: RfAddr, n: int, wall: int,
                        sent: string, sentBlanks: seq<string>, sentWords: seq<string>,
                        asked: string, askedBlanks: seq<string>, askedWords: seq<string>)
    requires FitsRfAddr(a) && SpellsRfAddr(sent, a) && SpellsRfAddr(asked, a) && 0 <= n < |SecWords(a.addr8)|
    requires Separates(sentBlanks, sentWords) && UpperAll(sentWords) == ["RFSEC", sent, SecWords(a.addr8)[n].word]
    requires Separates(askedBlanks, askedWords) && UpperAll(askedWords) == ["GETSTATUSSEC", asked]
    requires SecIsTold(false, a.addr8, SplitAddr(a.address))
    requires var known := S.Known(events);
             if a.address in known then known[a.address].addr8 == a.addr8 else |known| < 511
    ensures var after := events + SensorLog(ProcessLine(cfg, false, false, Spell(sentBlanks, sentWords)), wall);
            StatusReply(log, after, Tokens(Spell(askedBlanks, askedWords)))
            == Some(if !a.addr8 && n in {0, 2, 4, 6, 8, 10} then "on" else "off")
  {
    hide ProcessLine, Separates, UpperAll, SpellsRfAddr, SecWords, SecIsTold, SensorLog, StatusReply, IsAlerting,
         Tokens,
         S.Known, S.Address, SplitAddr, SensorOf, Announcements, Wires, TableLog, Changes;
    var code, b := SecWords(a.addr8)[n].code, SplitAddr(a.address);
    var acts := ProcessLine(cfg, false, false, Spell(sentBlanks, sentWords));
    SecLineActs(cfg, false, false, a, sent, n, sentBlanks, sentWords);
    SensorAddress(a, code);
    ToldOnce(acts, wall, SensorOf(a.addr8, b, code));
    var after := events + SensorLog(acts, wall);
    LatestTells(events, a, code, wall);
    AlertWords(a.addr8, n);
    ReadsAlertExactlyWhen(log, after, a, asked, askedBlanks, askedWords);
  }
}
