/** When lines and packets ask the duplicate filter, about which frame, and what its answer changes. */
module FilterQueries {
  import opened Bytes
  import opened Wrappers
  import opened Codec
  import opened CommandText
  import opened CommandPath
  import F = DupFilter

  /** The frame passes the checks that come before the filter. */
  predicate Checks(buf: seq<byte>, len: int)
    requires 5 <= len <= 8 && len <= |buf| && (buf[1] == 0x20 ==> |buf| >= 6)
  {
    if buf[1] == 0x14 then DecodeCamera(buf[1..len]).Key?
    else if buf[1] == 0x29 then DecodeSecAddress(buf, len).SecOk?
    else
      && buf[1] == 0x20
      && var first, second := buf[2] ^ buf[3], buf[4] ^ buf[5];
         (first == 0x0f && second == 0xff) || (first == 0xff && (second == 0xff || second == 0xfb))
  }

  /** The frame the RF decoder asks the filter about, if any. */
  function Asked(buf: seq<byte>, len: int): (f: Option<F.Frame>)
    requires 0 <= len <= |buf| && (len >= 5 && (buf[1] == 0x20 || buf[1] == RX_MARKER) ==> |buf| >= 6)
    ensures f.Some? ==> 5 <= |f.value| <= 8
    decreases len
  {
    if len > 8 && buf[1] == RX_MARKER then Asked(buf[1..], len - 1)
    else if len < 5 || len > 8 || !Checks(buf, len) then None
    else Some(buf[..len])
  }

  lemma StandardDuplicate(cfg: Config, received: bool, buf: seq<byte>, len: int)
    requires 5 <= len <= 8 && len <= |buf| && |buf| >= 6 && buf[1] == 0x20
    ensures if Checks(buf, len) then DecodeStandard(cfg, true, received, buf, len) == []
            else DecodeStandard(cfg, true, received, buf, len) == DecodeStandard(cfg, false, received, buf, len)
  {
    hide Bridge, RepeatRf, RfReport, DecodeHouseUnitFunc;
  }

  /** A duplicate does nothing at all, and a frame that fails its checks does the same whatever the filter holds. */
  lemma {:induction false} DuplicateDoesNothing(cfg: Config, buf: seq<byte>, len: int)
    requires 0 <= len <= |buf| && (len >= 5 && (buf[1] == 0x20 || buf[1] == RX_MARKER) ==> |buf| >= 6)
    ensures if Asked(buf, len).Some? then DecodeRf(cfg, true, buf, len) == []
            else DecodeRf(cfg, true, buf, len) == DecodeRf(cfg, false, buf, len)
    decreases len
  {
    hide DecodeCamera, DecodeSecAddress, DecodeStandard, RepeatRf;
    if len > 8 && buf[1] == RX_MARKER {
      DuplicateDoesNothing(cfg, buf[1..], len - 1);
    } else if 5 <= len <= 8 && buf[1] == 0x20 {
      StandardDuplicate(cfg, buf[0] == RX_MARKER, buf, len);
    }
  }

  function AskedByPacket(cfg: Config, buf: seq<byte>, len: int, scratch: seq<byte>): (f: Option<F.Frame>)
    requires |buf| == 8 && 0 <= len <= 8 && |scratch| == 9
    ensures f.Some? ==> 5 <= |f.value| <= 8
  {
    if len < 4 then None
    else if cfg.cm19a then Asked(Overlay(scratch, [RX_MARKER] + buf[..len]), len + 1)
    else if buf[0] == RX_MARKER then Asked(buf, len)
    else None
  }

  function AskedByBuilt(b: Built): (f: Option<F.Frame>)
    requires b.Built? ==> FrameFits(b.frame)
    ensures f.Some? ==> 5 <= |f.value| <= 8
  {
    if b.Built? then Asked(b.frame, |b.frame|) else None
  }

  /** The frame a command line's own transmission asks the filter about. */
  function AskedByLine(line: string): (f: Option<F.Frame>)
    ensures f.Some? ==> 5 <= |f.value| <= 8
  {
    var tokens := Tokens(line);
    if Upper(line) == POLICY_REQUEST || tokens == [] || |tokens| > MAX_TOKENS then None
    else if tokens[0] == "RF" then AskedByBuilt(BuildRf(tokens[1..]))
    else if tokens[0] == "RFSEC" then AskedByBuilt(BuildSec(tokens[1..]))
    else if tokens[0] == "RFCAM" then AskedByBuilt(BuildCam(tokens[1..]))
    else None
  }

  lemma PacketAsksOnce(cfg: Config, buf: seq<byte>, len: int, scratch: seq<byte>, clock: seq<byte>)
    requires |buf| == 8 && 0 <= len <= 8 && |scratch| == 9 && |clock| == 8
    ensures if AskedByPacket(cfg, buf, len, scratch).Some? then DecodePacket(cfg, true, buf, len, scratch, clock) == []
            else DecodePacket(cfg, true, buf, len, scratch, clock) == DecodePacket(cfg, false, buf, len, scratch, clock)
  {
    hide DecodeRf, Asked, DecodePlc;
    if len >= 4 {
      if cfg.cm19a {
        DuplicateDoesNothing(cfg, Overlay(scratch, [RX_MARKER] + buf[..len]), len + 1);
      } else if buf[0] == RX_MARKER {
        DuplicateDoesNothing(cfg, buf, len);
      }
    }
  }

  /** A line that asks the filter about nothing does not depend on it. */
  lemma UnaskedLineIgnoresTheFilter(cfg: Config, or20: bool, line: string)
    requires AskedByLine(line).None?
    ensures ProcessLine(cfg, true, or20, line) == ProcessLine(cfg, false, or20, line)
  {
    hide Upper, Tokens, BuildRf, BuildSec, BuildCam, PlActions, OtherActions;
    var tokens := Tokens(line);
    if tokens != [] {
      UnaskedBuilt(cfg, BuildRf(tokens[1..]));
      UnaskedBuilt(cfg, BuildSec(tokens[1..]));
      UnaskedBuilt(cfg, BuildCam(tokens[1..]));
    }
  }

  lemma UnaskedBuilt(cfg: Config, b: Built)
    requires b.Built? ==> FrameFits(b.frame)
    ensures AskedByBuilt(b).None? ==> SendBuilt(cfg, true, b) == SendBuilt(cfg, false, b)
  {
    hide DecodeRf, Asked;
    if b.Built? { DuplicateDoesNothing(cfg, b.frame, |b.frame|); }
  }
}
