/** The search of a USB configuration for its interrupt endpoints. */
module EndpointSelection {
  import opened Wrappers

  const EINVAL := 22
  const ENODEV := 19
  const TYPE_MASK: bv8 := 0x03
  const TYPE_INTERRUPT: bv8 := 0x03
  const DIRECTION_IN: bv8 := 0x80

  datatype Endpoint = Endpoint(address: bv8, attributes: bv8, maxPacketSize: bv16) {
    predicate Interrupt() { attributes & TYPE_MASK == TYPE_INTERRUPT }
    predicate In() { address & DIRECTION_IN != 0 }
    /** Bits 10..0 of wMaxPacketSize (section 9.6.6 of the USB 2.0 specification). */
    function PacketSize(): nat { (maxPacketSize & 0x07ff) as int }
  }

  datatype AltSetting = AltSetting(interfaceNumber: nat, alternateSetting: nat, endpoints: seq<Endpoint>)
  type Interface = seq<AltSetting>
  type Config = seq<Interface>

  datatype Wanted = Wanted(interfaceNumber: int, alternateSetting: int, minIn: nat, minOut: nat)

  datatype Found = Found(result: int, inEndpoint: bv8, outEndpoint: bv8, inSize: nat, outSize: nat)

  /** Where an endpoint sits: interface, alternate setting, endpoint. */
  datatype Position = Position(i: int, j: int, k: int) {
    predicate Before(i': int, j': int, k': int) { i < i' || (i == i' && (j < j' || (j == j' && k < k'))) }
  }

  predicate Exists(c: Config, p: Position) {
    0 <= p.i < |c| && 0 <= p.j < |c[p.i]| && 0 <= p.k < |c[p.i][p.j].endpoints|
  }

  function At(c: Config, p: Position): Endpoint
    requires Exists(c, p)
  {
    c[p.i][p.j].endpoints[p.k]
  }

  predicate Matches(a: AltSetting, w: Wanted) {
    a.interfaceNumber == w.interfaceNumber && a.alternateSetting == w.alternateSetting
  }

  /** An interrupt endpoint of the wanted direction and size, in a matching alternate setting. */
  predicate Usable(c: Config, w: Wanted, isIn: bool, p: Position) {
    && Exists(c, p) && Matches(c[p.i][p.j], w)
    && At(c, p).Interrupt() && At(c, p).In() == isIn
    && At(c, p).PacketSize() >= (if isIn then w.minIn else w.minOut)
  }

  /**
   In arithmetic: the two low bits of the attributes are those of an interrupt endpoint, the top bit of the address
   means input, and the low eleven bits of the packet size count, as section 9.6.6 of the USB 2.0 specification says.
   */
  lemma UsableMeans(c: Config, w: Wanted, isIn: bool, p: Position)
    requires Exists(c, p)
    ensures var alt, e := c[p.i][p.j], At(c, p);
            Usable(c, w, isIn, p)
            <==> && alt.interfaceNumber == w.interfaceNumber && alt.alternateSetting == w.alternateSetting
                 && e.attributes % 4 == 3 && (e.address >= 128 <==> isIn)
                 && (e.maxPacketSize % 2048) as int >= if isIn then w.minIn else w.minOut
    ensures At(c, p).PacketSize() == (At(c, p).maxPacketSize % 2048) as int
  {
    var e := At(c, p);
    BitsMean(e.attributes, e.address, e.maxPacketSize);
  }

  lemma BitsMean(attributes: bv8, address: bv8, size: bv16)
    ensures attributes & TYPE_MASK == TYPE_INTERRUPT <==> attributes % 4 == 3
    ensures address & DIRECTION_IN != 0 <==> address >= 128
    ensures size & 0x07ff == size % 2048
  {
  }

  ghost function Usables(c: Config, w: Wanted, isIn: bool): set<Position> {
    set i, j, k | 0 <= i < |c| && 0 <= j < |c[i]| && 0 <= k < |c[i][j].endpoints|
                  && Usable(c, w, isIn, Position(i, j, k)) :: Position(i, j, k)
  }

  ghost function UsablesBefore(c: Config, w: Wanted, isIn: bool, i: int, j: int, k: int): set<Position> {
    set p | p in Usables(c, w, isIn) && p.Before(i, j, k)
  }

  /** What the two counters and the outputs say about the endpoints seen so far in one direction. */
  ghost predicate Tracks(c: Config, w: Wanted, isIn: bool, i: int, j: int, k: int,
                         count: int, address: bv8, size: nat) {
    var seen := UsablesBefore(c, w, isIn, i, j, k);
    && count == |seen|
    && (count > 0 ==> exists p :: p in seen && At(c, p).address == address && At(c, p).PacketSize() == size)
  }

  lemma OneMore(c: Config, w: Wanted, isIn: bool, i: int, j: int, k: int)
    requires Exists(c, Position(i, j, k))
    ensures UsablesBefore(c, w, isIn, i, j, k + 1)
         == UsablesBefore(c, w, isIn, i, j, k)
            + (if Usable(c, w, isIn, Position(i, j, k)) then {Position(i, j, k)} else {})
    ensures Position(i, j, k) !in UsablesBefore(c, w, isIn, i, j, k)
  {
  }

  lemma TrackEndpoint(c: Config, w: Wanted, isIn: bool, i: int, j: int, k: int, count: int, address: bv8, size: nat)
    requires Exists(c, Position(i, j, k)) && Tracks(c, w, isIn, i, j, k, count, address, size)
    ensures var p := Position(i, j, k);
            if Usable(c, w, isIn, p)
            then Tracks(c, w, isIn, i, j, k + 1, count + 1, At(c, p).address, At(c, p).PacketSize())
            else Tracks(c, w, isIn, i, j, k + 1, count, address, size)
  {
    OneMore(c, w, isIn, i, j, k);
  }

  lemma NextAltSetting(c: Config, w: Wanted, isIn: bool, i: int, j: int)
    requires 0 <= i < |c| && 0 <= j < |c[i]|
    ensures UsablesBefore(c, w, isIn, i, j + 1, 0) == UsablesBefore(c, w, isIn, i, j, |c[i][j].endpoints|)
    ensures !Matches(c[i][j], w) ==> UsablesBefore(c, w, isIn, i, j + 1, 0) == UsablesBefore(c, w, isIn, i, j, 0)
  {
  }

  lemma NextInterface(c: Config, w: Wanted, isIn: bool, i: int)
    requires 0 <= i < |c|
    ensures UsablesBefore(c, w, isIn, i + 1, 0, 0) == UsablesBefore(c, w, isIn, i, |c[i]|, 0)
  {
  }

  lemma Ends(c: Config, w: Wanted, isIn: bool)
    ensures UsablesBefore(c, w, isIn, 0, 0, 0) == {}
    ensures UsablesBefore(c, w, isIn, |c|, 0, 0) == Usables(c, w, isIn)
  {
  }

  lemma OnlyOne<T>(s: set<T>, a: T, b: T)
    requires |s| == 1 && a in s && b in s
    ensures a == b
  {
    assert |s - {a}| == 0;
  }

  /** A count of one at the end means that the recorded endpoint is the only usable one. */
  lemma TheOnlyOne(c: Config, w: Wanted, isIn: bool, address: bv8, size: nat)
    requires Tracks(c, w, isIn, |c|, 0, 0, 1, address, size)
    ensures forall p | p in Usables(c, w, isIn) :: At(c, p).address == address && At(c, p).PacketSize() == size
  {
    Ends(c, w, isIn);
    forall p, q | p in Usables(c, w, isIn) && q in Usables(c, w, isIn)
      ensures p == q
    {
      OnlyOne(Usables(c, w, isIn), p, q);
    }
  }

  /**
   Succeeds exactly when there is one usable IN and one usable OUT endpoint, and then names them.
   Neither a missing interface nor a second candidate gets through.
   */
  method SelectInterruptEndpoints(config: Option<Config>, w: Wanted) returns (found: Found)
    ensures config.None? || w.interfaceNumber < 0 || w.alternateSetting < 0 <==> found.result == -22
    ensures found.result in {0, -22, -19}
    ensures found.result != -22 ==>
              (found.result == 0 <==> |Usables(config.value, w, true)| == 1 && |Usables(config.value, w, false)| == 1)
    ensures found.result == 0 ==>
              && (forall p | p in Usables(config.value, w, true) ::
                    && At(config.value, p).address == found.inEndpoint
                    && At(config.value, p).PacketSize() == found.inSize)
              && (forall p | p in Usables(config.value, w, false) ::
                    && At(config.value, p).address == found.outEndpoint
                    && At(config.value, p).PacketSize() == found.outSize)
  {
    hide UsablesBefore, Usables;
    found := Found(-EINVAL, 0, 0, 0, 0);
    if config.None? || w.interfaceNumber < 0 || w.alternateSetting < 0 { return; }
    var c := config.value;
    var foundInterface, foundAltSetting, inCount, outCount := false, false, 0, 0;
    Ends(c, w, true);
    Ends(c, w, false);
    var i := 0;
    while i < |c|
      invariant 0 <= i <= |c|
      invariant Tracks(c, w, true, i, 0, 0, inCount, found.inEndpoint, found.inSize)
      invariant Tracks(c, w, false, i, 0, 0, outCount, found.outEndpoint, found.outSize)
      invariant inCount > 0 || outCount > 0 ==> foundInterface && foundAltSetting
    {
      var j := 0;
      while j < |c[i]|
        invariant 0 <= j <= |c[i]|
        invariant Tracks(c, w, true, i, j, 0, inCount, found.inEndpoint, found.inSize)
        invariant Tracks(c, w, false, i, j, 0, outCount, found.outEndpoint, found.outSize)
        invariant inCount > 0 || outCount > 0 ==> foundInterface && foundAltSetting
      {
        var alt := c[i][j];
        NextAltSetting(c, w, true, i, j);
        NextAltSetting(c, w, false, i, j);
        j := j + 1;
        if alt.interfaceNumber != w.interfaceNumber { continue; }
        foundInterface := true;
        if alt.alternateSetting != w.alternateSetting { continue; }
        foundAltSetting := true;
        found, inCount, outCount := CountEndpoints(c, w, i, j - 1, found, inCount, outCount);
      }
      NextInterface(c, w, true, i);
      NextInterface(c, w, false, i);
      i := i + 1;
    }
    if !foundInterface || !foundAltSetting || inCount != 1 || outCount != 1 {
      found := found.(result := -ENODEV);
      return;
    }
    found := found.(result := 0);
    TheOnlyOne(c, w, true, found.inEndpoint, found.inSize);
    TheOnlyOne(c, w, false, found.outEndpoint, found.outSize);
  }

  /** The innermost loop, over the endpoints of one matching alternate setting. */
  method CountEndpoints(c: Config, w: Wanted, i: int, j: int, found0: Found, inCount0: int, outCount0: int)
    returns (found: Found, inCount: int, outCount: int)
    requires 0 <= i < |c| && 0 <= j < |c[i]| && Matches(c[i][j], w)
    requires Tracks(c, w, true, i, j, 0, inCount0, found0.inEndpoint, found0.inSize)
    requires Tracks(c, w, false, i, j, 0, outCount0, found0.outEndpoint, found0.outSize)
    ensures Tracks(c, w, true, i, j, |c[i][j].endpoints|, inCount, found.inEndpoint, found.inSize)
    ensures Tracks(c, w, false, i, j, |c[i][j].endpoints|, outCount, found.outEndpoint, found.outSize)
  {
    found, inCount, outCount := found0, inCount0, outCount0;
    var k := 0;
    while k < |c[i][j].endpoints|
      invariant 0 <= k <= |c[i][j].endpoints|
      invariant Tracks(c, w, true, i, j, k, inCount, found.inEndpoint, found.inSize)
      invariant Tracks(c, w, false, i, j, k, outCount, found.outEndpoint, found.outSize)
    {
      var endpoint := c[i][j].endpoints[k];
      assert At(c, Position(i, j, k)) == endpoint;
      TrackEndpoint(c, w, true, i, j, k, inCount, found.inEndpoint, found.inSize);
      TrackEndpoint(c, w, false, i, j, k, outCount, found.outEndpoint, found.outSize);
      k := k + 1;
      if !endpoint.Interrupt() { continue; }
      if endpoint.In() {
        if endpoint.PacketSize() < w.minIn { continue; }
        found := found.(inEndpoint := endpoint.address, inSize := endpoint.PacketSize());
        inCount := inCount + 1;
      } else {
        if endpoint.PacketSize() < w.minOut { continue; }
        found := found.(outEndpoint := endpoint.address, outSize := endpoint.PacketSize());
        outCount := outCount + 1;
      }
    }
  }
}
