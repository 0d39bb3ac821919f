/**
 The house and unit tables: which units are selected, whether each is on, and how bright.
 The tables are tied to the whole history of events, and the history functions are then
 characterised without reference to how the tables are updated.
 */
module DeviceState {
  import opened Bytes

  const HOUSES := 16
  const UNITS := 16
  const UNKNOWN: byte := 0
  const ON: byte := 0x31    // '1'
  const OFF: byte := 0x30   // '0'
  const FULL: byte := 63

  datatype DeviceEvent =
    | Address(house: int, unit: int)
    | Func(house: int, on: bool)
    | AllFunc(house: int, on: bool)
    | Xdim(house: int, unit: int, level: byte)
    | Reset

  type History = seq<DeviceEvent>

  /** Everything but the last event. */
  function Before(log: History): (b: History)
    requires log != []
    ensures b + [Last(log)] == log && |b| == |log| - 1
  {
    log[..|log| - 1]
  }

  function Last(log: History): DeviceEvent
    requires log != []
  {
    log[|log| - 1]
  }

  // ---- the tables as functions of the history ----

  predicate Concerns(ev: DeviceEvent, h: int) { ev.Reset? || ev.house == h }

  /** On, off, all and xdim close the group of selected units; an address alone opens a new one. */
  predicate Closes(ev: DeviceEvent, h: int) { (ev.Func? || ev.AllFunc? || ev.Xdim?) && ev.house == h }

  predicate GroupClosed(log: History, h: int) {
    log != [] && if Concerns(Last(log), h) then Closes(Last(log), h) else GroupClosed(Before(log), h)
  }

  function Selected(log: History, h: int): set<int> {
    if log == [] then {}
    else match Last(log)
      case Address(house, unit) =>
        if house != h then Selected(Before(log), h)
        else if GroupClosed(Before(log), h) then {unit}
        else Selected(Before(log), h) + {unit}
      case Xdim(house, unit, _) => if house == h then {unit} else Selected(Before(log), h)
      case Reset => {}
      case _ => Selected(Before(log), h)
  }

  /** Whether the last event sets the state of a unit. */
  predicate CoversLast(log: History, h: int, u: int)
    requires log != []
  {
    match Last(log)
    case Address(_, _) => false
    case Func(house, _) => house == h && u in Selected(Before(log), h)
    case AllFunc(house, _) => house == h
    case Xdim(house, unit, _) => house == h && unit == u
    case Reset => true
  }

  function StatusFrom(ev: DeviceEvent): byte {
    match ev
    case Func(_, on) => if on then ON else OFF
    case AllFunc(_, on) => if on then ON else OFF
    case Xdim(_, _, level) => if level > 0 then ON else OFF
    case _ => UNKNOWN
  }

  function DimFrom(ev: DeviceEvent): byte {
    match ev
    case Func(_, on) => if on then FULL else 0
    case AllFunc(_, on) => if on then FULL else 0
    case Xdim(_, _, level) => level
    case _ => 0
  }

  function Status(log: History, h: int, u: int): byte {
    if log == [] then UNKNOWN
    else if CoversLast(log, h, u) then StatusFrom(Last(log))
    else Status(Before(log), h, u)
  }

  function Dim(log: History, h: int, u: int): byte {
    if log == [] then 0
    else if CoversLast(log, h, u) then DimFrom(Last(log))
    else Dim(Before(log), h, u)
  }

  // ---- what those functions mean ----

  predicate Selects(ev: DeviceEvent, h: int, u: int) { (ev.Address? || ev.Xdim?) && ev.house == h && ev.unit == u }

  /** An on or off of the house, of all of it or of a unit's level. */
  predicate EndsGroup(ev: DeviceEvent, h: int) {
    match ev
    case Func(house, _) => house == h
    case AllFunc(house, _) => house == h
    case Xdim(house, _, _) => house == h
    case _ => false
  }

  /**
   Event `i` selects the unit in the most recent unbroken run of addresses: no reset or xdim comes
   later, and no address comes later with a closing event in between (an xdim closes itself).
   */
  ghost predicate InLatestRun(log: History, h: int, u: int, i: int)
    requires 0 <= i < |log|
  {
    && Selects(log[i], h, u)
    && (forall k | i < k < |log| :: !log[k].Reset? && !(log[k].Xdim? && log[k].house == h))
    && (forall k, m | i <= k < m < |log| && EndsGroup(log[k], h) :: !(log[m].Address? && log[m].house == h))
  }

  /** Event `k` closes the group of the house, and neither an address nor a reset came after it. */
  ghost predicate ClosedSince(log: History, h: int, k: int)
    requires 0 <= k < |log|
  {
    EndsGroup(log[k], h) && forall m | k < m < |log| :: !log[m].Reset? && !(log[m].Address? && log[m].house == h)
  }

  lemma {:induction false} ClosedMeansNoAddressSince(log: History, h: int)
    ensures GroupClosed(log, h) <==>
            exists k | 0 <= k < |log| :: ClosedSince(log, h, k)
  {
    if log != [] {
      var before := Before(log);
      ClosedMeansNoAddressSince(before, h);
      if Concerns(Last(log), h) {
        if Closes(Last(log), h) { assert ClosedSince(log, h, |log| - 1); }
      } else {
        if k :| 0 <= k < |before| && ClosedSince(before, h, k) { assert ClosedSince(log, h, k); }
        if k :| 0 <= k < |log| && ClosedSince(log, h, k) { assert ClosedSince(before, h, k); }
      }
    }
  }

  lemma {:induction false} SelectedIsLatestRun(log: History, h: int, u: int)
    ensures u in Selected(log, h) <==> exists i | 0 <= i < |log| :: InLatestRun(log, h, u, i)
  {
    if log != [] {
      var before, n := Before(log), |log| - 1;
      SelectedIsLatestRun(before, h, u);
      ClosedMeansNoAddressSince(before, h);
      if Selects(log[n], h, u) {
        assert InLatestRun(log, h, u, n);
      } else if Carries(log, h) {
        if i :| 0 <= i < n && InLatestRun(before, h, u, i) { CarryOver(log, h, u, i); }
        if i :| 0 <= i < |log| && InLatestRun(log, h, u, i) { CarryOver(log, h, u, i); }
      } else {
        forall i | 0 <= i < |log|
          ensures !InLatestRun(log, h, u, i)
        {
          BrokenOff(log, h, u, i);
        }
      }
    }
  }

  /** The last event leaves the selected units selected. */
  ghost predicate Carries(log: History, h: int)
    requires log != []
  {
    var ev := Last(log);
    !ev.Reset? && !(ev.Xdim? && ev.house == h) && !(ev.Address? && ev.house == h && GroupClosed(Before(log), h))
  }

  lemma CarryOver(log: History, h: int, u: int, i: int)
    requires log != [] && 0 <= i < |log| && Carries(log, h) && !Selects(Last(log), h, u)
    ensures InLatestRun(log, h, u, i) <==> i < |log| - 1 && InLatestRun(Before(log), h, u, i)
  {
    ClosedMeansNoAddressSince(Before(log), h);
    var before, n := Before(log), |log| - 1;
    if i < n && InLatestRun(before, h, u, i) && log[n].Address? && log[n].house == h {
      forall k | i <= k < n && Closes(log[k], h)
        ensures ClosedSince(before, h, k)
      {
      }
    }
    if i < n && InLatestRun(log, h, u, i) {
      assert forall k | i < k < n :: before[k] == log[k];
    }
  }

  lemma BrokenOff(log: History, h: int, u: int, i: int)
    requires log != [] && 0 <= i < |log| && !Carries(log, h) && !Selects(Last(log), h, u)
    ensures !InLatestRun(log, h, u, i)
  {
    var before, n := Before(log), |log| - 1;
    ClosedMeansNoAddressSince(before, h);
    if i < n && log[n].Address? {
      var k :| 0 <= k < n && ClosedSince(before, h, k);
      assert Closes(log[k], h) && (k < i && log[i].Xdim? && log[i].house == h ==> Closes(log[i], h));
      assert log[i] == before[i];
    }
  }

  /** Event `k` sets the state of the unit. */
  ghost predicate Covers(log: History, k: int, h: int, u: int)
    requires 0 <= k < |log|
  {
    match log[k]
    case Address(_, _) => false
    case Func(house, _) => house == h && exists i | 0 <= i < k :: InLatestRun(log[..k], h, u, i)
    case AllFunc(house, _) => house == h
    case Xdim(house, unit, _) => house == h && unit == u
    case Reset => true
  }

  predicate TurnsOn(ev: DeviceEvent) { (ev.Func? && ev.on) || (ev.AllFunc? && ev.on) || (ev.Xdim? && ev.level > 0) }

  predicate TurnsOff(ev: DeviceEvent) { (ev.Func? && !ev.on) || (ev.AllFunc? && !ev.on) || (ev.Xdim? && ev.level == 0) }

  /** '1' for on, '0' for off and 0 for unknown; the level is that of an xdim, 63 after another on, and else 0. */
  lemma StatesAreWritten(ev: DeviceEvent)
    ensures StatusFrom(ev) == if TurnsOn(ev) then 0x31 else if TurnsOff(ev) then 0x30 else 0
    ensures DimFrom(ev) == if ev.Xdim? then ev.level else if TurnsOn(ev) then 63 else 0
  {
  }

  /** Event `k` is the last that covers the unit, and the state is the one it sets. */
  ghost predicate StateIsFrom(log: History, k: int, h: int, u: int)
    requires 0 <= k < |log|
  {
    && Covers(log, k, h, u) && (forall j | k < j < |log| :: !Covers(log, j, h, u))
    && Status(log, h, u) == (if TurnsOn(log[k]) then 0x31 else if TurnsOff(log[k]) then 0x30 else 0)
    && Dim(log, h, u) == if log[k].Xdim? then log[k].level else if TurnsOn(log[k]) then 63 else 0
  }

  /** No event covers the unit, and its state is unknown. */
  ghost predicate StateIsUnknown(log: History, h: int, u: int) {
    (forall k | 0 <= k < |log| :: !Covers(log, k, h, u)) && Status(log, h, u) == 0 && Dim(log, h, u) == 0
  }

  lemma CoversEarlier(log: History, k: int, h: int, u: int)
    requires 0 <= k < |log| - 1
    ensures Covers(log, k, h, u) <==> Covers(Before(log), k, h, u)
  {
    assert log[..k] == Before(log)[..k] && log[k] == Before(log)[k];
  }

  lemma CoversNow(log: History, h: int, u: int)
    requires log != []
    ensures Covers(log, |log| - 1, h, u) <==> CoversLast(log, h, u)
  {
    hide InLatestRun, Selected;
    SelectedIsLatestRun(Before(log), h, u);
    assert log[..|log| - 1] == Before(log);
  }

  lemma StateAfterOneMore(log: History, h: int, u: int)
    requires log != []
    ensures Status(log, h, u) == if CoversLast(log, h, u) then StatusFrom(Last(log)) else Status(Before(log), h, u)
    ensures Dim(log, h, u) == if CoversLast(log, h, u) then DimFrom(Last(log)) else Dim(Before(log), h, u)
  {
  }

  lemma StateStays(log: History, h: int, u: int)
    requires log != [] && !CoversLast(log, h, u)
    ensures StateIsUnknown(Before(log), h, u) ==> StateIsUnknown(log, h, u)
    ensures forall k | 0 <= k < |log| - 1 && StateIsFrom(Before(log), k, h, u) :: StateIsFrom(log, k, h, u)
  {
    hide Covers, CoversLast, Status, Dim, StatusFrom, DimFrom;
    CoversNow(log, h, u);
    StateAfterOneMore(log, h, u);
    forall k | 0 <= k < |log| - 1
      ensures Covers(log, k, h, u) <==> Covers(Before(log), k, h, u)
    {
      CoversEarlier(log, k, h, u);
    }
  }

  /** A unit's state and brightness are fixed by the last event that covers it, and unknown without one. */
  lemma {:induction false} StateIsLastCoveringEvent(log: History, h: int, u: int)
    ensures StateIsUnknown(log, h, u) || exists k | 0 <= k < |log| :: StateIsFrom(log, k, h, u)
  {
    if log == [] {
      assert StateIsUnknown(log, h, u);
    } else if CoversLast(log, h, u) {
      hide Covers, CoversLast;
      CoversNow(log, h, u);
      StatesAreWritten(Last(log));
      assert StateIsFrom(log, |log| - 1, h, u);
    } else {
      hide StateIsUnknown, StateIsFrom, CoversLast;
      StateIsLastCoveringEvent(Before(log), h, u);
      StateStays(log, h, u);
    }
  }

  lemma {:induction false} OnExactlyWhenLit(log: History, h: int, u: int)
    ensures Status(log, h, u) == 0x31 <==> Dim(log, h, u) != 0
    ensures Status(log, h, u) in {0, 0x31, 0x30}
  {
    if log != [] { OnExactlyWhenLit(Before(log), h, u); }
  }

  /** The events of one house, and resets. */
  function OfHouse(log: History, h: int): History {
    if log == [] then [] else OfHouse(Before(log), h) + (if Concerns(Last(log), h) then [Last(log)] else [])
  }

  /** Two histories leave a house, and a unit of it, the same. */
  predicate Agree(a: History, b: History, h: int, u: int) {
    && GroupClosed(a, h) == GroupClosed(b, h) && Selected(a, h) == Selected(b, h)
    && Status(a, h, u) == Status(b, h, u) && Dim(a, h, u) == Dim(b, h, u)
  }

  lemma AgreeAfterSameEvent(a: History, b: History, h: int, u: int)
    requires a != [] && b != [] && Last(a) == Last(b) && Concerns(Last(a), h) && Agree(Before(a), Before(b), h, u)
    ensures Agree(a, b, h, u)
  {
  }

  lemma AgreeAfterOtherEvent(log: History, h: int, u: int)
    requires log != [] && !Concerns(Last(log), h)
    ensures Agree(Before(log), log, h, u)
  {
  }

  /** What happens on other houses never matters. */
  lemma {:induction false} HousesAreIndependent(log: History, h: int, u: int)
    ensures Agree(OfHouse(log, h), log, h, u)
  {
    if log != [] {
      HousesAreIndependent(Before(log), h, u);
      OneHouseAfter(log, h, u);
    }
  }

  lemma OneHouseAfter(log: History, h: int, u: int)
    requires log != [] && Agree(OfHouse(Before(log), h), Before(log), h, u)
    ensures Agree(OfHouse(log, h), log, h, u)
  {
    hide GroupClosed, Selected, Status, Dim;
    var own, before := OfHouse(log, h), OfHouse(Before(log), h);
    if Concerns(Last(log), h) {
      assert Before(own) == before && Last(own) == Last(log);
      AgreeAfterSameEvent(own, log, h, u);
    } else {
      assert own == before;
      AgreeAfterOtherEvent(log, h, u);
    }
  }

  class DeviceTables {
    const state: array2<byte>
    const selected: array2<byte>
    const dim: array2<byte>
    const proto: array<int>
    ghost var log: History

    ghost predicate Shaped()
      reads this
    {
      && state.Length0 == HOUSES && state.Length1 == UNITS
      && selected.Length0 == HOUSES && selected.Length1 == UNITS
      && dim.Length0 == HOUSES && dim.Length1 == UNITS
      && proto.Length == HOUSES
      && state != selected && state != dim && selected != dim
    }

    /** Every table entry is the history function it stands for. */
    ghost predicate Valid()
      reads this, state, selected, dim, proto
    {
      && Shaped()
      && (forall h, u | 0 <= h < HOUSES && 0 <= u < UNITS ::
            && selected[h, u] == (if u in Selected(log, h) then ON else 0)
            && state[h, u] == Status(log, h, u)
            && dim[h, u] == Dim(log, h, u))
      && (forall h | 0 <= h < HOUSES :: proto[h] == if GroupClosed(log, h) then 1 else 0)
    }

    constructor ()
      ensures Valid() && log == [] && fresh(state) && fresh(selected) && fresh(dim) && fresh(proto)
    {
      state := new byte[HOUSES, UNITS]((_, _) => 0);
      selected := new byte[HOUSES, UNITS]((_, _) => 0);
      dim := new byte[HOUSES, UNITS]((_, _) => 0);
      proto := new int[HOUSES](_ => 0);
      log := [];
    }

    ghost method Note(ev: DeviceEvent)
      modifies `log
      ensures log == old(log) + [ev] && Before(log) == old(log) && Last(log) == ev
    {
      log := log + [ev];
    }

    /** The house and unit part of hua_sec_init. */
    method SecInit()
      requires Valid()
      modifies this, state, selected, dim, proto
      ensures Valid() && log == old(log) + [Reset]
    {
      forall h, u | 0 <= h < HOUSES && 0 <= u < UNITS { state[h, u] := 0; }
      forall h, u | 0 <= h < HOUSES && 0 <= u < UNITS { selected[h, u] := 0; }
      forall h, u | 0 <= h < HOUSES && 0 <= u < UNITS { dim[h, u] := 0; }
      forall h | 0 <= h < HOUSES { proto[h] := 0; }
      Note(Reset);
    }

    method ClearSelection(house: int)
      requires Shaped() && 0 <= house < HOUSES
      modifies selected
      ensures forall h, u | 0 <= h < HOUSES && 0 <= u < UNITS ::
                selected[h, u] == if h == house then 0 else old(selected[h, u])
    {
      forall u | 0 <= u < UNITS { selected[house, u] := 0; }
    }

    method SetStatusXdim(house: int, unit: int, xdim: byte)
      requires Valid() && 0 <= house < HOUSES && 0 <= unit < UNITS
      modifies this, state, selected, dim, proto
      ensures Valid() && log == old(log) + [Xdim(house, unit, xdim)]
    {
      ClearSelection(house);
      selected[house, unit] := ON;
      proto[house] := 1;
      dim[house, unit] := xdim;
      if xdim > 0 {
        state[house, unit] := ON;
      } else {
        state[house, unit] := OFF;
      }
      Note(Xdim(house, unit, xdim));
    }

    method Add(house: int, unit: int)
      requires Valid() && 0 <= house < HOUSES && 0 <= unit < UNITS
      modifies this, selected, proto
      ensures Valid() && log == old(log) + [Address(house, unit)]
    {
      if proto[house] == 0 {
        selected[house, unit] := ON;
      } else if proto[house] == 1 {
        ClearSelection(house);
        selected[house, unit] := ON;
        proto[house] := 0;
      }
      Note(Address(house, unit));
    }

    /** The loop of hua_func and hua_func_all: set the units of a house that are selected, or all of them. */
    method SetUnits(house: int, on: bool, all: bool)
      requires Shaped() && 0 <= house < HOUSES
      modifies state, dim
      ensures forall h, u | 0 <= h < HOUSES && 0 <= u < UNITS ::
                var hit := h == house && (all || selected[house, u] != 0);
                && state[h, u] == (if hit then (if on then ON else OFF) else old(state[h, u]))
                && dim[h, u] == (if hit then (if on then FULL else 0) else old(dim[h, u]))
    {
      var u := 0;
      while u < UNITS
        invariant 0 <= u <= UNITS
        invariant forall h, v | 0 <= h < HOUSES && 0 <= v < UNITS ::
                    var hit := h == house && v < u && (all || selected[house, v] != 0);
                    && state[h, v] == (if hit then (if on then ON else OFF) else old(state[h, v]))
                    && dim[h, v] == (if hit then (if on then FULL else 0) else old(dim[h, v]))
      {
        if all || selected[house, u] != 0 {
          state[house, u] := if on then ON else OFF;
          if on {
            dim[house, u] := FULL;
          } else {
            dim[house, u] := 0;
          }
        }
        u := u + 1;
      }
    }

    method FuncAll(house: int, on: bool)
      requires Valid() && 0 <= house < HOUSES
      modifies this, state, dim, proto
      ensures Valid() && log == old(log) + [AllFunc(house, on)]
    {
      proto[house] := 1;
      SetUnits(house, on, true);
      Note(AllFunc(house, on));
    }

    method FuncSelected(house: int, on: bool)
      requires Valid() && 0 <= house < HOUSES
      modifies this, state, dim, proto
      ensures Valid() && log == old(log) + [Func(house, on)]
    {
      proto[house] := 1;
      SetUnits(house, on, false);
      Note(Func(house, on));
    }

    /** The two queries answer from the history alone. */
    method GetStatus(house: int, unit: int) returns (status: byte, level: byte)
      requires Valid() && 0 <= house < HOUSES && 0 <= unit < UNITS
      ensures status == Status(log, house, unit) && level == Dim(log, house, unit)
      ensures status == ON <==> level != 0
    {
      OnExactlyWhenLit(log, house, unit);
      status, level := state[house, unit], dim[house, unit];
    }
  }
}
