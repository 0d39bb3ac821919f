/** The bounded table of security sensors, refined by a map that is never asked to forget. */
module SensorTable {
  import opened Bytes

  const TABLE_SIZE := 512
  const CAPACITY := 511      // the last slot is never used
  const ADDRESS_LIMIT := 0x100_0000

  datatype Sensor = Sensor(addr: nat, addr8: bool, status: byte, updated: int)
  datatype Reading = Reading(addr8: bool, status: byte, updated: int)

  datatype SensorEvent =
    | Seen(addr: nat, addr8: bool, status: byte, at: int)
    | Cleared

  type Sensors = map<nat, Reading>

  function Address(b0: byte, b1: byte, b2: byte): (a: nat)
    ensures a < ADDRESS_LIMIT
  {
    b0 as int * 0x1_0000 + b1 as int * 0x100 + b2 as int
  }

  // ---- the table as a function of the events ----

  function After(m: Sensors, ev: SensorEvent): Sensors {
    match ev
    case Cleared => map[]
    case Seen(addr, addr8, status, at) =>
      if addr in m then m[addr := Reading(m[addr].addr8, status, at)]
      else if |m| >= CAPACITY then m
      else m[addr := Reading(addr8, status, at)]
  }

  function Known(log: seq<SensorEvent>): Sensors {
    if log == [] then map[] else After(Known(log[..|log| - 1]), log[|log| - 1])
  }

  ghost predicate LastSeen(log: seq<SensorEvent>, addr: nat, k: int)
    requires 0 <= k < |log|
  {
    && log[k].Seen? && log[k].addr == addr
    && forall j | k < j < |log| :: log[j].Seen? && log[j].addr != addr
  }

  /**
   A known sensor carries its latest reading.  A sensor seen since the last reset is unknown only
   when the table is full, so known sensors are always updated and only new ones are dropped.
   */
  lemma {:induction false} KnownIsLatest(log: seq<SensorEvent>, addr: nat)
    ensures |Known(log)| <= 511
    ensures addr in Known(log) ==>
              exists k | 0 <= k < |log| && LastSeen(log, addr, k) ::
                Known(log)[addr].status == log[k].status && Known(log)[addr].updated == log[k].at
    ensures forall k | 0 <= k < |log| && LastSeen(log, addr, k) && addr !in Known(log) :: |Known(log)| == 511
  {
    if log != [] {
      var before, n := log[..|log| - 1], |log| - 1;
      KnownIsLatest(before, addr);
      if addr in Known(log) && !(log[n].Seen? && log[n].addr == addr) {
        var k :| 0 <= k < n && LastSeen(before, addr, k)
              && Known(before)[addr].status == before[k].status && Known(before)[addr].updated == before[k].at;
        assert LastSeen(log, addr, k) && log[k] == before[k];
      } else if addr in Known(log) {
        assert LastSeen(log, addr, n);
      }
      forall k | 0 <= k < |log| && LastSeen(log, addr, k) && addr !in Known(log)
        ensures |Known(log)| == 511
      {
        if k < n { assert LastSeen(before, addr, k); }
      }
    }
  }

  /** Event `k` makes the sensor known: it was unknown, there was room, and no reset came later. */
  ghost predicate BecomesKnown(log: seq<SensorEvent>, addr: nat, k: int)
    requires 0 <= k < |log|
  {
    && log[k].Seen? && log[k].addr == addr && addr !in Known(log[..k]) && |Known(log[..k])| < 511
    && forall j | k < j < |log| :: log[j].Seen?
  }

  lemma BecomesKnownBefore(log: seq<SensorEvent>, addr: nat, k: int)
    requires log != [] && 0 <= k < |log| - 1
    ensures BecomesKnown(log, addr, k) <==> log[|log| - 1].Seen? && BecomesKnown(log[..|log| - 1], addr, k)
  {
    var before := log[..|log| - 1];
    assert before[..k] == log[..k];
    assert forall j | k <= j < |before| :: before[j] == log[j];
  }

  lemma BecomesKnownNow(log: seq<SensorEvent>, addr: nat)
    requires log != []
    ensures var m, last := Known(log[..|log| - 1]), log[|log| - 1];
            BecomesKnown(log, addr, |log| - 1) <==> last.Seen? && last.addr == addr && addr !in m && |m| < CAPACITY
  {
  }

  lemma KnownAfterOneMore(log: seq<SensorEvent>, addr: nat)
    requires log != []
    ensures var m, last := Known(log[..|log| - 1]), log[|log| - 1];
            && (addr in Known(log)
                <==> last.Seen? && (addr in m || (last.addr == addr && |m| < CAPACITY)))
            && (addr in Known(log) ==>
                  Known(log)[addr].addr8 == if addr in m then m[addr].addr8 else last.addr8)
  {
  }

  /**
   A sensor is known exactly when some event since the last reset met it unknown with room in the table,
   and the width it answers to is that event's.
   */
  lemma {:induction false} KnownExactlyWhen(log: seq<SensorEvent>, addr: nat)
    ensures addr in Known(log) <==> exists k | 0 <= k < |log| :: BecomesKnown(log, addr, k)
    ensures forall k | 0 <= k < |log| && BecomesKnown(log, addr, k) ::
              addr in Known(log) && Known(log)[addr].addr8 == log[k].addr8
  {
    if log == [] {
      assert addr !in Known(log);
    } else {
      hide Known, BecomesKnown;
      var n := |log| - 1;
      KnownExactlyWhen(log[..n], addr);
      KnownAfterOneMore(log, addr);
      BecomesKnownNow(log, addr);
      EarlierOnesStay(log, addr);
      if addr in Known(log) {
        if addr in Known(log[..n]) {
          var k :| 0 <= k < n && BecomesKnown(log[..n], addr, k);
          assert BecomesKnown(log, addr, k);
        } else {
          assert BecomesKnown(log, addr, n);
        }
      }
    }
  }

  lemma EarlierOnesStay(log: seq<SensorEvent>, addr: nat)
    requires log != []
    ensures var n := |log| - 1;
            forall k | 0 <= k < n ::
              && (BecomesKnown(log, addr, k) <==> log[n].Seen? && BecomesKnown(log[..n], addr, k))
              && log[..n][k] == log[k]
  {
    hide Known, BecomesKnown;
    forall k | 0 <= k < |log| - 1
      ensures BecomesKnown(log, addr, k) <==> log[|log| - 1].Seen? && BecomesKnown(log[..|log| - 1], addr, k)
    {
      BecomesKnownBefore(log, addr, k);
    }
  }

  // ---- the query ----

  function AlertState(addr8: bool, status: byte): int {
    if addr8 then
      if status == 0x04 then 1 else if status == 0x84 then 0 else -1
    else
      if status in {0x00, 0x01, 0x04, 0x05, 0x0C, 0x0D} then 1
      else if status in {0x80, 0x81, 0x84, 0x85, 0x8C, 0x8D} then 0
      else -1
  }

  /** The answer for an address and address width, from the map alone. */
  function Lookup(m: Sensors, addr8: bool, addr: nat): int {
    if addr in m && m[addr].addr8 == addr8 then AlertState(addr8, m[addr].status) else -1
  }

  /** A query is answered exactly when the event that made the address known had the width asked for. */
  lemma AnsweredExactlyForTheFirstWidth(log: seq<SensorEvent>, addr: nat, addr8: bool)
    ensures (addr in Known(log) && Known(log)[addr].addr8 == addr8)
       <==> exists k | 0 <= k < |log| :: BecomesKnown(log, addr, k) && log[k].addr8 == addr8
    ensures Lookup(Known(log), addr8, addr)
         == if exists k | 0 <= k < |log| :: BecomesKnown(log, addr, k) && log[k].addr8 == addr8
            then AlertState(addr8, Known(log)[addr].status) else -1
  {
    KnownExactlyWhen(log, addr);
  }

  /** The event that made the sensor known had this width. */
  ghost predicate FirstHadWidth(log: seq<SensorEvent>, addr: nat, addr8: bool) {
    exists k | 0 <= k < |log| :: BecomesKnown(log, addr, k) && log[k].addr8 == addr8
  }

  /** Event `k` is the sensor's latest, and told this status. */
  ghost predicate LastTold(log: seq<SensorEvent>, addr: nat, k: int, status: byte)
    requires 0 <= k < |log|
  {
    LastSeen(log, addr, k) && log[k].status == status
  }

  /** The answer is 1 exactly for the alerts of a sensor asked for in its own width, and 0 exactly for its normals. */
  lemma AnswersExactly(log: seq<SensorEvent>, addr8: bool, addr: nat)
    ensures Lookup(Known(log), addr8, addr) == 1
       <==> && FirstHadWidth(log, addr, addr8)
            && exists k, status | 0 <= k < |log| ::
                 && LastTold(log, addr, k, status)
                 && if addr8 then status == 0x04 else status in {0x00, 0x01, 0x04, 0x05, 0x0C, 0x0D}
    ensures Lookup(Known(log), addr8, addr) == 0
       <==> && FirstHadWidth(log, addr, addr8)
            && exists k, status | 0 <= k < |log| ::
                 && LastTold(log, addr, k, status)
                 && if addr8 then status == 0x84 else status in {0x80, 0x81, 0x84, 0x85, 0x8C, 0x8D}
    ensures Lookup(Known(log), addr8, addr) in {0, 1, -1}
  {
    hide Known, BecomesKnown;
    KnownExactlyWhen(log, addr);
    KnownIsLatest(log, addr);
    if addr in Known(log) {
      var k :| 0 <= k < |log| && LastSeen(log, addr, k) && Known(log)[addr].status == log[k].status;
      assert LastTold(log, addr, k, log[k].status);
    }
  }

  /** So an 8-bit sensor in alert gets no answer when a 24-bit one of the same number was seen first. */
  lemma OtherWidthIsNotAnswered(addr: nat, at: int)
    ensures var log := [Seen(addr, false, 0x04, at), Seen(addr, true, 0x04, at)];
            && addr in Known(log) && Known(log)[addr].status == 0x04
            && Lookup(Known(log), true, addr) == -1 && Lookup(Known(log), false, addr) == 1
  {
    var log := [Seen(addr, false, 0x04, at), Seen(addr, true, 0x04, at)];
    assert log[..1] == [Seen(addr, false, 0x04, at)] && log[..1][..0] == [];
    assert Known(log[..1]) == map[addr := Reading(false, 0x04, at)];
  }

  // ---- the record array ----

  ghost predicate Distinct(recs: seq<Sensor>) {
    forall i, j | 0 <= i < j < |recs| :: recs[i].addr != recs[j].addr
  }

  ghost predicate Represents(recs: seq<Sensor>, m: Sensors) {
    && Distinct(recs)
    && (forall i | 0 <= i < |recs| :: recs[i].addr in m
          && m[recs[i].addr] == Reading(recs[i].addr8, recs[i].status, recs[i].updated))
    && (forall a | a in m :: exists i | 0 <= i < |recs| :: recs[i].addr == a)
  }

  lemma {:induction false} RepresentedSize(recs: seq<Sensor>, m: Sensors)
    requires Represents(recs, m)
    ensures |m| == |recs|
  {
    hide Represents;
    if recs == [] {
      NothingRepresented(m);
    } else {
      var n := |recs| - 1;
      LastRepresented(recs, m);
      RepresentedSize(recs[..n], m - {recs[n].addr});
      assert m.Keys == (m - {recs[n].addr}).Keys + {recs[n].addr};
    }
  }

  lemma NothingRepresented(m: Sensors)
    requires Represents([], m)
    ensures m == map[]
  {
    if a :| a in m { assert false; }
  }

  lemma LastRepresented(recs: seq<Sensor>, m: Sensors)
    requires Represents(recs, m) && recs != []
    ensures var n := |recs| - 1;
            recs[n].addr in m && Represents(recs[..n], m - {recs[n].addr})
  {
    var n := |recs| - 1;
    var rest, shorter := recs[..n], m - {recs[n].addr};
    assert forall i | 0 <= i < n :: rest[i] == recs[i];
    forall b | b in shorter
      ensures exists i | 0 <= i < |rest| :: rest[i].addr == b
    {
      var i :| 0 <= i < |recs| && recs[i].addr == b;
      assert rest[i].addr == b;
    }
  }

  /** Any rearrangement of the records stands for the same map, so sorting cannot change an answer. */
  lemma RearrangingKeepsTheMap(recs: seq<Sensor>, sorted: seq<Sensor>, m: Sensors)
    requires Represents(recs, m) && multiset(sorted) == multiset(recs)
    ensures Represents(sorted, m) && |sorted| == |recs|
  {
    assert |sorted| == |multiset(sorted)| == |recs|;
    forall i | 0 <= i < |sorted|
      ensures exists j | 0 <= j < |recs| :: recs[j] == sorted[i]
    {
      assert sorted[i] in multiset(recs);
    }
    forall a | a in m
      ensures exists i | 0 <= i < |sorted| :: sorted[i].addr == a
    {
      var j :| 0 <= j < |recs| && recs[j].addr == a;
      assert recs[j] in multiset(sorted);
    }
    forall i, j | 0 <= i < j < |sorted|
      ensures sorted[i].addr != sorted[j].addr
    {
      if sorted[i].addr == sorted[j].addr {
        var p :| 0 <= p < |recs| && recs[p] == sorted[i];
        OccursTwice(sorted, i, j);
        OccursOnce(recs, p);
      }
    }
  }

  lemma OccursTwice(s: seq<Sensor>, i: int, j: int)
    requires 0 <= i < j < |s| && s[i] == s[j]
    ensures multiset(s)[s[i]] >= 2
  {
    assert s == s[..j] + [s[j]] + s[j + 1..];
    assert s[..j][i] in multiset(s[..j]);
  }

  lemma OccursOnce(s: seq<Sensor>, p: int)
    requires 0 <= p < |s| && Distinct(s)
    ensures multiset(s)[s[p]] == 1
  {
    assert s == s[..p] + [s[p]] + s[p + 1..];
    assert s[p] !in s[..p] && s[p] !in s[p + 1..];
  }

  // ---- the comparator of the sort ----

  /** `return sen1->secaddr - sen2->secaddr`: a 64-bit unsigned difference cut down to a 32-bit int. */
  function Compare(a: nat, b: nat): int {
    var low := (a - b) % 0x1_0000_0000;
    if low < 0x8000_0000 then low else low - 0x1_0000_0000
  }

  lemma CompareIsAddressOrder(a: nat, b: nat)
    requires a < ADDRESS_LIMIT && b < ADDRESS_LIMIT
    ensures (Compare(a, b) < 0 <==> a < b) && (Compare(a, b) == 0 <==> a == b) && (Compare(a, b) > 0 <==> a > b)
  {
  }

  class SensorTable {
    const records: array<Sensor>
    var count: int
    ghost var log: seq<SensorEvent>

    ghost predicate Valid()
      reads this, records
    {
      && records.Length == TABLE_SIZE && 0 <= count <= CAPACITY
      && Represents(records[..count], Known(log))
      && forall i | 0 <= i < count :: records[i].addr < ADDRESS_LIMIT
    }

    constructor ()
      ensures Valid() && log == [] && fresh(records)
    {
      records := new Sensor[TABLE_SIZE](_ => Sensor(0, false, 0, 0));
      count, log := 0, [];
    }

    ghost method Note(ev: SensorEvent)
      modifies `log
      ensures log == old(log) + [ev] && Known(log) == After(Known(old(log)), ev)
    {
      log := log + [ev];
      assert log[..|log| - 1] == old(log);
    }

    /** The sensor part of hua_sec_init. */
    method SecInit()
      requires Valid()
      modifies this
      ensures Valid() && log == old(log) + [Cleared]
    {
      count := 0;
      Note(Cleared);
    }

    method SecEvent(b0: byte, b1: byte, b2: byte, funct: byte, addr8: bool, now: int)
      requires Valid()
      modifies this, records
      ensures Valid() && log == old(log) + [Seen(Address(b0, b1, b2), addr8, funct, now)]
    {
      var addr := Address(b0, b1, b2);
      ghost var before, m := records[..count], Known(log);
      RepresentedSize(before, m);
      var i := Find(addr);
      Note(Seen(addr, addr8, funct, now));
      if i >= 0 {
        UpdateRepresents(before, m, i, funct, now);
        records[i] := records[i].(status := funct, updated := now);
        assert records[..count] == before[i := before[i].(status := funct, updated := now)];
        return;
      }
      if count + 1 >= TABLE_SIZE { return; }
      var added := Sensor(addr, addr8, funct, now);
      AppendRepresents(before, m, added);
      records[count] := added;
      count := count + 1;
      assert records[..count] == before + [added];
    }

    method Find(addr: nat) returns (i: int)
      requires Valid()
      ensures i >= 0 ==> i < count && records[i].addr == addr
      ensures i < 0 <==> addr !in Known(log)
    {
      i := 0;
      while i < count
        invariant 0 <= i <= count && forall j | 0 <= j < i :: records[..count][j].addr != addr
      {
        if records[i].addr == addr {
          assert records[..count][i].addr == addr;
          return;
        }
        i := i + 1;
      }
      i := -1;
    }

    /** The loop over the records answers what the map says, whatever order the records are in. */
    method GetStatusSec(addr8: bool, addr: nat) returns (r: int)
      requires Valid()
      ensures r == Lookup(Known(log), addr8, addr) && r in {0, 1, -1}
      ensures r == 1 <==> && FirstHadWidth(log, addr, addr8)
                          && exists k, status | 0 <= k < |log| ::
                               && LastTold(log, addr, k, status)
                               && if addr8 then status == 0x04 else status in {0x00, 0x01, 0x04, 0x05, 0x0C, 0x0D}
    {
      AnswersExactly(log, addr8, addr);
      var i := 0;
      while i < count
        invariant 0 <= i <= count
        invariant forall j | 0 <= j < i && records[j].addr8 == addr8 && records[j].addr == addr ::
                    AlertState(addr8, records[j].status) == -1
      {
        var sensor := records[i];
        assert sensor == records[..count][i];
        if sensor.addr8 == addr8 && sensor.addr == addr {
          var state := AlertState(addr8, sensor.status);
          if state != -1 { return state; }
        }
        i := i + 1;
      }
      if addr in Known(log) {
        var j :| 0 <= j < count && records[..count][j].addr == addr;
      }
      r := -1;
    }

    /** The sort in hua_show; `sorted` is what qsort leaves in the array, known only to be a sorted rearrangement. */
    method SortForShow(sorted: seq<Sensor>)
      requires Valid() && multiset(sorted) == multiset(records[..count])
      requires forall i, j | 0 <= i < j < |sorted| :: Compare(sorted[i].addr, sorted[j].addr) <= 0
      modifies records
      ensures Valid()
      ensures forall i, j | 0 <= i < j < count :: records[i].addr < records[j].addr
    {
      SortedIsIncreasing(records[..count], sorted, Known(log));
      forall i | 0 <= i < count { records[i] := sorted[i]; }
      assert records[..count] == sorted;
    }
  }

  lemma SortedIsIncreasing(recs: seq<Sensor>, sorted: seq<Sensor>, m: Sensors)
    requires Represents(recs, m) && multiset(sorted) == multiset(recs)
    requires forall i | 0 <= i < |recs| :: recs[i].addr < ADDRESS_LIMIT
    requires forall i, j | 0 <= i < j < |sorted| :: Compare(sorted[i].addr, sorted[j].addr) <= 0
    ensures Represents(sorted, m) && |sorted| == |recs|
    ensures forall i | 0 <= i < |sorted| :: sorted[i].addr < ADDRESS_LIMIT
    ensures forall i, j | 0 <= i < j < |sorted| :: sorted[i].addr < sorted[j].addr
  {
    RearrangingKeepsTheMap(recs, sorted, m);
    forall i | 0 <= i < |sorted|
      ensures sorted[i].addr < ADDRESS_LIMIT
    {
      assert sorted[i] in multiset(recs);
    }
    forall i, j | 0 <= i < j < |sorted|
      ensures sorted[i].addr < sorted[j].addr
    {
      CompareIsAddressOrder(sorted[i].addr, sorted[j].addr);
    }
  }

  lemma UpdateRepresents(recs: seq<Sensor>, m: Sensors, i: int, status: byte, at: int)
    requires Represents(recs, m) && 0 <= i < |recs|
    ensures Represents(recs[i := recs[i].(status := status, updated := at)],
                       m[recs[i].addr := Reading(m[recs[i].addr].addr8, status, at)])
  {
    var next := recs[i := recs[i].(status := status, updated := at)];
    assert forall j | 0 <= j < |recs| :: next[j].addr == recs[j].addr;
  }

  lemma AppendRepresents(recs: seq<Sensor>, m: Sensors, s: Sensor)
    requires Represents(recs, m) && s.addr !in m
    ensures Represents(recs + [s], m[s.addr := Reading(s.addr8, s.status, s.updated)])
  {
    var next := recs + [s];
    assert next[|recs|] == s;
    assert forall j | 0 <= j < |recs| :: next[j] == recs[j];
  }
}
