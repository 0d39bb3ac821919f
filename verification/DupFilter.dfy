/**
 The receive filter that drops RF frames repeated within 650 ms.  It remembers only 16 frames and
 evicts the one closest to expiring; it is proved against the unbounded record of when each frame
 was last accepted.
 */
module DupFilter {
  import opened Bytes

  const DUP_TIME := 650
  const DUP_MAX := 16
  const MAX_FRAME := 16

  type Frame = seq<byte>

  /** One cache entry; a zero rf_cmd_len (an unused entry) is the empty frame. */
  datatype DupEntry = DupEntry(expires: nat, frame: Frame) {
    predicate InUse() { frame != [] }
    predicate Expired(now: nat) { now > expires }
  }

  /** One call of the filter: what it was asked, when it accepted, and what it answered. */
  datatype Decision = Decision(frame: Frame, at: nat, dup: bool)

  /** When each frame was last accepted, over the whole history. */
  function LastAccepted(log: seq<Decision>): map<Frame, nat> {
    if log == [] then map[]
    else
      var d := log[|log| - 1];
      var before := LastAccepted(log[..|log| - 1]);
      if d.dup then before else before[d.frame := d.at]
  }

  /** The other frames accepted strictly after `f` was. */
  ghost function Newer(last: map<Frame, nat>, f: Frame): set<Frame>
    requires f in last
  {
    set g | g in last && last[g] > last[f]
  }

  /** The other frames accepted at or after the time `f` was. */
  ghost function NotOlder(last: map<Frame, nat>, f: Frame): set<Frame>
    requires f in last
  {
    set g | g in last && g != f && last[g] >= last[f]
  }

  ghost predicate Fresh(last: map<Frame, nat>, f: Frame, now: nat) { f in last && now <= last[f] + 650 }

  /**
   A duplicate was accepted at most 650 ms ago and fewer than 16 frames were accepted after it;
   conversely a frame accepted at most 650 ms ago with fewer than 16 others accepted since (ties
   included) is always reported a duplicate.
   */
  ghost predicate Answers(last: map<Frame, nat>, f: Frame, now: nat, dup: bool) {
    && (dup ==> Fresh(last, f, now) && |Newer(last, f)| < 16)
    && (Fresh(last, f, now) && |NotOlder(last, f)| < 16 ==> dup)
  }

  // ---- the cache ----

  ghost predicate Cached(s: seq<DupEntry>, f: Frame) { exists i | 0 <= i < |s| :: s[i].InUse() && s[i].frame == f }

  ghost predicate EntriesSound(s: seq<DupEntry>, last: map<Frame, nat>) {
    && |s| == DUP_MAX
    && (forall i | 0 <= i < |s| && s[i].InUse() :: s[i].frame in last && s[i].expires == last[s[i].frame] + DUP_TIME)
    && (forall i, j | 0 <= i < j < |s| && s[i].InUse() :: s[i].frame != s[j].frame)
  }

  /** A fresh frame is missing only after 16 others displaced it, and never while an older one is kept. */
  ghost predicate KeepsNewest(s: seq<DupEntry>, last: map<Frame, nat>, now: nat) {
    && (forall f | Fresh(last, f, now) && !Cached(s, f) :: |NotOlder(last, f)| >= DUP_MAX)
    && (forall f, g | Fresh(last, f, now) && Cached(s, f) && g in last && last[g] > last[f] :: Cached(s, g))
  }

  ghost predicate CacheInv(s: seq<DupEntry>, last: map<Frame, nat>, now: nat) {
    && EntriesSound(s, last) && KeepsNewest(s, last, now)
    && (forall f | f in last :: f != [] && last[f] <= now)
  }

  /** The cache after the scan has passed its first `n` entries without finding the frame. */
  function Swept(s: seq<DupEntry>, now: nat, n: nat): (t: seq<DupEntry>)
    ensures |t| == |s|
  {
    seq(|s|, i requires 0 <= i < |s| => if i < n && s[i].Expired(now) then s[i].(frame := []) else s[i])
  }

  lemma SweepKeepsInv(s: seq<DupEntry>, last: map<Frame, nat>, clock: nat, now: nat, n: nat)
    requires CacheInv(s, last, clock) && clock <= now
    ensures CacheInv(Swept(s, now, n), last, now)
  {
    var t := Swept(s, now, n);
    forall f | Fresh(last, f, now)
      ensures Cached(t, f) <==> Cached(s, f)
    {
      if Cached(s, f) {
        var i :| 0 <= i < |s| && s[i].InUse() && s[i].frame == f;
        assert t[i] == s[i];
      }
    }
  }

  lemma NotOlderGrows(last: map<Frame, nat>, f: Frame, h: Frame, at: nat)
    requires h in last && h != f && (forall g | g in last :: last[g] <= at)
    ensures |NotOlder(last, h)| <= |NotOlder(last[f := at], h)|
  {
    SubsetSize(NotOlder(last, h), NotOlder(last[f := at], h));
  }

  lemma {:induction false} SubsetSize<T>(a: set<T>, b: set<T>)
    requires a <= b
    ensures |a| <= |b|
  {
    if a != {} {
      var x :| x in a;
      SubsetSize(a - {x}, b - {x});
    }
  }

  /** Storing an accepted frame in slot `i`, when doing so drops no fresh frame but at most `victim`. */
  lemma StoreKeepsInv(s: seq<DupEntry>, last: map<Frame, nat>, now: nat, i: nat, f: Frame, at: nat)
    requires CacheInv(s, last, now) && now <= at && f != [] && i < |s|
    requires forall j | 0 <= j < |s| && j != i && s[j].InUse() :: s[j].frame != f
    requires s[i].InUse() && s[i].frame != f ==>
               && |NotOlder(last[f := at], s[i].frame)| >= DUP_MAX
               && forall j | 0 <= j < |s| :: s[i].expires <= s[j].expires
    ensures CacheInv(s[i := DupEntry(at + DUP_TIME, f)], last[f := at], at)
  {
    var t, now' := s[i := DupEntry(at + DUP_TIME, f)], at;
    var next := last[f := at];
    assert Cached(t, f) by { assert t[i].frame == f; }
    forall h | h != f
      ensures Cached(t, h) ==> Cached(s, h)
      ensures Cached(s, h) && h != s[i].frame ==> Cached(t, h)
    {
      if Cached(s, h) && h != s[i].frame {
        var j :| 0 <= j < |s| && s[j].InUse() && s[j].frame == h;
        assert t[j] == s[j];
      }
      if Cached(t, h) {
        var j :| 0 <= j < |t| && t[j].InUse() && t[j].frame == h;
        assert s[j] == t[j];
      }
    }
    forall h | Fresh(next, h, at) && !Cached(t, h)
      ensures |NotOlder(next, h)| >= DUP_MAX
    {
      assert Fresh(last, h, now);
      NotOlderGrows(last, f, h, at);
    }
    forall h, g | Fresh(next, h, at) && Cached(t, h) && g in next && next[g] > next[h]
      ensures Cached(t, g)
    {
      if g != f {
        assert Cached(s, h) && Fresh(last, h, now) && Cached(s, g);
      }
    }
  }

  /** The frames of a full cache. */
  ghost function Frames(s: seq<DupEntry>): set<Frame> { set i | 0 <= i < |s| && s[i].InUse() :: s[i].frame }

  lemma {:induction false} FramesSize(s: seq<DupEntry>)
    requires forall i, j | 0 <= i < j < |s| && s[i].InUse() :: s[i].frame != s[j].frame
    ensures |Frames(s)| <= |s|
    ensures (forall i | 0 <= i < |s| :: s[i].InUse()) ==> |Frames(s)| == |s|
  {
    if s != [] {
      var rest, x := s[..|s| - 1], s[|s| - 1];
      FramesSize(rest);
      if x.InUse() {
        assert Frames(s) == Frames(rest) + {x.frame};
        assert x.frame !in Frames(rest);
      } else {
        assert Frames(s) == Frames(rest);
      }
    }
  }

  /** Evicting the entry closest to expiring leaves at least 16 frames accepted no earlier than the victim. */
  lemma VictimIsDisplaced(s: seq<DupEntry>, last: map<Frame, nat>, now: nat, i: nat, f: Frame, at: nat)
    requires CacheInv(s, last, now) && now <= at && i < |s| && !Cached(s, f) && f != []
    requires forall j | 0 <= j < |s| :: s[j].InUse() && s[i].expires <= s[j].expires
    ensures |NotOlder(last[f := at], s[i].frame)| >= DUP_MAX
  {
    FramesSize(s);
    var others := Frames(s) - {s[i].frame} + {f};
    assert s[i].frame in Frames(s);
    assert f !in Frames(s);
    assert |others| == DUP_MAX;
    SubsetSize(others, NotOlder(last[f := at], s[i].frame));
  }

  lemma HitIsAmongTheNewest(s: seq<DupEntry>, last: map<Frame, nat>, clock: nat, now: nat, f: Frame)
    requires CacheInv(s, last, clock) && clock <= now && Cached(s, f) && Fresh(last, f, now)
    ensures |Newer(last, f)| < DUP_MAX
  {
    FramesSize(s);
    assert f in Frames(s);
    forall g | g in Newer(last, f)
      ensures g in Frames(s) - {f}
    {
      assert Cached(s, g);
    }
    SubsetSize(Newer(last, f), Frames(s) - {f});
  }

  class DupFilter {
    const dups: array<DupEntry>
    ghost var log: seq<Decision>
    ghost var clock: nat

    ghost predicate Valid()
      reads this, dups
    {
      CacheInv(dups[..], LastAccepted(log), clock)
    }

    constructor ()
      ensures Valid() && log == [] && clock == 0 && fresh(dups)
    {
      dups := new DupEntry[DUP_MAX](_ => DupEntry(0, []));
      log, clock := [], 0;
    }

    /** `now` and `later` are the two clock readings: the scan's and, when the frame is accepted, the store's. */
    method Filter(buf: Frame, now: nat, later: nat) returns (dup: bool)
      requires Valid() && 0 < |buf| <= MAX_FRAME && clock <= now <= later
      modifies dups, `log, `clock
      ensures Valid() && clock == if dup then now else later
      ensures log == old(log) + [Decision(buf, clock, dup)]
      ensures Answers(LastAccepted(old(log)), buf, now, dup)
    {
      ghost var start, last := dups[..], LastAccepted(log);
      var found, firstUnused := Scan(buf, now);
      if found >= 0 {
        SweepKeepsInv(start, last, clock, now, found);
        assert Cached(start, buf) by { assert start[found].frame == buf; }
        if now > dups[found].expires {
          Store(found, buf, now, later);
          return false;
        }
        HitIsAmongTheNewest(start, last, clock, now, buf);
        Record(Decision(buf, now, true));
        return true;
      }
      SweepKeepsInv(start, last, clock, now, DUP_MAX);
      var index := firstUnused;
      if firstUnused == -1 {
        index := ClosestToExpiring();
        VictimIsDisplaced(dups[..], last, now, index, buf, later);
      }
      Store(index, buf, now, later);
      return false;
    }

    /**
     The first loop: look for the frame, marking expired entries unused on the way.  It stops at the
     frame, so entries behind a hit are not swept.
     */
    method Scan(buf: Frame, now: nat) returns (found: int, firstUnused: int)
      requires dups.Length == DUP_MAX && buf != []
      modifies dups
      ensures -1 <= found < DUP_MAX && -1 <= firstUnused < DUP_MAX
      ensures dups[..] == Swept(old(dups[..]), now, if found >= 0 then found else DUP_MAX)
      ensures found >= 0 ==> old(dups[found]).frame == buf
      ensures found == -1 ==> forall j | 0 <= j < DUP_MAX :: old(dups[j]).frame != buf
      ensures firstUnused >= 0 ==> !dups[firstUnused].InUse()
      ensures found == -1 && firstUnused == -1 ==> forall j | 0 <= j < DUP_MAX :: dups[j].InUse()
    {
      firstUnused := -1;
      var i := 0;
      while i < DUP_MAX
        invariant 0 <= i <= DUP_MAX && dups[..] == Swept(old(dups[..]), now, i)
        invariant forall j | 0 <= j < i :: old(dups[j]).frame != buf
        invariant -1 <= firstUnused < i && (firstUnused >= 0 ==> !dups[firstUnused].InUse())
        invariant firstUnused == -1 ==> forall j | 0 <= j < i :: dups[j].InUse()
      {
        var p := dups[i];
        assert p == dups[..][i] == old(dups[i]);
        if p.InUse() {
          if p.frame == buf { return i, firstUnused; }
          if now > p.expires {
            dups[i] := p.(frame := []);
            if firstUnused == -1 { firstUnused := i; }
          }
        } else if firstUnused == -1 {
          firstUnused := i;
        }
        i := i + 1;
        assert dups[..] == Swept(old(dups[..]), now, i);
      }
      found := -1;
    }

    method Store(i: nat, buf: Frame, ghost now: nat, later: nat)
      requires CacheInv(dups[..], LastAccepted(log), now) && i < DUP_MAX && buf != [] && now <= later
      requires forall j | 0 <= j < DUP_MAX && j != i && dups[j].InUse() :: dups[j].frame != buf
      requires dups[i].InUse() && dups[i].frame != buf ==>
                 && |NotOlder(LastAccepted(log)[buf := later], dups[i].frame)| >= DUP_MAX
                 && forall j | 0 <= j < DUP_MAX :: dups[i].expires <= dups[j].expires
      modifies dups, `log, `clock
      ensures Valid() && clock == later && log == old(log) + [Decision(buf, later, false)]
    {
      ghost var before := dups[..];
      StoreKeepsInv(before, LastAccepted(log), now, i, buf, later);
      dups[i] := DupEntry(later + DUP_TIME, buf);
      assert dups[..] == before[i := DupEntry(later + DUP_TIME, buf)];
      Record(Decision(buf, later, false));
    }

    method ClosestToExpiring() returns (index: nat)
      requires dups.Length == DUP_MAX
      ensures index < DUP_MAX && forall j | 0 <= j < DUP_MAX :: dups[index].expires <= dups[j].expires
    {
      index := 0;
      var i := 1;
      while i < DUP_MAX
        invariant 1 <= i <= DUP_MAX && index < i
        invariant forall j | 0 <= j < i :: dups[index].expires <= dups[j].expires
      {
        if dups[i].expires < dups[index].expires { index := i; }
        i := i + 1;
      }
    }

    ghost method Record(d: Decision)
      modifies `log, `clock
      ensures log == old(log) + [d] && clock == d.at
      ensures LastAccepted(log)
           == if d.dup then LastAccepted(old(log)) else LastAccepted(old(log))[d.frame := d.at]
    {
      log, clock := log + [d], d.at;
      assert log[..|log| - 1] == old(log);
    }
  }
}
