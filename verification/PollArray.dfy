/** Poll records and the arrays that grow to hold them. */
module PollArray {
  const POLLIN := 1
  const POLLOUT := 4
  const ENOMEM := 12
  const FIRST_CAPACITY := 8

  datatype PollFd = PollFd(fd: int, events: int)

  /** Double the capacity until it suffices, keeping what the array holds. */
  method EnsureCapacity(fds: array<PollFd>, needed: int, canAllocate: bool) returns (r: int, grown: array<PollFd>)
    ensures r == if needed <= fds.Length || canAllocate then 0 else -12
    ensures r < 0 || needed <= fds.Length ==> grown == fds
    ensures r == 0 ==> needed <= grown.Length && fds.Length <= grown.Length && grown[..fds.Length] == fds[..]
    ensures grown == fds || (fresh(grown) && grown.Length < 2 * needed + FIRST_CAPACITY)
  {
    if needed <= fds.Length { return 0, fds; }
    var capacity := if fds.Length > 0 then fds.Length else FIRST_CAPACITY;
    while capacity < needed
      invariant fds.Length <= capacity && 0 < capacity && (capacity < 2 * needed || capacity == FIRST_CAPACITY)
      decreases needed - capacity
    {
      capacity := capacity * 2;
    }
    if !canAllocate { return -ENOMEM, fds; }
    grown := new PollFd[capacity](i => PollFd(0, 0));
    forall i | 0 <= i < fds.Length { grown[i] := fds[i]; }
    r := 0;
  }

  predicate Lists(records: seq<PollFd>, fd: int) { exists i | 0 <= i < |records| :: records[i].fd == fd }

  predicate Distinct(records: seq<PollFd>) {
    forall i, j | 0 <= i < j < |records| :: records[i].fd != records[j].fd
  }

  /** The records without the first one for a descriptor. */
  function Without(records: seq<PollFd>, fd: int): seq<PollFd> {
    if records == [] then []
    else if records[0].fd == fd then records[1..]
    else [records[0]] + Without(records[1..], fd)
  }

  lemma {:induction false} WithoutAt(records: seq<PollFd>, fd: int, i: int)
    requires 0 <= i <= |records| && (forall j | 0 <= j < i :: records[j].fd != fd)
    requires i < |records| ==> records[i].fd == fd
    ensures Without(records, fd) == if i < |records| then records[..i] + records[i + 1..] else records
  {
    if 0 < i {
      WithoutAt(records[1..], fd, i - 1);
      assert records[..i] == [records[0]] + records[1..][..i - 1];
    }
  }

  /** Removing a descriptor that was just added gives back the records there were. */
  lemma {:induction false} RemoveUndoesAdd(records: seq<PollFd>, p: PollFd)
    requires !Lists(records, p.fd)
    ensures Without(records + [p], p.fd) == records
  {
    WithoutAt(records + [p], p.fd, |records|);
  }

  /** In a list of distinct descriptors a removal takes out exactly one, and the rest stay distinct and in order. */
  lemma RemovedIsGone(records: seq<PollFd>, fd: int)
    requires Distinct(records)
    ensures Distinct(Without(records, fd)) && !Lists(Without(records, fd), fd)
    ensures forall p: PollFd | p.fd != fd :: p in Without(records, fd) <==> p in records
    ensures |Without(records, fd)| == |records| - (if Lists(records, fd) then 1 else 0)
  {
    hide Without;
    if i :| 0 <= i < |records| && records[i].fd == fd {
      WithoutAt(records, fd, i);
      TakenOut(records, i);
    } else {
      WithoutAt(records, fd, |records|);
    }
  }

  lemma TakenOut(records: seq<PollFd>, i: int)
    requires Distinct(records) && 0 <= i < |records|
    ensures var rest := records[..i] + records[i + 1..];
            && Distinct(rest) && !Lists(rest, records[i].fd)
            && forall p: PollFd | p.fd != records[i].fd :: p in rest <==> p in records
  {
    var rest := records[..i] + records[i + 1..];
    assert forall j | 0 <= j < |rest| :: rest[j] == records[if j < i then j else j + 1];
    forall p: PollFd | p.fd != records[i].fd
      ensures p in rest <==> p in records
    {
      if p in records {
        var j :| 0 <= j < |records| && records[j] == p;
        assert p == rest[if j < i then j else j - 1];
      }
    }
  }

  /** The descriptors libusb wants polled; libusb announces each addition and removal. */
  class UsbPollFds {
    var fds: array<PollFd>
    var n: nat
    var error: int

    ghost predicate Valid()
      reads this
    {
      n <= fds.Length
    }

    ghost function Records(): seq<PollFd>
      requires Valid()
      reads this, fds
    {
      fds[..n]
    }

    constructor ()
      ensures Valid() && Records() == [] && error == 0 && fresh(fds)
    {
      fds := new PollFd[0];
      n, error := 0, 0;
    }

    method Add(fd: int, events: int, canAllocate: bool)
      requires Valid()
      modifies this, fds
      ensures Valid() && (fds == old(fds) || fresh(fds))
      ensures if old(|Records()|) < old(fds.Length) || canAllocate
              then Records() == old(Records()) + [PollFd(fd, events)] && error == old(error)
              else Records() == old(Records()) && error == -ENOMEM
    {
      var r, grown := EnsureCapacity(fds, n + 1, canAllocate);
      if r < 0 {
        error := r;
        return;
      }
      assert grown[..fds.Length][..n] == grown[..n];
      fds := grown;
      fds[n] := PollFd(fd, events);
      n := n + 1;
    }

    method Remove(fd: int)
      requires Valid()
      modifies `n, fds
      ensures Valid() && Records() == Without(old(Records()), fd)
    {
      var i := 0;
      while i < n
        invariant 0 <= i <= n && n == old(n) && fds[..] == old(fds[..])
        invariant forall j | 0 <= j < i :: fds[j].fd != fd
      {
        if fds[i].fd == fd {
          WithoutAt(fds[..n], fd, i);
          forall j | i <= j < n - 1 { fds[j] := fds[j + 1]; }
          n := n - 1;
          assert fds[..n] == old(fds[..n])[..i] + old(fds[..n])[i + 1..];
          return;
        }
        i := i + 1;
      }
      WithoutAt(fds[..n], fd, n);
    }
  }
}
