/** The blocking send of a whole buffer, against a sender that may do anything. */
module SocketIo {
  import opened Bytes

  const INT_MAX := 0x7fff_ffff

  /** What one call of the sender answers: bytes taken, zero, EINTR, or any other error. */
  datatype Answer = Wrote(n: nat) | Zero | Eintr | Error

  /** Unfinished means that the loop has used every answer it was given and would call the sender again. */
  datatype Outcome = Sent(total: nat) | TooLong | ClosedPipe | SendFailed | Unfinished

  function TakenBy(a: Answer, remaining: nat): (t: nat)
    ensures t <= remaining
  {
    if a.Wrote? then (if a.n < remaining then a.n else remaining) else 0
  }

  /** How many bytes the given answers take out of `remaining`, one call after the other. */
  function Taken(answers: seq<Answer>, remaining: nat): (t: nat)
    ensures t <= remaining
  {
    if answers == [] then 0
    else TakenBy(answers[0], remaining) + Taken(answers[1..], remaining - TakenBy(answers[0], remaining))
  }

  predicate Continues(a: Answer) { a == Eintr || (a.Wrote? && a.n > 0) }

  function EintrCount(answers: seq<Answer>): nat {
    if answers == [] then 0 else (if answers[0] == Eintr then 1 else 0) + EintrCount(answers[1..])
  }

  lemma {:induction false} TakenStep(answers: seq<Answer>, k: nat, length: nat)
    requires k < |answers|
    ensures Taken(answers[..k + 1], length)
         == Taken(answers[..k], length) + TakenBy(answers[k], length - Taken(answers[..k], length))
    ensures EintrCount(answers[..k + 1]) == EintrCount(answers[..k]) + (if answers[k] == Eintr then 1 else 0)
  {
    if k == 0 {
      assert answers[..1] == [answers[0]] && answers[..0] == [];
    } else {
      TakenStep(answers[1..], k - 1, length - TakenBy(answers[0], length));
      assert answers[..k + 1][1..] == answers[1..][..k];
      assert answers[..k][1..] == answers[1..][..k - 1];
    }
  }

  /**
   The bytes the sender takes are always a prefix of the buffer, in order.  Success means the whole buffer;
   failure means an oversize length, a zero write or an error other than EINTR; and the loop outlives its
   answers only by being interrupted.
   */
  ghost predicate SendsWell(buffer: seq<byte>, answers: seq<Answer>, outcome: Outcome, wire: seq<byte>, used: nat)
    requires used <= |answers|
  {
    && |wire| == Taken(answers[..used], |buffer|) && wire == buffer[..|wire|]
    && (forall i | 0 <= i < used - 1 :: Continues(answers[i]))
    && (outcome == TooLong <==> |buffer| > 0x7fff_ffff)
    && (outcome == TooLong ==> used == 0)
    && (outcome.Sent? ==> outcome.total == |buffer| && wire == buffer)
    && (outcome == ClosedPipe <==> used > 0 && answers[used - 1] in {Zero, Wrote(0)})
    && (outcome == SendFailed <==> used > 0 && answers[used - 1] == Error)
    && (outcome == Unfinished ==> |wire| < |buffer| && |answers| <= |wire| + EintrCount(answers))
  }

  /** The loop of send_all_impl. */
  method SendAll(buffer: seq<byte>, answers: seq<Answer>) returns (outcome: Outcome, wire: seq<byte>, used: nat)
    ensures used <= |answers| && SendsWell(buffer, answers, outcome, wire, used)
  {
    wire, used := [], 0;
    if |buffer| > INT_MAX { return TooLong, wire, used; }
    var cursor, remaining := 0, |buffer|;
    while remaining > 0
      invariant 0 <= used <= |answers| && 0 <= cursor && 0 <= remaining && cursor + remaining == |buffer|
      invariant wire == buffer[..cursor] && cursor == Taken(answers[..used], |buffer|)
      invariant forall i | 0 <= i < used :: Continues(answers[i])
      invariant used <= cursor + EintrCount(answers[..used])
      decreases |answers| - used
    {
      if used == |answers| {
        assert answers[..used] == answers;
        return Unfinished, wire, used;
      }
      TakenStep(answers, used, |buffer|);
      var answer := answers[used];
      used := used + 1;
      match answer {
        case Wrote(n) =>
          if n == 0 { return ClosedPipe, wire, used; }
          var written := if n < remaining then n else remaining;
          wire := wire + buffer[cursor..cursor + written];
          cursor, remaining := cursor + written, remaining - written;
        case Zero => return ClosedPipe, wire, used;
        case Eintr =>
        case Error => return SendFailed, wire, used;
      }
    }
    outcome := Sent(|buffer|);
  }

  /** With finitely many interruptions the loop needs at most one answer per byte, plus those. */
  method SendAllTerminates(buffer: seq<byte>, answers: seq<Answer>) returns (outcome: Outcome)
    requires |answers| >= |buffer| + EintrCount(answers)
    ensures outcome != Unfinished
  {
    var wire, used;
    outcome, wire, used := SendAll(buffer, answers);
  }
}
