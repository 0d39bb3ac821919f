/**
 Cutting a client's byte stream into command lines.  The loop keeps at most 79 bytes of an
 unfinished line; the byte after the 79th starts discarding, whatever it is.
 */
module Framing {
  import C = CommandText

  const BUFFER_SIZE := 80
  const MAX_STORED := 79

  predicate IsDelimiter(c: char) { c == '\n' || c == '\r' || c == '\0' }

  predicate IsPlain(s: string) { forall i | 0 <= i < |s| :: !IsDelimiter(s[i]) }

  /** The unfinished line, and whether input is being dropped up to the next delimiter. */
  datatype Framer = Framer(stored: string, discarding: bool) {
    predicate Sound() { IsPlain(stored) && |stored| <= MAX_STORED && (discarding ==> stored == []) }
  }

  // ---- one byte at a time ----

  function FeedByte(f: Framer, c: char): (Framer, seq<string>) {
    if f.discarding then (Framer([], !IsDelimiter(c)), [])
    else if |f.stored| >= MAX_STORED then (Framer([], true), [])
    else if IsDelimiter(c) then (Framer([], false), if f.stored != [] then [f.stored] else [])
    else (Framer(f.stored + [c], false), [])
  }

  function Feed(f: Framer, input: string): (Framer, seq<string>)
    decreases |input|
  {
    if input == [] then (f, [])
    else
      var (g, first) := FeedByte(f, input[0]);
      var (h, rest) := Feed(g, input[1..]);
      (h, first + rest)
  }

  lemma {:induction false} FeedAppends(f: Framer, a: string, b: string)
    ensures var (g, first) := Feed(f, a); var (h, second) := Feed(g, b); Feed(f, a + b) == (h, first + second)
    decreases |a|
  {
    if a == [] {
      assert [] + b == b && [] + Feed(f, b).1 == Feed(f, b).1;
    } else {
      var (g, first) := FeedByte(f, a[0]);
      FeedAppends(g, a[1..], b);
      var (h, rest) := Feed(g, a[1..]);
      assert (a + b)[1..] == a[1..] + b;
      assert first + (rest + Feed(h, b).1) == (first + rest) + Feed(h, b).1;
    }
  }

  // ---- chunk independence ----

  function Concat(chunks: seq<string>): string { if chunks == [] then [] else chunks[0] + Concat(chunks[1..]) }

  function FeedChunks(f: Framer, chunks: seq<string>): (Framer, seq<string>)
    decreases |chunks|
  {
    if chunks == [] then (f, [])
    else
      var (g, first) := Feed(f, chunks[0]);
      var (h, rest) := FeedChunks(g, chunks[1..]);
      (h, first + rest)
  }

  /** How the network splits a stream into reads changes neither the lines nor the final state. */
  lemma {:induction false} ChunksDoNotMatter(f: Framer, chunks: seq<string>)
    ensures FeedChunks(f, chunks) == Feed(f, Concat(chunks))
    decreases |chunks|
  {
    if chunks != [] {
      ChunksDoNotMatter(Feed(f, chunks[0]).0, chunks[1..]);
      FeedAppends(f, chunks[0], Concat(chunks[1..]));
    }
  }

  // ---- the lines of a whole stream ----

  /** The length of the part before the first delimiter. */
  function LineLength(s: string): (k: nat)
    ensures k <= |s| && IsPlain(s[..k]) && (k < |s| ==> IsDelimiter(s[k]))
  {
    if s == [] || IsDelimiter(s[0]) then 0
    else
      var k := LineLength(s[1..]);
      assert s[..k + 1] == [s[0]] + s[1..][..k];
      k + 1
  }

  /** The delimited lines of a stream, empty ones included; an unfinished last line is not one. */
  function Terminated(s: string): seq<string>
    decreases |s|
  {
    var k := LineLength(s);
    if k == |s| then [] else [s[..k]] + Terminated(s[k + 1..])
  }

  function Deliverable(line: string): seq<string> { if 0 < |line| < MAX_STORED then [line] else [] }

  /**
   Non-empty lines of at most 78 bytes are delivered.  A longer line is dropped; when it has exactly
   79 bytes its own delimiter starts the discarding, and with that the whole next line is lost.
   */
  function Keep(lines: seq<string>): seq<string> {
    if lines == [] then []
    else if |lines[0]| == MAX_STORED then KeepAfterFirst(lines[1..])
    else Deliverable(lines[0]) + Keep(lines[1..])
  }

  function KeepAfterFirst(lines: seq<string>): seq<string> { if lines == [] then [] else Keep(lines[1..]) }

  function Lines(s: string): seq<string> { Keep(Terminated(s)) }

  function LinesAfterNext(s: string): seq<string> { KeepAfterFirst(Terminated(s)) }

  lemma LineLengthOf(s: string, k: nat)
    requires k < |s| && IsPlain(s[..k]) && IsDelimiter(s[k])
    ensures LineLength(s) == k
  {
    var m := LineLength(s);
    assert forall i | 0 <= i < k :: s[..k][i] == s[i];
    assert forall i | 0 <= i < m :: s[..m][i] == s[i];
  }

  lemma NoDelimiterIn(s: string)
    requires IsPlain(s)
    ensures LineLength(s) == |s|
  {
  }

  lemma PlainAppends(a: string, b: string)
    requires IsPlain(a) && IsPlain(b)
    ensures IsPlain(a + b)
  {
  }

  lemma DropThroughDelimiter(plain: string, s: string)
    requires IsPlain(plain)
    ensures LineLength(plain + s) == |plain| + LineLength(s)
    ensures LineLength(s) < |s| ==> (plain + s)[LineLength(plain + s) + 1..] == s[LineLength(s) + 1..]
  {
    hide LineLength, IsPlain;
    var k, t := LineLength(s), plain + s;
    assert t[..|plain| + k] == plain + s[..k];
    PlainAppends(plain, s[..k]);
    if k < |s| {
      LineLengthOf(t, |plain| + k);
      assert t[|plain| + (k + 1)..] == s[k + 1..];
    } else {
      assert t == t[..|plain| + k];
      NoDelimiterIn(t);
    }
  }

  lemma LinesAtDelimiter(stored: string, c: char, rest: string)
    requires IsPlain(stored) && |stored| < MAX_STORED && IsDelimiter(c)
    ensures Lines(stored + [c] + rest) == (if stored != [] then [stored] else []) + Lines(rest)
  {
    var t := stored + [c] + rest;
    assert t[..|stored|] == stored;
    LineLengthOf(t, |stored|);
    assert t[|stored| + 1..] == rest;
    assert Terminated(t)[1..] == Terminated(rest);
  }

  lemma LinesAtFull(stored: string, c: char, rest: string)
    requires IsPlain(stored) && |stored| == MAX_STORED
    ensures Lines(stored + [c] + rest) == LinesAfterNext(rest)
  {
    var t := stored + [c] + rest;
    if IsDelimiter(c) {
      assert t[..|stored|] == stored;
      LineLengthOf(t, |stored|);
      assert t[|stored| + 1..] == rest;
    } else {
      DropThroughDelimiter(stored + [c], rest);
    }
  }

  lemma LinesAfterNextStep(c: char, rest: string)
    ensures LinesAfterNext([c] + rest) == if IsDelimiter(c) then Lines(rest) else LinesAfterNext(rest)
  {
    var t := [c] + rest;
    if IsDelimiter(c) {
      LineLengthOf(t, 0);
      assert t[1..] == rest;
    } else {
      DropThroughDelimiter([c], rest);
    }
  }

  /** What a framer delivers for the input it is given next. */
  function LinesFrom(f: Framer, input: string): seq<string> {
    if f.discarding then LinesAfterNext(input) else Lines(f.stored + input)
  }

  lemma LinesFromStep(f: Framer, c: char, rest: string)
    requires f.Sound()
    ensures FeedByte(f, c).0.Sound()
    ensures LinesFrom(f, [c] + rest) == FeedByte(f, c).1 + LinesFrom(FeedByte(f, c).0, rest)
  {
    hide Lines, LinesAfterNext;
    assert [] + rest == rest;
    var after := LinesFrom(FeedByte(f, c).0, rest);
    assert [] + after == after;
    if f.discarding {
      LinesAfterNextStep(c, rest);
    } else {
      assert f.stored + ([c] + rest) == f.stored + [c] + rest;
      if |f.stored| >= MAX_STORED {
        LinesAtFull(f.stored, c, rest);
      } else if IsDelimiter(c) {
        LinesAtDelimiter(f.stored, c, rest);
      }
    }
  }

  /** The byte loop delivers exactly these lines, from any state it can be in. */
  lemma {:induction false} FeedDeliversLines(f: Framer, input: string)
    requires f.Sound()
    ensures Feed(f, input).0.Sound() && Feed(f, input).1 == LinesFrom(f, input)
    decreases |input|
  {
    if input == [] {
      DropThroughDelimiter(f.stored, []);
    } else {
      var c, rest := input[0], input[1..];
      assert input == [c] + rest;
      LinesFromStep(f, c, rest);
      FeedDeliversLines(FeedByte(f, c).0, rest);
    }
  }

  /** Any reads of a stream deliver what the splitter finds in the whole of it. */
  lemma StreamDeliversLines(chunks: seq<string>)
    ensures FeedChunks(Framer([], false), chunks).1 == Lines(Concat(chunks))
  {
    ChunksDoNotMatter(Framer([], false), chunks);
    FeedDeliversLines(Framer([], false), Concat(chunks));
    assert [] + Concat(chunks) == Concat(chunks);
  }

  /** No newline, carriage return or NUL. */
  predicate IsOneLine(s: string) { '\n' !in s && '\r' !in s && '\0' !in s }

  lemma OneLineIsPlain(s: string)
    ensures IsOneLine(s) <==> IsPlain(s)
  {
  }

  /**
   What becomes of a line by its length: 1 to 78 bytes are delivered, none and 80 or more are not, and with
   exactly 79 the next line goes too.
   */
  lemma LinesByLength(line: string, end: char, rest: string)
    requires IsOneLine(line) && end in {'\n', '\r', '\0'}
    ensures Lines(line + [end] + rest)
         == if 1 <= |line| <= 78 then [line] + Lines(rest)
            else if |line| == 79 then LinesAfterNext(rest) else Lines(rest)
  {
    OneLineIsPlain(line);
    var t := line + [end] + rest;
    assert t[..|line|] == line;
    LineLengthOf(t, |line|);
    assert t[|line| + 1..] == rest && Terminated(t)[1..] == Terminated(rest);
    assert [] + Lines(rest) == Lines(rest);
  }

  /** The line after such a one is dropped whatever its length. */
  lemma NextLineGoes(line: string, end: char, rest: string)
    requires IsOneLine(line) && end in {'\n', '\r', '\0'}
    ensures LinesAfterNext(line + [end] + rest) == Lines(rest)
  {
    OneLineIsPlain(line);
    var t := line + [end] + rest;
    assert t[..|line|] == line;
    LineLengthOf(t, |line|);
    assert t[|line| + 1..] == rest && Terminated(t)[1..] == Terminated(rest);
  }

  /** What no delimiter ends is not delivered yet. */
  lemma UnfinishedLineWaits(line: string)
    requires IsOneLine(line)
    ensures Lines(line) == [] && LinesAfterNext(line) == []
  {
    OneLineIsPlain(line);
    NoDelimiterIn(line);
  }

  // ---- the documented rule ----

  /** Each line on its own: delivered when it has 1 to 78 bytes, dropped otherwise. */
  function KeepEach(lines: seq<string>): seq<string> {
    if lines == [] then [] else Deliverable(lines[0]) + KeepEach(lines[1..])
  }

  /** Some deliverable line comes right after a 79-byte line that starts the discarding. */
  predicate LosesALine(lines: seq<string>) {
    lines != [] &&
    if |lines[0]| != MAX_STORED then LosesALine(lines[1..])
    else |lines| > 1 && (Deliverable(lines[1]) != [] || LosesALine(lines[2..]))
  }

  lemma {:induction false} EachIsKeptExactlyWhenNoneIsLost(lines: seq<string>)
    ensures |Keep(lines)| <= |KeepEach(lines)|
    ensures Keep(lines) == KeepEach(lines) <==> !LosesALine(lines)
  {
    if lines != [] {
      var rest := lines[1..];
      if |lines[0]| != MAX_STORED {
        EachIsKeptExactlyWhenNoneIsLost(rest);
        SameHead(Deliverable(lines[0]), Keep(rest), KeepEach(rest));
      } else if rest != [] {
        assert rest[1..] == lines[2..];
        EachIsKeptExactlyWhenNoneIsLost(lines[2..]);
        assert KeepEach(lines) == KeepEach(rest) == Deliverable(rest[0]) + KeepEach(lines[2..]);
      }
    }
  }

  lemma SameHead(head: seq<string>, a: seq<string>, b: seq<string>)
    ensures head + a == head + b <==> a == b
  {
    assert (head + a)[|head|..] == a && (head + b)[|head|..] == b;
  }

  /** Reads of a stream deliver what the documented rule promises exactly when no line is lost that way. */
  lemma DocumentedExactlyWhenNothingIsLost(chunks: seq<string>)
    ensures FeedChunks(Framer([], false), chunks).1 == KeepEach(Terminated(Concat(chunks)))
       <==> !LosesALine(Terminated(Concat(chunks)))
  {
    StreamDeliversLines(chunks);
    EachIsKeptExactlyWhenNoneIsLost(Terminated(Concat(chunks)));
  }

  /** A stream on which it fails: the line after one of 79 bytes is lost with it. */
  lemma LineAfterSeventyNineBytesIsLost(long: string, next: string)
    requires |long| == 79 && IsOneLine(long) && IsOneLine(next)
    ensures Feed(Framer([], false), long + "\n" + next + "\n").1 == []
  {
    var t := next + "\n";
    OneLineIsPlain(long);
    OneLineIsPlain(next);
    LinesAtFull(long, '\n', t);
    assert t[..|next|] == next;
    LineLengthOf(t, |next|);
    var none := t[|next| + 1..];
    assert none == [] && LineLength(none) == 0;
    assert Terminated(t)[1..] == Terminated(none) == [];
    assert KeepAfterFirst(Terminated(t)) == Keep([]) == [];
    assert long + "\n" + next + "\n" == long + ['\n'] + t;
    FeedDeliversLines(Framer([], false), long + "\n" + next + "\n");
    assert [] + (long + "\n" + next + "\n") == long + "\n" + next + "\n";
  }

  class EncodeState {
    const remainder: array<char>
    var remlen: int
    var discarding: bool

    ghost predicate Valid()
      reads this, remainder
    {
      remainder.Length == BUFFER_SIZE && 0 <= remlen <= MAX_STORED && Abs().Sound()
    }

    ghost function Abs(): Framer
      reads this, remainder
      requires 0 <= remlen <= remainder.Length
    {
      Framer(remainder[..remlen], discarding)
    }

    constructor ()
      ensures Valid() && Abs() == Framer([], false) && fresh(remainder)
    {
      remainder := new char[BUFFER_SIZE](_ => '\0');
      remlen, discarding := 0, false;
    }

    /** Feed one read into the stream; the lines are handed to the command interpreter in this order. */
    method Encode(buf: string) returns (lines: seq<string>)
      requires Valid()
      modifies this, remainder
      ensures Valid() && (Abs(), lines) == Feed(old(Abs()), buf)
    {
      lines := [];
      var i, rem := 0, remlen;
      ghost var start := Abs();
      while i < |buf|
        invariant 0 <= i <= |buf| && 0 <= rem <= MAX_STORED
        invariant Framer(remainder[..rem], discarding).Sound()
        invariant Feed(start, buf[..i]) == (Framer(remainder[..rem], discarding), lines)
      {
        ghost var f := Framer(remainder[..rem], discarding);
        ghost var before := lines;
        assert before + [] == before;
        if discarding {
          if IsDelimiter(buf[i]) { discarding := false; }
          assert Framer(remainder[..rem], discarding) == FeedByte(f, buf[i]).0;
        } else if rem >= BUFFER_SIZE - 1 {
          remainder[0] := '\0';
          discarding := true;
          rem := 0;
          assert Framer(remainder[..rem], discarding) == FeedByte(f, buf[i]).0;
        } else {
          remainder[rem] := buf[i];
          if IsDelimiter(remainder[rem]) {
            remainder[rem] := '\0';
            assert remainder[..][..rem] == f.stored;
            C.CStringAtIs(remainder[..], 0, rem);
            var line := C.CStringAt(remainder[..], 0);
            if |line| > 0 { lines := lines + [line]; }
            rem := 0;
            assert Framer(remainder[..rem], discarding) == FeedByte(f, buf[i]).0;
          } else {
            rem := rem + 1;
            assert remainder[..rem] == f.stored + [buf[i]];
            assert Framer(remainder[..rem], discarding) == FeedByte(f, buf[i]).0;
          }
        }
        FeedOne(start, buf[..i], buf[i], f, before);
        assert buf[..i + 1] == buf[..i] + [buf[i]];
        i := i + 1;
      }
      remlen := rem;
      assert buf[..i] == buf;
    }
  }

  lemma FeedOne(start: Framer, input: string, c: char, f: Framer, lines: seq<string>)
    requires Feed(start, input) == (f, lines)
    ensures Feed(start, input + [c]) == (FeedByte(f, c).0, lines + FeedByte(f, c).1)
  {
    FeedAppends(start, input, [c]);
    var (g, first) := FeedByte(f, c);
    assert Feed(g, [c][1..]) == (g, []);
    assert first + [] == first;
  }
}
