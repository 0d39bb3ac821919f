/** The text of a command line: upper-casing, the in-place tokenizer, and the numbers in tokens. */
module CommandText {
  import opened Wrappers

  const MAX_TOKENS := 16

  /** The blanks of isspace. */
  predicate IsSpace(c: char) { c == ' ' || '\t' <= c <= '\r' }

  function ToUpper(c: char): char { if 'a' <= c <= 'z' then (c as int - 32) as char else c }

  function Upper(s: string): (r: string)
    ensures |r| == |s| && forall i | 0 <= i < |s| :: r[i] == ToUpper(s[i])
  {
    seq(|s|, i requires 0 <= i < |s| => ToUpper(s[i]))
  }

  lemma UpperAppends(a: string, b: string)
    ensures Upper(a + b) == Upper(a) + Upper(b)
  {
  }

  // ---- words ----

  predicate IsBlank(s: string) { forall i | 0 <= i < |s| :: IsSpace(s[i]) }

  predicate IsWord(s: string) { s != [] && forall i | 0 <= i < |s| :: !IsSpace(s[i]) }

  /** The length of the leading run of non-blanks. */
  function WordLength(s: string): (k: nat)
    ensures k <= |s| && (forall i | 0 <= i < k :: !IsSpace(s[i])) && (k < |s| ==> IsSpace(s[k]))
  {
    if s == [] || IsSpace(s[0]) then 0 else 1 + WordLength(s[1..])
  }

  /** The words of a line, in order. */
  function Words(s: string): seq<string>
    decreases |s|
  {
    if s == [] then []
    else if IsSpace(s[0]) then Words(s[1..])
    else [s[..WordLength(s)]] + Words(s[WordLength(s)..])
  }

  lemma {:induction false} BlankHasNoWords(s: string)
    requires IsBlank(s)
    ensures Words(s) == []
  {
    if s != [] { BlankHasNoWords(s[1..]); }
  }

  lemma WordLengthOf(s: string, k: nat)
    requires k <= |s| && (forall i | 0 <= i < k :: !IsSpace(s[i])) && (k < |s| ==> IsSpace(s[k]))
    ensures WordLength(s) == k
  {
  }

  lemma SingleWord(w: string)
    requires IsWord(w)
    ensures Words(w) == [w]
  {
    WordLengthOf(w, |w|);
    assert w[..|w|] == w && w[|w|..] == [];
  }

  lemma LeadingWord(w: string, s: string)
    requires IsWord(w) && (s != [] ==> IsSpace(s[0]))
    ensures Words(w + s) == [w] + Words(s)
  {
    WordLengthOf(w + s, |w|);
    assert (w + s)[..|w|] == w && (w + s)[|w|..] == s;
  }

  lemma FirstIsWord(s: string)
    requires s != [] && !IsSpace(s[0])
    ensures WordLength(s) > 0 && IsWord(s[..WordLength(s)])
  {
  }

  lemma PrependWord(w: string, rest: string, more: string)
    requires IsWord(w) && (rest + more != [] ==> IsSpace((rest + more)[0])) && (rest != [] ==> IsSpace(rest[0]))
    ensures Words(w + rest + more) == [w] + Words(rest + more) && Words(w + rest) == [w] + Words(rest)
  {
    hide Words;
    LeadingWord(w, rest);
    LeadingWord(w, rest + more);
    assert w + rest + more == w + (rest + more);
  }

  lemma SkipBlank(c: char, s: string)
    requires IsSpace(c)
    ensures Words([c] + s) == Words(s)
  {
    assert ([c] + s)[1..] == s;
  }

  /** A blank separates: with BlankHasNoWords and SingleWord this makes the words the maximal non-blank runs. */
  lemma {:induction false} BlankSeparatesWords(a: string, c: char, b: string)
    requires IsSpace(c)
    ensures Words(a + [c] + b) == Words(a) + Words(b)
    decreases |a|
  {
    hide Words, WordLength, IsWord;
    if a == [] {
      NoWords();
      SkipBlank(c, b);
      assert a + [c] + b == [c] + b;
    } else if IsSpace(a[0]) {
      BlankSeparatesWords(a[1..], c, b);
      SkipBlank(a[0], a[1..]);
      SkipBlank(a[0], a[1..] + [c] + b);
      assert a == [a[0]] + a[1..] && a + [c] + b == [a[0]] + (a[1..] + [c] + b);
    } else {
      var w, rest := a[..WordLength(a)], a[WordLength(a)..];
      FirstIsWord(a);
      BlankSeparatesWords(rest, c, b);
      assert rest + [c] + b == rest + ([c] + b);
      PrependWord(w, rest, [c] + b);
      assert a == w + rest && a + [c] + b == w + rest + ([c] + b);
    }
  }

  lemma NoWords()
    ensures Words([]) == []
  {
  }

  lemma {:induction false} WordsAreWords(s: string)
    ensures forall w | w in Words(s) :: IsWord(w)
    decreases |s|
  {
    if s != [] {
      if IsSpace(s[0]) {
        WordsAreWords(s[1..]);
      } else {
        WordsAreWords(s[WordLength(s)..]);
      }
    }
  }

  /** Six characters separate words, and every other one is part of a word. */
  lemma BlanksExactly(c: char)
    ensures Words(['A', c, 'B'])
         == if c in {' ', '\t', '\n', '\U{0B}', '\U{0C}', '\r'} then ["A", "B"] else [['A', c, 'B']]
  {
    if IsSpace(c) {
      SingleWord("A");
      SingleWord("B");
      BlankSeparatesWords("A", c, "B");
      assert "A" + [c] + "B" == ['A', c, 'B'] && Words("A") + Words("B") == ["A", "B"];
    } else {
      SingleWord(['A', c, 'B']);
    }
  }

  /** The letters are turned to capitals, and nothing else changes. */
  lemma UpperExactly(c: char)
    ensures Upper("abcdefghijklmnopqrstuvwxyz") == "ABCDEFGHIJKLMNOPQRSTUVWXYZ"
    ensures c !in "abcdefghijklmnopqrstuvwxyz" ==> Upper([c]) == [c]
  {
    var letters := "abcdefghijklmnopqrstuvwxyz";
    assert 'a' <= c <= 'z' ==> letters[c as int - 'a' as int] == c;
  }

  // ---- the tokenizer ----

  /** The C string that starts at position `p` of a buffer. */
  function CStringAt(buffer: string, p: int): string
    requires 0 <= p <= |buffer|
    decreases |buffer| - p
  {
    if p == |buffer| || buffer[p] == '\0' then [] else [buffer[p]] + CStringAt(buffer, p + 1)
  }

  lemma {:induction false} CStringAtIs(buffer: string, p: int, q: int)
    requires 0 <= p <= q < |buffer| && buffer[q] == '\0' && forall i | p <= i < q :: buffer[i] != '\0'
    ensures CStringAt(buffer, p) == buffer[p..q]
    decreases q - p
  {
    if p < q { CStringAtIs(buffer, p + 1, q); }
  }

  lemma {:induction false} CStringEnds(buffer: string, p: int)
    requires 0 <= p < |buffer| && '\0' in buffer[p..]
    ensures var q := p + |CStringAt(buffer, p)|;
            && q < |buffer| && buffer[q] == '\0' && CStringAt(buffer, p) == buffer[p..q]
            && forall i | p <= i < q :: buffer[i] != '\0'
    decreases |buffer| - p
  {
    if buffer[p] != '\0' {
      assert buffer[p..] == [buffer[p]] + buffer[p + 1..];
      CStringEnds(buffer, p + 1);
    }
  }

  predicate NoNul(s: string) { forall i | 0 <= i < |s| :: s[i] != '\0' }

  /** The line with its blanks replaced by NULs up to `n`. */
  ghost predicate BlankedTo(line: string, text: string, n: int) {
    && |text| < |line| && 0 <= n <= |text|
    && (forall i | 0 <= i < |text| :: line[i] == if i < n && IsSpace(text[i]) then '\0' else text[i])
    && line[|text|] == '\0'
  }

  /** Token `t` starts at `starts[t]` and runs to the next blank or to the end. */
  ghost predicate TokenAt(text: string, start: int, word: string) {
    && IsWord(word) && 0 <= start && start + |word| <= |text| && text[start..start + |word|] == word
    && (start + |word| < |text| ==> IsSpace(text[start + |word|]))
  }

  lemma TokenReads(line: string, text: string, start: int, word: string)
    requires BlankedTo(line, text, |text|) && TokenAt(text, start, word) && NoNul(text)
    ensures CStringAt(line, start) == word
  {
    var q := start + |word|;
    assert forall i | start <= i < q :: text[i] == word[i - start];
    CStringAtIs(line, start, q);
  }

  ghost predicate TokensAt(text: string, starts: seq<int>, words: seq<string>) {
    |starts| == |words| && forall t | 0 <= t < |words| :: TokenAt(text, starts[t], words[t])
  }

  lemma AppendToken(text: string, starts: seq<int>, words: seq<string>, p: int, w: string)
    requires TokensAt(text, starts, words) && TokenAt(text, p, w)
    ensures TokensAt(text, starts + [p], words + [w])
  {
  }

  lemma NextWord(text: string, p: int)
    requires 0 <= p < |text| && !IsSpace(text[p])
    ensures var q := p + WordLength(text[p..]);
            p < q <= |text| && TokenAt(text, p, text[p..q]) && Words(text[p..]) == [text[p..q]] + Words(text[q..])
  {
    var rest := text[p..];
    var k := WordLength(rest);
    assert rest[..k] == text[p..p + k] && rest[k..] == text[p + k..];
    assert forall i | 0 <= i < |rest| :: rest[i] == text[p + i];
  }

  lemma SkipWord(line: string, text: string, p: int, q: int)
    requires 0 <= p <= q <= |text| && BlankedTo(line, text, p) && TokenAt(text, p, text[p..q])
    ensures BlankedTo(line, text, q)
  {
    assert forall i | p <= i < q :: text[i] == text[p..q][i - p];
  }

  lemma WordsAfterOne(words: seq<string>, w: string, rest: seq<string>)
    ensures words + ([w] + rest) == (words + [w]) + rest
  {
  }

  lemma NextBlank(text: string, p: int)
    requires 0 <= p < |text| && IsSpace(text[p])
    ensures Words(text[p..]) == Words(text[p + 1..])
  {
    assert text[p..][0] == text[p] && text[p..][1..] == text[p + 1..];
  }

  /** What the tokenizer has established when it has reached position `p`. */
  ghost predicate Tokenized(line: string, text: string, p: int, starts: seq<int>, words: seq<string>) {
    && BlankedTo(line, text, p) && TokensAt(text, starts, words)
    && Words(text) == words + Words(text[p..])
  }

  lemma PassWord(line: string, text: string, p: int, q: int, starts: seq<int>, words: seq<string>)
    requires Tokenized(line, text, p, starts, words) && p < |text| && !IsSpace(text[p])
    requires q == p + WordLength(text[p..])
    ensures p < q <= |text| && Tokenized(line, text, q, starts + [p], words + [text[p..q]])
  {
    NextWord(text, p);
    SkipWord(line, text, p, q);
    AppendToken(text, starts, words, p, text[p..q]);
    WordsAfterOne(words, text[p..q], Words(text[q..]));
  }

  lemma PassBlank(line: string, text: string, p: int, starts: seq<int>, words: seq<string>)
    requires Tokenized(line, text, p, starts, words) && p < |text| && IsSpace(text[p])
    ensures Tokenized(line[p := '\0'], text, p + 1, starts, words)
  {
    NextBlank(text, p);
  }

  /** Where the tokenizer stands: at a character of the text, or at the NUL that ends it. */
  lemma AtCharacter(line: string, text: string, p: int, starts: seq<int>, words: seq<string>)
    requires Tokenized(line, text, p, starts, words) && NoNul(text)
    ensures 0 <= p <= |text| < |line| && |starts| == |words| && BlankedTo(line, text, p)
    ensures if p < |text| then line[p] == text[p] != '\0' else line[p] == '\0'
  {
  }

  lemma AllTokensRead(line: string, text: string, starts: seq<int>, words: seq<string>)
    requires BlankedTo(line, text, |text|) && TokensAt(text, starts, words) && NoNul(text)
    ensures forall t | 0 <= t < |words| :: 0 <= starts[t] < |line| && CStringAt(line, starts[t]) == words[t]
  {
    forall t | 0 <= t < |words|
      ensures CStringAt(line, starts[t]) == words[t]
    {
      TokenReads(line, text, starts[t], words[t]);
    }
  }

  lemma StartsTokenized(line: string)
    requires '\0' in line
    ensures var text := CStringAt(line, 0); NoNul(text) && Tokenized(line, text, 0, [], [])
  {
    assert line[0..] == line;
    CStringEnds(line, 0);
    var text := CStringAt(line, 0);
    assert text[0..] == text && [] + Words(text) == Words(text);
  }

  lemma OneMoreWord(line: string, text: string, p: int, starts: seq<int>, words: seq<string>)
    requires Tokenized(line, text, p, starts, words) && p < |text| && !IsSpace(text[p])
    ensures |Words(text)| > |starts|
  {
    NextWord(text, p);
  }

  lemma EndsTokenized(line: string, text: string, starts: seq<int>, words: seq<string>)
    requires Tokenized(line, text, |text|, starts, words) && NoNul(text)
    ensures Words(text) == words && |starts| == |words|
    ensures forall t | 0 <= t < |words| :: 0 <= starts[t] < |line| && CStringAt(line, starts[t]) == words[t]
  {
    assert text[|text|..] == [] && words + [] == words;
    AllTokensRead(line, text, starts, words);
  }

  /** The end of the word at `p`: the next blank or NUL. */
  method WordEnd(line: array<char>, p: int, ghost text: string) returns (q: int)
    requires 0 <= p < |text| && BlankedTo(line[..], text, p) && NoNul(text)
    ensures q == p + WordLength(text[p..])
  {
    q := p;
    ghost var k := WordLength(text[p..]);
    assert forall i | p <= i < |text| :: text[p..][i - p] == text[i] == line[i];
    while line[q] != '\0' && !IsSpace(line[q])
      invariant p <= q <= p + k <= |text|
      decreases |text| - q
    {
      q := q + 1;
    }
  }

  /**
   Replace the blanks of a NUL-terminated line by NULs and record where the words start.  Read back as
   C strings the recorded positions give exactly the words of the line; more than 16 words fail.
   */
  method TokenizeCommand(line: array<char>) returns (ok: bool, starts: seq<int>)
    requires '\0' in line[..]
    modifies line
    ensures ok <==> |Words(old(CStringAt(line[..], 0)))| <= 16
    ensures ok ==>
              var words := Words(old(CStringAt(line[..], 0)));
              && |starts| == |words|
              && forall t | 0 <= t < |words| ::
                   0 <= starts[t] < line.Length && CStringAt(line[..], starts[t]) == words[t]
  {
    hide Tokenized, BlankedTo, Words, WordLength, NoNul, CStringAt;
    ghost var text, words: seq<string> := CStringAt(line[..], 0), [];
    StartsTokenized(line[..]);
    var p := 0;
    starts := [];
    AtCharacter(line[..], text, p, starts, words);
    while line[p] != '\0'
      invariant 0 <= p <= |text| < line.Length && Tokenized(line[..], text, p, starts, words)
      invariant |starts| == |words| && |starts| <= MAX_TOKENS
      invariant BlankedTo(line[..], text, p) && if p < |text| then line[p] == text[p] != '\0' else line[p] == '\0'
      decreases |text| - p
    {
      if IsSpace(line[p]) {
        PassBlank(line[..], text, p, starts, words);
        ghost var before := line[..];
        line[p] := '\0';
        assert line[..] == before[p := '\0'];
        p := p + 1;
      } else {
        OneMoreWord(line[..], text, p, starts, words);
        if |starts| >= MAX_TOKENS { return false, starts; }
        var q := WordEnd(line, p, text);
        PassWord(line[..], text, p, q, starts, words);
        starts := starts + [p];
        words := words + [text[p..q]];
        p := q;
      }
      AtCharacter(line[..], text, p, starts, words);
    }
    EndsTokenized(line[..], text, starts, words);
    ok := true;
  }

  // ---- numbers ----

  predicate IsDigit(c: char) { '0' <= c <= '9' }

  function DecimalValue(digits: string): nat {
    if digits == [] || !IsDigit(digits[|digits| - 1]) then 0
    else 10 * DecimalValue(digits[..|digits| - 1]) + (digits[|digits| - 1] as int - '0' as int)
  }

  /** strtol on a token: an optional sign and at least one digit, nothing after them. */
  function ParseDecimalInt(text: string, min: int, max: int): Option<int> {
    var body := if text != [] && text[0] in "+-" then text[1..] else text;
    if body == [] || exists c | c in body :: !IsDigit(c) then None
    else
      var value: int := if text[0] == '-' then 0 - DecimalValue(body) else DecimalValue(body);
      if min <= value <= max then Some(value) else None
  }

  predicate AllDigits(s: string) { forall i | 0 <= i < |s| :: IsDigit(s[i]) }

  /** The value of some decimal digits under an optional sign. */
  ghost predicate Reads(text: string, value: int) { exists digits :: ReadsDigits(text, value, digits) }

  ghost predicate ReadsDigits(text: string, value: int, digits: string) {
    && digits != [] && AllDigits(digits)
    && (((text == digits || text == "+" + digits) && value == DecimalValue(digits))
        || (text == "-" + digits && value == 0 - DecimalValue(digits)))
  }

  /** Exactly the signed digit strings with a value in range are accepted, with any leading zeros. */
  lemma ParseDecimalExactly(text: string, min: int, max: int, value: int)
    ensures ParseDecimalInt(text, min, max) == Some(value) <==> Reads(text, value) && min <= value <= max
  {
    var body := if text != [] && text[0] in "+-" then text[1..] else text;
    if ParseDecimalInt(text, min, max) == Some(value) {
      assert forall i | 0 <= i < |body| :: body[i] in body;
      assert text == body || text == "+" + body || text == "-" + body;
      assert ReadsDigits(text, value, body);
    }
    if Reads(text, value) && min <= value <= max {
      var digits :| ReadsDigits(text, value, digits);
      assert IsDigit(digits[0]);
      assert body == digits;
    }
  }

  lemma {:induction false} LeadingZero(digits: string)
    requires AllDigits(digits)
    ensures DecimalValue("0" + digits) == DecimalValue(digits) && AllDigits("0" + digits)
  {
    if digits != [] {
      var n := |digits| - 1;
      LeadingZero(digits[..n]);
      assert ("0" + digits)[..n + 1] == "0" + digits[..n];
    } else {
      assert ("0" + digits)[..0] == [];
    }
  }

  /** Ten characters are digits, and they count from nought to nine. */
  lemma DigitsExactly(c: char)
    ensures IsDigit(c) <==> c in "0123456789"
    ensures DecimalValue("1234567890") == 1_234_567_890
  {
    var d := "1234567890";
    assert d[..9] == "123456789" && d[..9][..8] == "12345678" && "12345678"[..7] == "1234567";
    assert "1234567"[..6] == "123456" && "123456"[..5] == "12345" && "12345"[..4] == "1234";
    assert "1234"[..3] == "123" && "123"[..2] == "12" && "12"[..1] == "1" && "1"[..0] == "";
    assert DecimalValue("123") == 123;
    assert DecimalValue("123456") == 123_456;
  }

  predicate IsHexDigit(c: char) { IsDigit(c) || 'A' <= c <= 'F' || 'a' <= c <= 'f' }

  function HexDigitValue(c: char): nat {
    if IsDigit(c) then c as int - '0' as int
    else if 'A' <= c <= 'F' then c as int - 'A' as int + 10
    else if 'a' <= c <= 'f' then c as int - 'a' as int + 10
    else 0
  }

  function HexValue(digits: string): nat {
    if digits == [] then 0 else 16 * HexValue(digits[..|digits| - 1]) + HexDigitValue(digits[|digits| - 1])
  }

  predicate HasHexPrefix(text: string) { |text| >= 2 && text[0] == '0' && text[1] == 'X' }

  const ULONG_MAX := 0xffff_ffff_ffff_ffff

  /** Hexadecimal digits, with an optional 0X prefix; a negative digit count accepts any number of them. */
  function ParseHexUlong(text: string, digits: int): Option<nat> {
    var body := if HasHexPrefix(text) then text[2..] else text;
    if body == [] || (exists c | c in body :: !IsHexDigit(c)) || (digits >= 0 && |body| != digits)
       || HexValue(body) > ULONG_MAX
    then None
    else Some(HexValue(body))
  }

  predicate AllHexDigits(s: string) { forall i | 0 <= i < |s| :: IsHexDigit(s[i]) }

  /** The value of some hexadecimal digits, bare or after 0X, and as many as asked for. */
  ghost predicate ReadsHex(text: string, digits: int, value: nat) {
    exists body :: ReadsHexDigits(text, digits, value, body)
  }

  ghost predicate ReadsHexDigits(text: string, digits: int, value: nat, body: string) {
    && body != [] && AllHexDigits(body) && (digits < 0 || |body| == digits)
    && (text == body || text == "0X" + body) && value == HexValue(body)
  }

  /** Twenty-two characters are hexadecimal digits, and they count to fifteen in either case. */
  lemma HexDigitsExactly(c: char)
    ensures IsHexDigit(c) <==> c in "0123456789ABCDEFabcdef"
    ensures forall i | 0 <= i < 16 :: HexDigitValue("0123456789ABCDEF"[i]) == i
    ensures forall i | 10 <= i < 16 :: HexDigitValue("0123456789abcdef"[i]) == i
    ensures HexValue("1F") == 0x1F
  {
    assert "1F"[..1] == "1" && "1"[..0] == "";
  }

  /** Exactly these are accepted, with any leading zeros, unless the value does not fit an unsigned long. */
  lemma ParseHexExactly(text: string, digits: int, value: nat)
    ensures ParseHexUlong(text, digits) == Some(value) <==> ReadsHex(text, digits, value) && value <= ULONG_MAX
  {
    var body := if HasHexPrefix(text) then text[2..] else text;
    assert !IsHexDigit('X');
    if ParseHexUlong(text, digits) == Some(value) {
      assert forall i | 0 <= i < |body| :: body[i] in body;
      assert text == body || text == "0X" + body;
      assert ReadsHexDigits(text, digits, value, body);
    }
    if ReadsHex(text, digits, value) && value <= ULONG_MAX {
      var read :| ReadsHexDigits(text, digits, value, read);
      assert text == read && |read| >= 2 ==> IsHexDigit(read[1]);
      assert text == "0X" + read ==> text[2..] == read;
      assert body == read;
    }
  }

  lemma {:induction false} LeadingHexZero(digits: string)
    requires AllHexDigits(digits)
    ensures HexValue("0" + digits) == HexValue(digits) && AllHexDigits("0" + digits)
  {
    if digits != [] {
      var n := |digits| - 1;
      LeadingHexZero(digits[..n]);
      assert ("0" + digits)[..n + 1] == "0" + digits[..n];
    } else {
      assert ("0" + digits)[..0] == [];
    }
  }

  // ---- writing numbers ----

  function Digit(n: nat): char requires n < 10 { ('0' as int + n) as char }

  function Decimal(n: nat): (s: string)
  {
    if n < 10 then [Digit(n)] else Decimal(n / 10) + [Digit(n % 10)]
  }

  lemma {:induction false} DecimalReads(n: nat)
    ensures var d := Decimal(n); d != [] && DecimalValue(d) == n && forall i | 0 <= i < |d| :: IsDigit(d[i])
  {
    if n >= 10 {
      DecimalReads(n / 10);
      assert Decimal(n)[..|Decimal(n)| - 1] == Decimal(n / 10);
    }
  }

  /** A number reads back as itself when it is in range, and any of its spellings is one upper-case word. */
  lemma ParseDecimalOf(n: nat, min: int, max: int)
    ensures ParseDecimalInt(Decimal(n), min, max) == if min <= n <= max then Some(n) else None
    ensures IsWord(Decimal(n)) && Upper(Decimal(n)) == Decimal(n)
  {
    DecimalReads(n);
    var d := Decimal(n);
    assert IsDigit(d[0]);
  }

  function HexDigit(n: nat): (c: char)
    requires n < 16
    ensures IsHexDigit(c) && HexDigitValue(c) == n && ToUpper(c) == c && !IsSpace(c)
  {
    if n < 10 then Digit(n) else ('A' as int + n - 10) as char
  }

  function Pow16(n: nat): nat { if n == 0 then 1 else 16 * Pow16(n - 1) }

  /** The last `k` hexadecimal digits of a number. */
  function HexText(n: nat, k: nat): (s: string)
    ensures |s| == k && forall i | 0 <= i < k :: IsHexDigit(s[i]) && ToUpper(s[i]) == s[i] && !IsSpace(s[i])
  {
    if k == 0 then [] else HexText(n / 16, k - 1) + [HexDigit(n % 16)]
  }

  lemma {:induction false} HexReads(n: nat, k: nat)
    requires n < Pow16(k)
    ensures HexValue(HexText(n, k)) == n
  {
    if k > 0 {
      HexReads(n / 16, k - 1);
      assert HexText(n, k)[..k - 1] == HexText(n / 16, k - 1);
    }
  }

  lemma {:induction false} HexValueBound(digits: string)
    requires forall c | c in digits :: IsHexDigit(c)
    ensures HexValue(digits) < Pow16(|digits|)
  {
    if digits != [] { HexValueBound(digits[..|digits| - 1]); }
  }
}
