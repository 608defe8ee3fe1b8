/**
 Message framing: the header part and content part of the base protocol of the Language
 Server Protocol Specification 3.17. A byte is modelled as a character.
 */
module LspFraming {
  import opened Text
  import opened LetterCase

  // ----- Decimal numbers -----

  const MAX_INT: int := 0x7fff_ffff_ffff_ffff

  function DigitChar(d: nat): char
    requires d < 10
  {
    ('0' as int + d) as char
  }

  predicate IsDigit(c: char) { '0' <= c <= '9' }

  /** `strconv.Itoa` of a non-negative number. */
  function Itoa(n: nat): (s: string)
    ensures s != "" && forall k :: 0 <= k < |s| ==> IsDigit(s[k])
  {
    if n < 10 then [DigitChar(n)] else Itoa(n / 10) + [DigitChar(n % 10)]
  }

  predicate AllDigits(s: string) {
    forall k :: 0 <= k < |s| ==> IsDigit(s[k])
  }

  function Value(s: string): nat
    requires AllDigits(s)
  {
    if s == "" then 0
    else
      assert IsDigit(s[|s| - 1]);
      Value(s[..|s| - 1]) * 10 + (s[|s| - 1] as int - '0' as int)
  }

  lemma {:induction false} ValueOfItoa(n: nat)
    ensures Value(Itoa(n)) == n
  {
    if n >= 10 {
      ValueOfItoa(n / 10);
      assert Itoa(n)[..|Itoa(n)| - 1] == Itoa(n / 10);
    } else {
      assert Itoa(n)[..0] == "";
    }
  }

  datatype Parsed = Number(n: int) | NotANumber

  /** `strconv.Atoi`: an optional sign, then digits, within 64 bits. */
  function Atoi(s: string): Parsed {
    var signed := s != "" && (s[0] == '-' || s[0] == '+');
    var digits := if signed then s[1..] else s;
    if digits == "" || !AllDigits(digits) then NotANumber
    else
      var m: int := Value(digits);
      var v := if signed && s[0] == '-' then -m else m;
      if -MAX_INT - 1 <= v <= MAX_INT then Number(v) else NotANumber
  }

  lemma AtoiOfItoa(n: nat)
    requires n <= MAX_INT
    ensures Atoi(Itoa(n)) == Number(n)
  {
    ValueOfItoa(n);
    assert IsDigit(Itoa(n)[0]);
  }

  // ----- Reading one message -----

  datatype Error = EndOfInput | InvalidLength | NoLength | ShortBody

  function IndexOfChar(s: string, c: char): (r: int)
    ensures r == -1 <==> c !in s
    ensures r != -1 ==> 0 <= r < |s| && s[r] == c && c !in s[..r]
  {
    if s == "" then -1
    else if s[0] == c then 0
    else
      var r := IndexOfChar(s[1..], c);
      assert s == [s[0]] + s[1..];
      assert r >= 0 ==> s[..r + 1] == [s[0]] + s[1..][..r];
      if r < 0 then -1 else r + 1
  }

  /** `strings.TrimRight(line, "\r\n")`. */
  function TrimEol(s: string): (r: string)
    ensures |r| <= |s| && r == s[..|r|]
    ensures r == "" || (r[|r| - 1] != '\r' && r[|r| - 1] != '\n')
    ensures forall k :: |r| <= k < |s| ==> s[k] == '\r' || s[k] == '\n'
  {
    if s != "" && (s[|s| - 1] == '\r' || s[|s| - 1] == '\n') then TrimEol(s[..|s| - 1]) else s
  }

  const CONTENT_LENGTH := "Content-Length"

  /** What one header line does: end the header, set the length, fail, or nothing. */
  datatype Effect = Blank | Length(n: int) | Invalid | Ignored

  function EffectOf(raw: string): Effect {
    var line := TrimEol(raw);
    if line == "" then Blank
    else
      var colon := IndexOfChar(line, ':');
      if colon < 0 then Ignored
      else if Lower(TrimSpace(line[..colon])) != Lower(CONTENT_LENGTH) then Ignored
      else match Atoi(TrimSpace(line[colon + 1..])) case Number(n) => Length(n) case NotANumber => Invalid
  }

  datatype Read = Message(body: string, rest: string) | Failed(error: Error)

  datatype Header = Header(length: int, rest: string) | HeaderFailed(error: Error)

  /** Reading the header part; the last length line wins. */
  function ReadHeader(input: string, length: int): (h: Header)
    ensures h.Header? ==> |h.rest| < |input|
    decreases |input|
  {
    var i := IndexOfChar(input, '\n');
    if i < 0 then HeaderFailed(EndOfInput)
    else
      var rest := input[i + 1..];
      match EffectOf(input[..i + 1])
      case Blank => Header(length, rest)
      case Length(n) => ReadHeader(rest, n)
      case Invalid => HeaderFailed(InvalidLength)
      case Ignored => ReadHeader(rest, length)
  }

  function ReadFrame(input: string): Read {
    match ReadHeader(input, 0)
    case HeaderFailed(e) => Failed(e)
    case Header(length, rest) =>
      if length <= 0 then Failed(NoLength)
      else if |rest| < length then Failed(ShortBody)
      else Message(rest[..length], rest[length..])
  }

  lemma HeaderUnfolds(input: string, length: int)
    ensures var i := IndexOfChar(input, '\n');
            ReadHeader(input, length) ==
            if i < 0 then HeaderFailed(EndOfInput)
            else match EffectOf(input[..i + 1])
                 case Blank => Header(length, input[i + 1..])
                 case Length(n) => ReadHeader(input[i + 1..], n)
                 case Invalid => HeaderFailed(InvalidLength)
                 case Ignored => ReadHeader(input[i + 1..], length)
  {
    hide EffectOf, IndexOfChar;
  }

  /** The buffered reader: the bytes not read yet. */
  class Reader {
    var rest: string

    constructor (input: string)
      ensures rest == input
    {
      rest := input;
    }

    /** Up to and including the next newline. */
    method ReadLine() returns (ok: bool, line: string)
      modifies this
      ensures var i := IndexOfChar(old(rest), '\n');
              && ok == (i >= 0)
              && line == old(rest)[..if ok then i + 1 else |old(rest)|]
              && rest == old(rest)[if ok then i + 1 else |old(rest)|..]
    {
      var i := IndexOfChar(rest, '\n');
      if i < 0 {
        line, rest := rest, "";
        return false, line;
      }
      line, rest := rest[..i + 1], rest[i + 1..];
      return true, line;
    }

    method ReadFull(n: nat) returns (ok: bool, bytes: string)
      modifies this
      ensures ok == (n <= |old(rest)|)
      ensures ok ==> bytes == old(rest)[..n] && rest == old(rest)[n..]
    {
      if |rest| < n {
        bytes, rest := rest, "";
        return false, bytes;
      }
      bytes, rest := rest[..n], rest[n..];
      return true, bytes;
    }
  }

  /** One turn of the header loop, up to what it does with the length. */
  method HeaderEffect(raw: string) returns (effect: Effect)
    ensures effect == EffectOf(raw)
  {
    hide EffectOf, TrimSpace, TrimEol, IndexOfChar, Lower, Atoi;
    EffectSteps(raw);
    var line := TrimEol(raw);
    if line == "" { return Blank; }
    var colon := IndexOfChar(line, ':');
    if colon < 0 { return Ignored; }
    var name := TrimSpace(line[..colon]);
    var value := TrimSpace(line[colon + 1..]);
    if Lower(name) == Lower(CONTENT_LENGTH) {
      match Atoi(value) {
        case NotANumber => return Invalid;
        case Number(n) => return Length(n);
      }
    }
    return Ignored;
  }

  method ReadMessage(r: Reader) returns (ok: bool, body: string, error: Error)
    modifies r
    ensures match ReadFrame(old(r.rest))
            case Message(b, rest) => ok && body == b && r.rest == rest
            case Failed(e) => !ok && error == e
  {
    hide EffectOf, ReadHeader, IndexOfChar;
    var contentLength := 0;
    body, error := "", EndOfInput;
    while true
      invariant ReadHeader(r.rest, contentLength) == ReadHeader(old(r.rest), 0)
      decreases |r.rest|
    {
      HeaderUnfolds(r.rest, contentLength);
      var got, raw := r.ReadLine();
      if !got { return false, "", EndOfInput; }
      var effect := HeaderEffect(raw);
      match effect {
        case Blank => break;
        case Length(n) => contentLength := n;
        case Invalid => return false, "", InvalidLength;
        case Ignored =>
      }
    }
    if contentLength <= 0 { return false, "", NoLength; }
    var full, bytes := r.ReadFull(contentLength);
    if !full { return false, "", ShortBody; }
    return true, bytes, EndOfInput;
  }

  lemma EffectSteps(raw: string)
    ensures var line := TrimEol(raw);
            var colon := IndexOfChar(line, ':');
            && (line == "" ==> EffectOf(raw) == Blank)
            && (line != "" && colon < 0 ==> EffectOf(raw) == Ignored)
            && (line != "" && colon >= 0 && Lower(TrimSpace(line[..colon])) != Lower(CONTENT_LENGTH) ==>
                EffectOf(raw) == Ignored)
            && (line != "" && colon >= 0 && Lower(TrimSpace(line[..colon])) == Lower(CONTENT_LENGTH) ==>
                EffectOf(raw) == match Atoi(TrimSpace(line[colon + 1..]))
                                 case Number(n) => Length(n)
                                 case NotANumber => Invalid)
  {
    hide TrimEol, IndexOfChar, TrimSpace, Atoi, Lower;
  }

  // ----- Writing, and reading back -----

  function LengthLine(n: nat): string {
    CONTENT_LENGTH + ": " + Itoa(n) + "\r\n"
  }

  /** `writeMessage` of an encoded body. */
  function Frame(body: string): string {
    LengthLine(|body|) + "\r\n" + body
  }

  predicate IsLine(line: string) {
    line != "" && line[|line| - 1] == '\n' && '\n' !in line[..|line| - 1]
  }

  lemma {:induction false} IndexAfter(a: string, c: char, b: string)
    requires c !in a
    ensures IndexOfChar(a + [c] + b, c) == |a|
  {
    if a == "" {
      assert a + [c] + b == [c] + b;
    } else {
      IndexAfter(a[1..], c, b);
      assert (a + [c] + b)[1..] == a[1..] + [c] + b;
      assert (a + [c] + b)[0] == a[0] && a[0] in a;
    }
  }

  lemma FirstLine(line: string, more: string)
    requires IsLine(line)
    ensures IndexOfChar(line + more, '\n') == |line| - 1
    ensures (line + more)[..|line|] == line && (line + more)[|line|..] == more
  {
    var front := line[..|line| - 1];
    assert line + more == front + ['\n'] + more;
    IndexAfter(front, '\n', more);
  }

  /** Reading a header goes line by line. */
  lemma HeaderLine(line: string, more: string, length: int)
    requires IsLine(line)
    ensures ReadHeader(line + more, length) ==
            match EffectOf(line)
            case Blank => Header(length, more)
            case Length(n) => ReadHeader(more, n)
            case Invalid => HeaderFailed(InvalidLength)
            case Ignored => ReadHeader(more, length)
  {
    hide EffectOf;
    FirstLine(line, more);
  }

  lemma BlankLine()
    ensures IsLine("\r\n") && EffectOf("\r\n") == Blank
  {
    assert TrimEol("\r\n") == "";
  }

  lemma LengthLineSetsLength(n: nat)
    requires n <= MAX_INT
    ensures IsLine(LengthLine(n)) && EffectOf(LengthLine(n)) == Length(n)
  {
    hide IndexOfChar, TrimEol, TrimSpace, Atoi, Itoa;
    var text := CONTENT_LENGTH + ": " + Itoa(n);
    LineParts(n);
    assert text + "\r\n" == LengthLine(n);
    TrimEolOf(text);
    ColonAt(CONTENT_LENGTH, " " + Itoa(n));
    assert text == CONTENT_LENGTH + ":" + (" " + Itoa(n));
    NameIsTrimmed();
    TrimmedIsFixed(CONTENT_LENGTH);
    TrimNumber(Itoa(n));
    AtoiOfItoa(n);
    EffectSteps(LengthLine(n));
  }

  lemma LineParts(n: nat)
    ensures IsLine(LengthLine(n))
  {
    var line := LengthLine(n);
    var front := CONTENT_LENGTH + ": " + Itoa(n) + "\r";
    assert line == front + "\n";
    assert line[..|line| - 1] == front;
    assert forall k :: 0 <= k < |Itoa(n)| ==> Itoa(n)[k] != '\n';
  }

  lemma TrimEolOf(text: string)
    requires text != "" && text[|text| - 1] != '\r' && text[|text| - 1] != '\n'
    ensures TrimEol(text + "\r\n") == text
  {
    assert (text + "\r\n")[..|text| + 1] == text + "\r";
    assert (text + "\r")[..|text|] == text;
  }

  lemma ColonAt(name: string, value: string)
    requires ':' !in name
    ensures var line := name + ":" + value;
            IndexOfChar(line, ':') == |name| && line[..|name|] == name && line[|name| + 1..] == value
  {
    IndexAfter(name, ':', value);
  }

  lemma NameIsTrimmed()
    ensures Trimmed(CONTENT_LENGTH) && ':' !in CONTENT_LENGTH
  {
  }

  lemma TrimNumber(digits: string)
    requires digits != "" && forall k :: 0 <= k < |digits| ==> IsDigit(digits[k])
    ensures TrimSpace(" " + digits) == digits
  {
    assert (" " + digits)[1..] == digits;
    assert IsDigit(digits[0]) && IsDigit(digits[|digits| - 1]);
    TrimmedIsFixed(digits);
  }

  /** Reading back a frame gives the body and leaves exactly what followed it. */
  lemma FrameRoundTrip(body: string, rest: string)
    requires 0 < |body| <= MAX_INT
    ensures ReadFrame(Frame(body) + rest) == Message(body, rest)
  {
    hide ReadFrame, EffectOf, LengthLine;
    LengthLineSetsLength(|body|);
    FramesWithExtraHeaders([], LengthLine(|body|), [], body, rest);
    assert Frame(body) + rest == Lines([]) + LengthLine(|body|) + Lines([]) + "\r\n" + body + rest;
  }

  function Lines(lines: seq<string>): string {
    if lines == [] then "" else lines[0] + Lines(lines[1..])
  }

  ghost predicate Harmless(lines: seq<string>) {
    forall k :: 0 <= k < |lines| ==> IsLine(lines[k]) && EffectOf(lines[k]) == Ignored
  }

  lemma {:induction false} SkipLines(lines: seq<string>, more: string, length: int)
    requires Harmless(lines)
    ensures ReadHeader(Lines(lines) + more, length) == ReadHeader(more, length)
  {
    hide ReadHeader, EffectOf;
    if lines == [] {
      assert "" + more == more;
    } else {
      HeaderLine(lines[0], Lines(lines[1..]) + more, length);
      assert Lines(lines) + more == lines[0] + (Lines(lines[1..]) + more);
      SkipLines(lines[1..], more, length);
    }
  }

  /** Other header lines, before or after the length line, change nothing. */
  lemma FramesWithExtraHeaders(before: seq<string>, lengthLine: string, after: seq<string>, body: string, rest: string)
    requires Harmless(before) && Harmless(after) && 0 < |body|
    requires IsLine(lengthLine) && EffectOf(lengthLine) == Length(|body|)
    ensures ReadFrame(Lines(before) + lengthLine + Lines(after) + "\r\n" + body + rest) == Message(body, rest)
  {
    hide ReadHeader, EffectOf, Lines, IsLine;
    BlankLine();
    var tail := Lines(after) + ("\r\n" + (body + rest));
    assert Lines(before) + lengthLine + Lines(after) + "\r\n" + body + rest == Lines(before) + (lengthLine + tail);
    SkipLines(before, lengthLine + tail, 0);
    HeaderLine(lengthLine, tail, 0);
    SkipLines(after, "\r\n" + (body + rest), |body|);
    HeaderLine("\r\n", body + rest, |body|);
    assert (body + rest)[..|body|] == body && (body + rest)[|body|..] == rest;
  }

  // ----- Whole streams -----

  function Frames(bodies: seq<string>): string {
    if bodies == [] then "" else Frame(bodies[0]) + Frames(bodies[1..])
  }

  /** The read loop: all messages, and the error that ended it. */
  function ReadAll(input: string): (seq<string>, Error)
    decreases |input|
  {
    match ReadFrame(input)
    case Failed(e) => ([], e)
    case Message(body, rest) =>
      var (bodies, e) := ReadAll(rest);
      ([body] + bodies, e)
  }

  /** Any bodies, newlines and header-like text included, come back as they went in. */
  lemma {:induction false} StreamRoundTrip(bodies: seq<string>)
    requires forall k :: 0 <= k < |bodies| ==> 0 < |bodies[k]| <= MAX_INT
    ensures ReadAll(Frames(bodies)) == (bodies, EndOfInput)
  {
    hide ReadFrame, Frame;
    if bodies == [] {
      NothingToRead();
    } else {
      FrameRoundTrip(bodies[0], Frames(bodies[1..]));
      StreamRoundTrip(bodies[1..]);
      assert bodies == [bodies[0]] + bodies[1..];
    }
  }

  lemma NothingToRead()
    ensures ReadFrame("") == Failed(EndOfInput)
  {
  }

  /** No two lists of messages look alike on the wire. */
  lemma FramesAreUnambiguous(a: seq<string>, b: seq<string>)
    requires forall k :: 0 <= k < |a| ==> 0 < |a[k]| <= MAX_INT
    requires forall k :: 0 <= k < |b| ==> 0 < |b[k]| <= MAX_INT
    requires Frames(a) == Frames(b)
    ensures a == b
  {
    hide ReadAll, Frames;
    StreamRoundTrip(a);
    StreamRoundTrip(b);
  }

  /** An empty body cannot be sent: the reader refuses a zero length. */
  lemma EmptyBodyIsRefused(rest: string)
    ensures ReadFrame(Frame("") + rest) == Failed(NoLength)
  {
    hide EffectOf, ReadHeader;
    LengthLineSetsLength(0);
    BlankLine();
    assert Frame("") + rest == LengthLine(0) + ("\r\n" + rest);
    HeaderLine(LengthLine(0), "\r\n" + rest, 0);
    HeaderLine("\r\n", rest, 0);
  }

  // ----- The wire format, to the character -----

  /** What goes over the wire for a body of two characters, and for one of 1024. */
  lemma FramesAsWritten(body: string)
    ensures Frame("{}") == "Content-Length: 2\r\n\r\n{}"
    ensures |body| == 1024 ==> Frame(body) == "Content-Length: 1024\r\n" + "\r\n" + body
  {
    DecimalDigits();
  }

  lemma DecimalDigits()
    ensures Itoa(2) == "2" && Itoa(1024) == "1024"
  {
    assert Itoa(1) == "1";
    assert Itoa(10) == Itoa(1) + "0";
    assert Itoa(102) == Itoa(10) + "2";
    assert Itoa(1024) == Itoa(102) + "4";
  }

  /** Numbers are read with or without a sign, within 64 bits. */
  lemma AtoiExactly(n: nat)
    ensures Atoi(Itoa(n)) == if n <= 9223372036854775807 then Number(n) else NotANumber
    ensures Atoi("+" + Itoa(n)) == Atoi(Itoa(n))
    ensures Atoi("-" + Itoa(n)) == if n <= 9223372036854775808 then Number(-(n as int)) else NotANumber
  {
    hide Itoa, Value;
    ValueOfItoa(n);
    assert IsDigit(Itoa(n)[0]);
    assert ("+" + Itoa(n))[1..] == Itoa(n) && ("-" + Itoa(n))[1..] == Itoa(n);
  }

  /** And only digits are numbers. */
  lemma AtoiRefuses(text: string, k: nat)
    ensures Atoi("") == Atoi("+") == Atoi("-") == NotANumber
    ensures 0 < k < |text| && !IsDigit(text[k]) ==> Atoi(text) == NotANumber
  {
    hide Value;
    if 0 < k < |text| && !IsDigit(text[k]) {
      if text[0] == '-' || text[0] == '+' {
        assert text[1..][k - 1] == text[k];
        assert !AllDigits(text[1..]);
      }
    }
  }

  /** A header line with the length: its name in any spelling, and white space around the value. */
  lemma AnySpellingSetsLength(name: string, value: string)
    requires SameButCase(name, "Content-Length") && '\n' !in value
    ensures var line := name + ":" + value + "\n";
            && IsLine(line)
            && EffectOf(line) == match Atoi(TrimSpace(value)) case Number(n) => Length(n) case NotANumber => Invalid
  {
    hide IndexOfChar, TrimEol, TrimSpace, Atoi, EffectOf, SameButCase, Lower;
    var text := name + ":" + value;
    NameIsPlain(name);
    OneLine(name, value);
    TrimEolDrops(text);
    var rest := EolBehindColon(name, value);
    ColonAt(name, rest);
    SameFold(name, "Content-Length");
    TrimmedIsFixed(name);
    EffectSteps(text + "\n");
  }

  lemma OneLine(name: string, value: string)
    requires '\n' !in name && '\n' !in value
    ensures IsLine(name + ":" + value + "\n")
  {
    var line := name + ":" + value + "\n";
    assert line[..|line| - 1] == name + ":" + value;
  }

  lemma TrimEolDrops(text: string)
    ensures TrimEol(text + "\n") == TrimEol(text)
  {
    assert (text + "\n")[..|text|] == text;
  }

  /** Trimming the end of the line stops at the colon at the latest, and takes only white space. */
  lemma EolBehindColon(name: string, value: string) returns (rest: string)
    ensures TrimEol(name + ":" + value) == name + ":" + rest
    ensures TrimSpace(rest) == TrimSpace(value)
  {
    hide TrimSpace;
    var text := name + ":" + value;
    var t := TrimEol(text);
    assert text[|name|] == ':';
    var n := |t| - |name| - 1;
    rest := value[..n];
    assert t == text[..|t|] == name + ":" + rest;
    TwoParts(value, n);
    forall k | n <= k < |value|
      ensures IsSpace(value[k])
    {
      assert text[|name| + 1 + k] == value[k];
    }
    TrimIgnoresBack(rest, value[n..]);
  }

  /** A spelling of the name has no colon, no newline, and no white space at its ends. */
  lemma NameIsPlain(name: string)
    requires SameButCase(name, "Content-Length")
    ensures ':' !in name && '\n' !in name && Trimmed(name) && name != ""
  {
    hide Lower;
    SameFold(name, "Content-Length");
    forall k | 0 <= k < |name|
      ensures name[k] != ':' && !IsSpace(name[k])
    {
      assert SameChar(name[k], "Content-Length"[k]);
      SameCharIsFold(name[k], "Content-Length"[k]);
      PlainChar(name[k], "Content-Length"[k]);
    }
  }

  lemma PlainChar(c: char, d: char)
    requires FoldChar(c) == FoldChar(d) && ('A' <= d <= 'Z' || 'a' <= d <= 'z' || d == '-')
    ensures c != ':' && !IsSpace(c)
  {
  }

  /** A line with a length that is no number makes the message fail, whatever follows. */
  lemma BadLengthIsRefused(before: seq<string>, line: string, more: string, input: string)
    requires Harmless(before) && IsLine(line) && EffectOf(line) == Invalid
    requires input == Lines(before) + (line + more)
    ensures ReadFrame(input).Failed? && ReadFrame(input).error == InvalidLength
  {
    hide ReadHeader, EffectOf, Lines, IsLine;
    SkipLines(before, line + more, 0);
    HeaderLine(line, more, 0);
  }

  /** Of several lengths the last one counts. */
  lemma LastLengthCounts(first: string, last: string, body: string, rest: string)
    requires IsLine(first) && EffectOf(first).Length? && IsLine(last) && EffectOf(last) == Length(|body|) && body != ""
    ensures ReadFrame(first + (last + ("\r\n" + (body + rest)))) == Message(body, rest)
  {
    hide ReadHeader, EffectOf, IsLine;
    BlankLine();
    HeaderLine(first, last + ("\r\n" + (body + rest)), 0);
    HeaderLine(last, "\r\n" + (body + rest), EffectOf(first).n);
    HeaderLine("\r\n", body + rest, |body|);
    assert (body + rest)[..|body|] == body && (body + rest)[|body|..] == rest;
  }

  /** A header without a positive length is an error, even if a body follows. */
  lemma NoPositiveLength(before: seq<string>, line: string, more: string)
    requires Harmless(before) && IsLine(line) && EffectOf(line).Length? && EffectOf(line).n <= 0
    ensures ReadFrame(Lines(before) + ("\r\n" + more)) == Failed(NoLength)
    ensures ReadFrame(line + ("\r\n" + more)) == Failed(NoLength)
  {
    hide ReadHeader, EffectOf, Lines, IsLine;
    BlankLine();
    SkipLines(before, "\r\n" + more, 0);
    HeaderLine(line, "\r\n" + more, 0);
    HeaderLine("\r\n", more, 0);
    HeaderLine("\r\n", more, EffectOf(line).n);
  }

  /** A body shorter than announced is an error. */
  lemma ShortBodyIsRefused(line: string, body: string)
    requires IsLine(line) && EffectOf(line).Length? && EffectOf(line).n > |body|
    ensures ReadFrame(line + ("\r\n" + body)) == Failed(ShortBody)
  {
    hide ReadHeader, EffectOf, IsLine;
    BlankLine();
    HeaderLine(line, "\r\n" + body, 0);
    HeaderLine("\r\n", body, EffectOf(line).n);
  }

  // ----- Streams that break off -----

  lemma IndexInLonger(s: string, t: string, c: char)
    requires c in s
    ensures IndexOfChar(s + t, c) == IndexOfChar(s, c)
  {
    var i := IndexOfChar(s, c);
    assert s + t == s[..i] + [c] + (s[i + 1..] + t);
    IndexAfter(s[..i], c, s[i + 1..] + t);
  }

  /** A header that has been read is not changed by what arrives later. */
  lemma {:induction false} HeaderIsFinal(input: string, more: string, length: int)
    requires ReadHeader(input, length).Header?
    ensures var h := ReadHeader(input, length);
            ReadHeader(input + more, length) == Header(h.length, h.rest + more)
    decreases |input|
  {
    hide EffectOf, IndexOfChar, ReadHeader;
    HeaderUnfolds(input, length);
    HeaderUnfolds(input + more, length);
    var i := IndexOfChar(input, '\n');
    IndexInLonger(input, more, '\n');
    CutInFirst(input, more, i + 1);
    match EffectOf(input[..i + 1])
    case Length(n) => HeaderIsFinal(input[i + 1..], more, n);
    case Ignored => HeaderIsFinal(input[i + 1..], more, length);
    case _ =>
  }

  /** Nor is a message. */
  lemma MessageIsFinal(input: string, more: string)
    requires ReadFrame(input).Message?
    ensures ReadFrame(input + more) == Message(ReadFrame(input).body, ReadFrame(input).rest + more)
  {
    hide ReadHeader;
    HeaderIsFinal(input, more, 0);
    var h := ReadHeader(input, 0);
    CutInFirst(h.rest, more, h.length);
  }

  /** A frame that breaks off is an error, wherever it breaks off. */
  lemma BrokenFrameIsNoMessage(body: string, n: nat)
    requires 0 < |body| <= MAX_INT && n < |Frame(body)|
    ensures ReadFrame(Frame(body)[..n]).Failed?
  {
    hide ReadFrame, Frame;
    var start, end := Frame(body)[..n], Frame(body)[n..];
    TwoParts(Frame(body), n);
    if ReadFrame(start).Message? {
      MessageIsFinal(start, end);
      FrameRoundTrip(body, "");
      Empties(Frame(body));
    }
  }

  lemma ReadAllUnfolds(input: string)
    ensures match ReadFrame(input)
            case Failed(e) => ReadAll(input).0 == []
            case Message(body, rest) => ReadAll(input).0 == [body] + ReadAll(rest).0
  {
    hide ReadFrame;
  }

  /** A stream that breaks off inside a message yields exactly the messages before it. */
  lemma {:induction false} BrokenStream(bodies: seq<string>, body: string, n: nat)
    requires forall k :: 0 <= k < |bodies| ==> 0 < |bodies[k]| <= MAX_INT
    requires 0 < |body| <= MAX_INT && n < |Frame(body)|
    ensures ReadAll(Frames(bodies) + Frame(body)[..n]).0 == bodies
  {
    hide ReadFrame, Frame, Frames, ReadAll;
    var end := Frame(body)[..n];
    FramesUnfold(bodies, end);
    if bodies == [] {
      BrokenFrameIsNoMessage(body, n);
      ReadAllUnfolds(end);
    } else {
      var rest := Frames(bodies[1..]) + end;
      FrameRoundTrip(bodies[0], rest);
      ReadAllUnfolds(Frame(bodies[0]) + rest);
      BrokenStream(bodies[1..], body, n);
      TwoParts(bodies, 1);
    }
  }

  lemma FramesUnfold(bodies: seq<string>, end: string)
    ensures Frames(bodies) + end ==
            if bodies == [] then end else Frame(bodies[0]) + (Frames(bodies[1..]) + end)
    ensures bodies != [] ==> bodies[..1] == [bodies[0]]
  {
    hide Frame;
    if bodies == [] {
      Empties(end);
    } else {
      JoinThree(Frame(bodies[0]), Frames(bodies[1..]), end);
    }
  }

  lemma JoinThree(a: string, b: string, c: string)
    ensures (a + b) + c == a + (b + c)
  {
  }
}
