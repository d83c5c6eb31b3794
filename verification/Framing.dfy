/** Content-Length framing of JSON-RPC messages (codec.go): a stream of headers and
    payloads of known length. Payload bytes are opaque; the JSON inside is not modelled. */
module Framing {
  import opened Common
  import opened Text

  datatype ReadError =
    | EndOfStream       // io.EOF
    | UnexpectedEnd     // io.ErrUnexpectedEOF
    | InvalidLength     // strconv.Atoi failed
    | NegativeLength
    | MissingLength

  datatype Outcome<+T> = Ok(value: T) | Err(error: ReadError)

  /** The largest Go `int`. */
  const MAX_INT := 0x7FFF_FFFF_FFFF_FFFF

  const HEADER_NAME := "Content-Length"

  // ----- decimal numbers -----

  function Digit(d: nat): char
    requires d < 10
  {
    "0123456789"[d]
  }

  predicate IsDigit(c: char) {
    '0' <= c <= '9'
  }

  predicate AllDigits(s: string) {
    forall i :: 0 <= i < |s| ==> IsDigit(s[i])
  }

  /** `%d` of a length. */
  function Decimal(n: nat): string {
    if n < 10 then [Digit(n)] else Decimal(n / 10) + [Digit(n % 10)]
  }

  function DigitsValue(s: string): nat
    requires AllDigits(s)
  {
    if s == [] then 0 else DigitsValue(s[..|s| - 1]) * 10 + (s[|s| - 1] as int - '0' as int)
  }

  /** `strconv.Atoi`: an optional sign, at least one digit, a value that fits an `int`. */
  function Atoi(s: string): Option<int> {
    var negative := s != [] && s[0] == '-';
    var body := if s != [] && (s[0] == '-' || s[0] == '+') then s[1..] else s;
    if body == [] || !AllDigits(body) then None
    else
      var v := (if negative then -1 else 1) * DigitsValue(body);
      if -MAX_INT - 1 <= v <= MAX_INT then Some(v) else None
  }

  lemma {:induction false} DecimalParses(n: nat)
    ensures Decimal(n) != [] && AllDigits(Decimal(n)) && DigitsValue(Decimal(n)) == n
  {
    var d := [Digit(n % 10)];
    if n >= 10 {
      DecimalParses(n / 10);
      assert (Decimal(n / 10) + d)[..|Decimal(n / 10)|] == Decimal(n / 10);
    } else {
      assert d[..0] == [];
      assert DigitsValue([]) == 0;
    }
  }

  /** One digit after the other, the last one the remainder by ten. */
  lemma DecimalDigits(n: nat)
    ensures n < 10 ==> Decimal(n) == [(48 + n) as char]
    ensures n >= 10 ==> Decimal(n) == Decimal(n / 10) + [(48 + n % 10) as char]
  {}

  /** Which texts are numbers of a Go `int`: digits, with or without a sign. */
  lemma AtoiExact(d: string)
    requires d != [] && AllDigits(d)
    ensures Atoi(d) == if DigitsValue(d) <= 9223372036854775807 then Some(DigitsValue(d)) else None
    ensures Atoi("+" + d) == Atoi(d)
    ensures var v: int := DigitsValue(d);
      Atoi("-" + d) == if v <= 9223372036854775808 then Some(-v) else None
  {
    assert IsDigit(d[0]);
    assert ("+" + d)[1..] == d && ("-" + d)[1..] == d;
    hide DigitsValue;
  }

  lemma NotANumber(s: string, i: nat)
    requires i < |s| && !('0' <= s[i] <= '9') && (i == 0 ==> s[0] != '-' && s[0] != '+')
    ensures Atoi(s) == None && Atoi("") == None && Atoi("-") == None && Atoi("+") == None
  {
    var body := if s[0] == '-' || s[0] == '+' then s[1..] else s;
    assert !IsDigit(body[if s[0] == '-' || s[0] == '+' then i - 1 else i]);
    hide DigitsValue;
  }

  // ----- reading -----

  datatype Field = Other | Length(n: nat) | Malformed(error: ReadError)

  /** `strings.TrimRight(line, "\r\n")` */
  function TrimLineEnd(line: string): string {
    if line != [] && (line[|line| - 1] == '\r' || line[|line| - 1] == '\n')
    then TrimLineEnd(line[..|line| - 1])
    else line
  }

  /** What one non-blank header line says about the payload length. */
  function ParseField(line: string): Field {
    var colon := FindByte(line, ':');
    if colon == |line| || !EqualFold(TrimSpace(line[..colon]), HEADER_NAME) then Other
    else
      match Atoi(TrimSpace(line[colon + 1..]))
      case None => Malformed(InvalidLength)
      case Some(v) => if v < 0 then Malformed(NegativeLength) else Length(v)
  }

  /** The header block at the head of `input`: the announced length or the error, and the
      bytes left unread. */
  function ScanHeader(input: string, seen: bool, length: Option<nat>): (r: (Outcome<nat>, string))
    ensures |r.1| <= |input|
    ensures r.0.Ok? ==> |r.1| < |input|
    decreases |input|
  {
    var k := FindByte(input, '\n');
    if k == |input| then (Err(EndOfStream), [])
    else
      var line := TrimLineEnd(input[..k + 1]);
      var rest := input[k + 1..];
      if line == [] then
        (if length.Some? then Ok(length.value) else if seen then Err(MissingLength) else Err(EndOfStream), rest)
      else
        match ParseField(line)
        case Other => ScanHeader(rest, true, length)
        case Length(n) => ScanHeader(rest, true, Some(n))
        case Malformed(e) => (Err(e), rest)
  }

  /** One message: its payload or the error, and the bytes left unread. */
  function NextMessage(input: string): (r: (Outcome<string>, string))
    ensures r.0.Ok? ==> |r.1| < |input|
  {
    match ScanHeader(input, false, None)
    case (Err(e), rest) => (Err(e), rest)
    case (Ok(n), rest) =>
      if n <= |rest| then (Ok(rest[..n]), rest[n..])
      else (Err(if rest == [] then EndOfStream else UnexpectedEnd), [])
  }

  /** Messages until the first error, as the serving loop reads them. */
  function ReadAll(input: string): (seq<string>, ReadError, string)
    decreases |input|
  {
    match NextMessage(input)
    case (Err(e), rest) => ([], e, rest)
    case (Ok(payload), rest) =>
      var (more, e, unread) := ReadAll(rest);
      ([payload] + more, e, unread)
  }

  /** The buffered input of the server: `input` is what has not been read yet. */
  class Reader {
    var input: string

    constructor (bytes: string)
      ensures input == bytes
    {
      input := bytes;
    }

    /** `bufio.Reader.ReadString('\n')`; without a newline everything is consumed. */
    method ReadLine() returns (line: string, eof: bool)
      modifies this
      ensures var k := FindByte(old(input), '\n');
              eof == (k == |old(input)|) &&
              (eof ==> line == old(input) && input == []) &&
              (!eof ==> line == old(input)[..k + 1] && input == old(input)[k + 1..])
    {
      var k := FindByte(input, '\n');
      eof := k == |input|;
      var cut := if eof then k else k + 1;
      line, input := input[..cut], input[cut..];
    }

    /** The part of the header loop that looks at one line. */
    method ReadField(trimmed: string) returns (field: Field)
      ensures field == ParseField(trimmed)
    {
      hide FindByte, TrimSpace, EqualFold, Atoi;
      var colon := FindByte(trimmed, ':');
      if colon == |trimmed| {
        return Other;
      }
      if !EqualFold(TrimSpace(trimmed[..colon]), HEADER_NAME) {
        return Other;
      }
      var parsed := Atoi(TrimSpace(trimmed[colon + 1..]));
      if parsed == None {
        return Malformed(InvalidLength);
      }
      if parsed.value < 0 {
        return Malformed(NegativeLength);
      }
      return Length(parsed.value);
    }

    method ReadContentLength() returns (r: Outcome<nat>)
      modifies this
      ensures (r, input) == ScanHeader(old(input), false, None)
    {
      hide ParseField, TrimLineEnd, FindByte;
      var contentLength: Option<nat> := None;
      var readAnyHeader := false;
      while true
        invariant ScanHeader(input, readAnyHeader, contentLength) == ScanHeader(old(input), false, None)
        invariant contentLength.Some? ==> readAnyHeader
        decreases |input|
      {
        var line, eof := ReadLine();
        if eof {
          return Err(EndOfStream);
        }
        var trimmed := TrimLineEnd(line);
        if trimmed == [] {
          break;
        }
        readAnyHeader := true;
        var field := ReadField(trimmed);
        if field.Other? {
          continue;
        }
        if field.Malformed? {
          return Err(field.error);
        }
        contentLength := Some(field.n);
      }
      if !readAnyHeader && contentLength == None {
        return Err(EndOfStream);
      }
      if contentLength == None {
        return Err(MissingLength);
      }
      return Ok(contentLength.value);
    }

    method ReadMessage() returns (r: Outcome<string>)
      modifies this
      ensures (r, input) == NextMessage(old(input))
    {
      var length := ReadContentLength();
      if length.Err? {
        return Err(length.error);
      }
      if |input| < length.value {
        r := Err(if input == [] then EndOfStream else UnexpectedEnd);
        input := [];
        return;
      }
      r := Ok(input[..length.value]);
      input := input[length.value..];
    }
  }

  // ----- writing -----

  function Header(length: nat): string {
    HEADER_NAME + ": " + Decimal(length) + "\r\n\r\n"
  }

  function Frames(payloads: seq<string>): string {
    if payloads == [] then [] else Header(|payloads[0]|) + payloads[0] + Frames(payloads[1..])
  }

  class Writer {
    var output: string

    constructor ()
      ensures output == []
    {
      output := [];
    }

    method WriteMessage(payload: string)
      modifies this
      ensures output == old(output) + Frames([payload])
      ensures output == old(output) + ("Content-Length: " + Decimal(|payload|) + "\r\n\r\n" + payload)
    {
      output := output + Header(|payload|);
      output := output + payload;
      assert Frames([payload]) == Header(|payload|) + payload + Frames([]);
    }
  }

  // ----- round trip -----

  lemma {:induction false} TrimLineEndStops(body: string, ending: string)
    requires body == [] || (body[|body| - 1] != '\r' && body[|body| - 1] != '\n')
    requires forall i :: 0 <= i < |ending| ==> ending[i] == '\r' || ending[i] == '\n'
    ensures TrimLineEnd(body + ending) == body
  {
    if ending == [] {
      assert body + ending == body;
    } else {
      var shorter := ending[..|ending| - 1];
      assert (body + ending)[..|body + ending| - 1] == body + shorter;
      TrimLineEndStops(body, shorter);
    }
  }

  /** A header line in any letter case and with any spacing around its parts announces
      the number it holds. */
  lemma FieldLineParses(name: string, value: string, n: nat)
    requires ':' !in name && EqualFold(TrimSpace(name), HEADER_NAME)
    requires Atoi(TrimSpace(value)) == Some(n)
    ensures ParseField(name + ":" + value) == Length(n)
  {
    var line := name + ":" + value;
    FindByteAt(line, ':', |name|);
    assert line[..|name|] == name && line[|name| + 1..] == value;
  }

  /** A line is about the length exactly if its name is Content-Length, in any letter case, and
      then it is a number, or one of the two kinds of malformed length. */
  lemma FieldLine(name: string, value: string)
    requires ':' !in name
    ensures ParseField(name + ":" + value)
         == if ToLower(TrimSpace(name)) != "content-length" then Other
            else if Atoi(TrimSpace(value)) == None then Malformed(InvalidLength)
            else if Atoi(TrimSpace(value)).value < 0 then Malformed(NegativeLength)
            else Length(Atoi(TrimSpace(value)).value)
    ensures ParseField(name) == Other
  {
    var line := name + ":" + value;
    FindByteAt(line, ':', |name|);
    assert line[..|name|] == name && line[|name| + 1..] == value;
    assert ToLower(HEADER_NAME) == "content-length";
    assert FindByte(name, ':') == |name|;
    hide ToLower, TrimSpace, Atoi, FindByte;
  }

  lemma DigitsTrimmed(d: string)
    requires d != [] && AllDigits(d)
    ensures Trimmed(d) && TrimSpace([' '] + d) == d
  {
    assert IsDigit(d[0]) && IsDigit(d[|d| - 1]);
    assert ([' '] + d)[1..] == d;
    assert TrimLeft([' '] + d) == TrimLeft(d) == d;
    TrimSpaceTrims(d);
  }

  lemma DecimalAtoi(n: nat)
    requires n <= MAX_INT
    ensures Atoi(Decimal(n)) == Some(n)
    ensures Trimmed(Decimal(n)) && TrimSpace([' '] + Decimal(n)) == Decimal(n)
  {
    DecimalParses(n);
    DigitsTrimmed(Decimal(n));
    assert IsDigit(Decimal(n)[0]);
    hide Decimal, DigitsValue, TrimSpace, Trimmed;
  }

  /** The line `Content-Length: n`, without its line ending. */
  function LengthLine(n: nat): string {
    HEADER_NAME + ":" + ([' '] + Decimal(n))
  }

  lemma LengthLineParses(n: nat)
    requires n <= MAX_INT
    ensures ParseField(LengthLine(n)) == Length(n)
  {
    hide ParseField;
    DecimalAtoi(n);
    TrimSpaceTrims(HEADER_NAME);
    FieldLineParses(HEADER_NAME, [' '] + Decimal(n), n);
  }

  lemma LengthLineShape(n: nat)
    ensures Header(n) == LengthLine(n) + "\r\n" + "\r\n"
    ensures '\n' !in LengthLine(n) && LengthLine(n) != []
    ensures LengthLine(n)[|LengthLine(n)| - 1] != '\r'
  {
    DecimalParses(n);
    assert '\n' !in Decimal(n);
  }

  /** Scanning the first line of `line + "\r\n" + rest` leaves `rest`. */
  lemma FirstLine(line: string, rest: string)
    requires '\n' !in line && (line == [] || line[|line| - 1] != '\r')
    ensures var input := line + "\r\n" + rest;
            FindByte(input, '\n') == |line| + 1 && TrimLineEnd(input[..|line| + 2]) == line
            && input[|line| + 2..] == rest
  {
    var input := line + "\r\n" + rest;
    FindByteAt(input, '\n', |line| + 1);
    assert input[..|line| + 2] == line + "\r\n";
    TrimLineEndStops(line, "\r\n");
  }

  /** A written header is consumed exactly and announces the written length. */
  lemma HeaderScans(n: nat, tail: string)
    requires n <= MAX_INT
    ensures ScanHeader(Header(n) + tail, false, None) == (Ok(n), tail)
  {
    hide Header, LengthLine, ParseField, TrimLineEnd, FindByte;
    var rest := [] + "\r\n" + tail;
    LengthLineParses(n);
    LengthLineShape(n);
    assert Header(n) + tail == LengthLine(n) + "\r\n" + rest;
    FirstLine(LengthLine(n), rest);
    FirstLine([], tail);
  }

  // ----- any header block -----

  /** A header line without its line ending. */
  predicate HeaderLine(line: string) {
    line != [] && '\n' !in line && line[|line| - 1] != '\r'
  }

  function Block(lines: seq<string>): string {
    if lines == [] then "\r\n" else lines[0] + "\r\n" + Block(lines[1..])
  }

  /** No line from `i` on says anything about the length. */
  ghost predicate SilentFrom(lines: seq<string>, i: nat) {
    forall j :: i <= j < |lines| ==> ParseField(lines[j]).Other?
  }

  ghost predicate SoundUpTo(lines: seq<string>, i: nat) {
    forall j :: 0 <= j < i && j < |lines| ==> !ParseField(lines[j]).Malformed?
  }

  lemma BlockStep(lines: seq<string>, tail: string, seen: bool, length: Option<nat>)
    requires lines != [] && HeaderLine(lines[0])
    ensures var r := ScanHeader(Block(lines) + tail, seen, length);
      match ParseField(lines[0])
      case Other => r == ScanHeader(Block(lines[1..]) + tail, true, length)
      case Length(n) => r == ScanHeader(Block(lines[1..]) + tail, true, Some(n))
      case Malformed(e) => r == (Err(e), Block(lines[1..]) + tail)
  {
    hide ParseField, TrimLineEnd, FindByte;
    var rest := Block(lines[1..]) + tail;
    assert Block(lines) + tail == lines[0] + "\r\n" + rest;
    FirstLine(lines[0], rest);
  }

  lemma BlockEnd(tail: string, seen: bool, length: Option<nat>)
    ensures ScanHeader(Block([]) + tail, seen, length)
         == (if length.Some? then Ok(length.value) else if seen then Err(MissingLength) else Err(EndOfStream), tail)
  {
    hide ParseField, TrimLineEnd, FindByte;
    assert Block([]) + tail == [] + "\r\n" + tail;
    FirstLine([], tail);
  }

  /** A block whose lines say nothing keeps the length announced before it; if there is none,
      the length is missing, or for an empty block the stream is taken to have ended. */
  lemma {:induction false} SilentBlock(lines: seq<string>, tail: string, seen: bool, length: Option<nat>)
    requires (forall i :: 0 <= i < |lines| ==> HeaderLine(lines[i])) && SilentFrom(lines, 0)
    ensures ScanHeader(Block(lines) + tail, seen, length)
         == (if length.Some? then Ok(length.value)
             else if seen || lines != [] then Err(MissingLength) else Err(EndOfStream), tail)
  {
    hide ScanHeader, ParseField, Block, HeaderLine;
    if lines == [] {
      BlockEnd(tail, seen, length);
    } else {
      assert ParseField(lines[0]).Other?;
      BlockStep(lines, tail, seen, length);
      SilentBlock(lines[1..], tail, true, length);
    }
  }

  /** In any header block, of any number of lines, the last announced length counts and the
      block is consumed to its end, and the first malformed length is an error. */
  lemma {:induction false} HeaderBlock(lines: seq<string>, tail: string, seen: bool, length: Option<nat>, i: nat)
    requires forall j :: 0 <= j < |lines| ==> HeaderLine(lines[j])
    requires i < |lines| && SoundUpTo(lines, i)
    ensures var r := ScanHeader(Block(lines) + tail, seen, length);
      match ParseField(lines[i])
      case Length(n) => SilentFrom(lines, i + 1) ==> r == (Ok(n), tail)
      case Malformed(e) => r.0 == Err(e)
      case Other => true
  {
    hide ScanHeader, ParseField, Block, HeaderLine;
    BlockStep(lines, tail, seen, length);
    if i == 0 {
      if ParseField(lines[0]).Length? && SilentFrom(lines, 1) {
        SilentBlock(lines[1..], tail, true, Some(ParseField(lines[0]).n));
      }
    } else {
      assert !ParseField(lines[0]).Malformed?;
      assert SilentFrom(lines, i + 1) ==> SilentFrom(lines[1..], i);
      HeaderBlock(lines[1..], tail, true, if ParseField(lines[0]).Length? then Some(ParseField(lines[0]).n) else length, i - 1);
    }
  }

  /** One written frame is read back, and what follows it is left unread. */
  lemma FrameReads(payload: string, rest: string)
    requires |payload| <= MAX_INT
    ensures NextMessage(Header(|payload|) + (payload + rest)) == (Ok(payload), rest)
  {
    hide Header, ScanHeader;
    HeaderScans(|payload|, payload + rest);
    assert (payload + rest)[..|payload|] == payload && (payload + rest)[|payload|..] == rest;
  }

  ghost predicate Writable(payloads: seq<string>) {
    forall i :: 0 <= i < |payloads| ==> |payloads[i]| <= MAX_INT
  }

  /** Reading the concatenation of any written frames, with anything after them, yields
      exactly the written payloads first and leaves exactly what came after. */
  lemma {:induction false} FramesRoundTrip(payloads: seq<string>, tail: string)
    requires Writable(payloads)
    ensures ReadAll(Frames(payloads) + tail)
         == (payloads + ReadAll(tail).0, ReadAll(tail).1, ReadAll(tail).2)
  {
    hide Header, NextMessage;
    if payloads == [] {
      assert Frames(payloads) + tail == tail;
      assert payloads + ReadAll(tail).0 == ReadAll(tail).0;
    } else {
      var p, rest := payloads[0], Frames(payloads[1..]) + tail;
      assert Frames(payloads) + tail == Header(|p|) + (p + rest);
      FrameReads(p, rest);
      FramesRoundTrip(payloads[1..], tail);
      assert [p] + (payloads[1..] + ReadAll(tail).0) == payloads + ReadAll(tail).0;
    }
  }

  lemma NothingToRead()
    ensures ReadAll([]) == ([], EndOfStream, [])
  {
    assert NextMessage([]) == (Err(EndOfStream), []);
  }

  /** A stream of whole frames is read back exactly, to the last byte, and then ends. */
  lemma ReadAllFrames(payloads: seq<string>)
    requires Writable(payloads)
    ensures ReadAll(Frames(payloads)) == (payloads, EndOfStream, [])
  {
    hide Header, NextMessage, ReadAll, Frames;
    FramesRoundTrip(payloads, []);
    assert Frames(payloads) + [] == Frames(payloads);
    NothingToRead();
    assert payloads + [] == payloads;
  }

  /** Framing is unambiguous: two lists of payloads with the same bytes are the same list. */
  lemma FramesInjective(payloads: seq<string>, others: seq<string>)
    requires Writable(payloads) && Writable(others)
    requires Frames(payloads) == Frames(others)
    ensures payloads == others
  {
    ReadAllFrames(payloads);
    ReadAllFrames(others);
  }

  /** A stream cut inside its last frame yields every whole frame before the cut and never
      a shortened payload. */
  lemma TruncatedFrame(payloads: seq<string>, last: string, cut: nat)
    requires Writable(payloads) && |last| <= MAX_INT
    requires cut < |Header(|last|) + last|
    ensures ReadAll(Frames(payloads) + (Header(|last|) + last)[..cut]).0 == payloads
    ensures ReadAll(Frames(payloads) + (Header(|last|) + last)[..cut]).1
         == if cut > |Header(|last|)| then UnexpectedEnd else EndOfStream
  {
    hide Header, NextMessage, Frames;
    var part := (Header(|last|) + last)[..cut];
    FramesRoundTrip(payloads, part);
    PartialFrameFails(last, cut);
    assert payloads + [] == payloads;
  }

  lemma PartialFrameFails(last: string, cut: nat)
    requires |last| <= MAX_INT && cut < |Header(|last|) + last|
    ensures NextMessage((Header(|last|) + last)[..cut]).0
         == Err(if cut > |Header(|last|)| then UnexpectedEnd else EndOfStream)
  {
    hide Header, ScanHeader;
    var n := |last|;
    var part := (Header(n) + last)[..cut];
    if cut >= |Header(n)| {
      assert part == Header(n) + last[..cut - |Header(n)|];
      HeaderScans(n, last[..cut - |Header(n)|]);
    } else {
      assert part == Header(n)[..cut];
      PartialHeaderFails(n, cut);
    }
  }

  lemma PartialHeaderFails(n: nat, cut: nat)
    requires n <= MAX_INT && cut < |Header(n)|
    ensures ScanHeader(Header(n)[..cut], false, None).0 == Err(EndOfStream)
  {
    hide Header, LengthLine, ParseField, TrimLineEnd, FindByte;
    LengthLineShape(n);
    LengthLineParses(n);
    var line, part := LengthLine(n), Header(n)[..cut];
    if cut < |line| + 2 {
      assert forall i :: 0 <= i < cut ==> part[i] != '\n';
    } else {
      var rest := Header(n)[|line| + 2..cut];
      assert part == line + "\r\n" + rest;
      FirstLine(line, rest);
      assert forall i :: 0 <= i < |rest| ==> rest[i] != '\n';
    }
  }
}
