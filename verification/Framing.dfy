/** The wire: Content-Length framing (Debug Adapter Protocol overview, "Base protocol").

    A frame is a header part, a blank line and a content part of exactly the
    announced length.  The reader takes the header byte by byte up to the first
    CR LF CR LF, looks for a Content-Length line, and then takes that many bytes. */
module Framing {
  import opened Wrappers

  // ----- Numbers as text -----

  function DigitChar(d: nat): char
    requires d < 10
  {
    ('0' as int + d) as char
  }

  predicate IsDigit(c: char) {
    '0' <= c <= '9'
  }

  /** Decimal notation, as the formatter writes it. */
  function Decimal(n: nat): (s: string)
    ensures s != "" && forall i :: 0 <= i < |s| ==> IsDigit(s[i])
  {
    if n < 10 then [DigitChar(n)] else Decimal(n / 10) + [DigitChar(n % 10)]
  }

  function DigitValue(c: char): nat
    requires IsDigit(c)
  {
    c as int - '0' as int
  }

  function NumberOf(s: string): nat
    requires forall i :: 0 <= i < |s| ==> IsDigit(s[i])
  {
    if s == "" then 0 else NumberOf(s[..|s| - 1]) * 10 + DigitValue(s[|s| - 1])
  }

  lemma {:induction false} NumberOfDecimal(n: nat)
    ensures NumberOf(Decimal(n)) == n
  {
    if n >= 10 {
      NumberOfDecimal(n / 10);
      var s := Decimal(n);
      assert s[..|s| - 1] == Decimal(n / 10);
    } else {
      assert Decimal(n)[..0] == "";
    }
  }

  predicate IsSpace(c: char) {
    c == ' ' || '\t' <= c <= '\r'
  }

  function DigitsAtFront(s: string): (k: nat)
    ensures k <= |s|
    ensures forall i :: 0 <= i < k ==> IsDigit(s[i])
    ensures k < |s| ==> !IsDigit(s[k])
  {
    if s == "" || !IsDigit(s[0]) then 0 else 1 + DigitsAtFront(s[1..])
  }

  function SpacesAtFront(s: string): (k: nat)
    ensures k <= |s|
    ensures k < |s| ==> !IsSpace(s[k])
  {
    if s == "" || !IsSpace(s[0]) then 0 else 1 + SpacesAtFront(s[1..])
  }

  /** `std::stoll`: leading blanks, an optional sign, then at least one digit; trailing text is ignored
      and a value outside 64 bits is an error. */
  function ToLong(s: string): Option<int> {
    var t := s[SpacesAtFront(s)..];
    var negative := t != "" && t[0] == '-';
    var u := if t != "" && (t[0] == '-' || t[0] == '+') then t[1..] else t;
    var k := DigitsAtFront(u);
    if k == 0 then None
    else
      var n: int := NumberOf(u[..k]);
      var v := if negative then -n else n;
      if -0x8000_0000_0000_0000 <= v < 0x8000_0000_0000_0000 then Some(v) else None
  }

  /** Cuts blanks off the end. */
  function TrimEnd(s: string): string {
    if s != "" && IsSpace(s[|s| - 1]) then TrimEnd(s[..|s| - 1]) else s
  }

  function Trim(s: string): string {
    TrimEnd(s[SpacesAtFront(s)..])
  }

  method TrimBoth(s: string) returns (r: string)
    ensures r == Trim(s)
  {
    r := s;
    while r != "" && IsSpace(r[0])
      invariant r[SpacesAtFront(r)..] == s[SpacesAtFront(s)..]
      decreases |r|
    {
      assert r[SpacesAtFront(r)..] == r[1..][SpacesAtFront(r[1..])..];
      r := r[1..];
    }
    assert r[0..] == r;
    while r != "" && IsSpace(r[|r| - 1])
      invariant TrimEnd(r) == Trim(s)
      decreases |r|
    {
      r := r[..|r| - 1];
    }
  }

  function LowerChar(c: char): char {
    if 'A' <= c <= 'Z' then (c as int + 32) as char else c
  }

  function Lower(s: string): (r: string)
    ensures |r| == |s|
  {
    seq(|s|, i requires 0 <= i < |s| => LowerChar(s[i]))
  }

  // ----- The header -----

  const PREFIX := "content-length:"

  /** The value of one header line, if it is a well-formed Content-Length. */
  function LineValue(line: string): Option<nat> {
    if |line| >= 15 && Lower(line[..15]) == PREFIX then
      match ToLong(Trim(line[15..]))
      case Some(v) => if v >= 0 then Some(v) else None
      case None => None
    else None
  }

  /** The first CR LF at or after `from`, or the end. */
  function LineEnd(h: string, from: nat): (k: nat)
    requires from <= |h|
    ensures from <= k <= |h|
    ensures k < |h| ==> k + 1 < |h| && h[k] == '\r' && h[k + 1] == '\n'
    decreases |h| - from
  {
    if from + 1 >= |h| then |h|
    else if h[from] == '\r' && h[from + 1] == '\n' then from
    else LineEnd(h, from + 1)
  }

  /** The first well-formed Content-Length line from `from` on. */
  function ContentLength(h: string, from: nat): Option<nat>
    requires from <= |h|
    decreases |h| - from
  {
    if from == |h| then None
    else
      var end := LineEnd(h, from);
      var value := LineValue(h[from..end]);
      if value.Some? then value
      else if end == |h| then None
      else ContentLength(h, end + 2)
  }

  method ParseContentLength(h: string) returns (r: Option<nat>)
    ensures r == ContentLength(h, 0)
  {
    hide ToLong, Trim, Lower;
    var lineStart := 0;
    while lineStart < |h|
      invariant 0 <= lineStart <= |h|
      invariant ContentLength(h, lineStart) == ContentLength(h, 0)
      decreases |h| - lineStart
    {
      var lineEnd := LineEnd(h, lineStart);
      var line := h[lineStart..lineEnd];
      if |line| >= 15 && Lower(line[..15]) == PREFIX {
        var value := TrimBoth(line[15..]);
        var parsed := ToLong(value);
        if parsed.Some? && parsed.value >= 0 {
          return Some(parsed.value);
        }
      }
      if lineEnd == |h| {
        break;
      }
      lineStart := lineEnd + 2;
    }
    return None;
  }

  // ----- Reading one frame -----

  predicate EndsHeader(s: string, k: nat) {
    4 <= k <= |s| && s[k - 4] == '\r' && s[k - 3] == '\n' && s[k - 2] == '\r' && s[k - 1] == '\n'
  }

  /** The end of the first blank line at or after position k, or None. */
  function HeaderEnd(s: string, k: nat): (r: Option<nat>)
    requires k <= |s|
    ensures r.Some? ==> k <= r.value <= |s| && EndsHeader(s, r.value)
    decreases |s| - k
  {
    if EndsHeader(s, k) then Some(k)
    else if k == |s| then None
    else HeaderEnd(s, k + 1)
  }

  datatype ReadResult = EndOfInput | Failed | Body(body: string, rest: string)

  function ReadFrame(input: string): (r: ReadResult)
    ensures r.Body? ==> |r.rest| < |input|
  {
    if input == "" then EndOfInput
    else match HeaderEnd(input, 0)
         case None => Failed
         case Some(k) =>
           match ContentLength(input[..k], 0)
           case None => Failed
           case Some(n) => if |input| - k < n then Failed else Body(input[k..k + n], input[k + n..])
  }

  /** The header loop: byte by byte up to the first blank line, or to the end of the input. */
  method ReadHeader(input: string) returns (end: Option<nat>)
    requires input != ""
    ensures end == HeaderEnd(input, 0)
  {
    var header := "";
    var position := 0;
    while position < |input|
      invariant 0 <= position <= |input| && header == input[..position]
      invariant !EndsHeader(input, position)
      invariant HeaderEnd(input, position) == HeaderEnd(input, 0)
    {
      header := header + [input[position]];
      position := position + 1;
      assert header == input[..position];
      assert EndsHeader(header, |header|) == EndsHeader(input, position);
      if EndsHeader(header, |header|) {
        return Some(position);
      }
    }
    return None;
  }

  /** The body loop: as many bytes as are announced, in chunks as they come, or a failure. */
  method ReadBody(input: string, position: nat, length: nat) returns (body: Option<string>)
    requires position <= |input|
    ensures body == if |input| - position < length then None else Some(input[position..position + length])
  {
    var read := "";
    while |read| < length
      invariant |read| <= length && position + |read| <= |input|
      invariant read == input[position..position + |read|]
    {
      var available := |input| - position - |read|;
      var wanted := length - |read|;
      var chunk := if available < wanted then available else wanted;
      if chunk <= 0 {
        return None;
      }
      read := read + input[position + |read|..position + |read| + chunk];
    }
    return Some(read);
  }

  /** `read_message` up to the JSON parser, on the part of the input not yet consumed. */
  method ReadMessage(input: string) returns (r: ReadResult)
    ensures r == ReadFrame(input)
  {
    hide ContentLength, HeaderEnd;
    if input == "" {
      return EndOfInput;
    }
    var end := ReadHeader(input);
    if end.None? {
      return Failed;
    }
    var contentLength := ParseContentLength(input[..end.value]);
    if contentLength.None? {
      return Failed;
    }
    var body := ReadBody(input, end.value, contentLength.value);
    if body.None? {
      return Failed;
    }
    return Body(body.value, input[end.value + contentLength.value..]);
  }

  // ----- Writing one frame -----

  function Frame(body: string): string {
    "Content-Length: " + Decimal(|body|) + "\r\n\r\n" + body
  }

  lemma {:induction false} HeaderEndIs(a: string, b: string, k: nat)
    requires '\r' !in a && k <= |a| + 4
    ensures HeaderEnd(a + "\r\n\r\n" + b, k) == Some(|a| + 4)
    decreases |a| + 4 - k
  {
    var s := a + "\r\n\r\n" + b;
    if k < |a| + 4 {
      if k >= 4 {
        assert s[k - 4] == a[k - 4];
      }
      HeaderEndIs(a, b, k + 1);
    }
  }

  lemma {:induction false} LineEndIs(a: string, b: string, k: nat)
    requires '\r' !in a && k <= |a|
    ensures LineEnd(a + "\r\n" + b, k) == |a|
    decreases |a| - k
  {
    var s := a + "\r\n" + b;
    if k < |a| {
      assert s[k] == a[k];
      LineEndIs(a, b, k + 1);
    }
  }

  lemma {:induction false} DigitsOnly(s: string)
    requires s != "" && forall i :: 0 <= i < |s| ==> IsDigit(s[i])
    ensures SpacesAtFront(s) == 0 && TrimEnd(s) == s && DigitsAtFront(s) == |s|
  {
    AllDigits(s);
  }

  lemma {:induction false} AllDigits(s: string)
    requires forall i :: 0 <= i < |s| ==> IsDigit(s[i])
    ensures DigitsAtFront(s) == |s|
  {
    if s != "" {
      AllDigits(s[1..]);
    }
  }

  lemma {:induction false} TrimmedNumber(n: nat)
    ensures Trim(" " + Decimal(n)) == Decimal(n)
    ensures n < 0x8000_0000_0000_0000 ==> ToLong(Decimal(n)) == Some(n)
    ensures n >= 0x8000_0000_0000_0000 ==> ToLong(Decimal(n)) == None
  {
    var d := Decimal(n);
    DigitsOnly(d);
    NumberOfDecimal(n);
    var s := " " + d;
    assert s[1..] == d && SpacesAtFront(s) == 1 + SpacesAtFront(d);
    assert d[0..] == d && d[..|d|] == d;
    assert d[0] != '-' && d[0] != '+';
  }

  lemma {:induction false} FrameLine(n: nat)
    ensures LineValue("Content-Length: " + Decimal(n)) == if n < 0x8000_0000_0000_0000 then Some(n) else None
  {
    var line := "Content-Length: " + Decimal(n);
    assert line[..15] == "Content-Length:";
    assert Lower("Content-Length:") == PREFIX;
    assert line[15..] == " " + Decimal(n);
    TrimmedNumber(n);
  }

  /** Reading a frame gives the body back and leaves what follows, whatever the body contains; a body
      whose length does not fit the reader's 64-bit number cannot be read. */
  lemma {:induction false} FrameRoundTrip(body: string, rest: string)
    ensures ReadFrame(Frame(body) + rest)
         == if |body| < 0x8000_0000_0000_0000 then Body(body, rest) else Failed
  {
    hide ContentLength, HeaderEnd, LineValue, Decimal;
    var line := "Content-Length: " + Decimal(|body|);
    assert '\r' !in line;
    var input := Frame(body) + rest;
    var k := |line| + 4;
    FrameHeader(line, body + rest);
    assert input == line + "\r\n\r\n" + (body + rest);
    FrameLine(|body|);
    assert input[k..] == body + rest;
    assert input[k..k + |body|] == body && input[k + |body|..] == rest;
  }

  lemma {:induction false} FrameHeader(line: string, rest: string)
    requires '\r' !in line && line != ""
    ensures var input := line + "\r\n\r\n" + rest;
            && HeaderEnd(input, 0) == Some(|line| + 4)
            && ContentLength(input[..|line| + 4], 0) == LineValue(line)
  {
    hide LineValue;
    HeaderEndIs(line, rest, 0);
    var input := line + "\r\n\r\n" + rest;
    var h := input[..|line| + 4];
    assert h == line + "\r\n" + "\r\n";
    LineEndIs(line, "\r\n", 0);
    assert h[..|line|] == line && h[0..|line|] == line;
    BlankLineHasNoLength(h, |line| + 2);
  }

  /** The rest of a header after its one line: an empty line. */
  lemma {:induction false} BlankLineHasNoLength(h: string, from: nat)
    requires from + 2 == |h| && h[from] == '\r' && h[from + 1] == '\n'
    ensures ContentLength(h, from) == None
  {
    assert LineEnd(h, from) == from;
    assert ContentLength(h, from + 2) == None;
  }

  /** The header's exact text. */
  lemma {:induction false} FrameOfEmptyObject()
    ensures Frame("{}") == "Content-Length: 2\r\n\r\n{}"
  {
    assert Decimal(2) == "2";
  }

  // ----- Headers of several lines -----

  /** x is c, or the capital letter of c. */
  predicate SameLetter(x: char, c: char) {
    if 'A' <= x <= 'Z' then x as int + 32 == c as int else x == c
  }

  /** "Content-Length:" in any mixture of letter cases. */
  ghost predicate IsLengthName(name: string) {
    |name| == 15 && forall i :: 0 <= i < 15 ==> SameLetter(name[i], "content-length:"[i])
  }

  lemma {:induction false} LowerIs(x: char, c: char)
    ensures LowerChar(x) == c <==> SameLetter(x, c)
  {
  }

  lemma {:induction false} LengthNameIs(name: string)
    requires |name| == 15
    ensures Lower(name) == PREFIX <==> IsLengthName(name)
  {
    hide LowerChar, SameLetter;
    forall i | 0 <= i < 15 ensures Lower(name)[i] == PREFIX[i] <==> SameLetter(name[i], "content-length:"[i]) {
      LowerIs(name[i], PREFIX[i]);
    }
  }

  ghost predicate IsBlank(s: string) {
    forall i :: 0 <= i < |s| ==> s[i] in " \t\n\r\U{0B}\U{0C}"
  }

  lemma {:induction false} SkipBlanks(blanks: string, d: string)
    requires IsBlank(blanks) && d != "" && !IsSpace(d[0])
    ensures (blanks + d)[SpacesAtFront(blanks + d)..] == d
  {
    var s := blanks + d;
    if blanks != "" {
      assert s[1..] == blanks[1..] + d;
      SkipBlanks(blanks[1..], d);
      assert s[SpacesAtFront(s)..] == s[1..][SpacesAtFront(s[1..])..];
    } else {
      assert s == d;
    }
  }

  lemma {:induction false} CutEnd(d: string, t: string)
    requires d != "" && !IsSpace(d[|d| - 1])
    ensures TrimEnd(d + t) == d + TrimEnd(t) && TrimEnd(t) <= t
    decreases |t|
  {
    var s := d + t;
    if t != "" {
      assert s[..|s| - 1] == d + t[..|t| - 1];
      CutEnd(d, t[..|t| - 1]);
    } else {
      assert s == d;
    }
  }

  lemma {:induction false} DigitsThen(d: string, t: string)
    requires forall i :: 0 <= i < |d| ==> IsDigit(d[i])
    requires t == "" || !IsDigit(t[0])
    ensures DigitsAtFront(d + t) == |d|
  {
    if d != "" {
      assert (d + t)[1..] == d[1..] + t;
      DigitsThen(d[1..], t);
    } else {
      assert d + t == t;
    }
  }

  /** The reader's number of a text without blanks at its front. */
  lemma {:induction false} ToLongIs(s: string, u: string, k: nat)
    requires s != "" && !IsSpace(s[0]) && u == (if s[0] == '-' || s[0] == '+' then s[1..] else s) && k == DigitsAtFront(u)
    ensures k == 0 ==> ToLong(s) == None
    ensures k > 0 && NumberOf(u[..k]) < 0x8000_0000_0000_0000 ==>
              ToLong(s) == Some(if s[0] == '-' then 0 - NumberOf(u[..k]) else NumberOf(u[..k]))
    ensures k > 0 && NumberOf(u[..k]) == 0x8000_0000_0000_0000 && s[0] == '-' ==> ToLong(s) == Some(-0x8000_0000_0000_0000)
  {
    hide DigitsAtFront, NumberOf;
    assert SpacesAtFront(s) == 0;
    assert s[0..] == s;
  }

  /** A sign is allowed, and text after the digits ignored. */
  lemma {:induction false} NumberThen(sign: string, n: nat, t: string)
    requires (sign == "" || sign == "+") && (t == "" || !IsDigit(t[0])) && n < 0x8000_0000_0000_0000
    ensures ToLong(sign + Decimal(n) + t) == Some(n)
  {
    hide Decimal, ToLong, NumberOf, DigitsAtFront;
    var d := Decimal(n);
    var s := sign + d + t;
    assert s[0] == if sign == "" then d[0] else '+';
    assert s[|sign|..] == d + t;
    assert sign == "" ==> s == d + t;
    DigitsThen(d, t);
    ToLongIs(s, d + t, |d|);
    assert (d + t)[..|d|] == d;
    NumberOfDecimal(n);
  }

  lemma {:induction false} NegativeNumber(n: nat)
    requires n <= 0x8000_0000_0000_0000
    ensures ToLong("-" + Decimal(n)) == Some(0 - n as int)
  {
    hide Decimal, ToLong, NumberOf, DigitsAtFront;
    var d := Decimal(n);
    var s := "-" + d;
    assert s[1..] == d && d + "" == d;
    DigitsThen(d, "");
    ToLongIs(s, d, |d|);
    assert d[..|d|] == d;
    NumberOfDecimal(n);
  }

  /** A Content-Length line: the name in any case, white space, and the number, with a plus sign or without;
      whatever follows its digits is ignored. */
  lemma {:induction false} LengthLine(name: string, before: string, sign: string, n: nat, after: string)
    requires IsLengthName(name) && IsBlank(before) && (sign == "" || sign == "+") && n < 0x8000_0000_0000_0000
    requires after == "" || !IsDigit(after[0])
    ensures LineValue(name + before + sign + Decimal(n) + after) == Some(n)
  {
    hide Lower, Decimal, IsLengthName, ToLong, TrimEnd, IsBlank;
    var number := sign + Decimal(n);
    var line := name + before + sign + Decimal(n) + after;
    assert |name| == 15 by {
      NameLength(name);
    }
    LengthNameIs(name);
    assert line[..15] == name && line[15..] == before + (number + after);
    assert number[|number| - 1] == Decimal(n)[|Decimal(n)| - 1];
    assert (number + after)[0] == if sign == "" then Decimal(n)[0] else '+';
    SkipBlanks(before, number + after);
    CutEnd(number, after);
    NumberThen(sign, n, TrimEnd(after));
  }

  lemma {:induction false} NameLength(name: string)
    requires IsLengthName(name)
    ensures |name| == 15
  {
  }

  /** A negative number, or a value without digits at its front, is as good as no Content-Length line. */
  lemma {:induction false} UselessLine(name: string, value: string)
    requires IsLengthName(name) && value != "" && !IsSpace(value[0]) && !IsSpace(value[|value| - 1])
    requires (exists n: nat :: 0 < n <= 0x8000_0000_0000_0000 && value == "-" + Decimal(n))
             || (!IsDigit(value[0]) && (value[0] in "+-" && |value| > 1 ==> !IsDigit(value[1])))
    ensures LineValue(name + value) == None
  {
    hide Lower, Decimal, IsLengthName, ToLong;
    NameLength(name);
    assert (name + value)[15..] == value;
    assert value[0..] == value;
    assert Trim(value) == value;
    if n: nat :| 0 < n <= 0x8000_0000_0000_0000 && value == "-" + Decimal(n) {
      NegativeNumber(n);
    } else {
      NoDigits(value);
    }
  }

  lemma {:induction false} NoDigits(value: string)
    requires value != "" && !IsSpace(value[0]) && !IsDigit(value[0])
    requires value[0] in "+-" && |value| > 1 ==> !IsDigit(value[1])
    ensures ToLong(value) == None
  {
    hide ToLong;
    var u := if value[0] == '-' || value[0] == '+' then value[1..] else value;
    assert DigitsAtFront(u) == 0;
    ToLongIs(value, u, 0);
  }

  lemma {:induction false} OtherLine(line: string)
    requires |line| < 15 || !IsLengthName(line[..15])
    ensures LineValue(line) == None
  {
    if |line| >= 15 {
      LengthNameIs(line[..15]);
    }
    hide ToLong, Trim, Lower, IsLengthName;
  }

  /** Header lines, each with its line end. */
  function Lines(lines: seq<string>): string {
    if lines == [] then "" else lines[0] + "\r\n" + Lines(lines[1..])
  }

  ghost predicate AreLines(lines: seq<string>) {
    forall i :: 0 <= i < |lines| ==> lines[i] != "" && '\r' !in lines[i]
  }

  lemma {:induction false} LineEndShift(p: string, t: string, k: nat)
    requires k <= |t|
    ensures LineEnd(p + t, |p| + k) == |p| + LineEnd(t, k)
    decreases |t| - k
  {
    if k + 1 < |t| {
      assert (p + t)[|p| + k] == t[k] && (p + t)[|p| + k + 1] == t[k + 1];
      LineEndShift(p, t, k + 1);
    }
  }

  lemma {:induction false} ContentLengthShift(p: string, t: string, k: nat)
    requires k <= |t|
    ensures ContentLength(p + t, |p| + k) == ContentLength(t, k)
    decreases |t| - k
  {
    hide LineValue, LineEnd;
    if k < |t| {
      LineEndShift(p, t, k);
      var end := LineEnd(t, k);
      assert (p + t)[|p| + k..|p| + end] == t[k..end];
      if end < |t| {
        ContentLengthShift(p, t, end + 2);
      }
    }
  }

  /** One line of a header: its value if it has one, else what the rest says. */
  lemma {:induction false} FirstLine(line: string, t: string)
    requires line != "" && '\r' !in line
    ensures ContentLength(line + "\r\n" + t, 0)
         == if LineValue(line).Some? then LineValue(line) else ContentLength(t, 0)
  {
    hide LineValue;
    var h := line + "\r\n" + t;
    LineEndIs(line, t, 0);
    assert h[0..|line|] == line;
    var p := line + "\r\n";
    assert h == p + t && |p| == |line| + 2;
    ContentLengthShift(p, t, 0);
  }

  /** Other lines before a Content-Length line, and anything after it, make no difference. */
  lemma {:induction false} LengthAmongLines(lines: seq<string>, k: nat, t: string)
    requires AreLines(lines) && k < |lines| && LineValue(lines[k]).Some?
    requires forall j :: 0 <= j < k ==> LineValue(lines[j]) == None
    ensures ContentLength(Lines(lines) + t, 0) == LineValue(lines[k])
    decreases k
  {
    hide LineValue, ContentLength;
    var rest := Lines(lines[1..]) + t;
    assert Lines(lines) + t == lines[0] + "\r\n" + rest;
    FirstLine(lines[0], rest);
    if k > 0 {
      LengthAmongLines(lines[1..], k - 1, t);
    }
  }

  /** In header lines no carriage return comes two places after another. */
  lemma {:induction false} ReturnsAreApart(lines: seq<string>, p: nat)
    requires AreLines(lines) && p + 2 < |Lines(lines)| && Lines(lines)[p] == '\r'
    ensures Lines(lines)[p + 2] != '\r'
    decreases |lines|
  {
    var h, line, t := Lines(lines), lines[0], Lines(lines[1..]);
    assert h == line + "\r\n" + t;
    assert forall q :: 0 <= q < |line| ==> h[q] == line[q] && line[q] in line;
    if p >= |line| + 2 {
      assert h[p] == t[p - |line| - 2] && h[p + 2] == t[p - |line|];
      ReturnsAreApart(lines[1..], p - |line| - 2);
    } else {
      assert p == |line|;
      assert h[p + 2] == t[0];
      StartsLine(lines[1..]);
    }
  }

  lemma {:induction false} StartsLine(lines: seq<string>)
    requires AreLines(lines) && lines != []
    ensures Lines(lines) != "" && Lines(lines)[0] != '\r'
  {
    assert Lines(lines)[0] == lines[0][0] && lines[0][0] in lines[0];
  }

  lemma {:induction false} EndsLine(lines: seq<string>)
    requires lines != []
    ensures var h := Lines(lines); |h| >= 2 && h[|h| - 2] == '\r' && h[|h| - 1] == '\n'
  {
    if |lines| > 1 {
      EndsLine(lines[1..]);
    } else {
      assert Lines(lines[1..]) == "";
    }
  }

  lemma {:induction false} HeaderEndAt(s: string, k: nat, m: nat)
    requires k <= m <= |s| && EndsHeader(s, m) && forall i :: k <= i < m ==> !EndsHeader(s, i)
    ensures HeaderEnd(s, k) == Some(m)
    decreases m - k
  {
    if k < m {
      HeaderEndAt(s, k + 1, m);
    }
  }

  /** The header ends with the blank line after its lines, and nowhere before. */
  lemma {:induction false} HeaderOfLines(lines: seq<string>, t: string)
    requires AreLines(lines) && lines != []
    ensures HeaderEnd(Lines(lines) + "\r\n" + t, 0) == Some(|Lines(lines)| + 2)
  {
    hide Lines, HeaderEnd;
    var h := Lines(lines);
    var s := h + "\r\n" + t;
    EndsLine(lines);
    assert s[|h|] == '\r' && s[|h| + 1] == '\n' && s[|h| - 2] == h[|h| - 2] && s[|h| - 1] == h[|h| - 1];
    forall i | 0 <= i < |h| + 2 ensures !EndsHeader(s, i) {
      if 4 <= i < |h| + 2 && s[i - 4] == '\r' && i - 2 < |h| {
        assert s[i - 4] == h[i - 4] && s[i - 2] == h[i - 2];
        ReturnsAreApart(lines, i - 4);
      }
    }
    HeaderEndAt(s, 0, |h| + 2);
  }

  /** The header's lines decide: the first usable Content-Length says how much of what follows is the body. */
  lemma {:induction false} ReadAfterLines(lines: seq<string>, t: string)
    requires AreLines(lines) && lines != []
    ensures ReadFrame(Lines(lines) + "\r\n" + t)
         == match ContentLength(Lines(lines) + "\r\n", 0)
            case None => Failed
            case Some(n) => if |t| < n then Failed else Body(t[..n], t[n..])
  {
    hide Lines, HeaderEnd, ContentLength, AreLines;
    var input := Lines(lines) + "\r\n" + t;
    var m := |Lines(lines)| + 2;
    HeaderOfLines(lines, t);
    assert input[..m] == Lines(lines) + "\r\n" && input[m..] == t;
    assert forall n :: 0 <= n <= |t| ==> input[m..m + n] == t[..n] && input[m + n..] == t[n..];
  }

  /** A frame reads back whatever other header lines it has, before or after the Content-Length line, and however
      that line is written; with less than the announced length to read, it fails. */
  lemma {:induction false} FrameWithHeaders(lines: seq<string>, k: nat, name: string, before: string, sign: string,
                                            n: nat, after: string, t: string)
    requires AreLines(lines) && k < |lines| && IsLengthName(name) && IsBlank(before)
    requires (sign == "" || sign == "+") && n < 0x8000_0000_0000_0000 && (after == "" || !IsDigit(after[0]))
    requires lines[k] == name + before + sign + Decimal(n) + after
    requires forall j :: 0 <= j < k ==> |lines[j]| < 15 || !IsLengthName(lines[j][..15])
    ensures ReadFrame(Lines(lines) + "\r\n" + t) == if |t| < n then Failed else Body(t[..n], t[n..])
  {
    hide Lines, HeaderEnd, ContentLength, LineValue, Decimal, IsLengthName, IsBlank, AreLines, ReadFrame;
    LengthLine(name, before, sign, n, after);
    forall j | 0 <= j < k ensures LineValue(lines[j]) == None {
      OtherLine(lines[j]);
    }
    LengthAmongLines(lines, k, "\r\n");
    ReadAfterLines(lines, t);
  }

  lemma {:induction false} NoLengthAmongLines(lines: seq<string>)
    requires AreLines(lines) && forall j :: 0 <= j < |lines| ==> LineValue(lines[j]) == None
    ensures ContentLength(Lines(lines) + "\r\n", 0) == None
  {
    hide LineValue, ContentLength;
    if lines == [] {
      assert Lines(lines) + "\r\n" == "\r\n";
      BlankLineHasNoLength("\r\n", 0);
    } else {
      var rest := Lines(lines[1..]) + "\r\n";
      assert Lines(lines) + "\r\n" == lines[0] + "\r\n" + rest;
      FirstLine(lines[0], rest);
      NoLengthAmongLines(lines[1..]);
    }
  }

  /** What cannot be read: a header without a usable Content-Length, and a header that does not end.  A clean
      end is an empty input and nothing else. */
  lemma {:induction false} BrokenHeaders(lines: seq<string>, t: string, input: string)
    requires AreLines(lines) && lines != [] && forall j :: 0 <= j < |lines| ==> LineValue(lines[j]) == None
    ensures ReadFrame(Lines(lines) + "\r\n" + t) == Failed
    ensures input != ""
            && (forall k :: 0 <= k <= |input| - 4 ==>
                  input[k] != '\r' || input[k + 1] != '\n' || input[k + 2] != '\r' || input[k + 3] != '\n')
            ==> ReadFrame(input) == Failed
    ensures ReadFrame(input) == EndOfInput <==> input == ""
  {
    hide Lines, HeaderEnd, ContentLength, LineValue, AreLines;
    NoLengthAmongLines(lines);
    ReadAfterLines(lines, t);
    if k :| 0 <= k <= |input| && EndsHeader(input, k) {
      assert input[k - 4] == '\r';
    }
  }

  // ----- Reading a whole stream -----

  /** All bodies up to a clean end of input, or None if the stream breaks. */
  function ReadAll(input: string): Option<seq<string>>
    decreases |input|
  {
    match ReadFrame(input)
    case EndOfInput => Some([])
    case Failed => None
    case Body(body, rest) =>
      match ReadAll(rest)
      case None => None
      case Some(bodies) => Some([body] + bodies)
  }

  function Frames(bodies: seq<string>): string {
    if bodies == [] then "" else Frame(bodies[0]) + Frames(bodies[1..])
  }

  lemma {:induction false} NothingToRead()
    ensures ReadFrame("") == EndOfInput
  {
  }

  predicate AllFit(bodies: seq<string>) {
    forall i :: 0 <= i < |bodies| ==> |bodies[i]| < 0x8000_0000_0000_0000
  }

  /** Reading the frames of a list of bodies gives exactly that list and then a clean end of input;
      it breaks only on a body longer than the reader's 64-bit number. */
  lemma {:induction false} FramesRoundTrip(bodies: seq<string>)
    ensures ReadAll(Frames(bodies)) == if AllFit(bodies) then Some(bodies) else None
  {
    hide ReadFrame, Frame;
    if bodies == [] {
      NothingToRead();
    } else {
      FrameRoundTrip(bodies[0], Frames(bodies[1..]));
      FramesRoundTrip(bodies[1..]);
      assert Frames(bodies) == Frame(bodies[0]) + Frames(bodies[1..]);
      assert [bodies[0]] + bodies[1..] == bodies;
      assert AllFit(bodies) <==> |bodies[0]| < 0x8000_0000_0000_0000 && AllFit(bodies[1..]);
    }
  }

  lemma {:induction false} FramesAppend(bodies: seq<string>, body: string)
    ensures Frames(bodies + [body]) == Frames(bodies) + Frame(body)
  {
    if bodies == [] {
      assert bodies + [body] == [body] && [body][1..] == [];
    } else {
      assert (bodies + [body])[1..] == bodies[1..] + [body];
      FramesAppend(bodies[1..], body);
    }
  }
}
