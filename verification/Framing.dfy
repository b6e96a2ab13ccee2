/**
 * Messages on a child process's standard streams: Content-Length frames as the Language Server Protocol writes
 * them, or one line per message.
 */
module Framing {
  import opened Prelude
  import opened Ordering

  type Byte = x: int | 0 <= x < 256

  const NL: Byte := 10
  const CR: Byte := 13

  // ---------------------------------------------------------------- decimal numbers

  predicate IsDigit(b: Byte) {
    48 <= b <= 57
  }

  function Decimal(n: nat): (s: seq<Byte>)
    ensures s != [] && forall b :: b in s ==> IsDigit(b)
  {
    if n < 10 then [48 + n] else Decimal(n / 10) + [48 + n % 10]
  }

  /** Decimal digits, with single underscores between digits as Python's `int` allows. */
  function ParseDigits(s: seq<Byte>): Option<nat> {
    if s == [] || !IsDigit(s[|s| - 1]) then None
    else
      var d, front := s[|s| - 1] - 48, s[..|s| - 1];
      if front == [] then Some(d)
      else
        match ParseDigits(if front[|front| - 1] == 95 then front[..|front| - 1] else front)
        case Some(n) => Some(10 * n + d)
        case None => None
  }

  predicate IsSpace(b: Byte) {
    9 <= b <= 13 || 28 <= b <= 32
  }

  function StripLeft(s: seq<Byte>): seq<Byte> {
    if s != [] && IsSpace(s[0]) then StripLeft(s[1..]) else s
  }

  function StripRight(s: seq<Byte>): seq<Byte> {
    if s != [] && IsSpace(s[|s| - 1]) then StripRight(s[..|s| - 1]) else s
  }

  function Strip(s: seq<Byte>): seq<Byte> {
    StripRight(StripLeft(s))
  }

  /** Python's `int` on ASCII text without surrounding space. */
  function ParseInt(s: seq<Byte>): Option<int> {
    var signed := s != [] && s[0] in {43, 45};
    var digits := ParseDigits(if signed then s[1..] else s);
    if digits.None? then None
    else
      var n: int := digits.value;
      Some(if signed && s[0] == 45 then -n else n)
  }

  lemma {:induction false} ParseDecimalDigits(n: nat)
    ensures ParseDigits(Decimal(n)) == Some(n)
  {
    if n >= 10 {
      var front := Decimal(n / 10);
      ParseDecimalDigits(n / 10);
      assert Decimal(n)[..|Decimal(n)| - 1] == front;
      assert front[|front| - 1] in front;
    }
  }

  /** Printing a length and parsing it gives the length. */
  lemma ParseDecimal(n: nat)
    ensures ParseInt(Decimal(n)) == Some(n)
  {
    ParseDecimalDigits(n);
    assert Decimal(n)[0] in Decimal(n);
  }

  ghost predicate DigitsAndSingles(s: seq<Byte>) {
    && s != [] && IsDigit(s[0]) && IsDigit(s[|s| - 1])
    && (forall i :: 0 <= i < |s| ==> IsDigit(s[i]) || s[i] == 95)
    && (forall i :: 0 < i < |s| && s[i] == 95 ==> s[i - 1] != 95)
  }

  /** A number is digits with single underscores between them, and nothing else is. */
  lemma {:induction false} NumberIff(s: seq<Byte>)
    ensures ParseDigits(s).Some? <==> DigitsAndSingles(s)
    decreases |s|
  {
    if s != [] && IsDigit(s[|s| - 1]) && |s| > 1 {
      var front := s[..|s| - 1];
      var digits := if front[|front| - 1] == 95 then front[..|front| - 1] else front;
      NumberIff(digits);
      assert forall i :: 0 <= i < |digits| ==> digits[i] == s[i];
    }
  }

  function WithoutUnderscores(s: seq<Byte>): seq<Byte> {
    if s == [] then []
    else WithoutUnderscores(s[..|s| - 1]) + (if s[|s| - 1] == 95 then [] else [s[|s| - 1]])
  }

  /** What digits denote in base ten. */
  function Value(digits: seq<Byte>): int {
    if digits == [] then 0
    else
      var last: int := digits[|digits| - 1];
      10 * Value(digits[..|digits| - 1]) + last - 48
  }

  /** A number denotes what its digits do, underscores aside. */
  lemma {:induction false} NumberDenotes(s: seq<Byte>)
    requires ParseDigits(s).Some?
    ensures ParseDigits(s).value == Value(WithoutUnderscores(s))
    decreases |s|
  {
    var front := s[..|s| - 1];
    var last := [s[|s| - 1]];
    var rest := WithoutUnderscores(s);
    assert rest == WithoutUnderscores(front) + last;
    assert rest[..|rest| - 1] == WithoutUnderscores(front);
    if front != [] {
      var digits := if front[|front| - 1] == 95 then front[..|front| - 1] else front;
      NumberDenotes(digits);
      assert WithoutUnderscores(digits) == WithoutUnderscores(front);
    }
  }

  /** A sign before a number negates it or does nothing. */
  lemma ParseSigned(n: nat)
    ensures var value: int := n; ParseInt([45] + Decimal(n)) == Some(-value) && ParseInt([43] + Decimal(n)) == Some(value)
  {
    ParseDecimalDigits(n);
    assert ([45] + Decimal(n))[1..] == Decimal(n) && ([43] + Decimal(n))[1..] == Decimal(n);
  }

  // ---------------------------------------------------------------- the header

  /** "Content-Length: " */
  const LABEL: seq<Byte> := [67, 111, 110, 116, 101, 110, 116, 45, 76, 101, 110, 103, 116, 104, 58, 32]
  /** "content-length:" */
  const PREFIX: seq<Byte> := [99, 111, 110, 116, 101, 110, 116, 45, 108, 101, 110, 103, 116, 104, 58]

  function LowerByte(b: Byte): Byte {
    if 65 <= b <= 90 then b + 32 else b
  }

  function Lower(s: seq<Byte>): (r: seq<Byte>)
    ensures |r| == |s| && forall i :: 0 <= i < |s| ==> r[i] == LowerByte(s[i])
  {
    seq(|s|, i requires 0 <= i < |s| => LowerByte(s[i]))
  }

  predicate IsHeader(line: seq<Byte>) {
    PREFIX <= Lower(line)
  }

  predicate IsAscii(s: seq<Byte>) {
    forall b :: b in s ==> b < 128
  }

  /** What follows the first colon; nothing if there is none. */
  function AfterColon(s: seq<Byte>): seq<Byte> {
    if s == [] then [] else if s[0] == 58 then s[1..] else AfterColon(s[1..])
  }

  /** The length a header line announces; None if it is not ASCII or not a number. */
  function HeaderLength(line: seq<Byte>): Option<int> {
    if IsAscii(line) then ParseInt(Strip(AfterColon(line))) else None
  }

  // ---------------------------------------------------------------- reading

  datatype ReadError = Closed | InvalidLength | NegativeLength | Incomplete

  /** Up to and including the first newline; everything if there is none. */
  function Line(s: seq<Byte>): (line: seq<Byte>)
    ensures line <= s && (s != [] ==> line != [])
  {
    if s == [] then [] else if s[0] == NL then [NL] else [s[0]] + Line(s[1..])
  }

  predicate IsBlank(line: seq<Byte>) {
    line == [CR, NL] || line == [NL] || line == []
  }

  /** What follows the first blank line. */
  function SkipHeaders(s: seq<Byte>): (rest: seq<Byte>)
    ensures |rest| <= |s|
    decreases |s|
  {
    var line := Line(s);
    if IsBlank(line) then s[|line|..] else SkipHeaders(s[|line|..])
  }

  /** One message and what is left of the stream after it. */
  function ReadMessage(s: seq<Byte>): (Result<seq<Byte>, ReadError>, seq<Byte>) {
    var first, rest := Line(s), s[|Line(s)|..];
    if first == [] then (Err(Closed), s)
    else if !IsHeader(first) then (Ok(first), rest)
    else if HeaderLength(first).None? then (Err(InvalidLength), rest)
    else
      var length, body := HeaderLength(first).value, SkipHeaders(rest);
      if length < 0 then (Err(NegativeLength), body)
      else if |body| < length then (Err(Incomplete), [])
      else (Ok(body[..length]), body[length..])
  }

  /** A byte stream whose far end has written `pending` and closed it. */
  class StreamReader {
    var pending: seq<Byte>

    constructor (pending: seq<Byte>)
      ensures this.pending == pending
    {
      this.pending := pending;
    }

    method ReadLine() returns (line: seq<Byte>)
      modifies this
      ensures line == Line(old(pending)) && pending == old(pending)[|line|..]
    {
      line := Line(pending);
      pending := pending[|line|..];
    }

    method ReadExactly(n: int) returns (r: Result<seq<Byte>, ReadError>)
      modifies this
      ensures n < 0 ==> r == Err(NegativeLength) && pending == old(pending)
      ensures n > |old(pending)| ==> r == Err(Incomplete) && pending == []
      ensures 0 <= n <= |old(pending)| ==> r == Ok(old(pending)[..n]) && pending == old(pending)[n..]
    {
      if n < 0 {
        r := Err(NegativeLength);
      } else if n > |pending| {
        r, pending := Err(Incomplete), [];
      } else {
        r, pending := Ok(pending[..n]), pending[n..];
      }
    }

    method ReadFramedOrLine() returns (r: Result<seq<Byte>, ReadError>)
      modifies this
      ensures (r, pending) == ReadMessage(old(pending))
    {
      var first := ReadLine();
      if first == [] {
        return Err(Closed);
      }
      if !IsHeader(first) {
        return Ok(first);
      }
      var length := HeaderLength(first);
      if length.None? {
        return Err(InvalidLength);
      }
      ghost var rest := pending;
      var line := ReadLine();
      while !IsBlank(line)
        invariant |pending| <= |rest|
        invariant SkipHeaders(rest) == if IsBlank(line) then pending else SkipHeaders(pending)
        decreases |pending| + |line|
      {
        line := ReadLine();
      }
      r := ReadExactly(length.value);
    }
  }

  // ---------------------------------------------------------------- writing

  function Header(n: nat): seq<Byte> {
    LABEL + Decimal(n) + [CR, NL]
  }

  function Frame(payload: seq<Byte>): seq<Byte> {
    Header(|payload|) + [CR, NL] + payload
  }

  class StreamWriter {
    var sent: seq<Byte>

    constructor ()
      ensures sent == []
    {
      sent := [];
    }

    method WriteFramed(payload: seq<Byte>)
      modifies this
      ensures sent == old(sent) + Frame(payload)
    {
      sent := sent + (LABEL + Decimal(|payload|) + [CR, NL] + [CR, NL] + payload);
    }
  }

  // ---------------------------------------------------------------- one frame

  lemma {:induction false} LineStops(a: seq<Byte>, b: seq<Byte>)
    requires NL !in a
    ensures Line(a + [NL] + b) == a + [NL]
  {
    if a == [] {
      assert ([NL] + b)[0] == NL;
    } else {
      LineStops(a[1..], b);
      assert (a + [NL] + b)[1..] == a[1..] + [NL] + b;
    }
  }

  lemma LabelIsHeader(s: seq<Byte>)
    ensures IsHeader(LABEL + s)
  {
    var line := LABEL + s;
    assert |PREFIX| == 15 && |LABEL| == 16;
    forall i | 0 <= i < 15 ensures Lower(line)[i] == PREFIX[i] {
      assert line[i] == LABEL[i];
    }
  }

  lemma {:induction false} AfterLabel(a: seq<Byte>, s: seq<Byte>)
    requires 58 !in a
    ensures AfterColon(a + [58] + s) == s
  {
    if a != [] {
      AfterLabel(a[1..], s);
      assert (a + [58] + s)[1..] == a[1..] + [58] + s;
    }
  }

  lemma {:induction false} StripRightSpaces(s: seq<Byte>, spaces: seq<Byte>)
    requires s != [] && !IsSpace(s[|s| - 1]) && forall b :: b in spaces ==> IsSpace(b)
    ensures StripRight(s + spaces) == s
  {
    if spaces == [] {
      assert s + spaces == s;
    } else {
      var n := |spaces| - 1;
      assert spaces[n] in spaces;
      assert (s + spaces)[..|s| + n] == s + spaces[..n];
      StripRightSpaces(s, spaces[..n]);
    }
  }

  /** Digits after a space and before more of it are what is left when the space is stripped. */
  lemma StripsToDigits(digits: seq<Byte>, spaces: seq<Byte>)
    requires digits != [] && forall b :: b in digits ==> IsDigit(b)
    requires forall b :: b in spaces ==> IsSpace(b)
    ensures Strip([32] + digits + spaces) == digits
  {
    var t := digits + spaces;
    assert digits[0] in digits && digits[|digits| - 1] in digits;
    assert [32] + digits + spaces == [32] + t && ([32] + t)[1..] == t;
    assert StripLeft([32] + t) == StripLeft(t) == t;
    StripRightSpaces(digits, spaces);
  }

  /** The header line of a length, complete or cut off after its digits. */
  lemma LengthLine(digits: seq<Byte>, spaces: seq<Byte>)
    requires digits != [] && (forall b :: b in digits ==> IsDigit(b)) && forall b :: b in spaces ==> IsSpace(b)
    ensures IsHeader(LABEL + digits + spaces)
    ensures HeaderLength(LABEL + digits + spaces) == ParseInt(digits)
  {
    var line, name := LABEL + digits + spaces, LABEL[..14];
    LabelIsHeader(digits + spaces);
    assert line == LABEL + (digits + spaces);
    assert line == name + [58] + ([32] + digits + spaces);
    AfterLabel(name, [32] + digits + spaces);
    StripsToDigits(digits, spaces);
    forall b | b in line ensures b < 128 {
      assert b in LABEL || b in digits || b in spaces;
    }
  }

  lemma WrittenHeader(n: nat)
    ensures IsHeader(Header(n)) && HeaderLength(Header(n)) == Some(n)
    ensures Header(n)[..|Header(n)| - 1] == LABEL + Decimal(n) + [CR] && NL !in LABEL + Decimal(n) + [CR]
  {
    LengthLine(Decimal(n), [CR, NL]);
    ParseDecimal(n);
    assert [CR, NL] == [CR] + [NL];
    forall b | b in LABEL + Decimal(n) + [CR] ensures b != NL {
      assert b in LABEL || b in Decimal(n) || b in [CR];
    }
  }

  lemma SkipsBlank(s: seq<Byte>)
    ensures SkipHeaders([CR, NL] + s) == s
  {
    LineStops([CR], s);
    assert [CR] + [NL] + s == [CR, NL] + s && [CR] + [NL] == [CR, NL];
  }

  /** A written frame is read back whole, and nothing after it is touched. */
  lemma FrameRoundTrip(payload: seq<Byte>, rest: seq<Byte>)
    ensures ReadMessage(Frame(payload) + rest) == (Ok(payload), rest)
  {
    var header := Header(|payload|);
    var tail := [CR, NL] + (payload + rest);
    var front := header[..|header| - 1];
    WrittenHeader(|payload|);
    assert Frame(payload) + rest == front + [NL] + tail && front + [NL] == header;
    LineStops(front, tail);
    SkipsBlank(payload + rest);
  }

  /** A newline-terminated message is read back exactly if its line does not look like a length header. */
  lemma LineRoundTripIff(payload: seq<Byte>, rest: seq<Byte>)
    requires NL !in payload
    ensures ReadMessage(payload + [NL] + rest) == (Ok(payload + [NL]), rest) <==> !IsHeader(payload + [NL])
  {
    LineStops(payload, rest);
    assert (payload + [NL] + rest)[|payload| + 1..] == rest;
  }

  // ---------------------------------------------------------------- frames as others write them

  /** Header lines that end in a newline each and of which none is blank. */
  ghost predicate MoreHeaders(lines: seq<seq<Byte>>) {
    forall i :: 0 <= i < |lines| ==> NL !in lines[i] && lines[i] != [] && lines[i] != [CR]
  }

  function Lines(lines: seq<seq<Byte>>): seq<Byte> {
    if lines == [] then [] else lines[0] + [NL] + Lines(lines[1..])
  }

  lemma SkipsBlankLine(cr: seq<Byte>, s: seq<Byte>)
    requires cr == [] || cr == [CR]
    ensures SkipHeaders(cr + [NL] + s) == s
  {
    LineStops(cr, s);
    assert cr + [NL] == if cr == [] then [NL] else [CR, NL];
    assert (cr + [NL] + s)[|cr + [NL]|..] == s;
  }

  lemma NotBlank(line: seq<Byte>)
    requires NL !in line && line != [] && line != [CR]
    ensures !IsBlank(line + [NL])
  {
    var all := line + [NL];
    assert all[0] == line[0] && line[0] in line;
    if |line| == 1 {
      assert line == [line[0]];
    }
  }

  lemma SkipsLine(line: seq<Byte>, later: seq<Byte>)
    requires NL !in line && line != [] && line != [CR]
    ensures SkipHeaders(line + [NL] + later) == SkipHeaders(later)
  {
    LineStops(line, later);
    NotBlank(line);
    assert (line + [NL] + later)[|line + [NL]|..] == later;
  }

  /** All header lines up to the blank one are skipped, however it ends. */
  lemma {:induction false} SkipsMore(lines: seq<seq<Byte>>, cr: seq<Byte>, s: seq<Byte>)
    requires MoreHeaders(lines) && (cr == [] || cr == [CR])
    ensures SkipHeaders(Lines(lines) + (cr + [NL] + s)) == s
    decreases |lines|
  {
    var last := cr + [NL] + s;
    if lines == [] {
      assert Lines(lines) + last == last;
      SkipsBlankLine(cr, s);
    } else {
      SkipsMore(lines[1..], cr, s);
      assert Lines(lines) + last == lines[0] + [NL] + (Lines(lines[1..]) + last);
      SkipsLine(lines[0], Lines(lines[1..]) + last);
    }
  }

  /** The name of the header in any case. */
  ghost predicate IsName(name: seq<Byte>) {
    Lower(name + [58]) == PREFIX
  }

  lemma NamedIsHeader(name: seq<Byte>, s: seq<Byte>)
    requires IsName(name)
    ensures IsHeader(name + [58] + s) && 58 !in name && NL !in name && forall b :: b in name ==> b < 128
  {
    var line := name + [58] + s;
    assert |name| == 14;
    forall i | 0 <= i < 15 ensures Lower(line)[i] == PREFIX[i] {
      assert line[i] == (name + [58])[i];
    }
    forall b | b in name ensures b != 58 && b != NL && b < 128 {
      var i :| 0 <= i < 14 && name[i] == b;
      assert Lower(name + [58])[i] == LowerByte((name + [58])[i]) == LowerByte(b);
      assert PREFIX[i] in PREFIX[..14];
    }
  }

  /** Spaces around a number are stripped, and nothing of it. */
  lemma {:induction false} StripsAround(left: seq<Byte>, s: seq<Byte>, right: seq<Byte>)
    requires s != [] && !IsSpace(s[0]) && !IsSpace(s[|s| - 1])
    requires (forall b :: b in left ==> IsSpace(b)) && forall b :: b in right ==> IsSpace(b)
    ensures Strip(left + s + right) == s
    decreases |left|
  {
    if left == [] {
      assert left + s + right == s + right;
      StripRightSpaces(s, right);
    } else {
      assert left[0] in left;
      assert (left + s + right)[1..] == left[1..] + s + right;
      StripsAround(left[1..], s, right);
    }
  }

  /** A length as another program may write it: any case, spaces and sign. */
  lemma OtherHeader(name: seq<Byte>, left: seq<Byte>, number: seq<Byte>, right: seq<Byte>)
    requires IsName(name) && number != [] && !IsSpace(number[0]) && !IsSpace(number[|number| - 1])
    requires IsAscii(number) && (forall b :: b in left ==> IsSpace(b)) && forall b :: b in right ==> IsSpace(b)
    ensures IsHeader(name + [58] + (left + number + right))
    ensures HeaderLength(name + [58] + (left + number + right)) == ParseInt(number)
  {
    var line := name + [58] + (left + number + right);
    NamedIsHeader(name, left + number + right);
    AfterLabel(name, left + number + right);
    StripsAround(left, number, right);
    forall b | b in line ensures b < 128 {
      assert b in name || b == 58 || b in left || b in number || b in right;
    }
  }

  /**
   * A message as another program may frame it, with its header in any case and spacing and any further header lines:
   * as many bytes as announced are read and none after them. Too few are reported, and so is a negative length.
   */
  lemma OtherFrames(name: seq<Byte>, left: seq<Byte>, number: seq<Byte>, right: seq<Byte>,
                    lines: seq<seq<Byte>>, cr: seq<Byte>, body: seq<Byte>)
    requires IsName(name) && number != [] && !IsSpace(number[0]) && !IsSpace(number[|number| - 1])
    requires IsAscii(number) && NL !in number && MoreHeaders(lines) && (cr == [] || cr == [CR])
    requires forall b :: b in left + right ==> b == 9 || 11 <= b <= 13 || 28 <= b <= 32
    ensures var s := name + [58] + (left + number + right) + [NL] + (Lines(lines) + (cr + [NL] + body));
      ReadMessage(s) ==
        match ParseInt(number)
        case None => (Err(InvalidLength), Lines(lines) + (cr + [NL] + body))
        case Some(n) =>
          if n < 0 then (Err(NegativeLength), body)
          else if |body| < n then (Err(Incomplete), [])
          else (Ok(body[..n]), body[n..])
  {
    var line, later := name + [58] + (left + number + right), Lines(lines) + (cr + [NL] + body);
    var spaces := right + [NL];
    NamedIsHeader(name, left + number + right);
    forall b | b in left || b in right ensures IsSpace(b) && b != NL {
      assert b in left + right;
    }
    assert NL !in line;
    LineStops(line, later);
    assert (line + [NL] + later)[|line + [NL]|..] == later;
    assert line + [NL] == name + [58] + (left + number + spaces);
    OtherHeader(name, left, number, spaces);
    SkipsMore(lines, cr, body);
  }

  /** The stream is reported closed exactly at its end. */
  lemma ClosedIff(s: seq<Byte>)
    ensures ReadMessage(s).0 == Err(Closed) <==> s == []
  {
  }

  // ---------------------------------------------------------------- a whole stream

  datatype Message = Framed(payload: seq<Byte>) | Lined(payload: seq<Byte>)

  function Encode(m: Message): seq<Byte> {
    match m
    case Framed(payload) => Frame(payload)
    case Lined(payload) => payload + [NL]
  }

  function EncodeAll(ms: seq<Message>): seq<Byte> {
    if ms == [] then [] else Encode(ms[0]) + EncodeAll(ms[1..])
  }

  /** The bytes the JSON decoder is given for a message. */
  function Raw(m: Message): seq<Byte> {
    match m
    case Framed(payload) => payload
    case Lined(payload) => payload + [NL]
  }

  /** A frame may hold anything; a line holds no newline and does not look like a length header. */
  predicate Writable(m: Message) {
    m.Lined? ==> NL !in m.payload && !IsHeader(m.payload + [NL])
  }

  lemma MessageRoundTrip(m: Message, rest: seq<Byte>)
    requires Writable(m)
    ensures ReadMessage(Encode(m) + rest) == (Ok(Raw(m)), rest)
  {
    match m {
      case Framed(payload) => FrameRoundTrip(payload, rest);
      case Lined(payload) => LineRoundTripIff(payload, rest);
    }
  }

  /** The first `n` reads from a stream and what they leave. */
  function ReadAll(n: nat, s: seq<Byte>): (seq<Result<seq<Byte>, ReadError>>, seq<Byte>) {
    if n == 0 then ([], s)
    else
      var first := ReadMessage(s);
      var others := ReadAll(n - 1, first.1);
      ([first.0] + others.0, others.1)
  }

  lemma ReadAllNext(n: nat, s: seq<Byte>, r: Result<seq<Byte>, ReadError>, rest: seq<Byte>,
                    others: seq<Result<seq<Byte>, ReadError>>, last: seq<Byte>)
    requires n > 0 && ReadMessage(s) == (r, rest) && ReadAll(n - 1, rest) == (others, last)
    ensures ReadAll(n, s) == ([r] + others, last)
  {
  }

  function Expected(ms: seq<Message>): (r: seq<Result<seq<Byte>, ReadError>>)
    ensures |r| == |ms| && forall i :: 0 <= i < |ms| ==> r[i] == Ok(Raw(ms[i]))
  {
    seq(|ms|, i requires 0 <= i < |ms| => Ok(Raw(ms[i])))
  }

  lemma ExpectedNext(ms: seq<Message>)
    requires ms != []
    ensures [Ok(Raw(ms[0]))] + Expected(ms[1..]) == Expected(ms)
  {
  }

  lemma StreamNext(m: Message, later: seq<Byte>, n: nat, others: seq<Result<seq<Byte>, ReadError>>, last: seq<Byte>)
    requires Writable(m) && ReadAll(n, later) == (others, last)
    ensures ReadAll(n + 1, Encode(m) + later) == ([Ok(Raw(m))] + others, last)
  {
    MessageRoundTrip(m, later);
    ReadAllNext(n + 1, Encode(m) + later, Ok(Raw(m)), later, others, last);
  }

  /** Any mixture of frames and lines is read back in order, and trailing bytes are left untouched. */
  lemma {:induction false} StreamRoundTrip(ms: seq<Message>, trailing: seq<Byte>)
    requires forall m :: m in ms ==> Writable(m)
    ensures ReadAll(|ms|, EncodeAll(ms) + trailing) == (Expected(ms), trailing)
  {
    if ms == [] {
      assert EncodeAll(ms) + trailing == trailing;
    } else {
      assert ms[0] in ms;
      StreamRoundTrip(ms[1..], trailing);
      Associate(Encode(ms[0]), EncodeAll(ms[1..]), trailing);
      StreamNext(ms[0], EncodeAll(ms[1..]) + trailing, |ms| - 1, Expected(ms[1..]), trailing);
      ExpectedNext(ms);
    }
  }

  // ---------------------------------------------------------------- a stream cut short

  lemma {:induction false} LineOfAll(s: seq<Byte>)
    requires NL !in s
    ensures Line(s) == s
  {
    if s != [] {
      LineOfAll(s[1..]);
    }
  }

  /** The first digits of a number are those of another one, not zero unless the number is. */
  lemma {:induction false} FirstDigits(n: nat, j: nat) returns (m: nat)
    requires 1 <= j <= |Decimal(n)|
    ensures Decimal(n)[..j] == Decimal(m) && (n > 0 ==> m > 0)
  {
    if j == |Decimal(n)| {
      m := n;
      assert Decimal(n)[..j] == Decimal(n);
    } else {
      m := FirstDigits(n / 10, j);
      assert Decimal(n)[..j] == Decimal(n / 10)[..j];
    }
  }

  predicate Detected(payload: seq<Byte>, r: Result<seq<Byte>, ReadError>) {
    r.Err? || (payload == [] && r == Ok([]))
  }

  /** A stream that ends in its header line announces a length and holds nothing. */
  lemma OnlyHeader(line: seq<Byte>)
    requires NL !in line && IsHeader(line)
    ensures ReadMessage(line).0.Err? || (HeaderLength(line) == Some(0) && ReadMessage(line).0 == Ok([]))
  {
    LineOfAll(line);
    assert line[|Line(line)|..] == [];
    assert |PREFIX| <= |Lower(line)|;
  }

  /** The header line cut off in its digits announces no zero unless the length is zero. */
  lemma CutDigits(n: nat, j: nat)
    requires j <= |Decimal(n)|
    ensures IsHeader(LABEL + Decimal(n)[..j])
    ensures HeaderLength(LABEL + Decimal(n)[..j]) == Some(0) ==> n == 0
  {
    var line := LABEL + Decimal(n)[..j];
    LabelIsHeader(Decimal(n)[..j]);
    if j == 0 {
      assert line == LABEL == LABEL[..14] + [58] + [32];
      AfterLabel(LABEL[..14], [32]);
      var space: seq<Byte> := [32];
      assert space[1..] == [] && StripLeft(space) == [];
    } else {
      var m := FirstDigits(n, j);
      assert line == LABEL + Decimal(m) + [];
      LengthLine(Decimal(m), []);
      ParseDecimal(m);
    }
  }

  /** Cut off in the header line. */
  lemma CutInHeader(payload: seq<Byte>, k: nat)
    requires 16 <= k < |Header(|payload|)|
    ensures Detected(payload, ReadMessage(Header(|payload|)[..k]).0)
  {
    var n, cut := |payload|, Header(|payload|)[..k];
    WrittenHeader(n);
    assert cut == (LABEL + Decimal(n) + [CR])[..k];
    if k <= 16 + |Decimal(n)| {
      CutDigits(n, k - 16);
      assert cut == LABEL + Decimal(n)[..k - 16];
    } else {
      assert cut == LABEL + Decimal(n) + [CR];
      LengthLine(Decimal(n), [CR]);
      ParseDecimal(n);
    }
    OnlyHeader(cut);
  }

  /** Cut off after the header line. */
  lemma CutAfterHeader(payload: seq<Byte>, k: nat)
    requires |Header(|payload|)| <= k < |Frame(payload)|
    ensures Detected(payload, ReadMessage(Frame(payload)[..k]).0)
  {
    var header, tail := Header(|payload|), [CR, NL] + payload;
    var front, left := header[..|header| - 1], tail[..k - |header|];
    WrittenHeader(|payload|);
    assert front + [NL] == header;
    assert Frame(payload) == header + tail;
    assert Frame(payload)[..k] == front + [NL] + left;
    LineStops(front, left);
    assert (front + [NL] + left)[|header|..] == left;
    if |left| >= 2 {
      assert left == [CR, NL] + payload[..|left| - 2];
      SkipsBlank(payload[..|left| - 2]);
    } else if |left| == 1 {
      assert left == [CR];
      LineOfAll(left);
      assert left[1..] == [];
    } else {
      assert left == [];
    }
  }

  /** A frame cut off anywhere after its label is never taken for a shorter message. */
  lemma TruncationIsDetected(payload: seq<Byte>, k: nat)
    requires 16 <= k < |Frame(payload)|
    ensures Detected(payload, ReadMessage(Frame(payload)[..k]).0)
  {
    if k < |Header(|payload|)| {
      assert Frame(payload)[..k] == Header(|payload|)[..k];
      CutInHeader(payload, k);
    } else {
      CutAfterHeader(payload, k);
    }
  }
}
