/** RESP arrays on the wire: what WriteRESP emits and what ReadRESP accepts. */
module RespCodec {
  import opened Basics
  import opened Decimal

  const STAR: byte := 42
  const DOLLAR: byte := 36
  const COLON: byte := 58
  const PLUS: byte := 43
  const MINUS: byte := 45

  /** Configured limits: bulk string length, array length and line length. */
  datatype Limits = Limits(bulk: nat, count: nat, line: nat)

  /** An array element; None is the nil bulk string. */
  type Arg = Option<Bytes>

  datatype ReadError =
    | UnexpectedEnd | LineTooLong | EmptyLine | BadPrefix | BadLength | TooLarge | BadElement

  /** What one ReadRESP yields; `rest` is what stays in the reader. */
  datatype Outcome =
    | Read(args: seq<Arg>, rest: Bytes)
    | Inline(line: Bytes, rest: Bytes)
    | Refused(error: ReadError)

  datatype Line = Line(text: Bytes, rest: Bytes) | NoLine(error: ReadError)

  datatype Elems = Elems(args: seq<Arg>, rest: Bytes) | BadElems(error: ReadError)

  // -------------------------------------------------------------------- writing

  function EncodeArg(a: Arg): Bytes {
    match a
    case None => [DOLLAR, MINUS, 49] + CRLF
    case Some(b) => [DOLLAR] + Format(|b|) + CRLF + b + CRLF
  }

  function EncodeArgs(args: seq<Arg>): Bytes {
    if args == [] then [] else EncodeArg(args[0]) + EncodeArgs(args[1..])
  }

  function Encode(args: seq<Arg>): Bytes {
    [STAR] + Format(|args|) + CRLF + EncodeArgs(args)
  }

  lemma {:induction false} EncodeArgsAppend(xs: seq<Arg>, a: Arg)
    ensures EncodeArgs(xs + [a]) == EncodeArgs(xs) + EncodeArg(a)
  {
    if xs == [] {
      assert xs + [a] == [a] && [a][1..] == [];
    } else {
      assert (xs + [a])[0] == xs[0] && (xs + [a])[1..] == xs[1..] + [a];
      EncodeArgsAppend(xs[1..], a);
    }
  }

  /** WriteRESP on an Array: the header, then each element in turn. */
  method WriteArray(args: seq<Arg>) returns (out: Bytes)
    ensures out == Encode(args)
  {
    var header := [STAR] + Format(|args|) + CRLF;
    var body: Bytes := [];
    for i := 0 to |args|
      invariant body == EncodeArgs(args[..i])
    {
      EncodeArgsAppend(args[..i], args[i]);
      assert args[..i + 1] == args[..i] + [args[i]];
      body := body + EncodeArg(args[i]);
    }
    assert args[..|args|] == args;
    out := header + body;
  }

  // -------------------------------------------------------------------- reading

  /** The position of the first `b`, or the length if there is none. */
  function IndexOf(s: Bytes, b: byte): (i: nat)
    ensures i <= |s| && b !in s[..i] && (i < |s| ==> s[i] == b)
  {
    if s == [] || s[0] == b then 0 else 1 + IndexOf(s[1..], b)
  }

  /** One line without its terminator; a CR before the LF is optional. */
  function ReadLine(s: Bytes, lim: Limits): Line {
    var i := IndexOf(s, LF);
    if i == |s| then NoLine(UnexpectedEnd)
    else if i + 1 > lim.line then NoLine(LineTooLong)
    else Line(if i > 0 && s[i - 1] == CR then s[..i - 1] else s[..i], s[i + 1..])
  }

  /** The payload of a bulk string whose length line has been read; the last two bytes are not looked at. */
  function ReadBulk(n: int, s: Bytes, lim: Limits): Elems {
    if n == -1 then Elems([None], s)
    else if n < -1 then BadElems(BadLength)
    else if n > lim.bulk then BadElems(TooLarge)
    else if n + 2 > |s| then BadElems(UnexpectedEnd)
    else Elems([Some(s[..n])], s[n + 2..])
  }

  function ReadElem(s: Bytes, lim: Limits): Elems {
    match ReadLine(s, lim)
    case NoLine(e) => BadElems(e)
    case Line(line, rest) =>
      if line == [] then BadElems(EmptyLine)
      else if line[0] == DOLLAR then
        (match Atoi(line[1..])
         case None => BadElems(BadLength)
         case Some(n) => ReadBulk(n, rest, lim))
      else if line[0] == COLON || line[0] == PLUS then Elems([Some(line[1..])], rest)
      else BadElems(BadElement)
  }

  function ReadElems(n: nat, s: Bytes, lim: Limits): Elems {
    if n == 0 then Elems([], s)
    else match ReadElem(s, lim)
      case BadElems(e) => BadElems(e)
      case Elems(head, rest) =>
        match ReadElems(n - 1, rest, lim)
        case BadElems(e) => BadElems(e)
        case Elems(tail, rest') => Elems(head + tail, rest')
  }

  function Finish(elems: Elems): Outcome {
    match elems
    case BadElems(e) => Refused(e)
    case Elems(args, rest) => Read(args, rest)
  }

  function Decode(s: Bytes, lim: Limits): Outcome {
    match ReadLine(s, lim)
    case NoLine(e) => Refused(e)
    case Line(line, rest) =>
      if line == [] then Refused(EmptyLine)
      else if line == [STAR] then Refused(BadPrefix)
      else if line[0] == STAR then
        (match Atoi(line[1..])
         case None => Refused(BadLength)
         case Some(n) =>
           if n < 0 then Refused(BadLength)
           else if lim.count < n then Refused(TooLarge)
           else Finish(ReadElems(n, rest, lim)))
      else if line[0] == PLUS || line[0] == MINUS then
        if |line| < 2 then Refused(BadPrefix) else Read([Some(line[1..])], rest)
      else if line[0] == DOLLAR then
        (match Atoi(line[1..])
         case None => Refused(BadLength)
         case Some(n) => Finish(ReadBulk(n, rest, lim)))
      else Inline(line, rest)
  }

  /** The outcome once `args` have been read and `more` follows. */
  function Join(args: seq<Arg>, more: Elems): Outcome {
    match more
    case BadElems(e) => Refused(e)
    case Elems(tail, rest) => Read(args + tail, rest)
  }

  /** One iteration of the element loop. */
  lemma ReadOne(args: seq<Arg>, n: nat, s: Bytes, lim: Limits)
    requires n > 0
    ensures Join(args, ReadElems(n, s, lim)) ==
            match ReadElem(s, lim) {
              case BadElems(e) => Refused(e)
              case Elems(head, rest) => Join(args + head, ReadElems(n - 1, rest, lim)) }
  {
    var elem := ReadElem(s, lim);
    if elem.Elems? {
      var more := ReadElems(n - 1, elem.rest, lim);
      if more.Elems? { assert args + (elem.args + more.args) == (args + elem.args) + more.args; }
    }
  }

  /** ReadRESP: the loop over the elements of an array. */
  method ReadRESP(s: Bytes, lim: Limits) returns (r: Outcome)
    ensures r == Decode(s, lim)
  {
    var line := ReadLine(s, lim);
    if line.NoLine? || line.text == [] || line.text[0] != STAR { return Decode(s, lim); }
    var n := Atoi(line.text[1..]);
    if n.None? || n.value < 0 || n.value > lim.count { return Decode(s, lim); }
    r := ReadArray(n.value, line.rest, lim);
  }

  method ReadArray(n: nat, s: Bytes, lim: Limits) returns (r: Outcome)
    ensures r == Finish(ReadElems(n, s, lim))
  {
    var args: seq<Arg> := [];
    var rest, left := s, n;
    assert Finish(ReadElems(n, s, lim)) == Join([], ReadElems(n, s, lim)) by {
      var e := ReadElems(n, s, lim);
      if e.Elems? { assert [] + e.args == e.args; }
    }
    while left > 0
      invariant 0 <= left <= n
      invariant Finish(ReadElems(n, s, lim)) == Join(args, ReadElems(left, rest, lim))
    {
      ReadOne(args, left, rest, lim);
      var elem := ReadElem(rest, lim);
      if elem.BadElems? { return Refused(elem.error); }
      args, rest, left := args + elem.args, elem.rest, left - 1;
    }
    assert args + [] == args;
    r := Read(args, rest);
  }

  // ---------------------------------------------------------------- round trips

  /** The defaults set at start-up; only the bulk limit can be changed. */
  predicate Sane(lim: Limits) {
    lim.bulk <= MAX_INT64 && lim.count <= MAX_INT64 && lim.line >= 64
  }

  predicate Fits(args: seq<Arg>, lim: Limits) {
    |args| <= lim.count && forall i :: 0 <= i < |args| && args[i].Some? ==> |args[i].value| <= lim.bulk
  }

  lemma {:induction false} IndexOfAfter(pre: Bytes, b: byte, post: Bytes)
    requires b !in pre
    ensures IndexOf(pre + [b] + post, b) == |pre|
  {
    var s := pre + [b] + post;
    if pre == [] {
      assert s[0] == b;
    } else {
      assert s[0] == pre[0] && s[1..] == pre[1..] + [b] + post;
      IndexOfAfter(pre[1..], b, post);
    }
  }

  /** A line ended by CR LF, when it holds no LF and is not too long. */
  lemma LineOf(text: Bytes, post: Bytes, lim: Limits)
    requires LF !in text && |text| + 2 <= lim.line
    ensures ReadLine(text + CRLF + post, lim) == Line(text, post)
  {
    var head, s := text + [CR], text + CRLF + post;
    assert s == head + [LF] + post;
    IndexOfAfter(head, LF, post);
    assert s[|head| + 1..] == post && s[..|head| - 1] == text && s[|head| - 1] == CR;
  }

  lemma FormatShape(n: nat)
    requires n <= MAX_INT64
    ensures LF !in Format(n) && |Format(n)| <= 19
  {
    FormatValue(n);
    assert LF !in Format(n) by { assert !IsDigit(LF); }
    Pow10Nineteen();
    FormatLength(n, 19);
  }

  /** A header line: a prefix byte and a decimal number. */
  lemma HeaderLine(prefix: byte, n: nat, post: Bytes, lim: Limits)
    requires prefix != LF && n <= MAX_INT64 && lim.line >= 64
    ensures ReadLine([prefix] + Format(n) + CRLF + post, lim) == Line([prefix] + Format(n), post)
  {
    hide *;
    FormatShape(n);
    LineOf([prefix] + Format(n), post, lim);
  }

  lemma Pow10Nineteen()
    ensures Pow10(19) == 10000000000000000000
  {
    assert Pow10(5) == 100000;
    assert Pow10(10) == 10000000000;
    assert Pow10(15) == 1000000000000000;
  }

  lemma NilLine(post: Bytes, lim: Limits)
    requires lim.line >= 64
    ensures ReadLine([DOLLAR, MINUS, 49] + CRLF + post, lim) == Line([DOLLAR, MINUS, 49], post)
  {
    LineOf([DOLLAR, MINUS, 49], post, lim);
  }

  lemma NilRoundTrip(post: Bytes, lim: Limits)
    requires Sane(lim)
    ensures ReadElem(EncodeArg(None) + post, lim) == Elems([None], post)
  {
    NilLine(post, lim);
    assert Atoi([DOLLAR, MINUS, 49][1..]) == Some(-1) by { MinusOne(); }
  }

  lemma MinusOne()
    ensures Atoi([MINUS, 49]) == Some(-1)
  {
    var digits: Bytes := [49];
    assert [MINUS, 49][1..] == digits && digits[..0] == [] && Value(digits) == 1;
  }

  /** A line that announces a length, of a bulk string or of an array. */
  lemma LengthLine(prefix: byte, digits: Bytes, n: int, s: Bytes, rest: Bytes, lim: Limits)
    requires ReadLine(s, lim) == Line([prefix] + digits, rest) && Atoi(digits) == Some(n)
    ensures prefix == DOLLAR ==> Decode(s, lim) == Finish(ReadBulk(n, rest, lim)) && ReadElem(s, lim) == ReadBulk(n, rest, lim)
    ensures prefix == STAR ==>
              Decode(s, lim) == if n < 0 then Refused(BadLength) else if lim.count < n then Refused(TooLarge)
                                else Finish(ReadElems(n, rest, lim))
  {
    assert digits != [];
    hide ReadLine, Atoi, ReadBulk, ReadElems;
    DropHead([prefix], digits);
  }

  /** The same, for a number as it is written. */
  lemma WrittenLength(prefix: byte, n: nat, post: Bytes, lim: Limits)
    requires Sane(lim) && n <= MAX_INT64
    ensures prefix == DOLLAR ==>
              Decode([prefix] + Format(n) + CRLF + post, lim) == Finish(ReadBulk(n, post, lim)) &&
              ReadElem([prefix] + Format(n) + CRLF + post, lim) == ReadBulk(n, post, lim)
    ensures prefix == STAR ==>
              Decode([prefix] + Format(n) + CRLF + post, lim) ==
              if lim.count < n then Refused(TooLarge) else Finish(ReadElems(n, post, lim))
  {
    hide ReadLine, Atoi, ReadBulk, ReadElems, Decode, ReadElem, Format;
    if prefix == DOLLAR || prefix == STAR {
      HeaderLine(prefix, n, post, lim);
      ParseFormat(n);
      LengthLine(prefix, Format(n), n, [prefix] + Format(n) + CRLF + post, post, lim);
    }
  }

  lemma BulkRoundTrip(b: Bytes, post: Bytes, lim: Limits)
    requires Sane(lim) && |b| <= lim.bulk
    ensures ReadElem(EncodeArg(Some(b)) + post, lim) == Elems([Some(b)], post)
  {
    hide ReadElem, Format;
    var payload := b + CRLF + post;
    BulkSplit(Format(|b|), b, post);
    WrittenLength(DOLLAR, |b|, payload, lim);
    assert payload[..|b|] == b && payload[|b| + 2..] == post;
  }

  lemma BulkSplit(f: Bytes, b: Bytes, post: Bytes)
    ensures [DOLLAR] + f + CRLF + b + CRLF + post == [DOLLAR] + f + CRLF + (b + CRLF + post)
  {}

  /** One written element is read back, whatever bytes it holds. */
  lemma ElemRoundTrip(a: Arg, post: Bytes, lim: Limits)
    requires Sane(lim) && (a.Some? ==> |a.value| <= lim.bulk)
    ensures ReadElem(EncodeArg(a) + post, lim) == Elems([a], post)
  {
    match a
    case None => NilRoundTrip(post, lim);
    case Some(b) => BulkRoundTrip(b, post, lim);
  }

  lemma {:induction false} ElemsRoundTrip(args: seq<Arg>, post: Bytes, lim: Limits)
    requires Sane(lim) && forall i :: 0 <= i < |args| && args[i].Some? ==> |args[i].value| <= lim.bulk
    ensures ReadElems(|args|, EncodeArgs(args) + post, lim) == Elems(args, post)
  {
    hide ReadElem, EncodeArg, Sane;
    if args != [] {
      var tail := EncodeArgs(args[1..]) + post;
      assert EncodeArgs(args) + post == EncodeArg(args[0]) + tail;
      ElemRoundTrip(args[0], tail, lim);
      ElemsRoundTrip(args[1..], post, lim);
      OneMoreElem(args[0], args[1..], EncodeArgs(args) + post, tail, post, lim);
      assert args == [args[0]] + args[1..];
    }
  }

  lemma OneMoreElem(a: Arg, rest: seq<Arg>, s: Bytes, tail: Bytes, post: Bytes, lim: Limits)
    requires ReadElem(s, lim) == Elems([a], tail) && ReadElems(|rest|, tail, lim) == Elems(rest, post)
    ensures ReadElems(|rest| + 1, s, lim) == Elems([a] + rest, post)
  {
    hide ReadElem;
  }

  /** A written array followed by anything is read back, and the reader stops right after it. */
  lemma ArrayRoundTrip(args: seq<Arg>, post: Bytes, lim: Limits)
    requires Sane(lim) && Fits(args, lim)
    ensures Decode(Encode(args) + post, lim) == Read(args, post)
  {
    hide Decode, ReadElems, EncodeArgs, Format;
    var body := EncodeArgs(args) + post;
    assert Encode(args) + post == [STAR] + Format(|args|) + CRLF + body;
    WrittenLength(STAR, |args|, body, lim);
    ElemsRoundTrip(args, post, lim);
  }

  // ------------------------------------------------------- lines that are no array

  /** A status or error line is one argument, without its prefix byte; the bare prefix is refused. */
  lemma StatusRead(prefix: byte, text: Bytes, post: Bytes, lim: Limits)
    requires (prefix == PLUS || prefix == MINUS) && LF !in text && |text| + 3 <= lim.line
    ensures Decode([prefix] + text + CRLF + post, lim) == if text == [] then Refused(BadPrefix) else Read([Some(text)], post)
  {
    LineOf([prefix] + text, post, lim);
    assert ([prefix] + text)[1..] == text;
  }

  /** A line that starts with none of the four prefixes is left to the inline parser as it is. */
  lemma InlineRead(text: Bytes, post: Bytes, lim: Limits)
    requires text != [] && text[0] !in {STAR, PLUS, MINUS, DOLLAR} && LF !in text && |text| + 2 <= lim.line
    ensures Decode(text + CRLF + post, lim) == Inline(text, post)
  {
    LineOf(text, post, lim);
  }

  /** A bulk string outside an array, nil or not, is one argument. */
  lemma LoneBulkRead(a: Arg, post: Bytes, lim: Limits)
    requires Sane(lim) && (a.Some? ==> |a.value| <= lim.bulk)
    ensures Decode(EncodeArg(a) + post, lim) == Read([a], post)
  {
    hide Decode, ReadElem, Format, ReadLine, Atoi;
    match a
    case None =>
      NilLine(post, lim);
      MinusOne();
      LengthLine(DOLLAR, [MINUS, 49], -1, [DOLLAR, MINUS, 49] + CRLF + post, post, lim);
    case Some(b) =>
      var payload := b + CRLF + post;
      BulkSplit(Format(|b|), b, post);
      WrittenLength(DOLLAR, |b|, payload, lim);
      assert payload[..|b|] == b && payload[|b| + 2..] == post;
  }

  /** Inside an array a status or number is taken as its text. */
  lemma TextElement(prefix: byte, text: Bytes, post: Bytes, lim: Limits)
    requires (prefix == PLUS || prefix == COLON) && LF !in text && |text| + 3 <= lim.line
    ensures ReadElem([prefix] + text + CRLF + post, lim) == Elems([Some(text)], post)
  {
    LineOf([prefix] + text, post, lim);
    assert ([prefix] + text)[1..] == text;
  }

  /** Announced lengths over the limits are refused before anything is read, in an array and outside. */
  lemma OverLimitRefused(n: nat, post: Bytes, lim: Limits)
    requires Sane(lim) && n <= MAX_INT64
    ensures lim.count < n ==> Decode([STAR] + Format(n) + CRLF + post, lim) == Refused(TooLarge)
    ensures lim.bulk < n ==> Decode([DOLLAR] + Format(n) + CRLF + post, lim) == Refused(TooLarge)
    ensures lim.bulk < n ==> ReadElem([DOLLAR] + Format(n) + CRLF + post, lim) == BadElems(TooLarge)
  {
    hide Decode, ReadElem, Format;
    WrittenLength(STAR, n, post, lim);
    WrittenLength(DOLLAR, n, post, lim);
  }

  /** A payload that is cut off is refused. */
  lemma CutOffRefused(n: nat, post: Bytes, lim: Limits)
    requires Sane(lim) && n <= lim.bulk && |post| < n + 2
    ensures Decode([DOLLAR] + Format(n) + CRLF + post, lim) == Refused(UnexpectedEnd)
    ensures ReadElem([DOLLAR] + Format(n) + CRLF + post, lim) == BadElems(UnexpectedEnd)
  {
    hide Decode, ReadElem, Format;
    WrittenLength(DOLLAR, n, post, lim);
  }

  /** So is a line without an end, and one that is too long. */
  lemma BadLineRefused(s: Bytes, lim: Limits)
    ensures LF !in s ==> Decode(s, lim) == Refused(UnexpectedEnd)
    ensures LF in s && (forall i :: 0 <= i < lim.line && i < |s| ==> s[i] != LF) ==> Decode(s, lim) == Refused(LineTooLong)
  {}

  /** An empty line is refused, the bare array prefix, a length that is no number and an element of another kind. */
  lemma MalformedRefused(prefix: byte, text: Bytes, post: Bytes, lim: Limits)
    requires LF !in text && prefix != LF && |text| + 3 <= lim.line
    ensures Decode(CRLF + post, lim) == Refused(EmptyLine) && ReadElem(CRLF + post, lim) == BadElems(EmptyLine)
    ensures (prefix == STAR || prefix == DOLLAR) && Atoi(text).None? ==>
              Decode([prefix] + text + CRLF + post, lim) == Refused(if prefix == STAR && text == [] then BadPrefix else BadLength)
    ensures prefix == DOLLAR && Atoi(text).None? ==> ReadElem([prefix] + text + CRLF + post, lim) == BadElems(BadLength)
    ensures prefix !in {DOLLAR, COLON, PLUS} ==> ReadElem([prefix] + text + CRLF + post, lim) == BadElems(BadElement)
  {
    hide ReadLine, Atoi, ReadElems, ReadBulk;
    LineOf([], post, lim);
    assert [] + CRLF + post == CRLF + post;
    LineOf([prefix] + text, post, lim);
    DropHead([prefix], text);
    assert text == [] ==> [prefix] + text == [prefix];
    assert |[prefix] + text| == 1 + |text| && ([prefix] + text)[0] == prefix;
  }

  /** A negative count is refused; so is a negative length other than the nil one. */
  lemma NegativeRefused(n: nat, post: Bytes, lim: Limits)
    requires Sane(lim) && 0 < n <= MAX_INT64
    ensures Decode([STAR, MINUS] + Format(n) + CRLF + post, lim) == Refused(BadLength)
    ensures 1 < n ==> Decode([DOLLAR, MINUS] + Format(n) + CRLF + post, lim) == Refused(BadLength)
    ensures 1 < n ==> ReadElem([DOLLAR, MINUS] + Format(n) + CRLF + post, lim) == BadElems(BadLength)
  {
    hide Decode, ReadElem, Format, ReadLine, Atoi;
    var digits := [MINUS] + Format(n);
    FormatShape(n);
    assert LF !in digits;
    NegativeNumber(n);
    MinusLine(STAR, digits, -(n as int), post, lim);
    MinusLine(DOLLAR, digits, -(n as int), post, lim);
    assert [STAR, MINUS] + Format(n) == [STAR] + digits && [DOLLAR, MINUS] + Format(n) == [DOLLAR] + digits;
  }

  lemma MinusLine(prefix: byte, digits: Bytes, n: int, post: Bytes, lim: Limits)
    requires (prefix == STAR || prefix == DOLLAR) && LF !in digits && |digits| + 3 <= lim.line && Atoi(digits) == Some(n) && n < 0
    ensures prefix == STAR ==> Decode([prefix] + digits + CRLF + post, lim) == Refused(BadLength)
    ensures prefix == DOLLAR && n < -1 ==>
              Decode([prefix] + digits + CRLF + post, lim) == Refused(BadLength) &&
              ReadElem([prefix] + digits + CRLF + post, lim) == BadElems(BadLength)
  {
    hide Decode, ReadElem, ReadLine, Atoi;
    LineOf([prefix] + digits, post, lim);
    LengthLine(prefix, digits, n, [prefix] + digits + CRLF + post, post, lim);
  }

  lemma NegativeNumber(n: nat)
    requires n <= MAX_INT64
    ensures Atoi([MINUS] + Format(n)) == Some(-(n as int))
  {
    FormatValue(n);
    DropHead([MINUS], Format(n));
    hide Format;
  }

  function EncodeAll(arrays: seq<seq<Arg>>): Bytes {
    if arrays == [] then [] else Encode(arrays[0]) + EncodeAll(arrays[1..])
  }

  datatype Stream = Stream(arrays: seq<seq<Arg>>, rest: Bytes) | Broken

  /** `n` calls of ReadRESP on one reader. */
  function DecodeN(n: nat, s: Bytes, lim: Limits): Stream {
    if n == 0 then Stream([], s)
    else match Decode(s, lim)
      case Read(args, rest) =>
        (match DecodeN(n - 1, rest, lim)
         case Stream(more, rest') => Stream([args] + more, rest')
         case Broken => Broken)
      case _ => Broken
  }

  /** A pipelined stream of written arrays comes back as the same sequence with nothing left over. */
  lemma {:induction false} PipelineRoundTrip(arrays: seq<seq<Arg>>, lim: Limits)
    requires Sane(lim) && forall i :: 0 <= i < |arrays| ==> Fits(arrays[i], lim)
    ensures DecodeN(|arrays|, EncodeAll(arrays), lim) == Stream(arrays, [])
  {
    hide Decode, Encode, Sane, Fits;
    if arrays != [] {
      ArrayRoundTrip(arrays[0], EncodeAll(arrays[1..]), lim);
      PipelineRoundTrip(arrays[1..], lim);
      assert arrays == [arrays[0]] + arrays[1..];
    }
  }
}
