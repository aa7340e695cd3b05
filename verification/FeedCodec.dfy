/** The feed's byte formats: log values, REPLLOG frames and the path between them. */
module FeedCodec {
  import opened Basics
  import opened Decimal
  import R = RespCodec

  // ---------------------------------------------------------------- serialising

  function AsArgs(cmd: Command): seq<R.Arg> {
    seq(|cmd|, i requires 0 <= i < |cmd| => Some(cmd[i]))
  }

  /** serializeCommand, and the encoding of a log value: an array of bulk strings. */
  function Serialize(cmd: Command): Bytes { R.Encode(AsArgs(cmd)) }

  function Bulks(cmd: Command): Bytes { R.EncodeArgs(AsArgs(cmd)) }

  lemma BulksCons(cmd: Command)
    requires cmd != []
    ensures Bulks(cmd) == [R.DOLLAR] + Format(|cmd[0]|) + CRLF + cmd[0] + CRLF + Bulks(cmd[1..])
  {
    assert AsArgs(cmd)[1..] == AsArgs(cmd[1..]);
  }

  function SerializeAll(cmds: seq<Command>): Bytes {
    if cmds == [] then [] else Serialize(cmds[0]) + SerializeAll(cmds[1..])
  }

  // -------------------------------------------------------------------- parsing

  /** The number of leading digits. */
  function DigitRun(s: Bytes): (n: nat)
    ensures n <= |s| && AllDigits(s[..n]) && (n < |s| ==> !IsDigit(s[n]))
  {
    if s == [] || !IsDigit(s[0]) then 0
    else
      var n := DigitRun(s[1..]);
      assert s[..n + 1] == [s[0]] + s[1..][..n];
      n + 1
  }

  predicate StartsCRLF(s: Bytes) { |s| >= 2 && s[0] == CR && s[1] == LF }

  /** The position of the first CR LF pair, or the length if there is none. */
  function LineEnd(s: Bytes): (n: nat)
    ensures n <= |s|
  {
    if s == [] || StartsCRLF(s) then 0 else 1 + LineEnd(s[1..])
  }

  /** The suffix from `n`; past the end there is nothing. */
  function From(s: Bytes, n: nat): Bytes { if n <= |s| then s[n..] else [] }

  /**
    Arguments read from a command body. OutOfBounds is the slice past the end of the buffer
    that a value cut off after an argument length runs into.
   */
  datatype Scan = Scan(args: Command, rest: Bytes) | OutOfBounds

  /** The scan after `args` have been collected. */
  function Collected(args: Command, more: Scan): Scan {
    match more
    case OutOfBounds => OutOfBounds
    case Scan(tail, rest) => Scan(args + tail, rest)
  }

  function ScanArgs(n: nat, s: Bytes): (r: Scan)
    ensures r.Scan? ==> |r.rest| <= |s|
    decreases n
  {
    if n == 0 || s == [] || s[0] != R.DOLLAR then Scan([], s)
    else
      var k := R.IndexOf(s[1..], CR);
      if |s| < k + 3 then OutOfBounds
      else
        var body := s[k + 3..];
        var e := LineEnd(body);
        Collected([body[..e]], ScanArgs(n - 1, From(body, e + 2)))
  }

  datatype Events = Events(cmds: seq<Command>) | Crash

  /** One command header: the announced count and what follows its line, or None at a stop. */
  function Header(s: Bytes): (r: Option<(nat, Bytes)>)
    ensures r.Some? ==> |r.value.1| < |s|
  {
    if s == [] || s[0] != R.STAR then None
    else
      var d := DigitRun(s[1..]);
      var after := s[1 + d..];
      if !StartsCRLF(after) then None else Some((Value(s[1..][..d]), after[2..]))
  }

  /** The events after `cmds` have been collected. */
  function Gathered(cmds: seq<Command>, more: Events): Events {
    match more
    case Crash => Crash
    case Events(tail) => Events(cmds + tail)
  }

  /** parseCommandEvents on the bytes that are left. */
  function ParseEvents(s: Bytes): Events
    decreases |s|
  {
    match Header(s)
    case None => Events([])
    case Some((n, body)) =>
      match ScanArgs(n, body)
      case OutOfBounds => Crash
      case Scan(args, rest) => Gathered(if args == [] then [] else [args], ParseEvents(rest))
  }

  const FLUSHDB: Bytes := [70, 76, 85, 83, 72, 68, 66]
  const FLUSHALL: Bytes := [70, 76, 85, 83, 72, 65, 76, 76]

  /** A command a log value may hold: an argument, or one of the names that need none. */
  predicate Loggable(cmd: Command) {
    |cmd| >= 2 || (|cmd| == 1 && ToUpper(cmd[0]) in {FLUSHDB, FLUSHALL, NOOP})
  }

  function ParseLogValue(s: Bytes): Option<Command> {
    match ParseEvents(s)
    case Crash => None
    case Events(cmds) => if |cmds| == 1 && Loggable(cmds[0]) then Some(cmds[0]) else None
  }

  // --------------------------------------------------------------------- frames

  const REPLLOG: Bytes := [82, 69, 80, 76, 76, 79, 71]

  function FrameArgs(ts: nat, cmd: Command): Command { [REPLLOG, Format(ts)] + cmd }

  /** feedEntryParse; a nil argument reads as the empty string. */
  function ParseFrame(args: seq<R.Arg>): Option<(nat, Command)> {
    if |args| < 3 || Text(args[0]) != REPLLOG then None
    else match ParseUint(Text(args[1]))
      case None => None
      case Some(ts) => Some((ts, seq(|args| - 2, i requires 0 <= i < |args| - 2 => Text(args[i + 2]))))
  }

  function Text(a: R.Arg): Bytes { if a.Some? then a.value else [] }

  /** An array that is a frame: the tag, a decimal timestamp of 64 bits, and at least the command's name. */
  predicate IsFrame(args: seq<R.Arg>) {
    |args| >= 3 && Text(args[0]) == REPLLOG && Text(args[1]) != [] && AllDigits(Text(args[1])) && Value(Text(args[1])) <= MAX_UINT64
  }

  function FrameTS(args: seq<R.Arg>): nat
    requires IsFrame(args)
  {
    Value(Text(args[1]))
  }

  /** What follows the timestamp, element by element. */
  function FrameCommand(args: seq<R.Arg>): (cmd: Command)
    requires IsFrame(args)
    ensures |cmd| == |args| - 2 && forall i :: 0 <= i < |cmd| ==> cmd[i] == Text(args[i + 2])
  {
    seq(|args| - 2, i requires 0 <= i < |args| - 2 => Text(args[i + 2]))
  }

  /** Exactly the frames are parsed, to their timestamp and their command. */
  lemma FrameExact(args: seq<R.Arg>)
    ensures ParseFrame(args).Some? <==> IsFrame(args)
    ensures IsFrame(args) ==> ParseFrame(args) == Some((FrameTS(args), FrameCommand(args)))
  {
    if IsFrame(args) { assert ParseFrame(args).value.1 == FrameCommand(args); }
  }

  // ------------------------------------------------------- the imperative parser

  lemma CollectedAssoc(xs: Command, x: Bytes, more: Scan)
    ensures Collected(xs, Collected([x], more)) == Collected(xs + [x], more)
  {
    if more.Scan? { assert xs + ([x] + more.args) == (xs + [x]) + more.args; }
  }

  lemma GatheredAssoc(xs: seq<Command>, ys: seq<Command>, more: Events)
    ensures Gathered(xs, Gathered(ys, more)) == Gathered(xs + ys, more)
  {
    if more.Events? { assert xs + (ys + more.cmds) == (xs + ys) + more.cmds; }
  }

  /** Past the length line: to the first CR. */
  method SkipToCR(data: Bytes, start: nat) returns (i: nat)
    requires start <= |data|
    ensures i == start + R.IndexOf(data[start..], CR)
  {
    i := start;
    while i < |data| && data[i] != CR
      invariant start <= i <= |data|
      invariant R.IndexOf(data[start..], CR) == i - start + R.IndexOf(data[i..], CR)
    {
      assert data[i..][1..] == data[i + 1..];
      i := i + 1;
    }
  }

  /** Through an argument: to the first CR LF pair. */
  method SkipToLineEnd(data: Bytes, start: nat) returns (i: nat)
    requires start <= |data|
    ensures i == start + LineEnd(data[start..])
  {
    i := start;
    while i < |data| && (data[i] != CR || i + 1 >= |data| || data[i + 1] != LF)
      invariant start <= i <= |data|
      invariant LineEnd(data[start..]) == i - start + LineEnd(data[i..])
    {
      assert data[i..][1..] == data[i + 1..];
      i := i + 1;
    }
  }

  /** Through the digits of an array count, with their value. */
  method SkipDigits(data: Bytes, start: nat) returns (i: nat, n: nat)
    requires start <= |data|
    ensures i == start + DigitRun(data[start..]) && n == Value(data[start..][..i - start])
  {
    i, n := start, 0;
    while i < |data| && IsDigit(data[i])
      invariant start <= i <= |data|
      invariant AllDigits(data[start..i]) && n == Value(data[start..i])
      invariant DigitRun(data[start..]) == i - start + DigitRun(data[i..])
    {
      assert data[i..][1..] == data[i + 1..];
      assert data[start..i + 1] == data[start..i] + [data[i]];
      ValueAppend(data[start..i], data[i]);
      n := n * 10 + (data[i] as int - 48);
      i := i + 1;
    }
    assert data[start..][..i - start] == data[start..i];
  }

  /** One step of the scan, with its positions named. */
  lemma ScanStep(n: nat, s: Bytes, k: nat, body: Bytes, e: nat)
    requires n > 0 && s != [] && s[0] == R.DOLLAR && k == R.IndexOf(s[1..], CR)
    requires k + 3 <= |s| && body == s[k + 3..] && e == LineEnd(body)
    ensures ScanArgs(n, s) == Collected([body[..e]], ScanArgs(n - 1, From(body, e + 2)))
  {
    hide LineEnd;
    hide R.IndexOf;
    hide From;
    hide Collected;
  }

  /** One argument, from its '$' on: the scan in terms of positions in the buffer. */
  lemma ScanAt(data: Bytes, i: nat, n: nat, cr: nat, end: nat)
    requires i < |data| && data[i] == R.DOLLAR && n > 0
    requires cr == i + 1 + R.IndexOf(data[i + 1..], CR) && cr + 2 <= |data|
    requires end == cr + 2 + LineEnd(data[cr + 2..])
    ensures ScanArgs(n, data[i..]) == Collected([data[cr + 2..end]], ScanArgs(n - 1, From(data, end + 2)))
  {
    hide *;
    SliceOfSlice(data, i, 1);
    SliceOfSlice(data, i, cr + 2 - i);
    SliceOfSlice(data, cr + 2, end - cr - 2);
    FromSlice(data, cr + 2, end - cr);
    ScanStep(n, data[i..], cr - i - 1, data[cr + 2..], end - cr - 2);
  }

  lemma FromSlice(s: Bytes, i: nat, j: nat)
    requires i <= |s|
    ensures From(s[i..], j) == From(s, i + j)
  {
    if i + j <= |s| { SliceOfSlice(s, i, j); }
  }

  /** Where the scan stops: the count is used up, or no further argument starts here. */
  lemma ScanStops(args: Command, n: nat, s: Bytes)
    requires n == 0 || s == [] || s[0] != R.DOLLAR
    ensures Collected(args, ScanArgs(n, s)) == Scan(args, s)
  {
    assert args + [] == args;
  }

  lemma ScanRunsOut(args: Command, n: nat, data: Bytes, i: nat, cr: nat)
    requires i < |data| && data[i] == R.DOLLAR && n > 0
    requires cr == i + 1 + R.IndexOf(data[i + 1..], CR) && cr + 2 > |data|
    ensures Collected(args, ScanArgs(n, data[i..])) == OutOfBounds
  {
    SliceOfSlice(data, i, 1);
  }

  lemma CollectedNone(more: Scan)
    ensures Collected([], more) == more
  {
    if more.Scan? { assert [] + more.args == more.args; }
  }

  /** The inner loop of parseCommandEvents. */
  method ScanArgsLoop(data: Bytes, start: nat, n: nat) returns (args: Command, stop: nat, ok: bool)
    requires start <= |data|
    ensures ok <==> ScanArgs(n, data[start..]).Scan?
    ensures ok ==> ScanArgs(n, data[start..]) == Scan(args, From(data, stop)) && start <= stop
  {
    hide ScanArgs;
    hide Collected;
    hide LineEnd;
    hide R.IndexOf;
    hide From;
    args := [];
    var i, a := start, 0;
    ghost var whole := ScanArgs(n, data[start..]);
    CollectedNone(whole);
    FromIs(data, start);
    while a < n && i < |data| && data[i] == R.DOLLAR
      invariant 0 <= a <= n && start <= i
      invariant whole == Collected(args, ScanArgs(n - a, From(data, i)))
      decreases n - a
    {
      FromIs(data, i);
      var cr := SkipToCR(data, i + 1);
      if cr + 2 > |data| {
        ScanRunsOut(args, n - a, data, i, cr);
        return args, i, false;
      }
      var end := SkipToLineEnd(data, cr + 2);
      ScanAt(data, i, n - a, cr, end);
      CollectedAssoc(args, data[cr + 2..end], ScanArgs(n - a - 1, From(data, end + 2)));
      args := args + [data[cr + 2..end]];
      i, a := end + 2, a + 1;
    }
    FromIs(data, i);
    ScanStops(args, n - a, From(data, i));
    stop, ok := i, true;
  }

  lemma HeaderAt(data: Bytes, i: nat)
    requires i < |data| && data[i] == R.STAR
    ensures var j := i + 1 + DigitRun(data[i + 1..]);
            Header(data[i..]) ==
            if StartsCRLF(data[j..]) then Some((Value(data[i + 1..][..j - i - 1]), data[j + 2..])) else None
  {
    var s := data[i..];
    assert s[1..] == data[i + 1..];
    var d := DigitRun(s[1..]);
    assert s[1 + d..] == data[i + 1 + d..];
    if StartsCRLF(data[i + 1 + d..]) { assert data[i + 1 + d..][2..] == data[i + 1 + d + 2..]; }
  }

  lemma ParseStops(out: seq<Command>, s: Bytes)
    requires Header(s).None?
    ensures Gathered(out, ParseEvents(s)) == Events(out)
  {
    assert out + [] == out;
  }

  /** One turn of the outer loop. */
  lemma ParseTurn(out: seq<Command>, s: Bytes)
    requires Header(s).Some?
    ensures var (n, body) := Header(s).value;
            Gathered(out, ParseEvents(s)) ==
            match ScanArgs(n, body) {
              case OutOfBounds => Crash
              case Scan(args, rest) => Gathered(if args == [] then out else out + [args], ParseEvents(rest)) }
  {
    var (n, body) := Header(s).value;
    var scan := ScanArgs(n, body);
    if scan.Scan? {
      GatheredAssoc(out, if scan.args == [] then [] else [scan.args], ParseEvents(scan.rest));
      assert out + [] == out;
    }
  }

  lemma GatheredNone(more: Events)
    ensures Gathered([], more) == more
  {
    if more.Events? { assert [] + more.cmds == more.cmds; }
  }

  /** parseCommandEvents: split a buffer of serialized commands. */
  method ParseCommandEvents(data: Bytes) returns (out: seq<Command>, ok: bool)
    ensures ok <==> ParseEvents(data).Events?
    ensures ok ==> ParseEvents(data) == Events(out)
  {
    hide ParseEvents;
    hide ScanArgs;
    hide Gathered;
    hide Header;
    hide DigitRun;
    hide Value;
    out := [];
    var i := 0;
    ghost var whole := ParseEvents(data);
    assert From(data, 0) == data;
    GatheredNone(whole);
    while i < |data| && data[i] == R.STAR
      invariant 0 <= i && whole == Gathered(out, ParseEvents(From(data, i)))
      decreases |data| - i
    {
      HeaderAt(data, i);
      var j, nArgs := SkipDigits(data, i + 1);
      if j >= |data| || data[j] != CR || j + 1 >= |data| || data[j + 1] != LF {
        ParseStops(out, data[i..]);
        return out, true;
      }
      ParseTurn(out, data[i..]);
      var args, stop, fine := ScanArgsLoop(data, j + 2, nArgs);
      if !fine { return out, false; }
      if |args| >= 1 { out := out + [args]; }
      i := stop;
    }
    NoHeader(From(data, i));
    ParseStops(out, From(data, i));
    ok := true;
  }

  lemma NoHeader(s: Bytes)
    requires s == [] || s[0] != R.STAR
    ensures Header(s).None?
  {}

  // ---------------------------------------------------------------- round trips

  /** The argument holds no CR LF pair. */
  predicate Unbroken(arg: Bytes) { forall i :: 0 <= i < |arg| - 1 ==> !(arg[i] == CR && arg[i + 1] == LF) }

  predicate AllUnbroken(cmd: Command) { forall i :: 0 <= i < |cmd| ==> Unbroken(cmd[i]) }

  /** The scan for an argument's end stops at the first CR LF pair inside it, or at its own. */
  lemma {:induction false} LineEndOf(arg: Bytes, post: Bytes)
    ensures LineEnd(arg + CRLF + post) <= |arg|
    ensures LineEnd(arg + CRLF + post) == |arg| <==> Unbroken(arg)
  {
    var s := arg + CRLF + post;
    if arg != [] && !StartsCRLF(s) {
      assert s[1..] == arg[1..] + CRLF + post;
      LineEndOf(arg[1..], post);
      assert s[0] == arg[0] && (|arg| > 1 ==> s[1] == arg[1]);
      assert Unbroken(arg) <==> Unbroken(arg[1..]);
    } else if arg != [] {
      assert s[0] == arg[0] && s[1] == (if |arg| > 1 then arg[1] else CR);
    }
  }

  lemma {:induction false} DigitRunOf(n: nat, post: Bytes)
    requires post != [] && !IsDigit(post[0])
    ensures DigitRun(Format(n) + post) == |Format(n)|
  {
    FormatValue(n);
    DigitRunAfter(Format(n), post);
  }

  lemma {:induction false} DigitRunAfter(digits: Bytes, post: Bytes)
    requires AllDigits(digits) && post != [] && !IsDigit(post[0])
    ensures DigitRun(digits + post) == |digits|
  {
    if digits == [] {
      assert digits + post == post;
    } else {
      assert (digits + post)[0] == digits[0] && (digits + post)[1..] == digits[1..] + post;
      DigitRunAfter(digits[1..], post);
    }
  }

  function Bulk(arg: Bytes, post: Bytes): Bytes {
    [R.DOLLAR] + Format(|arg|) + CRLF + (arg + CRLF + post)
  }

  lemma BulkParts(f: Bytes, body: Bytes)
    ensures var s := [R.DOLLAR] + f + CRLF + body;
            |f| + 3 <= |s| && s[0] == R.DOLLAR && s[1..] == f + [CR] + ([LF] + body) && s[|f| + 3..] == body
  {}

  lemma BulkShape(arg: Bytes, post: Bytes)
    ensures var s, f := Bulk(arg, post), Format(|arg|);
            s[0] == R.DOLLAR && R.IndexOf(s[1..], CR) == |f| && |f| + 3 <= |s| && s[|f| + 3..] == arg + CRLF + post
  {
    BulkParts(Format(|arg|), arg + CRLF + post);
    FormatValue(|arg|);
    assert CR !in Format(|arg|) by { assert !IsDigit(CR); }
    R.IndexOfAfter(Format(|arg|), CR, [LF] + (arg + CRLF + post));
  }

  lemma CutInside(arg: Bytes, post: Bytes, e: nat)
    requires e <= |arg|
    ensures (arg + post)[..e] == arg[..e]
  {}

  lemma FromIs(s: Bytes, n: nat)
    ensures From(s, n) == if n <= |s| then s[n..] else []
  {}

  /** Where the scan of one serialized argument gets to. */
  lemma ScanOne(n: nat, arg: Bytes, post: Bytes)
    requires n > 0
    ensures var e := LineEnd(arg + CRLF + post);
            e <= |arg| &&
            ScanArgs(n, Bulk(arg, post)) == Collected([arg[..e]], ScanArgs(n - 1, (arg + CRLF + post)[e + 2..]))
  {
    hide ScanArgs;
    hide LineEnd;
    hide Bulk;
    hide Format;
    hide From;
    hide R.IndexOf;
    BulkShape(arg, post);
    LineEndOf(arg, post);
    var body := arg + CRLF + post;
    var e := LineEnd(body);
    CutInside(arg, CRLF + post, e);
    Assoc(arg, CRLF, post);
    FromIs(body, e + 2);
    ScanStep(n, Bulk(arg, post), |Format(|arg|)|, body, e);
  }

  lemma BulkRegroup(f: Bytes, a: Bytes, tail: Bytes, post: Bytes)
    ensures [R.DOLLAR] + f + CRLF + a + CRLF + tail + post == [R.DOLLAR] + f + CRLF + (a + CRLF + (tail + post))
  {}

  lemma BulksSplit(cmd: Command, post: Bytes)
    requires cmd != []
    ensures Bulks(cmd) + post == Bulk(cmd[0], Bulks(cmd[1..]) + post)
  {
    hide Bulks;
    hide Format;
    BulksCons(cmd);
    BulkRegroup(Format(|cmd[0]|), cmd[0], Bulks(cmd[1..]), post);
  }

  /** Arguments without CR LF are collected whole, and the scan goes on behind them. */
  lemma {:induction false} ScanPrefix(init: Command, m: nat, post: Bytes)
    requires AllUnbroken(init)
    ensures ScanArgs(|init| + m, Bulks(init) + post) == Collected(init, ScanArgs(m, post))
    decreases |init|
  {
    hide ScanArgs, Bulks, Bulk, LineEnd;
    if init == [] {
      NoBulks(post);
      CollectedNone(ScanArgs(m, post));
    } else {
      var tail := Bulks(init[1..]) + post;
      BulksSplit(init, post);
      ScanOne(|init| + m, init[0], tail);
      LineEndOf(init[0], tail);
      DropHead(init[0] + CRLF, tail);
      ScanPrefix(init[1..], m, post);
      assert |init[0] + CRLF| == |init[0]| + 2 && init[0][..|init[0]|] == init[0];
      CollectedTwice(init, ScanArgs(m, post));
    }
  }

  lemma CollectedTwice(init: Command, more: Scan)
    requires init != []
    ensures Collected([init[0]], Collected(init[1..], more)) == Collected(init, more)
  {
    if more.Scan? { assert [init[0]] + (init[1..] + more.args) == init + more.args; }
  }

  lemma NoBulks(post: Bytes)
    ensures Bulks([]) + post == post
  {}

  lemma ScanUnbroken(cmd: Command, post: Bytes)
    requires AllUnbroken(cmd)
    ensures ScanArgs(|cmd|, Bulks(cmd) + post) == Scan(cmd, post)
  {
    hide ScanArgs, Bulks;
    ScanPrefix(cmd, 0, post);
    ScanStops(cmd, 0, post);
  }

  /** The first argument with a CR LF pair in it comes back shortened. */
  lemma {:induction false} ScanBroken(cmd: Command, post: Bytes, j: nat)
    requires j < |cmd| && !Unbroken(cmd[j]) && forall i :: 0 <= i < j ==> Unbroken(cmd[i])
    ensures var r := ScanArgs(|cmd|, Bulks(cmd) + post);
            r.Scan? ==> |r.args| > j && r.args[j] != cmd[j]
    decreases j
  {
    hide ScanArgs;
    hide Bulks;
    hide Bulk;
    hide LineEnd;
    var tail := Bulks(cmd[1..]) + post;
    BulksSplit(cmd, post);
    ScanOne(|cmd|, cmd[0], tail);
    LineEndOf(cmd[0], tail);
    if j > 0 {
      DropHead(cmd[0] + CRLF, tail);
      ScanBroken(cmd[1..], post, j - 1);
    }
  }

  lemma SerializeShape(cmd: Command, post: Bytes)
    ensures var s := Serialize(cmd) + post;
            s != [] && s[0] == R.STAR && s[1..] == Format(|cmd|) + (CRLF + (Bulks(cmd) + post))
  {
    HeaderParts(R.STAR, Format(|cmd|), Bulks(cmd), post);
  }

  lemma HeaderOf(cmd: Command, post: Bytes)
    ensures Header(Serialize(cmd) + post) == Some((|cmd|, Bulks(cmd) + post))
  {
    var f, s, body := Format(|cmd|), Serialize(cmd) + post, Bulks(cmd) + post;
    SerializeShape(cmd, post);
    FormatValue(|cmd|);
    DigitRunOf(|cmd|, CRLF + body);
    DropHead(f, CRLF + body);
    SliceOfSlice(s, 1, |f|);
    DropHead(CRLF, body);
  }

  /** Any concatenation of serialized commands splits back into the same sequence. */
  lemma {:induction false} EventsRoundTrip(cmds: seq<Command>)
    requires forall i :: 0 <= i < |cmds| ==> cmds[i] != [] && AllUnbroken(cmds[i])
    ensures ParseEvents(SerializeAll(cmds)) == Events(cmds)
  {
    if cmds != [] {
      hide ScanArgs;
      hide Serialize;
      hide Bulks;
      hide Header;
      var rest := SerializeAll(cmds[1..]);
      HeaderOf(cmds[0], rest);
      ScanUnbroken(cmds[0], rest);
      EventsRoundTrip(cmds[1..]);
      ParseTurn([], SerializeAll(cmds));
      GatheredNone(ParseEvents(SerializeAll(cmds)));
      assert [] + [cmds[0]] + cmds[1..] == cmds;
    }
  }

  /** One command survives exactly when none of its arguments holds a CR LF pair. */
  lemma CommandRoundTripExact(cmd: Command)
    requires cmd != []
    ensures ParseEvents(Serialize(cmd)) == Events([cmd]) <==> AllUnbroken(cmd)
  {
    hide ScanArgs;
    hide Bulks;
    hide Serialize;
    hide Header;
    assert Serialize(cmd) + [] == Serialize(cmd);
    HeaderOf(cmd, []);
    ParseTurn([], Serialize(cmd));
    GatheredNone(ParseEvents(Serialize(cmd)));
    if AllUnbroken(cmd) {
      ScanUnbroken(cmd, []);
      NoHeader([]);
      ParseStops([cmd], []);
    } else {
      var j := FirstBroken(cmd, 0);
      ScanBroken(cmd, [], j);
      BrokenFirst(ScanArgs(|cmd|, Bulks(cmd) + []), cmd, j);
    }
  }

  /** A scan that got one argument wrong cannot yield the command. */
  lemma BrokenFirst(scan: Scan, cmd: Command, j: nat)
    requires j < |cmd| && (scan.Scan? ==> |scan.args| > j && scan.args[j] != cmd[j])
    ensures scan.Scan? ==> Gathered([] + [scan.args], ParseEvents(scan.rest)) != Events([cmd])
  {
    if scan.Scan? {
      var more := ParseEvents(scan.rest);
      if more.Events? { assert ([] + [scan.args] + more.cmds)[0] == scan.args; }
    }
  }

  function FirstBroken(cmd: Command, from: nat): (j: nat)
    requires from <= |cmd| && !AllUnbroken(cmd) && forall i :: 0 <= i < from ==> Unbroken(cmd[i])
    ensures j < |cmd| && !Unbroken(cmd[j]) && forall i :: 0 <= i < j ==> Unbroken(cmd[i])
    decreases |cmd| - from
  {
    if from < |cmd| && Unbroken(cmd[from]) then FirstBroken(cmd, from + 1) else from
  }

  /** The log parser gives a command back exactly when it is loggable and no argument holds a CR LF pair. */
  lemma LogValueExact(cmd: Command)
    ensures ParseLogValue(Serialize(cmd)) == Some(cmd) <==> Survives(cmd)
  {
    hide ParseEvents, Serialize;
    if cmd != [] { CommandRoundTripExact(cmd); }
  }

  predicate Survives(cmd: Command) { Loggable(cmd) && AllUnbroken(cmd) }

  /** What the parser makes of the first command in a value, if it gets through. */
  lemma FirstEvent(cmd: Command)
    requires cmd != []
    ensures var scan := ScanArgs(|cmd|, Bulks(cmd));
            ParseEvents(Serialize(cmd)) ==
            if scan.OutOfBounds? then Crash
            else Gathered(if scan.args == [] then [] else [scan.args], ParseEvents(scan.rest))
  {
    hide ScanArgs, Bulks, Serialize, Header;
    assert Serialize(cmd) + [] == Serialize(cmd) && Bulks(cmd) + [] == Bulks(cmd);
    HeaderOf(cmd, []);
  }

  /** The end of a buffer that ends in CR LF. */
  predicate EndsLine(s: Bytes) {
    |s| == 0 || (s[|s| - 1] == LF && (|s| > 1 ==> s[|s| - 2] == CR))
  }

  lemma FromEndsLine(s: Bytes, n: nat)
    requires EndsLine(s)
    ensures EndsLine(From(s, n))
  {}

  lemma {:induction false} FoundBy(s: Bytes, b: byte, i: nat)
    requires i < |s| && s[i] == b
    ensures R.IndexOf(s, b) <= i
    decreases i
  {
    if i > 0 { FoundBy(s[1..], b, i - 1); }
  }

  lemma {:induction false} ScanStaysInside(n: nat, s: Bytes)
    requires EndsLine(s)
    ensures ScanArgs(n, s).Scan? && EndsLine(ScanArgs(n, s).rest)
    decreases n
  {
    hide LineEnd, From;
    if n > 0 && s != [] && s[0] == R.DOLLAR {
      var k := R.IndexOf(s[1..], CR);
      FoundBy(s[1..], CR, |s| - 3);
      var body := s[k + 3..];
      FromEndsLine(body, LineEnd(body) + 2);
      ScanStaysInside(n - 1, From(body, LineEnd(body) + 2));
    }
  }

  lemma {:induction false} ParseStaysInside(s: Bytes)
    requires EndsLine(s)
    ensures ParseEvents(s).Events?
    decreases |s|
  {
    hide ScanArgs, DigitRun;
    if Header(s).Some? {
      var (n, body) := Header(s).value;
      ScanStaysInside(n, body);
      ParseStaysInside(ScanArgs(n, body).rest);
    }
  }

  lemma LineAdded(a: Bytes, b: Bytes)
    requires EndsLine(b) && |b| != 1
    ensures EndsLine(a + CRLF + b) && |a + CRLF + b| > 1
  {}

  lemma {:induction false} BulksEndLine(cmd: Command)
    ensures EndsLine(Bulks(cmd)) && |Bulks(cmd)| != 1
  {
    hide Bulks, EndsLine;
    if cmd == [] {
      NoBulks([]);
      NoneEndsLine();
    } else {
      BulksCons(cmd);
      BulksEndLine(cmd[1..]);
      LineAdded([R.DOLLAR] + Format(|cmd[0]|) + CRLF + cmd[0], Bulks(cmd[1..]));
    }
  }

  lemma NoneEndsLine()
    ensures EndsLine([])
  {}

  /** No slice runs past the end of what the log holds: every command, whatever its bytes, is parsed to the end. */
  lemma LogValueStaysInside(cmd: Command)
    ensures ParseEvents(Serialize(cmd)).Events?
  {
    hide ParseEvents, EndsLine, R.EncodeArgs;
    BulksEndLine(cmd);
    LineAdded([R.STAR] + Format(|AsArgs(cmd)|), Bulks(cmd));
    ParseStaysInside(Serialize(cmd));
  }

  /** A tombstone is read as a tombstone, whatever comes with it. */
  lemma NoopStays(cmd: Command)
    requires IsNoop(cmd) && ParseLogValue(Serialize(cmd)).Some?
    ensures IsNoop(ParseLogValue(Serialize(cmd)).value)
  {
    hide ScanArgs, Bulks, Bulk, Serialize, LineEnd;
    var tail := Bulks(cmd[1..]);
    assert Bulks(cmd) + [] == Bulks(cmd) && tail + [] == tail;
    BulksSplit(cmd, []);
    ScanOne(|cmd|, cmd[0], tail);
    LineEndOf(cmd[0], tail);
    NoopUnbroken(cmd[0]);
    assert cmd[0][..|cmd[0]|] == cmd[0];
    FirstEvent(cmd);
    var scan := ScanArgs(|cmd|, Bulks(cmd));
    if scan.Scan? {
      assert scan.args[0] == cmd[0];
      var more := ParseEvents(scan.rest);
      if more.Events? { assert ([scan.args] + more.cmds)[0] == scan.args; }
    }
  }

  lemma NoopUnbroken(name: Bytes)
    requires ToUpper(name) == NOOP
    ensures Unbroken(name)
  {
    assert |name| == |ToUpper(name)|;
    forall i | 0 <= i < |name| ensures name[i] != CR { assert ToUpper(name)[i] == NOOP[i]; }
  }

  /**
    A command whose last argument is the first to hold CR LF: the log parser drops the pair and
    what follows it, without an error.
   */
  lemma CrlfArgumentIsCut(init: Command, x: Bytes, y: Bytes)
    requires init != [] && AllUnbroken(init) && Unbroken(x) && (y == [] || y[0] != R.STAR)
    ensures ParseLogValue(Serialize(init + [x + CRLF + y])) == Some(init + [x])
  {
    hide ScanArgs, Bulks, Bulk, Serialize, LineEnd, Header;
    var cmd := init + [x + CRLF + y];
    FirstEvent(cmd);
    BulksEnd(init, x + CRLF + y);
    ScanPrefix(init, 1, Bulks([x + CRLF + y]));
    ScanCut(x, y);
    NoHeader(y + CRLF);
    assert ([] + [init + [x]] + []) == [init + [x]];
  }

  lemma {:induction false} BulksEnd(init: Command, last: Bytes)
    ensures Bulks(init + [last]) == Bulks(init) + Bulks([last])
  {
    hide Bulks;
    if init == [] {
      NoBulks(Bulks([last]));
      assert init + [last] == [last];
    } else {
      var cmd := init + [last];
      assert cmd[0] == init[0] && cmd[1..] == init[1..] + [last];
      BulksEnd(init[1..], last);
      assert Bulks(cmd) + [] == Bulks(cmd) && Bulks(cmd[1..]) + [] == Bulks(cmd[1..]);
      BulksSplit(cmd, []);
      BulksSplit(init, Bulks([last]));
    }
  }

  lemma ScanCut(x: Bytes, y: Bytes)
    requires Unbroken(x)
    ensures ScanArgs(1, Bulks([x + CRLF + y])) == Scan([x], y + CRLF)
  {
    hide ScanArgs, Bulks, Bulk, LineEnd;
    var arg := x + CRLF + y;
    assert Bulks([arg]) + [] == Bulks([arg]) && Bulks([]) + [] == [] by { NoBulks([]); }
    assert [arg][1..] == [];
    BulksSplit([arg], []);
    ScanOne(1, arg, []);
    assert arg + CRLF + [] == x + CRLF + (y + CRLF);
    LineEndOf(x, y + CRLF);
    DropHead(x + CRLF, y + CRLF);
    assert |x + CRLF| == |x| + 2 && arg[..|x|] == x;
    ScanStops([x], 0, y + CRLF);
    assert ScanArgs(1, Bulk(arg, [])) == Collected([x], ScanArgs(0, y + CRLF));
  }

  lemma FrameDecodes(frame: Command, post: Bytes, lim: R.Limits)
    requires R.Sane(lim) && R.Fits(AsArgs(frame), lim)
    ensures R.Decode(Serialize(frame) + post, lim) == R.Read(AsArgs(frame), post)
  {
    hide *;
    hide R.Decode;
    R.ArrayRoundTrip(AsArgs(frame), post, lim);
    SerializeIs(frame);
  }

  lemma SerializeIs(cmd: Command)
    ensures Serialize(cmd) == R.Encode(AsArgs(cmd))
  {}

  lemma FrameParses(ts: nat, cmd: Command)
    requires cmd != [] && ts <= MAX_UINT64
    ensures ParseFrame(AsArgs(FrameArgs(ts, cmd))) == Some((ts, cmd))
  {
    var args := AsArgs(FrameArgs(ts, cmd));
    ParseFormat(ts);
    assert ParseFrame(args).value.1 == cmd;
  }

  /** What one replicated command goes through between two stores. */
  function Deliver(ts: nat, logValue: Bytes, post: Bytes, lim: R.Limits): Option<(nat, Command, Bytes)> {
    match ParseLogValue(logValue)
    case None => None
    case Some(cmd) =>
      match R.Decode(Serialize(FrameArgs(ts, cmd)) + post, lim)
      case Read(args, rest) =>
        (match ParseFrame(args)
         case Some((ts', cmd')) => Some((ts', cmd', rest))
         case None => None)
      case _ => None
  }

  /**
    A logged command without CR LF in its arguments reaches the replica unchanged with its
    timestamp, and reading its frame consumes exactly the frame's bytes.
   */
  lemma CommandSurvives(ts: nat, cmd: Command, post: Bytes, lim: R.Limits)
    requires Loggable(cmd) && AllUnbroken(cmd) && ts <= MAX_UINT64
    requires R.Sane(lim) && R.Fits(AsArgs(FrameArgs(ts, cmd)), lim)
    ensures Deliver(ts, Serialize(cmd), post, lim) == Some((ts, cmd, post))
  {
    hide ParseEvents;
    hide Serialize;
    hide R.Decode;
    CommandRoundTripExact(cmd);
    var args := AsArgs(FrameArgs(ts, cmd));
    FrameDecodes(FrameArgs(ts, cmd), post, lim);
    FrameParses(ts, cmd);
  }

  /**
    The length the slave recomputes from the arguments it read is the number of bytes it
    took from the connection, for every frame serializeCommand wrote.
   */
  lemma OffsetMovesByFrameSize(cmd: Command, post: Bytes, lim: R.Limits)
    requires R.Sane(lim) && R.Fits(AsArgs(cmd), lim)
    ensures var s := Serialize(cmd) + post;
            var r := R.Decode(s, lim);
            r.Read? && |Serialize(Texts(r.args))| == |s| - |r.rest|
  {
    R.ArrayRoundTrip(AsArgs(cmd), post, lim);
    assert Texts(AsArgs(cmd)) == cmd;
  }

  function Texts(args: seq<R.Arg>): Command {
    seq(|args|, i requires 0 <= i < |args| => Text(args[i]))
  }
}
