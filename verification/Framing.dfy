/**
 Line framing over a chunked byte stream: what repeated `read_line` calls see.

 The socket is a script of what each `recv` does.  A call that is still waiting when the script ends
 reports `Waiting`.
 */
module Framing {

  newtype Byte = x: int | 0 <= x < 256

  type Bytes = seq<Byte>

  const NEWLINE: Byte := 10

  datatype Recv =
    | Chunk(data: Bytes)
    | SliceTimeout
    | DeadlinePassed
    | EndOfStream
    | OsError
    | ClosedMeanwhile

  datatype Stream = Stream(buf: Bytes, script: seq<Recv>, closed: bool)

  /** How one call ends: `Line` and `Last` take bytes out of the buffer. */
  datatype Taken = Line(line: Bytes) | Last(tail: Bytes) | TimedOut | Broken | Closed | Waiting

  /** The part before the first newline, or everything. */
  function FirstLine(b: Bytes): (l: Bytes)
    ensures l <= b && NEWLINE !in l
    ensures NEWLINE in b ==> |l| < |b| && b[|l|] == NEWLINE
    ensures NEWLINE !in b ==> l == b
  {
    if b == [] || b[0] == NEWLINE then [] else [b[0]] + FirstLine(b[1..])
  }

  function Take(s: Stream): (Taken, Stream)
    decreases |s.script|
  {
    if s.closed then (Closed, s)
    else if NEWLINE in s.buf then (Line(FirstLine(s.buf)), s.(buf := s.buf[|FirstLine(s.buf)| + 1..]))
    else if s.script == [] then (Waiting, s)
    else
      var rest := s.script[1..];
      match s.script[0]
      case Chunk(data) =>
        if data == [] then (Last(s.buf), Stream([], rest, false)) else Take(Stream(s.buf + data, rest, false))
      case SliceTimeout => Take(s.(script := rest))
      case DeadlinePassed => (TimedOut, s.(script := rest))
      case EndOfStream => (Last(s.buf), Stream([], rest, false))
      case OsError => (Broken, s.(script := rest))
      case ClosedMeanwhile => (Closed, Stream(s.buf, rest, true))
  }

  // ---------------------------------------------------------------- the whole stream

  predicate Ends(r: Recv) {
    r.EndOfStream? || r == Chunk([])
  }

  /** What the script still delivers before the stream ends. */
  function Incoming(script: seq<Recv>): Bytes {
    if script == [] || Ends(script[0]) then []
    else (if script[0].Chunk? then script[0].data else []) + Incoming(script[1..])
  }

  function Whole(s: Stream): Bytes {
    s.buf + Incoming(s.script)
  }

  /** A byte string at its newlines; an unterminated tail counts, an empty one does not. */
  function Split(b: Bytes): seq<Bytes>
    decreases |b|
  {
    if NEWLINE in b then [FirstLine(b)] + Split(b[|FirstLine(b)| + 1..])
    else if b == [] then [] else [b]
  }

  /** One call: bytes leave only as the line they belong to, and no other outcome loses one. */
  lemma {:induction false} TakeAccounts(s: Stream)
    ensures var (taken, t) := Take(s);
            && (taken.Line? ==> NEWLINE !in taken.line && Whole(s) == taken.line + [NEWLINE] + Whole(t))
            && (taken.Last? ==> Whole(s) == taken.tail && NEWLINE !in taken.tail && t.buf == [])
            && (!taken.Line? && !taken.Last? ==> Whole(t) == Whole(s))
            && (taken.Waiting? ==> NEWLINE !in Whole(t))
    decreases |s.script|
  {
    if !s.closed {
      if NEWLINE in s.buf {
        LineTaken(s.buf, FirstLine(s.buf), Incoming(s.script));
      } else if s.script != [] {
        var rest := s.script[1..];
        if s.script[0].Chunk? && s.script[0].data != [] {
          TakeAccounts(Stream(s.buf + s.script[0].data, rest, false));
          ChunkTaken(s);
        } else if s.script[0].SliceTimeout? {
          TakeAccounts(s.(script := rest));
        }
      }
    }
  }

  lemma LineTaken(buf: Bytes, l: Bytes, later: Bytes)
    requires l <= buf && |l| < |buf| && buf[|l|] == NEWLINE
    ensures buf + later == l + [NEWLINE] + (buf[|l| + 1..] + later)
  {
  }

  lemma ChunkTaken(s: Stream)
    requires s.script != [] && s.script[0].Chunk? && s.script[0].data != []
    ensures Whole(Stream(s.buf + s.script[0].data, s.script[1..], false)) == Whole(s)
  {
    assert s.buf + s.script[0].data + Incoming(s.script[1..]) == s.buf + (s.script[0].data + Incoming(s.script[1..]));
  }

  lemma {:induction false} TakeShrinks(s: Stream)
    ensures var (taken, t) := Take(s);
            !taken.Waiting? && !taken.Closed? ==> |Whole(t)| + |t.script| < |Whole(s)| + |s.script| || taken.Last?
    decreases |s.script|
  {
    if !s.closed && NEWLINE !in s.buf && s.script != [] {
      var rest := s.script[1..];
      if s.script[0].Chunk? && s.script[0].data != [] {
        TakeShrinks(Stream(s.buf + s.script[0].data, rest, false));
        ChunkTaken(s);
      } else if s.script[0].SliceTimeout? {
        TakeShrinks(s.(script := rest));
      }
    }
  }

  /** The lines that repeated calls take, whatever interrupts them, and the bytes then left over. */
  function Lines(s: Stream): (seq<Bytes>, Bytes)
    decreases |Whole(s)| + |s.script|
  {
    TakeShrinks(s);
    var (taken, t) := Take(s);
    match taken
    case Line(line) => var (more, left) := Lines(t); ([line] + more, left)
    case Last(tail) => (if tail == [] then [] else [tail], [])
    case TimedOut => Lines(t)
    case Broken => Lines(t)
    case _ => ([], Whole(t))
  }

  lemma SplitFirst(line: Bytes, rest: Bytes)
    requires NEWLINE !in line
    ensures Split(line + [NEWLINE] + rest) == [line] + Split(rest)
  {
    var b := line + [NEWLINE] + rest;
    assert b[|line|] == NEWLINE;
    var l := FirstLine(b);
    assert forall i | 0 <= i < |line| :: b[i] == line[i] && line[i] in line;
    assert forall i | 0 <= i < |l| :: b[i] == l[i] && l[i] in l;
    assert l == b[..|l|] == line;
    assert b[|l| + 1..] == rest;
  }

  /** However the bytes are cut into chunks, and wherever calls time out: the lines taken are those of
      the whole stream, and what is left over is what has not been taken. */
  lemma {:induction false} LinesExact(s: Stream)
    ensures var (lines, left) := Lines(s); Split(Whole(s)) == lines + Split(left)
    decreases |Whole(s)| + |s.script|
  {
    TakeShrinks(s);
    TakeAccounts(s);
    var (taken, t) := Take(s);
    match taken
    case Line(line) =>
      SplitFirst(line, Whole(t));
      LinesExact(t);
    case Last(tail) =>
    case TimedOut => LinesExact(t);
    case Broken => LinesExact(t);
    case _ =>
  }

  /** The stream ends before anyone closes the socket. */
  predicate Complete(script: seq<Recv>) {
    script != [] && !script[0].ClosedMeanwhile? && (Ends(script[0]) || Complete(script[1..]))
  }

  lemma {:induction false} TakeCompletes(s: Stream)
    requires !s.closed && Complete(s.script)
    ensures var (taken, t) := Take(s);
            !taken.Closed? && !taken.Waiting? && (!taken.Last? ==> !t.closed && Complete(t.script))
    decreases |s.script|
  {
    if NEWLINE !in s.buf {
      var rest := s.script[1..];
      if s.script[0].Chunk? && s.script[0].data != [] {
        TakeCompletes(Stream(s.buf + s.script[0].data, rest, false));
      } else if s.script[0].SliceTimeout? {
        TakeCompletes(s.(script := rest));
      }
    }
  }

  lemma {:induction false} NothingLeft(s: Stream)
    requires !s.closed && Complete(s.script)
    ensures Lines(s).1 == []
    decreases |Whole(s)| + |s.script|
  {
    TakeShrinks(s);
    TakeCompletes(s);
    var (taken, t) := Take(s);
    if !taken.Last? { NothingLeft(t); }
  }

  lemma AllLines(s: Stream)
    requires !s.closed && Complete(s.script)
    ensures Lines(s) == (Split(Whole(s)), [])
  {
    NothingLeft(s);
    LinesExact(s);
    var (lines, left) := Lines(s);
    assert lines + Split(left) == lines;
  }

  /** Two deliveries of the same bytes are read as the same lines. */
  lemma ChunkingIsInvisible(s: Stream, t: Stream)
    requires !s.closed && Complete(s.script) && !t.closed && Complete(t.script) && Whole(s) == Whole(t)
    ensures Lines(s) == Lines(t)
  {
    AllLines(s);
    AllLines(t);
  }

  // ---------------------------------------------------------------- what ends a call

  /** Neither a slice that times out nor a chunk of bytes ends a call by itself. */
  predicate GoesOn(r: Recv) {
    r == SliceTimeout || (r.Chunk? && r.data != [])
  }

  /** What the first `n` events bring. */
  function Arrived(script: seq<Recv>, n: nat): Bytes
    requires n <= |script|
  {
    if n == 0 then [] else Arrived(script, n - 1) + if script[n - 1].Chunk? then script[n - 1].data else []
  }

  lemma {:induction false} ArrivedFirst(script: seq<Recv>, n: nat)
    requires 0 < n <= |script|
    ensures Arrived(script, n) == (if script[0].Chunk? then script[0].data else []) + Arrived(script[1..], n - 1)
  {
    if n > 1 { ArrivedFirst(script, n - 1); }
  }

  /** The call has gone through `n` events, not one more than it needed. */
  ghost predicate Needed(s: Stream, n: nat) {
    && n <= |s.script| && (forall i | 0 <= i < n :: GoesOn(s.script[i]))
    && (n > 0 ==> NEWLINE !in s.buf + Arrived(s.script, n - 1))
  }

  /** The call stops at this event and leaves the socket in this state, with these bytes kept. */
  ghost predicate StopsAt(s: Stream, n: nat, event: Recv, t: Stream, kept: Bytes, closed: bool) {
    && n < |s.script| && s.script[n] == event && NEWLINE !in s.buf + Arrived(s.script, n)
    && t == Stream(kept, s.script[n + 1..], closed)
  }

  ghost predicate EndsAs(s: Stream, n: nat, taken: Taken, t: Stream)
    requires n <= |s.script|
  {
    var bytes := s.buf + Arrived(s.script, n);
    match taken
    case Line(line) =>
      line + [NEWLINE] <= bytes && NEWLINE !in line && t == Stream(bytes[|line| + 1..], s.script[n..], false)
    case Last(tail) =>
      tail == bytes && (StopsAt(s, n, EndOfStream, t, [], false) || StopsAt(s, n, Chunk([]), t, [], false))
    case TimedOut => StopsAt(s, n, DeadlinePassed, t, bytes, false)
    case Broken => StopsAt(s, n, OsError, t, bytes, false)
    case Closed => StopsAt(s, n, ClosedMeanwhile, t, bytes, true)
    case Waiting => n == |s.script| && NEWLINE !in bytes && t == Stream(bytes, [], false)
  }

  lemma EndsNow(s: Stream)
    requires !s.closed && (NEWLINE in s.buf || s.script == [] || !GoesOn(s.script[0]))
    ensures Needed(s, 0) && EndsAs(s, 0, Take(s).0, Take(s).1)
  {
    assert s.buf + [] == s.buf && s.script[0..] == s.script;
    if NEWLINE in s.buf { assert FirstLine(s.buf) + [NEWLINE] == s.buf[..|FirstLine(s.buf)| + 1]; }
  }

  /** The stream as the call sees it after its first event. */
  function Entered(s: Stream): Stream
    requires s.script != []
  {
    Stream(s.buf + (if s.script[0].Chunk? then s.script[0].data else []), s.script[1..], false)
  }

  lemma EndsLater(s: Stream, n: nat, taken: Taken, t: Stream)
    requires s.script != [] && GoesOn(s.script[0]) && NEWLINE !in s.buf
    requires Needed(Entered(s), n) && EndsAs(Entered(s), n, taken, t)
    ensures Needed(s, n + 1) && EndsAs(s, n + 1, taken, t)
  {
    ArrivedFirst(s.script, n + 1);
    var first := if s.script[0].Chunk? then s.script[0].data else [];
    assert s.buf + (first + Arrived(s.script[1..], n)) == s.buf + first + Arrived(s.script[1..], n);
    if n > 0 {
      ArrivedFirst(s.script, n);
      assert s.buf + (first + Arrived(s.script[1..], n - 1)) == s.buf + first + Arrived(s.script[1..], n - 1);
    } else {
      assert s.buf + Arrived(s.script, 0) == s.buf;
    }
    assert s.script[1..][n..] == s.script[n + 1..];
    if n < |s.script[1..]| { assert s.script[1..][n + 1..] == s.script[n + 2..]; }
  }

  /** One call reads only as far as it has to, and its outcome is that of the event it stops at: a passed
      deadline, an error of the socket, the end of the stream, or a close from elsewhere. */
  lemma {:induction false} TakeEndsExactly(s: Stream) returns (n: nat)
    requires !s.closed
    ensures Needed(s, n) && EndsAs(s, n, Take(s).0, Take(s).1)
    decreases |s.script|
  {
    if NEWLINE in s.buf || s.script == [] || !GoesOn(s.script[0]) {
      n := 0;
      EndsNow(s);
    } else {
      if s.script[0].SliceTimeout? { assert s.buf + [] == s.buf; }
      assert Take(s) == Take(Entered(s));
      n := TakeEndsExactly(Entered(s));
      EndsLater(s, n, Take(s).0, Take(s).1);
      n := n + 1;
    }
  }

  /** Once closed, every call reports an error and reads nothing. */
  lemma ClosedForEver(s: Stream)
    requires s.closed
    ensures Take(s) == (Closed, s)
  {
  }

  // ---------------------------------------------------------------- what the caller is told

  /** `None` of the code is NoLine. */
  datatype Reading = Record(line: Bytes) | NoLine | Malformed | IdleTimeout | SocketError

  /** `isObject` says whether a line decodes to a JSON object. */
  function Report(taken: Taken, isObject: Bytes -> bool): Reading {
    match taken
    case Line(line) => Judge(line, isObject)
    case Last(tail) => Judge(tail, isObject)
    case TimedOut => IdleTimeout
    case _ => SocketError
  }

  function Judge(line: Bytes, isObject: Bytes -> bool): Reading {
    if line == [] then NoLine else if isObject(line) then Record(line) else Malformed
  }

  /** All that the caller is told who reads on until the stream has ended or the socket is closed. */
  function Readings(s: Stream, isObject: Bytes -> bool): seq<Reading>
    decreases |Whole(s)| + |s.script|
  {
    TakeShrinks(s);
    var (taken, t) := Take(s);
    [Report(taken, isObject)] +
    match taken
    case Line(_) => Readings(t, isObject)
    case TimedOut => Readings(t, isObject)
    case Broken => Readings(t, isObject)
    case _ => []
  }

  predicate Interrupts(r: Reading) {
    r == IdleTimeout || r == SocketError
  }

  /** Without the timeouts and errors in between. */
  function Heard(readings: seq<Reading>): seq<Reading> {
    if readings == [] then []
    else (if Interrupts(readings[0]) then [] else [readings[0]]) + Heard(readings[1..])
  }

  /** What the caller is told of one line: a record if it decodes to an object, nothing if it is empty, and
      else that it is malformed. */
  ghost predicate Tells(r: Reading, line: Bytes, isObject: Bytes -> bool) {
    && (r == Record(line) <==> line != [] && isObject(line))
    && (r == NoLine <==> line == [])
    && (r == Malformed <==> line != [] && !isObject(line))
  }

  /** Every line in order, and at most one `None` after them. */
  ghost predicate ToldAll(heard: seq<Reading>, lines: seq<Bytes>, isObject: Bytes -> bool) {
    && |lines| <= |heard| <= |lines| + 1
    && (forall i | 0 <= i < |lines| :: Tells(heard[i], lines[i], isObject))
    && (|heard| > |lines| ==> heard[|lines|] == NoLine)
  }

  lemma ToldOneMore(r: Reading, heard: seq<Reading>, line: Bytes, lines: seq<Bytes>, isObject: Bytes -> bool)
    requires ToldAll(heard, lines, isObject) && Tells(r, line, isObject)
    ensures ToldAll([r] + heard, [line] + lines, isObject)
  {
  }

  lemma HeardFirst(r: Reading, readings: seq<Reading>)
    ensures Heard([r] + readings) == if Interrupts(r) then Heard(readings) else [r] + Heard(readings)
  {
    assert ([r] + readings)[1..] == readings;
  }

  lemma LastTold(tail: Bytes, isObject: Bytes -> bool)
    requires NEWLINE !in tail
    ensures ToldAll(Heard([Judge(tail, isObject)]), Split(tail), isObject)
  {
    assert [Judge(tail, isObject)] + [] == [Judge(tail, isObject)];
    HeardFirst(Judge(tail, isObject), []);
  }

  /** A caller who reads on after timeouts and errors is told of every line of the stream once and in order:
      of a record exactly for the lines that decode to an object.  At most one `None` follows them. */
  lemma {:induction false} RecordsExactly(s: Stream, isObject: Bytes -> bool)
    requires !s.closed && Complete(s.script)
    ensures ToldAll(Heard(Readings(s, isObject)), Split(Whole(s)), isObject)
    decreases |Whole(s)| + |s.script|
  {
    TakeShrinks(s);
    TakeCompletes(s);
    TakeAccounts(s);
    var (taken, t) := Take(s);
    if taken.Last? {
      assert Readings(s, isObject) == [Judge(taken.tail, isObject)];
      LastTold(taken.tail, isObject);
    } else {
      RecordsExactly(t, isObject);
      HeardFirst(Report(taken, isObject), Readings(t, isObject));
      if taken.Line? {
        SplitFirst(taken.line, Whole(t));
        ToldOneMore(Judge(taken.line, isObject), Heard(Readings(t, isObject)), taken.line, Split(Whole(t)), isObject);
      }
    }
  }

  /** What a caller has taken who reads on after timeouts and errors, and stops at the first `None`. */
  function UntilNone(s: Stream): seq<Bytes>
    decreases |Whole(s)| + |s.script|
  {
    TakeShrinks(s);
    var (taken, t) := Take(s);
    match taken
    case Line(line) => if line == [] then [] else [line] + UntilNone(t)
    case Last(tail) => if tail == [] then [] else [tail]
    case TimedOut => UntilNone(t)
    case Broken => UntilNone(t)
    case _ => []
  }

  function BeforeBlank(lines: seq<Bytes>): seq<Bytes> {
    if lines == [] || lines[0] == [] then [] else [lines[0]] + BeforeBlank(lines[1..])
  }

  lemma {:induction false} UntilNoneExact(s: Stream)
    ensures UntilNone(s) == BeforeBlank(Lines(s).0)
    decreases |Whole(s)| + |s.script|
  {
    TakeShrinks(s);
    var (taken, t) := Take(s);
    match taken
    case Line(line) => UntilNoneExact(t);
    case TimedOut => UntilNoneExact(t);
    case Broken => UntilNoneExact(t);
    case _ =>
  }

  lemma {:induction false} BeforeBlankAll(lines: seq<Bytes>)
    ensures BeforeBlank(lines) == lines <==> [] !in lines
  {
    if lines != [] && lines[0] != [] {
      BeforeBlankAll(lines[1..]);
      assert lines == [lines[0]] + lines[1..];
    }
  }

  /** An empty line is reported as `None` like the end of the stream: a caller who stops there has seen
      the whole stream exactly when it holds no empty line. */
  lemma NoneMeansEndExactly(s: Stream)
    requires !s.closed && Complete(s.script)
    ensures UntilNone(s) == Split(Whole(s)) <==> [] !in Split(Whole(s))
  {
    AllLines(s);
    UntilNoneExact(s);
    BeforeBlankAll(Split(Whole(s)));
  }

  // ---------------------------------------------------------------- the reader

  class HerdrSocket {
    var buf: Bytes
    var closed: bool
    /** What the socket will do. */
    var script: seq<Recv>

    function View(): Stream
      reads this
    {
      Stream(buf, script, closed)
    }

    constructor (incoming: seq<Recv>)
      ensures View() == Stream([], incoming, false)
    {
      buf, closed, script := [], false, incoming;
    }

    method ReadLine(isObject: Bytes -> bool) returns (r: Reading)
      modifies this
      ensures View() == Take(old(View())).1
      ensures r == Report(Take(old(View())).0, isObject)
      ensures r == IdleTimeout <==> Take(old(View())).0.TimedOut?
    {
      if closed { return SocketError; }
      ghost var goal := Take(View());
      var line;
      while NEWLINE !in buf
        invariant !closed && Take(View()) == goal
        decreases |script|
      {
        if script == [] { return SocketError; }
        var event := script[0];
        script := script[1..];
        if event.SliceTimeout? { continue; }
        if event.DeadlinePassed? { return IdleTimeout; }
        if event.OsError? { return SocketError; }
        if event.ClosedMeanwhile? {
          closed := true;
          return SocketError;
        }
        if event.EndOfStream? || event.data == [] {
          line, buf := buf, [];
          return Judge(line, isObject);
        }
        buf := buf + event.data;
      }
      line, buf := FirstLine(buf), buf[|FirstLine(buf)| + 1..];
      return Judge(line, isObject);
    }
  }
}
