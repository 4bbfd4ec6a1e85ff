/** provisioning/blackbox.py: the request/response framing of the electrical tester. */
module Blackbox {
  import opened Bytes
  import opened Lines

  const CR: Byte := 13

  datatype Response = Message(text: string) | List(lines: seq<string>)

  /** `CallResult`, or the exception raised for a line that is not ASCII; the exception text
      quotes the line and the bytes that were buffered at that moment. */
  datatype Outcome =
    | CallResult(success: bool, response: Response)
    | DecodeError(line: seq<Byte>, buffered: seq<Byte>)

  datatype Ending = Timeout | Closed

  // ---- One line ----

  /** `bytes.decode('ascii')` is possible. */
  predicate IsAscii(bs: seq<Byte>) {
    forall i :: 0 <= i < |bs| ==> bs[i] < 128
  }

  function Decode(bs: seq<Byte>): string
    requires IsAscii(bs)
  {
    seq(|bs|, i requires 0 <= i < |bs| => bs[i] as char)
  }

  /** The ASCII characters that `str.strip()` removes. */
  predicate IsSpace(c: char) {
    9 as char <= c <= 13 as char || 28 as char <= c <= 32 as char
  }

  function Trim(s: string): string {
    if s == [] then s
    else if IsSpace(s[0]) then Trim(s[1..])
    else if IsSpace(s[|s| - 1]) then Trim(s[..|s| - 1])
    else s
  }

  const ERROR_PREFIX := "BB; ERROR "
  const STATUS_PREFIX := "BB; STATUS; "
  const SINGLETEST_PREFIX := "BB; START_SINGLETEST "

  /** What one complete line does: it is undecodable, blank, an answer that ends the call
      with a text, the end marker of the call's answer, or one more line of the answer. */
  datatype Reading = Undecodable | Blank | Final(success: bool, text: string) | EndMarker | Data(text: string)

  function Read(request: string, line: seq<Byte>): Reading {
    if !IsAscii(line) then Undecodable
    else
      var response := Trim(Decode(line));
      if |response| == 0 then Blank
      else if ERROR_PREFIX <= response then Final(false, response[|ERROR_PREFIX|..])
      else if response == "BB; DONE" then EndMarker
      else if request == "BB; STATUS" && STATUS_PREFIX <= response then Final(true, response[|STATUS_PREFIX|..])
      else if request == "MWH" && response == "SER" then EndMarker
      else if SINGLETEST_PREFIX <= request && response == "BB; ST; END" then EndMarker
      else Data(response)
  }

  // ---- The whole stream ----

  /** The stream up to its first line end, and what follows it. */
  function FirstLine(s: seq<Byte>): seq<Byte>
    requires CR in s
  {
    if s[0] == CR then [] else [s[0]] + FirstLine(s[1..])
  }

  lemma {:induction false} FirstLineIs(s: seq<Byte>)
    requires CR in s
    ensures CR !in FirstLine(s) && |FirstLine(s)| < |s| && s[|FirstLine(s)|] == CR
    ensures s[..|FirstLine(s)|] == FirstLine(s)
  {
    if s[0] != CR {
      var rest := s[1..];
      FirstLineIs(rest);
      var n := |FirstLine(rest)|;
      assert s[..n + 1] == [s[0]] + rest[..n];
      assert s[n + 1] == rest[n];
    }
  }

  function AfterLine(s: seq<Byte>): (rest: seq<Byte>)
    requires CR in s
    ensures |rest| < |s|
  {
    FirstLineIs(s);
    s[|FirstLine(s)| + 1..]
  }

  /** The call seen without buffering: the lines of the whole stream are read in order; the
      way the stream ends matters only if no line ended the call. */
  datatype Verdict = Result(success: bool, response: Response) | NotAscii(line: seq<Byte>)

  function Parse(request: string, stream: seq<Byte>, ending: Ending, answer: seq<string>): Verdict
    decreases |stream|
  {
    if CR !in stream then
      Result(false, Message(if ending.Timeout? then "socket timeout" else "connection closed by peer"))
    else
      var line := FirstLine(stream);
      match Read(request, line)
      case Undecodable => NotAscii(line)
      case Blank => Parse(request, AfterLine(stream), ending, answer)
      case Final(success, text) => Result(success, Message(text))
      case EndMarker => Result(true, List(answer))
      case Data(text) => Parse(request, AfterLine(stream), ending, answer + [text])
  }

  /** What the caller can tell apart, without the buffer quoted in an exception text. */
  function Observe(o: Outcome): Verdict {
    match o
    case CallResult(success, response) => Result(success, response)
    case DecodeError(line, _) => NotAscii(line)
  }

  // ---- The socket ----

  /** Bytes received before the stream ends; an empty read is the peer closing. */
  function Received(chunks: seq<seq<Byte>>): seq<Byte> {
    if chunks == [] || chunks[0] == [] then [] else chunks[0] + Received(chunks[1..])
  }

  function EndOf(chunks: seq<seq<Byte>>, ending: Ending): Ending {
    if chunks == [] then ending
    else if chunks[0] == [] then Closed
    else EndOf(chunks[1..], ending)
  }

  /** The inner loop of `bb_call`: reads every complete line of the buffer. `rest` and `ending`
      stand for whatever the socket will still deliver. */
  method Drain(request: string, buffer: seq<Byte>, collected: seq<string>, ghost rest: seq<Byte>, ghost ending: Ending)
    returns (outcome: Option<Outcome>, pendingBytes: seq<Byte>, answer: seq<string>)
    ensures outcome.Some? ==> Observe(outcome.value) == Parse(request, buffer + rest, ending, collected)
    ensures outcome.Some? && outcome.value.DecodeError? ==> outcome.value.line + [CR] <= outcome.value.buffered
    ensures outcome.None? ==>
      && CR !in pendingBytes
      && Parse(request, pendingBytes + rest, ending, answer) == Parse(request, buffer + rest, ending, collected)
  {
    outcome, pendingBytes, answer := None, buffer, collected;
    while CR in pendingBytes
      invariant Parse(request, pendingBytes + rest, ending, answer) == Parse(request, buffer + rest, ending, collected)
      decreases |pendingBytes|
    {
      FirstLineAppend(pendingBytes, rest);
      var previous := pendingBytes;
      var line := FirstLine(pendingBytes);
      pendingBytes := AfterLine(pendingBytes);
      match Read(request, line)
      case Undecodable =>
        LineInBuffer(previous);
        outcome := Some(DecodeError(line, previous));
        return;
      case Blank =>
      case Final(success, text) =>
        outcome := Some(CallResult(success, Message(text)));
        return;
      case EndMarker =>
        outcome := Some(CallResult(true, List(answer)));
        return;
      case Data(text) =>
        answer := answer + [text];
    }
  }

  /** `bb_call`: whatever the fragmentation, the outcome is that of the whole stream. */
  method BbCall(request: string, chunks: seq<seq<Byte>>, ending: Ending) returns (outcome: Outcome)
    ensures Observe(outcome) == Parse(request, Received(chunks), EndOf(chunks, ending), [])
    ensures forall v :: Explains(request, Received(chunks), EndOf(chunks, ending), v) <==> v == Observe(outcome)
    ensures outcome.DecodeError? ==> outcome.line + [CR] <= outcome.buffered
  {
    var pendingBytes: seq<Byte> := [];
    var answer: seq<string> := [];
    OneVerdict(request, Received(chunks), EndOf(chunks, ending));
    ghost var verdict, end := Parse(request, Received(chunks), EndOf(chunks, ending), []), EndOf(chunks, ending);
    assert chunks[0..] == chunks && [] + Received(chunks) == Received(chunks);
    for i := 0 to |chunks|
      invariant CR !in pendingBytes
      invariant EndOf(chunks[i..], ending) == end
      invariant Parse(request, pendingBytes + Received(chunks[i..]), end, answer) == verdict
    {
      var data := chunks[i];
      assert chunks[i..][1..] == chunks[i + 1..];
      if |data| == 0 {
        assert pendingBytes + [] == pendingBytes;
        return CallResult(false, Message("connection closed by peer"));
      }
      ghost var rest := Received(chunks[i + 1..]);
      assert pendingBytes + (data + rest) == pendingBytes + data + rest;
      var result;
      result, pendingBytes, answer := Drain(request, pendingBytes + data, answer, rest, end);
      if result.Some? {
        return result.value;
      }
    }
    assert chunks[|chunks|..] == [] && pendingBytes + [] == pendingBytes;
    if ending.Timeout? {
      return CallResult(false, Message("socket timeout"));
    }
    return CallResult(false, Message("connection closed by peer"));
  }

  lemma LineInBuffer(s: seq<Byte>)
    requires CR in s
    ensures FirstLine(s) + [CR] <= s
  {
    FirstLineIs(s);
    assert s[..|FirstLine(s)| + 1] == FirstLine(s) + [CR];
  }

  function Flatten(chunks: seq<seq<Byte>>): seq<Byte> {
    if chunks == [] then [] else chunks[0] + Flatten(chunks[1..])
  }

  lemma {:induction false} NonEmptyChunks(chunks: seq<seq<Byte>>, ending: Ending)
    requires forall i :: 0 <= i < |chunks| ==> chunks[i] != []
    ensures Received(chunks) == Flatten(chunks) && EndOf(chunks, ending) == ending
  {
    if chunks != [] {
      NonEmptyChunks(chunks[1..], ending);
    }
  }

  /** Two splittings of one stream into non-empty chunks cannot be told apart. */
  method CallTwice(request: string, a: seq<seq<Byte>>, b: seq<seq<Byte>>, ending: Ending)
    returns (x: Outcome, y: Outcome)
    requires forall i :: 0 <= i < |a| ==> a[i] != []
    requires forall i :: 0 <= i < |b| ==> b[i] != []
    requires Flatten(a) == Flatten(b)
    ensures Observe(x) == Observe(y) == Parse(request, Flatten(a), ending, [])
  {
    NonEmptyChunks(a, ending);
    NonEmptyChunks(b, ending);
    x := BbCall(request, a, ending);
    y := BbCall(request, b, ending);
  }

  /** The first line of the buffer stays the first line whatever is received after it. */
  lemma {:induction false} FirstLineAppend(s: seq<Byte>, t: seq<Byte>)
    requires CR in s
    ensures CR in s + t && FirstLine(s + t) == FirstLine(s) && AfterLine(s + t) == AfterLine(s) + t
  {
    assert (s + t)[0] == s[0];
    FirstLineIs(s);
    if s[0] == CR {
      assert (s + t)[1..] == s[1..] + t;
    } else {
      FirstLineAppend(s[1..], t);
      assert (s + t)[1..] == s[1..] + t;
      var n := |FirstLine(s)|;
      assert (s + t)[n + 1..] == s[n + 1..] + t;
    }
  }

  /** Some line of the stream ends the call. */
  predicate Decided(request: string, stream: seq<Byte>)
    decreases |stream|
  {
    CR in stream &&
    var reading := Read(request, FirstLine(stream));
    if reading.Blank? || reading.Data? then Decided(request, AfterLine(stream)) else true
  }

  /** Once a line has ended the call, later bytes and the way the stream ends are irrelevant. */
  lemma {:induction false} DecidedIsStable(request: string, stream: seq<Byte>, more: seq<Byte>, e1: Ending,
    e2: Ending, answer: seq<string>)
    requires Decided(request, stream)
    ensures Decided(request, stream + more)
    ensures Parse(request, stream + more, e1, answer) == Parse(request, stream, e2, answer)
    decreases |stream|
  {
    FirstLineAppend(stream, more);
    var reading := Read(request, FirstLine(stream));
    if reading.Blank? {
      DecidedIsStable(request, AfterLine(stream), more, e1, e2, answer);
    } else if reading.Data? {
      DecidedIsStable(request, AfterLine(stream), more, e1, e2, answer + [reading.text]);
    }
  }

  /** Only an undecided stream reports how it ended, whatever was collected before. */
  lemma {:induction false} UndecidedReportsEnding(request: string, stream: seq<Byte>, ending: Ending,
    answer: seq<string>)
    requires !Decided(request, stream)
    ensures Parse(request, stream, ending, answer)
         == Result(false, Message(if ending.Timeout? then "socket timeout" else "connection closed by peer"))
    decreases |stream|
  {
    if CR in stream {
      var reading := Read(request, FirstLine(stream));
      UndecidedReportsEnding(request, AfterLine(stream), ending,
        if reading.Data? then answer + [reading.text] else answer);
    }
  }

  // ---- What the lines of a stream say, and what a call makes of them ----

  predicate AllSpace(s: string) {
    forall i :: 0 <= i < |s| ==> IsSpace(s[i])
  }

  predicate NoSpaceAtEnds(t: string) {
    t == [] || (!IsSpace(t[0]) && !IsSpace(t[|t| - 1]))
  }

  predicate StripsAs(raw: string, a: string, t: string, b: string) {
    raw == a + (t + b) && AllSpace(a) && AllSpace(b) && NoSpaceAtEnds(t)
  }

  /** The line is ASCII and `t` is left of it when the spaces at both ends are taken away. */
  ghost predicate Says(line: seq<Byte>, t: string) {
    IsAscii(line) && exists a, b :: StripsAs(Decode(line), a, t, b)
  }

  /** The texts that end a call. */
  predicate EndsCall(request: string, t: string) {
    || "BB; ERROR " <= t
    || t == "BB; DONE"
    || (request == "BB; STATUS" && "BB; STATUS; " <= t)
    || (request == "MWH" && t == "SER")
    || ("BB; START_SINGLETEST " <= request && t == "BB; ST; END")
  }

  /** None of the lines ends the call, and `texts` is what the lines that are not blank say. */
  ghost predicate Collects(request: string, lines: seq<seq<Byte>>, texts: seq<string>)
    decreases |lines|, 1
  {
    if lines == [] then texts == []
    else exists t :: CollectsFirst(request, lines, texts, t)
  }

  ghost predicate CollectsFirst(request: string, lines: seq<seq<Byte>>, texts: seq<string>, t: string)
    requires lines != []
    decreases |lines|, 0
  {
    && Says(lines[0], t) && !EndsCall(request, t)
    && if t == [] then Collects(request, lines[1..], texts)
       else texts != [] && texts[0] == t && Collects(request, lines[1..], texts[1..])
  }

  /** The line ends the call after `texts` were collected, with verdict `v`. */
  ghost predicate Concludes(request: string, line: seq<Byte>, texts: seq<string>, v: Verdict) {
    || (!IsAscii(line) && v == NotAscii(line))
    || (exists m :: Says(line, "BB; ERROR " + m) && v == Result(false, Message(m)))
    || (request == "BB; STATUS" && exists m :: Says(line, "BB; STATUS; " + m) && v == Result(true, Message(m)))
    || (v == Result(true, List(texts)) &&
        (|| Says(line, "BB; DONE")
         || (request == "MWH" && Says(line, "SER"))
         || ("BB; START_SINGLETEST " <= request && Says(line, "BB; ST; END"))))
  }

  function Joined(lines: seq<seq<Byte>>): seq<Byte> {
    if lines == [] then [] else lines[0] + ([CR] + Joined(lines[1..]))
  }

  predicate AreBare(lines: seq<seq<Byte>>) {
    forall i :: 0 <= i < |lines| ==> CR !in lines[i]
  }

  /** The stream ends before any line has ended the call. */
  ghost predicate RunsOut(
    request: string, stream: seq<Byte>, ending: Ending, v: Verdict,
    lines: seq<seq<Byte>>, rest: seq<Byte>, texts: seq<string>)
  {
    && stream == Joined(lines) + rest && AreBare(lines) && CR !in rest && Collects(request, lines, texts)
    && v == Result(false, Message(if ending.Timeout? then "socket timeout" else "connection closed by peer"))
  }

  /** The line behind `lines` ends the call. */
  ghost predicate EndsAt(
    request: string, stream: seq<Byte>, v: Verdict,
    lines: seq<seq<Byte>>, line: seq<Byte>, rest: seq<Byte>, texts: seq<string>)
  {
    && stream == Joined(lines) + (line + ([CR] + rest)) && AreBare(lines) && CR !in line
    && Collects(request, lines, texts) && Concludes(request, line, texts, v)
  }

  /** `v` is what a call has to make of the stream. */
  ghost predicate Explains(request: string, stream: seq<Byte>, ending: Ending, v: Verdict) {
    || (exists lines, rest, texts :: RunsOut(request, stream, ending, v, lines, rest, texts))
    || (exists lines, line, rest, texts :: EndsAt(request, stream, v, lines, line, rest, texts))
  }

  // ---- Stripping ----

  lemma {:induction false} TrimStrips(s: string) returns (a: string, b: string)
    ensures StripsAs(s, a, Trim(s), b)
    decreases |s|
  {
    if s == [] || (!IsSpace(s[0]) && !IsSpace(s[|s| - 1])) {
      a, b := [], [];
      assert s == [] + (s + []);
    } else if IsSpace(s[0]) {
      a, b := TrimStrips(s[1..]);
      StripsMoreFront(s[0], s[1..], a, Trim(s), b);
      assert s == [s[0]] + s[1..];
      a := [s[0]] + a;
    } else {
      var n := |s| - 1;
      a, b := TrimStrips(s[..n]);
      StripsMoreBack(s[..n], s[n], a, Trim(s), b);
      assert s == s[..n] + [s[n]];
      b := b + [s[n]];
    }
  }

  lemma StripsMoreFront(c: char, s: string, a: string, t: string, b: string)
    requires IsSpace(c) && StripsAs(s, a, t, b)
    ensures StripsAs([c] + s, [c] + a, t, b)
  {
  }

  lemma StripsMoreBack(s: string, c: char, a: string, t: string, b: string)
    requires IsSpace(c) && StripsAs(s, a, t, b)
    ensures StripsAs(s + [c], a, t, b + [c])
  {
  }

  lemma {:induction false} TrimFront(a: string, s: string)
    requires AllSpace(a)
    ensures Trim(a + s) == Trim(s)
  {
    if a == [] {
      assert a + s == s;
    } else {
      assert (a + s)[0] == a[0] && (a + s)[1..] == a[1..] + s;
      TrimFront(a[1..], s);
    }
  }

  lemma {:induction false} TrimBack(t: string, b: string)
    requires AllSpace(b) && t != [] && NoSpaceAtEnds(t)
    ensures Trim(t + b) == t
  {
    var s := t + b;
    assert s[0] == t[0];
    if b == [] {
      assert s == t;
    } else {
      var n := |b| - 1;
      assert s[|s| - 1] == b[n];
      assert s[..|s| - 1] == t + b[..n];
      TrimBack(t, b[..n]);
    }
  }

  /** There is only one way to strip. */
  lemma {:induction false} StripsOnce(s: string, a: string, t: string, b: string)
    requires StripsAs(s, a, t, b)
    ensures t == Trim(s)
  {
    TrimFront(a, t + b);
    if t == [] {
      assert t + b == b + [];
      TrimFront(b, []);
    } else {
      TrimBack(t, b);
    }
  }

  lemma {:induction false} SaysTrim(line: seq<Byte>, t: string)
    ensures Says(line, t) <==> IsAscii(line) && t == Trim(Decode(line))
  {
    if IsAscii(line) {
      var a, b := TrimStrips(Decode(line));
      if Says(line, t) {
        var x, y :| StripsAs(Decode(line), x, t, y);
        StripsOnce(Decode(line), x, t, y);
      }
    }
  }

  // ---- Reading a line ----

  predicate Ends(r: Reading) {
    r.Undecodable? || r.Final? || r.EndMarker?
  }

  function VerdictOf(r: Reading, line: seq<Byte>, texts: seq<string>): Verdict
    requires Ends(r)
  {
    match r
    case Undecodable => NotAscii(line)
    case Final(success, text) => Result(success, Message(text))
    case EndMarker => Result(true, List(texts))
  }

  lemma Rest(prefix: string, t: string)
    requires prefix <= t
    ensures t == prefix + t[|prefix|..]
  {
  }

  lemma Behind(prefix: string, m: string)
    ensures prefix <= prefix + m && (prefix + m)[|prefix|..] == m
  {
  }

  /** A line that ends the call concludes it with what was read. */
  lemma {:induction false} EndingConcludes(request: string, line: seq<Byte>, texts: seq<string>)
    requires Ends(Read(request, line))
    ensures Concludes(request, line, texts, VerdictOf(Read(request, line), line, texts))
  {
    if IsAscii(line) {
      var t := Trim(Decode(line));
      SaysTrim(line, t);
      if ERROR_PREFIX <= t {
        Rest(ERROR_PREFIX, t);
        assert Says(line, "BB; ERROR " + t[|ERROR_PREFIX|..]);
      } else if STATUS_PREFIX <= t {
        Rest(STATUS_PREFIX, t);
        assert Says(line, "BB; STATUS; " + t[|STATUS_PREFIX|..]);
      }
    }
  }

  /** And there is no other conclusion. */
  lemma {:induction false} ConclusionIsEnding(request: string, line: seq<Byte>, texts: seq<string>, v: Verdict)
    requires Concludes(request, line, texts, v)
    ensures Ends(Read(request, line)) && v == VerdictOf(Read(request, line), line, texts)
  {
    if IsAscii(line) {
      var t := Trim(Decode(line));
      if m :| Says(line, "BB; ERROR " + m) && v == Result(false, Message(m)) {
        SaysTrim(line, "BB; ERROR " + m);
        Behind("BB; ERROR ", m);
      } else if request == "BB; STATUS" && exists m :: Says(line, "BB; STATUS; " + m) && v == Result(true, Message(m)) {
        var m :| Says(line, "BB; STATUS; " + m) && v == Result(true, Message(m));
        SaysTrim(line, "BB; STATUS; " + m);
        Behind("BB; STATUS; ", m);
        StatusIsNoError(t);
      } else {
        SaysTrim(line, "BB; DONE");
        SaysTrim(line, "SER");
        SaysTrim(line, "BB; ST; END");
        MarkersAreNoError(t, request);
      }
    }
  }

  lemma StatusIsNoError(t: string)
    requires STATUS_PREFIX <= t
    ensures !(ERROR_PREFIX <= t) && t != "BB; DONE" && t != []
  {
    assert t[4] == STATUS_PREFIX[4] == 'S' && ERROR_PREFIX[4] == 'E';
  }

  lemma MarkersAreNoError(t: string, request: string)
    requires t == "BB; DONE" || t == "SER" || t == "BB; ST; END"
    ensures !(ERROR_PREFIX <= t) && !(STATUS_PREFIX <= t) && t != []
  {
    assert |t| <= 11;
    assert |STATUS_PREFIX| == 12;
    assert |ERROR_PREFIX| == 10 && ERROR_PREFIX[4] == 'E';
    assert |t| == 11 ==> t[4] == 'S';
  }

  /** Any other line is blank or one more text. */
  lemma {:induction false} OtherLines(request: string, line: seq<Byte>, t: string)
    requires Says(line, t) && !EndsCall(request, t)
    ensures Read(request, line) == if t == [] then Blank else Data(t)
  {
    SaysTrim(line, t);
  }

  lemma {:induction false} OtherReadings(request: string, line: seq<Byte>)
    requires !Ends(Read(request, line))
    ensures IsAscii(line)
    ensures var t := Trim(Decode(line)); Says(line, t) && !EndsCall(request, t)
    ensures Read(request, line) == var t := Trim(Decode(line)); if t == [] then Blank else Data(t)
  {
    SaysTrim(line, Trim(Decode(line)));
  }

  // ---- The verdict on a stream ----

  lemma {:induction false} LineFirst(line: seq<Byte>, x: seq<Byte>)
    requires CR !in line
    ensures CR in line + ([CR] + x)
    ensures FirstLine(line + ([CR] + x)) == line && AfterLine(line + ([CR] + x)) == x
  {
    var s := line + ([CR] + x);
    assert s[|line|] == CR;
    if line != [] {
      assert s[0] == line[0] && s[1..] == line[1..] + ([CR] + x);
      LineFirst(line[1..], x);
      assert line == [line[0]] + line[1..];
    }
  }

  lemma FirstLineSplits(s: seq<Byte>)
    requires CR in s
    ensures CR !in FirstLine(s) && s == FirstLine(s) + ([CR] + AfterLine(s))
  {
    FirstLineIs(s);
  }

  lemma JoinedFirst(line: seq<Byte>, lines: seq<seq<Byte>>, x: seq<Byte>)
    ensures Joined([line] + lines) + x == line + ([CR] + (Joined(lines) + x))
  {
    assert ([line] + lines)[1..] == lines;
    Assoc(line, [CR] + Joined(lines), x);
    Assoc([CR], Joined(lines), x);
  }

  function Silence(ending: Ending): Verdict {
    Result(false, Message(if ending.Timeout? then "socket timeout" else "connection closed by peer"))
  }

  lemma {:induction false} CollectsMore(request: string, line: seq<Byte>, lines: seq<seq<Byte>>, texts: seq<string>)
    requires !Ends(Read(request, line)) && Collects(request, lines, texts)
    ensures IsAscii(line)
    ensures var t := Trim(Decode(line)); Collects(request, [line] + lines, if t == [] then texts else [t] + texts)
  {
    OtherReadings(request, line);
    var t := Trim(Decode(line));
    var all := [line] + lines;
    assert all[0] == line && all[1..] == lines;
    var more := if t == [] then texts else [t] + texts;
    assert t != [] ==> more[1..] == texts;
    assert CollectsFirst(request, all, more, t);
  }

  /** The lines of the stream explain what is parsed, behind an answer collected before. */
  ghost predicate Explained(
    request: string, stream: seq<Byte>, ending: Ending, answer: seq<string>,
    lines: seq<seq<Byte>>, last: Option<seq<Byte>>, rest: seq<Byte>, texts: seq<string>)
  {
    && AreBare(lines) && Collects(request, lines, texts)
    && match last
       case None =>
         stream == Joined(lines) + rest && CR !in rest && Parse(request, stream, ending, answer) == Silence(ending)
       case Some(line) =>
         && stream == Joined(lines) + (line + ([CR] + rest)) && CR !in line
         && Concludes(request, line, answer + texts, Parse(request, stream, ending, answer))
  }

  lemma {:induction false} ExplainedNow(request: string, stream: seq<Byte>, ending: Ending, answer: seq<string>)
    requires CR in stream && Ends(Read(request, FirstLine(stream)))
    ensures Explained(request, stream, ending, answer, [], Some(FirstLine(stream)), AfterLine(stream), [])
  {
    FirstLineSplits(stream);
    EndingConcludes(request, FirstLine(stream), answer);
    assert answer + [] == answer;
    assert Joined([]) + stream == stream;
  }

  lemma {:induction false} ExplainedLater(
    request: string, stream: seq<Byte>, ending: Ending, answer: seq<string>,
    lines: seq<seq<Byte>>, last: Option<seq<Byte>>, rest: seq<Byte>, texts: seq<string>, more: seq<string>)
    requires CR in stream && !Ends(Read(request, FirstLine(stream)))
    requires var r := Read(request, FirstLine(stream)); more == if r.Data? then [r.text] else []
    requires Explained(request, AfterLine(stream), ending, answer + more, lines, last, rest, texts)
    ensures Explained(request, stream, ending, answer, [FirstLine(stream)] + lines, last, rest, more + texts)
  {
    var line := FirstLine(stream);
    ParseStep(request, stream, ending, answer, more);
    CollectsMore(request, line, lines, texts);
    assert more == [] ==> more + texts == texts;
    Assoc(answer, more, texts);
    JoinedFirst(line, lines, if last.Some? then last.value + ([CR] + rest) else rest);
  }

  /** Behind a line that does not end the call, the rest of the stream is parsed. */
  lemma {:induction false} ParseStep(
    request: string, stream: seq<Byte>, ending: Ending, answer: seq<string>, more: seq<string>)
    requires CR in stream && !Ends(Read(request, FirstLine(stream)))
    requires var r := Read(request, FirstLine(stream)); more == if r.Data? then [r.text] else []
    ensures CR !in FirstLine(stream) && stream == FirstLine(stream) + ([CR] + AfterLine(stream))
    ensures IsAscii(FirstLine(stream))
    ensures more == var t := Trim(Decode(FirstLine(stream))); if t == [] then [] else [t]
    ensures Parse(request, stream, ending, answer) == Parse(request, AfterLine(stream), ending, answer + more)
  {
    FirstLineSplits(stream);
    OtherReadings(request, FirstLine(stream));
    assert more == [] ==> answer + more == answer;
  }

  lemma {:induction false} ParseExplained(request: string, stream: seq<Byte>, ending: Ending, answer: seq<string>)
    returns (lines: seq<seq<Byte>>, last: Option<seq<Byte>>, rest: seq<Byte>, texts: seq<string>)
    ensures Explained(request, stream, ending, answer, lines, last, rest, texts)
    decreases |stream|
  {
    if CR !in stream {
      lines, last, rest, texts := [], None, stream, [];
      assert Joined([]) + stream == stream;
    } else if Ends(Read(request, FirstLine(stream))) {
      ExplainedNow(request, stream, ending, answer);
      lines, last, rest, texts := [], Some(FirstLine(stream)), AfterLine(stream), [];
    } else {
      var r := Read(request, FirstLine(stream));
      var more := if r.Data? then [r.text] else [];
      lines, last, rest, texts := ParseExplained(request, AfterLine(stream), ending, answer + more);
      ExplainedLater(request, stream, ending, answer, lines, last, rest, texts, more);
      lines, texts := [FirstLine(stream)] + lines, more + texts;
    }
  }

  /** A line that does not end the call is passed over. */
  lemma {:induction false} ParsePasses(
    request: string, line: seq<Byte>, t: string, x: seq<Byte>, ending: Ending, answer: seq<string>)
    requires CR !in line && Says(line, t) && !EndsCall(request, t)
    ensures Parse(request, line + ([CR] + x), ending, answer)
         == Parse(request, x, ending, if t == [] then answer else answer + [t])
  {
    LineFirst(line, x);
    OtherLines(request, line, t);
  }

  /** The lines that were collected are passed over one by one. */
  lemma {:induction false} ParseCollects(
    request: string, lines: seq<seq<Byte>>, texts: seq<string>, x: seq<Byte>, ending: Ending, answer: seq<string>)
    requires AreBare(lines) && Collects(request, lines, texts)
    ensures Parse(request, Joined(lines) + x, ending, answer) == Parse(request, x, ending, answer + texts)
    decreases |lines|
  {
    if lines == [] {
      assert Joined(lines) + x == x && answer + texts == answer;
    } else {
      var t :| CollectsFirst(request, lines, texts, t);
      var ls := lines[1..];
      assert lines == [lines[0]] + ls;
      JoinedFirst(lines[0], ls, x);
      ParsePasses(request, lines[0], t, Joined(ls) + x, ending, answer);
      var next, tail := if t == [] then answer else answer + [t], if t == [] then texts else texts[1..];
      assert AreBare(ls);
      ParseCollects(request, ls, tail, x, ending, next);
      assert next + tail == answer + texts;
    }
  }

  /** Every explanation is what is parsed. */
  lemma {:induction false} ExplanationIsParsed(request: string, stream: seq<Byte>, ending: Ending, v: Verdict)
    requires Explains(request, stream, ending, v)
    ensures v == Parse(request, stream, ending, [])
  {
    if lines, rest, texts :| RunsOut(request, stream, ending, v, lines, rest, texts) {
      ParseCollects(request, lines, texts, rest, ending, []);
    } else {
      var lines, line, rest, texts :| EndsAt(request, stream, v, lines, line, rest, texts);
      ParseCollects(request, lines, texts, line + ([CR] + rest), ending, []);
      assert [] + texts == texts;
      LineFirst(line, rest);
      ConclusionIsEnding(request, line, texts, v);
    }
  }

  /** There is exactly one verdict that the lines of a stream explain. */
  lemma {:induction false} OneVerdict(request: string, stream: seq<Byte>, ending: Ending)
    ensures forall v :: Explains(request, stream, ending, v) <==> v == Parse(request, stream, ending, [])
  {
    var v := Parse(request, stream, ending, []);
    var lines, last, rest, texts := ParseExplained(request, stream, ending, []);
    assert [] + texts == texts;
    if last.None? {
      assert RunsOut(request, stream, ending, v, lines, rest, texts);
    } else {
      assert EndsAt(request, stream, v, lines, last.value, rest, texts);
    }
    forall u | Explains(request, stream, ending, u) ensures u == v {
      ExplanationIsParsed(request, stream, ending, u);
    }
  }

  // ---- What callers rely on ----

  lemma {:induction false} BlankLinesCollect(request: string, lines: seq<seq<Byte>>)
    requires forall i :: 0 <= i < |lines| ==> Says(lines[i], [])
    ensures Collects(request, lines, [])
  {
    if lines != [] {
      BlankLinesCollect(request, lines[1..]);
      assert CollectsFirst(request, lines, [], []);
    }
  }

  /** If the first line that is not blank is an error, the call fails with the rest of that line. */
  lemma {:induction false} ErrorFails(
    request: string, stream: seq<Byte>, ending: Ending, v: Verdict,
    blanks: seq<seq<Byte>>, line: seq<Byte>, m: string, rest: seq<Byte>)
    requires Explains(request, stream, ending, v)
    requires stream == Joined(blanks) + (line + ([CR] + rest)) && AreBare(blanks) && CR !in line
    requires (forall i :: 0 <= i < |blanks| ==> Says(blanks[i], [])) && Says(line, "BB; ERROR " + m)
    ensures v == Result(false, Message(m))
  {
    BlankLinesCollect(request, blanks);
    var failure := Result(false, Message(m));
    assert Concludes(request, line, [], failure);
    assert EndsAt(request, stream, failure, blanks, line, rest, []);
    ExplanationIsParsed(request, stream, ending, failure);
    ExplanationIsParsed(request, stream, ending, v);
  }

  /** The text with which a call can succeed after `texts` were collected. */
  ghost predicate Succeeds(request: string, line: seq<Byte>, texts: seq<string>, response: Response) {
    match response
    case List(answer) =>
      answer == texts &&
      (|| Says(line, "BB; DONE")
       || (request == "MWH" && Says(line, "SER"))
       || ("BB; START_SINGLETEST " <= request && Says(line, "BB; ST; END")))
    case Message(m) => request == "BB; STATUS" && Says(line, "BB; STATUS; " + m)
  }

  /** A call succeeds only on the ending line of its own request; its list is what the lines before
      say that are not blank, in their order. */
  lemma {:induction false} SuccessMeans(request: string, stream: seq<Byte>, ending: Ending, response: Response)
    returns (lines: seq<seq<Byte>>, line: seq<Byte>, rest: seq<Byte>, texts: seq<string>)
    requires Explains(request, stream, ending, Result(true, response))
    ensures stream == Joined(lines) + (line + ([CR] + rest)) && AreBare(lines) && CR !in line
    ensures Collects(request, lines, texts) && Succeeds(request, line, texts, response)
  {
    var v := Result(true, response);
    lines, line, rest, texts :| EndsAt(request, stream, v, lines, line, rest, texts);
    if response.Message? {
      var m :| Says(line, "BB; STATUS; " + m) && v == Result(true, Message(m));
      assert m == response.text;
    }
  }
}
