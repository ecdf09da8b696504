/**
  The newline-delimited event stream between the consumer daemon (writeNdjsonLine in src/daemon.ts)
  and its client (followConsumerDaemon and parseStreamLine in src/consumer/daemon-client.ts).
  The JSON parser is a parameter.
 */
module StreamFraming {
  import opened Wrappers
  import opened Base64Url
  import opened Text
  import opened AckTypes
  import opened JsonText

  const NEWLINE: Byte := 0x0a
  const EVENT_BYTES: nat := 8 * 1024 * 1024
  const READER_DEPTH: nat := 12
  const WRITER_DEPTH: nat := 100
  const ITEM_DEPTH: nat := 12

  type Parser = Bytes -> Option<Json>

  datatype Verdict = Complete | InvalidBytes | InvalidJson | EventTooLarge | EndedMidEvent

  // ---------- One event ----------

  function ParseLine(parse: Parser, line: Bytes): Option<Json>
  {
    if |line| == 0 || |line| > EVENT_BYTES then None
    else
      match parse(line)
      case None => None
      case Some(v) => if DepthWithin(v, READER_DEPTH) then Some(v) else None
  }

  /** Why a line is turned down. */
  function LineVerdict(line: Bytes): Verdict
  {
    if |line| == 0 || |line| > EVENT_BYTES then InvalidBytes else InvalidJson
  }

  method ParseStreamLine(parse: Parser, line: Bytes) returns (event: Option<Json>, verdict: Verdict)
    ensures event == ParseLine(parse, line)
    ensures verdict == if event.Some? then Complete else LineVerdict(line)
  {
    if |line| == 0 || |line| > EVENT_BYTES {
      return None, InvalidBytes;
    }
    var parsed := parse(line);
    match parsed {
      case None => return None, InvalidJson;
      case Some(v) =>
        if DepthWithin(v, READER_DEPTH) {
          return Some(v), Complete;
        }
        return None, InvalidJson;
    }
  }

  // ---------- The whole stream at once ----------

  function IndexOf(b: Bytes): Option<nat>
  {
    if |b| == 0 then None
    else if b[0] == NEWLINE then Some(0)
    else
      match IndexOf(b[1..])
      case None => None
      case Some(n) => Some(n + 1)
  }

  lemma {:induction false} IndexIsFirst(b: Bytes)
    ensures IndexOf(b).None? <==> NEWLINE !in b
    ensures IndexOf(b).Some? ==>
              var n := IndexOf(b).value; n < |b| && b[n] == NEWLINE && NEWLINE !in b[..n]
  {
    if |b| > 0 && b[0] != NEWLINE {
      IndexIsFirst(b[1..]);
      assert b == [b[0]] + b[1..];
      if IndexOf(b).Some? {
        var n := IndexOf(b).value;
        assert b[..n] == [b[0]] + b[1..][..n - 1];
      }
    }
  }

  lemma {:induction false} IndexInFront(front: Bytes, back: Bytes)
    ensures IndexOf(front).Some? ==> IndexOf(front + back) == IndexOf(front)
    ensures IndexOf(front).None? ==>
              IndexOf(front + back) == match IndexOf(back) case None => None case Some(n) => Some(|front| + n)
  {
    if |front| == 0 {
      assert front + back == back;
    } else {
      IndexInFront(front[1..], back);
      assert (front + back)[1..] == front[1..] + back;
    }
  }

  /** The lines that newlines end, and what follows the last newline. */
  datatype Split = Split(lines: seq<Bytes>, rest: Bytes)

  function SplitLines(b: Bytes): Split
    decreases |b|
  {
    IndexIsFirst(b);
    match IndexOf(b)
    case None => Split([], b)
    case Some(n) =>
      var after := SplitLines(b[n + 1..]);
      Split([b[..n]] + after.lines, after.rest)
  }

  /** The events of the leading lines that parse. */
  function Parsed(parse: Parser, lines: seq<Bytes>): seq<Json>
  {
    if |lines| == 0 then []
    else
      match ParseLine(parse, lines[0])
      case None => []
      case Some(v) => [v] + Parsed(parse, lines[1..])
  }

  /** What the stream means: its leading good lines, and whether it is nothing but good lines. */
  function Events(parse: Parser, stream: Bytes): seq<Json>
  {
    Parsed(parse, SplitLines(stream).lines)
  }

  predicate IsComplete(parse: Parser, stream: Bytes)
  {
    var s := SplitLines(stream);
    |s.rest| == 0 && forall i :: 0 <= i < |s.lines| ==> ParseLine(parse, s.lines[i]).Some?
  }

  /** What comes after the leading good lines: the first bad line, or the rest when no line is bad. */
  datatype Ending = Ending(start: nat, line: Bytes, ended: bool)

  function EndingOf(parse: Parser, lines: seq<Bytes>, rest: Bytes): Ending
  {
    if |lines| == 0 then Ending(0, rest, false)
    else if ParseLine(parse, lines[0]).None? then Ending(0, lines[0], true)
    else
      var later := EndingOf(parse, lines[1..], rest);
      later.(start := |lines[0]| + 1 + later.start)
  }

  function EndOf(parse: Parser, stream: Bytes): Ending
  {
    EndingOf(parse, SplitLines(stream).lines, SplitLines(stream).rest)
  }

  /** How reading the stream ends, were it a single chunk. */
  function VerdictOf(parse: Parser, stream: Bytes): Verdict
  {
    var end := EndOf(parse, stream);
    if end.ended then LineVerdict(end.line)
    else if |end.line| > EVENT_BYTES then EventTooLarge
    else if |end.line| != 0 then EndedMidEvent
    else Complete
  }

  /** The one case in which the chunks matter: the first bad line is over the limit, and a newline ends it. */
  predicate EndsOversize(parse: Parser, stream: Bytes)
  {
    var end := EndOf(parse, stream);
    end.ended && |end.line| > EVENT_BYTES
  }

  function Joined(lines: seq<Bytes>): Bytes
  {
    if |lines| == 0 then [] else lines[0] + [NEWLINE] + Joined(lines[1..])
  }

  predicate NewlineFree(lines: seq<Bytes>)
  {
    forall i :: 0 <= i < |lines| ==> NEWLINE !in lines[i]
  }

  lemma FirstLine(line: Bytes, tail: Bytes)
    requires NEWLINE !in line
    ensures var stream := line + [NEWLINE] + tail;
            IndexOf(stream) == Some(|line|) && stream[..|line|] == line && stream[|line| + 1..] == tail
  {
    IndexIsFirst(line);
    IndexInFront(line, [NEWLINE] + tail);
    assert line + [NEWLINE] + tail == line + ([NEWLINE] + tail);
  }

  lemma SplitFirst(line: Bytes, tail: Bytes)
    requires NEWLINE !in line
    ensures SplitLines(line + [NEWLINE] + tail) == Split([line] + SplitLines(tail).lines, SplitLines(tail).rest)
  {
    FirstLine(line, tail);
  }

  lemma CutAtNewline(stream: Bytes) returns (line: Bytes, tail: Bytes)
    requires IndexOf(stream).Some?
    ensures NEWLINE !in line && stream == line + [NEWLINE] + tail
  {
    IndexIsFirst(stream);
    var n := IndexOf(stream).value;
    line, tail := stream[..n], stream[n + 1..];
  }

  lemma JoinedFirst(line: Bytes, lines: seq<Bytes>, rest: Bytes)
    ensures Joined([line] + lines) + rest == line + [NEWLINE] + (Joined(lines) + rest)
  {
    assert ([line] + lines)[1..] == lines;
    assert line + [NEWLINE] + Joined(lines) + rest == line + [NEWLINE] + (Joined(lines) + rest);
  }

  lemma {:induction false} SplitJoins(stream: Bytes)
    ensures var s := SplitLines(stream);
            NewlineFree(s.lines) && NEWLINE !in s.rest && Joined(s.lines) + s.rest == stream
    decreases |stream|
  {
    if IndexOf(stream).None? {
      IndexIsFirst(stream);
      assert Joined([]) + stream == stream;
    } else {
      var line, tail := CutAtNewline(stream);
      SplitJoins(tail);
      SplitFirst(line, tail);
      JoinedFirst(line, SplitLines(tail).lines, SplitLines(tail).rest);
    }
  }

  lemma {:induction false} JoinedSplits(lines: seq<Bytes>, rest: Bytes)
    requires NewlineFree(lines) && NEWLINE !in rest
    ensures SplitLines(Joined(lines) + rest) == Split(lines, rest)
    decreases |lines|
  {
    if |lines| == 0 {
      assert Joined(lines) + rest == rest;
      IndexIsFirst(rest);
    } else {
      JoinedSplits(lines[1..], rest);
      SplitFirst(lines[0], Joined(lines[1..]) + rest);
      JoinedFirst(lines[0], lines[1..], rest);
      assert lines == [lines[0]] + lines[1..];
    }
  }

  /** Splitting is the one way to see a stream as newline-free lines. */
  lemma SplitExact(stream: Bytes, lines: seq<Bytes>, rest: Bytes)
    requires NewlineFree(lines) && NEWLINE !in rest
    ensures SplitLines(stream) == Split(lines, rest) <==> stream == Joined(lines) + rest
  {
    SplitJoins(stream);
    JoinedSplits(lines, rest);
  }

  /** The ending is what its name says, for every way to see the stream as good lines and something else. */
  lemma {:induction false} EndIs(parse: Parser, good: seq<Bytes>, line: Bytes, more: Bytes)
    requires NewlineFree(good) && NEWLINE !in line
    requires forall i :: 0 <= i < |good| ==> ParseLine(parse, good[i]).Some?
    ensures EndOf(parse, Joined(good) + line) == Ending(|Joined(good)|, line, false)
    ensures ParseLine(parse, line).None? ==>
              EndOf(parse, Joined(good) + (line + [NEWLINE] + more)) == Ending(|Joined(good)|, line, true)
    decreases |good|
  {
    if |good| == 0 {
      assert Joined(good) + line == line && Joined(good) + (line + [NEWLINE] + more) == line + [NEWLINE] + more;
      IndexIsFirst(line);
      SplitFirst(line, more);
    } else {
      EndIs(parse, good[1..], line, more);
      EndAfterLine(parse, good, line);
      EndAfterLine(parse, good, line + [NEWLINE] + more);
    }
  }

  lemma EndAfterLine(parse: Parser, good: seq<Bytes>, tail: Bytes)
    requires |good| > 0 && NEWLINE !in good[0] && ParseLine(parse, good[0]).Some?
    ensures var later := EndOf(parse, Joined(good[1..]) + tail);
            EndOf(parse, Joined(good) + tail) == later.(start := |good[0]| + 1 + later.start)
  {
    SplitFirst(good[0], Joined(good[1..]) + tail);
    JoinedFirst(good[0], good[1..], tail);
    assert good == [good[0]] + good[1..];
    var after := SplitLines(Joined(good[1..]) + tail);
    assert ([good[0]] + after.lines)[1..] == after.lines;
  }

  /** The stream ends well exactly when it is nothing but good lines. */
  lemma {:induction false} CompleteExact(parse: Parser, lines: seq<Bytes>, rest: Bytes)
    ensures (var end := EndingOf(parse, lines, rest); !end.ended && |end.line| == 0) <==>
            |rest| == 0 && forall i :: 0 <= i < |lines| ==> ParseLine(parse, lines[i]).Some?
    decreases |lines|
  {
    if |lines| > 0 {
      CompleteExact(parse, lines[1..], rest);
      assert forall i :: 0 < i < |lines| ==> lines[i] == lines[1..][i - 1];
    }
  }

  lemma CompleteIsVerdict(parse: Parser, stream: Bytes)
    ensures VerdictOf(parse, stream) == Complete <==> IsComplete(parse, stream)
  {
    CompleteExact(parse, SplitLines(stream).lines, SplitLines(stream).rest);
  }

  // ---------- Chunk by chunk ----------

  function Concat(chunks: seq<Bytes>): Bytes
  {
    if |chunks| == 0 then [] else Concat(chunks[..|chunks| - 1]) + chunks[|chunks| - 1]
  }

  lemma {:induction false} ConcatPrefix(chunks: seq<Bytes>, n: nat)
    requires n <= |chunks|
    ensures Concat(chunks[..n]) <= Concat(chunks)
  {
    if n == |chunks| {
      assert chunks[..n] == chunks;
    } else {
      ConcatPrefix(chunks[..|chunks| - 1], n);
      assert chunks[..|chunks| - 1][..n] == chunks[..n];
    }
  }

  /** A cut falls inside the ending, beyond what one event may hold. */
  ghost predicate CutsLate(parse: Parser, chunks: seq<Bytes>)
  {
    exists n :: 0 <= n <= |chunks| && CutLate(EndOf(parse, Concat(chunks)), chunks, n)
  }

  ghost predicate CutLate(end: Ending, chunks: seq<Bytes>, n: nat)
    requires n <= |chunks|
  {
    end.start + EVENT_BYTES < |Concat(chunks[..n])| <= end.start + |end.line|
  }

  /** How reading these chunks ends: as the stream does, but a late cut lets the size of the buffer be seen. */
  ghost function VerdictFor(parse: Parser, chunks: seq<Bytes>): Verdict
  {
    if CutsLate(parse, chunks) then EventTooLarge else VerdictOf(parse, Concat(chunks))
  }

  /** How the meaning of a stream starts when some of its events are known: the rest follows. */
  ghost predicate Continues(parse: Parser, stream: Bytes, events: seq<Json>, tail: Bytes)
  {
    && |tail| <= |stream|
    && Events(parse, stream) == events + Events(parse, tail)
    && EndOf(parse, stream) == Later(EndOf(parse, tail), |stream| - |tail|)
  }

  function Later(end: Ending, offset: nat): Ending
  {
    end.(start := offset + end.start)
  }

  lemma LineFirst(parse: Parser, line: Bytes, tail: Bytes)
    requires NEWLINE !in line
    ensures var stream := line + [NEWLINE] + tail;
            match ParseLine(parse, line)
            case None => Events(parse, stream) == [] && EndOf(parse, stream) == Ending(0, line, true)
            case Some(v) => Continues(parse, stream, [v], tail)
  {
    SplitFirst(line, tail);
    var after := SplitLines(tail);
    assert ([line] + after.lines)[1..] == after.lines;
  }

  lemma TakeLine(parse: Parser, buffered: Bytes, more: Bytes)
    requires IndexOf(buffered).Some?
    ensures IndexOf(buffered).value < |buffered|
    ensures var n := IndexOf(buffered).value;
            match ParseLine(parse, buffered[..n])
            case None =>
              Events(parse, buffered + more) == [] && EndOf(parse, buffered + more) == Ending(0, buffered[..n], true)
            case Some(v) => Continues(parse, buffered + more, [v], buffered[n + 1..] + more)
  {
    IndexIsFirst(buffered);
    var n := IndexOf(buffered).value;
    Broken(buffered, n, more);
    LineFirst(parse, buffered[..n], buffered[n + 1..] + more);
  }

  lemma Broken(buffered: Bytes, n: nat, more: Bytes)
    requires n < |buffered| && buffered[n] == NEWLINE
    ensures buffered + more == buffered[..n] + [NEWLINE] + (buffered[n + 1..] + more)
  {
    var line, tail := buffered[..n], buffered[n + 1..];
    assert buffered == line + [NEWLINE] + tail;
    assert line + [NEWLINE] + tail + more == line + [NEWLINE] + (tail + more);
  }

  lemma Chained(parse: Parser, stream: Bytes, events: seq<Json>, tail: Bytes, more: seq<Json>, rest: Bytes)
    requires Continues(parse, stream, events, tail) && Continues(parse, tail, more, rest)
    ensures Continues(parse, stream, events + more, rest)
  {
  }

  /** A partial event over the limit spoils the stream, however it goes on. */
  lemma TooLargeSpoils(parse: Parser, buffered: Bytes, more: Bytes)
    requires IndexOf(buffered).None? && |buffered| > EVENT_BYTES
    ensures Events(parse, buffered + more) == [] && !IsComplete(parse, buffered + more)
    ensures var end := EndOf(parse, buffered + more); end.start == 0 && buffered <= end.line
  {
    var stream := buffered + more;
    IndexInFront(buffered, more);
    IndexIsFirst(stream);
    if IndexOf(stream).Some? {
      var n := IndexOf(stream).value;
      assert |stream[..n]| > EVENT_BYTES && buffered <= stream[..n];
      assert SplitLines(stream).lines[0] == stream[..n];
    }
  }

  lemma NextChunk(stream: Bytes, before: Bytes, chunk: Bytes, rest: Bytes)
    requires stream == before + rest && before + chunk <= stream
    ensures rest == chunk + stream[|before + chunk|..]
  {
    assert rest == stream[|before|..];
    assert chunk == (before + chunk)[|before|..] == stream[|before|..|before + chunk|];
  }

  /** No cut up to the n-th falls late. */
  ghost predicate NoneLate(parse: Parser, chunks: seq<Bytes>, n: nat)
  {
    forall m: nat :: m <= n && m <= |chunks| ==> !CutLate(EndOf(parse, Concat(chunks)), chunks, m)
  }

  /** A bad line found in the buffer ends before the n-th cut, and so before every later one. */
  lemma BadLineFound(parse: Parser, chunks: seq<Bytes>, n: nat)
    requires 0 < n <= |chunks| && NoneLate(parse, chunks, n - 1)
    requires var end := EndOf(parse, Concat(chunks)); end.ended && end.start + |end.line| < |Concat(chunks[..n])|
    ensures VerdictFor(parse, chunks) == LineVerdict(EndOf(parse, Concat(chunks)).line)
  {
    var end := EndOf(parse, Concat(chunks));
    forall m: nat | n <= m <= |chunks| ensures !CutLate(end, chunks, m) {
      ConcatPrefix(chunks[..m], n);
      assert chunks[..m][..n] == chunks[..n];
    }
  }

  lemma NextCut(parse: Parser, chunks: seq<Bytes>, n: nat, events: seq<Json>, buffered: Bytes, rest: Bytes)
    requires n < |chunks| && NoneLate(parse, chunks, n) && |buffered| <= EVENT_BYTES
    requires Concat(chunks) == Concat(chunks[..n + 1]) + rest
    requires Continues(parse, Concat(chunks), events, buffered + rest)
    ensures NoneLate(parse, chunks, n + 1)
  {
  }

  /**
    The client's loop. Its events are those of the whole stream, so they do not depend on where the
    chunks were cut, and it ends as the stream does but for a late cut.
   */
  method Follow(parse: Parser, chunks: seq<Bytes>) returns (events: seq<Json>, verdict: Verdict)
    ensures events == Events(parse, Concat(chunks))
    ensures verdict == VerdictFor(parse, chunks)
  {
    events := [];
    var buffered: Bytes := [];
    ghost var stream := Concat(chunks);
    ghost var rest := stream;
    assert buffered + rest == stream;
    for i := 0 to |chunks|
      invariant stream == Concat(chunks[..i]) + rest
      invariant Continues(parse, stream, events, buffered + rest)
      invariant IndexOf(buffered).None? && |buffered| <= EVENT_BYTES
      invariant NoneLate(parse, chunks, i)
    {
      ghost var before := buffered + rest;
      rest := AfterChunk(chunks, i, rest);
      buffered := buffered + chunks[i];
      assert buffered + rest == before;
      var failure: Verdict;
      events, buffered, failure := Drain(parse, stream, events, buffered, rest);
      if failure != Complete {
        BadLineFound(parse, chunks, i + 1);
        return events, failure;
      }
      if |buffered| > EVENT_BYTES {
        TooLargeSpoils(parse, buffered, rest);
        assert CutLate(EndOf(parse, stream), chunks, i + 1);
        return events, EventTooLarge;
      }
      NextCut(parse, chunks, i, events, buffered, rest);
    }
    assert chunks[..|chunks|] == chunks;
    assert |rest| == 0 && buffered + rest == buffered;
    return events, if |buffered| != 0 then EndedMidEvent else Complete;
  }

  /** What of the stream is left after one more chunk. */
  lemma AfterChunk(chunks: seq<Bytes>, i: nat, rest: Bytes) returns (later: Bytes)
    requires i < |chunks| && Concat(chunks) == Concat(chunks[..i]) + rest
    ensures rest == chunks[i] + later && Concat(chunks) == Concat(chunks[..i + 1]) + later
  {
    assert chunks[..i + 1][..i] == chunks[..i];
    ConcatPrefix(chunks, i + 1);
    var stream := Concat(chunks);
    NextChunk(stream, Concat(chunks[..i]), chunks[i], rest);
    later := stream[|Concat(chunks[..i + 1])|..];
  }

  /** The inner loop: every whole line in the buffer is parsed and yielded, up to the first bad one. */
  method Drain(parse: Parser, ghost stream: Bytes, events0: seq<Json>, buffered0: Bytes, ghost rest: Bytes)
    returns (events: seq<Json>, buffered: Bytes, verdict: Verdict)
    requires Continues(parse, stream, events0, buffered0 + rest)
    ensures verdict == Complete ==> Continues(parse, stream, events, buffered + rest) && IndexOf(buffered).None?
    ensures verdict != Complete ==>
              var end := EndOf(parse, stream);
              events == Events(parse, stream) && end.ended && verdict == LineVerdict(end.line) &&
              end.start + |end.line| < |stream| - |rest|
  {
    events, buffered := events0, buffered0;
    while true
      invariant Continues(parse, stream, events, buffered + rest)
      decreases |buffered|
    {
      var newline := IndexOf(buffered);
      if newline.None? {
        return events, buffered, Complete;
      }
      TakeLine(parse, buffered, rest);
      var line := buffered[..newline.value];
      ghost var tail := buffered + rest;
      buffered := buffered[newline.value + 1..];
      var event, failure := ParseStreamLine(parse, line);
      if event.None? {
        return events, buffered, failure;
      }
      Chained(parse, stream, events, tail, [event.value], buffered + rest);
      events := events + [event.value];
    }
  }

  // ---------- What the chunks decide ----------

  lemma Single(chunk: Bytes)
    ensures Concat([chunk]) == chunk
  {
    assert |[chunk][..0]| == 0 && Concat([chunk][..0]) + chunk == chunk;
  }

  /** Two ways to cut a stream: not at all, and once. */
  lemma Cuttings(stream: Bytes, k: nat)
    requires k <= |stream|
    ensures Concat([stream]) == stream && Concat([stream[..k], stream[k..]]) == stream
    ensures Concat([stream[..k], stream[k..]][..1]) == stream[..k]
  {
    Single(stream);
    Single(stream[..k]);
    var two := [stream[..k], stream[k..]];
    assert two[..1] == [stream[..k]];
  }

  /** The ending lies inside the stream, with the newline when there is one. */
  lemma {:induction false} EndInside(parse: Parser, lines: seq<Bytes>, rest: Bytes)
    ensures var end := EndingOf(parse, lines, rest);
            end.start + |end.line| + (if end.ended then 1 else 0) <= |Joined(lines) + rest|
    decreases |lines|
  {
    if |lines| > 0 {
      EndInside(parse, lines[1..], rest);
    }
  }

  /**
    The verdict is the stream's for every cutting into chunks if and only if the stream does not end
    at a terminated line over the limit; one that does is turned down with either reason.
   */
  lemma VerdictExact(parse: Parser, stream: Bytes)
    ensures (forall chunks :: Concat(chunks) == stream ==> VerdictFor(parse, chunks) == VerdictOf(parse, stream)) <==>
            !EndsOversize(parse, stream)
    ensures forall chunks :: Concat(chunks) == stream && EndsOversize(parse, stream) ==>
              VerdictFor(parse, chunks) == if CutsLate(parse, chunks) then EventTooLarge else InvalidBytes
  {
    if EndsOversize(parse, stream) {
      var chunks := EitherReason(parse, stream);
    }
  }

  /** The reason given for one stream can be either, by where it was cut. */
  lemma EitherReason(parse: Parser, stream: Bytes) returns (cut: seq<Bytes>)
    requires EndsOversize(parse, stream)
    ensures Concat([stream]) == stream == Concat(cut)
    ensures VerdictFor(parse, [stream]) == InvalidBytes && VerdictFor(parse, cut) == EventTooLarge
  {
    var end := EndOf(parse, stream);
    SplitJoins(stream);
    EndInside(parse, SplitLines(stream).lines, SplitLines(stream).rest);
    var k := end.start + EVENT_BYTES + 1;
    Cuttings(stream, k);
    cut := [stream[..k], stream[k..]];
    assert CutLate(end, cut, 1);
    var whole := [stream];
    assert |whole[..0]| == 0 && whole[..1] == whole;
    assert !CutLate(end, whole, 0) && !CutLate(end, whole, 1);
  }

  /** There are such streams: one line more than the limit long. */
  lemma OversizeStream(parse: Parser) returns (stream: Bytes)
    ensures EndsOversize(parse, stream)
  {
    var line: Bytes := seq(EVENT_BYTES + 1, _ => 0x61);
    stream := line + [NEWLINE] + [];
    EndIs(parse, [], line, []);
    assert Joined([]) + stream == stream;
  }

  // ---------- The writer ----------

  ghost function Line(v: Json): Bytes
  {
    Utf8(Render(v))
  }

  ghost function Written(events: seq<Json>): Bytes
  {
    Joined(Lines(events))
  }

  ghost function Lines(events: seq<Json>): seq<Bytes>
  {
    seq(|events|, i requires 0 <= i < |events| => Line(events[i]))
  }

  /** The integers that a JSON number stands for exactly. */
  const MAX_SAFE_INTEGER: int := 9007199254740991

  predicate IsSafe(v: Json)
  {
    match v
    case Num(n) => -MAX_SAFE_INTEGER <= n <= MAX_SAFE_INTEGER
    case Arr(items) => forall i :: 0 <= i < |items| ==> IsSafe(items[i])
    case Obj(fields) => forall k :: k in fields ==> IsSafe(fields[k])
    case _ => true
  }

  /** What the writer writes. */
  predicate Writable(v: Json)
  {
    DepthWithin(v, WRITER_DEPTH) && IsSafe(v)
  }

  /** The parser reads back canonical JSON text. */
  ghost predicate ReadsBack(parse: Parser)
  {
    forall v :: Writable(v) ==> parse(Line(v)) == Some(v)
  }

  /** The reader takes this event: its line is within the byte limit and its nesting within the reader's. */
  ghost predicate Readable(v: Json)
  {
    |Line(v)| <= EVENT_BYTES && DepthWithin(v, READER_DEPTH)
  }

  /** The leading events up to the first that the reader does not take. */
  ghost function ReadablePrefix(events: seq<Json>): seq<Json>
  {
    if |events| == 0 || !Readable(events[0]) then [] else [events[0]] + ReadablePrefix(events[1..])
  }

  lemma LineParses(parse: Parser, v: Json)
    requires ReadsBack(parse) && Writable(v)
    ensures ParseLine(parse, Line(v)) == if Readable(v) then Some(v) else None
  {
    NoNewlineInJson(v);
  }

  lemma {:induction false} LinesParse(parse: Parser, events: seq<Json>)
    requires ReadsBack(parse) && forall i :: 0 <= i < |events| ==> Writable(events[i])
    ensures Parsed(parse, Lines(events)) == ReadablePrefix(events)
  {
    if |events| > 0 {
      LineParses(parse, events[0]);
      LinesParse(parse, events[1..]);
      assert Lines(events)[1..] == Lines(events[1..]);
    }
  }

  lemma WrittenSplits(events: seq<Json>)
    ensures SplitLines(Written(events)) == Split(Lines(events), [])
  {
    forall i | 0 <= i < |Lines(events)| ensures NEWLINE !in Lines(events)[i] {
      NoNewlineInJson(events[i]);
    }
    SplitExact(Written(events), Lines(events), []);
    assert Joined(Lines(events)) + [] == Written(events);
  }

  /**
    Reading what the writer wrote gives back the events in order, up to the first one that is over the
    reader's byte or depth limit; it ends well exactly when there is none. The writer's own depth limit is higher.
   */
  lemma WrittenExact(parse: Parser, events: seq<Json>)
    requires ReadsBack(parse) && forall i :: 0 <= i < |events| ==> Writable(events[i])
    ensures Events(parse, Written(events)) == ReadablePrefix(events)
    ensures IsComplete(parse, Written(events)) <==> forall i :: 0 <= i < |events| ==> Readable(events[i])
  {
    WrittenSplits(events);
    LinesParse(parse, events);
    forall i | 0 <= i < |events| ensures ParseLine(parse, Lines(events)[i]).Some? <==> Readable(events[i]) {
      LineParses(parse, events[i]);
    }
  }

  // ---------- Items that cannot be followed ----------

  /** The event that carries the k-th committed item. */
  function ItemEvent(k: nat, item: Json): Json
  {
    Obj(map["kind" := Str("item"), "item" := Obj(map["sequence" := Num(k), "item" := item])])
  }

  /** The event nests its item two levels down. */
  lemma ItemEventDepth(k: nat, item: Json, bound: int)
    ensures DepthWithin(ItemEvent(k, item), bound) <==> DepthWithin(item, bound - 2)
  {
    var inner := Obj(map["sequence" := Num(k), "item" := item]);
    var event := ItemEvent(k, item);
    assert event.fields["item"] == inner && inner.fields["item"] == item && inner.fields["sequence"] == Num(k);
    assert DepthWithin(event, bound) ==> DepthWithin(inner, bound - 1);
    assert DepthWithin(inner, bound - 1) ==> DepthWithin(item, bound - 2) && bound >= 2;
    assert DepthWithin(item, bound - 2) ==> bound - 2 >= 0;
  }

  /** The reader takes the event of an item exactly when the item's depth is at most ten and the line fits. */
  lemma FollowableExact(k: nat, item: Json)
    ensures Readable(ItemEvent(k, item)) <==>
            |Line(ItemEvent(k, item))| <= EVENT_BYTES && DepthWithin(item, READER_DEPTH - 2)
  {
    ItemEventDepth(k, item, READER_DEPTH);
  }

  function Nested(n: nat): Json
  {
    if n == 0 then Null else Arr([Nested(n - 1)])
  }

  lemma {:induction false} NestedDepth(n: nat, bound: int)
    ensures DepthWithin(Nested(n), bound) <==> n <= bound
    ensures IsSafe(Nested(n))
  {
    if n > 0 {
      NestedDepth(n - 1, bound - 1);
      assert Nested(n).items[0] == Nested(n - 1);
    }
  }

  lemma ItemEventIsWritable(k: nat, item: Json)
    requires DepthWithin(item, ITEM_DEPTH) && IsSafe(item) && k <= MAX_SAFE_INTEGER
    ensures Writable(ItemEvent(k, item))
  {
    DepthGrows(item, ITEM_DEPTH, WRITER_DEPTH - 2);
    ItemEventDepth(k, item, WRITER_DEPTH);
    assert IsSafe(Obj(map["sequence" := Num(k), "item" := item]));
  }

  lemma {:induction false} DepthGrows(v: Json, bound: int, more: int)
    requires DepthWithin(v, bound) && bound <= more
    ensures DepthWithin(v, more)
    decreases v
  {
    match v
    case Arr(items) =>
      forall i | 0 <= i < |items| ensures DepthWithin(items[i], more - 1) {
        DepthGrows(items[i], bound - 1, more - 1);
      }
    case Obj(fields) =>
      forall k | k in fields ensures DepthWithin(fields[k], more - 1) {
        DepthGrows(fields[k], bound - 1, more - 1);
      }
    case _ =>
  }

  /**
    An item within what a run may commit, but deeper than ten: the writer takes its event and the reader stops
    at it.
   */
  lemma DeepItemIsNotFollowed(parse: Parser, k: nat, item: Json)
    requires ReadsBack(parse) && k <= MAX_SAFE_INTEGER && IsSafe(item)
    requires DepthWithin(item, ITEM_DEPTH) && !DepthWithin(item, READER_DEPTH - 2)
    ensures var event := ItemEvent(k, item);
            && Writable(event) && !Readable(event)
            && Events(parse, Written([event])) == [] && !IsComplete(parse, Written([event]))
  {
    ItemEventIsWritable(k, item);
    FollowableExact(k, item);
    WrittenExact(parse, [ItemEvent(k, item)]);
    assert [ItemEvent(k, item)][0] == ItemEvent(k, item);
  }

  /** There are such items: eleven or twelve arrays, one in the other. */
  lemma DeepItemsExist(n: nat)
    requires 11 <= n <= 12
    ensures IsSafe(Nested(n)) && DepthWithin(Nested(n), ITEM_DEPTH) && !DepthWithin(Nested(n), READER_DEPTH - 2)
  {
    NestedDepth(n, ITEM_DEPTH);
    NestedDepth(n, READER_DEPTH - 2);
  }

  lemma {:induction false} AllReadable(events: seq<Json>)
    requires forall i :: 0 <= i < |events| ==> Readable(events[i])
    ensures ReadablePrefix(events) == events
  {
    if |events| > 0 {
      AllReadable(events[1..]);
    }
  }

  /**
    The round trip: events within the reader's limits come back unchanged, and the stream ends well, for any
    chunking.
   */
  lemma RoundTrip(parse: Parser, events: seq<Json>, chunks: seq<Bytes>)
    requires ReadsBack(parse) && Concat(chunks) == Written(events)
    requires forall i :: 0 <= i < |events| ==> Readable(events[i]) && Writable(events[i])
    ensures Events(parse, Concat(chunks)) == events && VerdictFor(parse, chunks) == Complete
  {
    WrittenExact(parse, events);
    AllReadable(events);
    CompleteIsVerdict(parse, Concat(chunks));
  }
}
