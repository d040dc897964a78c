/**
  The server-sent-events parser, `SseEventParser`, and the loop that feeds it.

  Text is a sequence of bytes, as `String::len` counts them; every test the parser makes is on an ASCII character, so
  the byte view and the character view of UTF-8 text agree.
 */
module Sse {
  import opened ByteText
  import opened Lines

  const LF: Byte := 10
  const CR: Byte := 13
  const SPACE: Byte := 32
  const COLON: Byte := 58
  const DATA: Bytes := [100, 97, 116, 97]

  const MAX_LINE_BYTES := 1_048_576
  const MAX_EVENT_DATA_BYTES := 4 * 1_048_576

  datatype Error = BufferFull | LineTooLong | DataTooLong
  datatype Result = Ok(events: seq<Bytes>) | Err(error: Error)

  /** The event being assembled, and the byte counter. */
  datatype Pending = Pending(lines: seq<Bytes>, total: nat)
  datatype Parser = Parser(buffer: Bytes, pending: Pending)

  const FRESH := Parser([], Pending([], 0))

  function StripCr(line: Bytes): Bytes {
    StripEnd(line, CR)
  }

  function StripSpace(value: Bytes): Bytes {
    if value != [] && value[0] == SPACE then value[1..] else value
  }

  predicate IsComment(line: Bytes) {
    line != [] && line[0] == COLON
  }

  /** The text before the first colon, or the whole line. */
  function FieldOf(line: Bytes): Bytes {
    line[..Find(line, COLON)]
  }

  function ValueOf(line: Bytes): Bytes {
    var i := Find(line, COLON);
    if i == |line| then [] else StripSpace(line[i + 1..])
  }

  /** What the parser makes of a line, before any caps on the data. */
  datatype Kind = Blank | TooLong | Data(value: Bytes) | Ignored

  predicate IsData(line: Bytes) {
    line != [] && !IsComment(line) && FieldOf(line) == DATA
  }

  /** One complete line, its LF already removed. */
  function Classify(raw: Bytes): Kind {
    var line := StripCr(raw);
    if line == [] then Blank
    else if |line| > MAX_LINE_BYTES then TooLong
    else if IsData(line) then Data(ValueOf(line))
    else Ignored
  }

  function ClassifyAll(lines: seq<Bytes>): (kinds: seq<Kind>)
    ensures |kinds| == |lines|
  {
    seq(|lines|, i requires 0 <= i < |lines| => Classify(lines[i]))
  }

  /** The complete lines of the buffer. */
  function Scan(buffer: Bytes): (kinds: seq<Kind>)
    ensures |kinds| == |Complete(buffer, LF)|
  {
    ClassifyAll(Complete(buffer, LF))
  }

  /** An event as its data lines. */
  type Block = seq<Bytes>

  function Text(event: Block): Bytes {
    Join(event, [LF])
  }

  function Texts(events: seq<Block>): (texts: seq<Bytes>)
    ensures |texts| == |events|
  {
    seq(|events|, i requires 0 <= i < |events| => Text(events[i]))
  }

  /** `finish_event`: note that the counter stays. */
  function FinishEvent(p: Pending): (seq<Block>, Pending) {
    if p.lines == [] then ([], p) else ([p.lines], p.(lines := []))
  }

  datatype Taken = Took(events: seq<Block>, pending: Pending) | Failed(error: Error)

  function TakeLine(p: Pending, line: Kind): Taken {
    match line
    case Blank => Took(FinishEvent(p).0, FinishEvent(p).1)
    case TooLong => Failed(LineTooLong)
    case Data(value) =>
      if p.total + |value| > MAX_EVENT_DATA_BYTES then Failed(DataTooLong)
      else Took([], Pending(p.lines + [value], p.total + |value|))
    case Ignored => Took([], p)
  }

  /** What becomes of a list of complete lines: all taken, or refused at line number `taken`. */
  datatype Outcome =
    | Done(events: seq<Block>, pending: Pending)
    | Refused(error: Error, taken: nat)

  function Prepend(events: seq<Block>, lines: nat, rest: Outcome): Outcome {
    match rest
    case Done(later, pending) => Done(events + later, pending)
    case Refused(e, taken) => Refused(e, lines + taken)
  }

  function TakeLines(p: Pending, lines: seq<Kind>): (o: Outcome)
    ensures o.Refused? ==> 1 <= o.taken <= |lines|
    decreases |lines|
  {
    if lines == [] then Done([], p)
    else match TakeLine(p, lines[0])
      case Took(events, p') => Prepend(events, 1, TakeLines(p', lines[1..]))
      case Failed(e) => Refused(e, 1)
  }

  /** The parsing loop.  A line over the cap throws everything away; data over the cap keeps the unread text. */
  function Drain(p: Parser): (Result, Parser) {
    match TakeLines(p.pending, Scan(p.buffer))
    case Done(events, pending) => (Ok(Texts(events)), Parser(Rest(p.buffer, LF), pending))
    case Refused(LineTooLong, _) => (Err(LineTooLong), FRESH)
    case Refused(e, n) => (Err(e), Parser(DropLines(p.buffer, LF, n), Pending([], 0)))
  }

  /** Puts the events of the lines already taken in front of what the rest of the buffer gives. */
  function Then(events: seq<Bytes>, rest: (Result, Parser)): (Result, Parser) {
    (if rest.0.Ok? then Ok(events + rest.0.events) else rest.0, rest.1)
  }

  /** The same, one line at a time, as the loop runs. */
  function DrainLoop(p: Parser): (Result, Parser)
    decreases |p.buffer|
  {
    var i := Find(p.buffer, LF);
    if i == |p.buffer| then (Ok([]), p)
    else
      var rest := p.buffer[i + 1..];
      match TakeLine(p.pending, Classify(p.buffer[..i]))
      case Took(events, pending) => Then(Texts(events), DrainLoop(Parser(rest, pending)))
      case Failed(LineTooLong) => (Err(LineTooLong), FRESH)
      case Failed(e) => (Err(e), Parser(rest, Pending([], 0)))
  }

  function Extend(p: Parser, more: Bytes): Parser {
    p.(buffer := p.buffer + more)
  }

  function Push(p: Parser, chunk: Bytes): (Result, Parser) {
    if |p.buffer| + |chunk| > 2 * MAX_LINE_BYTES then (Err(BufferFull), p)
    else Drain(Extend(p, chunk))
  }

  /** `consume_line`, the line handler of `finish`, which counts nothing and knows no caps. */
  function ConsumeLine(p: Pending, line: Bytes): Pending {
    if IsData(line) then p.(lines := p.lines + [ValueOf(line)]) else p
  }

  function Finish(p: Parser): (seq<Bytes>, Parser) {
    var pending := if p.buffer == [] then p.pending else ConsumeLine(p.pending, StripCr(p.buffer));
    var (events, pending') := FinishEvent(pending);
    (Texts(events), Parser([], pending'))
  }

  class SseEventParser {
    var buffer: Bytes
    var eventDataLines: seq<Bytes>
    var eventDataTotalBytes: nat

    function State(): Parser
      reads this
    {
      Parser(buffer, Pending(eventDataLines, eventDataTotalBytes))
    }

    constructor ()
      ensures State() == FRESH
    {
      buffer, eventDataLines, eventDataTotalBytes := [], [], 0;
    }

    method PushChunk(chunk: Bytes) returns (r: Result)
      modifies this
      ensures (r, State()) == Push(old(State()), chunk)
    {
      if |buffer| + |chunk| > 2 * MAX_LINE_BYTES {
        return Err(BufferFull);
      }
      buffer := buffer + chunk;
      var events := [];
      ghost var whole := DrainLoop(State());
      LoopIsDrain(State());
      assert whole.0.Ok? ==> [] + whole.0.events == whole.0.events;
      while true
        invariant whole == Then(events, DrainLoop(State()))
        decreases |buffer|
      {
        var pos := Find(buffer, LF);
        if pos == |buffer| {
          break;
        }
        var raw := buffer[..pos];
        buffer := buffer[pos + 1..];
        var t := HandleLine(raw);
        if t.Failed? {
          if t.error.LineTooLong? {
            buffer := [];
          }
          return Err(t.error);
        }
        ThenThen(events, Texts(t.events), DrainLoop(State()));
        events := events + Texts(t.events);
      }
      assert events + [] == events;
      return Ok(events);
    }

    /** The body of the loop: one complete line. */
    method HandleLine(raw: Bytes) returns (t: Taken)
      modifies this
      ensures buffer == old(buffer)
      ensures t == TakeLine(old(State().pending), Classify(raw))
      ensures State().pending == if t.Took? then t.pending else Pending([], 0)
    {
      var line := StripCr(raw);
      var events: seq<Block> := [];
      if line == [] {
        events := FinishCurrent();
      } else if |line| > MAX_LINE_BYTES {
        eventDataLines, eventDataTotalBytes := [], 0;
        return Failed(LineTooLong);
      } else if IsData(line) {
        var data := ValueOf(line);
        eventDataTotalBytes := eventDataTotalBytes + |data|;
        if eventDataTotalBytes > MAX_EVENT_DATA_BYTES {
          eventDataLines, eventDataTotalBytes := [], 0;
          return Failed(DataTooLong);
        }
        eventDataLines := eventDataLines + [data];
      }
      return Took(events, State().pending);
    }

    method FinishCurrent() returns (events: seq<Block>)
      modifies this
      ensures buffer == old(buffer)
      ensures (events, State().pending) == FinishEvent(old(State().pending))
    {
      events := [];
      if eventDataLines != [] {
        events := [eventDataLines];
        eventDataLines := [];
      }
    }

    method FinishStream() returns (events: seq<Bytes>)
      modifies this
      ensures (events, State()) == Finish(old(State()))
    {
      if buffer != [] {
        var line := StripCr(buffer);
        buffer := [];
        if IsData(line) {
          eventDataLines := eventDataLines + [ValueOf(line)];
        }
      }
      var blocks := FinishCurrent();
      return Texts(blocks);
    }
  }

  // ---------------------------------------------------------------- chunk independence

  /** Pushes the chunks in order, until one is refused. */
  function PushAll(p: Parser, chunks: seq<Bytes>): (Result, Parser)
    decreases |chunks|
  {
    if chunks == [] then (Ok([]), p)
    else
      var (r, p1) := Push(p, chunks[0]);
      if r.Err? then (r, p1)
      else
        var (r2, p2) := PushAll(p1, chunks[1..]);
        (if r2.Ok? then Ok(r.events + r2.events) else r2, p2)
  }

  lemma ScanNone(buffer: Bytes)
    requires Find(buffer, LF) == |buffer|
    ensures Scan(buffer) == [] && Rest(buffer, LF) == buffer
  {
  }

  lemma ScanNext(buffer: Bytes, i: nat)
    requires i == Find(buffer, LF) < |buffer|
    ensures Scan(buffer) == [Classify(buffer[..i])] + Scan(buffer[i + 1..])
  {
    FindFirst(buffer, LF);
    var line, more := buffer[..i], buffer[i + 1..];
    assert buffer == line + [LF] + more;
    ScanCons(line, more);
  }

  lemma ClassifyCons(line: Bytes, lines: seq<Bytes>)
    ensures ClassifyAll([line] + lines) == [Classify(line)] + ClassifyAll(lines)
  {
  }

  lemma ScanCons(raw: Bytes, more: Bytes)
    requires LF !in raw
    ensures Scan(raw + [LF] + more) == [Classify(raw)] + Scan(more)
    ensures Rest(raw + [LF] + more, LF) == Rest(more, LF)
  {
    LinesCons(raw, LF, more);
    ClassifyCons(raw, Complete(more, LF));
  }

  lemma ClassifyAppend(a: seq<Bytes>, b: seq<Bytes>)
    ensures ClassifyAll(a + b) == ClassifyAll(a) + ClassifyAll(b)
  {
  }

  lemma ScanAppend(a: Bytes, b: Bytes)
    ensures Scan(a + b) == Scan(a) + Scan(Rest(a, LF) + b)
    ensures Rest(a + b, LF) == Rest(Rest(a, LF) + b, LF)
  {
    LinesAppend(a, b, LF);
    ClassifyAppend(Complete(a, LF), Complete(Rest(a, LF) + b, LF));
  }

  lemma ThenThen(a: seq<Bytes>, b: seq<Bytes>, rest: (Result, Parser))
    ensures Then(a, Then(b, rest)) == Then(a + b, rest)
  {
    if rest.0.Ok? {
      assert a + (b + rest.0.events) == a + b + rest.0.events;
    }
  }

  lemma TakeCons(p: Pending, line: Kind, lines: seq<Kind>)
    ensures var t := TakeLine(p, line);
            TakeLines(p, [line] + lines) ==
            if t.Took? then Prepend(t.events, 1, TakeLines(t.pending, lines)) else Refused(t.error, 1)
  {
    assert ([line] + lines)[1..] == lines;
  }

  lemma {:induction false} LoopIsDrain(p: Parser)
    ensures DrainLoop(p) == Drain(p)
    decreases |p.buffer|
  {
    var i := Find(p.buffer, LF);
    if i == |p.buffer| {
      ScanNone(p.buffer);
    } else {
      ScanNext(p.buffer, i);
      var line, rest := Classify(p.buffer[..i]), p.buffer[i + 1..];
      var t := TakeLine(p.pending, line);
      TakeCons(p.pending, line, Scan(rest));
      LinesNext(p.buffer, LF);
      assert DropLines(p.buffer, LF, 1) == DropLines(rest, LF, 0) == rest;
      if t.Took? {
        LoopIsDrain(Parser(rest, t.pending));
        LoopIsDrainStep(p, t.events, t.pending, TakeLines(t.pending, Scan(rest)));
      }
    }
  }

  lemma LoopIsDrainStep(p: Parser, events: seq<Block>, pending: Pending, o: Outcome)
    requires Find(p.buffer, LF) < |p.buffer|
    requires var rest := p.buffer[Find(p.buffer, LF) + 1..];
             o == TakeLines(pending, Scan(rest)) && TakeLines(p.pending, Scan(p.buffer)) == Prepend(events, 1, o)
    ensures Drain(p) == Then(Texts(events), Drain(Parser(p.buffer[Find(p.buffer, LF) + 1..], pending)))
  {
    LinesNext(p.buffer, LF);
    match o
    case Done(later, _) => TextsAppend(events, later);
    case Refused(_, n) => assert DropLines(p.buffer, LF, 1 + n) == DropLines(p.buffer[Find(p.buffer, LF) + 1..], LF, n);
  }

  lemma PrependPrepend(a: seq<Block>, m: nat, b: seq<Block>, n: nat, rest: Outcome)
    ensures Prepend(a, m, Prepend(b, n, rest)) == Prepend(a + b, m + n, rest)
    ensures Prepend([], 0, rest) == rest
  {
    if rest.Done? {
      assert a + (b + rest.events) == a + b + rest.events;
      assert [] + rest.events == rest.events;
    }
  }

  lemma {:induction false} TakeLinesAppend(p: Pending, a: seq<Kind>, b: seq<Kind>)
    requires TakeLines(p, a).Done?
    ensures var first := TakeLines(p, a);
            TakeLines(p, a + b) == Prepend(first.events, |a|, TakeLines(first.pending, b))
    decreases |a|
  {
    if a == [] {
      assert a + b == b;
      PrependPrepend([], 0, [], 0, TakeLines(p, b));
    } else {
      var line, rest := a[0], a[1..];
      assert a == [line] + rest && a + b == [line] + (rest + b);
      TakeCons(p, line, rest);
      TakeCons(p, line, rest + b);
      var t := TakeLine(p, line);
      TakeLinesAppend(t.pending, rest, b);
      var first := TakeLines(t.pending, rest);
      PrependPrepend(t.events, 1, first.events, |rest|, TakeLines(first.pending, b));
    }
  }

  lemma DrainAppend(p: Parser, more: Bytes)
    requires Drain(p).0.Ok? && Drain(Extend(Drain(p).1, more)).0.Ok?
    ensures var (r, p1) := Drain(p);
            var (r2, p2) := Drain(Extend(p1, more));
            Drain(Extend(p, more)) == (Ok(r.events + r2.events), p2)
  {
    ScanAppend(p.buffer, more);
    var a, b := Scan(p.buffer), Scan(Rest(p.buffer, LF) + more);
    TakeLinesAppend(p.pending, a, b);
    var first := TakeLines(p.pending, a);
    TextsAppend(first.events, TakeLines(first.pending, b).events);
  }

  lemma TextsAppend(a: seq<Block>, b: seq<Block>)
    ensures Texts(a + b) == Texts(a) + Texts(b)
  {
  }

  /** Accepted chunks are parsed as their concatenation. */
  lemma {:induction false} PushAllIsDrain(p: Parser, chunks: seq<Bytes>)
    requires LF !in p.buffer && PushAll(p, chunks).0.Ok?
    ensures PushAll(p, chunks) == Drain(Extend(p, Concat(chunks)))
    ensures LF !in PushAll(p, chunks).1.buffer
    decreases |chunks|
  {
    if chunks == [] {
      assert p.buffer + Concat(chunks) == p.buffer;
      LinesNone(p.buffer, LF);
    } else {
      var events, p1 := PushAllStep(p, chunks);
      PushAllIsDrain(p1, chunks[1..]);
      DrainTwice(p, chunks[0], Concat(chunks[1..]), events, p1);
    }
  }

  /** The first push, and how the others continue from it. */
  lemma PushAllStep(p: Parser, chunks: seq<Bytes>) returns (events: seq<Bytes>, p1: Parser)
    requires chunks != [] && PushAll(p, chunks).0.Ok?
    ensures Drain(Extend(p, chunks[0])) == (Ok(events), p1) && LF !in p1.buffer
    ensures var rest := PushAll(p1, chunks[1..]);
            rest.0.Ok? && PushAll(p, chunks) == (Ok(events + rest.0.events), rest.1)
  {
    var (r, q) := Push(p, chunks[0]);
    events, p1 := r.events, q;
    RestIsUnfinished(p.buffer + chunks[0], LF);
  }

  lemma DrainTwice(p: Parser, chunk: Bytes, more: Bytes, events: seq<Bytes>, p1: Parser)
    requires Drain(Extend(p, chunk)) == (Ok(events), p1) && Drain(Extend(p1, more)).0.Ok?
    ensures var (r, p2) := Drain(Extend(p1, more));
            Drain(Extend(p, chunk + more)) == (Ok(events + r.events), p2)
  {
    DrainAppend(Extend(p, chunk), more);
    assert p.buffer + chunk + more == p.buffer + (chunk + more);
  }

  /**
    Chunk independence: however the same text is cut, between CR and LF or inside a field name, if no push is refused
    then the events and the final parser state, and so what `finish` adds at the end, are the same.
   */
  lemma ChunkIndependence(p: Parser, chunks: seq<Bytes>, chunks': seq<Bytes>)
    requires LF !in p.buffer && Concat(chunks) == Concat(chunks')
    requires PushAll(p, chunks).0.Ok? && PushAll(p, chunks').0.Ok?
    ensures PushAll(p, chunks) == PushAll(p, chunks')
    ensures Finish(PushAll(p, chunks).1) == Finish(PushAll(p, chunks').1)
  {
    PushAllIsDrain(p, chunks);
    PushAllIsDrain(p, chunks');
  }

  /** Text that stays below the caps is never refused: the counter grows by no more than the buffer shrinks. */
  lemma {:induction false} SmallDrainAccepted(pending: Pending, buffer: Bytes)
    requires |buffer| <= MAX_LINE_BYTES && pending.total + |buffer| <= MAX_EVENT_DATA_BYTES
    ensures var o, rest := TakeLines(pending, Scan(buffer)), Rest(buffer, LF);
            o.Done? && |rest| <= |buffer| && o.pending.total + |rest| <= pending.total + |buffer|
    decreases |buffer|
  {
    var i := Find(buffer, LF);
    if i == |buffer| {
      ScanNone(buffer);
    } else {
      ScanNext(buffer, i);
      var line, rest := Classify(buffer[..i]), buffer[i + 1..];
      ClassifySmall(buffer[..i]);
      TakeCons(pending, line, Scan(rest));
      SmallDrainAccepted(TakeLine(pending, line).pending, rest);
      LinesNext(buffer, LF);
    }
  }

  lemma ClassifySmall(raw: Bytes)
    requires |raw| <= MAX_LINE_BYTES
    ensures !Classify(raw).TooLong? && (Classify(raw).Data? ==> |Classify(raw).value| <= |raw|)
  {
  }

  lemma {:induction false} SmallStreamAccepted(p: Parser, chunks: seq<Bytes>)
    requires |p.buffer| + |Concat(chunks)| <= MAX_LINE_BYTES
    requires p.pending.total + |p.buffer| + |Concat(chunks)| <= MAX_EVENT_DATA_BYTES
    ensures PushAll(p, chunks).0.Ok?
    decreases |chunks|
  {
    if chunks != [] {
      SmallDrainAccepted(p.pending, p.buffer + chunks[0]);
      SmallStreamAccepted(Push(p, chunks[0]).1, chunks[1..]);
    }
  }

  // ---------------------------------------------------------------- the counter

  ghost function DataBytes(lines: seq<Kind>): nat {
    if lines == [] then 0 else (if lines[0].Data? then |lines[0].value| else 0) + DataBytes(lines[1..])
  }

  lemma {:induction false} TakeLinesCounts(p: Pending, lines: seq<Kind>)
    requires TakeLines(p, lines).Done?
    ensures TakeLines(p, lines).pending.total == p.total + DataBytes(lines)
    decreases |lines|
  {
    if lines != [] {
      TakeLinesCounts(TakeLine(p, lines[0]).pending, lines[1..]);
    }
  }

  /**
    The counter behind the "per event" cap is never reset while the stream is accepted: it is the number of data bytes
    in all lines since the parser was made, over all events.
   */
  lemma CounterIsCumulative(chunks: seq<Bytes>)
    requires PushAll(FRESH, chunks).0.Ok?
    ensures PushAll(FRESH, chunks).1.pending.total == DataBytes(Scan(Concat(chunks)))
  {
    PushAllIsDrain(FRESH, chunks);
    assert [] + Concat(chunks) == Concat(chunks);
    TakeLinesCounts(FRESH.pending, Scan(Concat(chunks)));
  }

  predicate NoLineTooLong(lines: seq<Kind>) {
    forall k | 0 <= k < |lines| :: !lines[k].TooLong?
  }

  lemma {:induction false} TakenIff(p: Pending, lines: seq<Kind>)
    requires p.total <= MAX_EVENT_DATA_BYTES
    ensures TakeLines(p, lines).Done? <==> NoLineTooLong(lines) && p.total + DataBytes(lines) <= MAX_EVENT_DATA_BYTES
    decreases |lines|
  {
    if lines != [] {
      assert lines == [lines[0]] + lines[1..];
      if TakeLine(p, lines[0]).Took? {
        TakenIff(TakeLine(p, lines[0]).pending, lines[1..]);
        assert NoLineTooLong(lines) <==> NoLineTooLong(lines[1..]);
      }
    }
  }

  /**
    When exactly a chunk is accepted: the buffer and every complete line stay below their caps, and so does the data of
    all events since the parser was made, not of each event.
   */
  lemma AcceptedIff(p: Parser, chunk: Bytes)
    requires p.pending.total <= MAX_EVENT_DATA_BYTES
    ensures Push(p, chunk).0.Ok? <==>
            && |p.buffer| + |chunk| <= 2_097_152
            && NoLineTooLong(Scan(p.buffer + chunk))
            && p.pending.total + DataBytes(Scan(p.buffer + chunk)) <= 4_194_304
    ensures Push(p, chunk).0.Ok? ==> Push(p, chunk).1.pending.total <= MAX_EVENT_DATA_BYTES
  {
    TakenIff(p.pending, Scan(p.buffer + chunk));
    if Push(p, chunk).0.Ok? {
      TakeLinesCounts(p.pending, Scan(p.buffer + chunk));
    }
  }

  /** A line is too long when it has more than 1 MiB before its end. */
  lemma TooLongIff(raw: Bytes)
    ensures Classify(raw).TooLong? <==>
            |raw| > 1_048_577 || (|raw| == 1_048_577 && raw[|raw| - 1] != 13)
  {
  }

  // ---------------------------------------------------------------- what a refusal leaves

  /** The line whose data went over the cap, with the text before and after it. */
  lemma {:induction false} RefusedData(p: Parser) returns (before: Bytes, raw: Bytes, rest: Bytes)
    requires DrainLoop(p).0 == Err(DataTooLong)
    ensures p.buffer == before + raw + [LF] + rest && LF !in raw && DrainLoop(p).1 == Parser(rest, Pending([], 0))
    ensures OverTheCap(p.pending, before, raw)
    decreases |p.buffer|
  {
    var i := Find(p.buffer, LF);
    FindFirst(p.buffer, LF);
    var line, more := p.buffer[..i], p.buffer[i + 1..];
    var t := TakeLine(p.pending, Classify(line));
    assert p.buffer == line + [LF] + more;
    if t.Took? {
      var earlier;
      LoopTakes(p, line, more, t);
      earlier, raw, rest := RefusedData(Parser(more, t.pending));
      before := line + [LF] + earlier;
      RefusedLater(p.pending, line, earlier, raw);
      FiveParts(line, earlier, raw, rest);
    } else {
      before, raw, rest := [], line, more;
      RefusedAtOnce(p.pending, line);
      assert [] + line + [LF] + more == p.buffer;
    }
  }

  lemma LoopTakes(p: Parser, line: Bytes, more: Bytes, t: Taken)
    requires p.buffer == line + [LF] + more && LF !in line && t == TakeLine(p.pending, Classify(line)) && t.Took?
    ensures var rest := DrainLoop(Parser(more, t.pending));
            DrainLoop(p).1 == rest.1 && (DrainLoop(p).0.Err? ==> DrainLoop(p).0 == rest.0)
  {
    FindAppend(line, LF, more);
  }

  lemma FiveParts(line: Bytes, earlier: Bytes, raw: Bytes, rest: Bytes)
    ensures line + [LF] + (earlier + raw + [LF] + rest) == line + [LF] + earlier + raw + [LF] + rest
  {
  }

  lemma RefusedAtOnce(p: Pending, line: Bytes)
    requires TakeLine(p, Classify(line)) == Failed(DataTooLong)
    ensures OverTheCap(p, [], line)
  {
    LinesNone<Byte>([], LF);
  }

  lemma RefusedLater(p: Pending, line: Bytes, earlier: Bytes, raw: Bytes)
    requires LF !in line && TakeLine(p, Classify(line)).Took?
    requires OverTheCap(TakeLine(p, Classify(line)).pending, earlier, raw)
    ensures OverTheCap(p, line + [LF] + earlier, raw)
  {
    ScanCons(line, earlier);
    TakeCons(p, Classify(line), Scan(earlier));
  }

  lemma {:induction false} LinesNeverFillBuffer(p: Pending, lines: seq<Kind>)
    ensures TakeLines(p, lines).Refused? ==> TakeLines(p, lines).error != BufferFull
    decreases |lines|
  {
    if lines != [] && TakeLine(p, lines[0]).Took? {
      LinesNeverFillBuffer(TakeLine(p, lines[0]).pending, lines[1..]);
    }
  }

  /**
    What a refused push leaves: a full buffer, everything as it was; too long a line, a parser like new; too much data,
    the text after the line that went over the cap, with nothing pending and the counter at 0.
   */
  lemma RefusalLeaves(p: Parser, chunk: Bytes)
    ensures match Push(p, chunk)
            case (Ok(_), _) => true
            case (Err(BufferFull), after) => after == p
            case (Err(LineTooLong), after) => after == Parser([], Pending([], 0))
            case (Err(DataTooLong), after) =>
              exists before, raw, rest ::
                && p.buffer + chunk == before + raw + [LF] + rest && LF !in raw
                && after == Parser(rest, Pending([], 0)) && OverTheCap(p.pending, before, raw)
  {
    LoopIsDrain(Extend(p, chunk));
    LinesNeverFillBuffer(p.pending, Scan(p.buffer + chunk));
    if Push(p, chunk).0 == Err(DataTooLong) {
      var before, raw, rest := RefusedData(Extend(p, chunk));
      assert OverTheCap(p.pending, before, raw);
    }
  }

  predicate OverTheCap(p: Pending, before: Bytes, raw: Bytes) {
    var o := TakeLines(p, Scan(before));
    o.Done? && Classify(raw).Data? && o.pending.total + |Classify(raw).value| > 4_194_304
  }

  /** `n` chunks, each one event with one byte of data. */
  function Small(x: Byte, n: nat): seq<Bytes> {
    if n == 0 then [] else [PrintLine([x]) + [LF]] + Small(x, n - 1)
  }

  lemma SmallEvent(x: Byte, t: nat)
    requires x != LF && x != CR
    ensures var (r, p) := Push(Parser([], Pending([], t)), PrintLine([x]) + [LF]);
            if t < MAX_EVENT_DATA_BYTES then r.Ok? && |r.events| == 1 && p == Parser([], Pending([], t + 1)) else r.Err?
  {
    var chunk := PrintLine([x]) + [LF];
    assert [] + chunk == PrintLine([x]) + [LF];
    ScanPrintedLine([x], [LF]);
    ScanNewline();
    assert chunk == DATA + [COLON, SPACE] + [x] + [LF] + [LF];
    TakeTwo(Pending([], t), Data([x]));
  }

  lemma ScanNewline()
    ensures Scan([LF]) == [Blank] && Rest([LF], LF) == []
  {
    assert [] + [LF] + [] == [LF];
    ScanCons([], []);
    LinesNone<Byte>([], LF);
  }

  lemma {:induction false} SmallEvents(x: Byte, t: nat, n: nat)
    requires x != LF && x != CR && t <= MAX_EVENT_DATA_BYTES
    ensures PushAll(Parser([], Pending([], t)), Small(x, n)).0.Ok? <==> t + n <= MAX_EVENT_DATA_BYTES
    decreases n
  {
    if n > 0 {
      assert Small(x, n)[1..] == Small(x, n - 1);
      SmallEvent(x, t);
      if t < MAX_EVENT_DATA_BYTES {
        SmallEvents(x, t + 1, n - 1);
      }
    }
  }

  /** So a stream of tiny events, each a line of one byte, is refused once there are more of them than the cap. */
  lemma TinyEventsAddUp(x: Byte, n: nat)
    requires x != LF && x != CR
    ensures PushAll(FRESH, Small(x, n)).0.Ok? <==> n <= MAX_EVENT_DATA_BYTES
  {
    SmallEvents(x, 0, n);
  }

  // ---------------------------------------------------------------- finish is two newlines

  /**
    The two line handlers agree: ending the stream gives the same events as two more newlines would, when no cap is
    hit, and leaves the same state but for the counter.
   */
  lemma FinishIsBlankLine(p: Parser)
    requires LF !in p.buffer && Push(p, [LF, LF]).0.Ok?
    ensures Push(p, [LF, LF]).0.events == Finish(p).0
    ensures Push(p, [LF, LF]).1.buffer == Finish(p).1.buffer
    ensures Push(p, [LF, LF]).1.pending.lines == Finish(p).1.pending.lines
  {
    var blank: Bytes := [] + [LF] + [];
    assert p.buffer + [LF, LF] == p.buffer + [LF] + blank;
    ScanCons(p.buffer, blank);
    ScanCons([], []);
    LinesNone<Byte>([], LF);
    var kind := Classify(p.buffer);
    assert Scan(p.buffer + [LF, LF]) == [kind, Blank];
    TakeTwo(p.pending, kind);
    BlankThenBlank(p.pending, p.buffer);
  }

  lemma TakeTwo(p: Pending, line: Kind)
    ensures var t := TakeLine(p, line);
            TakeLines(p, [line, Blank]) ==
            if t.Took? then Done(t.events + FinishEvent(t.pending).0, FinishEvent(t.pending).1)
            else Refused(t.error, 1)
  {
    assert [line, Blank][1..] == [Blank] && [Blank][1..] == [];
    var t := TakeLine(p, line);
    if t.Took? {
      assert TakeLines(t.pending, [Blank]) == Done(FinishEvent(t.pending).0 + [], FinishEvent(t.pending).1);
      assert FinishEvent(t.pending).0 + [] == FinishEvent(t.pending).0;
    }
  }

  /** Taking the unfinished line and then an empty one gives what `finish` gives. */
  lemma BlankThenBlank(p: Pending, buffer: Bytes)
    requires TakeLine(p, Classify(buffer)).Took?
    ensures var t := TakeLine(p, Classify(buffer));
            var (events, after) := FinishEvent(t.pending);
            var (final, last) := Finish(Parser(buffer, p));
            Texts(t.events + events) == final && after.lines == last.pending.lines
  {
    if StripCr(buffer) == [] {
      assert FinishEvent(FinishEvent(p).1).0 == [];
      assert FinishEvent(p).0 + [] == FinishEvent(p).0;
    }
  }

  // ---------------------------------------------------------------- the parser inverts the printer

  function PrintLine(line: Bytes): Bytes {
    DATA + [COLON, SPACE] + line + [LF]
  }

  function PrintLines(lines: seq<Bytes>): Bytes {
    if lines == [] then [] else PrintLine(lines[0]) + PrintLines(lines[1..])
  }

  /** An event as `data:` lines closed by an empty line. */
  function PrintEvent(event: Bytes): Bytes {
    PrintLines(Split(event, LF)) + [LF]
  }

  function Print(events: seq<Bytes>): Bytes {
    if events == [] then [] else PrintEvent(events[0]) + Print(events[1..])
  }

  function StripAll(lines: seq<Bytes>): seq<Bytes> {
    if lines == [] then [] else [StripCr(lines[0])] + StripAll(lines[1..])
  }

  /** The event with one CR taken off the end of each of its lines. */
  function Normal(event: Bytes): Bytes {
    Join(StripAll(Split(event, LF)), [LF])
  }

  function NormalAll(events: seq<Bytes>): seq<Bytes> {
    if events == [] then [] else [Normal(events[0])] + NormalAll(events[1..])
  }

  lemma DataLine(line: Bytes)
    ensures var raw := DATA + [COLON, SPACE] + line;
            Classify(raw) == DataKind(line)
  {
    var raw := DATA + [COLON, SPACE] + line;
    var l := StripCr(line);
    assert StripCr(raw) == DATA + [COLON, SPACE] + l by {
      if line == [] {
        assert raw[|raw| - 1] == SPACE;
      } else {
        assert raw[|raw| - 1] == line[|line| - 1];
        assert raw[..|raw| - 1] == DATA + [COLON, SPACE] + line[..|line| - 1];
      }
    }
    assert StripCr(raw) == DATA + [COLON] + ([SPACE] + l);
    FindAppend(DATA, COLON, [SPACE] + l);
  }

  /** What the parser makes of the lines of a printed event. */
  function DataKinds(lines: seq<Bytes>): seq<Kind> {
    if lines == [] then [] else [DataKind(lines[0])] + DataKinds(lines[1..])
  }

  function DataKind(line: Bytes): Kind {
    if |DATA| + 2 + |StripCr(line)| > MAX_LINE_BYTES then TooLong else Data(StripCr(line))
  }

  function EventKinds(events: seq<Bytes>): seq<Kind> {
    if events == [] then [] else DataKinds(Split(events[0], LF)) + ([Blank] + EventKinds(events[1..]))
  }

  lemma {:induction false} ScanPrintedLines(lines: seq<Bytes>, more: Bytes)
    requires forall l | l in lines :: LF !in l
    ensures Scan(PrintLines(lines) + more) == DataKinds(lines) + Scan(more)
    ensures Rest(PrintLines(lines) + more, LF) == Rest(more, LF)
    decreases |lines|
  {
    if lines == [] {
      assert PrintLines(lines) + more == more;
    } else {
      var tail := PrintLines(lines[1..]);
      ScanPrintedLines(lines[1..], more);
      ScanPrintedLine(lines[0], tail + more);
      AppendAssoc(PrintLine(lines[0]), tail, more);
      AppendAssoc([DataKind(lines[0])], DataKinds(lines[1..]), Scan(more));
    }
  }

  lemma ScanPrintedLine(line: Bytes, more: Bytes)
    requires LF !in line
    ensures Scan(PrintLine(line) + more) == [DataKind(line)] + Scan(more)
    ensures Rest(PrintLine(line) + more, LF) == Rest(more, LF)
  {
    DataLine(line);
    ScanCons(DATA + [COLON, SPACE] + line, more);
  }

  lemma ScanPrintedEvent(lines: seq<Bytes>, more: Bytes)
    requires forall l | l in lines :: LF !in l
    ensures Scan(PrintLines(lines) + [LF] + more) == DataKinds(lines) + ([Blank] + Scan(more))
    ensures Rest(PrintLines(lines) + [LF] + more, LF) == Rest(more, LF)
  {
    ScanPrintedLines(lines, [] + [LF] + more);
    assert PrintLines(lines) + [LF] + more == PrintLines(lines) + ([] + [LF] + more);
    ScanCons([], more);
  }

  lemma {:induction false} ScanPrinted(events: seq<Bytes>)
    ensures Scan(Print(events)) == EventKinds(events) && Rest(Print(events), LF) == []
    decreases |events|
  {
    if events == [] {
      LinesNone<Byte>([], LF);
    } else {
      ScanPrinted(events[1..]);
      SplitParts(events[0], LF);
      ScanPrintedEvent(Split(events[0], LF), Print(events[1..]));
    }
  }

  lemma {:induction false} TakeDataKinds(p: Pending, lines: seq<Bytes>)
    ensures var o := TakeLines(p, DataKinds(lines));
            o.Done? ==> o.events == [] && o.pending.lines == p.lines + StripAll(lines)
    decreases |lines|
  {
    if lines != [] {
      var kinds := DataKinds(lines);
      assert kinds[1..] == DataKinds(lines[1..]);
      var t := TakeLine(p, kinds[0]);
      if t.Took? {
        TakeDataKinds(t.pending, lines[1..]);
        assert t.pending.lines + StripAll(lines[1..]) == p.lines + StripAll(lines);
      }
    }
  }

  lemma {:induction false} TakePrefixDone(p: Pending, a: seq<Kind>, b: seq<Kind>)
    requires TakeLines(p, a + b).Done?
    ensures TakeLines(p, a).Done?
    decreases |a|
  {
    if a != [] {
      assert (a + b)[0] == a[0] && (a + b)[1..] == a[1..] + b;
      TakePrefixDone(TakeLine(p, a[0]).pending, a[1..], b);
    }
  }

  lemma TakeEvent(p: Pending, lines: seq<Bytes>, rest: seq<Kind>) returns (next: Pending)
    requires p.lines == [] && lines != [] && TakeLines(p, DataKinds(lines) + ([Blank] + rest)).Done?
    ensures next.lines == [] && TakeLines(next, rest).Done?
    ensures TakeLines(p, DataKinds(lines) + ([Blank] + rest)) ==
            Done([StripAll(lines)] + TakeLines(next, rest).events, TakeLines(next, rest).pending)
  {
    var data := DataKinds(lines);
    TakePrefixDone(p, data, [Blank] + rest);
    TakeDataKinds(p, lines);
    StripAllId(lines);
    TakeLinesAppend(p, data, [Blank] + rest);
    var o := TakeLines(p, data);
    assert o.pending.lines == StripAll(lines) != [];
    TakeCons(o.pending, Blank, rest);
    next := o.pending.(lines := []);
  }

  lemma {:induction false} TakeEventKinds(p: Pending, events: seq<Bytes>)
    requires p.lines == [] && TakeLines(p, EventKinds(events)).Done?
    ensures var o := TakeLines(p, EventKinds(events));
            Texts(o.events) == NormalAll(events) && o.pending.lines == []
    decreases |events|
  {
    if events != [] {
      var lines, rest := Split(events[0], LF), EventKinds(events[1..]);
      var next := TakeEvent(p, lines, rest);
      TakeEventKinds(next, events[1..]);
      TextsAppend([StripAll(lines)], TakeLines(next, rest).events);
    }
  }

  // When the normal form is the event itself.

  predicate NoLineEndsInCr(event: Bytes) {
    forall l | l in Split(event, LF) :: StripCr(l) == l
  }

  lemma {:induction false} StripAllId(lines: seq<Bytes>)
    ensures |StripAll(lines)| == |lines|
    ensures (forall l | l in lines :: StripCr(l) == l) <==> StripAll(lines) == lines
    ensures |Join(StripAll(lines), [LF])| <= |Join(lines, [LF])|
    ensures |Join(StripAll(lines), [LF])| == |Join(lines, [LF])| ==> StripAll(lines) == lines
  {
    if lines != [] {
      StripAllId(lines[1..]);
      assert StripAll(lines)[1..] == StripAll(lines[1..]);
      assert forall l :: l in lines <==> l == lines[0] || l in lines[1..];
      if StripAll(lines) == lines {
        assert StripAll(lines)[0] == lines[0];
        assert StripAll(lines[1..]) == lines[1..];
      }
    }
  }

  lemma NormalIff(event: Bytes)
    ensures Normal(event) == event <==> NoLineEndsInCr(event)
  {
    JoinSplit(event, LF);
    StripAllId(Split(event, LF));
  }

  lemma {:induction false} NormalAllIff(events: seq<Bytes>)
    ensures NormalAll(events) == events <==> forall e | e in events :: NoLineEndsInCr(e)
  {
    if events != [] {
      NormalIff(events[0]);
      NormalAllIff(events[1..]);
      assert forall e :: e in events <==> e == events[0] || e in events[1..];
      if NormalAll(events) == events {
        assert NormalAll(events)[0] == events[0];
        assert NormalAll(events[1..]) == NormalAll(events)[1..] == events[1..];
      }
    }
  }

  lemma PrintedParses(events: seq<Bytes>, chunks: seq<Bytes>)
    requires Concat(chunks) == Print(events) && PushAll(FRESH, chunks).0.Ok?
    ensures var (r, p) := PushAll(FRESH, chunks);
            r.events == NormalAll(events) && Finish(p).0 == []
  {
    PushAllIsDrain(FRESH, chunks);
    assert [] + Concat(chunks) == Print(events);
    ScanPrinted(events);
    TakeEventKinds(FRESH.pending, events);
  }

  /**
    Printing events as `data:` lines and parsing them back, under any chunking that no push refuses, returns them with
    one CR taken off each line end: exactly the events printed if and only if none of their lines ends in CR.
   */
  lemma ParserInvertsPrinter(events: seq<Bytes>, chunks: seq<Bytes>)
    requires Concat(chunks) == Print(events) && PushAll(FRESH, chunks).0.Ok?
    ensures var (r, p) := PushAll(FRESH, chunks);
            && r.events + Finish(p).0 == NormalAll(events)
            && (r.events + Finish(p).0 == events <==> forall e | e in events :: NoLineEndsInCr(e))
  {
    PrintedParses(events, chunks);
    NormalAllIff(events);
  }

  /** ... and below one MiB of text no push is ever refused. */
  lemma SmallPrintRoundTrips(events: seq<Bytes>, chunks: seq<Bytes>)
    requires Concat(chunks) == Print(events) && |Print(events)| <= MAX_LINE_BYTES
    requires forall e | e in events :: NoLineEndsInCr(e)
    ensures PushAll(FRESH, chunks).0 == Ok(events)
  {
    SmallStreamAccepted(FRESH, chunks);
    PrintedParses(events, chunks);
    NormalAllIff(events);
  }

  // ---------------------------------------------------------------- the streaming loop

  /**
    An event handler that may remember: whether it asks to stop at an event can depend on all events handed to it so
    far, the present one last.
   */
  type Handler = seq<Bytes> -> bool

  /** The events the handler is given after those it has `seen`: up to and including the first it stops at. */
  function Handled(seen: seq<Bytes>, events: seq<Bytes>, stop: Handler): seq<Bytes>
    decreases |events|
  {
    if events == [] then []
    else if stop(seen + [events[0]]) then [events[0]]
    else [events[0]] + Handled(seen + [events[0]], events[1..], stop)
  }

  predicate Stopped(seen: seq<Bytes>, events: seq<Bytes>, stop: Handler)
    decreases |events|
  {
    events != [] && (stop(seen + [events[0]]) || Stopped(seen + [events[0]], events[1..], stop))
  }

  /** All events of a stream: a refused push loses its events and starts over with a fresh parser. */
  function StreamEvents(p: Parser, chunks: seq<Bytes>): seq<Bytes>
    decreases |chunks|
  {
    if chunks == [] then Finish(p).0
    else
      var (r, p') := Push(p, chunks[0]);
      if r.Ok? then r.events + StreamEvents(p', chunks[1..]) else StreamEvents(FRESH, chunks[1..])
  }

  lemma {:induction false} HandledAppend(seen: seq<Bytes>, a: seq<Bytes>, b: seq<Bytes>, stop: Handler)
    ensures Handled(seen, a + b, stop) ==
            if Stopped(seen, a, stop) then Handled(seen, a, stop) else a + Handled(seen + a, b, stop)
    ensures !Stopped(seen, a, stop) ==> Handled(seen, a, stop) == a
    ensures Stopped(seen, a + b, stop) <==> Stopped(seen, a, stop) || Stopped(seen + a, b, stop)
    decreases |a|
  {
    if a == [] {
      assert a + b == b && seen + a == seen;
    } else {
      var e, rest := a[0], a[1..];
      assert a == [e] + rest && (a + b)[0] == e && (a + b)[1..] == rest + b;
      HandledAppend(seen + [e], rest, b, stop);
      AppendAssoc(seen, [e], rest);
      AppendAssoc([e], rest, Handled(seen + a, b, stop));
    }
  }

  /** The handler is given the events in order, up to and including the first at which it stops, or all of them. */
  lemma {:induction false} HandledIsPrefix(seen: seq<Bytes>, events: seq<Bytes>, stop: Handler)
    ensures var n := |Handled(seen, events, stop)|;
            && n <= |events| && Handled(seen, events, stop) == events[..n]
            && (forall k | 0 < k < n :: !stop(seen + events[..k]))
            && if Stopped(seen, events, stop) then n > 0 && stop(seen + events[..n])
               else n == |events| && (n > 0 ==> !stop(seen + events))
    decreases |events|
  {
    if events != [] {
      var e, rest := events[0], events[1..];
      assert events == [e] + rest && events[..1] == [e];
      if !stop(seen + [e]) {
        HandledIsPrefix(seen + [e], rest, stop);
        forall k | 0 < k <= |events| ensures seen + events[..k] == seen + [e] + rest[..k - 1] {
          assert events[..k] == [e] + rest[..k - 1];
        }
        assert rest[..|rest|] == rest && events[..|events|] == events && seen + [e] + [] == seen + [e];
      }
    }
  }

  method HandleEvents(seen: seq<Bytes>, events: seq<Bytes>, stop: Handler)
    returns (handled: seq<Bytes>, stopped: bool)
    ensures handled == Handled(seen, events, stop) && stopped == Stopped(seen, events, stop)
  {
    handled, stopped := [], false;
    assert seen + [] == seen && events[0..] == events;
    for i := 0 to |events|
      invariant Handled(seen, events, stop) == handled + Handled(seen + handled, events[i..], stop)
      invariant Stopped(seen, events, stop) == Stopped(seen + handled, events[i..], stop)
    {
      ghost var before, later := seen + handled, events[i..];
      assert later[0] == events[i] && later[1..] == events[i + 1..];
      AppendAssoc(seen, handled, [events[i]]);
      handled := handled + [events[i]];
      if stop(seen + handled) {
        return handled, true;
      }
    }
  }

  method StreamSseEvents(chunks: seq<Bytes>, stop: Handler) returns (handled: seq<Bytes>)
    ensures handled == Handled([], StreamEvents(FRESH, chunks), stop)
  {
    var parser := new SseEventParser();
    handled := [];
    for i := 0 to |chunks|
      invariant fresh(parser)
      invariant Handled([], StreamEvents(FRESH, chunks), stop) ==
                handled + Handled(handled, StreamEvents(parser.State(), chunks[i..]), stop)
    {
      ghost var later := chunks[i..];
      assert later[0] == chunks[i] && later[1..] == chunks[i + 1..];
      var r := parser.PushChunk(chunks[i]);
      if r.Ok? {
        HandledAppend(handled, r.events, StreamEvents(parser.State(), chunks[i + 1..]), stop);
        var now, stopped := HandleEvents(handled, r.events, stop);
        handled := handled + now;
        if stopped {
          return;
        }
      } else {
        parser := new SseEventParser();
      }
    }
    var last := parser.FinishStream();
    var now, _ := HandleEvents(handled, last, stop);
    handled := handled + now;
  }

  lemma {:induction false} StreamIsPushAll(p: Parser, chunks: seq<Bytes>)
    requires PushAll(p, chunks).0.Ok?
    ensures StreamEvents(p, chunks) == PushAll(p, chunks).0.events + Finish(PushAll(p, chunks).1).0
    decreases |chunks|
  {
    if chunks != [] {
      StreamIsPushAll(Push(p, chunks[0]).1, chunks[1..]);
    }
  }

  /** A refused chunk costs its own events and whatever was pending, and the stream goes on as if it began after it. */
  lemma {:induction false} RefusedChunkRestarts(p: Parser, before: seq<Bytes>, chunk: Bytes, after: seq<Bytes>)
    requires PushAll(p, before).0.Ok? && Push(PushAll(p, before).1, chunk).0.Err?
    ensures StreamEvents(p, before + ([chunk] + after)) == PushAll(p, before).0.events + StreamEvents(FRESH, after)
    decreases |before|
  {
    if before == [] {
      assert before + ([chunk] + after) == [chunk] + after && ([chunk] + after)[1..] == after;
      assert [] + StreamEvents(FRESH, after) == StreamEvents(FRESH, after);
    } else {
      var all := before + ([chunk] + after);
      assert all[0] == before[0] && all[1..] == before[1..] + ([chunk] + after);
      var (r, p1) := Push(p, before[0]);
      RefusedChunkRestarts(p1, before[1..], chunk, after);
      AppendAssoc(r.events, PushAll(p1, before[1..]).0.events, StreamEvents(FRESH, after));
    }
  }

  /** Any handler sees the same events however the network cuts the stream. */
  lemma HandlerSeesSameEvents(chunks: seq<Bytes>, chunks': seq<Bytes>, stop: Handler)
    requires Concat(chunks) == Concat(chunks')
    requires PushAll(FRESH, chunks).0.Ok? && PushAll(FRESH, chunks').0.Ok?
    ensures Handled([], StreamEvents(FRESH, chunks), stop) == Handled([], StreamEvents(FRESH, chunks'), stop)
  {
    ChunkIndependence(FRESH, chunks, chunks');
    StreamIsPushAll(FRESH, chunks);
    StreamIsPushAll(FRESH, chunks');
  }
}
