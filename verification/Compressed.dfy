/**
  The loop that decompresses before it parses, `stream_sse_with_handler`, held against the plain loop `StreamSseEvents`
  on the decoded bytes.
 */
module CompressedStream {
  import opened ByteText
  import opened Lines
  import opened Sse
  import opened TailReading
  import D = Decompress

  /** One decoded chunk: nothing is pushed for an empty one, and a refused one starts over with a fresh parser. */
  function ParseOne(p: Parser, out: Bytes): (seq<Bytes>, Parser) {
    if out == [] then ([], p)
    else
      var (r, p1) := Push(p, out);
      if r.Ok? then (r.events, p1) else ([], FRESH)
  }

  /** The main parser's events and its last state. */
  function Main(p: Parser, decoded: seq<Bytes>): (seq<Bytes>, Parser)
    decreases |decoded|
  {
    if decoded == [] then ([], p)
    else
      var (events, p1) := ParseOne(p, decoded[0]);
      Onto(events, Main(p1, decoded[1..]))
  }

  function Onto(events: seq<Bytes>, rest: (seq<Bytes>, Parser)): (seq<Bytes>, Parser) {
    (events + rest.0, rest.1)
  }

  /** Three loops in a row, each of which only leaves itself when the handler stops. */
  function Segments(seen: seq<Bytes>, a: seq<Bytes>, b: seq<Bytes>, c: seq<Bytes>, stop: Handler): seq<Bytes> {
    var x := Handled(seen, a, stop);
    var y := Handled(seen + x, b, stop);
    x + y + Handled(seen + x + y, c, stop)
  }

  /** The events the handler of the decompressing loop is given. */
  function Given(decoded: seq<Bytes>, tail: Bytes, stop: Handler): seq<Bytes> {
    var (events, last) := Main(FRESH, decoded);
    if Stopped([], events, stop) then Handled([], events, stop)
    else events + Segments(events, TailPushed(tail), TailFinished(tail), Finish(last).0, stop)
  }

  /** The decoded chunks, as the decompressor returns them. */
  function Decoded<I>(z: D.Inflater<I>, d: D.Decompressor<I>, chunks: seq<Bytes>): seq<Bytes>
    requires d.Valid()
    decreases |chunks|
  {
    D.ChunksKeepValid(z, d);
    if chunks == [] then []
    else [D.Chunk(z, d, chunks[0]).out] + Decoded(z, D.Chunk(z, d, chunks[0]).next, chunks[1..])
  }

  function Tail<I>(z: D.Inflater<I>, d: D.Decompressor<I>, chunks: seq<Bytes>): Bytes
    requires d.Valid()
  {
    D.Flush(z, D.After(z, d, chunks)).out
  }

  method ParseDecoded(parser: SseEventParser, out: Bytes, seen: seq<Bytes>, stop: Handler)
    returns (next: SseEventParser, handled: seq<Bytes>, stopped: bool)
    modifies parser
    ensures next == parser || fresh(next)
    ensures next.State() == ParseOne(old(parser.State()), out).1
    ensures var events := ParseOne(old(parser.State()), out).0;
            handled == Handled(seen, events, stop) && stopped == Stopped(seen, events, stop)
  {
    next, handled, stopped := parser, [], false;
    if out != [] {
      var r := parser.PushChunk(out);
      if r.Ok? {
        handled, stopped := HandleEvents(seen, r.events, stop);
      } else {
        next := new SseEventParser();
      }
    }
  }

  /** The next of the chunks to come. */
  method DecodeNext<I>(decompressor: D.SseDecompressor<I>, chunk: Bytes, ghost later: seq<Bytes>) returns (out: Bytes)
    requires decompressor.Valid() && later != [] && later[0] == chunk
    modifies decompressor, decompressor.input
    ensures decompressor.Valid()
    ensures decompressor.input == old(decompressor.input) || fresh(decompressor.input)
    ensures var z := decompressor.inflater;
            && Decoded(z, old(decompressor.State()), later) == [out] + Decoded(z, decompressor.State(), later[1..])
            && D.After(z, old(decompressor.State()), later) == D.After(z, decompressor.State(), later[1..])
  {
    out := decompressor.DecompressChunk(chunk);
  }

  /** The next chunk decoded and parsed; `events` are what it brings. */
  method HandleNext<I>(decompressor: D.SseDecompressor<I>, parser: SseEventParser, chunk: Bytes,
                       ghost later: seq<Bytes>, seen: seq<Bytes>, stop: Handler)
    returns (next: SseEventParser, handled: seq<Bytes>, stopped: bool, ghost events: seq<Bytes>)
    requires decompressor.Valid() && later != [] && later[0] == chunk
    modifies decompressor, decompressor.input, parser
    ensures decompressor.Valid() && (next == parser || fresh(next))
    ensures decompressor.input == old(decompressor.input) || fresh(decompressor.input)
    ensures handled == Handled(seen, events, stop) && stopped == Stopped(seen, events, stop)
    ensures var z := decompressor.inflater;
            && D.After(z, old(decompressor.State()), later) == D.After(z, decompressor.State(), later[1..])
            && Main(old(parser.State()), Decoded(z, old(decompressor.State()), later)) ==
               Onto(events, Main(next.State(), Decoded(z, decompressor.State(), later[1..])))
  {
    var out := DecodeNext(decompressor, chunk, later);
    events := ParseOne(parser.State(), out).0;
    MainNext(parser.State(), out, Decoded(decompressor.inflater, decompressor.State(), later[1..]));
    next, handled, stopped := ParseDecoded(parser, out, seen, stop);
  }

  /** The chunk loop. */
  method DecodeAndParse<I>(z: D.Inflater<I>, chunks: seq<Bytes>, stop: Handler)
    returns (handled: seq<Bytes>, stopped: bool, parser: SseEventParser, tail: Bytes)
    ensures fresh(parser)
    ensures var (events, last) := Main(FRESH, Decoded(z, D.New(true), chunks));
            && handled == Handled([], events, stop) && stopped == Stopped([], events, stop)
            && (!stopped ==> parser.State() == last && tail == Tail(z, D.New(true), chunks))
  {
    var decompressor := new D.SseDecompressor(z, true);
    parser := new SseEventParser();
    handled, stopped, tail := [], false, [];
    ghost var main := Main(FRESH, Decoded(z, D.New(true), chunks));
    assert chunks[0..] == chunks && [] + main.0 == main.0;
    for i := 0 to |chunks|
      invariant fresh(parser) && fresh(decompressor) && decompressor.Valid() && decompressor.inflater == z
      invariant decompressor.input != null ==> fresh(decompressor.input)
      invariant D.After(z, D.New(true), chunks) == D.After(z, decompressor.State(), chunks[i..])
      invariant !Stopped([], handled, stop)
      invariant main == Onto(handled, Main(parser.State(), Decoded(z, decompressor.State(), chunks[i..])))
    {
      ghost var later := chunks[i..];
      assert later[0] == chunks[i] && later[1..] == chunks[i + 1..];
      var now;
      ghost var events;
      parser, now, stopped, events := HandleNext(decompressor, parser, chunks[i], later, handled, stop);
      MainStops(handled, events, Main(parser.State(), Decoded(z, decompressor.State(), later[1..])).0, stop);
      handled := handled + now;
      if stopped {
        return;
      }
    }
    assert handled + [] == handled;
    HandledAppend([], handled, [], stop);
    tail := decompressor.FlushRemaining();
  }

  lemma MainNext(p: Parser, out: Bytes, rest: seq<Bytes>)
    ensures Main(p, [out] + rest) == Onto(ParseOne(p, out).0, Main(ParseOne(p, out).1, rest))
  {
    assert ([out] + rest)[1..] == rest;
  }

  /** One more chunk's events, and the events after them. */
  lemma MainStops(seen: seq<Bytes>, now: seq<Bytes>, later: seq<Bytes>, stop: Handler)
    requires !Stopped([], seen, stop)
    ensures seen + (now + later) == seen + now + later
    ensures Stopped([], seen + now, stop) <==> Stopped(seen, now, stop)
    ensures Stopped(seen, now, stop) ==>
              Stopped([], seen + (now + later), stop)
              && Handled([], seen + (now + later), stop) == seen + Handled(seen, now, stop)
    ensures !Stopped(seen, now, stop) ==> Handled(seen, now, stop) == now
  {
    AppendAssoc(seen, now, later);
    assert [] + seen == seen;
    HandledAppend([], seen, now, stop);
    HandledAppend([], seen, now + later, stop);
    HandledAppend(seen, now, later, stop);
  }

  method ParseTail(tail: Bytes) returns (pushed: seq<Bytes>, finished: seq<Bytes>)
    ensures pushed == TailPushed(tail) && finished == TailFinished(tail)
  {
    pushed, finished := [], [];
    if tail != [] {
      var parser := new SseEventParser();
      var r := parser.PushChunk(tail);
      if r.Ok? {
        pushed := r.events;
      }
      finished := parser.FinishStream();
    }
  }

  method StreamSseWithHandler<I>(z: D.Inflater<I>, enabled: bool, chunks: seq<Bytes>, stop: Handler)
    returns (handled: seq<Bytes>)
    ensures handled == if enabled then Given(Decoded(z, D.New(true), chunks), Tail(z, D.New(true), chunks), stop)
                       else Handled([], StreamEvents(FRESH, chunks), stop)
  {
    if !enabled {
      handled := StreamSseEvents(chunks, stop);
      return;
    }
    var main, stopped, parser, tail := DecodeAndParse(z, chunks, stop);
    if stopped {
      return main;
    }
    ghost var events := Main(FRESH, Decoded(z, D.New(true), chunks)).0;
    HandledAppend([], events, [], stop);
    var pushed, finished := ParseTail(tail);
    var last := parser.FinishStream();
    var x, _ := HandleEvents(main, pushed, stop);
    var y, _ := HandleEvents(main + x, finished, stop);
    var w, _ := HandleEvents(main + x + y, last, stop);
    handled := main + (x + y + w);
  }

  // ---------------------------------------------------------------- the decoded chunks

  /** Between two pushes: no complete line is waiting, and the buffer is below its cap. */
  predicate Settled(p: Parser) {
    LF !in p.buffer && |p.buffer| <= 2 * MAX_LINE_BYTES
  }

  lemma {:induction false} RestIsShorter(s: Bytes)
    ensures |Rest(s, LF)| <= |s|
    decreases |s|
  {
    if Find(s, LF) < |s| {
      RestIsShorter(s[Find(s, LF) + 1..]);
    }
  }

  lemma PushSettles(p: Parser, out: Bytes)
    requires Settled(p)
    ensures Push(p, out).0.Ok? ==> Settled(Push(p, out).1)
    ensures Push(p, []) == (Ok([]), p)
  {
    RestIsUnfinished(p.buffer + out, LF);
    RestIsShorter(p.buffer + out);
    assert p.buffer + [] == p.buffer;
    ScanNone(p.buffer) by {
      FindNone(p.buffer, LF);
    }
  }

  /** Pushing nothing for empty chunks makes no difference. */
  lemma {:induction false} MainIsStream(p: Parser, decoded: seq<Bytes>, tail: Bytes)
    requires Settled(p)
    ensures var (events, last) := Main(p, decoded);
            Settled(last) && StreamEvents(p, decoded + [tail]) == events + StreamEvents(last, [tail])
    decreases |decoded|
  {
    if decoded == [] {
      assert decoded + [tail] == [tail];
    } else {
      var (events, p1) := ParseOne(p, decoded[0]);
      PushSettles(p, decoded[0]);
      assert (decoded + [tail])[0] == decoded[0] && (decoded + [tail])[1..] == decoded[1..] + [tail];
      MainIsStream(p1, decoded[1..], tail);
      var (later, last) := Main(p1, decoded[1..]);
      AppendAssoc(events, later, StreamEvents(last, [tail]));
    }
  }

  // ---------------------------------------------------------------- what the handler sees

  /** A handler that stopped in one of three loops is called again in a later one. */
  predicate CalledAgain(seen: seq<Bytes>, a: seq<Bytes>, b: seq<Bytes>, c: seq<Bytes>, stop: Handler) {
    || (Stopped(seen, a, stop) && (b != [] || c != []))
    || (Stopped(seen + Handled(seen, a, stop), b, stop) && c != [])
  }

  /** The two streams go the same way up to an event at which the handler stops. */
  predicate StopInCommon(seen: seq<Bytes>, u: seq<Bytes>, t: seq<Bytes>, stop: Handler) {
    exists k :: 0 < k <= |u| && k <= |t| && u[..k] == t[..k] && stop(seen + u[..k])
  }

  lemma {:induction false} StopComesLast(seen: seq<Bytes>, events: seq<Bytes>, stop: Handler)
    ensures var h := Handled(seen, events, stop);
            && (Stopped(seen, events, stop) ==> h != [] && stop(seen + h))
            && forall k | 0 < k < |h| :: !stop(seen + h[..k])
    decreases |events|
  {
    if events != [] {
      var e, rest := events[0], events[1..];
      var h, later := Handled(seen, events, stop), Handled(seen + [e], rest, stop);
      if stop(seen + [e]) {
        assert h == [e];
      } else {
        StopComesLast(seen + [e], rest, stop);
        AppendAssoc(seen, [e], later);
        forall k | 0 < k < |h| ensures !stop(seen + h[..k]) {
          assert h[..k] == [e] + later[..k - 1];
          AppendAssoc(seen, [e], later[..k - 1]);
          assert seen + [e] + [] == seen + [e];
        }
      }
    }
  }

  /** Unless the handler is called again, three loops in a row act like one. */
  lemma SegmentsAreOne(seen: seq<Bytes>, a: seq<Bytes>, b: seq<Bytes>, c: seq<Bytes>, stop: Handler)
    requires !CalledAgain(seen, a, b, c, stop)
    ensures Segments(seen, a, b, c, stop) == Handled(seen, a + b + c, stop)
  {
    var x := Handled(seen, a, stop);
    var y := Handled(seen + x, b, stop);
    if Stopped(seen, a, stop) {
      assert a + b + c == a && x + y + Handled(seen + x + y, c, stop) == x;
    } else {
      HandledAppend(seen, a, [], stop);
      AppendAssoc(a, b, c);
      HandledAppend(seen, a, b + c, stop);
      HandledAppend(seen + a, b, c, stop);
      AppendAssoc(a, y, Handled(seen + a + y, c, stop));
      if c == [] {
        assert b + c == b && y + Handled(seen + a + y, c, stop) == y;
      }
    }
  }

  /** If it is called again, no single loop would give it those events. */
  lemma CalledAgainShows(seen: seq<Bytes>, a: seq<Bytes>, b: seq<Bytes>, c: seq<Bytes>, t: seq<Bytes>, stop: Handler)
    requires CalledAgain(seen, a, b, c, stop)
    ensures Segments(seen, a, b, c, stop) != Handled(seen, t, stop)
  {
    var x := Handled(seen, a, stop);
    var y := Handled(seen + x, b, stop);
    var w := Handled(seen + x + y, c, stop);
    var all := x + y + w;
    StopComesLast(seen, a, stop);
    StopComesLast(seen + x, b, stop);
    StopComesLast(seen, t, stop);
    if Stopped(seen, a, stop) {
      assert all[..|x|] == x && |all| > |x|;
    } else {
      assert all[..|x + y|] == x + y && |all| > |x + y|;
      AppendAssoc(seen, x, y);
    }
  }

  lemma {:induction false} SameUntilStop(seen: seq<Bytes>, u: seq<Bytes>, t: seq<Bytes>, stop: Handler)
    ensures Handled(seen, u, stop) == Handled(seen, t, stop) <==> u == t || StopInCommon(seen, u, t, stop)
    decreases |u|
  {
    if u != [] && t != [] && u[0] == t[0] {
      var e := u[0];
      assert u == [e] + u[1..] && t == [e] + t[1..];
      if stop(seen + [e]) {
        assert u[..1] == [e] == t[..1];
      } else {
        SameUntilStop(seen + [e], u[1..], t[1..], stop);
        StopInCommonCons(seen, u, t, stop);
        var h, g := Handled(seen + [e], u[1..], stop), Handled(seen + [e], t[1..], stop);
        AppendCancels([e], h, g);
      }
    } else if u != [] && t != [] {
      assert Handled(seen, u, stop)[0] == u[0] && Handled(seen, t, stop)[0] == t[0];
      forall k | 0 < k <= |u| && k <= |t| ensures u[..k] != t[..k] {
        assert u[..k][0] == u[0] && t[..k][0] == t[0];
      }
    }
  }

  lemma StopInCommonCons(seen: seq<Bytes>, u: seq<Bytes>, t: seq<Bytes>, stop: Handler)
    requires u != [] && t != [] && u[0] == t[0] && !stop(seen + [u[0]])
    ensures StopInCommon(seen, u, t, stop) <==> StopInCommon(seen + [u[0]], u[1..], t[1..], stop)
  {
    var e := u[0];
    if StopInCommon(seen, u, t, stop) {
      var k :| 0 < k <= |u| && k <= |t| && u[..k] == t[..k] && stop(seen + u[..k]);
      assert u[..1] == [e] && u[..k] == [e] + u[1..][..k - 1] && t[..k] == [e] + t[1..][..k - 1];
      assert u[1..][..k - 1] == u[..k][1..] == t[..k][1..] == t[1..][..k - 1];
      AppendAssoc(seen, [e], u[1..][..k - 1]);
    }
    if StopInCommon(seen + [e], u[1..], t[1..], stop) {
      var k :| 0 < k <= |u[1..]| && k <= |t[1..]| && u[1..][..k] == t[1..][..k] && stop(seen + [e] + u[1..][..k]);
      assert u[..k + 1] == [e] + u[1..][..k] && t[..k + 1] == [e] + t[1..][..k];
      AppendAssoc(seen, [e], u[1..][..k]);
    }
  }

  lemma AppendCancels(front: seq<Bytes>, a: seq<Bytes>, b: seq<Bytes>)
    ensures front + a == front + b <==> a == b
  {
    if front + a == front + b {
      assert a == (front + a)[|front|..] == (front + b)[|front|..] == b;
    }
  }

  /**
    For all decoded chunks, every tail and every handler: the handler of the decompressing loop sees exactly the events
    the plain loop would show it on the decoded bytes if and only if it stops before the tail; or it is not called again
    after a stop in the tail, and the tail reconciles with what the main parser holds or the handler stops while the two
    readings still agree.
   */
  lemma HandlerSeesDecodedIff(decoded: seq<Bytes>, tail: Bytes, stop: Handler)
    ensures var (events, last) := Main(FRESH, decoded);
            Given(decoded, tail, stop) == Handled([], StreamEvents(FRESH, decoded + [tail]), stop) <==>
            || Stopped([], events, stop)
            || (&& !CalledAgain(events, TailPushed(tail), TailFinished(tail), Finish(last).0, stop)
                && (|| Reconciles(last, tail)
                    || StopInCommon(events, LoopTail(last, tail), StreamTail(last, tail), stop)))
  {
    var (events, last) := Main(FRESH, decoded);
    MainIsStream(FRESH, decoded, tail);
    assert [] + events == events;
    HandledAppend([], events, StreamTail(last, tail), stop);
    if !Stopped([], events, stop) {
      var a, b, c, t := TailPushed(tail), TailFinished(tail), Finish(last).0, StreamTail(last, tail);
      AppendCancels(events, Segments(events, a, b, c, stop), Handled(events, t, stop));
      if CalledAgain(events, a, b, c, stop) {
        CalledAgainShows(events, a, b, c, t, stop);
      } else {
        SegmentsAreOne(events, a, b, c, stop);
        SameUntilStop(events, LoopTail(last, tail), t, stop);
        TailAgreesIff(last, tail);
      }
    }
  }

  // ---------------------------------------------------------------- streams that go wrong

  /** A decoder that yields `first` while input is to come, and `last` once it has ended. */
  function Script(first: Bytes, last: Bytes): D.Inflater<nat> {
    D.Inflater(0, (state: nat, unread: Bytes, finished: bool) =>
      if finished && state < 2 then (|unread|, last, 2)
      else if state == 0 then (|unread|, first, 1)
      else (|unread|, [], state))
  }

  lemma PullScript(first: Bytes, last: Bytes, c: D.Decoder<nat>)
    requires |first| <= D.MAX_DECOMPRESSED_BYTES && |last| <= D.MAX_DECOMPRESSED_BYTES
    ensures !c.finished && c.inner == 0 ==>
              D.PullAll(Script(first, last), c, []).out == first
              && D.PullAll(Script(first, last), c, []).after == D.Decoder([], false, 1)
    ensures c.finished && c.inner == 1 ==> D.PullAll(Script(first, last), c, []).out == last
  {
    var z := Script(first, last);
    var one := D.ReadOnce(z, c);
    assert [] + one.out == one.out && c.unread[|c.unread|..] == [];
    assert D.ReadOnce(z, one.after).out == [] || c.inner > 1 || (!c.finished && c.inner == 1);
  }

  /** So every decoded chunk and every tail, below the cap, are those of some stream. */
  lemma AnyTail(first: Bytes, last: Bytes)
    requires |first| <= D.MAX_DECOMPRESSED_BYTES && |last| <= D.MAX_DECOMPRESSED_BYTES
    ensures var z, chunks := Script(first, last), [D.GZIP_MAGIC];
            Decoded(z, D.New(true), chunks) == [first] && Tail(z, D.New(true), chunks) == last
  {
    var z, magic := Script(first, last), D.GZIP_MAGIC;
    var chunks := [magic];
    assert [] + magic == magic && magic[..2] == magic && chunks[0] == magic && chunks[1..] == [];
    PullScript(first, last, D.Decoder(magic, false, 0));
    PullScript(first, last, D.Decoder([], true, 1));
    var next := D.Chunk(z, D.New(true), magic).next;
    assert D.Chunk(z, D.New(true), magic).out == first && next.decoder.value == D.Decoder([], false, 1);
    assert D.After(z, D.New(true), chunks) == D.After(z, next, []) == next;
    assert Decoded(z, next, []) == [];
  }

  /** What the handler sees of a stream, and what it would see of the decoded bytes in the plain loop. */
  function Seen<I>(z: D.Inflater<I>, chunks: seq<Bytes>, stop: Handler): seq<Bytes> {
    Given(Decoded(z, D.New(true), chunks), Tail(z, D.New(true), chunks), stop)
  }

  function SeenPlain<I>(z: D.Inflater<I>, chunks: seq<Bytes>, stop: Handler): seq<Bytes> {
    Handled([], StreamEvents(FRESH, Decoded(z, D.New(true), chunks) + [Tail(z, D.New(true), chunks)]), stop)
  }

  function Half(x: Byte): Bytes {
    DATA + [COLON, SPACE] + [x]
  }

  lemma HalfPending(x: Byte)
    requires x != LF && x != CR
    ensures Push(FRESH, Half(x)) == (Ok([]), Parser(Half(x), Pending([], 0)))
    ensures Scan(Half(x)) == [] && Rest(Half(x), LF) == Half(x)
  {
    assert [] + Half(x) == Half(x);
    FindNone(Half(x), LF);
    ScanNone(Half(x));
  }

  lemma HalfFinishes(x: Byte, total: nat)
    requires x != CR
    ensures Finish(Parser(Half(x), Pending([], total))).0 == [[x]]
  {
    var half := Half(x);
    assert half == DATA + [COLON] + [SPACE, x] && StripCr(half) == half;
    FindAppend(DATA, COLON, [SPACE, x]);
    assert ValueOf(half) == [x];
    var lines: Block := [] + [[x]];
    assert lines == [[x]] && Text(lines) == [x];
  }

  /** The rest of an event whose first half is `Half(x)`. */
  function OtherHalf(x: Byte): Bytes {
    [x, LF, LF]
  }

  lemma HalvesMeet(x: Byte)
    requires x != LF && x != CR
    ensures StreamTail(Parser(Half(x), Pending([], 0)), OtherHalf(x)) == [[x, x]]
  {
    var p := Parser(Half(x), Pending([], 0));
    var line: Bytes := [x, x];
    assert p.buffer + OtherHalf(x) == PrintLine(line) + [LF];
    ScanPrintedLine(line, [LF]);
    ScanNewline();
    assert [Data(line)] + [Blank] == [Data(line), Blank];
    TakeTwo(p.pending, Data(line));
    StreamTailIs(p, OtherHalf(x));
    var lines: Block := [] + [line];
    assert lines == [line] && Text(lines) == line;
  }

  lemma OtherHalfAlone(x: Byte)
    requires x != LF && x != CR
    ensures TailPushed(OtherHalf(x)) == [] && TailFinished(OtherHalf(x)) == []
  {
    var alone: Bytes := [x];
    assert [] + OtherHalf(x) == alone + [LF] + [LF];
    ScanCons(alone, [LF]);
    ScanNewline();
    assert Classify(alone) == Ignored && [Ignored] + [Blank] == [Ignored, Blank];
    TakeTwo(FRESH.pending, Ignored);
  }

  lemma {:induction false} NeverStops(seen: seq<Bytes>, events: seq<Bytes>, stop: Handler)
    requires forall s :: !stop(s)
    ensures !Stopped(seen, events, stop) && Handled(seen, events, stop) == events
    decreases |events|
  {
    if events != [] {
      NeverStops(seen + [events[0]], events[1..], stop);
    }
  }

  lemma GivenInFull(decoded: seq<Bytes>, tail: Bytes, stop: Handler)
    requires forall s :: !stop(s)
    ensures var (events, last) := Main(FRESH, decoded);
            && Given(decoded, tail, stop) == events + LoopTail(last, tail)
            && Handled([], StreamEvents(FRESH, decoded + [tail]), stop) == events + StreamTail(last, tail)
  {
    var (events, last) := Main(FRESH, decoded);
    var a, b, c := TailPushed(tail), TailFinished(tail), Finish(last).0;
    NeverStops([], events, stop);
    NeverStops(events, a, stop);
    NeverStops(events + a, b, stop);
    NeverStops(events + a + b, c, stop);
    MainIsStream(FRESH, decoded, tail);
    NeverStops([], StreamEvents(FRESH, decoded + [tail]), stop);
  }

  /**
    A stream whose decoder yields the second half of an event only when the stream ends: a handler that never stops is
    shown the event by the plain loop, and half of it by the decompressing loop.
   */
  lemma EventComesApart(x: Byte, stop: Handler)
    requires x != LF && x != CR && forall s :: !stop(s)
    ensures var z, chunks := Script(Half(x), OtherHalf(x)), [D.GZIP_MAGIC];
            SeenPlain(z, chunks, stop) == [[x, x]] && Seen(z, chunks, stop) == [[x]]
  {
    AnyTail(Half(x), OtherHalf(x));
    GivenInFull([Half(x)], OtherHalf(x), stop);
    MainOne(Half(x));
    HalfPending(x);
    HalfFinishes(x, 0);
    HalvesMeet(x);
    OtherHalfAlone(x);
  }

  lemma MainOne(out: Bytes)
    ensures Main(FRESH, [out]) == ParseOne(FRESH, out)
  {
    assert [out][1..] == [];
    var (events, p) := ParseOne(FRESH, out);
    assert events + [] == events;
  }

  /** A finished event and an unfinished one. */
  function OneAndAHalf(x: Byte): Bytes {
    PrintLine([x]) + ([] + [LF] + Half(x))
  }

  lemma OneAndAHalfScanned(x: Byte)
    requires x != LF && x != CR
    ensures Scan(OneAndAHalf(x)) == [Data([x]), Blank] && Rest(OneAndAHalf(x), LF) == Half(x)
  {
    HalfPending(x);
    EventInFrontScanned(x, Half(x));
    assert [Data([x]), Blank] + [] == [Data([x]), Blank];
  }

  lemma EventInFrontScanned(x: Byte, more: Bytes)
    requires x != LF && x != CR
    ensures var chunk := PrintLine([x]) + ([] + [LF] + more);
            Scan(chunk) == [Data([x]), Blank] + Scan(more) && Rest(chunk, LF) == Rest(more, LF)
  {
    ScanPrintedLine([x], [] + [LF] + more);
    ScanCons([], more);
    assert [DataKind([x])] + ([Blank] + Scan(more)) == [Data([x]), Blank] + Scan(more);
  }

  lemma OneAndAHalfRead(x: Byte)
    requires x != LF && x != CR
    ensures TailPushed(OneAndAHalf(x)) != [] && TailFinished(OneAndAHalf(x)) != []
  {
    OneAndAHalfScanned(x);
    EventThenRest(x, OneAndAHalf(x), Half(x));
    HalfFinishes(x, 1);
  }

  lemma EventThenRest(x: Byte, tail: Bytes, rest: Bytes)
    requires Scan(tail) == [Data([x]), Blank] && Rest(tail, LF) == rest && |tail| <= 2 * MAX_LINE_BYTES
    ensures var (r, p) := Push(FRESH, tail); r.Ok? && r.events != [] && p == Parser(rest, Pending([], 1))
  {
    OneTaken(x);
    PushDone(tail, [[[x]]], Pending([], 1), rest);
  }

  lemma OneTaken(x: Byte)
    ensures TakeLines(FRESH.pending, [Data([x]), Blank]) == Done([[[x]]], Pending([], 1))
  {
    TakeTwo(FRESH.pending, Data([x]));
    var lines: Block := [] + [[x]];
    assert lines == [[x]] && [] + [lines] == [lines];
  }

  lemma PushDone(tail: Bytes, events: seq<Block>, pending: Pending, rest: Bytes)
    requires |tail| <= 2 * MAX_LINE_BYTES && Rest(tail, LF) == rest
    requires TakeLines(FRESH.pending, Scan(tail)) == Done(events, pending)
    ensures Push(FRESH, tail) == (Ok(Texts(events)), Parser(rest, pending))
  {
    assert [] + tail == tail;
  }

  /** A stream whose handler stops at the first event, in the tail, and is called for the second one all the same. */
  lemma StopInTailIgnored(x: Byte, stop: Handler)
    requires x != LF && x != CR && forall s :: stop(s)
    ensures var z, chunks := Script([], OneAndAHalf(x)), [D.GZIP_MAGIC];
            |SeenPlain(z, chunks, stop)| <= 1 < |Seen(z, chunks, stop)|
  {
    AnyTail([], OneAndAHalf(x));
    OneAndAHalfRead(x);
    MainOne([]);
  }

  // ---------------------------------------------------------------- streams that are not compressed after all

  /** As long as the encoding is undecided nothing has come out; once it is decided against gzip nothing is held. */
  lemma {:induction false} NotGzip<I>(z: D.Inflater<I>, d: D.Decompressor<I>, chunks: seq<Bytes>, p: Parser)
    requires d.Valid() && d.enabled && !d.detected.Gzip?
    requires d.detected.Undecided? ==> !D.IsGzip(d.held + Concat(chunks))
    ensures var e := D.After(z, d, chunks);
            && !e.detected.Gzip?
            && |Tail(z, d, chunks)| < 2
            && (Tail(z, d, chunks) != [] ==> Main(p, Decoded(z, d, chunks)) == ([], p))
    decreases |chunks|
  {
    if chunks != [] {
      var o, rest := D.Chunk(z, d, chunks[0]), Concat(chunks[1..]);
      D.ChunkKeepsValid(z, d, chunks[0]);
      D.FrontBytes(d.held, chunks[0], rest);
      NotGzip(z, o.next, chunks[1..], p);
      MainNext(p, o.out, Decoded(z, o.next, chunks[1..]));
      if o.next.detected.Identity? {
        IdentityHoldsNothing(z, o.next, chunks[1..]);
      } else {
        var none: seq<Bytes> := [];
        assert o.out == [] && none + none == none;
      }
    }
  }

  lemma {:induction false} IdentityHoldsNothing<I>(z: D.Inflater<I>, d: D.Decompressor<I>, chunks: seq<Bytes>)
    requires d.Valid() && d.enabled && d.detected.Identity?
    ensures Tail(z, d, chunks) == []
    decreases |chunks|
  {
    if chunks != [] {
      IdentityHoldsNothing(z, d, chunks[1..]);
    }
  }

  /** One byte is no event. */
  lemma OneByteTail(tail: Bytes)
    requires |tail| < 2
    ensures TailPushed(tail) == [] && TailFinished(tail) == [] && Push(FRESH, tail).0.Ok?
  {
    assert [] + tail == tail;
    if tail == [LF] {
      ScanNewline();
      assert [Blank][1..] == [];
    } else {
      FindNone(tail, LF);
      ScanNone(tail);
    }
  }

  lemma {:induction false} DecodedIsOutput<I>(z: D.Inflater<I>, d: D.Decompressor<I>, chunks: seq<Bytes>)
    requires d.Valid()
    ensures Concat(Decoded(z, d, chunks) + [Tail(z, d, chunks)]) == D.Output(z, d, chunks)
    decreases |chunks|
  {
    var tail := Tail(z, d, chunks);
    var alone: seq<Bytes> := [tail];
    assert alone[1..] == [] && Concat(alone) == tail + [] == tail;
    if chunks == [] {
      assert [] + [tail] == [tail];
    } else {
      var o := D.Chunk(z, d, chunks[0]);
      var later := DecodedCons(z, d, chunks);
      DecodedIsOutput(z, o.next, chunks[1..]);
      assert ([o.out] + later)[1..] == later;
    }
  }

  /** The size of the first piece that is handed on: chunks are held back until they make two bytes. */
  function FirstPiece(held: Bytes, chunks: seq<Bytes>): nat
    decreases |chunks|
  {
    if chunks == [] then |held|
    else if |held + chunks[0]| < 2 then FirstPiece(held + chunks[0], chunks[1..])
    else |held + chunks[0]|
  }

  lemma PushAllCons(p: Parser, chunk: Bytes, chunks: seq<Bytes>)
    ensures var (r, p1) := Push(p, chunk);
            var (r2, p2) := PushAll(p1, chunks);
            PushAll(p, [chunk] + chunks) ==
            if r.Err? then (r, p1) else (if r2.Ok? then Ok(r.events + r2.events) else r2, p2)
  {
    assert ([chunk] + chunks)[1..] == chunks;
  }

  /** Two accepted pushes can be one, if it fits. */
  lemma PushJoined(p: Parser, a: Bytes, b: Bytes, chunks: seq<Bytes>)
    requires Settled(p) && PushAll(p, [a] + ([b] + chunks)).0.Ok? && |p.buffer| + |a + b| <= 2 * MAX_LINE_BYTES
    ensures PushAll(p, [a + b] + chunks).0.Ok?
  {
    PushAllCons(p, a, [b] + chunks);
    var p1 := Push(p, a).1;
    PushAllCons(p1, b, chunks);
    PushSettles(p, a);
    DrainTwice(p, a, b, Push(p, a).0.events, p1);
    PushAllCons(p, a + b, chunks);
  }

  lemma PushNothing(p: Parser, chunks: seq<Bytes>)
    requires Settled(p)
    ensures PushAll(p, [[]] + chunks).0.Ok? <==> PushAll(p, chunks).0.Ok?
  {
    PushAllCons(p, [], chunks);
    PushSettles(p, []);
  }

  lemma {:induction false} PushNothingLast(p: Parser, chunks: seq<Bytes>)
    requires Settled(p)
    ensures PushAll(p, chunks + [[]]).0.Ok? <==> PushAll(p, chunks).0.Ok?
    decreases |chunks|
  {
    if chunks == [] {
      PushNothing(p, []);
      assert [[]] + chunks == chunks + [[]];
    } else {
      assert chunks + [[]] == [chunks[0]] + (chunks[1..] + [[]]) && chunks == [chunks[0]] + chunks[1..];
      PushAllCons(p, chunks[0], chunks[1..] + [[]]);
      PushAllCons(p, chunks[0], chunks[1..]);
      PushSettles(p, chunks[0]);
      if Push(p, chunks[0]).0.Ok? {
        PushNothingLast(Push(p, chunks[0]).1, chunks[1..]);
      }
    }
  }

  lemma {:induction false} IdentityDecodes<I>(z: D.Inflater<I>, d: D.Decompressor<I>, chunks: seq<Bytes>)
    requires d.Valid() && d.enabled && d.detected.Identity?
    ensures Decoded(z, d, chunks) == chunks
    decreases |chunks|
  {
    if chunks != [] {
      IdentityDecodes(z, d, chunks[1..]);
    }
  }

  lemma DecodedCons<I>(z: D.Inflater<I>, d: D.Decompressor<I>, chunks: seq<Bytes>) returns (later: seq<Bytes>)
    requires d.Valid() && chunks != []
    ensures var o := D.Chunk(z, d, chunks[0]);
            && o.next.Valid()
            && later == Decoded(z, o.next, chunks[1..]) + [Tail(z, o.next, chunks[1..])]
            && Decoded(z, d, chunks) + [Tail(z, d, chunks)] == [o.out] + later
  {
    var o := D.Chunk(z, d, chunks[0]);
    D.ChunkKeepsValid(z, d, chunks[0]);
    later := Decoded(z, o.next, chunks[1..]) + [Tail(z, o.next, chunks[1..])];
  }

  /** What an undecided decompressor makes of a chunk of a stream that is not gzip. */
  lemma ChunkHeld<I>(z: D.Inflater<I>, d: D.Decompressor<I>, chunk: Bytes, rest: Bytes)
    requires d.Valid() && d.enabled && d.detected.Undecided? && !D.IsGzip(d.held + (chunk + rest))
    ensures var o := D.Chunk(z, d, chunk);
            if |d.held + chunk| < 2 then
              o.out == [] && o.next == d.(held := d.held + chunk) && !D.IsGzip(o.next.held + rest)
            else o.out == d.held + chunk && o.next.enabled && o.next.detected.Identity?
  {
    D.FrontBytes(d.held, chunk, rest);
  }

  lemma {:induction false} HeldAcceptedIff<I>(z: D.Inflater<I>, d: D.Decompressor<I>, chunks: seq<Bytes>)
    requires d.Valid() && d.enabled && d.detected.Undecided? && !D.IsGzip(d.held + Concat(chunks))
    requires PushAll(FRESH, [d.held] + chunks).0.Ok?
    ensures PushAll(FRESH, Decoded(z, d, chunks) + [Tail(z, d, chunks)]).0.Ok? <==>
            FirstPiece(d.held, chunks) <= 2 * MAX_LINE_BYTES
    decreases |chunks|, 1
  {
    if chunks == [] {
      assert [d.held] + chunks == [] + [d.held];
    } else {
      assert [d.held] + chunks == [d.held] + ([chunks[0]] + chunks[1..]);
      ChunkHeld(z, d, chunks[0], Concat(chunks[1..]));
      var later := DecodedCons(z, d, chunks);
      if |d.held + chunks[0]| < 2 {
        StillHeld(z, d, chunks, later);
      } else {
        FirstPieceAcceptedIff(z, D.Chunk(z, d, chunks[0]).next, d.held, chunks[0], chunks[1..]);
      }
    }
  }

  lemma {:induction false} StillHeld<I>(z: D.Inflater<I>, d: D.Decompressor<I>, chunks: seq<Bytes>, later: seq<Bytes>)
    requires d.Valid() && d.enabled && d.detected.Undecided? && chunks != [] && |d.held + chunks[0]| < 2
    requires PushAll(FRESH, [d.held] + ([chunks[0]] + chunks[1..])).0.Ok?
    requires var next := d.(held := d.held + chunks[0]);
             && !D.IsGzip(next.held + Concat(chunks[1..]))
             && later == Decoded(z, next, chunks[1..]) + [Tail(z, next, chunks[1..])]
    ensures PushAll(FRESH, [[]] + later).0.Ok? <==> FirstPiece(d.held, chunks) <= 2 * MAX_LINE_BYTES
    decreases |chunks|, 0
  {
    PushJoined(FRESH, d.held, chunks[0], chunks[1..]);
    HeldAcceptedIff(z, d.(held := d.held + chunks[0]), chunks[1..]);
    PushNothing(FRESH, later);
  }

  lemma FirstPieceAcceptedIff<I>(z: D.Inflater<I>, d: D.Decompressor<I>, held: Bytes, chunk: Bytes, rest: seq<Bytes>)
    requires d.Valid() && d.enabled && d.detected.Identity?
    requires PushAll(FRESH, [held] + ([chunk] + rest)).0.Ok?
    ensures PushAll(FRESH, [held + chunk] + (Decoded(z, d, rest) + [Tail(z, d, rest)])).0.Ok? <==>
            |held + chunk| <= 2 * MAX_LINE_BYTES
  {
    IdentityDecodes(z, d, rest);
    IdentityHoldsNothing(z, d, rest);
    AppendAssoc([held + chunk], rest, [[]]);
    PushNothingLast(FRESH, [held + chunk] + rest);
    if |held + chunk| <= 2 * MAX_LINE_BYTES {
      PushJoined(FRESH, held, chunk, rest);
    } else {
      PushAllCons(FRESH, held + chunk, rest);
    }
  }

  /** A stream that is not gzip and the plain loop accepts: the other loop refuses nothing iff the first piece fits. */
  lemma PlainStreamAcceptedIff<I>(z: D.Inflater<I>, chunks: seq<Bytes>)
    requires !D.IsGzip(Concat(chunks)) && PushAll(FRESH, chunks).0.Ok?
    ensures PushAll(FRESH, Decoded(z, D.New(true), chunks) + [Tail(z, D.New(true), chunks)]).0.Ok? <==>
            FirstPiece([], chunks) <= 2 * MAX_LINE_BYTES
  {
    assert [] + Concat(chunks) == Concat(chunks);
    PushNothing(FRESH, chunks);
    HeldAcceptedIff(z, D.New(true), chunks);
  }

  /**
    With decompression switched on and a stream that is not gzip, every handler sees what it would see with
    decompression off, for every chunking that the plain loop accepts and whose first piece fits.
   */
  lemma PlainStreamUnchanged<I>(z: D.Inflater<I>, chunks: seq<Bytes>, stop: Handler)
    requires !D.IsGzip(Concat(chunks)) && PushAll(FRESH, chunks).0.Ok?
    requires FirstPiece([], chunks) <= 2 * MAX_LINE_BYTES
    ensures Seen(z, chunks, stop) == Handled([], StreamEvents(FRESH, chunks), stop)
  {
    var d := D.New<I>(true);
    var decoded, tail := Decoded(z, d, chunks), Tail(z, d, chunks);
    PlainStreamAcceptedIff(z, chunks);
    assert [] + Concat(chunks) == Concat(chunks);
    NotGzip(z, d, chunks, FRESH);
    SmallTailHarmless(decoded, tail, stop);
    DecodedIsOutput(z, d, chunks);
    D.MagicIs(Concat(chunks));
    D.PassthroughIsIdentity(z, true, chunks);
    HandlerSeesSameEvents(chunks, decoded + [tail], stop);
  }

  /** No tail, or one byte after nothing: the loops agree for every handler. */
  lemma SmallTailHarmless(decoded: seq<Bytes>, tail: Bytes, stop: Handler)
    requires |tail| < 2 && (tail != [] ==> Main(FRESH, decoded) == ([], FRESH))
    ensures Given(decoded, tail, stop) == Handled([], StreamEvents(FRESH, decoded + [tail]), stop)
  {
    var (events, last) := Main(FRESH, decoded);
    OneByteTail(tail);
    MainIsStream(FRESH, decoded, tail);
    HandlerSeesDecodedIff(decoded, tail, stop);
    if tail == [] {
      PushSettles(last, []);
      StreamTailIs(last, tail);
      var none: seq<Bytes> := [];
      assert none + Finish(last).0 == Finish(last).0 && none + none + Finish(last).0 == Finish(last).0;
      TailAgreesIff(last, tail);
    } else {
      CleanReconciles(last, tail);
    }
  }

  /** The first chunk with anything in it brings two bytes. */
  predicate StartsWithTwo(chunks: seq<Bytes>) {
    chunks == [] || (if chunks[0] == [] then StartsWithTwo(chunks[1..]) else |chunks[0]| >= 2)
  }

  /** Then the first piece fits, and decompression makes no difference for any chunking that the plain loop accepts. */
  lemma {:induction false} FirstPieceFits(chunks: seq<Bytes>)
    requires PushAll(FRESH, chunks).0.Ok? && StartsWithTwo(chunks)
    ensures FirstPiece([], chunks) <= 2 * MAX_LINE_BYTES
    decreases |chunks|
  {
    if chunks != [] {
      assert chunks == [chunks[0]] + chunks[1..];
      var first := [] + chunks[0];
      assert first == chunks[0];
      if chunks[0] == [] {
        PushNothing(FRESH, chunks[1..]);
        FirstPieceFits(chunks[1..]);
      } else {
        PushAllCons(FRESH, chunks[0], chunks[1..]);
      }
    }
  }

  lemma PlainStreamStartingWithTwo<I>(z: D.Inflater<I>, chunks: seq<Bytes>, stop: Handler)
    requires !D.IsGzip(Concat(chunks)) && PushAll(FRESH, chunks).0.Ok? && StartsWithTwo(chunks)
    ensures Seen(z, chunks, stop) == Handled([], StreamEvents(FRESH, chunks), stop)
  {
    FirstPieceFits(chunks);
    PlainStreamUnchanged(z, chunks, stop);
  }

  function Newlines(n: nat): Bytes {
    if n == 0 then [] else [] + [LF] + Newlines(n - 1)
  }

  lemma {:induction false} NewlinesHarmless(n: nat)
    ensures |Newlines(n)| == n && NoLineTooLong(Scan(Newlines(n)))
  {
    if n == 0 {
      LinesNone<Byte>([], LF);
    } else {
      NewlinesHarmless(n - 1);
      ScanCons([], Newlines(n - 1));
    }
  }

  /** One event and empty lines, as many bytes as one push may bring. */
  function FullChunk(x: Byte): Bytes {
    PrintLine([x]) + ([] + [LF] + Newlines(2 * MAX_LINE_BYTES - 9))
  }

  lemma FullChunkRead(x: Byte)
    requires x != LF && x != CR
    ensures |FullChunk(x)| == 2 * MAX_LINE_BYTES
    ensures Push(FRESH, FullChunk(x)).0.Ok? && Push(FRESH, FullChunk(x)).0.events != []
  {
    NewlinesHarmless(2 * MAX_LINE_BYTES - 9);
    EventInFront(x, Newlines(2 * MAX_LINE_BYTES - 9));
  }

  lemma EventInFront(x: Byte, more: Bytes)
    requires x != LF && x != CR && NoLineTooLong(Scan(more)) && |more| + 9 <= 2 * MAX_LINE_BYTES
    ensures var chunk := PrintLine([x]) + ([] + [LF] + more);
            Push(FRESH, chunk).0.Ok? && Push(FRESH, chunk).0.events != []
  {
    var chunk := PrintLine([x]) + ([] + [LF] + more);
    EventInFrontScanned(x, more);
    assert [] + chunk == chunk;
    DataBytesFit(chunk);
    EventTaken(x, Scan(more));
  }

  lemma EventTaken(x: Byte, kinds: seq<Kind>)
    requires NoLineTooLong(kinds) && DataBytes([Data([x]), Blank] + kinds) <= MAX_EVENT_DATA_BYTES
    ensures var o := TakeLines(FRESH.pending, [Data([x]), Blank] + kinds); o.Done? && o.events != []
  {
    var head := [Data([x]), Blank];
    assert forall k | 2 <= k < |head + kinds| :: (head + kinds)[k] == kinds[k - 2];
    TakenIff(FRESH.pending, head + kinds);
    TakeTwo(FRESH.pending, Data([x]));
    TakeLinesAppend(FRESH.pending, head, kinds);
  }

  /**
    Where the first piece does not fit events get lost: an empty line, and then as large a chunk as the plain loop
    accepts, which the decompressing loop joins to it and has refused.
   */
  lemma FirstPieceLost<I>(z: D.Inflater<I>, x: Byte, stop: Handler)
    requires x != LF && x != CR
    ensures var chunks := [[LF]] + [FullChunk(x)];
            && PushAll(FRESH, chunks).0.Ok? && Handled([], StreamEvents(FRESH, chunks), stop) != []
            && Seen(z, chunks, stop) == []
  {
    var full := FullChunk(x);
    FullChunkRead(x);
    LinePushed();
    PushAllCons(FRESH, [LF], [full]);
    PushAllCons(FRESH, full, []);
    assert [full] + [] == [full];
    StreamTwo([LF], full);
    JoinedDecoded(z, full);
  }

  lemma LinePushed()
    ensures Push(FRESH, [LF]) == (Ok([]), FRESH)
  {
    assert [] + [LF] == [LF];
    ScanNewline();
    assert [Blank][1..] == [];
  }

  lemma StreamTwo(a: Bytes, b: Bytes)
    requires Push(FRESH, a) == (Ok([]), FRESH) && Push(FRESH, b).0.Ok? && Push(FRESH, b).0.events != []
    ensures StreamEvents(FRESH, [a] + [b]) != []
  {
    assert ([a] + [b])[1..] == [b];
  }

  lemma JoinedDecoded<I>(z: D.Inflater<I>, full: Bytes)
    requires |full| == 2 * MAX_LINE_BYTES
    ensures forall stop: Handler :: Seen(z, [[LF]] + [full], stop) == []
  {
    var d0 := D.New<I>(true);
    var chunks := [[LF]] + [full];
    assert chunks[1..] == [full] && [full][1..] == [] && [] + [LF] == [LF];
    var d1 := D.Chunk(z, d0, [LF]).next;
    var piece := [LF] + full;
    assert d1 == D.Decompressor(true, D.Undecided, [LF], D.New<I>(true).decoder);
    assert !D.IsGzip(piece) by {
      assert piece[..2][0] == LF;
    }
    var d2 := D.Chunk(z, d1, full).next;
    assert D.Chunk(z, d1, full).out == piece && d2.detected.Identity?;
    IdentityHoldsNothing(z, d2, []);
    assert Decoded(z, d2, []) == [];
    assert Decoded(z, d1, [full]) == [piece] + [];
    assert Decoded(z, d0, chunks) == [[]] + [piece];
    assert D.After(z, d0, chunks) == D.After(z, d1, [full]) == D.After(z, d2, []) == d2;
    MainOne(piece);
    MainNext(FRESH, [], [piece]);
    var none: seq<Bytes> := [];
    assert none + none == none && Main(FRESH, Decoded(z, d0, chunks)) == (none, FRESH);
  }
}
