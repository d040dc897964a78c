/**
  What becomes of the flushed tail of a compressed stream.  The plain loop would go on with the parser it has; the
  decompressing loop gives the tail to a parser of its own, and finishes both.
 */
module TailReading {
  import opened ByteText
  import opened Lines
  import opened Sse

  /** What a fresh parser makes of the tail: on pushing it, and at its end. */
  function TailPushed(tail: Bytes): seq<Bytes> {
    var r := Push(FRESH, tail).0;
    if tail == [] || r.Err? then [] else r.events
  }

  function TailFinished(tail: Bytes): seq<Bytes> {
    if tail == [] then [] else Finish(Push(FRESH, tail).1).0
  }

  /** The events from the tail on: in the plain loop, and in the decompressing loop. */
  function StreamTail(p: Parser, tail: Bytes): seq<Bytes> {
    StreamEvents(p, [tail])
  }

  function LoopTail(p: Parser, tail: Bytes): seq<Bytes> {
    TailPushed(tail) + TailFinished(tail) + Finish(p).0
  }

  lemma StreamTailIs(p: Parser, tail: Bytes)
    ensures var (r, p1) := Push(p, tail);
            StreamTail(p, tail) == if r.Ok? then r.events + Finish(p1).0 else []
  {
    assert [tail][0] == tail && [tail][1..] == [];
    var (r, p1) := Push(p, tail);
    assert StreamEvents(p1, []) == Finish(p1).0 && StreamEvents(FRESH, []) == Finish(FRESH).0 == [];
  }

  // ---------------------------------------------------------------- events without caps

  function NonEmpty(event: Block): seq<Block> {
    if event == [] then [] else [event]
  }

  /** The unfinished line at the end of a stream. */
  function LastKind(rest: Bytes): Kind {
    if IsData(StripCr(rest)) then Data(ValueOf(StripCr(rest))) else Ignored
  }

  /** The events of the lines up to the end of the stream, the first of them begun with `lines`. */
  function Group(lines: Block, kinds: seq<Kind>): seq<Block>
    decreases |kinds|
  {
    if kinds == [] then NonEmpty(lines)
    else match kinds[0]
      case Blank => NonEmpty(lines) + Group([], kinds[1..])
      case Data(value) => Group(lines + [value], kinds[1..])
      case _ => Group(lines, kinds[1..])
  }

  /** All lines of the tail, the first of them glued to `front`. */
  function TailKinds(front: Bytes, tail: Bytes): seq<Kind> {
    Scan(front + tail) + [LastKind(Rest(front + tail, LF))]
  }

  lemma {:induction false} TakenIsGroup(p: Pending, kinds: seq<Kind>, more: seq<Kind>)
    requires TakeLines(p, kinds).Done?
    ensures var o := TakeLines(p, kinds); Group(p.lines, kinds + more) == o.events + Group(o.pending.lines, more)
    decreases |kinds|
  {
    if kinds == [] {
      assert kinds + more == more;
    } else {
      var t := TakeLine(p, kinds[0]);
      assert (kinds + more)[0] == kinds[0] && (kinds + more)[1..] == kinds[1..] + more;
      TakenIsGroup(t.pending, kinds[1..], more);
      var o := TakeLines(t.pending, kinds[1..]);
      AppendAssoc(t.events, o.events, Group(o.pending.lines, more));
    }
  }

  lemma FinishIsGroup(p: Parser)
    ensures Finish(p).0 == Texts(Group(p.pending.lines, [LastKind(p.buffer)]))
  {
    var last := [LastKind(p.buffer)];
    assert last[1..] == [];
    assert NonEmpty([]) == [];
  }

  lemma StreamTailIsGroup(p: Parser, tail: Bytes)
    requires Push(p, tail).0.Ok?
    ensures StreamTail(p, tail) == Texts(Group(p.pending.lines, TailKinds(p.buffer, tail)))
  {
    var all := p.buffer + tail;
    var o := TakeLines(p.pending, Scan(all));
    StreamTailIs(p, tail);
    FinishIsGroup(Parser(Rest(all, LF), o.pending));
    TakenIsGroup(p.pending, Scan(all), [LastKind(Rest(all, LF))]);
    TextsAppend(o.events, Group(o.pending.lines, [LastKind(Rest(all, LF))]));
  }

  // ---------------------------------------------------------------- the first line of the tail

  /** The tail's first line, glued to `front`. */
  function FirstKind(front: Bytes, tail: Bytes): Kind {
    var i := Find(tail, LF);
    if i < |tail| then Classify(front + tail[..i]) else LastKind(front + tail)
  }

  /** Its other lines. */
  function Others(tail: Bytes): seq<Kind> {
    var i := Find(tail, LF);
    if i < |tail| then TailKinds([], tail[i + 1..]) else []
  }

  lemma TailKindsSplit(front: Bytes, tail: Bytes)
    requires LF !in front
    ensures TailKinds(front, tail) == [FirstKind(front, tail)] + Others(tail)
  {
    var i := Find(tail, LF);
    FindFirst(tail, LF);
    if i < |tail| {
      var line, more := front + tail[..i], tail[i + 1..];
      assert tail == tail[..i] + [LF] + more && front + tail == line + [LF] + more && [] + more == more;
      ScanCons(line, more);
    } else {
      FindNone(tail, LF);
      FindNone(front + tail, LF);
      ScanNone(front + tail);
    }
  }

  /** The data lines before the first empty line, and the lines after it. */
  function DataBefore(kinds: seq<Kind>): Block {
    if kinds == [] || kinds[0].Blank? then []
    else (if kinds[0].Data? then [kinds[0].value] else []) + DataBefore(kinds[1..])
  }

  function AfterBlank(kinds: seq<Kind>): seq<Kind> {
    if kinds == [] then [] else if kinds[0].Blank? then kinds[1..] else AfterBlank(kinds[1..])
  }

  /** The events that are over by the first empty line after line `first`, with the data lines in between. */
  function HeadOf(lines: Block, first: Kind, between: Block): seq<Block> {
    match first
    case Blank => NonEmpty(lines) + NonEmpty(between)
    case Data(value) => [lines + [value] + between]
    case _ => NonEmpty(lines + between)
  }

  lemma {:induction false} GroupSplit(lines: Block, kinds: seq<Kind>)
    ensures Group(lines, kinds) == NonEmpty(lines + DataBefore(kinds)) + Group([], AfterBlank(kinds))
    decreases |kinds|
  {
    if kinds == [] || kinds[0].Blank? {
      assert lines + [] == lines;
    } else {
      var now := if kinds[0].Data? then [kinds[0].value] else [];
      GroupSplit(lines + now, kinds[1..]);
      assert lines + [] == lines;
      AppendAssoc(lines, now, DataBefore(kinds[1..]));
    }
  }

  lemma GroupFirst(lines: Block, first: Kind, kinds: seq<Kind>)
    ensures Group(lines, [first] + kinds) == HeadOf(lines, first, DataBefore(kinds)) + Group([], AfterBlank(kinds))
  {
    assert ([first] + kinds)[1..] == kinds;
    var later, between := Group([], AfterBlank(kinds)), DataBefore(kinds);
    match first
    case Blank =>
      GroupSplit([], kinds);
      assert [] + between == between;
      AppendAssoc(NonEmpty(lines), NonEmpty(between), later);
    case Data(value) => GroupSplit(lines + [value], kinds);
    case _ => GroupSplit(lines, kinds);
  }

  // ---------------------------------------------------------------- a tail that one parser takes, a fresh one takes

  lemma {:induction false} DoneHasNoLongLine(p: Pending, kinds: seq<Kind>)
    requires TakeLines(p, kinds).Done?
    ensures NoLineTooLong(kinds)
    decreases |kinds|
  {
    if kinds != [] {
      DoneHasNoLongLine(TakeLine(p, kinds[0]).pending, kinds[1..]);
      assert kinds == [kinds[0]] + kinds[1..];
    }
  }

  lemma DataFits(raw: Bytes)
    ensures Classify(raw).Data? ==> |Classify(raw).value| <= |raw|
  {
  }

  lemma {:induction false} DataBytesFit(buffer: Bytes)
    ensures DataBytes(Scan(buffer)) <= |buffer|
    decreases |buffer|
  {
    var i := Find(buffer, LF);
    if i == |buffer| {
      ScanNone(buffer);
    } else {
      ScanNext(buffer, i);
      DataFits(buffer[..i]);
      DataBytesFit(buffer[i + 1..]);
      assert Scan(buffer)[1..] == Scan(buffer[i + 1..]);
    }
  }

  lemma ShorterLine(front: Bytes, line: Bytes)
    ensures !Classify(front + line).TooLong? ==> !Classify(line).TooLong?
  {
    if line != [] {
      assert (front + line)[|front + line| - 1] == line[|line| - 1];
      assert |StripCr(line)| <= |StripCr(front + line)|;
    }
  }

  lemma NoLongLineAlone(front: Bytes, tail: Bytes)
    requires LF !in front && NoLineTooLong(Scan(front + tail))
    ensures NoLineTooLong(Scan(tail))
  {
    var i := Find(tail, LF);
    FindFirst(tail, LF);
    if i < |tail| {
      var line, more := tail[..i], tail[i + 1..];
      assert tail == line + [LF] + more && front + tail == (front + line) + [LF] + more;
      ScanCons(front + line, more);
      ScanCons(line, more);
      ShorterLine(front, line);
      SameButFirst(Classify(front + line), Classify(line), Scan(more));
    } else {
      ScanNone(tail);
    }
  }

  lemma SameButFirst(a: Kind, b: Kind, kinds: seq<Kind>)
    requires NoLineTooLong([a] + kinds) && (!a.TooLong? ==> !b.TooLong?)
    ensures NoLineTooLong([b] + kinds)
  {
    assert ([a] + kinds)[0] == a;
    forall k | 0 <= k < |[b] + kinds| ensures !([b] + kinds)[k].TooLong? {
      assert k > 0 ==> ([b] + kinds)[k] == ([a] + kinds)[k];
    }
  }

  lemma FreshAccepts(p: Parser, tail: Bytes)
    requires LF !in p.buffer && Push(p, tail).0.Ok?
    ensures Push(FRESH, tail).0.Ok?
  {
    DoneHasNoLongLine(p.pending, Scan(p.buffer + tail));
    NoLongLineAlone(p.buffer, tail);
    DataBytesFit(tail);
    TakenIff(FRESH.pending, Scan(tail));
    assert [] + tail == tail;
  }

  // ---------------------------------------------------------------- when the two readings agree

  lemma {:induction false} Rotates<T>(x: T, events: seq<T>, z: T)
    ensures [x] + events == events + [z] <==> x == z && forall e | e in events :: e == z
  {
    if events == [] {
      assert [x] + events == [x] && events + [z] == [z];
      assert [x][0] == x && [z][0] == z;
    } else {
      var head, rest := events[0], events[1..];
      Rotates(head, rest, z);
      assert events == [head] + rest;
      if [x] + events == events + [z] {
        assert ([x] + events)[0] == x && (events + [z])[0] == head;
        assert ([x] + events)[1..] == events && (events + [z])[1..] == rest + [z];
      }
      if x == z && forall e | e in events :: e == z {
        assert head in events;
        forall e | e in rest ensures e == z {
          assert e in events;
        }
        assert [x] + events == [head] + (rest + [z]);
      }
    }
  }

  /** The same events behind two heads, with one more event at the end of one of them. */
  lemma HeadsDiffer<T>(h: seq<T>, g: seq<T>, events: seq<T>, z: seq<T>)
    requires |z| <= 1
    ensures h + events == g + events + z <==> h == g + z && (z == [] || forall e | e in events :: e == z[0])
  {
    if z == [] {
      assert g + events + z == g + events && g + z == g;
      if h + events == g + events {
        assert |h| == |g| && h == (h + events)[..|h|] == (g + events)[..|g|] == g;
      }
    } else {
      assert z == [z[0]];
      if h + events == g + events + z {
        assert |h| == |g| + 1;
        var x := h[|g|];
        assert h[..|g|] == (h + events)[..|g|] == (g + events + z)[..|g|] == g;
        assert h == g + [x];
        assert [x] + events == (h + events)[|g|..] && (g + events + z)[|g|..] == events + [z[0]];
        Rotates(x, events, z[0]);
      }
      if h == g + z && forall e | e in events :: e == z[0] {
        Rotates(z[0], events, z[0]);
        assert h + events == g + (z + events) && g + events + z == g + (events + z);
      }
    }
  }

  /** The events that are over by the first empty line after the tail's first line, which is glued to `front`. */
  function Head(lines: Block, front: Bytes, tail: Bytes): seq<Bytes> {
    Texts(HeadOf(lines, FirstKind(front, tail), DataBefore(Others(tail))))
  }

  /** The events after that, which do not depend on what came before the tail. */
  function Later(tail: Bytes): seq<Bytes> {
    Texts(Group([], AfterBlank(Others(tail))))
  }

  /**
    The leftovers of the parser are the event it would still dispatch, if any.  Up to the first empty line, reading on
    must give what the tail gives alone and then the leftovers; and every later event must equal the leftovers, which
    come last in one loop and first in the other.  A tail that the parser refuses must hold no event, and no leftovers
    be there.
   */
  predicate Reconciles(p: Parser, tail: Bytes) {
    var leftovers := Finish(p).0;
    if Push(p, tail).0.Ok? then
      && Head(p.pending.lines, p.buffer, tail) == Head([], [], tail) + leftovers
      && (leftovers == [] || forall e | e in Later(tail) :: e == leftovers[0])
    else
      leftovers == [] && TailPushed(tail) == [] && TailFinished(tail) == []
  }

  lemma GlueIsHead(lines: Block, front: Bytes, tail: Bytes)
    requires LF !in front
    ensures Texts(Group(lines, TailKinds(front, tail))) == Head(lines, front, tail) + Later(tail)
  {
    TailKindsSplit(front, tail);
    GroupFirst(lines, FirstKind(front, tail), Others(tail));
    TextsAppend(HeadOf(lines, FirstKind(front, tail), DataBefore(Others(tail))), Group([], AfterBlank(Others(tail))));
  }

  /** What a fresh parser finds in an accepted tail. */
  lemma AloneIsHead(tail: Bytes)
    requires Push(FRESH, tail).0.Ok?
    ensures TailPushed(tail) + TailFinished(tail) == Head([], [], tail) + Later(tail)
  {
    GlueIsHead([], [], tail);
    StreamTailIsGroup(FRESH, tail);
    StreamTailIs(FRESH, tail);
    if tail == [] {
      assert FindFrom(tail, LF, 0) == 0;
    }
  }

  /**
    For every parser between two pushes and every tail: the two loops produce the same events from the tail on if and
    only if the tail reconciles with what the parser holds.
   */
  lemma TailAgreesIff(p: Parser, tail: Bytes)
    requires LF !in p.buffer
    ensures LoopTail(p, tail) == StreamTail(p, tail) <==> Reconciles(p, tail)
  {
    StreamTailIs(p, tail);
    if Push(p, tail).0.Ok? {
      FreshAccepts(p, tail);
      AloneIsHead(tail);
      StreamTailIsGroup(p, tail);
      GlueIsHead(p.pending.lines, p.buffer, tail);
      HeadsDiffer(Head(p.pending.lines, p.buffer, tail), Head([], [], tail), Later(tail), Finish(p).0);
    }
  }

  // ---------------------------------------------------------------- parsers at the end of a line

  /** Between two events. */
  predicate Clean(p: Parser) {
    p.buffer == [] && p.pending.lines == []
  }

  /** A parser between two events reconciles with every tail it accepts. */
  lemma CleanReconciles(p: Parser, tail: Bytes)
    requires Clean(p) && Push(p, tail).0.Ok?
    ensures Reconciles(p, tail) && Finish(p).0 == []
  {
    assert Head([], [], tail) + [] == Head([], [], tail);
  }

  /**
    A parser at the end of a line with data lines pending reconciles with a tail it accepts if and only if no data line
    of the tail comes before its first empty line and every event in the tail equals the pending one.
   */
  lemma PendingReconcilesIff(p: Parser, tail: Bytes)
    requires p.buffer == [] && p.pending.lines != [] && Push(p, tail).0.Ok?
    ensures Reconciles(p, tail) <==>
            && DataBefore(TailKinds([], tail)) == []
            && forall e | e in TailPushed(tail) + TailFinished(tail) :: e == Text(p.pending.lines)
  {
    var lines, first, between := p.pending.lines, FirstKind([], tail), DataBefore(Others(tail));
    FreshAccepts(p, tail);
    AloneIsHead(tail);
    TailKindsSplit([], tail);
    assert ([first] + Others(tail))[1..] == Others(tail);
    assert Finish(p).0 == [Text(lines)];
    PendingHead(lines, first, between);
    assert forall e :: e in Head([], [], tail) + Later(tail) <==> e in Head([], [], tail) || e in Later(tail);
  }

  lemma PendingHead(lines: Block, first: Kind, between: Block)
    requires lines != []
    ensures Texts(HeadOf(lines, first, between)) == Texts(HeadOf([], first, between)) + [Text(lines)] <==>
            && (first.Blank? || (!first.Data? && between == []))
            && forall e | e in Texts(HeadOf([], first, between)) :: e == Text(lines)
  {
    var glued, alone := Texts(HeadOf(lines, first, between)), Texts(HeadOf([], first, between));
    match first
    case Blank =>
      if between == [] {
        assert glued == [Text(lines)] && alone == [];
      } else {
        assert glued == [Text(lines), Text(between)] && alone == [Text(between)];
        assert Text(between) in alone;
        assert (alone + [Text(lines)])[0] == Text(between) && glued[0] == Text(lines);
      }
    case Data(value) =>
      assert |glued| == |alone|;
    case _ =>
      assert [] + between == between && lines + [] == lines;
      assert |glued| == 1;
      if between == [] {
        assert glued == [Text(lines)] && alone == [];
      }
  }
}
