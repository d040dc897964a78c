/**
  The event-stream format as it is written: lines of data, comments and other fields, ended by LF or CRLF.  What a
  stream says is defined on these lines alone, and the parser is held against it.
 */
module SseFormat {
  import opened ByteText
  import opened Lines
  import opened Sse
  import opened TailReading

  datatype Line =
    | Empty
    | DataField(spaced: bool, value: Bytes)           // "data:", with or without a space after the colon
    | BareData                                        // "data" without a colon
    | Comment(text: Bytes)                            // anything after a colon
    | BareField(name: Bytes)                          // another field without a colon
    | OtherField(name: Bytes, rest: Bytes)            // another field

  function Written(line: Line): Bytes {
    match line
    case Empty => []
    case DataField(spaced, value) => [100, 97, 116, 97] + [58] + (if spaced then [32] else []) + value
    case BareData => [100, 97, 116, 97]
    case Comment(text) => [58] + text
    case BareField(name) => name
    case OtherField(name, rest) => name + [58] + rest
  }

  predicate WellFormed(line: Line) {
    && 10 !in Written(line)
    && match line
       case DataField(spaced, value) => spaced || value == [] || value[0] != 32
       case BareField(name) => name != [] && 58 !in name && name != [100, 97, 116, 97]
       case OtherField(name, _) => name != [] && 58 !in name && name != [100, 97, 116, 97]
       case _ => true
  }

  /** A line with its end.  What ends in CR and then LF is ended by CRLF. */
  datatype Ended = Ended(line: Line, crlf: bool)

  predicate EndsInCr(s: Bytes) {
    s != [] && s[|s| - 1] == 13
  }

  predicate WellEnded(e: Ended) {
    WellFormed(e.line) && (e.crlf || !EndsInCr(Written(e.line)))
  }

  /** The line up to its LF. */
  function Raw(e: Ended): Bytes {
    Written(e.line) + if e.crlf then [13] else []
  }

  /** The text of a stream: complete lines, and the line it breaks off in, if any. */
  function WrittenText(lines: seq<Ended>, last: Ended): Bytes
    decreases |lines|
  {
    if lines == [] then Raw(last) else Raw(lines[0]) + [10] + WrittenText(lines[1..], last)
  }

  /** The data values a line contributes. */
  function Values(line: Line): Block {
    match line
    case DataField(_, value) => [value]
    case BareData => [[]]
    case _ => []
  }

  /** The events: runs of values between empty lines, the last run ended by the end of the stream. */
  function Said(values: Block, lines: seq<Line>): seq<Block>
    decreases |lines|
  {
    if lines == [] then (if values == [] then [] else [values])
    else if lines[0].Empty? then (if values == [] then [] else [values]) + Said([], lines[1..])
    else Said(values + Values(lines[0]), lines[1..])
  }

  function LinesOf(lines: seq<Ended>, last: Ended): seq<Line> {
    seq(|lines|, i requires 0 <= i < |lines| => lines[i].line) + [last.line]
  }

  // ---------------------------------------------------------------- one line

  /** What the parser is to make of a line. */
  function KindOf(line: Line): Kind {
    match line
    case Empty => Blank
    case DataField(_, value) => Data(value)
    case BareData => Data([])
    case _ => Ignored
  }

  lemma RawStripped(e: Ended)
    requires WellEnded(e)
    ensures StripCr(Raw(e)) == Written(e.line) && LF !in Raw(e)
  {
    assert Written(e.line) + [] == Written(e.line);
  }

  lemma WrittenParts(line: Line)
    requires WellFormed(line) && line != Empty
    ensures Written(line) != []
    ensures IsData(Written(line)) <==> KindOf(line).Data?
    ensures KindOf(line).Data? ==> ValueOf(Written(line)) == KindOf(line).value
  {
    var s := Written(line);
    match line
    case DataField(spaced, value) =>
      var rest := (if spaced then [32] else []) + value;
      assert s == DATA + [COLON] + rest;
      FindAppend(DATA, COLON, rest);
      assert StripSpace(rest) == value;
    case BareData =>
      FindNone(s, COLON);
      assert s[..|s|] == s;
    case Comment(text) =>
      assert s[0] == COLON;
    case BareField(name) =>
      FindNone(s, COLON);
      assert s[..|s|] == s;
    case OtherField(name, rest) =>
      FindAppend(name, COLON, rest);
    case Empty =>
  }

  lemma ClassifyWritten(e: Ended)
    requires WellEnded(e)
    ensures Classify(Raw(e)) == if |Written(e.line)| > MAX_LINE_BYTES then TooLong else KindOf(e.line)
    ensures LastKind(Raw(e)) == if e.line.Empty? then Ignored else KindOf(e.line)
  {
    RawStripped(e);
    if e.line != Empty {
      WrittenParts(e.line);
    }
  }

  // ---------------------------------------------------------------- all lines

  function Kinds(lines: seq<Ended>): seq<Kind> {
    seq(|lines|, i requires 0 <= i < |lines| => Classify(Raw(lines[i])))
  }

  lemma {:induction false} ScanWritten(lines: seq<Ended>, last: Ended)
    requires WellEnded(last) && forall e | e in lines :: WellEnded(e)
    ensures Scan(WrittenText(lines, last)) == Kinds(lines) && Rest(WrittenText(lines, last), LF) == Raw(last)
    decreases |lines|
  {
    if lines == [] {
      RawStripped(last);
      ScanOpen(Raw(last));
    } else {
      ScanWritten(lines[1..], last);
      RawStripped(lines[0]);
      ScanCons(Raw(lines[0]), WrittenText(lines[1..], last));
      KindsNext(lines);
    }
  }

  lemma ScanOpen(raw: Bytes)
    requires LF !in raw
    ensures Scan(raw) == [] && Rest(raw, LF) == raw
  {
    FindNone(raw, LF);
    ScanNone(raw);
  }

  lemma KindsNext(lines: seq<Ended>)
    requires lines != []
    ensures Kinds(lines) == [Classify(Raw(lines[0]))] + Kinds(lines[1..])
  {
  }

  lemma {:induction false} GroupIsSaid(values: Block, lines: seq<Ended>, last: Ended)
    requires WellEnded(last) && forall e | e in lines :: WellEnded(e)
    requires NoLineTooLong(Kinds(lines))
    ensures Group(values, Kinds(lines) + [LastKind(Raw(last))]) == Said(values, LinesOf(lines, last))
    decreases |lines|
  {
    var final := [LastKind(Raw(last))];
    if lines == [] {
      ClassifyWritten(last);
      assert Kinds(lines) + final == final && LinesOf(lines, last) == [last.line];
      LastSaid(values, last.line);
    } else {
      var line, rest := lines[0].line, lines[1..];
      ClassifyWritten(lines[0]);
      KindsNext(lines);
      assert !Kinds(lines)[0].TooLong?;
      assert forall k | 0 <= k < |Kinds(rest)| :: Kinds(rest)[k] == Kinds(lines)[k + 1];
      GroupIsSaid(if line.Empty? then [] else values + Values(line), rest, last);
      AppendAssoc([KindOf(line)], Kinds(rest), final);
      LinesOfNext(lines, last);
      NextSaid(values, line, Kinds(rest) + final, LinesOf(rest, last));
    }
  }

  lemma LinesOfNext(lines: seq<Ended>, last: Ended)
    requires lines != []
    ensures LinesOf(lines, last) == [lines[0].line] + LinesOf(lines[1..], last)
  {
  }

  lemma LastSaid(values: Block, line: Line)
    ensures Group(values, [if line.Empty? then Ignored else KindOf(line)]) == Said(values, [line])
  {
    var kinds := [if line.Empty? then Ignored else KindOf(line)];
    assert kinds[1..] == [] && [line][1..] == [] && values + [] == values;
  }

  lemma NextSaid(values: Block, line: Line, kinds: seq<Kind>, lines: seq<Line>)
    requires Group(if line.Empty? then [] else values + Values(line), kinds) ==
             Said(if line.Empty? then [] else values + Values(line), lines)
    ensures Group(values, [KindOf(line)] + kinds) == Said(values, [line] + lines)
  {
    assert ([KindOf(line)] + kinds)[1..] == kinds && ([line] + lines)[1..] == lines && values + [] == values;
  }

  /**
    For every stream of lines, whatever their fields, spacing and ends, under any chunking that no push refuses: the
    events are exactly what the lines say, the values of the data lines between empty lines joined by LF; comments and
    other fields say nothing, and the line and event in which the stream breaks off count.
   */
  lemma ParserReadsFormat(lines: seq<Ended>, last: Ended, chunks: seq<Bytes>)
    requires WellEnded(last) && forall e | e in lines :: WellEnded(e)
    requires Concat(chunks) == WrittenText(lines, last) && PushAll(FRESH, chunks).0.Ok?
    ensures var (r, p) := PushAll(FRESH, chunks);
            r.events + Finish(p).0 == Texts(Said([], LinesOf(lines, last)))
  {
    var text, kinds := WrittenText(lines, last), Kinds(lines);
    assert [] + text == text;
    PushAllIsDrain(FRESH, chunks);
    ScanWritten(lines, last);
    var o := TakeLines(FRESH.pending, kinds);
    var final := [LastKind(Raw(last))];
    DoneHasNoLongLine(FRESH.pending, kinds);
    TakenIsGroup(FRESH.pending, kinds, final);
    GroupIsSaid([], lines, last);
    FinishIsGroup(Parser(Raw(last), o.pending));
    TextsAppend(o.events, Group(o.pending.lines, final));
  }

  // ---------------------------------------------------------------- every text is of this form

  lemma AnyLine(raw: Bytes) returns (e: Ended)
    requires 10 !in raw
    ensures WellEnded(e) && Raw(e) == raw
  {
    var crlf := EndsInCr(raw);
    var s := if crlf then raw[..|raw| - 1] else raw;
    var line := ReadLine(s);
    e := Ended(line, crlf);
    assert raw == s + if crlf then [13] else [];
  }

  lemma ReadLine(s: Bytes) returns (line: Line)
    requires 10 !in s
    ensures WellFormed(line) && Written(line) == s
  {
    var i := Find(s, 58);
    FindFirst(s, 58);
    if s == [] {
      line := Empty;
    } else if i == 0 {
      line := Comment(s[1..]);
    } else if i == |s| {
      assert s[..i] == s;
      line := if s == [100, 97, 116, 97] then BareData else BareField(s);
    } else {
      var name, rest := s[..i], s[i + 1..];
      assert s == name + [58] + rest;
      if name == [100, 97, 116, 97] {
        line := ReadData(rest);
      } else {
        line := OtherField(name, rest);
      }
    }
  }

  lemma ReadData(rest: Bytes) returns (line: Line)
    requires 10 !in rest
    ensures WellFormed(line) && Written(line) == [100, 97, 116, 97] + [58] + rest
  {
    if rest != [] && rest[0] == 32 {
      line := DataField(true, rest[1..]);
      assert rest == [32] + rest[1..];
    } else {
      line := DataField(false, rest);
    }
    assert Written(line) == [100, 97, 116, 97] + [58] + rest;
  }

  lemma WrittenNext(first: Ended, lines: seq<Ended>, last: Ended)
    ensures WrittenText([first] + lines, last) == Raw(first) + [10] + WrittenText(lines, last)
  {
    assert ([first] + lines)[1..] == lines;
  }

  /** So the law speaks about every stream. */
  lemma {:induction false} AnyText(text: Bytes) returns (lines: seq<Ended>, last: Ended)
    ensures WellEnded(last) && (forall e | e in lines :: WellEnded(e)) && WrittenText(lines, last) == text
    decreases |text|
  {
    if 10 in text {
      var head, rest := SplitFirst(text);
      var first := AnyLine(head);
      lines, last := AnyText(rest);
      WrittenNext(first, lines, last);
      lines := [first] + lines;
    } else {
      last := AnyLine(text);
      lines := [];
    }
  }

  lemma SplitFirst(text: Bytes) returns (head: Bytes, rest: Bytes)
    requires 10 in text
    ensures text == head + [10] + rest && 10 !in head && |rest| < |text|
  {
    var i := Find(text, 10);
    FindFirst(text, 10);
    FindNone(text, 10);
    head, rest := text[..i], text[i + 1..];
  }
}
