/**
  The unified-diff reader, `parse_unified_diff_patch`, down to the characters of the hunk header.

  A diff is printed from an edit script, which also says what the new file is; so the line numbers the reader reports
  can be held against the file itself.
 */
module UnifiedDiff {
  import opened Wrappers
  import opened Lines
  import opened Text

  const USIZE_MAX: nat := 0xFFFF_FFFF_FFFF_FFFF

  // ---------------------------------------------------------------- text

  /** The length of the word in front. */
  function WordLength(s: string): (n: nat)
    ensures n <= |s|
  {
    if s == "" || IsWhitespace(s[0]) then 0 else 1 + WordLength(s[1..])
  }

  function SplitWhitespace(s: string): seq<string>
    decreases |s|
  {
    if s == "" then []
    else if IsWhitespace(s[0]) then SplitWhitespace(s[1..])
    else [s[..WordLength(s)]] + SplitWhitespace(s[WordLength(s)..])
  }

  /** `str::lines`: LF ends a line, with an optional CR before it; an unfinished last line counts if it has text. */
  function TextLines(text: string): seq<string> {
    var ended := Complete(text, '\n');
    seq(|ended|, i requires 0 <= i < |ended| => StripCr(ended[i]))
    + (if Rest(text, '\n') == "" then [] else [Rest(text, '\n')])
  }

  function StripCr(line: string): string {
    StripEnd(line, '\r')
  }

  predicate AllDigits(s: string) {
    forall i | 0 <= i < |s| :: '0' <= s[i] <= '9'
  }

  function Value(s: string): nat
    requires AllDigits(s)
  {
    if s == "" then 0 else Value(s[..|s| - 1]) * 10 + (s[|s| - 1] as int - '0' as int)
  }

  function ParseUsize(s: string): Option<nat> {
    if s != "" && AllDigits(s) && Value(s) <= USIZE_MAX then Some(Value(s)) else None
  }

  // ---------------------------------------------------------------- the reader

  predicate IsHunkHeader(line: string) {
    StartsWith(line, "@@ -") && Contains(line, " @@")
  }

  /** The first part that starts with a plus, or "+0". */
  function PlusPart(parts: seq<string>): string {
    if parts == [] then "+0" else if StartsWith(parts[0], "+") then parts[0] else PlusPart(parts[1..])
  }

  function TrimPluses(s: string): string {
    if StartsWith(s, "+") then TrimPluses(s[1..]) else s
  }

  /** The new-file line number a header gives; zero and garbage give none. */
  function HeaderTarget(line: string): Option<nat> {
    var target := TrimPluses(PlusPart(SplitWhitespace(line)));
    var n := ParseUsize(target[..Find(target, ',')]);
    if n.Some? && n.value > 0 then n else None
  }

  function NextLine(n: nat): nat {
    if n < USIZE_MAX then n + 1 else n
  }

  /** What the reader makes of a line. */
  datatype Kind = Header(target: Option<nat>) | Plus(rest: string) | Space | Ignored

  function Classify(line: string): Kind {
    if IsHunkHeader(line) then
      if |SplitWhitespace(line)| >= 2 then Header(HeaderTarget(line)) else Ignored
    else if StartsWith(line, "+") then Plus(line[1..])
    else if StartsWith(line, " ") then Space
    else Ignored
  }

  function ClassifyAll(lines: seq<string>): seq<Kind> {
    seq(|lines|, i requires 0 <= i < |lines| => Classify(lines[i]))
  }

  /** The running line number and the added lines found so far, not yet trimmed. */
  datatype Reader = Reader(base: Option<nat>, patched: seq<(nat, string)>)

  function Trimmed(pairs: seq<(nat, string)>): seq<(nat, string)> {
    seq(|pairs|, i requires 0 <= i < |pairs| => (pairs[i].0, TrimEnd(pairs[i].1)))
  }

  function Step(r: Reader, line: Kind): Reader {
    match line
    case Header(target) => r.(base := target)
    case Plus(rest) =>
      if r.base.None? then r
      else Reader(Some(NextLine(r.base.value)), r.patched + [(r.base.value, rest)])
    case Space => if r.base.None? then r else r.(base := Some(NextLine(r.base.value)))
    case Ignored => r
  }

  function Read(r: Reader, lines: seq<Kind>): Reader
    decreases |lines|
  {
    if lines == [] then r else Read(Step(r, lines[0]), lines[1..])
  }

  const START := Reader(None, [])

  /** The line and new-file number pairs that a text yields. */
  function Patched(text: string): seq<(nat, string)> {
    Trimmed(Read(START, ClassifyAll(TextLines(text))).patched)
  }

  method ParseUnifiedDiffPatch(instruction: string) returns (result: Option<seq<(nat, string)>>)
    ensures result == if Patched(instruction) == [] then None else Some(Patched(instruction))
  {
    var lines := TextLines(instruction);
    var patched: seq<(nat, string)> := [];
    var base: Option<nat> := None;
    ghost var kinds, found := ClassifyAll(lines), [];
    for i := 0 to |lines|
      invariant patched == Trimmed(found)
      invariant Read(START, kinds) == Read(Reader(base, found), kinds[i..])
    {
      var line := lines[i];
      assert kinds[i..][0] == Classify(line) && kinds[i..][1..] == kinds[i + 1..];
      if IsHunkHeader(line) {
        if |SplitWhitespace(line)| >= 2 {
          base := HeaderTarget(line);
        }
      } else if StartsWith(line, "+") {
        if base.Some? {
          patched := patched + [(base.value, TrimEnd(line[1..]))];
          found := found + [(base.value, line[1..])];
          base := Some(NextLine(base.value));
        }
      } else if StartsWith(line, " ") {
        if base.Some? {
          base := Some(NextLine(base.value));
        }
      }
    }
    result := if patched == [] then None else Some(patched);
  }

  // ---------------------------------------------------------------- edit scripts

  datatype BodyLine =
    | Context(text: string)
    | Added(text: string)
    | Removed(text: string)
    | NoNewline               // the "no newline at end of file" marker

  /** A stretch of unchanged lines that the diff does not show, or a hunk with an optional section heading. */
  datatype Segment = Gap(lines: seq<string>) | Hunk(body: seq<BodyLine>, counts: bool, section: string)

  /** A line of the new file, and whether the script added it. */
  datatype FileLine = FileLine(text: string, added: bool)

  function NewPart(b: BodyLine): seq<FileLine> {
    match b
    case Context(text) => [FileLine(text, false)]
    case Added(text) => [FileLine(text, true)]
    case _ => []
  }

  function NewSide(body: seq<BodyLine>): seq<FileLine> {
    if body == [] then [] else NewPart(body[0]) + NewSide(body[1..])
  }

  function OldSide(body: seq<BodyLine>): seq<string> {
    if body == [] then []
    else (if body[0].Context? || body[0].Removed? then [body[0].text] else []) + OldSide(body[1..])
  }

  function Unchanged(lines: seq<string>): (r: seq<FileLine>)
    ensures |r| == |lines|
  {
    seq(|lines|, i requires 0 <= i < |lines| => FileLine(lines[i], false))
  }

  function NewLines(s: Segment): seq<FileLine> {
    if s.Gap? then Unchanged(s.lines) else NewSide(s.body)
  }

  function OldLines(s: Segment): seq<string> {
    if s.Gap? then s.lines else OldSide(s.body)
  }

  function NewParts(script: seq<Segment>): seq<seq<FileLine>> {
    seq(|script|, i requires 0 <= i < |script| => NewLines(script[i]))
  }

  function NewFile(script: seq<Segment>): seq<FileLine> {
    Concat(NewParts(script))
  }

  lemma NewFileCons(s: Segment, rest: seq<Segment>)
    ensures NewFile([s] + rest) == NewLines(s) + NewFile(rest)
  {
    assert NewParts([s] + rest)[1..] == NewParts(rest);
  }

  function Decimal(n: nat): string {
    if n < 10 then [DigitChar(n)] else Decimal(n / 10) + [DigitChar(n % 10)]
  }

  function DigitChar(d: nat): char
    requires d < 10
  {
    (d + '0' as int) as char
  }

  /** `start,count`, or `start` alone.  A range without lines starts at the line before it. */
  function PrintRange(before: nat, count: nat, counts: bool): string {
    Decimal(if count > 0 then before + 1 else before) + (if counts then "," + Decimal(count) else "")
  }

  function PrintHeader(oldBefore: nat, newBefore: nat, h: Segment): string
    requires h.Hunk?
  {
    HeaderLine(PrintRange(oldBefore, |OldSide(h.body)|, h.counts), PrintRange(newBefore, |NewSide(h.body)|, h.counts),
               h.section)
  }

  function HeaderLine(oldRange: string, newRange: string, section: string): string {
    "@@" + " " + ("-" + oldRange + " " + ("+" + newRange + " " + ("@@" + section)))
  }

  function PrintBodyLine(b: BodyLine): string {
    match b
    case Context(text) => " " + text
    case Added(text) => "+" + text
    case Removed(text) => "-" + text
    case NoNewline => "\\ No newline at end of file"
  }

  function PrintBody(body: seq<BodyLine>): seq<string> {
    if body == [] then [] else [PrintBodyLine(body[0])] + PrintBody(body[1..])
  }

  /** A segment with the number of old and new lines before it. */
  datatype Placed = Placed(segment: Segment, oldBefore: nat, newBefore: nat)

  function Layout(script: seq<Segment>, oldBefore: nat, newBefore: nat): seq<Placed>
    decreases |script|
  {
    if script == [] then []
    else
      var s := script[0];
      [Placed(s, oldBefore, newBefore)]
      + Layout(script[1..], oldBefore + |OldLines(s)|, newBefore + |NewLines(s)|)
  }

  /** A hunk is its header and body; a gap is not shown. */
  function PrintSegment(p: Placed): seq<string> {
    if p.segment.Gap? then []
    else [PrintHeader(p.oldBefore, p.newBefore, p.segment)] + PrintBody(p.segment.body)
  }

  function PrintSegments(layout: seq<Placed>): seq<seq<string>> {
    seq(|layout|, i requires 0 <= i < |layout| => PrintSegment(layout[i]))
  }

  /** The lines of the unified diff of a script. */
  function PrintScript(script: seq<Segment>): seq<string> {
    Concat(PrintSegments(Layout(script, 0, 0)))
  }

  /** The added lines of a file whose first line has number `n`, each with its number. */
  function Additions(file: seq<FileLine>, n: nat): seq<(nat, string)>
    decreases |file|
  {
    if file == [] then []
    else (if file[0].added then [(n, file[0].text)] else []) + Additions(file[1..], n + 1)
  }

  lemma {:induction false} AdditionsAppend(a: seq<FileLine>, b: seq<FileLine>, n: nat)
    ensures Additions(a + b, n) == Additions(a, n) + Additions(b, n + |a|)
    decreases |a|
  {
    if a == [] {
      assert a + b == b;
    } else {
      assert (a + b)[0] == a[0] && (a + b)[1..] == a[1..] + b;
      AdditionsAppend(a[1..], b, n + 1);
    }
  }

  lemma {:induction false} NoAdditions(file: seq<FileLine>, n: nat)
    requires forall f | f in file :: !f.added
    ensures Additions(file, n) == []
    decreases |file|
  {
    if file != [] {
      NoAdditions(file[1..], n + 1);
    }
  }

  // ---------------------------------------------------------------- reading back a header

  lemma {:induction false} DecimalDigits(n: nat)
    ensures Decimal(n) != "" && AllDigits(Decimal(n)) && Value(Decimal(n)) == n
  {
    if n >= 10 {
      DecimalDigits(n / 10);
      assert Decimal(n)[..|Decimal(n)| - 1] == Decimal(n / 10);
    } else {
      assert Decimal(n)[..0] == "";
      assert Value("") == 0;
    }
  }

  predicate IsWord(s: string) {
    s != "" && forall i | 0 <= i < |s| :: !IsWhitespace(s[i])
  }

  lemma {:induction false} WordInFront(word: string, rest: string)
    requires forall i | 0 <= i < |word| :: !IsWhitespace(word[i])
    ensures WordLength(word + " " + rest) == |word|
    decreases |word|
  {
    var s := word + " " + rest;
    if word != "" {
      assert s[0] == word[0] && s[1..] == word[1..] + " " + rest;
      WordInFront(word[1..], rest);
    }
  }

  lemma SplitWord(word: string, rest: string)
    requires IsWord(word)
    ensures SplitWhitespace(word + " " + rest) == [word] + SplitWhitespace(rest)
  {
    var s := word + " " + rest;
    WordInFront(word, rest);
    assert s[..|word|] == word;
    var tail := s[|word|..];
    assert tail[0] == ' ' && tail[1..] == rest;
  }

  lemma RangeIsWord(before: nat, count: nat, counts: bool)
    ensures IsWord(PrintRange(before, count, counts))
  {
    DecimalDigits(if count > 0 then before + 1 else before);
    DecimalDigits(count);
  }

  lemma RangeReadsBack(before: nat, count: nat, counts: bool)
    ensures var range := PrintRange(before, count, counts);
            var start := if count > 0 then before + 1 else before;
            range[..Find(range, ',')] == Decimal(start) && TrimPluses("+" + range) == range
  {
    var range := PrintRange(before, count, counts);
    var start := Decimal(if count > 0 then before + 1 else before);
    DecimalDigits(if count > 0 then before + 1 else before);
    assert ("+" + range)[1..] == range;
    assert !StartsWith(range, "+") by {
      assert range[0] == start[0];
    }
    assert ',' !in start;
    if counts {
      assert range == start + [','] + Decimal(count);
      FindAppend(start, ',', Decimal(count));
    } else {
      assert range == start;
      FindNone(range, ',');
      assert range[..|range|] == range;
    }
  }

  /** The line number a printed header names, if it is one. */
  function Target(newBefore: nat, count: nat): Option<nat> {
    var start := if count > 0 then newBefore + 1 else newBefore;
    if start > 0 then Some(start) else None
  }

  lemma HeaderReadsBack(oldBefore: nat, newBefore: nat, h: Segment)
    requires h.Hunk? && newBefore + |NewSide(h.body)| < USIZE_MAX
    ensures Classify(PrintHeader(oldBefore, newBefore, h)) == Header(Target(newBefore, |NewSide(h.body)|))
  {
    var count := |NewSide(h.body)|;
    var oldRange := PrintRange(oldBefore, |OldSide(h.body)|, h.counts);
    var newRange := PrintRange(newBefore, count, h.counts);
    RangeIsWord(oldBefore, |OldSide(h.body)|, h.counts);
    RangeIsWord(newBefore, count, h.counts);
    RangeReadsBack(newBefore, count, h.counts);
    HeaderClassified(oldRange, newRange, h.section, if count > 0 then newBefore + 1 else newBefore);
  }

  lemma HeaderClassified(oldRange: string, newRange: string, section: string, start: nat)
    requires IsWord(oldRange) && IsWord(newRange) && start <= USIZE_MAX
    requires newRange[..Find(newRange, ',')] == Decimal(start) && TrimPluses("+" + newRange) == newRange
    ensures Classify(HeaderLine(oldRange, newRange, section)) == Header(if start > 0 then Some(start) else None)
  {
    HeaderIsHeader(oldRange, newRange, section);
    HeaderWords(oldRange, newRange, section);
    DecimalDigits(start);
    assert HeaderTarget(HeaderLine(oldRange, newRange, section)) == if start > 0 then Some(start) else None;
  }

  /** A header without a part that starts with a plus names no line, nor does one whose number is 0 or no number. */
  lemma HeaderWithoutNumber(line: string)
    ensures (forall w | w in SplitWhitespace(line) :: w == "" || w[0] != '+') ==> HeaderTarget(line) == None
    ensures var number := TrimPluses(PlusPart(SplitWhitespace(line)));
            var digits := number[..Find(number, ',')];
            (digits == "" || !AllDigits(digits) || Value(digits) == 0) ==> HeaderTarget(line) == None
  {
    if forall w | w in SplitWhitespace(line) :: w == "" || w[0] != '+' {
      NoPlusPart(SplitWhitespace(line));
      assert "+0"[..1] == "+" && "+0"[1..] == "0" && "0"[..1] == "0";
      FindNone("0", ',');
      assert Value("") == 0 && "0"[..0] == "";
    }
  }

  lemma {:induction false} NoPlusPart(parts: seq<string>)
    requires forall w | w in parts :: w == "" || w[0] != '+'
    ensures PlusPart(parts) == "+0"
  {
    if parts != [] {
      assert parts[0] in parts;
      NoPlusPart(parts[1..]);
    }
  }

  lemma HeaderIsHeader(oldRange: string, newRange: string, section: string)
    ensures IsHunkHeader(HeaderLine(oldRange, newRange, section))
  {
    var line := HeaderLine(oldRange, newRange, section);
    assert line[..4] == "@@ -";
    var before, after := "@@ -" + oldRange + " +" + newRange, " @@" + section;
    assert line == before + after;
    assert OccursAt(line, " @@", |before|);
  }

  lemma HeaderWords(oldRange: string, newRange: string, section: string)
    requires IsWord(oldRange) && IsWord(newRange)
    ensures var parts := SplitWhitespace(HeaderLine(oldRange, newRange, section));
            |parts| >= 2 && PlusPart(parts) == "+" + newRange
  {
    var rest := "@@" + section;
    var second, third := "-" + oldRange, "+" + newRange;
    SplitWord("@@", second + " " + (third + " " + rest));
    SplitWord(second, third + " " + rest);
    SplitWord(third, rest);
    PlusPartIsThird("@@", second, third, SplitWhitespace(rest));
  }

  lemma PlusPartIsThird(a: string, b: string, c: string, rest: seq<string>)
    requires a != "" && a[0] != '+' && b != "" && b[0] != '+' && c != "" && c[0] == '+'
    ensures PlusPart([a] + ([b] + ([c] + rest))) == c
  {
    PlusPartSkips(a, [b] + ([c] + rest));
    PlusPartSkips(b, [c] + rest);
    assert c[..1] == "+";
  }

  lemma PlusPartSkips(part: string, parts: seq<string>)
    requires part != "" && part[0] != '+'
    ensures PlusPart([part] + parts) == PlusPart(parts)
  {
    assert ([part] + parts)[1..] == parts;
    assert part[..1][0] == part[0];
  }

  // ---------------------------------------------------------------- what the reader makes of a printed diff

  function BodyKind(b: BodyLine): Kind {
    match b
    case Context(_) => Space
    case Added(text) => Plus(text)
    case _ => Ignored
  }

  function BodyKinds(body: seq<BodyLine>): seq<Kind> {
    if body == [] then [] else [BodyKind(body[0])] + BodyKinds(body[1..])
  }

  function SegmentKinds(p: Placed): seq<Kind> {
    if p.segment.Gap? then []
    else [Header(Target(p.newBefore, |NewSide(p.segment.body)|))] + BodyKinds(p.segment.body)
  }

  function AllKinds(layout: seq<Placed>): seq<seq<Kind>> {
    seq(|layout|, i requires 0 <= i < |layout| => SegmentKinds(layout[i]))
  }

  lemma ClassifyAppend(a: seq<string>, b: seq<string>)
    ensures ClassifyAll(a + b) == ClassifyAll(a) + ClassifyAll(b)
  {
  }

  lemma ClassifyBodyLine(b: BodyLine)
    ensures Classify(PrintBodyLine(b)) == BodyKind(b)
  {
    var line := PrintBodyLine(b);
    assert line[..1] == [line[0]];
    assert |line| >= 4 ==> line[..4][0] == line[0];
    assert "@@ -"[0] == '@';
    if b.Added? {
      assert line[1..] == b.text;
    }
  }

  lemma {:induction false} ClassifyBody(body: seq<BodyLine>)
    ensures ClassifyAll(PrintBody(body)) == BodyKinds(body)
  {
    if body != [] {
      ClassifyBodyLine(body[0]);
      ClassifyBody(body[1..]);
      ClassifyCons(PrintBodyLine(body[0]), PrintBody(body[1..]));
    }
  }

  predicate Fits(p: Placed) {
    p.newBefore + |NewLines(p.segment)| < USIZE_MAX
  }

  lemma ClassifySegment(p: Placed)
    requires Fits(p)
    ensures ClassifyAll(PrintSegment(p)) == SegmentKinds(p)
  {
    if p.segment.Hunk? {
      HeaderReadsBack(p.oldBefore, p.newBefore, p.segment);
      ClassifyBody(p.segment.body);
      ClassifyCons(PrintHeader(p.oldBefore, p.newBefore, p.segment), PrintBody(p.segment.body));
    }
  }

  lemma ClassifyCons(line: string, lines: seq<string>)
    ensures ClassifyAll([line] + lines) == [Classify(line)] + ClassifyAll(lines)
  {
  }

  lemma {:induction false} ClassifyConcat(parts: seq<seq<string>>, kinds: seq<seq<Kind>>)
    requires |parts| == |kinds| && forall i | 0 <= i < |parts| :: ClassifyAll(parts[i]) == kinds[i]
    ensures ClassifyAll(Concat(parts)) == Concat(kinds)
    decreases |parts|
  {
    if parts != [] {
      ClassifyConcat(parts[1..], kinds[1..]);
      ClassifyAppend(parts[0], Concat(parts[1..]));
    }
  }

  lemma ClassifyScript(layout: seq<Placed>)
    requires forall i | 0 <= i < |layout| :: Fits(layout[i])
    ensures ClassifyAll(Concat(PrintSegments(layout))) == Concat(AllKinds(layout))
  {
    forall i | 0 <= i < |layout| ensures ClassifyAll(PrintSegments(layout)[i]) == AllKinds(layout)[i] {
      ClassifySegment(layout[i]);
    }
    ClassifyConcat(PrintSegments(layout), AllKinds(layout));
  }

  lemma {:induction false} LayoutFits(script: seq<Segment>, oldBefore: nat, newBefore: nat)
    requires newBefore + |NewFile(script)| < USIZE_MAX
    ensures forall p | p in Layout(script, oldBefore, newBefore) :: Fits(p)
    decreases |script|
  {
    if script != [] {
      var s, rest := script[0], script[1..];
      assert script == [s] + rest;
      NewFileCons(s, rest);
      LayoutFits(rest, oldBefore + |OldLines(s)|, newBefore + |NewLines(s)|);
    }
  }

  lemma {:induction false} ReadAppend(r: Reader, a: seq<Kind>, b: seq<Kind>)
    ensures Read(r, a + b) == Read(Read(r, a), b)
    decreases |a|
  {
    if a == [] {
      assert a + b == b;
    } else {
      assert (a + b)[0] == a[0] && (a + b)[1..] == a[1..] + b;
      ReadAppend(Step(r, a[0]), a[1..], b);
    }
  }

  /** Before the first hunk header nothing counts, not even the `+++` line of the file header. */
  lemma {:induction false} ReadPreamble(kinds: seq<Kind>)
    requires forall k | k in kinds :: !k.Header?
    ensures Read(START, kinds) == START
  {
    if kinds != [] {
      assert !kinds[0].Header?;
      ReadPreamble(kinds[1..]);
    }
  }

  /** One body line: the reader reports it if it was added, under the number it has in the new file. */
  lemma StepBodyLine(r: Reader, n: nat, b: BodyLine)
    requires r.base == Some(n) && n + |NewPart(b)| <= USIZE_MAX
    ensures Step(r, BodyKind(b)) == Reader(Some(n + |NewPart(b)|), r.patched + Additions(NewPart(b), n))
  {
    if b.Added? || b.Context? {
      assert NewPart(b)[1..] == [];
    }
  }

  lemma {:induction false} ReadBody(r: Reader, n: nat, body: seq<BodyLine>)
    requires r.base == Some(n) && n + |NewSide(body)| <= USIZE_MAX
    ensures Read(r, BodyKinds(body)).patched == r.patched + Additions(NewSide(body), n)
    decreases |body|
  {
    if body != [] {
      var part, rest := NewPart(body[0]), NewSide(body[1..]);
      StepBodyLine(r, n, body[0]);
      var next := Reader(Some(n + |part|), r.patched + Additions(part, n));
      ReadBody(next, n + |part|, body[1..]);
      AdditionsAppend(part, rest, n);
      AppendAssoc(r.patched, Additions(part, n), Additions(rest, n + |part|));
      assert BodyKinds(body)[1..] == BodyKinds(body[1..]);
    }
  }

  /** A body without new-side lines adds nothing wherever the header said it starts. */
  lemma {:induction false} ReadRemovals(r: Reader, body: seq<BodyLine>)
    requires NewSide(body) == []
    ensures Read(r, BodyKinds(body)) == r
    decreases |body|
  {
    if body != [] {
      assert NewPart(body[0]) == [];
      assert BodyKinds(body)[1..] == BodyKinds(body[1..]);
      ReadRemovals(r, body[1..]);
    }
  }

  lemma ReadSegment(r: Reader, p: Placed)
    requires Fits(p)
    ensures Read(r, SegmentKinds(p)).patched == r.patched + Additions(NewLines(p.segment), p.newBefore + 1)
  {
    var s := p.segment;
    if s.Gap? {
      NoAdditions(NewLines(s), p.newBefore + 1);
    } else {
      ReadHunk(r, Target(p.newBefore, |NewSide(s.body)|), p.newBefore, s.body);
    }
  }

  lemma ReadHunk(r: Reader, target: Option<nat>, newBefore: nat, body: seq<BodyLine>)
    requires newBefore + |NewSide(body)| < USIZE_MAX && (NewSide(body) != [] ==> target == Some(newBefore + 1))
    ensures Read(r, [Header(target)] + BodyKinds(body)).patched ==
            r.patched + Additions(NewSide(body), newBefore + 1)
  {
    assert ([Header(target)] + BodyKinds(body))[1..] == BodyKinds(body);
    if NewSide(body) == [] {
      ReadRemovals(r.(base := target), body);
    } else {
      ReadBody(r.(base := target), newBefore + 1, body);
    }
  }

  /** What the segments add, each at its own place. */
  function PlacedAdditions(layout: seq<Placed>): seq<(nat, string)> {
    if layout == [] then []
    else Additions(NewLines(layout[0].segment), layout[0].newBefore + 1) + PlacedAdditions(layout[1..])
  }

  lemma {:induction false} ReadLayout(r: Reader, layout: seq<Placed>)
    requires forall p | p in layout :: Fits(p)
    ensures Read(r, Concat(AllKinds(layout))).patched == r.patched + PlacedAdditions(layout)
    decreases |layout|
  {
    if layout == [] {
      assert Read(r, []) == r;
    } else {
      var shown, later := SegmentKinds(layout[0]), Concat(AllKinds(layout[1..]));
      assert AllKinds(layout)[1..] == AllKinds(layout[1..]);
      ReadSegment(r, layout[0]);
      ReadLayout(Read(r, shown), layout[1..]);
      ReadAppend(r, shown, later);
      AppendAssoc(r.patched, Additions(NewLines(layout[0].segment), layout[0].newBefore + 1),
                  PlacedAdditions(layout[1..]));
    }
  }

  lemma {:induction false} LayoutAdditions(script: seq<Segment>, oldBefore: nat, newBefore: nat)
    ensures PlacedAdditions(Layout(script, oldBefore, newBefore)) == Additions(NewFile(script), newBefore + 1)
    decreases |script|
  {
    if script != [] {
      var s, rest := script[0], script[1..];
      assert script == [s] + rest;
      NewFileCons(s, rest);
      AdditionsAppend(NewLines(s), NewFile(rest), newBefore + 1);
      LayoutAdditions(rest, oldBefore + |OldLines(s)|, newBefore + |NewLines(s)|);
    }
  }

  lemma ReadScript(r: Reader, script: seq<Segment>)
    requires |NewFile(script)| < USIZE_MAX
    ensures Read(r, Concat(AllKinds(Layout(script, 0, 0)))).patched == r.patched + Additions(NewFile(script), 1)
  {
    LayoutFits(script, 0, 0);
    ReadLayout(r, Layout(script, 0, 0));
    LayoutAdditions(script, 0, 0);
  }

  lemma ReadsAddedLines(preamble: seq<string>, script: seq<Segment>)
    requires (forall l | l in preamble :: !IsHunkHeader(l)) && |NewFile(script)| < USIZE_MAX
    ensures Read(START, ClassifyAll(preamble + PrintScript(script))).patched == Additions(NewFile(script), 1)
  {
    var layout := Layout(script, 0, 0);
    var head, tail := ClassifyAll(preamble), Concat(AllKinds(layout));
    ClassifyAppend(preamble, PrintScript(script));
    LayoutFits(script, 0, 0);
    ClassifyScript(layout);
    ReadPreamble(head);
    ReadAppend(START, head, tail);
    ReadScript(START, script);
    assert [] + Additions(NewFile(script), 1) == Additions(NewFile(script), 1);
  }

  // ---------------------------------------------------------------- texts

  /** How a line of a text ends; only the last one can end with the text. */
  datatype End = Lf | CrLf | EndOfText

  function EndText(end: End): string {
    match end
    case Lf => "\n"
    case CrLf => "\r\n"
    case EndOfText => ""
  }

  function Assembled(lines: seq<string>, ends: seq<End>): string
    requires |lines| == |ends|
    decreases |lines|
  {
    if lines == [] then "" else lines[0] + EndText(ends[0]) + Assembled(lines[1..], ends[1..])
  }

  /** What ends in CR and then LF is ended by CRLF. */
  predicate Writable(lines: seq<string>, ends: seq<End>) {
    && |lines| == |ends|
    && (forall i | 0 <= i < |lines| :: '\n' !in lines[i])
    && (forall i | 0 <= i < |lines| - 1 :: ends[i] != EndOfText)
    && (forall i | 0 <= i < |lines| && ends[i] == Lf :: lines[i] == "" || lines[i][|lines[i]| - 1] != '\r')
  }

  /** An empty last line that nothing ends is no line. */
  function LinesOfText(lines: seq<string>, ends: seq<End>): seq<string>
    requires |lines| == |ends|
  {
    if lines != [] && ends[|ends| - 1] == EndOfText && lines[|lines| - 1] == "" then lines[..|lines| - 1] else lines
  }

  lemma {:induction false} AssembledReads(lines: seq<string>, ends: seq<End>)
    requires Writable(lines, ends)
    ensures TextLines(Assembled(lines, ends)) == LinesOfText(lines, ends)
    decreases |lines|
  {
    if lines == [] {
      LinesNone("", '\n');
    } else if ends[0] == EndOfText {
      assert |lines| == 1;
      assert lines[0] + "" + "" == lines[0];
      LinesNone(lines[0], '\n');
      if lines[0] == "" {
        assert lines[..0] == [];
      } else {
        assert lines == [lines[0]];
      }
    } else {
      AssembledReads(lines[1..], ends[1..]);
      AssembledNext(lines, ends);
    }
  }

  lemma AssembledNext(lines: seq<string>, ends: seq<End>)
    requires Writable(lines, ends) && lines != [] && ends[0] != EndOfText
    ensures TextLines(Assembled(lines, ends)) == [lines[0]] + TextLines(Assembled(lines[1..], ends[1..]))
    ensures LinesOfText(lines, ends) == [lines[0]] + LinesOfText(lines[1..], ends[1..])
  {
    LineEnded(lines[0], ends[0], Assembled(lines[1..], ends[1..]));
    LinesOfTextNext(lines, ends);
  }

  lemma LineEnded(line: string, end: End, more: string)
    requires '\n' !in line && end != EndOfText && (end == Lf ==> line == "" || line[|line| - 1] != '\r')
    ensures TextLines(line + EndText(end) + more) == [line] + TextLines(more)
  {
    if end == CrLf {
      var raw := line + "\r";
      assert line + "\r\n" + more == raw + "\n" + more;
      TextLinesCons(raw, more);
      assert StripCr(raw) == line;
    } else {
      TextLinesCons(line, more);
    }
  }

  lemma LinesOfTextNext(lines: seq<string>, ends: seq<End>)
    requires |lines| == |ends| && lines != [] && ends[0] != EndOfText
    ensures LinesOfText(lines, ends) == [lines[0]] + LinesOfText(lines[1..], ends[1..])
  {
    assert lines == [lines[0]] + lines[1..];
    if |lines| > 1 {
      assert lines[1..][|lines| - 2] == lines[|lines| - 1] && ends[1..][|ends| - 2] == ends[|ends| - 1];
      assert lines[..|lines| - 1] == [lines[0]] + lines[1..][..|lines| - 2];
    }
  }

  lemma TextLinesCons(line: string, more: string)
    requires '\n' !in line
    ensures TextLines(line + "\n" + more) == [StripCr(line)] + TextLines(more)
  {
    LinesCons(line, '\n', more);
    assert line + "\n" + more == line + ['\n'] + more;
  }

  /** A hunk header starts with `@@ -` and has another ` @@` in it. */
  ghost predicate LooksLikeHunk(line: string) {
    (exists rest: string :: line == "@@ -" + rest) && exists front: string, rest: string :: line == front + " @@" + rest
  }

  lemma HunkHeaderIff(line: string)
    ensures IsHunkHeader(line) <==> LooksLikeHunk(line)
  {
    if IsHunkHeader(line) {
      assert line == "@@ -" + line[4..];
      var front, rest := ContainsSplit(line, " @@");
      assert line == front + " @@" + rest;
    }
    if LooksLikeHunk(line) {
      var rest: string :| line == "@@ -" + rest;
      assert line[..4] == "@@ -";
      var front: string, more: string :| line == front + " @@" + more;
      ContainsPart(front, " @@", more);
    }
  }

  /** However the lines are put together, the reader sees the same. */
  lemma PatchedAssembled(lines: seq<string>, ends: seq<End>)
    requires Writable(lines, ends)
    ensures Patched(Assembled(lines, ends)) == Trimmed(Read(START, ClassifyAll(lines)).patched)
  {
    AssembledReads(lines, ends);
    var seen := LinesOfText(lines, ends);
    if seen != lines {
      assert lines == seen + [""];
      ClassifyAppend(seen, [""]);
      ReadAppend(START, ClassifyAll(seen), ClassifyAll([""]));
      EmptyLineIgnored(Read(START, ClassifyAll(seen)));
    }
  }

  lemma EmptyLineIgnored(r: Reader)
    ensures Read(r, ClassifyAll([""])) == r
  {
    assert ClassifyAll([""]) == [Ignored] && [Ignored][1..] == [];
  }

  /**
    For every edit script and any text of its unified diff after a file header, with LF or CRLF at each line and with or
    without one at the end: the result is exactly the added lines in order, trailing whitespace trimmed, each paired
    with its line number in the new file.
   */
  lemma DiffReadsAddedLines(ends: seq<End>, preamble: seq<string>, script: seq<Segment>)
    requires Writable(preamble + PrintScript(script), ends)
    requires forall l | l in preamble :: !LooksLikeHunk(l)
    requires |NewFile(script)| < USIZE_MAX
    ensures Patched(Assembled(preamble + PrintScript(script), ends)) == Trimmed(Additions(NewFile(script), 1))
  {
    forall l | l in preamble ensures !IsHunkHeader(l) {
      HunkHeaderIff(l);
    }
    PatchedAssembled(preamble + PrintScript(script), ends);
    ReadsAddedLines(preamble, script);
  }

  // ---------------------------------------------------------------- several files in one text

  /** One file's part of a diff: the lines before its first hunk, and its script. */
  datatype FileDiff = FileDiff(header: seq<string>, script: seq<Segment>)

  function FileLines(f: FileDiff): seq<string> {
    f.header + PrintScript(f.script)
  }

  function FileKinds(f: FileDiff): seq<Kind> {
    ClassifyAll(f.header) + Concat(AllKinds(Layout(f.script, 0, 0)))
  }

  function FileAdditions(f: FileDiff): seq<(nat, string)> {
    Additions(NewFile(f.script), 1)
  }

  /** The header names the new file in a `+++` line and is no hunk header. */
  ghost predicate WellHeaded(f: FileDiff) {
    && (exists l | l in f.header :: StartsWith(l, "+++"))
    && forall l | l in f.header :: !LooksLikeHunk(l)
  }

  /** The last hunk shown, if any, starts at a positive line of the new file. */
  predicate LeavesNumber(layout: seq<Placed>) {
    layout != [] &&
    var p := layout[|layout| - 1];
    if p.segment.Gap? then LeavesNumber(layout[..|layout| - 1])
    else Target(p.newBefore, |NewSide(p.segment.body)|).Some?
  }

  /** After this file the reader still counts lines. */
  predicate LeavesOpen(f: FileDiff) {
    LeavesNumber(Layout(f.script, 0, 0))
  }

  /** A reader that is counting goes on counting, one that is not does not start, until the next header. */
  lemma {:induction false} ReadBetweenHeaders(r: Reader, kinds: seq<Kind>)
    requires forall k | k in kinds :: !k.Header?
    ensures Read(r, kinds).base.Some? <==> r.base.Some?
    ensures r.base.None? ==> Read(r, kinds) == r
    ensures |Read(r, kinds).patched| >= |r.patched|
    ensures r.base.Some? && (exists k | k in kinds :: k.Plus?) ==> |Read(r, kinds).patched| > |r.patched|
    decreases |kinds|
  {
    if kinds != [] {
      assert !kinds[0].Header?;
      assert forall k | k in kinds :: k == kinds[0] || k in kinds[1..];
      ReadBetweenHeaders(Step(r, kinds[0]), kinds[1..]);
    }
  }

  lemma {:induction false} NoHeaderInBody(body: seq<BodyLine>)
    ensures forall k | k in BodyKinds(body) :: !k.Header?
  {
    if body != [] {
      NoHeaderInBody(body[1..]);
    }
  }

  lemma ReadLeaves(r: Reader, p: Placed)
    requires p.segment.Hunk?
    ensures Read(r, SegmentKinds(p)).base.Some? <==> Target(p.newBefore, |NewSide(p.segment.body)|).Some?
  {
    var target := Target(p.newBefore, |NewSide(p.segment.body)|);
    assert SegmentKinds(p)[1..] == BodyKinds(p.segment.body);
    NoHeaderInBody(p.segment.body);
    ReadBetweenHeaders(r.(base := target), BodyKinds(p.segment.body));
  }

  lemma {:induction false} ReadLayoutLeaves(r: Reader, layout: seq<Placed>)
    requires r.base.None?
    ensures Read(r, Concat(AllKinds(layout))).base.Some? <==> LeavesNumber(layout)
    decreases |layout|
  {
    if layout != [] {
      var init, last := layout[..|layout| - 1], layout[|layout| - 1];
      ReadLayoutLeaves(r, init);
      KindsSnoc(layout);
      ReadAppend(r, Concat(AllKinds(init)), SegmentKinds(last));
      if last.segment.Hunk? {
        ReadLeaves(Read(r, Concat(AllKinds(init))), last);
      }
    }
  }

  lemma KindsSnoc(layout: seq<Placed>)
    requires layout != []
    ensures Concat(AllKinds(layout)) ==
            Concat(AllKinds(layout[..|layout| - 1])) + SegmentKinds(layout[|layout| - 1])
  {
    var init, last := AllKinds(layout[..|layout| - 1]), [SegmentKinds(layout[|layout| - 1])];
    assert AllKinds(layout) == init + last;
    ConcatAppend(init, last);
    assert last[1..] == [];
  }

  lemma HeaderKinds(f: FileDiff)
    requires WellHeaded(f)
    ensures var kinds := ClassifyAll(f.header);
            (forall k | k in kinds :: !k.Header?) && exists k | k in kinds :: k.Plus?
  {
    forall l | l in f.header ensures !IsHunkHeader(l) {
      HunkHeaderIff(l);
    }
    var l :| l in f.header && StartsWith(l, "+++");
    assert l[..1] == l[..3][..1] == "+";
    var i :| 0 <= i < |f.header| && f.header[i] == l;
    assert ClassifyAll(f.header)[i].Plus?;
  }

  /** One file: read right if the reader was not counting lines before it, and too much otherwise. */
  lemma ReadFile(r: Reader, f: FileDiff)
    requires WellHeaded(f) && |NewFile(f.script)| < USIZE_MAX
    ensures var e := Read(r, FileKinds(f));
            if r.base.None? then
              e.patched == r.patched + FileAdditions(f) && (e.base.Some? <==> LeavesOpen(f))
            else |e.patched| > |r.patched| + |FileAdditions(f)|
  {
    var head := ClassifyAll(f.header);
    HeaderKinds(f);
    ReadBetweenHeaders(r, head);
    ReadAppend(r, head, Concat(AllKinds(Layout(f.script, 0, 0))));
    ReadScript(Read(r, head), f.script);
    if r.base.None? {
      ReadLayoutLeaves(r, Layout(f.script, 0, 0));
    }
  }

  function FilesLines(files: seq<FileDiff>): seq<string> {
    if files == [] then [] else FileLines(files[0]) + FilesLines(files[1..])
  }

  function FilesKinds(files: seq<FileDiff>): seq<Kind> {
    if files == [] then [] else FileKinds(files[0]) + FilesKinds(files[1..])
  }

  function FilesAdditions(files: seq<FileDiff>): seq<(nat, string)> {
    if files == [] then [] else FileAdditions(files[0]) + FilesAdditions(files[1..])
  }

  /** No file but the last leaves the reader counting. */
  predicate Separated(files: seq<FileDiff>) {
    forall i | 0 <= i < |files| - 1 :: !LeavesOpen(files[i])
  }

  lemma {:induction false} ReadFiles(r: Reader, files: seq<FileDiff>)
    requires forall f | f in files :: WellHeaded(f) && |NewFile(f.script)| < USIZE_MAX
    ensures var e := Read(r, FilesKinds(files));
            if files == [] || (r.base.None? && Separated(files)) then e.patched == r.patched + FilesAdditions(files)
            else |e.patched| > |r.patched| + |FilesAdditions(files)|
    decreases |files|
  {
    if files == [] {
      assert Read(r, []) == r;
    } else {
      var f, rest := files[0], files[1..];
      var m := Read(r, FileKinds(f));
      ReadFile(r, f);
      ReadAppend(r, FileKinds(f), FilesKinds(rest));
      ReadFiles(m, rest);
      AppendAssoc(r.patched, FileAdditions(f), FilesAdditions(rest));
      SeparatedCons(files);
    }
  }

  lemma SeparatedCons(files: seq<FileDiff>)
    requires files != []
    ensures Separated(files) <==> files[1..] == [] || (!LeavesOpen(files[0]) && Separated(files[1..]))
  {
    var rest := files[1..];
    if Separated(files) && rest != [] {
      forall i | 0 <= i < |rest| - 1 ensures !LeavesOpen(rest[i]) {
        assert rest[i] == files[i + 1];
      }
    }
    if rest != [] && !LeavesOpen(files[0]) && Separated(rest) {
      forall i | 0 <= i < |files| - 1 ensures !LeavesOpen(files[i]) {
        assert i > 0 ==> files[i] == rest[i - 1];
      }
    }
  }

  lemma ClassifyFile(f: FileDiff)
    requires |NewFile(f.script)| < USIZE_MAX
    ensures ClassifyAll(FileLines(f)) == FileKinds(f)
  {
    ClassifyAppend(f.header, PrintScript(f.script));
    LayoutFits(f.script, 0, 0);
    ClassifyScript(Layout(f.script, 0, 0));
  }

  lemma {:induction false} ClassifyFiles(files: seq<FileDiff>)
    requires forall f | f in files :: |NewFile(f.script)| < USIZE_MAX
    ensures ClassifyAll(FilesLines(files)) == FilesKinds(files)
    decreases |files|
  {
    if files != [] {
      ClassifyFile(files[0]);
      ClassifyFiles(files[1..]);
      ClassifyAppend(FileLines(files[0]), FilesLines(files[1..]));
    }
  }

  /**
    A diff of any number of files: the result is the added lines of all files, each under its number in its own file, if
    and only if every file but the last shows no hunk or has its last hunk start at line 0, as deleting a file does.
    Otherwise the `+++` line of the next header reads as one more added line.
   */
  lemma FilesReadRightIff(ends: seq<End>, files: seq<FileDiff>)
    requires Writable(FilesLines(files), ends)
    requires forall f | f in files :: WellHeaded(f) && |NewFile(f.script)| < USIZE_MAX
    ensures var text := Assembled(FilesLines(files), ends);
            && (Patched(text) == Trimmed(FilesAdditions(files)) <==> Separated(files))
            && (!Separated(files) ==> |Patched(text)| > |FilesAdditions(files)|)
  {
    PatchedAssembled(FilesLines(files), ends);
    ClassifyFiles(files);
    ReadFiles(START, files);
    assert [] + FilesAdditions(files) == FilesAdditions(files);
  }

  lemma {:induction false} LinesReadBack(lines: seq<string>)
    requires forall l | l in lines :: '\n' !in l && StripCr(l) == l
    ensures TextLines(Unlines(lines)) == lines
  {
    if lines == [] {
      LinesNone("", '\n');
    } else {
      assert '\n' !in lines[0] && StripCr(lines[0]) == lines[0];
      TextLinesCons(lines[0], Unlines(lines[1..]));
      LinesReadBack(lines[1..]);
    }
  }

  /** The diff that creates a file of one line. */
  function Creation(path: string, line: string): seq<string> {
    ["--- /dev/null", "+++ " + path, "@@ -0,0 +1,1 @@", "+" + line]
  }

  predicate Plain(s: string) {
    '\n' !in s && '\r' !in s
  }

  lemma CreationLines(path: string, line: string)
    requires Plain(path) && Plain(line)
    ensures forall l | l in Creation(path, line) :: '\n' !in l && StripCr(l) == l
  {
    forall l | l in Creation(path, line) ensures Plain(l) {
      assert Plain("--- /dev/null") && Plain("@@ -0,0 +1,1 @@");
    }
  }

  lemma CreationHeader()
    ensures Classify("@@ -0,0 +1,1 @@") == Header(Some(1))
  {
    var h := Hunk([Added("")], true, "");
    assert NewSide(h.body) == [FileLine("", true)];
    assert OldSide(h.body) == [];
    HeaderReadsBack(0, 0, h);
    assert PrintRange(0, 0, true) == "0,0" && PrintRange(0, 1, true) == "1,1";
    assert HeaderLine("0,0", "1,1", "") == "@@ -0,0 +1,1 @@";
  }

  lemma NewFileLine(path: string)
    ensures Classify("+++ " + path) == Plus("++ " + path)
  {
    var line := "+++ " + path;
    assert line[..1] == "+" && line[1..] == "++ " + path;
    assert line[..4][0] == '+' && "@@ -"[0] == '@';
  }

  lemma OldFileLine()
    ensures Classify("--- /dev/null") == Ignored
  {
    var line := "--- /dev/null";
    assert line[0] == '-';
    assert line[..4][0] == line[0] && line[..1][0] == line[0] && "@@ -"[0] == '@' && "+"[0] == '+' && " "[0] == ' ';
  }

  function CreatedKinds(path: string, line: string): seq<Kind> {
    [Ignored] + ([Plus("++ " + path)] + ([Header(Some(1))] + ([Plus(line)] + [])))
  }

  lemma CreationKinds(path: string, line: string)
    ensures ClassifyAll(Creation(path, line)) == CreatedKinds(path, line)
  {
    OldFileLine();
    NewFileLine(path);
    CreationHeader();
    ClassifyBodyLine(Added(line));
    FourKinds("--- /dev/null", "+++ " + path, "@@ -0,0 +1,1 @@", "+" + line);
  }

  lemma FourKinds(a: string, b: string, c: string, d: string)
    ensures ClassifyAll([a, b, c, d]) == [Classify(a)] + ([Classify(b)] + ([Classify(c)] + ([Classify(d)] + [])))
  {
  }

  lemma ReadCons(r: Reader, k: Kind, kinds: seq<Kind>)
    ensures Read(r, [k] + kinds) == Read(Step(r, k), kinds)
  {
    assert ([k] + kinds)[1..] == kinds;
  }

  lemma ReadCreation(r: Reader, path: string, line: string)
    ensures Read(r, CreatedKinds(path, line)) ==
            Reader(Some(2), Step(r, Plus("++ " + path)).patched + [(1, line)])
  {
    var s := Step(r, Plus("++ " + path));
    ReadCons(r, Ignored, [Plus("++ " + path)] + ([Header(Some(1))] + ([Plus(line)] + [])));
    ReadCons(r, Plus("++ " + path), [Header(Some(1))] + ([Plus(line)] + []));
    ReadCons(s, Header(Some(1)), [Plus(line)] + []);
    ReadCons(s.(base := Some(1)), Plus(line), []);
  }

  lemma ReadCreations(path: string, line: string, path': string, line': string)
    ensures Read(START, CreatedKinds(path, line) + CreatedKinds(path', line')).patched ==
            [(1, line), (2, "++ " + path'), (1, line')]
  {
    ReadAppend(START, CreatedKinds(path, line), CreatedKinds(path', line'));
    ReadCreation(START, path, line);
    assert [] + [(1, line)] == [(1, line)];
    ReadCreation(Reader(Some(2), [(1, line)]), path', line');
  }

  predicate EndsInText(s: string) {
    s != "" && !IsWhitespace(s[|s| - 1])
  }

  /** Any two new files of one line each: the second header turns up as line 2 of the first file. */
  lemma SecondHeaderIsAdded(path: string, line: string, path': string, line': string)
    requires Plain(path) && Plain(line) && Plain(path') && Plain(line')
    requires EndsInText(line) && EndsInText(path') && EndsInText(line')
    ensures Patched(Unlines(Creation(path, line) + Creation(path', line'))) ==
            [(1, line), (2, "++ " + path'), (1, line')]
  {
    CreationLines(path, line);
    CreationLines(path', line');
    LinesReadBack(Creation(path, line) + Creation(path', line'));
    CreationKinds(path, line);
    CreationKinds(path', line');
    ClassifyAppend(Creation(path, line), Creation(path', line'));
    ReadCreations(path, line, path', line');
    var named := "++ " + path';
    assert named[|named| - 1] == path'[|path'| - 1];
    TrimNothing(line, named, line');
  }

  lemma TrimNothing(a: string, b: string, c: string)
    requires EndsInText(a) && EndsInText(b) && EndsInText(c)
    ensures Trimmed([(1, a), (2, b), (1, c)]) == [(1, a), (2, b), (1, c)]
  {
  }

  /** For instance. */
  lemma SecondFileHeaderMisread()
    ensures Patched(Unlines(Creation("b/x", "a") + Creation("b/y", "b"))) == [(1, "a"), (2, "++ " + "b/y"), (1, "b")]
  {
    assert Plain("b/x") && Plain("a") && Plain("b/y") && Plain("b");
    assert EndsInText("a") && EndsInText("b/y") && EndsInText("b");
    SecondHeaderIsAdded("b/x", "a", "b/y", "b");
  }
}
