/**
  The streaming markdown renderer, `StreamMarkdownRenderer`: lines are handled as soon as they are complete, code blocks
  and tables are held back until they end.  How a finished piece looks is a parameter.
 */
module Markdown {
  import opened Lines
  import opened Text

  /** The presentation: a code block with its language, a table with its column widths, any other line. */
  datatype Style = Style(
    codeBlock: (string, string) -> string,
    table: (seq<seq<string>>, seq<nat>) -> string,
    regular: string -> string
  )

  /** Everything but the unfinished line and the raw text. */
  datatype Page = Page(
    inCodeBlock: bool,
    codeLang: string,
    codeContent: string,
    inTable: bool,
    colWidths: seq<nat>,
    rows: seq<seq<string>>,
    out: string
  )

  const BLANK := Page(false, "", "", false, [], [], "")
  const FENCE := "```"

  function TrimStart(s: string): string {
    if s != "" && IsWhitespace(s[0]) then TrimStart(s[1..]) else s
  }

  function Trim(s: string): string {
    TrimEnd(TrimStart(s))
  }

  /** All leading fences, as `trim_start_matches` removes them. */
  function TrimFences(s: string): string
    decreases |s|
  {
    if StartsWith(s, FENCE) then TrimFences(s[3..]) else s
  }

  function NonEmpty(cells: seq<string>): seq<string> {
    if cells == [] then []
    else (if Trim(cells[0]) == "" then [] else [Trim(cells[0])]) + NonEmpty(cells[1..])
  }

  function Cells(line: string): seq<string> {
    NonEmpty(Split(line, '|'))
  }

  predicate IsSeparatorRow(cells: seq<string>) {
    forall c | c in cells :: forall ch | ch in c :: ch == '-' || ch == ':' || ch == ' '
  }

  /** The widths of the first row, widened by later rows but never extended. */
  function Widen(widths: seq<nat>, cells: seq<string>): seq<nat> {
    seq(|widths|, i requires 0 <= i < |widths| =>
      if i < |cells| && |cells[i]| > widths[i] then |cells[i]| else widths[i])
  }

  function Widths(cells: seq<string>): seq<nat> {
    seq(|cells|, i requires 0 <= i < |cells| => |cells[i]|)
  }

  function EndCodeBlock(style: Style, p: Page): Page {
    p.(out := p.out + style.codeBlock(p.codeContent, p.codeLang),
       codeContent := "", codeLang := "", inCodeBlock := false)
  }

  function EndTable(style: Style, p: Page): Page {
    p.(out := p.out + style.table(p.rows, p.colWidths), inTable := false, rows := [], colWidths := [])
  }

  function ProcessLine(style: Style, p: Page, line: string): Page {
    var start := TrimStart(line);
    if StartsWith(start, FENCE) then
      if p.inCodeBlock then EndCodeBlock(style, p)
      else p.(inCodeBlock := true, codeLang := Trim(TrimFences(start)))
    else if p.inCodeBlock then p.(codeContent := p.codeContent + line + "\n")
    else if StartsWith(start, "|") then
      var cells := Cells(line);
      if IsSeparatorRow(cells) then p
      else if !p.inTable then p.(inTable := true, rows := [cells], colWidths := Widths(cells))
      else p.(rows := p.rows + [cells], colWidths := Widen(p.colWidths, cells))
    else
      var q := if p.inTable then EndTable(style, p) else p;
      q.(out := q.out + style.regular(line))
  }

  function Processor(style: Style): (Page, string) -> Page {
    (p: Page, line: string) => ProcessLine(style, p, line)
  }

  datatype State = State(page: Page, lineBuf: string, raw: string)

  const START := State(BLANK, "", "")

  /** The token goes to the raw text and the buffer; every line that is now complete is handled. */
  function Feed(style: Style, s: State, token: string): State {
    var buffer := s.lineBuf + token;
    State(Fold(Processor(style), s.page, Complete(buffer, '\n')), Rest(buffer, '\n'), s.raw + token)
  }

  function Flush(style: Style, s: State): (string, State) {
    var p1 := if s.page.inCodeBlock then EndCodeBlock(style, s.page) else s.page;
    var p2 := if p1.inTable then EndTable(style, p1) else p1;
    (p2.out + (if s.lineBuf == "" then "" else style.regular(s.lineBuf) + "\n"),
     State(p2.(out := ""), "", s.raw))
  }

  class StreamMarkdownRenderer {
    const style: Style
    var page: Page
    var lineBuf: string
    var rawResponse: string

    function Current(): State
      reads this
    {
      State(page, lineBuf, rawResponse)
    }

    constructor (style: Style)
      ensures this.style == style && Current() == START
    {
      this.style := style;
      page, lineBuf, rawResponse := BLANK, "", "";
    }

    method FeedToken(token: string) returns (raw: string)
      modifies this
      ensures Current() == Feed(style, old(Current()), token)
      ensures raw == rawResponse
    {
      rawResponse := rawResponse + token;
      lineBuf := lineBuf + token;
      ghost var buffer, before := lineBuf, page;
      while true
        invariant rawResponse == old(rawResponse) + token
        invariant Rest(lineBuf, '\n') == Rest(buffer, '\n')
        invariant Fold(Processor(style), page, Complete(lineBuf, '\n')) ==
                  Fold(Processor(style), before, Complete(buffer, '\n'))
        decreases |lineBuf|
      {
        var pos := Find(lineBuf, '\n');
        if pos == |lineBuf| {
          break;
        }
        LinesNext(lineBuf, '\n');
        var line := lineBuf[..pos];
        lineBuf := lineBuf[pos + 1..];
        HandleLine(line);
      }
      raw := rawResponse;
    }

    method HandleLine(line: string)
      modifies this`page
      ensures page == Processor(style)(old(page), line)
    {
      var start := TrimStart(line);
      if StartsWith(start, FENCE) {
        if page.inCodeBlock {
          page := EndCodeBlock(style, page);
        } else {
          page := page.(inCodeBlock := true, codeLang := Trim(TrimFences(start)));
        }
        return;
      }
      if page.inCodeBlock {
        page := page.(codeContent := page.codeContent + line + "\n");
        return;
      }
      if StartsWith(start, "|") {
        var cells := Cells(line);
        if IsSeparatorRow(cells) {
          return;
        }
        if !page.inTable {
          page := page.(inTable := true, rows := [], colWidths := Widths(cells));
        } else {
          page := page.(colWidths := Widen(page.colWidths, cells));
        }
        page := page.(rows := page.rows + [cells]);
        return;
      } else if page.inTable {
        page := EndTable(style, page);
      }
      page := page.(out := page.out + style.regular(line));
    }

    method FlushAll() returns (flushed: string, complete: bool)
      modifies this
      ensures (flushed, Current()) == Flush(style, old(Current()))
      ensures complete && lineBuf == "" && !page.inCodeBlock && !page.inTable
    {
      if page.inCodeBlock {
        page := EndCodeBlock(style, page);
      }
      if page.inTable {
        page := EndTable(style, page);
      }
      flushed := page.out;
      assert flushed + "" == flushed;
      page := page.(out := "");
      if lineBuf != "" {
        flushed := flushed + (style.regular(lineBuf) + "\n");
        lineBuf := "";
      }
      complete := lineBuf == "" && !page.inCodeBlock && !page.inTable;
    }
  }

  function FeedAll(style: Style, s: State, tokens: seq<string>): State
    decreases |tokens|
  {
    if tokens == [] then s else FeedAll(style, Feed(style, s, tokens[0]), tokens[1..])
  }

  lemma FeedTwice(style: Style, s: State, a: string, b: string)
    ensures Feed(style, Feed(style, s, a), b) == Feed(style, s, a + b)
  {
    var buffer := s.lineBuf + a;
    AppendAssoc(s.lineBuf, a, b);
    LinesAppend(buffer, b, '\n');
    FoldAppend(Processor(style), s.page, Complete(buffer, '\n'), Complete(Rest(buffer, '\n') + b, '\n'));
    AppendAssoc(s.raw, a, b);
  }

  /**
    Chunk independence: feeding the tokens one by one leaves the renderer exactly as feeding their concatenation does,
    across open code blocks, open tables and partial lines; so the flushed output and the raw text are the same too.
   */
  lemma {:induction false} FeedingInPieces(style: Style, s: State, tokens: seq<string>)
    requires '\n' !in s.lineBuf
    ensures FeedAll(style, s, tokens) == Feed(style, s, Concat(tokens))
    ensures Flush(style, FeedAll(style, s, tokens)) == Flush(style, Feed(style, s, Concat(tokens)))
    decreases |tokens|
  {
    if tokens == [] {
      assert s.lineBuf + "" == s.lineBuf && s.raw + "" == s.raw;
      LinesNone(s.lineBuf, '\n');
    } else {
      RestIsUnfinished(s.lineBuf + tokens[0], '\n');
      FeedingInPieces(style, Feed(style, s, tokens[0]), tokens[1..]);
      FeedTwice(style, s, tokens[0], Concat(tokens[1..]));
    }
  }

  /** From a new renderer the raw text is always all that was fed. */
  lemma RawIsEverything(style: Style, tokens: seq<string>)
    ensures FeedAll(style, START, tokens).raw == Concat(tokens)
    ensures FeedAll(style, START, tokens).lineBuf == Rest(Concat(tokens), '\n')
  {
    FeedingInPieces(style, START, tokens);
    assert "" + Concat(tokens) == Concat(tokens);
  }

  // ---------------------------------------------------------------- what every state keeps

  /** Each column is as wide as its widest cell; the first row says how many columns there are. */
  ghost predicate Tight(widths: seq<nat>, rows: seq<seq<string>>) {
    && rows != [] && |widths| == |rows[0]|
    && (forall i, k | 0 <= i < |widths| && 0 <= k < |rows| :: i < |rows[k]| ==> |rows[k][i]| <= widths[i])
    && forall i | 0 <= i < |widths| :: exists k :: 0 <= k < |rows| && i < |rows[k]| && |rows[k][i]| == widths[i]
  }

  /** Outside a code block none of its text is left, outside a table no row; the widths of an open table are tight. */
  ghost predicate WellFormed(p: Page) {
    && (!p.inCodeBlock ==> p.codeContent == "" && p.codeLang == "")
    && (if p.inTable then Tight(p.colWidths, p.rows) else p.rows == [] && p.colWidths == [])
  }

  lemma FirstRowTight(cells: seq<string>)
    ensures Tight(Widths(cells), [cells])
  {
    forall i | 0 <= i < |cells| ensures exists k :: 0 <= k < 1 && i < |[cells][k]| && |[cells][k][i]| == |cells[i]| {
      assert [cells][0] == cells;
    }
  }

  lemma WidenTight(widths: seq<nat>, rows: seq<seq<string>>, cells: seq<string>)
    requires Tight(widths, rows)
    ensures Tight(Widen(widths, cells), rows + [cells])
  {
    var wide, all := Widen(widths, cells), rows + [cells];
    forall i | 0 <= i < |wide| ensures exists k :: 0 <= k < |all| && i < |all[k]| && |all[k][i]| == wide[i] {
      if i < |cells| && |cells[i]| > widths[i] {
        assert all[|rows|] == cells;
      } else {
        var k :| 0 <= k < |rows| && i < |rows[k]| && |rows[k][i]| == widths[i];
        assert all[k] == rows[k];
      }
    }
  }

  lemma LineKeepsWellFormed(style: Style, p: Page, line: string)
    requires WellFormed(p)
    ensures WellFormed(ProcessLine(style, p, line))
  {
    FirstRowTight(Cells(line));
    if p.inTable {
      WidenTight(p.colWidths, p.rows, Cells(line));
    }
  }

  lemma {:induction false} LinesKeepWellFormed(style: Style, p: Page, lines: seq<string>)
    requires WellFormed(p)
    ensures WellFormed(Fold(Processor(style), p, lines))
    decreases |lines|
  {
    if lines != [] {
      LineKeepsWellFormed(style, p, lines[0]);
      LinesKeepWellFormed(style, ProcessLine(style, p, lines[0]), lines[1..]);
    }
  }

  /** Every feed keeps it, and a flush goes back to a blank page. */
  lemma RenderingKeepsWellFormed(style: Style, s: State, token: string)
    requires WellFormed(s.page)
    ensures WellFormed(START.page)
    ensures WellFormed(Feed(style, s, token).page)
    ensures WellFormed(Flush(style, s).1.page) && Flush(style, s).1.page == BLANK
  {
    LinesKeepWellFormed(style, s.page, Complete(s.lineBuf + token, '\n'));
  }

  /** So it holds of every page that any tokens lead to. */
  lemma ReachablePagesWellFormed(style: Style, tokens: seq<string>)
    ensures WellFormed(FeedAll(style, START, tokens).page)
  {
    FeedingInPieces(style, START, tokens);
    RenderingKeepsWellFormed(style, START, Concat(tokens));
  }

  // ---------------------------------------------------------------- whole code blocks and tables

  predicate IsFence(line: string) {
    StartsWith(TrimStart(line), FENCE)
  }

  predicate IsRow(line: string) {
    StartsWith(TrimStart(line), "|")
  }

  lemma {:induction false} CodeLines(style: Style, p: Page, body: seq<string>)
    requires p.inCodeBlock && forall l | l in body :: !IsFence(l)
    ensures Fold(Processor(style), p, body) == p.(codeContent := p.codeContent + Unlines(body))
    decreases |body|
  {
    if body == [] {
      assert p.codeContent + "" == p.codeContent;
    } else {
      var content := p.codeContent + body[0] + "\n";
      assert !IsFence(body[0]);
      CodeLines(style, p.(codeContent := content), body[1..]);
      assert content + Unlines(body[1..]) == p.codeContent + (body[0] + "\n" + Unlines(body[1..]));
    }
  }

  /**
    A fenced block is rendered once, verbatim, whatever its lines look like, under the language of its opening fence.
    A table that was open stays open across it.
   */
  lemma CodeBlockVerbatim(style: Style, p: Page, first: string, body: seq<string>, last: string)
    requires WellFormed(p) && !p.inCodeBlock && IsFence(first) && IsFence(last)
    requires forall l | l in body :: !IsFence(l)
    ensures Fold(Processor(style), p, [first] + (body + [last])) ==
            p.(out := p.out + style.codeBlock(Unlines(body), Trim(TrimFences(TrimStart(first)))))
  {
    var lines := [first] + (body + [last]);
    assert lines[1..] == body + [last];
    var start := p.(inCodeBlock := true, codeLang := Trim(TrimFences(TrimStart(first))));
    CodeLines(style, start, body);
    FoldAppend(Processor(style), start, body, [last]);
    var inside := start.(codeContent := Unlines(body));
    assert start.codeContent + Unlines(body) == Unlines(body);
    FoldOne(Processor(style), inside, last);
  }

  lemma FoldOne(f: (Page, string) -> Page, p: Page, line: string)
    ensures Fold(f, p, [line]) == f(p, line)
  {
    assert [line][1..] == [];
  }

  /** The cells of the rows that are not separators. */
  function RowCells(lines: seq<string>): seq<seq<string>> {
    if lines == [] then []
    else (if IsSeparatorRow(Cells(lines[0])) then [] else [Cells(lines[0])]) + RowCells(lines[1..])
  }

  lemma {:induction false} TableLines(style: Style, p: Page, lines: seq<string>)
    requires WellFormed(p) && !p.inCodeBlock && forall l | l in lines :: IsRow(l) && !IsFence(l)
    ensures var q := Fold(Processor(style), p, lines);
            && WellFormed(q) && q.rows == p.rows + RowCells(lines)
            && q.inTable == (p.inTable || RowCells(lines) != [])
            && q.out == p.out && !q.inCodeBlock
    decreases |lines|
  {
    if lines == [] {
      assert p.rows + [] == p.rows;
    } else {
      var q := ProcessLine(style, p, lines[0]);
      assert IsRow(lines[0]) && !IsFence(lines[0]);
      LineKeepsWellFormed(style, p, lines[0]);
      TableLines(style, q, lines[1..]);
      var row := if IsSeparatorRow(Cells(lines[0])) then [] else [Cells(lines[0])];
      assert q.rows == p.rows + row;
      AppendAssoc(p.rows, row, RowCells(lines[1..]));
    }
  }

  /**
    A table is rendered once, at the first line after it, from all its rows but the separators, with tight columns; the
    line itself comes after it.
   */
  lemma TableRenderedWhole(style: Style, p: Page, rows: seq<string>, line: string) returns (widths: seq<nat>)
    requires WellFormed(p) && !p.inCodeBlock && !p.inTable && RowCells(rows) != []
    requires forall l | l in rows :: IsRow(l) && !IsFence(l)
    requires !IsRow(line) && !IsFence(line)
    ensures Tight(widths, RowCells(rows))
    ensures var q := Fold(Processor(style), p, rows + [line]);
            q == BLANK.(out := p.out + style.table(RowCells(rows), widths) + style.regular(line))
  {
    TableLines(style, p, rows);
    FoldAppend(Processor(style), p, rows, [line]);
    var open := Fold(Processor(style), p, rows);
    assert [] + RowCells(rows) == RowCells(rows);
    widths := open.colWidths;
    FoldOne(Processor(style), open, line);
  }

  // ---------------------------------------------------------------- plain text

  /** A line that neither opens nor closes a code block, nor belongs to a table. */
  predicate IsText(line: string) {
    !IsFence(line) && !IsRow(line)
  }

  function Shown(style: Style, lines: seq<string>): string {
    if lines == [] then "" else style.regular(lines[0]) + Shown(style, lines[1..])
  }

  lemma {:induction false} TextLinesShown(style: Style, p: Page, lines: seq<string>)
    requires !p.inCodeBlock && !p.inTable && forall l | l in lines :: IsText(l)
    ensures Fold(Processor(style), p, lines) == p.(out := p.out + Shown(style, lines))
    decreases |lines|
  {
    if lines == [] {
      assert p.out + "" == p.out;
    } else {
      assert IsText(lines[0]);
      TextLinesShown(style, p.(out := p.out + style.regular(lines[0])), lines[1..]);
      AppendAssoc(p.out, style.regular(lines[0]), Shown(style, lines[1..]));
    }
  }

  /**
    A text without code blocks and tables, with or without a newline at its end, in any tokens: each line is shown, in
    order, and so is the unfinished one at the flush, with a newline after it.
   */
  lemma PlainTextShown(style: Style, lines: seq<string>, last: string, tokens: seq<string>)
    requires Concat(tokens) == Unlines(lines) + last
    requires '\n' !in last && forall l | l in lines :: '\n' !in l && IsText(l)
    ensures Flush(style, FeedAll(style, START, tokens)).0 ==
            Shown(style, lines) + if last == "" then "" else style.regular(last) + "\n"
  {
    var text := Unlines(lines) + last;
    FeedingInPieces(style, START, tokens);
    assert "" + text == text;
    UnlinesSplit(lines, last);
    TextLinesShown(style, BLANK, lines);
    assert "" + Shown(style, lines) == Shown(style, lines);
  }

  lemma {:induction false} UnlinesSplit(lines: seq<string>, last: string)
    requires '\n' !in last && forall l | l in lines :: '\n' !in l
    ensures Complete(Unlines(lines) + last, '\n') == lines && Rest(Unlines(lines) + last, '\n') == last
    decreases |lines|
  {
    if lines == [] {
      assert "" + last == last;
      LinesNone(last, '\n');
    } else {
      UnlinesSplit(lines[1..], last);
      var more := Unlines(lines[1..]) + last;
      assert Unlines(lines) + last == lines[0] + ['\n'] + more;
      assert '\n' !in lines[0];
      LinesCons(lines[0], '\n', more);
      assert lines == [lines[0]] + lines[1..];
    }
  }

  // ---------------------------------------------------------------- what is open at a flush

  /** A code block that is never closed is rendered at the flush, and then the unfinished line as text. */
  lemma OpenCodeFlushed(style: Style, p: Page, first: string, body: seq<string>, last: string, raw: string)
    requires WellFormed(p) && !p.inCodeBlock && !p.inTable && IsFence(first) && forall l | l in body :: !IsFence(l)
    ensures var page := Fold(Processor(style), p, [first] + body);
            Flush(style, State(page, last, raw)).0 ==
            p.out + style.codeBlock(Unlines(body), Trim(TrimFences(TrimStart(first))))
            + if last == "" then "" else style.regular(last) + "\n"
  {
    assert ([first] + body)[1..] == body;
    var start := p.(inCodeBlock := true, codeLang := Trim(TrimFences(TrimStart(first))));
    CodeLines(style, start, body);
    assert "" + Unlines(body) == Unlines(body);
  }

  /** A table at the end of the text is rendered at the flush, whole, and then the unfinished line as text. */
  lemma OpenTableFlushed(style: Style, p: Page, rows: seq<string>, last: string, raw: string) returns (widths: seq<nat>)
    requires WellFormed(p) && !p.inCodeBlock && !p.inTable && RowCells(rows) != []
    requires forall l | l in rows :: IsRow(l) && !IsFence(l)
    ensures Tight(widths, RowCells(rows))
    ensures var page := Fold(Processor(style), p, rows);
            Flush(style, State(page, last, raw)).0 ==
            p.out + style.table(RowCells(rows), widths) + if last == "" then "" else style.regular(last) + "\n"
  {
    TableLines(style, p, rows);
    assert [] + RowCells(rows) == RowCells(rows);
    widths := Fold(Processor(style), p, rows).colWidths;
  }

  // ---------------------------------------------------------------- what a row and a fence say

  /** Text without white space at either end. */
  predicate Tidy(s: string) {
    s != "" && !IsWhitespace(s[0]) && !IsWhitespace(s[|s| - 1])
  }

  lemma {:induction false} TrimStartAppend(space: string, text: string)
    requires Blank(space) && (text == "" || !IsWhitespace(text[0]))
    ensures TrimStart(space + text) == text
    decreases |space|
  {
    if space == "" {
      assert space + text == text;
    } else {
      assert (space + text)[1..] == space[1..] + text && (space + text)[0] == space[0];
      TrimStartAppend(space[1..], text);
    }
  }

  lemma TrimTidy(before: string, text: string, after: string)
    requires Blank(before) && Blank(after) && (Tidy(text) || text == "")
    ensures Trim(before + text + after) == text
  {
    if text == "" {
      assert before + text + after == (before + after) + "";
      TrimStartAppend(before + after, "");
      assert "" + "" == "";
      TrimEndAppend("", "");
    } else {
      AppendAssoc(before, text, after);
      TrimStartAppend(before, text + after);
      TrimEndAppend(text, after);
    }
  }

  /** A cell with the white space around it. */
  datatype Cell = Cell(before: string, text: string, after: string)

  predicate WellFormedCell(c: Cell) {
    && Blank(c.before) && Blank(c.after) && (Tidy(c.text) || c.text == "")
    && '|' !in c.before + c.text + c.after
  }

  function RowOf(cells: seq<Cell>): string {
    if cells == [] then "" else cells[0].before + cells[0].text + cells[0].after + "|" + RowOf(cells[1..])
  }

  function CellTexts(cells: seq<Cell>): seq<string> {
    if cells == [] then [] else (if cells[0].text == "" then [] else [cells[0].text]) + CellTexts(cells[1..])
  }

  lemma {:induction false} RowSplits(cells: seq<Cell>)
    requires forall c | c in cells :: WellFormedCell(c)
    ensures NonEmpty(Split(RowOf(cells), '|')) == CellTexts(cells)
    decreases |cells|
  {
    if cells == [] {
      LinesNone("", '|');
      assert Split("", '|') == [""] && [""][1..] == [];
      TrimTidy("", "", "");
      assert "" + "" + "" == "";
    } else {
      var c, more := cells[0], RowOf(cells[1..]);
      var raw := c.before + c.text + c.after;
      assert WellFormedCell(c);
      RowSplits(cells[1..]);
      LinesCons(raw, '|', more);
      assert RowOf(cells) == raw + ['|'] + more;
      assert Split(RowOf(cells), '|') == [raw] + Split(more, '|');
      assert ([raw] + Split(more, '|'))[1..] == Split(more, '|');
      TrimTidy(c.before, c.text, c.after);
    }
  }

  /** A row says the texts of its cells, trimmed, without the empty ones; it is a separator iff they are all rules. */
  lemma RowReadsBack(cells: seq<Cell>)
    requires forall c | c in cells :: WellFormedCell(c)
    ensures Cells("|" + RowOf(cells)) == CellTexts(cells)
    ensures IsSeparatorRow(CellTexts(cells)) <==>
            forall c, i | c in CellTexts(cells) && 0 <= i < |c| :: c[i] in {'-', ':', ' '}
  {
    var none := Cell("", "", "");
    assert RowOf([none] + cells) == "|" + RowOf(cells) && ([none] + cells)[1..] == cells;
    assert "" + "" + "" == "";
    RowSplits([none] + cells);
    RuleIff(CellTexts(cells));
  }

  lemma RuleIff(texts: seq<string>)
    ensures IsSeparatorRow(texts) <==> forall c, i | c in texts && 0 <= i < |c| :: c[i] in {'-', ':', ' '}
  {
    if IsSeparatorRow(texts) {
      forall c, i | c in texts && 0 <= i < |c| ensures c[i] in {'-', ':', ' '} {
        assert c[i] in c;
      }
    }
  }

  function Fences(n: nat): string {
    if n == 0 then "" else FENCE + Fences(n - 1)
  }

  lemma {:induction false} FencesTrimmed(n: nat, tail: string)
    requires !StartsWith(tail, FENCE)
    ensures TrimFences(Fences(n) + tail) == tail
  {
    if n == 0 {
      assert "" + tail == tail;
    } else {
      var s, rest := Fences(n) + tail, Fences(n - 1) + tail;
      AppendAssoc(FENCE, Fences(n - 1), tail);
      assert s[..3] == FENCE && s[3..] == rest;
      FencesTrimmed(n - 1, tail);
    }
  }

  /** The language is what stands after all the fences, trimmed. */
  lemma FenceReadsBack(indent: string, n: nat, before: string, language: string, after: string)
    requires Blank(indent) && Blank(before) && Blank(after) && n > 0
    requires language == "" || (Tidy(language) && language[0] != '`')
    ensures var line := indent + (Fences(n) + (before + language + after));
            IsFence(line) && Trim(TrimFences(TrimStart(line))) == language
  {
    var tail := before + language + after;
    var fenced := Fences(n) + tail;
    AppendAssoc(FENCE, Fences(n - 1), tail);
    assert fenced[..3] == FENCE;
    TrimStartAppend(indent, fenced);
    assert !StartsWith(tail, FENCE) by {
      if tail != "" {
        assert tail[0] != '`';
      }
    }
    FencesTrimmed(n, tail);
    TrimTidy(before, language, after);
  }
}
