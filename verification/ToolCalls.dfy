/** `strip_trailing_incomplete_escape`: the byte-wise backward walk over streamed tool arguments. */
module TrailingEscape {
  import opened ByteText

  const QUOTE: Byte := 0x22
  const BACKSLASH: Byte := 0x5C

  /** The bytes before a final backslash that make the walk keep it: `\ " n t r / b f`. */
  const KEEPERS: seq<Byte> := [0x5C, 0x22, 0x6E, 0x74, 0x72, 0x2F, 0x62, 0x66]

  /** Without the control bytes at the end. */
  function TrimControls(s: Bytes): (p: Bytes)
    ensures p <= s
  {
    if s != [] && s[|s| - 1] <= 0x1F then TrimControls(s[..|s| - 1]) else s
  }

  predicate EndsInBackslash(p: Bytes) {
    p != [] && p[|p| - 1] == BACKSLASH
  }

  /** The byte before the last one makes a final backslash look like part of a complete escape. */
  predicate Kept(p: Bytes) {
    |p| > 1 && p[|p| - 2] in KEEPERS
  }

  function Strip(s: Bytes): Bytes {
    var p := TrimControls(s);
    if EndsInBackslash(p) && !Kept(p) then p[..|p| - 1] else p
  }

  method StripTrailingIncompleteEscape(s: Bytes) returns (r: Bytes)
    ensures r == Strip(s)
  {
    var end := |s|;
    assert s[..end] == s;
    while end > 0
      invariant 0 <= end <= |s|
      invariant TrimControls(s) == TrimControls(s[..end]) || (end == 0 && Strip(s) == [])
    {
      var b := s[end - 1];
      assert s[..end][..end - 1] == s[..end - 1];
      if b == QUOTE || (b > 0x1F && b != BACKSLASH) {
        break;
      }
      if b == BACKSLASH && end > 1 {
        if s[end - 2] in KEEPERS {
          break;
        }
        end := end - 1;
        return s[..end];
      }
      end := end - 1;
    }
    r := s[..end];
  }

  // ---------------------------------------------------------------- UTF-8 safety

  predicate Tail(b: Byte) {
    0x80 <= b <= 0xBF
  }

  /** The length of the well-formed character in front (the grammar of section 4 of RFC 3629), or 0. */
  function CharLength(s: Bytes): (n: nat)
    ensures n <= |s|
  {
    if |s| >= 1 && s[0] <= 0x7F then 1
    else if |s| >= 2 && 0xC2 <= s[0] <= 0xDF && Tail(s[1]) then 2
    else if |s| >= 3 && ThreeBytes(s[0], s[1]) && Tail(s[2]) then 3
    else if |s| >= 4 && FourBytes(s[0], s[1]) && Tail(s[2]) && Tail(s[3]) then 4
    else 0
  }

  predicate ThreeBytes(a: Byte, b: Byte) {
    || (a == 0xE0 && 0xA0 <= b <= 0xBF)
    || (0xE1 <= a <= 0xEC && Tail(b))
    || (a == 0xED && 0x80 <= b <= 0x9F)
    || (0xEE <= a <= 0xEF && Tail(b))
  }

  predicate FourBytes(a: Byte, b: Byte) {
    || (a == 0xF0 && 0x90 <= b <= 0xBF)
    || (0xF1 <= a <= 0xF3 && Tail(b))
    || (a == 0xF4 && 0x80 <= b <= 0x8F)
  }

  predicate ValidUtf8(s: Bytes) {
    s == [] || (CharLength(s) > 0 && ValidUtf8(s[CharLength(s)..]))
  }

  /** Taking an ASCII byte off the end of valid text leaves valid text. */
  lemma {:induction false} DropAscii(s: Bytes)
    requires ValidUtf8(s) && s != [] && s[|s| - 1] <= 0x7F
    ensures ValidUtf8(s[..|s| - 1])
    decreases |s|
  {
    var n, front := CharLength(s), s[..|s| - 1];
    if n == |s| {
      assert n == 1;
    } else {
      assert CharLength(front) == n;
      DropAscii(s[n..]);
      assert s[n..][..|s[n..]| - 1] == front[n..];
    }
  }

  lemma {:induction false} TrimControlsSafe(s: Bytes)
    ensures ValidUtf8(s) ==> ValidUtf8(TrimControls(s))
    ensures var p := TrimControls(s);
            (forall i | |p| <= i < |s| :: s[i] <= 0x1F) && (p != [] ==> p[|p| - 1] > 0x1F)
    decreases |s|
  {
    if s != [] && s[|s| - 1] <= 0x1F {
      TrimControlsSafe(s[..|s| - 1]);
      if ValidUtf8(s) {
        DropAscii(s);
      }
    }
  }

  /**
    For every valid UTF-8 string the cut lands on a character boundary and the result is a valid prefix; what is removed
    is ASCII control characters after at most one backslash.
   */
  lemma StripIsUtf8Safe(s: Bytes)
    requires ValidUtf8(s)
    ensures Strip(s) <= s && ValidUtf8(Strip(s))
    ensures var cut := |Strip(s)|;
            && (cut < |s| ==> !Tail(s[cut]) && (s[cut] == BACKSLASH || s[cut] <= 0x1F))
            && forall i | cut < i < |s| :: s[i] <= 0x1F
  {
    TrimControlsSafe(s);
    var p := TrimControls(s);
    if EndsInBackslash(p) && !Kept(p) {
      DropAscii(p);
      assert s[|p| - 1] == p[|p| - 1];
    }
  }

  // ---------------------------------------------------------------- exactly what is removed

  /** The byte before a final backslash for which the backslash stays. */
  predicate Keeps(b: Byte) {
    || b == '\\' as int || b == '"' as int || b == 'n' as int || b == 't' as int
    || b == 'r' as int || b == '/' as int || b == 'b' as int || b == 'f' as int
  }

  /**
    What is removed is the control bytes at the end, all of them, and before them one backslash, exactly if there is one
    and the byte before it does not keep it.
   */
  lemma StripIs(s: Bytes)
    ensures var r := Strip(s);
            && r <= s
            && var removed := s[|r|..];
            if removed != [] && removed[0] == 0x5C then
              && (forall i | 1 <= i < |removed| :: removed[i] <= 31)
              && (r == [] || !Keeps(r[|r| - 1]))
            else
              && (forall i | 0 <= i < |removed| :: removed[i] <= 31)
              && (r == [] || r[|r| - 1] > 31)
              && (r != [] && r[|r| - 1] == 0x5C ==> |r| > 1 && Keeps(r[|r| - 2]))
  {
    TrimControlsSafe(s);
    var p := TrimControls(s);
    assert p == s[..|p|];
    if EndsInBackslash(p) {
      assert s[|p| - 1] == BACKSLASH;
      if |p| > 1 {
        KeepersAre(p[|p| - 2]);
      }
    }
  }

  lemma KeepersAre(b: Byte)
    ensures b in KEEPERS <==> Keeps(b)
  {
    assert KEEPERS[0] == 0x5C && KEEPERS[1] == 0x22 && KEEPERS[2] == 0x6E && KEEPERS[3] == 0x74;
    assert KEEPERS[4] == 0x72 && KEEPERS[5] == 0x2F && KEEPERS[6] == 0x62 && KEEPERS[7] == 0x66;
  }

  // ---------------------------------------------------------------- what it completes, and what it does not

  const LETTER_U: Byte := 0x75

  predicate IsHex(b: Byte) {
    0x30 <= b <= 0x39 || 0x41 <= b <= 0x46 || 0x61 <= b <= 0x66
  }

  /** Where a reader of JSON string text is: outside escapes, after a backslash, or after `\u` and some hex digits. */
  datatype Escape = Outside | Backslash | Unicode(digits: nat)

  function Next(e: Escape, b: Byte): Escape {
    match e
    case Backslash => if b == LETTER_U then Unicode(0) else Outside
    case Unicode(n) =>
      if b == BACKSLASH then Backslash
      else if IsHex(b) && n < 3 then Unicode(n + 1)
      else Outside
    case Outside => if b == BACKSLASH then Backslash else Outside
  }

  function EscapeAt(s: Bytes): Escape {
    if s == [] then Outside else Next(EscapeAt(s[..|s| - 1]), s[|s| - 1])
  }

  /** The text ends in the middle of an escape. */
  predicate Incomplete(s: Bytes) {
    EscapeAt(s) != Outside
  }

  function TrailingBackslashes(s: Bytes): nat {
    if EndsInBackslash(s) then 1 + TrailingBackslashes(s[..|s| - 1]) else 0
  }

  /** The last backslash is not itself escaped. */
  predicate EndsUnescaped(s: Bytes) {
    TrailingBackslashes(s) % 2 == 1
  }

  /** The text ends in an unescaped `\u` and fewer than four hex digits. */
  predicate EndsInUnicode(s: Bytes) {
    exists n | 0 <= n < 4 :: EndsInDigits(s, n)
  }

  predicate EndsInDigits(s: Bytes, n: int) {
    && 0 <= n < 4 && |s| >= n + 1 && (forall i | |s| - n <= i < |s| :: IsHex(s[i]))
    && s[|s| - n - 1] == LETTER_U && EndsUnescaped(s[..|s| - n - 1])
  }

  lemma {:induction false} EscapeIsBackslash(s: Bytes)
    ensures EscapeAt(s) == Backslash <==> EndsUnescaped(s)
  {
    if s != [] {
      EscapeIsBackslash(s[..|s| - 1]);
    }
  }

  lemma {:induction false} EscapeIsUnicode(s: Bytes, n: nat)
    ensures EscapeAt(s) == Unicode(n) <==> EndsInDigits(s, n)
    decreases |s|
  {
    if s != [] {
      var init := s[..|s| - 1];
      EscapeIsBackslash(init);
      if n > 0 {
        EscapeIsUnicode(init, n - 1);
        assert |s| >= n + 1 ==> init[..|init| - n] == s[..|s| - n - 1];
      }
      if 3 < n {
        EscapeDigits(s);
      }
    }
  }

  lemma {:induction false} EscapeDigits(s: Bytes)
    ensures EscapeAt(s).Unicode? ==> EscapeAt(s).digits < 4
  {
    if s != [] {
      EscapeDigits(s[..|s| - 1]);
    }
  }

  /** An incomplete escape, read off the end of the text. */
  lemma IncompleteIff(s: Bytes)
    ensures Incomplete(s) <==> EndsUnescaped(s) || EndsInUnicode(s)
  {
    EscapeIsBackslash(s);
    if EndsInUnicode(s) {
      var n :| 0 <= n < 4 && EndsInDigits(s, n);
      EscapeIsUnicode(s, n);
    }
    if EscapeAt(s).Unicode? {
      EscapeIsUnicode(s, EscapeAt(s).digits);
    }
  }

  /**
    The name promises more than the walk does.  After the trailing control bytes, an incomplete escape survives exactly
    when the byte before an unescaped final backslash is one of the keepers, since the walk looks at the byte before the
    backslash and not after it; or when the text, less a final backslash, ends in an unfinished `\u` escape.
   */
  lemma StripCompletesIff(s: Bytes)
    ensures var p := TrimControls(s);
            Incomplete(Strip(s)) <==>
            (EndsUnescaped(p) && Kept(p)) || EndsInUnicode(if EndsInBackslash(p) then p[..|p| - 1] else p)
  {
    var p := TrimControls(s);
    IncompleteIff(Strip(s));
    if EndsInBackslash(p) {
      var q := p[..|p| - 1];
      NoDigitsAfterBackslash(p);
      assert KEEPERS[0] == BACKSLASH;
      assert !Kept(p) ==> !EndsInBackslash(q);
      if EndsInBackslash(q) {
        NoDigitsAfterBackslash(q);
      } else {
        assert TrailingBackslashes(q) == 0 && EndsUnescaped(p);
      }
    }
  }

  lemma NoDigitsAfterBackslash(p: Bytes)
    requires EndsInBackslash(p)
    ensures !EndsInUnicode(p)
  {
  }

  /** For instance after the letter n. */
  lemma StripLeavesIncompleteEscape()
    ensures Incomplete([0x6E, BACKSLASH]) && Strip([0x6E, BACKSLASH]) == [0x6E, BACKSLASH]
  {
    var s: Bytes := [0x6E, BACKSLASH];
    assert s[..1] == [0x6E];
    assert TrailingBackslashes(s[..1]) == 0;
    assert TrimControls(s) == s;
    IncompleteIff(s);
  }

  /** And every unfinished `\u` escape at the end of the text, for instance one with two digits. */
  lemma StripLeavesUnicode(s: Bytes)
    requires EndsInUnicode(s)
    ensures Strip(s) == s && Incomplete(s)
    ensures EndsInUnicode([BACKSLASH, LETTER_U, 0x31, 0x32])
  {
    IncompleteIff(s);
    var cut: Bytes := [BACKSLASH, LETTER_U, 0x31, 0x32];
    assert cut[..1] == [BACKSLASH] && [BACKSLASH][..0] == [];
    assert TrailingBackslashes([]) == 0 && TrailingBackslashes(cut[..1]) == 1;
    assert EndsInDigits(cut, 2);
  }
}

/**
  Tool-call accumulation: steps 4 and 5 of `extract_all_tokens` over a `ToolCallAccumulator`, on decoded chunks.
 */
module ToolCalls {
  import opened ByteText
  import opened Wrappers
  import opened Sequences
  import TrailingEscape

  datatype Function = Function(name: Option<Bytes>, arguments: Option<Bytes>)
  datatype Delta = Delta(index: Option<nat>, id: Option<Bytes>, call: Option<Function>)
  datatype Chunk = Chunk(deltas: seq<Delta>, finishReason: Option<Bytes>)

  datatype Entry = Entry(id: Bytes, name: Bytes, arguments: Bytes)
  type Entries = map<nat, Entry>

  datatype Token = FinishReason(reason: Bytes) | ToolCall(name: Bytes, arguments: Bytes)

  const NULL_TEXT: Bytes := [0x6E, 0x75, 0x6C, 0x6C]

  function IndexOf(d: Delta): nat {
    if d.index.Some? then d.index.value else 0
  }

  /** A field that is missing reads as empty, and an empty one changes nothing. */
  function IdOf(d: Delta): Bytes {
    if d.id.Some? then d.id.value else []
  }

  function NameOf(d: Delta): Bytes {
    if d.call.Some? && d.call.value.name.Some? then d.call.value.name.value else []
  }

  function ArgumentsOf(d: Delta): Bytes {
    if d.call.Some? && d.call.value.arguments.Some? then d.call.value.arguments.value else []
  }

  function Absorb(entries: Entries, d: Delta): Entries {
    var i := IndexOf(d);
    var e := if i in entries then entries[i] else Entry([], [], []);
    entries[i := Entry(if IdOf(d) != [] then IdOf(d) else e.id,
                       if NameOf(d) != [] then NameOf(d) else e.name,
                       e.arguments + ArgumentsOf(d))]
  }

  function AbsorbAll(entries: Entries, ds: seq<Delta>): Entries {
    if ds == [] then entries else Absorb(AbsorbAll(entries, ds[..|ds| - 1]), ds[|ds| - 1])
  }

  predicate Ends(finish: Option<Bytes>) {
    finish.Some? && finish.value != [] && finish.value != NULL_TEXT
  }

  predicate Callable(e: Entry) {
    e.name != [] && e.id != []
  }

  function TokenOf(e: Entry): Token {
    ToolCall(e.name, TrailingEscape.Strip(e.arguments))
  }

  /** One token per callable entry, in the arbitrary order in which a hash map is drained. */
  ghost predicate InOrder(tokens: seq<Token>, entries: Entries, order: seq<nat>) {
    && Distinct(order)
    && (forall i :: i in order <==> i in entries && Callable(entries[i]))
    && |tokens| == |order|
    && forall k | 0 <= k < |order| :: order[k] in entries && tokens[k] == TokenOf(entries[order[k]])
  }

  /** What one chunk does: absorb its deltas, and at a finish reason emit and empty everything. */
  ghost predicate Step(entries: Entries, chunk: Chunk, tokens: seq<Token>, entries': Entries) {
    var all := AbsorbAll(entries, chunk.deltas);
    if Ends(chunk.finishReason) then
      && entries' == map[]
      && |tokens| > 0 && tokens[0] == FinishReason(chunk.finishReason.value)
      && exists order :: InOrder(tokens[1..], all, order)
    else
      entries' == all && tokens == []
  }

  class ToolCallAccumulator {
    var entries: Entries

    constructor ()
      ensures entries == map[]
    {
      entries := map[];
    }

    method ExtractTokens(chunk: Chunk) returns (tokens: seq<Token>)
      modifies this
      ensures Step(old(entries), chunk, tokens, entries)
    {
      tokens := [];
      for i := 0 to |chunk.deltas|
        invariant entries == AbsorbAll(old(entries), chunk.deltas[..i])
      {
        assert chunk.deltas[..i + 1][..i] == chunk.deltas[..i];
        entries := Absorb(entries, chunk.deltas[i]);
      }
      assert chunk.deltas[..|chunk.deltas|] == chunk.deltas;
      if Ends(chunk.finishReason) {
        var calls := DrainEntries();
        tokens := [FinishReason(chunk.finishReason.value)] + calls;
        assert tokens[1..] == calls;
      }
    }

    method DrainEntries() returns (tokens: seq<Token>)
      modifies this
      ensures entries == map[]
      ensures exists order :: InOrder(tokens, old(entries), order)
    {
      tokens := [];
      var left := entries;
      ghost var order: seq<nat>, drained: Entries := [], map[];
      while left.Keys != {}
        invariant left.Keys !! drained.Keys && drained + left == old(entries)
        invariant InOrder(tokens, drained, order)
        decreases left.Keys
      {
        var i :| i in left;
        var e := left[i];
        MoveOne(drained, left, i);
        InOrderAdd(tokens, drained, order, i, e);
        left, drained := left - {i}, drained[i := e];
        if Callable(e) {
          var fixed := TrailingEscape.StripTrailingIncompleteEscape(e.arguments);
          tokens, order := tokens + [ToolCall(e.name, fixed)], order + [i];
        }
      }
      assert drained == old(entries);
      entries := map[];
    }
  }

  lemma MoveOne(a: Entries, b: Entries, i: nat)
    requires a.Keys !! b.Keys && i in b
    ensures a[i := b[i]] + (b - {i}) == a + b && a[i := b[i]].Keys !! (b - {i}).Keys
  {
  }

  lemma InOrderAdd(tokens: seq<Token>, entries: Entries, order: seq<nat>, i: nat, e: Entry)
    requires InOrder(tokens, entries, order) && i !in entries
    ensures if Callable(e) then InOrder(tokens + [TokenOf(e)], entries[i := e], order + [i])
            else InOrder(tokens, entries[i := e], order)
  {
  }

  // ---------------------------------------------------------------- what has been accumulated, from the deltas alone

  /** A delta without an index is for index 0. */
  predicate IsFor(d: Delta, i: nat) {
    match d.index
    case Some(index) => index == i
    case None => i == 0
  }

  /** The last non-empty id, the last non-empty name and all argument fragments in order, of one index. */
  function LastId(ds: seq<Delta>, i: nat): Bytes {
    if ds == [] then []
    else
      var d, earlier := ds[|ds| - 1], LastId(ds[..|ds| - 1], i);
      match d.id
      case Some(id) => if IsFor(d, i) && |id| > 0 then id else earlier
      case None => earlier
  }

  function LastName(ds: seq<Delta>, i: nat): Bytes {
    if ds == [] then []
    else
      var d, earlier := ds[|ds| - 1], LastName(ds[..|ds| - 1], i);
      match d.call
      case Some(Function(Some(name), _)) => if IsFor(d, i) && |name| > 0 then name else earlier
      case _ => earlier
  }

  function Fragments(ds: seq<Delta>, i: nat): Bytes {
    if ds == [] then []
    else
      var d, earlier := ds[|ds| - 1], Fragments(ds[..|ds| - 1], i);
      match d.call
      case Some(Function(_, Some(fragment))) => if IsFor(d, i) then earlier + fragment else earlier
      case _ => earlier
  }

  function EntryFrom(ds: seq<Delta>, i: nat): Entry {
    Entry(LastId(ds, i), LastName(ds, i), Fragments(ds, i))
  }

  /** The entry of an index, or the empty entry. */
  function EntryAt(entries: Entries, i: nat): Entry {
    if i in entries then entries[i] else Entry([], [], [])
  }

  /** The accumulated entries are a function of the deltas: interleaving with other indices does not matter. */
  lemma {:induction false} AccumulatedEntry(ds: seq<Delta>, i: nat)
    ensures EntryAt(AbsorbAll(map[], ds), i) == EntryFrom(ds, i)
  {
    if ds != [] {
      AccumulatedEntry(ds[..|ds| - 1], i);
      var before := AbsorbAll(map[], ds[..|ds| - 1]);
      assert AbsorbAll(map[], ds) == Absorb(before, ds[|ds| - 1]);
      assert EntryAt(before, i).arguments + [] == EntryAt(before, i).arguments;
    }
  }

  lemma {:induction false} AbsorbAppend(entries: Entries, a: seq<Delta>, b: seq<Delta>)
    ensures AbsorbAll(entries, a + b) == AbsorbAll(AbsorbAll(entries, a), b)
    decreases |b|
  {
    if b == [] {
      assert a + b == a;
    } else {
      assert (a + b)[..|a + b| - 1] == a + b[..|b| - 1];
      AbsorbAppend(entries, a, b[..|b| - 1]);
    }
  }

  function AllDeltas(chunks: seq<Chunk>): seq<Delta> {
    if chunks == [] then [] else AllDeltas(chunks[..|chunks| - 1]) + chunks[|chunks| - 1].deltas
  }

  /** A run of the accumulator over a stream: the tokens of each chunk and the entries between chunks. */
  ghost predicate Run(chunks: seq<Chunk>, outputs: seq<seq<Token>>, states: seq<Entries>) {
    && |outputs| == |chunks| && |states| == |chunks| + 1 && states[0] == map[]
    && forall k | 0 <= k < |chunks| :: Step(states[k], chunks[k], outputs[k], states[k + 1])
  }

  lemma {:induction false} Accumulates(chunks: seq<Chunk>, outputs: seq<seq<Token>>, states: seq<Entries>, n: nat)
    requires Run(chunks, outputs, states) && n <= |chunks|
    requires forall k | 0 <= k < n :: !Ends(chunks[k].finishReason)
    ensures states[n] == AbsorbAll(map[], AllDeltas(chunks[..n]))
    ensures forall k | 0 <= k < n :: outputs[k] == []
  {
    if n > 0 {
      Accumulates(chunks, outputs, states, n - 1);
      assert chunks[..n][..n - 1] == chunks[..n - 1];
      AbsorbAppend(map[], AllDeltas(chunks[..n - 1]), chunks[n - 1].deltas);
      assert Step(states[n - 1], chunks[n - 1], outputs[n - 1], states[n]);
    }
  }

  /**
    `order` lists, once each, the indices of the stream whose final name and id are non-empty, and the tokens are the
    calls at those indices, with the stripped concatenation of all their fragments.
   */
  ghost predicate CallsOf(ds: seq<Delta>, tokens: seq<Token>, order: seq<nat>) {
    && Distinct(order)
    && (forall i: nat :: i in order <==> LastName(ds, i) != [] && LastId(ds, i) != [])
    && |tokens| == |order|
    && forall k | 0 <= k < |order| ::
         tokens[k] == ToolCall(LastName(ds, order[k]), TrailingEscape.Strip(Fragments(ds, order[k])))
  }

  lemma DrainedCalls(ds: seq<Delta>, tokens: seq<Token>, order: seq<nat>)
    requires InOrder(tokens, AbsorbAll(map[], ds), order)
    ensures CallsOf(ds, tokens, order)
  {
    var all := AbsorbAll(map[], ds);
    forall i: nat ensures EntryAt(all, i) == EntryFrom(ds, i) {
      AccumulatedEntry(ds, i);
    }
    forall i: nat ensures i in order <==> LastName(ds, i) != [] && LastId(ds, i) != [] {
      assert EntryAt(all, i) == EntryFrom(ds, i);
    }
    forall k | 0 <= k < |order|
      ensures tokens[k] == ToolCall(LastName(ds, order[k]), TrailingEscape.Strip(Fragments(ds, order[k])))
    {
      assert EntryAt(all, order[k]) == EntryFrom(ds, order[k]);
    }
  }

  /** A finish reason: neither empty nor the text `null`. */
  predicate IsFinish(reason: Option<Bytes>) {
    match reason
    case None => false
    case Some(text) => |text| > 0 && text != [110, 117, 108, 108]
  }

  /**
    For every stream of chunks with interleaved indices that ends in a finish reason, in every drain order: nothing is
    emitted earlier; then the finish reason and exactly one tool call per index whose final name and id are non-empty,
    its arguments the stripped concatenation of that index's fragments; and the accumulator ends empty.
   */
  lemma StreamEmitsEachCallOnce(chunks: seq<Chunk>, outputs: seq<seq<Token>>, states: seq<Entries>)
    requires Run(chunks, outputs, states) && |chunks| > 0
    requires forall k | 0 <= k < |chunks| - 1 :: !IsFinish(chunks[k].finishReason)
    requires IsFinish(chunks[|chunks| - 1].finishReason)
    ensures forall k | 0 <= k < |chunks| - 1 :: outputs[k] == []
    ensures states[|chunks|] == map[]
    ensures var last := outputs[|chunks| - 1];
            && |last| > 0 && last[0] == FinishReason(chunks[|chunks| - 1].finishReason.value)
            && exists order :: CallsOf(AllDeltas(chunks), last[1..], order)
  {
    var n := |chunks| - 1;
    Accumulates(chunks, outputs, states, n);
    var ds, last := AllDeltas(chunks), outputs[n];
    assert Step(states[n], chunks[n], last, states[n + 1]);
    AbsorbAppend(map[], AllDeltas(chunks[..n]), chunks[n].deltas);
    var order :| InOrder(last[1..], AbsorbAll(map[], ds), order);
    DrainedCalls(ds, last[1..], order);
  }
}
