/** The Anthropic event handler, `sse_event_handler`: a transducer from decoded events to stream tokens. */
module Anthropic {
  import opened Lines
  import opened Wrappers

  datatype Kind = BlockStart | BlockDelta | BlockStop | MessageStop | Other
  datatype Block = Block(toolUse: bool, name: Option<string>, input: Option<string>)
  datatype Delta = Delta(inputJson: bool, partialJson: Option<string>, text: Option<string>)
  datatype Event = Malformed | Event(kind: Kind, block: Option<Block>, delta: Option<Delta>)

  datatype Token = ToolCall(name: string, arguments: string) | Text(text: string)

  /** The captured variables: the tool being assembled, if it has a name, and its arguments so far. */
  datatype Handler = Handler(name: Option<string>, args: string)

  datatype Output = Output(after: Handler, tokens: seq<Token>, stop: bool)

  const IDLE := Handler(None, "")

  predicate IsToolStart(e: Event) {
    e.Event? && e.kind.BlockStart? && e.block.Some? && e.block.value.toolUse
  }

  predicate IsInputDelta(e: Event) {
    e.Event? && e.kind.BlockDelta? && e.delta.Some? && e.delta.value.inputJson
  }

  function InitialInput(e: Event): string
    requires IsToolStart(e)
  {
    var input := e.block.value.input;
    if input.Some? && input.value != "{}" then input.value else ""
  }

  function Fragment(e: Event): string {
    if IsInputDelta(e) && e.delta.value.partialJson.Some? then e.delta.value.partialJson.value else ""
  }

  function DeltaText(e: Event): seq<Token> {
    if e.Event? && e.delta.Some? && e.delta.value.text.Some? then [Text(e.delta.value.text.value)] else []
  }

  function Pending(h: Handler): seq<Token> {
    if h.name.Some? then [ToolCall(h.name.value, h.args)] else []
  }

  function Taken(h: Handler): Handler {
    if h.name.Some? then IDLE else h
  }

  /** One event, with a receiver that takes every token. */
  function Handle(h: Handler, e: Event): Output {
    if e.Malformed? then Output(h, [], false)
    else if IsToolStart(e) then Output(Handler(e.block.value.name, InitialInput(e)), [], false)
    else if e.kind.BlockStart? then Output(IDLE, Pending(h) + DeltaText(e), false)
    else if IsInputDelta(e) then Output(h.(args := h.args + Fragment(e)), [], false)
    else if e.kind.BlockStop? || e.kind.MessageStop? then Output(Taken(h), Pending(h), e.kind.MessageStop?)
    else Output(Taken(h), Pending(h) + DeltaText(e), false)
  }

  class SseEventHandler {
    var currentToolName: Option<string>
    var accumulatedArgs: string
    var sent: seq<Token>
    var room: nat             // how many more tokens the receiver will take before it goes away

    function State(): Handler
      reads this
    {
      Handler(currentToolName, accumulatedArgs)
    }

    constructor (room: nat)
      ensures State() == IDLE && sent == [] && this.room == room
    {
      currentToolName, accumulatedArgs, sent, this.room := None, "", [], room;
    }

    method Send(token: Token) returns (ok: bool)
      modifies this
      ensures State() == old(State())
      ensures ok == (old(room) > 0)
      ensures sent == if ok then old(sent) + [token] else old(sent)
      ensures room == if ok then old(room) - 1 else 0
    {
      ok := room > 0;
      if ok {
        sent, room := sent + [token], room - 1;
      }
    }

    /** Takes the name and sends the call; the arguments stay for the caller to clear. */
    method SendPending() returns (ok: bool)
      modifies this
      ensures State() == Handler(None, old(accumulatedArgs))
      ensures ok == (old(room) >= |Pending(old(State()))|)
      ensures sent == if ok then old(sent) + Pending(old(State())) else old(sent)
      ensures room == if ok then old(room) - |Pending(old(State()))| else 0
    {
      ok := true;
      if currentToolName.Some? {
        var name := currentToolName.value;
        currentToolName := None;
        ok := Send(ToolCall(name, accumulatedArgs));
      }
    }

    /**
      A receiver that has gone away stops the stream; up to then it got a prefix of the tokens.  A call it no longer
      took is forgotten but for its arguments.
     */
    method OnEvent(e: Event) returns (stop: bool)
      modifies this
      ensures var o := Handle(old(State()), e);
              if old(room) >= |o.tokens| then
                State() == o.after && sent == old(sent) + o.tokens && room == old(room) - |o.tokens| && stop == o.stop
              else
                && sent == old(sent) + o.tokens[..old(room)] && room == 0 && stop
                && State() == if old(room) == 0 && old(State()).name.Some? then Handler(None, old(accumulatedArgs))
                              else o.after
    {
      if e.Malformed? {
        assert sent == sent + [];
        return false;
      }
      if e.kind.BlockStart? {
        if IsToolStart(e) {
          currentToolName := e.block.value.name;
          accumulatedArgs := "";
          var input := e.block.value.input;
          if input.Some? && input.value != "{}" {
            accumulatedArgs := accumulatedArgs + input.value;
          }
          return false;
        }
        var ok := SendPending();
        if !ok {
          return true;
        }
        accumulatedArgs := "";
      }
      if IsInputDelta(e) {
        if e.delta.value.partialJson.Some? {
          accumulatedArgs := accumulatedArgs + e.delta.value.partialJson.value;
        }
        return false;
      }
      if currentToolName.Some? {
        var ok := SendPending();
        if !ok {
          return true;
        }
        accumulatedArgs := "";
      }
      if e.kind.BlockStop? || e.kind.MessageStop? {
        return e.kind.MessageStop?;
      }
      if e.delta.Some? && e.delta.value.text.Some? {
        var ok := Send(Text(e.delta.value.text.value));
        if !ok {
          return true;
        }
      }
      return false;
    }
  }

  /** All tokens of a stream, up to the event that stops it. */
  function Run(h: Handler, es: seq<Event>): seq<Token>
    decreases |es|
  {
    if es == [] then []
    else
      var o := Handle(h, es[0]);
      o.tokens + if o.stop then [] else Run(o.after, es[1..])
  }

  lemma RunCons(h: Handler, e: Event, rest: seq<Event>)
    ensures var o := Handle(h, e);
            Run(h, [e] + rest) == o.tokens + if o.stop then [] else Run(o.after, rest)
  {
    assert ([e] + rest)[1..] == rest;
  }

  // ---------------------------------------------------------------- exactly which calls are emitted

  /** The tool block still open after the first `n` events: its start and then only input deltas or noise; or -1. */
  function OpenStart(es: seq<Event>, n: nat): (i: int)
    requires n <= |es|
    ensures -1 <= i < n && (i >= 0 ==> IsToolStart(es[i]))
  {
    if n == 0 then -1
    else if IsToolStart(es[n - 1]) then n - 1
    else if es[n - 1].Malformed? || IsInputDelta(es[n - 1]) then OpenStart(es, n - 1)
    else -1
  }

  /** The initial input and all fragments from the start at `i` up to event `n`. */
  function Arguments(es: seq<Event>, i: nat, n: nat): string
    requires i < n <= |es| && IsToolStart(es[i])
  {
    if n == i + 1 then InitialInput(es[i]) else Arguments(es, i, n - 1) + Fragment(es[n - 1])
  }

  predicate Closes(e: Event) {
    !e.Malformed? && !IsInputDelta(e) && !IsToolStart(e)
  }

  /** The tool call that event `n` completes. */
  function ClosedCall(es: seq<Event>, n: nat): seq<Token>
    requires n < |es|
  {
    var i := OpenStart(es, n);
    if Closes(es[n]) && i >= 0 && es[i].block.value.name.Some? then
      [ToolCall(es[i].block.value.name.value, Arguments(es, i, n))]
    else []
  }

  function TextAt(e: Event): seq<Token> {
    if Closes(e) && !e.kind.BlockStop? && !e.kind.MessageStop? then DeltaText(e) else []
  }

  predicate Stops(e: Event) {
    e.Event? && e.kind.MessageStop?
  }

  /** What the events from the `n`th on contribute, each on its own. */
  function Expected(es: seq<Event>, n: nat): seq<Token>
    requires n <= |es|
    decreases |es| - n
  {
    if n == |es| then [] else (ClosedCall(es, n) + TextAt(es[n])) + Expected(es, n + 1)
  }

  ghost predicate Tracks(h: Handler, es: seq<Event>, n: nat)
    requires n <= |es|
  {
    var i := OpenStart(es, n);
    if i >= 0 then h.name == es[i].block.value.name && h.args == Arguments(es, i, n) else h.name.None?
  }

  lemma HandleTracks(h: Handler, es: seq<Event>, n: nat)
    requires n < |es| && Tracks(h, es, n)
    ensures var o := Handle(h, es[n]);
            && o.tokens == ClosedCall(es, n) + TextAt(es[n])
            && Tracks(o.after, es, n + 1)
            && (o.stop <==> Stops(es[n]))
  {
  }

  lemma {:induction false} RunTracks(h: Handler, es: seq<Event>, n: nat)
    requires n <= |es| && Tracks(h, es, n)
    requires forall k | n <= k < |es| - 1 :: !Stops(es[k])
    ensures Run(h, es[n..]) == Expected(es, n)
    decreases |es| - n
  {
    if n < |es| {
      var o := Handle(h, es[n]);
      HandleTracks(h, es, n);
      RunFrom(h, es, n);
      if o.stop {
        LastExpected(es, n);
      } else {
        RunTracks(o.after, es, n + 1);
      }
    }
  }

  lemma RunFrom(h: Handler, es: seq<Event>, n: nat)
    requires n < |es|
    ensures var o := Handle(h, es[n]); Run(h, es[n..]) == o.tokens + if o.stop then [] else Run(o.after, es[n + 1..])
  {
    assert es[n..] == [es[n]] + es[n + 1..];
    RunCons(h, es[n], es[n + 1..]);
  }

  lemma LastExpected(es: seq<Event>, n: nat)
    requires n + 1 == |es|
    ensures Expected(es, n) == (ClosedCall(es, n) + TextAt(es[n])) + []
  {
    assert Expected(es, n + 1) == [];
  }

  /** The events the handler gets: up to and including the one that stops the stream. */
  function UntilStop(es: seq<Event>): seq<Event> {
    if es == [] then [] else if Stops(es[0]) then [es[0]] else [es[0]] + UntilStop(es[1..])
  }

  lemma {:induction false} RunUntilStop(h: Handler, es: seq<Event>)
    ensures Run(h, UntilStop(es)) == Run(h, es)
    ensures forall k | 0 <= k < |UntilStop(es)| - 1 :: !Stops(UntilStop(es)[k])
    decreases |es|
  {
    if es != [] {
      var o := Handle(h, es[0]);
      RunUntilStop(o.after, es[1..]);
      RunCons(h, es[0], if Stops(es[0]) then [] else UntilStop(es[1..]));
    }
  }

  /**
    Every stream: the tokens are, event by event, the call that the event completes and then its text.  A named tool_use
    start therefore yields exactly one call, when the next event that is neither an input delta nor unparsable is not
    again a tool_use start, with the initial input plus all fragments in between; and otherwise none.
   */
  lemma TokensExact(es: seq<Event>)
    ensures Run(IDLE, es) == Expected(UntilStop(es), 0)
  {
    var heard := UntilStop(es);
    RunUntilStop(IDLE, es);
    RunTracks(IDLE, heard, 0);
    assert heard[0..] == heard;
  }

  // ---------------------------------------------------------------- at most one call per start

  function Calls(tokens: seq<Token>): nat {
    if tokens == [] then 0 else (if tokens[0].ToolCall? then 1 else 0) + Calls(tokens[1..])
  }

  function NamedStarts(es: seq<Event>): nat {
    if es == [] then 0
    else (if IsNamedStart(es[0]) then 1 else 0) + NamedStarts(es[1..])
  }

  lemma {:induction false} CallsAppend(a: seq<Token>, b: seq<Token>)
    ensures Calls(a + b) == Calls(a) + Calls(b)
  {
    if a == [] {
      assert a + b == b;
    } else {
      assert (a + b)[0] == a[0] && (a + b)[1..] == a[1..] + b;
      CallsAppend(a[1..], b);
    }
  }

  lemma HandleCalls(h: Handler, e: Event)
    ensures var o := Handle(h, e);
            Calls(o.tokens) + (if o.after.name.Some? then 1 else 0) <=
            (if h.name.Some? then 1 else 0) + NamedStarts([e])
  {
    CallsAppend(Pending(h), DeltaText(e));
    assert [e][1..] == [];
  }

  /** For every event stream and every prefix a failing receiver got, at most one call per named tool_use start. */
  lemma {:induction false} AtMostOneCallPerStart(h: Handler, es: seq<Event>, room: nat)
    requires room <= |Run(h, es)|
    ensures Calls(Run(h, es)[..room]) <= Calls(Run(h, es))
    ensures Calls(Run(h, es)) <= (if h.name.Some? then 1 else 0) + NamedStarts(es)
    decreases |es|
  {
    var all := Run(h, es);
    assert all == all[..room] + all[room..];
    CallsAppend(all[..room], all[room..]);
    if es != [] {
      var o := Handle(h, es[0]);
      HandleCalls(h, es[0]);
      assert [es[0]][1..] == [];
      CallsAppend(o.tokens, if o.stop then [] else Run(o.after, es[1..]));
      if !o.stop {
        AtMostOneCallPerStart(o.after, es[1..], 0);
      }
    }
  }

  // ---------------------------------------------------------------- exactly when no call is lost

  predicate IsNamedStart(e: Event) {
    IsToolStart(e) && e.block.value.name.Some?
  }

  /** An event that closes an open tool block comes before the next tool_use start, and does come. */
  predicate GetsClosed(rest: seq<Event>) {
    rest != [] && (Closes(rest[0]) || (!IsToolStart(rest[0]) && GetsClosed(rest[1..])))
  }

  predicate EveryStartCloses(es: seq<Event>) {
    forall k | 0 <= k < |es| && IsNamedStart(es[k]) :: GetsClosed(es[k + 1..])
  }

  lemma EveryStartClosesCons(es: seq<Event>)
    requires es != []
    ensures EveryStartCloses(es) <==> (IsNamedStart(es[0]) ==> GetsClosed(es[1..])) && EveryStartCloses(es[1..])
  {
    var rest := es[1..];
    forall k | 0 <= k < |rest| ensures es[k + 1] == rest[k] && es[k + 1..][1..] == rest[k + 1..] {
      assert es[k + 2..] == rest[k + 1..];
    }
    if EveryStartCloses(es) {
      forall k | 0 <= k < |rest| && IsNamedStart(rest[k]) ensures GetsClosed(rest[k + 1..]) {
        assert IsNamedStart(es[k + 1]) && es[(k + 1) + 1..] == rest[k + 1..];
      }
    }
    if (IsNamedStart(es[0]) ==> GetsClosed(rest)) && EveryStartCloses(rest) {
      forall k | 0 <= k < |es| && IsNamedStart(es[k]) ensures GetsClosed(es[k + 1..]) {
        if k > 0 {
          assert rest[k - 1] == es[k] && rest[(k - 1) + 1..] == es[k + 1..];
        }
      }
    }
  }

  /** The calls and the open block after one event. */
  lemma HandleOpens(h: Handler, e: Event)
    ensures var o := Handle(h, e);
            if Closes(e) then Calls(o.tokens) == (if h.name.Some? then 1 else 0) && o.after.name.None?
            else o.tokens == [] && (o.after.name.Some? <==> if IsToolStart(e) then IsNamedStart(e) else h.name.Some?)
  {
    CallsAppend(Pending(h), DeltaText(e));
  }

  lemma {:induction false} NoneLostIff(h: Handler, es: seq<Event>)
    requires forall k | 0 <= k < |es| - 1 :: !Stops(es[k])
    ensures Calls(Run(h, es)) == (if h.name.Some? then 1 else 0) + NamedStarts(es) <==>
            (h.name.Some? ==> GetsClosed(es)) && EveryStartCloses(es)
    decreases |es|
  {
    if es != [] {
      var o, rest := Handle(h, es[0]), es[1..];
      HandleOpens(h, es[0]);
      EveryStartClosesCons(es);
      if o.stop {
        assert rest == [];
      } else {
        NoneLostIff(o.after, rest);
        AtMostOneCallPerStart(o.after, rest, 0);
      }
      CallsAppend(o.tokens, if o.stop then [] else Run(o.after, rest));
    }
  }

  /**
    No call is lost, that is there are as many calls as named tool_use starts, if and only if every named start heard is
    closed before the next tool_use start.  A start that follows another loses the call before it, and so does a stream
    that ends with a block open.
   */
  lemma EveryStartCallsIff(es: seq<Event>)
    ensures Calls(Run(IDLE, es)) == NamedStarts(UntilStop(es)) <==> EveryStartCloses(UntilStop(es))
    ensures Calls(Run(IDLE, es)) <= NamedStarts(UntilStop(es))
  {
    RunUntilStop(IDLE, es);
    NoneLostIff(IDLE, UntilStop(es));
    AtMostOneCallPerStart(IDLE, UntilStop(es), 0);
  }

  // ---------------------------------------------------------------- exactly when no fragment is lost

  predicate EndsBlock(e: Event) {
    e.Event? && (e.kind.BlockStart? || e.kind.BlockStop? || e.kind.MessageStop?)
  }

  /** The end of the content block that is open at event `n`: its stop, the next start, or the end of the stream. */
  function BlockEnd(es: seq<Event>, n: nat): (m: nat)
    requires n <= |es|
    ensures n <= m <= |es|
    decreases |es| - n
  {
    if n == |es| || EndsBlock(es[n]) then n else BlockEnd(es, n + 1)
  }

  /** The call that event `n` completes, with every fragment of its block. */
  function WholeCall(es: seq<Event>, n: nat): seq<Token>
    requires n < |es|
  {
    var i := OpenStart(es, n);
    if Closes(es[n]) && i >= 0 && IsNamedStart(es[i]) then
      StaysOpen(es, i, n);
      [ToolCall(es[i].block.value.name.value, Arguments(es, i, BlockEnd(es, i + 1)))]
    else []
  }

  function WholeTokens(es: seq<Event>, n: nat): seq<Token>
    requires n <= |es|
    decreases |es| - n
  {
    if n == |es| then [] else (WholeCall(es, n) + TextAt(es[n])) + WholeTokens(es, n + 1)
  }

  /** Event `n` sends a call off while fragments of its block are still to come. */
  predicate CutsCall(es: seq<Event>, n: nat)
    requires n < |es|
  {
    var i := OpenStart(es, n);
    && Closes(es[n]) && i >= 0 && IsNamedStart(es[i])
    && exists k | n < k < BlockEnd(es, i + 1) :: Fragment(es[k]) != ""
  }

  lemma {:induction false} StaysOpen(es: seq<Event>, i: int, n: nat)
    requires n <= |es| && i == OpenStart(es, n) && i >= 0
    ensures BlockEnd(es, i + 1) >= n
  {
    NoEndBetween(es, i + 1, n);
    ReachesEnd(es, i + 1, n);
  }

  lemma {:induction false} NoEndBetween(es: seq<Event>, m: nat, n: nat)
    requires n <= |es| && OpenStart(es, n) + 1 == m > 0
    ensures forall k | m <= k < n :: !EndsBlock(es[k])
    decreases n
  {
    if m < n {
      NoEndBetween(es, m, n - 1);
    }
  }

  lemma {:induction false} ReachesEnd(es: seq<Event>, m: nat, n: nat)
    requires m <= n <= |es| && forall k | m <= k < n :: !EndsBlock(es[k])
    ensures BlockEnd(es, m) >= n
    decreases n - m
  {
    if m < n {
      ReachesEnd(es, m + 1, n);
    }
  }

  lemma {:induction false} SameArgumentsIff(es: seq<Event>, i: nat, n: nat, m: nat)
    requires i < n <= m <= |es| && IsToolStart(es[i])
    ensures |Arguments(es, i, n)| <= |Arguments(es, i, m)|
    ensures Arguments(es, i, n) == Arguments(es, i, m) <==> forall k | n <= k < m :: Fragment(es[k]) == ""
    decreases m
  {
    if n < m {
      SameArgumentsIff(es, i, n, m - 1);
      var before := Arguments(es, i, m - 1);
      assert before + "" == before;
    }
  }

  lemma WholeCallIff(es: seq<Event>, n: nat)
    requires n < |es|
    ensures |ClosedCall(es, n)| == |WholeCall(es, n)|
    ensures ClosedCall(es, n) == WholeCall(es, n) <==> !CutsCall(es, n)
  {
    var i := OpenStart(es, n);
    if Closes(es[n]) && i >= 0 && IsNamedStart(es[i]) {
      StaysOpen(es, i, n);
      var end := BlockEnd(es, i + 1);
      SameArgumentsIff(es, i, n, end);
      assert Fragment(es[n]) == "";
    }
  }

  predicate NoCallCut(es: seq<Event>, n: nat) {
    forall k | n <= k < |es| :: !CutsCall(es, k)
  }

  lemma NoCallCutNext(es: seq<Event>, n: nat)
    requires n < |es|
    ensures NoCallCut(es, n) <==> !CutsCall(es, n) && NoCallCut(es, n + 1)
  {
  }

  lemma {:induction false} WholeTokensIff(es: seq<Event>, n: nat)
    requires n <= |es|
    ensures Expected(es, n) == WholeTokens(es, n) <==> NoCallCut(es, n)
    decreases |es| - n
  {
    if n < |es| {
      WholeTokensIff(es, n + 1);
      WholeTokensNext(es, n, Expected(es, n + 1), WholeTokens(es, n + 1));
    }
  }

  lemma WholeTokensNext(es: seq<Event>, n: nat, later: seq<Token>, later': seq<Token>)
    requires n < |es| && (later == later' <==> NoCallCut(es, n + 1))
    ensures (ClosedCall(es, n) + TextAt(es[n])) + later == (WholeCall(es, n) + TextAt(es[n])) + later' <==>
            NoCallCut(es, n)
  {
    NoCallCutNext(es, n);
    WholeCallIff(es, n);
    SameShape(ClosedCall(es, n), WholeCall(es, n), TextAt(es[n]), later, later');
  }

  lemma SameShape(a: seq<Token>, b: seq<Token>, text: seq<Token>, later: seq<Token>, later': seq<Token>)
    requires |a| == |b|
    ensures (a + text) + later == (b + text) + later' <==> a == b && later == later'
  {
    var x, y := (a + text) + later, (b + text) + later';
    if x == y {
      assert a == x[..|a|] == y[..|b|] == b;
      assert later == x[|a + text|..] == y[|b + text|..] == later';
    }
  }

  /**
    Every call carries the initial input and all fragments of its block if and only if no event sends a call off, as any
    event but an input delta does, while fragments of its block are still to come.
   */
  lemma CallsWholeIff(es: seq<Event>)
    ensures var heard := UntilStop(es);
            Run(IDLE, es) == WholeTokens(heard, 0) <==> NoCallCut(heard, 0)
  {
    TokensExact(es);
    WholeTokensIff(UntilStop(es), 0);
  }

  /** For instance a ping between two fragments: the second one is lost. */
  lemma PingCutsCall(start: Event, first: Event, second: Event)
    requires IsNamedStart(start) && IsInputDelta(first) && IsInputDelta(second)
    ensures var ping, stop := Event(Other, None, None), Event(BlockStop, None, None);
            Run(IDLE, [start] + ([first] + ([ping] + ([second] + ([stop] + []))))) ==
            [ToolCall(start.block.value.name.value, InitialInput(start) + Fragment(first))]
  {
    var ping, stop := Event(Other, None, None), Event(BlockStop, None, None);
    RunCons(IDLE, start, [first] + ([ping] + ([second] + ([stop] + []))));
    var h1 := Handler(start.block.value.name, InitialInput(start));
    RunCons(h1, first, [ping] + ([second] + ([stop] + [])));
    var h2 := h1.(args := InitialInput(start) + Fragment(first));
    RunCons(h2, ping, [second] + ([stop] + []));
    RunCons(IDLE, second, [stop] + []);
    RunCons(Handler(None, "" + Fragment(second)), stop, []);
  }

  // ---------------------------------------------------------------- bracketed tool blocks

  /** A stretch of the stream: a whole tool block with nothing in between, or one event outside tool blocks. */
  datatype Item = Tool(start: Event, deltas: seq<Event>, end: Event) | Plain(e: Event)

  predicate WellBracketed(item: Item) {
    match item
    case Tool(start, deltas, end) =>
      && IsToolStart(start) && end.Event? && end.kind.BlockStop?
      && forall d | d in deltas :: IsInputDelta(d)
    case Plain(e) => !IsToolStart(e) && !Stops(e)
  }

  function ItemEvents(item: Item, rest: seq<Event>): seq<Event> {
    match item
    case Tool(start, deltas, end) => [start] + (deltas + ([end] + rest))
    case Plain(e) => [e] + rest
  }

  function Events(items: seq<Item>): seq<Event> {
    if items == [] then [] else ItemEvents(items[0], Events(items[1..]))
  }

  /** The fragments of the deltas, appended one by one. */
  function Accumulate(args: string, deltas: seq<Event>): string
    decreases |deltas|
  {
    if deltas == [] then args else Accumulate(args + Fragment(deltas[0]), deltas[1..])
  }

  function ItemTokens(item: Item): seq<Token> {
    match item
    case Tool(start, deltas, end) =>
      if IsToolStart(start) && start.block.value.name.Some? then
        [ToolCall(start.block.value.name.value, Accumulate(InitialInput(start), deltas))]
      else []
    case Plain(e) => TextAt(e)
  }

  function AllTokens(items: seq<Item>): seq<Token> {
    if items == [] then [] else ItemTokens(items[0]) + AllTokens(items[1..])
  }

  lemma {:induction false} RunDeltas(h: Handler, deltas: seq<Event>, rest: seq<Event>)
    requires forall d | d in deltas :: IsInputDelta(d)
    ensures Run(h, deltas + rest) == Run(h.(args := Accumulate(h.args, deltas)), rest)
    decreases |deltas|
  {
    if deltas == [] {
      assert deltas + rest == rest;
    } else {
      var d, more := deltas[0], deltas[1..];
      assert deltas + rest == [d] + (more + rest);
      RunCons(h, d, more + rest);
      assert IsInputDelta(d);
      RunDeltas(h.(args := h.args + Fragment(d)), more, rest);
    }
  }

  lemma {:induction false} RunBracketed(h: Handler, items: seq<Item>)
    requires h.name.None? && forall item | item in items :: WellBracketed(item)
    ensures Run(h, Events(items)) == AllTokens(items)
    decreases |items|
  {
    if items != [] {
      assert WellBracketed(items[0]);
      var next := RunItem(h, items[0], Events(items[1..]));
      RunBracketed(next, items[1..]);
    }
  }

  lemma RunItem(h: Handler, item: Item, rest: seq<Event>) returns (next: Handler)
    requires h.name.None? && WellBracketed(item)
    ensures next.name.None? && Run(h, ItemEvents(item, rest)) == ItemTokens(item) + Run(next, rest)
  {
    match item
    case Plain(e) =>
      next := RunPlain(h, e, rest);
    case Tool(start, deltas, end) =>
      RunToolBlock(h, start, deltas, end, rest);
      var full := Handler(start.block.value.name, Accumulate(InitialInput(start), deltas));
      assert Pending(full) == ItemTokens(item);
      next := Taken(full);
  }

  lemma RunPlain(h: Handler, e: Event, rest: seq<Event>) returns (next: Handler)
    requires h.name.None? && !IsToolStart(e) && !Stops(e)
    ensures next.name.None? && Run(h, [e] + rest) == TextAt(e) + Run(next, rest)
  {
    next := Handle(h, e).after;
    assert Handle(h, e).tokens == TextAt(e);
    RunCons(h, e, rest);
  }

  lemma RunToolBlock(h: Handler, start: Event, deltas: seq<Event>, end: Event, rest: seq<Event>)
    requires WellBracketed(Tool(start, deltas, end))
    ensures var full := Handler(start.block.value.name, Accumulate(InitialInput(start), deltas));
            Run(h, [start] + (deltas + ([end] + rest))) == Pending(full) + Run(Taken(full), rest)
  {
    var open := Handler(start.block.value.name, InitialInput(start));
    RunCons(h, start, deltas + ([end] + rest));
    RunDeltas(open, deltas, [end] + rest);
    RunCons(open.(args := Accumulate(open.args, deltas)), end, rest);
  }

  /**
    Streams whose tool blocks are start, input deltas, stop with nothing between: exactly one call per named block, with
    the initial input plus all fragments, and the text tokens in order around it.
   */
  lemma BracketedStream(items: seq<Item>)
    requires forall item | item in items :: WellBracketed(item)
    ensures Run(IDLE, Events(items)) == AllTokens(items)
  {
    RunBracketed(IDLE, items);
  }

  /** Outside that shape calls get lost: a start that directly follows another start throws the first call away. */
  lemma StartAfterStartLosesCall(first: Event, second: Event)
    requires IsToolStart(first) && IsToolStart(second) && second.block.value.name.Some?
    ensures var stop := Event(BlockStop, None, None);
            Run(IDLE, [first, second, stop]) == [ToolCall(second.block.value.name.value, InitialInput(second))]
  {
    var stop := Event(BlockStop, None, None);
    var es := [first, second, stop];
    assert es[1..] == [second, stop] && es[1..][1..] == [stop] && es[1..][1..][1..] == [];
    var h1 := Handle(IDLE, first).after;
    var h2 := Handle(h1, second).after;
    assert Run(h2, [stop]) == Pending(h2) + Run(Taken(h2), []);
    assert Run(h1, [second, stop]) == [] + Run(h2, [stop]);
  }

  // ---------------------------------------------------------------- events, field by field

  /** Every shape of event, in its own fields, and what it does to a call `name` with arguments `args` so far. */
  lemma EventSpelledOut(name: Option<string>, args: string, kind: Kind, block: Option<Block>, delta: Option<Delta>)
    ensures var o := Handle(Handler(name, args), Event(kind, block, delta));
            var call := match name case Some(n) => [ToolCall(n, args)] case None => [];
            var text := match delta case Some(Delta(_, _, Some(t))) => [Text(t)] case _ => [];
            match (kind, block, delta)
            case (BlockStart, Some(Block(true, n, Some(input))), _) =>
              o == Output(Handler(n, if input == "{}" then "" else input), [], false)
            case (BlockStart, Some(Block(true, n, None)), _) => o == Output(Handler(n, ""), [], false)
            case (BlockStart, _, _) => o == Output(Handler(None, ""), call + text, false)
            case (BlockDelta, _, Some(Delta(true, Some(fragment), _))) =>
              o == Output(Handler(name, args + fragment), [], false)
            case (BlockDelta, _, Some(Delta(true, None, _))) => o == Output(Handler(name, args), [], false)
            case (BlockStop, _, _) => o.tokens == call && o.after.name == None && !o.stop
            case (MessageStop, _, _) => o.tokens == call && o.after.name == None && o.stop
            case _ => o.tokens == call + text && o.after.name == None && !o.stop
  {
    assert args + "" == args;
  }

  // ---------------------------------------------------------------- messages, field by field

  /** A content block of a message: text in pieces, or a tool call with its initial input and its fragments. */
  datatype Content =
    | TextContent(pieces: seq<string>)
    | ToolContent(name: string, input: Option<string>, fragments: seq<string>)

  function TextDelta(piece: string): Event {
    Event(BlockDelta, None, Some(Delta(false, None, Some(piece))))
  }

  function InputDelta(fragment: string): Event {
    Event(BlockDelta, None, Some(Delta(true, Some(fragment), None)))
  }

  function TextDeltas(pieces: seq<string>): seq<Event> {
    seq(|pieces|, i requires 0 <= i < |pieces| => TextDelta(pieces[i]))
  }

  function InputDeltas(fragments: seq<string>): seq<Event> {
    seq(|fragments|, i requires 0 <= i < |fragments| => InputDelta(fragments[i]))
  }

  /** The events of a block, before those of the rest. */
  function Streamed(c: Content, rest: seq<Event>): seq<Event> {
    var stop := Event(BlockStop, None, None);
    match c
    case TextContent(pieces) =>
      [Event(BlockStart, Some(Block(false, None, None)), None)] + (TextDeltas(pieces) + ([stop] + rest))
    case ToolContent(name, input, fragments) =>
      [Event(BlockStart, Some(Block(true, Some(name), input)), None)] + (InputDeltas(fragments) + ([stop] + rest))
  }

  function StreamedAll(contents: seq<Content>): seq<Event> {
    if contents == [] then [Event(MessageStop, None, None)] else Streamed(contents[0], StreamedAll(contents[1..]))
  }

  /** The tokens of a block.  An initial input of `{}` stands for none. */
  function Meant(c: Content): seq<Token> {
    match c
    case TextContent(pieces) => seq(|pieces|, i requires 0 <= i < |pieces| => Text(pieces[i]))
    case ToolContent(name, Some(input), fragments) =>
      [ToolCall(name, if input == "{}" then Concat(fragments) else input + Concat(fragments))]
    case ToolContent(name, None, fragments) => [ToolCall(name, Concat(fragments))]
  }

  function MeantAll(contents: seq<Content>): seq<Token> {
    if contents == [] then [] else Meant(contents[0]) + MeantAll(contents[1..])
  }

  lemma {:induction false} AccumulateJoins(args: string, fragments: seq<string>)
    ensures Accumulate(args, InputDeltas(fragments)) == args + Concat(fragments)
    decreases |fragments|
  {
    if fragments == [] {
      assert args + "" == args;
    } else {
      AccumulateJoins(args + fragments[0], fragments[1..]);
      assert InputDeltas(fragments)[1..] == InputDeltas(fragments[1..]);
      assert args + fragments[0] + Concat(fragments[1..]) == args + (fragments[0] + Concat(fragments[1..]));
    }
  }

  lemma {:induction false} RunText(h: Handler, pieces: seq<string>, rest: seq<Event>) returns (next: Handler)
    requires h.name.None?
    ensures next.name.None?
    ensures Run(h, TextDeltas(pieces) + rest) == Meant(TextContent(pieces)) + Run(next, rest)
    decreases |pieces|
  {
    if pieces == [] {
      next := h;
      assert TextDeltas(pieces) + rest == rest && [] + Run(h, rest) == Run(h, rest);
    } else {
      var more := TextDeltas(pieces[1..]) + rest;
      TextDeltasNext(pieces, rest);
      var after := RunPlain(h, TextDelta(pieces[0]), more);
      next := RunText(after, pieces[1..], rest);
      MeantNext(pieces);
      AppendAssoc([Text(pieces[0])], Meant(TextContent(pieces[1..])), Run(next, rest));
    }
  }

  lemma TextDeltasNext(pieces: seq<string>, rest: seq<Event>)
    requires pieces != []
    ensures TextDeltas(pieces) + rest == [TextDelta(pieces[0])] + (TextDeltas(pieces[1..]) + rest)
    ensures TextAt(TextDelta(pieces[0])) == [Text(pieces[0])]
  {
  }

  lemma MeantNext(pieces: seq<string>)
    requires pieces != []
    ensures Meant(TextContent(pieces)) == [Text(pieces[0])] + Meant(TextContent(pieces[1..]))
  {
  }

  lemma RunContent(h: Handler, c: Content, rest: seq<Event>) returns (next: Handler)
    requires h.name.None?
    ensures next.name.None? && Run(h, Streamed(c, rest)) == Meant(c) + Run(next, rest)
  {
    var stop := Event(BlockStop, None, None);
    match c
    case TextContent(pieces) =>
      var start := Event(BlockStart, Some(Block(false, None, None)), None);
      var h1 := RunPlain(h, start, TextDeltas(pieces) + ([stop] + rest));
      var h2 := RunText(h1, pieces, [stop] + rest);
      next := RunPlain(h2, stop, rest);
      TextTokens(Meant(c), Run(next, rest));
    case ToolContent(name, input, fragments) =>
      var start := Event(BlockStart, Some(Block(true, Some(name), input)), None);
      RunToolBlock(h, start, InputDeltas(fragments), stop, rest);
      AccumulateJoins(InitialInput(start), fragments);
      assert "" + Concat(fragments) == Concat(fragments);
      next := IDLE;
  }

  lemma TextTokens(said: seq<Token>, later: seq<Token>)
    ensures [] + (said + ([] + later)) == said + later
  {
    assert [] + later == later && [] + (said + later) == said + later;
  }

  lemma {:induction false} RunContents(h: Handler, contents: seq<Content>)
    requires h.name.None?
    ensures Run(h, StreamedAll(contents)) == MeantAll(contents)
    decreases |contents|
  {
    if contents == [] {
      RunCons(h, Event(MessageStop, None, None), []);
      assert [Event(MessageStop, None, None)] + [] == [Event(MessageStop, None, None)];
    } else {
      var next := RunContent(h, contents[0], StreamedAll(contents[1..]));
      RunContents(next, contents[1..]);
    }
  }

  /**
    For every message, written out in the fields of its events: every piece of text reaches the receiver as it is, and
    every tool block becomes one call with its name and the initial input, unless that is `{}`, and all fragments.
   */
  lemma MessageSpelledOut(contents: seq<Content>)
    ensures Run(IDLE, StreamedAll(contents)) == MeantAll(contents)
  {
    RunContents(IDLE, contents);
  }
}
