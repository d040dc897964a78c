/**
  The append-only session log and its projection into model-visible messages (`SessionLog::derive_messages`).

  `DeriveMessages` is the one-pass loop of the source.  It is proved against `Derive`, which follows the pass, and
  `Derive` against `Rendered`, which groups the log into turns without any running state.
 */
module SessionLogs {
  import opened Wrappers
  import opened Text

  datatype Event =
    | User(content: string)
    | Assistant(content: string)
    | Thought(content: string)
    | ToolCall(name: string, arguments: string)
    | ToolResult(name: string, ok: bool, output: string)

  datatype Message = Message(role: string, content: string)

  /** The assistant turn being assembled.  A turn that is not `material` holds reasoning only. */
  datatype OpenTurn = OpenTurn(content: string, material: bool)

  /** The two mutable variables of the pass. */
  datatype Pass = Pass(out: seq<Message>, pending: Option<OpenTurn>)

  const EMPTY_PASS := Pass([], None)

  /** `build_tool_result_block`. */
  function Block(name: string, payload: string, isError: bool): string {
    (if isError then "[Tool error: " else "[Tool result: ") + name + "]\n" + payload
    + (if isError then "\n[/Tool error]" else "\n[/Tool result]")
  }

  function BlockOf(e: Event): string
    requires e.ToolResult?
  {
    Block(e.name, e.output, !e.ok)
  }

  /** Text joined on with a separator that is left out when there is nothing before it. */
  function Glue(before: string, separator: string, text: string): string {
    if before == "" then text else before + separator + text
  }

  /** The text that decides the dedup guard: the next assistant text, or "" at a user boundary. */
  function Following(rest: seq<Event>): Option<string> {
    if rest == [] then None
    else match rest[0]
      case Assistant(content) => Some(content)
      case User(_) => Some("")
      case _ => Following(rest[1..])
  }

  predicate Carried(rest: seq<Event>, block: string) {
    Following(rest).Some? && Contains(Following(rest).value, block)
  }

  function Flush(p: Pass): Pass {
    match p.pending
    case None => p
    case Some(open) => Pass(p.out + [Message("assistant", open.content)], None)
  }

  predicate EndsInAssistant(out: seq<Message>) {
    out != [] && out[|out| - 1].role == "assistant"
  }

  function AppendToolBlock(p: Pass, block: string): Pass {
    match p.pending
    case Some(open) => p.(pending := Some(OpenTurn(Glue(open.content, "\n", block), true)))
    case None =>
      if EndsInAssistant(p.out) then
        var last := p.out[|p.out| - 1];
        p.(out := p.out[..|p.out| - 1] + [last.(content := Glue(last.content, "\n", block))])
      else p
  }

  /** One event of the pass; `rest` is what the dedup guard may look ahead to. */
  function Step(p: Pass, e: Event, rest: seq<Event>): Pass {
    match e
    case User(content) => var f := Flush(p); f.(out := f.out + [Message("user", content)])
    case Assistant(content) =>
      (match p.pending
       case Some(open) =>
         if !open.material then p.(pending := Some(OpenTurn(Glue(open.content, "\n\n", content), true)))
         else Flush(p).(pending := Some(OpenTurn(content, true)))
       case None => p.(pending := Some(OpenTurn(content, true))))
    case Thought(content) =>
      (match p.pending
       case Some(open) => p.(pending := Some(open.(content := Glue(open.content, "\n\n", content))))
       case None => p.(pending := Some(OpenTurn(content, false))))
    case ToolCall(_, _) => p
    case ToolResult(_, _, _) =>
      if p.pending.None? && !EndsInAssistant(p.out) then p
      else if Carried(rest, BlockOf(e)) then p
      else AppendToolBlock(p, BlockOf(e))
  }

  /** The pass after the first `n` events of the log. */
  function After(events: seq<Event>, n: nat): Pass
    requires n <= |events|
  {
    if n == 0 then EMPTY_PASS else Step(After(events, n - 1), events[n - 1], events[n..])
  }

  function Derive(events: seq<Event>): seq<Message> {
    Flush(After(events, |events|)).out
  }

  class SessionLog {
    var events: seq<Event>

    constructor ()
      ensures events == []
    {
      events := [];
    }

    method Append(e: Event)
      modifies this
      ensures events == old(events) + [e]
    {
      events := events + [e];
    }

    method DeriveMessages() returns (out: seq<Message>)
      ensures out == Derive(events)
    {
      out := [];
      var pending: Option<OpenTurn> := None;
      for i := 0 to |events|
        invariant Pass(out, pending) == After(events, i)
      {
        match events[i] {
          case User(content) =>
            out, pending := FlushAssistant(out, pending);
            out := out + [Message("user", content)];
          case Assistant(content) =>
            if pending.Some? && !pending.value.material {
              pending := Some(OpenTurn(Glue(pending.value.content, "\n\n", content), true));
            } else {
              out, pending := FlushAssistant(out, pending);
              pending := Some(OpenTurn(content, true));
            }
          case Thought(content) =>
            if pending.Some? {
              pending := Some(pending.value.(content := Glue(pending.value.content, "\n\n", content)));
            } else {
              pending := Some(OpenTurn(content, false));
            }
          case ToolCall(_, _) =>
          case ToolResult(name, ok, output) =>
            if pending.Some? || EndsInAssistant(out) {
              var block := Block(name, output, !ok);
              var carried := CarriedByFollowing(events[i + 1..], block);
              if !carried {
                var p := AppendToolBlock(Pass(out, pending), block);
                out, pending := p.out, p.pending;
              }
            }
        }
      }
      out, pending := FlushAssistant(out, pending);
    }
  }

  method FlushAssistant(out: seq<Message>, pending: Option<OpenTurn>)
    returns (out': seq<Message>, pending': Option<OpenTurn>)
    ensures Pass(out', pending') == Flush(Pass(out, pending))
  {
    out', pending' := out, None;
    if pending.Some? {
      out' := out + [Message("assistant", pending.value.content)];
    }
  }

  /** The forward scan of the dedup guard. */
  method CarriedByFollowing(rest: seq<Event>, block: string) returns (carried: bool)
    ensures carried == Carried(rest, block)
  {
    var i := 0;
    while i < |rest|
      invariant 0 <= i <= |rest|
      invariant Following(rest) == Following(rest[i..])
    {
      if rest[i].Assistant? {
        return Contains(rest[i].content, block);
      } else if rest[i].User? {
        return Contains("", block);
      }
      i := i + 1;
    }
    return false;
  }

  // ---------------------------------------------------------------- the declarative grouping

  /** The first position after the last user message among the first `n` events. */
  function TurnBase(events: seq<Event>, n: nat): (b: nat)
    requires n <= |events|
    ensures b <= n
    ensures b > 0 ==> events[b - 1].User?
    ensures forall j | b <= j < n :: !events[j].User?
  {
    if n == 0 then 0 else if events[n - 1].User? then n else TurnBase(events, n - 1)
  }

  ghost predicate Speaks(e: Event) {
    e.Assistant? || e.Thought?
  }

  /** Nothing the assistant said since the last user message. */
  ghost predicate NoTurn(events: seq<Event>, n: nat)
    requires n <= |events|
  {
    forall j | TurnBase(events, n) <= j < n :: !Speaks(events[j])
  }

  /** A tool result that belongs on its own turn: it has an assistant context and no following text carries it. */
  ghost predicate Shown(events: seq<Event>, j: nat)
    requires j < |events|
  {
    events[j].ToolResult? && !NoTurn(events, j) && !Carried(events[j + 1..], BlockOf(events[j]))
  }

  /** The assistant's text, or a tool result shown on its turn, has appeared since the last user message. */
  ghost predicate Material(events: seq<Event>, n: nat)
    requires n <= |events|
  {
    exists j | TurnBase(events, n) <= j < n :: events[j].Assistant? || Shown(events, j)
  }

  /** Event `i` starts a message of its own. */
  ghost predicate Opens(events: seq<Event>, i: nat)
    requires i < |events|
  {
    || events[i].User?
    || (events[i].Assistant? && (NoTurn(events, i) || Material(events, i)))
    || (events[i].Thought? && NoTurn(events, i))
  }

  /** The last of the first `n` events to start a message, or -1. */
  ghost function LastOpening(events: seq<Event>, n: nat): (i: int)
    requires n <= |events|
    ensures -1 <= i < n
    ensures i >= 0 ==> Opens(events, i)
  {
    if n == 0 then -1 else if Opens(events, n - 1) then n - 1 else LastOpening(events, n - 1)
  }

  /** The assistant text contributed by events `i` to `j`. */
  ghost function Body(events: seq<Event>, i: nat, j: nat): string
    requires i <= j <= |events|
  {
    if i == j then ""
    else
      var before := Body(events, i, j - 1);
      var e := events[j - 1];
      if Speaks(e) then Glue(before, "\n\n", e.content)
      else if Shown(events, j - 1) then Glue(before, "\n", BlockOf(e))
      else before
  }

  ghost function MessageOf(events: seq<Event>, i: nat, j: nat): Message
    requires i < j <= |events|
  {
    if events[i].User? then Message("user", events[i].content) else Message("assistant", Body(events, i, j))
  }

  /** One message per opening, made of the events from there up to the next opening (or `n`). */
  ghost function Rendered(events: seq<Event>, n: nat): seq<Message>
    requires n <= |events|
  {
    var i := LastOpening(events, n);
    if i < 0 then [] else Rendered(events, i) + [MessageOf(events, i, n)]
  }

  /** What the pass knows after `n` events. */
  ghost predicate Tracks(events: seq<Event>, n: nat)
    requires n <= |events|
  {
    var p, i := After(events, n), LastOpening(events, n);
    match p.pending
    case None =>
      && NoTurn(events, n)
      && p.out == Rendered(events, n)
      && (i < 0 || events[i].User?)
    case Some(open) =>
      && !NoTurn(events, n)
      && (open.material <==> Material(events, n))
      && i >= 0 && !events[i].User?
      && p.out == Rendered(events, i)
      && open.content == Body(events, i, n)
  }

  lemma TurnFacts(events: seq<Event>, n: nat)
    requires n < |events|
    ensures NoTurn(events, n + 1) <==> events[n].User? || (NoTurn(events, n) && !Speaks(events[n]))
    ensures Material(events, n + 1) <==>
            !events[n].User? && (Material(events, n) || events[n].Assistant? || Shown(events, n))
    ensures NoTurn(events, n) ==> !Material(events, n)
  {
    if NoTurn(events, n) && Material(events, n) {
      var j :| TurnBase(events, n) <= j < n && (events[j].Assistant? || Shown(events, j));
      NoTurnBefore(events, j, n);
    }
    if !events[n].User? {
      assert TurnBase(events, n + 1) == TurnBase(events, n);
      if Material(events, n) {
        var j :| TurnBase(events, n) <= j < n && (events[j].Assistant? || Shown(events, j));
        assert Material(events, n + 1);
      }
      assert TurnBase(events, n + 1) <= n < n + 1;
    }
  }

  lemma {:induction false} NoTurnBefore(events: seq<Event>, j: nat, n: nat)
    requires n <= |events| && TurnBase(events, n) <= j <= n
    ensures TurnBase(events, j) == TurnBase(events, n)
    ensures NoTurn(events, n) ==> NoTurn(events, j)
    decreases n - j
  {
    if j < n {
      NoTurnBefore(events, j, n - 1);
    }
  }

  lemma StepTracksUser(events: seq<Event>, n: nat)
    requires n < |events| && Tracks(events, n) && events[n].User?
    ensures Tracks(events, n + 1)
  {
    TurnFacts(events, n);
    assert LastOpening(events, n + 1) == n;
    assert Rendered(events, n + 1) == Rendered(events, n) + [MessageOf(events, n, n + 1)];
    assert Flush(After(events, n)).out == Rendered(events, n);
  }

  lemma StepTracksOpening(events: seq<Event>, n: nat)
    requires n < |events| && Tracks(events, n) && Speaks(events[n]) && Opens(events, n)
    ensures Tracks(events, n + 1)
  {
    TurnFacts(events, n);
    assert LastOpening(events, n + 1) == n;
    assert Body(events, n, n) == "";
    assert Body(events, n, n + 1) == events[n].content;
    assert Flush(After(events, n)).out == Rendered(events, n);
  }

  lemma StepTracksFolding(events: seq<Event>, n: nat)
    requires n < |events| && Tracks(events, n) && !Opens(events, n)
    ensures Tracks(events, n + 1)
  {
    TurnFacts(events, n);
    var p, i := After(events, n), LastOpening(events, n);
    assert LastOpening(events, n + 1) == i;
    if p.pending.None? {
      assert !EndsInAssistant(p.out);
    }
  }

  lemma StepTracks(events: seq<Event>, n: nat)
    requires n < |events| && Tracks(events, n)
    ensures Tracks(events, n + 1)
  {
    if events[n].User? {
      StepTracksUser(events, n);
    } else if Opens(events, n) {
      StepTracksOpening(events, n);
    } else {
      StepTracksFolding(events, n);
    }
  }

  lemma StartTracks(events: seq<Event>)
    ensures Tracks(events, 0)
  {
    assert After(events, 0) == Pass([], None) && NoTurn(events, 0);
  }

  lemma {:induction false} PassTracks(events: seq<Event>, n: nat)
    requires n <= |events|
    ensures Tracks(events, n)
  {
    if n == 0 {
      StartTracks(events);
    } else {
      var m: nat := n - 1;
      PassTracks(events, m);
      StepTracks(events, m);
    }
  }

  /** The one-pass projection is the declarative turn grouping. */
  lemma DeriveIsGrouping(events: seq<Event>)
    ensures Derive(events) == Rendered(events, |events|)
  {
    TracksFlushed(events, |events|);
  }

  lemma TracksFlushed(events: seq<Event>, n: nat)
    requires n <= |events|
    ensures Flush(After(events, n)).out == Rendered(events, n)
  {
    PassTracks(events, n);
  }

  /** With no open turn the output is empty or ends in a user message: the attach-to-last branch is never taken. */
  lemma NoAttachToLast(events: seq<Event>, n: nat)
    requires n < |events| && events[n].ToolResult? && After(events, n).pending.None?
    ensures !EndsInAssistant(After(events, n).out)
    ensures NoTurn(events, n) && After(events, n + 1) == After(events, n)
  {
    PassTracks(events, n);
  }

  // ---------------------------------------------------------------- user turns are composition points

  lemma {:induction false} FollowingAtBoundary(rest: seq<Event>, u: string, more: seq<Event>, block: string)
    requires block != ""
    ensures Carried(rest + [User(u)] + more, block) <==> Carried(rest, block)
  {
    var all := rest + [User(u)] + more;
    if rest == [] {
      assert all[0] == User(u);
    } else {
      assert all[0] == rest[0] && all[1..] == rest[1..] + [User(u)] + more;
      FollowingAtBoundary(rest[1..], u, more, block);
    }
  }

  lemma {:induction false} BeforeBoundary(a: seq<Event>, u: string, b: seq<Event>, n: nat)
    requires n <= |a|
    ensures After(a + [User(u)] + b, n) == After(a, n)
  {
    if n > 0 {
      BeforeBoundary(a, u, b, n - 1);
      var all := a + [User(u)] + b;
      assert all[n - 1] == a[n - 1] && all[n..] == a[n..] + [User(u)] + b;
      if a[n - 1].ToolResult? {
        FollowingAtBoundary(a[n..], u, b, BlockOf(a[n - 1]));
      }
    }
  }

  ghost predicate Prefixed(p: Pass, prefix: seq<Message>, q: Pass) {
    p.pending == q.pending && p.out == prefix + q.out && q.out != []
  }

  lemma StepPrefixed(p: Pass, prefix: seq<Message>, q: Pass, e: Event, rest: seq<Event>)
    requires Prefixed(p, prefix, q)
    ensures Prefixed(Step(p, e, rest), prefix, Step(q, e, rest))
  {
    assert p.out[|p.out| - 1] == q.out[|q.out| - 1];
    assert p.out[..|p.out| - 1] == prefix + q.out[..|q.out| - 1];
  }

  lemma {:induction false} AfterBoundary(a: seq<Event>, u: string, b: seq<Event>, n: nat)
    requires n <= |b|
    ensures Prefixed(After(a + [User(u)] + b, |a| + 1 + n), Derive(a), After([User(u)] + b, 1 + n))
  {
    var all, tail := a + [User(u)] + b, [User(u)] + b;
    if n == 0 {
      BeforeBoundary(a, u, b, |a|);
      assert all[|a|] == User(u) && tail[0] == User(u);
      assert After(tail, 0) == EMPTY_PASS;
      assert After(all, |a| + 1) == Step(After(all, |a|), User(u), all[|a| + 1..]);
      assert After(tail, 1) == Step(EMPTY_PASS, User(u), tail[1..]);
    } else {
      AfterBoundary(a, u, b, n - 1);
      assert all[|a| + n] == b[n - 1] == tail[n];
      assert all[|a| + 1 + n..] == b[n..] == tail[1 + n..];
      StepPrefixed(After(all, |a| + n), Derive(a), After(tail, n), b[n - 1], b[n..]);
    }
  }

  /**
    User turns are composition points.  Despite the forward-looking dedup guard, nothing that is appended after a user
    message changes the history derived before it.
   */
  lemma UserTurnsCompose(a: seq<Event>, u: string, b: seq<Event>)
    ensures Derive(a + [User(u)] + b) == Derive(a) + Derive([User(u)] + b)
    ensures |Derive(a)| <= |Derive(a + [User(u)] + b)|
    ensures Derive(a + [User(u)] + b)[..|Derive(a)|] == Derive(a)
  {
    AfterBoundary(a, u, b, |b|);
    var all, tail := a + [User(u)] + b, [User(u)] + b;
    assert |all| == |a| + 1 + |b| && |tail| == 1 + |b|;
    FlushPrefixed(After(all, |all|), Derive(a), After(tail, |tail|));
  }

  lemma FlushPrefixed(p: Pass, prefix: seq<Message>, q: Pass)
    requires Prefixed(p, prefix, q)
    ensures Flush(p).out == prefix + Flush(q).out
  {
  }

  /** Within a turn an append does rewrite history: the same text arriving later takes a shown block back. */
  lemma AppendRetractsBlock(text: string, name: string, ok: bool, output: string)
    requires text != ""
    ensures var log := [Assistant(text), ToolResult(name, ok, output)];
            var block := Block(name, output, !ok);
            && Derive(log) == [Message("assistant", text + "\n" + block)]
            && Derive(log + [Assistant(block)]) == [Message("assistant", text), Message("assistant", block)]
  {
    var result := ToolResult(name, ok, output);
    var block := Block(name, output, !ok);
    var log := [Assistant(text), result];
    var longer := log + [Assistant(block)];
    assert log[1..] == [result] && log[2..] == [];
    assert longer[0] == log[0] && longer[1] == result && longer[2] == Assistant(block);
    assert longer[2..] == [Assistant(block)] && longer[3..] == [];
    assert OccursAt(block, block, 0);
    assert Following([Assistant(block)]) == Some(block);
    var p1 := Pass([], Some(OpenTurn(text, true)));
    assert After(log, 0) == EMPTY_PASS && After(longer, 0) == EMPTY_PASS;
    assert After(log, 1) == p1 && After(longer, 1) == p1;
    assert After(log, 2) == Pass([], Some(OpenTurn(text + "\n" + block, true)));
    assert After(longer, 2) == p1;
    assert After(longer, 3) == Pass([Message("assistant", text)], Some(OpenTurn(block, true)));
  }

  // ---------------------------------------------------------------- when exactly an append rewrites history

  /** Appending `e` takes back the block of result `j`: it is the next assistant text of the exchange and carries it. */
  ghost predicate Retracts(log: seq<Event>, e: Event, j: nat)
    requires j < |log|
  {
    && Shown(log, j) && e.Assistant? && Contains(e.content, BlockOf(log[j]))
    && forall k | j < k < |log| :: !log[k].User? && !log[k].Assistant?
  }

  lemma {:induction false} FollowingAppend(rest: seq<Event>, e: Event)
    ensures Following(rest + [e]) == if Following(rest).Some? then Following(rest) else Following([e])
    ensures Following(rest).None? <==> forall k | 0 <= k < |rest| :: !rest[k].User? && !rest[k].Assistant?
  {
    if rest == [] {
      assert rest + [e] == [e];
    } else {
      assert (rest + [e])[0] == rest[0] && (rest + [e])[1..] == rest[1..] + [e];
      FollowingAppend(rest[1..], e);
      assert forall k | 0 <= k < |rest[1..]| :: rest[1..][k] == rest[k + 1];
    }
  }

  lemma {:induction false} SameTurnBase(log: seq<Event>, e: Event, n: nat)
    requires n <= |log|
    ensures TurnBase(log + [e], n) == TurnBase(log, n)
  {
    if n > 0 {
      SameTurnBase(log, e, n - 1);
    }
  }

  lemma SameNoTurn(log: seq<Event>, e: Event, n: nat)
    requires n <= |log|
    ensures NoTurn(log + [e], n) <==> NoTurn(log, n)
  {
    SameTurnBase(log, e, n);
    assert forall j | 0 <= j < n :: (log + [e])[j] == log[j];
  }

  /** A shown block stays shown under an append exactly when it is not retracted, and one not shown stays so. */
  lemma ShownAfterAppend(log: seq<Event>, e: Event, j: nat)
    requires j < |log|
    ensures Shown(log + [e], j) <==> Shown(log, j) && !Retracts(log, e, j)
  {
    if log[j].ToolResult? {
      var rest, block := log[j + 1..], BlockOf(log[j]);
      SameNoTurn(log, e, j);
      assert (log + [e])[j + 1..] == rest + [e];
      FollowingAppend(rest, e);
      assert (forall k | 0 <= k < |rest| :: !rest[k].User? && !rest[k].Assistant?) <==>
             (forall k | j < k < |log| :: !log[k].User? && !log[k].Assistant?) by {
        assert forall k | 0 <= k < |rest| :: rest[k] == log[j + 1 + k];
        assert forall k | j < k < |log| :: log[k] == rest[k - j - 1];
      }
      assert [e][1..] == [] && Following([]) == None;
      assert block != "" && !Contains("", block);
    }
  }

  /** Nothing is retracted before the last message starts. */
  lemma RetractedInLastMessage(log: seq<Event>, e: Event, j: nat, i: nat)
    requires j < |log| && i < |log| && Retracts(log, e, j) && Opens(log, i)
    ensures i < j
  {
    if j < i {
      assert log[i].Thought? && NoTurn(log, i);
      NoUserBetween(log, j, i);
      assert false;
    }
  }

  lemma {:induction false} NoUserBetween(log: seq<Event>, j: nat, i: nat)
    requires j <= i <= |log| && (forall k | j <= k < i :: !log[k].User?) && NoTurn(log, i)
    ensures NoTurn(log, j)
    decreases i - j
  {
    if j < i {
      assert TurnBase(log, i) == TurnBase(log, i - 1);
      NoUserBetween(log, j, i - 1);
    }
  }

  /** The same events open messages. */
  lemma SameOpens(log: seq<Event>, e: Event, i: nat)
    requires i < |log|
    ensures Opens(log + [e], i) <==> Opens(log, i)
  {
    SameNoTurn(log, e, i);
    SameTurnBase(log, e, i);
    if log[i].Assistant? {
      SameMaterial(log, e, i);
    }
  }

  lemma SameMaterial(log: seq<Event>, e: Event, i: nat)
    requires i < |log| && log[i].Assistant?
    ensures Material(log + [e], i) <==> Material(log, i)
  {
    SameTurnBase(log, e, i);
    forall j: nat | j < i ensures (log + [e])[j] == log[j] && (Shown(log + [e], j) <==> Shown(log, j)) {
      ShownAfterAppend(log, e, j);
    }
    if Material(log + [e], i) {
      var j :| TurnBase(log, i) <= j < i && ((log + [e])[j].Assistant? || Shown(log + [e], j));
      assert log[j].Assistant? || Shown(log, j);
    }
    if Material(log, i) {
      var j :| TurnBase(log, i) <= j < i && (log[j].Assistant? || Shown(log, j));
      assert (log + [e])[j].Assistant? || Shown(log + [e], j);
    }
  }

  lemma {:induction false} SameLastOpening(log: seq<Event>, e: Event, n: nat)
    requires n <= |log|
    ensures LastOpening(log + [e], n) == LastOpening(log, n)
  {
    if n > 0 {
      SameOpens(log, e, n - 1);
      SameLastOpening(log, e, n - 1);
    }
  }

  ghost predicate RetractsWithin(log: seq<Event>, e: Event, i: nat, n: nat)
    requires n <= |log|
  {
    exists j: nat :: i <= j < n && Retracts(log, e, j)
  }

  lemma RetractsWithinStep(log: seq<Event>, e: Event, i: nat, n: nat)
    requires i < n <= |log|
    ensures RetractsWithin(log, e, i, n) <==> RetractsWithin(log, e, i, n - 1) || Retracts(log, e, n - 1)
  {
  }

  lemma GlueShorter(was: string, now: string, separator: string, text: string)
    requires |now| < |was|
    ensures |Glue(now, separator, text)| < |Glue(was, separator, text)|
  {
  }

  /** A body is the same if nothing in it is retracted, and shorter otherwise. */
  lemma {:induction false} BodyAfterAppend(log: seq<Event>, e: Event, i: nat, n: nat)
    requires i <= n <= |log|
    ensures var was, now := Body(log, i, n), Body(log + [e], i, n);
            if RetractsWithin(log, e, i, n) then |now| < |was| else now == was
  {
    if i < n {
      var last := log[n - 1];
      var was, now := Body(log, i, n - 1), Body(log + [e], i, n - 1);
      BodyAfterAppend(log, e, i, n - 1);
      RetractsWithinStep(log, e, i, n);
      ShownAfterAppend(log, e, n - 1);
      assert (log + [e])[n - 1] == last;
      if |now| < |was| {
        if Speaks(last) {
          GlueShorter(was, now, "\n\n", last.content);
        } else if Shown(log, n - 1) {
          GlueShorter(was, now, "\n", BlockOf(last));
        }
      }
    }
  }

  lemma NothingToRetract(log: seq<Event>, e: Event, n: nat)
    requires n <= |log| && NoTurn(log, n)
    ensures forall j: nat | j < n :: !Retracts(log, e, j)
  {
    forall j: nat | j < n ensures !Retracts(log, e, j) {
      if Retracts(log, e, j) {
        NoUserBetween(log, j, n);
      }
    }
  }

  /** What opens before event `n`, under the append. */
  lemma OpeningAfterAppend(log: seq<Event>, e: Event, n: nat) returns (i: int)
    requires n <= |log|
    ensures i == LastOpening(log, n) == LastOpening(log + [e], n)
    ensures i < 0 || log[i].User? ==> forall j: nat | j < n :: !Retracts(log, e, j)
    ensures i >= 0 ==> (log + [e])[i] == log[i] && forall j: nat | j < i :: !Retracts(log, e, j)
  {
    i := LastOpening(log, n);
    SameLastOpening(log, e, n);
    PassTracks(log, n);
    if i < 0 || log[i].User? {
      NothingToRetract(log, e, n);
    }
    if i >= 0 {
      forall j: nat | j < i ensures !Retracts(log, e, j) {
        if Retracts(log, e, j) {
          RetractedInLastMessage(log, e, j, i);
        }
      }
    }
  }

  /** The same number of messages, and the same messages exactly when nothing is retracted. */
  lemma {:induction false} RenderedAfterAppend(log: seq<Event>, e: Event, n: nat)
    requires n <= |log|
    ensures |Rendered(log + [e], n)| == |Rendered(log, n)|
    ensures Rendered(log + [e], n) == Rendered(log, n) <==> forall j: nat | j < n :: !Retracts(log, e, j)
    decreases n
  {
    var i := OpeningAfterAppend(log, e, n);
    if i >= 0 {
      RenderedAfterAppend(log, e, i);
      BodyAfterAppend(log, e, i, n);
      LastDiffers(Rendered(log, i), MessageOf(log, i, n), MessageOf(log + [e], i, n));
    }
  }

  lemma LastDiffers(front: seq<Message>, a: Message, b: Message)
    ensures front + [a] == front + [b] <==> a == b
  {
    assert (front + [a])[|front|] == a && (front + [b])[|front|] == b;
  }

  /**
    For every log and every event: what is derived from the old events changes under the append if and only if the event
    is an assistant text that contains the block of a result shown since the last user or assistant event.
   */
  lemma AppendRewritesIff(log: seq<Event>, e: Event)
    ensures Rendered(log + [e], |log|) == Derive(log) <==> forall j: nat | j < |log| :: !Retracts(log, e, j)
    ensures forall j: nat | j < |log| :: Shown(log + [e], j) <==> Shown(log, j) && !Retracts(log, e, j)
  {
    DeriveIsGrouping(log);
    RenderedAfterAppend(log, e, |log|);
    forall j: nat | j < |log| ensures Shown(log + [e], j) <==> Shown(log, j) && !Retracts(log, e, j) {
      ShownAfterAppend(log, e, j);
    }
  }

  // ---------------------------------------------------------------- conservation

  /** The index of the message that event `i` belongs to. */
  ghost function Position(events: seq<Event>, i: nat): int
    requires i < |events|
  {
    |Rendered(events, i + 1)| - 1
  }

  /** The message of event `i` is still the one at its position after any number of further events. */
  lemma {:induction false} MessageIn(events: seq<Event>, i: nat, n: nat) returns (end: nat)
    requires i < n <= |events|
    ensures |Rendered(events, i + 1)| <= |Rendered(events, n)|
    ensures i < end <= n
    ensures var start := LastOpening(events, i + 1);
            start >= 0 ==> Rendered(events, n)[Position(events, i)] == MessageOf(events, start, end)
    decreases n
  {
    var start, l := LastOpening(events, i + 1), LastOpening(events, n);
    SameOpening(events, i + 1, n);
    if l <= i {
      end := n;
    } else {
      end := MessageIn(events, i, l);
    }
  }

  lemma {:induction false} SameOpening(events: seq<Event>, m: nat, n: nat)
    requires m <= n <= |events|
    ensures LastOpening(events, n) >= m || LastOpening(events, n) == LastOpening(events, m)
  {
    if m < n {
      SameOpening(events, m, n - 1);
    }
  }

  lemma {:induction false} BodyGrows(events: seq<Event>, i: nat, m: nat, n: nat)
    requires i <= m <= n <= |events|
    ensures Body(events, i, m) <= Body(events, i, n)
  {
    if m < n {
      BodyGrows(events, i, m, n - 1);
    }
  }

  /** What event `e` shows of itself is at the end of the body right after it. */
  lemma BodyHas(events: seq<Event>, i: nat, m: nat, n: nat, text: string)
    requires i <= m < n <= |events|
    requires (Speaks(events[m]) && text == events[m].content) || (Shown(events, m) && text == BlockOf(events[m]))
    ensures Contains(Body(events, i, n), text)
  {
    var before, upto, all := Body(events, i, m), Body(events, i, m + 1), Body(events, i, n);
    BodyGrows(events, i, m + 1, n);
    assert upto[|upto| - |text|..] == text;
    var front, back := upto[..|upto| - |text|], all[|upto|..];
    assert upto == front + text;
    assert all == front + text + back;
    ContainsPart(front, text, back);
  }

  /** The event shows `text`: its own content, or its block when that is shown on its turn. */
  ghost predicate Shows(events: seq<Event>, i: nat, text: string)
    requires i < |events|
  {
    || (events[i].User? && text == events[i].content)
    || (Speaks(events[i]) && text == events[i].content)
    || (Shown(events, i) && text == BlockOf(events[i]))
  }

  /** The message an event belongs to starts at or before the event and is of the event's role. */
  lemma OpeningOf(events: seq<Event>, i: nat, text: string)
    requires i < |events| && Shows(events, i, text)
    ensures var start := LastOpening(events, i + 1);
            && 0 <= start <= i
            && (events[start].User? <==> events[i].User?)
            && (events[i].User? ==> start == i)
  {
    if !Opens(events, i) {
      PassTracks(events, i);
    }
  }

  lemma MessageAt(events: seq<Event>, i: nat, text: string)
    requires i < |events| && Shows(events, i, text)
    ensures var k := Position(events, i);
            && 0 <= k < |Derive(events)|
            && Contains(Derive(events)[k].content, text)
            && (events[i].User? ==> Derive(events)[k] == Message("user", text))
            && (!events[i].User? ==> Derive(events)[k].role == "assistant")
  {
    DeriveIsGrouping(events);
    OpeningOf(events, i, text);
    var start := LastOpening(events, i + 1);
    var end := MessageIn(events, i, |events|);
    if events[i].User? {
      assert OccursAt(text, text, 0);
    } else {
      BodyHas(events, start, i, end, text);
    }
  }

  lemma {:induction false} CarrierOf(events: seq<Event>, n: nat, block: string) returns (k: nat)
    requires n <= |events| && Carried(events[n..], block) && block != ""
    ensures n <= k < |events| && events[k].Assistant? && Contains(events[k].content, block)
    ensures forall j | n <= j < k :: !events[j].User? && !events[j].Assistant?
    decreases |events| - n
  {
    var rest := events[n..];
    if rest[0].Assistant? {
      k := n;
    } else {
      assert rest[1..] == events[n + 1..];
      k := CarrierOf(events, n + 1, block);
    }
  }

  /**
    Conservation: each event has a position among the derived messages, monotone in event order.  Every user message is
    exactly the message at its position, every assistant and thought text is contained in the one at its position, and
    so is the exact block of every tool result that has an assistant context, unless the next assistant text of the
    same exchange carries it, and then it is in that text's message.
   */
  lemma LogConserved(events: seq<Event>, i: nat, j: nat)
    requires i <= j < |events|
    ensures Position(events, i) <= Position(events, j)
    ensures var k, out := Position(events, i), Derive(events);
            match events[i]
            case User(text) => 0 <= k < |out| && out[k] == Message("user", text)
            case Assistant(text) => 0 <= k < |out| && out[k].role == "assistant" && Contains(out[k].content, text)
            case Thought(text) => 0 <= k < |out| && out[k].role == "assistant" && Contains(out[k].content, text)
            case ToolCall(_, _) => true
            case ToolResult(name, ok, output) =>
              NoTurn(events, i) || Visible(events, i,
                if ok then "[Tool result: " + name + "]\n" + output + "\n[/Tool result]"
                else "[Tool error: " + name + "]\n" + output + "\n[/Tool error]")
  {
    var _ := MessageIn(events, i, j + 1);
    if events[i].User? || Speaks(events[i]) {
      MessageAt(events, i, events[i].content);
    } else if events[i].ToolResult? && !NoTurn(events, i) {
      ResultVisible(events, i);
      ToolTextIsBlock(events[i]);
    }
  }

  lemma ResultVisible(events: seq<Event>, i: nat)
    requires i < |events| && events[i].ToolResult? && !NoTurn(events, i)
    ensures Visible(events, i, BlockOf(events[i]))
  {
    var block := BlockOf(events[i]);
    if Shown(events, i) {
      MessageAt(events, i, block);
      assert VisibleAt(events, i, i, block);
    } else {
      var k := CarrierOf(events, i + 1, block);
      MessageAt(events, k, events[k].content);
      ContainsTrans(Derive(events)[Position(events, k)].content, events[k].content, block);
      assert VisibleAt(events, i, k, block);
    }
  }

  /** The text of event `i` is in the message of event `at`: itself, or the next assistant text. */
  ghost predicate VisibleAt(events: seq<Event>, i: nat, at: nat, text: string)
    requires i < |events|
  {
    && i <= at < |events|
    && (at != i ==> events[at].Assistant? && forall j | i < j < at :: !events[j].User? && !events[j].Assistant?)
    && 0 <= Position(events, at) < |Derive(events)|
    && Contains(Derive(events)[Position(events, at)].content, text)
  }

  ghost predicate Visible(events: seq<Event>, i: nat, text: string)
    requires i < |events|
  {
    exists at: nat :: VisibleAt(events, i, at, text)
  }

  // ---------------------------------------------------------------- the grouping spelled out

  /** The block of a tool result, written out. */
  function ToolText(e: Event): string
    requires e.ToolResult?
  {
    match e.ok
    case true => "[Tool result: " + e.name + "]\n" + e.output + "\n[/Tool result]"
    case false => "[Tool error: " + e.name + "]\n" + e.output + "\n[/Tool error]"
  }

  /** A later assistant text of the same exchange, the first one, contains the block. */
  ghost predicate CarriedLater(events: seq<Event>, j: nat, block: string) {
    exists k | j < k < |events| ::
      && events[k].Assistant? && (exists before, after :: events[k].content == before + block + after)
      && forall m | j < m < k :: !events[m].User? && !events[m].Assistant?
  }

  /** What a message grows by at each event, with the separators, and which results are shown. */
  lemma GroupingSpelledOut(events: seq<Event>, i: nat, j: nat)
    requires i <= j < |events|
    ensures var before, e := Body(events, i, j), events[j];
            Body(events, i, j + 1) ==
            (match e
             case Assistant(text) => if before == "" then text else before + "\n\n" + text
             case Thought(text) => if before == "" then text else before + "\n\n" + text
             case ToolResult(_, _, _) =>
               if NoTurn(events, j) || CarriedLater(events, j, ToolText(e)) then before
               else if before == "" then ToolText(e) else before + "\n" + ToolText(e)
             case _ => before)
  {
    if events[j].ToolResult? {
      ToolTextIsBlock(events[j]);
      CarriedIff(events, j, ToolText(events[j]));
    }
  }

  lemma ToolTextIsBlock(e: Event)
    requires e.ToolResult?
    ensures BlockOf(e) == ToolText(e)
  {
  }

  lemma CarriedIff(events: seq<Event>, j: nat, block: string)
    requires j < |events| && block != ""
    ensures Carried(events[j + 1..], block) <==> CarriedLater(events, j, block)
  {
    if Carried(events[j + 1..], block) {
      var k := CarrierOf(events, j + 1, block);
      var before, after := ContainsSplit(events[k].content, block);
      assert events[k].content == before + block + after;
    }
    if CarriedLater(events, j, block) {
      var k :| j < k < |events| && events[k].Assistant?
               && (exists before, after :: events[k].content == before + block + after)
               && forall m | j < m < k :: !events[m].User? && !events[m].Assistant?;
      var before, after :| events[k].content == before + block + after;
      ContainsPart(before, block, after);
      FirstIsFollowing(events, j + 1, k);
    }
  }

  lemma {:induction false} FirstIsFollowing(events: seq<Event>, n: nat, k: nat)
    requires n <= k < |events| && events[k].Assistant?
    requires forall m | n <= m < k :: !events[m].User? && !events[m].Assistant?
    ensures Following(events[n..]) == Some(events[k].content)
    decreases k - n
  {
    if n < k {
      assert events[n..][1..] == events[n + 1..];
      FirstIsFollowing(events, n + 1, k);
    }
  }

  // ---------------------------------------------------------------- counting messages

  ghost function UserMessages(out: seq<Message>): seq<string> {
    if out == [] then []
    else
      var last := out[|out| - 1];
      UserMessages(out[..|out| - 1]) + if last.role == "user" then [last.content] else []
  }

  ghost function UserTexts(events: seq<Event>): seq<string> {
    if events == [] then []
    else
      var last := events[|events| - 1];
      UserTexts(events[..|events| - 1]) + if last.User? then [last.content] else []
  }

  ghost function AssistantTexts(events: seq<Event>, n: nat): nat
    requires n <= |events|
  {
    if n == 0 then 0 else AssistantTexts(events, n - 1) + if events[n - 1].Assistant? then 1 else 0
  }

  /** A thought opened a turn, and no assistant text among the first `n` events was folded into that turn. */
  ghost predicate StaysThought(events: seq<Event>, i: nat, n: nat)
    requires i < n <= |events|
  {
    && events[i].Thought? && Opens(events, i)
    && forall k | i < k < n && events[k].Assistant? :: LastOpening(events, k + 1) != i
  }

  ghost function ThoughtTurns(events: seq<Event>, n: nat): set<nat>
    requires n <= |events|
  {
    set i: nat | i < n && StaysThought(events, i, n)
  }

  /** A merged text finds the turn of its own thought, which no text was merged into before. */
  lemma MergeTarget(events: seq<Event>, n: nat)
    requires n < |events| && events[n].Assistant? && !Opens(events, n)
    ensures var i := LastOpening(events, n); i >= 0 && StaysThought(events, i, n)
  {
    var i := TurnOpening(events, n);
    assert !Material(events, n);
    assert forall k | i <= k < n :: !events[k].Assistant?;
  }

  /** In a turn, the last opening is a speaking event of that turn. */
  lemma TurnOpening(events: seq<Event>, n: nat) returns (i: nat)
    requires n <= |events| && !NoTurn(events, n)
    ensures i == LastOpening(events, n) && TurnBase(events, n) <= i && Speaks(events[i]) && Opens(events, i)
  {
    PassTracks(events, n);
    LastOpeningAfterBase(events, n);
    i := LastOpening(events, n);
  }

  lemma {:induction false} LastOpeningAfterBase(events: seq<Event>, n: nat)
    requires n <= |events|
    ensures LastOpening(events, n) >= TurnBase(events, n) - 1
  {
    if n > 0 && !events[n - 1].User? {
      LastOpeningAfterBase(events, n - 1);
    }
  }

  lemma StaysThoughtStep(events: seq<Event>, i: nat, n: nat)
    requires i < n < |events|
    ensures StaysThought(events, i, n + 1) <==>
            StaysThought(events, i, n) && !(events[n].Assistant? && LastOpening(events, n + 1) == i)
  {
  }

  lemma ThoughtTurnsOpen(events: seq<Event>, n: nat)
    requires n < |events| && !events[n].Assistant?
    ensures n !in ThoughtTurns(events, n)
    ensures ThoughtTurns(events, n + 1) ==
            ThoughtTurns(events, n) + if events[n].Thought? && Opens(events, n) then {n} else {}
  {
    forall i: nat | i < n ensures i in ThoughtTurns(events, n + 1) <==> i in ThoughtTurns(events, n) {
      StaysThoughtStep(events, i, n);
    }
    assert n in ThoughtTurns(events, n + 1) <==> events[n].Thought? && Opens(events, n);
  }

  lemma ThoughtTurnsMerge(events: seq<Event>, n: nat, target: int)
    requires n < |events| && events[n].Assistant? && target == LastOpening(events, n + 1)
    ensures ThoughtTurns(events, n + 1) == set i | i in ThoughtTurns(events, n) && i != target
  {
    forall i: nat | i < n
      ensures i in ThoughtTurns(events, n + 1) <==> i in ThoughtTurns(events, n) && i != target
    {
      StaysThoughtStep(events, i, n);
    }
    assert n !in ThoughtTurns(events, n + 1);
  }

  lemma ThoughtTurnsStep(events: seq<Event>, n: nat)
    requires n < |events|
    ensures |ThoughtTurns(events, n + 1)| ==
            |ThoughtTurns(events, n)| + if events[n].Thought? && Opens(events, n) then 1
                                        else if events[n].Assistant? && !Opens(events, n) then -1 else 0
  {
    if !events[n].Assistant? {
      ThoughtTurnsOpen(events, n);
    } else {
      var target := LastOpening(events, n + 1);
      ThoughtTurnsMerge(events, n, target);
      if !Opens(events, n) {
        MergeTarget(events, n);
      }
      WithoutOne(ThoughtTurns(events, n), target);
    }
  }

  lemma WithoutOne(s: set<nat>, x: int)
    ensures |set i | i in s && i != x| == if x in s then |s| - 1 else |s|
  {
    if x in s {
      assert (set i | i in s && i != x) == s - {x};
    } else {
      assert (set i | i in s && i != x) == s;
    }
  }

  /** The rendering gains one message per opening; folding an event in keeps the roles and the user texts. */
  lemma RenderedCountsStep(events: seq<Event>, n: nat)
    requires n < |events|
    ensures |Rendered(events, n + 1)| == |Rendered(events, n)| + if Opens(events, n) then 1 else 0
    ensures UserMessages(Rendered(events, n + 1)) ==
            UserMessages(Rendered(events, n)) + if events[n].User? then [events[n].content] else []
  {
    var i, l := LastOpening(events, n), LastOpening(events, n + 1);
    if l >= 0 {
      var now := Rendered(events, n + 1);
      assert now[..|now| - 1] == Rendered(events, l);
    }
    if i >= 0 {
      var before := Rendered(events, n);
      assert before[..|before| - 1] == Rendered(events, i);
    }
  }

  lemma {:induction false} RenderedCounts(events: seq<Event>, n: nat)
    requires n <= |events|
    ensures var out := Rendered(events, n);
            && UserMessages(out) == UserTexts(events[..n])
            && |out| - |UserMessages(out)| ==
               AssistantTexts(events, n) + |ThoughtTurns(events, n)|
  {
    if n > 0 {
      RenderedCounts(events, n - 1);
      RenderedCountsStep(events, n - 1);
      ThoughtTurnsStep(events, n - 1);
      assert events[..n][..n - 1] == events[..n - 1];
    }
  }

  /**
    The user messages are exactly the user events in order, and the assistant messages number the assistant texts plus
    the thought-opened turns that no assistant text was folded into.
   */
  lemma MessagesCounted(events: seq<Event>)
    ensures var out := Derive(events);
            && UserMessages(out) == UserTexts(events)
            && |out| - |UserMessages(out)| ==
               AssistantTexts(events, |events|) + |ThoughtTurns(events, |events|)|
  {
    DeriveIsGrouping(events);
    RenderedCounts(events, |events|);
    assert events[..|events|] == events;
  }
}
