/**
  The table of outbound client requests: `register_pending_client_request`, `resolve_pending_client_response` and the
  body of `request_client_permission`, racing on one locked map of one-shot senders.

  Every lock scope and every channel operation is one `Action`; `Exec(run)`, for every `run`, is every reachable state.
 */
module PendingRequests {
  import opened Wrappers

  datatype Json =
    | Null
    | Bool(b: bool)
    | Number(n: int)
    | Str(s: string)
    | Array(items: seq<Json>)
    | Object(fields: map<string, Json>)

  function Get(v: Json, key: string): Option<Json> {
    if v.Object? && key in v.fields then Some(v.fields[key]) else None
  }

  function LowerAscii(s: string): string {
    seq(|s|, i requires 0 <= i < |s| => if 'A' <= s[i] <= 'Z' then s[i] + ('a' - 'A') else s[i])
  }

  /** `permission_decision_from_result`: anything unrecognised is a denial. */
  function Decision(v: Json): bool {
    match Get(v, "optionId")
    case Some(Str(option)) => LowerAscii(option) in ["approve", "allow", "allow_once", "allow_always"]
    case _ =>
      match Get(v, "approved")
      case Some(Bool(approved)) => approved
      case _ =>
        match Get(v, "allow")
        case Some(Bool(allowed)) => allowed
        case _ => false
  }

  datatype RpcError = RpcError(code: int, message: string)
  datatype Outcome = Ok(result: Json) | Err(error: RpcError)
  datatype Response = Response(id: Option<string>, result: Option<Json>, error: Option<RpcError>)

  function OutcomeOf(r: Response): Outcome {
    match (r.result, r.error)
    case (Some(v), _) => Ok(v)
    case (None, Some(e)) => Err(e)
    case (None, None) => Ok(Null)
  }

  type Call = nat

  datatype Result =
    | Decided(approved: bool)
    | ClientError(error: RpcError)
    | SendFailed
    | TimedOut
    | ChannelClosed

  function ResultOf(o: Outcome): Result {
    match o
    case Ok(v) => Decided(Decision(v))
    case Err(e) => ClientError(e)
  }

  datatype Phase =
    | Registered          // in the table, request not yet written
    | Waiting             // request written, waiting on the channel
    | Leaving(r: Result)  // write failed or the timeout fired: about to remove its id and return
    | Returned(r: Result)

  /** Where the one-shot sender of a call is. */
  datatype Sender =
    | InTable
    | Taken(o: Outcome)  // removed by a response that has not sent yet
    | Sent(o: Outcome)
    | Dropped

  datatype CallState = CallState(id: string, phase: Phase, sender: Sender)

  datatype State = State(table: map<string, Call>, calls: map<Call, CallState>)

  datatype Action =
    | Register(c: Call, id: string)
    | WriteOk(c: Call)
    | WriteFailed(c: Call)    // no transport, or the write returned an error
    | Expire(c: Call)         // the timeout fires
    | Remove(c: Call)         // the locked removal on a failure path, then the return
    | Respond(r: Response)    // the locked removal by a response
    | Deliver(c: Call)        // ... and its send
    | Receive(c: Call)

  function SetPhase(s: State, c: Call, p: Phase): State
    requires c in s.calls
  {
    s.(calls := s.calls[c := s.calls[c].(phase := p)])
  }

  function SetSender(s: State, c: Call, x: Sender): State
    requires c in s.calls
  {
    s.(calls := s.calls[c := s.calls[c].(sender := x)])
  }

  /** Takes `id` out of the table; the sender found there, if any, becomes `x`. */
  function TakeOut(s: State, id: string, x: Sender): State {
    var s' := s.(table := s.table - {id});
    if id in s.table && s.table[id] in s.calls then SetSender(s', s.table[id], x) else s'
  }

  predicate At(s: State, c: Call, p: Phase) {
    c in s.calls && s.calls[c].phase == p
  }

  function Apply(s: State, a: Action): State {
    match a
    case Register(c, id) =>
      if c in s.calls then s
      else
        // Inserting over an existing entry drops the sender that was there.
        var s' := TakeOut(s, id, Dropped);
        State(s'.table[id := c], s'.calls[c := CallState(id, Registered, InTable)])
    case WriteOk(c) => if At(s, c, Registered) then SetPhase(s, c, Waiting) else s
    case WriteFailed(c) => if At(s, c, Registered) then SetPhase(s, c, Leaving(SendFailed)) else s
    case Expire(c) => if At(s, c, Waiting) then SetPhase(s, c, Leaving(TimedOut)) else s
    case Remove(c) =>
      if c in s.calls && s.calls[c].phase.Leaving? then
        SetPhase(TakeOut(s, s.calls[c].id, Dropped), c, Returned(s.calls[c].phase.r))
      else s
    case Respond(r) =>
      if r.id.Some? && r.id.value in s.table then TakeOut(s, r.id.value, Taken(OutcomeOf(r))) else s
    case Deliver(c) =>
      if c in s.calls && s.calls[c].sender.Taken? then
        // The receiver is gone once the call timed out or returned; the send then fails silently.
        var gone := s.calls[c].phase == Leaving(TimedOut) || s.calls[c].phase.Returned?;
        SetSender(s, c, if gone then Dropped else Sent(s.calls[c].sender.o))
      else s
    case Receive(c) =>
      if !At(s, c, Waiting) then s
      else
        match s.calls[c].sender
        case Sent(Ok(v)) => SetPhase(s, c, Returned(Decided(Decision(v))))
        case Sent(Err(e)) => SetPhase(s, c, Returned(ClientError(e)))
        case Dropped => SetPhase(s, c, Returned(ChannelClosed))
        case _ => s
  }

  function Exec(run: seq<Action>): State {
    if run == [] then State(map[], map[]) else Apply(Exec(run[..|run| - 1]), run[|run| - 1])
  }

  // ---------------------------------------------------------------- the table and the senders agree

  /** The table holds exactly the senders that no response, failure or overwrite has taken out, under their own ids. */
  ghost predicate Consistent(s: State) {
    && (forall id <- s.table ::
          var c := s.table[id]; c in s.calls && s.calls[c].id == id && s.calls[c].sender == InTable)
    && (forall c <- s.calls :: s.calls[c].sender == InTable ==> s.calls[c].id in s.table && s.table[s.calls[c].id] == c)
  }

  lemma TakeOutConsistent(s: State, id: string, x: Sender)
    requires Consistent(s) && x != InTable
    ensures Consistent(TakeOut(s, id, x)) && id !in TakeOut(s, id, x).table
  {
  }

  lemma SetPhaseConsistent(s: State, c: Call, p: Phase)
    requires Consistent(s) && c in s.calls
    ensures Consistent(SetPhase(s, c, p))
  {
  }

  lemma SetSenderConsistent(s: State, c: Call, x: Sender)
    requires Consistent(s) && c in s.calls && s.calls[c].sender != InTable && x != InTable
    ensures Consistent(SetSender(s, c, x))
  {
  }

  lemma AddCallConsistent(s: State, c: Call, id: string)
    requires Consistent(s) && c !in s.calls && id !in s.table
    ensures Consistent(State(s.table[id := c], s.calls[c := CallState(id, Registered, InTable)]))
  {
  }

  lemma StepConsistent(s: State, a: Action)
    requires Consistent(s)
    ensures Consistent(Apply(s, a))
  {
    match a
    case Register(c, id) =>
      if c !in s.calls {
        TakeOutConsistent(s, id, Dropped);
        AddCallConsistent(TakeOut(s, id, Dropped), c, id);
      }
    case Remove(c) =>
      if c in s.calls && s.calls[c].phase.Leaving? {
        TakeOutConsistent(s, s.calls[c].id, Dropped);
        SetPhaseConsistent(TakeOut(s, s.calls[c].id, Dropped), c, Returned(s.calls[c].phase.r));
      }
    case Respond(r) =>
      if r.id.Some? {
        TakeOutConsistent(s, r.id.value, Taken(OutcomeOf(r)));
      }
    case Deliver(c) =>
      if c in s.calls && s.calls[c].sender.Taken? {
        SetSenderConsistent(s, c, Dropped);
        SetSenderConsistent(s, c, Sent(s.calls[c].sender.o));
      }
    case _ =>
      if a.c in s.calls && Apply(s, a) != s {
        SetPhaseConsistent(s, a.c, Apply(s, a).calls[a.c].phase);
      }
  }

  lemma {:induction false} RunConsistent(run: seq<Action>)
    ensures Consistent(Exec(run))
  {
    if run != [] {
      RunConsistent(run[..|run| - 1]);
      StepConsistent(Exec(run[..|run| - 1]), run[|run| - 1]);
    }
  }

  /** A response changes something exactly when its id is in the table. */
  lemma UnknownIdChangesNothing(run: seq<Action>, r: Response)
    ensures Exec(run + [Respond(r)]) == Exec(run) <==> r.id.None? || r.id.value !in Exec(run).table
  {
    assert (run + [Respond(r)])[..|run|] == run;
    var s, s' := Exec(run), Exec(run + [Respond(r)]);
    if r.id.Some? && r.id.value in s.table {
      assert r.id.value !in s'.table;
    }
  }

  // ---------------------------------------------------------------- every result is an answer to this very call

  /** The `j`th action is a response that took the sender of `c` out of the table, under the id of `c`. */
  ghost predicate Answers(run: seq<Action>, j: nat, c: Call) {
    j < |run| && AnswersNow(Exec(run[..j]), run[j], c)
  }

  ghost predicate AnsweredWith(run: seq<Action>, c: Call, o: Outcome) {
    exists j: nat :: Answers(run, j, c) && OutcomeOf(run[j].r) == o
  }

  lemma AnsweredMonotone(run: seq<Action>, a: Action, c: Call, o: Outcome)
    requires AnsweredWith(run, c, o)
    ensures AnsweredWith(run + [a], c, o)
  {
    var j: nat :| Answers(run, j, c) && OutcomeOf(run[j].r) == o;
    assert (run + [a])[..j] == run[..j];
    assert Answers(run + [a], j, c);
  }

  /** What a call's sender holds, and what the call returned, comes from a response addressed to it. */
  ghost predicate Explained(run: seq<Action>, c: Call, st: CallState) {
    && (st.sender.Taken? || st.sender.Sent? ==> AnsweredWith(run, c, st.sender.o))
    && (st.phase.Returned? ==>
          match st.phase.r
          case Decided(b) => exists v :: AnsweredWith(run, c, Ok(v)) && Decision(v) == b
          case ClientError(e) => AnsweredWith(run, c, Err(e))
          case _ => true)
    && (st.phase.Leaving? ==> st.phase.r.SendFailed? || st.phase.r.TimedOut?)
  }

  lemma ExplainedMonotone(run: seq<Action>, a: Action, c: Call, st: CallState)
    requires Explained(run, c, st)
    ensures Explained(run + [a], c, st)
  {
    if st.sender.Taken? || st.sender.Sent? {
      AnsweredMonotone(run, a, c, st.sender.o);
    }
    if st.phase.Returned? {
      match st.phase.r
      case Decided(b) =>
        var v :| AnsweredWith(run, c, Ok(v)) && Decision(v) == b;
        AnsweredMonotone(run, a, c, Ok(v));
      case ClientError(e) => AnsweredMonotone(run, a, c, Err(e));
      case _ =>
    }
  }

  /** The response takes the sender of `c` out of the table, under the id of `c`. */
  ghost predicate AnswersNow(s: State, a: Action, c: Call) {
    && a.Respond? && a.r.id.Some? && a.r.id.value in s.table && s.table[a.r.id.value] == c
    && c in s.calls && s.calls[c].id == a.r.id.value
  }

  /** All that a step can do to the sender of a call. */
  lemma StepMovesSender(s: State, a: Action, c: Call)
    requires Consistent(s) && c in s.calls && c in Apply(s, a).calls
    ensures var before, now := s.calls[c].sender, Apply(s, a).calls[c].sender;
            || now == before
            || now == Dropped
            || (AnswersNow(s, a, c) && now == Taken(OutcomeOf(a.r)))
            || (before.Taken? && now == Sent(before.o))
  {
  }

  /** All that a step can do to the phase of a call. */
  lemma StepMovesPhase(s: State, a: Action, c: Call)
    requires c in s.calls && c in Apply(s, a).calls
    ensures var before, now := s.calls[c], Apply(s, a).calls[c].phase;
            || now == before.phase
            || (before.phase.Registered? && (now.Waiting? || (now == Leaving(SendFailed) && a == WriteFailed(c))))
            || (before.phase.Waiting? && now == Leaving(TimedOut) && a == Expire(c))
            || (before.phase.Leaving? && now == Returned(before.phase.r))
            || (before.phase.Waiting? && before.sender == Dropped && now == Returned(ChannelClosed))
            || (before.phase.Waiting? && before.sender.Sent? && now == Returned(ResultOf(before.sender.o)))
  {
  }

  lemma StepExplained(run: seq<Action>, a: Action, c: Call)
    requires Consistent(Exec(run))
    requires c in Exec(run).calls ==> Explained(run, c, Exec(run).calls[c])
    requires c in Exec(run + [a]).calls
    ensures Explained(run + [a], c, Exec(run + [a]).calls[c])
  {
    var s := Exec(run);
    assert (run + [a])[..|run|] == run;
    assert Exec(run + [a]) == Apply(s, a);
    if c in s.calls {
      ExplainedMonotone(run, a, c, s.calls[c]);
      StepMovesSender(s, a, c);
      StepMovesPhase(s, a, c);
      if AnswersNow(s, a, c) {
        assert Answers(run + [a], |run|, c);
      }
    } else {
      StepAddsCall(s, a, c);
    }
  }

  lemma {:induction false} RunExplained(run: seq<Action>, c: Call)
    requires c in Exec(run).calls
    ensures Explained(run, c, Exec(run).calls[c])
  {
    if run != [] {
      var init := run[..|run| - 1];
      assert init + [run[|run| - 1]] == run;
      RunConsistent(init);
      if c in Exec(init).calls {
        RunExplained(init, c);
      }
      StepExplained(init, run[|run| - 1], c);
    }
  }

  /**
    Approval (or denial, or a client error) is returned only if a response with that very id, arriving while the call
    was registered under it, carried that result.
   */
  lemma ResultsAreAnswers(run: seq<Action>, c: Call)
    requires c in Exec(run).calls
    ensures forall b :: Exec(run).calls[c].phase == Returned(Decided(b)) ==>
              exists v :: AnsweredWith(run, c, Ok(v)) && Decision(v) == b
    ensures forall e :: Exec(run).calls[c].phase == Returned(ClientError(e)) ==> AnsweredWith(run, c, Err(e))
  {
    RunExplained(run, c);
  }

  // ---------------------------------------------------------------- at most one outcome

  /** A step keeps every call with its id; a result stays and a sender never gets back into the table. */
  lemma StepKeepsCall(s: State, a: Action, c: Call)
    requires c in s.calls
    ensures c in Apply(s, a).calls
    ensures var before, now := s.calls[c], Apply(s, a).calls[c];
            && now.id == before.id
            && (before.phase.Returned? ==> now.phase == before.phase)
            && (before.sender != InTable ==> now.sender != InTable)
  {
  }

  /** Once a call has returned, its result never changes. */
  lemma {:induction false} ReturnIsFinal(run: seq<Action>, more: seq<Action>, c: Call)
    requires c in Exec(run).calls && Exec(run).calls[c].phase.Returned?
    ensures c in Exec(run + more).calls && Exec(run + more).calls[c].phase == Exec(run).calls[c].phase
    decreases |more|
  {
    if more == [] {
      assert run + more == run;
    } else {
      var init := run + more[..|more| - 1];
      ReturnIsFinal(run, more[..|more| - 1], c);
      assert (run + more)[..|run + more| - 1] == init;
      StepKeepsCall(Exec(init), more[|more| - 1], c);
    }
  }

  lemma {:induction false} TakenForGood(run: seq<Action>, more: seq<Action>, c: Call)
    requires c in Exec(run).calls && Exec(run).calls[c].sender != InTable
    ensures c in Exec(run + more).calls && Exec(run + more).calls[c].sender != InTable
    decreases |more|
  {
    if more == [] {
      assert run + more == run;
    } else {
      var init := run + more[..|more| - 1];
      TakenForGood(run, more[..|more| - 1], c);
      assert (run + more)[..|run + more| - 1] == init;
      StepKeepsCall(Exec(init), more[|more| - 1], c);
    }
  }

  /** No call is answered twice, whatever ids the calls use. */
  lemma AtMostOneOutcome(run: seq<Action>, c: Call, i: nat, j: nat)
    requires Answers(run, i, c) && Answers(run, j, c)
    ensures i == j
  {
    if i < j {
      AnsweredOnce(run, c, i, j);
    } else if j < i {
      AnsweredOnce(run, c, j, i);
    }
  }

  lemma AnsweredOnce(run: seq<Action>, c: Call, i: nat, j: nat)
    requires Answers(run, i, c) && i < j
    ensures !Answers(run, j, c)
  {
    if j < |run| {
      StepsTakeOut(run, i, c);
      StaysOut(run, i, j, c);
      RunConsistent(run[..j]);
    }
  }

  // ---------------------------------------------------------------- calls that share an id

  /** No other call registers the id of `c`. */
  ghost predicate OwnId(run: seq<Action>, c: Call) {
    forall i, j | 0 <= i < |run| && 0 <= j < |run| && run[i].Register? && run[j].Register? ::
      run[i].c == c && run[j].c != c ==> run[i].id != run[j].id
  }

  lemma StepAddsCall(s: State, a: Action, c: Call)
    requires c !in s.calls && c in Apply(s, a).calls
    ensures a == Register(c, Apply(s, a).calls[c].id)
    ensures Apply(s, a).calls[c].phase == Registered && Apply(s, a).calls[c].sender == InTable
  {
  }

  lemma {:induction false} IdWasRegistered(run: seq<Action>, c: Call)
    requires c in Exec(run).calls
    ensures Register(c, Exec(run).calls[c].id) in run
  {
    if run != [] {
      var init := run[..|run| - 1];
      if c in Exec(init).calls {
        IdWasRegistered(init, c);
        StepKeepsCall(Exec(init), run[|run| - 1], c);
        assert Register(c, Exec(init).calls[c].id) in run;
      } else {
        StepAddsCall(Exec(init), run[|run| - 1], c);
      }
    }
  }

  lemma IdsDiffer(run: seq<Action>, c: Call, d: Call)
    requires OwnId(run, c) && c != d && c in Exec(run).calls && d in Exec(run).calls
    ensures Exec(run).calls[c].id != Exec(run).calls[d].id
  {
    IdWasRegistered(run, c);
    IdWasRegistered(run, d);
  }

  /** Another call's insertion or removal, under the same id, drops the sender of `c` from the table. */
  ghost predicate RobsNow(s: State, a: Action, c: Call) {
    && c in s.calls && s.calls[c].sender == InTable
    && match a
       case Register(d, id) => d !in s.calls && id == s.calls[c].id
       case Remove(d) => d != c && d in s.calls && s.calls[d].phase.Leaving? && s.calls[d].id == s.calls[c].id
       case _ => false
  }

  ghost predicate Robs(run: seq<Action>, j: nat, c: Call) {
    j < |run| && RobsNow(Exec(run[..j]), run[j], c)
  }

  ghost predicate Robbed(run: seq<Action>, c: Call) {
    exists j: nat :: Robs(run, j, c)
  }

  lemma RobbedSnoc(run: seq<Action>, a: Action, c: Call)
    ensures Robbed(run + [a], c) <==> Robbed(run, c) || RobsNow(Exec(run), a, c)
  {
    var all := run + [a];
    assert all[..|run|] == run;
    forall j: nat | j < |run| ensures Robs(all, j, c) <==> Robs(run, j, c) {
      assert all[..j] == run[..j];
    }
    if RobsNow(Exec(run), a, c) {
      assert Robs(all, |run|, c);
    }
    if Robbed(run, c) {
      var j: nat :| Robs(run, j, c);
      assert Robs(all, j, c);
    }
  }

  /** What being robbed, or not, means for the state of a call. */
  ghost predicate Tells(st: CallState, robbed: bool) {
    && (robbed ==> st.sender == Dropped)
    && (st.sender == Dropped && !st.phase.Returned? && st.phase != Leaving(TimedOut) ==> robbed)
    && (st.phase == Returned(ChannelClosed) ==> robbed)
    && (st.phase.Returned? ==> st.sender != InTable)
    && (st.phase.Leaving? ==> st.phase.r.SendFailed? || st.phase.r.TimedOut?)
  }

  lemma StepTells(s: State, a: Action, c: Call, robbed: bool)
    requires Consistent(s) && c in s.calls && Tells(s.calls[c], robbed)
    ensures c in Apply(s, a).calls && Tells(Apply(s, a).calls[c], robbed || RobsNow(s, a, c))
  {
    StepKeepsCall(s, a, c);
    StepMovesPhase(s, a, c);
    StepDrops(s, a, c);
  }

  /** How a sender comes to be dropped. */
  lemma StepDrops(s: State, a: Action, c: Call)
    requires Consistent(s) && c in s.calls && c in Apply(s, a).calls
    ensures var before, now := s.calls[c], Apply(s, a).calls[c];
            && (RobsNow(s, a, c) || before.sender == Dropped ==> now.sender == Dropped)
            && (now.sender == Dropped ==>
                  || before.sender == Dropped || RobsNow(s, a, c) || now.phase.Returned?
                  || before.phase == Leaving(TimedOut))
            && (now.phase.Returned? && !before.phase.Returned? ==> now.sender != InTable)
  {
  }

  lemma {:induction false} RunTells(run: seq<Action>, c: Call)
    ensures Robbed(run, c) ==> c in Exec(run).calls
    ensures c in Exec(run).calls ==> Tells(Exec(run).calls[c], Robbed(run, c))
  {
    if run != [] {
      var init, a := run[..|run| - 1], run[|run| - 1];
      assert run == init + [a];
      RunTells(init, c);
      RunConsistent(init);
      RobbedSnoc(init, a, c);
      if c in Exec(init).calls {
        StepTells(Exec(init), a, c, Robbed(init, c));
      } else if c in Exec(run).calls {
        StepAddsCall(Exec(init), a, c);
      }
    }
  }

  /**
    Exactly when a call loses its channel: its sender is dropped before it gives up or returns if and only if another
    call inserted or removed under its id while its entry was in the table.
   */
  lemma DroppedIffRobbed(run: seq<Action>, c: Call)
    requires c in Exec(run).calls
    requires var p := Exec(run).calls[c].phase; !p.Returned? && p != Leaving(TimedOut)
    ensures Exec(run).calls[c].sender == Dropped <==> Robbed(run, c)
  {
    RunTells(run, c);
  }

  /** ... and what it returns: of the calls that were written and did not time out, exactly the robbed ones fail so. */
  lemma ClosedIffRobbed(run: seq<Action>, c: Call)
    requires c in Exec(run).calls && Exec(run).calls[c].phase.Returned?
    ensures Exec(run).calls[c].phase.r == ChannelClosed ==> Robbed(run, c)
    ensures WriteFailed(c) !in run && Expire(c) !in run ==>
              (Exec(run).calls[c].phase.r == ChannelClosed <==> Robbed(run, c))
  {
    RunTells(run, c);
    RunGivesUp(run, c);
    RunExplained(run, c);
    if Robbed(run, c) && (exists o :: AnsweredWith(run, c, o)) {
      var o :| AnsweredWith(run, c, o);
      var i: nat :| Answers(run, i, c) && OutcomeOf(run[i].r) == o;
      var j: nat :| Robs(run, j, c);
      NotAnsweredAndRobbed(run, c, i, j);
    }
  }

  /** A call is answered or robbed, not both. */
  lemma NotAnsweredAndRobbed(run: seq<Action>, c: Call, i: nat, j: nat)
    requires Answers(run, i, c)
    ensures !Robs(run, j, c)
  {
    if Robs(run, j, c) {
      StepsTakeOut(run, i, c);
      StepsTakeOut(run, j, c);
      if i < j {
        StaysOut(run, i, j, c);
      } else if j < i {
        StaysOut(run, j, i, c);
      }
      RunConsistent(run[..i]);
    }
  }

  lemma StepsTakeOut(run: seq<Action>, i: nat, c: Call)
    requires Answers(run, i, c) || Robs(run, i, c)
    ensures c in Exec(run[..i + 1]).calls && Exec(run[..i + 1]).calls[c].sender != InTable
  {
    var s := Exec(run[..i]);
    assert run[..i + 1] == run[..i] + [run[i]];
    ExecSnoc(run[..i], run[i]);
    RunConsistent(run[..i]);
    StepKeepsCall(s, run[i], c);
    if Robs(run, i, c) {
      StepDrops(s, run[i], c);
    } else {
      AnswerTakesOut(s, run[i], c);
    }
  }

  lemma AnswerTakesOut(s: State, a: Action, c: Call)
    requires AnswersNow(s, a, c)
    ensures c in Apply(s, a).calls && Apply(s, a).calls[c].sender == Taken(OutcomeOf(a.r))
  {
  }

  lemma StaysOut(run: seq<Action>, i: nat, j: nat, c: Call)
    requires i < j <= |run| && c in Exec(run[..i + 1]).calls && Exec(run[..i + 1]).calls[c].sender != InTable
    ensures c in Exec(run[..j]).calls && Exec(run[..j]).calls[c].sender != InTable
  {
    TakenForGood(run[..i + 1], run[i + 1..j], c);
    assert run[..i + 1] + run[i + 1..j] == run[..j];
  }

  /**
    Once a call has returned no entry of the table is its own, over every interleaving and whatever ids are drawn.  So
    its id is in the table exactly when another call is registered under it.
   */
  lemma ReturnedLeavesNoEntry(run: seq<Action>, c: Call)
    requires c in Exec(run).calls && Exec(run).calls[c].phase.Returned?
    ensures forall id <- Exec(run).table :: Exec(run).table[id] != c
    ensures Exec(run).calls[c].id in Exec(run).table <==>
            exists d <- Exec(run).calls ::
              d != c && Exec(run).calls[d].id == Exec(run).calls[c].id && Exec(run).calls[d].sender == InTable
  {
    RunConsistent(run);
    RunTells(run, c);
  }

  /** With an id that no other call uses: nobody robs the call, and once it has returned its id is absent. */
  lemma OwnIdIsSafe(run: seq<Action>, c: Call)
    requires OwnId(run, c) && c in Exec(run).calls
    ensures !Robbed(run, c)
    ensures Exec(run).calls[c].phase.Returned? ==>
              Exec(run).calls[c].id !in Exec(run).table && Exec(run).calls[c].phase.r != ChannelClosed
  {
    if Robbed(run, c) {
      var j: nat :| Robs(run, j, c);
      OwnIdNotRobbed(run, j, c);
    }
    if Exec(run).calls[c].phase.Returned? {
      RunTells(run, c);
      ReturnedLeavesNoEntry(run, c);
      forall d | d in Exec(run).calls && d != c ensures Exec(run).calls[d].id != Exec(run).calls[c].id {
        IdsDiffer(run, c, d);
      }
    }
  }

  lemma OwnIdNotRobbed(run: seq<Action>, j: nat, c: Call)
    requires OwnId(run, c)
    ensures !Robs(run, j, c)
  {
    if Robs(run, j, c) {
      var before, a := run[..j], run[j];
      IdWasRegistered(before, c);
      if a.Remove? {
        IdsDiffer(before, c, a.c);
      }
    }
  }

  // ---------------------------------------------------------------- an answer arrives

  /** Why a call gives up: only because its own write failed or its own timeout fired. */
  ghost predicate GaveUpFor(run: seq<Action>, c: Call, p: Phase) {
    && (p == Leaving(SendFailed) || p == Returned(SendFailed) ==> WriteFailed(c) in run)
    && (p == Leaving(TimedOut) || p == Returned(TimedOut) ==> Expire(c) in run)
  }

  lemma StepGivesUp(s: State, a: Action, c: Call)
    requires c in Apply(s, a).calls
    ensures var p := Apply(s, a).calls[c].phase;
            || (c in s.calls && p == s.calls[c].phase)
            || (c in s.calls && s.calls[c].phase.Leaving? && p == Returned(s.calls[c].phase.r))
            || GaveUpFor([a], c, p)
  {
  }

  lemma {:induction false} RunGivesUp(run: seq<Action>, c: Call)
    requires c in Exec(run).calls
    ensures GaveUpFor(run, c, Exec(run).calls[c].phase)
  {
    if run != [] {
      var init, a := run[..|run| - 1], run[|run| - 1];
      assert run == init + [a];
      StepGivesUp(Exec(init), a, c);
      if c in Exec(init).calls {
        RunGivesUp(init, c);
      }
    }
  }

  /**
    A call that is answered, whose write succeeded and whose timeout did not fire, can return nothing but what the
    answer says.
   */
  lemma AnswerDecidesTheCall(run: seq<Action>, c: Call, o: Outcome)
    requires c in Exec(run).calls && Exec(run).calls[c].phase.Returned?
    requires AnsweredWith(run, c, o) && WriteFailed(c) !in run && Expire(c) !in run
    ensures Exec(run).calls[c].phase == Returned(ResultOf(o))
  {
    var r := Exec(run).calls[c].phase.r;
    RunGivesUp(run, c);
    RunExplained(run, c);
    if r.ChannelClosed? {
      ClosedIffRobbed(run, c);
      var i: nat :| Answers(run, i, c) && OutcomeOf(run[i].r) == o;
      var j: nat :| Robs(run, j, c);
      NotAnsweredAndRobbed(run, c, i, j);
    } else if r.Decided? {
      var v :| AnsweredWith(run, c, Ok(v)) && Decision(v) == r.approved;
      SameAnswer(run, c, o, Ok(v));
    } else {
      SameAnswer(run, c, o, Err(r.error));
    }
  }

  lemma SameAnswer(run: seq<Action>, c: Call, o: Outcome, o': Outcome)
    requires AnsweredWith(run, c, o) && AnsweredWith(run, c, o')
    ensures o == o'
  {
    var i: nat :| Answers(run, i, c) && OutcomeOf(run[i].r) == o;
    var j: nat :| Answers(run, j, c) && OutcomeOf(run[j].r) == o';
    AtMostOneOutcome(run, c, i, j);
  }

  /** ... and it does return it: a response under its id, once delivered, ends the waiting call. */
  lemma AnswerEndsTheCall(run: seq<Action>, c: Call, r: Response)
    requires c in Exec(run).calls && r.id == Some(Exec(run).calls[c].id)
    requires Exec(run).calls[c].phase.Waiting? && Exec(run).calls[c].sender.InTable?
    ensures At(Exec(run + [Respond(r)] + [Deliver(c)] + [Receive(c)]), c, Returned(ResultOf(OutcomeOf(r))))
  {
    RunConsistent(run);
    var r1 := run + [Respond(r)];
    var r2 := r1 + [Deliver(c)];
    var r3 := r2 + [Receive(c)];
    assert r1[..|run|] == run && r2[..|r1|] == r1 && r3[..|r2|] == r2;
    assert Exec(r1).calls[c].sender == Taken(OutcomeOf(r));
    assert Exec(r2).calls[c].sender == Sent(OutcomeOf(r));
  }

  /** Two calls that draw the same id: the second insertion closes the first call's channel and leaves its id behind. */
  lemma SharedIdBreaksTheCall(id: string)
    ensures var s := Exec([Register(0, id), WriteOk(0), Register(1, id), Receive(0)]);
            At(s, 0, Returned(ChannelClosed)) && id in s.table
  {
    var r1 := [Register(0, id)];
    var r2 := r1 + [WriteOk(0)];
    var r3 := r2 + [Register(1, id)];
    var r4 := r3 + [Receive(0)];
    assert r4 == [Register(0, id), WriteOk(0), Register(1, id), Receive(0)];
    assert r4[..3] == r3 && r3[..2] == r2 && r2[..1] == r1 && r1[..0] == [];
    assert Exec([]) == State(map[], map[]);
    assert Exec(r1) == Apply(Exec([]), Register(0, id));
    assert Exec(r1).calls[0] == CallState(id, Registered, InTable);
    assert Exec(r2) == Apply(Exec(r1), WriteOk(0));
    assert Exec(r2).calls[0] == CallState(id, Waiting, InTable) && Exec(r2).table[id] == 0;
    assert Exec(r3) == Apply(Exec(r2), Register(1, id));
    assert Exec(r3).calls[0] == CallState(id, Waiting, Dropped);
  }

  // ---------------------------------------------------------------- a call that gives up

  /** A call that is leaving stays so until it removes its id, whatever happens meanwhile. */
  lemma {:induction false} LeavingUntilRemoved(run: seq<Action>, more: seq<Action>, c: Call, r: Result)
    requires At(Exec(run), c, Leaving(r)) && Remove(c) !in more
    ensures At(Exec(run + more), c, Leaving(r)) && Exec(run + more).calls[c].id == Exec(run).calls[c].id
    decreases |more|
  {
    if more == [] {
      assert run + more == run;
    } else {
      var init, a := more[..|more| - 1], more[|more| - 1];
      assert more == init + [a];
      LeavingUntilRemoved(run, init, c, r);
      assert run + more == (run + init) + [a];
      ExecSnoc(run + init, a);
      StaysLeaving(Exec(run + init), a, c);
    }
  }

  lemma StaysLeaving(s: State, a: Action, c: Call)
    requires c in s.calls && s.calls[c].phase.Leaving? && a != Remove(c)
    ensures c in Apply(s, a).calls
    ensures Apply(s, a).calls[c].phase == s.calls[c].phase && Apply(s, a).calls[c].id == s.calls[c].id
  {
  }

  /**
    A failed write and a fired timeout end the call: in every interleaving, once its own removal has run it has returned
    that failure, and neither its entry nor its id is in the table at that moment.
   */
  lemma GivingUpEndsTheCall(run: seq<Action>, more: seq<Action>, c: Call)
    requires c in Exec(run).calls && Remove(c) !in more
    ensures Exec(run).calls[c].phase.Registered? ==>
              var s := Exec(run + [WriteFailed(c)] + more + [Remove(c)]);
              At(s, c, Returned(SendFailed)) && Exec(run).calls[c].id !in s.table
    ensures Exec(run).calls[c].phase.Waiting? ==>
              var s := Exec(run + [Expire(c)] + more + [Remove(c)]);
              At(s, c, Returned(TimedOut)) && Exec(run).calls[c].id !in s.table
  {
    if Exec(run).calls[c].phase.Registered? {
      ExecSnoc(run, WriteFailed(c));
      RemovalEnds(run + [WriteFailed(c)], more, c, SendFailed);
    }
    if Exec(run).calls[c].phase.Waiting? {
      ExecSnoc(run, Expire(c));
      RemovalEnds(run + [Expire(c)], more, c, TimedOut);
    }
  }

  lemma ExecSnoc(run: seq<Action>, a: Action)
    ensures Exec(run + [a]) == Apply(Exec(run), a)
  {
    assert (run + [a])[..|run|] == run;
  }

  lemma RemovalEnds(run: seq<Action>, more: seq<Action>, c: Call, r: Result)
    requires At(Exec(run), c, Leaving(r)) && Remove(c) !in more
    ensures var s := Exec(run + more + [Remove(c)]); At(s, c, Returned(r)) && Exec(run).calls[c].id !in s.table
  {
    LeavingUntilRemoved(run, more, c, r);
    RunConsistent(run + more);
    ExecSnoc(run + more, Remove(c));
    TakeOutConsistent(Exec(run + more), Exec(run).calls[c].id, Dropped);
  }

  /** An answer delivered to a call that has timed out or returned goes nowhere, and changes nothing for the call. */
  lemma LateAnswerIsDropped(run: seq<Action>, c: Call)
    requires c in Exec(run).calls && Exec(run).calls[c].sender.Taken?
    requires Exec(run).calls[c].phase == Leaving(TimedOut) || Exec(run).calls[c].phase.Returned?
    ensures c in Exec(run + [Deliver(c)]).calls
    ensures Exec(run + [Deliver(c)]).calls[c] == Exec(run).calls[c].(sender := Dropped)
  {
    ExecSnoc(run, Deliver(c));
  }

  // ---------------------------------------------------------------- responses, field by field

  /** The same letters, upper or lower case; other characters must be equal. */
  predicate SameLetters(s: string, lower: string) {
    && |s| == |lower|
    && forall i | 0 <= i < |s| :: s[i] == lower[i] || ('A' <= s[i] <= 'Z' && s[i] as int + 32 == lower[i] as int)
  }

  /** The answers that approve: an option, or else a flag, or else another flag. */
  predicate Approves(v: Json) {
    v.Object? &&
    if "optionId" in v.fields && v.fields["optionId"].Str? then
      var option := v.fields["optionId"].s;
      || SameLetters(option, "approve") || SameLetters(option, "allow")
      || SameLetters(option, "allow_once") || SameLetters(option, "allow_always")
    else if "approved" in v.fields && v.fields["approved"].Bool? then v.fields["approved"].b
    else "allow" in v.fields && v.fields["allow"] == Bool(true)
  }

  lemma LowerIff(s: string, lower: string)
    requires forall i | 0 <= i < |lower| :: !('A' <= lower[i] <= 'Z')
    ensures LowerAscii(s) == lower <==> SameLetters(s, lower)
  {
    if SameLetters(s, lower) {
      assert LowerAscii(s) == lower;
    }
    if LowerAscii(s) == lower {
      forall i | 0 <= i < |s| ensures s[i] == lower[i] || ('A' <= s[i] <= 'Z' && s[i] as int + 32 == lower[i] as int) {
        assert LowerAscii(s)[i] == lower[i];
      }
    }
  }

  lemma DecisionIff(v: Json)
    ensures Decision(v) <==> Approves(v)
  {
    if v.Object? && "optionId" in v.fields && v.fields["optionId"].Str? {
      var option := v.fields["optionId"].s;
      LowerIff(option, "approve");
      LowerIff(option, "allow");
      LowerIff(option, "allow_once");
      LowerIff(option, "allow_always");
    }
  }

  /** The response approves or denies: by its result, or, with neither result nor error, by default. */
  predicate Says(r: Response, approved: bool) {
    match r.result
    case Some(v) => Approves(v) == approved
    case None => r.error.None? && !approved
  }

  /**
    What a returned decision means, down to the fields: a response under the call's own id said so.  A result counts
    even beside an error, an error alone is returned as that error, and a response with neither is a denial.
   */
  lemma DecisionsSpelledOut(run: seq<Action>, c: Call)
    requires c in Exec(run).calls
    ensures forall b :: Exec(run).calls[c].phase == Returned(Decided(b)) ==>
              exists j: nat :: Answers(run, j, c) && Says(run[j].r, b)
    ensures forall e :: Exec(run).calls[c].phase == Returned(ClientError(e)) ==>
              exists j: nat :: Answers(run, j, c) && run[j].r.result.None? && run[j].r.error == Some(e)
  {
    ResultsAreAnswers(run, c);
    forall b | Exec(run).calls[c].phase == Returned(Decided(b))
      ensures exists j: nat :: Answers(run, j, c) && Says(run[j].r, b)
    {
      var v :| AnsweredWith(run, c, Ok(v)) && Decision(v) == b;
      var j: nat :| Answers(run, j, c) && OutcomeOf(run[j].r) == Ok(v);
      DecisionIff(v);
      assert Says(run[j].r, b);
    }
    forall e | Exec(run).calls[c].phase == Returned(ClientError(e))
      ensures exists j: nat :: Answers(run, j, c) && run[j].r.result.None? && run[j].r.error == Some(e)
    {
      var j: nat :| Answers(run, j, c) && OutcomeOf(run[j].r) == Err(e);
    }
  }

  /** And every response is taken for what it says. */
  lemma ResponsesSpelledOut(r: Response)
    ensures ResultOf(OutcomeOf(r)) == if r.result.None? && r.error.Some? then ClientError(r.error.value)
                                      else Decided(Says(r, true))
  {
    if r.result.Some? {
      DecisionIff(r.result.value);
    }
  }
}
