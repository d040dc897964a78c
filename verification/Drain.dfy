/**
  The graceful-drain protocol of `DrainGuard` and `DrainPermit`.

  The source runs many request tasks and one drain waiter over a flag, a counting semaphore and a one-slot notifier.
  Every shared-memory access is one `Action` here, so a run of the server is a sequence of actions.  An action that is
  not enabled leaves the state alone; hence `Exec(Init(max), run)`, for every `run`, is every reachable state.
 */
module Drain {

  type Tid = nat

  /** Where one call of `acquire`, and the permit it may return, has got to. */
  datatype Phase =
    | Queued     // saw the flag clear, waits for the semaphore
    | Bare       // owns a bare semaphore permit, has not looked at the flag again
    | Doomed     // looked again and saw the drain: about to drop the bare permit
    | Admitted   // owns a DrainPermit
    | Releasing  // the DrainPermit is being dropped: permit returned, notification still to come
    | Finished
    | Refused

  /** Where the call of `wait_for_drain` has got to. */
  datatype Waiter =
    | Idle
    | Polling  // at the loop head, about to poll the notifier
    | Parked   // registered with the notifier
    | Woken    // took a notification, about to read the semaphore
    | Returned(result: bool)

  datatype State = State(
    maxPermits: nat,
    draining: bool,
    free: nat,                 // semaphore permits available
    stored: bool,              // a notification waits in the notifier's slot
    requests: map<Tid, Phase>,
    waiter: Waiter,
    silent: bool               // history: the last permit to come back came from a dropped bare permit
  )

  datatype Action =
    | FirstCheck(t: Tid)
    | TakePermit(t: Tid)
    | ReCheck(t: Tid)
    | DropBare(t: Tid)
    | DropPermit(t: Tid)
    | Notify(t: Tid)
    | StartDrain
    | CallWait
    | Poll
    | Inspect
    | Timeout

  function Init(maxPermits: nat): State {
    State(maxPermits, false, maxPermits, false, map[], Idle, false)
  }

  predicate At(s: State, t: Tid, p: Phase) {
    t in s.requests && s.requests[t] == p
  }

  function Move(s: State, t: Tid, p: Phase): State {
    s.(requests := s.requests[t := p])
  }

  /** One read of the semaphore by the waiter: done when every permit is back, else to the loop head. */
  function ReadSemaphore(s: State): State {
    s.(waiter := if s.free == s.maxPermits then Returned(true) else Polling)
  }

  /** `notify_one`: hands the notification to a parked waiter, otherwise fills the single slot. */
  function NotifyOne(s: State): State {
    if s.waiter.Parked? then s.(waiter := Woken) else s.(stored := true)
  }

  function Apply(s: State, a: Action): State {
    match a
    case FirstCheck(t) => if t in s.requests then s else Move(s, t, if s.draining then Refused else Queued)
    case TakePermit(t) => if At(s, t, Queued) && s.free > 0 then Move(s, t, Bare).(free := s.free - 1) else s
    case ReCheck(t) => if At(s, t, Bare) then Move(s, t, if s.draining then Doomed else Admitted) else s
    case DropBare(t) =>
      if At(s, t, Doomed) then Move(s, t, Refused).(free := s.free + 1, silent := true) else s
    case DropPermit(t) =>
      if At(s, t, Admitted) then Move(s, t, Releasing).(free := s.free + 1, silent := false) else s
    case Notify(t) => if At(s, t, Releasing) then NotifyOne(Move(s, t, Finished)) else s
    case StartDrain => s.(draining := true)
    case CallWait => if s.waiter.Idle? || s.waiter.Returned? then ReadSemaphore(s) else s
    case Poll =>
      if !s.waiter.Polling? then s
      else if s.stored then s.(stored := false, waiter := Woken)
      else s.(waiter := Parked)
    case Inspect => if s.waiter.Woken? then ReadSemaphore(s) else s
    case Timeout =>
      // Dropping a future that already took a notification puts the notification back.
      if s.waiter.Polling? || s.waiter.Parked? then s.(waiter := Returned(false))
      else if s.waiter.Woken? then s.(stored := true, waiter := Returned(false))
      else s
  }

  function Exec(s: State, run: seq<Action>): State
    decreases |run|
  {
    if run == [] then s else Exec(Apply(s, run[0]), run[1..])
  }

  // ---------------------------------------------------------------- counting

  /** The requests that own a permit, bare or wrapped. */
  ghost function Holders(s: State): set<Tid> {
    Owners(s.requests)
  }

  ghost function Owners(requests: map<Tid, Phase>): set<Tid> {
    set t | t in requests && Owns(requests[t])
  }

  predicate Owns(p: Phase) {
    p.Bare? || p.Doomed? || p.Admitted?
  }

  ghost function BareHolders(s: State): set<Tid> {
    set t | t in s.requests && s.requests[t] in {Bare, Doomed}
  }

  ghost function PermitHolders(s: State): set<Tid> {
    set t | t in s.requests && s.requests[t] == Admitted
  }

  ghost predicate SomeoneReleasing(s: State) {
    exists t :: At(s, t, Releasing)
  }

  ghost predicate Inv(s: State) {
    && s.free + |Holders(s)| == s.maxPermits
    && (s.waiter.Parked? ==> !s.stored)
    && (s.waiter.Polling? || s.waiter.Parked? || s.waiter.Woken? ==> s.maxPermits > 0)
    && ((s.waiter.Polling? || s.waiter.Parked?) && s.free == s.maxPermits ==>
          s.stored || SomeoneReleasing(s) || s.silent)
  }

  /** The effect of moving one request on the number of permit owners. */
  lemma MoveOwners(requests: map<Tid, Phase>, t: Tid, p: Phase)
    ensures |Owners(requests[t := p])| ==
            |Owners(requests)| + (if Owns(p) then 1 else 0) - (if t in requests && Owns(requests[t]) then 1 else 0)
  {
    assert Owners(requests[t := p]) == if Owns(p) then Owners(requests) + {t} else Owners(requests) - {t};
  }

  lemma StepCounts(s: State, a: Action)
    requires s.free + |Holders(s)| == s.maxPermits
    ensures var s' := Apply(s, a); s'.maxPermits == s.maxPermits && s'.free + |Holders(s')| == s'.maxPermits
  {
    StepEffect(s, a);
    var s' := Apply(s, a);
    if s'.requests != s.requests {
      MoveOwners(s.requests, a.t, s'.requests[a.t]);
    }
  }

  /** A step moves at most one request, and the semaphore with it. */
  lemma StepEffect(s: State, a: Action)
    ensures var s' := Apply(s, a);
            && s'.maxPermits == s.maxPermits
            && if s'.requests == s.requests then s'.free == s.free
               else
                 && !a.StartDrain? && !a.CallWait? && !a.Poll? && !a.Inspect? && !a.Timeout?
                 && a.t in s'.requests && s'.requests == s.requests[a.t := s'.requests[a.t]]
                 && s'.free + (if Owns(s'.requests[a.t]) then 1 else 0) ==
                    s.free + (if a.t in s.requests && Owns(s.requests[a.t]) then 1 else 0)
  {
  }

  lemma StepKeepsInv(s: State, a: Action)
    requires Inv(s)
    ensures Inv(Apply(s, a)) && Apply(s, a).maxPermits == s.maxPermits
  {
    StepCounts(s, a);
    if !a.Notify? {
      KeepReleasing(s, a);
    }
    if a.DropPermit? && At(s, a.t, Admitted) {
      assert At(Apply(s, a), a.t, Releasing);
    }
  }

  lemma KeepReleasing(s: State, a: Action)
    requires !a.Notify?
    ensures SomeoneReleasing(s) ==> SomeoneReleasing(Apply(s, a))
  {
    if SomeoneReleasing(s) {
      var t :| At(s, t, Releasing);
      assert At(Apply(s, a), t, Releasing);
    }
  }

  lemma {:induction false} RunKeepsInv(s: State, run: seq<Action>)
    requires Inv(s)
    ensures Inv(Exec(s, run)) && Exec(s, run).maxPermits == s.maxPermits
    decreases |run|
  {
    if run != [] {
      StepKeepsInv(s, run[0]);
      RunKeepsInv(Apply(s, run[0]), run[1..]);
    }
  }

  lemma ReachableInv(maxPermits: nat, run: seq<Action>)
    ensures var s := Exec(Init(maxPermits), run); Inv(s) && s.maxPermits == maxPermits
  {
    assert Holders(Init(maxPermits)) == {};
    RunKeepsInv(Init(maxPermits), run);
  }

  /** Conservation: free permits, bare permits and DrainPermits always add up to the capacity. */
  lemma PermitsConserved(maxPermits: nat, run: seq<Action>)
    ensures var s := Exec(Init(maxPermits), run);
            s.free + |BareHolders(s)| + |PermitHolders(s)| == maxPermits
  {
    ReachableInv(maxPermits, run);
    var s := Exec(Init(maxPermits), run);
    assert Holders(s) == BareHolders(s) + PermitHolders(s);
    assert BareHolders(s) !! PermitHolders(s);
  }

  // ---------------------------------------------------------------- drained means quiet

  ghost predicate Quiet(s: State) {
    s.draining && PermitHolders(s) == {}
  }

  lemma {:induction false} QuietForever(s: State, run: seq<Action>)
    requires Quiet(s)
    ensures Quiet(Exec(s, run))
    decreases |run|
  {
    if run != [] {
      var s' := Apply(s, run[0]);
      forall t ensures !At(s', t, Admitted) {
        assert At(s, t, Admitted) ==> t in PermitHolders(s);
      }
      assert PermitHolders(s') == {};
      QuietForever(s', run[1..]);
    }
  }

  lemma NoHolders(s: State)
    requires Inv(s) && s.free == s.maxPermits
    ensures Holders(s) == {} && PermitHolders(s) == {}
  {
    assert PermitHolders(s) <= Holders(s);
  }

  lemma FreshFor(used: set<Tid>) returns (t: Tid)
    ensures forall u <- used :: u < t
    decreases |used|
  {
    if used == {} {
      t := 0;
    } else {
      var u :| u in used;
      var t' := FreshFor(used - {u});
      t := if u < t' then t' else u + 1;
      forall v | v in used ensures v < t {
        assert v == u || v in used - {u};
      }
    }
  }

  /**
    The step at which `wait_for_drain` returns true: no request owns a permit then, so neither a spurious wake-up nor
    one left over from before the drain makes it return early.  From there on no request will ever own a DrainPermit
    again, in any continuation, if and only if the drain had been started by then (or the capacity is zero).
   */
  lemma ReturnTrueMeansDrained(maxPermits: nat, run: seq<Action>, a: Action)
    requires !Exec(Init(maxPermits), run).waiter.Returned?
    requires Apply(Exec(Init(maxPermits), run), a).waiter.Returned?
    requires Apply(Exec(Init(maxPermits), run), a).waiter.result
    ensures var s := Apply(Exec(Init(maxPermits), run), a);
            && Holders(s) == {}
            && ((forall later: seq<Action>, t: Tid :: !At(Exec(s, later), t, Admitted)) <==>
                s.draining || maxPermits == 0)
  {
    var s := Apply(Exec(Init(maxPermits), run), a);
    ReachableInv(maxPermits, run);
    StepKeepsInv(Exec(Init(maxPermits), run), a);
    NoHolders(s);
    if s.draining {
      forall later: seq<Action>, t: Tid ensures !At(Exec(s, later), t, Admitted) {
        QuietForever(s, later);
        assert At(Exec(s, later), t, Admitted) ==> t in PermitHolders(Exec(s, later));
      }
    } else if maxPermits == 0 {
      forall later: seq<Action>, t: Tid ensures !At(Exec(s, later), t, Admitted) {
        RunKeepsInv(s, later);
        assert At(Exec(s, later), t, Admitted) ==> t in Holders(Exec(s, later));
      }
    } else {
      var later, t := AdmitFresh(s);
      assert At(Exec(s, later), t, Admitted);
      assert exists later: seq<Action>, t: Tid :: At(Exec(s, later), t, Admitted);
    }
  }

  lemma AdmitFresh(s: State) returns (later: seq<Action>, t: Tid)
    requires !s.draining && s.free > 0
    ensures At(Exec(s, later), t, Admitted)
  {
    t := FreshFor(s.requests.Keys);
    later := [FirstCheck(t), TakePermit(t), ReCheck(t)];
    Exec3(s, FirstCheck(t), TakePermit(t), ReCheck(t));
  }

  lemma Exec1(s: State, a: Action)
    ensures Exec(s, [a]) == Apply(s, a)
  {
    assert [a][1..] == [];
  }

  lemma Exec2(s: State, a: Action, b: Action)
    ensures Exec(s, [a, b]) == Apply(Apply(s, a), b)
  {
    assert [a, b][1..] == [b];
    Exec1(Apply(s, a), b);
  }

  lemma Exec3(s: State, a: Action, b: Action, c: Action)
    ensures Exec(s, [a, b, c]) == Apply(Apply(Apply(s, a), b), c)
  {
    assert [a, b, c][1..] == [b, c];
    Exec2(Apply(s, a), b, c);
  }

  lemma {:induction false} ExecAppend(s: State, x: seq<Action>, y: seq<Action>)
    ensures Exec(s, x + y) == Exec(Exec(s, x), y)
    decreases |x|
  {
    if x == [] {
      assert x + y == y;
    } else {
      assert (x + y)[0] == x[0] && (x + y)[1..] == x[1..] + y;
      ExecAppend(Apply(s, x[0]), x[1..], y);
    }
  }

  /**
    The documented use: with the drain under way `wait_for_drain` is called, and it returns true.  Whatever other tasks
    did before and do meanwhile and ever after, no request then owns or receives a DrainPermit.
   */
  lemma DrainIsFinal(maxPermits: nat, before: seq<Action>, during: seq<Action>, after: seq<Action>)
    requires var s := Exec(Init(maxPermits), before);
             && s.draining
             && (s.waiter.Idle? || s.waiter.Returned?)
             && Exec(Apply(s, CallWait), during).waiter == Returned(true)
    ensures PermitHolders(Exec(Init(maxPermits), before + [CallWait] + during + after)) == {}
  {
    var s := Exec(Init(maxPermits), before);
    var called := Apply(s, CallWait);
    ReachableInv(maxPermits, before);
    StepKeepsInv(s, CallWait);
    if called.waiter.Returned? {
      NoHolders(called);
    }
    ReturnedTrueIsQuiet(called, during);
    Exec1(s, CallWait);
    ExecAppend(Init(maxPermits), before, [CallWait]);
    ExecAppend(Init(maxPermits), before + [CallWait], during);
    ExecAppend(Init(maxPermits), before + [CallWait] + during, after);
    QuietForever(Exec(called, during), after);
  }

  /** While draining, a call that has returned true leaves the system quiet from that moment on. */
  lemma {:induction false} ReturnedTrueIsQuiet(s: State, run: seq<Action>)
    requires Inv(s) && s.draining
    requires s.waiter.Returned? && s.waiter.result ==> Quiet(s)
    ensures Exec(s, run).waiter.Returned? && Exec(s, run).waiter.result ==> Quiet(Exec(s, run))
    decreases |run|
  {
    if run != [] {
      var s' := Apply(s, run[0]);
      StepKeepsInv(s, run[0]);
      if s'.waiter.Returned? && s'.waiter.result {
        if s'.waiter == s.waiter && s.waiter.Returned? {
          QuietForever(s, [run[0]]);
          Exec1(s, run[0]);
        } else {
          NoHolders(s');
        }
      }
      ReturnedTrueIsQuiet(s', run[1..]);
    }
  }

  // ---------------------------------------------------------------- wake-ups

  /**
    No lost wake-up: in every reachable state with the waiter parked and every permit free, some DrainPermit in
    mid-drop is about to notify, unless the last permit came back through the re-check path, which drops a bare permit
    without notifying.
   */
  lemma NoLostWakeup(maxPermits: nat, run: seq<Action>)
    ensures var s := Exec(Init(maxPermits), run);
            s.waiter.Parked? && s.free == maxPermits ==> SomeoneReleasing(s) || s.silent
  {
    ReachableInv(maxPermits, run);
  }

  /** ... and that notification completes the drain. */
  lemma WakeupDelivers(s: State, t: Tid)
    requires s.waiter.Parked? && s.free == s.maxPermits && At(s, t, Releasing)
    ensures Exec(s, [Notify(t), Inspect]).waiter == Returned(true)
  {
    Exec2(s, Notify(t), Inspect);
  }

  predicate WithoutTimeout(run: seq<Action>) {
    forall i :: 0 <= i < |run| ==> !run[i].Timeout?
  }

  /** A permit owner that will notify on release, or is about to. */
  ghost predicate NotifierLeft(s: State) {
    exists t :: At(s, t, Admitted) || At(s, t, Releasing)
  }

  lemma {:induction false} Stranded(s: State, run: seq<Action>)
    requires s.draining && s.waiter.Parked? && !NotifierLeft(s) && WithoutTimeout(run)
    ensures var e := Exec(s, run); e.draining && e.waiter.Parked? && !NotifierLeft(e)
    decreases |run|
  {
    if run != [] {
      var s' := Apply(s, run[0]);
      forall t ensures !(At(s', t, Admitted) || At(s', t, Releasing)) {
        assert !(At(s, t, Admitted) || At(s, t, Releasing));
      }
      Stranded(s', run[1..]);
    }
  }

  /** The steps that bring one permit home while the waiter stays parked. */
  lemma ReleaseOne(s: State, t: Tid) returns (run: seq<Action>)
    requires Inv(s) && s.draining && s.waiter.Parked? && NotifierLeft(s) && t in Holders(s)
    ensures WithoutTimeout(run)
    ensures var e := Exec(s, run);
            Inv(e) && e.draining && e.waiter.Parked? && NotifierLeft(e) && Holders(e) == Holders(s) - {t}
  {
    if At(s, t, Bare) {
      run := [ReCheck(t), DropBare(t)];
      Exec2(s, ReCheck(t), DropBare(t));
    } else {
      run := if At(s, t, Doomed) then [DropBare(t)] else [DropPermit(t)];
      Exec1(s, run[0]);
    }
    RunKeepsInv(s, run);
    var w :| At(s, w, Admitted) || At(s, w, Releasing);
    assert At(Exec(s, run), w, Admitted) || At(Exec(s, run), w, Releasing);
  }

  /** A schedule that brings every permit home while the waiter stays parked. */
  lemma BringHome(s: State) returns (run: seq<Action>)
    requires Inv(s) && s.draining && s.waiter.Parked? && NotifierLeft(s)
    ensures WithoutTimeout(run)
    ensures var e := Exec(s, run);
            e.waiter.Parked? && e.free == e.maxPermits && SomeoneReleasing(e) && e.draining
    decreases |Holders(s)|
  {
    if Holders(s) == {} {
      run := [];
      var t :| At(s, t, Admitted) || At(s, t, Releasing);
      assert At(s, t, Admitted) ==> t in Holders(s);
    } else {
      var t :| t in Holders(s);
      var first := ReleaseOne(s, t);
      var rest := BringHome(Exec(s, first));
      run := first + rest;
      ExecAppend(s, first, rest);
    }
  }

  /**
    Exactly when a parked waiter can still succeed once the drain has begun, under some schedule: some request must
    still own a DrainPermit or be in the middle of dropping one.  Otherwise every schedule leaves it parked until the
    timeout, even though all permits may be home.
   */
  lemma WaiterCanSucceedIff(maxPermits: nat, run: seq<Action>)
    requires var s := Exec(Init(maxPermits), run); s.draining && s.waiter.Parked?
    ensures var s := Exec(Init(maxPermits), run);
            NotifierLeft(s) <==>
            exists later: seq<Action> :: WithoutTimeout(later) && Exec(s, later).waiter == Returned(true)
  {
    var s := Exec(Init(maxPermits), run);
    ReachableInv(maxPermits, run);
    if NotifierLeft(s) {
      var home := BringHome(s);
      var e := Exec(s, home);
      var t :| At(e, t, Releasing);
      WakeupDelivers(e, t);
      ExecAppend(s, home, [Notify(t), Inspect]);
      assert WithoutTimeout(home + [Notify(t), Inspect]);
    } else {
      forall later: seq<Action> | WithoutTimeout(later) ensures Exec(s, later).waiter.Parked? {
        Stranded(s, later);
      }
    }
  }

  // ---------------------------------------------------------------- when every schedule succeeds

  /** A request that got past the first check and has not passed the second. */
  ghost predicate Racing(s: State, t: Tid) {
    At(s, t, Queued) || At(s, t, Bare) || At(s, t, Doomed)
  }

  ghost predicate RacerLeft(s: State) {
    exists t :: Racing(s, t)
  }

  /** Parked for good: whoever could notify is gone. */
  ghost predicate Stuck(s: State) {
    s.waiter.Parked? && !NotifierLeft(s)
  }

  /** Every request has been refused or has completed and dropped its permit. */
  predicate InFlightDone(s: State) {
    forall t | t in s.requests :: s.requests[t].Finished? || s.requests[t].Refused?
  }

  /** What holds from a good moment on: no racer, and whenever the waiter waits a notification is still to come. */
  ghost predicate Safe(s: State) {
    && s.draining && !RacerLeft(s)
    && (s.waiter.Polling? ==> s.stored || NotifierLeft(s))
    && (s.waiter.Parked? ==> NotifierLeft(s))
    && !s.waiter.Idle? && s.waiter != Returned(false)
  }

  lemma StepKeepsSafe(s: State, a: Action)
    requires Inv(s) && Safe(s) && !a.Timeout?
    ensures Safe(Apply(s, a))
  {
    var s' := Apply(s, a);
    forall t ensures !Racing(s', t) {
      assert !Racing(s, t);
    }
    if NotifierLeft(s) && !a.Notify? {
      var w :| At(s, w, Admitted) || At(s, w, Releasing);
      assert At(s', w, Admitted) || At(s', w, Releasing);
    }
    if s.free != s.maxPermits {
      HolderNotifies(s);
    }
  }

  /** With no racer a permit that is not home is a DrainPermit. */
  lemma HolderNotifies(s: State)
    requires Inv(s) && !RacerLeft(s) && s.free != s.maxPermits
    ensures exists t :: At(s, t, Admitted)
  {
    assert Holders(s) != {};
    var t :| t in Holders(s);
    assert !Racing(s, t);
    assert At(s, t, Admitted);
  }

  lemma {:induction false} RunKeepsSafe(s: State, run: seq<Action>)
    requires Inv(s) && Safe(s) && WithoutTimeout(run)
    ensures Inv(Exec(s, run)) && Safe(Exec(s, run))
    decreases |run|
  {
    if run != [] {
      StepKeepsInv(s, run[0]);
      StepKeepsSafe(s, run[0]);
      RunKeepsSafe(Apply(s, run[0]), run[1..]);
    }
  }

  /** Once the requests are done the waiter's own next steps return true. */
  lemma SafeCompletes(s: State)
    requires Inv(s) && Safe(s) && InFlightDone(s)
    ensures Exec(s, [Poll, Inspect]).waiter == Returned(true)
  {
    assert forall t :: !(At(s, t, Admitted) || At(s, t, Releasing));
    if s.free != s.maxPermits {
      HolderNotifies(s);
    }
    Exec2(s, Poll, Inspect);
  }

  /** No timeout, and no second call of `wait_for_drain`. */
  predicate OneWait(run: seq<Action>) {
    forall i :: 0 <= i < |run| ==> !run[i].Timeout? && !run[i].CallWait?
  }

  ghost function Notifiers(s: State): set<Tid> {
    set t | t in s.requests && (s.requests[t].Admitted? || s.requests[t].Releasing?)
  }

  /** A racer that owns a permit makes the waiter read the semaphore in vain, and park again. */
  lemma NotifyInVain(s: State, w: Tid, r: Tid)
    requires Inv(s) && s.draining && s.waiter.Parked? && At(s, w, Releasing) && (At(s, r, Bare) || At(s, r, Doomed))
    ensures var e := Exec(s, [Notify(w), Inspect, Poll]);
            Inv(e) && e == s.(requests := s.requests[w := Finished])
  {
    assert r in Holders(s);
    Exec3(s, Notify(w), Inspect, Poll);
    RunKeepsInv(s, [Notify(w), Inspect, Poll]);
  }

  /** One notification spent while the racer's permit is out. */
  lemma LoseOne(s: State, w: Tid, r: Tid) returns (run: seq<Action>)
    requires Inv(s) && s.draining && s.waiter.Parked? && (At(s, r, Bare) || At(s, r, Doomed)) && w in Notifiers(s)
    ensures OneWait(run)
    ensures var e := Exec(s, run);
            Inv(e) && e.draining && e.waiter.Parked? && e.requests == s.requests[w := Finished]
  {
    var vain := [Notify(w), Inspect, Poll];
    if s.requests[w].Releasing? {
      NotifyInVain(s, w, r);
      run := vain;
    } else {
      var m := Apply(s, DropPermit(w));
      Exec1(s, DropPermit(w));
      StepKeepsInv(s, DropPermit(w));
      NotifyInVain(m, w, r);
      ExecAppend(s, [DropPermit(w)], vain);
      run := [DropPermit(w)] + vain;
    }
  }

  /** The schedule that keeps a racer for last: every notification is spent while its permit is still out. */
  lemma LoseNotifiers(s: State, r: Tid) returns (run: seq<Action>)
    requires Inv(s) && s.draining && s.waiter.Parked? && (At(s, r, Bare) || At(s, r, Doomed))
    ensures OneWait(run) && Inv(Exec(s, run)) && Stuck(Exec(s, run)) && Exec(s, run).draining
    decreases |Notifiers(s)|
  {
    if Notifiers(s) == {} {
      run := [];
      assert forall t :: At(s, t, Admitted) || At(s, t, Releasing) ==> t in Notifiers(s);
    } else {
      var w :| w in Notifiers(s);
      var first := LoseOne(s, w, r);
      var e := Exec(s, first);
      assert Notifiers(e) == Notifiers(s) - {w};
      var rest := LoseNotifiers(e, r);
      ExecAppend(s, first, rest);
      run := first + rest;
    }
  }

  /** Some racer can be brought to own a permit while the waiter stays parked. */
  lemma RacerTakesPermit(s: State) returns (run: seq<Action>, r: Tid)
    requires Inv(s) && s.draining && s.waiter.Parked? && RacerLeft(s)
    ensures OneWait(run)
    ensures var e := Exec(s, run);
            Inv(e) && e.draining && e.waiter.Parked? && (At(e, r, Bare) || At(e, r, Doomed))
  {
    r :| Racing(s, r);
    run := [];
    if At(s, r, Queued) {
      if s.free > 0 {
        run := [TakePermit(r)];
        Exec1(s, TakePermit(r));
      } else {
        assert Holders(s) != {};
        var t :| t in Holders(s);
        if At(s, t, Admitted) {
          run := [DropPermit(t), TakePermit(r)];
          Exec2(s, DropPermit(t), TakePermit(r));
        } else {
          r := t;
        }
      }
    }
    RunKeepsInv(s, run);
  }

  ghost function Unfinished(s: State): set<Tid> {
    set t | t in s.requests && !s.requests[t].Finished? && !s.requests[t].Refused?
  }

  /** The steps by which one more request is refused, with nobody holding a DrainPermit. */
  lemma RefuseOne(s: State) returns (run: seq<Action>, t: Tid)
    requires Inv(s) && s.draining && Stuck(s) && Unfinished(s) != {}
    ensures OneWait(run) && t in Unfinished(s) && Unfinished(Exec(s, run)) == Unfinished(s) - {t}
  {
    t :| t in Unfinished(s);
    if Holders(s) != {} {
      t :| t in Holders(s);
    }
    assert !(At(s, t, Admitted) || At(s, t, Releasing));
    if At(s, t, Doomed) {
      run := [DropBare(t)];
      Exec1(s, DropBare(t));
    } else if At(s, t, Bare) {
      run := [ReCheck(t), DropBare(t)];
      Exec2(s, ReCheck(t), DropBare(t));
    } else {
      run := [TakePermit(t), ReCheck(t), DropBare(t)];
      Exec3(s, TakePermit(t), ReCheck(t), DropBare(t));
    }
  }

  /** A stuck waiter stays stuck while every request that is left runs to its end. */
  lemma FinishStuck(s: State) returns (run: seq<Action>)
    requires Inv(s) && s.draining && Stuck(s)
    ensures OneWait(run) && InFlightDone(Exec(s, run)) && Stuck(Exec(s, run))
    decreases |Unfinished(s)|
  {
    if Unfinished(s) == {} {
      run := [];
      assert forall t | t in s.requests :: t !in Unfinished(s);
    } else {
      var first, t := RefuseOne(s);
      RunKeepsInv(s, first);
      Stranded(s, first);
      var rest := FinishStuck(Exec(s, first));
      run := first + rest;
      ExecAppend(s, first, rest);
    }
  }

  /** Without a notifier, or with a racer left, some schedule completes every request and leaves the waiter stuck. */
  lemma UnsafeCanStick(s: State) returns (run: seq<Action>)
    requires Inv(s) && s.draining && s.waiter.Parked? && (!NotifierLeft(s) || RacerLeft(s))
    ensures OneWait(run) && InFlightDone(Exec(s, run)) && Stuck(Exec(s, run))
  {
    var stick := [];
    if NotifierLeft(s) {
      var take, r := RacerTakesPermit(s);
      var lose := LoseNotifiers(Exec(s, take), r);
      ExecAppend(s, take, lose);
      stick := take + lose;
    }
    RunKeepsInv(s, stick);
    var finish := FinishStuck(Exec(s, stick));
    ExecAppend(s, stick, finish);
    run := stick + finish;
  }

  /**
    What the documentation promises, and exactly when it holds.  For a waiter parked during the drain, these are the
    same: in every schedule without timeout the waiter returns true once the requests in flight are done; in no such
    schedule is it ever parked with nobody left to notify it; some request still owns a DrainPermit or is dropping one,
    and no request is between the two checks of `acquire`.
   */
  lemma DrainCompletesIff(maxPermits: nat, run: seq<Action>)
    requires var s := Exec(Init(maxPermits), run); s.draining && s.waiter.Parked?
    ensures var s := Exec(Init(maxPermits), run);
            (forall later: seq<Action> | WithoutTimeout(later) :: !Stuck(Exec(s, later))) <==>
            NotifierLeft(s) && !RacerLeft(s)
    ensures var s := Exec(Init(maxPermits), run);
            (forall later: seq<Action> | WithoutTimeout(later) && InFlightDone(Exec(s, later)) ::
               Exec(Exec(s, later), [Poll, Inspect]).waiter == Returned(true)) <==>
            NotifierLeft(s) && !RacerLeft(s)
  {
    var s := Exec(Init(maxPermits), run);
    ReachableInv(maxPermits, run);
    if NotifierLeft(s) && !RacerLeft(s) {
      forall later: seq<Action> | WithoutTimeout(later)
        ensures !Stuck(Exec(s, later))
        ensures InFlightDone(Exec(s, later)) ==> Exec(Exec(s, later), [Poll, Inspect]).waiter == Returned(true)
      {
        RunKeepsSafe(s, later);
        if InFlightDone(Exec(s, later)) {
          SafeCompletes(Exec(s, later));
        }
      }
    } else {
      var later := UnsafeCanStick(s);
      assert WithoutTimeout(later);
      var e := Exec(s, later);
      Exec2(e, Poll, Inspect);
      assert e.waiter.Parked?;
    }
  }

  lemma {:induction false} StaysReturned(s: State, run: seq<Action>)
    requires s.waiter == Returned(true) && OneWait(run)
    ensures Exec(s, run).waiter == Returned(true)
    decreases |run|
  {
    if run != [] {
      StaysReturned(Apply(s, run[0]), run[1..]);
    }
  }

  /** A call that finds permits out parks, after spending a notification that may be left over. */
  lemma Parks(s: State) returns (run: seq<Action>)
    requires Inv(s) && s.waiter.Polling? && s.free != s.maxPermits
    ensures OneWait(run) && Inv(Exec(s, run)) && Exec(s, run) == s.(waiter := Parked, stored := false)
  {
    if s.stored {
      run := [Poll, Inspect, Poll];
      Exec3(s, Poll, Inspect, Poll);
    } else {
      run := [Poll];
      Exec1(s, Poll);
    }
    RunKeepsInv(s, run);
  }

  /**
    The same at the moment of the call: while draining, a call of `wait_for_drain` returns true in every schedule
    without timeout once the requests in flight are done, if and only if all permits are home already or no request is
    between the two checks of `acquire`.
   */
  lemma WaitCompletesIff(maxPermits: nat, run: seq<Action>)
    requires var s := Exec(Init(maxPermits), run); s.draining && (s.waiter.Idle? || s.waiter.Returned?)
    ensures var s := Exec(Init(maxPermits), run);
            (forall later: seq<Action> | OneWait(later) && InFlightDone(Exec(Apply(s, CallWait), later)) ::
               Exec(Exec(Apply(s, CallWait), later), [Poll, Inspect]).waiter == Returned(true)) <==>
            s.free == s.maxPermits || !RacerLeft(s)
  {
    var s := Exec(Init(maxPermits), run);
    ReachableInv(maxPermits, run);
    StepKeepsInv(s, CallWait);
    var called := Apply(s, CallWait);
    if s.free == s.maxPermits {
      forall later: seq<Action> | OneWait(later)
        ensures Exec(Exec(called, later), [Poll, Inspect]).waiter == Returned(true)
      {
        StaysReturned(called, later);
        StaysReturned(Exec(called, later), [Poll, Inspect]);
      }
    } else {
      SameRacers(s, called);
      if RacerLeft(s) {
        var later := CallCanStick(called);
        var e := Exec(called, later);
        Exec2(e, Poll, Inspect);
        assert e.waiter.Parked?;
      } else {
        HolderNotifies(called);
        forall later: seq<Action> | OneWait(later) && InFlightDone(Exec(called, later))
          ensures Exec(Exec(called, later), [Poll, Inspect]).waiter == Returned(true)
        {
          RunKeepsSafe(called, later);
          SafeCompletes(Exec(called, later));
        }
      }
    }
  }

  lemma SameRacers(s: State, s': State)
    requires s.requests == s'.requests
    ensures RacerLeft(s) <==> RacerLeft(s')
  {
    assert forall t :: Racing(s, t) <==> Racing(s', t);
  }

  lemma CallCanStick(s: State) returns (run: seq<Action>)
    requires Inv(s) && s.draining && s.waiter.Polling? && s.free != s.maxPermits && RacerLeft(s)
    ensures OneWait(run) && InFlightDone(Exec(s, run)) && Stuck(Exec(s, run))
  {
    var park := Parks(s);
    SameRacers(s, Exec(s, park));
    var stick := UnsafeCanStick(Exec(s, park));
    ExecAppend(s, park, stick);
    run := park + stick;
  }

  // ---------------------------------------------------------------- the deadline

  /** At step `j` of the run the waiter, woken, reads the semaphore and finds every permit home. */
  ghost predicate ReadsAllHome(s: State, run: seq<Action>, j: nat) {
    j < |run| && run[j].Inspect? && var m := Exec(s, run[..j]); m.waiter.Woken? && m.free == m.maxPermits
  }

  ghost predicate FindsAllHome(s: State, run: seq<Action>) {
    exists j: nat :: ReadsAllHome(s, run, j)
  }

  lemma FindsAllHomeSnoc(s: State, run: seq<Action>, a: Action)
    ensures FindsAllHome(s, run + [a]) <==>
            FindsAllHome(s, run) || (a.Inspect? && var m := Exec(s, run); m.waiter.Woken? && m.free == m.maxPermits)
  {
    var all := run + [a];
    assert all[..|run|] == run;
    forall j: nat | j < |run| ensures ReadsAllHome(s, all, j) <==> ReadsAllHome(s, run, j) {
      assert all[..j] == run[..j];
    }
    if a.Inspect? && var m := Exec(s, run); m.waiter.Woken? && m.free == m.maxPermits {
      assert ReadsAllHome(s, all, |run|);
    }
    if FindsAllHome(s, run) {
      var j: nat :| ReadsAllHome(s, run, j);
      assert ReadsAllHome(s, all, j);
    }
  }

  /** Without a timeout a call that found permits out has returned only if a later read found them home. */
  lemma {:induction false} WaitingUntilHome(s: State, run: seq<Action>)
    requires s.waiter.Polling? && OneWait(run)
    ensures var e := Exec(s, run);
            if FindsAllHome(s, run) then e.waiter == Returned(true)
            else e.waiter.Polling? || e.waiter.Parked? || e.waiter.Woken?
    decreases |run|
  {
    if run != [] {
      var init, a := run[..|run| - 1], run[|run| - 1];
      assert run == init + [a];
      WaitingUntilHome(s, init);
      FindsAllHomeSnoc(s, init, a);
      ExecAppend(s, init, [a]);
      Exec1(Exec(s, init), a);
    }
  }

  predicate NoCall(run: seq<Action>) {
    forall i :: 0 <= i < |run| ==> !run[i].CallWait?
  }

  lemma {:induction false} ReturnedStays(s: State, run: seq<Action>)
    requires s.waiter.Returned? && NoCall(run)
    ensures Exec(s, run).waiter == s.waiter
    decreases |run|
  {
    if run != [] {
      ReturnedStays(Apply(s, run[0]), run[1..]);
    }
  }

  /**
    The wait ends at its deadline.  From every reachable state, a call of `wait_for_drain` that reaches its timeout has
    returned, in every continuation without a second call: true if the call itself or a read before the timeout found
    every permit home, and otherwise false.
   */
  lemma WaitEndsAtDeadline(maxPermits: nat, before: seq<Action>, during: seq<Action>, after: seq<Action>)
    requires var s := Exec(Init(maxPermits), before); s.waiter.Idle? || s.waiter.Returned?
    requires OneWait(during) && NoCall(after)
    ensures var s := Exec(Init(maxPermits), before);
            var called := Apply(s, CallWait);
            Exec(called, during + [Timeout] + after).waiter ==
            Returned(s.free == s.maxPermits || FindsAllHome(called, during))
  {
    var s := Exec(Init(maxPermits), before);
    var called := Apply(s, CallWait);
    var e := Exec(called, during);
    ExecAppend(called, during + [Timeout], after);
    ExecAppend(called, during, [Timeout]);
    Exec1(e, Timeout);
    if s.free == s.maxPermits {
      StaysReturned(called, during);
    } else {
      WaitingUntilHome(called, during);
    }
    ReturnedStays(Apply(e, Timeout), after);
  }

  /** The timeout touches the waiter alone, and a notification that a woken waiter had taken is back in the slot. */
  lemma TimeoutReturnsNotification(s: State)
    ensures var e := Exec(s, [Timeout]);
            && e.requests == s.requests && e.free == s.free && e.draining == s.draining && e.silent == s.silent
            && (e.stored <==> s.stored || s.waiter.Woken?)
  {
    Exec1(s, Timeout);
  }

  /** The re-check path does strand the waiter: one permit, one request that raced with the drain. */
  lemma SilentDropStrandsWaiter()
    ensures var run := [FirstCheck(0), TakePermit(0), StartDrain] + [CallWait, Poll, ReCheck(0)] + [DropBare(0)];
            var s := Exec(Init(1), run);
            s.waiter.Parked? && s.free == s.maxPermits && s.draining && s.silent && !NotifierLeft(s)
  {
    var m := State(1, true, 0, false, map[0 := Bare], Idle, false);
    var n := State(1, true, 0, false, map[0 := Doomed], Parked, false);
    RaceIsLost(m, n);
    ExecAppend(Init(1), [FirstCheck(0), TakePermit(0), StartDrain], [CallWait, Poll, ReCheck(0)]);
    ExecAppend(Init(1), [FirstCheck(0), TakePermit(0), StartDrain] + [CallWait, Poll, ReCheck(0)], [DropBare(0)]);
  }

  lemma RaceIsLost(m: State, n: State)
    requires m == State(1, true, 0, false, map[0 := Bare], Idle, false)
    requires n == State(1, true, 0, false, map[0 := Doomed], Parked, false)
    ensures Exec(Init(1), [FirstCheck(0), TakePermit(0), StartDrain]) == m
    ensures Exec(m, [CallWait, Poll, ReCheck(0)]) == n
    ensures Exec(n, [DropBare(0)]) == State(1, true, 1, false, map[0 := Refused], Parked, true)
  {
    Exec3(Init(1), FirstCheck(0), TakePermit(0), StartDrain);
    Exec3(m, CallWait, Poll, ReCheck(0));
    Exec1(n, DropBare(0));
    assert map[0 := Queued][0 := Bare] == map[0 := Bare];
    assert map[0 := Bare][0 := Doomed] == map[0 := Doomed];
    assert map[0 := Doomed][0 := Refused] == map[0 := Refused];
  }
}
