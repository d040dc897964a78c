/** The agent registry with its eviction queue: `AgentRegistry::register_arc`. */
module Registry {
  import opened Sequences

  const MAX_AGENTS := 1000

  /** The queue with every occurrence of `name` taken out (`retain`). */
  function Without(order: seq<string>, name: string): seq<string> {
    if order == [] then []
    else (if order[0] == name then [] else [order[0]]) + Without(order[1..], name)
  }

  class AgentRegistry<Agent(==)> {
    var agents: map<string, Agent>
    var agentOrder: seq<string>

    constructor ()
      ensures agents == map[] && agentOrder == []
    {
      agents, agentOrder := map[], [];
    }

    function State(): Contents<Agent>
      reads this
    {
      Contents(agents, agentOrder)
    }

    method RegisterArc(name: string, agent: Agent)
      modifies this
      ensures State() == Register(old(State()), name, agent)
    {
      if |agents| >= MAX_AGENTS && name !in agents {
        if agentOrder != [] {
          agents := agents - {agentOrder[0]};
          agentOrder := agentOrder[1..];
        }
      }
      if name in agents {
        agentOrder := Without(agentOrder, name);
      }
      agentOrder := agentOrder + [name];
      agents := agents[name := agent];
    }
  }

  datatype Contents<Agent> = Contents(agents: map<string, Agent>, order: seq<string>)

  /** At capacity a new name pushes out the head of the queue. */
  function Evict<Agent(==)>(c: Contents<Agent>, name: string): Contents<Agent> {
    if |c.agents| >= MAX_AGENTS && name !in c.agents && c.order != []
    then Contents(c.agents - {c.order[0]}, c.order[1..])
    else c
  }

  function Register<Agent(==)>(c: Contents<Agent>, name: string, agent: Agent): Contents<Agent> {
    var e := Evict(c, name);
    var order := if name in e.agents then Without(e.order, name) else e.order;
    Contents(e.agents[name := agent], order + [name])
  }

  function After<Agent(==)>(calls: seq<(string, Agent)>): Contents<Agent> {
    if calls == [] then Contents(map[], [])
    else
      var (name, agent) := calls[|calls| - 1];
      Register(After(calls[..|calls| - 1]), name, agent)
  }

  // ---------------------------------------------------------------- the reference: the last distinct names

  predicate Named<Agent>(calls: seq<(string, Agent)>, name: string) {
    exists i | 0 <= i < |calls| :: calls[i].0 == name
  }

  /** The names of the calls that no later call repeats: every distinct name once, ordered by latest registration. */
  function Latest<Agent>(calls: seq<(string, Agent)>): seq<string> {
    if calls == [] then []
    else (if Named(calls[1..], calls[0].0) then [] else [calls[0].0]) + Latest(calls[1..])
  }

  /** The agent of the last call for `name`. */
  function LatestAgent<Agent>(calls: seq<(string, Agent)>, name: string): Agent
    requires Named(calls, name)
  {
    var last := calls[|calls| - 1];
    if last.0 == name then last.1 else LatestAgent(calls[..|calls| - 1], name)
  }

  /** The last `n` elements, or all of them. */
  function Last(s: seq<string>, n: nat): seq<string> {
    if |s| <= n then s else s[|s| - n..]
  }

  lemma {:induction false} WithoutAppend(a: seq<string>, b: seq<string>, name: string)
    ensures Without(a + b, name) == Without(a, name) + Without(b, name)
  {
    if a == [] {
      assert a + b == b;
    } else {
      assert (a + b)[0] == a[0] && (a + b)[1..] == a[1..] + b;
      WithoutAppend(a[1..], b, name);
    }
  }

  lemma {:induction false} WithoutFacts(s: seq<string>, name: string)
    ensures forall x :: x in Without(s, name) <==> x in s && x != name
    ensures name !in s ==> Without(s, name) == s
    ensures Distinct(s) ==> Distinct(Without(s, name))
    ensures Distinct(s) && name in s ==> |Without(s, name)| == |s| - 1
  {
    if s != [] {
      WithoutFacts(s[1..], name);
      assert forall x :: x in s <==> x == s[0] || x in s[1..];
      if Distinct(s) {
        assert s[0] !in s[1..];
        assert Distinct(s[1..]);
      }
    }
  }

  lemma {:induction false} LatestNames<Agent>(calls: seq<(string, Agent)>)
    ensures Distinct(Latest(calls))
    ensures forall x :: x in Latest(calls) <==> Named(calls, x)
  {
    if calls != [] {
      var rest := calls[1..];
      LatestNames(rest);
      forall x ensures Named(calls, x) <==> x == calls[0].0 || Named(rest, x) {
        if Named(rest, x) {
          var i :| 0 <= i < |rest| && rest[i].0 == x;
          assert calls[i + 1].0 == x;
        }
        if Named(calls, x) && x != calls[0].0 {
          var i :| 0 <= i < |calls| && calls[i].0 == x;
          assert rest[i - 1].0 == x;
        }
      }
    }
  }

  /** One more call moves its name to the end. */
  lemma {:induction false} LatestSnoc<Agent>(calls: seq<(string, Agent)>, last: (string, Agent))
    ensures Latest(calls + [last]) == Without(Latest(calls), last.0) + [last.0]
  {
    var all := calls + [last];
    if calls == [] {
      assert all == [last] && all[1..] == [];
    } else {
      var head, rest := calls[0].0, calls[1..];
      assert all[0] == calls[0] && all[1..] == rest + [last];
      LatestSnoc(rest, last);
      NamedSnoc(rest, last, head);
      WithoutAppend(if Named(rest, head) then [] else [head], Latest(rest), last.0);
      WithoutOne(head, last.0);
    }
  }

  lemma WithoutOne(x: string, name: string)
    ensures Without([x], name) == if x == name then [] else [x]
  {
    assert [x][1..] == [];
  }

  lemma NamedSnoc<Agent>(calls: seq<(string, Agent)>, last: (string, Agent), name: string)
    ensures Named(calls + [last], name) <==> Named(calls, name) || last.0 == name
  {
    var all := calls + [last];
    if Named(calls, name) {
      var i :| 0 <= i < |calls| && calls[i].0 == name;
      assert all[i].0 == name;
    }
    assert all[|calls|] == last;
  }

  // ---------------------------------------------------------------- refinement

  ghost predicate Agrees<Agent>(c: Contents<Agent>, calls: seq<(string, Agent)>) {
    && c.order == Last(Latest(calls), MAX_AGENTS)
    && (forall x :: x in c.agents <==> x in c.order)
    && forall x | x in c.agents :: Named(calls, x) && c.agents[x] == LatestAgent(calls, x)
  }

  /** A known name moves to the end of the queue. */
  lemma QueueMoves(front: seq<string>, order: seq<string>, name: string)
    requires Distinct(front + order) && name in order && (|order| == MAX_AGENTS || front == [])
    requires |order| <= MAX_AGENTS
    ensures Last(Without(front + order, name) + [name], MAX_AGENTS) == Without(order, name) + [name]
  {
    assert name !in front by {
      var j :| 0 <= j < |order| && order[j] == name;
      assert (front + order)[|front| + j] == name;
      assert forall i | 0 <= i < |front| :: front[i] == (front + order)[i];
    }
    assert Distinct(order) by {
      assert forall i | 0 <= i < |order| :: order[i] == (front + order)[|front| + i];
    }
    WithoutAppend(front, order, name);
    WithoutFacts(front, name);
    WithoutFacts(order, name);
    var moved := Without(order, name) + [name];
    assert Without(front + order, name) + [name] == front + moved;
  }

  /** A new name goes to the end of the queue; a full queue loses its head. */
  lemma QueueGrows(front: seq<string>, order: seq<string>, name: string)
    requires name !in order && (|order| == MAX_AGENTS || (front == [] && |order| < MAX_AGENTS))
    ensures Last(Without(front + order, name) + [name], MAX_AGENTS) ==
            (if |order| == MAX_AGENTS then order[1..] else order) + [name]
  {
    WithoutAppend(front, order, name);
    WithoutFacts(order, name);
    var front' := Without(front, name);
    assert Without(front + order, name) + [name] == front' + (order + [name]);
    if |order| == MAX_AGENTS {
      assert front' + (order + [name]) == (front' + [order[0]]) + (order[1..] + [name]);
    } else {
      assert front' == [];
    }
  }

  lemma {:induction false} CardinalityOfDistinct(s: seq<string>, keys: set<string>)
    requires Distinct(s) && forall x :: x in keys <==> x in s
    ensures |keys| == |s|
    decreases |s|
  {
    if s == [] {
      assert keys == {};
    } else {
      assert forall x :: x in s <==> x == s[0] || x in s[1..];
      CardinalityOfDistinct(s[1..], keys - {s[0]});
    }
  }

  lemma EvictKeepsAgreement<Agent>(c: Contents<Agent>, name: string)
    requires Distinct(c.order) && (forall x :: x in c.agents <==> x in c.order)
    ensures var e := Evict(c, name);
            && e.order == (if |c.order| >= MAX_AGENTS && name !in c.order then c.order[1..] else c.order)
            && (forall x :: x in e.agents <==> x in e.order)
            && (name in e.order <==> name in c.order)
  {
    CardinalityOfDistinct(c.order, c.agents.Keys);
    if c.order != [] {
      HeadLeaves(c.order);
    }
  }

  lemma HeadLeaves(order: seq<string>)
    requires Distinct(order) && order != []
    ensures forall x :: x in order[1..] <==> x in order && x != order[0]
  {
    assert order == [order[0]] + order[1..];
  }

  lemma QueueStep(names: seq<string>, name: string)
    requires Distinct(names)
    ensures var order := Last(names, MAX_AGENTS);
            && Distinct(order)
            && Last(Without(names, name) + [name], MAX_AGENTS) ==
               (if name in order then Without(order, name)
                else if |order| == MAX_AGENTS then order[1..]
                else order) + [name]
  {
    var order := Last(names, MAX_AGENTS);
    var front := names[..|names| - |order|];
    assert names == front + order;
    if name in order {
      QueueMoves(front, order, name);
    } else {
      QueueGrows(front, order, name);
    }
  }

  lemma StepOrder<Agent>(c: Contents<Agent>, calls: seq<(string, Agent)>, name: string, agent: Agent)
    requires Agrees(c, calls)
    ensures var e := Evict(c, name);
            && Register(c, name, agent).order == Last(Latest(calls + [(name, agent)]), MAX_AGENTS)
            && Register(c, name, agent).order == Without(e.order, name) + [name]
            && (forall x :: x in e.agents <==> x in e.order)
  {
    LatestNames(calls);
    LatestSnoc(calls, (name, agent));
    QueueStep(Latest(calls), name);
    EvictKeepsAgreement(c, name);
    WithoutFacts(Evict(c, name).order, name);
  }

  lemma StepKeys<Agent>(c: Contents<Agent>, name: string, agent: Agent)
    requires var e := Evict(c, name);
             && Register(c, name, agent).order == Without(e.order, name) + [name]
             && (forall x :: x in e.agents <==> x in e.order)
    ensures forall x :: x in Register(c, name, agent).agents <==> x in Register(c, name, agent).order
  {
    WithoutFacts(Evict(c, name).order, name);
  }

  lemma StepLatest<Agent>(c: Contents<Agent>, calls: seq<(string, Agent)>, name: string, agent: Agent, x: string)
    requires x in c.agents ==> Named(calls, x) && c.agents[x] == LatestAgent(calls, x)
    requires x in Register(c, name, agent).agents
    ensures var all := calls + [(name, agent)];
            Named(all, x) && Register(c, name, agent).agents[x] == LatestAgent(all, x)
  {
    var all := calls + [(name, agent)];
    NamedSnoc(calls, (name, agent), x);
    assert all[..|all| - 1] == calls;
  }

  lemma StepAgrees<Agent>(c: Contents<Agent>, calls: seq<(string, Agent)>, name: string, agent: Agent)
    requires Agrees(c, calls)
    ensures Agrees(Register(c, name, agent), calls + [(name, agent)])
  {
    StepOrder(c, calls, name, agent);
    StepKeys(c, name, agent);
    var all, after := calls + [(name, agent)], Register(c, name, agent);
    forall x | x in after.agents ensures Named(all, x) && after.agents[x] == LatestAgent(all, x) {
      StepLatest(c, calls, name, agent, x);
    }
  }

  /**
    After any sequence of registrations the queue and the map hold the same names, each once: exactly the last
    MAX_AGENTS distinct names ordered by latest registration, each with its latest agent.
   */
  lemma {:induction false} RegistryRefines<Agent>(calls: seq<(string, Agent)>)
    ensures var c := After(calls);
            && c.order == Last(Latest(calls), 1000)
            && Distinct(c.order)
            && c.agents.Keys == (set x | x in c.order)
            && forall x | x in c.agents :: Named(calls, x) && c.agents[x] == LatestAgent(calls, x)
  {
    AfterAgrees(calls);
    LatestNames(calls);
  }

  lemma {:induction false} AfterAgrees<Agent>(calls: seq<(string, Agent)>)
    ensures Agrees(After(calls), calls)
  {
    if calls != [] {
      var init, last := calls[..|calls| - 1], calls[|calls| - 1];
      assert calls == init + [last];
      AfterAgrees(init);
      StepAgrees(After(init), init, last.0, last.1);
    }
  }
}

/** Rotation over secret pools: `pick_secret_pool_index` on a shared counter per group. */
module Rotation {
  import opened Lines

  type Counters = map<string, nat>

  /** `rotation_group`: the field name up to its first dot. */
  function Group(field: string): string {
    field[..Find(field, '.')]
  }

  predicate EndsWith(s: string, suffix: string) {
    |s| >= |suffix| && s[|s| - |suffix|..] == suffix
  }

  predicate IsApi(field: string) {
    EndsWith(field, "api_key_env")
  }

  predicate IsSecret(field: string) {
    !IsApi(field) && EndsWith(field, "secret_key_env")
  }

  function CounterOf(counters: Counters, field: string): nat {
    if Group(field) in counters then counters[Group(field)] else if IsSecret(field) then 1 else 0
  }

  /** The index picked, and the counters after the pick. */
  function Pick(counters: Counters, field: string, len: nat): (nat, Counters) {
    if len <= 1 then (0, counters)
    else
      var c := CounterOf(counters, field);
      (if IsSecret(field) then (c + len - 1) % len else c % len, counters[Group(field) := (c + 1) % len])
  }

  class SecretPools {
    var counters: Counters

    constructor ()
      ensures counters == map[]
    {
      counters := map[];
    }

    method PickIndex(field: string, len: nat) returns (index: nat)
      modifies this
      ensures (index, counters) == Pick(old(counters), field, len)
    {
      if len <= 1 {
        return 0;
      }
      var group := Group(field);
      if group !in counters {
        counters := counters[group := if IsSecret(field) then 1 else 0];
      }
      var c := counters[group];
      index := if IsSecret(field) then (c + len - 1) % len else c % len;
      counters := counters[group := (c + 1) % len];
      assert counters == old(counters)[group := (c + 1) % len];
    }
  }

  datatype Request = Request(field: string, len: nat)

  /** The indices of consecutive picks. */
  function Picks(counters: Counters, requests: seq<Request>): seq<nat>
    decreases |requests|
  {
    if requests == [] then []
    else
      var (index, counters') := Pick(counters, requests[0].field, requests[0].len);
      [index] + Picks(counters', requests[1..])
  }

  /** The indices that the requests of one group get in a run of requests of any groups. */
  function GroupPicks(counters: Counters, requests: seq<Request>, group: string): seq<nat>
    decreases |requests|
  {
    if requests == [] then []
    else
      var (index, counters') := Pick(counters, requests[0].field, requests[0].len);
      (if Group(requests[0].field) == group then [index] else []) + GroupPicks(counters', requests[1..], group)
  }

  function OfGroup(requests: seq<Request>, group: string): seq<Request> {
    if requests == [] then []
    else (if Group(requests[0].field) == group then [requests[0]] else []) + OfGroup(requests[1..], group)
  }

  // ---------------------------------------------------------------- arithmetic modulo the pool length

  lemma ModUnique(x: int, q: int, r: int, len: nat)
    requires len > 0 && x == q * len + r && 0 <= r < len
    ensures x % len == r
  {
    var d := q - x / len;
    assert d * len == q * len - (x / len) * len;
    Multiple(d, len);
  }

  lemma Multiple(d: int, len: nat)
    ensures d > 0 ==> d * len >= len
    ensures d < 0 ==> d * len + len <= 0
  {
  }

  lemma ModAdd(a: nat, b: nat, len: nat)
    requires len > 0
    ensures (a % len + b) % len == (a + b) % len
  {
    var x := a % len + b;
    var p, q := a / len, x / len;
    assert (p + q) * len == p * len + q * len;
    ModUnique(a + b, p + q, x % len, len);
  }

  lemma ModSame(a: nat, k: nat, l: nat, len: nat)
    requires k < len && l < len && (a + k) % len == (a + l) % len
    ensures k == l
  {
    ModAdd(a, k, len);
    ModAdd(a, l, len);
    var r := a % len;
    assert (r + k) % len == if r + k < len then r + k else r + k - len by { ModSmall(r + k, len); }
    assert (r + l) % len == if r + l < len then r + l else r + l - len by { ModSmall(r + l, len); }
  }

  lemma ModSmall(x: nat, len: nat)
    requires len > 0 && x < 2 * len
    ensures x % len == if x < len then x else x - len
  {
    ModUnique(x, if x < len then 0 else 1, if x < len then x else x - len, len);
  }

  // ---------------------------------------------------------------- the laws

  /** The two say the same about a group. */
  predicate SameFor(c: Counters, d: Counters, group: string) {
    (group in c <==> group in d) && (group in c ==> c[group] == d[group])
  }

  lemma PickOwn(c: Counters, d: Counters, r: Request)
    requires SameFor(c, d, Group(r.field))
    ensures Pick(c, r.field, r.len).0 == Pick(d, r.field, r.len).0
    ensures SameFor(Pick(c, r.field, r.len).1, Pick(d, r.field, r.len).1, Group(r.field))
  {
  }

  lemma PickOther(c: Counters, d: Counters, r: Request, group: string)
    requires SameFor(c, d, group) && Group(r.field) != group
    ensures SameFor(Pick(c, r.field, r.len).1, d, group)
  {
  }

  lemma PicksCons(d: Counters, r: Request, rest: seq<Request>)
    ensures Picks(d, [r] + rest) == [Pick(d, r.field, r.len).0] + Picks(Pick(d, r.field, r.len).1, rest)
  {
    assert ([r] + rest)[1..] == rest;
  }

  lemma {:induction false} SameForPicks(c: Counters, d: Counters, requests: seq<Request>, group: string)
    requires SameFor(c, d, group)
    ensures GroupPicks(c, requests, group) == Picks(d, OfGroup(requests, group))
    decreases |requests|
  {
    if requests != [] {
      var r, rest := requests[0], requests[1..];
      var next := Pick(c, r.field, r.len).1;
      if Group(r.field) == group {
        PickOwn(c, d, r);
        SameForPicks(next, Pick(d, r.field, r.len).1, rest, group);
        PicksCons(d, r, OfGroup(rest, group));
      } else {
        PickOther(c, d, r, group);
        SameForPicks(next, d, rest, group);
        assert [] + OfGroup(rest, group) == OfGroup(rest, group);
      }
    }
  }

  /** A pool of one value or none always gives index 0, and leaves every counter alone. */
  lemma SmallPoolHarmless(counters: Counters, r: Request, rest: seq<Request>)
    requires r.len <= 1
    ensures Picks(counters, [r] + rest) == [0] + Picks(counters, rest)
  {
    PicksCons(counters, r, rest);
  }

  /** The group is the name before the first dot, or the whole name. */
  lemma GroupIs(name: string, rest: string)
    requires '.' !in name
    ensures Group(name) == name && Group(name + "." + rest) == name
  {
    FindNone(name, '.');
    assert name[..|name|] == name;
    assert name + "." + rest == name + ['.'] + rest;
    FindAppend(name, '.', rest);
  }

  lemma Dotted(field: string) returns (name: string, rest: string)
    ensures '.' !in name && (field == name || field == name + "." + rest)
  {
    var i := Find(field, '.');
    FindFirst(field, '.');
    name := field[..i];
    if i == |field| {
      rest := "";
      assert field == name;
    } else {
      rest := field[i + 1..];
      assert field == name + "." + rest;
    }
  }

  /** Two fields share a counter exactly when one dotless name is all of each, or what stands before its first dot. */
  lemma SameGroupIff(a: string, b: string)
    ensures Group(a) == Group(b) <==>
            exists name: string, r: string, s: string ::
              '.' !in name && (a == name || a == name + "." + r) && (b == name || b == name + "." + s)
  {
    if Group(a) == Group(b) {
      var name, r := Dotted(a);
      var name', s := Dotted(b);
      GroupIs(name, r);
      GroupIs(name', s);
      assert '.' !in name && (a == name || a == name + "." + r) && (b == name || b == name + "." + s);
    }
    if exists name: string, r: string, s: string ::
         '.' !in name && (a == name || a == name + "." + r) && (b == name || b == name + "." + s) {
      var name: string, r: string, s: string :|
        '.' !in name && (a == name || a == name + "." + r) && (b == name || b == name + "." + s);
      GroupIs(name, r);
      GroupIs(name, s);
    }
  }

  predicate OneGroup(requests: seq<Request>, group: string, len: nat) {
    forall i | 0 <= i < |requests| :: Group(requests[i].field) == group && requests[i].len == len
  }

  /** The index `k` turns after `c`. */
  function Turn(c: nat, k: nat, len: nat): nat
    requires len > 0
  {
    (c + k) % len
  }

  /** How far the index picked lies ahead of the counter. */
  function Ahead(field: string, len: nat): nat
    requires len > 1
  {
    if IsSecret(field) then len - 1 else 0
  }

  lemma PickStep(counters: Counters, field: string, len: nat)
    requires len > 1
    ensures var c := CounterOf(counters, field);
            && Pick(counters, field, len).0 == Turn(c, Ahead(field, len), len)
            && Pick(counters, field, len).1 == counters[Group(field) := (c + 1) % len]
  {
  }

  lemma {:induction false} CountedPicks(counters: Counters, requests: seq<Request>, group: string, len: nat, k: nat)
    requires len > 1 && OneGroup(requests, group, len) && k < |requests| && group in counters
    ensures |Picks(counters, requests)| == |requests|
    ensures Picks(counters, requests)[k] == Turn(counters[group], k + Ahead(requests[k].field, len), len)
    decreases |requests|
  {
    var field, rest := requests[0].field, requests[1..];
    var next := Pick(counters, field, len).1;
    PickStep(counters, field, len);
    if rest != [] {
      CountedPicks(next, rest, group, len, if k > 0 then k - 1 else 0);
    }
    if k > 0 {
      assert rest[k - 1] == requests[k];
      TurnNext(counters[group], k - 1 + Ahead(requests[k].field, len), len);
    }
  }

  lemma TurnNext(c: nat, k: nat, len: nat)
    requires len > 0
    ensures Turn((c + 1) % len, k, len) == Turn(c, k + 1, len)
  {
    ModAdd(c + 1, k, len);
    assert c + 1 + k == c + (k + 1);
  }

  /**
    Every pick of one group, in runs of any mix of fields: the counter starts at 0, or at 1 if a secret key comes first,
    and advances by one with each pick.  An api key and any other field get it as it is, a secret key the one before.
   */
  lemma MixedPicks(counters: Counters, requests: seq<Request>, group: string, len: nat, k: nat)
    requires len > 1 && OneGroup(requests, group, len) && k < |requests|
    ensures |Picks(counters, requests)| == |requests|
    ensures var start := if group in counters then counters[group]
                         else if EndsIn(requests[0].field, "secret_key_env") then 1 else 0;
            var ahead := if EndsIn(requests[k].field, "secret_key_env") then len - 1 else 0;
            Picks(counters, requests)[k] == Turn(start, k + ahead, len)
  {
    CounterSpelledOut(counters, requests[0].field);
    AheadSpelledOut(requests[k].field, len);
    MixedIndex(counters, requests, group, len, k);
  }

  lemma MixedIndex(counters: Counters, requests: seq<Request>, group: string, len: nat, k: nat)
    requires len > 1 && OneGroup(requests, group, len) && k < |requests|
    ensures |Picks(counters, requests)| == |requests|
    ensures Picks(counters, requests)[k] ==
            Turn(CounterOf(counters, requests[0].field), k + Ahead(requests[k].field, len), len)
  {
    var start := CounterOf(counters, requests[0].field);
    SameStart(counters, requests, group, start);
    CountedPicks(counters[group := start], requests, group, len, k);
  }

  lemma CounterSpelledOut(counters: Counters, field: string)
    ensures CounterOf(counters, field) == if Group(field) in counters then counters[Group(field)]
                                          else if EndsIn(field, "secret_key_env") then 1 else 0
  {
    SecretIs(field);
  }

  lemma AheadSpelledOut(field: string, len: nat)
    requires len > 1
    ensures Ahead(field, len) == if EndsIn(field, "secret_key_env") then len - 1 else 0
  {
    SecretIs(field);
  }

  /** A missing counter acts like one with the starting value. */
  lemma SameStart(counters: Counters, requests: seq<Request>, group: string, start: nat)
    requires requests != [] && Group(requests[0].field) == group && start == CounterOf(counters, requests[0].field)
    requires requests[0].len > 1
    ensures Picks(counters, requests) == Picks(counters[group := start], requests)
  {
    SamePick(counters, requests[0].field, requests[0].len, start);
  }

  lemma SamePick(counters: Counters, field: string, len: nat, start: nat)
    requires len > 1 && start == CounterOf(counters, field)
    ensures Pick(counters, field, len) == Pick(counters[Group(field) := start], field, len)
  {
    var next := (start + 1) % len;
    var with := counters[Group(field) := start];
    assert CounterOf(with, field) == start;
    assert with[Group(field) := next] == counters[Group(field) := next];
  }

  predicate EndsIn(s: string, suffix: string) {
    exists front | 0 <= front <= |s| :: s[front..] == suffix
  }

  lemma SecretIs(field: string)
    ensures IsSecret(field) <==> EndsIn(field, "secret_key_env")
    ensures IsApi(field) <==> EndsIn(field, "api_key_env")
  {
    EndsInIs(field, "secret_key_env");
    EndsInIs(field, "api_key_env");
    assert EndsWith(field, "secret_key_env") ==> field[|field| - 11] == 'r';
    assert EndsWith(field, "api_key_env") ==> field[|field| - 11] == 'a';
  }

  lemma EndsInIs(s: string, suffix: string)
    ensures EndsWith(s, suffix) <==> EndsIn(s, suffix)
  {
    if EndsWith(s, suffix) {
      assert s[|s| - |suffix|..] == suffix;
    }
  }

  /**
    Groups do not disturb each other: in a run of requests of any fields and pool lengths, a group gets exactly the
    indices it would get if only its own requests were made.
   */
  lemma GroupsAreIndependent(counters: Counters, requests: seq<Request>, group: string)
    ensures GroupPicks(counters, requests, group) == Picks(counters, OfGroup(requests, group))
  {
    SameForPicks(counters, counters, requests, group);
  }

  predicate ApiRun(requests: seq<Request>, group: string, len: nat) {
    forall k | 0 <= k < |requests| ::
      IsApi(requests[k].field) && Group(requests[k].field) == group && requests[k].len == len
  }

  lemma {:induction false} ApiPicks(counters: Counters, requests: seq<Request>, group: string, len: nat, k: nat)
    requires len > 1 && ApiRun(requests, group, len) && k < |requests|
    ensures |Picks(counters, requests)| == |requests|
    ensures Picks(counters, requests)[k] == ((if group in counters then counters[group] else 0) + k) % len
    decreases |requests|
  {
    var c := if group in counters then counters[group] else 0;
    var next := Pick(counters, requests[0].field, len).1;
    if |requests| > 1 {
      ApiPicks(next, requests[1..], group, len, if k > 0 then k - 1 else 0);
    }
    if k > 0 {
      ModAdd(c + 1, k - 1, len);
    }
  }

  /**
    Any `len` consecutive api-key picks of a group, from any counter value and with picks of other groups anywhere in
    between, use each index exactly once.
   */
  lemma ApiPicksCoverOnce(counters: Counters, requests: seq<Request>, group: string, len: nat, index: nat)
    requires |OfGroup(requests, group)| == len && ApiRun(OfGroup(requests, group), group, len) && index < len
    ensures |GroupPicks(counters, requests, group)| == len
    ensures exists k :: 0 <= k < len && GroupPicks(counters, requests, group)[k] == index
    ensures forall k, l | 0 <= k < l < len ::
              GroupPicks(counters, requests, group)[k] != GroupPicks(counters, requests, group)[l]
  {
    GroupsAreIndependent(counters, requests, group);
    OwnPicksCoverOnce(counters, OfGroup(requests, group), group, len, index);
  }

  lemma OwnPicksCoverOnce(counters: Counters, requests: seq<Request>, group: string, len: nat, index: nat)
    requires |requests| == len && ApiRun(requests, group, len) && index < len
    ensures |Picks(counters, requests)| == len
    ensures exists k :: 0 <= k < len && Picks(counters, requests)[k] == index
    ensures forall k, l | 0 <= k < l < len :: Picks(counters, requests)[k] != Picks(counters, requests)[l]
  {
    var picks := Picks(counters, requests);
    if len == 1 {
      assert requests[1..] == [];
      assert picks == [0] && picks[0] == index;
    } else {
      var c := if group in counters then counters[group] else 0;
      AllApiPicks(counters, requests, group, len, c);
      CoversOnce(picks, c, len, index);
    }
  }

  lemma AllApiPicks(counters: Counters, requests: seq<Request>, group: string, len: nat, c: nat)
    requires len > 1 && |requests| == len && ApiRun(requests, group, len)
    requires c == if group in counters then counters[group] else 0
    ensures |Picks(counters, requests)| == len
    ensures forall k | 0 <= k < len :: Picks(counters, requests)[k] == Turn(c, k, len)
  {
    ApiPicks(counters, requests, group, len, 0);
    forall k | 0 <= k < len ensures Picks(counters, requests)[k] == Turn(c, k, len) {
      ApiPicks(counters, requests, group, len, k);
    }
  }

  lemma TurnsDiffer(c: nat, k: nat, l: nat, len: nat)
    requires k < l < len
    ensures Turn(c, k, len) != Turn(c, l, len)
  {
    if Turn(c, k, len) == Turn(c, l, len) {
      ModSame(c, k, l, len);
    }
  }

  lemma CoversOnce(picks: seq<nat>, c: nat, len: nat, index: nat)
    requires |picks| == len && index < len && forall k | 0 <= k < len :: picks[k] == Turn(c, k, len)
    ensures exists k :: 0 <= k < len && picks[k] == index
    ensures forall k, l | 0 <= k < l < len :: picks[k] != picks[l]
  {
    var k := Reaches(c, index, len);
    assert picks[k] == Turn(c, k, len) == index;
    forall k, l | 0 <= k < l < len ensures picks[k] != picks[l] {
      TurnsDiffer(c, k, l, len);
    }
  }

  lemma Reaches(c: nat, index: nat, len: nat) returns (k: nat)
    requires index < len
    ensures k < len && (c + k) % len == index
  {
    var r := c % len;
    k := if index >= r then index - r else index + len - r;
    ModAdd(c, k, len);
    ModSmall(r + k, len);
  }

  /** `n` pairs of an api-key pick and the secret-key pick that goes with it. */
  function Pairs(counters: Counters, api: string, secret: string, len: nat, n: nat): seq<(nat, nat)>
    decreases n
  {
    if n == 0 then []
    else
      var (a, c1) := Pick(counters, api, len);
      var (s, c2) := Pick(c1, secret, len);
      [(a, s)] + Pairs(c2, api, secret, len, n - 1)
  }

  lemma {:induction false} PairPicks(counters: Counters, api: string, secret: string, len: nat, n: nat, k: nat)
    requires len > 1 && IsApi(api) && IsSecret(secret) && Group(api) == Group(secret) && k < n
    ensures |Pairs(counters, api, secret, len, n)| == n
    ensures var slot := (CounterOf(counters, api) + 2 * k) % len;
            Pairs(counters, api, secret, len, n)[k] == (slot, slot)
    decreases n
  {
    var c := CounterOf(counters, api);
    var c1 := Pick(counters, api, len).1;
    var c2 := Pick(c1, secret, len).1;
    assert c1[Group(api)] == (c + 1) % len;
    BackOne(c, len);
    ModAdd(c + 1, 1, len);
    assert CounterOf(c2, api) == (c + 2) % len;
    if n > 1 {
      PairPicks(c2, api, secret, len, n - 1, if k > 0 then k - 1 else 0);
    }
    if k > 0 {
      ModAdd(c + 2, 2 * (k - 1), len);
    }
  }

  lemma BackOne(c: nat, len: nat)
    requires len > 1
    ensures ((c + 1) % len + len - 1) % len == c % len
  {
    ModAdd(c + 1, len - 1, len);
    ModAdd(c, len, len);
    ModSmall(c % len + len, len);
  }

  /**
    In an alternating run each secret index is the index of the api key before it, and pair `k` uses slot start + 2k
    modulo the pool length; so the pairs visit every slot exactly when the length is odd.
   */
  lemma PairsCoverIff(counters: Counters, api: string, secret: string, len: nat)
    requires len > 1 && IsApi(api) && IsSecret(secret) && Group(api) == Group(secret)
    ensures forall n: nat, k: nat | k < n :: PairUsesSlot(counters, api, secret, len, n, k)
    ensures (forall slot: nat | slot < len :: Visited(CounterOf(counters, api), slot, len)) <==> len % 2 == 1
  {
    forall n: nat, k: nat | k < n ensures PairUsesSlot(counters, api, secret, len, n, k) {
      PairPicks(counters, api, secret, len, n, k);
    }
    var c := CounterOf(counters, api);
    if len % 2 == 1 {
      forall slot: nat | slot < len ensures Visited(c, slot, len) {
        var k := OddReaches(c, slot, len);
      }
    } else {
      EvenMisses(c, len);
      assert !Visited(c, (c + 1) % len, len);
    }
  }

  ghost predicate PairUsesSlot(counters: Counters, api: string, secret: string, len: nat, n: nat, k: nat)
    requires len > 0
  {
    var pairs, slot := Pairs(counters, api, secret, len, n), Slot(CounterOf(counters, api), k, len);
    k < |pairs| == n && pairs[k] == (slot, slot)
  }

  function Slot(start: nat, k: nat, len: nat): nat
    requires len > 0
  {
    (start + 2 * k) % len
  }

  ghost predicate Visited(start: nat, slot: nat, len: nat)
    requires len > 0
  {
    exists k: nat :: Slot(start, k, len) == slot
  }

  lemma OddReaches(c: nat, slot: nat, len: nat) returns (k: nat)
    requires len % 2 == 1 && slot < len
    ensures Slot(c, k, len) == slot
  {
    var r := c % len;
    var d := if slot >= r then slot - r else slot + len - r;
    k := if d % 2 == 0 then d / 2 else (d + len) / 2;
    assert 2 * k == d || 2 * k == d + len;
    ModAdd(c, 2 * k, len);
    assert r + 2 * k == 0 * len + slot || r + 2 * k == 1 * len + slot || r + 2 * k == 2 * len + slot;
    ModUnique(r + 2 * k, if r + 2 * k == slot then 0 else if r + 2 * k == len + slot then 1 else 2, slot, len);
  }

  /** With an even length the parity of the start never changes. */
  lemma EvenMisses(c: nat, len: nat)
    requires len > 1 && len % 2 == 0
    ensures !Visited(c, (c + 1) % len, len)
  {
    var slot := (c + 1) % len;
    forall k: nat ensures Slot(c, k, len) != slot {
      SameParity(c + 2 * k, len);
      SameParity(c + 1, len);
    }
  }

  lemma SameParity(x: nat, len: nat)
    requires len > 0 && len % 2 == 0
    ensures (x % len) % 2 == x % 2
  {
    var q, h := x / len, len / 2;
    assert x == q * len + x % len;
    assert q * len == 2 * (q * h) by {
      assert len == 2 * h;
    }
  }
}
