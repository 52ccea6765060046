/** Which invocations are priced before a run: every agent state a task can still reach. */
module PriceReachability {
  import opened Basics

  datatype Definition = Definition(terminal: bool, gating: bool, program: bool)

  datatype Rule = Rule(source: string, target: string)

  datatype Machine = Machine(states: map<string, Definition>, rules: seq<Rule>)

  /** `allowed` is what the task's profile permits. */
  datatype Task = Task(id: string, state: string, machine: Machine, allowed: string -> bool)

  predicate Fits(r: Rule, state: string) { r.source == state || r.source == "*" }

  /** A declared or wildcard path out of a declared state that is not terminal, to an allowed one. */
  predicate Edge(t: Task, a: string, b: string) {
    && a in t.machine.states && !t.machine.states[a].terminal
    && t.allowed(b)
    && exists i | 0 <= i < |t.machine.rules| :: Fits(t.machine.rules[i], a) && t.machine.rules[i].target == b
  }

  /** The edges, rule by rule: a rule from a state leads from there, one from the wildcard from every state, both
      only out of declared states that are not terminal and to allowed ones; and nothing else leads anywhere. */
  lemma EdgesAre(t: Task, a: string, b: string)
    ensures Edge(t, a, b) <==>
              && a in t.machine.states && !t.machine.states[a].terminal && t.allowed(b)
              && (Rule(a, b) in t.machine.rules || Rule("*", b) in t.machine.rules)
    ensures Rule("*", b) in t.machine.rules && t.allowed(b) ==>
              forall s | s in t.machine.states && !t.machine.states[s].terminal :: Edge(t, s, b)
  {
    forall s | Rule(s, b) in t.machine.rules || Rule("*", b) in t.machine.rules
      ensures exists i | 0 <= i < |t.machine.rules| :: Fits(t.machine.rules[i], s) && t.machine.rules[i].target == b
    {
      var from := if Rule(s, b) in t.machine.rules then s else "*";
      var i :| 0 <= i < |t.machine.rules| && t.machine.rules[i] == Rule(from, b);
      assert Fits(t.machine.rules[i], s);
    }
  }

  predicate IsPath(t: Task, path: seq<string>) {
    && path != [] && path[0] == t.state
    && forall i | 0 < i < |path| :: Edge(t, path[i - 1], path[i])
  }

  /** Some run along the edges ends there. */
  ghost predicate Reachable(t: Task, s: string) {
    exists path :: IsPath(t, path) && path[|path| - 1] == s
  }

  /** Holds the task's state and is closed under edges. */
  ghost predicate Closed(t: Task, c: set<string>) {
    t.state in c && forall a, b :: a in c && Edge(t, a, b) ==> b in c
  }

  lemma StartIsReachable(t: Task)
    ensures Reachable(t, t.state)
  {
    assert IsPath(t, [t.state]);
  }

  lemma EdgeIsReachable(t: Task, a: string, b: string)
    requires Reachable(t, a) && Edge(t, a, b)
    ensures Reachable(t, b)
  {
    var path :| IsPath(t, path) && path[|path| - 1] == a;
    assert IsPath(t, path + [b]);
  }

  lemma {:induction false} PathStaysIn(t: Task, c: set<string>, path: seq<string>)
    requires Closed(t, c) && IsPath(t, path)
    ensures path[|path| - 1] in c
    decreases |path|
  {
    if |path| > 1 {
      var before := path[..|path| - 1];
      assert IsPath(t, before);
      PathStaysIn(t, c, before);
      assert Edge(t, before[|before| - 1], path[|path| - 1]);
    }
  }

  /** What is reachable is the least closed set. */
  lemma ReachableIsLeast(t: Task, c: set<string>)
    requires Closed(t, c) && forall s | s in c :: Reachable(t, s)
    ensures forall s :: s in c <==> Reachable(t, s)
    ensures forall d :: Closed(t, d) ==> c <= d
  {
    forall s | Reachable(t, s) ensures s in c {
      var path :| IsPath(t, path) && path[|path| - 1] == s;
      PathStaysIn(t, c, path);
    }
    forall d | Closed(t, d) ensures c <= d {
      forall s | s in c ensures s in d {
        var path :| IsPath(t, path) && path[|path| - 1] == s;
        PathStaysIn(t, d, path);
      }
    }
  }

  // ----- the worklist -----

  /** An agent runs there, so its invocations have prices. */
  predicate IsAgentState(t: Task, s: string) {
    s in t.machine.states &&
    (var d := t.machine.states[s]; !d.terminal && !d.gating && !d.program)
  }

  function Universe(t: Task): set<string> {
    {t.state} + set i | 0 <= i < |t.machine.rules| :: t.machine.rules[i].target
  }

  /** Every edge out of a visited state is visited or pending. */
  ghost predicate Followed(t: Task, visited: set<string>, pending: seq<string>) {
    forall a, b :: a in visited && Edge(t, a, b) ==> b in visited || b in pending
  }

  predicate InUniverse(t: Task, pending: seq<string>) {
    forall i | 0 <= i < |pending| :: pending[i] in Universe(t)
  }

  ghost predicate AllReachable(t: Task, pending: seq<string>) {
    forall i | 0 <= i < |pending| :: Reachable(t, pending[i])
  }

  /** The exits of a state, pushed in rule order. */
  method PushExits(t: Task, state: string, pending0: seq<string>) returns (pending: seq<string>)
    requires state in t.machine.states && !t.machine.states[state].terminal && Reachable(t, state)
    requires InUniverse(t, pending0) && AllReachable(t, pending0)
    ensures InUniverse(t, pending) && AllReachable(t, pending)
    ensures pending0 <= pending
    ensures forall b | Edge(t, state, b) :: b in pending
  {
    pending := pending0;
    for i := 0 to |t.machine.rules|
      invariant pending0 <= pending && InUniverse(t, pending) && AllReachable(t, pending)
      invariant forall j | 0 <= j < i && Fits(t.machine.rules[j], state) && t.allowed(t.machine.rules[j].target) ::
                  t.machine.rules[j].target in pending
    {
      var rule := t.machine.rules[i];
      if Fits(rule, state) && t.allowed(rule.target) {
        assert Edge(t, state, rule.target);
        EdgeIsReachable(t, state, rule.target);
        pending := pending + [rule.target];
      }
    }
  }

  lemma StillFollowed(t: Task, visited: set<string>, state: string, pending0: seq<string>, pending: seq<string>)
    requires Followed(t, visited, pending0 + [state])
    requires pending0 <= pending
    requires forall b | Edge(t, state, b) :: b in pending
    ensures Followed(t, visited + {state}, pending)
  {
    forall a, b | a in visited + {state} && Edge(t, a, b) ensures b in visited + {state} || b in pending {
      if a in visited && b !in visited && b != state {
        assert b in pending0 + [state];
      }
    }
  }

  /** What the worklist keeps. */
  ghost predicate Working(t: Task, visited: set<string>, pending: seq<string>) {
    && InUniverse(t, pending) && AllReachable(t, pending)
    && visited <= Universe(t) && (forall s | s in visited :: Reachable(t, s))
    && (t.state in visited || t.state in pending)
    && Followed(t, visited, pending)
  }

  /** The agent states among the visited, each once. */
  ghost predicate AgentsAmong(t: Task, visited: set<string>, agents: seq<string>) {
    && (forall s :: s in agents <==> s in visited && IsAgentState(t, s))
    && (forall i, j | 0 <= i < j < |agents| :: agents[i] != agents[j])
  }

  /** The worklist over one task, whatever cycles its machine has: the states it visits are exactly those
      reachable, which is the least set holding the task's state and closed under edges; and it stops at
      exactly the agent states among them, each once. */
  method Visit(t: Task) returns (visited: set<string>, agents: seq<string>)
    ensures forall s :: s in visited <==> Reachable(t, s)
    ensures Closed(t, visited) && forall c :: Closed(t, c) ==> visited <= c
    ensures AgentsAmong(t, visited, agents)
    ensures forall s :: s in agents <==>
              && Reachable(t, s) && s in t.machine.states
              && t.machine.states[s] == Definition(false, false, false)
  {
    hide Edge, Reachable, Working, AgentsAmong, IsAgentState, Universe;
    var pending := [t.state];
    visited, agents := {}, [];
    WorkStarts(t);
    while pending != []
      invariant Working(t, visited, pending)
      invariant AgentsAmong(t, visited, agents)
      decreases |Universe(t) - visited|, |pending|
    {
      var state := pending[|pending| - 1];
      ghost var all := pending;
      pending := pending[..|pending| - 1];
      assert all == pending + [state];
      Popped(t, visited, pending, state);
      if state in visited {
        continue;
      }
      ghost var before := visited;
      FewerLeft(t, visited, state);
      visited := visited + {state};
      AgentOrNot(t, before, agents, state);
      if state !in t.machine.states || t.machine.states[state].terminal {
        WorkEnds(t, before, pending, state);
        continue;
      }
      if IsAgentState(t, state) {
        agents := agents + [state];
      }
      ghost var rest := pending;
      pending := PushExits(t, state, pending);
      WorkGoesOn(t, before, rest, state, pending);
    }
    WorkIsDone(t, visited);
    AgentsAre(t, visited, agents);
  }

  lemma AgentsAre(t: Task, visited: set<string>, agents: seq<string>)
    requires AgentsAmong(t, visited, agents)
    ensures forall s :: s in agents <==>
              s in visited && s in t.machine.states && t.machine.states[s] == Definition(false, false, false)
  {}

  lemma WorkStarts(t: Task)
    ensures Working(t, {}, [t.state]) && AgentsAmong(t, {}, [])
  {
    StartIsReachable(t);
  }

  lemma Popped(t: Task, visited: set<string>, pending: seq<string>, state: string)
    requires Working(t, visited, pending + [state])
    ensures state in Universe(t) && Reachable(t, state) && InUniverse(t, pending) && AllReachable(t, pending)
    ensures state in visited ==> Working(t, visited, pending)
  {
    hide Edge, Reachable;
    var all := pending + [state];
    assert all[|pending|] == state && forall i | 0 <= i < |pending| :: all[i] == pending[i];
    if state in visited {
      SeenAlready(t, visited, state, pending);
    }
  }

  lemma AgentOrNot(t: Task, visited: set<string>, agents: seq<string>, state: string)
    requires AgentsAmong(t, visited, agents) && state !in visited
    ensures AgentsAmong(t, visited + {state}, if IsAgentState(t, state) then agents + [state] else agents)
    ensures state !in t.machine.states || t.machine.states[state].terminal ==> !IsAgentState(t, state)
  {}

  lemma WorkGoesOn(t: Task, visited: set<string>, rest: seq<string>, state: string, pending: seq<string>)
    requires Working(t, visited, rest + [state])
    requires InUniverse(t, pending) && AllReachable(t, pending) && rest <= pending
    requires forall b | Edge(t, state, b) :: b in pending
    ensures Working(t, visited + {state}, pending)
  {
    hide Edge, Reachable, Universe;
    StillFollowed(t, visited, state, rest, pending);
    var all := rest + [state];
    assert all[|rest|] == state;
    if t.state in all && t.state != state {
      assert t.state in rest;
    }
  }

  lemma WorkEnds(t: Task, visited: set<string>, rest: seq<string>, state: string)
    requires Working(t, visited, rest + [state]) && InUniverse(t, rest) && AllReachable(t, rest)
    requires state !in t.machine.states || t.machine.states[state].terminal
    ensures Working(t, visited + {state}, rest)
  {
    NoExits(t, state);
    WorkGoesOn(t, visited, rest, state, rest);
  }

  lemma WorkIsDone(t: Task, visited: set<string>)
    requires Working(t, visited, [])
    ensures forall s :: s in visited <==> Reachable(t, s)
    ensures Closed(t, visited) && forall c :: Closed(t, c) ==> visited <= c
  {
    hide Edge, Reachable, Universe;
    assert Closed(t, visited);
    ReachableIsLeast(t, visited);
  }

  lemma SeenAlready(t: Task, visited: set<string>, state: string, pending: seq<string>)
    requires Followed(t, visited, pending + [state]) && state in visited
    ensures Followed(t, visited, pending)
  {
    hide Edge;
    forall a, b | a in visited && Edge(t, a, b) ensures b in visited || b in pending {
      if b !in visited {
        assert b in pending + [state];
      }
    }
  }

  lemma NoExits(t: Task, state: string)
    requires state !in t.machine.states || t.machine.states[state].terminal
    ensures forall b :: !Edge(t, state, b)
  {}

  lemma FewerLeft(t: Task, visited: set<string>, state: string)
    requires state in Universe(t) && state !in visited
    ensures |Universe(t) - (visited + {state})| < |Universe(t) - visited|
  {
    hide Universe;
    var left := Universe(t) - visited;
    assert Universe(t) - (visited + {state}) == left - {state};
  }

  // ----- all tasks -----

  /** What resolving a task's agent in a state gives: its invocations, or an error. */
  type Resolver<!T> = (Task, string) -> Option<seq<T>>

  /** The task's invocations in the state are priced. */
  ghost predicate Priced(t: Task, s: string) {
    Reachable(t, s) && s in t.machine.states && t.machine.states[s] == Definition(false, false, false)
  }

  ghost predicate Fails<T(!new)>(t: Task, resolve: Resolver<T>) {
    exists s :: Priced(t, s) && resolve(t, s).None?
  }

  ghost predicate Gives<T(!new)>(t: Task, resolve: Resolver<T>, x: T) {
    exists s :: Priced(t, s) && resolve(t, s).Some? && x in resolve(t, s).value
  }

  method SelectTask<T(!new)>(t: Task, resolve: Resolver<T>) returns (r: Option<seq<T>>)
    ensures r.None? <==> Fails(t, resolve)
    ensures r.Some? ==> forall x :: x in r.value <==> Gives(t, resolve, x)
  {
    var visited, agents := Visit(t);
    assert forall s :: s in agents <==> Priced(t, s);
    hide Priced, AgentsAmong, Closed, Reachable;
    var selected := [];
    for j := 0 to |agents|
      invariant forall l | 0 <= l < j :: resolve(t, agents[l]).Some?
      invariant forall x :: x in selected <==>
                  exists l | 0 <= l < j :: resolve(t, agents[l]).Some? && x in resolve(t, agents[l]).value
    {
      assert agents[j] in agents;
      var found := resolve(t, agents[j]);
      if found.None? {
        return None;
      }
      selected := selected + found.value;
    }
    forall x ensures x in selected <==> Gives(t, resolve, x) {
      if Gives(t, resolve, x) {
        var s :| Priced(t, s) && resolve(t, s).Some? && x in resolve(t, s).value;
        assert s in agents;
      }
    }
    r := Some(selected);
  }

  /** `selected_run_invocations`: refused exactly if resolving some reachable agent state of a task in
      scope fails, and otherwise exactly the invocations of every agent state such a task can reach. */
  method SelectedRunInvocations<T(!new)>(noAgent: bool, tasks: seq<Task>, inScope: string -> bool, resolve: Resolver<T>)
    returns (r: Option<seq<T>>)
    ensures noAgent ==> r == Some([])
    ensures !noAgent ==>
              (r.None? <==> exists i | 0 <= i < |tasks| :: inScope(tasks[i].id) && Fails(tasks[i], resolve))
    ensures !noAgent && r.Some? ==>
              forall x :: x in r.value <==>
                exists i | 0 <= i < |tasks| :: inScope(tasks[i].id) && Gives(tasks[i], resolve, x)
  {
    hide Fails, Gives;
    if noAgent {
      return Some([]);
    }
    var selected := [];
    for k := 0 to |tasks|
      invariant forall i | 0 <= i < k && inScope(tasks[i].id) :: !Fails(tasks[i], resolve)
      invariant forall x :: x in selected <==>
                  exists i | 0 <= i < k :: inScope(tasks[i].id) && Gives(tasks[i], resolve, x)
    {
      if inScope(tasks[k].id) {
        var found := SelectTask(tasks[k], resolve);
        if found.None? {
          return None;
        }
        selected := selected + found.value;
      }
    }
    r := Some(selected);
  }

  // ----- one price source for a provider and model -----

  datatype Source<P, E> = Profile(prices: P, profiles: seq<string>) | Builtin(entry: E) | Unpriced

  datatype Pair<P, E> = Pair(source: Source<P, E>, labels: seq<string>)

  datatype Sourced<P, E> = Sourced(provider: string, model: string, source: Source<P, E>, says: string)

  /** Two sources that may stand for one provider and model. */
  predicate SameRates<P(==), E(==)>(a: Source<P, E>, b: Source<P, E>) {
    || (a.Profile? && b.Profile? && a.prices == b.prices)
    || (a.Builtin? && b.Builtin? && a.entry == b.entry)
    || (a.Unpriced? && b.Unpriced?)
  }

  type Pairs<P, E> = map<(string, string), Pair<P, E>>

  /** `merge_effective_source`. */
  function MergeSource<P(==), E(==)>(pairs: Pairs<P, E>, x: Sourced<P, E>): Option<Pairs<P, E>> {
    var key := (x.provider, x.model);
    if key !in pairs then Some(pairs[key := Pair(x.source, [x.says])])
    else
      var existing := pairs[key];
      if !SameRates(existing.source, x.source) then None
      else
        var source := if existing.source.Profile? then Profile(existing.source.prices, existing.source.profiles + x.source.profiles)
                      else existing.source;
        Some(pairs[key := Pair(source, existing.labels + [x.says])])
  }

  function MergeSources<P(==), E(==)>(xs: seq<Sourced<P, E>>): Option<Pairs<P, E>> {
    if xs == [] then Some(map[])
    else
      var before := MergeSources(xs[..|xs| - 1]);
      if before.None? then None else MergeSource(before.value, xs[|xs| - 1])
  }

  predicate SamePair<P, E>(a: Sourced<P, E>, b: Sourced<P, E>) {
    a.provider == b.provider && a.model == b.model
  }

  /** Each pair has the rates of all its sources. */
  predicate HoldsRates<P(==), E(==)>(pairs: Pairs<P, E>, xs: seq<Sourced<P, E>>) {
    && (forall i | 0 <= i < |xs| ::
          && (xs[i].provider, xs[i].model) in pairs
          && SameRates(pairs[(xs[i].provider, xs[i].model)].source, xs[i].source))
    && (forall key | key in pairs :: exists i | 0 <= i < |xs| :: (xs[i].provider, xs[i].model) == key)
  }

  predicate NoClash<P(==), E(==)>(xs: seq<Sourced<P, E>>) {
    forall i, j | 0 <= i < |xs| && 0 <= j < |xs| && SamePair(xs[i], xs[j]) :: SameRates(xs[i].source, xs[j].source)
  }

  /** Sources merge exactly if every two of one provider and model have the same rates, so in any order;
      and then each pair has the rates of all of them. */
  lemma {:induction false} SourcesMerge<P, E>(xs: seq<Sourced<P, E>>)
    ensures MergeSources(xs).Some? <==> NoClash(xs)
    ensures MergeSources(xs).Some? ==> HoldsRates(MergeSources(xs).value, xs)
  {
    if xs != [] {
      var before, x := xs[..|xs| - 1], xs[|xs| - 1];
      SourcesMerge(before);
      assert before + [x] == xs;
      assert forall i | 0 <= i < |before| :: before[i] == xs[i];
      if MergeSources(before).Some? {
        OneMoreSource(MergeSources(before).value, before, x);
      } else {
        assert !NoClash(xs);
      }
    }
  }

  lemma OneMoreSource<P, E>(pairs: Pairs<P, E>, before: seq<Sourced<P, E>>, x: Sourced<P, E>)
    requires HoldsRates(pairs, before) && NoClash(before)
    ensures MergeSource(pairs, x).Some? <==> NoClash(before + [x])
    ensures MergeSource(pairs, x).Some? ==> HoldsRates(MergeSource(pairs, x).value, before + [x])
  {
    var xs := before + [x];
    assert forall i | 0 <= i < |before| :: before[i] == xs[i];
    assert xs[|before|] == x;
    var key := (x.provider, x.model);
    ClashWithPair(pairs, before, x);
    if MergeSource(pairs, x).Some? {
      var after := MergeSource(pairs, x).value;
      forall i | 0 <= i < |xs|
        ensures (xs[i].provider, xs[i].model) in after
        ensures SameRates(after[(xs[i].provider, xs[i].model)].source, xs[i].source)
      {
        if i < |before| {
          assert SameRates(pairs[(before[i].provider, before[i].model)].source, before[i].source);
        }
      }
      forall k | k in after ensures exists i | 0 <= i < |xs| :: (xs[i].provider, xs[i].model) == k {
        if k != key {
          var i :| 0 <= i < |before| && (before[i].provider, before[i].model) == k;
          assert (xs[i].provider, xs[i].model) == k;
        } else {
          assert (xs[|before|].provider, xs[|before|].model) == k;
        }
      }
    }
  }

  /** A source clashes with the pair that stands for its provider and model, or with none. */
  lemma ClashWithPair<P, E>(pairs: Pairs<P, E>, before: seq<Sourced<P, E>>, x: Sourced<P, E>)
    requires HoldsRates(pairs, before) && NoClash(before)
    ensures NoClash(before + [x]) <==>
              ((x.provider, x.model) in pairs ==> SameRates(pairs[(x.provider, x.model)].source, x.source))
  {
    hide SameRates;
    var xs := before + [x];
    assert forall i | 0 <= i < |before| :: before[i] == xs[i];
    assert xs[|before|] == x;
    var key := (x.provider, x.model);
    if key in pairs && !SameRates(pairs[key].source, x.source) {
      var i :| 0 <= i < |before| && (before[i].provider, before[i].model) == key;
      assert SamePair(xs[i], xs[|before|]);
      RatesAgree(pairs[key].source, before[i].source, x.source);
    } else {
      forall i, j | 0 <= i < |xs| && 0 <= j < |xs| && SamePair(xs[i], xs[j]) ensures SameRates(xs[i].source, xs[j].source) {
        if i < |before| && j < |before| {
          assert SamePair(before[i], before[j]);
        } else if i == j {
          RatesAgree(x.source, x.source, x.source);
        } else {
          RatesAgree(pairs[key].source, xs[i].source, xs[j].source);
        }
      }
    }
  }

  lemma RatesAgree<P, E>(a: Source<P, E>, b: Source<P, E>, c: Source<P, E>)
    ensures SameRates(b, b) && (SameRates(b, c) <==> SameRates(c, b))
    ensures SameRates(a, b) ==> (SameRates(a, c) <==> SameRates(b, c))
  {}

  function KeyOf<P, E>(x: Sourced<P, E>): (string, string) { (x.provider, x.model) }

  /** The labels of a provider and model's sources, in order. */
  function LabelsOf<P, E>(xs: seq<Sourced<P, E>>, key: (string, string)): seq<string> {
    if xs == [] then []
    else
      var x := xs[|xs| - 1];
      LabelsOf(xs[..|xs| - 1], key) + if KeyOf(x) == key then [x.says] else []
  }

  /** The profiles they come from, in order. */
  function ProfilesOf<P, E>(xs: seq<Sourced<P, E>>, key: (string, string)): seq<string> {
    if xs == [] then []
    else
      var x := xs[|xs| - 1];
      ProfilesOf(xs[..|xs| - 1], key) + if KeyOf(x) == key && x.source.Profile? then x.source.profiles else []
  }

  /** A merged pair lists every one of its sources once, in order. */
  predicate ListsSources<P, E>(pairs: Pairs<P, E>, xs: seq<Sourced<P, E>>, key: (string, string)) {
    && (key !in pairs ==> LabelsOf(xs, key) == [] && ProfilesOf(xs, key) == [])
    && (key in pairs ==>
          && pairs[key].labels == LabelsOf(xs, key)
          && ProfilesOf(xs, key) == if pairs[key].source.Profile? then pairs[key].source.profiles else [])
  }

  lemma {:induction false} SourcesAreListed<P, E>(xs: seq<Sourced<P, E>>, key: (string, string))
    requires MergeSources(xs).Some?
    ensures ListsSources(MergeSources(xs).value, xs, key)
  {
    if xs != [] {
      var before, x := xs[..|xs| - 1], xs[|xs| - 1];
      SourcesAreListed(before, key);
      assert MergeSource(MergeSources(before).value, x).Some?;
    }
  }
}
