/** No deadlock among root guards, when every thread takes its roots in canonical order. */
module RootOrder {
  import opened RootInterlock

  /** A thread asks for a root it already holds, or for one above every root it holds. */
  predicate Orderly(s: State, a: Action) {
    a.Request? ==> a.root in Of(s, a.t).held || forall r | r in Of(s, a.t).held :: r < a.root
  }

  ghost predicate OrderlyRuns(s: State, acts: seq<Action>) {
    && Runs(s, acts)
    && (forall k | 0 <= k < |acts| :: Runs(s, acts[..k]) && Orderly(Final(s, acts[..k]), acts[k]))
  }

  /** What thread `t` waits for: a holder of an incompatible lock, or, where the lock serves its
      queue in order, anyone who queued on the root before it. */
  predicate BlockedBy(s: State, t: Thread, u: Thread)
    requires Of(s, t).phase.Waiting?
  {
    var Waiting(root, exclusive, ticket) := Of(s, t).phase;
    || (if exclusive then LockOf(Of(s, u), root) != Unlocked else LockOf(Of(s, u), root) == ExclusiveLock)
    || (Of(s, u).phase.Waiting? && Of(s, u).phase.root == root && Of(s, u).phase.ticket < ticket)
  }

  /** What canonical order keeps: the root being acquired is above every root held. */
  ghost predicate Climbing(ts: ThreadState) {
    ts.phase.Idle? || (ts.phase.Checking? && ts.phase.check == Reuse) || forall r | r in ts.held :: r < ts.phase.root
  }

  ghost predicate Ascending(s: State) {
    forall t | t in s.threads :: Climbing(s.threads[t])
  }

  ghost predicate Ticketed(s: State) {
    && (forall t | t in s.threads && s.threads[t].phase.Waiting? :: s.threads[t].phase.ticket < s.clock)
    && (forall t, u | t in s.threads && u in s.threads && t != u
                      && s.threads[t].phase.Waiting? && s.threads[u].phase.Waiting? ::
          s.threads[t].phase.ticket != s.threads[u].phase.ticket)
  }

  lemma StepKeepsClimbing(s: State, a: Action)
    requires Targets(Of(s, a.t)) && Climbing(Of(s, a.t)) && Enabled(s, a) && Orderly(s, a)
    ensures Climbing(Local(s, a))
  {}

  lemma StepKeepsTickets(s: State, a: Action)
    requires Ticketed(s) && Enabled(s, a)
    ensures Ticketed(Apply(s, a))
  {
    var now := Local(s, a);
    assert now.phase.Waiting? ==> now.phase.ticket == s.clock || now.phase == Of(s, a.t).phase;
  }

  lemma StepKeepsOrder(s: State, a: Action)
    requires Invariant(s) && Ascending(s) && Ticketed(s) && Enabled(s, a) && Orderly(s, a)
    ensures Ascending(Apply(s, a)) && Ticketed(Apply(s, a))
  {
    assert Targets(Of(s, a.t)) && Climbing(Of(s, a.t));
    hide Local, Climbing, Ticketed, Targets, Enabled, Orderly;
    StepKeepsClimbing(s, a);
    StepKeepsTickets(s, a);
  }

  lemma {:induction false} EveryStateIsOrdered(s: State, acts: seq<Action>)
    requires Initial(s) && OrderlyRuns(s, acts)
    ensures Ascending(Final(s, acts)) && Ticketed(Final(s, acts))
    decreases |acts|
  {
    if acts != [] {
      var n := |acts| - 1;
      var before := acts[..n];
      forall k | 0 <= k < n ensures Runs(s, before[..k]) && Orderly(Final(s, before[..k]), before[k]) {
        assert before[..k] == acts[..k];
      }
      EveryStateIsOrdered(s, before);
      EveryStateIsInvariant(s, before);
      StepKeepsOrder(Final(s, before), acts[n]);
    }
  }

  predicate AllWaiting(s: State, threads: set<Thread>) {
    forall t | t in threads :: t in s.threads && s.threads[t].phase.Waiting?
  }

  /** The waiting thread furthest up the order, and first in its queue. */
  lemma {:induction false} Furthest(s: State, threads: set<Thread>) returns (t: Thread)
    requires threads != {} && AllWaiting(s, threads)
    ensures t in threads
    ensures forall u | u in threads ::
              || s.threads[u].phase.root < s.threads[t].phase.root
              || (s.threads[u].phase.root == s.threads[t].phase.root
                  && s.threads[t].phase.ticket <= s.threads[u].phase.ticket)
    decreases threads
  {
    t :| t in threads;
    if threads != {t} {
      var best := Furthest(s, threads - {t});
      var x, y := s.threads[t].phase, s.threads[best].phase;
      if x.root < y.root || (x.root == y.root && y.ticket <= x.ticket) {
        t := best;
      }
    }
  }

  /** No deadlock: in every reachable state, every nonempty set of waiting threads has a member none
      of the others blocks. So the wait-for graph has no cycle, fair queueing included. */
  lemma NoDeadlock(s: State, acts: seq<Action>, threads: set<Thread>) returns (t: Thread)
    requires Initial(s) && OrderlyRuns(s, acts)
    requires threads != {} && AllWaiting(Final(s, acts), threads)
    ensures t in threads && forall u | u in threads :: !BlockedBy(Final(s, acts), t, u)
  {
    EveryStateIsInvariant(s, acts);
    EveryStateIsOrdered(s, acts);
    t := Furthest(Final(s, acts), threads);
    assert Targets(Final(s, acts).threads[t]);
  }

  /** Thread `u` has a next action of its own, short of crashing or starting an acquisition. */
  ghost predicate CanMove(s: State, u: Thread) {
    exists a :: Enabled(s, a) && a.t == u && !a.Crash? && !a.Request?
  }

  lemma BlockersMove(s: State, t: Thread, u: Thread)
    requires Of(s, t).phase.Waiting? && BlockedBy(s, t, u) && !Of(s, u).phase.Waiting?
    ensures CanMove(s, u)
  {
    var ts, root := Of(s, u), Of(s, t).phase.root;
    if ts.phase.Checking? {
      assert Enabled(s, if ts.phase.todo == [] then Conclude(u) else Inspect(u, Inaccessible));
    } else if ts.phase.Opening? {
      assert Enabled(s, Open(u, true, [ts.phase.root]));
    } else {
      assert Enabled(s, Drop(u, root));
    }
  }

  /** Progress: while anyone waits, some waiting thread either can be granted its lock in queue
      order, or is blocked, and then every thread it is blocked by can move. */
  lemma SomeoneMoves(s: State, acts: seq<Action>, waiting: set<Thread>) returns (t: Thread)
    requires Initial(s) && OrderlyRuns(s, acts)
    requires waiting != {} && AllWaiting(Final(s, acts), waiting)
    requires forall u | u in Final(s, acts).threads :: Final(s, acts).threads[u].phase.Waiting? ==> u in waiting
    ensures t in waiting
    ensures (forall u :: !BlockedBy(Final(s, acts), t, u)) ==>
              Enabled(Final(s, acts), Grant(t, [Of(Final(s, acts), t).phase.root]))
    ensures forall u | BlockedBy(Final(s, acts), t, u) :: CanMove(Final(s, acts), u)
  {
    t := NoDeadlock(s, acts, waiting);
    var now := Final(s, acts);
    var root := now.threads[t].phase.root;
    forall u | u in now.threads && !BlockedBy(now, t, u)
      ensures LockOf(now.threads[u], root) == Unlocked
              || (!now.threads[t].phase.exclusive && LockOf(now.threads[u], root) == SharedLock)
    {}
    forall u | BlockedBy(now, t, u) ensures CanMove(now, u) {
      BlockersMove(now, t, u);
    }
  }

  /** A thread never waits on a root it holds, and an upgrade from a shared hold is refused on the
      spot, its thread left as it was. */
  lemma NoSelfWait(s: State, acts: seq<Action>, t: Thread)
    requires Initial(s) && Runs(s, acts) && t in Final(s, acts).threads
    ensures var ts := Of(Final(s, acts), t);
            && (ts.phase.Waiting? ==> ts.phase.root !in ts.held && !BlockedBy(Final(s, acts), t, t))
            && (forall r, tryOnly, owners ::
                  ts.phase.Idle? && r in ts.held && !ts.held[r].exclusive && r in owners ==>
                  Local(Final(s, acts), Request(t, r, true, tryOnly, owners)) == ts)
  {
    EveryStateIsInvariant(s, acts);
    assert Targets(Of(Final(s, acts), t));
  }

  /** Canonical order is what prevents deadlock: two threads taking two roots in opposite orders can
      reach a state where each blocks the other. */
  lemma OrderIsNeeded() returns (acts: seq<Action>)
    ensures Runs(START, acts) && AllWaiting(Final(START, acts), {1, 2})
    ensures BlockedBy(Final(START, acts), 1, 2) && BlockedBy(Final(START, acts), 2, 1)
  {
    acts := EachHoldsOne();
    acts := Then(START, acts, Request(1, 1, true, false, [1]));
    acts := Then(START, acts, Open(1, true, [1]));
    acts := Then(START, acts, Request(2, 0, true, false, [0]));
    acts := Then(START, acts, Open(2, true, [0]));
  }

  lemma EachHoldsOne() returns (acts: seq<Action>)
    ensures Runs(START, acts)
    ensures Final(START, acts) ==
              State(map[1 := ThreadState(Idle, map[0 := Hold(true, true, 1)]),
                        2 := ThreadState(Idle, map[1 := Hold(true, true, 1)])], {}, 6)
  {
    acts := [];
    acts := Then(START, acts, Request(1, 0, true, false, [0]));
    acts := Then(START, acts, Open(1, true, [0]));
    acts := Then(START, acts, Grant(1, [0]));
    acts := Then(START, acts, Request(2, 1, true, false, [1]));
    acts := Then(START, acts, Open(2, true, [1]));
    acts := Then(START, acts, Grant(2, [1]));
  }
}
