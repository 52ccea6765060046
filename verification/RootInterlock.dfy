/** The recovery interlock: a readers/writer protocol over execution roots.

  Threads take root guards, each guard a lock on one root's file plus a check of the recovery marker
  on both sides of the lock. The module is a step relation: an `Action` is one thing one thread (or
  the operating system, granting a lock) does, so a sequence of actions is an interleaving.
  Roots are numbered in the order their canonical paths sort. */
module RootInterlock {

  type Thread = nat
  type Root = nat

  /** A `Hold` and the number of guards sharing it. A hold that is not `backed` has no lock file
      behind it: the account could not create one. */
  datatype Hold = Hold(exclusive: bool, backed: bool, clones: nat)

  /** Which of an acquisition's checks is under way. The last one runs with the new hold in hand but
      not yet returned. */
  datatype Check = Before | Reuse | After(backed: bool)

  datatype Phase =
    | Idle
    | Checking(root: Root, check: Check, todo: seq<Root>, inaccessible: bool)
    | Opening(root: Root, exclusive: bool, tryOnly: bool)
    | Waiting(root: Root, exclusive: bool, ticket: nat)

  /** `held` is the thread's table of live holds, one per root. */
  datatype ThreadState = ThreadState(phase: Phase, held: map<Root, Hold>)

  datatype State = State(threads: map<Thread, ThreadState>, markers: set<Root>, clock: nat)

  datatype Seen = Absent | Present | Inaccessible

  datatype Action =
    | Request(t: Thread, root: Root, exclusive: bool, tryOnly: bool, owners: seq<Root>)
    | Inspect(t: Thread, seen: Seen)
    | Conclude(t: Thread)
    | Open(t: Thread, created: bool, owners: seq<Root>)
    | Grant(t: Thread, owners: seq<Root>)
    | Clone(t: Thread, root: Root)
    | Drop(t: Thread, root: Root)
    | Publish(t: Thread, root: Root)
    | Clear(t: Thread, root: Root)
    | Crash(t: Thread)

  datatype LockMode = Unlocked | SharedLock | ExclusiveLock

  function Of(s: State, t: Thread): ThreadState {
    if t in s.threads then s.threads[t] else ThreadState(Idle, map[])
  }

  /** What thread `ts` has on root `r`'s lock file. */
  function LockOf(ts: ThreadState, r: Root): LockMode {
    if r in ts.held && ts.held[r].backed then
      if ts.held[r].exclusive then ExclusiveLock else SharedLock
    else if ts.phase.Checking? && ts.phase.root == r && ts.phase.check == After(true) then SharedLock
    else Unlocked
  }

  /** Whether the operating system may hand out the lock now. */
  predicate Compatible(s: State, r: Root, exclusive: bool) {
    forall u | u in s.threads ::
      LockOf(s.threads[u], r) == Unlocked || (!exclusive && LockOf(s.threads[u], r) == SharedLock)
  }

  predicate Enabled(s: State, a: Action) {
    var ts := Of(s, a.t);
    match a
    case Request(_, root, exclusive, tryOnly, owners) =>
      ts.phase.Idle? && (tryOnly ==> exclusive) && root in owners
    case Inspect(_, seen) =>
      && ts.phase.Checking? && ts.phase.todo != []
      && (seen.Absent? ==> ts.phase.todo[0] !in s.markers) && (seen.Present? ==> ts.phase.todo[0] in s.markers)
    case Conclude(_) => ts.phase.Checking? && ts.phase.todo == []
    case Open(_, _, owners) => ts.phase.Opening? && ts.phase.root in owners
    case Grant(_, owners) =>
      ts.phase.Waiting? && ts.phase.root in owners && Compatible(s, ts.phase.root, ts.phase.exclusive)
    case Clone(_, root) => ts.phase.Idle? && root in ts.held
    case Drop(_, root) => ts.phase.Idle? && root in ts.held
    case Publish(_, root) => ts.phase.Idle? && root in ts.held && ts.held[root].exclusive
    case Clear(_, root) => ts.phase.Idle? && root in ts.held && ts.held[root].exclusive
    case Crash(_) => true
  }

  function Share(h: Hold): Hold { h.(clones := h.clones + 1) }

  function Dropped(held: map<Root, Hold>, r: Root): map<Root, Hold>
    requires r in held
  {
    if held[r].clones <= 1 then held - {r} else held[r := held[r].(clones := held[r].clones - 1)]
  }

  /** One thread's side of one action. */
  function Local(s: State, a: Action): ThreadState
    requires Enabled(s, a)
  {
    var ts := Of(s, a.t);
    match a
    case Request(_, root, exclusive, tryOnly, owners) =>
      if root in ts.held then
        if !exclusive then ts.(phase := Checking(root, Reuse, owners, false))
        else if ts.held[root].exclusive then ts.(held := ts.held[root := Share(ts.held[root])])
        else ts // an upgrade is refused, never waited for
      else if exclusive then ts.(phase := Opening(root, true, tryOnly))
      else ts.(phase := Checking(root, Before, owners, false))
    case Inspect(_, seen) =>
      if seen.Present? then ts.(phase := Idle)
      else ts.(phase := ts.phase.(todo := ts.phase.todo[1..],
                                  inaccessible := ts.phase.inaccessible || seen.Inaccessible?))
    case Conclude(_) =>
      var root := ts.phase.root;
      if ts.phase.inaccessible then ts.(phase := Idle)
      else (match ts.phase.check
            case Before => ts.(phase := Opening(root, false, false))
            case Reuse =>
              if root in ts.held then ThreadState(Idle, ts.held[root := Share(ts.held[root])])
              else ts.(phase := Idle)
            case After(backed) => ThreadState(Idle, ts.held[root := Hold(false, backed, 1)]))
    case Open(_, created, owners) =>
      var Opening(root, exclusive, tryOnly) := ts.phase;
      if !created then
        if exclusive || tryOnly then ts.(phase := Idle)
        else ts.(phase := Checking(root, After(false), owners, false))
      else if tryOnly then
        if Compatible(s, root, true) then ThreadState(Idle, ts.held[root := Hold(true, true, 1)])
        else ts.(phase := Idle)
      else ts.(phase := Waiting(root, exclusive, s.clock))
    case Grant(_, owners) =>
      var root := ts.phase.root;
      if ts.phase.exclusive then ThreadState(Idle, ts.held[root := Hold(true, true, 1)])
      else ts.(phase := Checking(root, After(true), owners, false))
    case Clone(_, root) => ts.(held := ts.held[root := Share(ts.held[root])])
    case Drop(_, root) => ts.(held := Dropped(ts.held, root))
    case Publish(_, _) => ts
    case Clear(_, _) => ts
    case Crash(_) => ThreadState(Idle, map[])
  }

  function Apply(s: State, a: Action): State
    requires Enabled(s, a)
  {
    State(s.threads[a.t := Local(s, a)],
          match a
          case Publish(_, root) => s.markers + {root}
          case Clear(_, root) => s.markers - {root}
          case _ => s.markers,
          s.clock + 1)
  }

  /** No thread has started anything; markers may survive from earlier processes. */
  predicate Initial(s: State) { s.threads == map[] }

  /** `acts` is an interleaving that can happen from `s`, and `Final` is where it ends. */
  predicate Runs(s: State, acts: seq<Action>)
    decreases |acts|, 0
  {
    acts == [] || (Runs(s, acts[..|acts| - 1]) && Enabled(Final(s, acts[..|acts| - 1]), acts[|acts| - 1]))
  }

  function Final(s: State, acts: seq<Action>): State
    requires Runs(s, acts)
    decreases |acts|, 1
  {
    if acts == [] then s else Apply(Final(s, acts[..|acts| - 1]), acts[|acts| - 1])
  }

  // ----- safety -----

  /** The promise a guard makes its holder: a granted, file-backed shared hold on a root means no
      marker there. */
  ghost predicate Protected(s: State) {
    forall t, r | t in s.threads && r in s.threads[t].held ::
      !s.threads[t].held[r].exclusive && s.threads[t].held[r].backed ==> r !in s.markers
  }

  ghost predicate Exclusion(s: State) {
    forall t, u, r | t in s.threads && u in s.threads && t != u && LockOf(s.threads[t], r) == ExclusiveLock ::
      LockOf(s.threads[u], r) == Unlocked
  }

  /** The root an acquisition under way will hold is not one the thread already holds. */
  ghost predicate Targets(ts: ThreadState) {
    && (ts.phase.Checking? ==> (ts.phase.root in ts.held <==> ts.phase.check == Reuse))
    && (ts.phase.Opening? || ts.phase.Waiting? ==> ts.phase.root !in ts.held)
    && (ts.phase.Opening? && ts.phase.tryOnly ==> ts.phase.exclusive)
    && (forall r | r in ts.held :: ts.held[r].clones >= 1 && (ts.held[r].exclusive ==> ts.held[r].backed))
  }

  /** Once the check under the lock has passed over the root itself, no marker can appear there. */
  ghost predicate Rechecked(s: State) {
    forall t | t in s.threads && s.threads[t].phase.Checking? && s.threads[t].phase.check == After(true) ::
      (s.threads[t].phase.root !in s.threads[t].phase.todo && !s.threads[t].phase.inaccessible) ==>
      s.threads[t].phase.root !in s.markers
  }

  ghost predicate Invariant(s: State) {
    && Protected(s)
    && Exclusion(s)
    && Rechecked(s)
    && (forall t | t in s.threads :: Targets(s.threads[t]))
  }

  lemma StepKeepsTargets(s: State, a: Action)
    requires Invariant(s) && Enabled(s, a)
    ensures forall t | t in Apply(s, a).threads :: Targets(Apply(s, a).threads[t])
  {
    assert Targets(Of(s, a.t));
  }

  /** The only ways an action can add to what its thread has locked. */
  lemma StepLocks(s: State, a: Action, r: Root)
    requires Invariant(s) && Enabled(s, a)
    ensures var was, now := LockOf(Of(s, a.t), r), LockOf(Local(s, a), r);
            || now == was || now == Unlocked
            || (now == ExclusiveLock && Compatible(s, r, true))
            || (now == SharedLock && Compatible(s, r, false))
  {
    assert Targets(Of(s, a.t));
  }

  lemma StepKeepsExclusion(s: State, a: Action)
    requires Invariant(s) && Enabled(s, a)
    ensures Exclusion(Apply(s, a))
  {
    var s' := Apply(s, a);
    forall t, u, r | t in s'.threads && u in s'.threads && t != u && LockOf(s'.threads[t], r) == ExclusiveLock
      ensures LockOf(s'.threads[u], r) == Unlocked
    {
      StepLocks(s, a, r);
      assert LockOf(ThreadState(Idle, map[]), r) == Unlocked;
    }
  }

  lemma StepKeepsProtection(s: State, a: Action)
    requires Invariant(s) && Enabled(s, a)
    ensures Protected(Apply(s, a)) && Rechecked(Apply(s, a))
  {
    var s' := Apply(s, a);
    assert Targets(Of(s, a.t));
    if a.Publish? {
      // The publisher's lock is exclusive, so nobody else has any lock on the root.
      assert LockOf(s.threads[a.t], a.root) == ExclusiveLock;
      forall u | u in s.threads && u != a.t ensures LockOf(s.threads[u], a.root) == Unlocked {}
    } 
  }

  lemma {:induction false} EveryStateIsInvariant(s: State, acts: seq<Action>)
    requires Initial(s) && Runs(s, acts)
    ensures Invariant(Final(s, acts))
  {
    if acts != [] {
      var before, a := acts[..|acts| - 1], acts[|acts| - 1];
      EveryStateIsInvariant(s, before);
      StepKeepsTargets(Final(s, before), a);
      StepKeepsExclusion(Final(s, before), a);
      StepKeepsProtection(Final(s, before), a);
    }
  }

  /** A waiting request can be granted exactly if nobody's lock is against it: for a shared one, no exclusive
      hold on the root; for an exclusive one, no hold with a lock file, and no reader under its lock. So readers
      share, and a hold without a lock file stops nobody. */
  lemma GrantedExactly(s: State, acts: seq<Action>, t: Thread, owners: seq<Root>)
    requires Initial(s) && Runs(s, acts) && Of(Final(s, acts), t).phase.Waiting?
    requires Of(Final(s, acts), t).phase.root in owners
    ensures var now := Final(s, acts);
            var Waiting(root, exclusive, _) := Of(now, t).phase;
            Enabled(now, Grant(t, owners)) <==>
              && (forall u | u in now.threads && root in now.threads[u].held ::
                    !now.threads[u].held[root].exclusive && (exclusive ==> !now.threads[u].held[root].backed))
              && (exclusive ==> forall u | u in now.threads && now.threads[u].phase.Checking? ::
                    now.threads[u].phase.root == root ==> now.threads[u].phase.check != After(true))
  {
    EveryStateIsInvariant(s, acts);
    hide Runs, Final, Initial;
    var now := Final(s, acts);
    var Waiting(root, exclusive, _) := Of(now, t).phase;
    forall u | u in now.threads
      ensures LockOf(now.threads[u], root) == ExclusiveLock <==> root in now.threads[u].held && now.threads[u].held[root].exclusive
      ensures LockOf(now.threads[u], root) == Unlocked <==>
                && !(root in now.threads[u].held && now.threads[u].held[root].backed)
                && !(&& now.threads[u].phase.Checking? && now.threads[u].phase.root == root
                     && now.threads[u].phase.check == After(true))
    {
      assert Targets(now.threads[u]);
    }
  }

  lemma {:induction false} PrefixRuns(s: State, acts: seq<Action>, k: nat)
    requires Runs(s, acts) && k <= |acts|
    ensures Runs(s, acts[..k])
  {
    if k == |acts| {
      assert acts[..k] == acts;
    } else {
      PrefixRuns(s, acts[..|acts| - 1], k);
      assert acts[..|acts| - 1][..k] == acts[..k];
    }
  }

  /** Safety: at every point of every interleaving, no root under a granted, file-backed shared hold
      carries a marker, and an exclusive lock excludes every other thread's lock. */
  lemma GuardsProtect(s: State, acts: seq<Action>, k: nat)
    requires Initial(s) && Runs(s, acts) && k <= |acts|
    ensures Runs(s, acts[..k])
    ensures Protected(Final(s, acts[..k])) && Exclusion(Final(s, acts[..k]))
  {
    PrefixRuns(s, acts, k);
    EveryStateIsInvariant(s, acts[..k]);
  }

  /** How many of `t`'s guards on `r` the actions from `from` on release. */
  function Releases(acts: seq<Action>, from: nat, t: Thread, r: Root): nat
    requires from <= |acts|
    decreases |acts|
  {
    if |acts| == from then 0
    else Releases(acts[..|acts| - 1], from, t, r) + if acts[|acts| - 1] == Drop(t, r) then 1 else 0
  }

  /** `now` still has the hold on `r` that `was` had, short of at most `released` guards. */
  predicate StillHeld(was: ThreadState, now: ThreadState, r: Root, released: nat)
    requires r in was.held
  {
    && r in now.held
    && now.held[r].exclusive == was.held[r].exclusive
    && now.held[r].backed == was.held[r].backed
    && now.held[r].clones + released >= was.held[r].clones
  }

  lemma StepKeepsHold(s: State, a: Action, t: Thread, r: Root)
    requires Invariant(s) && Enabled(s, a) && r in Of(s, t).held && a != Crash(t)
    requires a == Drop(t, r) ==> Of(s, t).held[r].clones > 1
    ensures StillHeld(Of(s, t), Of(Apply(s, a), t), r, if a == Drop(t, r) then 1 else 0)
  {
    assert Targets(Of(s, a.t));
  }

  lemma InvariantProtects(s: State)
    requires Invariant(s)
    ensures forall t, r | r in Of(s, t).held && !Of(s, t).held[r].exclusive && Of(s, t).held[r].backed :: r !in s.markers
  {}

  /** The protection lasts until the last clone drops: while fewer guards are released than the hold
      had, and its thread lives, the hold is still there as granted and its root still unmarked. */
  lemma {:induction false} ProtectionLasts(s: State, acts: seq<Action>, from: nat, t: Thread, r: Root)
    requires Initial(s) && Runs(s, acts) && from <= |acts| && Runs(s, acts[..from])
    requires r in Of(Final(s, acts[..from]), t).held
    requires Crash(t) !in acts[from..]
    requires Releases(acts, from, t, r) < Of(Final(s, acts[..from]), t).held[r].clones
    ensures var was := Of(Final(s, acts[..from]), t);
            && StillHeld(was, Of(Final(s, acts), t), r, Releases(acts, from, t, r))
            && (!was.held[r].exclusive && was.held[r].backed ==> r !in Final(s, acts).markers)
    decreases |acts|
  {
    EveryStateIsInvariant(s, acts);
    InvariantProtects(Final(s, acts));
    hide Apply, Enabled, Invariant, Protected;
    if |acts| == from {
      assert acts[..from] == acts;
    } else {
      var before, a := acts[..|acts| - 1], acts[|acts| - 1];
      assert before[..from] == acts[..from];
      assert acts[from..] == before[from..] + [a];
      ProtectionLasts(s, before, from, t, r);
      EveryStateIsInvariant(s, before);
      StepKeepsHold(Final(s, before), a, t, r);
    }
  }

  // ----- what the promise does not cover -----

  lemma {:induction false} Then(s: State, acts: seq<Action>, a: Action) returns (longer: seq<Action>)
    requires Runs(s, acts) && Enabled(Final(s, acts), a)
    ensures longer == acts + [a]
    ensures Runs(s, longer) && Final(s, longer) == Apply(Final(s, acts), a)
  {
    longer := acts + [a];
    assert longer[..|longer| - 1] == acts;
  }

  const START: State := State(map[], {}, 0)

  lemma ReaderHasChecked() returns (acts: seq<Action>)
    ensures Runs(START, acts) && Request(1, 0, false, false, [0]) in acts && Inspect(1, Absent) in acts
    ensures Final(START, acts) == State(map[1 := ThreadState(Opening(0, false, false), map[])], {}, 3)
  {
    acts := [];
    acts := Then(START, acts, Request(1, 0, false, false, [0]));
    acts := Then(START, acts, Inspect(1, Absent));
    acts := Then(START, acts, Conclude(1));
  }

  lemma Crashes(s: State, t: Thread)
    ensures Enabled(s, Crash(t)) && Apply(s, Crash(t)) == State(s.threads[t := ThreadState(Idle, map[])], s.markers, s.clock + 1)
  {}

  lemma AsksAndOpens(s: State, t: Thread, r: Root)
    requires Of(s, t) == ThreadState(Idle, map[])
    ensures Enabled(s, Request(t, r, true, false, [r]))
    ensures var asked := Apply(s, Request(t, r, true, false, [r]));
            && Enabled(asked, Open(t, true, [r]))
            && Apply(asked, Open(t, true, [r]))
               == State(s.threads[t := ThreadState(Waiting(r, true, s.clock + 1), map[])], s.markers, s.clock + 2)
  {
    var asked := Apply(s, Request(t, r, true, false, [r]));
    assert asked == State(s.threads[t := ThreadState(Opening(r, true, false), map[])], s.markers, s.clock + 1);
  }

  lemma IsGrantedAndMarks(s: State, t: Thread, r: Root, ticket: nat)
    requires Of(s, t) == ThreadState(Waiting(r, true, ticket), map[]) && Compatible(s, r, true)
    ensures Enabled(s, Grant(t, [r]))
    ensures var granted := Apply(s, Grant(t, [r]));
            && Enabled(granted, Publish(t, r))
            && Apply(granted, Publish(t, r))
               == State(s.threads[t := ThreadState(Idle, map[r := Hold(true, true, 1)])], s.markers + {r}, s.clock + 2)
  {
    var granted := Apply(s, Grant(t, [r]));
    assert granted == State(s.threads[t := ThreadState(Idle, map[r := Hold(true, true, 1)])], s.markers, s.clock + 1);
  }

  /** A thread that is alone on a root takes it exclusively and marks it. */
  lemma MarksAlone(s: State, acts: seq<Action>, t: Thread, r: Root) returns (longer: seq<Action>)
    requires Runs(s, acts) && Of(Final(s, acts), t) == ThreadState(Idle, map[]) && Compatible(Final(s, acts), r, true)
    ensures longer == acts + [Request(t, r, true, false, [r]), Open(t, true, [r]), Grant(t, [r]), Publish(t, r)]
    ensures Runs(s, longer)
    ensures var was, now := Final(s, acts), Final(s, longer);
            now == State(was.threads[t := ThreadState(Idle, map[r := Hold(true, true, 1)])], was.markers + {r}, was.clock + 4)
  {
    var was := Final(s, acts);
    AsksAndOpens(was, t, r);
    var queued := State(was.threads[t := ThreadState(Waiting(r, true, was.clock + 1), map[])], was.markers, was.clock + 2);
    assert Compatible(queued, r, true);
    IsGrantedAndMarks(queued, t, r, was.clock + 1);
    hide Apply, Enabled;
    longer := Then(s, acts, Request(t, r, true, false, [r]));
    longer := Then(s, longer, Open(t, true, [r]));
    longer := Then(s, longer, Grant(t, [r]));
    longer := Then(s, longer, Publish(t, r));
  }

  lemma MarkerAppears() returns (acts: seq<Action>)
    ensures Runs(START, acts) && Request(1, 0, false, false, [0]) in acts && Inspect(1, Absent) in acts
    ensures Of(Final(START, acts), 1) == ThreadState(Opening(0, false, false), map[])
    ensures Final(START, acts).threads.Keys == {1, 2} && Of(Final(START, acts), 2) == ThreadState(Idle, map[])
    ensures Final(START, acts).markers == {0}
  {
    acts := ReaderHasChecked();
    assert Compatible(Final(START, acts), 0, true);
    acts := MarksAlone(START, acts, 2, 0);
    hide Apply, Enabled;
    Crashes(Final(START, acts), 2);
    acts := Then(START, acts, Crash(2));
  }

  /** The check under the lock is what makes the promise hold: a reader whose first check passed can
      be granted the lock on a root that carries a marker by then. */
  lemma FirstCheckIsNotEnough() returns (acts: seq<Action>)
    ensures Runs(START, acts)
    ensures Request(1, 0, false, false, [0]) in acts && Inspect(1, Absent) in acts
    ensures LockOf(Of(Final(START, acts), 1), 0) == SharedLock && 0 in Final(START, acts).markers
  {
    acts := MarkerAppears();
    acts := Then(START, acts, Open(1, true, [0]));
    acts := Then(START, acts, Grant(1, [0]));
  }

  lemma ReaderIsUnbacked() returns (acts: seq<Action>)
    ensures Runs(START, acts)
    ensures Final(START, acts) == State(map[1 := ThreadState(Idle, map[0 := Hold(false, false, 1)])], {}, 6)
  {
    acts := ReaderHasChecked();
    acts := Then(START, acts, Open(1, false, [0]));
    acts := Then(START, acts, Inspect(1, Absent));
    acts := Then(START, acts, Conclude(1));
  }

  /** An account without a lock file gets a hold nothing excludes: its root can be marked. */
  lemma UnbackedHoldIsUnprotected() returns (acts: seq<Action>)
    ensures Runs(START, acts)
    ensures var s := Final(START, acts);
            0 in Of(s, 1).held && !Of(s, 1).held[0].exclusive && !Of(s, 1).held[0].backed && 0 in s.markers
  {
    acts := ReaderIsUnbacked();
    hide Apply, Enabled, Runs, Final;
    assert Compatible(Final(START, acts), 0, true);
    acts := MarksAlone(START, acts, 2, 0);
  }

  /** A shared request under the thread's own exclusive hold returns a clone of that hold, so its
      holder may still publish: the promise is about holds that are not exclusive. */
  lemma ExclusiveCloneIsUnprotected() returns (acts: seq<Action>)
    ensures Runs(START, acts)
    ensures var s := Final(START, acts);
            && Request(1, 0, false, false, [0]) in acts
            && 0 in Of(s, 1).held && Of(s, 1).held[0] == Hold(true, true, 2) && 0 in s.markers
  {
    acts := [];
    acts := Then(START, acts, Request(1, 0, true, false, [0]));
    acts := Then(START, acts, Open(1, true, [0]));
    acts := Then(START, acts, Grant(1, [0]));
    acts := Then(START, acts, Request(1, 0, false, false, [0]));
    acts := Then(START, acts, Inspect(1, Absent));
    acts := Then(START, acts, Conclude(1));
    acts := Then(START, acts, Publish(1, 0));
  }
}
