/** Acquiring root guards, as one thread's code among threads that interfere.

  `World` is the shared state: every change to it is one action of the interlock, recorded in order,
  so whatever a method does here is an interleaving that `RootInterlock` speaks about. Between any
  two steps of the acquiring thread the other threads act as the script says, for any script. */
module RootGuards {
  import opened RootInterlock
  import opened RootOrder

  datatype Outcome = Granted | Refused | Contended | Starved

  predicate StrictlyAscending(xs: seq<Root>) {
    forall i, j :: 0 <= i < j < |xs| ==> xs[i] < xs[j]
  }

  /** Adding to a sorted set of roots. */
  function Insert(xs: seq<Root>, r: Root): (ys: seq<Root>)
    requires StrictlyAscending(xs)
    ensures StrictlyAscending(ys)
    ensures forall q :: q in ys <==> q in xs || q == r
  {
    if xs == [] then [r]
    else if r < xs[0] then [r] + xs
    else if r == xs[0] then xs
    else
      var rest := Insert(xs[1..], r);
      assert forall k | 0 <= k < |rest| :: rest[k] in rest && xs[0] < rest[k];
      [xs[0]] + rest
  }

  function InsertAll(xs: seq<Root>, rs: seq<Root>): (ys: seq<Root>)
    requires StrictlyAscending(xs)
    ensures StrictlyAscending(ys)
    ensures forall q :: q in ys <==> q in xs || q in rs
    decreases |rs|
  {
    if rs == [] then xs else InsertAll(Insert(xs, rs[0]), rs[1..])
  }

  function OneMore(was: map<Root, Hold>, r: Root, got: set<Root>, unlockable: set<Root>): Hold {
    if r !in was then Hold(false, r !in unlockable, 1)
    else if r in got then Share(was[r])
    else was[r]
  }

  /** `now` is `was` with one more guard on each root of `got`. */
  ghost predicate Gained(was: map<Root, Hold>, now: map<Root, Hold>, got: set<Root>, unlockable: set<Root>) {
    && now.Keys == was.Keys + got
    && forall r | r in now :: now[r] == OneMore(was, r, got, unlockable)
  }

  lemma GainOne(was: map<Root, Hold>, now: map<Root, Hold>, got: set<Root>, r: Root, unlockable: set<Root>)
    requires Gained(was, now, got, unlockable) && r !in got
    ensures Gained(was, now[r := OneMore(now, r, {r}, unlockable)], got + {r}, unlockable)
  {}

  lemma FrontAscends(batch: seq<Root>, i: nat)
    requires StrictlyAscending(batch) && i <= |batch|
    ensures StrictlyAscending(batch[..i])
  {}

  lemma SetOfNone(was: map<Root, Hold>, unlockable: set<Root>)
    ensures Gained(was, was, SetOf([]), unlockable)
  {
    assert SetOf([]) == {};
  }

  lemma NextGain(was: map<Root, Hold>, now: map<Root, Hold>, batch: seq<Root>, i: nat, unlockable: set<Root>)
    requires StrictlyAscending(batch) && i < |batch| && Gained(was, now, SetOf(batch[..i]), unlockable)
    ensures Gained(was, now[batch[i] := OneMore(now, batch[i], {batch[i]}, unlockable)], SetOf(batch[..i + 1]), unlockable)
  {
    assert batch[i] !in batch[..i];
    GainOne(was, now, SetOf(batch[..i]), batch[i], unlockable);
    assert SetOf(batch[..i + 1]) == SetOf(batch[..i]) + {batch[i]};
  }

  lemma OneMoreOfLess(was: map<Root, Hold>, q: Root, r: Root, got: set<Root>, unlockable: set<Root>)
    requires q != r
    ensures OneMore(was, q, got, unlockable) == OneMore(was, q, got - {r}, unlockable)
  {}

  lemma FirstOfAscending(got: seq<Root>)
    requires got != [] && StrictlyAscending(got)
    ensures got[0] in SetOf(got) && SetOf(got[1..]) == SetOf(got) - {got[0]}
  {
    assert got[0] !in got[1..] && got == [got[0]] + got[1..];
  }

  lemma LoseFirst(was: map<Root, Hold>, now: map<Root, Hold>, got: seq<Root>, unlockable: set<Root>)
    requires got != [] && StrictlyAscending(got) && Gained(was, now, SetOf(got), unlockable)
    requires forall q | q in was :: was[q].clones >= 1
    ensures got[0] in now && Gained(was, Dropped(now, got[0]), SetOf(got[1..]), unlockable)
  {
    var r, all := got[0], SetOf(got);
    FirstOfAscending(got);
    hide StrictlyAscending, SetOf;
    assert r in all && r in now && now[r] == OneMore(was, r, all, unlockable);
    var less := Dropped(now, r);
    assert less.Keys == was.Keys + (all - {r});
    forall q | q in less ensures less[q] == OneMore(was, q, all - {r}, unlockable) {
      if q != r {
        OneMoreOfLess(was, q, r, all, unlockable);
      }
    }
  }

  /** A batch taken in ascending order asks only for roots above those it holds, or held before. */
  lemma BatchIsOrderly(s: State, t: Thread, was: map<Root, Hold>, batch: seq<Root>, i: nat, unlockable: set<Root>)
    requires StrictlyAscending(batch) && i < |batch| && OneBatch(was, batch)
    requires Gained(was, Of(s, t).held, SetOf(batch[..i]), unlockable)
    ensures Orderly(s, Request(t, batch[i], false, false, []))
  {}

  lemma NothingGained(was: map<Root, Hold>, now: map<Root, Hold>, unlockable: set<Root>)
    requires Gained(was, now, SetOf([]), unlockable)
    ensures now == was
  {
    assert SetOf([]) == {};
    assert now.Keys == was.Keys;
  }

  /** A root was seen without a marker at some moment since the log had `from` entries. */
  ghost predicate SeenUnmarked(start: State, acts: seq<Action>, from: nat, r: Root) {
    exists k | from <= k <= |acts| :: Runs(start, acts[..k]) && r !in Final(start, acts[..k]).markers
  }

  ghost predicate AllSeen(start: State, acts: seq<Action>, from: nat, rs: seq<Root>) {
    forall r | r in rs :: SeenUnmarked(start, acts, from, r)
  }

  lemma SeenNow(start: State, acts: seq<Action>, from: nat, r: Root)
    requires Runs(start, acts) && from <= |acts| && r !in Final(start, acts).markers
    ensures SeenUnmarked(start, acts, from, r)
  {
    assert acts[..|acts|] == acts;
  }

  lemma StillSeen(start: State, earlier: seq<Action>, acts: seq<Action>, from: nat, rs: seq<Root>)
    requires earlier <= acts
    ensures AllSeen(start, earlier, from, rs) ==> AllSeen(start, acts, from, rs)
  {
    forall r | r in rs && SeenUnmarked(start, earlier, from, r) ensures SeenUnmarked(start, acts, from, r) {
      var k :| from <= k <= |earlier| && Runs(start, earlier[..k]) && r !in Final(start, earlier[..k]).markers;
      assert acts[..k] == earlier[..k];
    }
  }

  lemma StillSeenFrom(start: State, acts: seq<Action>, from: nat, later: nat, rs: seq<Root>)
    requires from <= later
    ensures AllSeen(start, acts, later, rs) ==> AllSeen(start, acts, from, rs)
  {}

  lemma NoneToSee(start: State, acts: seq<Action>, from: nat)
    ensures AllSeen(start, acts, from, [])
  {}

  lemma OneMoreSeen(start: State, earlier: seq<Action>, acts: seq<Action>, from: nat, rs: seq<Root>, r: Root)
    requires earlier <= acts && from <= |earlier|
    ensures AllSeen(start, earlier, from, rs) && SeenUnmarked(start, acts, |earlier|, r) ==>
              AllSeen(start, acts, from, rs + [r])
  {
    StillSeen(start, earlier, acts, from, rs);
    StillSeenFrom(start, acts, from, |earlier|, [r]);
    if SeenUnmarked(start, acts, |earlier|, r) {
      assert r in [r] && AllSeen(start, acts, |earlier|, [r]);
    }
  }

  /** A root was seen with a marker at some moment since the log had `from` entries. */
  ghost predicate SeenMarked(start: State, acts: seq<Action>, from: nat, r: Root) {
    exists k | from <= k <= |acts| :: Runs(start, acts[..k]) && r in Final(start, acts[..k]).markers
  }

  /** Somebody else had the root's lock at some moment. */
  ghost predicate SeenTaken(start: State, acts: seq<Action>, from: nat, r: Root) {
    exists k | from <= k <= |acts| :: Runs(start, acts[..k]) && !Compatible(Final(start, acts[..k]), r, true)
  }

  /** One of some roots has a marker nobody can look at, or had a marker. */
  ghost predicate SomeBad(start: State, acts: seq<Action>, from: nat, unreadable: set<Root>, rs: seq<Root>) {
    exists r :: r in rs && (r in unreadable || SeenMarked(start, acts, from, r))
  }

  lemma MarkedNow(start: State, acts: seq<Action>, from: nat, r: Root)
    requires Runs(start, acts) && from <= |acts| && r in Final(start, acts).markers
    ensures SeenMarked(start, acts, from, r)
  {
    assert acts[..|acts|] == acts;
  }

  lemma TakenNow(start: State, acts: seq<Action>, from: nat, r: Root)
    requires Runs(start, acts) && from <= |acts| && !Compatible(Final(start, acts), r, true)
    ensures SeenTaken(start, acts, from, r)
  {
    assert acts[..|acts|] == acts;
  }

  lemma StillTaken(start: State, earlier: seq<Action>, acts: seq<Action>, from: nat, later: nat, r: Root)
    requires earlier <= acts && from <= later && SeenTaken(start, earlier, later, r)
    ensures SeenTaken(start, acts, from, r)
  {
    var k :| later <= k <= |earlier| && Runs(start, earlier[..k]) && !Compatible(Final(start, earlier[..k]), r, true);
    assert acts[..k] == earlier[..k];
  }

  lemma StillMarked(start: State, earlier: seq<Action>, acts: seq<Action>, from: nat, later: nat, r: Root)
    requires earlier <= acts && from <= later && SeenMarked(start, earlier, later, r)
    ensures SeenMarked(start, acts, from, r)
  {
    var k :| later <= k <= |earlier| && Runs(start, earlier[..k]) && r in Final(start, earlier[..k]).markers;
    assert acts[..k] == earlier[..k];
  }

  lemma StillBad(start: State, earlier: seq<Action>, acts: seq<Action>, from: nat, later: nat, unreadable: set<Root>,
                 rs: seq<Root>, all: seq<Root>)
    requires earlier <= acts && from <= later && forall r | r in rs :: r in all
    requires SomeBad(start, earlier, later, unreadable, rs)
    ensures SomeBad(start, acts, from, unreadable, all)
  {
    hide SeenMarked;
    var r :| r in rs && (r in unreadable || SeenMarked(start, earlier, later, r));
    if r !in unreadable {
      StillMarked(start, earlier, acts, from, later, r);
    }
  }

  predicate AnyOf(rs: seq<Root>, unreadable: set<Root>) { exists r :: r in rs && r in unreadable }

  lemma NoneOf(unreadable: set<Root>)
    ensures !AnyOf([], unreadable)
  {}

  lemma OneMoreOf(rs: seq<Root>, r: Root, unreadable: set<Root>)
    ensures AnyOf(rs + [r], unreadable) <==> AnyOf(rs, unreadable) || r in unreadable
  {
    assert r in rs + [r] && forall q | q in rs :: q in rs + [r];
  }

  lemma UnreadableIsBad(start: State, acts: seq<Action>, from: nat, unreadable: set<Root>, rs: seq<Root>)
    ensures AnyOf(rs, unreadable) ==> SomeBad(start, acts, from, unreadable, rs)
  {}

  lemma MarkedIsBad(start: State, acts: seq<Action>, from: nat, unreadable: set<Root>, rs: seq<Root>, r: Root)
    requires r in rs && SeenMarked(start, acts, from, r)
    ensures SomeBad(start, acts, from, unreadable, rs)
  {}

  /** Every owner of every root was seen without a marker. */
  ghost predicate EachSeen(start: State, acts: seq<Action>, from: nat, owners: Root -> seq<Root>, rs: seq<Root>) {
    forall r | r in rs :: AllSeen(start, acts, from, owners(r))
  }

  lemma EachStillSeen(start: State, earlier: seq<Action>, acts: seq<Action>, from: nat, owners: Root -> seq<Root>,
                      rs: seq<Root>)
    requires earlier <= acts && EachSeen(start, earlier, from, owners, rs)
    ensures EachSeen(start, acts, from, owners, rs)
  {
    hide AllSeen;
    forall r | r in rs ensures AllSeen(start, acts, from, owners(r)) {
      StillSeen(start, earlier, acts, from, owners(r));
    }
  }

  /** At some point thread `t` had all it has now, and from there on every owner was seen without a marker. */
  ghost predicate SeenAfterwards(start: State, acts: seq<Action>, from: nat, t: Thread, now: ThreadState,
                                 owners: Root -> seq<Root>, rs: seq<Root>) {
    exists k :: HadAll(start, acts, from, t, now, k) && EachSeen(start, acts, k, owners, rs)
  }

  ghost predicate HadAll(start: State, acts: seq<Action>, from: nat, t: Thread, now: ThreadState, k: nat) {
    from <= k <= |acts| && Runs(start, acts[..k]) && Of(Final(start, acts[..k]), t) == now
  }

  lemma SeenAfter(start: State, earlier: seq<Action>, acts: seq<Action>, from: nat, t: Thread, now: ThreadState,
                  owners: Root -> seq<Root>, rs: seq<Root>)
    requires earlier <= acts && from <= |earlier| && Runs(start, earlier) && Of(Final(start, earlier), t) == now
    requires EachSeen(start, acts, |earlier|, owners, rs)
    ensures SeenAfterwards(start, acts, from, t, now, owners, rs)
  {
    hide EachSeen, Runs, Final;
    assert acts[..|earlier|] == earlier;
    assert HadAll(start, acts, from, t, now, |earlier|);
  }

  lemma GainedAreHeld(was: map<Root, Hold>, now: map<Root, Hold>, got: seq<Root>, unlockable: set<Root>)
    requires Gained(was, now, SetOf(got), unlockable)
    ensures forall r | r in got :: r in now
  {
    assert forall r | r in got :: r in SetOf(got);
  }

  /** An owner of one of the roots has a marker nobody can look at, or had a marker. */
  ghost predicate BadAmong(start: State, acts: seq<Action>, from: nat, unreadable: set<Root>,
                           owners: Root -> seq<Root>, rs: seq<Root>) {
    exists r :: r in rs && SomeBad(start, acts, from, unreadable, owners(r))
  }

  lemma BadIsAmong(start: State, earlier: seq<Action>, acts: seq<Action>, from: nat, later: nat, unreadable: set<Root>,
                   owners: Root -> seq<Root>, rs: seq<Root>, r: Root)
    requires earlier <= acts && from <= later && r in rs && SomeBad(start, earlier, later, unreadable, owners(r))
    ensures BadAmong(start, acts, from, unreadable, owners, rs)
  {
    hide SomeBad;
    StillBad(start, earlier, acts, from, later, unreadable, owners(r), owners(r));
  }

  lemma StillAmong(start: State, earlier: seq<Action>, acts: seq<Action>, from: nat, later: nat, unreadable: set<Root>,
                   owners: Root -> seq<Root>, rs: seq<Root>)
    requires earlier <= acts && from <= later && BadAmong(start, earlier, later, unreadable, owners, rs)
    ensures BadAmong(start, acts, from, unreadable, owners, rs)
  {
    hide SomeBad;
    var r :| r in rs && SomeBad(start, earlier, later, unreadable, owners(r));
    BadIsAmong(start, earlier, acts, from, later, unreadable, owners, rs, r);
  }

  lemma ConcludeRefuses(s: State, t: Thread)
    requires Of(s, t).phase.Checking? && Of(s, t).phase.todo == [] && Of(s, t).phase.inaccessible
    ensures Enabled(s, Conclude(t)) && Of(Apply(s, Conclude(t)), t) == Of(s, t).(phase := Idle)
    ensures Orderly(s, Conclude(t))
  {}

  lemma HoldsAreCounted(start: State, acts: seq<Action>, t: Thread)
    requires Initial(start) && Runs(start, acts)
    ensures forall r | r in Of(Final(start, acts), t).held :: Of(Final(start, acts), t).held[r].clones >= 1
  {
    EveryStateIsInvariant(start, acts);
    assert Targets(Of(Final(start, acts), t));
  }

  lemma BackedAreUnmarked(start: State, acts: seq<Action>, t: Thread)
    requires Initial(start) && Runs(start, acts)
    ensures var s := Final(start, acts);
            forall r | r in Of(s, t).held && Of(s, t).held[r].backed && !Of(s, t).held[r].exclusive :: r !in s.markers
  {
    EveryStateIsInvariant(start, acts);
    InvariantProtects(Final(start, acts));
  }

  lemma GainedAreUnmarked(start: State, acts: seq<Action>, s: State, t: Thread, was: map<Root, Hold>, got: seq<Root>,
                          unlockable: set<Root>)
    requires Initial(start) && Runs(start, acts) && s == Final(start, acts)
    requires Gained(was, Of(s, t).held, SetOf(got), unlockable)
    ensures forall r | r in got :: r in Of(s, t).held
    ensures forall r | r in got && Of(s, t).held[r].backed && !Of(s, t).held[r].exclusive :: r !in s.markers
  {
    hide *;
    GainedAreHeld(was, Of(s, t).held, got, unlockable);
    BackedAreUnmarked(start, acts, t);
  }

  /** The thread holds nothing, or holds every root of the batch already. */
  ghost predicate OneBatch(held: map<Root, Hold>, batch: seq<Root>) {
    held == map[] || forall r | r in batch :: r in held
  }

  function SetOf(xs: seq<Root>): set<Root> { set r | r in xs }

  class World {
    const start: State
    /** The roots whose markers decide for a root: itself, its project and the project's basin. */
    const owners: Root -> seq<Root>
    /** Every root an operation on a root reads or writes under. */
    const inputs: Root -> seq<Root>
    const unreadable: set<Root>
    const unlockable: set<Root>
    var state: State
    var script: seq<seq<Action>>
    ghost var acts: seq<Action>

    ghost predicate Valid()
      reads this
    {
      && Initial(start) && Runs(start, acts) && state == Final(start, acts)
      && (forall r :: r in owners(r)) && (forall r :: r in inputs(r))
    }

    /** Thread `t` has asked for roots in canonical order throughout. */
    ghost predicate OrderlyBy(t: Thread)
      reads this
    {
      forall k | 0 <= k < |acts| && acts[k].t == t ::
        Runs(start, acts[..k]) && Orderly(Final(start, acts[..k]), acts[k])
    }

    constructor (s: State, owners: Root -> seq<Root>, inputs: Root -> seq<Root>,
                 unreadable: set<Root>, unlockable: set<Root>, script: seq<seq<Action>>)
      requires Initial(s)
      requires (forall r :: r in owners(r)) && (forall r :: r in inputs(r))
      ensures Valid() && state == s && acts == []
      ensures this.owners == owners && this.inputs == inputs
    {
      start, state, acts, this.script := s, s, [], script;
      this.owners, this.inputs, this.unreadable, this.unlockable := owners, inputs, unreadable, unlockable;
    }

    method Do(a: Action)
      requires Valid() && Enabled(state, a)
      modifies this`state, this`acts
      ensures Valid() && acts == old(acts) + [a] && state == Apply(old(state), a)
      ensures forall t | old(OrderlyBy(t)) && (a.t == t ==> Orderly(old(state), a)) :: OrderlyBy(t)
    {
      state := Apply(state, a);
      acts := Then(start, acts, a);
      assert acts[..|acts| - 1] == old(acts);
      forall t, k | old(OrderlyBy(t)) && (a.t == t ==> Orderly(old(state), a))
                    && 0 <= k < |acts| && acts[k].t == t
        ensures Runs(start, acts[..k]) && Orderly(Final(start, acts[..k]), acts[k])
      {
        if k < |old(acts)| {
          assert acts[..k] == old(acts)[..k];
        }
      }
    }

    /** Other threads run for a while. */
    method Interfere(t: Thread)
      requires Valid()
      modifies this`state, this`acts, this`script
      ensures Valid() && old(acts) <= acts && Of(state, t) == Of(old(state), t)
      ensures old(script) != [] ==> |script| == |old(script)| - 1
      ensures old(script) == [] ==> script == []
      ensures old(OrderlyBy(t)) ==> OrderlyBy(t)
    {
      if script != [] {
        var burst := script[0];
        script := script[1..];
        ghost var left := script;
        for i := 0 to |burst|
          invariant script == left
          invariant Valid() && old(acts) <= acts && Of(state, t) == Of(old(state), t)
          invariant old(OrderlyBy(t)) ==> OrderlyBy(t)
        {
          if burst[i].t != t && Enabled(state, burst[i]) {
            Do(burst[i]);
          }
        }
      }
    }

    /** A look at the next owner's marker. */
    method InspectNext(t: Thread) returns (found: bool)
      requires Valid() && Of(state, t).phase.Checking? && Of(state, t).phase.todo != []
      modifies this`state, this`acts, this`script
      ensures Valid() && old(acts) <= acts && |script| <= |old(script)|
      ensures old(OrderlyBy(t)) ==> OrderlyBy(t)
      ensures var was := old(Of(state, t));
              && (found ==>
                    && Of(state, t) == was.(phase := Idle)
                    && SeenMarked(start, acts, |old(acts)|, was.phase.todo[0]))
              && (!found ==>
                    && Of(state, t).phase.Checking?
                    && Of(state, t) == was.(phase := was.phase.(todo := was.phase.todo[1..],
                                                                inaccessible := Of(state, t).phase.inaccessible))
                    && (Of(state, t).phase.inaccessible <==> was.phase.inaccessible || was.phase.todo[0] in unreadable)
                    && (!Of(state, t).phase.inaccessible ==> SeenUnmarked(start, acts, |old(acts)|, was.phase.todo[0])))
    {
      Interfere(t);
      var owner := Of(state, t).phase.todo[0];
      found := owner !in unreadable && owner in state.markers;
      if owner in unreadable {
        Do(Inspect(t, Inaccessible));
      } else {
        ghost var earlier := acts;
        if found {
          MarkedNow(start, acts, |old(acts)|, owner);
        } else {
          SeenNow(start, acts, |old(acts)|, owner);
        }
        Do(Inspect(t, if found then Present else Absent));
        if found {
          StillMarked(start, earlier, acts, |old(acts)|, |old(acts)|, owner);
        } else {
          StillSeen(start, earlier, acts, |old(acts)|, [owner]);
          assert owner in [owner];
        }
      }
    }

    /** The check of every owner's marker. A marker found refuses at once; one that cannot be looked
        at refuses after the rest. */
    method CheckPending(t: Thread) returns (ok: bool)
      requires Valid() && Of(state, t).phase.Checking?
      modifies this`state, this`acts, this`script
      ensures Valid() && old(acts) <= acts && |script| <= |old(script)|
      ensures old(OrderlyBy(t)) ==> OrderlyBy(t)
      ensures !ok ==> Of(state, t) == Of(old(state), t).(phase := Idle)
      ensures ok ==> Of(state, t) == Of(old(state), t).(phase := Of(old(state), t).phase.(todo := []))
                     && !Of(old(state), t).phase.inaccessible
                     && AllSeen(start, acts, |old(acts)|, Of(old(state), t).phase.todo)
      ensures !ok ==> Of(old(state), t).phase.inaccessible
                      || SomeBad(start, acts, |old(acts)|, unreadable, Of(old(state), t).phase.todo)
    {
      hide Apply, Enabled, Runs, Final, AllSeen, SeenUnmarked, SeenMarked, SomeBad, AnyOf;
      NoneOf(unreadable);
      ghost var was := Of(state, t);
      ghost var done: seq<Root> := [];
      NoneToSee(start, acts, |old(acts)|);
      while Of(state, t).phase.Checking? && Of(state, t).phase.todo != []
        invariant Valid() && old(acts) <= acts && |script| <= |old(script)|
        invariant old(OrderlyBy(t)) ==> OrderlyBy(t)
        invariant Of(state, t).phase.Checking?
        invariant Of(state, t) == was.(phase := was.phase.(todo := Of(state, t).phase.todo,
                                                           inaccessible := Of(state, t).phase.inaccessible))
        invariant Of(state, t).phase.inaccessible <==> was.phase.inaccessible || AnyOf(done, unreadable)
        invariant was.phase.todo == done + Of(state, t).phase.todo
        invariant !Of(state, t).phase.inaccessible ==> AllSeen(start, acts, |old(acts)|, done)
        decreases |Of(state, t).phase.todo|
      {
        ghost var earlier, owner := acts, Of(state, t).phase.todo[0];
        var found := InspectNext(t);
        if found {
          StillMarked(start, acts, acts, |old(acts)|, |earlier|, owner);
          MarkedIsBad(start, acts, |old(acts)|, unreadable, was.phase.todo, owner);
          return false;
        }
        OneMoreSeen(start, earlier, acts, |old(acts)|, done, owner);
        OneMoreOf(done, owner, unreadable);
        done := done + [owner];
      }
      ghost var earlier := acts;
      assert was.phase.todo == done;
      ok := FinishCheck(t);
      StillSeen(start, earlier, acts, |old(acts)|, done);
      UnreadableIsBad(start, acts, |old(acts)|, unreadable, done);
    }

    /** Every marker has been looked at; an unreadable one among them refuses now. */
    method FinishCheck(t: Thread) returns (ok: bool)
      requires Valid() && Of(state, t).phase.Checking? && Of(state, t).phase.todo == []
      modifies this`state, this`acts, this`script
      ensures Valid() && old(acts) <= acts && |script| <= |old(script)|
      ensures old(OrderlyBy(t)) ==> OrderlyBy(t)
      ensures ok <==> !old(Of(state, t)).phase.inaccessible
      ensures Of(state, t) == if ok then old(Of(state, t)) else old(Of(state, t)).(phase := Idle)
    {
      hide Apply, Enabled, Runs, Final;
      Interfere(t);
      ok := !Of(state, t).phase.inaccessible;
      if !ok {
        ConcludeRefuses(state, t);
        Do(Conclude(t));
      }
    }

    /** The acquisition begins. */
    method Ask(t: Thread, root: Root, exclusive: bool, tryOnly: bool)
      requires Valid() && Of(state, t).phase.Idle? && (tryOnly ==> exclusive)
      modifies this`state, this`acts, this`script
      ensures Valid() && old(acts) <= acts && |script| <= |old(script)|
      ensures old(OrderlyBy(t)) && old(Orderly(state, Request(t, root, exclusive, tryOnly, []))) ==> OrderlyBy(t)
      ensures Enabled(old(state), Request(t, root, exclusive, tryOnly, owners(root)))
      ensures Of(state, t) == Local(old(state), Request(t, root, exclusive, tryOnly, owners(root)))
    {
      Interfere(t);
      Do(Request(t, root, exclusive, tryOnly, owners(root)));
    }

    /** The check before the lock, for a shared request. */
    method CheckBefore(t: Thread, root: Root) returns (ok: bool)
      requires Valid() && Of(state, t).phase == Checking(root, Before, owners(root), false)
      modifies this`state, this`acts, this`script
      ensures Valid() && old(acts) <= acts && |script| <= |old(script)|
      ensures old(OrderlyBy(t)) ==> OrderlyBy(t)
      ensures Of(state, t) == old(Of(state, t)).(phase := if ok then Opening(root, false, false) else Idle)
      ensures !ok ==> SomeBad(start, acts, |old(acts)|, unreadable, owners(root))
    {
      ok := CheckPending(t);
      if ok {
        Do(Conclude(t));
      }
    }

    /** A root this thread already holds is reused: an upgrade is refused, a shared request still
        answers to the markers. */
    method Reacquire(t: Thread, root: Root, exclusive: bool, tryOnly: bool) returns (outcome: Outcome)
      requires Valid() && Of(state, t).phase.Idle? && (tryOnly ==> exclusive) && root in Of(state, t).held
      modifies this`state, this`acts, this`script
      ensures Valid() && old(acts) <= acts && |script| <= |old(script)|
      ensures old(OrderlyBy(t)) ==> OrderlyBy(t)
      ensures !outcome.Starved? && Of(state, t).phase.Idle?
      ensures outcome.Granted? ==>
                var was := old(Of(state, t)).held;
                Of(state, t).held == was[root := Share(was[root])] && (exclusive ==> was[root].exclusive)
      ensures !outcome.Granted? ==> Of(state, t).held == old(Of(state, t)).held
      ensures exclusive ==>
                outcome == if old(Of(state, t)).held[root].exclusive then Granted
                           else if tryOnly then Contended else Refused
      ensures outcome.Contended? ==> tryOnly
      ensures !exclusive && outcome.Granted? ==> AllSeen(start, acts, |old(acts)|, owners(root))
      ensures !exclusive && !outcome.Granted? ==> SomeBad(start, acts, |old(acts)|, unreadable, owners(root))
    {
      var was := Of(state, t).held[root];
      Ask(t, root, exclusive, tryOnly);
      if exclusive {
        return if was.exclusive then Granted else if tryOnly then Contended else Refused;
      }
      ghost var asked := acts;
      var ok := CheckPending(t);
      if !ok {
        StillBad(start, acts, acts, |old(acts)|, |asked|, unreadable, owners(root), owners(root));
        return Refused;
      }
      ghost var earlier := acts;
      Do(Conclude(t));
      StillSeen(start, earlier, acts, |asked|, owners(root));
      StillSeenFrom(start, acts, |old(acts)|, |asked|, owners(root));
      return Granted;
    }

    /** The check under the lock, and the hold's entry into the thread's table. */
    method Settle(t: Thread, root: Root, backed: bool) returns (ok: bool)
      requires Valid()
      requires Of(state, t).phase == Checking(root, After(backed), owners(root), false)
      modifies this`state, this`acts, this`script
      ensures Valid() && old(acts) <= acts && |script| <= |old(script)|
      ensures old(OrderlyBy(t)) ==> OrderlyBy(t)
      ensures Of(state, t).phase.Idle?
      ensures Of(state, t).held ==
                var was := old(Of(state, t)).held; if ok then was[root := Hold(false, backed, 1)] else was
      ensures ok ==> AllSeen(start, acts, |old(acts)|, owners(root))
      ensures !ok ==> SomeBad(start, acts, |old(acts)|, unreadable, owners(root))
    {
      ok := CheckPending(t);
      if ok {
        ghost var earlier := acts;
        Do(Conclude(t));
        StillSeen(start, earlier, acts, |old(acts)|, owners(root));
      }
    }

    /** Wait in the lock's queue until the lock is granted, or until the script runs out. */
    method AwaitLock(t: Thread) returns (granted: bool)
      requires Valid() && Of(state, t).phase.Waiting?
      modifies this`state, this`acts, this`script
      ensures Valid() && old(acts) <= acts && |script| <= |old(script)|
      ensures old(OrderlyBy(t)) ==> OrderlyBy(t)
      ensures !granted ==> Of(state, t) == old(Of(state, t)) && script == []
                           && !Compatible(state, old(Of(state, t)).phase.root, old(Of(state, t)).phase.exclusive)
      ensures granted ==>
                var Waiting(root, exclusive, _) := old(Of(state, t)).phase;
                var was := old(Of(state, t)).held;
                Of(state, t) == if exclusive then ThreadState(Idle, was[root := Hold(true, true, 1)])
                                else ThreadState(Checking(root, After(true), owners(root), false), was)
    {
      var Waiting(root, exclusive, _) := Of(state, t).phase;
      while !Compatible(state, root, exclusive)
        invariant Valid() && old(acts) <= acts && |script| <= |old(script)|
        invariant old(OrderlyBy(t)) ==> OrderlyBy(t)
        invariant Of(state, t) == old(Of(state, t))
        decreases |script|
      {
        if script == [] {
          return false;
        }
        Interfere(t);
      }
      Do(Grant(t, owners(root)));
      granted := true;
    }

    /** Open the lock file, or fail to: only a shared request goes on without one. */
    method OpenFile(t: Thread)
      requires Valid() && Of(state, t).phase.Opening? && !Of(state, t).phase.tryOnly
      modifies this`state, this`acts, this`script
      ensures Valid() && old(acts) <= acts && |script| <= |old(script)|
      ensures old(OrderlyBy(t)) ==> OrderlyBy(t)
      ensures Of(state, t).held == old(Of(state, t)).held
      ensures var Opening(root, exclusive, _) := old(Of(state, t)).phase;
              if root in unlockable then
                Of(state, t).phase == if exclusive then Idle
                                      else Checking(root, After(false), owners(root), false)
              else
                && Of(state, t).phase.Waiting?
                && Of(state, t).phase.root == root && Of(state, t).phase.exclusive == exclusive
    {
      Interfere(t);
      var root := Of(state, t).phase.root;
      Do(Open(t, root !in unlockable, owners(root)));
    }

    /** The nonblocking probe for an exclusive lock. */
    method Probe(t: Thread) returns (outcome: Outcome)
      requires Valid() && Of(state, t).phase.Opening?
      requires Of(state, t).phase.tryOnly && Of(state, t).phase.exclusive
      requires Of(state, t).phase.root !in Of(state, t).held
      modifies this`state, this`acts, this`script
      ensures Valid() && old(acts) <= acts && |script| <= |old(script)|
      ensures old(OrderlyBy(t)) ==> OrderlyBy(t)
      ensures !outcome.Starved? && Of(state, t).phase.Idle?
      ensures var root, was := old(Of(state, t)).phase.root, old(Of(state, t)).held;
              && Of(state, t).held == (if outcome.Granted? then was[root := Hold(true, true, 1)] else was)
              && (outcome.Refused? <==> root in unlockable)
              && (outcome.Contended? ==> SeenTaken(start, acts, |old(acts)|, root))
    {
      Interfere(t);
      var root := Of(state, t).phase.root;
      ghost var earlier := acts;
      if !Compatible(state, root, true) {
        TakenNow(start, acts, |old(acts)|, root);
      }
      Do(Open(t, root !in unlockable, owners(root)));
      if SeenTaken(start, earlier, |old(acts)|, root) {
        StillTaken(start, earlier, acts, |old(acts)|, |old(acts)|, root);
      }
      outcome :=
        if root in unlockable then Refused else if root in Of(state, t).held then Granted else Contended;
    }

    /** Open the lock file and wait for the lock. An account that cannot open it gets an unbacked
        shared hold, and never an exclusive one. */
    method OpenAndLock(t: Thread) returns (outcome: Outcome)
      requires Valid() && Of(state, t).phase.Opening? && !Of(state, t).phase.tryOnly
      modifies this`state, this`acts, this`script
      ensures Valid() && old(acts) <= acts && |script| <= |old(script)|
      ensures old(OrderlyBy(t)) ==> OrderlyBy(t)
      ensures outcome.Starved? <==> Of(state, t).phase.Waiting?
      ensures !outcome.Starved? ==> Of(state, t).phase.Idle?
      ensures var root, exclusive, was := old(Of(state, t)).phase.root, old(Of(state, t)).phase.exclusive,
                                          old(Of(state, t)).held;
              && Of(state, t).held == (if outcome.Granted? then was[root := Hold(exclusive, root !in unlockable, 1)]
                                       else was)
              && (outcome.Granted? && exclusive ==> root !in unlockable)
              && (outcome.Granted? && !exclusive ==> AllSeen(start, acts, |old(acts)|, owners(root)))
              && (outcome.Refused? ==>
                    if exclusive then root in unlockable
                    else SomeBad(start, acts, |old(acts)|, unreadable, owners(root)))
              && (outcome.Starved? ==> script == [] && !Compatible(state, root, exclusive))
      ensures !outcome.Contended?
    {
      var Opening(root, exclusive, _) := Of(state, t).phase;
      OpenFile(t);
      if root !in unlockable {
        var granted := AwaitLock(t);
        if !granted {
          return Starved;
        }
      }
      if exclusive {
        return if root in unlockable then Refused else Granted;
      }
      ghost var asked := acts;
      var ok := Settle(t, root, root !in unlockable);
      if ok {
        StillSeenFrom(start, acts, |old(acts)|, |asked|, owners(root));
      } else {
        StillBad(start, acts, acts, |old(acts)|, |asked|, unreadable, owners(root), owners(root));
      }
      outcome := if ok then Granted else Refused;
    }

    /** Acquire a guard on `root`, re-entrantly. Whatever the outcome, the call is an interleaving of
        the interlock's actions, and unless it is granted the thread holds just what it held. A shared
        request is refused only for an owner that is marked, or unreadable, and an exclusive one only for an
        upgrade or a root that cannot be locked. */
    method Acquire(t: Thread, root: Root, exclusive: bool, tryOnly: bool) returns (outcome: Outcome)
      requires Valid() && Of(state, t).phase.Idle? && (tryOnly ==> exclusive)
      modifies this`state, this`acts, this`script
      ensures Valid() && old(acts) <= acts && |script| <= |old(script)|
      ensures old(OrderlyBy(t)) && old(Orderly(state, Request(t, root, exclusive, tryOnly, []))) ==> OrderlyBy(t)
      ensures outcome.Starved? <==> Of(state, t).phase.Waiting?
      ensures outcome.Starved? ==> !tryOnly && root !in old(Of(state, t)).held
      ensures !outcome.Starved? ==> Of(state, t).phase.Idle?
      ensures var was, now := old(Of(state, t)).held, Of(state, t).held;
              && (!outcome.Granted? ==> now == was)
              && (outcome.Granted? && root in was ==>
                    now == was[root := Share(was[root])] && (exclusive ==> was[root].exclusive))
              && (outcome.Granted? && root !in was ==>
                    && now == was[root := Hold(exclusive, root !in unlockable, 1)]
                    && (exclusive ==> root !in unlockable))
      ensures outcome.Contended? ==>
                tryOnly && (root in old(Of(state, t)).held || SeenTaken(start, acts, |old(acts)|, root))
      ensures !exclusive && outcome.Granted? ==> AllSeen(start, acts, |old(acts)|, owners(root))
      ensures !exclusive && outcome.Refused? ==> SomeBad(start, acts, |old(acts)|, unreadable, owners(root))
      ensures exclusive && outcome.Refused? ==>
                if root in old(Of(state, t)).held then !tryOnly && !old(Of(state, t)).held[root].exclusive
                else root in unlockable
      ensures outcome.Starved? ==> script == [] && !Compatible(state, root, exclusive)
    {
      hide Apply, Enabled, Runs, Final, Orderly, SeenTaken, SeenMarked, SeenUnmarked, SomeBad, AllSeen, Compatible;
      if root in Of(state, t).held {
        outcome := Reacquire(t, root, exclusive, tryOnly);
        return;
      }
      Ask(t, root, exclusive, tryOnly);
      if !exclusive {
        ghost var asked := acts;
        var ok := CheckBefore(t, root);
        if !ok {
          StillBad(start, acts, acts, |old(acts)|, |asked|, unreadable, owners(root), owners(root));
          return Refused;
        }
      }
      ghost var opening := acts;
      if tryOnly {
        outcome := Probe(t);
        if outcome.Contended? {
          StillTaken(start, acts, acts, |old(acts)|, |opening|, root);
        }
      } else {
        outcome := OpenAndLock(t);
        if !exclusive && outcome.Granted? {
          StillSeenFrom(start, acts, |old(acts)|, |opening|, owners(root));
        } else if !exclusive && outcome.Refused? {
          StillBad(start, acts, acts, |old(acts)|, |opening|, unreadable, owners(root), owners(root));
        }
      }
    }

    /** A look at every owner's marker with no lock in hand. */
    method LookAt(t: Thread, root: Root) returns (ok: bool)
      requires Valid()
      modifies this`state, this`acts, this`script
      ensures Valid() && old(acts) <= acts && Of(state, t) == Of(old(state), t)
      ensures old(OrderlyBy(t)) ==> OrderlyBy(t)
      ensures ok ==> AllSeen(start, acts, |old(acts)|, owners(root))
      ensures !ok ==> SomeBad(start, acts, |old(acts)|, unreadable, owners(root))
    {
      var todo := owners(root);
      ok := true;
      for i := 0 to |todo|
        invariant !ok ==> exists r :: r in todo && r in unreadable
        invariant Valid() && old(acts) <= acts && Of(state, t) == Of(old(state), t)
        invariant old(OrderlyBy(t)) ==> OrderlyBy(t)
        invariant ok ==> AllSeen(start, acts, |old(acts)|, todo[..i])
      {
        ghost var earlier := acts;
        Interfere(t);
        StillSeen(start, earlier, acts, |old(acts)|, todo[..i]);
        if todo[i] in unreadable {
          ok := false;
        } else if todo[i] in state.markers {
          MarkedNow(start, acts, |old(acts)|, todo[i]);
          return false;
        } else {
          SeenNow(start, acts, |old(acts)|, todo[i]);
          assert todo[..i + 1] == todo[..i] + [todo[i]];
        }
      }
      assert todo[..|todo|] == todo;
    }

    /** One guard goes out of scope. */
    method ReleaseOne(t: Thread, r: Root)
      requires Valid() && Of(state, t).phase.Idle? && r in Of(state, t).held
      modifies this`state, this`acts
      ensures Valid() && old(acts) <= acts && (old(OrderlyBy(t)) ==> OrderlyBy(t))
      ensures Of(state, t) == ThreadState(Idle, Dropped(old(Of(state, t)).held, r))
    {
      Do(Drop(t, r));
    }

    /** The guards of a batch go out of scope. */
    method Release(t: Thread, got: seq<Root>, ghost was: map<Root, Hold>)
      requires Valid() && Of(state, t).phase.Idle? && StrictlyAscending(got)
      requires Gained(was, Of(state, t).held, SetOf(got), unlockable)
      requires forall r | r in was :: was[r].clones >= 1
      modifies this`state, this`acts
      ensures Valid() && old(acts) <= acts && (old(OrderlyBy(t)) ==> OrderlyBy(t))
      ensures Of(state, t) == ThreadState(Idle, was)
    {
      hide Apply, Enabled, Runs, Final, Orderly;
      for i := 0 to |got|
        invariant Valid() && old(acts) <= acts && (old(OrderlyBy(t)) ==> OrderlyBy(t))
        invariant Of(state, t).phase.Idle?
        invariant Gained(was, Of(state, t).held, SetOf(got[i..]), unlockable)
      {
        LoseFirst(was, Of(state, t).held, got[i..], unlockable);
        assert got[i..][1..] == got[i + 1..];
        ReleaseOne(t, got[i]);
      }
      NothingGained(was, Of(state, t).held, unlockable);
    }

    /** `r` is in the batch on account of a requested root, all of whose inputs are in it too. */
    ghost predicate WantedBy(roots: seq<Root>, complete: seq<Root>, r: Root) {
      exists q :: q in roots && Covers(q, r, complete)
    }

    ghost predicate Covers(q: Root, r: Root, complete: seq<Root>) {
      r in inputs(q) && forall p :: p in inputs(q) ==> p in complete
    }

    /** The complete set of roots a batch needs, in order: every requested root, and the inputs of
        each requested root that was not yet in the set. */
    method Complete(roots: seq<Root>) returns (complete: seq<Root>)
      requires Valid()
      ensures StrictlyAscending(complete)
      ensures forall r | r in roots :: r in complete
      ensures forall r | r in complete :: WantedBy(roots, complete, r)
    {
      complete := [];
      for i := 0 to |roots|
        invariant StrictlyAscending(complete)
        invariant forall r | r in roots[..i] :: r in complete
        invariant forall r | r in complete :: WantedBy(roots[..i], complete, r)
      {
        ghost var before := complete;
        if roots[i] !in complete {
          complete := InsertAll(complete, inputs(roots[i]));
        }
        forall r | r in complete ensures WantedBy(roots[..i + 1], complete, r) {
          if r in before {
            var q :| q in roots[..i] && Covers(q, r, before);
            assert q in roots[..i + 1] && Covers(q, r, complete);
          } else {
            assert roots[i] in roots[..i + 1] && Covers(roots[i], r, complete);
          }
        }
      }
      assert roots[..|roots|] == roots;
    }

    method LookAtAll(t: Thread, roots: seq<Root>) returns (ok: bool)
      requires Valid()
      modifies this`state, this`acts, this`script
      ensures Valid() && old(acts) <= acts && Of(state, t) == Of(old(state), t)
      ensures old(OrderlyBy(t)) ==> OrderlyBy(t)
      ensures ok ==> EachSeen(start, acts, |old(acts)|, owners, roots)
      ensures !ok ==> BadAmong(start, acts, |old(acts)|, unreadable, owners, roots)
    {
      for i := 0 to |roots|
        invariant Valid() && old(acts) <= acts && Of(state, t) == Of(old(state), t)
        invariant old(OrderlyBy(t)) ==> OrderlyBy(t)
        invariant forall r | r in roots[..i] :: AllSeen(start, acts, |old(acts)|, owners(r))
      {
        ghost var earlier := acts;
        ok := LookAt(t, roots[i]);
        if !ok {
          BadIsAmong(start, acts, acts, |old(acts)|, |earlier|, unreadable, owners, roots, roots[i]);
          return;
        }
        forall r | r in roots[..i + 1] ensures AllSeen(start, acts, |old(acts)|, owners(r)) {
          StillSeen(start, earlier, acts, |old(acts)|, owners(r));
          StillSeenFrom(start, acts, |old(acts)|, |earlier|, owners(r));
        }
      }
      ok := true;
    }

    /** The guards of a batch, in order; the ones taken are released when one is refused. */
    method AcquireAll(t: Thread, batch: seq<Root>) returns (outcome: Outcome)
      requires Valid() && Of(state, t).phase.Idle? && StrictlyAscending(batch)
      modifies this`state, this`acts, this`script
      ensures Valid() && old(acts) <= acts
      ensures outcome.Granted? ==>
                && Of(state, t).phase.Idle?
                && Gained(old(Of(state, t)).held, Of(state, t).held, SetOf(batch), unlockable)
      ensures outcome.Refused? ==> Of(state, t) == old(Of(state, t))
      ensures outcome.Refused? ==> BadAmong(start, acts, |old(acts)|, unreadable, owners, batch)
      ensures outcome.Starved? ==> script == []
      ensures !outcome.Contended?
      ensures old(OrderlyBy(t)) && OneBatch(old(Of(state, t)).held, batch) ==> OrderlyBy(t)
    {
      hide Apply, Enabled, Runs, Final, Orderly, SomeBad, BadAmong, SeenMarked, SeenTaken, AllSeen, Compatible;
      hide Gained, OneBatch, StrictlyAscending;
      ghost var was := Of(state, t).held;
      SetOfNone(was, unlockable);
      ghost var orderly := OrderlyBy(t) && OneBatch(was, batch);
      HoldsAreCounted(start, acts, t);
      for i := 0 to |batch|
        invariant Valid() && old(acts) <= acts && Of(state, t).phase.Idle?
        invariant Gained(was, Of(state, t).held, SetOf(batch[..i]), unlockable)
        invariant orderly ==> OrderlyBy(t)
      {
        NextGain(was, Of(state, t).held, batch, i, unlockable);
        FrontAscends(batch, i);
        if OneBatch(was, batch) {
          BatchIsOrderly(state, t, was, batch, i, unlockable);
        }
        ghost var earlier := acts;
        outcome := Acquire(t, batch[i], false, false);
        if outcome.Refused? {
          BadIsAmong(start, acts, acts, |old(acts)|, |earlier|, unreadable, owners, batch, batch[i]);
          ghost var refused := acts;
          Release(t, batch[..i], was);
          StillAmong(start, refused, acts, |old(acts)|, |old(acts)|, unreadable, owners, batch);
        }
        if !outcome.Granted? {
          return;
        }
      }
      assert batch[..|batch|] == batch;
      outcome := Granted;
    }

    /** One guard on every root of a batch, acquired in canonical order with the markers looked at
        before the first and after the last. A refusal anywhere leaves the thread holding what it
        held. A thread that holds nothing, or every root of the batch already, stays orderly. */
    method SharedRoots(t: Thread, roots: seq<Root>) returns (outcome: Outcome, complete: seq<Root>)
      requires Valid() && Of(state, t).phase.Idle?
      modifies this`state, this`acts, this`script
      ensures Valid() && old(acts) <= acts
      ensures StrictlyAscending(complete) && (forall r | r in roots :: r in complete)
      ensures forall r | r in complete :: WantedBy(roots, complete, r)
      ensures outcome.Granted? ==>
                && Of(state, t).phase.Idle?
                && Gained(old(Of(state, t)).held, Of(state, t).held, SetOf(complete), unlockable)
                && SeenAfterwards(start, acts, |old(acts)|, t, Of(state, t), owners, complete)
                && (forall r | r in complete && Of(state, t).held[r].backed && !Of(state, t).held[r].exclusive ::
                      r !in state.markers)
      ensures outcome.Refused? ==> Of(state, t) == old(Of(state, t))
      ensures outcome.Refused? ==> BadAmong(start, acts, |old(acts)|, unreadable, owners, complete)
      ensures !outcome.Refused? ==> EachSeen(start, acts, |old(acts)|, owners, complete)
      ensures outcome.Starved? ==> script == []
      ensures !outcome.Contended?
      ensures old(OrderlyBy(t)) && OneBatch(old(Of(state, t)).held, complete) ==> OrderlyBy(t)
    {
      hide Apply, Enabled, Runs, Final, Orderly, SomeBad, BadAmong, SeenMarked, SeenTaken, AllSeen, Compatible;
      hide EachSeen, SeenAfterwards, Gained, SetOf, StrictlyAscending, WantedBy, OneBatch;
      ghost var was := Of(state, t).held;
      HoldsAreCounted(start, acts, t);
      complete := Complete(roots);
      var ok := LookAtAll(t, complete);
      if !ok {
        return Refused, complete;
      }
      ghost var looked := acts;
      outcome := AcquireAll(t, complete);
      EachStillSeen(start, looked, acts, |old(acts)|, owners, complete);
      if outcome.Refused? {
        StillAmong(start, acts, acts, |old(acts)|, |looked|, unreadable, owners, complete);
      }
      if outcome.Granted? {
        ghost var earlier := acts;
        ok := LookAgain(t, complete, was);
        if !ok {
          StillAmong(start, acts, acts, |old(acts)|, |earlier|, unreadable, owners, complete);
          return Refused, complete;
        }
        SeenAfter(start, earlier, acts, |old(acts)|, t, Of(state, t), owners, complete);
        EachStillSeen(start, earlier, acts, |old(acts)|, owners, complete);
        GainedAreUnmarked(start, acts, state, t, was, complete, unlockable);
      }
    }

    /** The look after the last guard; the guards go when it fails. */
    method LookAgain(t: Thread, complete: seq<Root>, ghost was: map<Root, Hold>) returns (ok: bool)
      requires Valid() && Of(state, t).phase.Idle? && StrictlyAscending(complete)
      requires Gained(was, Of(state, t).held, SetOf(complete), unlockable)
      requires forall r | r in was :: was[r].clones >= 1
      modifies this`state, this`acts, this`script
      ensures Valid() && old(acts) <= acts && (old(OrderlyBy(t)) ==> OrderlyBy(t))
      ensures Of(state, t) == if ok then old(Of(state, t)) else ThreadState(Idle, was)
      ensures ok ==> EachSeen(start, acts, |old(acts)|, owners, complete)
      ensures !ok ==> BadAmong(start, acts, |old(acts)|, unreadable, owners, complete)
    {
      hide Apply, Enabled, Runs, Final, Orderly, SomeBad, BadAmong, SeenMarked, AllSeen, Gained, StrictlyAscending;
      ok := LookAtAll(t, complete);
      if !ok {
        ghost var refused := acts;
        Release(t, complete, was);
        StillAmong(start, refused, acts, |old(acts)|, |old(acts)|, unreadable, owners, complete);
      }
    }
  }
}
