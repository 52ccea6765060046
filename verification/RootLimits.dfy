/** Exactly which holds the interlock protects: those it does not can be marked from any state. */
module RootLimits {
  import opened RootInterlock

  /** The run goes on, and thread `t` neither dies nor drops a guard on `r`. */
  ghost predicate Onward(acts: seq<Action>, longer: seq<Action>, t: Thread, r: Root) {
    acts <= longer && forall k | |acts| <= k < |longer| :: longer[k] != Crash(t) && longer[k] != Drop(t, r)
  }

  lemma {:induction false} OnwardReleasesNone(acts: seq<Action>, longer: seq<Action>, t: Thread, r: Root)
    requires Onward(acts, longer, t, r)
    ensures Releases(longer, |acts|, t, r) == 0 && Crash(t) !in longer[|acts|..]
    decreases |longer|
  {
    if |longer| > |acts| {
      OnwardReleasesNone(acts, longer[..|longer| - 1], t, r);
      assert longer[|acts|..] == longer[..|longer| - 1][|acts|..] + [longer[|longer| - 1]];
    } else {
      assert longer == acts;
    }
  }

  lemma Go(s: State, acts: seq<Action>, sofar: seq<Action>, a: Action, t: Thread, r: Root) returns (longer: seq<Action>)
    requires Runs(s, sofar) && Onward(acts, sofar, t, r) && Enabled(Final(s, sofar), a)
    requires a != Crash(t) && a != Drop(t, r)
    ensures Runs(s, longer) && Onward(acts, longer, t, r)
    ensures Final(s, longer) == Apply(Final(s, sofar), a)
  {
    hide Apply, Enabled, Runs, Final;
    longer := Then(s, sofar, a);
  }

  // ----- everybody else dies -----

  lemma {:induction false} CrashAll(s: State, acts: seq<Action>, t: Thread, r: Root, others: set<Thread>) returns (longer: seq<Action>)
    requires Runs(s, acts) && t !in others
    ensures Runs(s, longer) && Onward(acts, longer, t, r)
    ensures Of(Final(s, longer), t) == Of(Final(s, acts), t)
    ensures Final(s, longer).markers == Final(s, acts).markers
    ensures forall u | u in Final(s, longer).threads :: u in others || u in Final(s, acts).threads
    ensures forall u | u in others :: Of(Final(s, longer), u) == ThreadState(Idle, map[])
    decreases others
  {
    hide Apply, Enabled, Runs, Final;
    if others == {} {
      longer := acts;
    } else {
      var u :| u in others;
      var sofar := CrashAll(s, acts, t, r, others - {u});
      Crashes(Final(s, sofar), u);
      longer := Go(s, acts, sofar, Crash(u), t, r);
      forall v | v in others ensures Of(Final(s, longer), v) == ThreadState(Idle, map[]) {
        if v != u {
          assert v in others - {u};
          assert Of(Final(s, longer), v) == Of(Final(s, sofar), v);
        }
      }
    }
  }

  /** No other thread has a lock. */
  ghost predicate Alone(s: State, t: Thread) {
    forall u | u in s.threads && u != t :: s.threads[u] == ThreadState(Idle, map[])
  }

  lemma LeftAlone(s: State, acts: seq<Action>, t: Thread, r: Root) returns (longer: seq<Action>)
    requires Runs(s, acts)
    ensures Runs(s, longer) && Onward(acts, longer, t, r)
    ensures Of(Final(s, longer), t) == Of(Final(s, acts), t) && Alone(Final(s, longer), t)
  {
    hide Apply, Enabled, Runs, Final;
    var others := Final(s, acts).threads.Keys - {t};
    longer := CrashAll(s, acts, t, r, others);
    var now := Final(s, longer);
    forall u | u in now.threads && u != t ensures now.threads[u] == ThreadState(Idle, map[]) {
      assert u in others && Of(now, u) == now.threads[u];
    }
  }

  // ----- an unbacked hold -----

  /** Another thread takes the root and marks it. */
  lemma UnbackedIsMarked(s: State, acts: seq<Action>, t: Thread, r: Root) returns (longer: seq<Action>)
    requires Initial(s) && Runs(s, acts)
    requires r in Of(Final(s, acts), t).held && !Of(Final(s, acts), t).held[r].backed
    ensures Runs(s, longer) && Onward(acts, longer, t, r) && r in Final(s, longer).markers
  {
    var sofar := LeftAlone(s, acts, t, r);
    EveryStateIsInvariant(s, acts);
    NoLockUnbacked(Final(s, acts), t, r);
    var now, u := Final(s, sofar), t + 1;
    hide Apply, Enabled, Runs, Final, Invariant;
    AloneIsCompatible(now, t, u, r);
    hide Alone, LockOf, Compatible;
    longer := MarksAlone(s, sofar, u, r);
    OnwardByOther(acts, sofar, [Request(u, r, true, false, [r]), Open(u, true, [r]), Grant(u, [r]), Publish(u, r)], t, r);
  }

  lemma AloneIsCompatible(s: State, t: Thread, u: Thread, r: Root)
    requires Alone(s, t) && LockOf(Of(s, t), r) == Unlocked && u != t
    ensures Compatible(s, r, true) && Of(s, u) == ThreadState(Idle, map[])
  {}

  lemma OnwardByOther(acts: seq<Action>, sofar: seq<Action>, more: seq<Action>, t: Thread, r: Root)
    requires Onward(acts, sofar, t, r)
    requires forall k | 0 <= k < |more| :: more[k] != Crash(t) && more[k] != Drop(t, r)
    ensures Onward(acts, sofar + more, t, r)
  {}

  lemma NoLockUnbacked(s: State, t: Thread, r: Root)
    requires Invariant(s) && r in Of(s, t).held && !Of(s, t).held[r].backed
    ensures LockOf(Of(s, t), r) == Unlocked
  {}

  // ----- an exclusive hold -----

  predicate HoldsExclusively(ts: ThreadState, r: Root) { r in ts.held && ts.held[r].exclusive }

  /** The thread's check comes to an end: every marker left is unreadable. */
  lemma {:induction false} CheckEnds(s: State, acts: seq<Action>, sofar: seq<Action>, t: Thread, r: Root) returns (longer: seq<Action>)
    requires Runs(s, sofar) && Onward(acts, sofar, t, r)
    requires Of(Final(s, sofar), t).phase.Checking? && Of(Final(s, sofar), t).phase.inaccessible
    requires HoldsExclusively(Of(Final(s, sofar), t), r)
    ensures Runs(s, longer) && Onward(acts, longer, t, r)
    ensures Of(Final(s, longer), t).phase.Idle? && HoldsExclusively(Of(Final(s, longer), t), r)
    decreases |Of(Final(s, sofar), t).phase.todo|
  {
    var now := Final(s, sofar);
    if Of(now, t).phase.todo == [] {
      longer := Go(s, acts, sofar, Conclude(t), t, r);
    } else {
      var next := Go(s, acts, sofar, Inspect(t, Inaccessible), t, r);
      longer := CheckEnds(s, acts, next, t, r);
    }
  }

  /** A check with an owner left to look at comes to an end. */
  lemma CheckFails(s: State, acts: seq<Action>, sofar: seq<Action>, t: Thread, r: Root) returns (longer: seq<Action>)
    requires Runs(s, sofar) && Onward(acts, sofar, t, r)
    requires Of(Final(s, sofar), t).phase.Checking? && Of(Final(s, sofar), t).phase.todo != []
    requires HoldsExclusively(Of(Final(s, sofar), t), r)
    ensures Runs(s, longer) && Onward(acts, longer, t, r)
    ensures Of(Final(s, longer), t).phase.Idle? && HoldsExclusively(Of(Final(s, longer), t), r)
  {
    var next := Go(s, acts, sofar, Inspect(t, Inaccessible), t, r);
    hide Apply, Enabled, Runs, Final;
    longer := CheckEnds(s, acts, next, t, r);
  }

  lemma OpeningEnds(s: State, acts: seq<Action>, sofar: seq<Action>, t: Thread, r: Root) returns (longer: seq<Action>)
    requires Runs(s, sofar) && Onward(acts, sofar, t, r)
    requires Of(Final(s, sofar), t).phase.Opening? && HoldsExclusively(Of(Final(s, sofar), t), r)
    ensures Runs(s, longer) && Onward(acts, longer, t, r)
    ensures Of(Final(s, longer), t).phase.Idle? && HoldsExclusively(Of(Final(s, longer), t), r)
  {
    var root := Of(Final(s, sofar), t).phase.root;
    longer := Go(s, acts, sofar, Open(t, false, [root]), t, r);
    if Of(Final(s, longer), t).phase.Checking? {
      longer := CheckFails(s, acts, longer, t, r);
    }
  }

  lemma WaitEnds(s: State, acts: seq<Action>, sofar: seq<Action>, t: Thread, r: Root) returns (longer: seq<Action>)
    requires Runs(s, sofar) && Onward(acts, sofar, t, r)
    requires Of(Final(s, sofar), t).phase.Waiting? && HoldsExclusively(Of(Final(s, sofar), t), r)
    requires Of(Final(s, sofar), t).phase.root !in Of(Final(s, sofar), t).held && Alone(Final(s, sofar), t)
    ensures Runs(s, longer) && Onward(acts, longer, t, r)
    ensures Of(Final(s, longer), t).phase.Idle? && HoldsExclusively(Of(Final(s, longer), t), r)
  {
    var root := Of(Final(s, sofar), t).phase.root;
    assert Compatible(Final(s, sofar), root, true);
    longer := Go(s, acts, sofar, Grant(t, [root]), t, r);
    if Of(Final(s, longer), t).phase.Checking? {
      longer := CheckFails(s, acts, longer, t, r);
    }
  }

  /** Whatever the thread is about, it can come to rest with its exclusive hold. */
  lemma ComesToRest(s: State, acts: seq<Action>, sofar: seq<Action>, t: Thread, r: Root) returns (longer: seq<Action>)
    requires Initial(s) && Runs(s, sofar) && Onward(acts, sofar, t, r)
    requires HoldsExclusively(Of(Final(s, sofar), t), r) && Alone(Final(s, sofar), t)
    ensures Runs(s, longer) && Onward(acts, longer, t, r)
    ensures Of(Final(s, longer), t).phase.Idle? && HoldsExclusively(Of(Final(s, longer), t), r)
  {
    EveryStateIsInvariant(s, sofar);
    var ts := Of(Final(s, sofar), t);
    assert Targets(ts);
    if ts.phase.Idle? {
      longer := sofar;
    } else if ts.phase.Opening? {
      longer := OpeningEnds(s, acts, sofar, t, r);
    } else if ts.phase.Waiting? {
      longer := WaitEnds(s, acts, sofar, t, r);
    } else if ts.phase.todo != [] {
      longer := CheckFails(s, acts, sofar, t, r);
    } else {
      longer := Go(s, acts, sofar, Conclude(t), t, r);
      if Of(Final(s, longer), t).phase.Opening? {
        longer := OpeningEnds(s, acts, longer, t, r);
      }
    }
  }

  lemma ExclusiveIsMarked(s: State, acts: seq<Action>, t: Thread, r: Root) returns (longer: seq<Action>)
    requires Initial(s) && Runs(s, acts) && HoldsExclusively(Of(Final(s, acts), t), r)
    ensures Runs(s, longer) && Onward(acts, longer, t, r) && r in Final(s, longer).markers
  {
    var sofar := LeftAlone(s, acts, t, r);
    sofar := ComesToRest(s, acts, sofar, t, r);
    longer := Go(s, acts, sofar, Publish(t, r), t, r);
  }

  // ----- exactly -----

  /** The run can go on so that the root carries a marker while the hold is still there. */
  ghost predicate CanBeMarked(s: State, acts: seq<Action>, t: Thread, r: Root)
    requires Runs(s, acts) && r in Of(Final(s, acts), t).held
  {
    exists longer ::
      && acts <= longer && Runs(s, longer) && Crash(t) !in longer[|acts|..]
      && Releases(longer, |acts|, t, r) < Of(Final(s, acts), t).held[r].clones
      && r in Final(s, longer).markers
  }

  /** From every reachable state, a hold's root can become marked while the hold stays exactly if the hold is
      exclusive or has no lock file. */
  lemma MarkableExactly(s: State, acts: seq<Action>, t: Thread, r: Root)
    requires Initial(s) && Runs(s, acts) && r in Of(Final(s, acts), t).held
    ensures CanBeMarked(s, acts, t, r) <==>
              Of(Final(s, acts), t).held[r].exclusive || !Of(Final(s, acts), t).held[r].backed
  {
    EveryStateIsInvariant(s, acts);
    assert Targets(Of(Final(s, acts), t));
    var hold := Of(Final(s, acts), t).held[r];
    assert hold.clones >= 1;
    hide Apply, Enabled, Runs, Final, Invariant;
    if hold.exclusive {
      var longer := ExclusiveIsMarked(s, acts, t, r);
      OnwardReleasesNone(acts, longer, t, r);
    } else if !hold.backed {
      var longer := UnbackedIsMarked(s, acts, t, r);
      OnwardReleasesNone(acts, longer, t, r);
    } else {
      forall longer |
        && acts <= longer && Runs(s, longer) && Crash(t) !in longer[|acts|..]
        && Releases(longer, |acts|, t, r) < hold.clones
        ensures r !in Final(s, longer).markers
      {
        assert longer[..|acts|] == acts;
        ProtectionLasts(s, longer, |acts|, t, r);
      }
    }
  }
}
