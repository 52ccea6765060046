/** Exactly when a visit's plans keep away from the names of its recorded spawns. */
module SpawnFreshness {
  import opened Basics
  import opened Text
  import opened Ledger
  import opened SpawnNaming

  // ----- exactly when names stay fresh -----

  /** No record of the family counts for the present visit or a later one, as at any time just after the
      ticket moved. */
  ghost predicate NothingAhead(f: Family, w: World) {
    forall n: nat | n >= 1 && RecordName(f, n) in w.records ::
      w.records[RecordName(f, n)].moves < Moves(w.items, f.task)
  }

  /** The record at an entry's name is older than `since`, or an accounted spawn's of that entry. */
  predicate IsOurs(f: Family, w: World, since: nat, n: nat) {
    RecordName(f, n) in w.records ==>
      || w.records[RecordName(f, n)].moves < since
      || exists i | 0 <= i < |w.uses| ::
           w.uses[i].accounted && w.uses[i].number == n && w.uses[i].moves == w.records[RecordName(f, n)].moves
  }

  ghost predicate RecordsAreOurs(f: Family, w: World, since: nat) {
    since <= Moves(w.items, f.task) && forall n: nat | n >= 1 :: IsOurs(f, w, since, n)
  }

  /** A spawn is a first attempt, or its visit has an accounted first attempt before it. */
  predicate HasFirst(w: World, i: nat)
    requires i < |w.uses|
  {
    w.uses[i].attempt == 1
    || exists j | 0 <= j < i :: w.uses[j].number == w.uses[i].number && w.uses[j].accounted && w.uses[j].attempt == 1
  }

  predicate AllHaveFirst(w: World) {
    forall i | 0 <= i < |w.uses| :: HasFirst(w, i)
  }

  /** A plan that continues from a record continues from an accounted spawn of this visit. */
  lemma PreviousIsOurs(f: Family, start: string, w: World, since: nat) returns (i: nat)
    requires Inv(f, start, w) && RecordsAreOurs(f, w, since) && Where(w.items, f.task, start) == f.state
    requires Next(f, w).previous.Some?
    ensures i < |w.uses| && w.uses[i].accounted && w.uses[i].number == Entry(w.items, f.task, f.state)
  {
    hide Moves, Entry, IsWalk, Where, RecordName, RecordPath, AttemptsRise, PlansStay, LogsAreKnown, Accounts, LogName;
    UnsuffixedIsFirst(f);
    var n := Entry(w.items, f.task, f.state);
    var from := if RecordName(f, n) in w.records then n else 1;
    assert IsOurs(f, w, since, from);
    i :| 0 <= i < |w.uses| && w.uses[i].accounted && w.uses[i].number == from
         && w.uses[i].moves == w.records[RecordName(f, from)].moves;
    assert IsUse(f, start, w, w.uses[i]);
    UseTellsVisit(f, start, w, w.uses[i]);
  }

  lemma StartKeepsFirst(f: Family, start: string, w: World, since: nat)
    requires Inv(f, start, w) && RecordsAreOurs(f, w, since) && AllHaveFirst(w) && Enabled(f, start, w, Start)
    ensures AllHaveFirst(Apply(f, start, w, Start)) && RecordsAreOurs(f, Apply(f, start, w, Start), since)
  {
    var v := Apply(f, start, w, Start);
    assert forall i | 0 <= i < |w.uses| :: v.uses[i] == w.uses[i];
    assert v.uses[|w.uses|] == UseOf(f, w);
    FirstOfVisit(f, start, w, since);
    hide PlanSpawn, Entry, Moves, LogName, IsWalk, Where, Inv, RecordName;
    forall i | 0 <= i < |v.uses| ensures HasFirst(v, i) {
      if i < |w.uses| {
        assert HasFirst(w, i);
        if w.uses[i].attempt != 1 {
          var j :| 0 <= j < i && w.uses[j].number == w.uses[i].number && w.uses[j].accounted && w.uses[j].attempt == 1;
          assert v.uses[j] == w.uses[j];
        }
      } else if v.uses[i].attempt != 1 {
        var j :| 0 <= j < |w.uses| && w.uses[j].number == v.uses[i].number && w.uses[j].accounted && w.uses[j].attempt == 1;
        assert v.uses[j] == w.uses[j];
      }
    }
    forall n: nat | n >= 1 ensures IsOurs(f, v, since, n) {
      assert IsOurs(f, w, since, n);
      OursStays(f, w, v, since, n);
    }
  }

  /** A plan is a first attempt, or this visit has an accounted one. */
  lemma FirstOfVisit(f: Family, start: string, w: World, since: nat)
    requires Inv(f, start, w) && RecordsAreOurs(f, w, since) && AllHaveFirst(w)
    requires Where(w.items, f.task, start) == f.state
    ensures UseOf(f, w).attempt == 1
            || exists j | 0 <= j < |w.uses| ::
                 w.uses[j].number == UseOf(f, w).number && w.uses[j].accounted && w.uses[j].attempt == 1
  {
    hide Entry, Moves, LogName, IsWalk, Where, Inv, RecordsAreOurs, CurrentVisitRecord, RecordName;
    if Next(f, w).previous.Some? {
      var i := PreviousIsOurs(f, start, w, since);
      assert HasFirst(w, i);
    }
  }

  /** More spawns, and more of them accounted, leave a record ours. */
  lemma OursStays(f: Family, w: World, v: World, since: nat, n: nat)
    requires IsOurs(f, w, since, n) && n >= 1
    requires Read(v.records, RecordName(f, n)) == Read(w.records, RecordName(f, n))
    requires forall i | 0 <= i < |w.uses| && w.uses[i].accounted :: i < |v.uses| && v.uses[i] == w.uses[i]
    ensures IsOurs(f, v, since, n)
  {
    hide RecordName;
    if RecordName(f, n) in w.records && w.records[RecordName(f, n)].moves >= since {
      var i :| 0 <= i < |w.uses| && w.uses[i].accounted && w.uses[i].number == n
               && w.uses[i].moves == w.records[RecordName(f, n)].moves;
      assert v.uses[i] == w.uses[i];
    }
  }

  /** Fewer spawns, or more of them accounted, leave the firsts. */
  lemma FirstsStay(w: World, v: World)
    requires AllHaveFirst(w) && |v.uses| <= |w.uses|
    requires forall i | 0 <= i < |v.uses| :: v.uses[i] == w.uses[i] || v.uses[i] == w.uses[i].(accounted := true)
    ensures AllHaveFirst(v)
  {
    forall i | 0 <= i < |v.uses| ensures HasFirst(v, i) {
      assert HasFirst(w, i);
      if v.uses[i].attempt != 1 {
        var j :| 0 <= j < i && w.uses[j].number == w.uses[i].number && w.uses[j].accounted && w.uses[j].attempt == 1;
        assert v.uses[j].number == v.uses[i].number && v.uses[j].accounted && v.uses[j].attempt == 1;
      }
    }
  }

  lemma RecordedKeepsOurs(f: Family, start: string, w: World, since: nat)
    requires Inv(f, start, w) && w.running && w.uses != [] && RecordsAreOurs(f, w, since)
    ensures RecordsAreOurs(f, Apply(f, start, w, Ran(true)), since)
  {
    hide PlanSpawn, Entry, Moves, LogName, IsWalk, Where, Inv, RecordName, Apply, IsUse, IsOurs;
    var v, last := Apply(f, start, w, Ran(true)), |w.uses| - 1;
    RecordedChange(f, start, w);
    forall n: nat | n >= 1 ensures IsOurs(f, v, since, n) {
      assert IsOurs(f, w, since, n);
      NamesAreDistinct(f, n, 1, w.uses[last].number, 1);
      if n == w.uses[last].number {
        JustRecorded(f, v, since, last);
      } else {
        OursStays(f, w, v, since, n);
      }
    }
  }

  lemma RecordedChange(f: Family, start: string, w: World)
    requires Inv(f, start, w) && w.running && w.uses != []
    ensures var v, last := Apply(f, start, w, Ran(true)), |w.uses| - 1;
            && w.uses[last].number >= 1 && v.items == w.items && |v.uses| == |w.uses|
            && v.uses[last] == w.uses[last].(accounted := true)
            && v.records == w.records[RecordName(f, w.uses[last].number) := RecordOf(f, w.uses[last])]
            && (forall i | 0 <= i < |w.uses| && w.uses[i].accounted :: v.uses[i] == w.uses[i])
            && (forall i | 0 <= i < |w.uses| :: v.uses[i] == w.uses[i] || v.uses[i] == w.uses[i].(accounted := true))
  {
    hide PlanSpawn, Moves, LogName, IsWalk, Where, RecordName, PlansStay, AttemptsRise, LogsAreKnown;
    assert IsUse(f, start, w, w.uses[|w.uses| - 1]);
  }

  lemma JustRecorded(f: Family, v: World, since: nat, i: nat)
    requires i < |v.uses| && v.uses[i].accounted
    requires Read(v.records, RecordName(f, v.uses[i].number)) == Some(RecordOf(f, v.uses[i]))
    ensures IsOurs(f, v, since, v.uses[i].number)
  {
    hide RecordName;
  }

  lemma RecordedKeepsFirst(f: Family, start: string, w: World, since: nat)
    requires Inv(f, start, w) && w.running && w.uses != [] && RecordsAreOurs(f, w, since) && AllHaveFirst(w)
    ensures AllHaveFirst(Apply(f, start, w, Ran(true))) && RecordsAreOurs(f, Apply(f, start, w, Ran(true)), since)
  {
    hide Inv, RecordsAreOurs, AllHaveFirst, Apply;
    RecordedKeepsOurs(f, start, w, since);
    RecordedChange(f, start, w);
    FirstsStay(w, Apply(f, start, w, Ran(true)));
  }

  lemma OthersKeepOurs(f: Family, start: string, w: World, since: nat, a: Action)
    requires Inv(f, start, w) && RecordsAreOurs(f, w, since) && Enabled(f, start, w, a)
    requires a != Start && a != Ran(true)
    ensures RecordsAreOurs(f, Apply(f, start, w, a), since)
  {
    assert a.NeverRan? || a.Ran? ==> w.uses != [];
    hide PlanSpawn, Entry, Moves, LogName, IsWalk, Where, Inv, RecordName, Apply, Enabled, IsOurs;
    var v := Apply(f, start, w, a);
    MovesGrow(f, start, w, a);
    OthersChange(f, start, w, a);
    forall n: nat | n >= 1 ensures IsOurs(f, v, since, n) {
      assert IsOurs(f, w, since, n);
      assert a.OtherRecord? ==> a.name != RecordName(f, n);
      OursStays(f, w, v, since, n);
    }
  }

  lemma OthersChange(f: Family, start: string, w: World, a: Action)
    requires Inv(f, start, w) && Enabled(f, start, w, a) && a != Start && a != Ran(true)
    ensures var v := Apply(f, start, w, a);
            && (forall i | 0 <= i < |w.uses| && w.uses[i].accounted :: i < |v.uses| && v.uses[i] == w.uses[i])
            && (if a.OtherRecord? then !OfFamily(f, a.name) && v.records == w.records[a.name := a.record]
                else v.records == w.records)
  {
    hide PlanSpawn, Moves, LogName, IsWalk, Where, RecordName, PlansStay, AttemptsRise, LogsAreKnown, UsesAreVisits;
  }

  lemma OthersKeepFirst(f: Family, start: string, w: World, since: nat, a: Action)
    requires Inv(f, start, w) && RecordsAreOurs(f, w, since) && AllHaveFirst(w) && Enabled(f, start, w, a)
    requires a != Start && a != Ran(true)
    ensures AllHaveFirst(Apply(f, start, w, a)) && RecordsAreOurs(f, Apply(f, start, w, a), since)
  {
    OthersKeepOurs(f, start, w, since, a);
    hide Inv, RecordsAreOurs, AllHaveFirst, Enabled, PlanSpawn;
    FirstsStay(w, Apply(f, start, w, a));
  }

  lemma MovesGrow(f: Family, start: string, w: World, a: Action)
    requires Enabled(f, start, w, a)
    ensures Moves(w.items, f.task) <= Moves(Apply(f, start, w, a).items, f.task)
  {
    if a.Append? {
      OneMoreItem(f, w, a.item);
    }
  }

  /** A start whose records of this visit are those of spawns it lists, from the visit's first on: one where
      no record counts for the visit yet, or where any steady run from such a start has come to. */
  ghost predicate Consistent(f: Family, start: string, w: World) {
    Inv(f, start, w) && NotStale(f, w) && AllHaveFirst(w) && RecordsAreOurs(f, w, Moves(w.items, f.task))
  }

  lemma {:induction false} RunKeepsFirst(f: Family, start: string, w: World, acts: seq<Action>)
    requires Consistent(f, start, w) && Runs(f, start, w, acts)
    requires acts != [] ==> Steady(f, start, w, acts[..|acts| - 1])
    ensures AllHaveFirst(Final(f, start, w, acts))
    ensures RecordsAreOurs(f, Final(f, start, w, acts), Moves(w.items, f.task))
  {
    hide Apply, Enabled, Inv, RecordsAreOurs, AllHaveFirst, NotStale, Moves;
    if acts != [] {
      var before, a := acts[..|acts| - 1], acts[|acts| - 1];
      var v, since := Final(f, start, w, before), Moves(w.items, f.task);
      RunKeepsFirst(f, start, w, before);
      RunGoesOn(f, start, w, before);
      if a == Start {
        StartKeepsFirst(f, start, v, since);
      } else if a == Ran(true) {
        RanIsRunning(f, start, v);
        RecordedKeepsFirst(f, start, v, since);
      } else {
        OthersKeepFirst(f, start, v, since, a);
      }
    }
  }

  lemma FreshIsConsistent(f: Family, start: string, w: World)
    requires Initial(f, start, w) && NothingAhead(f, w)
    ensures Consistent(f, start, w)
  {
    InitialHolds(f, start, w);
    NothingIsOurs(f, w);
  }

  lemma LaterIsOurs(f: Family, w: World, since: nat, later: nat)
    requires RecordsAreOurs(f, w, since) && since <= later <= Moves(w.items, f.task)
    ensures RecordsAreOurs(f, w, later)
  {
    hide Moves, RecordName;
    forall n: nat | n >= 1 ensures IsOurs(f, w, later, n) {
      assert IsOurs(f, w, since, n);
    }
  }

  /** A steady run leaves a start as consistent as it found it, so it may be taken up in the middle of a
      visit. */
  lemma RunStaysConsistent(f: Family, start: string, w: World, acts: seq<Action>)
    requires Consistent(f, start, w) && Runs(f, start, w, acts) && Steady(f, start, w, acts)
    ensures Consistent(f, start, Final(f, start, w, acts))
  {
    RunKeepsFirst(f, start, w, acts);
    SteadyEnds(f, start, w, acts);
    RunGoesOn(f, start, w, acts);
    var v := Final(f, start, w, acts);
    assert Moves(w.items, f.task) <= Moves(v.items, f.task);
    hide Runs, Final, Steady, Inv, NotStale, AllHaveFirst, Moves;
    LaterIsOurs(f, v, Moves(w.items, f.task), Moves(v.items, f.task));
  }

  lemma NothingIsOurs(f: Family, w: World)
    requires NothingAhead(f, w) && w.uses == []
    ensures AllHaveFirst(w) && RecordsAreOurs(f, w, Moves(w.items, f.task))
  {
    hide RecordName, Moves;
  }

  lemma RanIsRunning(f: Family, start: string, w: World)
    requires Enabled(f, start, w, Ran(true))
    ensures w.running && w.uses != []
  {}

  /** This visit has an accounted first attempt. */
  predicate FirstIsTaken(f: Family, w: World) {
    exists j | 0 <= j < |w.uses| :: w.uses[j].accounted && w.uses[j].attempt == 1 && IsOfThisVisit(f, w, w.uses[j])
  }

  /** At a stale record, whatever the run started from, the plan is the visit's first attempt over again; its
      name is taken exactly if the visit has an accounted first attempt. */
  lemma StalePlanExactly(f: Family, start: string, w: World)
    requires Inv(f, start, w) && !NotStale(f, w)
    ensures Where(w.items, f.task, start) == f.state && Next(f, w).attempt == 1
    ensures !PlanIsFresh(f, start, w) <==> FirstIsTaken(f, w)
  {
    hide LogName, RecordName, Entry, Moves, AttemptsRise, PlansStay, LogsAreKnown;
    var i :| 0 <= i < |w.uses| && IsStale(f, w, w.uses[i]);
    var u := w.uses[i];
    assert IsUse(f, start, w, u) && IsAccounted(f, w.records, u);
    Since(w.items, u.at, f.task, start, f.state);
    UseTellsVisit(f, start, w, u);
    assert Next(f, w).attempt == 1;
    hide PlanSpawn, MovedSince, Where, IsWalk;
    forall j | 0 <= j < |w.uses|
      ensures Next(f, w).log == w.uses[j].log <==> w.uses[j].attempt == 1 && IsOfThisVisit(f, w, w.uses[j])
    {
      assert IsUse(f, start, w, w.uses[j]);
      PlanCounts(f, w);
      UseTellsVisit(f, start, w, w.uses[j]);
      NamesAreDistinct(f, w.uses[j].number, w.uses[j].attempt, u.number, 1);
    }
  }

  lemma StalePlanIsTaken(f: Family, start: string, w: World)
    requires Inv(f, start, w) && AllHaveFirst(w) && !NotStale(f, w)
    ensures !PlanIsFresh(f, start, w)
  {
    StalePlanExactly(f, start, w);
    hide LogName, RecordName, Entry, Moves, AttemptsRise, PlansStay, LogsAreKnown, PlanIsFresh, Accounts, PlanSpawn, Where, IsWalk;
    var i :| 0 <= i < |w.uses| && IsStale(f, w, w.uses[i]);
    assert IsUse(f, start, w, w.uses[i]) && HasFirst(w, i);
    var j :| 0 <= j <= i && w.uses[j].number == w.uses[i].number && w.uses[j].accounted && w.uses[j].attempt == 1;
    assert IsUse(f, start, w, w.uses[j]);
    UseTellsVisit(f, start, w, w.uses[i]);
    UseTellsVisit(f, start, w, w.uses[j]);
  }

  /** At every moment of the run the plan was fresh. */
  ghost predicate AlwaysFresh(f: Family, start: string, w: World, acts: seq<Action>)
    requires Runs(f, start, w, acts)
    decreases |acts|
  {
    PlanIsFresh(f, start, Final(f, start, w, acts)) && (acts == [] || AlwaysFresh(f, start, w, acts[..|acts| - 1]))
  }

  /** No step of the run makes a record stale. */
  ghost predicate NeverStaling(f: Family, start: string, w: World, acts: seq<Action>)
    requires Runs(f, start, w, acts)
    decreases |acts|
  {
    acts == [] ||
    (var before := acts[..|acts| - 1];
     NeverStaling(f, start, w, before) && !Staling(f, Final(f, start, w, before), acts[|acts| - 1]))
  }

  lemma {:induction false} SteadyMeans(f: Family, start: string, w: World, acts: seq<Action>)
    requires Inv(f, start, w) && NotStale(f, w) && Runs(f, start, w, acts)
    ensures Steady(f, start, w, acts) <==> NeverStaling(f, start, w, acts)
  {
    hide Apply, Enabled, Inv, NotStale, Staling;
    if acts != [] {
      var before := acts[..|acts| - 1];
      SteadyMeans(f, start, w, before);
      if Steady(f, start, w, before) {
        RunGoesOn(f, start, w, before);
        SteadyEnds(f, start, w, before);
        StalingExactly(f, start, Final(f, start, w, before), acts[|acts| - 1]);
      }
    }
  }

  lemma SteadyEnds(f: Family, start: string, w: World, acts: seq<Action>)
    requires Runs(f, start, w, acts) && Steady(f, start, w, acts)
    ensures NotStale(f, Final(f, start, w, acts)) && (acts != [] ==> Steady(f, start, w, acts[..|acts| - 1]))
  {
    hide NotStale, Apply, Enabled;
  }

  /** Exactly: over a run from a consistent start, no plan ever takes the name of an accounted spawn exactly if no
      step of it is `Staling`: no row of the ticket that is no movement is appended after an accounted spawn
      of the present visit, and no spawn planned before such a row is recorded in its visit. */
  lemma FreshExactly(f: Family, start: string, w: World, acts: seq<Action>)
    requires Consistent(f, start, w) && Runs(f, start, w, acts)
    ensures AlwaysFresh(f, start, w, acts) <==> NeverStaling(f, start, w, acts)
  {
    assert Inv(f, start, w) && NotStale(f, w);
    hide *;
    FreshWhereSteady(f, start, w, acts);
    SteadyMeans(f, start, w, acts);
  }

  lemma {:induction false} FreshWhereSteady(f: Family, start: string, w: World, acts: seq<Action>)
    requires Consistent(f, start, w) && Runs(f, start, w, acts)
    ensures AlwaysFresh(f, start, w, acts) <==> Steady(f, start, w, acts)
  {
    hide Apply, Enabled, Inv, PlanIsFresh, NotStale, AllHaveFirst, RecordsAreOurs;
    if acts != [] {
      FreshWhereSteady(f, start, w, acts[..|acts| - 1]);
    }
    if acts == [] || Steady(f, start, w, acts[..|acts| - 1]) {
      RunGoesOn(f, start, w, acts);
      RunKeepsFirst(f, start, w, acts);
      if NotStale(f, Final(f, start, w, acts)) {
        FreshWhereNotStale(f, start, Final(f, start, w, acts));
      } else {
        StalePlanIsTaken(f, start, Final(f, start, w, acts));
      }
    }
  }

  // ----- an input -----

  lemma NoteMovesCount(items: seq<Item>, row: string, f: Family, start: string)
    requires f.task + " " <= row
    ensures var more := items + [Unknown(row)];
            && Moves(more, f.task) == Moves(items, f.task) + 1
            && Entry(more, f.task, f.state) == Entry(items, f.task, f.state)
            && Where(more, f.task, start) == Where(items, f.task, start)
  {
    var more := items + [Unknown(row)];
    assert more[..|more| - 1] == items && more[|items|] == Unknown(row);
  }

  /** A row that is no movement but starts with the ticket moves the count and not the entry number: after
      it, the plan is the first attempt of this visit again, under the name that attempt already has. */
  lemma UnknownRowReusesName(f: Family, start: string, w: World, i: nat, row: string)
    requires Inv(f, start, w) && Where(w.items, f.task, start) == f.state
    requires i < |w.uses| && w.uses[i].accounted && w.uses[i].attempt == 1
    requires IsOfThisVisit(f, w, w.uses[i]) && f.task + " " <= row
    ensures Next(f, w.(items := w.items + [Unknown(row)])).log == w.uses[i].log
  {
    hide LogName, RecordName, Entry, Moves, IsWalk, AttemptsRise, PlansStay, LogsAreKnown;
    var u := w.uses[i];
    assert IsUse(f, start, w, u) && IsAccounted(f, w.records, u);
    UseTellsVisit(f, start, w, u);
    NoteMovesCount(w.items, row, f, start);
  }

  lemma Then(f: Family, start: string, w: World, acts: seq<Action>, a: Action) returns (longer: seq<Action>)
    requires Runs(f, start, w, acts) && Enabled(f, start, Final(f, start, w, acts), a)
    ensures longer == acts + [a]
    ensures Runs(f, start, w, longer) && Final(f, start, w, longer) == Apply(f, start, Final(f, start, w, acts), a)
  {
    hide Enabled, Apply;
    longer := acts + [a];
    assert longer[..|longer| - 1] == acts;
  }

  const ONE: Family := Family("1", "draft", None)

  const NEW: World := World([], map[], {}, {}, [], false)

  const NOTE: string := "1 !note\n"

  lemma NoteIsUnknown()
    ensures IsUnknownRow(NOTE) && "1 " <= NOTE
  {
    assert IsWord("1") && IsWord("!note");
    assert "1" + " " + "!note" + "\n" == NOTE;
    TwoFields("1", "!note");
    WordsMakeALine("1", "!note");
    hide Fields, IsWord;
    assert "!note" != FORCE && Starts("!note", '!');
  }

  const FIRST: Use := Use(0, 1, 0, 1, LogName(ONE, 1, 1), false)

  lemma FirstPlan()
    ensures Next(ONE, NEW) == Plan(LogName(ONE, 1, 1), RecordName(ONE, 1), 0, 1, None)
    ensures UseOf(ONE, NEW) == FIRST
  {
    hide LogName, RecordName;
  }

  lemma FirstSpawn() returns (acts: seq<Action>)
    ensures Runs(ONE, "draft", NEW, acts) && acts == [Start, Ran(true)]
    ensures Steady(ONE, "draft", NEW, acts[..1])
    ensures Final(ONE, "draft", NEW, acts).uses == [FIRST.(accounted := true)]
    ensures Final(ONE, "draft", NEW, acts).items == []
  {
    FirstPlan();
    hide PlanSpawn, LogName, RecordName, Next, UseOf;
    acts := [];
    assert Steady(ONE, "draft", NEW, acts);
    acts := Then(ONE, "draft", NEW, acts, Start);
    assert Final(ONE, "draft", NEW, acts).uses == [FIRST];
    var first := acts;
    assert first[..0] == [];
    assert Steady(ONE, "draft", NEW, first);
    acts := Then(ONE, "draft", NEW, acts, Ran(true));
    assert acts[..1] == first;
  }

  /** A run from nothing: a ticket's first spawn is recorded, a metadata row the parser skips is written for
      it, and the next spawn of the visit is refused for the name of the first. */
  lemma NoteBlocksVisit() returns (acts: seq<Action>)
    ensures Initial(ONE, "draft", NEW) && NothingAhead(ONE, NEW) && Runs(ONE, "draft", NEW, acts)
    ensures IsUnknownRow(NOTE) && acts == [Start, Ran(true), Append(Unknown(NOTE))]
    ensures var v := Final(ONE, "draft", NEW, acts);
            && |v.uses| == 1 && v.uses[0].accounted && Next(ONE, v).log == v.uses[0].log && Refused(ONE, v)
  {
    hide *;
    NoteIsUnknown();
    NewIsInitial();
    acts := FirstSpawn();
    var w := Final(ONE, "draft", NEW, acts);
    RunHolds(ONE, "draft", NEW, acts);
    LogsStay(ONE, "draft", NEW, acts);
    NoteRefuses(w);
    NoteIsAppended(w);
    acts := Then(ONE, "draft", NEW, acts, Append(Unknown(NOTE)));
  }

  lemma NoteRefuses(w: World)
    requires Inv(ONE, "draft", w) && LogsAreDistinct(w) && w.uses == [FIRST.(accounted := true)] && w.items == []
    ensures var v := w.(items := w.items + [Unknown(NOTE)]);
            Next(ONE, v).log == v.uses[0].log && Refused(ONE, v)
  {
    NoteIsUnknown();
    hide Inv, LogName, PlanSpawn, NOTE, IsUnknownRow;
    UnknownRowReusesName(ONE, "draft", w, 0, NOTE);
  }

  lemma NewIsInitial()
    ensures Initial(ONE, "draft", NEW) && NothingAhead(ONE, NEW)
  {}

  lemma NoteIsAppended(w: World)
    ensures Enabled(ONE, "draft", w, Append(Unknown(NOTE)))
    ensures Apply(ONE, "draft", w, Append(Unknown(NOTE))) == w.(items := w.items + [Unknown(NOTE)])
  {}
}
