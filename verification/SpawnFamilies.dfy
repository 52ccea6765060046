/** Spawns of many tasks, states and identities in one project: whose names can meet, and what the runs of
  all of them keep. */
module SpawnFamilies {
  import opened Basics
  import opened Text
  import opened Ledger
  import opened SpawnNaming

  // ----- whose names meet -----

  /** Some log of the two families has one name. */
  ghost predicate LogsMeet(f: Family, g: Family) {
    exists n: nat, a: nat, m: nat, b: nat ::
      n >= 1 && a >= 1 && m >= 1 && b >= 1 && LogName(f, n, a) == LogName(g, m, b)
  }

  ghost predicate RecordsMeet(f: Family, g: Family) {
    exists n: nat, m: nat :: n >= 1 && m >= 1 && RecordName(f, n) == RecordName(g, m)
  }

  /** The end of a name past its stem, of an entry or an attempt past the first. */
  predicate IsEnd(x: string, k: nat, c: nat) {
    k >= 1 && c >= 1 && (k > 1 || c > 1) && x == NumberPart(k) + AttemptPart(c)
  }

  /** `p` is `q` with the number of a later entry, or attempt, written after it. */
  ghost predicate Numbers(p: string, q: string) {
    exists k: nat, c: nat :: IsEnd(EndOf(p, q), k, c) && p == q + EndOf(p, q)
  }

  /** With the number of a later entry alone. */
  ghost predicate NumbersEntry(p: string, q: string) {
    exists k: nat :: IsEnd(EndOf(p, q), k, 1) && p == q + EndOf(p, q)
  }

  function EndOf(p: string, q: string): string { if |q| <= |p| then p[|q|..] else "" }

  lemma PartsAreSimple(n: nat)
    ensures forall i | 0 < i < |NumberPart(n)| :: NumberPart(n)[i] != '-'
    ensures forall i | 0 < i < |AttemptPart(n)| :: AttemptPart(n)[i] != '-'
    ensures NumberPart(n) != "" ==> n > 1 && NumberPart(n)[0] == '-'
    ensures AttemptPart(n) != "" ==> n > 1 && AttemptPart(n)[0] == '-'
    ensures n <= 1 ==> NumberPart(n) == "" && AttemptPart(n) == ""
    ensures n > 1 ==> NumberPart(n) != "" && AttemptPart(n) != ""
  {
    var d := Decimal(n);
    assert forall i | 0 <= i < |d| :: IsDigit(d[i]);
    hide Decimal;
    assert "-attempt" == "-" + "attempt";
  }

  /** What stands before a name's own end, within another's, is an end too. */
  lemma FrontIsEnd(x: string, n: nat, a: nat, m: nat, b: nat) returns (k: nat, c: nat)
    requires n >= 1 && a >= 1 && m >= 1 && b >= 1 && x != ""
    requires x + (NumberPart(n) + AttemptPart(a)) == NumberPart(m) + AttemptPart(b)
    ensures IsEnd(x, k, c)
    ensures n > 1 || a > 1 ==> c == 1
  {
    PartsAreSimple(n);
    PartsAreSimple(a);
    PartsAreSimple(m);
    PartsAreSimple(b);
    hide NumberPart, AttemptPart;
    var own, whole := NumberPart(n) + AttemptPart(a), NumberPart(m) + AttemptPart(b);
    if n == 1 && a == 1 {
      assert own == "" && x == whole;
      k, c := m, b;
    } else {
      assert own[0] == '-' && whole[|x|] == own[0];
      assert |x| == |NumberPart(m)|;
      assert x == whole[..|x|] == NumberPart(m);
      k, c := m, 1;
      assert x == NumberPart(m) + AttemptPart(1) by { PartsAreSimple(1); }
    }
  }

  lemma Regroup(p: string, n: string, a: string, tail: string)
    ensures p + (n + (a + tail)) == p + (n + a) + tail
    ensures p + ("" + ("" + tail)) == p + tail && p + ("" + tail) == p + tail && n + "" == n
  {
    assert "" + tail == tail;
    assert n + (a + tail) == (n + a) + tail;
  }

  lemma LogMeets(f: Family, n: nat, a: nat, g: Family, m: nat, b: nat)
    requires n >= 1 && a >= 1 && m >= 1 && b >= 1 && LogName(f, n, a) == LogName(g, m, b)
    requires Stem(f) != Stem(g) && |Stem(f)| >= |Stem(g)|
    ensures Numbers(Stem(f), Stem(g))
  {
    hide NumberPart, AttemptPart, LogName, RecordName, Stem, IsEnd, EndOf;
    NamesInParts(f, n, a);
    NamesInParts(g, m, b);
    Regroup(Stem(f), NumberPart(n), AttemptPart(a), ".log");
    Regroup(Stem(g), NumberPart(m), AttemptPart(b), ".log");
    LongerStem(Stem(f), NumberPart(n) + AttemptPart(a), Stem(g), NumberPart(m) + AttemptPart(b), ".log", LogName(f, n, a));
    var k, c := FrontIsEnd(EndOf(Stem(f), Stem(g)), n, a, m, b);
  }

  lemma RecordMeets(f: Family, n: nat, g: Family, m: nat)
    requires n >= 1 && m >= 1 && RecordName(f, n) == RecordName(g, m)
    requires Stem(f) != Stem(g) && |Stem(f)| >= |Stem(g)|
    ensures NumbersEntry(Stem(f), Stem(g))
  {
    hide NumberPart, AttemptPart, LogName, RecordName, Stem, IsEnd, EndOf;
    NamesInParts(f, n, 1);
    NamesInParts(g, m, 1);
    PartsAreSimple(1);
    Regroup(Stem(f), NumberPart(n), "", ".json");
    Regroup(Stem(g), NumberPart(m), "", ".json");
    var x := EndOf(Stem(f), Stem(g));
    LongerStem(Stem(f), NumberPart(n), Stem(g), NumberPart(m), ".json", RecordName(f, n));
    if n == 1 {
      NumberIsEnd(x, m);
    } else {
      assert NumberPart(n) + "" == NumberPart(n) && NumberPart(m) + "" == NumberPart(m);
      var k, c := FrontIsEnd(x, n, 1, m, 1);
    }
  }

  lemma NumberIsEnd(x: string, m: nat)
    requires m >= 1 && x != "" && x + NumberPart(1) == NumberPart(m)
    ensures IsEnd(x, m, 1)
  {
    PartsAreSimple(1);
    PartsAreSimple(m);
    hide NumberPart, AttemptPart;
    assert x + "" == x;
  }

  lemma LongerStem(p: string, own: string, q: string, whole: string, tail: string, name: string)
    requires name == p + own + tail && name == q + whole + tail && |p| >= |q| && p != q
    ensures p == q + EndOf(p, q) && EndOf(p, q) != "" && EndOf(p, q) + own == whole
  {
    var x := EndOf(p, q);
    assert p == name[..|p|] && q == name[..|q|] == p[..|q|];
    assert p == q + x;
    assert q + (x + own) + tail == name;
    assert (x + own) + tail == name[|q|..] == whole + tail;
    assert x + own == name[|q|..|name| - |tail|] == whole;
  }

  /** Two families with different stems share a log's name exactly if one stem is the other with a later
      entry's number or attempt after it, and a record's name exactly if with an entry's number. */
  lemma FamiliesMeetExactly(f: Family, g: Family)
    requires Stem(f) != Stem(g)
    ensures LogsMeet(f, g) <==> Numbers(Stem(f), Stem(g)) || Numbers(Stem(g), Stem(f))
    ensures RecordsMeet(f, g) <==> NumbersEntry(Stem(f), Stem(g)) || NumbersEntry(Stem(g), Stem(f))
  {
    hide LogName, RecordName, Stem, IsEnd;
    if n: nat, a: nat, m: nat, b: nat :|
      n >= 1 && a >= 1 && m >= 1 && b >= 1 && LogName(f, n, a) == LogName(g, m, b) {
      if |Stem(f)| >= |Stem(g)| {
        LogMeets(f, n, a, g, m, b);
      } else {
        LogMeets(g, m, b, f, n, a);
      }
    }
    if n: nat, m: nat :| n >= 1 && m >= 1 && RecordName(f, n) == RecordName(g, m) {
      if |Stem(f)| >= |Stem(g)| {
        RecordMeets(f, n, g, m);
      } else {
        RecordMeets(g, m, f, n);
      }
    }
    NumberedMeets(f, g);
    NumberedMeets(g, f);
  }

  lemma NumberedMeets(f: Family, g: Family)
    ensures Numbers(Stem(f), Stem(g)) ==> LogsMeet(f, g) && LogsMeet(g, f)
    ensures NumbersEntry(Stem(f), Stem(g)) ==> RecordsMeet(f, g) && RecordsMeet(g, f)
  {
    hide LogName, RecordName, Stem, NumberPart, AttemptPart;
    var x := EndOf(Stem(f), Stem(g));
    if k: nat, c: nat :| IsEnd(x, k, c) && Stem(f) == Stem(g) + x {
      NumberedLog(f, g, k, c);
      assert LogName(f, 1, 1) == LogName(g, k, c);
    }
    if k: nat :| IsEnd(x, k, 1) && Stem(f) == Stem(g) + x {
      NumberedRecord(f, g, k);
      assert RecordName(f, 1) == RecordName(g, k);
    }
  }

  /** The first log of the longer stem is the numbered one of the shorter. */
  lemma NumberedLog(f: Family, g: Family, k: nat, c: nat)
    requires Stem(f) == Stem(g) + (NumberPart(k) + AttemptPart(c))
    ensures LogName(f, 1, 1) == LogName(g, k, c)
  {
    hide *;
    NamesInParts(f, 1, 1);
    NamesInParts(g, k, c);
    PartsAreSimple(1);
    Regroup(Stem(g), NumberPart(k), AttemptPart(c), ".log");
    Regroup(Stem(f), "", "", ".log");
  }

  lemma NumberedRecord(f: Family, g: Family, k: nat)
    requires Stem(f) == Stem(g) + (NumberPart(k) + AttemptPart(1))
    ensures RecordName(f, 1) == RecordName(g, k)
  {
    hide *;
    NamesInParts(f, 1, 1);
    NamesInParts(g, k, 1);
    PartsAreSimple(1);
    Regroup(Stem(g), NumberPart(k), "", ".json");
    Regroup(Stem(f), "", "", ".json");
  }

  /** In one state of one task the condition is on the identities' own parts. */
  lemma IdentitiesDecide(task: string, state: string, a: Option<string>, b: Option<string>)
    ensures var f, g := Family(task, state, a), Family(task, state, b);
            && (Stem(f) == Stem(g) <==> IdentityPart(a) == IdentityPart(b))
            && (Numbers(Stem(f), Stem(g)) <==> Numbers(IdentityPart(a), IdentityPart(b)))
            && (NumbersEntry(Stem(f), Stem(g)) <==> NumbersEntry(IdentityPart(a), IdentityPart(b)))
  {
    hide IdentityPart, IsEnd;
    var front := "task-" + task + "-" + state;
    var f, g := Family(task, state, a), Family(task, state, b);
    var p, q := IdentityPart(a), IdentityPart(b);
    assert Stem(f) == front + p && Stem(g) == front + q;
    assert p == (front + p)[|front|..] && q == (front + q)[|front|..];
    assert EndOf(Stem(f), Stem(g)) == EndOf(p, q);
    var x := EndOf(p, q);
    assert front + (q + x) == (front + q) + x;
    assert (front + q + x)[|front|..] == q + x;
  }

  /** Two models of one state, fanned out: the second entry of `opus` is named as the first of `opus-2`. */
  lemma OpusMeets(task: string, state: string)
    ensures var f, g := Family(task, state, Some("opus-2")), Family(task, state, Some("opus"));
            && Numbers(Stem(f), Stem(g)) && NumbersEntry(Stem(f), Stem(g)) && Stem(f) != Stem(g)
            && LogName(g, 2, 1) == LogName(f, 1, 1) && RecordName(g, 2) == RecordName(f, 1)
  {
    var a, b := Some("opus-2"), Some("opus");
    var f, g := Family(task, state, a), Family(task, state, b);
    var p, q := IdentityPart(a), IdentityPart(b);
    assert p == "-opus-2" && q == "-opus" && p == q + "-2" && EndOf(p, q) == "-2";
    assert Decimal(2) == "2" && NumberPart(2) == "-2";
    PartsAreSimple(1);
    assert IsEnd(EndOf(p, q), 2, 1);
    IdentitiesDecide(task, state, a, b);
    hide Decimal, IdentityPart;
    var front := "task-" + task + "-" + state;
    assert front + p == (front + q) + (NumberPart(2) + AttemptPart(1));
    NumberedLog(f, g, 2, 1);
    NumberedRecord(f, g, 2);
  }

  // ----- a project of families -----

  datatype Spawns = Spawns(uses: seq<Use>, running: bool)

  /** One ledger, one directory of records and one of logs; `others` are logs that no spawn here made. */
  datatype Project = Project(items: seq<Item>, records: map<string, Record>, logs: set<string>,
                             others: set<string>, spawns: map<Family, Spawns>)

  /** The state each task starts in. */
  type Starts = string -> string

  function LogsOf(uses: seq<Use>): set<string> { set i | 0 <= i < |uses| :: uses[i].log }

  /** For one family, the logs of every other are somebody else's. */
  function OthersOf(p: Project, f: Family): set<string> {
    p.others + set g, name | g in p.spawns && g != f && name in LogsOf(p.spawns[g].uses) :: name
  }

  /** The project as one family sees it. */
  function View(p: Project, f: Family): World
    requires f in p.spawns
  {
    World(p.items, p.records, p.logs, OthersOf(p, f), p.spawns[f].uses, p.spawns[f].running)
  }

  /** No two families share a name. */
  ghost predicate Apart(f: Family, g: Family) { Stem(f) != Stem(g) && !LogsMeet(f, g) }

  ghost predicate AllApart(p: Project) {
    forall f, g | f in p.spawns && g in p.spawns && f != g :: Apart(f, g)
  }

  ghost predicate CanAct(starts: Starts, p: Project, f: Family, a: Action) {
    && f in p.spawns && Enabled(f, starts(f.task), View(p, f), a)
    && (a.Append? ==> forall g | g in p.spawns :: CanFollow(p.items, a.item, g.task, starts(g.task)))
    && (a.OtherRecord? ==> forall g | g in p.spawns :: !OfFamily(g, a.name))
  }

  function Act(starts: Starts, p: Project, f: Family, a: Action): Project
    requires f in p.spawns && (a.Ran? || a.NeverRan? ==> p.spawns[f].uses != [])
  {
    var w := Apply(f, starts(f.task), View(p, f), a);
    Project(w.items, w.records, w.logs, if a.OtherLog? then p.others + {a.name} else p.others,
            p.spawns[f := Spawns(w.uses, w.running)])
  }

  ghost predicate Sound(starts: Starts, p: Project) {
    forall g | g in p.spawns :: Inv(g, starts(g.task), View(p, g))
  }

  ghost predicate NoneStale(p: Project) {
    forall g | g in p.spawns :: NotStale(g, View(p, g))
  }

  /** What families besides two have given away. */
  function RestOf(p: Project, f: Family, g: Family): set<string> {
    set h, name | h in p.spawns && h != f && h != g && name in LogsOf(p.spawns[h].uses) :: name
  }

  lemma OthersInParts(p: Project, f: Family, g: Family)
    requires f in p.spawns && f != g
    ensures OthersOf(p, g) == p.others + LogsOf(p.spawns[f].uses) + RestOf(p, f, g)
  {
    hide LogsOf;
  }

  lemma RestStays(p: Project, f: Family, s: Spawns, g: Family)
    requires f in p.spawns
    ensures RestOf(p.(spawns := p.spawns[f := s]), f, g) == RestOf(p, f, g)
    ensures OthersOf(p.(spawns := p.spawns[f := s]), f) == OthersOf(p, f)
  {
    hide LogsOf;
    var q := p.(spawns := p.spawns[f := s]);
    assert forall h | h in p.spawns && h != f :: q.spawns[h] == p.spawns[h];
    assert q.spawns.Keys == p.spawns.Keys;
  }

  lemma OwnView(starts: Starts, p: Project, f: Family, a: Action)
    requires CanAct(starts, p, f, a)
    ensures View(Act(starts, p, f, a), f) == Apply(f, starts(f.task), View(p, f), a)
  {
    hide PlanSpawn, LogsOf, RestOf;
    var q := Act(starts, p, f, a);
    RestStays(p, f, q.spawns[f], f);
    assert OthersOf(q, f) == OthersOf(p, f) + q.others;
  }

  lemma LogsOfMore(uses: seq<Use>, u: Use)
    ensures LogsOf(uses + [u]) == LogsOf(uses) + {u.log}
  {
    assert forall i | 0 <= i < |uses| :: (uses + [u])[i] == uses[i];
    assert (uses + [u])[|uses|] == u;
  }

  lemma LogsOfAccounted(uses: seq<Use>)
    requires uses != []
    ensures var last := |uses| - 1; LogsOf(uses[last := uses[last].(accounted := true)]) == LogsOf(uses)
  {
    var last := |uses| - 1;
    var now := uses[last := uses[last].(accounted := true)];
    assert forall i | 0 <= i < |uses| :: now[i].log == uses[i].log;
  }

  /** What others have given away, seen by `g`, after a step of `f`. */
  lemma OthersAfter(starts: Starts, p: Project, f: Family, a: Action, g: Family)
    requires CanAct(starts, p, f, a) && g in p.spawns && g != f
    ensures var before, after, mine := OthersOf(p, g), OthersOf(Act(starts, p, f, a), g), View(p, f);
            match a
            case Start => after == before + {UseOf(f, mine).log}
            case NeverRan => after + {mine.uses[|mine.uses| - 1].log} == before + {mine.uses[|mine.uses| - 1].log}
            case OtherLog(name) => after == before + {name}
            case _ => after == before
  {
    hide PlanSpawn, LogsOf, RestOf, OthersOf;
    var q, uses := Act(starts, p, f, a), p.spawns[f].uses;
    OthersInParts(p, f, g);
    OthersInParts(q, f, g);
    RestStays(p, f, q.spawns[f], g);
    OthersDecideRest(p.(spawns := q.spawns), q, f, g);
    if a.Start? {
      LogsOfMore(uses, UseOf(f, View(p, f)));
    } else if a.NeverRan? {
      LogsOfMore(uses[..|uses| - 1], uses[|uses| - 1]);
      assert uses[..|uses| - 1] + [uses[|uses| - 1]] == uses;
    } else if a == Ran(true) {
      LogsOfAccounted(uses);
    }
  }

  lemma OthersDecideRest(p: Project, q: Project, f: Family, g: Family)
    requires p.spawns == q.spawns
    ensures RestOf(p, f, g) == RestOf(q, f, g)
  {}

  /** A family that is apart sees another's step as one of its environment, and keeps what it kept. */
  lemma OthersKeepSound(starts: Starts, p: Project, f: Family, a: Action, g: Family)
    requires CanAct(starts, p, f, a) && g in p.spawns && g != f && Apart(f, g)
    requires Inv(g, starts(g.task), View(p, g)) && Inv(f, starts(f.task), View(p, f))
    ensures Inv(g, starts(g.task), View(Act(starts, p, f, a), g))
  {
    hide PlanSpawn, Inv, LogName, RecordName, OthersOf, IsWalk;
    OthersAfter(starts, p, f, a, g);
    var start, w, v, mine := starts(g.task), View(p, g), View(Act(starts, p, f, a), g), View(p, f);
    if a.Append? {
      AppendHolds(g, start, w, a.item);
    } else if a.Start? {
      LogsHold(g, start, w, OtherLog(UseOf(f, mine).log));
    } else if a == Ran(true) {
      var last := mine.uses[|mine.uses| - 1];
      InvUses(f, starts(f.task), mine);
      assert IsUse(f, starts(f.task), mine, last);
      NotOfFamily(f, g, last.number);
      OtherRecordHolds(g, start, w, RecordName(f, last.number), RecordOf(f, last));
    } else if a.NeverRan? {
      var log := mine.uses[|mine.uses| - 1].log;
      LogsHold(g, start, w, Remove(log));
      FewerOthers(g, start, w.(logs := w.logs - {log}), v, log);
    } else if a.OtherLog? || a.Remove? {
      LogsHold(g, start, w, a);
    } else if a.OtherRecord? {
      OtherRecordHolds(g, start, w, a.name, a.record);
    } else {
      assert v == w;
    }
  }

  lemma FewerOthers(f: Family, start: string, w: World, v: World, log: string)
    requires Inv(f, start, w) && v == w.(others := v.others) && log !in w.logs
    requires v.others + {log} == w.others + {log}
    ensures Inv(f, start, v)
  {
    hide PlanSpawn, IsWalk, IsAccounted, Rise, UsesAreVisits;
    SameVisits(f, start, w, v);
    assert forall i | 0 <= i < |v.uses| && Unaccounted(v, i) :: Unaccounted(w, i);
    assert forall name | name in v.logs && name in w.others :: name in v.others;
  }

  /** The record of a family that is apart is none of this one's. */
  lemma NotOfFamily(f: Family, g: Family, n: nat)
    requires Apart(f, g) && n >= 1
    ensures !OfFamily(g, RecordName(f, n))
  {
    hide LogName, RecordName, Stem, IsEnd;
    FamiliesMeetExactly(f, g);
    assert NumbersEntry(Stem(f), Stem(g)) ==> Numbers(Stem(f), Stem(g));
    assert NumbersEntry(Stem(g), Stem(f)) ==> Numbers(Stem(g), Stem(f));
    assert !RecordsMeet(f, g);
  }

  lemma StepKeepsSound(starts: Starts, p: Project, f: Family, a: Action)
    requires Sound(starts, p) && NoneStale(p) && AllApart(p) && CanAct(starts, p, f, a)
    ensures Sound(starts, Act(starts, p, f, a)) && AllApart(Act(starts, p, f, a))
  {
    assert a.Ran? || a.NeverRan? ==> p.spawns[f].uses != [];
    hide PlanSpawn, Inv, NotStale, View, Apply, Enabled, Apart, CanAct;
    var q := Act(starts, p, f, a);
    assert q.spawns.Keys == p.spawns.Keys by { ActKeepsFamilies(starts, p, f, a); }
    forall g | g in q.spawns ensures Inv(g, starts(g.task), View(q, g)) {
      if g == f {
        OwnStepHolds(starts, p, f, a);
      } else {
        OthersKeepSound(starts, p, f, a, g);
      }
    }
  }

  lemma ActKeepsFamilies(starts: Starts, p: Project, f: Family, a: Action)
    requires f in p.spawns && (a.Ran? || a.NeverRan? ==> p.spawns[f].uses != [])
    ensures Act(starts, p, f, a).spawns.Keys == p.spawns.Keys
  {
    hide Apply;
  }

  lemma OwnStepHolds(starts: Starts, p: Project, f: Family, a: Action)
    requires CanAct(starts, p, f, a) && Inv(f, starts(f.task), View(p, f)) && NotStale(f, View(p, f))
    ensures Inv(f, starts(f.task), View(Act(starts, p, f, a), f))
  {
    hide Inv, NotStale, Apply, View;
    OwnView(starts, p, f, a);
    StepHolds(f, starts(f.task), View(p, f), a);
  }

  // ----- runs of a project -----

  ghost predicate ProjectRuns(starts: Starts, p: Project, acts: seq<(Family, Action)>)
    decreases |acts|, 0
  {
    acts == [] ||
    (var before := acts[..|acts| - 1];
     var (f, a) := acts[|acts| - 1];
     ProjectRuns(starts, p, before) && CanAct(starts, ProjectFinal(starts, p, before), f, a))
  }

  ghost function ProjectFinal(starts: Starts, p: Project, acts: seq<(Family, Action)>): Project
    requires ProjectRuns(starts, p, acts)
    decreases |acts|, 1
  {
    if acts == [] then p
    else
      var (f, a) := acts[|acts| - 1];
      Act(starts, ProjectFinal(starts, p, acts[..|acts| - 1]), f, a)
  }

  /** Every family's ticket has walked, and none has spawned. */
  ghost predicate ProjectInitial(starts: Starts, p: Project) {
    p.logs <= p.others && forall f | f in p.spawns :: IsWalk(p.items, f.task, starts(f.task)) && p.spawns[f] == Spawns([], false)
  }

  ghost predicate ProjectSteady(starts: Starts, p: Project, acts: seq<(Family, Action)>)
    requires ProjectRuns(starts, p, acts)
    decreases |acts|
  {
    NoneStale(ProjectFinal(starts, p, acts)) && (acts == [] || ProjectSteady(starts, p, acts[..|acts| - 1]))
  }

  lemma {:induction false} ProjectHolds(starts: Starts, p: Project, acts: seq<(Family, Action)>)
    requires ProjectInitial(starts, p) && AllApart(p) && ProjectRuns(starts, p, acts) && ProjectSteady(starts, p, acts)
    ensures Sound(starts, ProjectFinal(starts, p, acts)) && AllApart(ProjectFinal(starts, p, acts))
  {
    if acts == [] {
      forall f | f in p.spawns ensures Inv(f, starts(f.task), View(p, f)) {
        InitialHolds(f, starts(f.task), View(p, f));
      }
    } else {
      hide CanAct, Act, Sound, NoneStale, AllApart, ProjectInitial;
      var before := acts[..|acts| - 1];
      var (f, a) := acts[|acts| - 1];
      ProjectHolds(starts, p, before);
      StepKeepsSound(starts, ProjectFinal(starts, p, before), f, a);
    }
  }

  /** No family's plan takes a recorded spawn's log, of its own or of another family. */
  ghost predicate AllFresh(starts: Starts, p: Project) {
    forall f, g | f in p.spawns && g in p.spawns && Where(p.items, f.task, starts(f.task)) == f.state ::
      forall i | 0 <= i < |p.spawns[g].uses| && p.spawns[g].uses[i].accounted ::
        Next(f, View(p, f)).log != p.spawns[g].uses[i].log
  }

  /** Over every steady run of families that are apart, no plan takes the name of any family's recorded spawn;
      and a spawn is refused, unless a file no spawn made has its name, exactly if its own family left a log
      at it in this visit, and then with no record. */
  lemma ApartFamiliesAreFresh(starts: Starts, p: Project, acts: seq<(Family, Action)>)
    requires ProjectInitial(starts, p) && AllApart(p) && ProjectRuns(starts, p, acts) && ProjectSteady(starts, p, acts)
    ensures AllFresh(starts, ProjectFinal(starts, p, acts))
    ensures var v := ProjectFinal(starts, p, acts);
            forall f | f in v.spawns && Where(v.items, f.task, starts(f.task)) == f.state && Next(f, View(v, f)).log !in v.others ::
              && (Refused(f, View(v, f)) <==>
                    exists i | 0 <= i < |v.spawns[f].uses| :: HasPlannedLog(f, View(v, f), v.spawns[f].uses[i]))
              && (forall i | 0 <= i < |v.spawns[f].uses| && HasPlannedLog(f, View(v, f), v.spawns[f].uses[i]) ::
                    !v.spawns[f].uses[i].accounted)
  {
    var v := ProjectFinal(starts, p, acts);
    ProjectHolds(starts, p, acts);
    assert NoneStale(v);
    hide ProjectRuns, ProjectFinal, Inv, NotStale, PlanSpawn, OthersOf, Apart;
    forall f | f in v.spawns && Where(v.items, f.task, starts(f.task)) == f.state
      ensures forall g | g in v.spawns :: forall i | 0 <= i < |v.spawns[g].uses| && v.spawns[g].uses[i].accounted ::
                Next(f, View(v, f)).log != v.spawns[g].uses[i].log
      ensures Next(f, View(v, f)).log !in v.others ==>
              && (Refused(f, View(v, f)) <==>
                    exists i | 0 <= i < |v.spawns[f].uses| :: HasPlannedLog(f, View(v, f), v.spawns[f].uses[i]))
              && (forall i | 0 <= i < |v.spawns[f].uses| && HasPlannedLog(f, View(v, f), v.spawns[f].uses[i]) ::
                    !v.spawns[f].uses[i].accounted)
    {
      FamilyIsFresh(starts, v, f);
    }
  }

  lemma PlanIsApart(starts: Starts, p: Project, f: Family, g: Family)
    requires f in p.spawns && g in p.spawns && Apart(f, g) && Inv(g, starts(g.task), View(p, g))
    ensures Next(f, View(p, f)).log !in LogsOf(p.spawns[g].uses)
  {
    hide PlanSpawn, LogName, Stem, Entry, Moves, IsWalk, OthersOf;
    var w := View(p, g);
    PlanCounts(f, View(p, f));
    InvUses(g, starts(g.task), w);
    forall i | 0 <= i < |w.uses| ensures w.uses[i].log != Next(f, View(p, f)).log {
      assert IsUse(g, starts(g.task), w, w.uses[i]);
      assert !LogsMeet(f, g);
    }
  }

  lemma FamilyIsFresh(starts: Starts, p: Project, f: Family)
    requires Sound(starts, p) && NoneStale(p) && AllApart(p)
    requires f in p.spawns && Where(p.items, f.task, starts(f.task)) == f.state
    ensures forall g | g in p.spawns :: forall i | 0 <= i < |p.spawns[g].uses| && p.spawns[g].uses[i].accounted ::
              Next(f, View(p, f)).log != p.spawns[g].uses[i].log
    ensures Next(f, View(p, f)).log !in p.others ==>
              && (Refused(f, View(p, f)) <==>
                    exists i | 0 <= i < |p.spawns[f].uses| :: HasPlannedLog(f, View(p, f), p.spawns[f].uses[i]))
              && (forall i | 0 <= i < |p.spawns[f].uses| && HasPlannedLog(f, View(p, f), p.spawns[f].uses[i]) ::
                    !p.spawns[f].uses[i].accounted)
  {
    hide PlanSpawn, Inv, NotStale, Apart, Moves, Entry, HasPlannedLog;
    var w := View(p, f);
    forall g | g in p.spawns && g != f ensures Next(f, w).log !in LogsOf(p.spawns[g].uses) {
      PlanIsApart(starts, p, f, g);
    }
    FreshWhereNotStale(f, starts(f.task), w);
    InvIsBase(f, starts(f.task), w);
    PlannedLogsHaveNoRecord(f, starts(f.task), w);
    if Next(f, w).log !in p.others {
      assert Next(f, w).log !in w.others;
      PlannedLogs(f, starts(f.task), w);
    }
  }

  lemma InvIsBase(f: Family, start: string, w: World)
    requires Inv(f, start, w)
    ensures Base(f, start, w)
  {}

  // ----- families that are not apart -----

  /** Two families and nothing else yet. */
  function Pair(f: Family, g: Family): Project {
    Project([], map[], {}, {}, map[f := Spawns([], false), g := Spawns([], false)])
  }

  predicate InOnePlace(f: Family, g: Family) { f.task == g.task && f.state == g.state }

  /** One family under two spellings of its identity. */
  predicate AreOne(f: Family, g: Family) {
    InOnePlace(f, g) && IdentityPart(f.identity) == IdentityPart(g.identity)
  }

  /** Where the ticket of `short` comes from. */
  function Elsewhere(long: Family, short: Family): string {
    if long.task == short.task then long.state else short.state + "-"
  }

  function StartsOf(long: Family, short: Family): Starts {
    (task: string) => if task == long.task then long.state else Elsewhere(long, short)
  }

  /** The ticket of `short` comes to its state, unless the two are in one place. */
  function Lead(long: Family, short: Family): seq<Item> {
    if InOnePlace(long, short) then [] else [Moved(short.task, Elsewhere(long, short), short.state)]
  }

  function Round(f: Family): Item { Moved(f.task, f.state, f.state) }

  /** And then leaves it for the same state, `j` times. */
  function Arrived(long: Family, short: Family, j: nat): seq<Item> {
    Lead(long, short) + Repeat(Round(short), j)
  }

  /** How often it has moved by then. */
  function Turns(long: Family, short: Family, j: nat): nat { |Lead(long, short)| + j }

  lemma ComesToState(long: Family, short: Family)
    ensures var items, starts := Lead(long, short), StartsOf(long, short);
            && Moves(items, short.task) == |items| && Arrivals(items, short.task, short.state) == |items|
            && FirstFrom(items, short.task) == (if items == [] then None else Some(Elsewhere(long, short)))
            && Where(items, short.task, starts(short.task)) == short.state
            && IsWalk(items, short.task, starts(short.task)) && IsWalk(items, long.task, starts(long.task))
            && (MovedSince(items, 0, long.task) <==> long.task == short.task && items != [])
            && Moves(items, long.task) == (if long.task == short.task then |items| else 0)
            && !MovedSince(items, |items|, short.task)
    ensures Lead(long, short) != [] ==> Elsewhere(long, short) != short.state
  {
    var items := Lead(long, short);
    if !InOnePlace(long, short) {
      var x := items[0];
      assert items == [x] && items[..|items| - 1] == [];
      assert Moves([], short.task) == 0 && Where([], short.task, StartsOf(long, short)(short.task)) == Elsewhere(long, short);
      assert IsMove(x, short.task) && (IsMove(x, long.task) <==> long.task == short.task);
      assert |short.state + "-"| > |short.state|;
    }
  }

  lemma ArrivedNext(long: Family, short: Family, j: nat)
    ensures Arrived(long, short, j + 1) == Arrived(long, short, j) + [Round(short)]
    ensures Arrived(long, short, 0) == Lead(long, short) && |Arrived(long, short, j)| == Turns(long, short, j)
  {
    assert Repeat(Round(short), j + 1) == Repeat(Round(short), j) + [Round(short)];
  }

  /** One more round of the short one's ticket, in the state. */
  lemma RoundAdds(items: seq<Item>, long: Family, short: Family, start: string, other: string)
    requires Where(items, short.task, start) == short.state
    ensures var more := items + [Round(short)];
            && Moves(more, short.task) == Moves(items, short.task) + 1
            && Arrivals(more, short.task, short.state) == Arrivals(items, short.task, short.state) + 1
            && FirstFrom(more, short.task)
               == (if FirstFrom(items, short.task).None? then Some(short.state) else FirstFrom(items, short.task))
            && Where(more, short.task, start) == short.state
            && (IsWalk(items, short.task, start) ==> IsWalk(more, short.task, start))
            && (long.task != short.task && IsWalk(items, long.task, other) ==> IsWalk(more, long.task, other))
            && (MovedSince(more, 0, long.task) <==> MovedSince(items, 0, long.task) || long.task == short.task)
            && Moves(more, long.task) == Moves(items, long.task) + (if long.task == short.task then 1 else 0)
            && !MovedSince(more, |more|, short.task)
  {
    var more := items + [Round(short)];
    assert more[..|items|] == items && more[|items|] == Round(short);
  }

  lemma {:induction false} ArrivedIs(long: Family, short: Family, j: nat)
    ensures var items, starts, n := Arrived(long, short, j), StartsOf(long, short), Turns(long, short, j);
            && |items| == n && Moves(items, short.task) == n
            && Arrivals(items, short.task, short.state) == n
            && FirstFrom(items, short.task)
               == (if n == 0 then None else if InOnePlace(long, short) then Some(short.state) else Some(Elsewhere(long, short)))
            && Where(items, short.task, starts(short.task)) == short.state
            && IsWalk(items, short.task, starts(short.task)) && IsWalk(items, long.task, starts(long.task))
            && (MovedSince(items, 0, long.task) <==> long.task == short.task && n > 0)
            && Moves(items, long.task) == (if long.task == short.task then n else 0)
            && !MovedSince(items, n, short.task)
  {
    hide Arrived, Round, Moves, Arrivals, FirstFrom, Where, IsWalk, MovedSince;
    ComesToState(long, short);
    ArrivedNext(long, short, 0);
    if j > 0 {
      ArrivedIs(long, short, j - 1);
      ArrivedNext(long, short, j - 1);
      ArrivedNext(long, short, j);
      var starts := StartsOf(long, short);
      RoundAdds(Arrived(long, short, j - 1), long, short, starts(short.task), starts(long.task));
    }
  }

  lemma ArrivedEntry(long: Family, short: Family, j: nat)
    ensures Entry(Arrived(long, short, j), short.task, short.state) == j + 1
  {
    ArrivedIs(long, short, j);
    ComesToState(long, short);
    hide Arrived, Arrivals, FirstFrom;
  }

  function FirstUse(f: Family): Use { Use(0, 1, 0, 1, LogName(f, 1, 1), true) }

  /** The names of an entry's attempts between two are free. */
  predicate AreFree(logs: set<string>, f: Family, n: nat, b: nat, c: nat) {
    forall a | b < a < c :: LogName(f, n, a) !in logs
  }

  /** `long` has its recorded first spawn, the ticket of `short` is in its state and has gone round `j` times,
      and `short` has `b` recorded spawns in the visit after that; the next `c - b` names of it are free but
      the last. */
  ghost predicate Stage(p: Project, long: Family, short: Family, c: nat, j: nat, b: nat) {
    var n := Turns(long, short, j);
    && p.items == Arrived(long, short, j) && p.spawns.Keys == {long, short}
    && p.spawns[long] == Spawns([FirstUse(long)], false)
    && !p.spawns[short].running && |p.spawns[short].uses| == b
    && (forall i | 0 <= i < b :: p.spawns[short].uses[i].at == n && p.spawns[short].uses[i].moves == n)
    && AreFree(p.logs, short, j + 1, b, c)
    && (if b > 0 then
          && RecordName(short, j + 1) in p.records
          && p.records[RecordName(short, j + 1)].moves == n && p.records[RecordName(short, j + 1)].attempt == b
        else p.records == map[RecordName(long, 1) := RecordOf(long, FirstUse(long))]
             && p.logs == {LogName(long, 1, 1)})
  }

  /** The first name of `long` is that of attempt `c` of entry `k` of `short`, another family. */
  predicate Clashing(long: Family, short: Family, k: nat, c: nat) {
    && long != short && k >= 1 && c >= 1
    && Stem(long) == Stem(short) + (NumberPart(k) + AttemptPart(c))
    && (InOnePlace(long, short) ==> k > 1 || c > 1)
  }

  lemma ClashingNames(long: Family, short: Family, k: nat, c: nat)
    requires Clashing(long, short, k, c)
    ensures LogName(long, 1, 1) == LogName(short, k, c)
    ensures InOnePlace(long, short) ==> RecordName(long, 1) != RecordName(short, 1)
  {
    NumberedLog(long, short, k, c);
    NamesInParts(long, 1, 1);
    NamesInParts(short, 1, 1);
    PartsAreSimple(1);
    PartsAreSimple(k);
    PartsAreSimple(c);
    hide LogName, RecordName, Stem, NumberPart, AttemptPart, InOnePlace;
    assert InOnePlace(long, short) ==> |Stem(long)| > |Stem(short)|;
  }

  lemma StageIsNotStale(p: Project, long: Family, short: Family, c: nat, j: nat, b: nat)
    requires Stage(p, long, short, c, j, b)
    ensures NoneStale(p)
  {
    ArrivedIs(long, short, j);
    hide LogName, RecordName, Moves, MovedSince, OthersOf, Arrived, Turns, Where, IsWalk;
    assert forall g | g in p.spawns :: g == long || g == short;
    assert View(p, long).uses == [FirstUse(long)] && View(p, short).uses == p.spawns[short].uses;
  }

  /** At a stage the record that answers for `short` is its last attempt's. */
  lemma StagePrevious(p: Project, long: Family, short: Family, k: nat, c: nat, j: nat, b: nat)
    requires Clashing(long, short, k, c) && Stage(p, long, short, c, j, b) && (b > 0 ==> j + 1 == k)
    ensures var found, n := CurrentVisitRecord(short, p.records, j + 1, Turns(long, short, j)), Turns(long, short, j);
            if b == 0 then found.None? || found.value.moves != n
            else found.Some? && found.value.moves == n && found.value.attempt == b
  {
    ClashingNames(long, short, k, c);
    UnsuffixedIsFirst(short);
    hide LogName, RecordName, RecordPath, Stem, NumberPart, AttemptPart, Arrived, AreFree;
    if b == 0 {
      assert RecordOf(long, FirstUse(long)).moves == 0;
      if Turns(long, short, j) == 0 {
        assert InOnePlace(long, short) && j == 0;
        assert RecordName(short, j + 1) == RecordName(short, 1);
      }
    }
  }

  /** At a stage the plan of `short` is its next attempt. */
  lemma StagePlan(p: Project, long: Family, short: Family, k: nat, c: nat, j: nat, b: nat)
    requires Clashing(long, short, k, c) && Stage(p, long, short, c, j, b) && (b > 0 ==> j + 1 == k)
    ensures var u := Attempt(long, short, j, b);
            && UseOf(short, View(p, short)) == u && Next(short, View(p, short)).log == u.log
            && Next(short, View(p, short)).attempt == b + 1
  {
    ArrivedIs(long, short, j);
    ArrivedEntry(long, short, j);
    StagePrevious(p, long, short, k, c, j, b);
    hide LogName, RecordName, CurrentVisitRecord, Moves, Entry, OthersOf, Clashing, Arrived, Turns, AreFree;
  }

  lemma ProjectThen(starts: Starts, p: Project, acts: seq<(Family, Action)>, f: Family, a: Action)
    returns (longer: seq<(Family, Action)>)
    requires ProjectRuns(starts, p, acts) && CanAct(starts, ProjectFinal(starts, p, acts), f, a)
    ensures longer == acts + [(f, a)]
    ensures ProjectRuns(starts, p, longer) && ProjectFinal(starts, p, longer) == Act(starts, ProjectFinal(starts, p, acts), f, a)
    ensures ProjectSteady(starts, p, acts) && NoneStale(ProjectFinal(starts, p, longer)) ==> ProjectSteady(starts, p, longer)
  {
    hide CanAct, Act, NoneStale;
    longer := acts + [(f, a)];
    assert longer[..|longer| - 1] == acts;
  }

  /** After the first spawn of `long` has started, and after it is recorded. */
  function OnceStarted(long: Family, short: Family): Project {
    Project([], map[], {LogName(long, 1, 1)}, {},
            map[long := Spawns([FirstUse(long).(accounted := false)], true), short := Spawns([], false)])
  }

  function OnceRecorded(long: Family, short: Family, items: seq<Item>): Project {
    Project(items, map[RecordName(long, 1) := RecordOf(long, FirstUse(long))], {LogName(long, 1, 1)}, {},
            map[long := Spawns([FirstUse(long)], false), short := Spawns([], false)])
  }

  lemma LongPlan(long: Family, w: World)
    requires w.items == [] && w.records == map[] && w.uses == []
    ensures UseOf(long, w) == FirstUse(long).(accounted := false)
    ensures Next(long, w).log == LogName(long, 1, 1)
  {
    hide LogName, RecordName;
  }

  lemma LongStarts(long: Family, short: Family)
    requires long != short
    ensures var starts, p := StartsOf(long, short), Pair(long, short);
            && CanAct(starts, p, long, Start) && Act(starts, p, long, Start) == OnceStarted(long, short)
            && NoneStale(p) && NoneStale(OnceStarted(long, short))
  {
    var starts, p := StartsOf(long, short), Pair(long, short);
    LongPlan(long, View(p, long));
    hide LogName, RecordName, PlanSpawn, OthersOf, UseOf, Next, Elsewhere;
    var w := Apply(long, long.state, View(p, long), Start);
    assert w.uses == [FirstUse(long).(accounted := false)];
    assert Act(starts, p, long, Start).spawns == OnceStarted(long, short).spawns;
  }

  lemma LongIsRecorded(long: Family, short: Family)
    requires long != short
    ensures var starts, p := StartsOf(long, short), OnceStarted(long, short);
            && CanAct(starts, p, long, Ran(true)) && Act(starts, p, long, Ran(true)) == OnceRecorded(long, short, [])
            && NoneStale(OnceRecorded(long, short, []))
  {
    var starts, p := StartsOf(long, short), OnceStarted(long, short);
    hide LogName, RecordName, PlanSpawn, OthersOf, UseOf, Next, Elsewhere;
    var w := Apply(long, long.state, View(p, long), Ran(true));
    assert w.uses == [FirstUse(long)];
    assert Act(starts, p, long, Ran(true)).spawns == OnceRecorded(long, short, []).spawns;
  }

  lemma RecordedIsStage(long: Family, short: Family, k: nat, c: nat)
    requires Clashing(long, short, k, c)
    ensures Stage(OnceRecorded(long, short, Lead(long, short)), long, short, c, 0, 0)
    ensures NoneStale(OnceRecorded(long, short, Lead(long, short)))
  {
    FreeBefore(long, short, k, c);
    ArrivedNext(long, short, 0);
    var p := OnceRecorded(long, short, Lead(long, short));
    assert long != short;
    hide LogName, RecordName, Clashing, AreFree, Arrived, Lead;
    assert AreFree({LogName(long, 1, 1)}, short, 1, 0, c);
    StageIsNotStale(p, long, short, c, 0, 0);
  }

  /** A walk of the ticket changes the ledger and nothing else. */
  lemma TicketMoves(starts: Starts, p: Project, f: Family, x: Item)
    requires f in p.spawns && forall g | g in p.spawns :: CanFollow(p.items, x, g.task, starts(g.task))
    ensures CanAct(starts, p, f, Append(x)) && Act(starts, p, f, Append(x)) == p.(items := p.items + [x])
  {
    hide OthersOf, CanFollow;
    assert Act(starts, p, f, Append(x)).spawns == p.spawns;
  }

  lemma LeadIsAppended(long: Family, short: Family)
    requires !InOnePlace(long, short) && long != short
    ensures var starts, p := StartsOf(long, short), OnceRecorded(long, short, []);
            && CanAct(starts, p, short, Append(Lead(long, short)[0]))
            && Act(starts, p, short, Append(Lead(long, short)[0])) == OnceRecorded(long, short, Lead(long, short))
  {
    var starts, p := StartsOf(long, short), OnceRecorded(long, short, []);
    var x := Lead(long, short)[0];
    assert [] + [x] == Lead(long, short);
    hide LogName, RecordName;
    assert forall g | g in p.spawns :: g == long || g == short;
    TicketMoves(starts, p, short, x);
  }

  lemma FirstOfLong(long: Family, short: Family, k: nat, c: nat) returns (acts: seq<(Family, Action)>)
    requires Clashing(long, short, k, c)
    ensures var starts, p := StartsOf(long, short), Pair(long, short);
            && ProjectRuns(starts, p, acts) && ProjectSteady(starts, p, acts)
            && Stage(ProjectFinal(starts, p, acts), long, short, c, 0, 0)
  {
    var starts, p := StartsOf(long, short), Pair(long, short);
    LongStarts(long, short);
    LongIsRecorded(long, short);
    RecordedIsStage(long, short, k, c);
    if !InOnePlace(long, short) {
      LeadIsAppended(long, short);
    } else {
      assert Lead(long, short) == [];
    }
    hide Stage, Clashing, Pair, CanAct, Act, NoneStale, LogName, RecordName, OnceStarted, OnceRecorded, StartsOf, Lead;
    acts := [];
    acts := ProjectThen(starts, p, acts, long, Start);
    acts := ProjectThen(starts, p, acts, long, Ran(true));
    if !InOnePlace(long, short) {
      acts := ProjectThen(starts, p, acts, short, Append(Lead(long, short)[0]));
    }
  }

  /** The clashing name is not that of an earlier attempt of any entry. */
  lemma FreeBefore(long: Family, short: Family, k: nat, c: nat)
    requires Clashing(long, short, k, c)
    ensures forall n: nat | n >= 1 :: AreFree({LogName(long, 1, 1)}, short, n, 0, c)
  {
    ClashingNames(long, short, k, c);
    hide LogName;
    forall n: nat, a | n >= 1 && 0 < a < c ensures LogName(short, n, a) != LogName(long, 1, 1) {
      NamesAreDistinct(short, n, a, k, c);
    }
  }

  lemma GoesRound(p: Project, long: Family, short: Family, k: nat, c: nat, j: nat)
    requires Clashing(long, short, k, c) && Stage(p, long, short, c, j, 0)
    ensures var starts, q := StartsOf(long, short), p.(items := p.items + [Round(short)]);
            && CanAct(starts, p, short, Append(Round(short))) && Act(starts, p, short, Append(Round(short))) == q
            && Stage(q, long, short, c, j + 1, 0) && NoneStale(q)
  {
    ArrivedIs(long, short, j);
    ArrivedNext(long, short, j);
    FreeBefore(long, short, k, c);
    var starts, q := StartsOf(long, short), p.(items := p.items + [Round(short)]);
    RoundFollows(p.items, long, short);
    hide LogName, RecordName, Clashing, AreFree, Arrived, Where, IsWalk, Moves, MovedSince, CanFollow, Round;
    assert AreFree({LogName(long, 1, 1)}, short, j + 1 + 1, 0, c);
    assert Stage(q, long, short, c, j + 1, 0);
    StageIsNotStale(q, long, short, c, j + 1, 0);
    assert forall g | g in p.spawns :: g == long || g == short;
    TicketMoves(starts, p, short, Round(short));
  }

  lemma RoundFollows(items: seq<Item>, long: Family, short: Family)
    requires Where(items, short.task, StartsOf(long, short)(short.task)) == short.state
    ensures CanFollow(items, Round(short), short.task, StartsOf(long, short)(short.task))
    ensures CanFollow(items, Round(short), long.task, StartsOf(long, short)(long.task))
  {}

  lemma {:induction false} Rounded(long: Family, short: Family, k: nat, c: nat, j: nat) returns (acts: seq<(Family, Action)>)
    requires Clashing(long, short, k, c)
    ensures var starts, p := StartsOf(long, short), Pair(long, short);
            && ProjectRuns(starts, p, acts) && ProjectSteady(starts, p, acts)
            && Stage(ProjectFinal(starts, p, acts), long, short, c, j, 0)
  {
    if j == 0 {
      acts := FirstOfLong(long, short, k, c);
    } else {
      acts := Rounded(long, short, k, c, j - 1);
      var starts, p := StartsOf(long, short), Pair(long, short);
      GoesRound(ProjectFinal(starts, p, acts), long, short, k, c, j - 1);
      hide Stage, Clashing, Pair, CanAct, Act, NoneStale, StartsOf;
      acts := ProjectThen(starts, p, acts, short, Append(Round(short)));
    }
  }

  /** The next attempt of `short`, and its project while it runs and once it is recorded. */
  function Attempt(long: Family, short: Family, j: nat, b: nat): Use {
    Use(Turns(long, short, j), j + 1, Turns(long, short, j), b + 1, LogName(short, j + 1, b + 1), false)
  }

  function Attempting(p: Project, short: Family, u: Use): Project
    requires short in p.spawns
  {
    p.(logs := p.logs + {u.log}, spawns := p.spawns[short := Spawns(p.spawns[short].uses + [u], true)])
  }

  function Attempted(p: Project, short: Family, u: Use): Project
    requires short in p.spawns
  {
    p.(logs := p.logs + {u.log}, records := p.records[RecordName(short, u.number) := RecordOf(short, u)],
       spawns := p.spawns[short := Spawns(p.spawns[short].uses + [u.(accounted := true)], false)])
  }

  /** A spawn that may start, starts. */
  lemma SpawnStarts(starts: Starts, p: Project, f: Family, u: Use)
    requires f in p.spawns && !p.spawns[f].running && Where(p.items, f.task, starts(f.task)) == f.state
    requires UseOf(f, View(p, f)) == u && Next(f, View(p, f)).log == u.log && u.log !in p.logs
    ensures CanAct(starts, p, f, Start) && Act(starts, p, f, Start) == Attempting(p, f, u)
  {
    hide LogName, RecordName, PlanSpawn, OthersOf, UseOf, Next, Where;
    assert Act(starts, p, f, Start).spawns == Attempting(p, f, u).spawns;
  }

  lemma AttemptStarts(p: Project, long: Family, short: Family, k: nat, c: nat, b: nat)
    requires Clashing(long, short, k, c) && Stage(p, long, short, c, k - 1, b) && b + 1 < c
    ensures var starts, u := StartsOf(long, short), Attempt(long, short, k - 1, b);
            CanAct(starts, p, short, Start) && Act(starts, p, short, Start) == Attempting(p, short, u)
  {
    ArrivedIs(long, short, k - 1);
    StagePlan(p, long, short, k, c, k - 1, b);
    hide LogName, RecordName, Next, UseOf, OthersOf, Clashing, Arrived, Where, IsWalk, Moves, MovedSince, StartsOf;
    SpawnStarts(StartsOf(long, short), p, short, Attempt(long, short, k - 1, b));
  }

  lemma AttemptIsNotStale(p: Project, long: Family, short: Family, k: nat, c: nat, b: nat)
    requires Clashing(long, short, k, c) && Stage(p, long, short, c, k - 1, b)
    ensures NoneStale(Attempting(p, short, Attempt(long, short, k - 1, b)))
  {
    StageIsNotStale(p, long, short, c, k - 1, b);
    var u := Attempt(long, short, k - 1, b);
    var q := Attempting(p, short, u);
    assert !u.accounted;
    hide Stage, NotStale, OthersOf, Attempt, Clashing, Moves, MovedSince;
    forall g | g in q.spawns ensures NotStale(g, View(q, g)) {
      assert NotStale(g, View(p, g));
      if g == short {
        OneMoreIsNotStale(g, View(p, g), View(q, g), u);
      } else {
        SameIsNotStale(g, View(p, g), View(q, g));
      }
    }
  }

  lemma OneMoreIsNotStale(f: Family, w: World, v: World, u: Use)
    requires NotStale(f, w) && v.items == w.items && v.uses == w.uses + [u] && !u.accounted
    ensures NotStale(f, v)
  {
    hide Moves, MovedSince;
    assert forall i | 0 <= i < |w.uses| :: v.uses[i] == w.uses[i] && !IsStale(f, w, w.uses[i]);
  }

  lemma SameIsNotStale(f: Family, w: World, v: World)
    requires NotStale(f, w) && v.items == w.items && v.uses == w.uses
    ensures NotStale(f, v)
  {
    hide Moves, MovedSince;
    assert forall i | 0 <= i < |w.uses| :: !IsStale(f, w, w.uses[i]);
  }

  lemma AttemptIsRecorded(starts: Starts, p: Project, short: Family, u: Use)
    requires short in p.spawns && !u.accounted
    ensures var q := Attempting(p, short, u);
            CanAct(starts, q, short, Ran(true)) && Act(starts, q, short, Ran(true)) == Attempted(p, short, u)
  {
    hide LogName, RecordName, PlanSpawn, OthersOf, UseOf, Next;
    var q := Attempting(p, short, u);
    var uses := p.spawns[short].uses;
    assert (uses + [u])[|uses| := u.(accounted := true)] == uses + [u.(accounted := true)];
    assert Act(starts, q, short, Ran(true)).spawns == Attempted(p, short, u).spawns;
  }

  lemma NextIsFree(logs: set<string>, f: Family, n: nat, b: nat, c: nat)
    requires AreFree(logs, f, n, b, c) && n >= 1
    ensures AreFree(logs + {LogName(f, n, b + 1)}, f, n, b + 1, c)
  {
    hide LogName;
    forall a | b + 1 < a < c ensures LogName(f, n, a) !in logs + {LogName(f, n, b + 1)} {
      NamesAreDistinct(f, n, a, n, b + 1);
    }
  }

  lemma AttemptedIsStage(p: Project, long: Family, short: Family, k: nat, c: nat, b: nat)
    requires Clashing(long, short, k, c) && Stage(p, long, short, c, k - 1, b) && b + 1 < c
    ensures Stage(Attempted(p, short, Attempt(long, short, k - 1, b)), long, short, c, k - 1, b + 1)
  {
    var u := Attempt(long, short, k - 1, b);
    var q := Attempted(p, short, u);
    NextIsFree(p.logs, short, k, b, c);
    assert long != short;
    hide LogName, RecordName, Clashing, Arrived, AreFree, Turns, Lead;
    assert q.spawns.Keys == p.spawns.Keys && q.spawns[long] == p.spawns[long];
    var uses := p.spawns[short].uses;
    assert q.spawns[short].uses == uses + [u.(accounted := true)];
    assert forall i | 0 <= i < b :: (uses + [u.(accounted := true)])[i] == uses[i];
    assert q.records[RecordName(short, k)] == RecordOf(short, u);
  }

  lemma {:induction false} Reattempted(long: Family, short: Family, k: nat, c: nat, b: nat) returns (acts: seq<(Family, Action)>)
    requires Clashing(long, short, k, c) && b < c
    ensures var starts, p := StartsOf(long, short), Pair(long, short);
            && ProjectRuns(starts, p, acts) && ProjectSteady(starts, p, acts)
            && Stage(ProjectFinal(starts, p, acts), long, short, c, k - 1, b)
  {
    if b == 0 {
      acts := Rounded(long, short, k, c, k - 1);
    } else {
      acts := Reattempted(long, short, k, c, b - 1);
      var starts, p := StartsOf(long, short), Pair(long, short);
      var now, u := ProjectFinal(starts, p, acts), Attempt(long, short, k - 1, b - 1);
      AttemptStarts(now, long, short, k, c, b - 1);
      AttemptIsRecorded(starts, now, short, u);
      AttemptIsNotStale(now, long, short, k, c, b - 1);
      AttemptedIsStage(now, long, short, k, c, b - 1);
      StageIsNotStale(Attempted(now, short, u), long, short, c, k - 1, b);
      hide Stage, Clashing, Pair, CanAct, Act, NoneStale, StartsOf, Attempting, Attempted, Attempt;
      acts := ProjectThen(starts, p, acts, short, Start);
      acts := ProjectThen(starts, p, acts, short, Ran(true));
    }
  }

  /** Families that are not apart clash in some steady run: the first spawn of the longer is recorded, and the
      shorter comes to the entry and attempt that its name tells. */
  lemma NumberedFamiliesClash(long: Family, short: Family, k: nat, c: nat) returns (acts: seq<(Family, Action)>)
    requires Clashing(long, short, k, c)
    ensures var starts, p := StartsOf(long, short), Pair(long, short);
            && ProjectRuns(starts, p, acts) && ProjectSteady(starts, p, acts)
            && !AllFresh(starts, ProjectFinal(starts, p, acts))
  {
    acts := Reattempted(long, short, k, c, c - 1);
    var starts := StartsOf(long, short);
    var v := ProjectFinal(starts, Pair(long, short), acts);
    StagePlan(v, long, short, k, c, k - 1, c - 1);
    ClashingNames(long, short, k, c);
    ArrivedIs(long, short, k - 1);
    hide ProjectRuns, ProjectFinal, ProjectSteady, LogName, RecordName, PlanSpawn, Clashing, Next, StartsOf, Where, IsWalk, Moves, MovedSince;
    assert v.spawns[long].uses[0] == FirstUse(long);
  }

  /** Some steady run of two families from nothing comes to a plan that takes a recorded name. */
  ghost predicate CanClash(f: Family, g: Family) {
    exists starts: Starts, acts :: Clashes(starts, f, g, acts)
  }

  ghost predicate Clashes(starts: Starts, f: Family, g: Family, acts: seq<(Family, Action)>) {
    && ProjectRuns(starts, Pair(f, g), acts) && ProjectSteady(starts, Pair(f, g), acts)
    && !AllFresh(starts, ProjectFinal(starts, Pair(f, g), acts))
  }

  lemma PairsAreSame(f: Family, g: Family)
    ensures Pair(f, g) == Pair(g, f)
  {
    assert Pair(f, g).spawns == Pair(g, f).spawns;
  }

  lemma ApartPairIsFresh(f: Family, g: Family)
    requires Apart(f, g) && Apart(g, f)
    ensures !CanClash(f, g)
  {
    var p := Pair(f, g);
    assert AllApart(p) by { assert p.spawns.Keys == {f, g}; }
    hide AllFresh, Apart, AllApart;
    forall starts: Starts, acts | ProjectRuns(starts, p, acts) && ProjectSteady(starts, p, acts)
      ensures AllFresh(starts, ProjectFinal(starts, p, acts))
    {
      assert ProjectInitial(starts, p);
      hide ProjectInitial, Pair;
      ApartFamiliesAreFresh(starts, p, acts);
    }
  }

  lemma LongerClashes(f: Family, g: Family)
    requires !AreOne(f, g) && (Stem(f) == Stem(g) || Numbers(Stem(f), Stem(g)))
    ensures CanClash(f, g)
  {
    PartsAreSimple(1);
    IdentitiesDecide(f.task, f.state, f.identity, g.identity);
    var k: nat, c: nat := 1, 1;
    if Stem(f) == Stem(g) {
      assert Stem(f) == Stem(g) + (NumberPart(1) + AttemptPart(1));
      assert InOnePlace(f, g) ==> f == Family(f.task, f.state, f.identity) && g == Family(f.task, f.state, g.identity);
    } else {
      k, c :| IsEnd(EndOf(Stem(f), Stem(g)), k, c) && Stem(f) == Stem(g) + EndOf(Stem(f), Stem(g));
    }
    hide Stem, NumberPart, AttemptPart, IdentityPart, EndOf, Numbers, NumbersEntry;
    assert Clashing(f, g, k, c);
    var acts := NumberedFamiliesClash(f, g, k, c);
    assert Clashes(StartsOf(f, g), f, g, acts);
  }

  /** Exactly: any two families, of whatever tasks and states, can come to clash exactly if their stems are
      equal or one is the other with the number of a later entry or attempt after it; that is, if they are
      not apart. */
  lemma FamiliesClashExactly(f: Family, g: Family)
    requires !AreOne(f, g)
    ensures CanClash(f, g) <==> Stem(f) == Stem(g) || Numbers(Stem(f), Stem(g)) || Numbers(Stem(g), Stem(f))
    ensures CanClash(f, g) <==> !Apart(f, g)
  {
    assert !AreOne(g, f);
    if Stem(f) != Stem(g) {
      FamiliesMeetExactly(f, g);
      FamiliesMeetExactly(g, f);
    }
    hide AreOne, Stem, LogName, RecordName, IsEnd, EndOf, Numbers, NumbersEntry, Pair, Clashes;
    if Apart(f, g) {
      ApartPairIsFresh(f, g);
    } else if Stem(f) == Stem(g) || Numbers(Stem(f), Stem(g)) {
      LongerClashes(f, g);
    } else {
      LongerClashes(g, f);
      ClashBothWays(g, f);
    }
  }

  lemma ClashBothWays(f: Family, g: Family)
    requires CanClash(f, g)
    ensures CanClash(g, f)
  {
    PairsAreSame(f, g);
    hide ProjectRuns, ProjectSteady, AllFresh, ProjectFinal, Pair;
    var starts: Starts, acts :| Clashes(starts, f, g, acts);
    assert Clashes(starts, g, f, acts);
  }

  /** Two identities of one state of one task, with different parts in their names, can come to clash exactly
      if one part is the other with the number of a later entry or attempt after it. */
  lemma IdentitiesClashExactly(f: Family, g: Family)
    requires f.task == g.task && f.state == g.state && IdentityPart(f.identity) != IdentityPart(g.identity)
    ensures CanClash(f, g) <==>
              || Numbers(IdentityPart(f.identity), IdentityPart(g.identity))
              || Numbers(IdentityPart(g.identity), IdentityPart(f.identity))
  {
    assert f == Family(f.task, f.state, f.identity) && g == Family(f.task, f.state, g.identity);
    IdentitiesDecide(f.task, f.state, f.identity, g.identity);
    IdentitiesDecide(f.task, f.state, g.identity, f.identity);
    hide IdentityPart, Stem, Numbers, NumbersEntry, CanClash, Apart;
    FamiliesClashExactly(f, g);
  }

  /** A state with an identity is named as the state of both names is without one. */
  lemma StatesMeet(task: string)
    ensures CanClash(Family(task, "review", Some("fix")), Family(task, "review-fix", None))
  {
    var f, g := Family(task, "review", Some("fix")), Family(task, "review-fix", None);
    assert Stem(f) == Stem(g);
    FamiliesClashExactly(f, g);
    hide *;
  }

  /** A state's second entry is named as the first of the state that ends in its number. */
  lemma NumberedStatesMeet(task: string)
    ensures CanClash(Family(task, "draft-2", None), Family(task, "draft", None))
  {
    var f, g := Family(task, "draft-2", None), Family(task, "draft", None);
    assert Stem(f) == Stem(g) + "-2" && !AreOne(f, g);
    hide Stem, CanClash, AreOne, Numbers, NumbersEntry;
    EndsInTwo(Stem(f), Stem(g));
    FamiliesClashExactly(f, g);
  }

  lemma EndsInTwo(p: string, q: string)
    requires p == q + "-2"
    ensures Numbers(p, q)
  {
    assert Decimal(2) == "2" && NumberPart(2) == "-2";
    PartsAreSimple(1);
    assert EndOf(p, q) == "-2" && IsEnd("-2", 2, 1);
  }
}
