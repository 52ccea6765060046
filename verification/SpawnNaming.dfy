/** Names of spawn logs: which entry of a state a ticket is in, which attempt of that entry a spawn
  is, and why no name is taken twice.

  A `Family` is every spawn of one task in one uncounted state under one identity. The ledger is the
  ticket's one ledger, as items that print to it; records and logs are keyed by file name. */
module SpawnNaming {
  import opened Basics
  import opened Text
  import opened Ledger

  datatype Family = Family(task: string, state: string, identity: Option<string>)

  // ----- what the ledger says of one ticket -----

  predicate IsMove(x: Item, task: string) {
    (x.Moved? && x.taskId == task) || (x.Forced? && x.audit.taskId == task)
  }

  function Source(x: Item): string
    requires !x.Unknown?
  {
    if x.Moved? then x.source else x.audit.source
  }

  function Target(x: Item): string
    requires !x.Unknown?
  {
    if x.Moved? then x.target else x.audit.target
  }

  /** The state the ticket is in, having started in `start`. */
  function Where(items: seq<Item>, task: string, start: string): string {
    if items == [] then start
    else
      var x := items[|items| - 1];
      if IsMove(x, task) then Target(x) else Where(items[..|items| - 1], task, start)
  }

  /** Every movement of the ticket leaves the state it is in; rows that are no movement may stand anywhere. */
  predicate IsWalk(items: seq<Item>, task: string, start: string) {
    items == [] ||
    (var before, x := items[..|items| - 1], items[|items| - 1];
     IsWalk(before, task, start) && CanFollow(before, x, task, start))
  }

  predicate CanFollow(before: seq<Item>, x: Item, task: string, start: string) {
    IsMove(x, task) ==> Source(x) == Where(before, task, start)
  }

  function LinesOf(x: Item, task: string): nat {
    match x
    case Moved(taskId, _, _) => if taskId == task then 1 else 0
    case Forced(a) => if a.taskId == task then 2 else 0
    case Unknown(row) => if task + " " <= row then 1 else 0
  }

  /** Ledger lines that start with the task: what `ticket_move_count` counts. */
  function Moves(items: seq<Item>, task: string): nat {
    if items == [] then 0 else Moves(items[..|items| - 1], task) + LinesOf(items[|items| - 1], task)
  }

  function Arrivals(items: seq<Item>, task: string, state: string): nat {
    if items == [] then 0
    else
      var x := items[|items| - 1];
      Arrivals(items[..|items| - 1], task, state) + if IsMove(x, task) && Target(x) == state then 1 else 0
  }

  function FirstFrom(items: seq<Item>, task: string): Option<string> {
    if items == [] then None
    else
      var before := FirstFrom(items[..|items| - 1], task);
      var x := items[|items| - 1];
      if before.None? && IsMove(x, task) then Some(Source(x)) else before
  }

  /** The entry number: arrivals, plus one when the ticket was placed in the state, and never 0. */
  function Entry(items: seq<Item>, task: string, state: string): (n: nat)
    ensures n >= 1
  {
    Numbered(Arrivals(items, task, state), FirstFrom(items, task), state)
  }

  function Numbered(arrivals: nat, first: Option<string>, state: string): nat {
    var n := arrivals + if first.None? || first.value == state then 1 else 0;
    if n < 1 then 1 else n
  }

  /** The ticket has moved after the first `k` items. */
  predicate MovedSince(items: seq<Item>, k: nat, task: string) {
    k < |items| && (IsMove(items[|items| - 1], task) || MovedSince(items[..|items| - 1], k, task))
  }

  /** A row that starts with the ticket and is no movement of it. */
  predicate IsNote(x: Item, task: string) { x.Unknown? && task + " " <= x.row }

  /** How many such rows there are after the first `k` items. */
  function NotesSince(items: seq<Item>, k: nat, task: string): nat {
    if k >= |items| then 0
    else NotesSince(items[..|items| - 1], k, task) + if IsNote(items[|items| - 1], task) then 1 else 0
  }

  lemma {:induction false} WalkStarts(items: seq<Item>, task: string, start: string, state: string)
    requires IsWalk(items, task, start)
    ensures FirstFrom(items, task) == if MovedSince(items, 0, task) then Some(start) else None
    ensures !MovedSince(items, 0, task) ==> Where(items, task, start) == start
    ensures MovedSince(items, 0, task) && Where(items, task, start) == state ==> Arrivals(items, task, state) >= 1
  {
    if items != [] {
      WalkStarts(items[..|items| - 1], task, start, state);
    }
  }

  lemma EntryInState(items: seq<Item>, task: string, start: string, state: string)
    requires IsWalk(items, task, start) && Where(items, task, start) == state
    ensures Entry(items, task, state) == Arrivals(items, task, state) + if start == state then 1 else 0
  {
    WalkStarts(items, task, start, state);
  }

  lemma {:induction false} Since(items: seq<Item>, k: nat, task: string, start: string, state: string)
    requires k <= |items| && IsWalk(items, task, start) && Where(items[..k], task, start) == state
    ensures IsWalk(items[..k], task, start)
    ensures Arrivals(items[..k], task, state) <= Arrivals(items, task, state)
    ensures Moves(items[..k], task) <= Moves(items, task)
    ensures if MovedSince(items, k, task) then
              && Moves(items[..k], task) < Moves(items, task)
              && (Where(items, task, start) == state ==>
                    Arrivals(items[..k], task, state) < Arrivals(items, task, state))
            else
              && Where(items, task, start) == state
              && Moves(items, task) == Moves(items[..k], task) + NotesSince(items, k, task)
              && Arrivals(items[..k], task, state) == Arrivals(items, task, state)
    decreases |items|
  {
    if k == |items| {
      assert items[..k] == items;
    } else {
      var before := items[..|items| - 1];
      assert before[..k] == items[..k];
      Since(before, k, task, start, state);
    }
  }

  /** While the ticket is in a state its entry number tells the visit it is in: two moments have equal entry
      numbers exactly if it has not moved in between. They have equal move counts exactly if, besides, no
      other row of its name came in between. */
  lemma EntriesTellVisits(items: seq<Item>, k: nat, task: string, start: string, state: string)
    requires k <= |items| && IsWalk(items, task, start)
    requires Where(items[..k], task, start) == state == Where(items, task, start)
    ensures Entry(items[..k], task, state) <= Entry(items, task, state)
    ensures Entry(items[..k], task, state) == Entry(items, task, state) <==> !MovedSince(items, k, task)
    ensures Moves(items[..k], task) <= Moves(items, task)
    ensures Moves(items[..k], task) == Moves(items, task) <==>
              !MovedSince(items, k, task) && NotesSince(items, k, task) == 0
  {
    Since(items, k, task, start, state);
    EntryInState(items, task, start, state);
    EntryInState(items[..k], task, start, state);
  }

  // ----- names -----

  /** `log_suffix`: the identity, then the number when it is past 1. */
  function LogSuffix(identity: Option<string>, number: nat): Option<string> {
    var named := identity.Some? && identity.value != "";
    if named && number > 1 then Some(identity.value + "-" + Decimal(number))
    else if named then identity
    else if number > 1 then Some(Decimal(number))
    else None
  }

  function Dashed(suffix: Option<string>): string {
    if suffix.Some? && suffix.value != "" then "-" + suffix.value else ""
  }

  function LogPath(f: Family, suffix: Option<string>, attempt: nat): string {
    "task-" + f.task + "-" + f.state + Dashed(suffix)
    + (if attempt > 1 then "-attempt" + Decimal(attempt) else "") + ".log"
  }

  function RecordPath(f: Family, suffix: Option<string>): string {
    "task-" + f.task + "-" + f.state + Dashed(suffix) + ".json"
  }

  function LogName(f: Family, number: nat, attempt: nat): string {
    LogPath(f, LogSuffix(f.identity, number), attempt)
  }

  function RecordName(f: Family, number: nat): string {
    RecordPath(f, LogSuffix(f.identity, number))
  }

  /** The part of every name of a family that its number and attempt do not change. */
  function Stem(f: Family): string {
    "task-" + f.task + "-" + f.state + IdentityPart(f.identity)
  }

  function IdentityPart(identity: Option<string>): string {
    if identity.Some? && identity.value != "" then "-" + identity.value else ""
  }

  function NumberPart(number: nat): string { if number > 1 then "-" + Decimal(number) else "" }

  function AttemptPart(attempt: nat): string { if attempt > 1 then "-attempt" + Decimal(attempt) else "" }

  lemma SuffixInParts(identity: Option<string>, number: nat)
    ensures Dashed(LogSuffix(identity, number)) == IdentityPart(identity) + NumberPart(number)
  {
    var d := Decimal(number);
    assert d != "";
    hide Decimal;
    if identity.Some? && identity.value != "" && number > 1 {
      assert "-" + (identity.value + "-" + d) == ("-" + identity.value) + ("-" + d);
    }
  }

  lemma NamesInParts(f: Family, number: nat, attempt: nat)
    ensures LogName(f, number, attempt) == Stem(f) + (NumberPart(number) + (AttemptPart(attempt) + ".log"))
    ensures RecordName(f, number) == Stem(f) + (NumberPart(number) + ".json")
  {
    hide Dashed, LogSuffix, NumberPart, IdentityPart, Decimal;
    SuffixInParts(f.identity, number);
    var front, name, n := "task-" + f.task + "-" + f.state, IdentityPart(f.identity), NumberPart(number);
    assert front + (name + n) == (front + name) + n;
    assert LogName(f, number, attempt) == front + (name + n) + AttemptPart(attempt) + ".log";
  }

  /** How many digits a text starts with. */
  function Leading(s: string): (k: nat)
    ensures k <= |s|
  {
    if s == "" || !IsDigit(s[0]) then 0 else 1 + Leading(s[1..])
  }

  lemma {:induction false} LeadingDigits(x: string, r: string)
    requires r != "" ==> !IsDigit(r[0])
    requires forall i | 0 <= i < |x| :: IsDigit(x[i])
    ensures Leading(x + r) == |x|
  {
    if x == "" {
      assert x + r == r;
    } else {
      assert (x + r)[1..] == x[1..] + r;
      LeadingDigits(x[1..], r);
    }
  }

  /** The number a text starts with, and what follows it. */
  function ReadNumber(s: string): (int, string) {
    (DecimalValue(s[..Leading(s)]), s[Leading(s)..])
  }

  lemma NumberReads(n: nat, r: string)
    requires r != "" ==> !IsDigit(r[0])
    ensures ReadNumber(Decimal(n) + r) == (n, r)
  {
    var s := Decimal(n) + r;
    LeadingDigits(Decimal(n), r);
    DecimalInverts(n);
    assert s[..|Decimal(n)|] == Decimal(n) && s[|Decimal(n)|..] == r;
  }

  /** What follows the stem, taken apart. */
  function ReadEntry(t: string): (int, string) {
    if |t| >= 2 && t[0] == '-' && IsDigit(t[1]) then ReadNumber(t[1..]) else (1, t)
  }

  lemma EntryReads(n: nat, r: string)
    requires n >= 1 && |r| >= 2 && !IsDigit(r[0]) && !IsDigit(r[1])
    ensures ReadEntry(NumberPart(n) + r) == (n, r)
  {
    hide Decimal, ReadNumber;
    if n > 1 {
      var t := NumberPart(n) + r;
      assert t[1..] == Decimal(n) + r && t[1] == Decimal(n)[0];
      NumberReads(n, r);
    } else {
      assert NumberPart(n) + r == r;
    }
  }

  function ReadAttempt(t: string): int {
    if |t| >= 8 && t[0] == '-' then ReadNumber(t[8..]).0 else 1
  }

  lemma AttemptReads(a: nat)
    requires a >= 1
    ensures ReadAttempt(AttemptPart(a) + ".log") == a
  {
    hide Decimal, ReadNumber;
    if a > 1 {
      var t := AttemptPart(a) + ".log";
      assert t == "-attempt" + (Decimal(a) + ".log");
      assert t[8..] == Decimal(a) + ".log" && t[0] == '-';
      NumberReads(a, ".log");
    }
  }

  /** Within a family a log's name tells its entry and attempt, and a record's name its entry. */
  lemma NamesAreDistinct(f: Family, n: nat, a: nat, m: nat, b: nat)
    requires n >= 1 && m >= 1 && a >= 1 && b >= 1
    ensures LogName(f, n, a) == LogName(f, m, b) <==> n == m && a == b
    ensures RecordName(f, n) == RecordName(f, m) <==> n == m
  {
    hide *;
    NamesInParts(f, n, a);
    NamesInParts(f, m, b);
    TailReads(n, a);
    TailReads(m, b);
    if LogName(f, n, a) == LogName(f, m, b) {
      SameAfter(Stem(f), NumberPart(n) + (AttemptPart(a) + ".log"), NumberPart(m) + (AttemptPart(b) + ".log"));
    }
    if RecordName(f, n) == RecordName(f, m) {
      SameAfter(Stem(f), NumberPart(n) + ".json", NumberPart(m) + ".json");
    }
  }

  lemma TailReads(n: nat, a: nat)
    requires n >= 1 && a >= 1
    ensures ReadEntry(NumberPart(n) + (AttemptPart(a) + ".log")) == (n, AttemptPart(a) + ".log")
    ensures ReadEntry(NumberPart(n) + ".json") == (n, ".json")
    ensures ReadAttempt(AttemptPart(a) + ".log") == a
  {
    EntryReads(n, AttemptPart(a) + ".log");
    EntryReads(n, ".json");
    AttemptReads(a);
  }

  lemma SameAfter(p: string, x: string, y: string)
    requires p + x == p + y
    ensures x == y
  {
    assert (p + x)[|p|..] == x && (p + y)[|p|..] == y;
  }

  // ----- plans -----

  /** What a finished spawn leaves behind; charges and grants, which no name depends on, left out. */
  datatype Record = Record(task: string, state: string, moves: nat, attempt: nat, log: string)

  datatype Plan = Plan(log: string, record: string, moves: nat, attempt: nat, previous: Option<Record>)

  function Read(records: map<string, Record>, name: string): Option<Record> {
    if name in records then Some(records[name]) else None
  }

  /** The record this entry's own name spells, or the unsuffixed one an older program left. */
  function CurrentVisitRecord(f: Family, records: map<string, Record>, number: nat, moves: nat): Option<Record> {
    var own := Read(records, RecordName(f, number));
    if own.Some? then own
    else if number <= 1 then None
    else
      var legacy := Read(records, RecordPath(f, f.identity));
      if legacy.Some? && legacy.value.task == f.task && legacy.value.state == f.state && legacy.value.moves == moves
      then legacy else None
  }

  function PlanSpawn(f: Family, records: map<string, Record>, number: nat, moves: nat): Plan {
    var found := CurrentVisitRecord(f, records, number, moves);
    var previous := if found.Some? && found.value.moves == moves then found else None;
    var attempt := if previous.Some? then previous.value.attempt + 1 else 1;
    Plan(LogName(f, number, attempt), RecordName(f, number), moves, attempt, previous)
  }

  // ----- runs -----

  /** A spawn that was given its log: after how many ledger items, under which numbers, and whether a
      record accounts for it. */
  datatype Use = Use(at: nat, number: nat, moves: nat, attempt: nat, log: string, accounted: bool)

  /** `others` are names put among the logs by somebody else. */
  datatype World = World(items: seq<Item>, records: map<string, Record>, logs: set<string>,
                         others: set<string>, uses: seq<Use>, running: bool)

  datatype Action =
    | Append(item: Item)
    | Start
    | Ran(recorded: bool)
    | NeverRan
    | OtherLog(name: string)
    | OtherRecord(name: string, record: Record)
    | Remove(name: string)

  /** The spawn that would come next. */
  function Next(f: Family, w: World): Plan {
    PlanSpawn(f, w.records, Entry(w.items, f.task, f.state), Moves(w.items, f.task))
  }

  /** The planned name is taken, so nothing is spawned. */
  predicate Refused(f: Family, w: World) { Next(f, w).log in w.logs }

  ghost predicate OfFamily(f: Family, name: string) {
    exists n: nat :: n >= 1 && name == RecordName(f, n)
  }

  ghost predicate Enabled(f: Family, start: string, w: World, a: Action) {
    match a
    case Append(x) => CanFollow(w.items, x, f.task, start)
    case Start => !w.running && Where(w.items, f.task, start) == f.state && !Refused(f, w)
    case Ran(_) => w.running && w.uses != []
    case NeverRan => w.running && w.uses != []
    case OtherLog(_) => true
    case OtherRecord(name, _) => !OfFamily(f, name)
    case Remove(_) => true
  }

  function UseOf(f: Family, w: World): Use {
    var p := Next(f, w);
    Use(|w.items|, Entry(w.items, f.task, f.state), p.moves, p.attempt, p.log, false)
  }

  function RecordOf(f: Family, u: Use): Record { Record(f.task, f.state, u.moves, u.attempt, u.log) }

  function Apply(f: Family, start: string, w: World, a: Action): World
    requires a.Ran? || a.NeverRan? ==> w.uses != []
  {
    match a
    case Append(x) => w.(items := w.items + [x])
    case Start => w.(uses := w.uses + [UseOf(f, w)], logs := w.logs + {UseOf(f, w).log}, running := true)
    case Ran(recorded) =>
      var last := w.uses[|w.uses| - 1];
      if !recorded then w.(running := false)
      else w.(running := false, records := w.records[RecordName(f, last.number) := RecordOf(f, last)],
              uses := w.uses[|w.uses| - 1 := last.(accounted := true)])
    case NeverRan =>
      w.(running := false, logs := w.logs - {w.uses[|w.uses| - 1].log}, uses := w.uses[..|w.uses| - 1])
    case OtherLog(name) => w.(logs := w.logs + {name}, others := w.others + {name})
    case OtherRecord(name, record) => w.(records := w.records[name := record])
    case Remove(name) => w.(logs := w.logs - {name})
  }

  /** Before the first spawn: any ledger the ticket walked, any records, any logs of others. */
  predicate Initial(f: Family, start: string, w: World) {
    IsWalk(w.items, f.task, start) && w.uses == [] && !w.running && w.logs <= w.others
  }

  ghost predicate Runs(f: Family, start: string, w: World, acts: seq<Action>)
    decreases |acts|, 0
  {
    acts == [] ||
    (var before := acts[..|acts| - 1];
     Runs(f, start, w, before) && Enabled(f, start, Final(f, start, w, before), acts[|acts| - 1]))
  }

  ghost function Final(f: Family, start: string, w: World, acts: seq<Action>): World
    requires Runs(f, start, w, acts)
    decreases |acts|, 1
  {
    if acts == [] then w
    else Apply(f, start, Final(f, start, w, acts[..|acts| - 1]), acts[|acts| - 1])
  }

  // ----- what every run keeps -----

  /** A spawn's numbers are those of the visit it was made in. */
  predicate IsUse(f: Family, start: string, w: World, u: Use) {
    && u.at <= |w.items|
    && Where(w.items[..u.at], f.task, start) == f.state
    && u.number == Entry(w.items[..u.at], f.task, f.state)
    && u.moves == Moves(w.items[..u.at], f.task)
    && u.attempt >= 1
    && u.log == LogName(f, u.number, u.attempt)
  }

  predicate UsesAreVisits(f: Family, start: string, w: World) {
    && (forall i | 0 <= i < |w.uses| :: IsUse(f, start, w, w.uses[i]))
    && (forall i, j | 0 <= i < j < |w.uses| :: w.uses[i].at <= w.uses[j].at)
  }

  /** An accounted spawn's record is of its visit, and no lower than its attempt. */
  predicate IsAccounted(f: Family, records: map<string, Record>, u: Use) {
    && RecordName(f, u.number) in records
    && records[RecordName(f, u.number)].moves == u.moves
    && records[RecordName(f, u.number)].attempt >= u.attempt
  }

  predicate Accounts(f: Family, w: World) {
    && (forall i | 0 <= i < |w.uses| && w.uses[i].accounted :: IsAccounted(f, w.records, w.uses[i]))
    && (w.running ==> w.uses != [] && !w.uses[|w.uses| - 1].accounted)
  }

  /** After a spawn of a visit, its attempts go up if it is accounted, and do not go down at its count. */
  predicate Rise(u: Use, v: Use) {
    && (u.accounted ==> u.attempt < v.attempt && u.moves == v.moves)
    && (u.moves == v.moves ==> u.attempt <= v.attempt)
  }

  predicate AttemptsRise(w: World) {
    forall i, j | 0 <= i < j < |w.uses| && w.uses[i].number == w.uses[j].number :: Rise(w.uses[i], w.uses[j])
  }

  /** The ticket has not moved since the spawn. */
  predicate IsOfThisVisit(f: Family, w: World, u: Use) { !MovedSince(w.items, u.at, f.task) }

  /** An accounted spawn of this visit whose record has another move count than the ledger now. */
  predicate IsStale(f: Family, w: World, u: Use) {
    u.accounted && IsOfThisVisit(f, w, u) && u.moves != Moves(w.items, f.task)
  }

  predicate NotStale(f: Family, w: World) {
    forall i | 0 <= i < |w.uses| :: !IsStale(f, w, w.uses[i])
  }

  /** No record answers for this spawn or a later one of its visit. */
  predicate Unaccounted(w: World, i: nat) {
    i < |w.uses| && forall j | i <= j < |w.uses| && w.uses[j].number == w.uses[i].number :: !w.uses[j].accounted
  }

  /** Where no record answers, the plan would be the same again. */
  predicate PlansStay(f: Family, w: World) {
    forall i | 0 <= i < |w.uses| && Unaccounted(w, i) ::
      PlanSpawn(f, w.records, w.uses[i].number, w.uses[i].moves).attempt == w.uses[i].attempt
  }

  predicate LogsAreKnown(w: World) {
    forall name | name in w.logs :: name in w.others || exists i | 0 <= i < |w.uses| :: w.uses[i].log == name
  }

  predicate Inv(f: Family, start: string, w: World) {
    && IsWalk(w.items, f.task, start)
    && UsesAreVisits(f, start, w) && Accounts(f, w) && AttemptsRise(w) && PlansStay(f, w) && LogsAreKnown(w)
  }

  lemma InitialHolds(f: Family, start: string, w: World)
    requires Initial(f, start, w)
    ensures Inv(f, start, w)
  {}

  /** The family's unsuffixed record is the one its first entry takes. */
  lemma UnsuffixedIsFirst(f: Family)
    ensures RecordPath(f, f.identity) == RecordName(f, 1)
  {}

  lemma AppendKeepsUses(f: Family, start: string, w: World, x: Item)
    requires UsesAreVisits(f, start, w)
    ensures UsesAreVisits(f, start, w.(items := w.items + [x]))
  {
    hide Where, Entry, Moves, LogName;
    var v := w.(items := w.items + [x]);
    forall i | 0 <= i < |w.uses| ensures IsUse(f, start, v, v.uses[i]) {
      assert IsUse(f, start, w, w.uses[i]);
      assert v.items[..w.uses[i].at] == w.items[..w.uses[i].at];
    }
  }

  /** In the state, a spawn made there has the present entry number exactly if it is of this visit, and the
      present move count exactly if, besides, no other row of the ticket's name came since. */
  lemma UseTellsVisit(f: Family, start: string, w: World, u: Use)
    requires IsWalk(w.items, f.task, start) && Where(w.items, f.task, start) == f.state
    requires IsUse(f, start, w, u)
    ensures u.number <= Entry(w.items, f.task, f.state)
    ensures u.number == Entry(w.items, f.task, f.state) <==> IsOfThisVisit(f, w, u)
    ensures u.moves == Moves(w.items, f.task) <==> IsOfThisVisit(f, w, u) && NotesSince(w.items, u.at, f.task) == 0
    ensures u.moves <= Moves(w.items, f.task)
  {
    EntriesTellVisits(w.items, u.at, f.task, start, f.state);
  }

  /** Entry numbers never go down, and spawns of one family at one move count are of one visit. */
  lemma UsesTellVisits(f: Family, start: string, w: World, u: Use, v: Use)
    requires IsWalk(w.items, f.task, start) && IsUse(f, start, w, u) && IsUse(f, start, w, v) && u.at <= v.at
    ensures u.number <= v.number && u.moves <= v.moves
    ensures u.moves == v.moves ==> u.number == v.number
  {
    WalkPrefix(w.items, v.at, f.task, start);
    assert w.items[..v.at][..u.at] == w.items[..u.at];
    EntriesTellVisits(w.items[..v.at], u.at, f.task, start, f.state);
  }

  lemma {:induction false} WalkPrefix(items: seq<Item>, k: nat, task: string, start: string)
    requires k <= |items| && IsWalk(items, task, start)
    ensures IsWalk(items[..k], task, start)
    decreases |items|
  {
    if k == |items| {
      assert items[..k] == items;
    } else {
      assert items[..|items| - 1][..k] == items[..k];
      WalkPrefix(items[..|items| - 1], k, task, start);
    }
  }

  /** The record an attempt continues from is never one an earlier visit's spawn left: the plan counts
      past every accounted spawn of this visit, and takes nothing from any other. */
  lemma PlanIsOfThisVisit(f: Family, start: string, w: World, i: nat)
    requires Inv(f, start, w) && NotStale(f, w) && Where(w.items, f.task, start) == f.state
    requires i < |w.uses| && w.uses[i].accounted
    ensures var u, p := w.uses[i], Next(f, w);
            && (u.number == Entry(w.items, f.task, f.state) ==> p.previous.Some? && p.attempt > u.attempt && p.moves == u.moves)
            && (!IsOfThisVisit(f, w, u) ==> p.previous != Some(RecordOf(f, u)))
            && p.log != u.log
  {
    var u, n := w.uses[i], Entry(w.items, f.task, f.state);
    assert IsUse(f, start, w, u) && IsAccounted(f, w.records, u) && !IsStale(f, w, u);
    UseTellsVisit(f, start, w, u);
    NamesAreDistinct(f, u.number, u.attempt, n, Next(f, w).attempt);
  }

  lemma StartKeepsUses(f: Family, start: string, w: World)
    requires UsesAreVisits(f, start, w) && Enabled(f, start, w, Start)
    ensures UsesAreVisits(f, start, Apply(f, start, w, Start))
  {
    hide PlanSpawn, Entry, Moves, LogName;
    assert w.items[..|w.items|] == w.items;
    assert IsUse(f, start, w, UseOf(f, w)) by { PlanCounts(f, w); }
    var v := Apply(f, start, w, Start);
    assert forall i | 0 <= i < |w.uses| :: v.uses[i] == w.uses[i] && IsUse(f, start, w, w.uses[i]);
  }

  lemma PlanCounts(f: Family, w: World)
    ensures var p := Next(f, w);
            p.attempt >= 1 && p.moves == Moves(w.items, f.task)
            && p.log == LogName(f, Entry(w.items, f.task, f.state), p.attempt)
            && p.record == RecordName(f, Entry(w.items, f.task, f.state))
  {}

  lemma StartKeepsAttempts(f: Family, start: string, w: World)
    requires Inv(f, start, w) && NotStale(f, w) && Enabled(f, start, w, Start)
    ensures AttemptsRise(Apply(f, start, w, Start))
  {
    hide PlanSpawn, Entry, Moves, LogName, Inv, Rise, NotStale;
    InvAttempts(f, start, w);
    var v := Apply(f, start, w, Start);
    forall i, j | 0 <= i < j < |v.uses| && v.uses[i].number == v.uses[j].number
      ensures Rise(v.uses[i], v.uses[j])
    {
      assert v.uses[i] == w.uses[i];
      if j == |w.uses| {
        PlanIsNotBelow(f, start, w, i);
      } else {
        assert v.uses[j] == w.uses[j];
      }
    }
  }

  /** The plan is past every accounted spawn of this visit, and below none of its count. */
  lemma PlanIsNotBelow(f: Family, start: string, w: World, i: nat)
    requires Inv(f, start, w) && NotStale(f, w) && Where(w.items, f.task, start) == f.state
    requires i < |w.uses| && w.uses[i].number == Entry(w.items, f.task, f.state)
    ensures Rise(w.uses[i], UseOf(f, w))
    ensures w.uses[i].moves == Moves(w.items, f.task) ==> (Unaccounted(w, i) <==>
              !w.uses[i].accounted && w.uses[i].attempt == Next(f, w).attempt)
  {
    hide PlanSpawn, Entry, Moves, LogName, IsWalk, AttemptsRise, LogsAreKnown, Where, RecordName, IsAccounted, NotStale;
    PlanCounts(f, w);
    if w.uses[i].accounted {
      PlanIsOfThisVisit(f, start, w, i);
    }
    if !Unaccounted(w, i) {
      var j :| i <= j < |w.uses| && w.uses[j].number == w.uses[i].number && w.uses[j].accounted;
      PlanIsOfThisVisit(f, start, w, j);
      InvAttempts(f, start, w);
      Rises(w, i, j);
    }
  }

  lemma Rises(w: World, i: nat, j: nat)
    requires AttemptsRise(w) && i <= j < |w.uses| && w.uses[i].number == w.uses[j].number
    ensures w.uses[i].moves == w.uses[j].moves ==> w.uses[i].attempt <= w.uses[j].attempt
    ensures i < j && w.uses[i].accounted ==> w.uses[i].attempt < w.uses[j].attempt && w.uses[i].moves == w.uses[j].moves
  {}

  lemma InvAttempts(f: Family, start: string, w: World)
    requires Inv(f, start, w)
    ensures AttemptsRise(w)
  {}

  lemma StartKeepsPlans(f: Family, start: string, w: World)
    requires Inv(f, start, w) && Enabled(f, start, w, Start)
    ensures PlansStay(f, Apply(f, start, w, Start))
  {
    hide PlanSpawn, Entry, Moves, LogName;
    var v := Apply(f, start, w, Start);
    PlanCounts(f, w);
    forall i | 0 <= i < |v.uses| && Unaccounted(v, i)
      ensures PlanSpawn(f, v.records, v.uses[i].number, v.uses[i].moves).attempt == v.uses[i].attempt
    {
      if i < |w.uses| {
        assert forall j | 0 <= j < |w.uses| :: v.uses[j] == w.uses[j];
        assert Unaccounted(w, i);
      }
    }
  }

  lemma StartHolds(f: Family, start: string, w: World)
    requires Inv(f, start, w) && NotStale(f, w) && Enabled(f, start, w, Start)
    ensures Inv(f, start, Apply(f, start, w, Start))
  {
    StartKeepsUses(f, start, w);
    StartKeepsAttempts(f, start, w);
    StartKeepsPlans(f, start, w);
    hide PlanSpawn, Entry, Moves, LogName, IsWalk, PlansStay, UsesAreVisits, AttemptsRise, RecordName;
    var v := Apply(f, start, w, Start);
    assert forall i | 0 <= i < |w.uses| :: v.uses[i] == w.uses[i];
    assert v.uses[|w.uses|] == UseOf(f, w);
  }

  /** A plan reads the record of its own entry and, past the first, the record of the first. */
  lemma PlanReads(f: Family, a: map<string, Record>, b: map<string, Record>, number: nat, moves: nat)
    requires Read(a, RecordName(f, number)) == Read(b, RecordName(f, number))
    requires number > 1 ==> Read(a, RecordName(f, 1)) == Read(b, RecordName(f, 1))
    ensures PlanSpawn(f, a, number, moves) == PlanSpawn(f, b, number, moves)
  {
    UnsuffixedIsFirst(f);
  }

  lemma RecordedAccounts(f: Family, start: string, w: World)
    requires Inv(f, start, w) && w.running
    ensures Accounts(f, Apply(f, start, w, Ran(true)))
  {
    var v, last := Apply(f, start, w, Ran(true)), |w.uses| - 1;
    forall i | 0 <= i < |v.uses| && v.uses[i].accounted ensures IsAccounted(f, v.records, v.uses[i]) {
      if i < last {
        assert IsUse(f, start, w, w.uses[i]) && IsUse(f, start, w, w.uses[last]);
        assert IsAccounted(f, w.records, w.uses[i]);
        UsesTellVisits(f, start, w, w.uses[i], w.uses[last]);
        NamesAreDistinct(f, w.uses[i].number, 1, w.uses[last].number, 1);
      }
    }
  }

  lemma StillUnaccounted(w: World, v: World, i: nat)
    requires Unaccounted(v, i) && |w.uses| == |v.uses|
    requires forall j | 0 <= j < |w.uses| :: w.uses[j] == v.uses[j] || w.uses[j] == v.uses[j].(accounted := false)
    ensures Unaccounted(w, i)
  {}

  lemma RecordedKeepsPlan(f: Family, start: string, w: World, i: nat)
    requires Inv(f, start, w) && w.running && i < |w.uses| && Unaccounted(w, i)
    requires w.uses[i].number != w.uses[|w.uses| - 1].number
    ensures var v := Apply(f, start, w, Ran(true));
            PlanSpawn(f, v.records, w.uses[i].number, w.uses[i].moves).attempt == w.uses[i].attempt
  {
    hide PlanSpawn, LogName, Entry, Moves, RecordName, Unaccounted, AttemptsRise, LogsAreKnown, IsWalk;
    var v, last := Apply(f, start, w, Ran(true)), |w.uses| - 1;
    var u, n := w.uses[i], w.uses[last].number;
    assert IsUse(f, start, w, u) && IsUse(f, start, w, w.uses[last]);
    UsesTellVisits(f, start, w, u, w.uses[last]);
    NamesAreDistinct(f, u.number, 1, n, 1);
    NamesAreDistinct(f, 1, 1, n, 1);
    PlanReads(f, v.records, w.records, u.number, u.moves);
  }

  lemma RecordedLeaves(f: Family, start: string, w: World, i: nat)
    requires Inv(f, start, w) && w.running
    requires Unaccounted(Apply(f, start, w, Ran(true)), i)
    ensures i < |w.uses| && Unaccounted(w, i) && w.uses[i].number != w.uses[|w.uses| - 1].number
    ensures Apply(f, start, w, Ran(true)).uses[i] == w.uses[i]
  {
    hide PlanSpawn, RecordName, UsesAreVisits, IsAccounted, AttemptsRise, LogsAreKnown, PlansStay;
    var v, last := Apply(f, start, w, Ran(true)), |w.uses| - 1;
    assert v.uses[last].accounted && v.uses[last].number == w.uses[last].number;
    StillUnaccounted(w, v, i);
  }

  lemma RecordedKeepsPlans(f: Family, start: string, w: World)
    requires Inv(f, start, w) && w.running && w.uses != []
    ensures PlansStay(f, Apply(f, start, w, Ran(true)))
  {
    hide PlanSpawn, Inv, Apply, Unaccounted;
    var v := Apply(f, start, w, Ran(true));
    forall i | 0 <= i < |v.uses| && Unaccounted(v, i)
      ensures PlanSpawn(f, v.records, v.uses[i].number, v.uses[i].moves).attempt == v.uses[i].attempt
    {
      RecordedLeaves(f, start, w, i);
      RecordedKeepsPlan(f, start, w, i);
    }
  }

  /** The visits spawns were made in do not depend on what became of them. */
  lemma SameVisits(f: Family, start: string, w: World, v: World)
    requires UsesAreVisits(f, start, w) && v.items == w.items && |v.uses| <= |w.uses|
    requires forall i | 0 <= i < |v.uses| ::
               v.uses[i] == w.uses[i] || v.uses[i] == w.uses[i].(accounted := true)
    ensures UsesAreVisits(f, start, v)
  {
    hide LogName, Entry, Moves, Where;
    forall i | 0 <= i < |v.uses| ensures IsUse(f, start, v, v.uses[i]) {
      assert IsUse(f, start, w, w.uses[i]);
    }
    assert forall i | 0 <= i < |v.uses| :: v.uses[i].at == w.uses[i].at;
  }

  lemma RecordedKeepsRest(f: Family, w: World, v: World)
    requires w.uses != [] && v.logs == w.logs && v.others == w.others
    requires v.uses == w.uses[|w.uses| - 1 := w.uses[|w.uses| - 1].(accounted := true)]
    requires AttemptsRise(w) && LogsAreKnown(w)
    ensures AttemptsRise(v) && LogsAreKnown(v)
  {
    var last := |w.uses| - 1;
    assert forall i | 0 <= i < last :: v.uses[i] == w.uses[i];
    forall i, j | 0 <= i < j < |v.uses| && v.uses[i].number == v.uses[j].number
      ensures Rise(v.uses[i], v.uses[j])
    {
      assert Rise(w.uses[i], w.uses[j]);
    }
    forall name | name in v.logs
      ensures name in v.others || exists i | 0 <= i < |v.uses| :: v.uses[i].log == name
    {
      if name !in w.others {
        var i :| 0 <= i < |w.uses| && w.uses[i].log == name;
        assert v.uses[i].log == name;
      }
    }
  }

  lemma InvParts(f: Family, start: string, w: World)
    ensures Inv(f, start, w) <==>
              && IsWalk(w.items, f.task, start)
              && UsesAreVisits(f, start, w) && Accounts(f, w) && AttemptsRise(w) && PlansStay(f, w) && LogsAreKnown(w)
    ensures Inv(f, start, w) && w.running ==> w.uses != []
  {}

  lemma RecordedHolds(f: Family, start: string, w: World)
    requires Inv(f, start, w) && w.running
    ensures Inv(f, start, Apply(f, start, w, Ran(true)))
  {
    hide Inv, PlanSpawn, RecordName, IsWalk, UsesAreVisits, AttemptsRise, LogsAreKnown, PlansStay, Accounts;
    InvParts(f, start, w);
    RecordedAccounts(f, start, w);
    RecordedKeepsPlans(f, start, w);
    var v := Apply(f, start, w, Ran(true));
    InvParts(f, start, v);
    assert w.uses != [] && v.items == w.items && v.logs == w.logs && v.others == w.others;
    assert v.uses == w.uses[|w.uses| - 1 := w.uses[|w.uses| - 1].(accounted := true)];
    hide *;
    SameVisits(f, start, w, v);
    RecordedKeepsRest(f, w, v);
  }

  lemma FailedHolds(f: Family, start: string, w: World)
    requires Inv(f, start, w) && w.running
    ensures Inv(f, start, Apply(f, start, w, Ran(false)))
  {
    hide PlanSpawn, IsWalk, UsesAreVisits, IsAccounted;
    var v := Apply(f, start, w, Ran(false));
    SameVisits(f, start, w, v);
    assert forall i | Unaccounted(v, i) :: Unaccounted(w, i);
  }

  lemma DroppedUnaccounted(w: World, v: World)
    requires w.uses != [] && !w.uses[|w.uses| - 1].accounted && v.uses == w.uses[..|w.uses| - 1]
    ensures forall i | 0 <= i < |v.uses| && Unaccounted(v, i) :: Unaccounted(w, i) && v.uses[i] == w.uses[i]
  {
    assert forall i | 0 <= i < |v.uses| :: v.uses[i] == w.uses[i];
  }

  lemma NeverRanKeepsRest(w: World, v: World)
    requires w.uses != [] && !w.uses[|w.uses| - 1].accounted && v.uses == w.uses[..|w.uses| - 1]
    requires v.logs == w.logs - {w.uses[|w.uses| - 1].log} && v.others == w.others
    requires AttemptsRise(w) && LogsAreKnown(w)
    ensures AttemptsRise(v) && LogsAreKnown(v)
    ensures forall i | 0 <= i < |v.uses| && Unaccounted(v, i) :: Unaccounted(w, i) && v.uses[i] == w.uses[i]
  {
    DroppedUnaccounted(w, v);
    assert forall i | 0 <= i < |v.uses| :: v.uses[i] == w.uses[i];
    hide Unaccounted;
    forall name | name in v.logs
      ensures name in v.others || exists i | 0 <= i < |v.uses| :: v.uses[i].log == name
    {
      if name !in w.others {
        var i :| 0 <= i < |w.uses| && w.uses[i].log == name;
        assert v.uses[i].log == name;
      }
    }
  }

  lemma NeverRanHolds(f: Family, start: string, w: World)
    requires Inv(f, start, w) && w.running
    ensures Inv(f, start, Apply(f, start, w, NeverRan))
  {
    hide PlanSpawn, IsWalk, UsesAreVisits, IsAccounted, AttemptsRise, LogsAreKnown, Unaccounted;
    var v := Apply(f, start, w, NeverRan);
    SameVisits(f, start, w, v);
    NeverRanKeepsRest(w, v);
  }

  lemma OtherRecordHolds(f: Family, start: string, w: World, name: string, record: Record)
    requires Inv(f, start, w) && !OfFamily(f, name)
    ensures Inv(f, start, Apply(f, start, w, OtherRecord(name, record)))
  {
    hide PlanSpawn, LogName, Entry, Moves, RecordName, IsWalk, Where, AttemptsRise, LogsAreKnown;
    var v := Apply(f, start, w, OtherRecord(name, record));
    SameVisits(f, start, w, v);
    forall n: nat | n >= 1 ensures Read(v.records, RecordName(f, n)) == Read(w.records, RecordName(f, n)) {
      assert RecordName(f, n) != name;
    }
    forall i | 0 <= i < |v.uses| && v.uses[i].accounted ensures IsAccounted(f, v.records, v.uses[i]) {
      assert IsAccounted(f, w.records, w.uses[i]) && IsUse(f, start, w, w.uses[i]);
    }
    forall i | 0 <= i < |v.uses| && Unaccounted(v, i)
      ensures PlanSpawn(f, v.records, v.uses[i].number, v.uses[i].moves).attempt == v.uses[i].attempt
    {
      assert Unaccounted(w, i) && IsUse(f, start, w, w.uses[i]);
      PlanReads(f, v.records, w.records, v.uses[i].number, v.uses[i].moves);
    }
    assert AttemptsRise(v) by { SameUses(w, v); }
    assert LogsAreKnown(v) by { SameUses(w, v); }
  }

  lemma SameUses(w: World, v: World)
    requires v.uses == w.uses
    ensures AttemptsRise(v) <==> AttemptsRise(w)
    ensures forall i :: Unaccounted(v, i) <==> Unaccounted(w, i)
    ensures v.logs == w.logs && v.others == w.others && LogsAreKnown(w) ==> LogsAreKnown(v)
  {}

  lemma LogsHold(f: Family, start: string, w: World, a: Action)
    requires Inv(f, start, w) && (a.OtherLog? || a.Remove?)
    ensures Inv(f, start, Apply(f, start, w, a))
  {
    hide PlanSpawn, IsWalk, UsesAreVisits, IsAccounted;
    var v := Apply(f, start, w, a);
    SameVisits(f, start, w, v);
    assert forall i | Unaccounted(v, i) :: Unaccounted(w, i);
  }

  lemma AppendHolds(f: Family, start: string, w: World, x: Item)
    requires Inv(f, start, w) && CanFollow(w.items, x, f.task, start)
    ensures Inv(f, start, Apply(f, start, w, Append(x)))
  {
    AppendKeepsUses(f, start, w, x);
    var v := Apply(f, start, w, Append(x));
    assert v.items[..|v.items| - 1] == w.items;
    assert IsWalk(v.items, f.task, start);
    hide PlanSpawn, IsWalk, UsesAreVisits, IsAccounted, CanFollow, Unaccounted, AttemptsRise, LogsAreKnown;
    SameUses(w, v);
  }

  /** One step keeps all this, from a state where no record is stale. */
  lemma StepHolds(f: Family, start: string, w: World, a: Action)
    requires Inv(f, start, w) && NotStale(f, w) && Enabled(f, start, w, a)
    ensures Inv(f, start, Apply(f, start, w, a))
  {
    hide Inv, Apply;
    match a
    case Append(x) => AppendHolds(f, start, w, x);
    case Start => StartHolds(f, start, w);
    case Ran(recorded) => if recorded { RecordedHolds(f, start, w); } else { FailedHolds(f, start, w); }
    case NeverRan => NeverRanHolds(f, start, w);
    case OtherLog(_) => LogsHold(f, start, w, a);
    case OtherRecord(name, record) => OtherRecordHolds(f, start, w, name, record);
    case Remove(_) => LogsHold(f, start, w, a);
  }

  // ----- runs in which no record is stale -----

  /** At no moment of the run is a record of the present visit of another move count. */
  ghost predicate Steady(f: Family, start: string, w: World, acts: seq<Action>)
    requires Runs(f, start, w, acts)
    decreases |acts|
  {
    NotStale(f, Final(f, start, w, acts)) && (acts == [] || Steady(f, start, w, acts[..|acts| - 1]))
  }

  /** What a run keeps up to the first stale record, and at it, wherever it starts. */
  lemma {:induction false} RunGoesOn(f: Family, start: string, w: World, acts: seq<Action>)
    requires Inv(f, start, w) && Runs(f, start, w, acts)
    requires acts != [] ==> Steady(f, start, w, acts[..|acts| - 1])
    ensures Inv(f, start, Final(f, start, w, acts))
  {
    hide Inv, Apply, Enabled, NotStale;
    if acts != [] {
      var before := acts[..|acts| - 1];
      RunGoesOn(f, start, w, before);
      StepHolds(f, start, Final(f, start, w, before), acts[|acts| - 1]);
    }
  }

  lemma RunHolds(f: Family, start: string, w: World, acts: seq<Action>)
    requires Initial(f, start, w) && Runs(f, start, w, acts)
    requires acts != [] ==> Steady(f, start, w, acts[..|acts| - 1])
    ensures Inv(f, start, Final(f, start, w, acts))
  {
    hide *;
    InitialHolds(f, start, w);
    RunGoesOn(f, start, w, acts);
  }

  /** What makes a record stale: a row of the ticket's name that is no movement, after an accounted spawn of
      the visit; or recording a spawn in whose visit such a row has come since it was planned. */
  predicate Staling(f: Family, w: World, a: Action)
    requires a.Ran? ==> w.uses != []
  {
    || (a.Append? && IsNote(a.item, f.task)
        && exists i | 0 <= i < |w.uses| :: w.uses[i].accounted && IsOfThisVisit(f, w, w.uses[i]))
    || (a == Ran(true) && IsOfThisVisit(f, w, w.uses[|w.uses| - 1])
        && w.uses[|w.uses| - 1].moves != Moves(w.items, f.task))
  }

  lemma OneMoreItem(f: Family, w: World, x: Item)
    ensures var items := w.items + [x];
            && Moves(items, f.task) == Moves(w.items, f.task) + LinesOf(x, f.task)
            && (forall k | 0 <= k <= |w.items| ::
                  MovedSince(items, k, f.task) <==> IsMove(x, f.task) || MovedSince(w.items, k, f.task))
  {
    assert (w.items + [x])[..|w.items|] == w.items;
  }

  lemma AppendStales(f: Family, start: string, w: World, x: Item)
    requires Inv(f, start, w) && NotStale(f, w)
    ensures !NotStale(f, Apply(f, start, w, Append(x))) <==> Staling(f, w, Append(x))
  {
    hide Moves, IsWalk, MovedSince, Accounts, AttemptsRise, PlansStay, LogsAreKnown, Where, Entry, LogName;
    OneMoreItem(f, w, x);
    var v := Apply(f, start, w, Append(x));
    assert forall i | 0 <= i < |w.uses| :: IsUse(f, start, w, w.uses[i]);
    if IsMove(x, f.task) || !IsNote(x, f.task) {
      assert forall i | 0 <= i < |w.uses| :: !IsStale(f, w, w.uses[i]) && !IsStale(f, v, v.uses[i]);
    } else {
      assert forall i | 0 <= i < |w.uses| && w.uses[i].accounted && IsOfThisVisit(f, w, w.uses[i]) ::
          !IsStale(f, w, w.uses[i]) && IsStale(f, v, v.uses[i]);
      assert forall i | 0 <= i < |w.uses| && IsStale(f, v, v.uses[i]) :: IsOfThisVisit(f, w, w.uses[i]);
    }
  }

  /** Nothing else does. */
  lemma StalingExactly(f: Family, start: string, w: World, a: Action)
    requires Inv(f, start, w) && NotStale(f, w) && Enabled(f, start, w, a)
    ensures !NotStale(f, Apply(f, start, w, a)) <==> Staling(f, w, a)
  {
    hide Moves, MovedSince, Inv, LogName, PlanSpawn;
    var v := Apply(f, start, w, a);
    if a.Append? {
      AppendStales(f, start, w, a.item);
    } else if a == Ran(true) {
      var last := |w.uses| - 1;
      assert forall i | 0 <= i < last :: v.uses[i] == w.uses[i] && (IsStale(f, v, v.uses[i]) <==> IsStale(f, w, w.uses[i]));
      assert IsStale(f, v, v.uses[last]) <==> Staling(f, w, a);
    } else {
      assert forall i | 0 <= i < |v.uses| && i < |w.uses| ::
          v.uses[i] == w.uses[i] && (IsStale(f, v, v.uses[i]) <==> IsStale(f, w, w.uses[i]));
    }
  }

  // ----- the main results -----

  lemma InvUses(f: Family, start: string, w: World)
    requires Inv(f, start, w)
    ensures UsesAreVisits(f, start, w) && IsWalk(w.items, f.task, start)
  {}

  /** The log planned in the state is none that an accounted spawn ever had. */
  predicate PlanIsFresh(f: Family, start: string, w: World) {
    Where(w.items, f.task, start) == f.state ==>
      forall i | 0 <= i < |w.uses| && w.uses[i].accounted :: Next(f, w).log != w.uses[i].log
  }

  lemma FreshWhereNotStale(f: Family, start: string, w: World)
    requires Inv(f, start, w) && NotStale(f, w)
    ensures PlanIsFresh(f, start, w)
  {
    hide Inv, NotStale, PlanSpawn, Entry, Moves;
    if Where(w.items, f.task, start) == f.state {
      forall i | 0 <= i < |w.uses| && w.uses[i].accounted ensures Next(f, w).log != w.uses[i].log {
        PlanIsOfThisVisit(f, start, w, i);
      }
    }
  }

  /** Over every steady run, the log planned next in the state is none that an accounted spawn ever had, its
      attempt is past every accounted one of this visit, and the record it continues from was not left
      by a spawn of an earlier visit. */
  lemma PlannedNameIsFresh(f: Family, start: string, w: World, acts: seq<Action>)
    requires Initial(f, start, w) && Runs(f, start, w, acts) && Steady(f, start, w, acts)
    requires Where(Final(f, start, w, acts).items, f.task, start) == f.state
    ensures var v := Final(f, start, w, acts);
            forall i | 0 <= i < |v.uses| && v.uses[i].accounted ::
              && Next(f, v).log != v.uses[i].log
              && (IsOfThisVisit(f, v, v.uses[i]) ==> Next(f, v).attempt > v.uses[i].attempt)
              && (!IsOfThisVisit(f, v, v.uses[i]) ==> Next(f, v).previous != Some(RecordOf(f, v.uses[i])))
  {
    hide Inv, PlanSpawn, NotStale;
    var v := Final(f, start, w, acts);
    RunHolds(f, start, w, acts);
    forall i | 0 <= i < |v.uses| && v.uses[i].accounted
      ensures Next(f, v).log != v.uses[i].log
      ensures IsOfThisVisit(f, v, v.uses[i]) ==> Next(f, v).attempt > v.uses[i].attempt
      ensures !IsOfThisVisit(f, v, v.uses[i]) ==> Next(f, v).previous != Some(RecordOf(f, v.uses[i]))
    {
      PlanIsOfThisVisit(f, start, v, i);
      InvUses(f, start, v);
      UseTellsVisit(f, start, v, v.uses[i]);
    }
  }

  /** Over every steady run, no log of an accounted spawn is given to a later spawn, even when logs are moved
      away. */
  lemma NoNameIsReused(f: Family, start: string, w: World, acts: seq<Action>, i: nat, j: nat)
    requires Initial(f, start, w) && Runs(f, start, w, acts) && Steady(f, start, w, acts)
    requires i < j < |Final(f, start, w, acts).uses| && Final(f, start, w, acts).uses[i].accounted
    ensures Final(f, start, w, acts).uses[i].log != Final(f, start, w, acts).uses[j].log
  {
    var v := Final(f, start, w, acts);
    RunHolds(f, start, w, acts);
    hide Runs, Final;
    var a, b := v.uses[i], v.uses[j];
    assert IsUse(f, start, v, a) && IsUse(f, start, v, b);
    NamesAreDistinct(f, a.number, a.attempt, b.number, b.attempt);
  }

  // ----- every run -----

  /** What every run keeps, stale records or not. */
  predicate Base(f: Family, start: string, w: World) {
    IsWalk(w.items, f.task, start) && UsesAreVisits(f, start, w) && LogsAreKnown(w)
  }

  lemma LogsStayKnown(f: Family, start: string, w: World, a: Action)
    requires LogsAreKnown(w) && Enabled(f, start, w, a)
    ensures LogsAreKnown(Apply(f, start, w, a))
  {
    hide PlanSpawn, Entry, Moves, LogName, RecordName;
    var v := Apply(f, start, w, a);
    forall name | name in v.logs
      ensures name in v.others || exists i | 0 <= i < |v.uses| :: v.uses[i].log == name
    {
      if name in w.logs && name !in w.others {
        var i :| 0 <= i < |w.uses| && w.uses[i].log == name;
        if i < |v.uses| {
          assert v.uses[i].log == name;
        }
      } else if a.Start? {
        assert v.uses[|w.uses|].log == UseOf(f, w).log;
      }
    }
  }

  lemma StepKeepsBase(f: Family, start: string, w: World, a: Action)
    requires Base(f, start, w) && Enabled(f, start, w, a)
    ensures Base(f, start, Apply(f, start, w, a))
  {
    LogsStayKnown(f, start, w, a);
    var v := Apply(f, start, w, a);
    if a.Append? {
      AppendKeepsUses(f, start, w, a.item);
      assert v.items[..|v.items| - 1] == w.items;
    } else if a.Start? {
      StartKeepsUses(f, start, w);
    } else {
      hide LogsAreKnown, IsWalk, Where, UsesAreVisits, PlanSpawn, RecordName;
      SameVisits(f, start, w, v);
    }
  }

  lemma {:induction false} RunKeepsBase(f: Family, start: string, w: World, acts: seq<Action>)
    requires Initial(f, start, w) && Runs(f, start, w, acts)
    ensures Base(f, start, Final(f, start, w, acts))
  {
    hide Apply, Enabled;
    if acts != [] {
      hide Base;
      var before := acts[..|acts| - 1];
      RunKeepsBase(f, start, w, before);
      StepKeepsBase(f, start, Final(f, start, w, before), acts[|acts| - 1]);
    }
  }

  /** All logs given away are there, and different. */
  predicate LogsAreDistinct(w: World) {
    && (forall i | 0 <= i < |w.uses| :: w.uses[i].log in w.logs)
    && (forall i, j | 0 <= i < j < |w.uses| :: w.uses[i].log != w.uses[j].log)
  }

  lemma StepKeepsLogs(f: Family, start: string, w: World, a: Action)
    requires LogsAreDistinct(w) && Enabled(f, start, w, a) && !a.Remove?
    ensures LogsAreDistinct(Apply(f, start, w, a))
  {
    hide PlanSpawn, Entry, Moves, LogName, RecordName, Where;
    var v := Apply(f, start, w, a);
    assert forall i | 0 <= i < |w.uses| && i < |v.uses| :: v.uses[i].log == w.uses[i].log;
    if a.Start? {
      assert v.uses[|w.uses|].log == Next(f, w).log && Next(f, w).log !in w.logs;
    }
  }

  /** Over every run in which no log is moved away, whatever rows the ledger has, all spawns have different
      logs, with a record or without, and all of them are still there. */
  lemma {:induction false} LogsStay(f: Family, start: string, w: World, acts: seq<Action>)
    requires Initial(f, start, w) && Runs(f, start, w, acts)
    requires forall k | 0 <= k < |acts| :: !acts[k].Remove?
    ensures LogsAreDistinct(Final(f, start, w, acts))
  {
    if acts != [] {
      hide Apply, Enabled, LogsAreDistinct, Initial;
      var before := acts[..|acts| - 1];
      LogsStay(f, start, w, before);
      StepKeepsLogs(f, start, Final(f, start, w, before), acts[|acts| - 1]);
    }
  }

  /** A spawn of this visit had the attempt planned now, and its log is still there. */
  predicate HasPlannedLog(f: Family, w: World, u: Use) {
    IsOfThisVisit(f, w, u) && u.attempt == Next(f, w).attempt && u.log in w.logs
  }

  /** Over every run, a spawn is refused exactly if somebody else's file has the planned name, or a spawn of
      this same visit left its log there. In a steady run that spawn has no record; and a spawn at the present
      move count has the planned attempt and no record exactly if no record answers for it or a later one
      of its visit, so it blocks the visit until its log is moved away. */
  lemma RefusedExactly(f: Family, start: string, w: World, acts: seq<Action>)
    requires Initial(f, start, w) && Runs(f, start, w, acts)
    requires var v := Final(f, start, w, acts);
             Where(v.items, f.task, start) == f.state && Next(f, v).log !in v.others
    ensures var v := Final(f, start, w, acts);
            Refused(f, v) <==> exists i | 0 <= i < |v.uses| :: HasPlannedLog(f, v, v.uses[i])
    ensures var v := Final(f, start, w, acts);
            Steady(f, start, w, acts) ==>
              && (forall i | 0 <= i < |v.uses| && HasPlannedLog(f, v, v.uses[i]) :: !v.uses[i].accounted)
              && (forall i | 0 <= i < |v.uses| && IsOfThisVisit(f, v, v.uses[i]) && v.uses[i].moves == Moves(v.items, f.task) ::
                    Unaccounted(v, i) <==> !v.uses[i].accounted && v.uses[i].attempt == Next(f, v).attempt)
  {
    var v := Final(f, start, w, acts);
    RunKeepsBase(f, start, w, acts);
    PlannedLogs(f, start, v);
    if Steady(f, start, w, acts) {
      RunHolds(f, start, w, acts);
      PlannedLogsHaveNoRecord(f, start, v);
    }
  }

  lemma PlannedLogs(f: Family, start: string, w: World)
    requires Base(f, start, w) && Where(w.items, f.task, start) == f.state && Next(f, w).log !in w.others
    ensures Refused(f, w) <==> exists i | 0 <= i < |w.uses| :: HasPlannedLog(f, w, w.uses[i])
  {
    hide PlanSpawn, LogName, Entry, Moves, RecordName, IsWalk, Where, MovedSince;
    PlanCounts(f, w);
    forall i | 0 <= i < |w.uses|
      ensures w.uses[i].log == Next(f, w).log <==>
                IsOfThisVisit(f, w, w.uses[i]) && w.uses[i].attempt == Next(f, w).attempt
    {
      var u := w.uses[i];
      assert IsUse(f, start, w, u);
      UseTellsVisit(f, start, w, u);
      NamesAreDistinct(f, u.number, u.attempt, Entry(w.items, f.task, f.state), Next(f, w).attempt);
    }
  }

  lemma PlannedLogsHaveNoRecord(f: Family, start: string, w: World)
    requires Inv(f, start, w) && NotStale(f, w) && Where(w.items, f.task, start) == f.state
    ensures forall i | 0 <= i < |w.uses| && HasPlannedLog(f, w, w.uses[i]) :: !w.uses[i].accounted
    ensures forall i | 0 <= i < |w.uses| && IsOfThisVisit(f, w, w.uses[i]) && w.uses[i].moves == Moves(w.items, f.task) ::
              Unaccounted(w, i) <==> !w.uses[i].accounted && w.uses[i].attempt == Next(f, w).attempt
  {
    hide PlanSpawn, LogName, Entry, Moves, RecordName, IsWalk, Where, MovedSince, NotStale, Inv, Unaccounted;
    InvUses(f, start, w);
    forall i | 0 <= i < |w.uses| && IsOfThisVisit(f, w, w.uses[i])
      ensures HasPlannedLog(f, w, w.uses[i]) ==> !w.uses[i].accounted
      ensures w.uses[i].moves == Moves(w.items, f.task) ==>
                (Unaccounted(w, i) <==> !w.uses[i].accounted && w.uses[i].attempt == Next(f, w).attempt)
    {
      assert IsUse(f, start, w, w.uses[i]);
      UseTellsVisit(f, start, w, w.uses[i]);
      PlanIsNotBelow(f, start, w, i);
    }
  }
}
