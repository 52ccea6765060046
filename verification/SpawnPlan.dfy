/** The counts a plan is made of, read from ledger text, and one spawn from plan to record. */
module SpawnPlan {
  import opened Basics
  import opened Text
  import opened Lines
  import opened Ledger
  import opened SpawnNaming

  /** What reading a ledger file gives. */
  datatype Reading = Missing | Unreadable | Content(text: string)

  // ----- the move count -----

  /** How many lines start with a prefix. */
  function Starting(lines: seq<string>, prefix: string): nat {
    if lines == [] then 0
    else Starting(lines[..|lines| - 1], prefix) + if prefix <= lines[|lines| - 1] then 1 else 0
  }

  function MovesIn(r: Reading, task: string): nat {
    if r.Content? then Starting(Split('\n', r.text), task + " ") else 0
  }

  method LinesIn(r: Reading, prefix: string) returns (n: nat)
    ensures n == if r.Content? then Starting(Split('\n', r.text), prefix) else 0
  {
    n := 0;
    if r.Content? {
      var lines := Split('\n', r.text);
      for i := 0 to |lines|
        invariant n == Starting(lines[..i], prefix)
      {
        assert lines[..i + 1][..i] == lines[..i];
        if prefix <= lines[i] {
          n := n + 1;
        }
      }
      assert lines[..|lines|] == lines;
    }
  }

  /** `ticket_move_count`: `running` is none when it is the owning root's own ledger. */
  method TicketMoveCount(owning: Reading, running: Option<Reading>, task: string) returns (moves: nat)
    ensures moves == MovesIn(owning, task) + if running.Some? then MovesIn(running.value, task) else 0
  {
    moves := LinesIn(owning, task + " ");
    if running.Some? {
      var more := LinesIn(running.value, task + " ");
      moves := moves + more;
    }
  }

  // ----- the entry number -----

  function FirstOf(movements: seq<Movement>, task: string): Option<string> {
    if movements == [] then None
    else
      var before := FirstOf(movements[..|movements| - 1], task);
      var m := movements[|movements| - 1];
      if before.None? && m.taskId == task then Some(m.source) else before
  }

  function ArrivalsOf(movements: seq<Movement>, task: string, state: string): nat {
    if movements == [] then 0
    else
      var m := movements[|movements| - 1];
      ArrivalsOf(movements[..|movements| - 1], task, state) + if m.taskId == task && m.target == state then 1 else 0
  }

  /** The ledger's movements: none for a missing one, and no answer for one that cannot be read or
      parsed. */
  function MovementsIn(lib: Library, r: Reading): Option<seq<Movement>> {
    match r
    case Missing => Some([])
    case Unreadable => None
    case Content(text) =>
      var lines := Split('\n', text);
      if WellPaired(lib, lines) then Some(Contributions(lib, lines, |lines|)) else None
  }

  method MovementsRead(lib: Library, r: Reading) returns (movements: Option<seq<Movement>>)
    ensures movements == MovementsIn(lib, r)
  {
    match r
    case Missing => movements := Some([]);
    case Unreadable => movements := None;
    case Content(text) => movements := Parse(lib, text);
  }

  function Together(a: Option<seq<Movement>>, b: Option<seq<Movement>>): Option<seq<Movement>> {
    if a.Some? && b.Some? then Some(a.value + b.value) else None
  }

  method CountArrivals(movements: seq<Movement>, task: string, state: string, ghost before: seq<Movement>,
                       first: Option<string>, arrivals: nat)
    returns (newFirst: Option<string>, newArrivals: nat)
    requires first == FirstOf(before, task) && arrivals == ArrivalsOf(before, task, state)
    ensures newFirst == FirstOf(before + movements, task)
    ensures newArrivals == ArrivalsOf(before + movements, task, state)
  {
    newFirst, newArrivals := first, arrivals;
    assert before + movements[..0] == before;
    for i := 0 to |movements|
      invariant newFirst == FirstOf(before + movements[..i], task)
      invariant newArrivals == ArrivalsOf(before + movements[..i], task, state)
    {
      var m := movements[i];
      assert before + movements[..i + 1] == (before + movements[..i]) + [m];
      if m.taskId == task {
        newFirst := if newFirst.None? then Some(m.source) else newFirst;
        newArrivals := newArrivals + if m.target == state then 1 else 0;
      }
    }
    assert movements[..|movements|] == movements;
  }

  /** `ticket_entry_number_report`: refused when a ledger cannot be read or parsed. */
  method TicketEntryNumber(lib: Library, owning: Reading, running: Option<Reading>, task: string, state: string)
    returns (r: Option<nat>)
    ensures var movements := Together(MovementsIn(lib, owning), MovementsIn(lib, running.GetOr(Missing)));
            && (r.Some? <==> movements.Some?)
            && (r.Some? ==> r.value == Numbered(ArrivalsOf(movements.value, task, state), FirstOf(movements.value, task), state))
  {
    var first, arrivals := None, 0;
    var own := MovementsRead(lib, owning);
    if own.None? {
      return None;
    }
    first, arrivals := CountArrivals(own.value, task, state, [], first, arrivals);
    assert [] + own.value == own.value;
    var all := own.value;
    if running.Some? {
      var more := MovementsRead(lib, running.value);
      if more.None? {
        return None;
      }
      first, arrivals := CountArrivals(more.value, task, state, own.value, first, arrivals);
    } else {
      assert own.value + [] == own.value;
    }
    var placed := if first.None? || first.value == state then 1 else 0;
    r := Some(if arrivals + placed < 1 then 1 else arrivals + placed);
  }

  // ----- printed ledgers -----

  lemma PrefixIsTask(task: string, taskId: string, rest: string)
    requires IsWord(task) && IsWord(taskId)
    ensures task + " " <= taskId + " " + rest <==> task == taskId
  {
    var row := taskId + " " + rest;
    assert row[|taskId|] == ' ';
    if task + " " <= row {
      assert row == task + row[|task|..] && row[|task|] == (task + " ")[|task|] == ' ';
      WordEndAt(task, row[|task|..]);
      assert row == taskId + (" " + rest);
      WordEndAt(taskId, " " + rest);
      assert task == row[..WordEnd(row)] == taskId;
    }
  }

  lemma StartingOne(lines: seq<string>, row: string, prefix: string)
    ensures Starting(lines + [row], prefix) == Starting(lines, prefix) + if prefix <= row then 1 else 0
  {
    assert (lines + [row])[..|lines|] == lines;
  }

  lemma RowsStarting(lib: Library, lines: seq<string>, x: Item, task: string)
    requires IsWord(task) && Printable(lib, x)
    ensures Starting(lines + RowsOf(lib, x), task + " ") == Starting(lines, task + " ") + LinesOf(x, task)
  {
    hide Fields, Base64Url.Encode, Base64Url.Decode, Starting;
    var prefix := task + " ";
    match x
    case Moved(taskId, source, target) =>
      PrefixIsTask(task, taskId, source + "@" + target + "\n");
      assert MoveRow(taskId, source, target) == taskId + " " + (source + "@" + target + "\n");
      StartingOne(lines, MoveRow(taskId, source, target), prefix);
    case Unknown(row) =>
      StartingOne(lines, row, prefix);
    case Forced(a) =>
      ForcedTokens(lib, a);
      var meta, move := MetaRow(lib, a), MoveRow(a.taskId, a.source, a.target);
      ForcedStarts(lib, a, task);
      assert lines + RowsOf(lib, x) == (lines + [meta]) + [move];
      StartingOne(lines, meta, prefix);
      StartingOne(lines + [meta], move, prefix);
  }

  lemma ForcedStarts(lib: Library, a: Audit, task: string)
    requires IsWord(task) && IsWord(a.taskId)
    ensures task + " " <= MetaRow(lib, a) <==> task == a.taskId
    ensures task + " " <= MoveRow(a.taskId, a.source, a.target) <==> task == a.taskId
  {
    hide IsWord, Base64Url.Encode;
    var payload := Base64Url.Encode(lib.canonical(a));
    PrefixIsTask(task, a.taskId, FORCE + " " + (payload + "\n"));
    assert MetaRow(lib, a) == a.taskId + " " + (FORCE + " " + (payload + "\n"));
    PrefixIsTask(task, a.taskId, a.source + "@" + a.target + "\n");
    assert MoveRow(a.taskId, a.source, a.target) == a.taskId + " " + (a.source + "@" + a.target + "\n");
  }

  lemma {:induction false} PrintedMoves(lib: Library, items: seq<Item>, task: string)
    requires IsWord(task) && PrintableLedger(lib, items)
    ensures Starting(Rows(lib, items), task + " ") == Moves(items, task)
  {
    hide Printable, RowsOf, IsWord;
    if items != [] {
      var before, x := items[..|items| - 1], items[|items| - 1];
      assert before + [x] == items;
      ForcedIdsStep(lib, before, x);
      PrintedMoves(lib, before, task);
      RowsStarting(lib, Rows(lib, before), x, task);
    }
  }

  lemma {:induction false} PrintedArrivals(items: seq<Item>, task: string, state: string)
    ensures FirstOf(AllMovements(items), task) == FirstFrom(items, task)
    ensures ArrivalsOf(AllMovements(items), task, state) == Arrivals(items, task, state)
  {
    if items != [] {
      var before, x := items[..|items| - 1], items[|items| - 1];
      PrintedArrivals(before, task, state);
      var ms := AllMovements(before);
      if x.Unknown? {
        assert ms + MovementsOf(x) == ms;
      } else {
        assert (ms + MovementsOf(x))[..|ms|] == ms;
      }
    }
  }

  /** The two counts of a printed ledger are those of its items. */
  lemma PrintedCounts(lib: Library, items: seq<Item>, task: string, state: string)
    requires IsWord(task) && PrintableLedger(lib, items)
    ensures var text := Content(Join(Rows(lib, items)));
            && MovesIn(text, task) == Moves(items, task)
            && MovementsIn(lib, text) == Some(AllMovements(items))
            && Numbered(ArrivalsOf(AllMovements(items), task, state), FirstOf(AllMovements(items), task), state)
               == Entry(items, task, state)
  {
    hide Split, Rows, WellPairedTo, PrintableLedger;
    PrintedMoves(lib, items, task);
    PrintedArrivals(items, task, state);
    PrintedItems(lib, items);
    RowsAreLines(lib, items);
    SplitIsUnique('\n', Rows(lib, items));
    WellPairedWhole(lib, Rows(lib, items));
  }

  // ----- one spawn -----

  /** How a spawn ends: recorded, run but without a record, or never started. */
  datatype Ending = Recorded | RecordLost | NotStarted

  /** Guards a freshly made log: armed from its making to the start of the process. */
  class UnstartedLog {
    const path: string
    var armed: bool

    constructor (path: string)
      ensures this.path == path && !armed
    {
      this.path, armed := path, false;
    }

    method Created()
      modifies this
      ensures armed
    {
      armed := true;
    }

    method Started()
      modifies this
      ensures !armed
    {
      armed := false;
    }
  }

  class Runtime {
    var ledger: Reading
    var records: map<string, Record>
    var logs: set<string>

    constructor (ledger: Reading, records: map<string, Record>, logs: set<string>)
      ensures this.ledger == ledger && this.records == records && this.logs == logs
    {
      this.ledger, this.records, this.logs := ledger, records, logs;
    }

    /** Makes the file, unless the name is taken. */
    method CreateExclusively(path: string) returns (ok: bool)
      modifies this`logs
      ensures ok <==> path !in old(logs)
      ensures logs == old(logs) + {path}
    {
      ok := path !in logs;
      logs := logs + {path};
    }

    /** What the guard does when it goes. */
    method Drop(guard: UnstartedLog)
      modifies this`logs
      ensures logs == if guard.armed then old(logs) - {guard.path} else old(logs)
    {
      if guard.armed {
        logs := logs - {guard.path};
      }
    }

    /** Plans the next spawn, or refuses a name that is taken. */
    method PlanNamed(lib: Library, f: Family, ghost items: seq<Item>) returns (plan: Option<Plan>)
      requires IsWord(f.task) && PrintableLedger(lib, items) && ledger == Content(Join(Rows(lib, items)))
      ensures var w := World(items, records, logs, {}, [], false);
              plan == if Refused(f, w) then None else Some(Next(f, w))
    {
      PrintedCounts(lib, items, f.task, f.state);
      hide PrintableLedger, PlanSpawn, Rows, Starting;
      var number := TicketEntryNumber(lib, ledger, None, f.task, f.state);
      var moves := TicketMoveCount(ledger, None, f.task);
      assert AllMovements(items) + [] == AllMovements(items);
      var p := PlanSpawn(f, records, number.value, moves);
      plan := if p.log in logs then None else Some(p);
    }

    /** One spawn, `intruder` being a name another writer takes after the plan and before the log is
        made. It is the run `OtherLog`, `Start` and its ending, or refused; no log there before is
        touched. */
    method Spawn(lib: Library, f: Family, ghost items: seq<Item>, ghost start: string,
                 intruder: Option<string>, ending: Ending) returns (spawned: bool)
      requires IsWord(f.task) && PrintableLedger(lib, items) && ledger == Content(Join(Rows(lib, items)))
      requires Where(items, f.task, start) == f.state
      modifies this
      ensures ledger == old(ledger)
      ensures var w := Meanwhile(World(items, old(records), old(logs), {}, [], false), intruder);
              && (spawned <==> Enabled(f, start, w, Start))
              && (spawned ==>
                    var v := Apply(f, start, Apply(f, start, w, Start), Ended(ending));
                    records == v.records && logs == v.logs)
              && (!spawned ==> records == old(records) && old(logs) <= logs <= w.logs)
      ensures old(logs) <= logs
    {
      hide PrintableLedger, PlanSpawn, Rows, Join;
      var plan := PlanNamed(lib, f, items);
      if plan.None? {
        return false;
      }
      var p := plan.value;
      RunIs(f, start, Meanwhile(World(items, records, logs, {}, [], false), intruder), ending);
      hide Apply, Enabled, Refused;
      if intruder.Some? {
        logs := logs + {intruder.value};
      }
      var guard := new UnstartedLog(p.log);
      var made := CreateExclusively(p.log);
      if !made {
        Drop(guard);
        return false;
      }
      guard.Created();
      if ending != NotStarted {
        guard.Started();
      }
      if ending == Recorded {
        records := records[p.record := Record(f.task, f.state, p.moves, p.attempt, p.log)];
      }
      Drop(guard);
      spawned := true;
    }
  }

  /** What a spawn changes, told as one step. */
  lemma RunIs(f: Family, start: string, w: World, ending: Ending)
    requires w.uses == []
    ensures var p, v := Next(f, w), Apply(f, start, Apply(f, start, w, Start), Ended(ending));
            && v.logs == (if ending == NotStarted then (w.logs + {p.log}) - {p.log} else w.logs + {p.log})
            && v.records == (if ending == Recorded
                             then w.records[p.record := Record(f.task, f.state, p.moves, p.attempt, p.log)]
                             else w.records)
    ensures Enabled(f, start, w, Start) <==>
              !w.running && Where(w.items, f.task, start) == f.state && Next(f, w).log !in w.logs
  {
    PlanCounts(f, w);
    hide PlanSpawn, Entry, Moves, Where, LogName, RecordName, Next, Decimal, NumberPart, AttemptPart, Stem, CanFollow;
    var p, u, started := Next(f, w), UseOf(f, w), Apply(f, start, w, Start);
    assert started == w.(uses := [u], logs := w.logs + {p.log}, running := true);
    assert started.uses[|started.uses| - 1] == u;
    if ending == Recorded {
      assert RecordOf(f, u) == Record(f.task, f.state, p.moves, p.attempt, p.log);
    }
  }

  function Meanwhile(w: World, intruder: Option<string>): World {
    if intruder.Some? then w.(logs := w.logs + {intruder.value}, others := w.others + {intruder.value}) else w
  }

  function Ended(ending: Ending): Action {
    match ending
    case Recorded => Ran(true)
    case RecordLost => Ran(false)
    case NotStarted => NeverRan
  }
}
