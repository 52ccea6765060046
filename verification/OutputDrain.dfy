/** The drain of an agent's output: a pipe with writers, a reader thread, and a spawner that waits for
  the reader to have captured what the pipe held when the agent exited.

  An `Action` is one step of one of them, so a sequence of actions is an interleaving. The reader's
  steps are the branches of its loop, each between two points where others can act. */
module OutputDrain {
  import opened Basics
  import opened Lines

  type Line = seq<byte>

  const LF: byte := 10
  /** The most one read takes. */
  const CHUNK: nat := 8192

  /** Where the reader stands against the agent's exit. */
  datatype Capture = Live | Owed(bytes: int) | Trailing

  datatype Point =
    | Top
    | Counting               // the exit was seen, the pipe is yet to be counted
    | Polling                // the exit was not seen, the pipe is yet to be polled
    | Reading(limit: int)    // a read of at most `limit` bytes is issued
    | Ended(ok: bool)

  datatype State = State(
    written: seq<byte>,       // everything ever written to the pipe
    read: nat,                // how much of it was read
    closed: bool,             // no writer is left
    exitAt: nat,              // how much was written when the agent exited
    agentGone: bool,
    exited: bool,             // the flag the spawner raises
    captured: bool,           // the flag the reader raises, that releases the spawner
    point: Point,
    capture: Capture,
    pending: seq<byte>,
    taken: seq<Line>,
    boundary: nat,            // how much was read when the capture was settled
    settled: bool)

  datatype Action =
    | Write(bytes: seq<byte>)
    | AgentExits
    | Close
    | SignalExit
    | CheckExit
    | Count(known: bool)
    | CountFails
    | Poll(readable: bool)
    | Settle
    | IssueRead
    | Got(n: nat)
    | GotTakeFails(n: nat, lines: nat)
    | SettleTakeFails
    | EndOfPipe
    | EndTakeFails
    | Interrupted
    | Fails

  predicate IsReaders(a: Action) { !a.Write? && !a.AgentExits? && !a.Close? && !a.SignalExit? }

  function Unread(s: State): int { |s.written| - s.read }

  predicate Enabled(s: State, a: Action) {
    match a
    case Write(_) => !s.closed
    case AgentExits => !s.agentGone
    case Close => s.agentGone
    case SignalExit => s.agentGone
    case CheckExit => s.point.Top? && s.capture.Live?
    case Count(_) => s.point.Counting?
    case CountFails => s.point.Counting?
    case Poll(readable) => s.point.Polling? && (readable ==> Unread(s) > 0 || s.closed)
    case Settle => s.point.Top? && s.capture == Owed(0)
    case SettleTakeFails => s.point.Top? && s.capture == Owed(0) && s.pending != []
    case IssueRead => s.point.Top? && !s.capture.Live? && s.capture != Owed(0)
    case Got(n) => s.point.Reading? && 1 <= n <= s.point.limit && n <= Unread(s)
    case GotTakeFails(n, lines) =>
      && s.point.Reading? && 1 <= n <= s.point.limit && n <= Unread(s)
      && 1 <= lines <= |Complete(LF, s.pending + Bytes(s, n))|
    case EndOfPipe => s.point.Reading? && s.closed && Unread(s) == 0
    case EndTakeFails => s.point.Reading? && s.closed && Unread(s) == 0 && s.pending != []
    case Interrupted => s.point.Reading?
    case Fails => s.point.Reading? || s.point.Polling?
  }

  /** The next `n` bytes of the pipe. */
  function Bytes(s: State, n: nat): seq<byte>
    requires s.read + n <= |s.written|
  {
    s.written[s.read..s.read + n]
  }

  function LastLine(pending: seq<byte>): seq<Line> { if pending == [] then [] else [pending] }

  /** The reader ends, however it ends, and the flag it holds is raised. */
  function End(s: State, ok: bool): State { s.(point := Ended(ok), captured := true) }

  /** `n` bytes arrive in the chunk. */
  function Receive(s: State, n: nat): State
    requires s.read + n <= |s.written|
  {
    s.(read := s.read + n,
       pending := s.pending + Bytes(s, n),
       capture := if s.capture.Owed? then Owed(s.capture.bytes - n) else s.capture)
  }

  function Apply(s: State, a: Action): State
    requires Enabled(s, a)
  {
    match a
    case Write(bytes) => s.(written := s.written + bytes)
    case AgentExits => s.(agentGone := true, exitAt := |s.written|)
    case Close => s.(closed := true)
    case SignalExit => s.(exited := true)
    case CheckExit => s.(point := if s.exited then Counting else Polling)
    case Count(known) => s.(point := Top, capture := if known then Owed(Unread(s)) else Trailing)
    case CountFails => End(s, false)
    case Poll(readable) => s.(point := if readable then Reading(CHUNK) else Top)
    case Settle =>
      s.(taken := s.taken + LastLine(s.pending), pending := [], captured := true,
         capture := Trailing, boundary := s.read, settled := true)
    case SettleTakeFails => End(s.(taken := s.taken + [s.pending]), false)
    case IssueRead =>
      s.(point := Reading(if s.capture.Owed? && s.capture.bytes < CHUNK then s.capture.bytes else CHUNK))
    case Got(n) =>
      var r := Receive(s, n);
      r.(point := Top, taken := r.taken + Complete(LF, r.pending), pending := Rest(LF, r.pending))
    case GotTakeFails(n, lines) =>
      var r := Receive(s, n);
      End(r.(taken := r.taken + Complete(LF, r.pending)[..lines]), false)
    case EndOfPipe => End(s.(taken := s.taken + LastLine(s.pending), pending := []), true)
    case EndTakeFails => End(s.(taken := s.taken + [s.pending]), false)
    case Interrupted => s.(point := Top)
    case Fails => End(s, false)
  }

  const START: State :=
    State([], 0, false, 0, false, false, false, Top, Live, [], [], 0, false)

  predicate Runs(s: State, acts: seq<Action>)
    decreases |acts|, 0
  {
    acts == [] || (Runs(s, acts[..|acts| - 1]) && Enabled(Final(s, acts[..|acts| - 1]), acts[|acts| - 1]))
  }

  function Final(s: State, acts: seq<Action>): State
    requires Runs(s, acts)
    decreases |acts|, 1
  {
    if acts == [] then s else Apply(Final(s, acts[..|acts| - 1]), acts[|acts| - 1])
  }

  // ----- what every state keeps -----

  /** Where the lines of the current stretch begin: the exit boundary, once it is settled. */
  function From(s: State): nat { if s.settled then s.boundary else 0 }

  predicate InBounds(s: State) { s.boundary <= s.read <= |s.written| }

  /** The lines of the bytes before the current stretch. */
  function Head(s: State): seq<Line>
    requires InBounds(s)
  {
    Split(LF, s.written[..From(s)])
  }

  function Stretch(s: State): seq<byte>
    requires InBounds(s)
  {
    s.written[From(s)..s.read]
  }

  /** The lines taken and the bytes pending account for the bytes read, cut at line feeds and, once
      the capture is settled, at the exit boundary. */
  predicate Accounted(s: State)
    requires InBounds(s)
  {
    s.taken == Head(s) + Complete(LF, Stretch(s)) && s.pending == Rest(LF, Stretch(s))
  }

  /** What a reader that ended took. */
  predicate Finished(s: State)
    requires s.point.Ended? && InBounds(s)
  {
    && (s.point.ok ==> s.read == |s.written| && s.taken == Head(s) + Split(LF, s.written[From(s)..]))
    && Join(s.taken) <= s.written
  }

  predicate Invariant(s: State) {
    && InBounds(s)
    && s.exitAt <= |s.written|
    && (s.exited ==> s.agentGone)
    && (s.point.Counting? ==> s.exited && s.capture.Live?)
    && (s.point.Polling? ==> s.capture.Live?)
    && (s.capture.Owed? ==>
          && 0 <= s.capture.bytes && s.read + s.capture.bytes <= |s.written|
          && s.agentGone && s.exitAt <= s.read + s.capture.bytes && !s.settled)
    && (s.capture.Live? ==> !s.settled)
    && (s.point.Reading? ==>
          && 1 <= s.point.limit <= CHUNK && (s.capture.Owed? ==> s.point.limit <= s.capture.bytes)
          && (s.capture.Live? ==> Unread(s) > 0 || s.closed))
    && (s.settled ==> s.agentGone && s.exitAt <= s.boundary)
    && (s.captured <==> s.settled || s.point.Ended?)
    && (if s.point.Ended? then s.closed || !s.point.ok else Accounted(s))
    && (s.point.Ended? ==> Finished(s))
  }

  lemma MoreLines(head: seq<Line>, got: seq<byte>, more: seq<byte>)
    ensures head + Complete(LF, got + more) == (head + Complete(LF, got)) + Complete(LF, Rest(LF, got) + more)
    ensures Rest(LF, got + more) == Rest(LF, Rest(LF, got) + more)
  {
    hide Split, Complete, Rest, Join;
    FeedInPieces(LF, got, more);
  }

  lemma ReceiveAccounted(s: State, n: nat)
    requires Invariant(s) && !s.point.Ended? && s.read + n <= |s.written|
    ensures var r := Receive(s, n);
            Accounted(r.(taken := r.taken + Complete(LF, r.pending), pending := Rest(LF, r.pending)))
  {
    hide Split, Complete, Rest, Join;
    MoreLines(Head(s), Stretch(s), Bytes(s, n));
    assert Stretch(Receive(s, n)) == Stretch(s) + Bytes(s, n);
  }

  lemma LastLineClosesSplit(head: seq<Line>, got: seq<byte>)
    ensures head + Complete(LF, got) + LastLine(Rest(LF, got)) == head + Split(LF, got)
    ensures Join(head + Complete(LF, got)) + Rest(LF, got) == Join(head) + got
    ensures Join(head + Split(LF, got)) == Join(head) + got
  {
    hide Split, Complete, Rest, Join;
    CompleteAndRest(LF, got);
    SplitIsFramed(LF, got);
    JoinAppends(head, Complete(LF, got));
    JoinAppends(head, Split(LF, got));
  }

  /** What was read so far, from the lines taken and the bytes pending. */
  lemma TakenAndPending(s: State)
    requires Invariant(s) && !s.point.Ended?
    ensures Join(s.taken) + s.pending == s.written[..s.read]
    ensures s.taken + LastLine(s.pending) == Head(s) + Split(LF, Stretch(s))
    ensures Join(s.taken + LastLine(s.pending)) == s.written[..s.read]
  {
    hide Split, Complete, Rest, Join;
    LastLineClosesSplit(Head(s), Stretch(s));
    SplitIsFramed(LF, s.written[..From(s)]);
    assert s.written[..From(s)] + Stretch(s) == s.written[..s.read];
  }

  lemma JoinOfPart(ls: seq<Line>, k: nat)
    requires k <= |ls|
    ensures Join(ls[..k]) <= Join(ls)
  {
    JoinAppends(ls[..k], ls[k..]);
    assert ls == ls[..k] + ls[k..];
  }

  lemma PartialTakeIsPrefix(s: State, n: nat, lines: nat)
    requires Invariant(s) && Enabled(s, GotTakeFails(n, lines))
    ensures Join(Apply(s, GotTakeFails(n, lines)).taken) <= s.written
  {
    hide Split, Complete, Rest, Join;
    var all := s.pending + Bytes(s, n);
    var done := Complete(LF, all);
    CompleteAndRest(LF, all);
    TakenAndPending(s);
    JoinOfPart(done, lines);
    JoinAppends(s.taken, done[..lines]);
    assert s.written[..s.read] + Bytes(s, n) <= s.written;
    PrefixOfSum(Join(s.taken), Join(done[..lines]), Join(done), s.pending, Bytes(s, n), Rest(LF, all));
  }

  lemma PrefixOfSum(taken: seq<byte>, part: seq<byte>, done: seq<byte>, pending: seq<byte>, more: seq<byte>, rest: seq<byte>)
    requires part <= done && done + rest == pending + more
    ensures taken + part <= (taken + pending) + more
  {
    assert (taken + pending) + more == taken + (pending + more);
  }

  lemma WriteKeepsInvariant(s: State, bytes: seq<byte>)
    requires Invariant(s) && Enabled(s, Write(bytes))
    ensures Invariant(Apply(s, Write(bytes)))
  {
    hide Split, Complete, Rest, Join;
    var s' := Apply(s, Write(bytes));
    assert s'.written[..From(s)] == s.written[..From(s)];
    assert Stretch(s') == Stretch(s);
  }

  lemma SettleKeepsInvariant(s: State)
    requires Invariant(s) && Enabled(s, Settle)
    ensures Invariant(Apply(s, Settle))
  {
    TakenAndPending(s);
    assert s.written[0..s.read] == s.written[..s.read];
    assert s.written[s.read..s.read] == [];
    assert Head(s) == [];
  }

  lemma EndKeepsInvariant(s: State, a: Action)
    requires Invariant(s) && Enabled(s, a) && Apply(s, a).point.Ended? && !s.point.Ended?
    ensures Invariant(Apply(s, a))
  {
    hide Split, Complete, Rest, Join;
    TakenAndPending(s);
    if a.GotTakeFails? {
      PartialTakeIsPrefix(s, a.n, a.lines);
    } else if a.EndOfPipe? {
      assert Stretch(s) == s.written[From(s)..];
    }
  }

  lemma StepKeepsInvariant(s: State, a: Action)
    requires Invariant(s) && Enabled(s, a)
    ensures Invariant(Apply(s, a))
  {
    hide Split, Complete, Rest, Join;
    if a.Write? {
      WriteKeepsInvariant(s, a.bytes);
    } else if a.Got? {
      ReceiveAccounted(s, a.n);
    } else if a.Settle? {
      SettleKeepsInvariant(s);
    } else if Apply(s, a).point.Ended? && !s.point.Ended? {
      EndKeepsInvariant(s, a);
    }
  }

  lemma {:induction false} EveryStateIsInvariant(acts: seq<Action>)
    requires Runs(START, acts)
    ensures Invariant(Final(START, acts))
  {
    if acts != [] {
      EveryStateIsInvariant(acts[..|acts| - 1]);
      StepKeepsInvariant(Final(START, acts[..|acts| - 1]), acts[|acts| - 1]);
    }
  }

  // ----- the promises -----

  /** What was captured reaches the agent's exit, or the reader is gone. */
  predicate ExitCaptured(s: State) {
    s.captured ==>
      s.point.Ended? || (s.agentGone && Join(s.taken) <= s.written && s.exitAt <= |Join(s.taken)|)
  }

  /** Drain safety: in every interleaving, once the captured flag is up, either the lines taken so far
      concatenate to a prefix of the pipe's bytes that includes everything written before the agent
      exited, or the reader has ended. */
  lemma DrainSafety(acts: seq<Action>)
    requires Runs(START, acts)
    ensures ExitCaptured(Final(START, acts))
  {
    hide Split, Complete, Rest, Join, Apply, Enabled;
    EveryStateIsInvariant(acts);
    var s := Final(START, acts);
    if s.captured && !s.point.Ended? {
      TakenAndPending(s);
      LastLineClosesSplit(Head(s), Stretch(s));
      SplitIsFramed(LF, s.written[..s.boundary]);
      JoinAppends(Head(s), Complete(LF, Stretch(s)));
      assert |s.written[..s.boundary]| <= |Join(s.taken)|;
    }
  }

  /** The count of owed bytes never underflows, the bytes it counts are in the pipe, and no read is
      issued with an empty buffer or for more than is owed. */
  lemma CountsAreSound(acts: seq<Action>)
    requires Runs(START, acts)
    ensures var s := Final(START, acts);
            && (s.capture.Owed? ==> 0 <= s.capture.bytes <= Unread(s))
            && (s.point.Reading? ==> 1 <= s.point.limit <= CHUNK)
            && (s.point.Reading? && s.capture.Owed? ==> s.point.limit <= s.capture.bytes)
            && 0 <= Unread(s)
  {
    EveryStateIsInvariant(acts);
  }

  /** Framing: a reader that reaches the pipe's end took the lines of the bytes up to the exit boundary,
      then the lines of the rest, whatever sizes its reads had. */
  lemma Framing(acts: seq<Action>)
    requires Runs(START, acts) && Final(START, acts).point == Ended(true)
    ensures var s := Final(START, acts);
            && From(s) <= |s.written| && (s.settled ==> s.agentGone && s.exitAt <= From(s))
            && s.taken == Split(LF, s.written[..From(s)]) + Split(LF, s.written[From(s)..])
            && Join(s.taken) == s.written
  {
    EveryStateIsInvariant(acts);
    var s := Final(START, acts);
    SplitIsFramed(LF, s.written[..From(s)]);
    SplitIsFramed(LF, s.written[From(s)..]);
    JoinAppends(Head(s), Split(LF, s.written[From(s)..]));
    assert s.written[..From(s)] + s.written[From(s)..] == s.written;
  }

  /** Two readers of the same bytes that settled at the same boundary took the same lines, and at any
      time before that the bytes taken plus the bytes pending are the bytes read. */
  lemma ChunkingDoesNotMatter(acts: seq<Action>, others: seq<Action>)
    requires Runs(START, acts) && Final(START, acts).point == Ended(true)
    requires Runs(START, others) && Final(START, others).point == Ended(true)
    requires Final(START, acts).written == Final(START, others).written
    requires From(Final(START, acts)) == From(Final(START, others))
    ensures Final(START, acts).taken == Final(START, others).taken
  {
    Framing(acts);
    Framing(others);
  }

  lemma TakenPlusPending(acts: seq<Action>)
    requires Runs(START, acts) && !Final(START, acts).point.Ended?
    ensures var s := Final(START, acts);
            s.read <= |s.written| && Join(s.taken) + s.pending == s.written[..s.read]
  {
    EveryStateIsInvariant(acts);
    TakenAndPending(Final(START, acts));
  }

  // ----- progress -----

  /** How many of the reader's own steps are left until what it owes is captured. */
  function Rank(s: State): int {
    if s.captured || !s.capture.Owed? then 0
    else 2 * s.capture.bytes + if s.point.Top? then 1 else 0
  }

  function ReaderSteps(acts: seq<Action>): nat {
    if acts == [] then 0
    else ReaderSteps(acts[..|acts| - 1]) + if IsReaders(acts[|acts| - 1]) then 1 else 0
  }

  /** How many reads were interrupted and have to be issued again. */
  function Interrupts(acts: seq<Action>): nat {
    if acts == [] then 0
    else Interrupts(acts[..|acts| - 1]) + if acts[|acts| - 1].Interrupted? then 1 else 0
  }

  /** A step of the reader lowers what is left to do; an interrupted read puts its issue back. */
  lemma RankFalls(s: State, a: Action)
    requires Invariant(s) && Enabled(s, a) && s.capture.Owed? && !s.captured
    ensures !IsReaders(a) ==> Apply(s, a).capture == s.capture && Rank(Apply(s, a)) == Rank(s)
    ensures IsReaders(a) && !a.Interrupted? ==>
              Apply(s, a).captured || (Apply(s, a).capture.Owed? && Rank(Apply(s, a)) < Rank(s))
    ensures a.Interrupted? ==> Apply(s, a).capture == s.capture && Rank(Apply(s, a)) == Rank(s) + 1
  {
    hide Split, Complete, Rest, Join;
  }

  /** While bytes are owed the reader never blocks: it can always settle, issue a read, or receive at
      least one byte. */
  lemma OwedNeverBlocks(acts: seq<Action>)
    requires Runs(START, acts)
    ensures var s := Final(START, acts);
            s.capture.Owed? && !s.captured ==> Enabled(s, Settle) || Enabled(s, IssueRead) || Enabled(s, Got(1))
  {
    EveryStateIsInvariant(acts);
  }

  /** Progress: once the reader owes `n` bytes, the waiting spawner is released by the time the reader
      took `2n + 2` steps of its own, and two more for each read that was interrupted, whatever others do
      meanwhile. */
  lemma {:induction false} OwedIsCaptured(before: seq<Action>, acts: seq<Action>)
    requires Runs(START, before) && Final(START, before).capture.Owed?
    requires Runs(START, before + acts)
    ensures var s, now := Final(START, before), Final(START, before + acts);
            && (now.captured || (now.capture.Owed? && Rank(now) + ReaderSteps(acts) <= Rank(s) + 2 * Interrupts(acts)))
            && (ReaderSteps(acts) >= 2 * s.capture.bytes + 2 + 2 * Interrupts(acts) ==> now.captured)
    decreases |acts|
  {
    var all, s := before + acts, Final(START, before);
    RankIsBounded(before);
    RankIsBounded(all);
    hide Apply, Enabled, Invariant, Rank;
    if acts == [] {
      assert all == before;
    } else {
      var n := |acts| - 1;
      var shorter := before + acts[..n];
      assert all[..|all| - 1] == shorter && all[|all| - 1] == acts[n];
      OwedIsCaptured(before, acts[..n]);
      EveryStateIsInvariant(shorter);
      if Final(START, shorter).captured {
        CapturedStays(Final(START, shorter), acts[n]);
      } else {
        RankFalls(Final(START, shorter), acts[n]);
      }
    }
  }

  lemma RankIsBounded(acts: seq<Action>)
    requires Runs(START, acts)
    ensures var s := Final(START, acts);
            && 0 <= Rank(s)
            && (s.capture.Owed? ==> Rank(s) <= 2 * s.capture.bytes + 1)
            && (s.capture.Owed? && !s.captured ==> Rank(s) >= 1)
  {
    EveryStateIsInvariant(acts);
  }

  /** How many of its own steps a reader that has not seen the raised exit flag is from seeing it and
      counting. */
  function Watching(p: Point): nat {
    match p
    case Counting => 1
    case Top => 2
    case Reading(_) => 3
    case Polling => 4
    case Ended(_) => 0
  }

  /** Before the exit is seen the reader never blocks either: it polls before it reads. */
  lemma LiveNeverBlocks(acts: seq<Action>)
    requires Runs(START, acts)
    ensures var s := Final(START, acts);
            s.capture.Live? && !s.point.Ended? ==>
              Enabled(s, CheckExit) || Enabled(s, Count(true)) || Enabled(s, Poll(false))
              || Enabled(s, Got(1)) || Enabled(s, EndOfPipe)
  {
    EveryStateIsInvariant(acts);
  }

  /** The capture is decided: the spawner is released, or waits for the reader's end because the pipe could
      not be counted. */
  predicate Decided(s: State) { s.captured || s.capture.Trailing? }

  /** What is left of the steps from the raised flag to the captured one, after `steps` of them. */
  predicate OnTheWay(s: State, steps: nat, interrupts: nat) {
    || Decided(s)
    || (s.capture.Live? && s.exited && Watching(s.point) + steps <= 4 + 2 * interrupts)
    || (s.capture.Owed? && Rank(s) + steps <= 5 + 2 * |s.written| + 2 * interrupts)
  }

  lemma StepsOn(s: State, a: Action, steps: nat, interrupts: nat)
    requires Invariant(s) && Enabled(s, a) && OnTheWay(s, steps, interrupts)
    ensures OnTheWay(Apply(s, a), steps + (if IsReaders(a) then 1 else 0), interrupts + if a.Interrupted? then 1 else 0)
  {
    hide Split, Complete, Rest, Join;
    if s.capture.Owed? && !s.captured {
      RankFalls(s, a);
    }
  }

  /** Progress from the moment the spawner raises the exit flag and starts to wait: by the time the reader
      took five steps of its own, two for each byte ever written and two for each interrupted read, the
      captured flag is up, or the source could not say what it held. */
  lemma {:induction false} ExitIsCaptured(before: seq<Action>, acts: seq<Action>)
    requires Runs(START, before) && Final(START, before).exited && Final(START, before).capture.Live?
    requires Runs(START, before + acts)
    ensures var now := Final(START, before + acts);
            && OnTheWay(now, ReaderSteps(acts), Interrupts(acts))
            && (ReaderSteps(acts) >= 5 + 2 * |now.written| + 2 * Interrupts(acts) ==> Decided(now))
    decreases |acts|
  {
    hide Apply, Enabled, Invariant, Rank, OnTheWay, Decided;
    var all := before + acts;
    if acts == [] {
      assert all == before;
      WatchStarts(before);
    } else {
      var n := |acts| - 1;
      var shorter := before + acts[..n];
      assert all[..|all| - 1] == shorter && all[|all| - 1] == acts[n];
      ExitIsCaptured(before, acts[..n]);
      EveryStateIsInvariant(shorter);
      StepsOn(Final(START, shorter), acts[n], ReaderSteps(acts[..n]), Interrupts(acts[..n]));
    }
    if ReaderSteps(acts) >= 5 + 2 * |Final(START, all).written| + 2 * Interrupts(acts) {
      EndIsDecided(all, ReaderSteps(acts), Interrupts(acts));
    }
  }

  lemma WatchStarts(acts: seq<Action>)
    requires Runs(START, acts) && Final(START, acts).exited && Final(START, acts).capture.Live?
    ensures OnTheWay(Final(START, acts), 0, 0)
  {}

  lemma EndIsDecided(acts: seq<Action>, steps: nat, interrupts: nat)
    requires Runs(START, acts) && OnTheWay(Final(START, acts), steps, interrupts)
    requires steps >= 5 + 2 * |Final(START, acts).written| + 2 * interrupts
    ensures Decided(Final(START, acts))
  {
    RankIsBounded(acts);
    EndedIsCaptured(acts);
    hide Rank;
  }

  lemma EndedIsCaptured(acts: seq<Action>)
    requires Runs(START, acts)
    ensures Final(START, acts).point.Ended? ==> Final(START, acts).captured
  {
    EveryStateIsInvariant(acts);
  }

  lemma CapturedStays(s: State, a: Action)
    requires Enabled(s, a) && s.captured
    ensures Apply(s, a).captured
  {}
}
