/** The reader's loop, as one thread's code among the pipe's writers and the spawner. */
module OutputReader {
  import opened Lines
  import opened Basics
  import opened OutputDrain

  /** Everything the loop meets in one turn: what others do before each of its steps, and how the
      pipe, its queries and the log writes answer. */
  datatype Turn = Turn(others: seq<Action>, others': seq<Action>, known: bool, readable: bool,
                       size: nat, interrupted: bool, fails: bool, failingLine: nat)

  /** Moves the terminated lines out of `pending`; writing the `failing`-th of them fails, when that is not
      0, and it is the last one taken. */
  method TakeComplete(pending: seq<byte>, failing: nat) returns (lines: seq<Line>, rest: seq<byte>, ok: bool)
    ensures ok <==> failing == 0 || |Complete(LF, pending)| < failing
    ensures ok ==> lines == Complete(LF, pending) && rest == Rest(LF, pending)
    ensures !ok ==> lines == Complete(LF, pending)[..failing]
  {
    hide Complete, Rest;
    lines := [];
    var start := 0;
    assert pending[start..] == pending && lines + Complete(LF, pending) == Complete(LF, pending);
    while LF in pending[start..]
      invariant 0 <= start <= |pending|
      invariant lines + Complete(LF, pending[start..]) == Complete(LF, pending)
      invariant Rest(LF, pending[start..]) == Rest(LF, pending)
      invariant failing == 0 || |lines| < failing
      decreases |pending| - start
    {
      var end := start + LineEnd(LF, pending[start..]);
      TakeOne(pending[start..], end - start);
      assert pending[start..][..end - start] == pending[start..end];
      assert pending[start..][end - start..] == pending[end..];
      assert lines + ([pending[start..end]] + Complete(LF, pending[end..]))
          == (lines + [pending[start..end]]) + Complete(LF, pending[end..]);
      lines := lines + [pending[start..end]];
      start := end;
      if |lines| == failing {
        assert Complete(LF, pending)[..failing] == lines;
        return lines, pending, false;
      }
    }
    NoLine(LF, pending[start..]);
    rest, ok := pending[start..], true;
  }

  lemma TakeOne(s: seq<byte>, k: nat)
    requires LF in s && k == LineEnd(LF, s)
    ensures Complete(LF, s) == [s[..k]] + Complete(LF, s[k..]) && Rest(LF, s) == Rest(LF, s[k..])
  {}

  /** `n` bytes less are in the pipe and owed, and nothing else of it has changed. */
  predicate Received(s: State, r: State, n: nat) {
    && r.read == s.read + n && r.written == s.written && r.closed == s.closed
    && r.capture == if s.capture.Owed? then Owed(s.capture.bytes - n) else s.capture
  }

  lemma GotIs(s: State, n: nat, lines: nat)
    requires s.point.Reading? && 1 <= n <= s.point.limit && n <= Unread(s) && s.read <= |s.written|
    ensures Enabled(s, Got(n))
    ensures var r := Apply(s, Got(n));
            && r.point.Top? && Received(s, r, n)
            && r.taken == s.taken + Complete(LF, s.pending + Bytes(s, n))
            && r.pending == Rest(LF, s.pending + Bytes(s, n))
    ensures 1 <= lines <= |Complete(LF, s.pending + Bytes(s, n))| ==>
              && Enabled(s, GotTakeFails(n, lines))
              && var r := Apply(s, GotTakeFails(n, lines));
                 && r.point == Ended(false) && Received(s, r, n)
                 && r.taken == s.taken + Complete(LF, s.pending + Bytes(s, n))[..lines]
  {
    hide Complete, Rest;
  }

  /** How much one read gives, when `written` is what was ever written by then. */
  function SizeRead(turn: Turn, limit: int, read: int, written: seq<byte>): int {
    var n := if turn.size < 1 then 1 else turn.size;
    var m := if n > limit then limit else n;
    if m > |written| - read then |written| - read else m
  }

  /** Nothing goes wrong in the turn, though its read may be interrupted or its poll come too early. */
  predicate Sound(turn: Turn) { !turn.fails && turn.failingLine == 0 }

  predicate AllSound(script: seq<Turn>) { forall i | 0 <= i < |script| :: Sound(script[i]) }

  /** Its poll and its read come through. */
  predicate Productive(turn: Turn) { turn.readable && !turn.interrupted }

  function CountProductive(script: seq<Turn>): nat {
    if script == [] then 0 else CountProductive(script[1..]) + if Productive(script[0]) then 1 else 0
  }

  /** How many productive turns can be left to the end of a closed pipe. */
  function Left(s: State): int {
    Unread(s) + match s.capture
                case Live => 3
                case Owed(_) => 2
                case Trailing => 1
  }

  lemma OthersStep(s: State, a: Action)
    requires Enabled(s, a) && !IsReaders(a)
    ensures var r := Apply(s, a);
            && r.point == s.point && r.capture == s.capture && r.pending == s.pending && r.taken == s.taken
            && r.read == s.read && s.written <= r.written && (s.exited ==> r.exited)
            && (s.closed ==> r.closed && r.written == s.written)
  {}

  lemma Remaining(s: State)
    requires s.capture.Live?
    ensures Left(s) == Unread(s) + 3
  {}

  predicate GoesOn(was: Capture, now: Capture) {
    was == now || now.Trailing? || (now.Owed? && !was.Trailing?)
  }

  /** On a closed pipe less is left after a read, and after a step of the capture. */
  lemma LeftFalls(s: State, r: State)
    ensures GoesOn(s.capture, r.capture) && r.written == s.written && r.read >= s.read ==>
              Left(r) + (if r.read > s.read || (s.capture.Live? && !r.capture.Live?) || (s.capture.Owed? && r.capture.Trailing?)
                         then 1 else 0) <= Left(s)
  {}

  lemma SomethingLeft(acts: seq<Action>)
    requires Runs(START, acts)
    ensures Left(Final(START, acts)) >= 1
  {
    CountsAreSound(acts);
  }

  lemma LeftStays(s: State, r: State)
    requires r.capture == s.capture && Unread(r) == Unread(s)
    ensures Left(r) == Left(s)
  {}

  lemma CheckIs(s: State)
    requires s.point.Top? && s.capture.Live?
    ensures Enabled(s, CheckExit)
    ensures Apply(s, CheckExit) == s.(point := if s.exited then Counting else Polling)
  {}

  lemma CountIs(s: State, known: bool)
    requires s.point.Counting?
    ensures Enabled(s, Count(known)) && Enabled(s, CountFails)
    ensures Apply(s, Count(known)) == s.(point := Top, capture := if known then Owed(Unread(s)) else Trailing)
    ensures Apply(s, CountFails) == End(s, false)
  {}

  lemma PollIs(s: State, readable: bool)
    requires s.point.Polling? && (readable ==> Unread(s) > 0 || s.closed)
    ensures Enabled(s, Poll(readable)) && Enabled(s, Fails)
    ensures Apply(s, Poll(readable)) == s.(point := if readable then Reading(CHUNK) else Top)
    ensures Apply(s, Fails) == End(s, false)
  {}

  lemma ReadingStops(s: State)
    requires s.point.Reading?
    ensures Enabled(s, Interrupted) && Apply(s, Interrupted) == s.(point := Top)
    ensures Enabled(s, Fails) && Apply(s, Fails) == End(s, false)
    ensures s.closed && Unread(s) == 0 ==>
              && Enabled(s, EndOfPipe)
              && Apply(s, EndOfPipe) == End(s.(taken := s.taken + LastLine(s.pending), pending := []), true)
              && (s.pending != [] ==>
                    && Enabled(s, EndTakeFails)
                    && Apply(s, EndTakeFails) == End(s.(taken := s.taken + LastLine(s.pending)), false))
  {}

  class Drain {
    var state: State
    var script: seq<Turn>
    ghost var acts: seq<Action>

    ghost predicate Valid()
      reads this
    {
      Runs(START, acts) && state == Final(START, acts)
    }

    constructor (script: seq<Turn>)
      ensures Valid() && state == START && acts == []
    {
      state, acts, this.script := START, [], script;
    }

    method Do(a: Action)
      requires Valid() && Enabled(state, a)
      modifies this`state, this`acts
      ensures Valid() && acts == old(acts) + [a] && state == Apply(old(state), a)
    {
      hide Apply, Enabled;
      state, acts := Apply(state, a), acts + [a];
      assert acts[..|acts| - 1] == old(acts);
    }

    /** What only the reader changes. */
    twostate predicate ReaderUntouched()
      reads this
    {
      && state.point == old(state).point && state.capture == old(state).capture
      && state.pending == old(state).pending && state.taken == old(state).taken && state.read == old(state).read
      && old(state).written <= state.written && (old(state).exited ==> state.exited)
      && (old(state).closed ==> state.closed && state.written == old(state).written)
    }

    method Interfere(others: seq<Action>)
      requires Valid()
      modifies this`state, this`acts
      ensures Valid() && old(acts) <= acts && ReaderUntouched()
    {
      hide Apply, Enabled, Runs, Final;
      for i := 0 to |others|
        invariant Valid() && old(acts) <= acts && ReaderUntouched()
      {
        if !IsReaders(others[i]) && Enabled(state, others[i]) {
          OthersStep(state, others[i]);
          Do(others[i]);
        }
      }
    }

    /** The pipe may make a read wait for bytes or the end: `false` when the script ends first. */
    method AwaitBytes() returns (arrived: bool)
      requires Valid()
      modifies this
      ensures Valid() && old(acts) <= acts && ReaderUntouched() && |script| <= |old(script)|
      ensures if arrived then Unread(state) > 0 || state.closed
              else script == [] && Unread(state) <= 0 && !state.closed
      ensures old(state).closed ==> script == old(script)
    {
      while Unread(state) <= 0 && !state.closed
        invariant old(state).closed ==> script == old(script)
        invariant Valid() && old(acts) <= acts && ReaderUntouched() && |script| <= |old(script)|
        decreases |script|
      {
        if script == [] {
          return false;
        }
        var turn := script[0];
        script := script[1..];
        Interfere(turn.others);
      }
      arrived := true;
    }

    /** One read of at most the issued limit, and the lines it completes. */
    method ReadOnce(turn: Turn, pending: seq<byte>) returns (lines: seq<Line>, pending': seq<byte>)
      requires Valid() && state.point.Reading? && pending == state.pending
      modifies this
      ensures Valid() && old(acts) <= acts && |script| <= |old(script)|
      ensures state.taken == old(state).taken + lines
      ensures old(state).read <= state.read <= old(state).read + old(state).point.limit
      ensures state.point.Top? ==> pending' == state.pending
      ensures state.point.Top? || state.point.Ended? || (state.point.Reading? && script == [])
      ensures turn.interrupted ==> state == old(state).(point := Top) && lines == []
      ensures !turn.interrupted && turn.fails ==> state.point == Ended(false) && lines == []
      ensures !turn.interrupted && !turn.fails ==>
                && (state.point.Top? ==>
                      && state.read > old(state).read
                      && state.read - old(state).read == SizeRead(turn, old(state).point.limit, old(state).read, state.written))
                && (state.point == Ended(true) ==> state.closed && Unread(state) == 0)
                && (state.point == Ended(false) ==> turn.failingLine > 0)
                && (state.point.Reading? ==> Unread(state) <= 0 && !state.closed)
      ensures old(state).closed ==> script == old(script)
      ensures old(state).written <= state.written && (old(state).closed ==> state.closed && state.written == old(state).written)
      ensures state.point.Top? && state.capture != old(state).capture ==>
                old(state).capture.Owed? && state.capture == Owed(old(state).capture.bytes - (state.read - old(state).read))
    {
      hide Complete, Rest, Invariant, Runs, Apply, Enabled;
      ReadingStops(state);
      CountsAreSound(acts);
      lines, pending' := [], pending;
      if turn.interrupted {
        Do(Interrupted);
        return;
      }
      if turn.fails {
        Do(Fails);
        return;
      }
      var arrived := AwaitBytes();
      if !arrived {
        return;
      }
      if Unread(state) <= 0 {
        CountsAreSound(acts);
        ReadingStops(state);
        lines := LastLine(pending);
        Do(if turn.failingLine == 1 && pending != [] then EndTakeFails else EndOfPipe);
        return;
      }
      CountsAreSound(acts);
      lines, pending' := Receive(turn, pending);
    }

    /** The bytes a read gives, at least one and at most the limit, and the lines they complete. */
    method Receive(turn: Turn, pending: seq<byte>) returns (lines: seq<Line>, pending': seq<byte>)
      requires Valid() && state.point.Reading? && pending == state.pending
      requires Unread(state) > 0 && state.point.limit >= 1
      modifies this`state, this`acts
      ensures Valid() && old(acts) <= acts
      ensures state.taken == old(state).taken + lines
      ensures state.read == old(state).read + SizeRead(turn, old(state).point.limit, old(state).read, old(state).written)
      ensures old(state).read < state.read <= old(state).read + old(state).point.limit
      ensures state.point.Top? ==> pending' == state.pending
      ensures state.point.Top? || (state.point == Ended(false) && turn.failingLine > 0)
      ensures state.written == old(state).written && state.closed == old(state).closed
      ensures state.capture == (if old(state).capture.Owed? then Owed(old(state).capture.bytes - (state.read - old(state).read))
                                else old(state).capture)
    {
      hide Complete, Rest, Runs, Apply, Enabled;
      var limit := state.point.limit;
      var n := if turn.size < 1 then 1 else turn.size;
      n := if n > limit then limit else n;
      n := if n > Unread(state) then Unread(state) else n;
      var chunk := Bytes(state, n);
      hide Bytes;
      var ok;
      lines, pending', ok := TakeComplete(pending + chunk, turn.failingLine);
      GotIs(state, n, turn.failingLine);
      if ok {
        Do(Got(n));
      } else {
        Do(GotTakeFails(n, turn.failingLine));
      }
    }

    /** The reader, from before its first turn: line by line to the pipe's end. Once the exit is seen it counts what the pipe
        holds, reads exactly that, and only then raises the captured flag. The lines it took are
        those of the interleaving it was part of, so the promises about those hold of them. Once no
        writer is left it comes to the end, with every line, in a productive turn for each byte and three
        more, however many turns are not productive, unless something goes wrong in one. */
    method ReadAgentOutput() returns (lines: seq<Line>)
      requires Valid() && state.point.Top? && state.capture.Live? && state.taken == [] && state.pending == []
      modifies this
      ensures Valid() && lines == state.taken
      ensures state.point.Ended? || script == []
      ensures ExitCaptured(state)
      ensures state.point == Ended(true) ==>
                && From(state) <= |state.written| && (state.settled ==> state.exitAt <= From(state))
                && lines == Split(LF, state.written[..From(state)]) + Split(LF, state.written[From(state)..])
      ensures old(state).closed ==> state.written == old(state).written
      ensures old(state).closed && AllSound(old(script)) && CountProductive(old(script)) >= Unread(old(state)) + 3 ==>
                state.point == Ended(true)
    {
      hide Left;
      Remaining(state);
      var pending: seq<byte> := [];
      var capture := Live;
      lines := [];
      while script != [] && !state.point.Ended?
        invariant Valid() && lines == state.taken
        invariant state.point.Top? || state.point.Ended? || script == []
        invariant state.point.Top? ==> capture == state.capture && pending == state.pending
        invariant old(state).closed ==> state.closed && state.written == old(state).written
        invariant old(state).closed && AllSound(old(script)) ==>
                    && AllSound(script)
                    && (|| state.point == Ended(true)
                        || (state.point.Top?
                            && Left(state) + CountProductive(old(script)) <= Left(old(state)) + CountProductive(script)))
        decreases |script|
      {
        var turn := script[0];
        script := script[1..];
        ghost var before := state;
        Interfere(turn.others);
        if before.closed {
          LeftStays(before, state);
        }
        var more, capture', pending' := Step(turn, capture, pending);
        lines, capture, pending := lines + more, capture', pending';
      }
      SomethingLeft(acts);
      DrainSafety(acts);
      if state.point == Ended(true) {
        Framing(acts);
      }
    }

    /** Look for the exit; count what is owed if it came, poll the pipe if not. */
    method WatchForExit(turn: Turn) returns (capture': Capture)
      requires Valid() && state.point.Top? && state.capture.Live?
      modifies this`state, this`acts
      ensures Valid() && old(acts) <= acts
      ensures state.taken == old(state).taken && state.pending == old(state).pending
      ensures capture' == state.capture
      ensures !capture'.Live? ==> state.exited && state.point.Top? && capture' in {Owed(Unread(state)), Trailing}
      ensures old(state).exited && !state.point.Ended? ==> !capture'.Live?
      ensures if turn.fails then state.point == Ended(false)
              else if !capture'.Live? then capture' == if turn.known then Owed(Unread(state)) else Trailing
              else state.point == if turn.readable && (Unread(state) > 0 || state.closed) then Reading(CHUNK) else Top
      ensures state.read == old(state).read
      ensures old(state).written <= state.written && (old(state).closed ==> state.closed && state.written == old(state).written)
    {
      hide Apply, Enabled, Runs;
      capture' := Live;
      CheckIs(state);
      Do(CheckExit);
      Interfere(turn.others');
      if state.point.Counting? {
        CountIs(state, turn.known);
        if turn.fails {
          Do(CountFails);
        } else {
          capture' := if turn.known then Owed(Unread(state)) else Trailing;
          Do(Count(turn.known));
        }
      } else {
        var readable := turn.readable && (Unread(state) > 0 || state.closed);
        PollIs(state, readable);
        Do(if turn.fails then Fails else Poll(readable));
      }
    }

    /** Everything owed is read: take the unterminated tail as a line and release the spawner. */
    method SettleCapture(turn: Turn, pending: seq<byte>) returns (more: seq<Line>)
      requires Valid() && state.point.Top? && state.capture == Owed(0) && pending == state.pending
      modifies this`state, this`acts
      ensures Valid() && old(acts) <= acts
      ensures state.taken == old(state).taken + more
      ensures if turn.fails && pending != [] then state.point == Ended(false)
              else state.point.Top? && state.capture.Trailing? && state.pending == [] && state.captured
      ensures more == LastLine(pending)
      ensures state.read == old(state).read && state.written == old(state).written && state.closed == old(state).closed
    {
      more := LastLine(pending);
      if turn.fails && pending != [] {
        Do(SettleTakeFails);
      } else {
        Do(Settle);
      }
    }

    /** One turn of the loop. */
    method Step(turn: Turn, capture: Capture, pending: seq<byte>)
      returns (more: seq<Line>, capture': Capture, pending': seq<byte>)
      requires Valid() && state.point.Top? && capture == state.capture && pending == state.pending
      modifies this
      ensures Valid() && old(acts) <= acts && |script| <= |old(script)|
      ensures state.taken == old(state).taken + more
      ensures state.point.Top? ==> capture' == state.capture && pending' == state.pending
      ensures state.point.Top? || state.point.Ended? || script == []
      ensures old(state).closed ==> script == old(script) && state.closed && state.written == old(state).written
      ensures old(state).closed && Sound(turn) ==>
                || state.point == Ended(true)
                || (state.point.Top? && Left(state) + (if Productive(turn) then 1 else 0) <= Left(old(state)))
    {
      hide Complete, Rest, Apply, Invariant, Enabled, Runs, Left, SizeRead;
      ghost var before := state;
      CountsAreSound(acts);
      more, capture', pending' := [], capture, pending;
      if capture == Owed(0) {
        more := SettleCapture(turn, pending);
        capture', pending' := Trailing, [];
        LeftFalls(before, state);
        return;
      }
      if capture.Live? {
        capture' := WatchForExit(turn);
        if !state.point.Reading? {
          LeftFalls(before, state);
          return;
        }
      } else {
        IssueOwed();
      }
      Interfere(turn.others');
      more, pending' := ReadOnce(turn, pending);
      LeftFalls(before, state);
      capture' := state.capture;
    }

    method IssueOwed()
      requires Valid() && state.point.Top? && !state.capture.Live? && state.capture != Owed(0)
      modifies this`state, this`acts
      ensures Valid() && old(acts) <= acts
      ensures state.point.Reading? && state == old(state).(point := state.point)
    {
      Do(IssueRead);
    }
  }
}
