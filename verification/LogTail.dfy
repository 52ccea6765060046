/** Following logs that other processes write: every complete line once, never a fragment. */
module LogTail {
  import opened Basics
  import opened Lines

  type Bytes = seq<byte>

  const LF: byte := 10
  const CR: byte := 13
  const BACKFILL_BYTES: nat := 16 * 1024

  // ----- UTF-8 (RFC 3629, section 4) -----

  predicate IsTail(b: byte) { 0x80 <= b <= 0xBF }

  predicate IsUtf8(s: Bytes) {
    || s == []
    || (s[0] <= 0x7F && IsUtf8(s[1..]))
    || (|s| >= 2 && 0xC2 <= s[0] <= 0xDF && IsTail(s[1]) && IsUtf8(s[2..]))
    || (|s| >= 3 && IsThree(s[0], s[1]) && IsTail(s[2]) && IsUtf8(s[3..]))
    || (|s| >= 4 && IsFour(s[0], s[1]) && IsTail(s[2]) && IsTail(s[3]) && IsUtf8(s[4..]))
  }

  predicate IsThree(a: byte, b: byte) {
    || (a == 0xE0 && 0xA0 <= b <= 0xBF)
    || ((0xE1 <= a <= 0xEC || 0xEE <= a <= 0xEF) && IsTail(b))
    || (a == 0xED && 0x80 <= b <= 0x9F)
  }

  predicate IsFour(a: byte, b: byte) {
    || (a == 0xF0 && 0x90 <= b <= 0xBF)
    || (0xF1 <= a <= 0xF3 && IsTail(b))
    || (a == 0xF4 && 0x80 <= b <= 0x8F)
  }

  // ----- one log -----

  datatype TailedLog = TailedLog(task: string, slot: int, path: string, offset: nat, startsMidLine: bool)

  /** Lines up to the first one that is no text. */
  function TakeValid(ls: seq<Bytes>): seq<Bytes> {
    if ls == [] || !IsUtf8(ls[0]) then [] else [ls[0]] + TakeValid(ls[1..])
  }

  /** A line without the line feeds and carriage returns at its end. */
  function Trimmed(line: Bytes): (t: Bytes)
    ensures t <= line && forall i | |t| <= i < |line| :: line[i] == LF || line[i] == CR
    ensures t != [] ==> t[|t| - 1] != LF && t[|t| - 1] != CR
  {
    if line != [] && (line[|line| - 1] == LF || line[|line| - 1] == CR) then Trimmed(line[..|line| - 1]) else line
  }

  function TrimmedAll(ls: seq<Bytes>): seq<Bytes> {
    seq(|ls|, i requires 0 <= i < |ls| => Trimmed(ls[i]))
  }

  /** A log shorter than the offset was replaced, and is read from its start. */
  function Rotated(log: TailedLog, c: Bytes): (r: TailedLog)
    ensures r.offset <= |c|
  {
    if |c| < log.offset then log.(offset := 0, startsMidLine := false) else log
  }

  /** The fragment a backfill starts in, passed over once its end has been written. */
  function PastFragment(log: TailedLog, c: Bytes): (r: TailedLog)
    requires log.offset <= |c|
    ensures r.offset <= |c|
  {
    if !log.startsMidLine then log
    else
      var s := c[log.offset..];
      var k := LineEnd(LF, s);
      if LF !in s || !IsUtf8(s[..k]) then log
      else log.(offset := log.offset + k, startsMidLine := false)
  }

  /** One poll: the log as it is followed from there, and the lines it gave. */
  function Poll(log: TailedLog, c: Bytes): (TailedLog, seq<Bytes>) {
    var l := PastFragment(Rotated(log, c), c);
    if l.startsMidLine then (l, [])
    else
      var ls := TakeValid(Complete(LF, c[l.offset..]));
      (l.(offset := l.offset + |Join(ls)|), ls)
  }

  lemma NextLine(s: Bytes)
    ensures LF in s ==>
              var k := LineEnd(LF, s);
              && s[k - 1] == LF && Complete(LF, s) == [s[..k]] + Complete(LF, s[k..])
              && TakeValid(Complete(LF, s))
                 == if IsUtf8(s[..k]) then [s[..k]] + TakeValid(Complete(LF, s[k..])) else []
    ensures LF !in s ==> Complete(LF, s) == [] && TakeValid(Complete(LF, s)) == []
    ensures LF in s <==> s != [] && s[LineEnd(LF, s) - 1] == LF
  {
    hide IsUtf8;
    if LF in s {
      var k := LineEnd(LF, s);
      assert ([s[..k]] + Complete(LF, s[k..]))[1..] == Complete(LF, s[k..]);
    }
  }

  /** `read_new_lines`; no contents when the file does not open. */
  method ReadNewLines(log0: TailedLog, contents: Option<Bytes>) returns (log: TailedLog, events: seq<Bytes>)
    ensures contents.None? ==> log == log0 && events == []
    ensures contents.Some? ==> log == Poll(log0, contents.value).0
                               && events == TrimmedAll(Poll(log0, contents.value).1)
  {
    hide IsUtf8, Trimmed, Complete, LineEnd, Join, TakeValid;
    log, events := log0, [];
    if contents.None? {
      return;
    }
    var c := contents.value;
    if |c| < log.offset {
      log := log.(offset := 0, startsMidLine := false);
    }
    if log.startsMidLine {
      var s := c[log.offset..];
      var k := LineEnd(LF, s);
      NextLine(s);
      if IsUtf8(s[..k]) && s != [] && s[k - 1] == LF {
        log := log.(offset := log.offset + k, startsMidLine := false);
      } else {
        return;
      }
    }
    assert log == PastFragment(Rotated(log0, c), c);
    var offset;
    offset, events := ReadLines(c, log.offset);
    log := log.(offset := offset);
  }

  /** The lines from an offset on, and where they end. */
  method ReadLines(c: Bytes, from: nat) returns (offset: nat, events: seq<Bytes>)
    requires from <= |c|
    ensures offset == from + |Join(TakeValid(Complete(LF, c[from..])))|
    ensures events == TrimmedAll(TakeValid(Complete(LF, c[from..])))
  {
    hide IsUtf8, Trimmed, TrimmedAll, Complete, LineEnd, Join, TakeValid, ReadSoFar;
    offset, events := from, [];
    ghost var got: seq<Bytes> := [];
    NothingRead(c, from);
    var more := true;
    while more
      invariant ReadSoFar(c, from, offset, got, more) && events == TrimmedAll(got)
      decreases |c| - offset, more
    {
      var s := c[offset..];
      var k := LineEnd(LF, s);
      if s == [] || !IsUtf8(s[..k]) || s[k - 1] != LF {
        NoMoreToRead(c, from, offset, got);
        more := false;
      } else {
        LineRead(c, from, offset, got);
        TrimmedOne(got, s[..k]);
        events := events + [Trimmed(s[..k])];
        got := got + [s[..k]];
        offset := offset + k;
      }
    }
    AllRead(c, from, offset, got);
  }

  predicate ReadSoFar(c: Bytes, from: nat, offset: nat, got: seq<Bytes>, more: bool): (b: bool)
    ensures b ==> from <= offset <= |c|
  {
    && from <= offset <= |c| && offset == from + |Join(got)|
    && TakeValid(Complete(LF, c[from..])) == got + if more then TakeValid(Complete(LF, c[offset..])) else []
  }

  lemma NothingRead(c: Bytes, from: nat)
    requires from <= |c|
    ensures ReadSoFar(c, from, from, [], true) && TrimmedAll([]) == []
  {
    hide IsUtf8, Complete, TakeValid;
  }

  lemma TrimmedOne(got: seq<Bytes>, line: Bytes)
    ensures TrimmedAll(got + [line]) == TrimmedAll(got) + [Trimmed(line)]
  {
    hide Trimmed;
  }

  lemma LineRead(c: Bytes, from: nat, offset: nat, got: seq<Bytes>)
    requires ReadSoFar(c, from, offset, got, true)
    requires var s := c[offset..]; s != [] && IsUtf8(s[..LineEnd(LF, s)]) && s[LineEnd(LF, s) - 1] == LF
    ensures var k := LineEnd(LF, c[offset..]);
            1 <= k && offset + k <= |c| && ReadSoFar(c, from, offset + k, got + [c[offset..][..k]], true)
  {
    hide IsUtf8, Complete, LineEnd, Join, TakeValid;
    var s := c[offset..];
    var k := LineEnd(LF, s);
    NextLine(s);
    var line := s[..k];
    assert c[offset + k..] == s[k..];
    JoinOne(got, line);
    assert got + ([line] + TakeValid(Complete(LF, s[k..]))) == (got + [line]) + TakeValid(Complete(LF, s[k..]));
  }

  lemma NoMoreToRead(c: Bytes, from: nat, offset: nat, got: seq<Bytes>)
    requires ReadSoFar(c, from, offset, got, true)
    requires var s := c[offset..]; s == [] || !IsUtf8(s[..LineEnd(LF, s)]) || s[LineEnd(LF, s) - 1] != LF
    ensures ReadSoFar(c, from, offset, got, false)
  {
    hide IsUtf8, Complete, LineEnd, Join, TakeValid;
    NextLine(c[offset..]);
  }

  lemma AllRead(c: Bytes, from: nat, offset: nat, got: seq<Bytes>)
    requires ReadSoFar(c, from, offset, got, false)
    ensures offset == from + |Join(got)| && TakeValid(Complete(LF, c[from..])) == got
  {
    hide IsUtf8, Complete, Join, TakeValid;
  }

  lemma JoinNothing()
    ensures Join<byte>([]) == []
  {}

  lemma JoinOne(got: seq<Bytes>, line: Bytes)
    ensures Join(got + [line]) == Join(got) + line
    ensures Join([line] + got) == line + Join(got)
  {
    JoinAppends(got, [line]);
    assert Join([line]) == line;
    assert ([line] + got)[1..] == got;
  }

  // ----- a log that only grows -----

  /** Where following a log of this size starts. */
  function Followed(task: string, slot: int, path: string, size: nat): (log: TailedLog)
    ensures size <= 16384 ==> log.offset == 0 && !log.startsMidLine
    ensures size > 16384 ==> log.offset + 16384 == size && log.startsMidLine
    ensures log.task == task && log.slot == slot && log.path == path
  {
    var offset := if size >= BACKFILL_BYTES then size - BACKFILL_BYTES else 0;
    TailedLog(task, slot, path, offset, offset > 0)
  }

  /** The log and all the lines it gave, after some polls. */
  function Session(log: TailedLog, polls: seq<Option<Bytes>>): (TailedLog, seq<Bytes>) {
    if polls == [] then (log, [])
    else
      var before := Session(log, polls[..|polls| - 1]);
      var c := polls[|polls| - 1];
      if c.None? then before
      else
        var p := Poll(before.0, c.value);
        (p.0, before.1 + p.1)
  }

  /** The log's contents as last seen. */
  function Seen(start: Bytes, polls: seq<Option<Bytes>>): Bytes {
    if polls == [] then start
    else if polls[|polls| - 1].Some? then polls[|polls| - 1].value
    else Seen(start, polls[..|polls| - 1])
  }

  predicate Grows(start: Bytes, polls: seq<Option<Bytes>>) {
    polls == [] ||
    (var before := polls[..|polls| - 1];
     Grows(start, before) && Seen(start, before) <= Seen(start, polls))
  }

  lemma {:induction false} TakeValidIsPrefix(ls: seq<Bytes>)
    ensures TakeValid(ls) <= ls
    ensures forall i | 0 <= i < |TakeValid(ls)| :: IsUtf8(ls[i])
    ensures |TakeValid(ls)| < |ls| ==> !IsUtf8(ls[|TakeValid(ls)|])
  {
    hide IsUtf8;
    if ls != [] && IsUtf8(ls[0]) {
      TakeValidIsPrefix(ls[1..]);
    }
  }

  /** Reading goes on after `n` lines of text as if it had read them. */
  lemma {:induction false} ReadOn(s: Bytes, n: nat)
    requires n <= |TakeValid(Complete(LF, s))|
    ensures var taken := TakeValid(Complete(LF, s));
            && |Join(taken[..n])| <= |s|
            && taken == taken[..n] + TakeValid(Complete(LF, s[|Join(taken[..n])|..]))
  {
    hide IsUtf8, Complete, TakeValid, LineEnd, Join;
    NextLine(s);
    var taken := TakeValid(Complete(LF, s));
    if n == 0 {
      JoinNothing();
      assert s[0..] == s && taken[..0] == [];
    } else {
      var k := LineEnd(LF, s);
      var l, rest := s[..k], s[k..];
      ReadOn(rest, n - 1);
      var next := TakeValid(Complete(LF, rest));
      assert taken == [l] + next;
      var done := next[..n - 1];
      assert taken[..n] == [l] + done;
      JoinOne(done, l);
      assert s[k + |Join(done)|..] == rest[|Join(done)|..];
      assert [l] + (done + TakeValid(Complete(LF, rest[|Join(done)|..]))) == taken;
    }
  }

  lemma {:induction false} ValidOnwards(ls: seq<Bytes>, more: seq<Bytes>)
    ensures TakeValid(ls) <= TakeValid(ls + more)
  {
    hide IsUtf8;
    if ls != [] {
      assert (ls + more)[1..] == ls[1..] + more;
      ValidOnwards(ls[1..], more);
    }
  }

  /** More of a log has the same lines first. */
  lemma MoreLines(s: Bytes, t: Bytes)
    requires s <= t
    ensures Complete(LF, s) <= Complete(LF, t)
    ensures TakeValid(Complete(LF, s)) <= TakeValid(Complete(LF, t))
    ensures LF in s ==> LineEnd(LF, t) == LineEnd(LF, s)
  {
    hide IsUtf8;
    var b := t[|s|..];
    assert t == s + b;
    FeedInPieces(LF, s, b);
    ValidOnwards(Complete(LF, s), Complete(LF, Rest(LF, s) + b));
    if LF in s {
      SameLineEnd(s, b);
    }
  }

  lemma {:induction false} SameLineEnd(s: Bytes, b: Bytes)
    requires LF in s
    ensures LineEnd(LF, s + b) == LineEnd(LF, s)
  {
    if s[0] != LF {
      assert (s + b)[1..] == s[1..] + b;
      SameLineEnd(s[1..], b);
    }
  }

  /** Polling lines from where the last poll left off. */
  lemma Resumed(s: Bytes, t: Bytes)
    requires s <= t
    ensures var got := TakeValid(Complete(LF, s));
            |Join(got)| <= |s| && TakeValid(Complete(LF, t)) == got + TakeValid(Complete(LF, t[|Join(got)|..]))
  {
    var got := TakeValid(Complete(LF, s));
    MoreLines(s, t);
    ReadOn(t, |got|);
    ReadOn(s, |got|);
    assert got[..|got|] == got && TakeValid(Complete(LF, t))[..|got|] == got;
  }

  /** Two polls of a growing log are one: together they give what the second alone would have, and leave
      the log where it would have. */
  lemma PollsCompose(log: TailedLog, c: Bytes, d: Bytes)
    requires log.offset <= |c| && c <= d
    ensures var (l, ls) := Poll(log, c);
            && l.offset <= |c|
            && Poll(log, d) == (Poll(l, d).0, ls + Poll(l, d).1)
  {
    hide IsUtf8, Complete, LineEnd, Join, TakeValid;
    var s, t := c[log.offset..], d[log.offset..];
    MoreLines(s, t);
    var k := LineEnd(LF, s);
    if log.startsMidLine && (LF !in s || !IsUtf8(s[..k])) {
      assert Poll(log, c) == (log, []);
      assert [] + Poll(log, d).1 == Poll(log, d).1;
    } else if log.startsMidLine {
      assert s[..k] == t[..k];
      LinesCompose(PastFragment(log, c), c, d);
      assert PastFragment(log, c) == PastFragment(log, d);
    } else {
      LinesCompose(log, c, d);
    }
  }

  lemma LinesCompose(log: TailedLog, c: Bytes, d: Bytes)
    requires log.offset <= |c| && c <= d && !log.startsMidLine
    ensures var (l, ls) := Poll(log, c);
            && l.offset <= |c|
            && Poll(log, d) == (Poll(l, d).0, ls + Poll(l, d).1)
  {
    hide IsUtf8, Complete, LineEnd, TakeValid;
    var s, t := c[log.offset..], d[log.offset..];
    Resumed(s, t);
    var got := TakeValid(Complete(LF, s));
    var n := |Join(got)|;
    assert t[n..] == d[log.offset + n..];
    JoinAppends(got, TakeValid(Complete(LF, t[n..])));
  }

  /** Some poll could read the log. */
  predicate AnyRead(polls: seq<Option<Bytes>>) {
    exists i | 0 <= i < |polls| :: polls[i].Some?
  }

  lemma AnyReadNext(before: seq<Option<Bytes>>, c: Option<Bytes>)
    ensures AnyRead(before + [c]) <==> AnyRead(before) || c.Some?
  {
    assert forall i | 0 <= i < |before| :: (before + [c])[i] == before[i];
    assert (before + [c])[|before|] == c;
  }

  lemma SessionNext(log: TailedLog, start: Bytes, before: seq<Option<Bytes>>, c: Option<Bytes>)
    ensures Session(log, before + [c])
            == if c.None? then Session(log, before)
               else (Poll(Session(log, before).0, c.value).0, Session(log, before).1 + Poll(Session(log, before).0, c.value).1)
    ensures Seen(start, before + [c]) == if c.Some? then c.value else Seen(start, before)
    ensures Grows(start, before + [c]) <==> Grows(start, before) && Seen(start, before) <= Seen(start, before + [c])
  {
    hide Poll;
    assert (before + [c])[..|before|] == before;
  }

  lemma NoPolls(log: TailedLog, start: Bytes)
    ensures Session(log, []) == (log, []) && Seen(start, []) == start && !AnyRead([])
  {}

  /** Over every schedule of appends and polls, failed ones too, a log that only grows has given what one
      poll of it, as last seen, would give. */
  lemma {:induction false} ScheduleDoesNotMatter(log: TailedLog, start: Bytes, polls: seq<Option<Bytes>>)
    requires log.offset <= |start| && Grows(start, polls)
    ensures start <= Seen(start, polls)
    ensures if AnyRead(polls) then Session(log, polls) == Poll(log, Seen(start, polls))
            else Session(log, polls) == (log, [])
  {
    hide *;
    if polls == [] {
      NoPolls(log, start);
    } else {
      var before, c := polls[..|polls| - 1], polls[|polls| - 1];
      assert before + [c] == polls;
      SessionNext(log, start, before, c);
      AnyReadNext(before, c);
      ScheduleDoesNotMatter(log, start, before);
      if c.Some? && AnyRead(before) {
        PollsCompose(log, Seen(start, before), c.value);
      } else if c.Some? {
        assert [] + Poll(log, c.value).1 == Poll(log, c.value).1;
      }
    }
  }

  // ----- what is due -----

  /** What following owes the reader of contents `c`: the complete lines from byte 0, or those past the
      first line end at or after the backfill offset. */
  function Due(log: TailedLog, c: Bytes): seq<Bytes>
    requires log.offset <= |c|
  {
    var s := c[log.offset..];
    if !log.startsMidLine then Complete(LF, s)
    else if LF !in s then []
    else Complete(LF, s[LineEnd(LF, s)..])
  }

  /** The fragment a backfill passes over, up to its line end, is text. */
  predicate FragmentIsText(log: TailedLog, c: Bytes)
    requires log.offset <= |c|
  {
    var s := c[log.offset..];
    log.startsMidLine && LF in s ==> IsUtf8(s[..LineEnd(LF, s)])
  }

  /** What one poll gives is due, from the first line on and in order; each given line is one complete line
      of the file; and everything due is given exactly if nothing is due, or the fragment passed over and
      every line due is text. From the first of them that is not, nothing is given. */
  lemma PollGives(log: TailedLog, c: Bytes)
    requires log.offset <= |c|
    ensures var given, due := Poll(log, c).1, Due(log, c);
            && given <= due
            && (forall i | 0 <= i < |given| :: IsLine(LF, given[i]) && IsUtf8(given[i]))
            && (given == due <==> due == [] || (FragmentIsText(log, c) && forall i | 0 <= i < |due| :: IsUtf8(due[i])))
            && (|given| < |due| ==> !FragmentIsText(log, c) || !IsUtf8(due[|given|]))
  {
    hide IsUtf8, Complete, LineEnd, Join, TakeValid;
    var due := Due(log, c);
    NoneTaken();
    TakeValidIsPrefix(due);
    var s := c[log.offset..];
    CompleteAreLines(s);
    if log.startsMidLine && LF in s {
      var k := LineEnd(LF, s);
      CompleteAreLines(s[k..]);
      assert s[k..] == c[log.offset + k..];
    }
    assert Poll(log, c).1 == [] || Poll(log, c).1 == TakeValid(due);
  }

  lemma NoneTaken()
    ensures TakeValid([]) == []
  {}

  lemma CompleteAreLines(s: Bytes)
    ensures forall i | 0 <= i < |Complete(LF, s)| :: IsLine(LF, Complete(LF, s)[i])
  {
    CompleteEndInLf(s);
    CompleteAndRest(LF, s);
  }

  lemma {:induction false} CompleteEndInLf(s: Bytes)
    ensures forall i | 0 <= i < |Complete(LF, s)| :: Complete(LF, s)[i] != [] && LF in Complete(LF, s)[i]
    decreases |s|
  {
    if LF in s {
      var k := LineEnd(LF, s);
      CompleteEndInLf(s[k..]);
      assert s[..k][k - 1] == LF;
    }
  }

  /** Exactly once: after any schedule with a successful poll, the lines given are those due in the contents
      last seen, exactly if the passed-over fragment and every line due are text (or none is due). */
  lemma EachLineOnce(log: TailedLog, start: Bytes, polls: seq<Option<Bytes>>)
    requires log.offset <= |start| && Grows(start, polls)
    requires AnyRead(polls)
    ensures start <= Seen(start, polls)
    ensures var c, given := Seen(start, polls), Session(log, polls).1;
            && given <= Due(log, c)
            && (given == Due(log, c) <==>
                  Due(log, c) == [] || (FragmentIsText(log, c) && forall i | 0 <= i < |Due(log, c)| :: IsUtf8(Due(log, c)[i])))
  {
    ScheduleDoesNotMatter(log, start, polls);
    PollGives(log, Seen(start, polls));
    hide *;
  }

  // ----- a log that is replaced -----

  /** A log found shorter than what was read of it is read anew from byte 0: the lines given are the first of
      its complete lines, all of them exactly if every one is text, and reading goes on just past them. */
  lemma ReplacedGives(log: TailedLog, c: Bytes)
    requires |c| < log.offset
    ensures var (l, given) := Poll(log, c);
            && given <= Complete(LF, c)
            && (given == Complete(LF, c) <==> forall i | 0 <= i < |Complete(LF, c)| :: IsUtf8(Complete(LF, c)[i]))
            && l == log.(offset := |Join(given)|, startsMidLine := false)
  {
    hide IsUtf8, Complete, TakeValid, Join;
    var anew := log.(offset := 0, startsMidLine := false);
    assert c[0..] == c;
    assert Poll(log, c) == Poll(anew, c);
    PollGives(anew, c);
  }

  lemma {:induction false} SessionInParts(log: TailedLog, a: seq<Option<Bytes>>, b: seq<Option<Bytes>>)
    ensures Session(log, a + b) == (Session(Session(log, a).0, b).0, Session(log, a).1 + Session(Session(log, a).0, b).1)
  {
    hide *;
    if b == [] {
      assert a + b == a;
      NoPolls(Session(log, a).0, []);
      assert Session(log, a).1 + [] == Session(log, a).1;
    } else {
      var before, c := b[..|b| - 1], b[|b| - 1];
      assert before + [c] == b && (a + before) + [c] == a + b;
      SessionInParts(log, a, before);
      SessionNext(log, [], a + before, c);
      SessionNext(Session(log, a).0, [], before, c);
      if c.Some? {
        var middle := Session(Session(log, a).0, before);
        var more := Poll(middle.0, c.value).1;
        assert (Session(log, a).1 + middle.1) + more == Session(log, a).1 + (middle.1 + more);
      }
    }
  }

  lemma {:induction false} GrowsFromFirst(c: Bytes, polls: seq<Option<Bytes>>)
    requires Grows(c, polls)
    ensures Grows(c, [Some(c)] + polls) && Seen(c, [Some(c)] + polls) == Seen(c, polls)
  {
    if polls == [] {
      assert [Some(c)] + polls == [Some(c)];
    } else {
      var before := polls[..|polls| - 1];
      GrowsFromFirst(c, before);
      assert ([Some(c)] + polls)[..|polls|] == [Some(c)] + before;
    }
  }

  /** A log that grew, was replaced and grows again: to what was given before come the first of the complete
      lines of the new file as last seen, all of them exactly if every one is text. */
  lemma ReplacedOnce(log: TailedLog, before: seq<Option<Bytes>>, c: Bytes, after: seq<Option<Bytes>>)
    requires |c| < Session(log, before).0.offset && Grows(c, after)
    ensures var given, lines := Session(log, before + [Some(c)] + after).1, Complete(LF, Seen(c, after));
            && Session(log, before).1 <= given && given[|Session(log, before).1|..] <= lines
            && (given[|Session(log, before).1|..] == lines <==> forall i | 0 <= i < |lines| :: IsUtf8(lines[i]))
  {
    hide IsUtf8, Complete, TakeValid, Join;
    var l, polls := Session(log, before).0, [Some(c)] + after;
    var anew := l.(offset := 0, startsMidLine := false);
    assert before + [Some(c)] + after == before + polls;
    SessionInParts(log, before, polls);
    assert Poll(l, c) == Poll(anew, c);
    hide Session, Poll, Seen, Grows, AnyRead;
    FirstPoll(l, anew, c, after);
    GrowsFromFirst(c, after);
    ScheduleDoesNotMatter(anew, c, polls);
    assert AnyRead(polls) by { FirstIsRead(c, after); }
    PollGives(anew, Seen(c, after));
    assert Seen(c, after)[0..] == Seen(c, after);
    assert (Session(log, before).1 + Session(l, polls).1)[|Session(log, before).1|..] == Session(l, polls).1;
  }

  lemma FirstIsRead(c: Bytes, after: seq<Option<Bytes>>)
    ensures AnyRead([Some(c)] + after)
  {
    assert ([Some(c)] + after)[0].Some?;
  }

  /** Two logs that are one after the first poll have one session. */
  lemma FirstPoll(a: TailedLog, b: TailedLog, c: Bytes, after: seq<Option<Bytes>>)
    requires Poll(a, c) == Poll(b, c)
    ensures Session(a, [Some(c)] + after) == Session(b, [Some(c)] + after)
  {
    hide Poll;
    SessionInParts(a, [Some(c)], after);
    SessionInParts(b, [Some(c)], after);
    assert [Some(c)][..0] == [];
    assert Session(a, [Some(c)]) == Session(b, [Some(c)]);
  }

  // ----- where a log stops being followed -----

  lemma {:induction false} AsciiIsUtf8(s: Bytes)
    requires forall i | 0 <= i < |s| :: s[i] < 0x80
    ensures IsUtf8(s)
  {
    if s != [] {
      AsciiIsUtf8(s[1..]);
    }
  }

  lemma TailIsNoText(s: Bytes)
    requires s != [] && IsTail(s[0])
    ensures !IsUtf8(s)
  {}

  /** A backfill that starts inside a character passes over no text, and stays there however much is
      written after it. */
  lemma MidCharacterStays(log: TailedLog, c: Bytes)
    requires log.startsMidLine && log.offset < |c| && IsTail(c[log.offset])
    ensures Poll(log, c) == (log, [])
  {
    hide Complete, TakeValid, Join, LineEnd;
    var s := c[log.offset..];
    NextLine(s);
    if LF in s {
      var fragment := s[..LineEnd(LF, s)];
      assert fragment[0] == c[log.offset];
      TailIsNoText(fragment);
    }
    hide IsUtf8;
  }

  /** Such logs are text throughout: an accented letter, and then enough for the backfill to start between
      its two bytes. */
  lemma TextCanBeLost(more: Bytes)
    ensures var c := [0xC3, 0xA9] + Repeat(97 as byte, BACKFILL_BYTES - 2) + [LF];
            && IsUtf8(c)
            && Followed("1", 0, "log", |c|).startsMidLine
            && Poll(Followed("1", 0, "log", |c|), c + more) == (Followed("1", 0, "log", |c|), [])
  {
    var rest := Repeat(97 as byte, BACKFILL_BYTES - 2) + [LF];
    var c := [0xC3, 0xA9] + Repeat(97 as byte, BACKFILL_BYTES - 2) + [LF];
    AsciiIsUtf8(rest);
    assert c[2..] == rest;
    var log := Followed("1", 0, "log", |c|);
    assert log.offset == 1 && (c + more)[1] == 0xA9;
    hide Poll, IsUtf8;
    MidCharacterStays(log, c + more);
  }

  // ----- the tailer -----

  /** What each followed log gives: which it was, and its trimmed line. */
  datatype Output = Output(task: string, slot: int, line: Bytes)

  type Files = map<string, Bytes>

  function ContentsOf(files: Files, path: string): Option<Bytes> {
    if path in files then Some(files[path]) else None
  }

  function Outputs(log: TailedLog, lines: seq<Bytes>): seq<Output> {
    seq(|lines|, i requires 0 <= i < |lines| => Output(log.task, log.slot, Trimmed(lines[i])))
  }

  /** One log after a poll, and what it gave. */
  function Polled(log: TailedLog, files: Files): (TailedLog, seq<Output>) {
    if log.path !in files then (log, [])
    else
      var p := Poll(log, files[log.path]);
      (p.0, Outputs(log, p.1))
  }

  function PolledAll(logs: seq<TailedLog>, files: Files): (seq<TailedLog>, seq<Output>) {
    if logs == [] then ([], [])
    else
      var before := PolledAll(logs[..|logs| - 1], files);
      var p := Polled(logs[|logs| - 1], files);
      (before.0 + [p.0], before.1 + p.1)
  }

  /** Where a task and slot is followed. */
  function IndexOf(logs: seq<TailedLog>, task: string, slot: int): (k: nat)
    ensures k <= |logs|
    ensures k < |logs| ==> logs[k].task == task && logs[k].slot == slot
    ensures forall i | 0 <= i < k :: logs[i].task != task || logs[i].slot != slot
  {
    if logs == [] || (logs[0].task == task && logs[0].slot == slot) then 0 else 1 + IndexOf(logs[1..], task, slot)
  }

  /** The logs of other tasks or slots. */
  function Others(logs: seq<TailedLog>, task: string, slot: int): seq<TailedLog> {
    if logs == [] then []
    else
      var l := logs[|logs| - 1];
      Others(logs[..|logs| - 1], task, slot) + if l.task == task && l.slot == slot then [] else [l]
  }

  class Tailer {
    var open: seq<TailedLog>

    constructor ()
      ensures open == []
    {
      open := [];
    }

    /** No task and slot is followed twice. */
    predicate Valid()
      reads this
    {
      forall i, j | 0 <= i < j < |open| :: open[i].task != open[j].task || open[i].slot != open[j].slot
    }

    /** `path` is resolved already, and `size` is the file's, or 0 when it has none yet. */
    method Follow(task: string, slot: int, path: string, size: nat)
      requires Valid()
      modifies this
      ensures Valid()
      ensures var was, k := old(open), IndexOf(old(open), task, slot);
              open == (if k == |was| then was else was[..k] + was[k + 1..]) + [Followed(task, slot, path, size)]
    {
      hide Others, IndexOf, Followed, IsOnly;
      IndexIsOnly(open, task, slot);
      OthersAre(open, task, slot, IndexOf(open, task, slot));
      StaysDistinct(open, task, slot, IndexOf(open, task, slot));
      open := Others(open, task, slot) + [Followed(task, slot, path, size)];
    }

    /** Stops following, after a last read. */
    method Release(task: string, slot: int, files: Files) returns (events: seq<Output>)
      requires Valid()
      modifies this
      ensures Valid()
      ensures var k := IndexOf(old(open), task, slot);
              if k == |old(open)| then open == old(open) && events == []
              else open == old(open)[..k] + old(open)[k + 1..] && events == Polled(old(open)[k], files).1
      ensures forall l | l in open :: l.task != task || l.slot != slot
    {
      hide Polled;
      var k := IndexOf(open, task, slot);
      if k == |open| {
        return [];
      }
      var closing;
      closing, events := ReadOutputs(open[k], files);
      open := open[..k] + open[k + 1..];
    }

    /** Every followed log is read once, in order. */
    method PollAll(files: Files) returns (events: seq<Output>)
      requires Valid()
      modifies this
      ensures (open, events) == PolledAll(old(open), files)
      ensures Valid()
    {
      hide PolledAll;
      events := [];
      var i := 0;
      ghost var before := open;
      NothingPolled(before, files);
      while i < |open|
        invariant 0 <= i <= |open| == |before|
        invariant PolledTo(before, files, i, open, events)
      {
        var log, more := ReadOutputs(open[i], files);
        PolledNext(before, files, i, open, events, log, more);
        open := open[i := log];
        events := events + more;
        i := i + 1;
      }
      StillDistinct(before, files);
      assert before[..|before|] == before && open[..|open|] == open;
    }
  }

  /** The first `i` logs have been read. */
  predicate PolledTo(before: seq<TailedLog>, files: Files, i: nat, now: seq<TailedLog>, events: seq<Output>) {
    i <= |before| == |now| && now[i..] == before[i..] && (now[..i], events) == PolledAll(before[..i], files)
  }

  lemma NothingPolled(before: seq<TailedLog>, files: Files)
    ensures PolledTo(before, files, 0, before, [])
  {
    assert before[..0] == [];
  }

  lemma PolledNext(before: seq<TailedLog>, files: Files, i: nat, now: seq<TailedLog>, events: seq<Output>,
                   log: TailedLog, more: seq<Output>)
    requires i < |before| && PolledTo(before, files, i, now, events) && (log, more) == Polled(now[i], files)
    ensures PolledTo(before, files, i + 1, now[i := log], events + more)
  {
    hide Polled;
    assert now[i] == now[i..][0] == before[i];
    assert before[..i + 1][..i] == before[..i];
    var after := now[i := log];
    assert after[..i + 1] == now[..i] + [log];
    assert after[i + 1..] == now[i..][1..] && before[i + 1..] == before[i..][1..];
  }

  method ReadOutputs(log0: TailedLog, files: Files) returns (log: TailedLog, events: seq<Output>)
    ensures (log, events) == Polled(log0, files)
  {
    var lines;
    hide Poll, Trimmed;
    log, lines := ReadNewLines(log0, ContentsOf(files, log0.path));
    events := seq(|lines|, i requires 0 <= i < |lines| => Output(log0.task, log0.slot, lines[i]));
    if log0.path in files {
      assert events == Outputs(log0, Poll(log0, files[log0.path]).1);
    } else {
      assert events == [];
    }
  }

  predicate Distinct(logs: seq<TailedLog>) {
    forall i, j | 0 <= i < j < |logs| :: logs[i].task != logs[j].task || logs[i].slot != logs[j].slot
  }

  lemma {:induction false} OthersAre(logs: seq<TailedLog>, task: string, slot: int, k: nat)
    requires IsOnly(logs, task, slot, k)
    ensures Others(logs, task, slot) == Without(logs, k)
  {
    if logs != [] {
      hide Without, IsOnly;
      var before, last := logs[..|logs| - 1], logs[|logs| - 1];
      OnlyBefore(logs, task, slot, k);
      OthersAre(before, task, slot, k);
      assert before + [last] == logs;
      WithoutLast(before, last, k);
    }
  }

  lemma OnlyBefore(logs: seq<TailedLog>, task: string, slot: int, k: nat)
    requires logs != [] && IsOnly(logs, task, slot, k)
    ensures IsOnly(logs[..|logs| - 1], task, slot, k)
    ensures var last := logs[|logs| - 1]; last.task == task && last.slot == slot <==> k == |logs| - 1
  {}

  /** Log `k`, if there is one, is the one of a task and slot. */
  predicate IsOnly(logs: seq<TailedLog>, task: string, slot: int, k: nat) {
    forall i | 0 <= i < |logs| :: logs[i].task == task && logs[i].slot == slot <==> i == k
  }

  /** All but log `k`, in order. */
  function Without(logs: seq<TailedLog>, k: nat): seq<TailedLog> {
    if k < |logs| then logs[..k] + logs[k + 1..] else logs
  }

  lemma WithoutLast(before: seq<TailedLog>, last: TailedLog, k: nat)
    ensures Without(before + [last], k) == if k == |before| then before else Without(before, k) + [last]
    ensures Without(before, |before|) == before
  {}

  lemma StaysDistinct(logs: seq<TailedLog>, task: string, slot: int, k: nat)
    requires Distinct(logs) && IsOnly(logs, task, slot, k)
    ensures Distinct(Without(logs, k))
    ensures forall l | l in Without(logs, k) :: l.task != task || l.slot != slot
  {}

  lemma IndexIsOnly(logs: seq<TailedLog>, task: string, slot: int)
    requires Distinct(logs)
    ensures IsOnly(logs, task, slot, IndexOf(logs, task, slot))
  {
    hide IndexOf;
  }

  lemma {:induction false} StillDistinct(logs: seq<TailedLog>, files: Files)
    ensures |PolledAll(logs, files).0| == |logs|
    ensures forall i | 0 <= i < |logs| ::
              PolledAll(logs, files).0[i].task == logs[i].task && PolledAll(logs, files).0[i].slot == logs[i].slot
  {
    if logs != [] {
      StillDistinct(logs[..|logs| - 1], files);
    }
  }
}
