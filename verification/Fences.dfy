/** Fenced code blocks, and the header and frontmatter of a document read around them. Lines are given
  without their line ends. */
module Fences {
  import opened Basics
  import opened Text

  // ----- fence lines -----

  function TrimStart(s: string): (t: string)
    ensures t == "" || !IsSpace(t[0])
    ensures |t| <= |s| && t == s[|s| - |t|..]
    ensures forall i | 0 <= i < |s| - |t| :: IsSpace(s[i])
  {
    if s != "" && IsSpace(s[0]) then TrimStart(s[1..]) else s
  }

  function TrimEnd(s: string): (t: string)
    ensures t == "" || !IsSpace(t[|t| - 1])
    ensures t <= s && forall i | |t| <= i < |s| :: IsSpace(s[i])
  {
    if s != "" && IsSpace(s[|s| - 1]) then TrimEnd(s[..|s| - 1]) else s
  }

  function Trim(s: string): string { TrimEnd(TrimStart(s)) }

  /** How many of a character a text starts with. */
  function RunOf(s: string, c: char): (k: nat)
    ensures k <= |s| && (forall i | 0 <= i < k :: s[i] == c) && (k < |s| ==> s[k] != c)
  {
    if s != "" && s[0] == c then 1 + RunOf(s[1..], c) else 0
  }

  /** A fence line: its character, its run, and whether nothing follows the run. */
  datatype Fence = Fence(marker: char, run: nat, bare: bool)

  /** `code_fence_run`. */
  function FenceOf(line: string): Option<Fence> {
    var trimmed := TrimStart(line);
    if trimmed == "" || (trimmed[0] != '`' && trimmed[0] != '~') then None
    else
      var run := RunOf(trimmed, trimmed[0]);
      if run < 3 then None else Some(Fence(trimmed[0], run, Trim(trimmed[run..]) == ""))
  }

  predicate AllSpace(s: string) { forall i | 0 <= i < |s| :: IsSpace(s[i]) }

  /** White space, a run of at least three backticks or of three tildes, and what follows the run. */
  predicate IsFence(line: string, f: Fence, indent: string, rest: string) {
    && line == indent + Repeat(f.marker, f.run) + rest
    && AllSpace(indent) && (f.marker == '`' || f.marker == '~') && f.run >= 3
    && (rest == "" || rest[0] != f.marker)
    && (f.bare <==> AllSpace(rest))
  }

  lemma TrimsToNothing(s: string)
    ensures Trim(s) == "" <==> AllSpace(s)
  {
    var t := TrimStart(s);
    if t != "" {
      assert s[|s| - |t|] == t[0];
      assert !AllSpace(s);
      assert Trim(s) != "";
    } else {
      assert AllSpace(s);
    }
  }

  lemma {:induction false} TrimStartAt(indent: string, t: string)
    requires AllSpace(indent) && (t == "" || !IsSpace(t[0]))
    ensures TrimStart(indent + t) == t
  {
    if indent == "" {
      assert indent + t == t;
    } else {
      assert (indent + t)[1..] == indent[1..] + t;
      TrimStartAt(indent[1..], t);
    }
  }

  lemma {:induction false} RunAt(c: char, n: nat, rest: string)
    requires rest == "" || rest[0] != c
    ensures RunOf(Repeat(c, n) + rest, c) == n
  {
    if n == 0 {
      assert Repeat(c, n) + rest == rest;
    } else {
      assert (Repeat(c, n) + rest)[1..] == Repeat(c, n - 1) + rest;
      RunAt(c, n - 1, rest);
    }
  }

  lemma FenceTakenApart(line: string, f: Fence) returns (indent: string, rest: string)
    requires FenceOf(line) == Some(f)
    ensures IsFence(line, f, indent, rest)
  {
    hide TrimStart, RunOf, Trim, TrimEnd;
    var t := TrimStart(line);
    indent, rest := line[..|line| - |t|], t[f.run..];
    TrimsToNothing(rest);
    assert t == t[..f.run] + rest && t[..f.run] == Repeat(f.marker, f.run);
    assert line == indent + t;
  }

  lemma FencePutTogether(line: string, f: Fence, indent: string, rest: string)
    requires IsFence(line, f, indent, rest)
    ensures FenceOf(line) == Some(f)
  {
    hide TrimStart, RunOf, Trim, TrimEnd;
    var t := Repeat(f.marker, f.run) + rest;
    assert t[0] == f.marker && line == indent + t;
    TrimStartAt(indent, t);
    RunAt(f.marker, f.run, rest);
    TrimsToNothing(rest);
    assert t[f.run..] == rest;
  }

  /** A fence line is just what the language calls one. */
  lemma FenceMeans(line: string, f: Fence)
    ensures FenceOf(line) == Some(f) <==> exists indent, rest :: IsFence(line, f, indent, rest)
  {
    hide FenceOf, IsFence;
    if FenceOf(line) == Some(f) {
      var indent, rest := FenceTakenApart(line, f);
    }
    if indent, rest :| IsFence(line, f, indent, rest) {
      FencePutTogether(line, f, indent, rest);
    }
  }

  // ----- blocks, as a document has them -----

  /** A line that closes a block opened by `f`: a bare run of its character, at least as long. */
  predicate Closes(f: Fence, line: string) {
    var g := FenceOf(line);
    g.Some? && g.value.marker == f.marker && g.value.run >= f.run && g.value.bare
  }

  /** The first line from `j` on that closes a block opened by `f`, or the end of the text. */
  function CloseFrom(lines: seq<string>, f: Fence, j: nat): (k: nat)
    requires j <= |lines|
    ensures j <= k <= |lines| && (k < |lines| ==> Closes(f, lines[k]))
    ensures forall i | j <= i < k :: !Closes(f, lines[i])
    decreases |lines| - j
  {
    if j == |lines| || Closes(f, lines[j]) then j else CloseFrom(lines, f, j + 1)
  }

  /** Where the block opened at `o` ends. */
  function CloseOf(lines: seq<string>, o: nat): (k: nat)
    requires o < |lines| && FenceOf(lines[o]).Some?
    ensures o < k <= |lines|
  {
    CloseFrom(lines, FenceOf(lines[o]).value, o + 1)
  }

  /** A fence line outside every block before it opens one. */
  predicate Opens(lines: seq<string>, i: nat)
    decreases i
  {
    i < |lines| && FenceOf(lines[i]).Some? && forall o | 0 <= o < i && Opens(lines, o) :: CloseOf(lines, o) < i
  }

  /** The block opened at `o` reaches past line `i`. */
  predicate Spans(lines: seq<string>, o: nat, i: nat) {
    Opens(lines, o) && o <= i <= CloseOf(lines, o)
  }

  /** A line of a block, its fence lines included. */
  predicate InBlock(lines: seq<string>, i: nat) {
    exists o | 0 <= o <= i :: Spans(lines, o, i)
  }

  // ----- the tracker -----

  datatype Opening = Opening(marker: char, run: nat)

  /** Reading one line: what is open after it, and whether it is a fence line. */
  function Step(open: Option<Opening>, line: string): (Option<Opening>, bool) {
    var f := FenceOf(line);
    if open.Some? then
      if f.Some? && f.value.marker == open.value.marker && f.value.run >= open.value.run && f.value.bare
      then (None, true) else (open, false)
    else if f.Some? then (Some(Opening(f.value.marker, f.value.run)), true)
    else (None, false)
  }

  function After(open: Option<Opening>, lines: seq<string>): Option<Opening> {
    if lines == [] then open else Step(After(open, lines[..|lines| - 1]), lines[|lines| - 1]).0
  }

  class FenceTracker {
    var open: Option<Opening>

    constructor ()
      ensures open == None
    {
      open := None;
    }

    method Read(line: string) returns (isFence: bool)
      modifies this
      ensures (open, isFence) == Step(old(open), line)
    {
      var f := FenceOf(line);
      isFence := false;
      if open.Some? {
        if f.Some? && f.value.marker == open.value.marker && f.value.run >= open.value.run && f.value.bare {
          open := None;
          isFence := true;
        }
      } else if f.Some? {
        open := Some(Opening(f.value.marker, f.value.run));
        isFence := true;
      }
    }

    predicate IsOpen()
      reads this
    {
      open.Some?
    }
  }

  function OpeningOf(f: Fence): Opening { Opening(f.marker, f.run) }

  /** No block reaches line `n`. */
  predicate AllClosed(lines: seq<string>, n: nat) {
    forall o | 0 <= o < n && Opens(lines, o) :: CloseOf(lines, o) < n
  }

  /** What the tracker holds after `n` lines, in terms of the document's blocks. */
  ghost predicate Agrees(lines: seq<string>, n: nat, open: Option<Opening>) {
    n <= |lines| &&
    if open.None? then AllClosed(lines, n)
    else exists o | 0 <= o < n :: Holds(lines, o, n, open.value)
  }

  /** The block opened at `o`, by such a fence, reaches line `n`, and no other opened since does. */
  predicate Holds(lines: seq<string>, o: nat, n: nat, f: Opening) {
    && Opens(lines, o) && o < n <= CloseOf(lines, o)
    && OpeningOf(FenceOf(lines[o]).value) == f
    && forall p | o < p < n :: !Opens(lines, p)
  }

  lemma InsideNothingOpens(lines: seq<string>, o: nat, i: nat)
    requires Opens(lines, o) && o < i <= CloseOf(lines, o)
    ensures !Opens(lines, i)
  {}

  /** A line of an open block closes it exactly if it is where the block ends. */
  lemma ClosesAtEnd(lines: seq<string>, o: nat, n: nat)
    requires o < n < |lines| && FenceOf(lines[o]).Some? && n <= CloseOf(lines, o)
    ensures Closes(FenceOf(lines[o]).value, lines[n]) <==> CloseOf(lines, o) == n
  {
    hide FenceOf, Closes;
  }

  lemma AllClosedAfter(lines: seq<string>, o: nat, n: nat, f: Opening)
    requires Holds(lines, o, n, f) && CloseOf(lines, o) == n
    ensures AllClosed(lines, n + 1)
  {
    hide FenceOf, CloseOf;
    InsideNothingOpens(lines, o, n);
    assert forall p | 0 <= p < o && Opens(lines, p) :: CloseOf(lines, p) < o;
  }

  lemma OpenStep(lines: seq<string>, n: nat, o: nat, f: Opening)
    requires n < |lines| && Holds(lines, o, n, f)
    ensures Agrees(lines, n + 1, Step(Some(f), lines[n]).0)
    ensures Step(Some(f), lines[n]).1 <==> CloseOf(lines, o) == n
    ensures Step(Some(f), lines[n]).1 || Step(Some(f), lines[n]).0.Some?
    ensures InBlock(lines, n) && !Opens(lines, n)
  {
    hide FenceOf, CloseOf;
    InsideNothingOpens(lines, o, n);
    ClosesAtEnd(lines, o, n);
    assert Spans(lines, o, n);
    if CloseOf(lines, o) == n {
      AllClosedAfter(lines, o, n, f);
    } else {
      assert Holds(lines, o, n + 1, f);
    }
  }

  lemma ClosedStep(lines: seq<string>, n: nat)
    requires n < |lines| && AllClosed(lines, n)
    ensures Agrees(lines, n + 1, Step(None, lines[n]).0)
    ensures Step(None, lines[n]).1 <==> Opens(lines, n)
    ensures Step(None, lines[n]).1 <==> Step(None, lines[n]).0.Some?
    ensures Opens(lines, n) <==> InBlock(lines, n)
  {
    hide FenceOf;
    assert Opens(lines, n) <==> FenceOf(lines[n]).Some?;
    if Opens(lines, n) {
      assert Spans(lines, n, n);
      assert Holds(lines, n, n + 1, OpeningOf(FenceOf(lines[n]).value));
    } else {
      assert AllClosed(lines, n + 1);
    }
  }

  lemma NothingRead(lines: seq<string>)
    ensures After(None, lines[..0]) == None && AllClosed(lines, 0)
  {}

  lemma ReadOne(lines: seq<string>, i: nat)
    requires i < |lines|
    ensures After(None, lines[..i + 1]) == Step(After(None, lines[..i]), lines[i]).0
  {
    assert lines[..i + 1][..i] == lines[..i];
  }

  lemma {:induction false} TrackerAgrees(lines: seq<string>, n: nat)
    requires n <= |lines|
    ensures Agrees(lines, n, After(None, lines[..n]))
  {
    hide FenceOf, Step, Holds, AllClosed, Opens, After;
    NothingRead(lines);
    if n > 0 {
      TrackerAgrees(lines, n - 1);
      ReadOne(lines, n - 1);
      var open := After(None, lines[..n - 1]);
      if open.Some? {
        var o :| 0 <= o < n - 1 && Holds(lines, o, n - 1, open.value);
        OpenStep(lines, n - 1, o, open.value);
      } else {
        ClosedStep(lines, n - 1);
      }
    }
  }

  lemma OnlyOneReaches(lines: seq<string>, o: nat, n: nat, f: Opening)
    requires Holds(lines, o, n, f) && n < |lines|
    ensures (exists p | 0 <= p < n :: EndsAt(lines, p, n)) <==> CloseOf(lines, o) == n
  {
    hide FenceOf, CloseOf;
    assert forall p | 0 <= p < o && Opens(lines, p) :: CloseOf(lines, p) < o;
    assert EndsAt(lines, o, n) <==> CloseOf(lines, o) == n;
  }

  lemma NoneReaches(lines: seq<string>, n: nat)
    requires AllClosed(lines, n)
    ensures forall p | 0 <= p < n :: !EndsAt(lines, p, n)
  {}

  /** The block opened at `o` ends with line `n`. */
  predicate EndsAt(lines: seq<string>, o: nat, n: nat) {
    Opens(lines, o) && CloseOf(lines, o) == n
  }

  /** The line-by-line reading is the document's own: a line is a fence line, or is read with a block open,
      exactly if it belongs to a block; and it is a fence line exactly if it opens or closes one. */
  lemma TrackerReadsBlocks(lines: seq<string>, n: nat)
    requires n < |lines|
    ensures var (open, isFence) := Step(After(None, lines[..n]), lines[n]);
            && (isFence || open.Some? <==> InBlock(lines, n))
            && (isFence <==> Opens(lines, n) || exists o | 0 <= o < n :: EndsAt(lines, o, n))
  {
    hide FenceOf, CloseOf, Step, After, Opens, Holds, AllClosed, InBlock;
    TrackerAgrees(lines, n);
    var open := After(None, lines[..n]);
    if open.Some? {
      var o :| 0 <= o < n && Holds(lines, o, n, open.value);
      OpenStep(lines, n, o, open.value);
      OnlyOneReaches(lines, o, n, open.value);
    } else {
      ClosedStep(lines, n);
      NoneReaches(lines, n);
    }
  }

  // ----- headers -----

  /** The name, a colon and white space. */
  predicate IsNamed(s: string, name: string) {
    name + ":" <= s && |s| > |name| + 1 && IsSpace(s[|name| + 1])
  }

  predicate IsName(name: string) { name == "Rhei" || name == "Panta" }

  /** A number sign, white space, one of the names and a colon, white space, and the title; `t` is
      trimmed. */
  predicate MatchesHeader(t: string) {
    t != "" && t[0] == '#' &&
    (var rest := TrimStart(t[1..]);
     |rest| < |t| - 1 && (IsNamed(rest, "Rhei") || IsNamed(rest, "Panta")))
  }

  /** `#`, white space, a name, `:`, white space, and anything. */
  predicate IsHeaderText(t: string, gap: string, name: string, rest: string) {
    && t == "#" + gap + name + ":" + rest
    && gap != "" && AllSpace(gap) && IsName(name)
    && rest != "" && IsSpace(rest[0])
  }

  lemma HeaderTakenApart(t: string, name: string) returns (gap: string, rest: string)
    requires t != "" && t[0] == '#' && IsName(name)
    requires |TrimStart(t[1..])| < |t| - 1 && IsNamed(TrimStart(t[1..]), name)
    ensures IsHeaderText(t, gap, name, rest)
  {
    hide TrimStart, IsName;
    var after := t[1..];
    var named := TrimStart(after);
    gap, rest := after[..|after| - |named|], named[|name| + 1..];
    var start := name + ":";
    assert named == start + rest;
    assert after == gap + named && t == "#" + after;
    Regrouped(gap, name, rest);
  }

  lemma Regrouped(gap: string, name: string, rest: string)
    ensures "#" + (gap + ((name + ":") + rest)) == "#" + gap + name + ":" + rest
  {}

  lemma HeaderPutTogether(t: string, gap: string, name: string, rest: string)
    requires IsHeaderText(t, gap, name, rest)
    ensures t != "" && t[0] == '#' && |TrimStart(t[1..])| < |t| - 1 && IsNamed(TrimStart(t[1..]), name)
  {
    NameStart(name);
    hide TrimStart, IsName;
    var start := name + ":";
    var named := start + rest;
    Regrouped(gap, name, rest);
    assert t[1..] == gap + named && named[0] == name[0];
    TrimStartAt(gap, named);
    assert start <= named && named[|start|] == rest[0];
  }

  lemma NameOf(t: string, gap: string, name: string, rest: string)
    requires IsHeaderText(t, gap, name, rest)
    ensures IsName(name)
  {}

  lemma NameStart(name: string)
    requires IsName(name)
    ensures name != "" && !IsSpace(name[0])
  {}

  /** The header pattern, as a pattern. */
  lemma HeaderMeans(t: string)
    ensures MatchesHeader(t) <==> exists gap, name, rest :: IsHeaderText(t, gap, name, rest)
  {
    hide IsHeaderText, IsNamed, TrimStart;
    assert IsName("Rhei") && IsName("Panta");
    if MatchesHeader(t) {
      var name := if IsNamed(TrimStart(t[1..]), "Rhei") then "Rhei" else "Panta";
      var gap, rest := HeaderTakenApart(t, name);
    }
    if gap, name, rest :| IsHeaderText(t, gap, name, rest) {
      HeaderPutTogether(t, gap, name, rest);
      assert IsName(name) by { NameOf(t, gap, name, rest); }
    }
  }

  predicate IsHeader(line: string) { MatchesHeader(Trim(line)) }

  /** A header outside every block. */
  predicate HeaderAt(lines: seq<string>, i: nat) {
    i < |lines| && !InBlock(lines, i) && IsHeader(lines[i])
  }

  /** `find_header_line`: the first header outside every block. */
  method FindHeaderLine(lines: seq<string>) returns (r: Option<nat>)
    ensures r.Some? ==> HeaderAt(lines, r.value) && forall i | 0 <= i < r.value :: !HeaderAt(lines, i)
    ensures r.None? ==> forall i | 0 <= i < |lines| :: !HeaderAt(lines, i)
  {
    hide FenceOf, Step, InBlock, IsHeader;
    var fence := new FenceTracker();
    var i := 0;
    while i < |lines|
      invariant 0 <= i <= |lines| && fence.open == After(None, lines[..i])
      invariant forall j | 0 <= j < i :: !HeaderAt(lines, j)
    {
      ReadOne(lines, i);
      TrackerReadsBlocks(lines, i);
      var isFence := fence.Read(lines[i]);
      if !isFence && !fence.IsOpen() && IsHeader(lines[i]) {
        return Some(i);
      }
      i := i + 1;
    }
    r := None;
  }

  // ----- frontmatter -----

  datatype Block = Block(open: nat, close: Option<nat>)

  datatype Place = Place(header: nat, block: Option<Block>)

  predicate IsBlank(line: string) { Trim(line) == "" }

  predicate IsRule(line: string) { Trim(line) == "---" }

  /** A text between white space is trimmed to it. */
  lemma TrimMeans(line: string, middle: string)
    requires middle != "" && !IsSpace(middle[0]) && !IsSpace(middle[|middle| - 1])
    ensures Trim(line) == middle <==> exists indent, rest :: IsAround(line, indent, middle, rest)
  {
    hide TrimStart, TrimEnd;
    if Trim(line) == middle {
      var t := TrimStart(line);
      assert line == line[..|line| - |t|] + middle + t[|middle|..];
      assert IsAround(line, line[..|line| - |t|], middle, t[|middle|..]);
    }
    if indent, rest :| IsAround(line, indent, middle, rest) {
      assert line == indent + (middle + rest);
      TrimStartAt(indent, middle + rest);
      TrimEndAt(middle, rest);
    }
  }

  predicate IsAround(line: string, indent: string, middle: string, rest: string) {
    line == indent + middle + rest && AllSpace(indent) && AllSpace(rest)
  }

  lemma {:induction false} TrimEndAt(t: string, rest: string)
    requires t != "" && !IsSpace(t[|t| - 1]) && AllSpace(rest)
    ensures TrimEnd(t + rest) == t
  {
    if rest == "" {
      assert t + rest == t;
    } else {
      assert (t + rest)[..|t + rest| - 1] == t + rest[..|rest| - 1];
      TrimEndAt(t, rest[..|rest| - 1]);
    }
  }

  /** A blank line is white space alone, and a rule is three hyphens with nothing but white space around. */
  lemma BlankAndRule(line: string)
    ensures IsBlank(line) <==> AllSpace(line)
    ensures IsRule(line) <==> exists indent, rest :: IsAround(line, indent, "---", rest)
  {
    TrimsToNothing(line);
    TrimMeans(line, "---");
  }

  /** A line outside every block of the whole document, and not blank. */
  predicate ContentAt(lines: seq<string>, i: nat) {
    i < |lines| && !InBlock(lines, i) && !IsBlank(lines[i])
  }

  /** The first content below the header. */
  predicate FirstContent(lines: seq<string>, h: nat, i: nat) {
    h < i && ContentAt(lines, i) && forall j | h < j < i :: !ContentAt(lines, j)
  }

  lemma {:induction false} AfterInParts(open: Option<Opening>, a: seq<string>, b: seq<string>)
    ensures After(open, a + b) == After(After(open, a), b)
  {
    if b == [] {
      assert a + b == a;
    } else {
      hide Step;
      assert (a + b)[..|a + b| - 1] == a + b[..|b| - 1];
      AfterInParts(open, a, b[..|b| - 1]);
    }
  }

  /** Below a line outside every block, a fresh tracker is the document's own. */
  lemma FreshTrackerAgrees(lines: seq<string>, h: nat, i: nat)
    requires h < i <= |lines| && !InBlock(lines, h)
    ensures After(None, lines[h + 1..i]) == After(None, lines[..i])
  {
    hide InBlock, FenceOf, Step, After;
    TrackerReadsBlocks(lines, h);
    ReadOne(lines, h);
    AfterInParts(None, lines[..h + 1], lines[h + 1..i]);
    assert lines[..h + 1] + lines[h + 1..i] == lines[..i];
  }

  /** So a document's blocks below such a line are those of the text below it. */
  lemma BlocksBelow(lines: seq<string>, h: nat, i: nat)
    requires h < i < |lines| && !InBlock(lines, h)
    ensures InBlock(lines[h + 1..], i - h - 1) <==> InBlock(lines, i)
  {
    hide *;
    var below := lines[h + 1..];
    FreshTrackerAgrees(lines, h, i);
    assert below[..i - h - 1] == lines[h + 1..i] && below[i - h - 1] == lines[i];
    TrackerReadsBlocks(below, i - h - 1);
    TrackerReadsBlocks(lines, i);
  }

  /** `find_frontmatter`: the first header outside every block; below it, the first line that is not blank
      and outside every block of the document opens the frontmatter if it is a rule, and the next rule, in
      whatever block, closes it. */
  method FindFrontmatter(lines: seq<string>) returns (r: Option<Place>)
    ensures r.None? <==> forall i | 0 <= i < |lines| :: !HeaderAt(lines, i)
    ensures r.Some? ==>
              var h, block := r.value.header, r.value.block;
              && HeaderAt(lines, h) && (forall i | 0 <= i < h :: !HeaderAt(lines, i))
              && (block.Some? ==>
                    && FirstContent(lines, h, block.value.open) && IsRule(lines[block.value.open])
                    && NextRule(lines, block.value.open, block.value.close))
              && (block.None? ==> forall i: nat | FirstContent(lines, h, i) :: !IsRule(lines[i]))
  {
    hide FenceOf, Step, InBlock, IsHeader, IsBlank, IsRule;
    var header := FindHeaderLine(lines);
    if header.None? {
      return None;
    }
    var h := header.value;
    var fence := new FenceTracker();
    var i := h + 1;
    assert lines[h + 1..h + 1] == [];
    while i < |lines|
      invariant h < i <= |lines| && fence.open == After(None, lines[h + 1..i])
      invariant forall j | h < j < i :: !ContentAt(lines, j)
    {
      FreshTrackerAgrees(lines, h, i);
      FreshTrackerAgrees(lines, h, i + 1);
      ReadOne(lines, i);
      TrackerReadsBlocks(lines, i);
      var isFence := fence.Read(lines[i]);
      if !(isFence || fence.IsOpen() || IsBlank(lines[i])) {
        assert FirstContent(lines, h, i);
        if !IsRule(lines[i]) {
          return Some(Place(h, None));
        }
        var close := FindRule(lines, i);
        return Some(Place(h, Some(Block(i, close))));
      }
      i := i + 1;
    }
    r := Some(Place(h, None));
  }

  /** The first rule after a line. */
  predicate NextRule(lines: seq<string>, open: nat, close: Option<nat>) {
    if close.Some? then
      open < close.value < |lines| && IsRule(lines[close.value]) && forall i | open < i < close.value :: !IsRule(lines[i])
    else forall i | open < i < |lines| :: !IsRule(lines[i])
  }

  method FindRule(lines: seq<string>, open: nat) returns (close: Option<nat>)
    requires open < |lines|
    ensures NextRule(lines, open, close)
  {
    hide IsRule;
    var i := open + 1;
    while i < |lines|
      invariant open < i <= |lines|
      invariant forall j | open < j < i :: !IsRule(lines[j])
    {
      if IsRule(lines[i]) {
        return Some(i);
      }
      i := i + 1;
    }
    close := None;
  }
}
