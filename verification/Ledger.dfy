/** The transition ledger: movement rows, metadata rows, and the force pairs that must stay adjacent.

  JSON, UUID and timestamp parsing are a `Library`: `canonical` is the canonical JSON of an audit,
  `parse` what deserialising bytes gives, and the two predicates what the UUID and time parsers
  accept. Nothing is assumed of them except where a lemma says so. */
module Ledger {
  import opened Basics
  import opened Text
  import opened Lines
  import Base64Url

  datatype Audit = Audit(confirmation: string, source: string, osUser: string, reason: string,
                         recoveryId: string, resultSha256: Option<string>, schemaVersion: nat,
                         taskId: string, timestamp: string, target: string)

  datatype Movement = Movement(taskId: string, source: string, target: string, audit: Option<Audit>)

  datatype Library = Library(
    canonical: Audit -> seq<byte>,
    parse: seq<byte> -> Option<Audit>,
    isUuid7: string -> bool,
    isUtc: string -> bool)

  const FORCE: string := "!force-v1"

  // ----- audits -----

  predicate IsToken(s: string) {
    IsWord(s) && s[0] != '!' && '@' !in s
  }

  predicate IsBlank(s: string) { forall i | 0 <= i < |s| :: IsSpace(s[i]) }

  predicate IsDigest(s: string) {
    |s| == 64 && forall i | 0 <= i < 64 :: IsDigit(s[i]) || 'a' <= s[i] <= 'f'
  }

  predicate ValidAudit(lib: Library, a: Audit) {
    && a.schemaVersion == 1
    && a.confirmation == "typed-hop-v1"
    && !IsBlank(a.reason) && !IsBlank(a.osUser)
    && lib.isUuid7(a.recoveryId)
    && a.timestamp != "" && a.timestamp[|a.timestamp| - 1] == 'Z' && lib.isUtc(a.timestamp)
    && IsToken(a.taskId) && IsToken(a.source) && IsToken(a.target)
    && (a.resultSha256.Some? ==> IsDigest(a.resultSha256.value))
  }

  function MetaRow(lib: Library, a: Audit): string {
    a.taskId + " " + FORCE + " " + (Base64Url.Encode(lib.canonical(a)) + "\n")
  }

  function MoveRow(taskId: string, source: string, target: string): string {
    taskId + " " + (source + "@" + target) + "\n"
  }

  /** The audit a payload carries, refused unless the payload is its canonical spelling. */
  function FromPayload(lib: Library, payload: string): Option<Audit> {
    var raw := Base64Url.Decode(payload);
    if raw.None? then None
    else
      var a := lib.parse(raw.value);
      if a.None? || lib.canonical(a.value) != raw.value || !ValidAudit(lib, a.value) then None else a
  }

  // ----- rows -----

  predicate Starts(s: string, c: char) { s != "" && s[0] == c }

  predicate IsForceRow(line: string) {
    |Fields(line)| >= 2 && Fields(line)[1] == FORCE
  }

  /** The text before and after the first `@`. */
  function SplitAt(s: string): Option<(string, string)> {
    if s == "" then None
    else if s[0] == '@' then Some(("", s[1..]))
    else
      var rest := SplitAt(s[1..]);
      if rest.None? then None else Some(([s[0]] + rest.value.0, rest.value.1))
  }

  /** What a row that is no force row says: a movement, or nothing. */
  function PlainMovement(line: string): seq<Movement> {
    var fields := Fields(line);
    if |fields| < 2 || Starts(fields[1], '!') then []
    else
      var hop := SplitAt(fields[1]);
      if hop.None? || hop.value.0 == "" || hop.value.1 == "" then []
      else [Movement(fields[0], hop.value.0, hop.value.1, None)]
  }

  /** The audit of the force row at `i`, when that row and the next are exactly its pair. */
  function PairAt(lib: Library, lines: seq<string>, i: nat): Option<Audit>
    requires i < |lines| && IsForceRow(lines[i])
  {
    var fields := Fields(lines[i]);
    if |fields| != 3 then None
    else
      var a := FromPayload(lib, fields[2]);
      if a.None? then None
      else if lines[i] != MetaRow(lib, a.value) || fields[0] != a.value.taskId then None
      else if i + 1 >= |lines| || lines[i + 1] != MoveRow(a.value.taskId, a.value.source, a.value.target) then None
      else a
  }

  predicate IsPaired(lib: Library, lines: seq<string>, i: nat) {
    i < |lines| && IsForceRow(lines[i]) && PairAt(lib, lines, i).Some?
  }

  /** The rows a ledger may hold: every force row is followed by its movement row, and no two carry one
      recovery id. */
  predicate WellPaired(lib: Library, lines: seq<string>) {
    && (forall i | 0 <= i < |lines| && IsForceRow(lines[i]) :: IsPaired(lib, lines, i))
    && (forall i, j | 0 <= i < j < |lines| && IsPaired(lib, lines, i) && IsPaired(lib, lines, j) ::
          PairAt(lib, lines, i).value.recoveryId != PairAt(lib, lines, j).value.recoveryId)
  }

  /** What row `i` contributes: a pair counts once, at its first row. */
  function Contribution(lib: Library, lines: seq<string>, i: nat): seq<Movement>
    requires i < |lines|
  {
    if IsForceRow(lines[i]) then
      var a := PairAt(lib, lines, i);
      if a.None? then [] else [Movement(a.value.taskId, a.value.source, a.value.target, a)]
    else if i > 0 && IsForceRow(lines[i - 1]) then []
    else PlainMovement(lines[i])
  }

  function Contributions(lib: Library, lines: seq<string>, n: nat): seq<Movement>
    requires n <= |lines|
  {
    if n == 0 then [] else Contributions(lib, lines, n - 1) + Contribution(lib, lines, n - 1)
  }

  lemma {:induction false} HopSplits(source: string, target: string)
    requires '@' !in source
    ensures SplitAt(source + "@" + target) == Some((source, target))
  {
    var s := source + "@" + target;
    if source == "" {
      assert s == "@" + target && s[1..] == target;
    } else {
      assert s[1..] == source[1..] + "@" + target;
      HopSplits(source[1..], target);
      assert [source[0]] + source[1..] == source;
    }
  }

  /** A text splits just at its first `@`. */
  lemma {:induction false} SplitAtMeans(s: string, before: string, after: string)
    ensures SplitAt(s) == Some((before, after)) <==> '@' !in before && s == before + "@" + after
  {
    if SplitAt(s) == Some((before, after)) {
      SplitAtJoins(s);
    }
    if '@' !in before && s == before + "@" + after {
      HopSplits(before, after);
    }
  }

  lemma {:induction false} SplitAtJoins(s: string)
    requires SplitAt(s).Some?
    ensures var (before, after) := SplitAt(s).value; '@' !in before && s == before + "@" + after
  {
    if s[0] != '@' {
      SplitAtJoins(s[1..]);
    }
  }

  /** A row that is no force row says at most one movement: the hop its second word spells, of the task its
      first word names, unless that word is metadata or lacks a state. */
  lemma PlainMovementMeans(line: string, taskId: string, source: string, target: string)
    ensures PlainMovement(line) == [Movement(taskId, source, target, None)] <==>
              && |Fields(line)| >= 2 && Fields(line)[0] == taskId && Fields(line)[1] == source + "@" + target
              && '@' !in source && source != "" && source[0] != '!' && target != ""
    ensures PlainMovement(line) != [] ==>
              |PlainMovement(line)| == 1 && PlainMovement(line)[0].audit == None
  {
    hide Fields, SplitAt;
    if |Fields(line)| >= 2 {
      SplitAtMeans(Fields(line)[1], source, target);
      var hop := SplitAt(Fields(line)[1]);
      if hop.Some? {
        SplitAtMeans(Fields(line)[1], hop.value.0, hop.value.1);
        assert hop.value.0 != "" ==> Fields(line)[1][0] == hop.value.0[0];
      }
    }
  }

  /** A payload is accepted as an audit exactly if it spells the audit's canonical bytes, these parse as it,
      and the audit is one the ledger may hold. */
  lemma PayloadMeans(lib: Library, payload: string, a: Audit)
    ensures FromPayload(lib, payload) == Some(a) <==>
              && payload == Base64Url.Encode(lib.canonical(a)) && lib.parse(lib.canonical(a)) == Some(a)
              && a.schemaVersion == 1 && a.confirmation == "typed-hop-v1"
              && (exists i | 0 <= i < |a.reason| :: !IsSpace(a.reason[i]))
              && (exists i | 0 <= i < |a.osUser| :: !IsSpace(a.osUser[i]))
              && lib.isUuid7(a.recoveryId) && lib.isUtc(a.timestamp)
              && a.timestamp != "" && a.timestamp[|a.timestamp| - 1] == 'Z'
              && (forall t | t in {a.taskId, a.source, a.target} ::
                    t != "" && t[0] != '!' && '@' !in t && forall i | 0 <= i < |t| :: !IsSpace(t[i]))
              && (a.resultSha256.Some? ==> IsHex64(a.resultSha256.value))
  {
    hide *;
    FromPayloadIs(lib, payload, a);
    ValidMeans(lib, a);
  }

  lemma FromPayloadIs(lib: Library, payload: string, a: Audit)
    ensures FromPayload(lib, payload) == Some(a) <==>
              && payload == Base64Url.Encode(lib.canonical(a)) && lib.parse(lib.canonical(a)) == Some(a)
              && ValidAudit(lib, a)
  {
    hide ValidAudit, Base64Url.Decode, Base64Url.Encode;
    Base64Url.DecodeIsCanonical(payload, lib.canonical(a));
  }

  lemma ValidMeans(lib: Library, a: Audit)
    ensures ValidAudit(lib, a) <==>
              && a.schemaVersion == 1 && a.confirmation == "typed-hop-v1"
              && (exists i | 0 <= i < |a.reason| :: !IsSpace(a.reason[i]))
              && (exists i | 0 <= i < |a.osUser| :: !IsSpace(a.osUser[i]))
              && lib.isUuid7(a.recoveryId) && lib.isUtc(a.timestamp)
              && a.timestamp != "" && a.timestamp[|a.timestamp| - 1] == 'Z'
              && (forall t | t in {a.taskId, a.source, a.target} ::
                    t != "" && t[0] != '!' && '@' !in t && forall i | 0 <= i < |t| :: !IsSpace(t[i]))
              && (a.resultSha256.Some? ==> IsHex64(a.resultSha256.value))
  {
    hide IsToken, IsBlank, IsDigest, IsHex64, IsSpace;
    BlankMeans(a.reason);
    BlankMeans(a.osUser);
    if a.resultSha256.Some? {
      DigestMeans(a.resultSha256.value);
    }
    TokenMeans(a.taskId);
    TokenMeans(a.source);
    TokenMeans(a.target);
  }

  lemma BlankMeans(s: string)
    ensures !IsBlank(s) <==> exists i | 0 <= i < |s| :: !IsSpace(s[i])
  {
    hide IsSpace;
  }

  lemma TokenMeans(t: string)
    ensures IsToken(t) <==> t != "" && t[0] != '!' && '@' !in t && forall i | 0 <= i < |t| :: !IsSpace(t[i])
  {
    hide IsSpace;
  }

  predicate IsHex64(s: string) {
    |s| == 64 && forall i | 0 <= i < 64 :: s[i] in "0123456789abcdef"
  }

  lemma DigestMeans(s: string)
    ensures IsDigest(s) <==> IsHex64(s)
  {
    forall c: char
      ensures c in "0123456789abcdef" <==> IsDigit(c) || 'a' <= c <= 'f'
    {
      HexDigits(c);
    }
  }

  lemma HexDigits(c: char)
    ensures c in "0123456789abcdef" <==> IsDigit(c) || 'a' <= c <= 'f'
  {}

  lemma HopIsWord(source: string, target: string)
    requires IsToken(source) && IsWord(target)
    ensures IsWord(source + "@" + target) && !Starts(source + "@" + target, '!')
    ensures '@' !in source && source != "" && target != ""
  {}

  /** A movement row says its movement, and is no force row. */
  lemma MoveRowSays(taskId: string, source: string, target: string)
    requires IsWord(taskId) && IsToken(source) && IsWord(target)
    ensures PlainMovement(MoveRow(taskId, source, target)) == [Movement(taskId, source, target, None)]
    ensures !IsForceRow(MoveRow(taskId, source, target))
  {
    hide Fields, SplitAt, IsWord, IsToken;
    HopIsWord(source, target);
    TwoFields(taskId, source + "@" + target);
    HopSplits(source, target);
    assert Starts(FORCE, '!');
  }

  lemma PairMeans(lib: Library, lines: seq<string>, i: nat)
    requires IsPaired(lib, lines, i)
    ensures var a := PairAt(lib, lines, i).value;
            && ValidAudit(lib, a)
            && lines[i] == MetaRow(lib, a)
            && i + 1 < |lines| && lines[i + 1] == MoveRow(a.taskId, a.source, a.target)
            && !IsForceRow(lines[i + 1])
  {
    hide Fields, MetaRow;
    var a := PairAt(lib, lines, i).value;
    MoveRowSays(a.taskId, a.source, a.target);
  }

  /** The recovery ids of the pairs among the first `n` rows. */
  function Ids(lib: Library, lines: seq<string>, n: nat): set<string>
    requires n <= |lines|
  {
    set i | 0 <= i < n && IsPaired(lib, lines, i) :: PairAt(lib, lines, i).value.recoveryId
  }

  /** The first `n` rows are as a ledger's rows must be. */
  predicate WellPairedTo(lib: Library, lines: seq<string>, n: nat)
    requires n <= |lines|
  {
    && (forall i | 0 <= i < n && IsForceRow(lines[i]) :: IsPaired(lib, lines, i))
    && (forall i, j | 0 <= i < j < n && IsPaired(lib, lines, i) && IsPaired(lib, lines, j) ::
          PairAt(lib, lines, i).value.recoveryId != PairAt(lib, lines, j).value.recoveryId)
  }

  lemma PlainStep(lib: Library, lines: seq<string>, i: nat)
    requires i < |lines| && !IsForceRow(lines[i]) && WellPairedTo(lib, lines, i)
    ensures WellPairedTo(lib, lines, i + 1) && Ids(lib, lines, i + 1) == Ids(lib, lines, i)
  {
    hide IsForceRow, PairAt;
  }

  lemma PairedStep(lib: Library, lines: seq<string>, i: nat)
    requires IsPaired(lib, lines, i) && WellPairedTo(lib, lines, i)
    requires PairAt(lib, lines, i).value.recoveryId !in Ids(lib, lines, i)
    ensures WellPairedTo(lib, lines, i + 1)
    ensures Ids(lib, lines, i + 1) == Ids(lib, lines, i) + {PairAt(lib, lines, i).value.recoveryId}
  {
    hide IsForceRow, PairAt;
    forall j | 0 <= j < i && IsPaired(lib, lines, j)
      ensures PairAt(lib, lines, j).value.recoveryId in Ids(lib, lines, i)
    {}
  }

  lemma PairStep(lib: Library, lines: seq<string>, i: nat)
    requires IsPaired(lib, lines, i) && WellPairedTo(lib, lines, i)
    requires PairAt(lib, lines, i).value.recoveryId !in Ids(lib, lines, i)
    ensures i + 2 <= |lines| && WellPairedTo(lib, lines, i + 2)
    ensures Ids(lib, lines, i + 2) == Ids(lib, lines, i) + {PairAt(lib, lines, i).value.recoveryId}
    ensures Contributions(lib, lines, i + 2) == Contributions(lib, lines, i) + Contribution(lib, lines, i)
  {
    hide PairAt, Ids, WellPairedTo;
    PairMeans(lib, lines, i);
    PairedStep(lib, lines, i);
    PlainStep(lib, lines, i + 1);
    assert Contribution(lib, lines, i + 1) == [];
  }

  lemma RepeatedId(lib: Library, lines: seq<string>, i: nat)
    requires IsPaired(lib, lines, i) && PairAt(lib, lines, i).value.recoveryId in Ids(lib, lines, i)
    ensures !WellPaired(lib, lines)
  {
    hide IsForceRow, PairAt;
  }

  /** Parsing refuses a ledger unless every force row is immediately followed by its exact movement row
      and no recovery id repeats, and otherwise returns what its rows say, in order. */
  method Parse(lib: Library, raw: string) returns (r: Option<seq<Movement>>)
    ensures r.Some? <==> WellPaired(lib, Split('\n', raw))
    ensures r.Some? ==> r.value == Contributions(lib, Split('\n', raw), |Split('\n', raw)|)
  {
    hide Fields, MetaRow, MoveRow, FromPayload, PlainMovement;
    var lines := Split('\n', raw);
    var movements: seq<Movement> := [];
    var ids: set<string> := {};
    var i := 0;
    while i < |lines|
      invariant 0 <= i <= |lines|
      invariant i > 0 ==> !IsForceRow(lines[i - 1])
      invariant WellPairedTo(lib, lines, i) && ids == Ids(lib, lines, i)
      invariant movements == Contributions(lib, lines, i)
    {
      var line := lines[i];
      if IsForceRow(line) {
        var fields := Fields(line);
        if |fields| != 3 {
          return None;
        }
        var audit := FromPayload(lib, fields[2]);
        if audit.None? {
          return None;
        }
        var a := audit.value;
        if || line != MetaRow(lib, a) || fields[0] != a.taskId
           || i + 1 >= |lines| || lines[i + 1] != MoveRow(a.taskId, a.source, a.target) {
          return None;
        }
        if a.recoveryId in ids {
          RepeatedId(lib, lines, i);
          return None;
        }
        PairStep(lib, lines, i);
        PairMeans(lib, lines, i);
        ids := ids + {a.recoveryId};
        movements := movements + [Movement(a.taskId, a.source, a.target, audit)];
        i := i + 2;
      } else {
        PlainStep(lib, lines, i);
        movements := movements + PlainMovement(line);
        i := i + 1;
      }
    }
    r := Some(movements);
  }

  // ----- what was printed is what is read -----

  datatype Item =
    | Moved(taskId: string, source: string, target: string)
    | Unknown(row: string)
    | Forced(audit: Audit)

  /** A metadata row the parser does not know. */
  predicate IsUnknownRow(row: string) {
    IsLine('\n', row) && |Fields(row)| >= 2 && Starts(Fields(row)[1], '!') && Fields(row)[1] != FORCE
  }

  predicate Printable(lib: Library, x: Item) {
    match x
    case Moved(taskId, source, target) => IsWord(taskId) && IsToken(source) && IsWord(target)
    case Unknown(row) => IsUnknownRow(row)
    case Forced(a) => ValidAudit(lib, a) && lib.canonical(a) != [] && lib.parse(lib.canonical(a)) == Some(a)
  }

  function RowsOf(lib: Library, x: Item): (rows: seq<string>)
    ensures rows != []
  {
    match x
    case Moved(taskId, source, target) => [MoveRow(taskId, source, target)]
    case Unknown(row) => [row]
    case Forced(a) => [MetaRow(lib, a), MoveRow(a.taskId, a.source, a.target)]
  }

  function Rows(lib: Library, items: seq<Item>): seq<string> {
    if items == [] then [] else Rows(lib, items[..|items| - 1]) + RowsOf(lib, items[|items| - 1])
  }

  function MovementsOf(x: Item): seq<Movement> {
    match x
    case Moved(taskId, source, target) => [Movement(taskId, source, target, None)]
    case Unknown(_) => []
    case Forced(a) => [Movement(a.taskId, a.source, a.target, Some(a))]
  }

  function AllMovements(items: seq<Item>): seq<Movement> {
    if items == [] then [] else AllMovements(items[..|items| - 1]) + MovementsOf(items[|items| - 1])
  }

  function ForcedIds(items: seq<Item>): set<string> {
    set i | 0 <= i < |items| && items[i].Forced? :: items[i].audit.recoveryId
  }

  ghost predicate PrintableLedger(lib: Library, items: seq<Item>) {
    && (forall i | 0 <= i < |items| :: Printable(lib, items[i]))
    && (forall i, j | 0 <= i < j < |items| && items[i].Forced? && items[j].Forced? ::
          items[i].audit.recoveryId != items[j].audit.recoveryId)
  }

  lemma PayloadInverts(lib: Library, a: Audit)
    requires Printable(lib, Forced(a))
    ensures var payload := Base64Url.Encode(lib.canonical(a));
            FromPayload(lib, payload) == Some(a) && IsWord(payload)
  {
    hide ValidAudit, Base64Url.Encode;
    Base64Url.DecodeIsCanonical(Base64Url.Encode(lib.canonical(a)), lib.canonical(a));
    Base64Url.EncodeUsesSymbols(lib.canonical(a));
  }

  lemma MetaRowSays(lib: Library, a: Audit)
    requires Printable(lib, Forced(a))
    ensures Fields(MetaRow(lib, a)) == [a.taskId, FORCE, Base64Url.Encode(lib.canonical(a))]
  {
    PayloadInverts(lib, a);
    hide Base64Url.Encode, ValidAudit;
    var payload := Base64Url.Encode(lib.canonical(a));
    assert IsWord(a.taskId) by { ForcedTokens(lib, a); }
    assert IsWord(FORCE);
    hide IsWord, Fields;
    ThreeFields(a.taskId, FORCE, payload + "\n");
    FirstField(payload, "\n");
    BlankLine();
  }

  lemma ForcedTokens(lib: Library, a: Audit)
    requires ValidAudit(lib, a)
    ensures IsToken(a.taskId) && IsToken(a.source) && IsToken(a.target)
  {}

  lemma BlankLine()
    ensures Fields("\n") == []
  {
    SkipSpace('\n', "");
    assert "\n" == ['\n'] + "";
  }

  lemma PairIsPaired(lib: Library, lines: seq<string>, a: Audit)
    requires Printable(lib, Forced(a))
    ensures var more := lines + RowsOf(lib, Forced(a));
            IsPaired(lib, more, |lines|) && PairAt(lib, more, |lines|) == Some(a)
  {
    hide Fields, FromPayload, Base64Url.Encode, MetaRow, MoveRow;
    MetaRowSays(lib, a);
    PayloadInverts(lib, a);
    var more := lines + RowsOf(lib, Forced(a));
    assert more[|lines|] == MetaRow(lib, a) && more[|lines| + 1] == MoveRow(a.taskId, a.source, a.target);
  }

  /** What holds of rows printed so far, and is left alone by rows printed after them. */
  predicate Settled(lib: Library, lines: seq<string>, ids: set<string>, movements: seq<Movement>) {
    && WellPairedTo(lib, lines, |lines|) && Ids(lib, lines, |lines|) == ids
    && Contributions(lib, lines, |lines|) == movements
    && (lines != [] ==> !IsForceRow(lines[|lines| - 1]))
  }

  lemma {:induction false} ContributionsStay(lib: Library, lines: seq<string>, more: seq<string>, n: nat)
    requires n <= |lines| && lines <= more
    requires forall i | 0 <= i < n && IsForceRow(lines[i]) :: i + 1 < |lines|
    ensures Contributions(lib, more, n) == Contributions(lib, lines, n)
    ensures forall i | 0 <= i < n && IsForceRow(lines[i]) :: PairAt(lib, more, i) == PairAt(lib, lines, i)
  {
    hide IsForceRow, FromPayload, MetaRow, MoveRow, PlainMovement;
    if n > 0 {
      ContributionsStay(lib, lines, more, n - 1);
    }
  }

  lemma SettledStays(lib: Library, lines: seq<string>, more: seq<string>, ids: set<string>, movements: seq<Movement>)
    requires Settled(lib, lines, ids, movements) && lines <= more
    ensures WellPairedTo(lib, more, |lines|) && Ids(lib, more, |lines|) == ids
    ensures Contributions(lib, more, |lines|) == movements
  {
    hide IsForceRow, PairAt;
    ContributionsStay(lib, lines, more, |lines|);
    assert forall i | 0 <= i < |lines| :: IsPaired(lib, more, i) <==> IsPaired(lib, lines, i);
  }

  lemma PrintedPair(lib: Library, lines: seq<string>, a: Audit, ids: set<string>, movements: seq<Movement>)
    requires Settled(lib, lines, ids, movements) && Printable(lib, Forced(a)) && a.recoveryId !in ids
    ensures Settled(lib, lines + RowsOf(lib, Forced(a)), ids + {a.recoveryId}, movements + MovementsOf(Forced(a)))
  {
    var more := lines + RowsOf(lib, Forced(a));
    SettledStays(lib, lines, more, ids, movements);
    PairIsPaired(lib, lines, a);
    PairMeans(lib, more, |lines|);
    hide IsForceRow, PairAt, WellPairedTo, Ids, MetaRow, MoveRow, Printable;
    PairStep(lib, more, |lines|);
  }

  lemma PrintedRow(lib: Library, lines: seq<string>, row: string, ids: set<string>, movements: seq<Movement>)
    requires Settled(lib, lines, ids, movements) && !IsForceRow(row)
    ensures Settled(lib, lines + [row], ids, movements + PlainMovement(row))
  {
    var more := lines + [row];
    SettledStays(lib, lines, more, ids, movements);
    hide IsForceRow, PairAt, WellPairedTo, Ids, PlainMovement;
    PlainStep(lib, more, |lines|);
  }

  lemma PrintedItem(lib: Library, lines: seq<string>, x: Item, ids: set<string>, movements: seq<Movement>)
    requires Settled(lib, lines, ids, movements) && Printable(lib, x)
    requires x.Forced? ==> x.audit.recoveryId !in ids
    ensures Settled(lib, lines + RowsOf(lib, x),
                    if x.Forced? then ids + {x.audit.recoveryId} else ids, movements + MovementsOf(x))
  {
    hide Settled;
    match x
    case Forced(a) => PrintedPair(lib, lines, a, ids, movements);
    case Moved(taskId, source, target) =>
      MoveRowSays(taskId, source, target);
      PrintedRow(lib, lines, MoveRow(taskId, source, target), ids, movements);
    case Unknown(row) =>
      assert PlainMovement(row) == [];
      PrintedRow(lib, lines, row, ids, movements);
  }

  lemma ForcedIdsStep(lib: Library, before: seq<Item>, x: Item)
    requires PrintableLedger(lib, before + [x])
    ensures PrintableLedger(lib, before) && Printable(lib, x)
    ensures x.Forced? ==> x.audit.recoveryId !in ForcedIds(before)
    ensures ForcedIds(before + [x]) == if x.Forced? then ForcedIds(before) + {x.audit.recoveryId} else ForcedIds(before)
  {
    hide Printable;
    var items := before + [x];
    assert items[|before|] == x;
    assert forall i | 0 <= i < |before| :: items[i] == before[i];
  }

  lemma NothingPrinted(lib: Library)
    ensures Settled(lib, [], {}, []) && ForcedIds([]) == {}
  {}

  lemma {:induction false} PrintedItems(lib: Library, items: seq<Item>)
    requires PrintableLedger(lib, items)
    ensures Settled(lib, Rows(lib, items), ForcedIds(items), AllMovements(items))
  {
    hide Settled, Printable, RowsOf, MovementsOf, ForcedIds, PrintableLedger;
    if items == [] {
      NothingPrinted(lib);
    } else {
      var before, x := items[..|items| - 1], items[|items| - 1];
      assert before + [x] == items;
      ForcedIdsStep(lib, before, x);
      PrintedItems(lib, before);
      PrintedItem(lib, Rows(lib, before), x, ForcedIds(before), AllMovements(before));
    }
  }

  lemma WordsMakeALine(a: string, b: string)
    requires IsWord(a) && IsWord(b)
    ensures IsLine('\n', a + " " + b + "\n")
  {
    var l := a + " " + b + "\n";
    assert l[..|l| - 1] == a + " " + b;
    assert IsSpace('\n') && '\n' !in a && '\n' !in b;
  }

  lemma MoveRowIsLine(taskId: string, source: string, target: string)
    requires IsWord(taskId) && IsToken(source) && IsWord(target)
    ensures IsLine('\n', MoveRow(taskId, source, target))
  {
    HopIsWord(source, target);
    WordsMakeALine(taskId, source + "@" + target);
  }

  lemma MetaRowIsLine(lib: Library, a: Audit)
    requires Printable(lib, Forced(a))
    ensures IsLine('\n', MetaRow(lib, a))
  {
    PayloadInverts(lib, a);
    ForcedTokens(lib, a);
    var payload := Base64Url.Encode(lib.canonical(a));
    var row := MetaRow(lib, a);
    assert row[..|row| - 1] == a.taskId + " " + FORCE + " " + payload;
    assert IsSpace('\n') && '\n' !in a.taskId && '\n' !in payload;
  }

  lemma {:induction false} RowsAreLines(lib: Library, items: seq<Item>)
    requires PrintableLedger(lib, items)
    ensures forall i | 0 <= i < |Rows(lib, items)| :: IsLine('\n', Rows(lib, items)[i])
  {
    if items != [] {
      var before, x := items[..|items| - 1], items[|items| - 1];
      assert before + [x] == items;
      ForcedIdsStep(lib, before, x);
      RowsAreLines(lib, before);
      match x
      case Forced(a) =>
        MetaRowIsLine(lib, a);
        MoveRowIsLine(a.taskId, a.source, a.target) by { ForcedTokens(lib, a); }
      case Moved(taskId, source, target) => MoveRowIsLine(taskId, source, target);
      case Unknown(_) =>
    }
  }

  /** Parsing undoes printing: any mix of movement rows, unknown metadata rows and valid force audits
      with distinct recovery ids gives back one movement per movement row and one per pair, in order. */
  method PrintAndParse(lib: Library, items: seq<Item>) returns (r: Option<seq<Movement>>)
    requires PrintableLedger(lib, items)
    ensures r == Some(AllMovements(items))
  {
    hide Fields, MetaRow, MoveRow, FromPayload, PlainMovement, WellPairedTo, Split, PrintableLedger;
    PrintedItems(lib, items);
    RowsAreLines(lib, items);
    SplitIsUnique('\n', Rows(lib, items));
    WellPairedWhole(lib, Rows(lib, items));
    r := Parse(lib, Join(Rows(lib, items)));
  }

  lemma WellPairedWhole(lib: Library, lines: seq<string>)
    ensures WellPairedTo(lib, lines, |lines|) <==> WellPaired(lib, lines)
  {}
}
