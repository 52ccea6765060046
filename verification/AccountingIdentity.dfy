/** Names of accounting records: one per visit in older records, one per attempt now. */
module AccountingIdentity {
  import opened Basics
  import opened Text

  // ----- segments -----

  /** A text as its UTF-8 bytes. */
  type Utf8 = seq<byte>

  predicate IsPlain(b: byte) {
    65 <= b <= 90 || 97 <= b <= 122 || 48 <= b <= 57 || b == 46 || b == 95 || b == 45
  }

  function HexDigit(d: int): char
    requires 0 <= d < 16
  {
    if d < 10 then (48 + d) as char else (55 + d) as char
  }

  function HexValue(c: char): int {
    if c <= '9' then c as int - 48 else c as int - 55
  }

  function EncodeByte(b: byte): string {
    if IsPlain(b) then [b as char] else ['%', HexDigit(b / 16), HexDigit(b % 16)]
  }

  function Encode(v: Utf8): string {
    if v == [] then "" else EncodeByte(v[0]) + Encode(v[1..])
  }

  /** `safe_accounting_file_segment`. */
  function Segment(v: Utf8): string {
    var encoded := Encode(v);
    if encoded == "" then "task" else encoded
  }

  /** What an encoded text was. */
  function Decode(s: string): seq<int> {
    if s == "" then []
    else if s[0] == '%' && |s| >= 3 then [HexValue(s[1]) * 16 + HexValue(s[2])] + Decode(s[3..])
    else [s[0] as int] + Decode(s[1..])
  }

  predicate NoColon(s: string) { ':' !in s }

  lemma EncodedByte(b: byte)
    ensures EncodeByte(b) != "" && NoColon(EncodeByte(b))
  {}

  lemma DecodeByte(b: byte, rest: string)
    ensures Decode(EncodeByte(b) + rest) == [b] + Decode(rest)
  {
    var s := EncodeByte(b) + rest;
    if IsPlain(b) {
      assert s[0] == b as char && s[1..] == rest;
    } else {
      assert s[0] == '%' && s[1] == HexDigit(b / 16) && s[2] == HexDigit(b % 16) && s[3..] == rest;
      assert HexValue(s[1]) == b / 16 && HexValue(s[2]) == b % 16;
    }
  }

  lemma {:induction false} EncodeInverts(v: Utf8)
    ensures Decode(Encode(v)) == v
    ensures NoColon(Encode(v)) && (Encode(v) == "" <==> v == [])
  {
    if v != [] {
      EncodedByte(v[0]);
      EncodeInverts(v[1..]);
      DecodeByte(v[0], Encode(v[1..]));
      assert [v[0]] + v[1..] == v;
    }
  }

  /** A text encodes to itself exactly if it is letters, digits, dots, underscores and hyphens alone. */
  lemma {:induction false} PlainStays(s: string)
    requires forall i | 0 <= i < |s| :: s[i] as int < 256
    ensures Encode(Bytes(s)) == s <==>
              forall i | 0 <= i < |s| ::
                'A' <= s[i] <= 'Z' || 'a' <= s[i] <= 'z' || '0' <= s[i] <= '9' || s[i] in "._-"
  {
    if s != "" {
      PlainStays(s[1..]);
      EncodedIsLonger(Bytes(s[1..]));
      assert Bytes(s)[1..] == Bytes(s[1..]);
      assert s == [s[0]] + s[1..];
    }
  }

  lemma {:induction false} EncodedIsLonger(v: Utf8)
    ensures |Encode(v)| >= |v|
  {
    if v != [] {
      EncodedIsLonger(v[1..]);
    }
  }

  function Bytes(s: string): (v: Utf8)
    requires forall i | 0 <= i < |s| :: s[i] as int < 256
    ensures |v| == |s| && forall i | 0 <= i < |s| :: v[i] == s[i] as int
  {
    seq(|s|, i requires 0 <= i < |s| => s[i] as int)
  }

  /** An empty text is named `task`. */
  function Named(v: Utf8): Utf8 { if v == [] then [116, 97, 115, 107] else v }

  lemma NamedIsTask()
    ensures Encode([116, 97, 115, 107]) == "task"
  {
    assert Encode([107]) == "k";
    assert [115, 107][1..] == [107];
    assert Encode([115, 107]) == "sk";
    assert [97, 115, 107][1..] == [115, 107];
    assert Encode([97, 115, 107]) == "ask";
    assert [116, 97, 115, 107][1..] == [97, 115, 107];
  }

  /** Two texts have one segment exactly if they are equal, an empty one reading as `task`. */
  lemma SegmentTells(v: Utf8, w: Utf8)
    ensures Segment(v) != "" && NoColon(Segment(v))
    ensures Segment(v) == Segment(w) <==> Named(v) == Named(w)
  {
    NamedIsTask();
    EncodeInverts(v);
    EncodeInverts(w);
    EncodeInverts(Named(v));
    EncodeInverts(Named(w));
    hide Encode, Decode;
    assert Segment(v) == Encode(Named(v)) && Segment(w) == Encode(Named(w));
  }

  // ----- splitting at the last separator -----

  predicate EndsWith(s: string, t: string) { |t| <= |s| && s[|s| - |t|..] == t }

  /** `rsplit_once`. */
  function SplitLast(s: string, sep: string): Option<(string, string)> {
    if |s| < |sep| || s == "" then None
    else if EndsWith(s, sep) then Some((s[..|s| - |sep|], ""))
    else
      var r := SplitLast(s[..|s| - 1], sep);
      if r.None? then None else Some((r.value.0, r.value.1 + [s[|s| - 1]]))
  }

  /** Both sides of a split, and nothing between. */
  lemma {:induction false} SplitLastJoins(s: string, sep: string)
    requires SplitLast(s, sep).Some?
    ensures var (a, b) := SplitLast(s, sep).value; s == a + sep + b
  {
    if !EndsWith(s, sep) {
      SplitLastJoins(s[..|s| - 1], sep);
    }
  }

  predicate IsSeparator(sep: string) {
    |sep| >= 2 && sep[0] == ':' && sep[1] == ':' && NoColon(sep[2..])
  }

  lemma NotLater(a: string, sep: string, b: string)
    requires IsSeparator(sep) && NoColon(b) && b != ""
    ensures !EndsWith(a + sep + b, sep)
  {
    var s := a + sep + b;
    var p := |s| - |sep|;
    assert s[|a| + 1] == ':';
    assert forall i | |a| + 2 <= i < |s| :: s[i] != ':' by {
      forall i | |a| + 2 <= i < |s| ensures s[i] != ':' {
        if i < |a| + |sep| {
          assert s[i] == sep[2..][i - |a| - 2];
        } else {
          assert s[i] == b[i - |a| - |sep|];
        }
      }
    }
    assert p >= |a| + 1;
    assert s[p..][1] == s[p + 1] != ':';
  }

  /** A separator whose right side holds no colon is the last one. */
  lemma {:induction false} SplitLastAt(a: string, sep: string, b: string)
    requires IsSeparator(sep) && NoColon(b)
    ensures SplitLast(a + sep + b, sep) == Some((a, b))
  {
    var s := a + sep + b;
    if b == "" {
      assert s == a + sep && s[|a|..] == sep && s[..|a|] == a;
    } else {
      NotLater(a, sep, b);
      var init := b[..|b| - 1];
      assert s[..|s| - 1] == a + sep + init;
      SplitLastAt(a, sep, init);
      assert init + [s[|s| - 1]] == b;
    }
  }

  // ----- identities -----

  function VisitId(task: Utf8, state: Utf8, target: Utf8, visit: nat): string {
    Segment(task) + "::" + Segment(state) + "::" + Segment(target) + "::visit-" + Decimal(visit)
  }

  function AttemptId(task: Utf8, state: Utf8, target: Utf8, visit: nat, run: Utf8, moves: nat, attempt: nat): string {
    VisitId(task, state, target, visit) + "::run-" + Segment(run)
    + "::move-" + Decimal(moves) + "::attempt-" + Decimal(attempt)
  }

  /** Parsing an unsigned 64-bit number: digits, possibly after a plus sign, that fit. */
  function ParseU64(s: string): Option<nat> {
    ParseDigits(if s != "" && s[0] == '+' then s[1..] else s)
  }

  function ParseDigits(digits: string): Option<nat> {
    if digits != "" && (forall i | 0 <= i < |digits| :: IsDigit(digits[i])) && 0 <= DecimalValue(digits) <= U64_MAX
    then Some(DecimalValue(digits)) else None
  }

  /** The run, move and attempt of an id; of an older id, nothing. */
  function AttemptParts(id: string): Option<(string, nat, nat)> {
    var byAttempt := SplitLast(id, "::attempt-");
    if byAttempt.None? then None
    else
      var byMove := SplitLast(byAttempt.value.0, "::move-");
      if byMove.None? then None
      else
        var byRun := SplitLast(byMove.value.0, "::run-");
        if byRun.None? || byRun.value.1 == "" then None
        else
          var moves, attempt := ParseU64(byMove.value.1), ParseU64(byAttempt.value.1);
          if moves.None? || attempt.None? then None
          else Some((byRun.value.1, moves.value, attempt.value))
  }

  lemma ParseDecimal(n: nat)
    requires n <= U64_MAX
    ensures ParseU64(Decimal(n)) == Some(n)
  {
    DecimalInverts(n);
    assert IsDigit(Decimal(n)[0]);
  }

  lemma NumbersHaveNoColon(n: nat)
    ensures NoColon(Decimal(n))
  {}

  lemma SeparatorsAre()
    ensures IsSeparator("::attempt-") && IsSeparator("::move-") && IsSeparator("::run-")
    ensures IsSeparator("::visit-") && IsSeparator("::")
  {}

  lemma AttemptIdSplits(task: Utf8, state: Utf8, target: Utf8, visit: nat, run: Utf8, moves: nat, attempt: nat)
    ensures var id := AttemptId(task, state, target, visit, run, moves, attempt);
            var base := VisitId(task, state, target, visit);
            && SplitLast(id, "::attempt-")
               == Some((base + "::run-" + Segment(run) + "::move-" + Decimal(moves), Decimal(attempt)))
            && SplitLast(base + "::run-" + Segment(run) + "::move-" + Decimal(moves), "::move-")
               == Some((base + "::run-" + Segment(run), Decimal(moves)))
            && SplitLast(base + "::run-" + Segment(run), "::run-") == Some((base, Segment(run)))
  {
    hide SplitLast, Decimal, Segment, NoColon, VisitId;
    SeparatorsAre();
    hide IsSeparator;
    NumbersHaveNoColon(attempt);
    NumbersHaveNoColon(moves);
    SegmentTells(run, run);
    var base := VisitId(task, state, target, visit);
    SplitLastAt(base + "::run-" + Segment(run) + "::move-" + Decimal(moves), "::attempt-", Decimal(attempt));
    SplitLastAt(base + "::run-" + Segment(run), "::move-", Decimal(moves));
    SplitLastAt(base, "::run-", Segment(run));
  }

  /** Parsing undoes printing: an attempt's id gives back its encoded run, its move and its attempt,
      whatever text the other parts hold. */
  lemma PartsOfAttemptId(task: Utf8, state: Utf8, target: Utf8, visit: nat, run: Utf8, moves: nat, attempt: nat)
    requires moves <= U64_MAX && attempt <= U64_MAX
    ensures AttemptParts(AttemptId(task, state, target, visit, run, moves, attempt))
            == Some((Segment(run), moves, attempt))
  {
    hide SplitLast, Decimal, Segment, ParseU64, VisitId, AttemptId;
    AttemptIdSplits(task, state, target, visit, run, moves, attempt);
    ParseDecimal(moves);
    ParseDecimal(attempt);
    SegmentTells(run, run);
  }

  /** A number as the parser takes it: digits, after a plus sign or not, that say it and fit 64 bits. */
  predicate Spells(s: string, n: nat) {
    SaysNumber(s, n) || ("+" <= s && SaysNumber(s[1..], n))
  }

  predicate SaysNumber(digits: string, n: nat) {
    && digits != "" && (forall i | 0 <= i < |digits| :: '0' <= digits[i] <= '9')
    && DecimalValue(digits) == n && n < 0x1_0000_0000_0000_0000
  }

  lemma ParseMeans(s: string, n: nat)
    ensures ParseU64(s) == Some(n) <==> Spells(s, n)
  {
    hide DecimalValue;
    if s != "" && s[0] == '+' {
      var digits := s[1..];
      assert "+" <= s && !SaysNumber(s, n);
      DigitsAre(digits, n);
    } else {
      assert !("+" <= s);
      DigitsAre(s, n);
    }
  }

  lemma DigitsAre(digits: string, n: nat)
    ensures SaysNumber(digits, n) <==>
              && digits != "" && (forall i | 0 <= i < |digits| :: IsDigit(digits[i]))
              && DecimalValue(digits) == n <= U64_MAX
  {
    hide DecimalValue;
  }

  lemma SpelledHasNoColon(s: string, n: nat)
    requires Spells(s, n)
    ensures NoColon(s)
  {}

  predicate IsAttemptOf(id: string, base: string, run: string, move: string, attempt: string) {
    id == base + "::run-" + run + "::move-" + move + "::attempt-" + attempt
  }

  /** Parsing reads an id as an attempt of a run without colons, with its numbers, exactly if the id ends in
      just such a run, move and attempt. */
  lemma PartsMean(id: string, run: string, moves: nat, attempt: nat)
    requires NoColon(run)
    ensures AttemptParts(id) == Some((run, moves, attempt)) <==>
              run != "" && exists base, m, a :: IsAttemptOf(id, base, run, m, a) && Spells(m, moves) && Spells(a, attempt)
  {
    hide SplitLast, ParseU64, Spells, NoColon;
    if AttemptParts(id) == Some((run, moves, attempt)) {
      var base, m, a := PartsTakenApart(id);
      ParseMeans(m, moves);
      ParseMeans(a, attempt);
    }
    if base, m, a :| run != "" && IsAttemptOf(id, base, run, m, a) && Spells(m, moves) && Spells(a, attempt) {
      PartsPutTogether(id, base, run, m, a, moves, attempt);
    }
  }

  lemma PartsTakenApart(id: string) returns (base: string, m: string, a: string)
    requires AttemptParts(id).Some?
    ensures var (run, moves, attempt) := AttemptParts(id).value;
            run != "" && IsAttemptOf(id, base, run, m, a) && ParseU64(m) == Some(moves) && ParseU64(a) == Some(attempt)
  {
    hide SplitLast, ParseU64;
    SplitLastJoins(id, "::attempt-");
    var byAttempt := SplitLast(id, "::attempt-").value;
    SplitLastJoins(byAttempt.0, "::move-");
    var byMove := SplitLast(byAttempt.0, "::move-").value;
    SplitLastJoins(byMove.0, "::run-");
    base, m, a := SplitLast(byMove.0, "::run-").value.0, byMove.1, byAttempt.1;
  }

  lemma PartsPutTogether(id: string, base: string, run: string, m: string, a: string, moves: nat, attempt: nat)
    requires NoColon(run) && run != "" && IsAttemptOf(id, base, run, m, a) && Spells(m, moves) && Spells(a, attempt)
    ensures AttemptParts(id) == Some((run, moves, attempt))
  {
    hide SplitLast, ParseU64, Spells, NoColon;
    SeparatorsAre();
    hide IsSeparator;
    SpelledHasNoColon(m, moves);
    SpelledHasNoColon(a, attempt);
    ParseMeans(m, moves);
    ParseMeans(a, attempt);
    SplitLastAt(base + "::run-" + run + "::move-" + m, "::attempt-", a);
    SplitLastAt(base + "::run-" + run, "::move-", m);
    SplitLastAt(base, "::run-", run);
  }

  // ----- older ids -----

  function Colons(s: string): nat {
    if s == "" then 0 else Colons(s[1..]) + if s[0] == ':' then 1 else 0
  }

  lemma {:induction false} ColonsAdd(a: string, b: string)
    ensures Colons(a + b) == Colons(a) + Colons(b)
  {
    if a == "" {
      assert a + b == b;
    } else {
      assert (a + b)[1..] == a[1..] + b;
      ColonsAdd(a[1..], b);
    }
  }

  lemma {:induction false} NoColons(s: string)
    ensures Colons(s) == 0 <==> NoColon(s)
  {
    if s != "" {
      NoColons(s[1..]);
      assert s == [s[0]] + s[1..];
    }
  }

  lemma SplitTakesColons(s: string, sep: string)
    requires IsSeparator(sep) && SplitLast(s, sep).Some?
    ensures Colons(SplitLast(s, sep).value.0) + 2 + Colons(SplitLast(s, sep).value.1) == Colons(s)
  {
    var (a, b) := SplitLast(s, sep).value;
    SplitLastJoins(s, sep);
    ColonsAdd(a + sep, b);
    ColonsAdd(a, sep);
    assert sep == "::" + sep[2..];
    ColonsAdd("::", sep[2..]);
    NoColons(sep[2..]);
    assert Colons("::") == 2 by { assert "::"[1..] == ":"; assert ":"[1..] == ""; }
  }

  lemma ColonsOfVisitId(task: Utf8, state: Utf8, target: Utf8, visit: nat)
    ensures Colons(VisitId(task, state, target, visit)) == 6
  {
    hide Segment, NoColon, Decimal;
    assert Colons("::") == 2 by { assert "::"[1..] == ":"; assert ":"[1..] == ""; }
    assert Colons("::visit-") == 2 by {
      assert "::visit-" == "::" + "visit-";
      ColonsAdd("::", "visit-");
      NoColons("visit-");
      assert NoColon("visit-") by { VisitHasNoColon(); }
    }
    hide Colons;
    SegmentTells(task, state);
    SegmentTells(state, target);
    SegmentTells(target, task);
    NoColons(Segment(task));
    NoColons(Segment(state));
    NoColons(Segment(target));
    NumbersHaveNoColon(visit);
    NoColons(Decimal(visit));
    var a := Segment(task);
    ColonsAdd(a, "::");
    ColonsAdd(a + "::", Segment(state));
    ColonsAdd(a + "::" + Segment(state), "::");
    ColonsAdd(a + "::" + Segment(state) + "::", Segment(target));
    ColonsAdd(a + "::" + Segment(state) + "::" + Segment(target), "::visit-");
    ColonsAdd(a + "::" + Segment(state) + "::" + Segment(target) + "::visit-", Decimal(visit));
  }

  lemma VisitHasNoColon()
    ensures NoColon("visit-")
  {}

  /** After the last `::` of an older id comes its visit, so a split at an attempt leaves more behind. */
  lemma AttemptIsNotLast(base: string, visit: string, a: string, b: string)
    requires base + "::visit-" + visit == a + "::attempt-" + b
    requires NoColon(visit)
    ensures !NoColon(b)
  {
    var s := base + "::visit-" + visit;
    assert ("visit-" + visit)[0] == 'v' && ("attempt-" + b)[0] == 'a';
    if NoColon(b) {
      SeparatorsAre();
      var t := "::";
      assert s == base + t + ("visit-" + visit);
      assert s == a + t + ("attempt-" + b);
      assert NoColon("visit-" + visit) && NoColon("attempt-" + b);
      SplitLastAt(base, t, "visit-" + visit);
      SplitLastAt(a, t, "attempt-" + b);
    }
  }

  /** An id of a visit alone names no attempt, whatever text its task, state or target holds. */
  lemma VisitIdHasNoParts(task: Utf8, state: Utf8, target: Utf8, visit: nat)
    ensures AttemptParts(VisitId(task, state, target, visit)) == None
  {
    hide SplitLast, Decimal, Segment, NoColon, Colons, ParseU64;
    var id := VisitId(task, state, target, visit);
    ColonsOfVisitId(task, state, target, visit);
    SeparatorsAre();
    hide IsSeparator;
    var byAttempt := SplitLast(id, "::attempt-");
    if byAttempt.Some? {
      var (a, b) := byAttempt.value;
      SplitLastJoins(id, "::attempt-");
      SplitTakesColons(id, "::attempt-");
      NumbersHaveNoColon(visit);
      AttemptIsNotLast(Segment(task) + "::" + Segment(state) + "::" + Segment(target), Decimal(visit), a, b);
      NoColons(b);
      var byMove := SplitLast(a, "::move-");
      if byMove.Some? {
        SplitTakesColons(a, "::move-");
        if SplitLast(byMove.value.0, "::run-").Some? {
          SplitTakesColons(byMove.value.0, "::run-");
        }
      }
    }
  }

  // ----- ids tell attempts apart -----

  lemma VisitIdSplits(task: Utf8, state: Utf8, target: Utf8, visit: nat)
    ensures var t, s, g := Segment(task), Segment(state), Segment(target);
            && SplitLast(VisitId(task, state, target, visit), "::visit-") == Some((t + "::" + s + "::" + g, Decimal(visit)))
            && SplitLast(t + "::" + s + "::" + g, "::") == Some((t + "::" + s, g))
            && SplitLast(t + "::" + s, "::") == Some((t, s))
  {
    hide SplitLast, Decimal, Segment, NoColon;
    SeparatorsAre();
    hide IsSeparator;
    SegmentTells(state, target);
    SegmentTells(target, state);
    NumbersHaveNoColon(visit);
    var t, s, g := Segment(task), Segment(state), Segment(target);
    SplitLastAt(t + "::" + s + "::" + g, "::visit-", Decimal(visit));
    SplitLastAt(t + "::" + s, "::", g);
    SplitLastAt(t, "::", s);
  }

  /** Two attempts have one id exactly if every part of them is the same, an empty text reading as
      `task`; so over parts that are not empty an id tells its attempt. */
  lemma AttemptIdTells(task: Utf8, state: Utf8, target: Utf8, visit: nat, run: Utf8, moves: nat, attempt: nat,
                       task': Utf8, state': Utf8, target': Utf8, visit': nat, run': Utf8, moves': nat, attempt': nat)
    ensures AttemptId(task, state, target, visit, run, moves, attempt)
            == AttemptId(task', state', target', visit', run', moves', attempt')
            <==>
            && Named(task) == Named(task') && Named(state) == Named(state') && Named(target) == Named(target')
            && visit == visit' && Named(run) == Named(run') && moves == moves' && attempt == attempt'
  {
    hide SplitLast, Segment, Decimal, Named;
    SegmentTells(task, task');
    SegmentTells(state, state');
    SegmentTells(target, target');
    SegmentTells(run, run');
    if AttemptId(task, state, target, visit, run, moves, attempt)
       == AttemptId(task', state', target', visit', run', moves', attempt') {
      hide AttemptId, VisitId;
      AttemptIdSplits(task, state, target, visit, run, moves, attempt);
      AttemptIdSplits(task', state', target', visit', run', moves', attempt');
      VisitIdSplits(task, state, target, visit);
      VisitIdSplits(task', state', target', visit');
      DecimalInjective(attempt, attempt');
      DecimalInjective(moves, moves');
      DecimalInjective(visit, visit');
    }
  }
}
