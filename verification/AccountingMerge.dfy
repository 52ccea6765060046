/** Many accounting roots read as one set of records, each record counted once.

  `clock` is the timestamp parser; what a directory holds is given. */
module AccountingMerge {
  import opened Basics
  import opened AccountingIdentity

  /** `rest` stands for the fields that only equality looks at. */
  datatype Record = Record(id: string, runId: Option<string>, task: string, state: string, visit: nat,
                           targetSlug: Option<string>, started: string, ended: string, rest: string)

  type Clock = string -> Option<int>

  datatype Stored = Stored(path: string, record: Record)

  datatype Root = Root(shared: bool, records: seq<Stored>)

  /** What the union holds of a record: its file and the number of its root besides. */
  datatype Inspected = Inspected(path: string, record: Record, root: nat)

  /** A record refused because a different one has its id. */
  datatype Conflict = Conflict(path: string, id: string, readFrom: string)

  type Scope = Option<set<string>>

  // ----- two records with one id -----

  predicate IsAttemptScoped(id: string) { AttemptParts(id).Some? }

  predicate SameBaseFacts(a: Record, b: Record) {
    a.task == b.task && a.state == b.state && a.visit == b.visit && a.targetSlug == b.targetSlug
  }

  function Interval(clock: Clock, r: Record): Option<(int, int)> {
    var from, to := clock(r.started), clock(r.ended);
    if from.Some? && to.Some? && to.value >= from.value then Some((from.value, to.value)) else None
  }

  /** `distinct_legacy_attempts`. */
  predicate DistinctLegacy(clock: Clock, a: Record, b: Record) {
    SameBaseFacts(a, b) &&
    ((a.runId.Some? && b.runId.Some? && a.runId != b.runId)
     || (var x, y := Interval(clock, a), Interval(clock, b);
         x.Some? && y.Some? && (x.value.1 <= y.value.0 || y.value.1 <= x.value.0)))
  }

  /** Two different records may both be kept: their ids differ, or the id is an older one and the two
      are distinct attempts under it. */
  predicate Compatible(clock: Clock, a: Record, b: Record) {
    a.id != b.id || (!IsAttemptScoped(a.id) && DistinctLegacy(clock, a, b))
  }

  lemma CompatibleIsSymmetric(clock: Clock, a: Record, b: Record)
    ensures Compatible(clock, a, b) <==> Compatible(clock, b, a)
  {}

  // ----- one record -----

  /** Where an id is among the kept records, in order. */
  function Indexes(kept: seq<Inspected>, id: string): (s: seq<nat>)
    ensures forall k | 0 <= k < |s| :: s[k] < |kept|
  {
    if kept == [] then []
    else
      Indexes(kept[..|kept| - 1], id) + if kept[|kept| - 1].record.id == id then [|kept| - 1] else []
  }

  /** The first of some kept records that is not a distinct older attempt. */
  function FirstClash(clock: Clock, kept: seq<Inspected>, prior: seq<nat>, r: Record): (c: Option<nat>)
    requires forall k | 0 <= k < |prior| :: prior[k] < |kept|
    ensures c.Some? ==> c.value in prior && !DistinctLegacy(clock, kept[c.value].record, r)
    ensures c.None? ==> forall k | 0 <= k < |prior| :: DistinctLegacy(clock, kept[prior[k]].record, r)
  {
    if prior == [] then None
    else if !DistinctLegacy(clock, kept[prior[0]].record, r) then Some(prior[0])
    else FirstClash(clock, kept, prior[1..], r)
  }

  lemma {:induction false} FirstClashIsFirst(clock: Clock, kept: seq<Inspected>, prior: seq<nat>, r: Record)
    returns (at: nat)
    requires forall k | 0 <= k < |prior| :: prior[k] < |kept|
    requires FirstClash(clock, kept, prior, r).Some?
    ensures at < |prior| && FirstClash(clock, kept, prior, r) == Some(prior[at])
    ensures forall k | 0 <= k < at :: DistinctLegacy(clock, kept[prior[k]].record, r)
  {
    hide DistinctLegacy;
    at := 0;
    if DistinctLegacy(clock, kept[prior[0]].record, r) {
      var rest := FirstClashIsFirst(clock, kept, prior[1..], r);
      at := rest + 1;
    }
  }

  predicate IsCopy(kept: seq<Inspected>, prior: seq<nat>, r: Record)
    requires forall k | 0 <= k < |prior| :: prior[k] < |kept|
  {
    exists k | 0 <= k < |prior| :: kept[prior[k]].record == r
  }

  /** The kept record that refuses `r`. */
  function Clash(clock: Clock, kept: seq<Inspected>, prior: seq<nat>, r: Record): (c: Option<nat>)
    requires forall k | 0 <= k < |prior| :: prior[k] < |kept|
    ensures c.Some? ==> c.value in prior
  {
    if !IsAttemptScoped(r.id) then FirstClash(clock, kept, prior, r)
    else if prior == [] then None
    else Some(prior[0])
  }

  datatype Union = Union(kept: seq<Inspected>, conflicts: seq<Conflict>)

  datatype Fate = Kept | Copy | Refused(clash: nat)

  function FateOf(clock: Clock, kept: seq<Inspected>, r: Record): (f: Fate)
    ensures f.Refused? ==> f.clash < |kept|
  {
    var prior := Indexes(kept, r.id);
    if IsCopy(kept, prior, r) then Copy
    else
      var c := Clash(clock, kept, prior, r);
      if c.Some? then Refused(c.value) else Kept
  }

  function Add(clock: Clock, u: Union, x: Inspected): Union {
    match FateOf(clock, u.kept, x.record)
    case Kept => u.(kept := u.kept + [x])
    case Copy => u
    case Refused(at) => u.(conflicts := u.conflicts + [Conflict(x.path, x.record.id, u.kept[at].path)])
  }

  /** What reading some records in order gives. */
  function Merged(clock: Clock, xs: seq<Inspected>): Union {
    if xs == [] then Union([], []) else Add(clock, Merged(clock, xs[..|xs| - 1]), xs[|xs| - 1])
  }

  // ----- the roots -----

  /** The rhei a task belongs to: its name up to the first dot. */
  function Owner(task: string): (owner: string)
    ensures '.' !in owner && owner <= task && (task == owner || task[|owner|] == '.')
  {
    if task == "" || task[0] == '.' then "" else [task[0]] + Owner(task[1..])
  }

  predicate TaskInScope(scope: Scope, task: string) {
    scope.None? || Owner(task) in scope.value
  }

  predicate Wanted(scope: Scope, root: Root, s: Stored) {
    !root.shared || TaskInScope(scope, s.record.task)
  }

  function InRoot(scope: Scope, root: Root, records: seq<Stored>, index: nat): seq<Inspected> {
    if records == [] then []
    else
      var s := records[|records| - 1];
      InRoot(scope, root, records[..|records| - 1], index)
      + if Wanted(scope, root, s) then [Inspected(s.path, s.record, index)] else []
  }

  /** Every in-scope record of some roots, in reading order. */
  function InScope(scope: Scope, roots: seq<Root>): seq<Inspected> {
    if roots == [] then []
    else
      InScope(scope, roots[..|roots| - 1])
      + InRoot(scope, roots[|roots| - 1], roots[|roots| - 1].records, |roots| - 1)
  }

  /** How many kept records came from a root. */
  function CountOf(kept: seq<Inspected>, root: nat): nat {
    if kept == [] then 0
    else CountOf(kept[..|kept| - 1], root) + if kept[|kept| - 1].root == root then 1 else 0
  }

  function Sum(counts: seq<nat>): nat {
    if counts == [] then 0 else Sum(counts[..|counts| - 1]) + counts[|counts| - 1]
  }

  /** `seen` holds, for each id, where it is among the kept. */
  predicate Indexed(seen: map<string, seq<nat>>, kept: seq<Inspected>) {
    && (forall id | id in seen :: seen[id] == Indexes(kept, id))
    && (forall k | 0 <= k < |kept| :: kept[k].record.id in seen)
  }

  lemma {:induction false} IndexesRise(kept: seq<Inspected>, id: string)
    ensures forall i, j | 0 <= i < j < |Indexes(kept, id)| :: Indexes(kept, id)[i] < Indexes(kept, id)[j]
  {
    if kept != [] {
      IndexesRise(kept[..|kept| - 1], id);
    }
  }

  lemma {:induction false} IndexesAre(kept: seq<Inspected>, id: string)
    ensures forall k | 0 <= k < |kept| :: k in Indexes(kept, id) <==> kept[k].record.id == id
  {
    if kept != [] {
      IndexesAre(kept[..|kept| - 1], id);
      assert forall k | 0 <= k < |kept| - 1 :: kept[..|kept| - 1][k] == kept[k];
    }
  }

  lemma UnseenIsAbsent(seen: map<string, seq<nat>>, kept: seq<Inspected>, id: string)
    requires Indexed(seen, kept) && id !in seen
    ensures Indexes(kept, id) == []
  {
    AbsentHasNoIndexes(kept, id);
  }

  lemma {:induction false} AbsentHasNoIndexes(kept: seq<Inspected>, id: string)
    requires forall k | 0 <= k < |kept| :: kept[k].record.id != id
    ensures Indexes(kept, id) == []
  {
    if kept != [] {
      AbsentHasNoIndexes(kept[..|kept| - 1], id);
    }
  }

  lemma KeptOne(kept: seq<Inspected>, x: Inspected)
    ensures (kept + [x])[..|kept|] == kept
    ensures forall id :: Indexes(kept + [x], id) == Indexes(kept, id) + if x.record.id == id then [|kept|] else []
    ensures forall root :: CountOf(kept + [x], root) == CountOf(kept, root) + if x.root == root then 1 else 0
  {
    assert (kept + [x])[..|kept|] == kept;
  }

  lemma NoneYet(xs: seq<Inspected>, n: nat)
    requires forall k | 0 <= k < |xs| :: xs[k].root < n
    ensures CountOf(xs, n) == 0
  {
    if xs != [] {
      NoneYet(xs[..|xs| - 1], n);
    }
  }

  /** `read_cost_inspection_beside`'s union, and how many records each root gave to it. */
  method Merge(clock: Clock, scope: Scope, roots: seq<Root>)
    returns (kept: seq<Inspected>, conflicts: seq<Conflict>, counts: seq<nat>)
    ensures Union(kept, conflicts) == Merged(clock, InScope(scope, roots))
    ensures |counts| == |roots| && Sum(counts) == |kept|
    ensures forall i | 0 <= i < |roots| :: counts[i] == CountOf(kept, i)
    ensures forall k | 0 <= k < |kept| :: kept[k].root < |roots|
  {
    hide Merged, InRoot, Indexes;
    kept, conflicts, counts := [], [], [];
    var seen: map<string, seq<nat>> := map[];
    NothingMerged(clock, scope);
    assert roots[..0] == [];
    for i := 0 to |roots|
      invariant Union(kept, conflicts) == Merged(clock, InScope(scope, roots[..i]))
      invariant Indexed(seen, kept)
      invariant |counts| == i && Sum(counts) == |kept|
      invariant forall r | 0 <= r < i :: counts[r] == CountOf(kept, r)
      invariant forall k | 0 <= k < |kept| :: kept[k].root < i
    {
      var count;
      kept, conflicts, seen, count :=
        MergeRoot(clock, scope, roots[i], i, InScope(scope, roots[..i]), kept, conflicts, seen);
      assert roots[..i + 1][..i] == roots[..i];
      assert (counts + [count])[..i] == counts;
      counts := counts + [count];
    }
    assert roots[..|roots|] == roots;
  }

  lemma NothingMerged(clock: Clock, scope: Scope)
    ensures Merged(clock, InScope(scope, [])) == Union([], [])
  {}

  /** One root's records, after those `before`. */
  method MergeRoot(clock: Clock, scope: Scope, root: Root, index: nat, ghost before: seq<Inspected>,
                   kept0: seq<Inspected>, conflicts0: seq<Conflict>, seen0: map<string, seq<nat>>)
    returns (kept: seq<Inspected>, conflicts: seq<Conflict>, seen: map<string, seq<nat>>, count: nat)
    requires Union(kept0, conflicts0) == Merged(clock, before) && Indexed(seen0, kept0)
    requires forall k | 0 <= k < |kept0| :: kept0[k].root < index
    ensures Union(kept, conflicts) == Merged(clock, before + InRoot(scope, root, root.records, index))
    ensures Indexed(seen, kept)
    ensures |kept| == |kept0| + count && count == CountOf(kept, index)
    ensures forall r | 0 <= r < index :: CountOf(kept, r) == CountOf(kept0, r)
    ensures forall k | 0 <= k < |kept| :: kept[k].root <= index
  {
    hide FateOf, Clash, IsCopy, Merged, Indexes, CountOf, Indexed, Wanted;
    kept, conflicts, seen, count := kept0, conflicts0, seen0, 0;
    NoneYet(kept, index);
    assert before + InRoot(scope, root, root.records[..0], index) == before;
    for j := 0 to |root.records|
      invariant Union(kept, conflicts) == Merged(clock, before + InRoot(scope, root, root.records[..j], index))
      invariant Indexed(seen, kept)
      invariant |kept| == |kept0| + count && count == CountOf(kept, index)
      invariant forall r | 0 <= r < index :: CountOf(kept, r) == CountOf(kept0, r)
      invariant forall k | 0 <= k < |kept| :: kept[k].root <= index
    {
      var stored := root.records[j];
      NextInRoot(scope, root, j, index);
      hide InRoot;
      if Wanted(scope, root, stored) {
        var x := Inspected(stored.path, stored.record, index);
        MergedOne(clock, before, InRoot(scope, root, root.records[..j], index), x);
        var fate := FateFrom(clock, seen, kept, x.record);
        match fate {
          case Copy =>
          case Refused(at) =>
            conflicts := conflicts + [Conflict(x.path, x.record.id, kept[at].path)];
          case Kept =>
            KeptOne(kept, x);
            SeenOne(seen, kept, x);
            var id := x.record.id;
            seen := seen[id := (if id in seen then seen[id] else []) + [|kept|]];
            kept := kept + [x];
            count := count + 1;
        }
      }
    }
    assert root.records[..|root.records|] == root.records;
  }

  lemma NextInRoot(scope: Scope, root: Root, j: nat, i: nat)
    requires j < |root.records|
    ensures var (next, upTo, s) := (InRoot(scope, root, root.records[..j + 1], i), InRoot(scope, root, root.records[..j], i),
                                    root.records[j]);
            && (Wanted(scope, root, s) ==> next == upTo + [Inspected(s.path, s.record, i)])
            && (!Wanted(scope, root, s) ==> next == upTo)
  {
    assert root.records[..j + 1][..j] == root.records[..j];
  }

  lemma MergedOne(clock: Clock, before: seq<Inspected>, upTo: seq<Inspected>, x: Inspected)
    ensures Merged(clock, before + (upTo + [x])) == Add(clock, Merged(clock, before + upTo), x)
  {
    hide Add;
    var all := before + (upTo + [x]);
    assert all[..|all| - 1] == before + upTo;
  }

  lemma SeenOne(seen: map<string, seq<nat>>, kept: seq<Inspected>, x: Inspected)
    requires Indexed(seen, kept)
    ensures var id := x.record.id;
            Indexed(seen[id := (if id in seen then seen[id] else []) + [|kept|]], kept + [x])
  {
    hide Indexes;
    var id := x.record.id;
    KeptOne(kept, x);
    if id !in seen {
      UnseenIsAbsent(seen, kept, id);
    }
  }

  /** The lookups by id: what becomes of a record. */
  method FateFrom(clock: Clock, seen: map<string, seq<nat>>, kept: seq<Inspected>, r: Record) returns (fate: Fate)
    requires Indexed(seen, kept)
    ensures fate == FateOf(clock, kept, r)
  {
    fate := Kept;
    if r.id in seen {
      var prior := seen[r.id];
      if IsCopy(kept, prior, r) {
        return Copy;
      }
      var first := Clash(clock, kept, prior, r);
      if first.Some? {
        return Refused(first.value);
      }
    } else {
      UnseenIsAbsent(seen, kept, r.id);
    }
  }

  // ----- what the union is -----

  /** A record is a copy exactly if it is kept already, and kept exactly if it is new and agrees with
      every kept record. */
  lemma FateMeans(clock: Clock, kept: seq<Inspected>, r: Record)
    ensures var f := FateOf(clock, kept, r);
            && (f == Copy <==> exists k | 0 <= k < |kept| :: kept[k].record == r)
            && (f == Kept <==> forall k | 0 <= k < |kept| :: kept[k].record != r && Compatible(clock, kept[k].record, r))
            && (f.Refused? ==> kept[f.clash].record.id == r.id && kept[f.clash].record != r
                               && !Compatible(clock, kept[f.clash].record, r))
            && (f.Refused? ==> forall k | 0 <= k < f.clash :: Compatible(clock, kept[k].record, r))
  {
    hide Indexes, DistinctLegacy, IsAttemptScoped, FirstClash;
    var prior := Indexes(kept, r.id);
    IndexesAre(kept, r.id);
    assert forall k | 0 <= k < |prior| :: prior[k] in prior;
    assert forall k | 0 <= k < |kept| && kept[k].record == r :: k in prior;
    if FateOf(clock, kept, r).Refused? {
      RefusedByTheFirst(clock, kept, r);
    }
  }

  lemma RefusedByTheFirst(clock: Clock, kept: seq<Inspected>, r: Record)
    requires FateOf(clock, kept, r).Refused?
    ensures forall k | 0 <= k < FateOf(clock, kept, r).clash :: Compatible(clock, kept[k].record, r)
  {
    hide Indexes, DistinctLegacy, IsAttemptScoped, FirstClash;
    var prior := Indexes(kept, r.id);
    var at := 0;
    if !IsAttemptScoped(r.id) {
      at := FirstClashIsFirst(clock, kept, prior, r);
    }
    assert FateOf(clock, kept, r) == Refused(prior[at]);
    forall k | 0 <= k < prior[at]
      ensures Compatible(clock, kept[k].record, r)
    {
      if kept[k].record.id == r.id {
        IndexesAre(kept, r.id);
        IndexesRise(kept, r.id);
        var i :| 0 <= i < |prior| && prior[i] == k;
        assert i < at;
      }
    }
  }

  predicate IsKept(kept: seq<Inspected>, r: Record) {
    exists k | 0 <= k < |kept| :: kept[k].record == r
  }

  /** The kept are all different, and agree with one another. */
  predicate KeptAgree(clock: Clock, kept: seq<Inspected>) {
    forall k, l | 0 <= k < l < |kept| ::
      kept[k].record != kept[l].record && Compatible(clock, kept[k].record, kept[l].record)
  }

  lemma {:induction false} MergedAgree(clock: Clock, xs: seq<Inspected>)
    ensures KeptAgree(clock, Merged(clock, xs).kept)
  {
    if xs != [] {
      hide FateOf, Compatible;
      var before, x := Merged(clock, xs[..|xs| - 1]), xs[|xs| - 1];
      MergedAgree(clock, xs[..|xs| - 1]);
      FateMeans(clock, before.kept, x.record);
    }
  }

  /** What became of each record. */
  function Fates(clock: Clock, xs: seq<Inspected>): (fs: seq<Fate>)
    ensures |fs| == |xs|
  {
    if xs == [] then []
    else
      var before := xs[..|xs| - 1];
      Fates(clock, before) + [FateOf(clock, Merged(clock, before).kept, xs[|xs| - 1].record)]
  }

  function Copies(fates: seq<Fate>): nat {
    if fates == [] then 0 else Copies(fates[..|fates| - 1]) + if fates[|fates| - 1].Copy? then 1 else 0
  }

  /** What the union says of a record with a fate. */
  predicate Accounted(clock: Clock, u: Union, x: Inspected, f: Fate) {
    match f
    case Kept => x in u.kept
    case Copy => IsKept(u.kept, x.record)
    case Refused(at) =>
      && at < |u.kept| && u.kept[at].record.id == x.record.id
      && u.kept[at].record != x.record && !Compatible(clock, u.kept[at].record, x.record)
      && Conflict(x.path, x.record.id, u.kept[at].path) in u.conflicts
  }

  lemma AccountedStays(clock: Clock, u: Union, v: Union, x: Inspected, f: Fate)
    requires Accounted(clock, u, x, f) && u.kept <= v.kept && u.conflicts <= v.conflicts
    ensures Accounted(clock, v, x, f)
  {
    hide Compatible;
    if f.Copy? {
      var k :| 0 <= k < |u.kept| && u.kept[k].record == x.record;
      assert v.kept[k].record == x.record;
    }
  }

  lemma AddAccounts(clock: Clock, u: Union, x: Inspected)
    ensures var v, f := Add(clock, u, x), FateOf(clock, u.kept, x.record);
            && Accounted(clock, v, x, f) && u.kept <= v.kept && u.conflicts <= v.conflicts
            && |v.kept| + |v.conflicts| + (if f.Copy? then 1 else 0) == |u.kept| + |u.conflicts| + 1
  {
    FateMeans(clock, u.kept, x.record);
    hide FateOf, Compatible;
    var v := Add(clock, u, x);
    assert v.kept == u.kept || (v.kept == u.kept + [x] && v.kept[|u.kept|] == x);
    assert v.conflicts == u.conflicts || v.conflicts[..|u.conflicts|] == u.conflicts;
    var f := FateOf(clock, u.kept, x.record);
    if f.Refused? {
      assert v.conflicts[|u.conflicts|] == Conflict(x.path, x.record.id, u.kept[f.clash].path);
    }
  }

  /** Reading conserves records: each is kept, or equals a kept one, or is named in a conflict with a
      kept one it cannot share its id with; and the three add up. */
  lemma {:induction false} RecordsAreConserved(clock: Clock, xs: seq<Inspected>)
    ensures var u, fates := Merged(clock, xs), Fates(clock, xs);
            && (forall p | 0 <= p < |xs| :: Accounted(clock, u, xs[p], fates[p]))
            && |u.kept| + |u.conflicts| + Copies(fates) == |xs|
  {
    if xs != [] {
      hide FateOf, Compatible, Add, Accounted;
      var before, x := xs[..|xs| - 1], xs[|xs| - 1];
      RecordsAreConserved(clock, before);
      var u := Merged(clock, before);
      AddAccounts(clock, u, x);
      var v, fates := Merged(clock, xs), Fates(clock, xs);
      assert fates[..|xs| - 1] == Fates(clock, before);
      forall p | 0 <= p < |xs| ensures Accounted(clock, v, xs[p], fates[p]) {
        if p < |xs| - 1 {
          assert xs[p] == before[p] && fates[p] == Fates(clock, before)[p];
          AccountedStays(clock, u, v, xs[p], fates[p]);
        }
      }
    }
  }

  /** No record has two fates: one that was refused equals nothing that is kept, before it or after. */
  lemma RefusedIsNotKept(clock: Clock, xs: seq<Inspected>, p: nat)
    requires p < |xs|
    ensures Fates(clock, xs)[p].Refused? <==> !IsKept(Merged(clock, xs).kept, xs[p].record)
  {
    RecordsAreConserved(clock, xs);
    MergedAgree(clock, xs);
    hide Fates, Merged, Compatible, KeptAgree;
    var kept, r, f := Merged(clock, xs).kept, xs[p].record, Fates(clock, xs)[p];
    assert Accounted(clock, Merged(clock, xs), xs[p], f);
    if f.Refused? {
      ClashIsNotKept(clock, kept, f.clash, r);
    }
  }

  lemma ClashIsNotKept(clock: Clock, kept: seq<Inspected>, at: nat, r: Record)
    requires KeptAgree(clock, kept) && at < |kept|
    requires kept[at].record != r && !Compatible(clock, kept[at].record, r)
    ensures !IsKept(kept, r)
  {
    hide Compatible;
    forall k | 0 <= k < |kept| ensures kept[k].record != r {
      CompatibleIsSymmetric(clock, kept[k].record, kept[at].record);
    }
  }

  // ----- order -----

  function Records(xs: seq<Inspected>): set<Record> { set k | 0 <= k < |xs| :: xs[k].record }

  /** Every two records are equal or can share a union. */
  predicate AllAgree(clock: Clock, xs: seq<Inspected>) {
    forall p, q | 0 <= p < |xs| && 0 <= q < |xs| ::
      xs[p].record == xs[q].record || Compatible(clock, xs[p].record, xs[q].record)
  }

  predicate AgreesWith(clock: Clock, xs: seq<Inspected>, r: Record) {
    forall p | 0 <= p < |xs| :: xs[p].record == r || Compatible(clock, xs[p].record, r)
  }

  lemma AgreeWithNext(clock: Clock, before: seq<Inspected>, x: Inspected)
    ensures AllAgree(clock, before + [x]) <==> AllAgree(clock, before) && AgreesWith(clock, before, x.record)
    ensures Records(before + [x]) == Records(before) + {x.record}
  {
    hide Compatible;
    var xs := before + [x];
    assert forall p | 0 <= p < |before| :: xs[p] == before[p];
    assert xs[|before|] == x;
    if AllAgree(clock, before) && AgreesWith(clock, before, x.record) {
      forall p, q | 0 <= p < |xs| && 0 <= q < |xs|
        ensures xs[p].record == xs[q].record || Compatible(clock, xs[p].record, xs[q].record)
      {
        CompatibleIsSymmetric(clock, xs[p].record, xs[q].record);
      }
    }
  }

  /** There is no conflict exactly if all the records agree, and then just they are kept, each once. */
  lemma {:induction false} NoConflictMeans(clock: Clock, xs: seq<Inspected>)
    ensures Merged(clock, xs).conflicts == [] <==> AllAgree(clock, xs)
    ensures AllAgree(clock, xs) ==> Records(Merged(clock, xs).kept) == Records(xs)
  {
    hide *;
    if xs == [] {
      NoRecordsAgree(clock, xs);
    } else {
      var before, x := xs[..|xs| - 1], xs[|xs| - 1];
      NoConflictMeans(clock, before);
      assert before + [x] == xs;
      OneMoreAgrees(clock, before, x);
    }
  }

  lemma NoRecordsAgree(clock: Clock, xs: seq<Inspected>)
    requires xs == []
    ensures Merged(clock, xs) == Union([], []) && AllAgree(clock, xs) && Records(xs) == Records([])
  {
    hide FateOf, Compatible;
  }

  lemma OneMoreAgrees(clock: Clock, before: seq<Inspected>, x: Inspected)
    requires Merged(clock, before).conflicts == [] <==> AllAgree(clock, before)
    requires AllAgree(clock, before) ==> Records(Merged(clock, before).kept) == Records(before)
    ensures Merged(clock, before + [x]).conflicts == [] <==> AllAgree(clock, before + [x])
    ensures AllAgree(clock, before + [x]) ==> Records(Merged(clock, before + [x]).kept) == Records(before + [x])
  {
    hide *;
    MergedNext(clock, before, x);
    AgreeWithNext(clock, before, x);
    if AllAgree(clock, before) {
      MergedAgree(clock, before);
      AgreeingIsKept(clock, Merged(clock, before).kept, before, x);
    }
  }

  lemma MergedNext(clock: Clock, before: seq<Inspected>, x: Inspected)
    ensures var u, v := Merged(clock, before), Merged(clock, before + [x]);
            var f := FateOf(clock, u.kept, x.record);
            && (v.conflicts == [] <==> u.conflicts == [] && !f.Refused?)
            && v.kept == if f.Kept? then u.kept + [x] else u.kept
  {
    hide FateOf;
    assert (before + [x])[..|before|] == before;
  }

  lemma AgreeingIsKept(clock: Clock, kept: seq<Inspected>, before: seq<Inspected>, x: Inspected)
    requires Records(kept) == Records(before) && KeptAgree(clock, kept)
    ensures !FateOf(clock, kept, x.record).Refused? <==> AgreesWith(clock, before, x.record)
    ensures FateOf(clock, kept, x.record).Copy? ==> x.record in Records(kept)
    ensures Records(kept + [x]) == Records(kept) + {x.record}
  {
    FateMeans(clock, kept, x.record);
    hide FateOf, Compatible;
    AgreeWithNext(clock, kept, x);
    var f := FateOf(clock, kept, x.record);
    forall p | 0 <= p < |before| && !f.Refused?
      ensures before[p].record == x.record || Compatible(clock, before[p].record, x.record)
    {
      assert before[p].record in Records(before);
      var k :| 0 <= k < |kept| && kept[k].record == before[p].record;
      if f.Copy? {
        var l :| 0 <= l < |kept| && kept[l].record == x.record;
        CompatibleIsSymmetric(clock, kept[k].record, kept[l].record);
      }
    }
    if f.Refused? {
      assert kept[f.clash].record in Records(kept);
      var p :| 0 <= p < |before| && before[p].record == kept[f.clash].record;
    }
  }

  /** A root's records, or some roots', hold an in-scope record. */
  predicate RootHolds(scope: Scope, root: Root, records: seq<Stored>, r: Record) {
    exists j | 0 <= j < |records| ::
      records[j].record == r && (root.shared && scope.Some? ==> Owner(r.task) in scope.value)
  }

  predicate Holds(scope: Scope, roots: seq<Root>, r: Record) {
    exists i | 0 <= i < |roots| :: RootHolds(scope, roots[i], roots[i].records, r)
  }

  lemma {:induction false} InRootHolds(scope: Scope, root: Root, records: seq<Stored>, index: nat, r: Record)
    ensures r in Records(InRoot(scope, root, records, index)) <==> RootHolds(scope, root, records, r)
  {
    if records != [] {
      hide Wanted;
      var before, s := records[..|records| - 1], records[|records| - 1];
      InRootHolds(scope, root, before, index, r);
      assert before + [s] == records;
      assert forall j | 0 <= j < |before| :: before[j] == records[j];
      assert RootHolds(scope, root, records, r) <==>
               RootHolds(scope, root, before, r) || (Wanted(scope, root, s) && s.record == r) by {
        assert records[|before|] == s;
      }
      if Wanted(scope, root, s) {
        var one := [Inspected(s.path, s.record, index)];
        RecordsAdd(InRoot(scope, root, before, index), one);
        assert one[0].record in Records(one);
      } else {
        assert InRoot(scope, root, records, index) == InRoot(scope, root, before, index);
      }
    }
  }

  lemma RecordsAdd(a: seq<Inspected>, b: seq<Inspected>)
    ensures Records(a + b) == Records(a) + Records(b)
  {
    assert forall k | 0 <= k < |a| :: (a + b)[k] == a[k];
    assert forall k | 0 <= k < |b| :: (a + b)[|a| + k] == b[k];
  }

  lemma {:induction false} InScopeHolds(scope: Scope, roots: seq<Root>, r: Record)
    ensures r in Records(InScope(scope, roots)) <==> Holds(scope, roots, r)
  {
    if roots != [] {
      hide Records, InRoot, RootHolds;
      var before, root := roots[..|roots| - 1], roots[|roots| - 1];
      InScopeHolds(scope, before, r);
      InRootHolds(scope, root, root.records, |before|, r);
      RecordsAdd(InScope(scope, before), InRoot(scope, root, root.records, |before|));
      assert forall i | 0 <= i < |before| :: before[i] == roots[i];
      assert InScope(scope, roots) == InScope(scope, before) + InRoot(scope, root, root.records, |before|);
    } else {
      assert InScope(scope, roots) == [] && Records([]) == {};
    }
  }

  lemma SameRecordsAgree(clock: Clock, xs: seq<Inspected>, ys: seq<Inspected>)
    requires Records(xs) == Records(ys) && AllAgree(clock, xs)
    ensures AllAgree(clock, ys)
  {
    hide Compatible;
    forall p, q | 0 <= p < |ys| && 0 <= q < |ys|
      ensures ys[p].record == ys[q].record || Compatible(clock, ys[p].record, ys[q].record)
    {
      assert ys[p].record in Records(xs) && ys[q].record in Records(xs);
      var k :| 0 <= k < |xs| && xs[k].record == ys[p].record;
      var l :| 0 <= l < |xs| && xs[l].record == ys[q].record;
    }
  }

  /** Two readings of the same in-scope records, in whatever order of roots and records and however often
      a root is read, agree on whether there is a conflict; and when there is none they keep the same
      records. */
  lemma OrderDoesNotMatter(clock: Clock, scope: Scope, roots: seq<Root>, others: seq<Root>)
    requires forall r :: Holds(scope, roots, r) <==> Holds(scope, others, r)
    ensures var u, v := Merged(clock, InScope(scope, roots)), Merged(clock, InScope(scope, others));
            && (u.conflicts == [] <==> v.conflicts == [])
            && (u.conflicts == [] ==> Records(u.kept) == Records(v.kept) && |u.kept| == |v.kept|)
  {
    hide *;
    var xs, ys := InScope(scope, roots), InScope(scope, others);
    forall r: Record ensures r in Records(xs) <==> r in Records(ys) {
      InScopeHolds(scope, roots, r);
      InScopeHolds(scope, others, r);
    }
    assert Records(xs) == Records(ys);
    NoConflictMeans(clock, xs);
    NoConflictMeans(clock, ys);
    if AllAgree(clock, xs) {
      SameRecordsAgree(clock, xs, ys);
    }
    if AllAgree(clock, ys) {
      SameRecordsAgree(clock, ys, xs);
    }
    MergedAgree(clock, xs);
    MergedAgree(clock, ys);
    KeptOnce(clock, Merged(clock, xs).kept);
    KeptOnce(clock, Merged(clock, ys).kept);
  }

  lemma {:induction false} KeptOnce(clock: Clock, kept: seq<Inspected>)
    requires KeptAgree(clock, kept)
    ensures |Records(kept)| == |kept|
  {
    if kept != [] {
      hide Compatible;
      var before, x := kept[..|kept| - 1], kept[|kept| - 1];
      assert before + [x] == kept;
      KeptOnce(clock, before);
      AgreeWithNext(clock, before, x);
      assert x.record !in Records(before);
    }
  }

  /** When two different records of one older id are both kept, told in runs and times: they are of one task,
      state, visit and target, and either both say their run and say different ones, or both say when they
      ran and neither started before the other ended. */
  lemma BothAreKept(clock: Clock, x: Inspected, y: Inspected)
    requires x.record != y.record && x.record.id == y.record.id && AttemptParts(x.record.id) == None
    ensures var a, b := x.record, y.record;
            Merged(clock, [x, y]).kept == [x, y] <==>
              && a.task == b.task && a.state == b.state && a.visit == b.visit && a.targetSlug == b.targetSlug
              && (|| (a.runId.Some? && b.runId.Some? && a.runId.value != b.runId.value)
                  || (&& clock(a.started).Some? && clock(a.ended).Some? && clock(a.started).value <= clock(a.ended).value
                      && clock(b.started).Some? && clock(b.ended).Some? && clock(b.started).value <= clock(b.ended).value
                      && (clock(a.ended).value <= clock(b.started).value || clock(b.ended).value <= clock(a.started).value)))
  {
    assert [x, y][..1] == [x] && [x][..0] == [];
    assert Merged(clock, []) == Union([], []);
    FateMeans(clock, [], x.record);
    hide FateOf;
    assert Merged(clock, [x]).kept == [x];
    FateMeans(clock, [x], y.record);
    assert Merged(clock, [x, y]).kept == if FateOf(clock, [x], y.record).Kept? then [x] + [y] else [x];
    assert FateOf(clock, [x], y.record).Kept? <==> Compatible(clock, [x][0].record, y.record);
  }
}
