/** Reading a packed archive: the tar is parsed in memory, one entry after another.

  `decode` is how a name's bytes become a path (a lossy UTF-8 decoding in the program), and `indexOk`
  whether the index parses and states what it must; both are any functions here. */
module ArchiveReader {
  import opened Basics
  import opened TarFormat

  type Path = seq<byte>

  /** rhei-archive.json */
  const INDEX: Path :=
    [114, 104, 101, 105, 45, 97, 114, 99, 104, 105, 118, 101, 46, 106, 115, 111, 110]

  const LONG_NAME: byte := 76
  const SLASH: byte := 47

  // ----- member paths -----

  function Components(p: Path): (cs: seq<Path>)
    ensures cs != [] && forall i | 0 <= i < |cs| :: SLASH !in cs[i]
  {
    if p == [] then [[]]
    else
      var rest := Components(p[1..]);
      if p[0] == SLASH then [[]] + rest else [[p[0]] + rest[0]] + rest[1..]
  }

  /** The components with slashes between them. */
  function Slashed(cs: seq<Path>): Path
    requires cs != []
  {
    if |cs| == 1 then cs[0] else cs[0] + [SLASH] + Slashed(cs[1..])
  }

  /** A path's components, none of which holds a slash, give it back. */
  lemma {:induction false} ComponentsJoin(p: Path)
    ensures Slashed(Components(p)) == p
  {
    if p != [] {
      var rest := Components(p[1..]);
      ComponentsJoin(p[1..]);
      var cs := Components(p);
      if p[0] == SLASH {
        assert cs[1..] == rest && [] + [SLASH] + Slashed(rest) == [SLASH] + p[1..];
      } else {
        assert cs[1..] == rest[1..];
        assert Slashed(cs) == [p[0]] + Slashed(rest);
      }
      assert [p[0]] + p[1..] == p;
    }
  }

  predicate IsDrive(part: Path) {
    |part| >= 2 && (65 <= part[0] <= 90 || 97 <= part[0] <= 122) && part[1] == 58
  }

  /** No component of the path leaves the directory it is in or is empty, and no other system reads a drive
      or a separator in it. */
  predicate PathSafe(p: Path) {
    && p != []
    && 92 !in p
    && !IsDrive(Components(p)[0])
    && forall c | c in Components(p) :: c != [] && c != [46] && c != [46, 46]
  }

  /** From `i` to `j` is all that stands between two slashes or ends. */
  predicate IsBetween(p: Path, i: int, j: int): (b: bool)
    ensures b ==> 0 <= i <= j <= |p|
  {
    && 0 <= i <= j <= |p|
    && (i == 0 || p[i - 1] == SLASH) && (j == |p| || p[j] == SLASH) && SLASH !in p[i..j]
  }

  lemma {:induction false} WhereComponentIs(p: Path, k: nat) returns (i: int, j: int)
    requires k < |Components(p)|
    ensures IsBetween(p, i, j) && p[i..j] == Components(p)[k] && (k == 0 <==> i == 0)
  {
    i, j := 0, 0;
    if p != [] && (k > 0 || p[0] != SLASH) {
      i, j := WhereComponentIs(p[1..], if p[0] == SLASH then k - 1 else k);
      assert p[1..][i..j] == p[i + 1..j + 1];
      i, j := if k == 0 then 0 else i + 1, j + 1;
    }
  }

  lemma BetweenLater(p: Path, i: int, j: int)
    requires IsBetween(p, i, j) && i > 0
    ensures IsBetween(p[1..], i - 1, j - 1) && p[i..j] == p[1..][i - 1..j - 1] && (i == 1 ==> p[0] == SLASH)
  {
    SliceFurther(p, 1, i - 1, j - 1);
  }

  lemma BetweenFirst(p: Path, j: int)
    requires IsBetween(p, 0, j) && p != [] && p[0] != SLASH
    ensures j > 0 && IsBetween(p[1..], 0, j - 1) && p[0..j] == [p[0]] + p[1..][0..j - 1]
  {
    SliceFurther(p, 1, 0, j - 1);
  }

  lemma {:induction false} WhichComponentIs(p: Path, i: int, j: int) returns (k: nat)
    requires IsBetween(p, i, j)
    ensures k < |Components(p)| && Components(p)[k] == p[i..j]
    ensures k == 0 <==> i == 0
  {
    k := 0;
    if i > 0 {
      BetweenLater(p, i, j);
      hide IsBetween;
      k := WhichComponentIs(p[1..], i - 1, j - 1);
      if p[0] == SLASH {
        k := k + 1;
      }
    } else if p != [] && p[0] != SLASH {
      BetweenFirst(p, j);
      hide IsBetween;
      k := WhichComponentIs(p[1..], 0, j - 1);
    }
  }

  /** A path is safe exactly if it is not empty, holds no backslash, starts with no letter and colon, and between
      its slashes is never nothing, a dot or two dots. */
  lemma PathSafeMeans(p: Path)
    ensures PathSafe(p) <==>
              && p != [] && 92 !in p
              && !(|p| >= 2 && (65 <= p[0] <= 90 || 97 <= p[0] <= 122) && p[1] == 58)
              && forall i, j | IsBetween(p, i, j) :: p[i..j] != [] && p[i..j] != [46] && p[i..j] != [46, 46]
  {
    hide IsBetween;
    DriveIsFirst(p);
    hide IsDrive;
    if i, j :| IsBetween(p, i, j) && (p[i..j] == [] || p[i..j] == [46] || p[i..j] == [46, 46]) {
      var k := WhichComponentIs(p, i, j);
      assert Components(p)[k] in Components(p);
    }
    if c :| c in Components(p) && (c == [] || c == [46] || c == [46, 46]) {
      var k :| 0 <= k < |Components(p)| && Components(p)[k] == c;
      var i, j := WhereComponentIs(p, k);
    }
  }

  lemma DriveIsFirst(p: Path)
    ensures IsDrive(Components(p)[0]) <==>
              |p| >= 2 && (65 <= p[0] <= 90 || 97 <= p[0] <= 122) && p[1] == 58
  {
    var i, j := WhereComponentIs(p, 0);
  }

  // ----- the entries a tar holds -----

  datatype Entry = Entry(kind: byte, name: seq<byte>, data: seq<byte>)

  function Blocks(size: nat): nat { (size + BLOCK - 1) / BLOCK * BLOCK }

  /** A size is padded to the least whole number of blocks that holds it: one of 0 or of whole blocks not at
      all. */
  lemma BlocksAre(size: nat)
    ensures Blocks(size) % BLOCK == 0 && size <= Blocks(size) < size + BLOCK
  {
    var q := (size + BLOCK - 1) / BLOCK;
    assert BLOCK == 512 && Blocks(size) == 512 * q;
    assert 512 * q % 512 == 0;
  }

  predicate AllZero(s: seq<byte>) { forall i | 0 <= i < |s| :: s[i] == 0 }

  /** The entry at the front of a tar, if its header holds and its data is there. */
  function FirstEntry(bytes: seq<byte>): (e: Option<Entry>)
    ensures e.Some? ==> BLOCK + Blocks(|e.value.data|) <= |bytes|
  {
    if !HeaderValid(bytes[..if |bytes| < BLOCK then |bytes| else BLOCK]) then None
    else
      var block := bytes[..BLOCK];
      var size := TarNumber(block[124..136]);
      if size.None? || BLOCK + size.value > |bytes| || BLOCK + Blocks(size.value) > |bytes| then None
      else Some(Entry(block[156], HeaderName(block), bytes[BLOCK..BLOCK + size.value]))
  }

  function After(bytes: seq<byte>, e: Entry): (r: seq<byte>)
    requires BLOCK + Blocks(|e.data|) <= |bytes|
    ensures |r| < |bytes|
  {
    bytes[BLOCK + Blocks(|e.data|)..]
  }

  /** Every entry up to the end-of-archive blocks, when nothing but zeros follows those. */
  function Entries(bytes: seq<byte>): Option<seq<Entry>>
    decreases |bytes|
  {
    if |bytes| < BLOCK then None
    else if AllZero(bytes[..BLOCK]) then if AllZero(bytes) then Some([]) else None
    else
      var first := FirstEntry(bytes);
      if first.None? then None
      else
        var rest := Entries(After(bytes, first.value));
        if rest.None? then None else Some([first.value] + rest.value)
  }

  // ----- what the entries mean -----

  /** An entry under the name it goes by. */
  datatype Named = Named(path: Path, regular: bool, data: seq<byte>)

  function LongName(data: seq<byte>): seq<byte> {
    if data != [] && data[|data| - 1] == 0 then LongName(data[..|data| - 1]) else data
  }

  /** A long name is its data up to the last byte that is not zero. */
  lemma {:induction false} LongNameIs(data: seq<byte>)
    ensures LongName(data) <= data && AllZero(data[|LongName(data)|..])
    ensures LongName(data) == [] || LongName(data)[|LongName(data)| - 1] != 0
  {
    if data != [] && data[|data| - 1] == 0 {
      var init := data[..|data| - 1];
      LongNameIs(init);
      assert data[|LongName(init)|..] == init[|LongName(init)|..] + [0];
    }
  }

  predicate Regular(kind: byte) { kind == 48 || kind == 0 }

  /** Each entry but the long names, under its own name or the long name just before it; nothing when
      a long name is left over. */
  function NamedEntries(entries: seq<Entry>, longName: Option<seq<byte>>, decode: seq<byte> -> Path): Option<seq<Named>> {
    if entries == [] then if longName.None? then Some([]) else None
    else
      var e := entries[0];
      if e.kind == LONG_NAME then NamedEntries(entries[1..], Some(LongName(e.data)), decode)
      else
        var rest := NamedEntries(entries[1..], None, decode);
        if rest.None? then None
        else
          var name := if longName.Some? then longName.value else e.name;
          Some([Named(decode(name), Regular(e.kind), e.data)] + rest.value)
  }

  predicate Eligible(n: Named) { n.regular && PathSafe(n.path) }

  /** Entry `i` is kept: it is eligible and no eligible entry before it has its path. */
  predicate Kept(ns: seq<Named>, i: nat)
    requires i < |ns|
  {
    Eligible(ns[i]) && forall j | 0 <= j < i :: !(Eligible(ns[j]) && ns[j].path == ns[i].path)
  }

  datatype Source = Source(index: seq<byte>, members: map<Path, seq<byte>>, refused: seq<Path>)

  /** The paths of the entries refused, in order. */
  function RefusedPaths(ns: seq<Named>): seq<Path> {
    if ns == [] then []
    else
      var n := |ns| - 1;
      RefusedPaths(ns[..n]) + if Kept(ns, n) then [] else [ns[n].path]
  }

  /** The first entry is a regular, readable index. */
  predicate IndexFirst(ns: seq<Named>, indexOk: seq<byte> -> bool) {
    ns != [] && ns[0].regular && ns[0].path == INDEX && indexOk(ns[0].data)
  }

  /** One more entry met by the reader. */
  function Meet(s: Source, n: Named): Source {
    if !Eligible(n) || n.path in s.members then s.(refused := s.refused + [n.path])
    else s.(members := s.members[n.path := n.data])
  }

  /** `i` is the kept entry of path `p`. */
  predicate KeptAs(ns: seq<Named>, i: int, p: Path): (b: bool)
    ensures b ==> 0 <= i < |ns| && ns[i].path == p
  {
    0 <= i < |ns| && ns[i].path == p && Kept(ns, i)
  }

  /** What an archive holds, entry by entry: the member at a path is the data of the kept entry with
      that path, and every other entry is refused. */
  ghost predicate Gathered(ns: seq<Named>, s: Source) {
    && (forall p | p in s.members :: exists i :: KeptAs(ns, i, p))
    && (forall i, p | KeptAs(ns, i, p) :: p in s.members && s.members[p] == ns[i].data)
    && s.refused == RefusedPaths(ns)
  }

  lemma KeptBefore(ns: seq<Named>, n: Named, i: nat)
    requires i < |ns|
    ensures Kept(ns + [n], i) <==> Kept(ns, i)
  {
    var more := ns + [n];
    assert forall j | 0 <= j <= i :: more[j] == ns[j];
  }

  /** Of the eligible entries with a path, the first is kept. */
  lemma {:induction false} FirstIsKept(ns: seq<Named>, i: nat) returns (k: nat)
    requires i < |ns| && Eligible(ns[i])
    ensures k <= i && Kept(ns, k) && ns[k].path == ns[i].path
  {
    k := i;
    if !Kept(ns, i) {
      var j :| 0 <= j < i && Eligible(ns[j]) && ns[j].path == ns[i].path;
      k := FirstIsKept(ns, j);
    }
  }

  lemma LastIsKept(ns: seq<Named>, s: Source, n: Named)
    requires Gathered(ns, s)
    ensures Kept(ns + [n], |ns|) <==> Eligible(n) && n.path !in s.members
  {
    var more := ns + [n];
    if n.path in s.members {
      var i :| KeptAs(ns, i, n.path);
      assert Eligible(more[i]) && more[i].path == more[|ns|].path;
    } else if Eligible(n) && exists j | 0 <= j < |ns| :: Eligible(ns[j]) && ns[j].path == n.path {
      var j :| 0 <= j < |ns| && Eligible(ns[j]) && ns[j].path == n.path;
      var k := FirstIsKept(ns, j);
      assert KeptAs(ns, k, n.path);
    }
  }

  lemma KeptAsBefore(ns: seq<Named>, n: Named, s: Source)
    requires Gathered(ns, s)
    ensures forall i, p | 0 <= i < |ns| :: KeptAs(ns + [n], i, p) <==> KeptAs(ns, i, p)
    ensures forall p :: KeptAs(ns + [n], |ns|, p) <==> p == n.path && Eligible(n) && n.path !in s.members
  {
    LastIsKept(ns, s, n);
    forall i | 0 <= i < |ns| ensures Kept(ns + [n], i) <==> Kept(ns, i) {
      KeptBefore(ns, n, i);
    }
  }

  lemma MeetGathers(ns: seq<Named>, s: Source, n: Named)
    requires Gathered(ns, s)
    ensures Gathered(ns + [n], Meet(s, n))
  {
    var more, s' := ns + [n], Meet(s, n);
    assert more[..|ns|] == ns;
    KeptAsBefore(ns, n, s);
    LastIsKept(ns, s, n);
    hide Kept, KeptAs, Eligible;
    forall p | p in s'.members ensures exists i :: KeptAs(more, i, p) {
      if p in s.members {
        var i :| KeptAs(ns, i, p);
        assert KeptAs(more, i, p);
      } else {
        assert KeptAs(more, |ns|, p);
      }
    }
    forall i, p | KeptAs(more, i, p) ensures p in s'.members && s'.members[p] == more[i].data {
      if i < |ns| {
        assert KeptAs(ns, i, p);
      }
    }
  }

  /** The entries met one after another. */
  function Replay(ns: seq<Named>): Source {
    if ns == [] then Source([], map[], []) else Meet(Replay(ns[..|ns| - 1]), ns[|ns| - 1])
  }

  lemma MeetCounts(s: Source, n: Named)
    ensures |Meet(s, n).members| + |Meet(s, n).refused| == |s.members| + |s.refused| + 1
    ensures forall p | p in Meet(s, n).members :: p in s.members || PathSafe(p)
  {
    hide PathSafe;
    if Eligible(n) && n.path !in s.members {
      assert s.members[n.path := n.data].Keys == s.members.Keys + {n.path};
      assert |s.members[n.path := n.data]| == |s.members[n.path := n.data].Keys|;
    }
  }

  lemma NothingGathered()
    ensures Gathered([], Source([], map[], []))
  {}

  lemma {:induction false} ReplayConserves(ns: seq<Named>)
    ensures Gathered(ns, Replay(ns))
    ensures |Replay(ns).members| + |Replay(ns).refused| == |ns|
    ensures forall p | p in Replay(ns).members :: PathSafe(p)
  {
    hide Gathered, PathSafe, Meet;
    if ns == [] {
      NothingGathered();
    } else {
      var before, n := ns[..|ns| - 1], ns[|ns| - 1];
      ReplayConserves(before);
      MeetGathers(before, Replay(before), n);
      MeetCounts(Replay(before), n);
      assert before + [n] == ns;
    }
  }

  lemma GatheredDecides(ns: seq<Named>, s: Source, r: Source)
    requires Gathered(ns, s) && Gathered(ns, r)
    ensures s.members == r.members && s.refused == r.refused
  {
    hide KeptAs, RefusedPaths;
    forall p | p in r.members ensures p in s.members {
      var i :| KeptAs(ns, i, p);
    }
    forall p | p in s.members ensures p in r.members && s.members[p] == r.members[p] {
      var i :| KeptAs(ns, i, p);
    }
    assert s.members == r.members;
  }

  /** Conservation: every entry but the long names lands in exactly one of kept and refused, every kept
      path is safe, and the entries decide the members and the refusals. */
  lemma EntriesAreConserved(ns: seq<Named>, s: Source)
    requires Gathered(ns, s)
    ensures |s.members| + |s.refused| == |ns|
    ensures forall p | p in s.members :: PathSafe(p)
    ensures s.members == Replay(ns).members && s.refused == Replay(ns).refused
  {
    hide Gathered, PathSafe, Replay;
    ReplayConserves(ns);
    GatheredDecides(ns, s, Replay(ns));
  }

  /** The named entries of a tar that may be preceded by a long name. */
  function Whole(bytes: seq<byte>, longName: Option<seq<byte>>, decode: seq<byte> -> Path): Option<seq<Named>> {
    var entries := Entries(bytes);
    if entries.None? then None else NamedEntries(entries.value, longName, decode)
  }

  function Prepend(seen: seq<Named>, rest: Option<seq<Named>>): Option<seq<Named>> {
    if rest.None? then None else Some(seen + rest.value)
  }

  lemma PrependNothing(rest: Option<seq<Named>>)
    ensures Prepend([], rest) == rest
    ensures rest.Some? ==> Prepend(rest.value, Some([])) == rest
  {
    if rest.Some? {
      assert [] + rest.value == rest.value && rest.value + [] == rest.value;
    }
  }

  lemma PrependTwice(a: seq<Named>, b: seq<Named>, rest: Option<seq<Named>>)
    ensures Prepend(a, Prepend(b, rest)) == Prepend(a + b, rest)
  {
    if rest.Some? {
      assert a + (b + rest.value) == (a + b) + rest.value;
    }
  }

  lemma WholeStep(bytes: seq<byte>, longName: Option<seq<byte>>, decode: seq<byte> -> Path)
    requires |bytes| >= BLOCK && !AllZero(bytes[..BLOCK])
    ensures var first := FirstEntry(bytes);
            Whole(bytes, longName, decode) ==
              if first.None? then None
              else
                var e := first.value;
                if e.kind == LONG_NAME then Whole(After(bytes, e), Some(LongName(e.data)), decode)
                else Prepend([Named(decode(if longName.Some? then longName.value else e.name), Regular(e.kind), e.data)],
                             Whole(After(bytes, e), None, decode))
  {
    hide FirstEntry, After, LongName;
    var first := FirstEntry(bytes);
    if first.Some? {
      var rest := Entries(After(bytes, first.value));
      if rest.Some? {
        assert ([first.value] + rest.value)[1..] == rest.value;
      }
    }
  }

  /** The archive's index and members, or nothing when it cannot be read at all. On any bytes the
      reader stays in bounds, ends, and keeps and refuses just what the entries say. */
  method ReadArchive(bytes: seq<byte>, decode: seq<byte> -> Path, indexOk: seq<byte> -> bool)
    returns (r: Option<Source>)
    ensures var ns := Whole(bytes, None, decode);
            && (r.Some? <==> ns.Some? && IndexFirst(ns.value, indexOk))
            && (r.Some? ==>
                  && r.value.index == ns.value[0].data && Gathered(ns.value, r.value)
                  && |r.value.members| + |r.value.refused| == |ns.value|
                  && (forall p | p in r.value.members :: PathSafe(p))
                  && INDEX in r.value.members && r.value.members[INDEX] == r.value.index)
  {
    hide Entries, NamedEntries, HeaderValid, TarNumber, HeaderName, LongName, PathSafe, Gathered, Eligible;
    var source := Source([], map[], []);
    NothingGathered();
    var at := 0;
    var longName: Option<seq<byte>> := None;
    var first := true;
    ghost var seen: seq<Named> := [];
    ghost var all := Whole(bytes, None, decode);
    assert bytes[at..] == bytes;
    PrependNothing(all);
    while true
      invariant 0 <= at <= |bytes|
      invariant first <==> seen == []
      invariant all == Prepend(seen, Whole(bytes[at..], longName, decode))
      invariant !first ==> IndexFirst(seen, indexOk) && source.index == seen[0].data
      invariant Gathered(seen, source)
      decreases |bytes| - at
    {
      if at + BLOCK > |bytes| {
        TooShort(bytes[at..]);
        return None;
      }
      var block := bytes[at..at + BLOCK];
      assert block == bytes[at..][..BLOCK];
      if AllZero(block) {
        EndOfArchive(bytes[at..], longName, decode);
        PrependNothing(Some(seen));
        if IndexFirst(seen, indexOk) {
          EntriesAreConserved(seen, source);
          IndexIsThere(seen, source, indexOk);
        }
        var ended := !first && longName.None? && AllZero(bytes[at..]);
        return if ended then Some(source) else None;
      }
      WholeStep(bytes[at..], longName, decode);
      FirstEntryAt(bytes, at);
      if !HeaderValid(block) {
        return None;
      }
      var size := TarNumber(block[124..136]);
      if size.None? {
        return None;
      }
      var start := at + BLOCK;
      if start + size.value > |bytes| {
        return None;
      }
      var data := bytes[start..start + size.value];
      at := start + Blocks(size.value);
      if at > |bytes| {
        return None;
      }
      var kind := block[156];
      if kind == LONG_NAME {
        longName := Some(LongName(data));
        continue;
      }
      var name := if longName.Some? then longName.value else HeaderName(block);
      longName := None;
      var entry := Named(decode(name), Regular(kind), data);
      if first {
        first := false;
        if !entry.regular || entry.path != INDEX || !indexOk(data) {
          return None;
        }
        IndexIsApart(seen, source, data);
        source := source.(index := data);
      }
      MeetGathers(seen, source, entry);
      PrependTwice(seen, [entry], Whole(bytes[at..], None, decode));
      source := Meet(source, entry);
      seen := seen + [entry];
    }
  }

  lemma IndexIsApart(ns: seq<Named>, s: Source, data: seq<byte>)
    requires Gathered(ns, s)
    ensures Gathered(ns, s.(index := data))
  {
    hide KeptAs, RefusedPaths;
  }

  lemma IndexIsThere(ns: seq<Named>, s: Source, indexOk: seq<byte> -> bool)
    requires Gathered(ns, s) && IndexFirst(ns, indexOk)
    ensures INDEX in s.members && s.members[INDEX] == ns[0].data
  {
    IndexIsKept(ns, indexOk);
    hide KeptAs, RefusedPaths, INDEX;
  }

  lemma {:induction false} OneComponent(p: Path)
    requires SLASH !in p
    ensures Components(p) == [p]
  {
    if p != [] {
      OneComponent(p[1..]);
      assert [p[0]] + p[1..] == p;
    }
  }

  lemma IndexIsSafe()
    ensures PathSafe(INDEX)
  {
    hide Components;
    OneComponent(INDEX);
  }

  lemma IndexIsKept(ns: seq<Named>, indexOk: seq<byte> -> bool)
    requires IndexFirst(ns, indexOk)
    ensures KeptAs(ns, 0, INDEX)
  {
    hide PathSafe, INDEX;
    IndexIsSafe();
  }

  lemma TooShort(bytes: seq<byte>)
    requires |bytes| < BLOCK
    ensures Entries(bytes).None?
  {}

  lemma EndOfArchive(bytes: seq<byte>, longName: Option<seq<byte>>, decode: seq<byte> -> Path)
    requires |bytes| >= BLOCK && AllZero(bytes[..BLOCK])
    ensures Whole(bytes, longName, decode) == if AllZero(bytes) && longName.None? then Some([]) else None
  {}

  lemma FirstEntryAt(bytes: seq<byte>, at: nat)
    requires at + BLOCK <= |bytes|
    ensures var block := bytes[at..at + BLOCK];
            var size := TarNumber(block[124..136]);
            var fits := HeaderValid(block) && size.Some? && at + BLOCK + size.value <= |bytes|
                        && at + BLOCK + Blocks(size.value) <= |bytes|;
            var first := FirstEntry(bytes[at..]);
            && (first.Some? <==> fits)
            && (fits ==>
                  && first.value == Entry(block[156], HeaderName(block),
                                          bytes[at + BLOCK..at + BLOCK + size.value])
                  && After(bytes[at..], first.value) == bytes[at + BLOCK + Blocks(size.value)..])
  {
    var rest := bytes[at..];
    assert rest[..BLOCK] == bytes[at..at + BLOCK];
  }

  // ----- findings about members -----

  datatype Code = UnsafeMember | Unlisted | Missing | Checked

  datatype Finding = Finding(code: Code, path: Path)

  /** After the shared checks: every refused entry, every member no check names or that an event
      prunes, and every listed event and manifest that is absent, has a finding; a member reported
      as unlisted before is not reported again. */
  method MemberFindings(s: Source, named: set<Path>, pruned: set<Path>, events: seq<Path>, manifest: Path,
                        findings: seq<Finding>) returns (all: seq<Finding>)
    ensures findings <= all
    ensures forall p :: Finding(UnsafeMember, p) in all <==> Finding(UnsafeMember, p) in findings || p in s.refused
    ensures forall p :: Finding(Unlisted, p) in all <==>
              Finding(Unlisted, p) in findings || (p in s.members && (p !in named || p in pruned))
    ensures forall p :: Finding(Missing, p) in all <==>
              Finding(Missing, p) in findings || ((p in events || p == manifest) && p !in s.members)
    ensures forall p :: Finding(Checked, p) in all <==> Finding(Checked, p) in findings
    ensures forall p | Finding(Unlisted, p) in all[|findings|..] :: Finding(Unlisted, p) !in findings
  {
    var added: seq<Finding> := [];
    for i := 0 to |s.refused|
      invariant forall f :: f in added <==> f.code.UnsafeMember? && f.path in s.refused[..i]
    {
      added := added + [Finding(UnsafeMember, s.refused[i])];
    }
    assert s.refused[..|s.refused|] == s.refused;
    var left := s.members.Keys;
    while left != {}
      invariant left <= s.members.Keys
      invariant forall f :: f in added <==>
                  || (f.code.UnsafeMember? && f.path in s.refused)
                  || (f.code.Unlisted? && f.path in s.members && f.path !in left && f !in findings
                      && (f.path !in named || f.path in pruned))
      decreases left
    {
      var path :| path in left;
      left := left - {path};
      if (path !in named || path in pruned) && Finding(Unlisted, path) !in findings {
        added := added + [Finding(Unlisted, path)];
      }
    }
    var listed := events + [manifest];
    ghost var before := added;
    for i := 0 to |listed|
      invariant forall f :: f in added <==>
                  f in before || (f.code.Missing? && f.path in listed[..i] && f.path !in s.members)
    {
      if listed[i] !in s.members {
        added := added + [Finding(Missing, listed[i])];
      }
    }
    assert listed[..|listed|] == listed;
    all := findings + added;
    assert all[|findings|..] == added;
  }

  // ----- what the bytes hold -----

  /** How many bytes some entries take, headers and padding included. */
  function Extent(entries: seq<Entry>): nat {
    if entries == [] then 0 else BLOCK + Blocks(|entries[0].data|) + Extent(entries[1..])
  }

  /** Where entry `i` starts. */
  function StartOf(entries: seq<Entry>, i: nat): nat
    requires i <= |entries|
  {
    Extent(entries[..i])
  }

  /** The entries fill the archive: each has a valid header where the one before it ends and its data just
      behind, of the size the header states, and after the last come zeros only, a block of them at least. */
  lemma {:induction false} EntriesFill(bytes: seq<byte>)
    requires Entries(bytes).Some?
    ensures var es := Entries(bytes).value;
            && Extent(es) + BLOCK <= |bytes| && AllZero(bytes[Extent(es)..])
            && forall i | 0 <= i < |es| :: EntryLies(bytes, es, i)
    decreases |bytes|
  {
    if !AllZero(bytes[..BLOCK]) {
      var first, es := EntriesFirst(bytes);
      hide Entries, FirstEntry, AllZero, EntryLies;
      EntriesFill(After(bytes, first));
      OneMoreFills(bytes, first, es);
    } else {
      assert bytes[0..] == bytes;
    }
  }

  lemma OneMoreFills(bytes: seq<byte>, first: Entry, es: seq<Entry>)
    requires es != [] && es[0] == first && BLOCK + Blocks(|first.data|) <= |bytes| && EntryLies(bytes, es, 0)
    requires var after := After(bytes, first);
             && Extent(es[1..]) + BLOCK <= |after| && AllZero(after[Extent(es[1..])..])
             && forall i | 0 <= i < |es[1..]| :: EntryLies(after, es[1..], i)
    ensures Extent(es) + BLOCK <= |bytes| && AllZero(bytes[Extent(es)..])
    ensures forall i | 0 <= i < |es| :: EntryLies(bytes, es, i)
  {
    hide EntryLies, AllZero, Blocks;
    var after, n := After(bytes, first), BLOCK + Blocks(|first.data|);
    assert after[Extent(es[1..])..] == bytes[n + Extent(es[1..])..];
    forall i | 0 < i < |es| ensures EntryLies(bytes, es, i) {
      assert EntryLies(after, es[1..], i - 1);
      StartsFurther(es, i);
      LiesFurther(bytes, n, after, es, i);
    }
  }

  lemma StartsFurther(es: seq<Entry>, i: nat)
    requires 1 <= i < |es|
    ensures StartOf(es, i) == BLOCK + Blocks(|es[0].data|) + StartOf(es[1..], i - 1)
  {
    hide Blocks;
    assert es[..i][1..] == es[1..][..i - 1];
  }

  predicate EntryLies(bytes: seq<byte>, es: seq<Entry>, i: nat)
    requires i < |es|
  {
    var at, e := StartOf(es, i), es[i];
    && at + BLOCK + |e.data| <= |bytes|
    && HeaderValid(bytes[at..at + BLOCK])
    && bytes[at + BLOCK..at + BLOCK + |e.data|] == e.data
    && TarNumber(bytes[at..at + BLOCK][124..136]) == Some(|e.data|)
    && e.kind == bytes[at + 156] && e.name == HeaderName(bytes[at..at + BLOCK])
  }

  lemma LiesFurther(bytes: seq<byte>, n: nat, after: seq<byte>, es: seq<Entry>, i: nat)
    requires n <= |bytes| && after == bytes[n..] && 1 <= i < |es|
    requires EntryLies(after, es[1..], i - 1) && StartOf(es, i) == n + StartOf(es[1..], i - 1)
    ensures EntryLies(bytes, es, i)
  {
    hide HeaderValid, TarNumber, HeaderName, StartOf;
    var at := StartOf(es[1..], i - 1);
    assert es[1..][i - 1] == es[i];
    SliceFurther(bytes, n, at, at + BLOCK);
    SliceFurther(bytes, n, at + BLOCK, at + BLOCK + |es[i].data|);
  }

  lemma SliceFurther(bytes: seq<byte>, n: nat, lo: nat, hi: nat)
    requires lo <= hi && n + hi <= |bytes|
    ensures bytes[n..][lo..hi] == bytes[n + lo..n + hi]
    ensures lo < |bytes| - n ==> bytes[n..][lo] == bytes[n + lo]
  {}

  lemma EntriesFirst(bytes: seq<byte>) returns (first: Entry, es: seq<Entry>)
    requires Entries(bytes).Some? && |bytes| >= BLOCK && !AllZero(bytes[..BLOCK])
    ensures es == Entries(bytes).value && es != [] && first == es[0]
    ensures BLOCK + Blocks(|first.data|) <= |bytes| && Entries(After(bytes, first)) == Some(es[1..])
    ensures EntryLies(bytes, es, 0)
  {
    hide HeaderValid, TarNumber, HeaderName;
    es := Entries(bytes).value;
    first := es[0];
    assert es[..0] == [];
    assert bytes[0..BLOCK] == bytes[..BLOCK];
  }

  /** How many entries are no long names. */
  function Ordinary(entries: seq<Entry>): nat {
    if entries == [] then 0 else Ordinary(entries[1..]) + if entries[0].kind == LONG_NAME then 0 else 1
  }

  /** The entries have names exactly if no long name comes last; then every one that is no long name has
      one. */
  lemma {:induction false} NamedExactly(entries: seq<Entry>, longName: Option<seq<byte>>, decode: seq<byte> -> Path)
    ensures var ns := NamedEntries(entries, longName, decode);
            && (ns.Some? <==> if entries == [] then longName.None? else entries[|entries| - 1].kind != LONG_NAME)
            && (ns.Some? ==> |ns.value| == Ordinary(entries))
  {
    hide LongName;
    if entries != [] {
      var e, rest := entries[0], entries[1..];
      NamedExactly(rest, if e.kind == LONG_NAME then Some(LongName(e.data)) else None, decode);
      if rest != [] {
        assert rest[|rest| - 1] == entries[|entries| - 1];
      }
    }
  }
}
