/** Printing an archive, and reading back what was printed. */
module ArchiveWriter {
  import opened Basics
  import opened TarFormat
  import opened ArchiveReader

  /** Where a member's path goes: in the name field, split over prefix and name at a `/`, or in a GNU
      long-name entry before a header that carries `stub`. */
  datatype Place = InName | Split(at: nat) | Long(stub: seq<byte>)

  datatype Member = Member(path: Path, data: seq<byte>, place: Place)

  predicate Splits(path: Path, at: nat) {
    0 < at <= 155 && at < |path| && path[at] == SLASH && |path| - at - 1 <= 100
  }

  /** The path fits the place, and nothing in the header ends it early. */
  predicate Placed(m: Member) {
    && 0 !in m.path
    && match m.place
       case InName => |m.path| <= 100
       case Split(at) => Splits(m.path, at)
       case Long(stub) => |stub| <= 100 && 0 !in stub
  }

  function Padded(data: seq<byte>): (p: seq<byte>)
    ensures |p| == Blocks(|data|) && data <= p
  {
    data + Repeat(0, Blocks(|data|) - |data|)
  }

  function PrintEntry(name: seq<byte>, kind: byte, magic: seq<byte>, prefix: seq<byte>, data: seq<byte>): seq<byte>
    requires |name| <= 100 && |magic| == 8 && |prefix| <= 155
  {
    Header(name, |data|, kind, magic, prefix) + Padded(data)
  }

  /** ././@LongLink */
  const LONG_LINK: seq<byte> := [46, 47, 46, 47, 64, 76, 111, 110, 103, 76, 105, 110, 107]

  function PrintMember(m: Member): seq<byte>
    requires Placed(m)
  {
    match m.place
    case InName => PrintEntry(m.path, 48, USTAR_MAGIC, [], m.data)
    case Split(at) => PrintEntry(m.path[at + 1..], 48, USTAR_MAGIC, m.path[..at], m.data)
    case Long(stub) =>
      PrintEntry(LONG_LINK, LONG_NAME, GNU_MAGIC, [], m.path + [0])
      + PrintEntry(stub, 48, USTAR_MAGIC, [], m.data)
  }

  /** The members in order, then the two blocks that end an archive. */
  function PrintArchive(ms: seq<Member>): seq<byte>
    requires forall i | 0 <= i < |ms| :: Placed(ms[i])
  {
    if ms == [] then Repeat(0, 2 * BLOCK) else PrintMember(ms[0]) + PrintArchive(ms[1..])
  }

  /** The place a writer gives a path: ustar's when it has one. */
  function PlaceFor(path: Path): Place {
    if |path| <= 100 then InName
    else
      var at := LastSplit(path, if |path| <= 155 then |path| - 1 else 155);
      if Splits(path, at) then Split(at) else Long(path[..100])
  }

  /** The last `/` at or before `at`, or 0. */
  function LastSplit(path: Path, at: nat): (k: nat)
    requires at < |path|
    ensures k <= at && forall j | k < j <= at :: path[j] != SLASH
    ensures k > 0 ==> path[k] == SLASH
  {
    if at == 0 || path[at] == SLASH then at else LastSplit(path, at - 1)
  }

  /** Every NUL-free path is placed, and in a ustar header whenever ustar can hold it. */
  lemma PlaceForFits(path: Path, data: seq<byte>)
    requires 0 !in path
    ensures Placed(Member(path, data, PlaceFor(path)))
    ensures PlaceFor(path).Long? <==> |path| > 100 && forall at: nat :: !Splits(path, at)
  {
    if |path| > 100 {
      var top := if |path| <= 155 then |path| - 1 else 155;
      var at := LastSplit(path, top);
      forall k: nat | Splits(path, k) ensures Splits(path, at) {
        assert k <= top && k <= at && path[at] == SLASH;
      }
    }
  }

  /** One printed entry is the first entry read back. */
  lemma EntryInverts(name: seq<byte>, kind: byte, magic: seq<byte>, prefix: seq<byte>, data: seq<byte>, rest: seq<byte>)
    requires |name| <= 100 && |prefix| <= 155 && 0 !in name && 0 !in prefix && |data| <= U64_MAX
    requires magic == USTAR_MAGIC || (magic == GNU_MAGIC && prefix == [])
    ensures var bytes := PrintEntry(name, kind, magic, prefix, data) + rest;
            var e := Entry(kind, if prefix == [] then name else prefix + [SLASH] + name, data);
            && |bytes| >= BLOCK && !AllZero(bytes[..BLOCK])
            && FirstEntry(bytes) == Some(e) && After(bytes, e) == rest
  {
    hide Header, HeaderValid, TarNumber, HeaderName;
    var header := Header(name, |data|, kind, magic, prefix);
    HeaderInverts(name, |data|, kind, magic, prefix);
    HeaderIsNotZero(header);
    var bytes := PrintEntry(name, kind, magic, prefix, data) + rest;
    assert bytes == header + (Padded(data) + rest);
    assert bytes[..BLOCK] == header;
    assert bytes[BLOCK..] == Padded(data) + rest;
    assert bytes[BLOCK..BLOCK + |data|] == data;
    assert bytes[BLOCK + Blocks(|data|)..] == rest;
  }

  lemma HeaderIsNotZero(h: seq<byte>)
    requires |h| == BLOCK && HeaderValid(h)
    ensures !AllZero(h)
  {
    assert h[257] == h[257..265][0] == 117;
  }

  lemma LongNameInverts(path: Path)
    requires 0 !in path
    ensures LongName(path + [0]) == path
  {
    assert (path + [0])[..|path|] == path;
    assert path != [] ==> path[|path| - 1] in path;
  }

  function NameOf(m: Member): Named { Named(m.path, true, m.data) }

  lemma MemberInverts(m: Member, rest: seq<byte>, decode: seq<byte> -> Path)
    requires Placed(m) && |m.data| <= U64_MAX && |m.path| < U64_MAX && decode(m.path) == m.path
    ensures Whole(PrintMember(m) + rest, None, decode) == Prepend([NameOf(m)], Whole(rest, None, decode))
  {
    hide PrintEntry, FirstEntry, After, AllZero, Whole, LongName;
    var bytes := PrintMember(m) + rest;
    match m.place
    case InName =>
      EntryInverts(m.path, 48, USTAR_MAGIC, [], m.data, rest);
      WholeStep(bytes, None, decode);
    case Split(at) =>
      assert m.path[..at] + [SLASH] + m.path[at + 1..] == m.path;
      EntryInverts(m.path[at + 1..], 48, USTAR_MAGIC, m.path[..at], m.data, rest);
      WholeStep(bytes, None, decode);
    case Long(stub) =>
      var link := PrintEntry(LONG_LINK, LONG_NAME, GNU_MAGIC, [], m.path + [0]);
      var entry := PrintEntry(stub, 48, USTAR_MAGIC, [], m.data);
      assert bytes == link + (entry + rest);
      EntryInverts(LONG_LINK, LONG_NAME, GNU_MAGIC, [], m.path + [0], entry + rest);
      WholeStep(bytes, None, decode);
      LongNameInverts(m.path);
      EntryInverts(stub, 48, USTAR_MAGIC, [], m.data, rest);
      WholeStep(entry + rest, Some(m.path), decode);
  }

  function Names(ms: seq<Member>): (ns: seq<Named>)
    ensures |ns| == |ms| && forall i | 0 <= i < |ns| :: ns[i] == NameOf(ms[i])
  {
    seq(|ms|, i requires 0 <= i < |ms| => NameOf(ms[i]))
  }

  /** What an archive may hold: safe NUL-free paths the decoding keeps, of sizes a header can state. */
  ghost predicate Packable(ms: seq<Member>, decode: seq<byte> -> Path) {
    forall i | 0 <= i < |ms| ::
      && Placed(ms[i]) && PathSafe(ms[i].path) && decode(ms[i].path) == ms[i].path
      && |ms[i].data| <= U64_MAX && |ms[i].path| < U64_MAX
  }

  predicate Distinct(ms: seq<Member>) {
    forall i, j | 0 <= i < j < |ms| :: ms[i].path != ms[j].path
  }

  lemma EndReads(decode: seq<byte> -> Path)
    ensures Whole(PrintArchive([]), None, decode) == Some([])
  {
    EndOfArchive(Repeat(0, 2 * BLOCK), None, decode);
  }

  lemma {:induction false} ArchiveInverts(ms: seq<Member>, decode: seq<byte> -> Path)
    requires Packable(ms, decode)
    ensures Whole(PrintArchive(ms), None, decode) == Some(Names(ms))
  {
    hide Whole, PrintMember, PathSafe;
    if ms == [] {
      EndReads(decode);
    } else {
      ArchiveInverts(ms[1..], decode);
      MemberInverts(ms[0], PrintArchive(ms[1..]), decode);
      assert Names(ms) == [NameOf(ms[0])] + Names(ms[1..]);
    }
  }

  lemma {:induction false} NothingRefused(ns: seq<Named>)
    requires forall i | 0 <= i < |ns| :: Kept(ns, i)
    ensures RefusedPaths(ns) == []
  {
    if ns != [] {
      var before := ns[..|ns| - 1];
      forall i | 0 <= i < |before| ensures Kept(before, i) {
        assert before + [ns[|ns| - 1]] == ns;
        KeptBefore(before, ns[|ns| - 1], i);
      }
      NothingRefused(before);
    }
  }

  /** Round trip: packing an index and members at distinct safe paths and reading the archive back
      gives exactly those paths and bytes, and refuses nothing, however each path is placed. */
  method PackAndRead(ms: seq<Member>, decode: seq<byte> -> Path, indexOk: seq<byte> -> bool)
    returns (r: Option<Source>)
    requires Packable(ms, decode) && Distinct(ms)
    requires ms != [] && ms[0].path == INDEX && indexOk(ms[0].data)
    ensures r.Some? && r.value.index == ms[0].data && r.value.refused == []
    ensures forall p :: p in r.value.members <==> exists i | 0 <= i < |ms| :: ms[i].path == p
    ensures forall i | 0 <= i < |ms| :: r.value.members[ms[i].path] == ms[i].data
  {
    hide Whole, PrintMember, PrintArchive, PathSafe;
    ArchiveInverts(ms, decode);
    r := ReadArchive(PrintArchive(ms), decode, indexOk);
    ghost var ns := Names(ms);
    forall i | 0 <= i < |ns| ensures Kept(ns, i) && KeptAs(ns, i, ms[i].path) {}
    NothingRefused(ns);
    forall p | p in r.value.members ensures exists i | 0 <= i < |ms| :: ms[i].path == p {
      var i :| KeptAs(ns, i, p);
      assert ms[i].path == p;
    }
  }
}
