/** Tar headers as the archive reader takes them apart, and the number fields they hold. */
module TarFormat {
  import opened Basics

  const BLOCK: nat := 512

  const USTAR_MAGIC: seq<byte> := [117, 115, 116, 97, 114, 0, 48, 48]
  const GNU_MAGIC: seq<byte> := [117, 115, 116, 97, 114, 32, 32, 0]

  // ----- number fields -----

  predicate IsPadding(b: byte) { b == 32 || b == 0 }

  predicate IsOctal(b: byte) { 48 <= b < 56 }

  function TrimStart(s: seq<byte>): (r: seq<byte>)
    ensures |r| <= |s| && (r != [] ==> !IsPadding(r[0]))
  {
    if s != [] && IsPadding(s[0]) then TrimStart(s[1..]) else s
  }

  function TrimEnd(s: seq<byte>): (r: seq<byte>)
    ensures r <= s && (r != [] ==> !IsPadding(r[|r| - 1]))
  {
    if s != [] && IsPadding(s[|s| - 1]) then TrimEnd(s[..|s| - 1]) else s
  }

  /** A number with one more digit at its end. */
  function Append(high: int, base: nat, d: int): int { high * base + d }

  /** The number big-endian digits spell in `base`, each digit offset by `zero`. */
  function Value(base: nat, zero: int, digits: seq<byte>): int {
    if digits == [] then 0
    else Append(Value(base, zero, digits[..|digits| - 1]), base, digits[|digits| - 1] - zero)
  }

  /** A number field: octal text, or base 256 when its high bit is set. */
  function TarNumber(field: seq<byte>): Option<nat> {
    if field != [] && field[0] >= 128 then
      Bounded(Value(256, 0, field[1..]))
    else
      var text := TrimEnd(TrimStart(field));
      if text == [] then Some(0)
      else
        var digits := if text[0] == 43 then text[1..] else text;
        if digits != [] && Every(digits, IsOctal) then Bounded(Value(8, 48, digits)) else None
  }

  function Bounded(v: int): Option<nat> {
    if 0 <= v <= U64_MAX then Some(v) else None
  }

  // ----- headers -----

  function Sum(s: seq<byte>): nat {
    if s == [] then 0 else Sum(s[..|s| - 1]) + s[|s| - 1]
  }

  /** The sum of a header's bytes, its checksum field read as spaces. */
  function Checksum(block: seq<byte>): nat
    requires |block| >= BLOCK
  {
    Sum(block[..148]) + 8 * 32 + Sum(block[156..BLOCK])
  }

  predicate HeaderValid(block: seq<byte>) {
    && |block| >= BLOCK
    && (block[257..265] == USTAR_MAGIC || block[257..265] == GNU_MAGIC)
    && TarNumber(block[148..156]) == Some(Checksum(block))
  }

  /** A text field, up to its first NUL. */
  function Text(field: seq<byte>): (t: seq<byte>)
    ensures t <= field && 0 !in t && (|t| < |field| ==> field[|t|] == 0)
  {
    if field == [] || field[0] == 0 then [] else [field[0]] + Text(field[1..])
  }

  /** Ustar's prefix joined to its name, or a GNU header's name. */
  function HeaderName(block: seq<byte>): seq<byte>
    requires |block| >= BLOCK
  {
    var name := Text(block[0..100]);
    var prefix := if block[257..263] == USTAR_MAGIC[..6] then Text(block[345..500]) else [];
    if prefix == [] then name else prefix + [47] + name
  }

  // ----- what the writer prints -----

  function Quotient(v: nat, base: nat): nat
    requires base >= 1
  {
    v / base
  }

  function Remainder(v: nat, base: nat): (r: nat)
    requires base >= 1
    ensures r < base
  {
    v % base
  }

  /** `n` digits of `v` in `base`, most significant first. */
  function Digits(base: nat, zero: byte, v: nat, n: nat): (s: seq<byte>)
    requires 2 <= base && zero + base <= 256
    ensures |s| == n && forall i | 0 <= i < n :: zero <= s[i] < zero + base
  {
    if n == 0 then [] else Digits(base, zero, Quotient(v, base), n - 1) + [zero + Remainder(v, base)]
  }

  function Power(base: nat, n: nat): nat {
    if n == 0 then 1 else base * Power(base, n - 1)
  }

  /** A number field of `width` bytes: octal digits and a NUL, or base 256 when octal has no room. */
  function NumberField(v: nat, width: nat): (f: seq<byte>)
    requires width >= 2
    ensures |f| == width
  {
    if v < Power(8, width - 1) then Digits(8, 48, v, width - 1) + [0]
    else [128] + Digits(256, 0, v, width - 1)
  }

  lemma Recombine(v: nat, base: nat)
    requires base >= 1
    ensures Append(Quotient(v, base), base, Remainder(v, base)) == v
  {}

  lemma QuotientBelow(base: nat, v: nat, n: nat)
    requires base >= 1 && n > 0 && v < Power(base, n)
    ensures Quotient(v, base) < Power(base, n - 1)
  {
    DivBelow(v, base, Power(base, n - 1));
  }

  lemma ValueOfLast(base: nat, zero: byte, high: seq<byte>, d: byte)
    ensures Value(base, zero, high + [d]) == Append(Value(base, zero, high), base, d - zero)
  {
    hide Append;
    assert (high + [d])[..|high|] == high;
  }

  lemma {:induction false} DigitsInvert(base: nat, zero: byte, v: nat, n: nat)
    requires 2 <= base && zero + base <= 256 && v < Power(base, n)
    ensures Value(base, zero, Digits(base, zero, v, n)) == v
  {
    if n > 0 {
      hide Power, Value, Append, Quotient, Remainder;
      QuotientBelow(base, v, n);
      DigitsInvert(base, zero, Quotient(v, base), n - 1);
      ValueOfLast(base, zero, Digits(base, zero, Quotient(v, base), n - 1), zero + Remainder(v, base));
      Recombine(v, base);
    }
  }

  lemma DivBelow(v: nat, base: nat, bound: nat)
    requires base >= 1 && v < base * bound
    ensures v / base < bound
  {
    if v / base >= bound {
      MulMonotone(base, bound, v / base);
      assert false;
    }
  }

  lemma MulMonotone(base: nat, a: nat, b: nat)
    requires a <= b
    ensures base * a <= base * b
  {
    assert base * b == base * a + base * (b - a);
  }

  lemma {:induction false} PowerGrows(base: nat, n: nat, m: nat)
    requires base >= 1 && n <= m
    ensures 1 <= Power(base, n) <= Power(base, m)
  {
    if m > 0 {
      if n < m {
        PowerGrows(base, n, m - 1);
        MulGrows(base, Power(base, m - 1));
      } else {
        PowerGrows(base, n - 1, m - 1);
        MulGrows(base, Power(base, m - 1));
      }
    }
  }

  lemma MulGrows(base: nat, p: nat)
    requires base >= 1
    ensures base * p >= p
  {
    assert base * p == p + (base - 1) * p;
  }

  lemma TrimOctal(digits: seq<byte>)
    requires digits != [] && Every(digits, IsOctal)
    ensures TrimEnd(TrimStart(digits + [0])) == digits
  {
    var field := digits + [0];
    assert IsOctal(digits[0]) && IsOctal(digits[|digits| - 1]);
    assert TrimStart(field) == field;
    assert field[..|field| - 1] == digits;
  }

  lemma OctalFieldInverts(v: nat, width: nat)
    requires v <= U64_MAX && width >= 2 && v < Power(8, width - 1)
    ensures TarNumber(Digits(8, 48, v, width - 1) + [0]) == Some(v)
  {
    hide Digits, Value, Power, TrimEnd, TrimStart;
    DigitsInvert(8, 48, v, width - 1);
    var digits := Digits(8, 48, v, width - 1);
    assert Every(digits, IsOctal);
    TrimOctal(digits);
    assert IsOctal(digits[0]);
  }

  /** Number fields invert, octal and base 256 alike: every number of 64 bits comes back from any
      field of nine bytes or more, and a smaller field returns what its octal digits have room for. */
  lemma NumberFieldInverts(v: nat, width: nat)
    requires v <= U64_MAX && width >= 2
    requires width >= 9 || v < Power(8, width - 1)
    ensures TarNumber(NumberField(v, width)) == Some(v)
  {
    hide Digits, Value, Power, TrimEnd, TrimStart;
    if v < Power(8, width - 1) {
      OctalFieldInverts(v, width);
    } else {
      PowerGrows(256, 8, width - 1);
      PowerOf256();
      DigitsInvert(256, 0, v, width - 1);
      assert NumberField(v, width)[1..] == Digits(256, 0, v, width - 1);
    }
  }

  lemma PowerOf256()
    ensures Power(256, 8) == U64_MAX + 1
  {
    assert Power(256, 2) == 65536;
    assert Power(256, 4) == 4294967296;
    assert Power(256, 6) == 281474976710656;
  }

  /** Text padded with NULs to a field's width. */
  function TextField(t: seq<byte>, width: nat): (f: seq<byte>)
    requires |t| <= width
    ensures |f| == width
  {
    t + Repeat(0, width - |t|)
  }

  lemma {:induction false} TextInverts(t: seq<byte>, width: nat)
    requires |t| <= width && 0 !in t
    ensures Text(TextField(t, width)) == t
  {
    if t != [] {
      TextInverts(t[1..], width - 1);
      assert TextField(t, width)[1..] == TextField(t[1..], width - 1);
    }
  }

  /** Mode, owner and group of every member. */
  const OWNERSHIP: seq<byte> :=
    [48, 48, 48, 48, 54, 52, 52, 0] + Repeat(48, 7) + [0] + Repeat(48, 7) + [0]

  /** What comes before the checksum. */
  function HeaderFront(name: seq<byte>, size: nat): (f: seq<byte>)
    requires |name| <= 100
    ensures |f| == 148
  {
    TextField(name, 100) + OWNERSHIP + NumberField(size, 12) + (Repeat(48, 11) + [0])
  }

  /** What comes after it. */
  function HeaderBack(kind: byte, magic: seq<byte>, prefix: seq<byte>): (b: seq<byte>)
    requires |magic| == 8 && |prefix| <= 155
    ensures |b| == 356
  {
    [kind] + Repeat(0, 100) + magic + Repeat(0, 80) + TextField(prefix, 155) + Repeat(0, 12)
  }

  function Header(name: seq<byte>, size: nat, kind: byte, magic: seq<byte>, prefix: seq<byte>): (h: seq<byte>)
    requires |name| <= 100 && |magic| == 8 && |prefix| <= 155
    ensures |h| == BLOCK
  {
    var front, back := HeaderFront(name, size), HeaderBack(kind, magic, prefix);
    front + NumberField(Sum(front) + 8 * 32 + Sum(back), 8) + back
  }

  lemma {:induction false} SumIsBounded(s: seq<byte>)
    ensures Sum(s) <= 255 * |s|
  {
    if s != [] {
      SumIsBounded(s[..|s| - 1]);
    }
  }

  lemma FrontFields(name: seq<byte>, size: nat)
    requires |name| <= 100
    ensures HeaderFront(name, size)[0..100] == TextField(name, 100)
    ensures HeaderFront(name, size)[124..136] == NumberField(size, 12)
  {
    hide NumberField, TextField;
    assert |OWNERSHIP| == 24;
  }

  lemma BackFields(kind: byte, magic: seq<byte>, prefix: seq<byte>)
    requires |magic| == 8 && |prefix| <= 155
    ensures var b := HeaderBack(kind, magic, prefix);
            b[0] == kind && b[101..109] == magic && b[189..344] == TextField(prefix, 155)
  {
    hide TextField;
  }

  lemma Slices(front: seq<byte>, mid: seq<byte>, back: seq<byte>)
    requires |front| == 148 && |mid| == 8 && |back| == 356
    ensures var h := front + mid + back;
            && h[..148] == front && h[148..156] == mid && h[156..BLOCK] == back
            && h[0..100] == front[0..100] && h[124..136] == front[124..136]
            && h[156] == back[0] && h[257..265] == back[101..109] && h[345..500] == back[189..344]
            && h[257..263] == back[101..109][..6]
  {}

  /** What a header prints is what the reader takes from it. */
  lemma HeaderInverts(name: seq<byte>, size: nat, kind: byte, magic: seq<byte>, prefix: seq<byte>)
    requires |name| <= 100 && |prefix| <= 155 && 0 !in name && 0 !in prefix && size <= U64_MAX
    requires magic == USTAR_MAGIC || (magic == GNU_MAGIC && prefix == [])
    ensures var h := Header(name, size, kind, magic, prefix);
            && HeaderValid(h)
            && TarNumber(h[124..136]) == Some(size)
            && h[156] == kind
            && HeaderName(h) == if prefix == [] then name else prefix + [47] + name
  {
    hide HeaderFront, HeaderBack, NumberField, TextField, Sum, TarNumber, Text, Power;
    var front, back := HeaderFront(name, size), HeaderBack(kind, magic, prefix);
    var sum := Sum(front) + 8 * 32 + Sum(back);
    FrontFields(name, size);
    BackFields(kind, magic, prefix);
    Slices(front, NumberField(sum, 8), back);
    SumIsBounded(front);
    SumIsBounded(back);
    PowerOf8();
    NumberFieldInverts(sum, 8);
    NumberFieldInverts(size, 12);
    TextInverts(name, 100);
    TextInverts(prefix, 155);
  }

  lemma PowerOf8()
    ensures Power(8, 7) == 2097152
  {
    assert Power(8, 3) == 512;
  }

  // ----- what a header cannot hide -----

  lemma {:induction false} SumOfChange(s: seq<byte>, i: nat, x: byte)
    requires i < |s|
    ensures Sum(s[i := x]) == Sum(s) - s[i] + x
  {
    var n := |s| - 1;
    if i == n {
      assert s[i := x][..n] == s[..n];
    } else {
      SumOfChange(s[..n], i, x);
      assert s[i := x][..n] == s[..n][i := x];
    }
  }

  function Zeros(n: nat): (s: seq<byte>)
    ensures |s| == n && forall i | 0 <= i < n :: s[i] == 0
  {
    Repeat(0 as byte, n)
  }

  lemma {:induction false} SumOfZeros(n: nat)
    ensures Sum(Zeros(n)) == 0
  {
    if n > 0 {
      SumOfZeros(n - 1);
      assert Zeros(n)[..n - 1] == Zeros(n - 1);
    }
  }

  /** The two kinds of header, and their only other demand. */
  lemma ValidHeadersAre(block: seq<byte>)
    requires |block| == BLOCK
    ensures HeaderValid(block) <==>
              && block[257..265] in {[117, 115, 116, 97, 114, 0, 48, 48], [117, 115, 116, 97, 114, 32, 32, 0]}
              && TarNumber(block[148..156]) == Some(Checksum(block))
  {
    hide Checksum, TarNumber;
  }

  /** A header that is not ustar's own is named by its first hundred bytes alone. */
  lemma OnlyUstarHasPrefix(a: seq<byte>, b: seq<byte>)
    requires |a| >= BLOCK && |b| >= BLOCK && a[..100] == b[..100]
    requires a[257..263] == b[257..263] != [117, 115, 116, 97, 114, 0]
    ensures HeaderName(a) == HeaderName(b)
  {
    hide Text;
    assert a[0..100] == a[..100] && b[0..100] == b[..100];
  }

  /** The checksum of a block of zeros is eight spaces, and every byte outside the checksum's own field, and
      none inside, counts as itself: so it is the sum of the bytes with that field read as spaces. */
  lemma ChecksumCounts(block: seq<byte>, i: nat, x: byte)
    requires |block| == BLOCK && i < BLOCK
    ensures Checksum(Zeros(BLOCK)) == 8 * 32
    ensures Checksum(block[i := x]) == Checksum(block) + if 148 <= i < 156 then 0 else x - block[i]
  {
    SumOfZeros(148);
    SumOfZeros(356);
    assert Zeros(BLOCK)[..148] == Zeros(148) && Zeros(BLOCK)[156..BLOCK] == Zeros(356);
    hide Sum;
    var now := block[i := x];
    if i < 148 {
      SumOfChange(block[..148], i, x);
      assert now[..148] == block[..148][i := x] && now[156..BLOCK] == block[156..BLOCK];
    } else if i < 156 {
      assert now[..148] == block[..148] && now[156..BLOCK] == block[156..BLOCK];
    } else {
      SumOfChange(block[156..BLOCK], i - 156, x);
      assert now[..148] == block[..148] && now[156..BLOCK] == block[156..BLOCK][i - 156 := x];
    }
  }

  /** A valid header with any one byte changed, outside the checksum, is refused. */
  lemma ChangedHeaderFails(block: seq<byte>, i: nat, x: byte)
    requires |block| == BLOCK && HeaderValid(block) && i < BLOCK && !(148 <= i < 156) && x != block[i]
    ensures !HeaderValid(block[i := x])
  {
    hide Checksum, TarNumber;
    ChecksumCounts(block, i, x);
    assert block[i := x][148..156] == block[148..156];
  }

  lemma {:induction false} TrimKeeps(s: seq<byte>, b: byte)
    requires b in s && !IsPadding(b)
    ensures b in TrimStart(s) && b in TrimEnd(s)
  {
    if IsPadding(s[0]) {
      TrimStartKeeps(s, b);
    }
    TrimEndKeeps(s, b);
  }

  lemma {:induction false} TrimStartKeeps(s: seq<byte>, b: byte)
    requires b in s && !IsPadding(b)
    ensures b in TrimStart(s)
  {
    if IsPadding(s[0]) {
      assert s == [s[0]] + s[1..];
      TrimStartKeeps(s[1..], b);
    }
  }

  lemma {:induction false} TrimEndKeeps(s: seq<byte>, b: byte)
    requires b in s && !IsPadding(b)
    ensures b in TrimEnd(s)
  {
    var n := |s| - 1;
    if IsPadding(s[n]) {
      assert s == s[..n] + [s[n]];
      TrimEndKeeps(s[..n], b);
    }
  }

  /** A field of text that holds anything but octal digits, a plus sign, spaces and NULs is no number. */
  lemma MalformedNumber(field: seq<byte>, b: byte)
    requires field != [] && field[0] < 128 && b in field && !IsPadding(b) && !IsOctal(b) && b != 43
    ensures TarNumber(field) == None
  {
    TrimKeeps(field, b);
    TrimKeeps(TrimStart(field), b);
    var text := TrimEnd(TrimStart(field));
    hide TrimStart, TrimEnd, Value;
    var k :| 0 <= k < |text| && text[k] == b;
    var digits := if text[0] == 43 then text[1..] else text;
    assert digits[if text[0] == 43 then k - 1 else k] == b;
  }
}
