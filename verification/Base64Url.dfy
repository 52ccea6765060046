/** Unpadded, canonical base64url (RFC 4648, section 5). */
module Base64Url {
  import opened Basics

  function Symbol(v: int): char
    requires 0 <= v < 64
  {
    if v < 26 then (65 + v) as char
    else if v < 52 then (97 + v - 26) as char
    else if v < 62 then (48 + v - 52) as char
    else if v == 62 then '-'
    else '_'
  }

  function Sextet(c: char): (v: Option<int>)
    ensures v.Some? ==> 0 <= v.value < 64
  {
    if 'A' <= c <= 'Z' then Some(c as int - 65)
    else if 'a' <= c <= 'z' then Some(c as int - 97 + 26)
    else if '0' <= c <= '9' then Some(c as int - 48 + 52)
    else if c == '-' then Some(62)
    else if c == '_' then Some(63)
    else None
  }

  /** RFC 4648, table 2: `A` to `Z`, `a` to `z` and `0` to `9` in turn, then `-` and `_`; and a symbol has just
      the value it stands for, any other character none. */
  lemma SymbolTable(v: int, c: char)
    requires 0 <= v < 64
    ensures Symbol(0) == 'A' && Symbol(25) == 'Z' && Symbol(26) == 'a' && Symbol(51) == 'z'
    ensures Symbol(52) == '0' && Symbol(61) == '9' && Symbol(62) == '-' && Symbol(63) == '_'
    ensures v !in {25, 51, 61, 62, 63} ==> Symbol(v + 1) as int == Symbol(v) as int + 1
    ensures Sextet(c) == Some(v) <==> c == Symbol(v)
    ensures Sextet(c) == None <==> forall u | 0 <= u < 64 :: c != Symbol(u)
  {
    SextetMeans(v, c);
    if Sextet(c).Some? {
      SextetMeans(Sextet(c).value, c);
    } else {
      forall u | 0 <= u < 64
        ensures c != Symbol(u)
      {
        SextetMeans(u, c);
      }
    }
  }

  lemma SextetMeans(v: int, c: char)
    requires 0 <= v < 64
    ensures Sextet(c) == Some(v) <==> c == Symbol(v)
  {}

  function Encode(b: seq<byte>): string {
    if b == [] then ""
    else if |b| == 1 then [Symbol(b[0] / 4), Symbol(b[0] % 4 * 16)]
    else if |b| == 2 then
      [Symbol(b[0] / 4), Symbol(b[0] % 4 * 16 + b[1] / 16), Symbol(b[1] % 16 * 4)]
    else
      [Symbol(b[0] / 4), Symbol(b[0] % 4 * 16 + b[1] / 16), Symbol(b[1] % 16 * 4 + b[2] / 64), Symbol(b[2] % 64)]
      + Encode(b[3..])
  }

  /** The bytes a text spells, whatever its last symbol's unused bits are. */
  function Spelled(t: string): Option<seq<byte>> {
    if t == "" then Some([])
    else if |t| == 1 then None
    else
      var s0, s1 := Sextet(t[0]), Sextet(t[1]);
      if s0.None? || s1.None? then None
      else if |t| == 2 then Some([s0.value * 4 + s1.value / 16])
      else
        var s2 := Sextet(t[2]);
        if s2.None? then None
        else if |t| == 3 then Some([s0.value * 4 + s1.value / 16, s1.value % 16 * 16 + s2.value / 4])
        else
          var s3, rest := Sextet(t[3]), Spelled(t[4..]);
          if s3.None? || rest.None? then None
          else
            Some([s0.value * 4 + s1.value / 16, s1.value % 16 * 16 + s2.value / 4, s2.value % 4 * 64 + s3.value]
                 + rest.value)
  }

  /** Decoding refuses every text but the one the encoder writes. */
  function Decode(t: string): Option<seq<byte>> {
    var bytes := Spelled(t);
    if bytes.None? || Encode(bytes.value) != t then None else bytes
  }

  lemma SymbolInverts(v: int)
    requires 0 <= v < 64
    ensures Sextet(Symbol(v)) == Some(v)
  {}

  lemma Regroup(x: byte, y: byte, z: byte)
    ensures x / 4 * 4 + (x % 4 * 16 + y / 16) / 16 == x && x / 4 * 4 + (x % 4 * 16) / 16 == x
    ensures (x % 4 * 16 + y / 16) % 16 * 16 + (y % 16 * 4 + z / 64) / 4 == y
    ensures (x % 4 * 16 + y / 16) % 16 * 16 + (y % 16 * 4) / 4 == y
    ensures (y % 16 * 4 + z / 64) % 4 * 64 + z % 64 == z
  {}

  lemma {:induction false} EncodeInverts(b: seq<byte>)
    ensures Spelled(Encode(b)) == Some(b)
  {
    hide Symbol, Sextet;
    if |b| == 1 {
      OneSpells(b[0]);
      assert b == [b[0]];
    } else if |b| == 2 {
      TwoSpell(b[0], b[1]);
      assert b == [b[0], b[1]];
    } else if |b| > 2 {
      hide Spelled;
      EncodeInverts(b[3..]);
      QuadSpells(b[0], b[1], b[2], Encode(b[3..]), b[3..]);
      assert b == [b[0], b[1], b[2]] + b[3..];
    }
  }

  lemma OneSpells(x: byte)
    ensures Spelled([Symbol(x / 4), Symbol(x % 4 * 16)]) == Some([x])
  {
    hide Symbol, Sextet;
    SymbolInverts(x / 4);
    SymbolInverts(x % 4 * 16);
    Regroup(x, 0, 0);
  }

  lemma TwoSpell(x: byte, y: byte)
    ensures Spelled([Symbol(x / 4), Symbol(x % 4 * 16 + y / 16), Symbol(y % 16 * 4)]) == Some([x, y])
  {
    hide Symbol, Sextet;
    SymbolInverts(x / 4);
    SymbolInverts(x % 4 * 16 + y / 16);
    SymbolInverts(y % 16 * 4);
    Regroup(x, y, 0);
  }

  lemma QuadSpells(x: byte, y: byte, z: byte, rest: string, bytes: seq<byte>)
    requires Spelled(rest) == Some(bytes)
    ensures Spelled([Symbol(x / 4), Symbol(x % 4 * 16 + y / 16), Symbol(y % 16 * 4 + z / 64), Symbol(z % 64)] + rest)
         == Some([x, y, z] + bytes)
  {
    hide Symbol, Sextet;
    SymbolInverts(x / 4);
    SymbolInverts(x % 4 * 16 + y / 16);
    SymbolInverts(y % 16 * 4 + z / 64);
    SymbolInverts(z % 64);
    Regroup(x, y, z);
    var head := [Symbol(x / 4), Symbol(x % 4 * 16 + y / 16), Symbol(y % 16 * 4 + z / 64), Symbol(z % 64)];
    assert (head + rest)[4..] == rest;
  }

  /** A text decodes to bytes exactly when it is their encoding, so neither has a second spelling. */
  lemma DecodeIsCanonical(t: string, b: seq<byte>)
    ensures Decode(t) == Some(b) <==> t == Encode(b)
  {
    EncodeInverts(b);
  }

  predicate IsSymbol(c: char) {
    'A' <= c <= 'Z' || 'a' <= c <= 'z' || '0' <= c <= '9' || c == '-' || c == '_'
  }

  lemma {:induction false} EncodeUsesSymbols(b: seq<byte>)
    ensures forall i | 0 <= i < |Encode(b)| :: IsSymbol(Encode(b)[i])
    ensures b != [] ==> Encode(b) != ""
  {
    if |b| >= 3 {
      EncodeUsesSymbols(b[3..]);
    }
  }
}
