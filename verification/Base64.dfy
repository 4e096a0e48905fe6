/// The standard base64 alphabet with padding, section 4 of RFC 4648, decoded
/// strictly: canonical padding and zero trailing bits.

module Base64 {
  import opened Common

  /// One character's worth: six bits, or the padding sign.
  type Symbol = n: nat | n <= PAD

  const PAD: nat := 64

  function CharOf(n: Symbol): char {
    if n < 26 then ('A' as int + n) as char
    else if n < 52 then ('a' as int + (n - 26)) as char
    else if n < 62 then ('0' as int + (n - 52)) as char
    else if n == 62 then '+'
    else if n == 63 then '/'
    else '='
  }

  function SymbolOf(c: char): Option<Symbol> {
    if 'A' <= c <= 'Z' then Some(c as int - 'A' as int)
    else if 'a' <= c <= 'z' then Some(c as int - 'a' as int + 26)
    else if '0' <= c <= '9' then Some(c as int - '0' as int + 52)
    else if c == '+' then Some(62)
    else if c == '/' then Some(63)
    else if c == '=' then Some(PAD)
    else None
  }

  /// One to three bytes as four symbols.
  function Group(g: Bytes): (q: seq<Symbol>)
    requires 0 < |g| <= 3
    ensures |q| == 4
  {
    var b0 := g[0];
    if |g| == 1 then [b0 / 4, b0 % 4 * 16, PAD, PAD]
    else
      var b1 := g[1];
      if |g| == 2 then [b0 / 4, b0 % 4 * 16 + b1 / 16, b1 % 16 * 4, PAD]
      else
        var b2 := g[2];
        [b0 / 4, b0 % 4 * 16 + b1 / 16, b1 % 16 * 4 + b2 / 64, b2 % 64]
  }

  /// The bytes of four symbols; padding is legal in the last group only.
  function Ungroup(q: seq<Symbol>, last: bool): Option<Bytes>
    requires |q| == 4
  {
    var v0, v1, v2, v3 := q[0] as int, q[1] as int, q[2] as int, q[3] as int;
    if v0 == PAD || v1 == PAD then None
    else if v2 != PAD && v3 != PAD then Some([v0 * 4 + v1 / 16, v1 % 16 * 16 + v2 / 4, v2 % 4 * 64 + v3])
    else if !last || v3 != PAD then None
    else if v2 != PAD then
      if v2 % 4 == 0 then Some([v0 * 4 + v1 / 16, v1 % 16 * 16 + v2 / 4]) else None
    else
      if v1 % 16 == 0 then Some([v0 * 4 + v1 / 16]) else None
  }

  function Symbols(b: Bytes): seq<Symbol> {
    if b == [] then [] else Group(b[..Min(3, |b|)]) + Symbols(b[Min(3, |b|)..])
  }

  function Unpack(q: seq<Symbol>): Option<Bytes> {
    if q == [] then Some([])
    else if |q| < 4 then None
    else
      var group, rest := Ungroup(q[..4], |q| == 4), Unpack(q[4..]);
      if group.None? || rest.None? then None else Some(group.value + rest.value)
  }

  function Spell(q: seq<Symbol>): string {
    if q == [] then [] else [CharOf(q[0])] + Spell(q[1..])
  }

  function Read(s: string): Option<seq<Symbol>> {
    if s == [] then Some([])
    else
      var first, rest := SymbolOf(s[0]), Read(s[1..]);
      if first.None? || rest.None? then None else Some([first.value] + rest.value)
  }

  /// `BASE64.encode`.
  function Encode(b: Bytes): string {
    Spell(Symbols(b))
  }

  /// `BASE64.decode`.
  function Decode(s: string): Option<Bytes> {
    var q := Read(s);
    if q.None? then None else Unpack(q.value)
  }

  lemma {:induction false} ReadIffSpelled(s: string, q: seq<Symbol>)
    ensures Read(s) == Some(q) <==> s == Spell(q)
  {
    if s != [] && q != [] {
      ReadIffSpelled(s[1..], q[1..]);
      assert q == [q[0]] + q[1..] && s == [s[0]] + s[1..];
      assert Spell(q)[1..] == Spell(q[1..]);
      if Read(s).Some? {
        assert Read(s).value[1..] == Read(s[1..]).value;
      }
    }
  }

  lemma GroupRejoins(g: Bytes, last: bool)
    requires 0 < |g| <= 3 && (|g| < 3 ==> last)
    ensures Ungroup(Group(g), last) == Some(g)
  {
    assert |g| == 1 ==> g == [g[0]];
    assert |g| == 2 ==> g == [g[0], g[1]];
    assert |g| == 3 ==> g == [g[0], g[1], g[2]];
  }

  lemma UngroupIsGrouped(q: seq<Symbol>, last: bool)
    requires |q| == 4 && Ungroup(q, last).Some?
    ensures 0 < |Ungroup(q, last).value| <= 3
    ensures !last ==> |Ungroup(q, last).value| == 3
    ensures Group(Ungroup(q, last).value) == q
  {
    var g, v0, v1, v2 := Ungroup(q, last).value, q[0] as int, q[1] as int, q[2] as int;
    assert q == [q[0], q[1], q[2], q[3]];
    assert g[0] / 4 == v0 && g[0] % 4 == v1 / 16;
    if |g| > 1 {
      assert g[1] / 16 == v1 % 16 && g[1] % 16 == v2 / 4;
    }
    if |g| > 2 {
      assert g[2] / 64 == v2 % 4 && g[2] % 64 == q[3];
    }
  }

  lemma UnpackFirstGroup(g: Bytes, later: seq<Symbol>)
    requires 0 < |g| <= 3 && (|g| < 3 ==> later == [])
    ensures Unpack(Group(g) + later) ==
            if Unpack(later).None? then None else Some(g + Unpack(later).value)
  {
    var q := Group(g) + later;
    assert q[..4] == Group(g) && q[4..] == later;
    GroupRejoins(g, |q| == 4);
  }

  lemma {:induction false} UnpackSymbols(b: Bytes)
    ensures Unpack(Symbols(b)) == Some(b)
  {
    if b != [] {
      var g, rest := b[..Min(3, |b|)], b[Min(3, |b|)..];
      assert b == g + rest;
      UnpackSymbols(rest);
      if |g| < 3 {
        assert rest == [];
        assert Symbols(rest) == [];
      }
      UnpackFirstGroup(g, Symbols(rest));
      calc {
        Unpack(Symbols(b));
        Unpack(Group(g) + Symbols(rest));
        Some(g + rest);
      }
    }
  }

  lemma {:induction false} SymbolsUnpack(q: seq<Symbol>)
    requires Unpack(q).Some?
    ensures Symbols(Unpack(q).value) == q
  {
    if q != [] {
      var g, rest := Ungroup(q[..4], |q| == 4).value, Unpack(q[4..]).value;
      UngroupIsGrouped(q[..4], |q| == 4);
      SymbolsUnpack(q[4..]);
      var b := Unpack(q).value;
      assert b[..Min(3, |b|)] == g && b[Min(3, |b|)..] == rest;
      assert q == q[..4] + q[4..];
    }
  }

  /// Decoding yields `b` from the encoding of `b` and from no other string.
  lemma DecodeIffEncoded(s: string, b: Bytes)
    ensures Decode(s) == Some(b) <==> s == Encode(b)
  {
    UnpackSymbols(b);
    ReadIffSpelled(s, Symbols(b));
    if Decode(s) == Some(b) {
      SymbolsUnpack(Read(s).value);
    }
  }

  // ----- Against the standard -----

  lemma SpellCons(n: Symbol, rest: seq<Symbol>)
    ensures Spell([n] + rest) == [CharOf(n)] + Spell(rest)
  {
    assert ([n] + rest)[1..] == rest;
  }

  function Four(q: seq<Symbol>): string
    requires |q| == 4
  {
    [CharOf(q[0]), CharOf(q[1]), CharOf(q[2]), CharOf(q[3])]
  }

  lemma SpellFour(q: seq<Symbol>, rest: seq<Symbol>)
    requires |q| == 4
    ensures Spell(q + rest) == Four(q) + Spell(rest)
  {
    assert q + rest == [q[0]] + ([q[1]] + ([q[2]] + ([q[3]] + rest)));
    SpellCons(q[3], rest);
    SpellCons(q[2], [q[3]] + rest);
    SpellCons(q[1], [q[2]] + ([q[3]] + rest));
    SpellCons(q[0], [q[1]] + ([q[2]] + ([q[3]] + rest)));
  }

  lemma EncodeGroup(g: Bytes, rest: Bytes)
    requires |g| == 3 || (0 < |g| < 3 && rest == [])
    ensures Encode(g + rest) == Four(Group(g)) + Encode(rest)
  {
    var b := g + rest;
    assert b[..Min(3, |b|)] == g && b[Min(3, |b|)..] == rest;
    SpellFour(Group(g), Symbols(rest));
  }

  /// Three bytes are read as a number of 24 bits, of which the four characters are
  /// the digits to the base 64, and so on with the rest.
  lemma FourDigits(a: Byte, b: Byte, c: Byte, rest: Bytes) returns (q: seq<Symbol>)
    ensures |q| == 4 && forall i | 0 <= i < 4 :: q[i] < 64
    ensures var w, x, y, z := q[0] as int, q[1] as int, q[2] as int, q[3] as int;
            w * 0x40000 + x * 0x1000 + y * 64 + z == a as int * 0x1_0000 + b as int * 0x100 + c as int
    ensures Encode([a, b, c] + rest) == [CharOf(q[0]), CharOf(q[1]), CharOf(q[2]), CharOf(q[3])] + Encode(rest)
  {
    q := Group([a, b, c]);
    EncodeGroup([a, b, c], rest);
  }

  lemma LastGroup(g: Bytes)
    requires 0 < |g| <= 3
    ensures Encode(g) == Four(Group(g))
  {
    EncodeGroup(g, []);
    assert g + [] == g && Four(Group(g)) + [] == Four(Group(g));
  }

  lemma OneByteVector()
    ensures Encode([0x66]) == "Zg=="
  {
    LastGroup([0x66]);
    assert Group([0x66]) == [25, 32, PAD, PAD];
  }

  lemma TwoByteVector()
    ensures Encode([0x66, 0x6F]) == "Zm8="
  {
    LastGroup([0x66, 0x6F]);
    assert Group([0x66, 0x6F]) == [25, 38, 60, PAD];
  }

  lemma SixByteVector()
    ensures Encode([0x66, 0x6F, 0x6F] + [0x62, 0x61, 0x72]) == "Zm9v" + "YmFy"
  {
    EncodeGroup([0x66, 0x6F, 0x6F], [0x62, 0x61, 0x72]);
    LastGroup([0x62, 0x61, 0x72]);
    assert Group([0x66, 0x6F, 0x6F]) == [25, 38, 61, 47];
    assert Group([0x62, 0x61, 0x72]) == [24, 38, 5, 50];
  }

  /// Test vectors of section 10 of RFC 4648.
  lemma TestVectors()
    ensures Encode([0x66]) == "Zg==" && Encode([0x66, 0x6F]) == "Zm8="
    ensures Encode([0x66, 0x6F, 0x6F, 0x62, 0x61, 0x72]) == "Zm9vYmFy"
  {
    OneByteVector();
    TwoByteVector();
    SixByteVector();
    assert [0x66, 0x6F, 0x6F] + [0x62, 0x61, 0x72] == [0x66, 0x6F, 0x6F, 0x62, 0x61, 0x72];
    assert "Zm9v" + "YmFy" == "Zm9vYmFy";
  }
}
