/** Base64 (RFC 4648): the padded encoding of section 4 and the URL-safe alphabet of section 5. */
module Base64 {
  import opened Common

  type Byte = x: int | 0 <= x < 256

  datatype Alphabet = Standard | UrlSafe

  function Symbol(a: Alphabet, v: int): char
    requires 0 <= v < 64
  {
    if v < 26 then 'A' + v as char
    else if v < 52 then 'a' + (v - 26) as char
    else if v < 62 then '0' + (v - 52) as char
    else if v == 62 then (if a.Standard? then '+' else '-')
    else (if a.Standard? then '/' else '_')
  }

  function SymbolValue(a: Alphabet, c: char): (v: int)
    ensures -1 <= v < 64
  {
    if 'A' <= c <= 'Z' then (c - 'A') as int
    else if 'a' <= c <= 'z' then (c - 'a') as int + 26
    else if '0' <= c <= '9' then (c - '0') as int + 52
    else if c == (if a.Standard? then '+' else '-') then 62
    else if c == (if a.Standard? then '/' else '_') then 63
    else -1
  }

  lemma SymbolsAreDistinct(a: Alphabet, v: int)
    requires 0 <= v < 64
    ensures SymbolValue(a, Symbol(a, v)) == v && Symbol(a, v) != '='
  {
  }

  // Three octets make four symbols.
  function Group(a: Alphabet, b0: Byte, b1: Byte, b2: Byte): string {
    [Symbol(a, b0 / 4), Symbol(a, b0 % 4 * 16 + b1 / 16), Symbol(a, b1 % 16 * 4 + b2 / 64), Symbol(a, b2 % 64)]
  }

  // The symbols of the data, without padding.
  function Body(a: Alphabet, bytes: seq<Byte>): string {
    if |bytes| == 0 then ""
    else if |bytes| == 1 then
      [Symbol(a, bytes[0] / 4), Symbol(a, bytes[0] % 4 * 16)]
    else if |bytes| == 2 then
      [Symbol(a, bytes[0] / 4), Symbol(a, bytes[0] % 4 * 16 + bytes[1] / 16), Symbol(a, bytes[1] % 16 * 4)]
    else Group(a, bytes[0], bytes[1], bytes[2]) + Body(a, bytes[3..])
  }

  function Padding(n: nat): string {
    if n % 3 == 1 then "==" else if n % 3 == 2 then "=" else ""
  }

  function Encode(a: Alphabet, bytes: seq<Byte>): string {
    Body(a, bytes) + Padding(|bytes|)
  }

  // One group of four symbols; padding may stand only at its end.
  function DecodeGroup(a: Alphabet, s: string): Option<seq<Byte>>
    requires |s| == 4
  {
    var v0, v1, v2, v3 := SymbolValue(a, s[0]), SymbolValue(a, s[1]), SymbolValue(a, s[2]), SymbolValue(a, s[3]);
    if v0 < 0 || v1 < 0 then None
    else if s[2] == '=' && s[3] == '=' then Some([v0 * 4 + v1 / 16])
    else if v2 < 0 then None
    else if s[3] == '=' then Some([v0 * 4 + v1 / 16, v1 % 16 * 16 + v2 / 4])
    else if v3 < 0 then None
    else Some([v0 * 4 + v1 / 16, v1 % 16 * 16 + v2 / 4, v2 % 4 * 64 + v3])
  }

  predicate OnlyPadding(s: string) {
    forall i :: 0 <= i < |s| ==> s[i] == '='
  }

  // Whole groups, the last of which may be padded; more padding may follow an unpadded one.
  function DecodeGroups(a: Alphabet, s: string): Option<seq<Byte>> {
    if OnlyPadding(s) then Some([])
    else if |s| < 4 then None
    else
      var group := DecodeGroup(a, s[..4]);
      if group.None? then None
      else if |s| == 4 then group
      else if |group.value| < 3 then None
      else
        var rest := DecodeGroups(a, s[4..]);
        if rest.None? then None else Some(group.value + rest.value)
  }

  // binascii.a2b_base64 in strict mode: padding may not come first.
  function Decode(a: Alphabet, s: string): Option<seq<Byte>> {
    if s != "" && s[0] == '=' then None else DecodeGroups(a, s)
  }

  // Splitting three octets into four sextets loses nothing.
  lemma SextetsRecombine(b0: Byte, b1: Byte, b2: Byte)
    ensures var v0, v1, v2, v3 := b0 / 4, b0 % 4 * 16 + b1 / 16, b1 % 16 * 4 + b2 / 64, b2 % 64;
            && 0 <= v0 < 64 && 0 <= v1 < 64 && 0 <= v2 < 64 && 0 <= v3 < 64
            && v0 * 4 + v1 / 16 == b0 && v1 % 16 * 16 + v2 / 4 == b1 && v2 % 4 * 64 + v3 == b2
  {
  }

  // What a group of symbols decodes to, with two, one or no padding characters.
  lemma GroupDecodes(a: Alphabet, v0: int, v1: int, v2: int, v3: int)
    requires 0 <= v0 < 64 && 0 <= v1 < 64 && 0 <= v2 < 64 && 0 <= v3 < 64
    ensures DecodeGroup(a, [Symbol(a, v0), Symbol(a, v1), '=', '=']) == Some([v0 * 4 + v1 / 16])
    ensures DecodeGroup(a, [Symbol(a, v0), Symbol(a, v1), Symbol(a, v2), '='])
            == Some([v0 * 4 + v1 / 16, v1 % 16 * 16 + v2 / 4])
    ensures DecodeGroup(a, [Symbol(a, v0), Symbol(a, v1), Symbol(a, v2), Symbol(a, v3)])
            == Some([v0 * 4 + v1 / 16, v1 % 16 * 16 + v2 / 4, v2 % 4 * 64 + v3])
  {
    SymbolsAreDistinct(a, v0);
    SymbolsAreDistinct(a, v1);
    SymbolsAreDistinct(a, v2);
    SymbolsAreDistinct(a, v3);
    hide Symbol, SymbolValue;
  }

  lemma OneByteRoundTrip(a: Alphabet, b0: Byte)
    ensures |Encode(a, [b0])| == 4 && DecodeGroup(a, Encode(a, [b0])) == Some([b0])
  {
    hide DecodeGroup, Symbol;
    SextetsRecombine(b0, 0, 0);
    var v0, v1 := b0 / 4, b0 % 4 * 16;
    assert Encode(a, [b0]) == [Symbol(a, v0), Symbol(a, v1), '=', '='];
    GroupDecodes(a, v0, v1, 0, 0);
  }

  lemma TwoByteBody(a: Alphabet, b0: Byte, b1: Byte)
    ensures b0 % 4 * 16 + b1 / 16 < 64 && b1 % 16 * 4 < 64
    ensures Encode(a, [b0, b1])
            == [Symbol(a, b0 / 4), Symbol(a, b0 % 4 * 16 + b1 / 16), Symbol(a, b1 % 16 * 4), '=']
  {
    hide Symbol;
  }

  lemma TwoByteRoundTrip(a: Alphabet, b0: Byte, b1: Byte)
    ensures |Encode(a, [b0, b1])| == 4 && DecodeGroup(a, Encode(a, [b0, b1])) == Some([b0, b1])
  {
    hide DecodeGroup, Symbol, Encode;
    TwoByteBody(a, b0, b1);
    SextetsRecombine(b0, b1, 0);
    GroupDecodes(a, b0 / 4, b0 % 4 * 16 + b1 / 16, b1 % 16 * 4, 0);
  }

  lemma GroupDecodesBack(a: Alphabet, b0: Byte, b1: Byte, b2: Byte)
    ensures DecodeGroup(a, Group(a, b0, b1, b2)) == Some([b0, b1, b2])
  {
    hide DecodeGroup, Symbol;
    SextetsRecombine(b0, b1, b2);
    var v0, v1, v2, v3 := b0 / 4, b0 % 4 * 16 + b1 / 16, b1 % 16 * 4 + b2 / 64, b2 % 64;
    assert Group(a, b0, b1, b2) == [Symbol(a, v0), Symbol(a, v1), Symbol(a, v2), Symbol(a, v3)];
    GroupDecodes(a, v0, v1, v2, v3);
  }

  lemma ThreeByteRoundTrip(a: Alphabet, b0: Byte, b1: Byte, b2: Byte)
    ensures |Encode(a, [b0, b1, b2])| == 4 && DecodeGroup(a, Encode(a, [b0, b1, b2])) == Some([b0, b1, b2])
  {
    GroupDecodesBack(a, b0, b1, b2);
    var group := Group(a, b0, b1, b2);
    assert |group| == 4;
    hide DecodeGroup, Symbol, Group;
    assert [b0, b1, b2][3..] == [] && Body(a, []) == "" && group + "" + "" == group;
    assert Encode(a, [b0, b1, b2]) == group;
  }

  lemma GroupRoundTrip(a: Alphabet, bytes: seq<Byte>)
    requires 1 <= |bytes| <= 3
    ensures |Encode(a, bytes)| == 4 && DecodeGroup(a, Encode(a, bytes)) == Some(bytes)
  {
    hide Encode, DecodeGroup;
    if |bytes| == 1 {
      OneByteRoundTrip(a, bytes[0]);
      assert bytes == [bytes[0]];
    } else if |bytes| == 2 {
      TwoByteRoundTrip(a, bytes[0], bytes[1]);
      assert bytes == [bytes[0], bytes[1]];
    } else {
      ThreeByteRoundTrip(a, bytes[0], bytes[1], bytes[2]);
      assert bytes == [bytes[0], bytes[1], bytes[2]];
    }
  }

  lemma EncodeSplits(a: Alphabet, bytes: seq<Byte>)
    requires |bytes| > 3
    ensures Encode(a, bytes) == Encode(a, bytes[..3]) + Encode(a, bytes[3..])
  {
    hide Symbol, Group;
    var first, rest := bytes[..3], bytes[3..];
    var group := Group(a, bytes[0], bytes[1], bytes[2]);
    assert first[3..] == [] && Body(a, first) == group + "" == group;
    assert Body(a, bytes) == group + Body(a, rest);
    hide Body;
    assert Padding(3) == "" && Encode(a, first) == group + "" == group;
    assert |bytes| % 3 == |rest| % 3;
  }

  lemma EncodeNonempty(a: Alphabet, bytes: seq<Byte>)
    requires bytes != []
    ensures |Encode(a, bytes)| > 0 && Encode(a, bytes)[0] != '='
  {
    SymbolsAreDistinct(a, bytes[0] / 4);
    hide Symbol, SymbolValue;
  }

  // One group, and what follows it.
  lemma GroupThenRest(a: Alphabet, g: string, t: string, bytes: seq<Byte>)
    requires |g| == 4 && g[0] != '=' && DecodeGroup(a, g) == Some(bytes) && (t != "" ==> |bytes| == 3)
    ensures DecodeGroups(a, g + t)
            == if t == "" then Some(bytes)
               else if DecodeGroups(a, t).None? then None else Some(bytes + DecodeGroups(a, t).value)
  {
    var s := g + t;
    assert s[0] == g[0] && s[..4] == g && s[4..] == t && !OnlyPadding(s);
    hide DecodeGroup;
  }

  lemma OneGroupRoundTrip(a: Alphabet, bytes: seq<Byte>, excess: string)
    requires 1 <= |bytes| <= 3 && OnlyPadding(excess) && (excess != "" ==> |bytes| == 3)
    ensures DecodeGroups(a, Encode(a, bytes) + excess) == Some(bytes)
  {
    assert DecodeGroups(a, excess) == Some([]) && bytes + [] == bytes;
    hide DecodeGroups, DecodeGroup, Encode, OnlyPadding;
    EncodeNonempty(a, bytes);
    GroupRoundTrip(a, bytes);
    GroupThenRest(a, Encode(a, bytes), excess, bytes);
  }

  // Padding in excess, after the last complete group, is ignored.
  lemma {:induction false} GroupsRoundTrip(a: Alphabet, bytes: seq<Byte>, excess: string)
    requires OnlyPadding(excess) && (excess != "" ==> |bytes| % 3 == 0)
    ensures DecodeGroups(a, Encode(a, bytes) + excess) == Some(bytes)
    decreases |bytes|
  {
    if |bytes| == 0 {
      assert Encode(a, bytes) + excess == excess;
    } else {
      hide DecodeGroups, DecodeGroup, Encode, OnlyPadding;
      if |bytes| <= 3 {
        OneGroupRoundTrip(a, bytes, excess);
      } else {
        var first, rest := bytes[..3], bytes[3..];
        assert bytes == first + rest && |rest| % 3 == |bytes| % 3;
        EncodeSplits(a, bytes);
        EncodeNonempty(a, first);
        EncodeNonempty(a, rest);
        GroupRoundTrip(a, first);
        GroupThenRest(a, Encode(a, first), Encode(a, rest) + excess, first);
        assert Encode(a, bytes) + excess == Encode(a, first) + (Encode(a, rest) + excess);
        GroupsRoundTrip(a, rest, excess);
      }
    }
  }

  /** Decoding undoes encoding, also with any padding in excess of complete groups. */
  lemma RoundTrip(a: Alphabet, bytes: seq<Byte>, excess: string)
    requires OnlyPadding(excess) && (excess != "" ==> bytes != [] && |bytes| % 3 == 0)
    ensures Decode(a, Encode(a, bytes) + excess) == Some(bytes)
  {
    GroupsRoundTrip(a, bytes, excess);
    if bytes != [] {
      EncodeNonempty(a, bytes);
    }
    hide Encode, DecodeGroups;
  }

  lemma {:induction false} BodyLength(a: Alphabet, bytes: seq<Byte>)
    ensures |Body(a, bytes)| == (4 * |bytes| + 2) / 3
    ensures forall c :: c in Body(a, bytes) ==> SymbolValue(a, c) >= 0
    decreases |bytes|
  {
    if |bytes| > 2 {
      BodyLength(a, bytes[3..]);
    }
    forall v | 0 <= v < 64
      ensures SymbolValue(a, Symbol(a, v)) >= 0
    {
    }
  }

  // ---------------------------------------------------------------- what the encoding is

  const UPPER := "ABCDEFGHIJKLMNOPQRSTUVWXYZ"
  const LOWER := "abcdefghijklmnopqrstuvwxyz"
  const DIGITS := "0123456789"

  // Table 1 or 2 of RFC 4648.
  function Table(a: Alphabet): string {
    UPPER + LOWER + DIGITS + (if a.Standard? then "+/" else "-_")
  }

  lemma LettersAreInOrder(v: int)
    requires 0 <= v < 26
    ensures UPPER[v] == 'A' + v as char && LOWER[v] == 'a' + v as char
  {
    var upper, lower := UPPER, LOWER;
    assert upper[0] == 'A' && upper[25] == 'Z' && lower[0] == 'a' && lower[25] == 'z';
  }

  lemma DigitsAreInOrder(v: int)
    requires 0 <= v < 10
    ensures DIGITS[v] == '0' + v as char
  {
    var digits := DIGITS;
    assert digits[0] == '0';
  }

  // Where the parts of a table stand.
  lemma TableParts(a: Alphabet)
    ensures |UPPER| == |LOWER| == 26 && |DIGITS| == 10 && |Table(a)| == 64
    ensures forall v :: 0 <= v < 26 ==> Table(a)[v] == UPPER[v]
    ensures forall v :: 26 <= v < 52 ==> Table(a)[v] == LOWER[v - 26]
    ensures forall v :: 52 <= v < 62 ==> Table(a)[v] == DIGITS[v - 52]
    ensures Table(a)[62] == (if a.Standard? then '+' else '-') && Table(a)[63] == (if a.Standard? then '/' else '_')
  {
  }

  /** The symbols are those of the tables, in their order. */
  lemma SymbolsFollowTheTables(a: Alphabet, v: int)
    requires 0 <= v < 64
    ensures |Table(a)| == 64 && Symbol(a, v) == Table(a)[v]
  {
    TableParts(a);
    hide Table;
    if v < 26 {
      LettersAreInOrder(v);
    } else if v < 52 {
      LettersAreInOrder(v - 26);
    } else if v < 62 {
      DigitsAreInOrder(v - 52);
    } else {
      assert v == 62 || v == 63;
    }
  }

  // Octets read as the digits of a number in base 256, continuing `n`.
  function Octets(n: int, bytes: seq<Byte>): int
    decreases |bytes|
  {
    if bytes == [] then n else Octets(n * 256 + bytes[0], bytes[1..])
  }

  // Symbols read as the digits of a number in base 64.
  function Sextets(a: Alphabet, n: int, s: string): int
    decreases |s|
  {
    if s == "" then n else Sextets(a, n * 64 + SymbolValue(a, s[0]), s[1..])
  }

  // The data of n octets, shifted by the bits the last symbol leaves unused.
  function Shifted(n: nat, data: int): int {
    if n % 3 == 1 then data * 16 else if n % 3 == 2 then data * 4 else data
  }

  lemma SextetsOfTwo(a: Alphabet, n: int, v0: int, v1: int)
    requires 0 <= v0 < 64 && 0 <= v1 < 64
    ensures Sextets(a, n, [Symbol(a, v0), Symbol(a, v1)]) == (n * 64 + v0) * 64 + v1
  {
    SymbolsAreDistinct(a, v0);
    SymbolsAreDistinct(a, v1);
    hide Symbol, SymbolValue;
    var s := [Symbol(a, v0), Symbol(a, v1)];
    assert s[1..] == [Symbol(a, v1)] && s[1..][1..] == "";
    assert Sextets(a, n * 64 + v0, s[1..]) == (n * 64 + v0) * 64 + v1;
  }

  lemma {:induction false} SextetsJoin(a: Alphabet, n: int, s: string, t: string)
    ensures Sextets(a, n, s + t) == Sextets(a, Sextets(a, n, s), t)
    decreases |s|
  {
    if s == "" {
      assert s + t == t;
    } else {
      assert (s + t)[1..] == s[1..] + t;
      SextetsJoin(a, n * 64 + SymbolValue(a, s[0]), s[1..], t);
    }
  }

  lemma SextetsOfThree(a: Alphabet, n: int, v0: int, v1: int, v2: int)
    requires 0 <= v0 < 64 && 0 <= v1 < 64 && 0 <= v2 < 64
    ensures Sextets(a, n, [Symbol(a, v0), Symbol(a, v1), Symbol(a, v2)]) == ((n * 64 + v0) * 64 + v1) * 64 + v2
  {
    var s := [Symbol(a, v0), Symbol(a, v1)];
    SextetsOfTwo(a, n, v0, v1);
    SextetsJoin(a, n, s, [Symbol(a, v2)]);
    assert s + [Symbol(a, v2)] == [Symbol(a, v0), Symbol(a, v1), Symbol(a, v2)];
    SymbolsAreDistinct(a, v2);
    hide Symbol, SymbolValue;
    assert [Symbol(a, v2)][1..] == "";
  }

  lemma SextetsOfGroup(a: Alphabet, n: int, b0: Byte, b1: Byte, b2: Byte)
    ensures Sextets(a, n, Group(a, b0, b1, b2)) == ((n * 256 + b0) * 256 + b1) * 256 + b2
  {
    SextetsRecombine(b0, b1, b2);
    var v0, v1, v2, v3 := b0 / 4, b0 % 4 * 16 + b1 / 16, b1 % 16 * 4 + b2 / 64, b2 % 64;
    var s, t := [Symbol(a, v0), Symbol(a, v1)], [Symbol(a, v2), Symbol(a, v3)];
    SextetsJoin(a, n, s, t);
    SextetsOfTwo(a, n, v0, v1);
    SextetsOfTwo(a, (n * 64 + v0) * 64 + v1, v2, v3);
    assert s + t == Group(a, b0, b1, b2);
  }

  lemma ShortBodyIsTheSameNumber(a: Alphabet, n: int, bytes: seq<Byte>)
    requires 1 <= |bytes| <= 2
    ensures Sextets(a, n, Body(a, bytes)) == Shifted(|bytes|, Octets(n, bytes))
  {
    hide Symbol, SymbolValue, Sextets;
    var b0: int := bytes[0];
    var n1, rest := n * 256 + b0, bytes[1..];
    assert Octets(n, bytes) == Octets(n1, rest);
    if |bytes| == 1 {
      SextetsOfTwo(a, n, b0 / 4, b0 % 4 * 16);
    } else {
      var b1: int := bytes[1];
      SextetsOfThree(a, n, b0 / 4, b0 % 4 * 16 + b1 / 16, b1 % 16 * 4);
      assert rest[1..] == [] && Octets(n1, rest) == n1 * 256 + b1;
      assert 4 * b1 == 64 * (b1 / 16) + b1 % 16 * 4;
    }
  }

  lemma OctetsOfThree(n: int, bytes: seq<Byte>)
    requires |bytes| >= 3
    ensures Octets(n, bytes) == Octets(((n * 256 + bytes[0]) * 256 + bytes[1]) * 256 + bytes[2], bytes[3..])
  {
    var one, two := bytes[1..], bytes[2..];
    var n1 := n * 256 + bytes[0];
    var n2 := n1 * 256 + bytes[1];
    assert one[0] == bytes[1] && one[1..] == two && two[0] == bytes[2] && two[1..] == bytes[3..];
    assert Octets(n, bytes) == Octets(n1, one);
    assert Octets(n1, one) == Octets(n2, two);
  }

  // Three octets are read off together.
  lemma GroupIsRead(a: Alphabet, n: int, bytes: seq<Byte>)
    requires |bytes| >= 3
    ensures var m := ((n * 256 + bytes[0]) * 256 + bytes[1]) * 256 + bytes[2];
            Sextets(a, n, Body(a, bytes)) == Sextets(a, m, Body(a, bytes[3..])) && Octets(n, bytes) == Octets(m, bytes[3..])
  {
    var group, rest := Group(a, bytes[0], bytes[1], bytes[2]), bytes[3..];
    assert Body(a, bytes) == group + Body(a, rest);
    hide Symbol, SymbolValue, Group, Body, Sextets, Octets;
    SextetsOfGroup(a, n, bytes[0], bytes[1], bytes[2]);
    SextetsJoin(a, n, group, Body(a, rest));
    OctetsOfThree(n, bytes);
  }

  /** What the encoding says, in general: read as one number in base 64, the symbols are the octets read
      as one number in base 256, shifted by the bits the last symbol leaves unused. With the length,
      which BodyLength gives, this determines the text. */
  lemma {:induction false} BodyIsTheSameNumber(a: Alphabet, n: int, bytes: seq<Byte>)
    ensures Sextets(a, n, Body(a, bytes)) == Shifted(|bytes|, Octets(n, bytes))
    decreases |bytes|
  {
    if |bytes| == 0 {
    } else if |bytes| <= 2 {
      hide Sextets, Octets, Body;
      ShortBodyIsTheSameNumber(a, n, bytes);
    } else {
      hide Sextets, Octets, Body;
      var m := ((n * 256 + bytes[0]) * 256 + bytes[1]) * 256 + bytes[2];
      GroupIsRead(a, n, bytes);
      BodyIsTheSameNumber(a, m, bytes[3..]);
      assert |bytes| % 3 == (|bytes| - 3) % 3;
    }
  }

  lemma SymbolValueIsInjective(a: Alphabet, c: char, d: char)
    requires SymbolValue(a, c) == SymbolValue(a, d) >= 0
    ensures c == d
  {
  }

  predicate AllSymbols(a: Alphabet, s: string) {
    forall i :: 0 <= i < |s| ==> SymbolValue(a, s[i]) >= 0
  }

  /** It does determine it: two texts of one length whose symbols read as the same number are equal. */
  lemma {:induction false} NumberDeterminesText(a: Alphabet, n: int, s: string, m: int, t: string)
    requires |s| == |t| && Sextets(a, n, s) == Sextets(a, m, t) && AllSymbols(a, s) && AllSymbols(a, t)
    ensures n == m && s == t
    decreases |s|
  {
    hide SymbolValue;
    if s != "" {
      var v, w := SymbolValue(a, s[0]), SymbolValue(a, t[0]);
      NumberDeterminesText(a, n * 64 + v, s[1..], m * 64 + w, t[1..]);
      assert n == m && v == w;
      SymbolValueIsInjective(a, s[0], t[0]);
      assert s == [s[0]] + s[1..] && t == [t[0]] + t[1..];
    }
  }
}
