/** UTF-8, as bytes.decode() and str.encode() have it: RFC 3629, rejecting overlong forms,
    surrogates and values beyond U+10FFFF. */
module Utf8 {
  import opened Common
  import opened Base64

  function EncodeChar(c: char): seq<Byte> {
    var n := c as int;
    if n < 0x80 then [n]
    else if n < 0x800 then [0xC0 + n / 64, 0x80 + n % 64]
    else if n < 0x1_0000 then [0xE0 + n / 4096, 0x80 + n / 64 % 64, 0x80 + n % 64]
    else [0xF0 + n / 262144, 0x80 + n / 4096 % 64, 0x80 + n / 64 % 64, 0x80 + n % 64]
  }

  function EncodeText(s: string): seq<Byte> {
    if s == "" then [] else EncodeChar(s[0]) + EncodeText(s[1..])
  }

  predicate Continues(b: Byte) {
    0x80 <= b < 0xC0
  }

  // The six bits a continuation byte carries.
  function Low(b: Byte): int {
    b as int - 0x80
  }

  // The first character of the bytes and the number of bytes it takes.
  function FirstChar(bytes: seq<Byte>): (r: Option<(char, nat)>)
    requires bytes != []
    ensures r.Some? ==> 0 < r.value.1 <= |bytes|
  {
    var b: int := bytes[0];
    if b < 0x80 then Some((b as char, 1))
    else if 0xC2 <= b < 0xE0 && |bytes| >= 2 && Continues(bytes[1]) then
      Some((((b - 0xC0) * 64 + Low(bytes[1])) as char, 2))
    else if 0xE0 <= b < 0xF0 && |bytes| >= 3 && Continues(bytes[1]) && Continues(bytes[2]) then
      var n := (b - 0xE0) * 4096 + Low(bytes[1]) * 64 + Low(bytes[2]);
      if n < 0x800 || 0xD800 <= n < 0xE000 then None else Some((n as char, 3))
    else if && 0xF0 <= b < 0xF5 && |bytes| >= 4
            && Continues(bytes[1]) && Continues(bytes[2]) && Continues(bytes[3]) then
      var n := (b - 0xF0) * 262144 + Low(bytes[1]) * 4096 + Low(bytes[2]) * 64 + Low(bytes[3]);
      if n < 0x1_0000 || 0x11_0000 <= n then None else Some((n as char, 4))
    else None
  }

  function DecodeText(bytes: seq<Byte>): Option<string> {
    if bytes == [] then Some("")
    else
      var first := FirstChar(bytes);
      if first.None? then None
      else
        var rest := DecodeText(bytes[first.value.1..]);
        if rest.None? then None else Some([first.value.0] + rest.value)
  }

  lemma FirstCharDecodes(c: char, rest: seq<Byte>)
    ensures FirstChar(EncodeChar(c) + rest) == Some((c, |EncodeChar(c)|))
  {
    var n := c as int;
    assert n == n / 64 * 64 + n % 64 && n / 64 == n / 4096 * 64 + n / 64 % 64
           && n / 4096 == n / 262144 * 64 + n / 4096 % 64;
  }

  /** Decoding undoes encoding, for every text. */
  lemma {:induction false} TextRoundTrip(s: string)
    ensures DecodeText(EncodeText(s)) == Some(s)
    decreases |s|
  {
    if s == "" {
    } else {
      var head, rest := EncodeChar(s[0]), EncodeText(s[1..]);
      FirstCharDecodes(s[0], rest);
      assert (head + rest)[|head|..] == rest;
      TextRoundTrip(s[1..]);
      assert s == [s[0]] + s[1..];
    }
  }

  // ---------------------------------------------------------------- what the encoding is

  // The table in section 3 of RFC 3629: the bits a lead byte carries, and how many bytes follow it.
  function LeadBits(b: Byte): Option<(int, nat)> {
    if b < 0x80 then Some((b, 0))
    else if 0xC0 <= b < 0xE0 then Some((b - 0xC0, 1))
    else if 0xE0 <= b < 0xF0 then Some((b - 0xE0, 2))
    else if 0xF0 <= b < 0xF8 then Some((b - 0xF0, 3))
    else None
  }

  function Payload(n: int, bytes: seq<Byte>): int
    decreases |bytes|
  {
    if bytes == [] then n else Payload(n * 64 + Low(bytes[0]), bytes[1..])
  }

  // The least number that needs this many continuation bytes.
  function Least(following: nat): int {
    match following
    case 0 => 0
    case 1 => 0x80
    case 2 => 0x800
    case _ => 0x1_0000
  }

  // A well-formed sequence for one character: lead byte, continuation bytes, shortest form.
  predicate Encodes(bytes: seq<Byte>, c: char) {
    && bytes != [] && LeadBits(bytes[0]).Some?
    && var (bits, following) := LeadBits(bytes[0]).value;
       && |bytes| == 1 + following
       && (forall i :: 1 <= i < |bytes| ==> Continues(bytes[i]))
       && Payload(bits, bytes[1..]) == c as int && Least(following) <= c as int
  }

  lemma PayloadOf(n: int, bytes: seq<Byte>)
    ensures |bytes| == 0 ==> Payload(n, bytes) == n
    ensures |bytes| == 1 ==> Payload(n, bytes) == n * 64 + Low(bytes[0])
    ensures |bytes| == 2 ==> Payload(n, bytes) == (n * 64 + Low(bytes[0])) * 64 + Low(bytes[1])
    ensures |bytes| == 3 ==> Payload(n, bytes) == ((n * 64 + Low(bytes[0])) * 64 + Low(bytes[1])) * 64 + Low(bytes[2])
  {
    hide Low;
    if |bytes| > 0 {
      var n1, rest := n * 64 + Low(bytes[0]), bytes[1..];
      assert Payload(n, bytes) == Payload(n1, rest);
      if |bytes| > 1 {
        var n2, rest2 := n1 * 64 + Low(rest[0]), rest[1..];
        assert Payload(n1, rest) == Payload(n2, rest2);
        if |bytes| == 3 {
          assert Payload(n2, rest2) == n2 * 64 + Low(rest2[0]) by {
            assert rest2[1..] == [];
          }
        }
      }
    }
  }

  lemma BytesOfThree(b0: int, b1: int, b2: int, n: int)
    requires 0xE0 <= b0 < 0xF0 && 0x80 <= b1 < 0xC0 && 0x80 <= b2 < 0xC0
    requires n == ((b0 - 0xE0) * 64 + (b1 - 0x80)) * 64 + (b2 - 0x80)
    ensures n < 0x1_0000 && b0 == 0xE0 + n / 4096 && b1 == 0x80 + n / 64 % 64 && b2 == 0x80 + n % 64
  {
    var m := (b0 - 0xE0) * 64 + (b1 - 0x80);
    assert n / 64 == m && n % 64 == b2 - 0x80 && m / 64 == b0 - 0xE0 && m % 64 == b1 - 0x80;
    assert n / 4096 == m / 64;
  }

  lemma BytesOfFour(b0: int, b1: int, b2: int, b3: int, n: int)
    requires 0xF0 <= b0 < 0xF8 && 0x80 <= b1 < 0xC0 && 0x80 <= b2 < 0xC0 && 0x80 <= b3 < 0xC0
    requires n == (((b0 - 0xF0) * 64 + (b1 - 0x80)) * 64 + (b2 - 0x80)) * 64 + (b3 - 0x80)
    ensures b0 == 0xF0 + n / 262144 && b1 == 0x80 + n / 4096 % 64 && b2 == 0x80 + n / 64 % 64 && b3 == 0x80 + n % 64
  {
    var m := ((b0 - 0xF0) * 64 + (b1 - 0x80)) * 64 + (b2 - 0x80);
    assert n / 64 == m && n % 64 == b3 - 0x80;
    assert m / 64 == (b0 - 0xF0) * 64 + (b1 - 0x80) && m % 64 == b2 - 0x80;
    assert n / 4096 == m / 64 && n / 262144 == m / 4096 && m / 4096 == b0 - 0xF0;
  }

  lemma WellFormedIsOwn(bytes: seq<Byte>, c: char)
    requires Encodes(bytes, c)
    ensures bytes == EncodeChar(c)
  {
    var b, n: int := bytes[0], c as int;
    PayloadOf(LeadBits(bytes[0]).value.0, bytes[1..]);
    hide Payload, EncodeChar;
    if |bytes| == 1 {
      assert n == b && bytes == [n];
    } else if |bytes| == 2 {
      assert n / 64 == b - 0xC0 && n % 64 == bytes[1] - 0x80;
      assert bytes == [0xC0 + n / 64, 0x80 + n % 64];
    } else if |bytes| == 3 {
      BytesOfThree(b, bytes[1], bytes[2], n);
      assert bytes == [0xE0 + n / 4096, 0x80 + n / 64 % 64, 0x80 + n % 64];
    } else {
      BytesOfFour(b, bytes[1], bytes[2], bytes[3], n);
      assert bytes == [0xF0 + n / 262144, 0x80 + n / 4096 % 64, 0x80 + n / 64 % 64, 0x80 + n % 64];
    }
    EncodeCharBySize(c);
  }

  lemma EncodeCharBySize(c: char)
    ensures var n := c as int;
            && (n < 0x80 ==> EncodeChar(c) == [n])
            && (0x80 <= n < 0x800 ==> EncodeChar(c) == [0xC0 + n / 64, 0x80 + n % 64])
            && (0x800 <= n < 0x1_0000 ==> EncodeChar(c) == [0xE0 + n / 4096, 0x80 + n / 64 % 64, 0x80 + n % 64])
            && (0x1_0000 <= n ==>
                  EncodeChar(c) == [0xF0 + n / 262144, 0x80 + n / 4096 % 64, 0x80 + n / 64 % 64, 0x80 + n % 64])
  {
  }

  // Cutting n into pieces of six bits loses nothing.
  lemma PiecesRecombine(n: int)
    requires 0 <= n < 0x11_0000
    ensures n < 0x800 ==> 0 <= n / 64 < 0x20 && n == n / 64 * 64 + n % 64
    ensures n < 0x1_0000 ==> 0 <= n / 4096 < 0x10 && n == (n / 4096 * 64 + n / 64 % 64) * 64 + n % 64
    ensures 0 <= n / 262144 < 5 && n == ((n / 262144 * 64 + n / 4096 % 64) * 64 + n / 64 % 64) * 64 + n % 64
  {
    assert n / 64 == n / 4096 * 64 + n / 64 % 64 && n / 4096 == n / 262144 * 64 + n / 4096 % 64;
  }

  lemma OwnIsWellFormed(c: char)
    ensures Encodes(EncodeChar(c), c)
  {
    var own, n := EncodeChar(c), c as int;
    EncodeCharBySize(c);
    hide EncodeChar;
    PayloadOf(LeadBits(own[0]).value.0, own[1..]);
    PiecesRecombine(n);
    hide Payload;
    if n < 0x80 {
    } else if n < 0x800 {
      assert |own| == 2;
    } else if n < 0x1_0000 {
      assert |own| == 3;
    } else {
      assert |own| == 4;
    }
  }

  /** The bytes of a character are the one sequence that is well formed for it. */
  lemma EncodingIsTheWellFormedOne(bytes: seq<Byte>, c: char)
    ensures Encodes(bytes, c) <==> bytes == EncodeChar(c)
  {
    OwnIsWellFormed(c);
    hide Encodes, EncodeChar;
    if Encodes(bytes, c) {
      WellFormedIsOwn(bytes, c);
    }
  }

  lemma FirstCharIsEncoded(bytes: seq<Byte>)
    requires bytes != [] && FirstChar(bytes).Some?
    ensures bytes[..FirstChar(bytes).value.1] == EncodeChar(FirstChar(bytes).value.0)
  {
    var (c, k) := FirstChar(bytes).value;
    var first := bytes[..k];
    PayloadOf(LeadBits(first[0]).value.0, first[1..]);
    hide Payload, EncodeChar;
    assert Encodes(first, c);
    WellFormedIsOwn(first, c);
  }

  /** Decoding accepts exactly the encodings: malformed, overlong and surrogate sequences are refused
      because no text encodes to them. */
  lemma {:induction false} DecodesExactlyEncodings(bytes: seq<Byte>, s: string)
    ensures DecodeText(bytes) == Some(s) <==> bytes == EncodeText(s)
    decreases |bytes|
  {
    TextRoundTrip(s);
    if DecodeText(bytes) == Some(s) && bytes != [] {
      var (c, n) := FirstChar(bytes).value;
      FirstCharIsEncoded(bytes);
      hide FirstChar, EncodeChar;
      assert s == [c] + s[1..];
      DecodesExactlyEncodings(bytes[n..], s[1..]);
      assert bytes == bytes[..n] + bytes[n..];
    }
  }
}
