/** Big integers in a JWKS (crypto.py): the Base64urlUInt encoding of section 2 of RFC 7518. */
module JwkIntegers {
  import opened Common
  import opened Base64

  function BitLength(n: nat): nat {
    if n == 0 then 0 else 1 + BitLength(n / 2)
  }

  function Pow2(k: nat): nat {
    if k == 0 then 1 else 2 * Pow2(k - 1)
  }

  function ByteLength(n: nat): nat {
    (BitLength(n) + 7) / 8
  }

  // int.to_bytes(length, "big"), which overflows unless the value fits.
  function ToBytes(n: nat, length: nat): (bytes: seq<Byte>)
    requires n < Pow2(8 * length)
    ensures |bytes| == length
  {
    if length == 0 then []
    else
      DropByte(n, length);
      ToBytes(n / 256, length - 1) + [n % 256]
  }

  // int.from_bytes(bytes, "big").
  function FromBytes(bytes: seq<Byte>): nat {
    if bytes == [] then 0 else FromBytes(bytes[..|bytes| - 1]) * 256 + bytes[|bytes| - 1]
  }

  function StripRight(s: string, c: char): string {
    if s != "" && s[|s| - 1] == c then StripRight(s[..|s| - 1], c) else s
  }

  function IntToBase64Url(n: nat): string {
    FitsItsBytes(n);
    StripRight(Encode(UrlSafe, ToBytes(n, ByteLength(n))), '=')
  }

  // Padding restored to a multiple of four symbols.
  function Padded(s: string): string {
    if |s| % 4 == 2 then s + "==" else if |s| % 4 == 3 then s + "=" else s
  }

  // How a consumer of the JWKS reads the value back: restore the padding, then decode.
  function Base64UrlToInt(s: string): Option<nat> {
    var bytes := Decode(UrlSafe, Padded(s));
    if bytes.None? then None else Some(FromBytes(bytes.value))
  }

  // ---------------------------------------------------------------- sizes

  lemma {:induction false} BitLengthBounds(n: nat)
    ensures n < Pow2(BitLength(n))
    ensures n > 0 ==> Pow2(BitLength(n) - 1) <= n
  {
    if n > 0 {
      BitLengthBounds(n / 2);
      assert Pow2(BitLength(n)) == 2 * Pow2(BitLength(n / 2));
      if n / 2 > 0 {
        assert Pow2(BitLength(n) - 1) == 2 * Pow2(BitLength(n / 2) - 1);
      }
    }
  }

  lemma {:induction false} Pow2Grows(j: nat, k: nat)
    requires j <= k
    ensures Pow2(j) <= Pow2(k)
    decreases k
  {
    if j < k {
      Pow2Grows(j, k - 1);
    }
  }

  lemma Pow2Byte(k: nat)
    ensures Pow2(k + 8) == 256 * Pow2(k)
  {
    assert Pow2(k + 2) == 4 * Pow2(k);
    assert Pow2(k + 4) == 4 * Pow2(k + 2);
    assert Pow2(k + 6) == 4 * Pow2(k + 4);
    assert Pow2(k + 8) == 4 * Pow2(k + 6);
  }

  lemma DropByte(n: nat, length: nat)
    requires length > 0 && n < Pow2(8 * length)
    ensures n / 256 < Pow2(8 * (length - 1))
  {
    Pow2Byte(8 * (length - 1));
  }

  lemma FitsItsBytes(n: nat)
    ensures n < Pow2(8 * ByteLength(n))
    ensures n > 0 ==> ByteLength(n) > 0 && Pow2(8 * (ByteLength(n) - 1)) <= n
  {
    BitLengthBounds(n);
    assert n > 0 ==> BitLength(n) > 0;
    hide Pow2, BitLength;
    Pow2Grows(BitLength(n), 8 * ByteLength(n));
    if n > 0 {
      Pow2Grows(8 * (ByteLength(n) - 1), BitLength(n) - 1);
    }
  }

  lemma {:induction false} FromBytesBound(bytes: seq<Byte>)
    ensures FromBytes(bytes) < Pow2(8 * |bytes|)
  {
    if bytes != [] {
      FromBytesBound(bytes[..|bytes| - 1]);
      Pow2Byte(8 * (|bytes| - 1));
    }
  }

  lemma {:induction false} FromToBytes(n: nat, length: nat)
    requires n < Pow2(8 * length)
    ensures FromBytes(ToBytes(n, length)) == n
    decreases length
  {
    if length > 0 {
      DropByte(n, length);
      FromToBytes(n / 256, length - 1);
      var bytes := ToBytes(n, length);
      assert bytes[..|bytes| - 1] == ToBytes(n / 256, length - 1);
    }
  }

  /** The octets used are the fewest that can represent the value. */
  lemma MinimalOctets(n: nat, bytes: seq<Byte>)
    requires FromBytes(bytes) == n
    ensures |bytes| >= ByteLength(n)
  {
    FitsItsBytes(n);
    FromBytesBound(bytes);
    if |bytes| < ByteLength(n) {
      Pow2Grows(8 * |bytes|, 8 * (ByteLength(n) - 1));
    }
  }

  // ---------------------------------------------------------------- padding off and on

  lemma StripOne(s: string, c: char)
    ensures StripRight(s + [c], c) == StripRight(s, c)
  {
    assert (s + [c])[..|s + [c]| - 1] == s;
  }

  lemma StripsExactlyThePadding(body: string, n: nat)
    requires body != "" ==> body[|body| - 1] != '='
    ensures StripRight(body + Padding(n), '=') == body
  {
    StripOne(body, '=');
    StripOne(body + "=", '=');
    assert body + "" == body && body + "=" + "=" == body + "==";
  }

  lemma RestoredLength(n: nat)
    ensures ((4 * n + 2) / 3) % 4 == if n % 3 == 0 then 0 else n % 3 + 1
  {
    var q, r := n / 3, n % 3;
    assert (4 * n + 2) / 3 == 4 * q + (4 * r + 2) / 3;
  }

  // The padding a consumer restores is the padding that was stripped.
  lemma PaddingRestored(bytes: seq<Byte>)
    ensures StripRight(Encode(UrlSafe, bytes), '=') == Body(UrlSafe, bytes)
    ensures Padded(Body(UrlSafe, bytes)) == Encode(UrlSafe, bytes)
  {
    hide Body, StripRight;
    var body := Body(UrlSafe, bytes);
    BodyLength(UrlSafe, bytes);
    assert forall i :: 0 <= i < |body| ==> body[i] in body;
    StripsExactlyThePadding(body, |bytes|);
    RestoredLength(|bytes|);
    assert body + "" == body;
  }

  /** Encoding any positive integer and reading it back gives that integer. The text has no
      padding and only URL-safe symbols, and stands for the fewest octets possible. */
  lemma Base64UrlRoundTrip(n: nat)
    requires n > 0
    ensures var s := IntToBase64Url(n);
            && Base64UrlToInt(s) == Some(n)
            && '=' !in s && (forall c :: c in s ==> SymbolValue(UrlSafe, c) >= 0)
            && |s| == (4 * ByteLength(n) + 2) / 3
  {
    assert SymbolValue(UrlSafe, '=') == -1;
    hide Body, Encode, Decode, StripRight, Padded, ToBytes, FromBytes, ByteLength, SymbolValue, BitLength, Pow2;
    FitsItsBytes(n);
    var bytes := ToBytes(n, ByteLength(n));
    BodyLength(UrlSafe, bytes);
    PaddingRestored(bytes);
    RoundTrip(UrlSafe, bytes, "");
    assert Encode(UrlSafe, bytes) + "" == Encode(UrlSafe, bytes);
    FromToBytes(n, ByteLength(n));
    assert '=' !in Body(UrlSafe, bytes);
  }

  /** Zero is the one value outside the round trip: it is rendered as no text at all, where
      section 2 of RFC 7518 wants a single zero octet, "AA". */
  lemma ZeroIsRenderedEmpty()
    ensures IntToBase64Url(0) == "" && Base64UrlToInt("AA") == Some(0)
  {
    var group := "AA==";
    assert group[..4] == group;
    assert FromBytes([0]) == 0 by {
      assert [0][..0] == [];
    }
    assert "AA" + "==" == group;
    assert DecodeGroup(UrlSafe, group) == Some([0]);
    assert group[0] != '=' && Decode(UrlSafe, group) == Some([0]);
  }

  lemma UsualLength()
    ensures ByteLength(65537) == 3
  {
    FitsItsBytes(65537);
    var length := ByteLength(65537);
    assert Pow2(0) == 1;
    Pow2Byte(0);
    Pow2Byte(8);
    Pow2Byte(16);
    hide Pow2, BitLength, ByteLength;
    if length <= 2 {
      Pow2Grows(8 * length, 16);
    } else if length > 3 {
      Pow2Grows(24, 8 * (length - 1));
    }
  }

  lemma UsualBytes()
    ensures 65537 < Pow2(24) && ToBytes(65537, 3) == [1, 0, 1]
  {
    assert Pow2(8) == 256 && Pow2(16) == 65536 && Pow2(24) == 16777216 by {
      Pow2Byte(0);
      Pow2Byte(8);
      Pow2Byte(16);
    }
    assert ToBytes(1, 1) == [1];
    assert ToBytes(256, 2) == [1, 0];
  }

  /** The usual public exponent, 65537, is published as "AQAB". */
  lemma UsualExponent()
    ensures IntToBase64Url(65537) == "AQAB"
  {
    UsualLength();
    UsualBytes();
    hide ByteLength, ToBytes, Pow2;
    assert [1, 0, 1][3..] == [];
    assert Encode(UrlSafe, [1, 0, 1]) == "AQAB";
  }
}
