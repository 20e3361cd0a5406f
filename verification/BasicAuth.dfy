/** HTTP Basic credentials (_parse_basic_auth in main.py; section 2 of RFC 7617). */
module BasicAuth {
  import opened Common
  import opened Base64
  import opened ScopeClaims
  import opened Utf8

  // str.partition(separator): what precedes it, whether it occurs, what follows.
  function Partition(s: string, separator: char): (string, bool, string) {
    if s == "" then ("", false, "")
    else if s[0] == separator then ("", true, s[1..])
    else
      var rest := Partition(s[1..], separator);
      ([s[0]] + rest.0, rest.1, rest.2)
  }

  // str.lower(), as far as telling whether the result is "basic" needs it: no character
  // outside A to Z lowers to one of those letters.
  function LowerChar(c: char): char {
    if 'A' <= c <= 'Z' then c - 'A' + 'a' else c
  }

  function Lower(s: string): string {
    if s == "" then "" else [LowerChar(s[0])] + Lower(s[1..])
  }

  function StripLeft(s: string): string {
    if s != "" && IsSpace(s[0]) then StripLeft(s[1..]) else s
  }

  function StripEnd(s: string): string {
    if s != "" && IsSpace(s[|s| - 1]) then StripEnd(s[..|s| - 1]) else s
  }

  function ParseBasicAuth(header: Option<string>): Option<(string, string)> {
    if header.None? || header.value == "" then None
    else
      var (scheme, _, encoded) := Partition(header.value, ' ');
      if Lower(scheme) != "basic" || encoded == "" then None
      else
        var bytes := Decode(Standard, StripEnd(StripLeft(encoded)));
        if bytes.None? then None
        else
          var decoded := DecodeText(bytes.value);
          if decoded.None? then None
          else
            var (clientId, found, secret) := Partition(decoded.value, ':');
            if found then Some((clientId, secret)) else None
  }

  lemma {:induction false} PartitionAtFirst(before: string, separator: char, after: string)
    requires separator !in before
    ensures Partition(before + [separator] + after, separator) == (before, true, after)
    decreases |before|
  {
    var s := before + [separator] + after;
    if before == "" {
      assert s[0] == separator && s[1..] == after;
    } else {
      assert before[0] in before;
      assert s[1..] == before[1..] + [separator] + after;
      PartitionAtFirst(before[1..], separator, after);
      assert before == [before[0]] + before[1..];
    }
  }

  lemma {:induction false} PartitionRejoins(s: string, separator: char)
    ensures var (before, found, after) := Partition(s, separator);
            separator !in before && (found ==> s == before + [separator] + after) && (!found ==> separator !in s)
    decreases |s|
  {
    if s != "" && s[0] != separator {
      PartitionRejoins(s[1..], separator);
      assert s == [s[0]] + s[1..];
    }
  }

  lemma {:induction false} LowerKeepsOthers(s: string, i: nat)
    requires i < |s|
    ensures |Lower(s)| == |s| && Lower(s)[i] == LowerChar(s[i])
    decreases |s|
  {
    if |s| > 1 {
      LowerKeepsOthers(s[1..], if i > 0 then i - 1 else 0);
    }
  }

  lemma SchemeHasNoSpace(scheme: string)
    requires Lower(scheme) == "basic"
    ensures ' ' !in scheme
  {
    forall i | 0 <= i < |scheme|
      ensures scheme[i] != ' '
    {
      LowerKeepsOthers(scheme, i);
    }
  }

  lemma EncodedHasNoSpace(bytes: seq<Byte>)
    ensures StripEnd(StripLeft(Encode(Standard, bytes))) == Encode(Standard, bytes)
  {
    var s := Encode(Standard, bytes);
    BodyLength(Standard, bytes);
    forall c | c in s
      ensures !IsSpace(c)
    {
      assert c in Body(Standard, bytes) || c in Padding(|bytes|);
    }
    assert s != "" ==> s[0] in s && s[|s| - 1] in s;
  }

  // The header a client sends, for any letter case of the scheme.
  function BasicHeader(scheme: string, clientId: string, secret: string): string {
    scheme + " " + Encode(Standard, EncodeText(clientId + ":" + secret))
  }

  /** Credentials survive the trip: any client id without a colon and any secret, colons and
      non-ASCII characters included, come back exactly, whatever the case of the scheme. */
  lemma CredentialsRoundTrip(scheme: string, clientId: string, secret: string)
    requires Lower(scheme) == "basic" && ':' !in clientId
    ensures ParseBasicAuth(Some(BasicHeader(scheme, clientId, secret))) == Some((clientId, secret))
  {
    var text := clientId + ":" + secret;
    var bytes := EncodeText(text);
    var encoded := Encode(Standard, bytes);
    SchemeHasNoSpace(scheme);
    PartitionAtFirst(scheme, ' ', encoded);
    EncodedHasNoSpace(bytes);
    Base64.RoundTrip(Standard, bytes, "");
    assert encoded + "" == encoded;
    TextRoundTrip(text);
    PartitionAtFirst(clientId, ':', secret);
    assert bytes != [];
    EncodeNonempty(Standard, bytes);
    hide Partition, Lower, StripLeft, StripEnd, Encode, Decode, EncodeText, DecodeText;
  }

  /** Whatever header yields credentials is some "basic" scheme followed by a text that decodes
      to the id, a colon and the secret; the id never holds a colon. */
  lemma ParsedCredentialsWereSent(header: string, clientId: string, secret: string)
    requires ParseBasicAuth(Some(header)) == Some((clientId, secret))
    ensures ':' !in clientId
    ensures exists scheme, encoded ::
              && header == scheme + " " + encoded && Lower(scheme) == "basic"
              && var bytes := Decode(Standard, StripEnd(StripLeft(encoded)));
                 bytes.Some? && DecodeText(bytes.value) == Some(clientId + ":" + secret)
  {
    var (scheme, found, encoded) := Partition(header, ' ');
    PartitionRejoins(header, ' ');
    var bytes := Decode(Standard, StripEnd(StripLeft(encoded)));
    PartitionRejoins(DecodeText(bytes.value).value, ':');
    assert found by {
      assert !found ==> encoded == "" by {
        NotFoundLeavesNothing(header, ' ');
      }
    }
    assert header == scheme + " " + encoded;
  }

  lemma {:induction false} NotFoundLeavesNothing(s: string, separator: char)
    ensures !Partition(s, separator).1 ==> Partition(s, separator).2 == ""
    decreases |s|
  {
    if s != "" && s[0] != separator {
      NotFoundLeavesNothing(s[1..], separator);
    }
  }
}
