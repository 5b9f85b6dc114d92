/**
 Device tokens (src/lib/agent-token.ts): the secret is the URL-safe base64 form of random bytes
 (section 5 of RFC 4648) without padding, and a token is four parts joined by dots.
 */
module AgentToken {
  import opened Wrappers

  const TOKEN_PREFIX := "rva1"
  const SECRET_BYTE_LENGTH := 32
  const MIN_SECRET_LENGTH := 20

  type Byte = b: int | 0 <= b < 256

  // ---------- Base64 ----------

  // The character of a value below 64, in the standard alphabet (section 4 of RFC 4648).
  function Base64Char(v: nat): (c: char)
    requires v < 64
  {
    if v < 26 then ('A' as int + v) as char
    else if v < 52 then ('a' as int + (v - 26)) as char
    else if v < 62 then ('0' as int + (v - 52)) as char
    else if v == 62 then '+'
    else '/'
  }

  // The replacements that make the alphabet safe in a URL.
  function UrlSafe(c: char): char {
    if c == '+' then '-' else if c == '/' then '_' else c
  }

  predicate IsBase64Url(c: char) {
    'A' <= c <= 'Z' || 'a' <= c <= 'z' || '0' <= c <= '9' || c == '_' || c == '-'
  }

  // The value of a URL-safe character.
  function Value(c: char): (v: nat)
    requires IsBase64Url(c)
    ensures v < 64
  {
    if 'A' <= c <= 'Z' then c as int - 'A' as int
    else if 'a' <= c <= 'z' then c as int - 'a' as int + 26
    else if '0' <= c <= '9' then c as int - '0' as int + 52
    else if c == '-' then 62
    else 63
  }

  // The characters of three bytes: each stands for six bits.
  function Four(b0: Byte, b1: Byte, b2: Byte): (s: string)
    ensures |s| == 4
  {
    [Base64Char(b0 / 4), Base64Char(b0 % 4 * 16 + b1 / 16), Base64Char(b1 % 16 * 4 + b2 / 64), Base64Char(b2 % 64)]
  }

  // Standard base64: missing bytes count as zero, and their characters are padding.
  function Base64(bytes: seq<Byte>): string {
    if bytes == [] then ""
    else if |bytes| == 1 then Four(bytes[0], 0, 0)[..2] + "=="
    else if |bytes| == 2 then Four(bytes[0], bytes[1], 0)[..3] + "="
    else Four(bytes[0], bytes[1], bytes[2]) + Base64(bytes[3..])
  }

  function Replaced(s: string): (r: string)
    ensures |r| == |s|
    ensures forall i | 0 <= i < |s| :: r[i] == UrlSafe(s[i])
  {
    seq(|s|, i requires 0 <= i < |s| => UrlSafe(s[i]))
  }

  function StripPadding(s: string): string {
    if s != [] && s[|s|-1] == '=' then StripPadding(s[..|s|-1]) else s
  }

  // The URL-safe form without padding.
  function ToBase64Url(bytes: seq<Byte>): string {
    StripPadding(Replaced(Base64(bytes)))
  }

  predicate AllBase64Url(s: string) {
    forall c | c in s :: IsBase64Url(c)
  }

  // The bytes of four characters.
  function Three(s: string): (bytes: seq<Byte>)
    requires |s| == 4 && AllBase64Url(s)
    ensures |bytes| == 3
  {
    var v0, v1, v2, v3 := Value(s[0]), Value(s[1]), Value(s[2]), Value(s[3]);
    [v0 * 4 + v1 / 16, v1 % 16 * 16 + v2 / 4, v2 % 4 * 64 + v3]
  }

  // The bytes of a URL-safe text without padding; none for a text no bytes encode to.
  function FromBase64Url(s: string): Option<seq<Byte>> {
    if !AllBase64Url(s) || |s| == 1 then None
    else if s == [] then Some([])
    else if |s| == 2 then
      var bytes := Three(s + "AA");
      if bytes[1] == 0 then Some(bytes[..1]) else None
    else if |s| == 3 then
      var bytes := Three(s + "A");
      if bytes[2] == 0 then Some(bytes[..2]) else None
    else
      match FromBase64Url(s[4..])
      case None => None
      case Some(rest) => Some(Three(s[..4]) + rest)
  }

  // The bytes of a text whose characters are all below 256, as the built-in encoder reads it.
  function Codes(binary: string): (bytes: seq<Byte>)
    requires forall c | c in binary :: c as int < 256
    ensures |bytes| == |binary|
    ensures forall i | 0 <= i < |binary| :: bytes[i] == binary[i] as int
  {
    seq<Byte>(|binary|, i requires 0 <= i < |binary| => assert binary[i] in binary; binary[i] as Byte)
  }

  method EncodeBytes(bytes: array<Byte>) returns (text: string)
    ensures text == ToBase64Url(bytes[..])
  {
    var binary := "";
    for i := 0 to bytes.Length
      invariant |binary| == i
      invariant forall k | 0 <= k < i :: binary[k] as int == bytes[k]
    {
      binary := binary + [bytes[i] as char];
    }
    assert Codes(binary) == bytes[..];
    text := StripPadding(Replaced(Base64(Codes(binary))));
  }

  lemma StripOne(s: string)
    ensures StripPadding(s + "=") == StripPadding(s)
    ensures s == [] || s[|s|-1] != '=' ==> StripPadding(s) == s
  {
    assert (s + "=")[..|s|] == s;
  }

  lemma {:induction false} StripAfterText(front: string, back: string)
    requires back != [] && StripPadding(back) != []
    ensures StripPadding(front + back) == front + StripPadding(back)
  {
    var whole := front + back;
    if back[|back|-1] == '=' {
      assert whole[..|whole|-1] == front + back[..|back|-1];
      StripAfterText(front, back[..|back|-1]);
    }
  }

  lemma ValueOfChar(v: nat)
    requires v < 64
    ensures IsBase64Url(UrlSafe(Base64Char(v))) && Value(UrlSafe(Base64Char(v))) == v
    ensures UrlSafe(Base64Char(v)) != '='
  {
  }

  lemma CharOfValue(c: char)
    requires IsBase64Url(c)
    ensures UrlSafe(Base64Char(Value(c))) == c
  {
  }

  function UrlFour(b0: Byte, b1: Byte, b2: Byte): (s: string)
    ensures |s| == 4
    ensures AllBase64Url(s) && '=' !in s
  {
    var s := Replaced(Four(b0, b1, b2));
    ValueOfChar(b0 / 4);
    ValueOfChar(b0 % 4 * 16 + b1 / 16);
    ValueOfChar(b1 % 16 * 4 + b2 / 64);
    ValueOfChar(b2 % 64);
    s
  }

  // The same text without padding in between.
  function Grouped(bytes: seq<Byte>): string {
    if bytes == [] then ""
    else if |bytes| == 1 then UrlFour(bytes[0], 0, 0)[..2]
    else if |bytes| == 2 then UrlFour(bytes[0], bytes[1], 0)[..3]
    else UrlFour(bytes[0], bytes[1], bytes[2]) + Grouped(bytes[3..])
  }

  lemma {:induction false} GroupedHasNoPadding(bytes: seq<Byte>)
    ensures |Grouped(bytes)| == (4 * |bytes| + 2) / 3
    ensures AllBase64Url(Grouped(bytes)) && '=' !in Grouped(bytes)
  {
    if |bytes| > 2 {
      GroupedHasNoPadding(bytes[3..]);
    }
  }

  lemma ReplacedAppends(a: string, b: string)
    ensures Replaced(a + b) == Replaced(a) + Replaced(b)
  {
  }

  // Dropping the padding leaves exactly the characters that carry bits.
  lemma {:induction false} EncodingIsGrouped(bytes: seq<Byte>)
    ensures ToBase64Url(bytes) == Grouped(bytes)
  {
    var text, grouped := Replaced(Base64(bytes)), Grouped(bytes);
    GroupedHasNoPadding(bytes);
    if |bytes| == 1 {
      assert text == grouped + "=" + "=";
      StripOne(grouped + "=");
      StripOne(grouped);
    } else if |bytes| == 2 {
      assert text == grouped + "=";
      StripOne(grouped);
    } else if |bytes| == 3 {
      assert text == grouped;
      StripOne(grouped);
    } else if |bytes| > 3 {
      var head, rest := UrlFour(bytes[0], bytes[1], bytes[2]), Replaced(Base64(bytes[3..]));
      ReplacedAppends(Four(bytes[0], bytes[1], bytes[2]), Base64(bytes[3..]));
      EncodingIsGrouped(bytes[3..]);
      GroupedHasNoPadding(bytes[3..]);
      StripAfterText(head, rest);
    }
  }

  // The bytes of four characters and the characters of three bytes determine each other.
  lemma ThreeOfFour(b0: Byte, b1: Byte, b2: Byte)
    ensures Three(UrlFour(b0, b1, b2)) == [b0, b1, b2]
  {
    var s := UrlFour(b0, b1, b2);
    ValueOfChar(b0 / 4);
    ValueOfChar(b0 % 4 * 16 + b1 / 16);
    ValueOfChar(b1 % 16 * 4 + b2 / 64);
    ValueOfChar(b2 % 64);
    BytesOfValues(b0, b1, b2, Value(s[0]), Value(s[1]), Value(s[2]), Value(s[3]));
  }

  lemma BytesOfValues(b0: Byte, b1: Byte, b2: Byte, v0: nat, v1: nat, v2: nat, v3: nat)
    requires v0 == b0 / 4 && v1 == b0 % 4 * 16 + b1 / 16 && v2 == b1 % 16 * 4 + b2 / 64 && v3 == b2 % 64
    ensures v0 * 4 + v1 / 16 == b0 && v1 % 16 * 16 + v2 / 4 == b1 && v2 % 4 * 64 + v3 == b2
  {
  }

  lemma ValuesOfBytes(v0: nat, v1: nat, v2: nat, v3: nat, b0: Byte, b1: Byte, b2: Byte)
    requires v0 < 64 && v1 < 64 && v2 < 64 && v3 < 64
    requires b0 == v0 * 4 + v1 / 16 && b1 == v1 % 16 * 16 + v2 / 4 && b2 == v2 % 4 * 64 + v3
    ensures b0 / 4 == v0 && b0 % 4 * 16 + b1 / 16 == v1 && b1 % 16 * 4 + b2 / 64 == v2 && b2 % 64 == v3
  {
  }

  lemma FourOfThree(s: string)
    requires |s| == 4 && AllBase64Url(s)
    ensures var b := Three(s); UrlFour(b[0], b[1], b[2]) == s
  {
    var b := Three(s);
    ValuesOfBytes(Value(s[0]), Value(s[1]), Value(s[2]), Value(s[3]), b[0], b[1], b[2]);
    CharOfValue(s[0]);
    CharOfValue(s[1]);
    CharOfValue(s[2]);
    CharOfValue(s[3]);
  }

  lemma MissingBytes(b0: Byte, b1: Byte)
    ensures UrlFour(b0, 0, 0)[2..] == "AA" && UrlFour(b0, b1, 0)[3..] == "A"
  {
  }

  lemma DecodeShort(s: string, bytes: seq<Byte>)
    requires 1 <= |bytes| <= 2 && s == Grouped(bytes)
    ensures FromBase64Url(s) == Some(bytes)
  {
    var b0, b1 := bytes[0], if |bytes| == 2 then bytes[1] else 0;
    var four := UrlFour(b0, b1, 0);
    ThreeOfFour(b0, b1, 0);
    MissingBytes(b0, b1);
    if |bytes| == 1 {
      assert s + "AA" == four;
      assert Three(four)[..1] == bytes;
    } else {
      assert s + "A" == four;
      assert Three(four)[..2] == bytes;
    }
  }

  lemma {:induction false} DecodeGrouped(bytes: seq<Byte>)
    ensures FromBase64Url(Grouped(bytes)) == Some(bytes)
  {
    var s := Grouped(bytes);
    if 1 <= |bytes| <= 2 {
      DecodeShort(s, bytes);
    } else if |bytes| > 2 {
      var four := UrlFour(bytes[0], bytes[1], bytes[2]);
      ThreeOfFour(bytes[0], bytes[1], bytes[2]);
      DecodeGrouped(bytes[3..]);
      GroupedHasNoPadding(bytes[3..]);
      assert s[..4] == four && s[4..] == Grouped(bytes[3..]);
      assert bytes == [bytes[0], bytes[1], bytes[2]] + bytes[3..];
    }
  }

  lemma ThirdIsZero(s: string)
    requires |s| == 2 && AllBase64Url(s) && AllBase64Url(s + "AA") && Three(s + "AA")[1] == 0
    ensures Three(s + "AA")[2] == 0
  {
  }

  lemma {:induction false} GroupDecoded(s: string)
    requires FromBase64Url(s).Some?
    ensures Grouped(FromBase64Url(s).value) == s
  {
    if |s| == 2 {
      FourOfThree(s + "AA");
      ThirdIsZero(s);
    } else if |s| == 3 {
      FourOfThree(s + "A");
    } else if |s| > 3 {
      var rest := FromBase64Url(s[4..]).value;
      var bytes := Three(s[..4]) + rest;
      GroupDecoded(s[4..]);
      FourOfThree(s[..4]);
      assert bytes[3..] == rest;
      assert s == s[..4] + s[4..];
    }
  }

  /** The bytes are recoverable from their encoding, and every text that decodes is the encoding of its bytes. */
  lemma Base64UrlRoundTrip(bytes: seq<Byte>, text: string)
    ensures FromBase64Url(ToBase64Url(bytes)) == Some(bytes)
    ensures FromBase64Url(text) == Some(bytes) <==> text == ToBase64Url(bytes)
  {
    EncodingIsGrouped(bytes);
    DecodeGrouped(bytes);
    if FromBase64Url(text) == Some(bytes) {
      GroupDecoded(text);
    }
  }

  /** Examples of section 10 of RFC 4648, without their padding, and one that needs both URL-safe characters. */
  lemma KnownEncodings()
    ensures ToBase64Url([102]) == "Zg"
    ensures ToBase64Url([102, 111]) == "Zm8"
    ensures ToBase64Url([102, 111, 111]) == "Zm9v"
    ensures ToBase64Url([251, 255]) == "-_8"
  {
    EncodingIsGrouped([102]);
    EncodingIsGrouped([102, 111]);
    EncodingIsGrouped([102, 111, 111]);
    EncodingIsGrouped([251, 255]);
    assert UrlFour(102, 0, 0)[..2] == "Zg";
    assert UrlFour(102, 111, 0)[..3] == "Zm8";
    assert UrlFour(102, 111, 111) == "Zm9v";
    assert UrlFour(251, 255, 0)[..3] == "-_8";
  }

  // ---------- Tokens ----------

  datatype Token = Token(orgId: string, connectionId: string, secret: string)

  predicate IsHex(c: char) {
    '0' <= c <= '9' || 'a' <= c <= 'f' || 'A' <= c <= 'F'
  }

  // Hexadecimal groups of 8, 4, 4, 4 and 12 characters, in either case.
  predicate IsUuid(s: string) {
    && |s| == 36
    && forall i | 0 <= i < 36 :: if i in {8, 13, 18, 23} then s[i] == '-' else IsHex(s[i])
  }

  predicate IsSecret(s: string) {
    |s| >= MIN_SECRET_LENGTH && forall c | c in s :: IsBase64Url(c)
  }

  function ComposeAgentToken(orgId: string, connectionId: string, secret: string): string {
    TOKEN_PREFIX + "." + orgId + "." + connectionId + "." + secret
  }

  // The parts between the dots.
  function Split(s: string): (parts: seq<string>)
    ensures parts != []
  {
    if s == [] then [""]
    else
      var rest := Split(s[1..]);
      if s[0] == '.' then [""] + rest else [[s[0]] + rest[0]] + rest[1..]
  }

  function ParseAgentToken(token: string): Option<Token> {
    var parts := Split(token);
    if |parts| != 4 || parts[0] != TOKEN_PREFIX then None
    else if !IsUuid(parts[1]) || !IsUuid(parts[2]) then None
    else if !IsSecret(parts[3]) then None
    else Some(Token(parts[1], parts[2], parts[3]))
  }

  function Join(parts: seq<string>): string
    requires parts != []
  {
    if |parts| == 1 then parts[0] else parts[0] + "." + Join(parts[1..])
  }

  lemma {:induction false} JoinOfSplit(s: string)
    ensures Join(Split(s)) == s
    ensures forall i | 0 <= i < |Split(s)| :: '.' !in Split(s)[i]
  {
    if s != [] {
      var rest := Split(s[1..]);
      JoinOfSplit(s[1..]);
      assert s == [s[0]] + s[1..];
      if s[0] == '.' {
        JoinAfterDot(rest);
      } else {
        JoinLonger(s[0], rest[0], rest[1..]);
        assert rest == [rest[0]] + rest[1..];
      }
    }
  }

  lemma JoinAfterDot(rest: seq<string>)
    requires rest != []
    ensures Join([""] + rest) == "." + Join(rest)
  {
    assert ([""] + rest)[1..] == rest;
  }

  lemma JoinCons(first: string, rest: seq<string>)
    ensures Join([first] + rest) == if rest == [] then first else first + "." + Join(rest)
  {
    assert ([first] + rest)[1..] == rest;
  }

  lemma JoinLonger(c: char, first: string, more: seq<string>)
    ensures Join([[c] + first] + more) == [c] + Join([first] + more)
  {
    JoinCons([c] + first, more);
    JoinCons(first, more);
    if more != [] {
      Associate([c], first, "." + Join(more));
      Associate([c] + first, ".", Join(more));
      Associate(first, ".", Join(more));
    }
  }

  lemma Associate(a: string, b: string, c: string)
    ensures (a + b) + c == a + (b + c)
  {
  }

  lemma {:induction false} SplitOfPart(part: string, more: string)
    requires '.' !in part
    ensures Split(part + "." + more) == [part] + Split(more)
    ensures Split(part) == [part]
  {
    var whole := part + "." + more;
    if part == [] {
      assert whole == "." + more;
    } else {
      assert part[0] in part;
      SplitOfPart(part[1..], more);
      assert whole[1..] == part[1..] + "." + more;
      assert whole[0] == part[0] && part == [part[0]] + part[1..];
    }
  }

  lemma UuidHasNoDot(s: string)
    requires IsUuid(s)
    ensures '.' !in s
  {
  }

  predicate ValidParts(orgId: string, connectionId: string, secret: string) {
    IsUuid(orgId) && IsUuid(connectionId) && IsSecret(secret)
  }

  lemma Regroup(orgId: string, connectionId: string, secret: string)
    ensures ComposeAgentToken(orgId, connectionId, secret) ==
            TOKEN_PREFIX + "." + (orgId + "." + (connectionId + "." + secret))
  {
    var tail := connectionId + "." + secret;
    assert orgId + "." + tail == orgId + "." + connectionId + "." + secret;
    assert TOKEN_PREFIX + "." + (orgId + "." + tail) == TOKEN_PREFIX + "." + orgId + "." + tail;
    assert TOKEN_PREFIX + "." + orgId + "." + tail == TOKEN_PREFIX + "." + orgId + "." + connectionId + "." + secret;
  }

  lemma SplitOfComposed(orgId: string, connectionId: string, secret: string)
    requires '.' !in orgId && '.' !in connectionId && '.' !in secret
    ensures Split(ComposeAgentToken(orgId, connectionId, secret)) == [TOKEN_PREFIX, orgId, connectionId, secret]
  {
    var tail := connectionId + "." + secret;
    SplitOfPart(secret, "");
    SplitOfPart(connectionId, secret);
    SplitOfPart(orgId, tail);
    SplitOfPart(TOKEN_PREFIX, orgId + "." + tail);
    Regroup(orgId, connectionId, secret);
  }

  lemma JoinOfFour(parts: seq<string>)
    requires |parts| == 4 && parts[0] == TOKEN_PREFIX
    ensures Join(parts) == ComposeAgentToken(parts[1], parts[2], parts[3])
  {
    var two := parts[2..];
    assert Join(two) == parts[2] + "." + parts[3] by {
      assert two[1..] == [parts[3]];
    }
    var three := parts[1..];
    assert Join(three) == parts[1] + "." + Join(two) by {
      assert three[1..] == two;
    }
    Regroup(parts[1], parts[2], parts[3]);
  }

  ghost predicate HexDigits(s: string, n: nat) {
    |s| == n && forall c | c in s :: '0' <= c <= '9' || 'a' <= c <= 'f' || 'A' <= c <= 'F'
  }

  // Five hexadecimal groups joined by hyphens.
  ghost predicate IsGrouped(s: string, a: string, b: string, c: string, d: string, e: string) {
    && HexDigits(a, 8) && HexDigits(b, 4) && HexDigits(c, 4) && HexDigits(d, 4) && HexDigits(e, 12)
    && s == a + "-" + b + "-" + c + "-" + d + "-" + e
  }

  lemma UuidExactly(s: string)
    ensures IsUuid(s) <==> exists a, b, c, d, e :: IsGrouped(s, a, b, c, d, e)
  {
    if IsUuid(s) {
      assert s == s[..8] + "-" + s[9..13] + "-" + s[14..18] + "-" + s[19..23] + "-" + s[24..];
      assert IsGrouped(s, s[..8], s[9..13], s[14..18], s[19..23], s[24..]);
    }
    if a, b, c, d, e :| IsGrouped(s, a, b, c, d, e) {
      GroupedIsUuid(s, a, b, c, d, e);
    }
  }

  lemma GroupedIsUuid(s: string, a: string, b: string, c: string, d: string, e: string)
    requires IsGrouped(s, a, b, c, d, e)
    ensures IsUuid(s)
  {
    forall i | 0 <= i < 36 ensures if i in {8, 13, 18, 23} then s[i] == '-' else IsHex(s[i]) {
      if i < 8 {
        assert s[i] == a[i] && a[i] in a;
      } else if 8 < i < 13 {
        assert s[i] == b[i - 9] && b[i - 9] in b;
      } else if 13 < i < 18 {
        assert s[i] == c[i - 14] && c[i - 14] in c;
      } else if 18 < i < 23 {
        assert s[i] == d[i - 19] && d[i - 19] in d;
      } else if 23 < i {
        assert s[i] == e[i - 24] && e[i - 24] in e;
      }
    }
  }

  /** Printing and parsing undo each other: a token parses to some parts exactly when they are valid and compose to it. */
  lemma TokenRoundTrip(token: string, orgId: string, connectionId: string, secret: string)
    ensures ParseAgentToken(token) == Some(Token(orgId, connectionId, secret)) <==>
            ValidParts(orgId, connectionId, secret) && token == ComposeAgentToken(orgId, connectionId, secret)
  {
    if ValidParts(orgId, connectionId, secret) {
      UuidHasNoDot(orgId);
      UuidHasNoDot(connectionId);
      SplitOfComposed(orgId, connectionId, secret);
    }
    var parts := Split(token);
    JoinOfSplit(token);
    if |parts| == 4 && parts[0] == TOKEN_PREFIX {
      JoinOfFour(parts);
    }
  }

  /**
   Which texts are tokens of which parts, written out: the prefix, two UUIDs of five hexadecimal groups and a
   secret of at least 20 URL-safe characters, joined by dots.
   */
  lemma ParsesExactly(token: string, orgId: string, connectionId: string, secret: string)
    ensures ParseAgentToken(token) == Some(Token(orgId, connectionId, secret)) <==>
            && token == "rva1." + orgId + "." + connectionId + "." + secret
            && (exists a, b, c, d, e :: IsGrouped(orgId, a, b, c, d, e))
            && (exists a, b, c, d, e :: IsGrouped(connectionId, a, b, c, d, e))
            && |secret| >= 20
            && forall c | c in secret :: 'A' <= c <= 'Z' || 'a' <= c <= 'z' || '0' <= c <= '9' || c == '-' || c == '_'
  {
    TokenRoundTrip(token, orgId, connectionId, secret);
    UuidExactly(orgId);
    UuidExactly(connectionId);
    assert TOKEN_PREFIX + "." == "rva1.";
  }

  /** Thirty-two bytes always give a secret of 43 characters that a token accepts, and that gives the bytes back. */
  lemma GeneratedSecretIsAccepted(bytes: seq<Byte>, orgId: string, connectionId: string)
    requires |bytes| == SECRET_BYTE_LENGTH && IsUuid(orgId) && IsUuid(connectionId)
    ensures var secret := ToBase64Url(bytes);
            && |secret| == 43
            && ParseAgentToken(ComposeAgentToken(orgId, connectionId, secret)) == Some(Token(orgId, connectionId, secret))
            && FromBase64Url(secret) == Some(bytes)
  {
    var secret := ToBase64Url(bytes);
    EncodingIsGrouped(bytes);
    GroupedHasNoPadding(bytes);
    Base64UrlRoundTrip(bytes, secret);
    TokenRoundTrip(ComposeAgentToken(orgId, connectionId, secret), orgId, connectionId, secret);
  }

  // ---------- Comparison ----------

  function Continuation(v: nat): Byte {
    0x80 + v % 64
  }

  // The UTF-8 bytes of a character (section 3 of RFC 3629).
  function Utf8Char(c: char): (bytes: seq<Byte>)
    ensures 1 <= |bytes| <= 4
  {
    var v := c as int;
    if v < 0x80 then [v]
    else if v < 0x800 then [0xC0 + v / 64, Continuation(v)]
    else if v < 0x1_0000 then [0xE0 + v / 64 / 64, Continuation(v / 64), Continuation(v)]
    else [0xF0 + v / 64 / 64 / 64, Continuation(v / 64 / 64), Continuation(v / 64), Continuation(v)]
  }

  function Utf8(s: string): seq<Byte> {
    if s == [] then [] else Utf8Char(s[0]) + Utf8(s[1..])
  }

  // The first byte of a character fixes the number of its bytes.
  function LengthOfFirst(first: Byte): nat {
    if first < 0x80 then 1 else if first < 0xE0 then 2 else if first < 0xF0 then 3 else 4
  }

  // The number a first byte and continuation bytes spell.
  function Spelled(lead: int, continuations: seq<Byte>): int {
    if continuations == [] then lead
    else Spelled(lead, continuations[..|continuations|-1]) * 64 + (continuations[|continuations|-1] as int - 0x80)
  }

  function CodeOf(bytes: seq<Byte>): int
    requires bytes != []
  {
    var mark := if |bytes| == 1 then 0 else if |bytes| == 2 then 0xC0 else if |bytes| == 3 then 0xE0 else 0xF0;
    Spelled(bytes[0] as int - mark, bytes[1..])
  }

  lemma SpelledNext(lead: int, front: seq<Byte>, v: nat)
    requires Spelled(lead, front) == v / 64
    ensures Spelled(lead, front + [Continuation(v)]) == v
  {
    assert (front + [Continuation(v)])[..|front|] == front;
  }

  lemma Utf8CharIsReadable(c: char)
    ensures |Utf8Char(c)| == LengthOfFirst(Utf8Char(c)[0])
    ensures CodeOf(Utf8Char(c)) == c as int
  {
    var v, bytes := c as int, Utf8Char(c);
    var last, second, third := [Continuation(v)], [Continuation(v / 64)], [Continuation(v / 64 / 64)];
    if v >= 0x1_0000 {
      SpelledNext(v / 64 / 64 / 64, [], v / 64 / 64);
      SpelledNext(v / 64 / 64 / 64, [] + third, v / 64);
      SpelledNext(v / 64 / 64 / 64, [] + third + second, v);
      assert bytes[1..] == [] + third + second + last;
    } else if v >= 0x800 {
      SpelledNext(v / 64 / 64, [], v / 64);
      SpelledNext(v / 64 / 64, [] + second, v);
      assert bytes[1..] == [] + second + last;
    } else if v >= 0x80 {
      SpelledNext(v / 64, [], v);
      assert bytes[1..] == [] + last;
    }
  }

  lemma {:induction false} Utf8IsInjective(a: string, b: string)
    requires Utf8(a) == Utf8(b)
    ensures a == b
  {
    if a != [] && b != [] {
      var x, y := Utf8Char(a[0]), Utf8Char(b[0]);
      Utf8CharIsReadable(a[0]);
      Utf8CharIsReadable(b[0]);
      assert x[0] == Utf8(a)[0] && y[0] == Utf8(b)[0];
      assert x == Utf8(a)[..|x|] && y == Utf8(b)[..|y|];
      assert Utf8(a[1..]) == Utf8(a)[|x|..] && Utf8(b[1..]) == Utf8(b)[|y|..];
      Utf8IsInjective(a[1..], b[1..]);
      assert a == [a[0]] + a[1..] && b == [b[0]] + b[1..];
    }
  }

  // Bitwise operations on numbers of n bits.
  function Xor(x: nat, y: nat, n: nat): nat {
    if n == 0 then 0 else Xor(x / 2, y / 2, n - 1) * 2 + if x % 2 != y % 2 then 1 else 0
  }

  function Or(x: nat, y: nat, n: nat): nat {
    if n == 0 then 0 else Or(x / 2, y / 2, n - 1) * 2 + if x % 2 == 1 || y % 2 == 1 then 1 else 0
  }

  function Power2(n: nat): nat {
    if n == 0 then 1 else 2 * Power2(n - 1)
  }

  lemma {:induction false} XorIsZero(x: nat, y: nat, n: nat)
    requires x < Power2(n) && y < Power2(n)
    ensures Xor(x, y, n) < Power2(n)
    ensures Xor(x, y, n) == 0 <==> x == y
  {
    if n > 0 {
      XorIsZero(x / 2, y / 2, n - 1);
    }
  }

  lemma {:induction false} OrIsZero(x: nat, y: nat, n: nat)
    requires x < Power2(n) && y < Power2(n)
    ensures Or(x, y, n) < Power2(n)
    ensures Or(x, y, n) == 0 <==> x == 0 && y == 0
  {
    if n > 0 {
      OrIsZero(x / 2, y / 2, n - 1);
    }
  }

  lemma ByteWidth()
    ensures Power2(8) == 256
  {
    assert Power2(4) == 16;
  }

  // Differences accumulate over all bytes, whatever they are.
  method SameBytes(a: seq<Byte>, b: seq<Byte>) returns (same: bool)
    requires |a| == |b|
    ensures same <==> a == b
  {
    var diff: Byte := 0;
    ByteWidth();
    for i := 0 to |a|
      invariant diff == 0 <==> a[..i] == b[..i]
    {
      XorIsZero(a[i], b[i], 8);
      OrIsZero(diff, Xor(a[i], b[i], 8), 8);
      PrefixGrows(a, b, i);
      diff := Or(diff, Xor(a[i], b[i], 8), 8);
    }
    assert a[..|a|] == a && b[..|b|] == b;
    same := diff == 0;
  }

  lemma PrefixGrows<T>(a: seq<T>, b: seq<T>, i: nat)
    requires i < |a| == |b|
    ensures a[..i+1] == b[..i+1] <==> a[..i] == b[..i] && a[i] == b[i]
  {
    assert a[..i+1] == a[..i] + [a[i]] && b[..i+1] == b[..i] + [b[i]];
  }

  method TimingSafeEqualStr(a: string, b: string) returns (same: bool)
    ensures same <==> a == b
  {
    var aBytes, bBytes := Utf8(a), Utf8(b);
    if aBytes == bBytes {
      Utf8IsInjective(a, b);
    }
    if |aBytes| != |bBytes| {
      return false;
    }
    same := SameBytes(aBytes, bBytes);
  }
}
