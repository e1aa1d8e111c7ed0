/**
 * JavaScript's `encodeURIComponent` and `decodeURIComponent` (ECMAScript,
 * section 19.2.6 "URI Handling Functions"), which the authentication
 * middleware uses to carry the page a signed-out user asked for through the
 * `next` query parameter of the login URL.
 *
 * Strings are sequences of Unicode scalar values; JavaScript's UTF-16 code
 * units pair up into the same scalars (a lone surrogate, which
 * `encodeURIComponent` rejects, is not representable here).
 */
module UriComponent {
  import opened Text

  /** Characters `encodeURIComponent` leaves as they are. */
  predicate Unreserved(c: char) {
    || ('A' <= c <= 'Z')
    || ('a' <= c <= 'z')
    || ('0' <= c <= '9')
    || c in "-_.!~*'()"
  }

  const HexDigits: string := "0123456789ABCDEF"

  /** The value of a hexadecimal digit of either case. */
  function HexValue(c: char): (v: Option<nat>)
    ensures v.Some? ==> v.value < 16
  {
    if '0' <= c <= '9' then Some(c as int - '0' as int)
    else if 'A' <= c <= 'F' then Some(c as int - 'A' as int + 10)
    else if 'a' <= c <= 'f' then Some(c as int - 'a' as int + 10)
    else None
  }

  lemma HexDigitValue(d: nat)
    requires d < 16
    ensures HexValue(HexDigits[d]) == Some(d)
  {
  }

  /** The escape `%XY` of one octet, with upper-case digits. */
  function PercentOctet(b: Byte): (e: string)
    ensures |e| == 3 && e[0] == '%'
  {
    ['%', HexDigits[b / 16], HexDigits[b % 16]]
  }

  /** The octet written by the two hex digits at `s[k]` and `s[k + 1]`, if they are hex digits. */
  function ParseHexOctet(s: string, k: nat): (b: Option<Byte>)
    requires k + 2 <= |s|
  {
    match (HexValue(s[k]), HexValue(s[k + 1]))
    case (Some(hi), Some(lo)) => Some(hi * 16 + lo)
    case _ => None
  }

  lemma ParsePercentOctet(b: Byte, t: string)
    ensures ParseHexOctet(PercentOctet(b) + t, 1) == Some(b)
  {
    var s := PercentOctet(b) + t;
    HexDigitValue(b / 16);
    HexDigitValue(b % 16);
    assert s[1] == HexDigits[b / 16] && s[2] == HexDigits[b % 16];
  }

  /** The UTF-8 encoding of a scalar value. */
  function Utf8(c: char): (bytes: seq<Byte>)
    ensures 1 <= |bytes| <= 4
  {
    var cp := c as int;
    if cp < 0x80 then [cp]
    else if cp < 0x800 then [0xC0 + cp / 64, 0x80 + cp % 64]
    else if cp < 0x10000 then [0xE0 + cp / 4096, 0x80 + (cp / 64) % 64, 0x80 + cp % 64]
    else [0xF0 + cp / 262144, 0x80 + (cp / 4096) % 64, 0x80 + (cp / 64) % 64, 0x80 + cp % 64]
  }

  function PercentOctets(bytes: seq<Byte>): (e: string)
    ensures |e| == 3 * |bytes|
  {
    if bytes == [] then "" else PercentOctet(bytes[0]) + PercentOctets(bytes[1..])
  }

  function EncodeChar(c: char): (e: string)
    ensures |e| >= 1
  {
    if Unreserved(c) then [c] else PercentOctets(Utf8(c))
  }

  /** `encodeURIComponent(s)`. */
  function Encode(s: string): (e: string)
    ensures |e| >= |s|
  {
    if s == [] then "" else EncodeChar(s[0]) + Encode(s[1..])
  }

  /**
   * The number of octets a UTF-8 sequence with this leading octet has, from
   * its run of leading 1 bits; 0 for a run of exactly one or more than four,
   * which `decodeURIComponent` rejects.
   */
  function SequenceLength(b: Byte): (n: nat)
    ensures n <= 4
  {
    if b < 0x80 then 1
    else if b < 0xC0 then 0
    else if b < 0xE0 then 2
    else if b < 0xF0 then 3
    else if b < 0xF8 then 4
    else 0
  }

  /** Reads `count` consecutive `%XY` escapes from the start of `s`. */
  function EscapedOctets(s: string, count: nat): (r: Option<seq<Byte>>)
    ensures r.Some? ==> |r.value| == count && 3 * count <= |s|
  {
    if count == 0 then Some([])
    else if |s| < 3 || s[0] != '%' then None
    else
      match ParseHexOctet(s, 1)
      case None => None
      case Some(b) =>
        match EscapedOctets(s[3..], count - 1)
        case None => None
        case Some(rest) => Some([b] + rest)
  }

  predicate Continuation(b: Byte) {
    0x80 <= b < 0xC0
  }

  predicate IsScalar(cp: int) {
    (0 <= cp < 0xD800) || (0xE000 <= cp < 0x110000)
  }

  /**
   * The scalar value of a UTF-8 sequence whose length its leading octet
   * announces, or None when the sequence is not the valid (shortest,
   * non-surrogate, in range) encoding of one.
   */
  function Utf8Decode(bytes: seq<Byte>): (c: Option<char>)
    requires 1 <= |bytes| && SequenceLength(bytes[0]) == |bytes|
  {
    var n := |bytes|;
    if n == 1 then Some(bytes[0] as char)
    else if exists i | 1 <= i < n :: !Continuation(bytes[i]) then None
    else
      var cp: int :=
        if n == 2 then (bytes[0] as int - 0xC0) * 64 + (bytes[1] as int - 0x80)
        else if n == 3 then (bytes[0] as int - 0xE0) * 4096 + (bytes[1] as int - 0x80) * 64 + (bytes[2] as int - 0x80)
        else (bytes[0] as int - 0xF0) * 262144 + (bytes[1] as int - 0x80) * 4096 + (bytes[2] as int - 0x80) * 64 + (bytes[3] as int - 0x80);
      var shortest: int := if n == 2 then 0x80 else if n == 3 then 0x800 else 0x10000;
      if shortest <= cp && IsScalar(cp) then Some(cp as char) else None
  }

  /**
   * Decodes the escape group at the start of `s` (which starts with `%`):
   * the character and the number of input characters it spans.
   */
  function DecodeEscape(s: string): (r: Option<(char, nat)>)
    requires s != [] && s[0] == '%'
    ensures r.Some? ==> 3 <= r.value.1 <= |s|
  {
    if |s| < 3 then None
    else
      match ParseHexOctet(s, 1)
      case None => None
      case Some(lead) =>
        var n := SequenceLength(lead);
        if n == 0 then None
        else
          match EscapedOctets(s[3..], n - 1)
          case None => None
          case Some(rest) =>
            match Utf8Decode([lead] + rest)
            case None => None
            case Some(c) => Some((c, 3 * n))
  }

  function Prepend(c: char, r: Option<string>): Option<string> {
    match r
    case None => None
    case Some(t) => Some([c] + t)
  }

  /** `decodeURIComponent(s)`; None where it throws a URIError. */
  function Decode(s: string): (r: Option<string>)
    ensures r.None? ==> '%' in s
    ensures r.Some? ==> |r.value| <= |s|
    decreases |s|
  {
    if s == [] then Some("")
    else if s[0] != '%' then Prepend(s[0], Decode(s[1..]))
    else
      match DecodeEscape(s)
      case None => None
      case Some((c, len)) => Prepend(c, Decode(s[len..]))
  }

  // ----- the round trip -----

  lemma {:induction false} EscapedOctetsOfPercentOctets(bytes: seq<Byte>, t: string)
    ensures EscapedOctets(PercentOctets(bytes) + t, |bytes|) == Some(bytes)
  {
    if bytes != [] {
      var tail := PercentOctets(bytes[1..]) + t;
      var s := PercentOctets(bytes) + t;
      assert s == PercentOctet(bytes[0]) + tail;
      assert |s| >= 3 && s[0] == '%';
      ParsePercentOctet(bytes[0], tail);
      assert s[3..] == tail;
      EscapedOctetsOfPercentOctets(bytes[1..], t);
      assert [bytes[0]] + bytes[1..] == bytes;
    }
  }

  lemma Utf8Lead(c: char)
    ensures SequenceLength(Utf8(c)[0]) == |Utf8(c)|
    ensures forall i | 1 <= i < |Utf8(c)| :: Continuation(Utf8(c)[i])
  {
  }

  /** The two-octet split of a code point: `cp = 64·(cp / 64) + cp % 64`. */
  lemma Split2(cp: int)
    requires 0 <= cp
    ensures (cp / 64) * 64 + cp % 64 == cp
  {
  }

  /** The three-octet split of a code point. */
  lemma Split3(cp: int)
    requires 0 <= cp
    ensures (cp / 4096) * 4096 + ((cp / 64) % 64) * 64 + cp % 64 == cp
  {
    Split2(cp);
    Split2(cp / 64);
    assert cp / 64 / 64 == cp / 4096;
  }

  /** The four-octet split of a code point. */
  lemma Split4(cp: int)
    requires 0 <= cp
    ensures (cp / 262144) * 262144 + ((cp / 4096) % 64) * 4096 + ((cp / 64) % 64) * 64 + cp % 64 == cp
  {
    Split3(cp);
    Split2(cp / 4096);
    assert cp / 4096 / 64 == cp / 262144;
  }

  lemma Utf8RoundTrip(c: char)
    ensures SequenceLength(Utf8(c)[0]) == |Utf8(c)|
    ensures Utf8Decode(Utf8(c)) == Some(c)
  {
    Utf8Lead(c);
    var cp := c as int;
    if 0x80 <= cp < 0x800 {
      Split2(cp);
    } else if 0x800 <= cp < 0x10000 {
      Split3(cp);
    } else if cp >= 0x10000 {
      Split4(cp);
    }
  }

  /** One unfolding of `DecodeEscape`: lead octet, continuation octets, decoded character. */
  lemma DecodeEscapeStep(s: string, lead: Byte, rest: seq<Byte>, c: char)
    requires |s| >= 3 && s[0] == '%'
    requires ParseHexOctet(s, 1) == Some(lead) && SequenceLength(lead) != 0
    requires EscapedOctets(s[3..], SequenceLength(lead) - 1) == Some(rest)
    requires Utf8Decode([lead] + rest) == Some(c)
    ensures DecodeEscape(s) == Some((c, 3 * SequenceLength(lead)))
  {
  }

  /** The escapes of a valid UTF-8 sequence form one escape group that decodes to its character. */
  lemma DecodeEscapedOctets(bytes: seq<Byte>, c: char, t: string)
    requires 1 <= |bytes| && SequenceLength(bytes[0]) == |bytes|
    requires Utf8Decode(bytes) == Some(c)
    ensures var s := PercentOctets(bytes) + t;
      && s[0] == '%'
      && DecodeEscape(s) == Some((c, 3 * |bytes|))
  {
    var lead := bytes[0];
    var rest := bytes[1..];
    var tail := PercentOctets(rest) + t;
    var s := PercentOctets(bytes) + t;
    assert s == PercentOctet(lead) + tail;
    assert |s| >= 3 && s[0] == '%';
    ParsePercentOctet(lead, tail);
    assert s[3..] == tail;
    EscapedOctetsOfPercentOctets(rest, t);
    assert [lead] + rest == bytes;
    DecodeEscapeStep(s, lead, rest, c);
  }

  /** Decoding the encoding of one character yields it and moves past its escapes. */
  lemma DecodeEncodedChar(c: char, t: string)
    ensures Decode(EncodeChar(c) + t) == Prepend(c, Decode(t))
  {
    var s := EncodeChar(c) + t;
    if Unreserved(c) {
      assert s[0] == c && s[1..] == t;
    } else {
      Utf8RoundTrip(c);
      DecodeEscapedOctets(Utf8(c), c, t);
      assert s[3 * |Utf8(c)|..] == t;
    }
  }

  /** `decodeURIComponent(encodeURIComponent(s)) === s` for every string. */
  lemma {:induction false} DecodeEncode(s: string)
    ensures Decode(Encode(s)) == Some(s)
  {
    if s != [] {
      assert Encode(s) == EncodeChar(s[0]) + Encode(s[1..]);
      DecodeEncodedChar(s[0], Encode(s[1..]));
      DecodeEncode(s[1..]);
      assert [s[0]] + s[1..] == s;
    }
  }

  /** The encoding of a non-empty string is non-empty. */
  lemma EncodeNonEmpty(s: string)
    requires s != ""
    ensures Encode(s) != ""
  {
  }

  /** Strings of unreserved characters are encoded as they are. */
  lemma {:induction false} EncodeUnreserved(s: string)
    requires forall i | 0 <= i < |s| :: Unreserved(s[i])
    ensures Encode(s) == s
  {
    if s != [] {
      EncodeUnreserved(s[1..]);
      assert [s[0]] + s[1..] == s;
    }
  }
}
