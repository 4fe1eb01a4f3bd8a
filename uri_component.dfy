/**
  `encodeURIComponent` and `decodeURIComponent` (the URI handling functions of
  ECMA-262, "Encode" and "Decode"). A character outside the unreserved set is
  written as the UTF-8 octets of its code point, each as `%` and two
  upper-case hexadecimal digits (section 2.1 of RFC 3986).
*/
module UriComponent {
  import opened Wrappers

  type Byte = x: int | 0 <= x < 256

  /** The characters `encodeURIComponent` leaves as they are: `A-Z a-z 0-9 - _ . ! ~ * ' ( )`. */
  predicate IsUnreserved(c: char)
  {
    || ('A' <= c <= 'Z') || ('a' <= c <= 'z') || ('0' <= c <= '9')
    || c == '-' || c == '_' || c == '.' || c == '!' || c == '~' || c == '*' || c == '\'' || c == '(' || c == ')'
  }

  predicate IsUpperHexDigit(c: char)
  {
    ('0' <= c <= '9') || ('A' <= c <= 'F')
  }

  /** The upper-case hexadecimal digit for `v`. */
  function HexDigit(v: int): (c: char)
    requires 0 <= v < 16
    ensures IsUpperHexDigit(c)
  {
    if v < 10 then ('0' as int + v) as char else ('A' as int + v - 10) as char
  }

  /** The value of a hexadecimal digit of either case. */
  function HexValue(c: char): (r: Option<int>)
    ensures r.Some? ==> 0 <= r.value < 16
  {
    if '0' <= c <= '9' then Some(c as int - '0' as int)
    else if 'A' <= c <= 'F' then Some(c as int - 'A' as int + 10)
    else if 'a' <= c <= 'f' then Some(c as int - 'a' as int + 10)
    else None
  }

  lemma HexRoundTrip(v: int)
    requires 0 <= v < 16
    ensures HexValue(HexDigit(v)) == Some(v)
  {
  }

  /**
    The UTF-8 octets of a code point (RFC 3629): the lead octet carries the
    high bits, each continuation octet six more bits.
  */
  function Utf8(c: char): (bs: seq<Byte>)
    ensures 1 <= |bs| <= 4
    ensures |bs| == 1 <==> c as int < 0x80
  {
    var cp := c as int;
    var q1 := cp / 0x40;
    var q2 := q1 / 0x40;
    var q3 := q2 / 0x40;
    if cp < 0x80 then [cp]
    else if cp < 0x800 then [0xC0 + q1, 0x80 + cp % 0x40]
    else if cp < 0x10000 then [0xE0 + q2, 0x80 + q1 % 0x40, 0x80 + cp % 0x40]
    else [0xF0 + q3, 0x80 + q2 % 0x40, 0x80 + q1 % 0x40, 0x80 + cp % 0x40]
  }

  /**
    The number of leading one bits of a lead octet, as the Decode algorithm
    counts them (0 for a one-octet character; 1 and 5 are invalid).
  */
  function LeadLength(b: Byte): nat
  {
    if b < 0x80 then 0
    else if b < 0xC0 then 1
    else if b < 0xE0 then 2
    else if b < 0xF0 then 3
    else if b < 0xF8 then 4
    else 5
  }

  predicate IsContinuation(b: Byte) { 0x80 <= b < 0xC0 }

  /** A valid scalar value: no surrogate, at most U+10FFFF. */
  predicate IsScalar(cp: int)
  {
    (0 <= cp < 0xD800) || (0xE000 <= cp < 0x110000)
  }

  /**
    The code point a multi-octet UTF-8 sequence encodes, or `None` when the
    octets are not the shortest encoding of a scalar value.
  */
  function Utf8Decode(bs: seq<Byte>): (r: Option<char>)
    requires 2 <= |bs| <= 4
    requires LeadLength(bs[0]) == |bs|
    requires forall i :: 1 <= i < |bs| ==> IsContinuation(bs[i])
  {
    var b0: int, b1: int := bs[0], bs[1];
    if |bs| == 2 then
      var cp := (b0 - 0xC0) * 0x40 + (b1 - 0x80);
      if 0x80 <= cp then Some(cp as char) else None
    else if |bs| == 3 then
      var b2: int := bs[2];
      var cp := ((b0 - 0xE0) * 0x40 + (b1 - 0x80)) * 0x40 + (b2 - 0x80);
      if 0x800 <= cp && IsScalar(cp) then Some(cp as char) else None
    else
      var b2: int, b3: int := bs[2], bs[3];
      var cp := (((b0 - 0xF0) * 0x40 + (b1 - 0x80)) * 0x40 + (b2 - 0x80)) * 0x40 + (b3 - 0x80);
      if 0x10000 <= cp < 0x110000 then Some(cp as char) else None
  }

  /** Decoding the octets `Utf8` writes for a character outside ASCII gives that character back. */
  lemma Utf8RoundTrip(c: char)
    requires 0x80 <= c as int
    ensures var bs := Utf8(c);
      && LeadLength(bs[0]) == |bs|
      && (forall i :: 1 <= i < |bs| ==> IsContinuation(bs[i]))
      && Utf8Decode(bs) == Some(c)
  {
  }

  /** The decoder accepts only the octets the encoder writes: overlong forms and surrogates are refused. */
  lemma Utf8DecodeCanonical(bs: seq<Byte>)
    requires 2 <= |bs| <= 4
    requires LeadLength(bs[0]) == |bs|
    requires forall i :: 1 <= i < |bs| ==> IsContinuation(bs[i])
    ensures Utf8Decode(bs).Some? ==> Utf8(Utf8Decode(bs).value) == bs
  {
    if |bs| == 3 {
      Utf8DecodeCanonical3(bs);
    } else if |bs| == 4 {
      Utf8DecodeCanonical4(bs);
    }
  }

  lemma Utf8DecodeCanonical3(bs: seq<Byte>)
    requires |bs| == 3 && LeadLength(bs[0]) == 3
    requires IsContinuation(bs[1]) && IsContinuation(bs[2])
    ensures Utf8Decode(bs).Some? ==> Utf8(Utf8Decode(bs).value) == bs
  {
    var b0: int, b1: int, b2: int := bs[0], bs[1], bs[2];
    var hi := (b0 - 0xE0) * 0x40 + (b1 - 0x80);
    var cp := hi * 0x40 + (b2 - 0x80);
    assert cp / 0x40 == hi && cp % 0x40 == b2 - 0x80;
    assert hi / 0x40 == b0 - 0xE0 && hi % 0x40 == b1 - 0x80;
  }

  lemma Utf8DecodeCanonical4(bs: seq<Byte>)
    requires |bs| == 4 && LeadLength(bs[0]) == 4
    requires IsContinuation(bs[1]) && IsContinuation(bs[2]) && IsContinuation(bs[3])
    ensures Utf8Decode(bs).Some? ==> Utf8(Utf8Decode(bs).value) == bs
  {
    var b0: int, b1: int, b2: int, b3: int := bs[0], bs[1], bs[2], bs[3];
    var top := (b0 - 0xF0) * 0x40 + (b1 - 0x80);
    var hi := top * 0x40 + (b2 - 0x80);
    var cp := hi * 0x40 + (b3 - 0x80);
    assert cp / 0x40 == hi && cp % 0x40 == b3 - 0x80;
    assert hi / 0x40 == top && hi % 0x40 == b2 - 0x80;
    assert top / 0x40 == b0 - 0xF0 && top % 0x40 == b1 - 0x80;
  }

  /** A character `encodeURIComponent` may write: an unreserved one, `%`, or an upper-case hexadecimal digit. */
  predicate IsEncodedChar(c: char)
  {
    IsUnreserved(c) || c == '%' || IsUpperHexDigit(c)
  }

  /** One octet as `%` and two upper-case hexadecimal digits. */
  function PercentOctet(b: Byte): string
  {
    ['%', HexDigit(b / 16), HexDigit(b % 16)]
  }

  /** A sequence of octets, each percent-encoded. */
  function PercentEncode(bs: seq<Byte>): (r: string)
    ensures |r| == 3 * |bs|
    ensures forall i :: 0 <= i < |r| ==> IsEncodedChar(r[i])
  {
    if bs == [] then [] else PercentOctet(bs[0]) + PercentEncode(bs[1..])
  }

  /**
    The text `encodeURIComponent` writes for one character: the character
    itself exactly when it is unreserved, otherwise one `%XY` escape per
    UTF-8 octet.
  */
  function EncodeChar(c: char): (r: string)
    ensures r == [c] <==> IsUnreserved(c)
    ensures !IsUnreserved(c) ==> |r| == 3 * |Utf8(c)| && r[0] == '%'
    ensures forall i :: 0 <= i < |r| ==> IsEncodedChar(r[i])
  {
    if IsUnreserved(c) then [c] else PercentEncode(Utf8(c))
  }

  /**
    `encodeURIComponent`. Its result holds no character outside the unreserved
    set but `%` and hexadecimal digits, so in particular no `&`, `=`, `?` or `#`.
  */
  function EncodeURIComponent(s: string): (r: string)
    ensures forall i :: 0 <= i < |r| ==> IsEncodedChar(r[i])
  {
    if s == [] then [] else EncodeChar(s[0]) + EncodeURIComponent(s[1..])
  }

  /** The octet written as `%XY` (either case) at the start of `s`, if there is one. */
  function ReadOctet(s: string): (r: Option<Byte>)
    ensures r.Some? ==> 3 <= |s| && s[0] == '%'
  {
    if 3 <= |s| && s[0] == '%' then
      match (HexValue(s[1]), HexValue(s[2]))
      case (Some(hi), Some(lo)) => Some(hi * 16 + lo)
      case _ => None
    else None
  }

  /** `n` percent-encoded octets at the start of `s`, if there are. */
  function ReadOctets(s: string, n: nat): (r: Option<seq<Byte>>)
    ensures r.Some? ==> |r.value| == n && 3 * n <= |s|
    ensures r.Some? && 0 < n ==> ReadOctet(s) == Some(r.value[0])
  {
    if n == 0 then Some([])
    else match ReadOctet(s)
      case None => None
      case Some(b) =>
        match ReadOctets(s[3..], n - 1)
        case None => None
        case Some(bs) => Some([b] + bs)
  }

  /**
    One step of `decodeURIComponent`: the first character of `s` and the number
    of code units it takes, or `None` where the algorithm throws a URIError
    (a malformed escape, an invalid lead or continuation octet, an overlong
    form, a surrogate or a code point above U+10FFFF).
  */
  function DecodeStep(s: string): (r: Option<(char, nat)>)
    requires s != []
    ensures r.Some? ==> 1 <= r.value.1 <= |s|
  {
    if s[0] != '%' then Some((s[0], 1))
    else match ReadOctet(s)
      case None => None
      case Some(b) =>
        var n := LeadLength(b);
        if n == 0 then Some((b as char, 3))
        else if n == 1 || n == 5 then None
        else match ReadOctets(s, n)
          case None => None
          case Some(bs) =>
            if forall i :: 1 <= i < n ==> IsContinuation(bs[i]) then
              match Utf8Decode(bs)
              case None => None
              case Some(c) => Some((c, 3 * n))
            else None
  }

  /** `decodeURIComponent`, with `None` for a URIError. */
  function DecodeURIComponent(s: string): Option<string>
    decreases |s|
  {
    if s == [] then Some([])
    else match DecodeStep(s)
      case None => None
      case Some((c, k)) =>
        match DecodeURIComponent(s[k..])
        case None => None
        case Some(rest) => Some([c] + rest)
  }

  lemma ReadPercentOctet(b: Byte, rest: string)
    ensures ReadOctet(PercentOctet(b) + rest) == Some(b)
  {
    HexRoundTrip(b / 16);
    HexRoundTrip(b % 16);
  }

  /** Reading `k` octets back from their percent-encoding gives the first `k` of them. */
  lemma {:induction false} ReadPercentEncoded(bs: seq<Byte>, rest: string, k: nat)
    requires k <= |bs|
    ensures ReadOctets(PercentEncode(bs) + rest, k) == Some(bs[..k])
    decreases k
  {
    if k > 0 {
      var t := PercentEncode(bs) + rest;
      assert t == PercentOctet(bs[0]) + (PercentEncode(bs[1..]) + rest);
      ReadPercentOctet(bs[0], PercentEncode(bs[1..]) + rest);
      assert t[3..] == PercentEncode(bs[1..]) + rest;
      ReadPercentEncoded(bs[1..], rest, k - 1);
      assert [bs[0]] + bs[1..][..k - 1] == bs[..k];
    }
  }

  /** Decoding starts by reading back exactly the character `EncodeChar` wrote. */
  lemma DecodeStepEncoded(c: char, rest: string)
    ensures DecodeStep(EncodeChar(c) + rest) == Some((c, |EncodeChar(c)|))
  {
    if !IsUnreserved(c) {
      var bs := Utf8(c);
      var t := EncodeChar(c) + rest;
      ReadPercentEncoded(bs, rest, |bs|);
      ReadPercentEncoded(bs, rest, 1);
      assert bs[..|bs|] == bs;
      if 0x80 <= c as int {
        Utf8RoundTrip(c);
      }
    }
  }

  /** `decodeURIComponent` undoes `encodeURIComponent` on every string. */
  lemma {:induction false} DecodeEncode(s: string)
    ensures DecodeURIComponent(EncodeURIComponent(s)) == Some(s)
  {
    if s != [] {
      var e := EncodeURIComponent(s);
      var rest := EncodeURIComponent(s[1..]);
      assert e == EncodeChar(s[0]) + rest;
      DecodeStepEncoded(s[0], rest);
      assert e[|EncodeChar(s[0])|..] == rest;
      DecodeEncode(s[1..]);
      assert [s[0]] + s[1..] == s;
    }
  }

  /** Encoding works character by character, so it distributes over concatenation. */
  lemma {:induction false} EncodeConcat(a: string, b: string)
    ensures EncodeURIComponent(a + b) == EncodeURIComponent(a) + EncodeURIComponent(b)
  {
    if a != [] {
      assert (a + b)[1..] == a[1..] + b;
      EncodeConcat(a[1..], b);
    } else {
      assert a + b == b;
    }
  }

  /** A string of unreserved characters is encoded as itself. */
  lemma {:induction false} EncodeUnreserved(s: string)
    requires forall i :: 0 <= i < |s| ==> IsUnreserved(s[i])
    ensures EncodeURIComponent(s) == s
  {
    if s != [] {
      EncodeUnreserved(s[1..]);
      assert [s[0]] + s[1..] == s;
    }
  }

  /** An ASCII character outside the unreserved set is written as one `%XY` escape. */
  lemma EncodeAsciiReserved(c: char)
    requires c as int < 0x80 && !IsUnreserved(c)
    ensures EncodeURIComponent([c]) == ['%', HexDigit(c as int / 16), HexDigit(c as int % 16)]
  {
    assert [c][1..] == [];
  }
}
