/*
 * urlBase64ToUint8Array (frontend/pushNotifications.js). The server hands out
 * its VAPID public key in the URL-safe alphabet of section 5 of RFC 4648,
 * usually without padding. The client pads it with `=`, translates it to the
 * alphabet of section 4 of RFC 4648, decodes it with window.atob and copies
 * the resulting characters into a Uint8Array.
 *
 * window.atob is the forgiving-base64 decode of the WHATWG Infra standard:
 * drop ASCII whitespace, drop one or two trailing `=` when the length is a
 * multiple of four, refuse a length of 1 modulo 4 or any character outside
 * the alphabet, then turn every four characters into three bytes and a
 * trailing two or three characters into one or two bytes.
 */
module PushKey {
  import opened Base

  type Byte = x: int | 0 <= x < 256
  type Sextet = x: int | 0 <= x < 64

  // ---------------------------------------------------------------------------
  // Padding and translation
  // ---------------------------------------------------------------------------

  /** `(4 - length % 4) % 4`. */
  function Padding(len: nat): (n: nat)
    ensures n <= 3
    ensures (len + n) % 4 == 0
  {
    (4 - len % 4) % 4
  }

  /** String.prototype.repeat on a one-character string. */
  function Repeat(c: char, n: nat): (r: string)
    ensures |r| == n
    ensures forall k :: 0 <= k < n ==> r[k] == c
  {
    seq(n, _ => c)
  }

  /** `s.replace(/<from>/g, <to>)` for single characters. */
  function ReplaceAll(s: string, from: char, to: char): (r: string)
    ensures |r| == |s|
    ensures forall k :: 0 <= k < |s| ==> r[k] == if s[k] == from then to else s[k]
  {
    seq(|s|, k requires 0 <= k < |s| => if s[k] == from then to else s[k])
  }

  /** The URL-safe characters mapped to the standard alphabet; everything
      else is kept. */
  function UrlToStd(c: char): char {
    if c == '-' then '+' else if c == '_' then '/' else c
  }

  /** The string handed to atob. */
  function Base64Input(key: string): (r: string)
    ensures |r| == |key| + Padding(|key|)
    ensures |r| % 4 == 0
    ensures forall k :: 0 <= k < |key| ==> r[k] == UrlToStd(key[k])
    ensures forall k :: |key| <= k < |r| ==> r[k] == '='
  {
    ReplaceAll(ReplaceAll(key + Repeat('=', Padding(|key|)), '-', '+'), '_', '/')
  }

  // ---------------------------------------------------------------------------
  // Alphabets
  // ---------------------------------------------------------------------------

  /** The value of a character of the standard alphabet (section 4 of
      RFC 4648), or None for any other character. */
  function StdValue(c: char): Option<Sextet> {
    if 'A' <= c <= 'Z' then Some(c as int - 'A' as int)
    else if 'a' <= c <= 'z' then Some(c as int - 'a' as int + 26)
    else if '0' <= c <= '9' then Some(c as int - '0' as int + 52)
    else if c == '+' then Some(62)
    else if c == '/' then Some(63)
    else None
  }

  function StdChar(v: Sextet): (c: char)
    ensures StdValue(c) == Some(v)
  {
    if v < 26 then ('A' as int + v) as char
    else if v < 52 then ('a' as int + v - 26) as char
    else if v < 62 then ('0' as int + v - 52) as char
    else if v == 62 then '+'
    else '/'
  }

  /** The URL-safe alphabet of section 5 of RFC 4648. */
  function UrlChar(v: Sextet): (c: char)
    ensures UrlToStd(c) == StdChar(v)
  {
    if v == 62 then '-' else if v == 63 then '_' else StdChar(v)
  }

  // ---------------------------------------------------------------------------
  // Bytes and sextets
  // ---------------------------------------------------------------------------

  // The bit fields of three bytes x, y, z spread over four 6-bit groups:
  // xxxxxx xxyyyy yyyyzz zzzzzz.

  function High(x: Byte): Sextet { x / 4 }
  function Mid1(x: Byte, y: Byte): Sextet { (x % 4) * 16 + y / 16 }
  function Mid2(y: Byte, z: Byte): Sextet { (y % 16) * 4 + z / 64 }
  function Low(z: Byte): Sextet { z % 64 }

  function Byte0(a: Sextet, b: Sextet): Byte { a * 4 + b / 16 }
  function Byte1(b: Sextet, c: Sextet): Byte { (b % 16) * 16 + c / 4 }
  function Byte2(c: Sextet, d: Sextet): Byte { (c % 4) * 64 + d }

  /** Each byte is recovered from the two groups holding its bits. */
  lemma FieldsRoundTrip(x: Byte, y: Byte, z: Byte)
    ensures Byte0(High(x), Mid1(x, y)) == x
    ensures Byte1(Mid1(x, y), Mid2(y, z)) == y
    ensures Byte2(Mid2(y, z), Low(z)) == z
  {
  }

  /** How many 6-bit groups `n` bytes make: four per three bytes, and two
      or three for a trailing one or two. */
  function SextetCount(n: nat): nat {
    4 * (n / 3) + (if n % 3 == 0 then 0 else n % 3 + 1)
  }

  lemma SextetCountStep(n: nat)
    requires n >= 3
    ensures SextetCount(n) == 4 + SextetCount(n - 3)
  {
    assert n / 3 == (n - 3) / 3 + 1 && n % 3 == (n - 3) % 3;
  }

  /** A group count is never one more than a multiple of four. */
  lemma SextetCountMod(n: nat)
    ensures SextetCount(n) % 4 != 1
  {
    var q := n / 3;
    assert SextetCount(n) == 4 * q + (if n % 3 == 0 then 0 else n % 3 + 1);
  }

  /** The 6-bit groups of `b`: every three bytes give four, a trailing one or
      two bytes give two or three, with the unused low bits zero. */
  function Sextets(b: seq<Byte>): (r: seq<Sextet>)
    ensures |r| % 4 != 1
    ensures |r| == SextetCount(|b|)
  {
    SextetCountMod(|b|);
    if |b| >= 3 then
      SextetCountStep(|b|);
      [High(b[0]), Mid1(b[0], b[1]), Mid2(b[1], b[2]), Low(b[2])] + Sextets(b[3..])
    else if |b| == 2 then
      [High(b[0]), Mid1(b[0], b[1]), Mid2(b[1], 0)]
    else if |b| == 1 then
      [High(b[0]), Mid1(b[0], 0)]
    else []
  }

  /** The bytes of the 6-bit groups, four at a time; the bits left over by a
      trailing two or three groups are discarded. */
  function DecodeSextets(v: seq<Sextet>): seq<Byte>
    requires |v| % 4 != 1
  {
    if |v| >= 4 then
      [Byte0(v[0], v[1]), Byte1(v[1], v[2]), Byte2(v[2], v[3])] + DecodeSextets(v[4..])
    else if |v| == 3 then
      [Byte0(v[0], v[1]), Byte1(v[1], v[2])]
    else if |v| == 2 then
      [Byte0(v[0], v[1])]
    else []
  }

  lemma DecodeFirstGroup(v: seq<Sextet>)
    requires |v| >= 4 && |v| % 4 != 1
    ensures DecodeSextets(v) == [Byte0(v[0], v[1]), Byte1(v[1], v[2]), Byte2(v[2], v[3])] + DecodeSextets(v[4..])
  {
  }

  lemma PairRoundTrip(x: Byte, y: Byte)
    ensures DecodeSextets(Sextets([x, y])) == [x, y]
  {
    var v := [High(x), Mid1(x, y), Mid2(y, 0)];
    assert Sextets([x, y]) == v;
    FieldsRoundTrip(x, y, 0);
  }

  lemma SingleRoundTrip(x: Byte)
    ensures DecodeSextets(Sextets([x])) == [x]
  {
    var v := [High(x), Mid1(x, 0)];
    assert Sextets([x]) == v;
    FieldsRoundTrip(x, 0, 0);
  }

  /** Decoding the groups of `b` gives back `b`. */
  lemma {:induction false} SextetsRoundTrip(b: seq<Byte>)
    ensures DecodeSextets(Sextets(b)) == b
  {
    if |b| >= 3 {
      var v := Sextets(b);
      var rest := Sextets(b[3..]);
      assert v == [High(b[0]), Mid1(b[0], b[1]), Mid2(b[1], b[2]), Low(b[2])] + rest;
      assert v[4..] == rest;
      DecodeFirstGroup(v);
      FieldsRoundTrip(b[0], b[1], b[2]);
      SextetsRoundTrip(b[3..]);
      assert b == [b[0], b[1], b[2]] + b[3..];
    } else if |b| == 2 {
      PairRoundTrip(b[0], b[1]);
      assert b == [b[0], b[1]];
    } else if |b| == 1 {
      SingleRoundTrip(b[0]);
      assert b == [b[0]];
    }
  }

  // ---------------------------------------------------------------------------
  // atob
  // ---------------------------------------------------------------------------

  /** The ASCII whitespace of the Infra standard. */
  predicate IsAsciiWhitespace(c: char) {
    c == '\t' || c == '\n' || c == '\U{000C}' || c == '\r' || c == ' '
  }

  function NotAsciiWhitespace(c: char): bool {
    !IsAsciiWhitespace(c)
  }

  /** One or two trailing `=` are dropped when the length is a multiple of 4. */
  function StripPadding(s: string): (r: string)
    ensures r == s || (|s| >= 1 && r == s[..|s| - 1]) || (|s| >= 2 && r == s[..|s| - 2])
  {
    if |s| % 4 == 0 && |s| >= 1 && s[|s| - 1] == '=' then
      if |s| >= 2 && s[|s| - 2] == '=' then s[..|s| - 2] else s[..|s| - 1]
    else s
  }

  predicate AllInAlphabet(d: string) {
    forall k :: 0 <= k < |d| ==> StdValue(d[k]).Some?
  }

  function Values(d: string): (r: seq<Sextet>)
    requires AllInAlphabet(d)
    ensures |r| == |d|
    ensures forall k :: 0 <= k < |d| ==> Some(r[k]) == StdValue(d[k])
  {
    seq(|d|, k requires 0 <= k < |d| => StdValue(d[k]).value)
  }

  /** A binary string: one character per byte. */
  function BytesToChars(b: seq<Byte>): (r: string)
    ensures |r| == |b|
    ensures forall k :: 0 <= k < |b| ==> r[k] as int == b[k]
  {
    seq(|b|, k requires 0 <= k < |b| => b[k] as char)
  }

  /** window.atob; None is the InvalidCharacterError it throws. */
  function Atob(s: string): (r: Option<string>)
    ensures r.Some? ==> forall k :: 0 <= k < |r.value| ==> r.value[k] as int < 256
  {
    var d := StripPadding(Filter(NotAsciiWhitespace, s));
    if |d| % 4 == 1 || !AllInAlphabet(d) then None
    else Some(BytesToChars(DecodeSextets(Values(d))))
  }

  // ---------------------------------------------------------------------------
  // urlBase64ToUint8Array
  // ---------------------------------------------------------------------------

  /** The character codes of a binary string, as a Uint8Array stores them
      (modulo 256). */
  function CharCodes(raw: string): (r: seq<Byte>)
    ensures |r| == |raw|
  {
    seq(|raw|, k requires 0 <= k < |raw| => (raw[k] as int) % 256)
  }

  /** The bytes urlBase64ToUint8Array returns, or None when atob throws. */
  function DecodeKey(key: string): Option<seq<Byte>> {
    match Atob(Base64Input(key))
    case None => None
    case Some(raw) => Some(CharCodes(raw))
  }

  /** The copy loop: a zero-filled Uint8Array of the decoded length, then
      byte i set to the code of character i. */
  method CopyToBytes(rawData: string) returns (output: seq<Byte>)
    ensures |output| == |rawData|
    ensures forall i :: 0 <= i < |output| ==> output[i] == (rawData[i] as int) % 256
    ensures output == CharCodes(rawData)
  {
    output := seq(|rawData|, _ => 0);
    var i := 0;
    while i < |rawData|
      invariant 0 <= i <= |rawData|
      invariant |output| == |rawData|
      invariant forall k :: 0 <= k < i ==> output[k] == (rawData[k] as int) % 256
    {
      output := output[i := (rawData[i] as int) % 256];
      i := i + 1;
    }
  }

  /** urlBase64ToUint8Array: None is the exception atob throws. */
  method UrlBase64ToUint8Array(key: string) returns (r: Option<seq<Byte>>)
    ensures r.None? <==> Atob(Base64Input(key)).None?
    ensures r == DecodeKey(key)
  {
    var decoded := Atob(Base64Input(key));
    if decoded.None? {
      return None;
    }
    var output := CopyToBytes(decoded.value);
    return Some(output);
  }

  /** Below 256 the truncation to a byte changes nothing. */
  lemma CharCodesExact(raw: string)
    requires forall k :: 0 <= k < |raw| ==> raw[k] as int < 256
    ensures forall k :: 0 <= k < |raw| ==> CharCodes(raw)[k] == raw[k] as int
  {
    forall k | 0 <= k < |raw| ensures CharCodes(raw)[k] == raw[k] as int {
      var c := raw[k] as int;
      assert CharCodes(raw)[k] == c % 256;
    }
  }

  /** Every character atob yields is below 256, so byte i of the key is
      exactly the code of character i. */
  lemma DecodeKeyBytes(key: string)
    ensures DecodeKey(key).Some? <==> Atob(Base64Input(key)).Some?
    ensures DecodeKey(key).Some? ==>
      var raw := Atob(Base64Input(key)).value;
      && |DecodeKey(key).value| == |raw|
      && forall i :: 0 <= i < |raw| ==> DecodeKey(key).value[i] == raw[i] as int
  {
    var decoded := Atob(Base64Input(key));
    if decoded.Some? {
      CharCodesExact(decoded.value);
    }
  }

  // ---------------------------------------------------------------------------
  // Round trip
  // ---------------------------------------------------------------------------

  /** A key as a push service publishes it: URL-safe alphabet, no padding. */
  function UrlEncode(b: seq<Byte>): (r: string)
    ensures |r| == |Sextets(b)|
  {
    var v := Sextets(b);
    seq(|v|, k requires 0 <= k < |v| => UrlChar(v[k]))
  }

  function StdEncode(b: seq<Byte>): (r: string)
    ensures |r| == |Sextets(b)|
    ensures forall k :: 0 <= k < |r| ==> StdValue(r[k]) == Some(Sextets(b)[k])
  {
    var v := Sextets(b);
    seq(|v|, k requires 0 <= k < |v| => StdChar(v[k]))
  }

  lemma PaddedInput(b: seq<Byte>)
    ensures Base64Input(UrlEncode(b)) == StdEncode(b) + Repeat('=', Padding(|Sextets(b)|))
  {
  }

  /** Stripping removes exactly the padding appended to a string that does
      not itself end in `=`. */
  lemma StripPaddingOf(e: string, n: nat)
    requires n <= 2 && (|e| + n) % 4 == 0
    requires e == [] || e[|e| - 1] != '='
    ensures StripPadding(e + Repeat('=', n)) == e
  {
    var pad := Repeat('=', n);
    var s := e + pad;
    if n == 0 {
      assert s == e;
    } else {
      assert |s| >= 4;
      assert s[|s| - 1] == pad[n - 1] == '=';
      if n == 1 {
        assert s[|s| - 2] == e[|e| - 1];
        assert s[..|s| - 1] == e;
      } else {
        assert s[|s| - 2] == pad[0] == '=';
        assert s[..|s| - 2] == e;
      }
    }
  }

  /** A length that is not 1 more than a multiple of 4 needs at most two
      padding characters. */
  lemma PaddingAtMostTwo(len: nat)
    requires len % 4 != 1
    ensures Padding(len) <= 2
  {
  }

  /** atob on alphabet characters followed by their padding decodes them. */
  lemma AtobOfPadded(e: string, n: nat)
    requires AllInAlphabet(e) && |e| % 4 != 1
    requires n <= 2 && (|e| + n) % 4 == 0
    ensures Atob(e + Repeat('=', n)) == Some(BytesToChars(DecodeSextets(Values(e))))
  {
    var s := e + Repeat('=', n);
    forall k | 0 <= k < |s| ensures NotAsciiWhitespace(s[k]) {
      if k < |e| { assert StdValue(s[k]).Some?; }
    }
    FilterKeepsAll(NotAsciiWhitespace, s);
    if e != [] {
      assert StdValue(e[|e| - 1]).Some?;
    }
    StripPaddingOf(e, n);
  }

  /** atob reads the padded standard encoding back as the binary string of
      the bytes. */
  lemma AtobOfEncoding(b: seq<Byte>)
    ensures Atob(StdEncode(b) + Repeat('=', Padding(|Sextets(b)|))) == Some(BytesToChars(b))
  {
    var e := StdEncode(b);
    PaddingAtMostTwo(|e|);
    assert AllInAlphabet(e);
    AtobOfPadded(e, Padding(|e|));
    assert Values(e) == Sextets(b);
    SextetsRoundTrip(b);
  }

  /** The codes of a binary string are the bytes it was made from. */
  lemma CharCodesOfBytes(b: seq<Byte>)
    ensures CharCodes(BytesToChars(b)) == b
  {
    var raw := BytesToChars(b);
    forall k | 0 <= k < |b| ensures CharCodes(raw)[k] == b[k] {
      assert raw[k] as int == b[k];
    }
  }

  lemma DecodeKeyOfBinary(key: string, b: seq<Byte>)
    requires Atob(Base64Input(key)) == Some(BytesToChars(b))
    ensures DecodeKey(key) == Some(b)
  {
    CharCodesOfBytes(b);
  }

  /** Decoding a published key gives back exactly its bytes. */
  lemma KeyRoundTrip(b: seq<Byte>)
    ensures DecodeKey(UrlEncode(b)) == Some(b)
  {
    PaddedInput(b);
    AtobOfEncoding(b);
    DecodeKeyOfBinary(UrlEncode(b), b);
  }
}
