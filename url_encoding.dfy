/**
 * The application/x-www-form-urlencoded encoding performed by
 * java.net.URLEncoder.encode(s, UTF_8) (section 17.13.4.1 of HTML 4.01):
 * ASCII letters, digits and `.-*_` are copied, a space becomes `+`, and every
 * other character becomes the bytes of its UTF-8 encoding, each written as
 * `%` followed by two upper-case hexadecimal digits.
 *
 * A Dafny `char` is a Unicode scalar value, so a string here is a well-formed
 * UTF-16 Java string. The partner of the encoder is a reference decoder, and
 * the round trip `Decode(Encode(s)) == Some(s)` is proved below.
 */
module UrlEncoding {
  import opened Wrappers

  type Byte = b: int | 0 <= b < 256

  predicate IsAlphaNum(c: char) {
    'a' <= c <= 'z' || 'A' <= c <= 'Z' || '0' <= c <= '9'
  }

  /** Characters the encoder copies through unchanged. */
  predicate IsUnreserved(c: char) {
    IsAlphaNum(c) || c == '.' || c == '-' || c == '*' || c == '_'
  }

  /** Characters that can appear in encoded output. */
  predicate IsFormChar(c: char) {
    IsUnreserved(c) || c == '+' || c == '%'
  }

  predicate IsScalar(cp: int) {
    0 <= cp < 0xD800 || 0xE000 <= cp < 0x11_0000
  }

  /** Upper-case hexadecimal digit, as URLEncoder writes it. */
  function HexDigit(d: nat): (c: char)
    requires d < 16
    ensures IsAlphaNum(c)
  {
    if d < 10 then (48 + d) as char else (55 + d) as char
  }

  function HexValue(c: char): Option<nat> {
    if '0' <= c <= '9' then Some(c as int - 48)
    else if 'A' <= c <= 'F' then Some(c as int - 55)
    else None
  }

  /** The UTF-8 encoding of one scalar value (RFC 3629, section 3). */
  function Utf8(cp: int): (bs: seq<Byte>)
    requires IsScalar(cp)
    ensures 1 <= |bs| <= 4
  {
    if cp < 0x80 then [cp]
    else if cp < 0x800 then [0xC0 + cp / 64, 0x80 + cp % 64]
    else if cp < 0x1_0000 then [0xE0 + cp / 4096, 0x80 + (cp / 64) % 64, 0x80 + cp % 64]
    else [0xF0 + cp / 262144, 0x80 + (cp / 4096) % 64, 0x80 + (cp / 64) % 64, 0x80 + cp % 64]
  }

  function PercentTriple(b: Byte): string {
    ['%', HexDigit(b / 16), HexDigit(b % 16)]
  }

  function Percent(bs: seq<Byte>): (r: string)
    ensures |r| == 3 * |bs|
    ensures forall i :: 0 <= i < |r| ==> IsFormChar(r[i])
  {
    if bs == [] then [] else PercentTriple(bs[0]) + Percent(bs[1..])
  }

  /** What URLEncoder writes for one character. */
  function EncodeChar(c: char): (r: string)
    ensures 1 <= |r| && forall i :: 0 <= i < |r| ==> IsFormChar(r[i])
  {
    if IsUnreserved(c) then [c]
    else if c == ' ' then "+"
    else Percent(Utf8(c as int))
  }

  /**
   * URLEncoder.encode(s, StandardCharsets.UTF_8). The output is made of
   * unreserved characters, `+` and `%XX` triples only, so an encoded value
   * can never contain the `&` or `=` that delimit a query string.
   */
  function Encode(s: string): (r: string)
    ensures forall i :: 0 <= i < |r| ==> IsFormChar(r[i])
    ensures |r| >= |s|
  {
    if s == [] then [] else EncodeChar(s[0]) + Encode(s[1..])
  }

  lemma {:induction false} EncodeConcat(a: string, b: string)
    ensures Encode(a + b) == Encode(a) + Encode(b)
  {
    if a != [] {
      assert (a + b)[1..] == a[1..] + b;
      EncodeConcat(a[1..], b);
    } else {
      assert a + b == b;
    }
  }

  /** Text made only of unreserved characters is sent as it is. */
  lemma {:induction false} AllUnreservedEncodesToItself(s: string)
    requires AllUnreserved(s)
    ensures Encode(s) == s
  {
    if s != [] {
      AllUnreservedEncodesToItself(s[1..]);
      assert [s[0]] + s[1..] == s;
    }
  }

  /** The comma that joins list items is sent as `%2C`. */
  lemma CommaEncoding()
    ensures Encode(",") == "%2C"
  {
    assert Utf8(44) == [44];
    assert HexDigit(44 / 16) == '2' && HexDigit(44 % 16) == 'C';
    assert Percent([44]) == PercentTriple(44) + [];
    assert Encode(",") == EncodeChar(',') + Encode([]);
  }

  predicate AllUnreserved(s: string) {
    forall i :: 0 <= i < |s| ==> IsUnreserved(s[i])
  }

  /** Plain words around any separator keep their text; only the separator is encoded. */
  lemma PlainAround(a: string, sep: string, b: string)
    requires AllUnreserved(a) && AllUnreserved(b)
    ensures Encode(a + sep + b) == a + Encode(sep) + b
  {
    var t := sep + b;
    StringAssoc(a, sep, b);
    EncodeConcat(a, t);
    EncodeConcat(sep, b);
    AllUnreservedEncodesToItself(a);
    AllUnreservedEncodesToItself(b);
    StringAssoc(a, Encode(sep), b);
  }

  lemma StringAssoc(a: string, b: string, c: string)
    ensures a + b + c == a + (b + c)
  {
  }

  /**
   * Two plain words joined by a comma are sent with the comma as `%2C`,
   * e.g. "environment,science" as "environment%2Cscience".
   */
  lemma CommaJoinEncoding(a: string, b: string)
    requires AllUnreserved(a) && AllUnreserved(b)
    ensures Encode(a + "," + b) == a + "%2C" + b
  {
    PlainAround(a, ",", b);
    CommaEncoding();
  }

  lemma EncodeHasNoDelimiters(s: string)
    ensures '&' !in Encode(s) && '=' !in Encode(s) && ',' !in Encode(s) && '?' !in Encode(s)
  {
  }

  // ---------------------------------------------------------------------
  // Reference decoder

  function Utf8Length(lead: Byte): nat {
    if lead < 0x80 then 1
    else if 0xC0 <= lead < 0xE0 then 2
    else if 0xE0 <= lead < 0xF0 then 3
    else if 0xF0 <= lead < 0xF8 then 4
    else 0
  }

  predicate IsContinuation(b: Byte) {
    0x80 <= b < 0xC0
  }

  /** The scalar value a well-formed UTF-8 sequence of 1 to 4 bytes stands for. */
  function Utf8Value(bs: seq<Byte>): int
    requires 1 <= |bs| <= 4
  {
    var b0: int := bs[0];
    if |bs| == 1 then b0
    else
      var b1: int := bs[1] as int - 0x80;
      if |bs| == 2 then (b0 - 0xC0) * 64 + b1
      else
        var b2: int := bs[2] as int - 0x80;
        if |bs| == 3 then (b0 - 0xE0) * 4096 + b1 * 64 + b2
        else (b0 - 0xF0) * 262144 + b1 * 4096 + b2 * 64 + (bs[3] as int - 0x80)
  }

  /** Reads one `%XX` triple. */
  function ReadTriple(s: string): Option<Byte> {
    if |s| >= 3 && s[0] == '%' && HexValue(s[1]).Some? && HexValue(s[2]).Some?
    then Some(HexValue(s[1]).value * 16 + HexValue(s[2]).value)
    else None
  }

  /** Reads `n` consecutive `%XX` triples. */
  function ReadBytes(s: string, n: nat): (r: Option<seq<Byte>>)
    ensures r.Some? ==> |r.value| == n && 3 * n <= |s|
    decreases n
  {
    if n == 0 then Some([])
    else match ReadTriple(s)
      case None => None
      case Some(b) =>
        match ReadBytes(s[3..], n - 1)
        case None => None
        case Some(rest) => Some([b] + rest)
  }

  /** Decodes the first character of `s` and says how many characters it used. */
  function DecodeHead(s: string): (r: Option<(char, nat)>)
    requires s != []
    ensures r.Some? ==> 1 <= r.value.1 <= |s|
  {
    if IsUnreserved(s[0]) then Some((s[0], 1))
    else if s[0] == '+' then Some((' ', 1))
    else match ReadTriple(s)
      case None => None
      case Some(lead) =>
        var n := Utf8Length(lead);
        if n == 0 then None
        else match ReadBytes(s, n)
          case None => None
          case Some(bs) =>
            if (forall i :: 1 <= i < n ==> IsContinuation(bs[i])) && IsScalar(Utf8Value(bs))
            then Some((Utf8Value(bs) as char, 3 * n))
            else None
  }

  /** Decodes a whole form-encoded string; None when it is not well formed. */
  function Decode(s: string): Option<string>
    decreases |s|
  {
    if s == [] then Some([])
    else match DecodeHead(s)
      case None => None
      case Some((c, n)) =>
        match Decode(s[n..])
        case None => None
        case Some(t) => Some([c] + t)
  }

  // ---------------------------------------------------------------------
  // Round trip

  lemma HexRoundTrip(b: Byte)
    ensures HexValue(HexDigit(b / 16)) == Some(b / 16)
    ensures HexValue(HexDigit(b % 16)) == Some(b % 16)
  {
  }

  lemma Utf8RoundTrip(cp: int)
    requires IsScalar(cp)
    ensures Utf8Length(Utf8(cp)[0]) == |Utf8(cp)|
    ensures forall i :: 1 <= i < |Utf8(cp)| ==> IsContinuation(Utf8(cp)[i])
    ensures Utf8Value(Utf8(cp)) == cp
  {
    if cp >= 0x1_0000 {
      var a, b, c, d := cp / 262144, (cp / 4096) % 64, (cp / 64) % 64, cp % 64;
      assert cp / 4096 == a * 64 + b;
      assert cp / 64 == (cp / 4096) * 64 + c;
      assert cp == (cp / 64) * 64 + d;
    } else if cp >= 0x800 {
      assert cp / 64 == (cp / 4096) * 64 + (cp / 64) % 64;
    }
  }

  lemma {:induction false} ReadPercent(bs: seq<Byte>, rest: string)
    ensures ReadBytes(Percent(bs) + rest, |bs|) == Some(bs)
  {
    if bs != [] {
      var s := Percent(bs) + rest;
      HexRoundTrip(bs[0]);
      assert s == PercentTriple(bs[0]) + (Percent(bs[1..]) + rest);
      assert ReadTriple(s) == Some(bs[0]);
      assert s[3..] == Percent(bs[1..]) + rest;
      ReadPercent(bs[1..], rest);
      assert [bs[0]] + bs[1..] == bs;
    }
  }

  lemma DecodeHeadEncodeChar(c: char, rest: string)
    ensures DecodeHead(EncodeChar(c) + rest) == Some((c, |EncodeChar(c)|))
  {
    var s := EncodeChar(c) + rest;
    if !IsUnreserved(c) && c != ' ' {
      var bs := Utf8(c as int);
      Utf8RoundTrip(c as int);
      ReadPercent(bs, rest);
      HexRoundTrip(bs[0]);
      assert s[0] == '%';
      assert ReadTriple(s) == Some(bs[0]);
    }
  }

  /** Encoding loses nothing: decoding the output gives back the input. */
  lemma {:induction false} DecodeEncode(s: string)
    ensures Decode(Encode(s)) == Some(s)
  {
    if s != [] {
      var head, tail := EncodeChar(s[0]), Encode(s[1..]);
      var e := head + tail;
      assert Encode(s) == e;
      DecodeHeadEncodeChar(s[0], tail);
      assert e[|head|..] == tail;
      DecodeEncode(s[1..]);
      DecodeStep(e, s[0], |head|, s[1..]);
      assert [s[0]] + s[1..] == s;
    }
  }

  lemma DecodeStep(e: string, c: char, n: nat, t: string)
    requires e != [] && DecodeHead(e) == Some((c, n))
    requires Decode(e[n..]) == Some(t)
    ensures Decode(e) == Some([c] + t)
  {
  }

  /** Two different strings never encode to the same value. */
  lemma EncodeInjective(s: string, t: string)
    requires Encode(s) == Encode(t)
    ensures s == t
  {
    DecodeEncode(s);
    DecodeEncode(t);
  }
}
