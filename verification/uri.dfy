/** `encodeURIComponent`: a string is written as UTF-8 and every byte that
    is not an unreserved ASCII character becomes `%` and two upper-case
    hexadecimal digits. */
module Uri {
  import opened Wrappers

  type Byte = b: int | 0 <= b < 256

  /** The characters `encodeURIComponent` leaves as they are. */
  predicate Unreserved(c: char) {
    || ('A' <= c <= 'Z') || ('a' <= c <= 'z') || ('0' <= c <= '9')
    || c == '-' || c == '_' || c == '.' || c == '!' || c == '~'
    || c == '*' || c == '\'' || c == '(' || c == ')'
  }

  /** What can appear in an encoded component: nothing that delimits a
      query string (`&`, `=`, `?`, `#`). */
  predicate Safe(c: char) {
    c == '%' || Unreserved(c)
  }

  predicate AllUnreserved(s: string) {
    forall i :: 0 <= i < |s| ==> Unreserved(s[i])
  }

  /** The UTF-8 encoding of one Unicode scalar value. */
  function Utf8Char(c: char): (r: seq<Byte>)
    ensures 1 <= |r| <= 4
    ensures (c as int) < 0x80 <==> |r| == 1
    ensures |r| == 1 ==> r[0] == c as int
    ensures |r| > 1 ==> forall i :: 0 <= i < |r| ==> r[i] >= 0x80
  {
    var cp := c as int;
    if cp < 0x80 then [cp]
    else if cp < 0x800 then [0xC0 + cp / 64, 0x80 + cp % 64]
    else if cp < 0x1_0000 then [0xE0 + cp / 4096, 0x80 + (cp / 64) % 64, 0x80 + cp % 64]
    else [0xF0 + cp / 262144, 0x80 + (cp / 4096) % 64, 0x80 + (cp / 64) % 64, 0x80 + cp % 64]
  }

  /** Reading one encoded character back: the lead byte gives the length,
      every continuation byte gives six more bits. */
  function Utf8Value(bs: seq<Byte>): int
    requires 1 <= |bs| <= 4
  {
    var b0: int := bs[0];
    if |bs| == 1 then b0
    else
      var b1: int := bs[1];
      if |bs| == 2 then (b0 - 0xC0) * 64 + (b1 - 0x80)
      else
        var b2: int := bs[2];
        if |bs| == 3 then (b0 - 0xE0) * 4096 + (b1 - 0x80) * 64 + (b2 - 0x80)
        else
          var b3: int := bs[3];
          (b0 - 0xF0) * 262144 + (b1 - 0x80) * 4096 + (b2 - 0x80) * 64 + (b3 - 0x80)
  }

  /** A code point is its six-bit groups put back together. */
  lemma SixBitGroups(cp: nat)
    ensures cp == (cp / 4096) * 4096 + ((cp / 64) % 64) * 64 + cp % 64
    ensures cp == (cp / 262144) * 262144 + ((cp / 4096) % 64) * 4096 + ((cp / 64) % 64) * 64 + cp % 64
  {
    var a := cp / 64;
    var b := a / 64;
    var c := b / 64;
    assert cp == a * 64 + cp % 64;
    assert a == b * 64 + a % 64;
    assert b == c * 64 + b % 64;
    assert b == cp / 4096;
    assert c == cp / 262144;
  }

  /** The bytes of one character decode to that character. */
  lemma Utf8CharRoundTrip(c: char)
    ensures Utf8Value(Utf8Char(c)) == c as int
  {
    SixBitGroups(c as int);
  }

  function Utf8(s: string): (r: seq<Byte>)
    ensures AllUnreserved(s) ==> |r| == |s| && forall i :: 0 <= i < |s| ==> r[i] == s[i] as int
  {
    if |s| == 0 then [] else Utf8Char(s[0]) + Utf8(s[1..])
  }

  function HexDigit(n: int): (c: char)
    requires 0 <= n < 16
    ensures Safe(c)
  {
    "0123456789ABCDEF"[n]
  }

  function HexDigitValue(c: char): Option<int> {
    if '0' <= c <= '9' then Some(c as int - '0' as int)
    else if 'A' <= c <= 'F' then Some(c as int - 'A' as int + 10)
    else None
  }

  /** One byte: kept as its character when unreserved ASCII, else `%XY`. */
  function EncodeByte(b: Byte): (r: string)
    ensures |r| == 1 || |r| == 3
    ensures forall i :: 0 <= i < |r| ==> Safe(r[i])
    ensures |r| == 1 <==> b < 0x80 && Unreserved(b as char)
  {
    if b < 0x80 && Unreserved(b as char) then [b as char]
    else ['%', HexDigit(b / 16), HexDigit(b % 16)]
  }

  function EncodeBytes(bs: seq<Byte>): (r: string)
    ensures forall i :: 0 <= i < |r| ==> Safe(r[i])
  {
    if |bs| == 0 then ""
    else
      var head := EncodeByte(bs[0]);
      var tail := EncodeBytes(bs[1..]);
      assert forall i :: |head| <= i < |head + tail| ==> (head + tail)[i] == tail[i - |head|];
      head + tail
  }

  /** `encodeURIComponent(s)`. */
  function EncodeUriComponent(s: string): (r: string)
    ensures forall i :: 0 <= i < |r| ==> Safe(r[i])
    ensures '&' !in r && '=' !in r && '?' !in r && '#' !in r
  {
    EncodeBytes(Utf8(s))
  }

  /** The inverse of `EncodeBytes`: `None` for text it could not have
      produced. */
  function DecodeBytes(t: string): Option<seq<Byte>>
  {
    if |t| == 0 then Some([])
    else if t[0] == '%' then
      if |t| < 3 then None
      else match (HexDigitValue(t[1]), HexDigitValue(t[2]), DecodeBytes(t[3..]))
        case (Some(hi), Some(lo), Some(rest)) => Some([hi * 16 + lo] + rest)
        case _ => None
    else if (t[0] as int) < 0x80 && Unreserved(t[0]) then
      match DecodeBytes(t[1..])
      case Some(rest) => Some([t[0] as int] + rest)
      case None => None
    else None
  }

  lemma HexRoundTrip(n: int)
    requires 0 <= n < 16
    ensures HexDigitValue(HexDigit(n)) == Some(n)
  {
    var digits := "0123456789ABCDEF";
    assert digits[n] == if n < 10 then ('0' as int + n) as char else ('A' as int + n - 10) as char;
  }

  /** Decoding reads one `%XY` escape off the front and carries on. */
  lemma DecodeEscape(hi: int, lo: int, rest: string)
    requires 0 <= hi < 16 && 0 <= lo < 16
    ensures DecodeBytes(['%', HexDigit(hi), HexDigit(lo)] + rest)
         == if DecodeBytes(rest).Some? then Some([hi * 16 + lo] + DecodeBytes(rest).value) else None
  {
    var t := ['%', HexDigit(hi), HexDigit(lo)] + rest;
    assert t[0] == '%' && t[1] == HexDigit(hi) && t[2] == HexDigit(lo);
    assert t[3..] == rest;
    HexRoundTrip(hi);
    HexRoundTrip(lo);
  }

  /** Decoding reads one unreserved character off the front and carries
      on. */
  lemma DecodePlain(c: char, rest: string)
    requires (c as int) < 0x80 && Unreserved(c)
    ensures DecodeBytes([c] + rest)
         == if DecodeBytes(rest).Some? then Some([c as int] + DecodeBytes(rest).value) else None
  {
    var t := [c] + rest;
    assert t[0] == c && t[1..] == rest;
  }

  /** Decoding reads one encoded byte off the front and carries on. */
  lemma DecodeOneByte(b: Byte, rest: string)
    ensures DecodeBytes(EncodeByte(b) + rest)
         == if DecodeBytes(rest).Some? then Some([b] + DecodeBytes(rest).value) else None
  {
    if b < 0x80 && Unreserved(b as char) {
      assert EncodeByte(b) == [b as char];
      DecodePlain(b as char, rest);
    } else {
      var hi, lo := b / 16, b % 16;
      assert EncodeByte(b) == ['%', HexDigit(hi), HexDigit(lo)];
      DecodeEscape(hi, lo, rest);
      assert hi * 16 + lo == b;
    }
  }

  lemma {:induction false} DecodeEncodeBytes(bs: seq<Byte>)
    ensures DecodeBytes(EncodeBytes(bs)) == Some(bs)
    decreases |bs|
  {
    if |bs| > 0 {
      DecodeEncodeBytes(bs[1..]);
      DecodeOneByte(bs[0], EncodeBytes(bs[1..]));
      assert [bs[0]] + bs[1..] == bs;
    }
  }

  /** Decoding an encoded component gives back the UTF-8 bytes of the
      original string. */
  lemma DecodeEncode(s: string)
    ensures DecodeBytes(EncodeUriComponent(s)) == Some(Utf8(s))
  {
    DecodeEncodeBytes(Utf8(s));
  }

  /** A component made only of unreserved characters is left as it is. */
  lemma {:induction false} EncodeUnreserved(s: string)
    requires AllUnreserved(s)
    ensures EncodeUriComponent(s) == s
    decreases |s|
  {
    if |s| > 0 {
      assert Utf8(s) == [s[0] as int] + Utf8(s[1..]);
      EncodeUnreserved(s[1..]);
      assert Utf8(s)[1..] == Utf8(s[1..]);
      assert s == [s[0]] + s[1..];
    }
  }

  lemma {:induction false} Utf8Append(a: string, b: string)
    ensures Utf8(a + b) == Utf8(a) + Utf8(b)
    decreases |a|
  {
    if |a| == 0 {
      assert a + b == b;
    } else {
      assert (a + b)[1..] == a[1..] + b;
      Utf8Append(a[1..], b);
    }
  }

  lemma {:induction false} EncodeBytesAppend(a: seq<Byte>, b: seq<Byte>)
    ensures EncodeBytes(a + b) == EncodeBytes(a) + EncodeBytes(b)
    decreases |a|
  {
    if |a| == 0 {
      assert a + b == b;
    } else {
      assert (a + b)[1..] == a[1..] + b;
      EncodeBytesAppend(a[1..], b);
    }
  }

  /** Encoding works character by character, so it distributes over
      concatenation. */
  lemma EncodeAppend(a: string, b: string)
    ensures EncodeUriComponent(a + b) == EncodeUriComponent(a) + EncodeUriComponent(b)
  {
    Utf8Append(a, b);
    EncodeBytesAppend(Utf8(a), Utf8(b));
  }
}
