/**
 * Percent-encoding as `urllib.parse.quote(s)` performs it with its default
 * `safe="/"`: the text is encoded as UTF-8 and every byte that is neither
 * an unreserved character (section 2.3 of RFC 3986: letters, digits,
 * `-`, `.`, `_`, `~`) nor `/` is written as `%` followed by two upper-case
 * hexadecimal digits (section 2.1 of RFC 3986).
 *
 * The partner is the decoder `Unquote`, and `QuoteRoundTrip` proves that
 * it recovers every text from its encoding.
 */
module UrlEncoding {
  import opened Wrappers
  import opened Text
  import opened Seqs

  type Byte = b: int | 0 <= b < 256

  // ---------------------------------------------------------------------
  // UTF-8 (`str.encode("utf-8")` and its strict inverse)
  // ---------------------------------------------------------------------

  /** A Unicode scalar value: a code point that is not a surrogate. */
  predicate IsScalar(n: int) {
    (0 <= n < 0xD800) || (0xE000 <= n < 0x11_0000)
  }

  /** The UTF-8 bytes of one character. */
  function Utf8Char(c: char): (bs: seq<Byte>)
    ensures 1 <= |bs| <= 4
    ensures |bs| == LeadLength(bs[0])
    ensures |bs| == 1 <==> c as int < 0x80
    ensures c as int < 0x80 ==> bs == [c as int]
  {
    var n := c as int;
    if n < 0x80 then [n]
    else if n < 0x800 then [0xC0 + n / 64, 0x80 + n % 64]
    else if n < 0x1_0000 then [0xE0 + n / 4096, 0x80 + n / 64 % 64, 0x80 + n % 64]
    else [0xF0 + n / 262144, 0x80 + n / 4096 % 64, 0x80 + n / 64 % 64, 0x80 + n % 64]
  }

  /** `s.encode("utf-8")`. */
  function Utf8Encode(s: string): seq<Byte> {
    FlatMap(s, Utf8Char)
  }

  /** The length of the UTF-8 sequence that a leading byte announces. */
  function LeadLength(b: Byte): (n: nat)
    ensures 1 <= n <= 4
  {
    if b < 0x80 then 1 else if b < 0xE0 then 2 else if b < 0xF0 then 3 else 4
  }

  predicate IsContinuation(b: Byte) { 0x80 <= b < 0xC0 }

  /** The code point that one complete UTF-8 sequence spells, before the scalar check. */
  function CodePoint(bs: seq<Byte>): int
    requires 1 <= |bs| <= 4
  {
    var b0: int := bs[0];
    if |bs| == 1 then b0
    else
      var b1: int := bs[1];
      if |bs| == 2 then (b0 - 0xC0) * 64 + (b1 - 0x80)
      else
        var b2: int := bs[2];
        if |bs| == 3 then (b0 - 0xE0) * 4096 + (b1 - 0x80) * 64 + (b2 - 0x80)
        else
          var b3: int := bs[3];
          (b0 - 0xF0) * 262144 + (b1 - 0x80) * 4096 + (b2 - 0x80) * 64 + (b3 - 0x80)
  }

  /** The character that one complete UTF-8 sequence spells, if it spells one. */
  function DecodeScalar(bs: seq<Byte>): (r: Option<char>)
    requires 1 <= |bs| <= 4
  {
    if exists i | 1 <= i < |bs| :: !IsContinuation(bs[i]) then None
    else if IsScalar(CodePoint(bs)) then Some(CodePoint(bs) as char)
    else None
  }

  /** Strict UTF-8 decoding: `None` for a byte string that is not valid UTF-8 of this form. */
  function Utf8Decode(bs: seq<Byte>): (r: Option<string>)
    decreases |bs|
  {
    if bs == [] then Some([])
    else
      var len := LeadLength(bs[0]);
      if len > |bs| then None
      else match DecodeScalar(bs[..len])
        case None => None
        case Some(c) =>
          match Utf8Decode(bs[len..])
          case None => None
          case Some(rest) => Some([c] + rest)
  }

  /** Each byte after the first of a character's encoding is a continuation byte. */
  lemma Utf8CharContinuations(c: char)
    ensures forall i | 1 <= i < |Utf8Char(c)| :: IsContinuation(Utf8Char(c)[i])
  {
  }

  lemma Utf8CharCodePoint(c: char)
    ensures CodePoint(Utf8Char(c)) == c as int
  {
    var n := c as int;
    if n >= 0x800 {
      var q := n / 64;
      assert q == q / 64 * 64 + q % 64;
      assert q / 64 == n / 4096;
      if n >= 0x1_0000 {
        var p := n / 4096;
        assert p == p / 64 * 64 + p % 64;
        assert p / 64 == n / 262144;
      }
    }
  }

  lemma Utf8CharDecodes(c: char)
    ensures DecodeScalar(Utf8Char(c)) == Some(c)
  {
    Utf8CharContinuations(c);
    Utf8CharCodePoint(c);
  }

  /** Decoding undoes encoding. */
  lemma {:induction false} Utf8RoundTrip(s: string)
    ensures Utf8Decode(Utf8Encode(s)) == Some(s)
    decreases |s|
  {
    if s != [] {
      var head := Utf8Char(s[0]);
      var bs := Utf8Encode(s);
      assert bs == head + Utf8Encode(s[1..]);
      assert bs[0] == head[0];
      assert bs[..|head|] == head;
      assert bs[|head|..] == Utf8Encode(s[1..]);
      Utf8CharDecodes(s[0]);
      Utf8RoundTrip(s[1..]);
      assert s == [s[0]] + s[1..];
    }
  }

  lemma Utf8EncodeAppend(s: string, t: string)
    ensures Utf8Encode(s + t) == Utf8Encode(s) + Utf8Encode(t)
  {
    FlatMapAppend(s, t, Utf8Char);
  }

  // ---------------------------------------------------------------------
  // Percent-encoding
  // ---------------------------------------------------------------------

  /** The characters `quote` leaves as they are: the unreserved set and `/`. */
  predicate Kept(c: char) {
    IsAlnum(c) || c == '-' || c == '.' || c == '_' || c == '~' || c == '/'
  }

  function HexDigit(d: int): (c: char)
    requires 0 <= d < 16
    ensures IsHexUpper(c)
  {
    if d < 10 then ('0' as int + d) as char else ('A' as int + d - 10) as char
  }

  predicate IsHexUpper(c: char) { IsDigit(c) || 'A' <= c <= 'F' }

  /** The value of a hexadecimal digit of either case, as `unquote` reads it. */
  function HexValue(c: char): (d: int)
    ensures 0 <= d < 16
  {
    if IsDigit(c) then c as int - '0' as int
    else if 'A' <= c <= 'F' then c as int - 'A' as int + 10
    else if 'a' <= c <= 'f' then c as int - 'a' as int + 10
    else 0
  }

  predicate IsHex(c: char) { IsDigit(c) || 'A' <= c <= 'F' || 'a' <= c <= 'f' }

  /** The text that one byte becomes. */
  function QuoteByte(b: Byte): (r: string)
    ensures |r| == 1 || |r| == 3
  {
    if b < 0x80 && Kept(b as char) then [b as char]
    else ['%', HexDigit(b / 16), HexDigit(b % 16)]
  }

  /** `urllib.parse.quote_from_bytes` with `safe="/"`. */
  function QuoteBytes(bs: seq<Byte>): string {
    FlatMap(bs, QuoteByte)
  }

  /** `urllib.parse.quote(s)`. */
  function Quote(s: string): string {
    QuoteBytes(Utf8Encode(s))
  }

  /**
   * `urllib.parse.unquote_to_bytes`, strict: a `%` must be followed by two
   * hexadecimal digits, and any other character stands for its own UTF-8
   * bytes.
   */
  function UnquoteBytes(s: string): (r: Option<seq<Byte>>)
    decreases |s|
  {
    if s == [] then Some([])
    else if s[0] == '%' then
      if |s| >= 3 && IsHex(s[1]) && IsHex(s[2]) then
        match UnquoteBytes(s[3..])
        case None => None
        case Some(rest) => Some([HexValue(s[1]) * 16 + HexValue(s[2])] + rest)
      else None
    else
      match UnquoteBytes(s[1..])
      case None => None
      case Some(rest) => Some(Utf8Char(s[0]) + rest)
  }

  /** `urllib.parse.unquote(s)` with strict UTF-8 decoding. */
  function Unquote(s: string): (r: Option<string>) {
    match UnquoteBytes(s)
    case None => None
    case Some(bs) => Utf8Decode(bs)
  }

  lemma QuoteByteDecodes(b: Byte, rest: string)
    ensures UnquoteBytes(QuoteByte(b) + rest)
         == match UnquoteBytes(rest) case None => None case Some(t) => Some([b] + t)
  {
    var q := QuoteByte(b);
    if b < 0x80 && Kept(b as char) {
      assert (q + rest)[1..] == rest;
    } else {
      assert (q + rest)[3..] == rest;
      assert HexValue(q[1]) * 16 + HexValue(q[2]) == b;
    }
  }

  /** Percent-decoding undoes percent-encoding. */
  lemma {:induction false} QuoteBytesRoundTrip(bs: seq<Byte>)
    ensures UnquoteBytes(QuoteBytes(bs)) == Some(bs)
    decreases |bs|
  {
    if bs != [] {
      QuoteBytesRoundTrip(bs[1..]);
      QuoteByteDecodes(bs[0], QuoteBytes(bs[1..]));
      assert bs == [bs[0]] + bs[1..];
    }
  }

  /** `unquote(quote(s)) == s` for every text. */
  lemma QuoteRoundTrip(s: string)
    ensures Unquote(Quote(s)) == Some(s)
  {
    QuoteBytesRoundTrip(Utf8Encode(s));
    Utf8RoundTrip(s);
  }

  /** Distinct texts have distinct encodings. */
  lemma QuoteInjective(s: string, t: string)
    requires Quote(s) == Quote(t)
    ensures s == t
  {
    QuoteRoundTrip(s);
    QuoteRoundTrip(t);
  }

  /** What `quote` may output: kept characters, `%` and upper-case hexadecimal digits. */
  predicate QuoteAlphabet(c: char) { Kept(c) || c == '%' || IsHexUpper(c) }

  lemma {:induction false} QuoteBytesAlphabet(bs: seq<Byte>)
    ensures forall i | 0 <= i < |QuoteBytes(bs)| :: QuoteAlphabet(QuoteBytes(bs)[i])
    decreases |bs|
  {
    if bs != [] {
      QuoteBytesAlphabet(bs[1..]);
      var q, r := QuoteByte(bs[0]), QuoteBytes(bs[1..]);
      assert forall i | 0 <= i < |q + r| :: (q + r)[i] == if i < |q| then q[i] else r[i - |q|];
    }
  }

  /**
   * The encoded text holds none of the characters that delimit the parts of
   * a URL's query: no space, `&`, `=`, `?`, `#`, `+` or `:`.
   */
  lemma QuoteHasNoDelimiters(s: string)
    ensures forall i | 0 <= i < |Quote(s)| ::
              Quote(s)[i] !in {' ', '&', '=', '?', '#', '+', ':'}
  {
    QuoteBytesAlphabet(Utf8Encode(s));
  }

  lemma QuoteBytesAppend(bs: seq<Byte>, cs: seq<Byte>)
    ensures QuoteBytes(bs + cs) == QuoteBytes(bs) + QuoteBytes(cs)
  {
    FlatMapAppend(bs, cs, QuoteByte);
  }

  /** Texts are encoded piece by piece. */
  lemma QuoteAppend(s: string, t: string)
    ensures Quote(s + t) == Quote(s) + Quote(t)
  {
    Utf8EncodeAppend(s, t);
    QuoteBytesAppend(Utf8Encode(s), Utf8Encode(t));
  }

  /** One character's encoding: itself when kept, otherwise at least three characters. */
  lemma QuoteOneChar(c: char)
    ensures Kept(c) ==> QuoteBytes(Utf8Char(c)) == [c]
    ensures !Kept(c) ==> |QuoteBytes(Utf8Char(c))| >= 3
  {
    var bs := Utf8Char(c);
    assert QuoteBytes(bs) == QuoteByte(bs[0]) + QuoteBytes(bs[1..]);
    if c as int < 0x80 {
      assert bs[1..] == [];
    } else {
      assert bs[0] >= 0x80;
    }
  }

  /** The encoding of a text starts with the encoding of its first character. */
  lemma QuoteCons(s: string)
    requires s != []
    ensures Quote(s) == QuoteBytes(Utf8Char(s[0])) + Quote(s[1..])
  {
    QuoteBytesAppend(Utf8Char(s[0]), Utf8Encode(s[1..]));
  }

  /** A text of kept characters is its own encoding, and only such a text is. */
  lemma {:induction false} QuoteIdentity(s: string)
    ensures Quote(s) == s <==> forall i | 0 <= i < |s| :: Kept(s[i])
    ensures (forall i | 0 <= i < |s| :: Kept(s[i])) ==> |Quote(s)| == |s|
    ensures (exists i | 0 <= i < |s| :: !Kept(s[i])) ==> |Quote(s)| > |s|
    decreases |s|
  {
    if s != [] {
      var c, rest := s[0], s[1..];
      QuoteIdentity(rest);
      QuoteCons(s);
      QuoteOneChar(c);
      assert forall i | 1 <= i < |s| :: s[i] == rest[i - 1];
      if Kept(c) {
        assert s == [c] + rest;
        if exists i | 0 <= i < |s| :: !Kept(s[i]) {
          var i :| 0 <= i < |s| && !Kept(s[i]);
          assert !Kept(rest[i - 1]);
        }
      }
    }
  }

  /** The colon of `site:` becomes `%3A`. */
  lemma QuoteColon()
    ensures Quote(":") == "%3A"
  {
    assert Utf8Encode(":") == [0x3A];
    assert QuoteBytes([0x3A]) == QuoteByte(0x3A);
  }
}
