/**
 * Python's `urllib.parse.quote_plus` with its default arguments, as the
 * Harbor image service applies it to a repository name before putting
 * it into a URL path: the text is encoded as UTF-8, every byte that is
 * an unreserved character of section 2.3 of RFC 3986 (letters, digits,
 * `_`, `.`, `-`, `~`) is kept, a space becomes `+` as in form encoding,
 * and every other byte becomes `%` and two upper-case hex digits
 * (percent-encoding, section 2.1 of RFC 3986). Its partners are a
 * decoder for each layer, which undo it. Text here is a sequence of
 * Unicode scalar values, so the `UnicodeEncodeError` that strict UTF-8
 * raises on a lone surrogate cannot arise.
 */
module UrlEncoding {
  import opened Wrappers

  type Byte = b: int | 0 <= b < 0x100

  // ----- UTF-8 -----

  /** A Unicode scalar value: a code point that is not a surrogate. */
  predicate IsScalarValue(n: int)
  {
    0 <= n < 0xD800 || 0xE000 <= n < 0x11_0000
  }

  /**
   * The UTF-8 encoding of one character: the code point's 6-bit groups
   * from the top, behind a lead byte that tells the length.
   */
  function EncodeChar(c: char): (r: seq<Byte>)
    ensures 1 <= |r| <= 4
    ensures (|r| == 1) == (c as int < 0x80)
  {
    var n := c as int;
    var n1 := n / 0x40;
    var n2 := n1 / 0x40;
    var n3 := n2 / 0x40;
    if n < 0x80 then [n]
    else if n < 0x800 then [0xC0 + n1, 0x80 + n % 0x40]
    else if n < 0x1_0000 then [0xE0 + n2, 0x80 + n1 % 0x40, 0x80 + n % 0x40]
    else [0xF0 + n3, 0x80 + n2 % 0x40, 0x80 + n1 % 0x40, 0x80 + n % 0x40]
  }

  /** `s.encode('utf-8')`. */
  function Utf8(s: string): (r: seq<Byte>)
    ensures |r| >= |s|
  {
    if s == [] then [] else EncodeChar(s[0]) + Utf8(s[1..])
  }

  predicate IsContinuation(b: Byte)
  {
    0x80 <= b < 0xC0
  }

  /** The length of the sequence a lead byte starts, or 0 for a byte that starts none. */
  function SequenceLength(b: Byte): (len: nat)
    ensures len <= 4
  {
    if b < 0x80 then 1
    else if 0xC0 <= b < 0xE0 then 2
    else if 0xE0 <= b < 0xF0 then 3
    else if 0xF0 <= b < 0xF8 then 4
    else 0
  }

  /** The payload bits of a lead byte starting a sequence of `len` bytes. */
  function LeadBits(b: Byte, len: nat): int
  {
    if len == 1 then b else if len == 2 then b - 0xC0 else if len == 3 then b - 0xE0 else b - 0xF0
  }

  /** The smallest code point that needs `len` bytes: shorter (overlong) spellings are rejected. */
  function MinCodePoint(len: nat): int
  {
    if len <= 1 then 0 else if len == 2 then 0x80 else if len == 3 then 0x800 else 0x1_0000
  }

  /** Appending continuation bytes' payloads to `acc`, six bits each. */
  function Accumulate(acc: int, conts: seq<Byte>): int
    decreases |conts|
  {
    if conts == [] then acc else Accumulate(acc * 0x40 + (conts[0] as int - 0x80), conts[1..])
  }

  /** The character the first sequence of `bs` spells, with the sequence's length, if it is well formed. */
  function DecodeFirst(bs: seq<Byte>): (r: Option<(char, nat)>)
    requires bs != []
    ensures r.Some? ==> 1 <= r.value.1 <= |bs|
  {
    var len := SequenceLength(bs[0]);
    if len == 0 || |bs| < len then None
    else if exists k :: 1 <= k < len && !IsContinuation(bs[k]) then None
    else
      var n := Accumulate(LeadBits(bs[0], len), bs[1..len]);
      if IsScalarValue(n) && MinCodePoint(len) <= n then Some((n as char, len)) else None
  }

  /** Strict UTF-8 decoding: `None` for any malformed, overlong or surrogate sequence. */
  function DecodeUtf8(bs: seq<Byte>): (r: Option<string>)
    decreases |bs|
  {
    if bs == [] then Some([])
    else match DecodeFirst(bs)
         case None => None
         case Some((c, len)) =>
           match DecodeUtf8(bs[len..])
           case None => None
           case Some(rest) => Some([c] + rest)
  }

  /** A sequence whose lead byte, continuation bytes and value are all in order decodes to that value. */
  lemma DecodeFirstOfWellFormed(bs: seq<Byte>, len: nat, n: int)
    requires 1 <= len <= |bs| && SequenceLength(bs[0]) == len
    requires forall k :: 1 <= k < len ==> IsContinuation(bs[k])
    requires Accumulate(LeadBits(bs[0], len), bs[1..len]) == n
    requires IsScalarValue(n) && MinCodePoint(len) <= n
    ensures DecodeFirst(bs) == Some((n as char, len))
  {
  }

  /** A character's encoding decodes back to it, whatever follows. */
  lemma DecodeFirstOfEncodeChar(c: char, rest: seq<Byte>)
    ensures DecodeFirst(EncodeChar(c) + rest) == Some((c, |EncodeChar(c)|))
  {
    var n := c as int;
    if n < 0x80 {
      assert (EncodeChar(c) + rest)[0] == n;
    } else if n < 0x800 {
      DecodeFirstOfTwoBytes(c, rest);
    } else if n < 0x1_0000 {
      DecodeFirstOfThreeBytes(c, rest);
    } else {
      DecodeFirstOfFourBytes(c, rest);
    }
  }

  lemma DecodeFirstOfTwoBytes(c: char, rest: seq<Byte>)
    requires 0x80 <= c as int < 0x800
    ensures DecodeFirst(EncodeChar(c) + rest) == Some((c, 2))
  {
    var n := c as int;
    var n1 := n / 0x40;
    var bs := EncodeChar(c) + rest;
    assert bs[0] == 0xC0 + n1 && bs[1] == 0x80 + n % 0x40;
    assert bs[1..2] == [0x80 + n % 0x40];
    assert Accumulate(n1, bs[1..2]) == Accumulate(n1 * 0x40 + n % 0x40, []);
    DecodeFirstOfWellFormed(bs, 2, n);
  }

  lemma DecodeFirstOfThreeBytes(c: char, rest: seq<Byte>)
    requires 0x800 <= c as int < 0x1_0000
    ensures DecodeFirst(EncodeChar(c) + rest) == Some((c, 3))
  {
    var n := c as int;
    var n1 := n / 0x40;
    var n2 := n1 / 0x40;
    var bs := EncodeChar(c) + rest;
    assert bs[0] == 0xE0 + n2 && bs[1] == 0x80 + n1 % 0x40 && bs[2] == 0x80 + n % 0x40;
    assert bs[1..3] == [0x80 + n1 % 0x40, 0x80 + n % 0x40];
    assert bs[1..3][1..] == [0x80 + n % 0x40];
    assert n2 * 0x40 + n1 % 0x40 == n1;
    assert n1 * 0x40 + n % 0x40 == n;
    assert Accumulate(n1, [0x80 + n % 0x40]) == n;
    assert Accumulate(n2, bs[1..3]) == n;
    DecodeFirstOfWellFormed(bs, 3, n);
  }

  lemma DecodeFirstOfFourBytes(c: char, rest: seq<Byte>)
    requires 0x1_0000 <= c as int
    ensures DecodeFirst(EncodeChar(c) + rest) == Some((c, 4))
  {
    var n := c as int;
    var n1 := n / 0x40;
    var n2 := n1 / 0x40;
    var n3 := n2 / 0x40;
    var bs := EncodeChar(c) + rest;
    assert n1 < 0x4400 && n2 < 0x110 && n3 < 5;
    assert bs[0] == 0xF0 + n3;
    var conts := bs[1..4];
    assert conts == [0x80 + n2 % 0x40, 0x80 + n1 % 0x40, 0x80 + n % 0x40];
    assert n3 * 0x40 + n2 % 0x40 == n2;
    assert n2 * 0x40 + n1 % 0x40 == n1;
    assert n1 * 0x40 + n % 0x40 == n;
    assert conts[1..][1..] == [0x80 + n % 0x40];
    assert Accumulate(n1, conts[1..][1..]) == n;
    assert Accumulate(n2, conts[1..]) == n;
    assert Accumulate(n3, conts) == n;
    DecodeFirstOfWellFormed(bs, 4, n);
  }

  /** UTF-8 decoding undoes UTF-8 encoding. */
  lemma {:induction false} DecodeUtf8OfUtf8(s: string)
    ensures DecodeUtf8(Utf8(s)) == Some(s)
  {
    if s != [] {
      var bs := Utf8(s);
      DecodeFirstOfEncodeChar(s[0], Utf8(s[1..]));
      assert bs[|EncodeChar(s[0])|..] == Utf8(s[1..]);
      DecodeUtf8OfUtf8(s[1..]);
      assert [s[0]] + s[1..] == s;
    }
  }

  /** Distinct texts have distinct encodings. */
  lemma Utf8Injective(s: string, t: string)
    requires Utf8(s) == Utf8(t)
    ensures s == t
  {
    DecodeUtf8OfUtf8(s);
    DecodeUtf8OfUtf8(t);
  }

  // ----- percent-encoding -----

  /** An unreserved character of section 2.3 of RFC 3986, the bytes `quote` never escapes. */
  predicate IsUnreserved(c: char)
  {
    ('A' <= c <= 'Z') || ('a' <= c <= 'z') || ('0' <= c <= '9') || c == '_' || c == '.' || c == '-' || c == '~'
  }

  function HexDigit(d: int): (c: char)
    requires 0 <= d < 16
    ensures IsUnreserved(c)
  {
    if d < 10 then ('0' as int + d) as char else ('A' as int + d - 10) as char
  }

  /** The value of a hex digit of either case. */
  function HexValue(c: char): (r: Option<int>)
    ensures r.Some? ==> 0 <= r.value < 16
  {
    if '0' <= c <= '9' then Some(c as int - '0' as int)
    else if 'A' <= c <= 'F' then Some(c as int - 'A' as int + 10)
    else if 'a' <= c <= 'f' then Some(c as int - 'a' as int + 10)
    else None
  }

  /** `quote_plus` on one byte. */
  function QuoteByte(b: Byte): (r: string)
  {
    if b < 0x80 && IsUnreserved(b as char) then [b as char]
    else if b == 0x20 then "+"
    else ['%', HexDigit(b / 16), HexDigit(b % 16)]
  }

  function QuoteBytes(bs: seq<Byte>): (r: string)
  {
    if bs == [] then [] else QuoteByte(bs[0]) + QuoteBytes(bs[1..])
  }

  /** `urllib.parse.quote_plus(s)`. */
  function QuotePlus(s: string): (r: string)
  {
    QuoteBytes(Utf8(s))
  }

  /**
   * Undoing the form encoding down to bytes: `+` is a space, `%` and two
   * hex digits a byte, any other ASCII character itself; a stray `%` or a
   * character outside ASCII is rejected.
   */
  function UnquoteBytes(q: string): (r: Option<seq<Byte>>)
    decreases |q|
  {
    if q == [] then Some([])
    else
      var head: Option<(Byte, nat)> :=
        if q[0] == '+' then Some((0x20, 1))
        else if q[0] == '%' then
          (if |q| >= 3 && HexValue(q[1]).Some? && HexValue(q[2]).Some?
           then Some((HexValue(q[1]).value * 16 + HexValue(q[2]).value, 3)) else None)
        else if q[0] as int < 0x80 then Some((q[0] as int, 1))
        else None;
      match head
      case None => None
      case Some((b, len)) =>
        match UnquoteBytes(q[len..])
        case None => None
        case Some(rest) => Some([b] + rest)
  }

  /** `urllib.parse.unquote_plus` for text `quote_plus` produced: the bytes, then UTF-8 decoding. */
  function UnquotePlus(q: string): (r: Option<string>)
  {
    match UnquoteBytes(q)
    case None => None
    case Some(bs) => DecodeUtf8(bs)
  }

  // ----- properties -----

  lemma HexDigitValue(d: int)
    requires 0 <= d < 16
    ensures HexValue(HexDigit(d)) == Some(d)
  {
  }

  /** One byte's encoding decodes back to it, whatever follows. */
  lemma UnquoteQuoteByte(b: Byte, rest: string)
    ensures UnquoteBytes(QuoteByte(b) + rest) ==
              match UnquoteBytes(rest) case None => None case Some(bs) => Some([b] + bs)
  {
    var q := QuoteByte(b) + rest;
    assert q[|QuoteByte(b)|..] == rest;
    if !(b < 0x80 && IsUnreserved(b as char)) && b != 0x20 {
      HexDigitValue(b / 16);
      HexDigitValue(b % 16);
      assert q[1] == HexDigit(b / 16) && q[2] == HexDigit(b % 16);
    }
  }

  lemma {:induction false} UnquoteQuoteBytes(bs: seq<Byte>)
    ensures UnquoteBytes(QuoteBytes(bs)) == Some(bs)
  {
    if bs != [] {
      UnquoteQuoteByte(bs[0], QuoteBytes(bs[1..]));
      UnquoteQuoteBytes(bs[1..]);
      assert [bs[0]] + bs[1..] == bs;
    }
  }

  /** `unquote_plus(quote_plus(s)) == s`. */
  lemma UnquotePlusOfQuotePlus(s: string)
    ensures UnquotePlus(QuotePlus(s)) == Some(s)
  {
    UnquoteQuoteBytes(Utf8(s));
    DecodeUtf8OfUtf8(s);
  }

  /** Distinct names get distinct encodings, so no two repositories share an artifacts URL. */
  lemma QuotePlusInjective(s: string, t: string)
    requires QuotePlus(s) == QuotePlus(t)
    ensures s == t
  {
    UnquotePlusOfQuotePlus(s);
    UnquotePlusOfQuotePlus(t);
  }

  /** A character `quote_plus` may emit: an unreserved one, `%` or `+`. */
  predicate IsQuotedChar(c: char)
  {
    IsUnreserved(c) || c == '%' || c == '+'
  }

  lemma {:induction false} QuoteBytesChars(bs: seq<Byte>)
    ensures forall i :: 0 <= i < |QuoteBytes(bs)| ==> IsQuotedChar(QuoteBytes(bs)[i])
  {
    if bs != [] {
      QuoteBytesChars(bs[1..]);
      var head := QuoteByte(bs[0]);
      var q := QuoteBytes(bs);
      assert q == head + QuoteBytes(bs[1..]);
      forall i | 0 <= i < |q| ensures IsQuotedChar(q[i]) {
        if i >= |head| {
          assert q[i] == QuoteBytes(bs[1..])[i - |head|];
        }
      }
    }
  }

  /**
   * The encoded text holds no `/` and no space, so a repository name
   * fills exactly one path segment of the URL.
   */
  lemma QuotePlusIsOneSegment(s: string)
    ensures forall i :: 0 <= i < |QuotePlus(s)| ==> QuotePlus(s)[i] != '/' && QuotePlus(s)[i] != ' '
  {
    QuoteBytesChars(Utf8(s));
  }

  /** A name made only of unreserved characters is left as it is. */
  lemma {:induction false} QuotePlusKeepsUnreserved(s: string)
    requires forall i :: 0 <= i < |s| ==> IsUnreserved(s[i])
    ensures QuotePlus(s) == s
  {
    if s != [] {
      QuotePlusKeepsUnreserved(s[1..]);
      assert Utf8(s) == [s[0] as int] + Utf8(s[1..]);
      assert Utf8(s)[1..] == Utf8(s[1..]);
      assert QuoteByte(s[0] as int) == [s[0]];
      assert [s[0]] + s[1..] == s;
    }
  }

  lemma {:induction false} Utf8Append(s: string, t: string)
    ensures Utf8(s + t) == Utf8(s) + Utf8(t)
  {
    if s == [] {
      assert s + t == t;
    } else {
      assert (s + t)[0] == s[0] && (s + t)[1..] == s[1..] + t;
      Utf8Append(s[1..], t);
      calc {
        Utf8(s + t);
        EncodeChar(s[0]) + Utf8(s[1..] + t);
        EncodeChar(s[0]) + (Utf8(s[1..]) + Utf8(t));
        (EncodeChar(s[0]) + Utf8(s[1..])) + Utf8(t);
      }
    }
  }

  lemma {:induction false} QuoteBytesAppend(a: seq<Byte>, b: seq<Byte>)
    ensures QuoteBytes(a + b) == QuoteBytes(a) + QuoteBytes(b)
  {
    if a == [] {
      assert a + b == b;
    } else {
      assert (a + b)[0] == a[0] && (a + b)[1..] == a[1..] + b;
      QuoteBytesAppend(a[1..], b);
      calc {
        QuoteBytes(a + b);
        QuoteByte(a[0]) + QuoteBytes(a[1..] + b);
        QuoteByte(a[0]) + (QuoteBytes(a[1..]) + QuoteBytes(b));
        (QuoteByte(a[0]) + QuoteBytes(a[1..])) + QuoteBytes(b);
      }
    }
  }

  /** Encoding works piece by piece: the encoding of a concatenation is the concatenation of the encodings. */
  lemma QuotePlusAppend(s: string, t: string)
    ensures QuotePlus(s + t) == QuotePlus(s) + QuotePlus(t)
  {
    Utf8Append(s, t);
    QuoteBytesAppend(Utf8(s), Utf8(t));
  }

  lemma SlashAndSpaceEncodings()
    ensures QuotePlus("/") == "%2F" && QuotePlus(" ") == "+"
  {
    assert Utf8("/") == EncodeChar('/') + Utf8([]);
    assert QuoteBytes([0x2F]) == QuoteByte(0x2F) + QuoteBytes([]);
    assert Utf8(" ") == EncodeChar(' ') + Utf8([]);
    assert QuoteBytes([0x20]) == QuoteByte(0x20) + QuoteBytes([]);
  }

  /** A `/` inside a name is sent as `%2F`, and a space as `+`. */
  lemma QuotePlusSlashAndSpace(s: string, t: string)
    ensures QuotePlus(s + "/" + t) == QuotePlus(s) + "%2F" + QuotePlus(t)
    ensures QuotePlus(s + " " + t) == QuotePlus(s) + "+" + QuotePlus(t)
  {
    SlashAndSpaceEncodings();
    QuotePlusAppend(s + "/", t);
    QuotePlusAppend(s, "/");
    QuotePlusAppend(s + " ", t);
    QuotePlusAppend(s, " ");
  }
}
