/** UTF-8 (section 3 of RFC 3629) and `encodeURIComponent` (section 19.2.6.5
    of ECMA-262): every character outside the unreserved set is written as the
    percent-escaped octets of its UTF-8 encoding, with upper-case hex digits. */
module Uri {
  import opened Wrappers
  import opened Text

  /** The characters `encodeURIComponent` copies through unchanged. */
  predicate IsUnreserved(c: char) {
    || ('A' <= c <= 'Z') || ('a' <= c <= 'z') || IsDigit(c)
    || c == '-' || c == '_' || c == '.' || c == '!' || c == '~'
    || c == '*' || c == '\'' || c == '(' || c == ')'
  }

  /** UTF-8 octets of one Unicode scalar value. */
  function Utf8(c: char): (octets: seq<Byte>)
    ensures 1 <= |octets| <= 4
    ensures |octets| == 1 <==> c as int < 0x80
  {
    var cp := c as int;
    if cp < 0x80 then [cp]
    else if cp < 0x800 then [0xC0 + cp / 0x40, 0x80 + cp % 0x40]
    else if cp < 0x10000 then [0xE0 + cp / 0x1000, 0x80 + (cp / 0x40) % 0x40, 0x80 + cp % 0x40]
    else [0xF0 + cp / 0x40000, 0x80 + (cp / 0x1000) % 0x40, 0x80 + (cp / 0x40) % 0x40, 0x80 + cp % 0x40]
  }

  /** `%XX` for one octet. */
  function PercentEscape(b: Byte): (r: string)
    ensures |r| == 3 && r[0] == '%'
  {
    ['%', HexDigit(b / 16, true), HexDigit(b % 16, true)]
  }

  function EscapeOctets(octets: seq<Byte>): (r: string)
    ensures |r| == 3 * |octets|
    ensures forall i :: 0 <= i < |r| ==> r[i] == '%' || IsUnreserved(r[i])
  {
    if octets == [] then [] else PercentEscape(octets[0]) + EscapeOctets(octets[1..])
  }

  function EncodeChar(c: char): (r: string)
    ensures IsUnreserved(c) ==> r == [c]
    ensures !IsUnreserved(c) ==> 3 <= |r| <= 12 && r[0] == '%'
    ensures forall i :: 0 <= i < |r| ==> r[i] == '%' || IsUnreserved(r[i])
  {
    if IsUnreserved(c) then [c] else EscapeOctets(Utf8(c))
  }

  /** The result uses only unreserved characters and `%`, so it can sit inside
      a query parameter; text made of unreserved characters is left as is. */
  function EncodeURIComponent(s: string): (r: string)
    ensures |r| >= |s|
    ensures forall i :: 0 <= i < |r| ==> r[i] == '%' || IsUnreserved(r[i])
    ensures (forall i :: 0 <= i < |s| ==> IsUnreserved(s[i])) ==> r == s
  {
    if s == [] then [] else EncodeChar(s[0]) + EncodeURIComponent(s[1..])
  }

  // ---------------------------------------------------------------------------
  // decodeURIComponent
  // ---------------------------------------------------------------------------

  /** The value of a hex digit of either case. */
  function HexValue(c: char): (v: Option<nat>)
    ensures v.Some? <==> IsDigit(c) || 'a' <= c <= 'f' || 'A' <= c <= 'F'
    ensures v.Some? ==> v.value < 16
  {
    if IsDigit(c) then Some(DigitValue(c))
    else if 'a' <= c <= 'f' then Some(c as int - 'a' as int + 10)
    else if 'A' <= c <= 'F' then Some(c as int - 'A' as int + 10)
    else None
  }

  lemma UpperHexDigitRoundTrip(d: nat)
    requires d < 16
    ensures HexValue(HexDigit(d, true)) == Some(d)
  {
  }

  /** The octet `%XX` at the front of `s` stands for, if `s` starts with one. */
  function ReadEscape(s: string): (b: Option<Byte>)
    ensures b.Some? ==> |s| >= 3 && s[0] == '%'
  {
    if |s| < 3 || s[0] != '%' then None
    else
      match (HexValue(s[1]), HexValue(s[2]))
      case (Some(hi), Some(lo)) => Some(hi * 16 + lo)
      case _ => None
  }

  /** The `n` octets of `n` escapes in a row at the front of `s`. */
  function ReadEscapes(s: string, n: nat): (octets: Option<seq<Byte>>)
    ensures octets.Some? ==> |octets.value| == n && 3 * n <= |s|
  {
    if n == 0 then Some([])
    else
      match ReadEscape(s)
      case None => None
      case Some(b) =>
        match ReadEscapes(s[3..], n - 1)
        case None => None
        case Some(rest) => Some([b] + rest)
  }

  /** How many octets a UTF-8 sequence with lead octet `b` has; 0 when `b`
      cannot lead one (a continuation octet, or five or more leading ones). */
  function SequenceLength(b: Byte): (n: nat)
    ensures n <= 4
  {
    if b < 0x80 then 1
    else if b < 0xC0 then 0
    else if b < 0xE0 then 2
    else if b < 0xF0 then 3
    else if b < 0xF8 then 4
    else 0
  }

  predicate IsContinuation(b: Byte) {
    0x80 <= b < 0xC0
  }

  /** The scalar value a UTF-8 sequence encodes; `None` for a bad continuation
      octet, an overlong form, a surrogate or a value above U+10FFFF. */
  function Utf8Decode(octets: seq<Byte>): (c: Option<char>)
    ensures c.Some? ==> 1 <= |octets| <= 4 && SequenceLength(octets[0]) == |octets|
  {
    if |octets| == 1 && octets[0] < 0x80 then Some(octets[0] as char)
    else if |octets| == 2 && 0xC0 <= octets[0] < 0xE0 && IsContinuation(octets[1]) then
      var cp := (octets[0] as int - 0xC0) * 0x40 + (octets[1] as int - 0x80);
      if cp < 0x80 then None else Some(cp as char)
    else if |octets| == 3 && 0xE0 <= octets[0] < 0xF0 && IsContinuation(octets[1]) && IsContinuation(octets[2]) then
      var cp := (octets[0] as int - 0xE0) * 0x1000 + (octets[1] as int - 0x80) * 0x40 + (octets[2] as int - 0x80);
      if cp < 0x800 || 0xD800 <= cp < 0xE000 then None else Some(cp as char)
    else if |octets| == 4 && 0xF0 <= octets[0] < 0xF8
         && IsContinuation(octets[1]) && IsContinuation(octets[2]) && IsContinuation(octets[3]) then
      var cp := (octets[0] as int - 0xF0) * 0x40000 + (octets[1] as int - 0x80) * 0x1000 + (octets[2] as int - 0x80) * 0x40 + (octets[3] as int - 0x80);
      if cp < 0x10000 || cp > 0x10FFFF then None else Some(cp as char)
    else None
  }

  function Prepend(c: char, rest: Option<string>): Option<string> {
    match rest
    case None => None
    case Some(t) => Some([c] + t)
  }

  /** `decodeURIComponent` (section 19.2.6.3 of ECMA-262): every `%XX` escape
      sequence spelling one UTF-8 encoded character becomes that character,
      and any other character is kept. `None` is the `URIError` thrown on a
      malformed escape or an invalid UTF-8 sequence. */
  function DecodeURIComponent(s: string): (r: Option<string>)
    ensures r.Some? ==> |r.value| <= |s|
    ensures (forall i :: 0 <= i < |s| ==> s[i] != '%') ==> r == Some(s)
    decreases |s|
  {
    if s == [] then Some([])
    else if s[0] != '%' then
      assert s == [s[0]] + s[1..];
      Prepend(s[0], DecodeURIComponent(s[1..]))
    else
      match ReadEscape(s)
      case None => None
      case Some(b) =>
        var n := SequenceLength(b);
        if n == 0 then None
        else
          match ReadEscapes(s, n)
          case None => None
          case Some(octets) =>
            match Utf8Decode(octets)
            case None => None
            case Some(c) => Prepend(c, DecodeURIComponent(s[3 * n..]))
  }

  // ---------------------------------------------------------------------------
  // Round trip
  // ---------------------------------------------------------------------------

  lemma ReadPercentEscape(b: Byte, t: string)
    ensures ReadEscape(PercentEscape(b) + t) == Some(b)
  {
    UpperHexDigitRoundTrip(b / 16);
    UpperHexDigitRoundTrip(b % 16);
  }

  lemma {:induction false} ReadEscapedOctets(octets: seq<Byte>, t: string)
    ensures ReadEscapes(EscapeOctets(octets) + t, |octets|) == Some(octets)
  {
    if octets != [] {
      SplitEscapes(octets, t);
      DropPrefix(PercentEscape(octets[0]), EscapeOctets(octets[1..]) + t);
      ReadPercentEscape(octets[0], EscapeOctets(octets[1..]) + t);
      ReadEscapedOctets(octets[1..], t);
      assert [octets[0]] + octets[1..] == octets;
    }
  }

  lemma TwoOctets(cp: int)
    requires 0x80 <= cp < 0x800
    ensures var b0, b1 := 0xC0 + cp / 0x40, 0x80 + cp % 0x40;
      && 0xC0 <= b0 < 0xE0 && 0x80 <= b1 < 0xC0
      && (b0 - 0xC0) * 0x40 + (b1 - 0x80) == cp
  {
  }

  lemma ThreeOctets(cp: int)
    requires 0x800 <= cp < 0x10000
    ensures var b0, b1, b2 := 0xE0 + cp / 0x1000, 0x80 + (cp / 0x40) % 0x40, 0x80 + cp % 0x40;
      && 0xE0 <= b0 < 0xF0 && 0x80 <= b1 < 0xC0 && 0x80 <= b2 < 0xC0
      && (b0 - 0xE0) * 0x1000 + (b1 - 0x80) * 0x40 + (b2 - 0x80) == cp
  {
    var q := cp / 0x40;
    assert cp / 0x1000 == q / 0x40;
  }

  lemma FourOctets(cp: int)
    requires 0x10000 <= cp <= 0x10FFFF
    ensures var b0, b1, b2, b3 := 0xF0 + cp / 0x40000, 0x80 + (cp / 0x1000) % 0x40, 0x80 + (cp / 0x40) % 0x40, 0x80 + cp % 0x40;
      && 0xF0 <= b0 < 0xF8 && 0x80 <= b1 < 0xC0 && 0x80 <= b2 < 0xC0 && 0x80 <= b3 < 0xC0
      && (b0 - 0xF0) * 0x40000 + (b1 - 0x80) * 0x1000 + (b2 - 0x80) * 0x40 + (b3 - 0x80) == cp
  {
    var q1 := cp / 0x40;
    var q2 := q1 / 0x40;
    assert cp / 0x1000 == q2;
    assert cp / 0x40000 == q2 / 0x40;
  }

  /** Decoding inverts the UTF-8 encoding of every character, and the lead
      octet announces the length of the sequence. */
  lemma Utf8RoundTrip(c: char)
    ensures SequenceLength(Utf8(c)[0]) == |Utf8(c)|
    ensures Utf8Decode(Utf8(c)) == Some(c)
  {
    var cp := c as int;
    if cp < 0x80 {
    } else if cp < 0x800 {
      TwoOctets(cp);
    } else if cp < 0x10000 {
      ThreeOctets(cp);
    } else {
      FourOctets(cp);
    }
  }

  /** The escapes of one complete UTF-8 sequence decode to its character. */
  lemma DecodeEscapedSequence(octets: seq<Byte>, c: char, t: string)
    requires Utf8Decode(octets) == Some(c)
    ensures DecodeURIComponent(EscapeOctets(octets) + t) == Prepend(c, DecodeURIComponent(t))
  {
    ReadEscapedOctets(octets, t);
    SplitEscapes(octets, t);
    ReadPercentEscape(octets[0], EscapeOctets(octets[1..]) + t);
    DecodeStep(EscapeOctets(octets) + t, octets, c);
  }

  lemma SplitEscapes(octets: seq<Byte>, t: string)
    requires octets != []
    ensures EscapeOctets(octets) + t == PercentEscape(octets[0]) + (EscapeOctets(octets[1..]) + t)
    ensures (EscapeOctets(octets) + t)[3 * |octets|..] == t
  {
    Regroup(PercentEscape(octets[0]), EscapeOctets(octets[1..]), t);
    DropPrefix(EscapeOctets(octets), t);
  }

  lemma Regroup<T>(a: seq<T>, b: seq<T>, t: seq<T>)
    ensures (a + b) + t == a + (b + t)
  {
  }

  lemma DropPrefix<T>(x: seq<T>, t: seq<T>)
    ensures (x + t)[|x|..] == t
  {
  }

  lemma TakePrefix<T>(x: seq<T>, t: seq<T>)
    ensures (x + t)[..|x|] == x
  {
  }

  /** One step of the decoder on text that starts with the escapes of a
      complete sequence. */
  lemma DecodeStep(e: string, octets: seq<Byte>, c: char)
    requires 1 <= |octets| <= 4 && SequenceLength(octets[0]) == |octets|
    requires ReadEscape(e) == Some(octets[0])
    requires ReadEscapes(e, |octets|) == Some(octets)
    requires Utf8Decode(octets) == Some(c)
    ensures DecodeURIComponent(e) == Prepend(c, DecodeURIComponent(e[3 * |octets|..]))
  {
  }

  lemma DecodeEncodedChar(c: char, t: string)
    ensures DecodeURIComponent(EncodeChar(c) + t) == Prepend(c, DecodeURIComponent(t))
  {
    if IsUnreserved(c) {
      var e := EncodeChar(c) + t;
      assert e[0] == c && e[1..] == t;
    } else {
      Utf8RoundTrip(c);
      DecodeEscapedSequence(Utf8(c), c, t);
    }
  }

  /** `decodeURIComponent` gives back exactly what `encodeURIComponent` was
      given. */
  lemma {:induction false} DecodeEncodeRoundTrip(s: string)
    ensures DecodeURIComponent(EncodeURIComponent(s)) == Some(s)
  {
    if s != [] {
      DecodeEncodedChar(s[0], EncodeURIComponent(s[1..]));
      DecodeEncodeRoundTrip(s[1..]);
      assert [s[0]] + s[1..] == s;
    }
  }

  /** Different texts give different encodings, so the seed of an avatar URL
      can be read back from it. */
  lemma EncodeURIComponentInjective(s1: string, s2: string)
    requires EncodeURIComponent(s1) == EncodeURIComponent(s2)
    ensures s1 == s2
  {
    DecodeEncodeRoundTrip(s1);
    DecodeEncodeRoundTrip(s2);
  }

  // ---------------------------------------------------------------------------
  // UTF-8 text
  // ---------------------------------------------------------------------------

  /** The UTF-8 octets of a whole text, the bytes a library hashing a
      JavaScript string works on. */
  function Utf8Encode(s: string): (octets: seq<Byte>)
    ensures |octets| >= |s|
  {
    if s == [] then [] else Utf8(s[0]) + Utf8Encode(s[1..])
  }

  /** Reads a text back from its UTF-8 octets; `None` when they are not a
      sequence of complete, well-formed characters. */
  function Utf8DecodeText(octets: seq<Byte>): (s: Option<string>)
    ensures s.Some? ==> |s.value| <= |octets|
    decreases |octets|
  {
    if octets == [] then Some([])
    else
      var n := SequenceLength(octets[0]);
      if n == 0 || n > |octets| then None
      else
        match Utf8Decode(octets[..n])
        case None => None
        case Some(c) => Prepend(c, Utf8DecodeText(octets[n..]))
  }

  lemma {:induction false} Utf8EncodeAppend(s: string, t: string)
    ensures Utf8Encode(s + t) == Utf8Encode(s) + Utf8Encode(t)
  {
    if s != [] {
      assert (s + t)[0] == s[0];
      assert (s + t)[1..] == s[1..] + t;
      Utf8EncodeAppend(s[1..], t);
      Regroup(Utf8(s[0]), Utf8Encode(s[1..]), Utf8Encode(t));
    } else {
      assert s + t == t;
    }
  }

  /** Decoding inverts the encoding of every text. */
  lemma {:induction false} Utf8TextRoundTrip(s: string)
    ensures Utf8DecodeText(Utf8Encode(s)) == Some(s)
  {
    if s != [] {
      var head, rest := Utf8(s[0]), Utf8Encode(s[1..]);
      Utf8RoundTrip(s[0]);
      TakePrefix(head, rest);
      DropPrefix(head, rest);
      Utf8TextRoundTrip(s[1..]);
      assert [s[0]] + s[1..] == s;
    }
  }

  /** Different texts have different UTF-8 octets. */
  lemma Utf8EncodeInjective(s: string, t: string)
    requires Utf8Encode(s) == Utf8Encode(t)
    ensures s == t
  {
    Utf8TextRoundTrip(s);
    Utf8TextRoundTrip(t);
  }

  /** Only U+0000 encodes to a zero octet. */
  lemma {:induction false} Utf8EncodeHasNoZero(s: string)
    requires forall i :: 0 <= i < |s| ==> s[i] != '\0'
    ensures forall i :: 0 <= i < |Utf8Encode(s)| ==> Utf8Encode(s)[i] != 0
  {
    if s != [] {
      var head, rest := Utf8(s[0]), Utf8Encode(s[1..]);
      Utf8EncodeHasNoZero(s[1..]);
      assert forall i :: 0 <= i < |head| ==> head[i] != 0;
      assert Utf8Encode(s) == head + rest;
    }
  }
}
