/** The on-disk form of a cached response: the JSON object that
    encoding/json writes for the Go struct Response, with fields
    `status` and `body` (cache.go:26-29, cache.go:122-129), and the reading
    of it back (cache.go:82-95). */
module Envelope {
  import opened Wrappers

  datatype Response = Response(statusCode: int, body: string)

  /** The zero Response the source returns beside an error. */
  const EmptyResponse := Response(0, "")

  const StatusKey: string := "{\"status\":"
  const BodyKey: string := ",\"body\":\""

  // ---------------------------------------------------------------------
  // Numbers

  predicate IsDigit(c: char) { '0' <= c <= '9' }

  predicate AllDigits(s: string) { forall i :: 0 <= i < |s| ==> IsDigit(s[i]) }

  function DigitChar(d: nat): (c: char)
    requires d < 10
    ensures IsDigit(c) && c as int - '0' as int == d
  {
    (('0' as int) + d) as char
  }

  /** Decimal digits of n, most significant first, without leading zeros. */
  function ShowNat(n: nat): (s: string)
    decreases n
  {
    if n < 10 then [DigitChar(n)] else ShowNat(n / 10) + [DigitChar(n % 10)]
  }

  function ShowInt(i: int): string
  {
    if i < 0 then "-" + ShowNat(-i) else ShowNat(i)
  }

  /** The value of a string of decimal digits. */
  function DigitsValue(s: string): nat
    requires AllDigits(s)
  {
    if s == [] then 0
    else DigitsValue(s[..|s| - 1]) * 10 + (s[|s| - 1] as int - '0' as int)
  }

  /** The length of the run of digits at the front of s. */
  function DigitRun(s: string): (k: nat)
    ensures k <= |s| && AllDigits(s[..k])
    ensures k < |s| ==> !IsDigit(s[k])
  {
    if s == [] || !IsDigit(s[0]) then 0
    else
      var k := 1 + DigitRun(s[1..]);
      assert s[..k] == [s[0]] + s[1..][..k - 1];
      k
  }

  /** A JSON non-negative integer: at least one digit, no leading zero. */
  function ParseNat(s: string): Option<(nat, string)>
  {
    var k := DigitRun(s);
    if k == 0 || (k > 1 && s[0] == '0') then None
    else Some((DigitsValue(s[..k]), s[k..]))
  }

  function ParseInt(s: string): Option<(int, string)>
  {
    if |s| > 0 && s[0] == '-' then
      match ParseNat(s[1..])
      case None => None
      case Some((v, rest)) =>
        var i: int := -(v as int);
        Some((i, rest))
    else ParseNat(s)
  }

  lemma {:induction false} ShowNatShape(n: nat)
    ensures |ShowNat(n)| > 0 && AllDigits(ShowNat(n))
    ensures ShowNat(n)[0] == '0' ==> n == 0
    ensures n == 0 ==> ShowNat(n) == "0"
    ensures DigitsValue(ShowNat(n)) == n
    decreases n
  {
    if n >= 10 {
      ShowNatShape(n / 10);
      var s := ShowNat(n / 10) + [DigitChar(n % 10)];
      assert s[..|s| - 1] == ShowNat(n / 10);
    }
  }

  lemma {:induction false} DigitRunOf(d: string, rest: string)
    requires AllDigits(d)
    requires rest == [] || !IsDigit(rest[0])
    ensures DigitRun(d + rest) == |d|
  {
    if d != [] {
      assert (d + rest)[1..] == d[1..] + rest;
      DigitRunOf(d[1..], rest);
    } else {
      assert d + rest == rest;
    }
  }

  /** Reading a number back yields the number written, and what follows. */
  lemma ParseShowInt(i: int, rest: string)
    requires rest == [] || !IsDigit(rest[0])
    ensures ParseInt(ShowInt(i) + rest) == Some((i, rest))
  {
    var n: nat := if i < 0 then -i else i;
    var d := ShowNat(n);
    ShowNatShape(n);
    DigitRunOf(d, rest);
    assert (d + rest)[..|d|] == d && (d + rest)[|d|..] == rest;
    assert ParseNat(d + rest) == Some((n, rest));
    if i < 0 {
      assert ("-" + d + rest)[1..] == d + rest;
    }
  }

  // ---------------------------------------------------------------------
  // Strings

  const HexDigits: string := "0123456789abcdef"

  /** Four lower-case hex digits of v, as in `<`. */
  function Hex4(v: nat): string
    requires v < 0x10000
  {
    [HexDigits[v / 16 / 16 / 16], HexDigits[v / 16 / 16 % 16], HexDigits[v / 16 % 16], HexDigits[v % 16]]
  }

  function HexValue(c: char): Option<nat>
  {
    if '0' <= c <= '9' then Some(c as int - '0' as int)
    else if 'a' <= c <= 'f' then Some(c as int - 'a' as int + 10)
    else if 'A' <= c <= 'F' then Some(c as int - 'A' as int + 10)
    else None
  }

  function Hex4Value(s: string): Option<nat>
    requires |s| == 4
  {
    match (HexValue(s[0]), HexValue(s[1]), HexValue(s[2]), HexValue(s[3]))
    case (Some(a), Some(b), Some(c), Some(d)) => Some(((a * 16 + b) * 16 + c) * 16 + d)
    case _ => None
  }

  lemma HexDigitValue(d: nat)
    requires d < 16
    ensures HexValue(HexDigits[d]) == Some(d)
  {
  }

  lemma Hex4RoundTrip(v: nat)
    requires v < 0x10000
    ensures Hex4Value(Hex4(v)) == Some(v)
  {
    var q1 := v / 16;
    var q2 := q1 / 16;
    var q3 := q2 / 16;
    assert q3 < 16;
    HexDigitValue(q3);
    HexDigitValue(q2 % 16);
    HexDigitValue(q1 % 16);
    HexDigitValue(v % 16);
    assert ((q3 * 16 + q2 % 16) * 16 + q1 % 16) * 16 + v % 16 == v;
  }

  /** Characters encoding/json writes as `\u` escapes: control characters
      without a short form, the HTML-sensitive `<`, `>`, `&`, and the line
      and paragraph separators U+2028 and U+2029. */
  predicate NeedsUnicodeEscape(c: char)
  {
    || (c < ' ' && c !in {'\n', '\r', '\t'} && c as int != 8 && c as int != 12)
    || c in {'<', '>', '&'}
    || c as int == 0x2028 || c as int == 0x2029
  }

  /** A character encoding/json writes as itself: no control character,
      nothing HTML-significant, no line or paragraph separator. */
  predicate Plain(c: char)
  {
    ' ' <= c && !NeedsUnicodeEscape(c)
  }

  predicate PlainText(s: string)
  {
    forall i :: 0 <= i < |s| ==> Plain(s[i])
  }

  function EscapeChar(c: char): string
  {
    if c == '"' then "\\\""
    else if c == '\\' then "\\\\"
    else if c as int == 8 then "\\b"
    else if c as int == 12 then "\\f"
    else if c == '\n' then "\\n"
    else if c == '\r' then "\\r"
    else if c == '\t' then "\\t"
    else if NeedsUnicodeEscape(c) then "\\u" + Hex4(c as int)
    else [c]
  }

  /** The contents of a JSON string literal for s (without its quotes). */
  function EscapeString(s: string): string
  {
    if s == [] then "" else EscapeChar(s[0]) + EscapeString(s[1..])
  }

  /** Decodes the escape sequence at the front of s: the character and the
      number of characters it occupies. A `\u` escape naming a UTF-16
      surrogate, paired or not, decodes to U+FFFD (encoding/json joins a
      valid pair into one character instead). */
  function UnescapeAt(s: string): (r: Option<(char, nat)>)
    requires |s| >= 2 && s[0] == '\\'
    ensures r.Some? ==> 2 <= r.value.1 <= |s|
  {
    var e := s[1];
    if e == '"' then Some(('"', 2))
    else if e == '\\' then Some(('\\', 2))
    else if e == '/' then Some(('/', 2))
    else if e == 'b' then Some((8 as char, 2))
    else if e == 'f' then Some((12 as char, 2))
    else if e == 'n' then Some(('\n', 2))
    else if e == 'r' then Some(('\r', 2))
    else if e == 't' then Some(('\t', 2))
    else if e == 'u' && |s| >= 6 then
      match Hex4Value(s[2..6])
      case None => None
      case Some(v) =>
        if 0xD800 <= v < 0xE000 then Some((0xFFFD as char, 6)) else Some((v as char, 6))
    else None
  }

  /** Reads the contents of a JSON string literal up to and including its
      closing quote; returns the decoded text and what follows the quote.
      Raw control characters are rejected, as encoding/json does. */
  function ParseString(s: string): Option<(string, string)>
    decreases |s|
  {
    if s == [] then None
    else if s[0] == '"' then Some(("", s[1..]))
    else if s[0] == '\\' then
      if |s| < 2 then None
      else match UnescapeAt(s)
        case None => None
        case Some((c, n)) =>
          match ParseString(s[n..])
          case None => None
          case Some((t, rest)) => Some(([c] + t, rest))
    else if s[0] < ' ' then None
    else
      match ParseString(s[1..])
      case None => None
      case Some((t, rest)) => Some(([s[0]] + t, rest))
  }

  lemma UnescapeEscapeChar(c: char, rest: string)
    requires |EscapeChar(c)| >= 2
    ensures var e := EscapeChar(c) + rest;
      e[0] == '\\' && UnescapeAt(e) == Some((c, |EscapeChar(c)|))
  {
    if c == '"' || c == '\\' || c as int == 8 || c as int == 12 || c == '\n' || c == '\r' || c == '\t' {
      var e := EscapeChar(c) + rest;
      assert e[1] == EscapeChar(c)[1];
    } else {
      UnescapeHex4(c, rest);
    }
  }

  lemma UnescapeHex4(c: char, rest: string)
    requires (c as int) < 0x10000
    ensures var e := "\\u" + Hex4(c as int) + rest;
      UnescapeAt(e) == Some((c, 6))
  {
    var e := "\\u" + Hex4(c as int) + rest;
    assert e[1] == 'u' && e[2..6] == Hex4(c as int);
    Hex4RoundTrip(c as int);
  }

  /** Reading one escaped character, then the rest of the literal. */
  lemma ParseEscapeChar(c: char, tail: string)
    ensures ParseString(EscapeChar(c) + tail) ==
      match ParseString(tail)
      case None => None
      case Some((t, rest)) => Some(([c] + t, rest))
  {
    var e := EscapeChar(c);
    if |e| >= 2 {
      UnescapeEscapeChar(c, tail);
      assert (e + tail)[|e|..] == tail;
    } else {
      assert e == [c];
      assert (e + tail)[1..] == tail;
    }
  }

  /** Reading back an escaped string literal yields the original text. */
  lemma {:induction false} ParseEscapeString(s: string, rest: string)
    ensures ParseString(EscapeString(s) + "\"" + rest) == Some((s, rest))
    decreases |s|
  {
    if s == [] {
      assert EscapeString(s) + "\"" + rest == "\"" + rest;
    } else {
      var tail := EscapeString(s[1..]) + "\"" + rest;
      assert EscapeString(s) + "\"" + rest == EscapeChar(s[0]) + tail;
      ParseEscapeString(s[1..], rest);
      ParseEscapeChar(s[0], tail);
      assert s == [s[0]] + s[1..];
    }
  }

  // ---------------------------------------------------------------------
  // The envelope

  /** json.Marshal of a Response. */
  function Encode(r: Response): string
  {
    StatusKey + ShowInt(r.statusCode) + BodyKey + EscapeString(r.body) + "\"}"
  }

  /** json.Unmarshal into a Response, for the compact form Encode writes. */
  function Decode(s: string): Option<Response>
  {
    if !(StatusKey <= s) then None
    else
      match ParseInt(s[|StatusKey|..])
      case None => None
      case Some((code, rest)) =>
        if !(BodyKey <= rest) then None
        else
          match ParseString(rest[|BodyKey|..])
          case None => None
          case Some((body, tail)) => if tail == "}" then Some(Response(code, body)) else None
  }

  lemma PlainConcat(a: string, b: string)
    requires PlainText(a) && PlainText(b)
    ensures PlainText(a + b)
  {
    forall i | 0 <= i < |a + b| ensures Plain((a + b)[i]) {
      if i >= |a| {
        assert (a + b)[i] == b[i - |a|];
      }
    }
  }

  lemma EscapeCharPlain(c: char)
    ensures PlainText(EscapeChar(c))
  {
    if NeedsUnicodeEscape(c) && c != '"' && c != '\\' && c as int != 8 && c as int != 12
       && c != '\n' && c != '\r' && c != '\t' {
      var h := Hex4(c as int);
      assert forall i :: 0 <= i < |HexDigits| ==> Plain(HexDigits[i]);
      assert forall i :: 0 <= i < |h| ==> h[i] in HexDigits;
    }
  }

  lemma {:induction false} EscapeStringPlain(s: string)
    ensures PlainText(EscapeString(s))
    decreases |s|
  {
    if s != [] {
      EscapeCharPlain(s[0]);
      EscapeStringPlain(s[1..]);
      PlainConcat(EscapeChar(s[0]), EscapeString(s[1..]));
    }
  }

  /** A decimal number is plain: digits and perhaps a minus sign. */
  lemma ShowIntPlain(i: int)
    ensures PlainText(ShowInt(i))
  {
    var n: nat := if i < 0 then -i else i;
    ShowNatShape(n);
    assert PlainText(ShowNat(n));
    if i < 0 {
      PlainConcat("-", ShowNat(n));
    }
  }

  lemma KeysPlain()
    ensures PlainText(StatusKey) && PlainText(BodyKey) && PlainText("\"}")
  {
  }

  /** The four pieces of an envelope are plain, and so is their
      concatenation. */
  lemma EncodeParts(i: int, body: string)
    ensures PlainText(StatusKey + ShowInt(i) + BodyKey + EscapeString(body) + "\"}")
  {
    var num := ShowInt(i);
    var esc := EscapeString(body);
    ShowIntPlain(i);
    EscapeStringPlain(body);
    KeysPlain();
    PlainConcat(StatusKey, num);
    PlainConcat(StatusKey + num, BodyKey);
    PlainConcat(StatusKey + num + BodyKey, esc);
    PlainConcat(StatusKey + num + BodyKey + esc, "\"}");
  }

  /** The envelope json.Marshal writes is one line of plain text: every
      control character, `<`, `>`, `&`, U+2028 and U+2029 of the body is
      escaped. It is a JSON object that opens with the status member. */
  lemma EncodePlain(r: Response)
    ensures PlainText(Encode(r))
    ensures StatusKey <= Encode(r) && Encode(r)[|Encode(r)| - 1] == '}'
  {
    EncodeParts(r.statusCode, r.body);
    var rest := ShowInt(r.statusCode) + BodyKey + EscapeString(r.body) + "\"}";
    assert Encode(r) == StatusKey + rest;
  }

  /** Decoding a stored envelope followed by more text: the envelope
      itself reads back as the response, and anything after its closing
      brace makes the text invalid. encoding/json rejects any such text
      other than whitespace; this Decode rejects whitespace too. */
  lemma DecodeEncodeThen(r: Response, extra: string)
    ensures Decode(Encode(r) + extra) == if extra == "" then Some(r) else None
  {
    var num := ShowInt(r.statusCode);
    var esc := EscapeString(r.body);
    var afterBody := esc + "\"" + ("}" + extra);
    var afterNum := BodyKey + afterBody;
    var s := Encode(r) + extra;
    assert s == StatusKey + (num + afterNum);
    assert s[|StatusKey|..] == num + afterNum;
    ParseShowInt(r.statusCode, afterNum);
    assert afterNum[|BodyKey|..] == afterBody;
    ParseEscapeString(r.body, "}" + extra);
  }

  /** A stored response reads back as exactly the response that was stored. */
  lemma DecodeEncode(r: Response)
    ensures Decode(Encode(r)) == Some(r)
  {
    DecodeEncodeThen(r, "");
    assert Encode(r) + "" == Encode(r);
  }

  /** Text that is not exactly one envelope is refused: an empty file, and
      an envelope followed by anything (encoding/json would still accept
      trailing whitespace). */
  lemma DecodeRejects(r: Response, extra: string)
    ensures Decode("") == None
    ensures extra != "" ==> Decode(Encode(r) + extra) == None
  {
    DecodeEncodeThen(r, extra);
  }
}
