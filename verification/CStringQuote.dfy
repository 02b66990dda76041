/** Writing a key as a C string literal, and reading it back as a C compiler does. */
module CStringQuote {
  import opened ByteStrings
  import opened Hex
  import opened Handshake

  // ---- The printer ----------------------------------------------------------------------------

  function Digit(v: nat): char
    requires v < 10
  {
    ('0' as int + v) as char
  }

  function Escape(b: byte): string {
    if b == 92 then "\\\\"
    else if b == 34 then "\\\""
    else if b == 10 then "\\n"
    else if b == 13 then "\\r"
    else if b == 9 then "\\t"
    else if 0x20 <= b <= 0x7e then [b as char]
    else ['\\', Digit(b / 64), Digit(b / 8 % 8), Digit(b % 8)]
  }

  function Body(data: Bytes): string {
    if data == [] then "" else Body(data[..|data| - 1]) + Escape(data[|data| - 1])
  }

  function Quote(data: Bytes): string {
    "\"" + Body(data) + "\""
  }

  lemma EscapePrintable(b: byte)
    ensures forall k :: 0 <= k < |Escape(b)| ==> ' ' <= Escape(b)[k] <= '~'
  {
  }

  method QuoteCStringBytes(data: Bytes) returns (text: string)
    ensures text == Quote(data)
    ensures forall i :: 0 <= i < |text| ==> ' ' <= text[i] <= '~'
  {
    hide Escape;
    text := "\"";
    for i := 0 to |data|
      invariant text == "\"" + Body(data[..i])
      invariant forall k :: 0 <= k < |text| ==> ' ' <= text[k] <= '~'
    {
      assert data[..i + 1][..i] == data[..i];
      var escaped := Escape(data[i]);
      EscapePrintable(data[i]);
      text := text + escaped;
    }
    assert data[..|data|] == data;
    text := text + "\"";
  }

  // ---- A C lexer for string literals: sections 6.4.4.4 and 6.4.5 of C11 ------------------------

  function OctalValue(c: char): Option<nat> {
    if '0' <= c <= '7' then Some(c as int - '0' as int) else None
  }

  // A run of digits, at most `most` of them: its value and what follows.
  function Octal(s: string, most: nat, value: nat): (nat, string) {
    if most == 0 || s == "" || OctalValue(s[0]).None? then (value, s)
    else Octal(s[1..], most - 1, value * 8 + OctalValue(s[0]).value)
  }

  function HexRun(s: string, value: nat): (r: (nat, string))
    ensures |r.1| <= |s|
  {
    if s == "" || HexValue(s[0]).None? then (value, s)
    else HexRun(s[1..], value * 16 + HexValue(s[0]).value)
  }

  lemma {:induction false} OctalShortens(s: string, most: nat, value: nat)
    ensures |Octal(s, most, value).1| <= |s|
    decreases most
  {
    if !(most == 0 || s == "" || OctalValue(s[0]).None?) {
      OctalShortens(s[1..], most - 1, value * 8 + OctalValue(s[0]).value);
    }
  }

  function Simple(c: char): Option<byte> {
    match c
    case '\'' => Some(39)
    case '\"' => Some(34)
    case '?' => Some(63)
    case '\\' => Some(92)
    case 'a' => Some(7)
    case 'b' => Some(8)
    case 'f' => Some(12)
    case 'n' => Some(10)
    case 'r' => Some(13)
    case 't' => Some(9)
    case 'v' => Some(11)
    case _ => None
  }

  // One character or escape sequence; None where the text is not one, or its value fits no byte.
  function Element(s: string): (r: Option<(byte, string)>)
    ensures r.Some? ==> |r.value.1| < |s|
  {
    if s == "" || s[0] == '"' || s[0] == '\n' then None
    else if s[0] != '\\' then if s[0] as int < 256 then Some((s[0] as int, s[1..])) else None
    else if |s| < 2 then None
    else if Simple(s[1]).Some? then Some((Simple(s[1]).value, s[2..]))
    else if OctalValue(s[1]).Some? then
      OctalShortens(s[2..], 2, OctalValue(s[1]).value);
      var (value, rest) := Octal(s[2..], 2, OctalValue(s[1]).value);
      if value < 256 then Some((value, rest)) else None
    else if s[1] == 'x' && |s| > 2 && HexValue(s[2]).Some? then
      var (value, rest) := HexRun(s[2..], 0);
      if value < 256 then Some((value, rest)) else None
    else None
  }

  // The bytes up to the closing quote, and what follows it.
  function LexBody(s: string): Option<(Bytes, string)>
    decreases |s|
  {
    if s != "" && s[0] == '"' then Some(([], s[1..]))
    else
      match Element(s)
      case None => None
      case Some((b, rest)) =>
        match LexBody(rest)
        case None => None
        case Some((bytes, after)) => Some(([b] + bytes, after))
  }

  function LexString(s: string): Option<(Bytes, string)> {
    if s != "" && s[0] == '"' then LexBody(s[1..]) else None
  }

  // ---- Round trip -----------------------------------------------------------------------------

  lemma OctalStep(c: char, v: nat, tail: string, most: nat, value: nat)
    requires OctalValue(c) == Some(v) && most > 0
    ensures Octal([c] + tail, most, value) == Octal(tail, most - 1, value * 8 + v)
  {
    assert ([c] + tail)[1..] == tail;
  }

  lemma OctalDigits(b: byte)
    ensures b / 64 < 8 && (b / 64 * 8 + b / 8 % 8) * 8 + b % 8 == b
    ensures OctalValue(Digit(b / 64)) == Some(b / 64)
    ensures OctalValue(Digit(b / 8 % 8)) == Some(b / 8 % 8) && OctalValue(Digit(b % 8)) == Some(b % 8)
  {
    assert b / 64 == b / 8 / 8;
  }

  lemma OctalOfThree(b: byte, tail: string)
    ensures Octal([Digit(b / 8 % 8), Digit(b % 8)] + tail, 2, b / 64) == (b, tail)
  {
    OctalDigits(b);
    hide Digit, OctalValue;
    assert [Digit(b / 8 % 8), Digit(b % 8)] + tail == [Digit(b / 8 % 8)] + ([Digit(b % 8)] + tail);
    OctalStep(Digit(b / 8 % 8), b / 8 % 8, [Digit(b % 8)] + tail, 2, b / 64);
    OctalStep(Digit(b % 8), b % 8, tail, 1, b / 64 * 8 + b / 8 % 8);
  }

  // Three octal digits are all an escape can take, so whatever follows is left alone.
  lemma ElementOfEscape(b: byte, tail: string)
    ensures Element(Escape(b) + tail) == Some((b, tail))
    ensures (Escape(b) + tail)[0] != '"'
  {
    var e := Escape(b);
    var s := e + tail;
    if |e| == 4 {
      assert s[2..] == [Digit(b / 8 % 8), Digit(b % 8)] + tail;
      OctalDigits(b);
      assert b / 64 < 4 && s[1] == Digit(b / 64) && Simple(s[1]) == None;
      OctalOfThree(b, tail);
    } else if |e| == 2 {
      assert s[2..] == tail;
    } else {
      assert s[1..] == tail;
    }
  }

  lemma LexOfEscape(b: byte, tail: string, bytes: Bytes, after: string)
    requires LexBody(tail) == Some((bytes, after))
    ensures LexBody(Escape(b) + tail) == Some(([b] + bytes, after))
  {
    hide Escape, Element;
    ElementOfEscape(b, tail);
  }

  lemma {:induction false} LexOfBody(data: Bytes, tail: string, bytes: Bytes, after: string)
    requires LexBody(tail) == Some((bytes, after))
    ensures LexBody(Body(data) + tail) == Some((data + bytes, after))
  {
    hide LexBody, Escape;
    if data == [] {
      assert Body(data) + tail == tail && data + bytes == bytes;
    } else {
      var init, b := data[..|data| - 1], data[|data| - 1];
      LexOfEscape(b, tail, bytes, after);
      LexOfBody(init, Escape(b) + tail, [b] + bytes, after);
      assert Body(data) + tail == Body(init) + (Escape(b) + tail);
      assert data + bytes == init + ([b] + bytes);
    }
  }

  // The compiler reads back exactly the bytes that were written, whatever follows the literal.
  lemma QuoteRoundTrip(data: Bytes, after: string)
    ensures LexString(Quote(data) + after) == Some((data, after))
  {
    var tail := "\"" + after;
    assert tail[1..] == after && LexBody(tail) == Some(([], after));
    LexOfBody(data, tail, [], after);
    assert (Quote(data) + after)[1..] == Body(data) + tail;
    assert data + [] == data;
  }

  lemma QuoteInjective(a: Bytes, b: Bytes)
    requires Quote(a) == Quote(b)
    ensures a == b
  {
    QuoteRoundTrip(a, "");
    QuoteRoundTrip(b, "");
  }

  // ---- What the device makes of it ------------------------------------------------------------

  predicate HostAccepts(data: Bytes) {
    AUTH_KEY_MIN <= |data| <= AUTH_KEY_MAX
  }

  // `setAuthKey` on the compiled literal, which C ends with a zero byte.
  function DeviceKey(literal: Bytes): Option<Bytes> {
    var key := BeforeNul(literal + [0]);
    if AUTH_KEY_MIN <= |key| <= AUTH_KEY_MAX then Some(key) else None
  }

  lemma {:induction false} BeforeFirstNul(data: Bytes)
    ensures BeforeNul(data + [0]) == data <==> 0 !in data
    ensures |BeforeNul(data + [0])| <= |data|
  {
    if data != [] && data[0] != 0 {
      BeforeFirstNul(data[1..]);
      assert (data + [0])[1..] == data[1..] + [0];
      assert data == [data[0]] + data[1..];
      var rest := BeforeNul(data[1..] + [0]);
      assert ([data[0]] + rest)[1..] == rest;
    }
  }

  // A key the host accepts becomes the device's key exactly when it has no zero byte.
  lemma ProvisionedKeyArrives(data: Bytes)
    requires HostAccepts(data)
    ensures LexString(Quote(data)).Some?
    ensures DeviceKey(LexString(Quote(data)).value.0) == Some(data) <==> 0 !in data
  {
    assert Quote(data) + "" == Quote(data);
    QuoteRoundTrip(data, "");
    BeforeFirstNul(data);
  }
}
