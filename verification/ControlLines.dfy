/** Reading one handshake line: the scanner both ends implement, and the host's reader. */
module ControlLines {
  import opened ByteStrings
  import opened ControlFields
  import opened Sockets

  const LINE_LIMIT: nat := 256
  const CR: byte := 13
  const LF: byte := 10

  // What scanning a stream leaves: an unfinished line, a finished one with the unread rest, or
  // a line that reached the limit.
  datatype Scan = More(text: string) | Line(text: string, rest: Bytes) | TooLong(rest: Bytes)

  // `text` is what the current line holds so far.
  function ScanLine(text: string, stream: Bytes): Scan
    decreases |stream|
  {
    if stream == [] then More(text)
    else if stream[0] == CR then ScanLine(text, stream[1..])
    else if stream[0] == LF then Line(text, stream[1..])
    else if |text| + 1 >= LINE_LIMIT then TooLong(stream[1..])
    else ScanLine(text + [stream[0] as char], stream[1..])
  }

  // ---- What the scanner means -----------------------------------------------------------------

  function WithoutCR(bytes: Bytes): string {
    if bytes == [] then ""
    else if bytes[0] == CR then WithoutCR(bytes[1..])
    else [bytes[0] as char] + WithoutCR(bytes[1..])
  }

  // A finished line is what precedes the first LF, CR removed, and nothing past the LF is
  // consumed; it finishes exactly when that is at most 255 characters long.
  lemma {:induction false} ScanIsLfSplit(text: string, before: Bytes, rest: Bytes)
    requires LF !in before && |text| < LINE_LIMIT
    ensures |text + WithoutCR(before)| < LINE_LIMIT ==>
              ScanLine(text, before + [LF] + rest) == Line(text + WithoutCR(before), rest)
    ensures |text + WithoutCR(before)| >= LINE_LIMIT ==> ScanLine(text, before + [LF] + rest).TooLong?
    decreases |before|
  {
    var stream := before + [LF] + rest;
    if before == [] {
      assert stream[0] == LF && stream[1..] == rest && text + "" == text;
    } else {
      assert stream[0] == before[0] && stream[1..] == before[1..] + [LF] + rest;
      if before[0] == CR {
        ScanIsLfSplit(text, before[1..], rest);
      } else {
        assert text + [before[0] as char] + WithoutCR(before[1..]) == text + WithoutCR(before);
        if |text| + 1 < LINE_LIMIT {
          ScanIsLfSplit(text + [before[0] as char], before[1..], rest);
        }
      }
    }
  }

  // With no LF yet the line stays open until its 256th character.
  lemma {:induction false} ScanWithoutLf(text: string, stream: Bytes)
    requires LF !in stream && |text| < LINE_LIMIT
    ensures |text + WithoutCR(stream)| < LINE_LIMIT ==> ScanLine(text, stream) == More(text + WithoutCR(stream))
    ensures |text + WithoutCR(stream)| >= LINE_LIMIT ==> ScanLine(text, stream).TooLong?
    decreases |stream|
  {
    if stream == [] {
      assert text + "" == text;
    } else if stream[0] == CR {
      ScanWithoutLf(text, stream[1..]);
    } else {
      assert text + [stream[0] as char] + WithoutCR(stream[1..]) == text + WithoutCR(stream);
      if |text| + 1 < LINE_LIMIT {
        ScanWithoutLf(text + [stream[0] as char], stream[1..]);
      }
    }
  }

  // Cutting the stream anywhere makes no difference.
  lemma {:induction false} ScanSegments(text: string, a: Bytes, b: Bytes)
    ensures ScanLine(text, a + b)
            == match ScanLine(text, a)
               case More(held) => ScanLine(held, b)
               case Line(line, rest) => Line(line, rest + b)
               case TooLong(rest) => TooLong(rest + b)
    decreases |a|
  {
    if a == [] {
      assert a + b == b;
    } else {
      assert (a + b)[1..] == a[1..] + b;
      if a[0] == CR {
        ScanSegments(text, a[1..], b);
      } else if a[0] != LF && |text| + 1 < LINE_LIMIT {
        ScanSegments(text + [a[0] as char], a[1..], b);
      }
    }
  }

  // All lines of a stream, byte by byte: the finished ones, the open one, and whether a line
  // has overrun.
  datatype Lines = Lines(done: seq<string>, text: string, overrun: bool)

  function FeedLine(l: Lines, b: byte): Lines {
    if l.overrun || b == CR then l
    else if b == LF then Lines(l.done + [l.text], "", false)
    else if |l.text| + 1 >= LINE_LIMIT then l.(overrun := true)
    else l.(text := l.text + [b as char])
  }

  function LinesOf(stream: Bytes): Lines {
    if stream == [] then Lines([], "", false)
    else FeedLine(LinesOf(stream[..|stream| - 1]), stream[|stream| - 1])
  }

  lemma LineStep(received: Bytes, value: byte)
    ensures LinesOf(received + [value]) == FeedLine(LinesOf(received), value)
  {
    assert (received + [value])[..|received|] == received;
  }

  // Both views agree: after `held`, whose open line is `text`, scanning `stream` finishes the
  // line that `LinesOf` finishes, at the same byte.
  lemma {:induction false} LinesAreScans(held: Bytes, stream: Bytes)
    requires !LinesOf(held).overrun
    ensures var l := LinesOf(held);
            match ScanLine(l.text, stream)
            case More(text) => LinesOf(held + stream) == Lines(l.done, text, false)
            case Line(text, rest) =>
              |rest| <= |stream| && LinesOf(held + stream[..|stream| - |rest|]) == Lines(l.done + [text], "", false)
            case TooLong(rest) =>
              |rest| <= |stream| && LinesOf(held + stream[..|stream| - |rest|]).overrun
    decreases |stream|
  {
    hide LinesOf;
    var l := LinesOf(held);
    if stream == [] {
      assert held + stream == held;
    } else {
      var next := held + [stream[0]];
      LineStep(held, stream[0]);
      assert next + stream[1..] == held + stream;
      if stream[0] == CR || (stream[0] != LF && |l.text| + 1 < LINE_LIMIT) {
        LinesAreScans(next, stream[1..]);
        var n := match ScanLine(l.text, stream) case More(_) => 0 case Line(_, r) => |r| case TooLong(r) => |r|;
        if n <= |stream| - 1 {
          assert next + stream[1..][..|stream| - 1 - n] == held + stream[..|stream| - n];
        }
      } else {
        assert held + stream[..1] == next;
      }
    }
  }

  // ---- The host's reader ----------------------------------------------------------------------

  function TrimLeft(s: string): string {
    if s != "" && IsSeparator(White, s[0]) then TrimLeft(s[1..]) else s
  }

  function TrimRight(s: string): string {
    if s != "" && IsSeparator(White, s[|s| - 1]) then TrimRight(s[..|s| - 1]) else s
  }

  function TrimSpace(s: string): string {
    TrimRight(TrimLeft(s))
  }

  // None is an error; the bytes past the deciding one stay unread.
  method ReadControlLine(conn: Conn) returns (line: Option<string>)
    modifies conn`inbound
    ensures match ScanLine("", old(conn.inbound))
            case More(_) => line == None && conn.inbound == []
            case Line(text, rest) => line == Some(TrimSpace(text)) && conn.inbound == rest
            case TooLong(rest) => line == None && conn.inbound == rest
  {
    var text: string := "";
    while |text| < LINE_LIMIT
      invariant |text| <= LINE_LIMIT
      invariant |text| < LINE_LIMIT ==> ScanLine("", old(conn.inbound)) == ScanLine(text, conn.inbound)
      invariant |text| == LINE_LIMIT ==> ScanLine("", old(conn.inbound)) == TooLong(conn.inbound)
      decreases |conn.inbound|
    {
      ghost var stream := conn.inbound;
      var one, ok := conn.Read(1);
      if !ok {
        return None;
      }
      assert one[0] == stream[0] && conn.inbound == stream[1..];
      if one[0] == LF {
        return Some(TrimSpace(text));
      }
      if one[0] != CR {
        text := text + [one[0] as char];
      }
    }
    return None;
  }
}
