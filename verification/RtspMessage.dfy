/**
 Where an RTSP message ends on a connection: header lines up to a blank one, then as many bytes as
 the last readable Content-Length line says.
 */
module RtspMessage {
  import opened Bytes
  import opened Common
  import opened Text
  import opened TransportHeader

  const CR: byte := 13
  const LF: byte := 10
  const USIZE_MAX: nat := 0xFFFF_FFFF_FFFF_FFFF
  const CONTENT_LENGTH: string := "content-length:"

  // ----- The reader -----

  function CharOf(b: byte): char {
    NatOf(b) as char
  }

  function Chars(s: seq<byte>): (r: string)
    ensures |r| == |s|
  {
    if s == [] then "" else [CharOf(s[0])] + Chars(s[1..])
  }

  /** Where the first line feed stands, or the end. */
  function LineFeedAt(s: seq<byte>): (n: nat)
    ensures n <= |s| && (n < |s| ==> s[n] == LF)
  {
    if s == [] || s[0] == LF then 0 else 1 + LineFeedAt(s[1..])
  }

  predicate IsBlank(line: seq<byte>) {
    line == [CR, LF] || line == [LF]
  }

  /** The content length known after a line: a line that does not declare a number changes nothing. */
  function ContentLength(line: string, before: nat): nat {
    var lower := ToLower(line);
    if OccursAt(lower, CONTENT_LENGTH, 0) then
      var n := ParseNumber(Trim(lower[15..]), USIZE_MAX);
      if n.Some? then n.value else before
    else
      before
  }

  /** The length of the header, blank line included, and the content length it declares. */
  function ReadHeader(s: seq<byte>, contentLength: nat): (r: Option<(nat, nat)>)
    ensures r.Some? ==> 0 < r.value.0 <= |s|
    decreases |s|
  {
    var n := LineFeedAt(s);
    if n == |s| then None
    else
      var line := s[..n + 1];
      var declared := ContentLength(Chars(line), contentLength);
      if IsBlank(line) then Some((n + 1, declared))
      else
        var rest := ReadHeader(s[n + 1..], declared);
        if rest.None? then None else Some((n + 1 + rest.value.0, rest.value.1))
  }

  /** The length of the message at the front of a stream; `None` while it is not all there. */
  function MessageLength(s: seq<byte>): (r: Option<nat>)
    ensures r.Some? ==> 0 < r.value <= |s|
  {
    var header := ReadHeader(s, 0);
    if header.None? || header.value.0 + header.value.1 > |s| then None
    else Some(header.value.0 + header.value.1)
  }

  // ----- Messages with a correct Content-Length -----

  /** One line: a line feed at the end and nowhere else. */
  predicate IsLine(line: seq<byte>) {
    line != [] && LineFeedAt(line) == |line| - 1
  }

  predicate AreHeaderLines(lines: seq<seq<byte>>) {
    forall k :: 0 <= k < |lines| ==> IsLine(lines[k]) && !IsBlank(lines[k])
  }

  function Joined(lines: seq<seq<byte>>): seq<byte> {
    if lines == [] then [] else lines[0] + Joined(lines[1..])
  }

  /** The content length that the lines declare, the last one counting. */
  function Declared(lines: seq<seq<byte>>, before: nat): nat {
    if lines == [] then before else Declared(lines[1..], ContentLength(Chars(lines[0]), before))
  }

  lemma {:induction false} LineFeedBehind(line: seq<byte>, rest: seq<byte>)
    requires IsLine(line)
    ensures LineFeedAt(line + rest) == |line| - 1
  {
    if |line| > 1 {
      assert (line + rest)[1..] == line[1..] + rest;
      LineFeedBehind(line[1..], rest);
    }
  }

  lemma {:induction false} HeaderRead(lines: seq<seq<byte>>, blank: seq<byte>, tail: seq<byte>, before: nat)
    requires AreHeaderLines(lines) && IsBlank(blank)
    ensures ReadHeader(Joined(lines) + (blank + tail), before)
            == Some((|Joined(lines)| + |blank|, Declared(lines, before)))
    decreases |lines|
  {
    hide ReadHeader, ContentLength, Chars, LineFeedAt, IsLine, IsBlank;
    if lines == [] {
      assert Joined(lines) + (blank + tail) == blank + tail;
      BlankRead(blank, tail, before);
    } else {
      var line, rest := lines[0], Joined(lines[1..]) + (blank + tail);
      assert Joined(lines) + (blank + tail) == line + rest;
      LineRead(line, rest, before);
      HeaderRead(lines[1..], blank, tail, ContentLength(Chars(line), before));
    }
  }

  /** A header line is taken off the front. */
  lemma LineRead(line: seq<byte>, rest: seq<byte>, before: nat)
    requires IsLine(line) && !IsBlank(line)
    ensures var more := ReadHeader(rest, ContentLength(Chars(line), before));
            ReadHeader(line + rest, before)
            == if more.None? then None else Some((|line| + more.value.0, more.value.1))
  {
    hide ContentLength, Chars, LineFeedAt, IsBlank;
    LineFeedBehind(line, rest);
    assert (line + rest)[..|line|] == line && (line + rest)[|line|..] == rest;
  }

  lemma BlankRead(blank: seq<byte>, tail: seq<byte>, before: nat)
    requires IsBlank(blank)
    ensures ReadHeader(blank + tail, before) == Some((|blank|, before))
  {
    hide Chars, ContentLength;
    assert |blank| == 2 ==> blank[1..] == [LF];
    LineFeedBehind(blank, tail);
    assert (blank + tail)[..|blank|] == blank;
    BlankDeclaresNothing(blank, before);
  }

  lemma BlankDeclaresNothing(blank: seq<byte>, before: nat)
    requires IsBlank(blank)
    ensures ContentLength(Chars(blank), before) == before
  {
    hide CharOf, Trim, ParseNumber;
  }

  /** A message whose last declared content length is that of its body is read as it was written. */
  lemma MessageRead(lines: seq<seq<byte>>, blank: seq<byte>, body: seq<byte>, rest: seq<byte>)
    requires AreHeaderLines(lines) && IsBlank(blank) && Declared(lines, 0) == |body|
    ensures var message := Joined(lines) + (blank + body);
            MessageLength(message + rest) == Some(|message|)
  {
    hide ReadHeader, Declared, Joined, IsBlank, AreHeaderLines;
    assert Joined(lines) + (blank + body) + rest == Joined(lines) + (blank + (body + rest));
    HeaderRead(lines, blank, body + rest, 0);
  }

  // ----- The lines of a response -----

  function Ascii(s: string): (b: seq<byte>)
    ensures |b| == |s|
  {
    if s == [] then [] else [ByteOf(s[0] as int)] + Ascii(s[1..])
  }

  predicate IsAscii(s: string) {
    forall k :: 0 <= k < |s| ==> s[k] as int < 128
  }

  lemma {:induction false} CharsOfAscii(s: string)
    requires IsAscii(s)
    ensures Chars(Ascii(s)) == s
  {
    hide ByteOf, NatOf;
    if s != [] {
      NatOfByteOf(s[0] as int);
      CharsOfAscii(s[1..]);
    }
  }

  function LengthLine(n: nat): string {
    "Content-Length: " + (Decimal(n) + "\r\n")
  }

  /** The line that goes with a body declares its length, whatever was declared before. */
  lemma LengthLineRead(n: nat, before: nat)
    requires n <= USIZE_MAX
    ensures ContentLength("Content-Length: " + (Decimal(n) + "\r\n"), before) == n
  {
    hide Decimal, ToLower, Trim, ParseNumber;
    var tail := Decimal(n) + "\r\n";
    var lower := ToLower(LengthLine(n));
    LengthLineLower(n);
    assert lower == CONTENT_LENGTH + (" " + tail);
    assert lower[0..15] == CONTENT_LENGTH && lower[15..] == " " + tail;
    DecimalRoundTrip(n);
    DigitsPlain(Decimal(n));
    TrimLine(Decimal(n));
    NumberRoundTrip(n, USIZE_MAX);
  }

  lemma LengthLineLower(n: nat)
    ensures ToLower(LengthLine(n)) == CONTENT_LENGTH + (" " + (Decimal(n) + "\r\n"))
  {
    hide Decimal, ToLower;
    var tail := Decimal(n) + "\r\n";
    DecimalRoundTrip(n);
    assert "Content-Length: " == "C" + ("ontent-" + ("L" + "ength: "));
    assert LengthLine(n) == "C" + ("ontent-" + ("L" + ("ength: " + tail)));
    LowerAppend("C", "ontent-" + ("L" + ("ength: " + tail)));
    LowerAppend("ontent-", "L" + ("ength: " + tail));
    LowerAppend("L", "ength: " + tail);
    LowerLetters("ontent-");
    LowerLetters("ength: " + tail);
    LowerCapitals();
    assert CONTENT_LENGTH + (" " + tail) == "c" + ("ontent-" + ("l" + ("ength: " + tail)));
  }

  lemma LowerCapitals()
    ensures ToLower("C") == "c" && ToLower("L") == "l"
  {
    assert LowerChar('C') == 'c' && LowerChar('L') == 'l';
    assert ToLower("C") == "c" by { assert "C"[1..] == ""; }
    assert ToLower("L") == "l" by { assert "L"[1..] == ""; }
  }

  lemma TrimLine(s: string)
    requires IsPlain(s) && s != []
    ensures Trim(" " + (s + "\r\n")) == s
  {
    hide IsWhite;
    assert IsWhite(' ') && IsWhite('\r') && IsWhite('\n') by { White(); }
    var a := " " + s;
    assert " " + (s + "\r\n") == (a + ['\r']) + ['\n'];
    TrimIgnoresLast(a + ['\r'], '\n');
    TrimIgnoresLast(a, '\r');
    assert TrimEnd(a) == a && a[1..] == s && TrimStart(s) == s;
  }

  lemma White()
    ensures IsWhite(' ') && IsWhite('\r') && IsWhite('\n')
  {
  }

  /** A line that declares nothing. */
  predicate IsOtherLine(line: seq<byte>) {
    IsLine(line) && !IsBlank(line) && !OccursAt(ToLower(Chars(line)), CONTENT_LENGTH, 0)
  }

  lemma {:induction false} OthersDeclareNothing(lines: seq<seq<byte>>, before: nat)
    requires forall k :: 0 <= k < |lines| ==> IsOtherLine(lines[k])
    ensures AreHeaderLines(lines) && Declared(lines, before) == before
    decreases |lines|
  {
    hide Chars, ToLower, IsLine, IsBlank, OccursAt;
    if lines != [] {
      OthersDeclareNothing(lines[1..], before);
      forall k | 0 <= k < |lines| ensures IsLine(lines[k]) && !IsBlank(lines[k]) {
        assert IsOtherLine(lines[k]);
      }
      assert IsOtherLine(lines[0]);
    }
  }

  lemma {:induction false} DeclaredAppend(a: seq<seq<byte>>, b: seq<seq<byte>>, before: nat)
    ensures Declared(a + b, before) == Declared(b, Declared(a, before))
    decreases |a|
  {
    hide ContentLength, Chars;
    if a == [] {
      assert a + b == b;
    } else {
      assert (a + b)[1..] == a[1..] + b;
      DeclaredAppend(a[1..], b, ContentLength(Chars(a[0]), before));
    }
  }

  lemma {:induction false} LineFeedEnds(s: string)
    requires IsAscii(s) && forall k :: 0 <= k < |s| ==> s[k] != '\n'
    ensures IsLine(Ascii(s + "\n"))
  {
    hide ByteOf;
    var t := s + "\n";
    if s == [] {
      assert t[1..] == "";
      LineFeedByte('\n');
    } else {
      assert t[1..] == s[1..] + "\n";
      LineFeedEnds(s[1..]);
      LineFeedByte(s[0]);
      assert Ascii(t)[1..] == Ascii(t[1..]);
    }
  }

  lemma LineFeedByte(c: char)
    requires c as int < 128
    ensures ByteOf(c as int) == LF <==> c == '\n'
  {
    hide ByteOf, NatOf;
    NatOfByteOf(c as int);
    NatOfByteOf(10);
    TenIsLf();
  }

  lemma TenIsLf()
    ensures ByteOf(10) == LF && NatOf(LF) == 10
  {
  }

  /**
   A response as the server writes it: any lines that declare no length, and with a body the line
   that declares its length, wherever it stands among them.
   */
  lemma ResponseRead(front: seq<seq<byte>>, back: seq<seq<byte>>, body: seq<byte>, rest: seq<byte>)
    requires forall k :: 0 <= k < |front| ==> IsOtherLine(front[k])
    requires forall k :: 0 <= k < |back| ==> IsOtherLine(back[k])
    requires |body| <= USIZE_MAX
    ensures var lines := front + [Ascii(LengthLine(|body|))] + back;
            var message := Joined(lines) + ([CR, LF] + body);
            MessageLength(message + rest) == Some(|message|)
    ensures var message := Joined(front) + [CR, LF]; MessageLength(message + rest) == Some(|message|)
  {
    hide IsOtherLine, Declared, Joined, MessageLength, LengthLine, Ascii;
    var line := Ascii(LengthLine(|body|));
    OthersDeclareNothing(front, 0);
    OthersDeclareNothing(back, |body|);
    LengthLineIs(|body|);
    DeclaredAppend(front + [line], back, 0);
    DeclaredAppend(front, [line], 0);
    MessageRead(front + [line] + back, [CR, LF], body, rest);
    MessageRead(front, [CR, LF], [], rest);
    assert [CR, LF] + [] == [CR, LF];
  }

  lemma LengthLineIs(n: nat)
    requires n <= USIZE_MAX
    ensures IsLine(Ascii(LengthLine(n))) && !IsBlank(Ascii(LengthLine(n)))
    ensures Declared([Ascii(LengthLine(n))], 0) == n
  {
    hide Ascii, Decimal, ContentLength, IsLine;
    var s := "Content-Length: " + (Decimal(n) + "\r");
    DecimalRoundTrip(n);
    assert LengthLine(n) == s + "\n";
    LineFeedEnds(s);
    CharsOfAscii(LengthLine(n));
    LengthLineRead(n, 0);
    var line := Ascii(LengthLine(n));
    assert [line][1..] == [];
  }
}
