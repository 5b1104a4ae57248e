/**
 The reader of server-sent events: it takes the text in chunks, cuts it at blank lines, and writes
 out the payload of every `data:` line.  However the text is cut into chunks, what is written is
 what the lines of the whole text hold.
 */
module SseProxy {
  import opened Text

  const BLANK_LINE: string := "\n\n"
  const DATA_PREFIX: string := "data:"

  /** What the byte stream yields next. */
  datatype Chunk = Utf8(text: string) | NotUtf8 | StreamError

  /** The text that is taken in: chunks that are not UTF-8 are skipped, an error ends the stream. */
  function TextOf(chunks: seq<Chunk>): string {
    if chunks == [] || chunks[0].StreamError? then ""
    else (if chunks[0].Utf8? then chunks[0].text else "") + TextOf(chunks[1..])
  }

  /** The payload of a line, if it is a `data:` line that is not blank. */
  function PayloadOf(line: string): seq<string> {
    if OccursAt(line, DATA_PREFIX, 0) && Trim(line[5..]) != [] then [Trim(line[5..])] else []
  }

  /** The payloads of a whole text, cut at every line feed. */
  function Payloads(s: string): seq<string> {
    var n := LineEnd(s);
    PayloadOf(s[..n]) + if n == |s| then [] else Payloads(s[n + 1..])
  }

  // ----- The program -----

  function PayloadsOfLines(lines: seq<string>): seq<string> {
    if lines == [] then [] else PayloadOf(lines[0]) + PayloadsOfLines(lines[1..])
  }

  /** The loop over the lines of an event block, or of what is left at the end. */
  method WriteBlock(block: string, written: seq<string>) returns (out: seq<string>)
    ensures out == written + Payloads(block)
  {
    hide Trim, Payloads, Lines;
    out := written;
    var lines := Lines(block);
    LinesHoldPayloads(block);
    for k := 0 to |lines|
      invariant out + PayloadsOfLines(lines[k..]) == written + Payloads(block)
    {
      assert lines[k..][1..] == lines[k + 1..];
      if OccursAt(lines[k], DATA_PREFIX, 0) {
        var data := Trim(lines[k][5..]);
        if data != [] {
          ghost var before := out;
          out := out + [data];
          assert before + ([data] + PayloadsOfLines(lines[k + 1..])) == out + PayloadsOfLines(lines[k + 1..]);
        }
      }
    }
  }

  /** The loop that takes complete events off the front of the buffer. */
  method TakeEvents(buffer: string, written: seq<string>) returns (rest: string, out: seq<string>)
    ensures Find(rest, BLANK_LINE).None?
    ensures forall later: string :: out + Payloads(rest + later) == written + Payloads(buffer + later)
  {
    hide Payloads, FindFrom;
    rest, out := buffer, written;
    while Find(rest, BLANK_LINE).Some?
      invariant forall later: string :: out + Payloads(rest + later) == written + Payloads(buffer + later)
      decreases |rest|
    {
      var pos := Find(rest, BLANK_LINE).value;
      var block, tail := rest[..pos], rest[pos + 2..];
      ghost var before, was := out, rest;
      out := WriteBlock(block, out);
      rest := tail;
      forall later: string ensures out + Payloads(rest + later) == before + Payloads(was + later) {
        BlockThenRest(was, pos, later);
        assert before + (Payloads(block) + Payloads(tail + later)) == out + Payloads(tail + later);
      }
    }
  }

  /** The whole reader. */
  method HandleSseResponse(chunks: seq<Chunk>) returns (out: seq<string>)
    ensures out == Payloads(TextOf(chunks))
  {
    hide Payloads, Find;
    var buffer := "";
    out := [];
    var k := 0;
    assert "" + TextOf(chunks[0..]) == TextOf(chunks);
    while k < |chunks| && !chunks[k].StreamError?
      invariant k <= |chunks|
      invariant out + Payloads(buffer + TextOf(chunks[k..])) == Payloads(TextOf(chunks))
    {
      ghost var later := TextOf(chunks[k + 1..]);
      assert chunks[k..][1..] == chunks[k + 1..];
      match chunks[k] {
        case NotUtf8 =>
          assert TextOf(chunks[k..]) == later;
        case Utf8(text) =>
          assert buffer + (text + later) == (buffer + text) + later;
          buffer := buffer + text;
          buffer, out := TakeEvents(buffer, out);
      }
      k := k + 1;
    }
    assert TextOf(chunks[k..]) == "" && buffer + "" == buffer;
    if buffer != [] {
      out := WriteBlock(buffer, out);
    } else {
      NothingHeld();
    }
  }

  // ----- Why it is right -----

  lemma NothingHeld()
    ensures Payloads("") == []
  {
  }

  /** The payloads on both sides of a line feed. */
  lemma {:induction false} PayloadsAppend(a: string, b: string)
    ensures Payloads(a + "\n" + b) == Payloads(a) + Payloads(b)
    decreases |a|
  {
    hide PayloadOf;
    var n, s := LineEnd(a), a + "\n" + b;
    assert s == a + ("\n" + b);
    LineEndAppend(a, "\n" + b);
    assert s[..n] == a[..n];
    if n < |a| {
      assert s[n + 1..] == a[n + 1..] + "\n" + b;
      PayloadsAppend(a[n + 1..], b);
    } else {
      assert s[n + 1..] == b && a[..n] == a;
      assert Payloads(a) == PayloadOf(a);
    }
  }

  lemma BlockThenRest(buffer: string, pos: nat, later: string)
    requires OccursAt(buffer, BLANK_LINE, pos)
    ensures Payloads(buffer + later) == Payloads(buffer[..pos]) + Payloads(buffer[pos + 2..] + later)
  {
    hide Payloads;
    var block, tail := buffer[..pos], buffer[pos + 2..] + later;
    assert buffer[pos] == buffer[pos..pos + 2][0] == '\n' && buffer[pos + 1] == buffer[pos..pos + 2][1] == '\n';
    assert buffer + later == block + "\n" + ("" + "\n" + tail);
    PayloadsAppend(block, "" + "\n" + tail);
    PayloadsAppend("", tail);
    NothingHeld();
  }

  /** The carriage return that `lines` drops is one that `trim` would drop. */
  lemma CrIsTrimmed(line: string)
    ensures PayloadOf(StripCr(line)) == PayloadOf(line)
  {
    hide Trim;
    var bare := StripCr(line);
    if bare != line {
      assert line == bare + ['\r'];
      if |bare| >= 5 {
        assert line[5..] == bare[5..] + ['\r'] && line[0..5] == bare[0..5];
        TrimIgnoresLast(bare[5..], '\r');
      } else if |line| == 5 {
        assert line[0..5][4] == '\r';
      }
    }
  }

  lemma {:induction false} LinesHoldPayloads(s: string)
    ensures PayloadsOfLines(Lines(s)) == Payloads(s)
    decreases |s|
  {
    hide PayloadOf, StripCr;
    if s == [] {
      NothingHeld();
    } else {
      var n := LineEnd(s);
      if n < |s| {
        CrIsTrimmed(s[..n]);
        LinesHoldPayloads(s[n + 1..]);
      } else {
        assert s[..n] == s;
        assert Lines(s)[1..] == [];
      }
    }
  }

  // ----- Events as a server sends them -----

  /** An event: other fields, and then its data on one line. */
  datatype ServerEvent = ServerEvent(fields: seq<string>, data: string)

  predicate IsSent(e: ServerEvent) {
    && (forall k :: 0 <= k < |e.fields| ==> '\n' !in e.fields[k] && !OccursAt(e.fields[k], "data:", 0))
    && e.data != [] && '\n' !in e.data && Trim(e.data) == e.data
  }

  function FieldLines(fields: seq<string>): string {
    if fields == [] then "" else fields[0] + "\n" + FieldLines(fields[1..])
  }

  function EventText(e: ServerEvent): string {
    FieldLines(e.fields) + ("data: " + e.data + "\n" + ("" + "\n"))
  }

  function StreamText(events: seq<ServerEvent>): string {
    if events == [] then "" else EventText(events[0]) + StreamText(events[1..])
  }

  function DataOf(events: seq<ServerEvent>): seq<string> {
    if events == [] then [] else [events[0].data] + DataOf(events[1..])
  }

  /** Every stream of such events is written out as their data, one by one. */
  lemma {:induction false} StreamPayloads(events: seq<ServerEvent>)
    requires forall e :: e in events ==> IsSent(e)
    ensures Payloads(StreamText(events)) == DataOf(events)
  {
    hide Payloads, IsSent, EventText;
    if events == [] {
      NothingHeld();
    } else {
      assert events[0] in events;
      StreamPayloads(events[1..]);
      EventPayloads(events[0], StreamText(events[1..]));
    }
  }

  lemma EventPayloads(e: ServerEvent, rest: string)
    requires IsSent(e)
    ensures Payloads(EventText(e) + rest) == [e.data] + Payloads(rest)
  {
    hide Payloads, Trim, FieldLines;
    var line := "data: " + e.data;
    assert EventText(e) + rest == FieldLines(e.fields) + (line + "\n" + ("" + "\n" + rest));
    FieldsHoldNothing(e.fields, line + "\n" + ("" + "\n" + rest));
    PayloadsAppend(line, "" + "\n" + rest);
    PayloadsAppend("", rest);
    NothingHeld();
    DataLine(e.data);
  }

  lemma DataLine(data: string)
    requires data != [] && '\n' !in data && Trim(data) == data
    ensures Payloads("data: " + data) == [data]
  {
    hide Trim;
    var line := "data: " + data;
    NoLineEnd(line);
    assert line[..|line|] == line && line[0..5] == "data:" && line[5..] == [' '] + data;
    SpaceTrimmed(data);
  }

  lemma {:induction false} NoLineEnd(s: string)
    requires '\n' !in s
    ensures LineEnd(s) == |s|
  {
    if s != [] {
      NoLineEnd(s[1..]);
    }
  }

  lemma SpaceTrimmed(data: string)
    requires data != [] && Trim(data) == data
    ensures Trim([' '] + data) == data
  {
    hide IsWhite;
    TrimMeans(data);
    var s := [' '] + data;
    assert TrimEnd(s) == s && s[1..] == data && TrimEnd(data) == data;
    assert IsWhite(' ') by {
      BlankIsWhite();
    }
  }

  lemma BlankIsWhite()
    ensures IsWhite(' ')
  {
  }

  lemma {:induction false} FieldsHoldNothing(fields: seq<string>, rest: string)
    requires forall k :: 0 <= k < |fields| ==> '\n' !in fields[k] && !OccursAt(fields[k], "data:", 0)
    ensures Payloads(FieldLines(fields) + rest) == Payloads(rest)
  {
    hide Payloads, Trim;
    if fields == [] {
      assert FieldLines(fields) + rest == rest;
    } else {
      FieldsHoldNothing(fields[1..], rest);
      assert FieldLines(fields) + rest == fields[0] + "\n" + (FieldLines(fields[1..]) + rest);
      PayloadsAppend(fields[0], FieldLines(fields[1..]) + rest);
      OtherLine(fields[0]);
    }
  }

  lemma OtherLine(line: string)
    requires '\n' !in line && !OccursAt(line, "data:", 0)
    ensures Payloads(line) == []
  {
    NoLineEnd(line);
    assert line[..|line|] == line;
  }
}
