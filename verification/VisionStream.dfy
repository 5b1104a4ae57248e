/**
 The streaming loop of the fast vision call: chunks are gathered into lines, each line is an event,
 and the call returns as soon as the text so far holds a JSON answer.  That is the answer the
 complete text holds, unless a fenced block with other content comes later.
 */
module VisionStream {
  import opened Common
  import opened Text
  import opened JsonScan

  datatype Chunk = Data(text: string) | Broken(message: string)

  /** What a line means, once parsed. */
  datatype Event =
    | Ignored
    | Failure(message: string)
    | Delta(thinking: bool, content: string, done: bool)

  /** What has been gathered. */
  datatype Progress = Progress(full: string, thinkingTokens: nat)

  datatype Verdict = Running(progress: Progress, lines: nat) | Finished(result: Result<string, string>)

  const STUCK: string := "model stuck in thinking phase, no content produced"

  /** The parser of a line, and whether the time for thinking is up when line `n` is read. */
  datatype Environment = Environment(parse: string -> Event, late: nat -> bool)

  function Gather(p: Progress, e: Event): Progress
    requires e.Delta?
  {
    Progress(p.full + e.content, if e.thinking then p.thinkingTokens + 1 else p.thinkingTokens)
  }

  function AfterEvent(env: Environment, p: Progress, n: nat, e: Event): Verdict {
    match e
    case Ignored => Running(p, n + 1)
    case Failure(message) => Finished(Err(message))
    case Delta(thinking, content, done) =>
      var q := Gather(p, e);
      if q.full == [] && q.thinkingTokens > 500 && env.late(n) then Finished(Err(STUCK))
      else if q.full != [] && Extract(q.full).Some? then Finished(Ok(q.full))
      else if done then Finished(Ok(q.full))
      else Running(q, n + 1)
  }

  function AfterLine(env: Environment, p: Progress, n: nat, line: string): Verdict {
    if Trim(line) == [] then Running(p, n + 1) else AfterEvent(env, p, n, env.parse(Trim(line)))
  }

  function AfterLines(env: Environment, p: Progress, n: nat, lines: seq<string>): Verdict
    decreases |lines|
  {
    if lines == [] then Running(p, n)
    else
      var v := AfterLine(env, p, n, lines[0]);
      if v.Finished? then v else AfterLines(env, v.progress, v.lines, lines[1..])
  }

  /** The lines of a text that end in a line feed; the rest of the text is never looked at. */
  function CompleteLines(s: string): seq<string> {
    var n := LineEnd(s);
    if n == |s| then [] else [s[..n]] + CompleteLines(s[n + 1..])
  }

  /** The text up to the end of the stream or the first error. */
  function TextOf(chunks: seq<Chunk>): string {
    if chunks == [] || chunks[0].Broken? then "" else chunks[0].text + TextOf(chunks[1..])
  }

  function EndOf(chunks: seq<Chunk>): Option<string> {
    if chunks == [] then None else if chunks[0].Broken? then Some(chunks[0].message) else EndOf(chunks[1..])
  }

  /** The result when the lines have been read and no line decided it. */
  function Conclude(v: Verdict, broken: Option<string>): Result<string, string> {
    if v.Finished? then v.result
    else if broken.Some? then Err(broken.value)
    else Ok(v.progress.full)
  }

  // ----- The program -----

  /** One round of the inner loop: a line is taken off the buffer and acted on. */
  method TakeLine(env: Environment, full: string, thinkingTokens: nat, n: nat, line: string)
    returns (full': string, thinkingTokens': nat, result: Option<Result<string, string>>)
    ensures AfterLine(env, Progress(full, thinkingTokens), n, line)
            == if result.Some? then Finished(result.value) else Running(Progress(full', thinkingTokens'), n + 1)
  {
    hide Trim, Extract;
    full', thinkingTokens', result := full, thinkingTokens, None;
    if Trim(line) == [] {
      return;
    }
    match env.parse(Trim(line)) {
      case Ignored =>
      case Failure(message) =>
        result := Some(Err(message));
      case Delta(thinking, content, done) =>
        if thinking {
          thinkingTokens' := thinkingTokens' + 1;
        }
        full' := full' + content;
        if full' == [] && thinkingTokens' > 500 && env.late(n) {
          result := Some(Err(STUCK));
          return;
        }
        if full' != [] {
          var found := ExtractJson(full');
          if found.Some? {
            result := Some(Ok(full'));
            return;
          }
        }
        if done {
          result := Some(Ok(full'));
        }
    }
  }

  method CallOllamaFast(env: Environment, chunks: seq<Chunk>) returns (r: Result<string, string>)
    ensures r == Conclude(AfterLines(env, Progress("", 0), 0, CompleteLines(TextOf(chunks))), EndOf(chunks))
  {
    hide AfterLine, AfterLines, CompleteLines, LineEnd;
    var full, thinkingTokens, n := "", 0, 0;
    var buf := "";
    var k := 0;
    ghost var whole := AfterLines(env, Progress("", 0), 0, CompleteLines(TextOf(chunks)));
    assert "" + TextOf(chunks[0..]) == TextOf(chunks) && chunks[0..] == chunks;
    while k < |chunks|
      invariant k <= |chunks|
      invariant LineEnd(buf) == |buf|
      invariant EndOf(chunks[k..]) == EndOf(chunks)
      invariant AfterLines(env, Progress(full, thinkingTokens), n, CompleteLines(buf + TextOf(chunks[k..]))) == whole
    {
      assert chunks[k..][1..] == chunks[k + 1..];
      if chunks[k].Broken? {
        assert buf + "" == buf;
        NoneComplete(env, Progress(full, thinkingTokens), n, buf);
        return Err(chunks[k].message);
      }
      ghost var later := TextOf(chunks[k + 1..]);
      assert buf + (chunks[k].text + later) == (buf + chunks[k].text) + later;
      buf := buf + chunks[k].text;
      while LineEnd(buf) < |buf|
        invariant AfterLines(env, Progress(full, thinkingTokens), n, CompleteLines(buf + later)) == whole
        decreases |buf|
      {
        var newline := LineEnd(buf);
        FirstLine(env, Progress(full, thinkingTokens), n, buf, later);
        var line := buf[..newline];
        buf := buf[newline + 1..];
        var result;
        full, thinkingTokens, result := TakeLine(env, full, thinkingTokens, n, line);
        if result.Some? {
          return result.value;
        }
        n := n + 1;
      }
      k := k + 1;
    }
    assert buf + "" == buf && chunks[k..] == [];
    NoneComplete(env, Progress(full, thinkingTokens), n, buf);
    return Ok(full);
  }

  lemma NoneComplete(env: Environment, p: Progress, n: nat, buf: string)
    requires LineEnd(buf) == |buf|
    ensures AfterLines(env, p, n, CompleteLines(buf)) == Running(p, n)
  {
  }

  lemma FirstLine(env: Environment, p: Progress, n: nat, buf: string, later: string)
    requires LineEnd(buf) < |buf|
    ensures var v := AfterLine(env, p, n, buf[..LineEnd(buf)]);
            AfterLines(env, p, n, CompleteLines(buf + later))
            == if v.Finished? then v
               else AfterLines(env, v.progress, v.lines, CompleteLines(buf[LineEnd(buf) + 1..] + later))
  {
    hide AfterLine;
    var at := LineEnd(buf);
    LineEndAppend(buf, later);
    assert (buf + later)[..at] == buf[..at];
    assert (buf + later)[at + 1..] == buf[at + 1..] + later;
    var lines := CompleteLines(buf + later);
    assert lines[1..] == CompleteLines(buf[at + 1..] + later);
  }

  // ----- What a stream leads to -----

  lemma {:induction false} AfterLinesAppend(env: Environment, p: Progress, n: nat, a: seq<string>, b: seq<string>)
    ensures var v := AfterLines(env, p, n, a);
            AfterLines(env, p, n, a + b) == if v.Finished? then v else AfterLines(env, v.progress, v.lines, b)
    decreases |a|
  {
    hide AfterLine;
    if a == [] {
      assert a + b == b;
    } else {
      assert (a + b)[0] == a[0] && (a + b)[1..] == a[1..] + b;
      var v := AfterLine(env, p, n, a[0]);
      if v.Running? {
        AfterLinesAppend(env, v.progress, v.lines, a[1..], b);
      }
    }
  }

  /** As long as the call goes on, all content is in, and it holds no JSON yet. */
  lemma {:induction false} RunningMeans(env: Environment, p: Progress, n: nat, lines: seq<string>)
    requires AfterLines(env, p, n, lines).Running? && (p.full == [] || Extract(p.full).None?)
    ensures var v := AfterLines(env, p, n, lines);
            && v.progress.full == p.full + Contents(env, lines)
            && (v.progress.full == [] || Extract(v.progress.full).None?)
            && v.progress.thinkingTokens == p.thinkingTokens + Thinking(env, lines) && v.lines == n + |lines|
    decreases |lines|
  {
    hide Trim, Extract, AfterLine;
    if lines == [] {
      assert p.full + "" == p.full;
    } else {
      var v := AfterLine(env, p, n, lines[0]);
      RunningLine(env, p, n, lines);
      RunningMeans(env, v.progress, v.lines, lines[1..]);
    }
  }

  lemma RunningLine(env: Environment, p: Progress, n: nat, lines: seq<string>)
    requires lines != [] && AfterLine(env, p, n, lines[0]).Running? && (p.full == [] || Extract(p.full).None?)
    ensures var v := AfterLine(env, p, n, lines[0]);
            && v.progress.full + Contents(env, lines[1..]) == p.full + Contents(env, lines)
            && (v.progress.full == [] || Extract(v.progress.full).None?)
            && v.progress.thinkingTokens + Thinking(env, lines[1..]) == p.thinkingTokens + Thinking(env, lines)
            && v.lines == n + 1
  {
    hide Trim, Extract;
    if Trim(lines[0]) != [] {
      var e := env.parse(Trim(lines[0]));
      if e.Delta? {
        assert p.full + (e.content + Contents(env, lines[1..])) == (p.full + e.content) + Contents(env, lines[1..]);
      }
    }
  }

  /** How many lines are marked as thinking, up to the last line. */
  function Thinking(env: Environment, lines: seq<string>): nat {
    if lines == [] then 0
    else if Trim(lines[0]) == [] || !env.parse(Trim(lines[0])).Delta? then Thinking(env, lines[1..])
    else (if env.parse(Trim(lines[0])).thinking then 1 else 0) + Thinking(env, lines[1..])
  }

  /**
   The line that ends a call, behind lines that do not: a failure is reported; content in which JSON is found,
   or the last line, answers with all content so far; a call without any content is given up when more
   than 500 lines were thinking and the time for that is over; and nothing else ends it.
   */
  lemma LineDecides(env: Environment, lines: seq<string>, line: string)
    requires AfterLines(env, Progress("", 0), 0, lines).Running? && Trim(line) != []
    ensures var before, e := Contents(env, lines), env.parse(Trim(line));
            var v := AfterLines(env, Progress("", 0), 0, lines + [line]);
            && (e.Ignored? ==> v.Running?)
            && (e.Failure? ==> v == Finished(Err(e.message)))
            && (e.Delta? ==>
                  var full := before + e.content;
                  var stuck := full == [] && Thinking(env, lines) + (if e.thinking then 1 else 0) > 500
                               && env.late(|lines|);
                  && (stuck ==> v == Finished(Err("model stuck in thinking phase, no content produced")))
                  && (!stuck && (e.done || (full != [] && Extract(full).Some?)) ==> v == Finished(Ok(full)))
                  && (!stuck && !e.done && (full == [] || Extract(full).None?) ==> v.Running?))
  {
    hide Trim, Extract, AfterLines, Contents, Thinking;
    var p := AfterLines(env, Progress("", 0), 0, lines);
    AfterLinesAppend(env, Progress("", 0), 0, lines, [line]);
    RunningMeans(env, Progress("", 0), 0, lines);
    assert "" + Contents(env, lines) == Contents(env, lines);
    OneLine(env, p.progress, p.lines, line);
  }

  lemma OneLine(env: Environment, p: Progress, n: nat, line: string)
    ensures AfterLines(env, p, n, [line]) == AfterLine(env, p, n, line)
  {
    hide Trim, Extract;
    assert [line][1..] == [];
  }

  // ----- When leaving early is sound -----

  /** The content of all lines up to the one that says it is the last, or that reports a failure. */
  function Contents(env: Environment, lines: seq<string>): string {
    if lines == [] then ""
    else if Trim(lines[0]) == [] then Contents(env, lines[1..])
    else
      match env.parse(Trim(lines[0]))
      case Ignored => Contents(env, lines[1..])
      case Failure(_) => ""
      case Delta(_, content, done) => content + if done then "" else Contents(env, lines[1..])
  }

  /** An answer is the complete text, or a part of it in which the JSON was already found. */
  lemma {:induction false} AnswerIsPrefix(env: Environment, p: Progress, n: nat, lines: seq<string>, text: string)
    requires Conclude(AfterLines(env, p, n, lines), None) == Ok(text)
    ensures text <= p.full + Contents(env, lines)
    ensures text == p.full + Contents(env, lines) || Extract(text).Some?
    decreases |lines|
  {
    hide Trim, Extract;
    if lines == [] {
      assert p.full + "" == p.full;
    } else if Trim(lines[0]) == [] || env.parse(Trim(lines[0])).Ignored? {
      AnswerIsPrefix(env, p, n + 1, lines[1..], text);
    } else {
      var e := env.parse(Trim(lines[0]));
      var q, rest := Gather(p, e), if e.done then "" else Contents(env, lines[1..]);
      assert p.full + (e.content + rest) == q.full + rest;
      if AfterEvent(env, p, n, e).Running? {
        AnswerIsPrefix(env, q, n + 1, lines[1..], text);
      } else {
        assert text == q.full;
        assert e.done ==> q.full + rest == q.full;
      }
    }
  }

  /** The early answer holds the JSON of the complete text exactly when no other fenced block came later. */
  lemma EarlyExitSound(env: Environment, lines: seq<string>, text: string)
    requires Conclude(AfterLines(env, Progress("", 0), 0, lines), None) == Ok(text)
    ensures var all := Contents(env, lines);
            && text <= all
            && (Extract(text) == Extract(all) <==> Fenced(all) == None || Fenced(all) == Extract(text))
  {
    hide Fenced, ObjectIn, AfterLines, Contents;
    var all := Contents(env, lines);
    AnswerIsPrefix(env, Progress("", 0), 0, lines, text);
    assert "" + all == all;
    if text != all {
      assert all == text + all[|text|..];
      AnswerIsFinal(text, all[|text|..]);
    }
  }

  /** Without fences in the complete text there is no such block. */
  lemma FenceFreeExitSound(env: Environment, lines: seq<string>, text: string)
    requires Conclude(AfterLines(env, Progress("", 0), 0, lines), None) == Ok(text)
    requires FenceFree(Contents(env, lines))
    ensures Extract(text) == Extract(Contents(env, lines))
  {
    hide Extract, FenceFree, Fenced, AfterLines, Contents;
    EarlyExitSound(env, lines, text);
    NoFenceNoBlock(Contents(env, lines));
  }

  /** A stream on which leaving early gives other JSON: an empty object, then a fenced block. */
  lemma EarlyExitMisses(env: Environment, first: string, second: string)
    requires Trim(first) != [] && env.parse(Trim(first)) == Delta(false, "{}", false)
    requires Trim(second) != [] && env.parse(Trim(second)) == Delta(false, "```json1```", true)
    ensures AfterLines(env, Progress("", 0), 0, [first, second]) == Finished(Ok("{}"))
    ensures Extract("{}") == Some("{}") && Extract(Contents(env, [first, second])) == Some("1")
  {
    hide Extract, Trim;
    var lines := [first, second];
    assert lines[1..] == [second] && [second][1..] == [];
    EmptyObject();
    LateBlock();
    assert "" + "{}" == "{}" && "```json1```" + "" == "```json1```";
  }

  lemma EmptyObject()
    ensures Extract("{}") == Some("{}")
  {
    hide ScanFrom;
    assert FenceFree("{}");
    NoFenceNoBlock("{}");
    ObjectFound("", NoMember, "", 0);
    assert Print(Obj("", NoMember)) == "{}" && "{}" + "" == "{}";
  }

  lemma LateBlock()
    ensures Extract("{}" + "```json1```") == Some("1")
  {
    hide Extract;
    var open := "{}" + JSON_FENCE;
    assert open[2..9] == JSON_FENCE;
    FoundFirst(open, JSON_FENCE, 0, 2);
    var r := Find(open, JSON_FENCE).value;
    assert open[r..r + 7][0] == open[r] && JSON_FENCE[0] == '`';
    var block := "1" + FENCE;
    assert block[1..4] == FENCE;
    FoundFirst(block, FENCE, 0, 1);
    var q := Find(block, FENCE).value;
    assert block[q..q + 3][0] == block[q] && FENCE[0] == '`';
    JsonBlockExtracted("{}", "1", "");
    assert open + block + "" == "{}" + "```json1```";
    assert Trim("1") == "1";
  }

  // ----- The response -----

  type Number(==, !new, 0)

  /** The members of the extracted JSON that are looked at, where they have the right type. */
  datatype Fields = Fields(found: Option<bool>, x: Option<Number>, y: Option<Number>, description: Option<string>,
                           confidence: Option<Number>)

  datatype ClickTarget = ClickTarget(x: Number, y: Number, description: Option<string>, confidence: Option<Number>)

  datatype Response = Response(text: string, clickTarget: Option<ClickTarget>, found: bool)

  /** The JSON of a text, if there is any and it can be parsed. */
  function Structured(read: string -> Option<Fields>, text: string): Option<Fields> {
    var json := Extract(text);
    if json.None? then None else read(json.value)
  }

  /** `parse_response`: from the JSON if it can be read, else from the words of the text. */
  function ParseResponse(read: string -> Option<Fields>, text: string): Response {
    var fields := Structured(read, text);
    if fields.Some? then
      var f := fields.value;
      Response(text,
               if f.x.Some? && f.y.Some? then Some(ClickTarget(f.x.value, f.y.value, f.description, f.confidence))
               else None,
               if f.found.Some? then f.found.value else true)
    else
      var lower := ToLower(text);
      Response(text, None,
               !Contains(lower, "not found") && !Contains(lower, "no ") && !Contains(lower, "\"found\": false")
               && !Contains(lower, "found: false"))
  }

  /** A text with an object in prose, at brace level and without fences, is read by that object alone. */
  lemma ObjectDecidesResponse(read: string -> Option<Fields>, prefix: string, space: string, members: Members,
                              suffix: string)
    requires IsSpace(space) && WellFormedMembers(members) && Level(prefix)
    requires FenceFree(prefix + (Print(Obj(space, members)) + suffix))
    requires read(Print(Obj(space, members))).Some?
    ensures var text := prefix + (Print(Obj(space, members)) + suffix);
            var f, r := read(Print(Obj(space, members))).value, ParseResponse(read, text);
            && r.text == text
            && (r.found <==> f.found != Some(false))
            && (r.clickTarget.Some? <==> f.x.Some? && f.y.Some?)
            && (r.clickTarget.Some? ==>
                  r.clickTarget.value == ClickTarget(f.x.value, f.y.value, f.description, f.confidence))
  {
    hide Extract, IsSpace, WellFormedMembers, Level, FenceFree, Print;
    ObjectExtracted(prefix, space, members, suffix);
  }

  /** Without JSON that can be read, nothing is found exactly when one of four phrases stands in the text. */
  lemma WordsDecideResponse(read: string -> Option<Fields>, text: string)
    requires Extract(text).None? || read(Extract(text).value).None?
    ensures var r, lower := ParseResponse(read, text), ToLower(text);
            && r.text == text && r.clickTarget.None?
            && (r.found <==> Absent(lower, "not found") && Absent(lower, "no ")
                             && Absent(lower, "\"found\": false") && Absent(lower, "found: false"))
  {
    hide Extract, ToLower, Contains, Absent;
    var lower := ToLower(text);
    NotContained(lower, "not found");
    NotContained(lower, "no ");
    NotContained(lower, "\"found\": false");
    NotContained(lower, "found: false");
  }

  /**
   Where no other fenced block came later, leaving early changes nothing but the text of the
   response, as long as the JSON that was found can be read; if it cannot, the words of a shorter
   text decide.
   */
  lemma EarlyResponseSame(env: Environment, lines: seq<string>, text: string, read: string -> Option<Fields>)
    requires Conclude(AfterLines(env, Progress("", 0), 0, lines), None) == Ok(text)
    requires Fenced(Contents(env, lines)) == None || Fenced(Contents(env, lines)) == Extract(text)
    requires Extract(text).Some? ==> Structured(read, text).Some?
    ensures var all := Contents(env, lines);
            ParseResponse(read, text).(text := all) == ParseResponse(read, all)
  {
    hide Extract, Fenced, AfterLines, Contents, ToLower, Contains;
    EarlyExitSound(env, lines, text);
    AnswerIsPrefix(env, Progress("", 0), 0, lines, text);
    assert "" + Contents(env, lines) == Contents(env, lines);
  }
}
