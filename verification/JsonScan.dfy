/**
 Finding a JSON object in the text of a model: fenced code blocks first, then a scan that counts
 braces outside strings.  The scan is proved to cut out exactly an object of the JSON grammar
 (RFC 8259, sections 4 and 7), and of more text only a fenced block with other content changes an
 answer once given.
 */
module JsonScan {
  import opened Common
  import opened Text

  const FENCE: string := "```"
  const JSON_FENCE: string := "```json"

  // ----- The scan, as a machine -----

  datatype Scan =
    | Scanning(depth: int, start: Option<nat>, inString: bool, escape: bool)
    | Found(first: nat, end: nat)

  const START: Scan := Scanning(0, None, false, false)

  /** The states a scan can be in before the character at `at`. */
  predicate WellPlaced(st: Scan, at: nat) {
    match st
    case Found(first, end) => first < end <= at
    case Scanning(depth, start, inString, escape) =>
      && (start.Some? <==> depth > 0) && (start.Some? ==> start.value < at)
      && (inString ==> depth > 0) && (escape ==> inString)
  }

  function Step(st: Scan, at: nat, ch: char): (r: Scan)
    requires WellPlaced(st, at)
    ensures WellPlaced(r, at + 1)
  {
    if st.Found? then st
    else if st.escape then st.(escape := false)
    else if st.inString then
      if ch == '\\' then st.(escape := true)
      else if ch == '"' then st.(inString := false)
      else st
    else if ch == '"' && st.depth > 0 then st.(inString := true)
    else if ch == '{' then st.(depth := st.depth + 1, start := if st.depth == 0 then Some(at) else st.start)
    else if ch == '}' then
      if st.depth - 1 == 0 && st.start.Some? then Found(st.start.value, at + 1) else st.(depth := st.depth - 1)
    else st
  }

  /** The scan of `s`, whose first character stands at `at` in the text. */
  function ScanFrom(st: Scan, s: string, at: nat): (r: Scan)
    requires WellPlaced(st, at)
    ensures WellPlaced(r, at + |s|)
    decreases |s|
  {
    if s == [] then st else ScanFrom(Step(st, at, s[0]), s[1..], at + 1)
  }

  // ----- Extraction -----

  /** Either of the two branches for fenced blocks. */
  function Fenced(text: string): Option<string> {
    var json := FencedBy(text, JSON_FENCE);
    if json.Some? then json
    else
      var block := FencedBy(text, FENCE);
      if block.Some? && block.value != [] && block.value[0] == '{' then block else None
  }

  /** What stands between the first `opening` and the next fence, trimmed. */
  function FencedBy(text: string, opening: string): Option<string> {
    var start := Find(text, opening);
    if start.None? then None
    else
      var after := text[start.value + |opening|..];
      var end := Find(after, FENCE);
      if end.None? then None else Some(Trim(after[..end.value]))
  }

  function ObjectIn(text: string): Option<string> {
    var st := ScanFrom(START, text, 0);
    if st.Found? then Some(text[st.first..st.end]) else None
  }

  function Extract(text: string): Option<string> {
    var fenced := Fenced(text);
    if fenced.Some? then fenced else ObjectIn(text)
  }

  /** The scanning loop, with its four variables. */
  method FindObject(text: string) returns (r: Option<string>)
    ensures r == ObjectIn(text)
  {
    var depth := 0;
    var start: Option<nat> := None;
    var inString := false;
    var escape := false;
    var i := 0;
    while i < |text|
      invariant i <= |text|
      invariant WellPlaced(Scanning(depth, start, inString, escape), i)
      invariant ScanFrom(START, text, 0) == ScanFrom(Scanning(depth, start, inString, escape), text[i..], i)
    {
      var ch := text[i];
      assert text[i..][0] == ch && text[i..][1..] == text[i + 1..];
      if escape {
        escape := false;
      } else if inString {
        if ch == '\\' {
          escape := true;
        } else if ch == '"' {
          inString := false;
        }
      } else if ch == '"' && depth > 0 {
        inString := true;
      } else if ch == '{' {
        if depth == 0 {
          start := Some(i);
        }
        depth := depth + 1;
      } else if ch == '}' {
        depth := depth - 1;
        if depth == 0 && start.Some? {
          FoundStays(start.value, i + 1, text[i + 1..], i + 1);
          return Some(text[start.value..i + 1]);
        }
      }
      i := i + 1;
    }
    return None;
  }

  method ExtractJson(text: string) returns (r: Option<string>)
    ensures r == Extract(text)
  {
    hide ObjectIn, FindFrom, Trim;
    var start := Find(text, JSON_FENCE);
    if start.Some? {
      var after := text[start.value + 7..];
      var end := Find(after, FENCE);
      if end.Some? {
        return Some(Trim(after[..end.value]));
      }
    }
    start := Find(text, FENCE);
    if start.Some? {
      var after := text[start.value + 3..];
      var end := Find(after, FENCE);
      if end.Some? {
        var block := Trim(after[..end.value]);
        if block != [] && block[0] == '{' {
          return Some(block);
        }
      }
    }
    r := FindObject(text);
  }

  // ----- When more text changes an answer -----

  lemma {:induction false} FoundStays(first: nat, end: nat, s: string, at: nat)
    requires first < end <= at
    ensures ScanFrom(Found(first, end), s, at) == Found(first, end)
    decreases |s|
  {
    if s != [] {
      FoundStays(first, end, s[1..], at + 1);
    }
  }

  lemma {:induction false} ScanAppend(st: Scan, a: string, b: string, at: nat)
    requires WellPlaced(st, at)
    ensures ScanFrom(st, a + b, at) == ScanFrom(ScanFrom(st, a, at), b, at + |a|)
    decreases |a|
  {
    hide Step, WellPlaced;
    if a == [] {
      assert a + b == b;
    } else {
      assert (a + b)[1..] == a[1..] + b && (a + b)[0] == a[0];
      ScanAppend(Step(st, at, a[0]), a[1..], b, at + 1);
    }
  }

  /** An object once found is found in every longer text. */
  lemma ObjectStays(text: string, more: string)
    requires ObjectIn(text).Some?
    ensures ObjectIn(text + more) == ObjectIn(text)
  {
    var st := ScanFrom(START, text, 0);
    ScanAppend(START, text, more, 0);
    FoundStays(st.first, st.end, more, |text|);
    assert (text + more)[st.first..st.end] == text[st.first..st.end];
  }

  predicate FenceFree(text: string) {
    Find(text, FENCE).None?
  }

  lemma NoFenceNoBlock(text: string)
    requires FenceFree(text)
    ensures Fenced(text) == None
  {
    hide FindFrom;
    var start := Find(text, JSON_FENCE);
    if start.Some? {
      var k := start.value;
      assert text[k..k + 7][..3] == text[k..k + 3];
      assert JSON_FENCE[..3] == FENCE;
      FoundFirst(text, FENCE, 0, k);
    }
  }

  /** An answer survives more text exactly when no fenced block turns up, or one with the same content. */
  lemma AnswerIsFinal(text: string, more: string)
    requires Extract(text).Some?
    ensures Extract(text + more) == Extract(text) <==>
            Fenced(text + more) == None || Fenced(text + more) == Extract(text)
  {
    hide ObjectIn, Fenced;
    if Fenced(text).Some? {
      BlockStays(text, more);
    } else {
      ObjectStays(text, more);
    }
  }

  /** A block once complete stays one when text is added, though perhaps not the one that counts. */
  lemma BlockStays(text: string, more: string)
    requires Fenced(text).Some?
    ensures Fenced(text + more).Some?
  {
    hide FindFrom, Trim;
    if FencedBy(text, JSON_FENCE).Some? {
      FencedStays(text, more, JSON_FENCE);
    } else {
      FencedStays(text, more, FENCE);
    }
  }

  lemma FencedStays(text: string, more: string, opening: string)
    requires FencedBy(text, opening).Some?
    ensures FencedBy(text + more, opening) == FencedBy(text, opening)
  {
    hide FindFrom, Trim;
    var start := Find(text, opening).value;
    FindExtends(text, more, opening, 0);
    var after := text[start + |opening|..];
    assert (text + more)[start + |opening|..] == after + more;
    FindExtends(after, more, FENCE, 0);
    var end := Find(after, FENCE).value;
    assert (after + more)[..end] == after[..end];
  }

  /** A complete block fenced as JSON is final whatever follows. */
  lemma JsonBlockIsFinal(text: string, more: string)
    requires FencedBy(text, JSON_FENCE).Some?
    ensures Extract(text + more) == Extract(text) == FencedBy(text, JSON_FENCE)
  {
    hide FencedBy, ObjectIn;
    FencedStays(text, more, JSON_FENCE);
  }

  /** A block fenced as JSON is extracted, trimmed, whatever stands around it. */
  lemma JsonBlockExtracted(prefix: string, block: string, suffix: string)
    requires Find(prefix + JSON_FENCE, JSON_FENCE) == Some(|prefix|)
    requires Find(block + FENCE, FENCE) == Some(|block|)
    ensures Extract(prefix + JSON_FENCE + (block + FENCE) + suffix) == Some(Trim(block))
  {
    hide FindFrom, Trim, ObjectIn;
    var open := prefix + JSON_FENCE;
    var text := open + (block + FENCE);
    FindExtends(open, block + FENCE, JSON_FENCE, 0);
    assert text[|prefix| + 7..] == block + FENCE;
    assert (block + FENCE)[..|block|] == block;
    JsonBlockIsFinal(text, suffix);
  }

  /**
   Of a text with no block fenced as JSON, the first fenced block is extracted, trimmed, exactly when it
   starts with an opening brace; else the braces of the whole text are scanned.
   */
  lemma PlainBlockExtracted(prefix: string, block: string, suffix: string)
    requires Find(prefix + "```", "```") == Some(|prefix|)
    requires Find(block + "```", "```") == Some(|block|)
    requires Find(prefix + "```" + (block + "```") + suffix, "```json").None?
    ensures var text := prefix + "```" + (block + "```") + suffix;
            Extract(text) == if Trim(block) != [] && Trim(block)[0] == '{' then Some(Trim(block)) else ObjectIn(text)
  {
    hide FindFrom, Trim, ObjectIn;
    var open := prefix + FENCE;
    var text := open + (block + FENCE);
    FindExtends(open, block + FENCE, FENCE, 0);
    assert text[|prefix| + 3..] == block + FENCE;
    assert (block + FENCE)[..|block|] == block;
    FencedStays(text, suffix, FENCE);
  }

  // ----- JSON texts -----

  /** A character of a string as written: itself, or behind a backslash. */
  datatype StrChar = Plain(c: char) | Escaped(c: char)

  /** JSON as written, white space and escapes included. */
  datatype Value =
    | Word(text: string)
    | Str(chars: seq<StrChar>)
    | Arr(space: string, items: Items)
    | Obj(space: string, members: Members)

  datatype Items = NoItem | Item(before: string, value: Value, after: string, tail: Items)

  datatype Members =
    | NoMember
    | Member(before: string, key: seq<StrChar>, beforeColon: string, afterColon: string, value: Value, after: string,
             tail: Members)

  predicate IsSpace(s: string) {
    forall k :: 0 <= k < |s| ==> s[k] in " \t\n\r"
  }

  /** `true`, `false`, `null`, or anything made of the characters of numbers. */
  predicate IsWord(s: string) {
    s in {"true", "false", "null"} || (s != [] && forall k :: 0 <= k < |s| ==> s[k] in "+-.0123456789eE")
  }

  predicate IsString(chars: seq<StrChar>) {
    forall k :: 0 <= k < |chars| ==>
      match chars[k]
      case Plain(c) => c >= ' ' && c != '"' && c != '\\'
      case Escaped(c) => c in "\"\\/bfnrtu"
  }

  predicate WellFormed(v: Value) {
    match v
    case Word(text) => IsWord(text)
    case Str(chars) => IsString(chars)
    case Arr(space, items) => IsSpace(space) && WellFormedItems(items)
    case Obj(space, members) => IsSpace(space) && WellFormedMembers(members)
  }

  predicate WellFormedItems(items: Items) {
    match items
    case NoItem => true
    case Item(before, value, after, tail) =>
      IsSpace(before) && WellFormed(value) && IsSpace(after) && WellFormedItems(tail)
  }

  predicate WellFormedMembers(members: Members) {
    match members
    case NoMember => true
    case Member(before, key, beforeColon, afterColon, value, after, tail) =>
      && IsSpace(before) && IsString(key) && IsSpace(beforeColon) && IsSpace(afterColon)
      && WellFormed(value) && IsSpace(after) && WellFormedMembers(tail)
  }

  /** `{"a": [null, -1, "}\""]}` is such a text, with an array, two words and a string. */
  lemma GrammarWitness()
    ensures var text := Item(" ", Str([Plain('}'), Escaped('"')]), "", NoItem);
            var items := Item("", Word("null"), "", Item(" ", Word("-1"), "", text));
            WellFormed(Obj("", Member("", [Plain('a')], "", " ", Arr("", items), "", NoMember)))
  {
    var text := Item(" ", Str([Plain('}'), Escaped('"')]), "", NoItem);
    assert IsWord("null") && IsWord("-1") && IsSpace(" ") && IsSpace("");
    assert WellFormedItems(text);
    assert WellFormedItems(Item(" ", Word("-1"), "", text));
  }

  function PrintChars(chars: seq<StrChar>): string {
    if chars == [] then ""
    else (if chars[0].Plain? then [chars[0].c] else ['\\', chars[0].c]) + PrintChars(chars[1..])
  }

  function PrintString(chars: seq<StrChar>): string {
    "\"" + (PrintChars(chars) + "\"")
  }

  function Print(v: Value): string {
    match v
    case Word(text) => text
    case Str(chars) => PrintString(chars)
    case Arr(space, items) => "[" + ((if items.NoItem? then space else PrintItems(items)) + "]")
    case Obj(space, members) => "{" + ((if members.NoMember? then space else PrintMembers(members)) + "}")
  }

  function PrintItems(items: Items): string {
    match items
    case NoItem => ""
    case Item(before, value, after, tail) =>
      before + (Print(value) + (after + if tail.NoItem? then "" else "," + PrintItems(tail)))
  }

  function PrintMembers(members: Members): string {
    match members
    case NoMember => ""
    case Member(before, key, beforeColon, afterColon, value, after, tail) =>
      before + (PrintString(key) + (beforeColon + (":" + (afterColon + (Print(value)
        + (after + if tail.NoMember? then "" else "," + PrintMembers(tail)))))))
  }

  // ----- A value inside an object leaves the scan as it was -----

  /** Inside an object, outside a string. */
  predicate Inside(st: Scan, at: nat) {
    WellPlaced(st, at) && st.Scanning? && st.depth > 0 && !st.inString
  }

  lemma KeepsBoth(st: Scan, a: string, b: string, at: nat)
    requires Inside(st, at)
    requires ScanFrom(st, a, at) == st && ScanFrom(st, b, at + |a|) == st
    ensures ScanFrom(st, a + b, at) == st
  {
    ScanAppend(st, a, b, at);
  }

  /** Text without quotes and braces. */
  lemma {:induction false} KeepsBare(st: Scan, s: string, at: nat)
    requires Inside(st, at)
    requires forall k :: 0 <= k < |s| ==> s[k] != '"' && s[k] != '{' && s[k] != '}'
    ensures ScanFrom(st, s, at) == st
    decreases |s|
  {
    if s != [] {
      KeepsBare(st, s[1..], at + 1);
    }
  }

  lemma KeepsWord(st: Scan, s: string, at: nat)
    requires Inside(st, at) && (IsWord(s) || IsSpace(s))
    ensures ScanFrom(st, s, at) == st
  {
    KeepsBare(st, s, at);
  }

  lemma {:induction false} KeepsChars(st: Scan, chars: seq<StrChar>, at: nat)
    requires WellPlaced(st, at) && st.Scanning? && st.inString && !st.escape && IsString(chars)
    ensures ScanFrom(st, PrintChars(chars), at) == st
    decreases |chars|
  {
    if chars != [] {
      var first := if chars[0].Plain? then [chars[0].c] else ['\\', chars[0].c];
      var rest := PrintChars(chars[1..]);
      KeepsOneChar(st, chars[0], at);
      KeepsChars(st, chars[1..], at + |first|);
      ScanAppend(st, first, rest, at);
    }
  }

  lemma KeepsOneChar(st: Scan, ch: StrChar, at: nat)
    requires WellPlaced(st, at) && st.Scanning? && st.inString && !st.escape
    requires ch.Plain? ==> ch.c != '"' && ch.c != '\\'
    ensures ScanFrom(st, if ch.Plain? then [ch.c] else ['\\', ch.c], at) == st
  {
    if ch.Plain? {
      ScanOne(st, ch.c, at);
    } else {
      var s := ['\\', ch.c];
      assert s[1..] == [ch.c] && s == ['\\'] + [ch.c];
      ScanOne(st, '\\', at);
      ScanOne(st.(escape := true), ch.c, at + 1);
      ScanAppend(st, ['\\'], [ch.c], at);
    }
  }

  lemma ScanOne(st: Scan, ch: char, at: nat)
    requires WellPlaced(st, at)
    ensures ScanFrom(st, [ch], at) == Step(st, at, ch)
  {
  }

  lemma KeepsString(st: Scan, chars: seq<StrChar>, at: nat)
    requires Inside(st, at) && IsString(chars)
    ensures ScanFrom(st, PrintString(chars), at) == st
  {
    hide IsString, ScanFrom;
    var open := st.(inString := true);
    var body := PrintChars(chars);
    ScanOne(st, '"', at);
    KeepsChars(open, chars, at + 1);
    ScanOne(open, '"', at + 1 + |body|);
    ScanAppend(open, body, "\"", at + 1);
    ScanAppend(st, "\"", body + "\"", at);
  }

  lemma {:induction false} KeepsValue(st: Scan, v: Value, at: nat)
    requires Inside(st, at) && WellFormed(v)
    ensures ScanFrom(st, Print(v), at) == st
    decreases v
  {
    hide Inside, IsWord, IsSpace, IsString, ScanFrom, WellPlaced, Step;
    match v {
      case Word(text) => KeepsWord(st, text, at);
      case Str(chars) => KeepsString(st, chars, at);
      case Arr(space, items) =>
        var body := if items.NoItem? then space else PrintItems(items);
        Bracket(st, '[', at);
        InsideLater(st, at, at + 1);
        InsideLater(st, at, at + 1 + |body|);
        if items.NoItem? {
          KeepsWord(st, space, at + 1);
        } else {
          KeepsItems(st, items, at + 1);
        }
        Bracket(st, ']', at + 1 + |body|);
        KeepsBoth(st, body, "]", at + 1);
        KeepsBoth(st, "[", body + "]", at);
      case Obj(space, members) =>
        var body := if members.NoMember? then space else PrintMembers(members);
        var inner := Deeper(st, at);
        if members.NoMember? {
          KeepsWord(inner, space, at + 1);
        } else {
          KeepsMembers(inner, members, at + 1);
        }
        Braces(st, body, at);
    }
  }

  /** The state behind an opening brace. */
  function Deeper(st: Scan, at: nat): (r: Scan)
    requires Inside(st, at)
    ensures Inside(r, at + 1)
  {
    st.(depth := st.depth + 1)
  }

  lemma Braces(st: Scan, body: string, at: nat)
    requires Inside(st, at) && ScanFrom(Deeper(st, at), body, at + 1) == Deeper(st, at)
    ensures ScanFrom(st, "{" + (body + "}"), at) == st
  {
    hide ScanFrom;
    var inner := Deeper(st, at);
    ScanOne(st, '{', at);
    ScanOne(inner, '}', at + 1 + |body|);
    ScanAppend(inner, body, "}", at + 1);
    ScanAppend(st, "{", body + "}", at);
  }

  lemma Bracket(st: Scan, ch: char, at: nat)
    requires Inside(st, at) && ch in "[],:"
    ensures ScanFrom(st, [ch], at) == st
  {
  }

  lemma InsideLater(st: Scan, at: nat, later: nat)
    requires Inside(st, at) && at <= later
    ensures Inside(st, later)
  {
  }

  lemma {:induction false} KeepsItems(st: Scan, items: Items, at: nat)
    requires Inside(st, at) && WellFormedItems(items)
    ensures ScanFrom(st, PrintItems(items), at) == st
    decreases items
  {
    hide Inside, IsWord, IsSpace, IsString, ScanFrom, WellPlaced, Step, WellFormed, Print;
    match items {
      case NoItem => KeepsNothing(st, at);
      case Item(before, value, after, tail) =>
        var p := Print(value);
        var at1 := at + |before|;
        var at2 := at1 + |p|;
        var at3 := at2 + |after|;
        InsideLater(st, at, at1);
        InsideLater(st, at, at2);
        InsideLater(st, at, at3);
        InsideLater(st, at, at3 + 1);
        KeepsWord(st, before, at);
        KeepsValue(st, value, at1);
        KeepsWord(st, after, at2);
        var rest := if tail.NoItem? then "" else "," + PrintItems(tail);
        if tail.NoItem? {
          KeepsNothing(st, at3);
        } else {
          Bracket(st, ',', at3);
          KeepsItems(st, tail, at3 + 1);
          KeepsBoth(st, ",", PrintItems(tail), at3);
        }
        KeepsBoth(st, after, rest, at2);
        KeepsBoth(st, p, after + rest, at1);
        KeepsBoth(st, before, p + (after + rest), at);
    }
  }

  lemma KeepsNothing(st: Scan, at: nat)
    requires Inside(st, at)
    ensures ScanFrom(st, "", at) == st
  {
  }

  /** A colon with the white space around it, and what follows. */
  lemma KeepsColon(st: Scan, beforeColon: string, afterColon: string, rest: string, at: nat)
    requires Inside(st, at) && IsSpace(beforeColon) && IsSpace(afterColon)
    requires ScanFrom(st, rest, at + |beforeColon| + 1 + |afterColon|) == st
    ensures ScanFrom(st, beforeColon + (":" + (afterColon + rest)), at) == st
  {
    hide Inside, IsWord, IsSpace, ScanFrom;
    var at1 := at + |beforeColon|;
    InsideLater(st, at, at1);
    InsideLater(st, at, at1 + 1);
    KeepsWord(st, beforeColon, at);
    Bracket(st, ':', at1);
    KeepsWord(st, afterColon, at1 + 1);
    KeepsBoth(st, afterColon, rest, at1 + 1);
    KeepsBoth(st, ":", afterColon + rest, at1);
    KeepsBoth(st, beforeColon, ":" + (afterColon + rest), at);
  }

  /** The name of a member, and what follows. */
  lemma KeepsName(st: Scan, before: string, key: seq<StrChar>, rest: string, at: nat)
    requires Inside(st, at) && IsSpace(before) && IsString(key)
    requires ScanFrom(st, rest, at + |before| + |PrintString(key)|) == st
    ensures ScanFrom(st, before + (PrintString(key) + rest), at) == st
  {
    hide Inside, IsWord, IsSpace, IsString, ScanFrom, PrintString;
    InsideLater(st, at, at + |before|);
    KeepsWord(st, before, at);
    KeepsString(st, key, at + |before|);
    KeepsBoth(st, PrintString(key), rest, at + |before|);
    KeepsBoth(st, before, PrintString(key) + rest, at);
  }

  lemma {:induction false} KeepsMembers(st: Scan, members: Members, at: nat)
    requires Inside(st, at) && WellFormedMembers(members)
    ensures ScanFrom(st, PrintMembers(members), at) == st
    decreases members
  {
    hide Inside, IsWord, IsSpace, IsString, ScanFrom, WellPlaced, Step, WellFormed, Print, PrintString;
    match members {
      case NoMember => KeepsNothing(st, at);
      case Member(before, key, beforeColon, afterColon, value, after, tail) =>
        var p := Print(value);
        var at0 := at + |before| + |PrintString(key)|;
        var at1 := at0 + |beforeColon| + 1 + |afterColon|;
        InsideLater(st, at, at0);
        var at2 := at1 + |p|;
        var at3 := at2 + |after|;
        InsideLater(st, at, at1);
        InsideLater(st, at, at2);
        InsideLater(st, at, at3);
        InsideLater(st, at, at3 + 1);
        KeepsValue(st, value, at1);
        KeepsWord(st, after, at2);
        var rest := if tail.NoMember? then "" else "," + PrintMembers(tail);
        if tail.NoMember? {
          KeepsNothing(st, at3);
        } else {
          Bracket(st, ',', at3);
          KeepsMembers(st, tail, at3 + 1);
          KeepsBoth(st, ",", PrintMembers(tail), at3);
        }
        KeepsBoth(st, after, rest, at2);
        KeepsBoth(st, p, after + rest, at1);
        KeepsColon(st, beforeColon, afterColon, p + (after + rest), at0);
        KeepsName(st, before, key, beforeColon + (":" + (afterColon + (p + (after + rest)))), at);
    }
  }

  // ----- Objects are cut out exactly -----

  function Count(s: string, c: char): nat {
    if s == [] then 0 else Count(s[..|s| - 1], c) + if s[|s| - 1] == c then 1 else 0
  }

  /** No initial part of the text has more opening than closing braces. */
  predicate NothingOpens(s: string) {
    forall n :: 0 <= n <= |s| ==> Count(s[..n], '{') <= Count(s[..n], '}')
  }

  /** And all in all there are as many of both. */
  predicate Level(s: string) {
    NothingOpens(s) && Count(s, '{') == Count(s, '}')
  }

  /** As long as nothing opens, quotes do not matter and the scan counts braces. */
  lemma {:induction false} ScanCounts(s: string)
    ensures var st := ScanFrom(START, s, 0);
            if NothingOpens(s) then st == Scanning(Count(s, '{') - Count(s, '}'), None, false, false)
            else st.Found? || st.depth > 0
    decreases |s|
  {
    hide ScanFrom;
    if s == [] {
      ScanNothing();
    } else {
      var front, c := s[..|s| - 1], s[|s| - 1];
      assert s == front + [c] && s[..|s|] == s;
      ScanCounts(front);
      ScanAppend(START, front, [c], 0);
      ScanOne(ScanFrom(START, front, 0), c, |front|);
      assert forall n :: 0 <= n <= |front| ==> front[..n] == s[..n];
      assert NothingOpens(s) <==> NothingOpens(front) && Count(s, '{') <= Count(s, '}');
    }
  }

  lemma ScanNothing()
    ensures ScanFrom(START, "", 0) == START
  {
  }

  lemma {:induction false} NoBraceIsLevel(s: string)
    requires '{' !in s && '}' !in s
    ensures Level(s)
    decreases |s|
  {
    if s != [] {
      var front := s[..|s| - 1];
      NoBraceIsLevel(front);
      assert forall n :: 0 <= n <= |front| ==> front[..n] == s[..n];
      assert s[..|s|] == s;
    }
  }

  lemma ObjectFound(space: string, members: Members, suffix: string, at: nat)
    requires IsSpace(space) && WellFormedMembers(members)
    ensures var text := Print(Obj(space, members));
            ScanFrom(START, text + suffix, at) == Found(at, at + |text|)
  {
    hide ScanFrom, IsSpace, WellFormedMembers, PrintMembers;
    var body := if members.NoMember? then space else PrintMembers(members);
    var text := Print(Obj(space, members));
    var inner := Scanning(1, Some(at), false, false);
    ScanOne(START, '{', at);
    if members.NoMember? {
      KeepsWord(inner, space, at + 1);
    } else {
      KeepsMembers(inner, members, at + 1);
    }
    ScanOne(inner, '}', at + 1 + |body|);
    ScanAppend(inner, body, "}", at + 1);
    ScanAppend(START, "{", body + "}", at);
    ScanAppend(START, text, suffix, at);
    FoundStays(at, at + |text|, suffix, at + |text|);
  }

  /** With an object open, what is found starts where that object does. */
  lemma {:induction false} OpenObjectFound(st: Scan, s: string, at: nat)
    requires WellPlaced(st, at) && st.Scanning? && st.depth > 0
    ensures var r := ScanFrom(st, s, at); r.Found? ==> r.first == st.start.value
    decreases |s|
  {
    if s != [] {
      var next := Step(st, at, s[0]);
      if next.Scanning? {
        OpenObjectFound(next, s[1..], at + 1);
      } else {
        FoundStays(next.first, next.end, s[1..], at + 1);
      }
    }
  }

  lemma {:induction false} NothingOpenFound(st: Scan, s: string, at: nat)
    requires WellPlaced(st, at) && st.Scanning? && st.depth <= 0
    ensures var r := ScanFrom(st, s, at); r.Found? ==> r.first >= at
    decreases |s|
  {
    if s != [] {
      var next := Step(st, at, s[0]);
      if next.depth > 0 {
        OpenObjectFound(next, s[1..], at + 1);
      } else {
        NothingOpenFound(next, s[1..], at + 1);
      }
    }
  }

  /**
   The scan cuts out an object exactly when, in what stands before it, no initial part has more
   opening than closing braces and there are as many of both in all.
   */
  lemma ObjectCutOut(prefix: string, space: string, members: Members, suffix: string)
    requires IsSpace(space) && WellFormedMembers(members)
    ensures var text := Print(Obj(space, members));
            ScanFrom(START, prefix + (text + suffix), 0) == Found(|prefix|, |prefix| + |text|) <==> Level(prefix)
  {
    hide ScanFrom, IsSpace, WellFormedMembers, PrintMembers, NothingOpens;
    var text := Print(Obj(space, members));
    var st := ScanFrom(START, prefix, 0);
    ScanCounts(prefix);
    ScanAppend(START, prefix, text + suffix, 0);
    if Level(prefix) {
      ObjectFound(space, members, suffix, |prefix|);
    } else if st.Found? {
      FoundStays(st.first, st.end, text + suffix, |prefix|);
    } else if st.depth > 0 {
      OpenObjectFound(st, text + suffix, |prefix|);
    } else {
      StrayBrace(st, text + suffix, |prefix|);
    }
  }

  lemma StrayBrace(st: Scan, s: string, at: nat)
    requires WellPlaced(st, at) && st.Scanning? && st.depth < 0 && s != [] && s[0] == '{'
    ensures var r := ScanFrom(st, s, at); r.Found? ==> r.first > at
  {
    var next := Step(st, at, '{');
    NothingOpenFound(next, s[1..], at + 1);
  }

  /** In a text without fences, any JSON object behind a level prefix is what is extracted. */
  lemma ObjectExtracted(prefix: string, space: string, members: Members, suffix: string)
    requires IsSpace(space) && WellFormedMembers(members) && Level(prefix)
    requires FenceFree(prefix + (Print(Obj(space, members)) + suffix))
    ensures Extract(prefix + (Print(Obj(space, members)) + suffix)) == Some(Print(Obj(space, members)))
  {
    hide ScanFrom, IsSpace, WellFormedMembers, Print, Fenced, FenceFree, Level;
    var text := Print(Obj(space, members));
    ObjectCutOut(prefix, space, members, suffix);
    NoFenceNoBlock(prefix + (text + suffix));
    assert (prefix + (text + suffix))[|prefix|..|prefix| + |text|] == text;
  }

  /**
   Closing braces in the prose before an object, with no opening one, hide the object: whatever
   is found, if anything, starts behind its opening brace.
   */
  lemma StrayBraceHidesObject(prefix: string, space: string, members: Members, suffix: string)
    requires IsSpace(space) && WellFormedMembers(members)
    requires '{' !in prefix && '}' in prefix
    ensures var r := ScanFrom(START, prefix + (Print(Obj(space, members)) + suffix), 0);
            r.Found? ==> r.first > |prefix|
  {
    hide ScanFrom, IsSpace, WellFormedMembers, PrintMembers, NothingOpens;
    var text := Print(Obj(space, members));
    ScanCounts(prefix);
    OnlyClosing(prefix);
    ScanAppend(START, prefix, text + suffix, 0);
    StrayBrace(ScanFrom(START, prefix, 0), text + suffix, |prefix|);
  }

  lemma {:induction false} OnlyClosing(s: string)
    requires '{' !in s
    ensures NothingOpens(s) && Count(s, '{') == 0 && (Count(s, '}') > 0 <==> '}' in s)
    decreases |s|
  {
    if s != [] {
      var front := s[..|s| - 1];
      assert s == front + [s[|s| - 1]];
      OnlyClosing(front);
      assert forall n :: 0 <= n <= |front| ==> front[..n] == s[..n];
      assert s[..|s|] == s;
    }
  }

  /** Nothing at all is found in the shortest such text, and an opening brace undoes a closing one. */
  lemma StrayBraceWitness()
    ensures ObjectIn("} {}") == None && Level("}{")
  {
    assert "}{"[..1] == "}" && "}{"[..0] == "" && "}{"[..2] == "}{" && "}"[..0] == "";
  }
}
