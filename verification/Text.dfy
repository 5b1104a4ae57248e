/** Strings as the standard library of the program sees them: searching, lines, trimming. */
module Text {
  import opened Common

  /** Does `needle` stand at `i`? */
  predicate OccursAt(s: string, needle: string, i: nat) {
    i + |needle| <= |s| && s[i..i + |needle|] == needle
  }

  /** Where `needle` first stands at or after `i`. */
  function FindFrom(s: string, needle: string, i: nat): (r: Option<nat>)
    requires i <= |s|
    ensures r.Some? ==> i <= r.value && OccursAt(s, needle, r.value)
    decreases |s| - i
  {
    if OccursAt(s, needle, i) then Some(i)
    else if i == |s| then None
    else FindFrom(s, needle, i + 1)
  }

  function Find(s: string, needle: string): (r: Option<nat>)
    ensures r.Some? ==> OccursAt(s, needle, r.value)
  {
    FindFrom(s, needle, 0)
  }

  lemma {:induction false} FoundFirst(s: string, needle: string, i: nat, k: nat)
    requires i <= k && OccursAt(s, needle, k)
    ensures FindFrom(s, needle, i).Some? && FindFrom(s, needle, i).value <= k
    decreases k - i
  {
    if !OccursAt(s, needle, i) {
      FoundFirst(s, needle, i + 1, k);
    }
  }

  lemma OccursInExtension(s: string, t: string, needle: string, k: nat)
    ensures OccursAt(s, needle, k) ==> OccursAt(s + t, needle, k)
    ensures OccursAt(s + t, needle, k) && k + |needle| <= |s| ==> OccursAt(s, needle, k)
  {
  }

  /** What is found stays found, at the same place, when text is added. */
  lemma {:induction false} FindExtends(s: string, t: string, needle: string, i: nat)
    requires i <= |s| && FindFrom(s, needle, i).Some?
    ensures FindFrom(s + t, needle, i) == FindFrom(s, needle, i)
    decreases |s| - i
  {
    OccursInExtension(s, t, needle, i);
    if !OccursAt(s, needle, i) {
      assert OccursAt(s, needle, FindFrom(s, needle, i).value);
      FindExtends(s, t, needle, i + 1);
    }
  }

  // ----- Letters -----

  function LowerChar(c: char): char {
    if 'A' <= c <= 'Z' then (c as int + 32) as char else c
  }

  function ToLower(s: string): (r: string)
    ensures |r| == |s|
  {
    if s == [] then "" else [LowerChar(s[0])] + ToLower(s[1..])
  }

  predicate Contains(s: string, needle: string) {
    Find(s, needle).Some?
  }

  /** `needle` stands nowhere. */
  predicate Absent(s: string, needle: string) {
    forall k :: 0 <= k <= |s| ==> !OccursAt(s, needle, k)
  }

  /** What occurs is found. */
  lemma NotContained(s: string, needle: string)
    ensures !Contains(s, needle) <==> Absent(s, needle)
  {
    if !Absent(s, needle) {
      var k :| 0 <= k <= |s| && OccursAt(s, needle, k);
      FoundFirst(s, needle, 0, k);
    }
  }

  // ----- Whitespace -----

  /** The Unicode property White_Space. */
  predicate IsWhite(c: char) {
    || '\t' <= c <= '\r' || c == ' ' || c == '\U{0085}' || c == '\U{00A0}' || c == '\U{1680}'
    || '\U{2000}' <= c <= '\U{200A}' || c == '\U{2028}' || c == '\U{2029}' || c == '\U{202F}'
    || c == '\U{205F}' || c == '\U{3000}'
  }

  function TrimStart(s: string): string {
    if s != [] && IsWhite(s[0]) then TrimStart(s[1..]) else s
  }

  function TrimEnd(s: string): string {
    if s != [] && IsWhite(s[|s| - 1]) then TrimEnd(s[..|s| - 1]) else s
  }

  function Trim(s: string): string {
    TrimStart(TrimEnd(s))
  }

  lemma TrimIgnoresLast(s: string, white: char)
    requires IsWhite(white)
    ensures Trim(s + [white]) == Trim(s)
  {
  }

  predicate AllWhite(s: string) {
    forall k :: 0 <= k < |s| ==> IsWhite(s[k])
  }

  /** Trimming takes white space off both ends, all of it and nothing else. */
  lemma TrimMeans(s: string)
    ensures exists i: nat, j: nat :: i <= j <= |s| && Trim(s) == s[i..j] && AllWhite(s[..i]) && AllWhite(s[j..])
    ensures var t := Trim(s); t == [] || (!IsWhite(t[0]) && !IsWhite(t[|t| - 1]))
  {
    var j := TrimEndMeans(s);
    var i := TrimStartMeans(s[..j]);
    assert s[..j][i..] == s[i..j] && s[..j][..i] == s[..i];
  }

  lemma {:induction false} TrimEndMeans(s: string) returns (j: nat)
    ensures j <= |s| && TrimEnd(s) == s[..j] && AllWhite(s[j..]) && (j == 0 || !IsWhite(s[j - 1]))
  {
    hide IsWhite;
    if s != [] && IsWhite(s[|s| - 1]) {
      var front := s[..|s| - 1];
      j := TrimEndMeans(front);
      assert s[..j] == front[..j] && s[j..] == front[j..] + [s[|s| - 1]];
    } else {
      j := |s|;
      assert s[..j] == s;
    }
  }

  lemma {:induction false} TrimStartMeans(s: string) returns (i: nat)
    ensures i <= |s| && TrimStart(s) == s[i..] && AllWhite(s[..i]) && (i == |s| || !IsWhite(s[i]))
  {
    hide IsWhite;
    if s != [] && IsWhite(s[0]) {
      var n := TrimStartMeans(s[1..]);
      i := n + 1;
      assert s[i..] == s[1..][n..] && s[..i] == [s[0]] + s[1..][..n];
    } else {
      i := 0;
      assert s[0..] == s;
    }
  }

  // ----- Lines -----

  function LineEnd(s: string): (n: nat)
    ensures n <= |s| && (n < |s| ==> s[n] == '\n')
  {
    if s == [] || s[0] == '\n' then 0 else 1 + LineEnd(s[1..])
  }

  function StripCr(line: string): string {
    if line != [] && line[|line| - 1] == '\r' then line[..|line| - 1] else line
  }

  /** `str::lines`: a final line feed starts no further line, and a carriage return before one is dropped. */
  function Lines(s: string): seq<string> {
    if s == [] then []
    else
      var n := LineEnd(s);
      if n == |s| then [s] else [StripCr(s[..n])] + Lines(s[n + 1..])
  }

  lemma {:induction false} LineEndAppend(a: string, b: string)
    ensures LineEnd(a + b) == if LineEnd(a) < |a| then LineEnd(a) else |a| + LineEnd(b)
  {
    if a == [] {
      assert a + b == b;
    } else if a[0] != '\n' {
      assert (a + b)[1..] == a[1..] + b;
      LineEndAppend(a[1..], b);
    }
  }
}
