/** The string operations the modelled code is built from, on sequences of characters. */
module Text {
  import opened Prelude

  /** Unicode's White_Space property, which is what Rust's `trim` family removes. */
  predicate IsSpace(c: char) {
    || '\U{9}' <= c <= '\U{d}' || c == ' ' || c == '\U{85}' || c == '\U{a0}' || c == '\U{1680}'
    || '\U{2000}' <= c <= '\U{200a}' || c == '\U{2028}' || c == '\U{2029}' || c == '\U{202f}'
    || c == '\U{205f}' || c == '\U{3000}'
  }

  function TrimStart(s: string): (r: string)
    ensures |r| <= |s| && r == s[|s| - |r|..]
  {
    if s != "" && IsSpace(s[0]) then TrimStart(s[1..]) else s
  }

  function TrimEnd(s: string): string {
    if s != "" && IsSpace(s[|s| - 1]) then TrimEnd(s[..|s| - 1]) else s
  }

  function Trim(s: string): string {
    TrimEnd(TrimStart(s))
  }

  /** Where `c` first occurs, or the length when it does not. */
  function IndexOf(s: string, c: char): (i: nat)
    ensures i <= |s| && c !in s[..i] && (i < |s| ==> s[i] == c)
  {
    if s == "" || s[0] == c then 0 else 1 + IndexOf(s[1..], c)
  }

  lemma IndexOfFirst(a: string, c: char, b: string)
    requires c !in a
    ensures IndexOf(a + [c] + b, c) == |a|
  {
    if a != "" {
      assert (a + [c] + b)[1..] == a[1..] + [c] + b;
      IndexOfFirst(a[1..], c, b);
    }
  }

  function SplitOnce(s: string, c: char): Option<(string, string)> {
    var i := IndexOf(s, c);
    if i < |s| then Some((s[..i], s[i + 1..])) else None
  }

  function Split(s: string, c: char): (parts: seq<string>)
    ensures parts != []
    decreases |s|
  {
    var i := IndexOf(s, c);
    if i < |s| then [s[..i]] + Split(s[i + 1..], c) else [s]
  }

  lemma SplitAt(a: string, c: char, b: string)
    requires c !in a
    ensures SplitOnce(a + [c] + b, c) == Some((a, b))
    ensures Split(a + [c] + b, c) == [a] + Split(b, c)
  {
    IndexOfFirst(a, c, b);
    assert (a + [c] + b)[..|a|] == a && (a + [c] + b)[|a| + 1..] == b;
  }

  lemma SplitThree(a: string, c: char, b: string, d: string)
    requires c !in a && c !in b && c !in d
    ensures Split(a + [c] + (b + [c] + d), c) == [a, b, d]
  {
    SplitAt(a, c, b + [c] + d);
    SplitAt(b, c, d);
  }

  lemma SplitNone(s: string, c: char)
    requires c !in s
    ensures SplitOnce(s, c) == None && Split(s, c) == [s]
  {
  }

  /** The first line, its newline included. */
  function FirstLine(s: string): (line: string)
    ensures line <= s && (s != "" ==> line != "")
  {
    var i := IndexOf(s, '\n');
    if i < |s| then s[..i + 1] else s
  }

  lemma TrimEndParts(s: string)
    ensures TrimEnd(s) <= s && TrimEnd(TrimEnd(s)) == TrimEnd(s)
    ensures TrimEnd(s) == "" || !IsSpace(TrimEnd(s)[|TrimEnd(s)| - 1])
    ensures forall i | |TrimEnd(s)| <= i < |s| :: IsSpace(s[i])
  {
  }

  lemma {:induction false} TrimEndOver(a: string, b: string)
    ensures TrimEnd(a + b) == if TrimEnd(b) == "" then TrimEnd(a) else a + TrimEnd(b)
    decreases |b|
  {
    if b == "" {
      assert a + b == a;
    } else {
      assert (a + b)[|a + b| - 1] == b[|b| - 1];
      if IsSpace(b[|b| - 1]) {
        assert (a + b)[..|a + b| - 1] == a + b[..|b| - 1];
        TrimEndOver(a, b[..|b| - 1]);
      }
    }
  }

  lemma {:induction false} IndexOfOver(a: string, b: string, c: char)
    ensures IndexOf(a + b, c) == if c in a then IndexOf(a, c) else |a| + IndexOf(b, c)
    decreases |a|
  {
    if a == "" {
      assert a + b == b;
    } else {
      assert (a + b)[1..] == a[1..] + b;
      assert a == [a[0]] + a[1..];
      IndexOfOver(a[1..], b, c);
    }
  }

  lemma FirstLineOver(a: string, b: string)
    ensures '\n' in a ==> FirstLine(a + b) == FirstLine(a)
    ensures a == "" ==> FirstLine(a + b) == FirstLine(b)
    ensures '\n' !in a ==> FirstLine(a + b) == a + FirstLine(b)
  {
    hide IndexOf;
    IndexOfOver(a, b, '\n');
    var i, j := IndexOf(a, '\n'), IndexOf(b, '\n');
    if '\n' in a {
      assert a[..|a|] == a;
      assert (a + b)[..i + 1] == a[..i + 1];
    } else if j < |b| {
      assert (a + b)[..|a| + j + 1] == a + b[..j + 1];
    }
    assert a == "" ==> a + b == b;
  }

  lemma WholeLine(a: string)
    requires '\n' !in a
    ensures FirstLine(a) == a
  {
  }

  /** The lines of a text, each with its newline; only the last may lack one. */
  function Lines(s: string): (lines: seq<string>)
    decreases |s|
  {
    if s == "" then [] else [FirstLine(s)] + Lines(s[|FirstLine(s)|..])
  }

  function Concat(lines: seq<string>): string {
    if lines == [] then "" else lines[0] + Concat(lines[1..])
  }

  /** A line is not empty and its only newline, if any, ends it. */
  predicate IsLine(line: string) {
    line != "" && '\n' !in line[..|line| - 1]
  }

  predicate Ended(line: string) {
    line != "" && line[|line| - 1] == '\n'
  }

  predicate AreLines(lines: seq<string>) {
    forall i | 0 <= i < |lines| :: IsLine(lines[i]) && (i + 1 < |lines| ==> Ended(lines[i]))
  }

  lemma {:induction false} LinesConcat(s: string)
    ensures AreLines(Lines(s)) && Concat(Lines(s)) == s
    decreases |s|
  {
    hide FirstLine;
    if s != "" {
      var line := FirstLine(s);
      LinesConcat(s[|line|..]);
      FirstLineIsLine(s);
      assert s == line + s[|line|..];
    }
  }

  lemma FirstLineIsLine(s: string)
    requires s != ""
    ensures IsLine(FirstLine(s)) && (FirstLine(s) != s ==> Ended(FirstLine(s)))
  {
    var i := IndexOf(s, '\n');
    if i < |s| {
      assert s[..i + 1][..i] == s[..i];
    } else {
      assert '\n' !in s;
    }
  }

  lemma {:induction false} ConcatLines(lines: seq<string>)
    requires AreLines(lines)
    ensures Lines(Concat(lines)) == lines
    decreases |lines|
  {
    if lines != [] {
      var line, rest := lines[0], Concat(lines[1..]);
      ConcatLines(lines[1..]);
      FirstLineOf(line, rest);
      if |lines| == 1 {
        assert line + rest == line;
      }
      assert (line + rest)[|line|..] == rest;
    }
  }

  lemma FirstLineOf(line: string, rest: string)
    requires IsLine(line)
    ensures Ended(line) || rest == "" ==> FirstLine(line + rest) == line
  {
    var body := line[..|line| - 1];
    if Ended(line) {
      assert line + rest == body + ['\n'] + rest;
      IndexOfFirst(body, '\n', rest);
      assert (line + rest)[..|line|] == line;
    } else if rest == "" {
      assert line + rest == line;
      assert line == body + [line[|line| - 1]];
      WholeLine(line);
    }
  }

  /** A line without its ending, as Rust's `lines` gives it. */
  function Body(line: string): string {
    if !Ended(line) then line
    else
      var body := line[..|line| - 1];
      if body != "" && body[|body| - 1] == '\r' then body[..|body| - 1] else body
  }

  function Bodies(s: string): (lines: seq<string>)
    decreases |s|
  {
    if s == "" then [] else [Body(FirstLine(s))] + Bodies(s[|FirstLine(s)|..])
  }

  // ---- Searching ----

  predicate Occurs(s: string, pat: string, i: nat) {
    i + |pat| <= |s| && s[i..i + |pat|] == pat
  }

  /** Where `pat` first occurs. */
  function Find(s: string, pat: string): (r: Option<nat>)
    ensures r.Some? ==> Occurs(s, pat, r.value) && forall j: nat | j < r.value :: !Occurs(s, pat, j)
    ensures r.None? ==> forall j: nat :: !Occurs(s, pat, j)
  {
    if |s| < |pat| then None
    else if s[..|pat|] == pat then Some(0)
    else
      var r := Find(s[1..], pat);
      assert forall j: nat | 0 < j :: Occurs(s, pat, j) ==> Occurs(s[1..], pat, j - 1) by {
        forall j: nat | 0 < j && Occurs(s, pat, j) ensures Occurs(s[1..], pat, j - 1) {
          assert s[1..][j - 1..j - 1 + |pat|] == s[j..j + |pat|];
        }
      }
      if r.Some? then
        assert s[1..][r.value..r.value + |pat|] == s[r.value + 1..r.value + 1 + |pat|];
        Some(r.value + 1)
      else None
  }

  predicate Free(s: string, pat: string) {
    Find(s, pat).None?
  }

  /** The lines as `lines` gives them: each up to its newline, a return before it dropped; an empty end is no line. */
  lemma BodiesByLine(line: string, rest: string)
    requires '\n' !in line
    ensures Bodies(line + "\n" + rest) ==
            [if line != "" && line[|line| - 1] == '\r' then line[..|line| - 1] else line] + Bodies(rest)
    ensures Bodies(line) == if line == "" then [] else [line]
  {
    IndexOfFirst(line, '\n', rest);
    var text := line + "\n" + rest;
    assert FirstLine(text) == line + "\n" && text[|line| + 1..] == rest && (line + "\n")[..|line|] == line;
    assert Bodies(text)[1..] == Bodies(rest);
    WholeLine(line);
    if line != "" {
      assert line[|line|..] == "" && !Ended(line);
    }
  }
}
