/**
 The marker block gavin keeps inside an agent's instructions file (`agent_setup.rs`): written in
 place or appended, with the human's adopted memories carried over, and cut out again.
 */
module InstructionsBlock {
  import opened Prelude
  import opened Text

  const START: string := "<!-- gavin:start -->"
  const END: string := "<!-- gavin:end -->"
  const HEADING: string := "### Learned"

  // ---- Lines ----

  /** From the first heading line to the end, right-trimmed. */
  function LearnedSection(s: string): Option<string>
    decreases |s|
  {
    if s == "" then None
    else if TrimEnd(FirstLine(s)) == HEADING then Some(TrimEnd(s))
    else LearnedSection(s[|FirstLine(s)|..])
  }

  /** The scan as the source runs it: line by line with a running offset. */
  method ScanForLearned(blockBody: string) returns (section: Option<string>)
    ensures section == LearnedSection(blockBody)
  {
    hide FirstLine, TrimEnd;
    var offset := 0;
    assert blockBody[0..] == blockBody;
    while offset < |blockBody|
      invariant offset <= |blockBody|
      invariant LearnedSection(blockBody[offset..]) == LearnedSection(blockBody)
    {
      var line := FirstLine(blockBody[offset..]);
      if TrimEnd(line) == HEADING {
        return Some(TrimEnd(blockBody[offset..]));
      }
      assert blockBody[offset..][|line|..] == blockBody[offset + |line|..];
      assert LearnedSection(blockBody[offset..]) == LearnedSection(blockBody[offset + |line|..]);
      offset := offset + |line|;
    }
    assert blockBody[offset..] == "";
    return None;
  }

  function TrimStartNewlines(s: string): string {
    if s != "" && s[0] == '\n' then TrimStartNewlines(s[1..]) else s
  }

  function TrimEndNewlines(s: string): string {
    if s != "" && s[|s| - 1] == '\n' then TrimEndNewlines(s[..|s| - 1]) else s
  }

  // ---- The writer and the remover ----

  function BlockInner(body: string, learned: Option<string>): string {
    "\n" + body + if learned.Some? then "\n" + learned.value + "\n" else ""
  }

  function BlockWith(body: string, learned: Option<string>): string {
    START + BlockInner(body, learned) + END + "\n"
  }

  predicate HasBlock(s: string) {
    Find(s, START).Some? && Find(s, END).Some? && Find(s, END).value >= Find(s, START).value
  }

  function Separator(s: string): string {
    if s == "" || (|s| >= 2 && s[|s| - 2..] == "\n\n") then ""
    else if s[|s| - 1] == '\n' then "\n"
    else "\n\n"
  }

  function Before(s: string): string
    requires HasBlock(s)
  {
    s[..Find(s, START).value]
  }

  function Inner(s: string): string
    requires HasBlock(s)
  {
    MarkersApart(s);
    s[Find(s, START).value + |START|..Find(s, END).value]
  }

  function After(s: string): string
    requires HasBlock(s)
  {
    s[Find(s, END).value + |END|..]
  }

  function Write(existing: Option<string>, body: string): string {
    if existing.None? then BlockWith(body, None)
    else
      var s := existing.value;
      if HasBlock(s) then Before(s) + BlockWith(body, LearnedSection(Inner(s))) + TrimStartNewlines(After(s))
      else s + Separator(s) + BlockWith(body, None)
  }

  /** The file without its block; `None` when it has none and is left alone. */
  function Remove(s: string): Option<string> {
    if !HasBlock(s) then None
    else
      var before, after := TrimEndNewlines(Before(s)), TrimStartNewlines(After(s));
      Some(before + (if before == "" then "" else if after == "" then "\n" else "\n\n") + after)
  }

  // ---- Markers do not overlap ----

  /**
   The first character of a marker occurs nowhere else in it, nor does `>` before its end, so it
   overlaps no copy of itself.
   */
  predicate Solid(pat: string) {
    && pat != "" && pat[0] == '<'
    && (forall i | 1 <= i < |pat| :: pat[i] != '<')
    && (forall i | 0 <= i < |pat| :: pat[i] != '\n')
    && (forall i | 0 <= i < |pat| - 1 :: pat[i] != '>')
  }

  lemma Markers()
    ensures Solid(START) && Solid(END) && |START| == 20 && |END| == 18 && START[11] != END[11]
  {
  }

  lemma CharAt(s: string, pat: string, j: nat, k: nat)
    requires Occurs(s, pat, j) && j <= k < j + |pat|
    ensures s[k] == pat[k - j]
  {
    assert s[j..j + |pat|][k - j] == s[k];
  }

  lemma OccursIn(a: string, b: string, pat: string, j: nat)
    ensures j + |pat| <= |a| ==> (Occurs(a + b, pat, j) <==> Occurs(a, pat, j))
    ensures j >= |a| ==> (Occurs(a + b, pat, j) <==> Occurs(b, pat, j - |a|))
  {
    if j + |pat| <= |a| {
      assert (a + b)[j..j + |pat|] == a[j..j + |pat|];
    }
    if j >= |a| && j + |pat| <= |a| + |b| {
      assert (a + b)[j..j + |pat|] == b[j - |a|..j - |a| + |pat|];
    }
  }

  /** A marker that neither half holds, and that cannot straddle them, is not in the whole. */
  lemma FreeConcat(a: string, b: string, pat: string)
    requires Solid(pat) && Free(a, pat) && Free(b, pat)
    requires b == "" || b[0] == '\n' || b[0] == '<' || a == "" || a[|a| - 1] == '\n' || a[|a| - 1] == '>'
    ensures Free(a + b, pat)
  {
    hide Find;
    var found := Find(a + b, pat);
    if found.Some? {
      OccursIn(a, b, pat, found.value);
      if found.value < |a| < found.value + |pat| {
        CharAt(a + b, pat, found.value, |a|);
        CharAt(a + b, pat, found.value, |a| - 1);
      }
    }
  }

  lemma FreePart(s: string, pat: string, i: nat, k: nat)
    requires Free(s, pat) && i <= k <= |s|
    ensures Free(s[i..k], pat)
  {
    hide Find;
    var found := Find(s[i..k], pat);
    if found.Some? {
      assert s[i..] == s[i..k] + s[k..] && s == s[..i] + s[i..];
      OccursIn(s[i..k], s[k..], pat, found.value);
      OccursIn(s[..i], s[i..], pat, i + found.value);
    }
  }

  lemma FindAfter(a: string, pat: string, b: string)
    requires Solid(pat) && Free(a, pat)
    ensures Find(a + pat + b, pat) == Some(|a|)
  {
    hide Find;
    var s := a + pat + b;
    assert s[|a|..|a| + |pat|] == pat;
    assert Occurs(s, pat, |a|);
    var j := Find(s, pat).value;
    assert a + (pat + b) == s;
    OccursIn(a, pat + b, pat, j);
    if j < |a| < j + |pat| {
      CharAt(s, pat, j, |a|);
    }
  }

  lemma MarkersApart(s: string)
    requires HasBlock(s)
    ensures Find(s, START).value + |START| <= Find(s, END).value
  {
    hide Find;
    Markers();
    var i, e := Find(s, START).value, Find(s, END).value;
    CharAt(s, END, e, e);
    CharAt(s, END, e, e + 11);
    CharAt(s, START, i, i + 11);
    if e < i + |START| {
      CharAt(s, START, i, e);
    }
  }

  lemma StartIsNotEnd()
    ensures Free(START, END)
  {
    hide Find;
    Markers();
    var found := Find(START, END);
    if found.Some? {
      CharAt(START, END, found.value, found.value);
    }
  }

  /** A file put together around one block has exactly those parts. */
  lemma PartsOf(pre: string, inner: string, post: string)
    requires Free(pre, START) && Free(pre, END) && Free(inner, END)
    ensures var s := pre + START + inner + END + post;
            HasBlock(s) && Before(s) == pre && Inner(s) == inner && After(s) == post
  {
    hide Find;
    Markers();
    var s := pre + START + inner + END + post;
    assert s == pre + START + (inner + END + post);
    FindAfter(pre, START, inner + END + post);
    StartIsNotEnd();
    FreeConcat(pre, START, END);
    assert START[19] == '>' && (pre + START)[|pre| + 19] == START[19];
    FreeConcat(pre + START, inner, END);
    FindAfter(pre + START + inner, END, post);
  }

  lemma FreePrefix(s: string, pat: string)
    requires pat != "" && Find(s, pat).Some?
    ensures Find(s, pat).value <= |s| && Free(s[..Find(s, pat).value], pat)
  {
    hide Find;
    var i := Find(s, pat).value;
    var found := Find(s[..i], pat);
    if found.Some? {
      assert s == s[..i] + s[i..];
      OccursIn(s[..i], s[i..], pat, found.value);
    }
  }

  /** A file with a block is its parts, and only the inside may hold another start marker. */
  lemma Decompose(s: string)
    requires HasBlock(s)
    ensures s == Before(s) + START + Inner(s) + END + After(s)
    ensures Free(Before(s), START) && Free(Before(s), END) && Free(Inner(s), END)
  {
    hide Find;
    MarkersApart(s);
    var i, e := Find(s, START).value, Find(s, END).value;
    FreePrefix(s, START);
    FreePrefix(s, END);
    assert s[..e][0..i] == s[..i] && s[..e][i + |START|..e] == s[i + |START|..e];
    FreePart(s[..e], END, 0, i);
    FreePart(s[..e], END, i + |START|, e);
    assert s[i..i + |START|] == START && s[e..e + |END|] == END;
  }

  // ---- Heading lines ----

  predicate EndsLine(s: string) {
    s == "" || s[|s| - 1] == '\n'
  }

  /** Whole lines without a heading can be skipped. */
  lemma {:induction false} SkipLines(a: string, b: string)
    requires EndsLine(a) && LearnedSection(a).None?
    ensures LearnedSection(a + b) == LearnedSection(b)
    decreases |a|
  {
    if a == "" {
      assert a + b == b;
    } else {
      assert a[|a| - 1] in a;
      FirstLineOver(a, b);
      var n := |FirstLine(a)|;
      assert (a + b)[n..] == a[n..] + b;
      SkipLines(a[n..], b);
    }
  }

  lemma {:induction false} AddNewline(a: string)
    requires LearnedSection(a).None?
    ensures LearnedSection(a + "\n").None?
    decreases |a|
  {
    hide FirstLine, TrimEnd;
    FirstLineOver(a, "\n");
    TrimEndOver(a, "\n");
    TrimNewline();
    if '\n' in a {
      var n := |FirstLine(a)|;
      assert (a + "\n")[n..] == a[n..] + "\n";
      AddNewline(a[n..]);
    } else {
      WholeLine(a);
      assert (a + "\n")[|a + "\n"|..] == "";
    }
  }

  lemma TrimNewline()
    ensures TrimEnd("\n") == "" && FirstLine("\n") == "\n" && TrimEnd("") == ""
  {
  }

  /** Trimming a section's end keeps its heading line. */
  lemma HeadingStays(s: string)
    requires s != "" && TrimEnd(FirstLine(s)) == HEADING
    ensures TrimEnd(s) != "" && TrimEnd(FirstLine(TrimEnd(s) + "\n")) == HEADING
  {
    hide TrimEnd, LearnedSection, FirstLine;
    var line := FirstLine(s);
    var rest := s[|line|..];
    assert s == line + rest;
    TrimEndOver(line, rest);
    if TrimEnd(rest) == "" {
      FirstLineOver(HEADING, "\n");
      TrimEndOver(HEADING, "\n");
      SpacesOnly();
    } else {
      assert rest != "" by { SpacesOnly(); }
      LineEnds(s);
      FirstLineOver(line, rest);
      FirstLineOver(line, TrimEnd(rest) + "\n");
      assert TrimEnd(s) + "\n" == line + (TrimEnd(rest) + "\n");
    }
  }

  lemma SpacesOnly()
    ensures TrimEnd("") == "" && TrimEnd("\n") == "" && FirstLine("\n") == "\n" && '\n' !in HEADING
            && TrimEnd(HEADING) == HEADING
  {
  }

  lemma LineEnds(s: string)
    requires s[|FirstLine(s)|..] != ""
    ensures '\n' in FirstLine(s)
  {
  }

  lemma TrimEndTwice(s: string)
    ensures TrimEnd(s + "\n") == TrimEnd(s) && TrimEnd(TrimEnd(s) + "\n") == TrimEnd(s)
  {
    TrimEndOver(s, "\n");
    TrimEndOver(TrimEnd(s), "\n");
    TrimEndParts(s);
  }

  /** A section is read back as itself, and holds no marker its text did not. */
  lemma {:induction false} SectionReadsBack(s: string)
    requires LearnedSection(s).Some?
    ensures var section := LearnedSection(s).value;
            && section != "" && TrimEnd(section) == section
            && LearnedSection(section + "\n") == Some(section)
            && (Free(s, END) ==> Free(section, END))
    decreases |s|
  {
    hide Find, TrimEnd, FirstLine;
    var line := FirstLine(s);
    if TrimEnd(line) == HEADING {
      HeadingStays(s);
      TrimEndTwice(s);
      TrimEndParts(s);
      if Free(s, END) {
        FreePart(s, END, 0, |TrimEnd(s)|);
        assert s[0..|TrimEnd(s)|] == TrimEnd(s);
      }
    } else {
      if Free(s, END) {
        FreePart(s, END, |line|, |s|);
        assert s[|line|..|s|] == s[|line|..];
      }
      SectionReadsBack(s[|line|..]);
    }
  }

  /** A heading already inside `a` swallows everything that follows. */
  lemma {:induction false} SectionGrows(a: string, b: string)
    requires LearnedSection(a).Some? && TrimEnd(b) != ""
    ensures LearnedSection(a + "\n" + b).Some? && |LearnedSection(a + "\n" + b).value| > |TrimEnd(b)|
    decreases |a|
  {
    hide TrimEnd, FirstLine;
    var s := a + "\n" + b;
    assert s == a + ("\n" + b) && s == (a + "\n") + b;
    FirstLineOver(a, "\n" + b);
    FirstLineOver("\n", b);
    SpacesOnly();
    TrimEndOver(a + "\n", b);
    TrimEndTwice(a);
    if '\n' !in a {
      FirstLineOver(a, "");
      assert a + "" == a;
      WholeLine(a);
    }
    if TrimEnd(FirstLine(a)) != HEADING {
      var n := |FirstLine(a)|;
      if a[n..] != "" {
        LineEnds(a);
      }
      assert s[n..] == a[n..] + "\n" + b;
      SectionGrows(a[n..], b);
    }
  }

  // ---- What writing leaves ----

  predicate MarkerFree(s: string) {
    Free(s, START) && Free(s, END)
  }

  /** A file the writer may be pointed at: absent, without markers, or with a block in order. */
  predicate Fit(existing: Option<string>) {
    existing.None? || MarkerFree(existing.value) || HasBlock(existing.value)
  }

  function Prose(existing: Option<string>): string {
    if existing.None? then "" else if HasBlock(existing.value) then Before(existing.value)
    else existing.value + Separator(existing.value)
  }

  function Adopted(existing: Option<string>): Option<string> {
    if existing.Some? && HasBlock(existing.value) then LearnedSection(Inner(existing.value)) else None
  }

  function Trailing(existing: Option<string>): string {
    if existing.Some? && HasBlock(existing.value) then TrimStartNewlines(After(existing.value)) else ""
  }

  lemma InnerFree(body: string, learned: Option<string>)
    requires Free(body, END) && (learned.Some? ==> Free(learned.value, END))
    ensures Free(BlockInner(body, learned), END)
  {
    hide Find;
    Markers();
    NewlineFree();
    FreeConcat("\n", body, END);
    if learned.Some? {
      FreeConcat("\n" + body, "\n", END);
      FreeConcat("\n" + body + "\n", learned.value, END);
      FreeConcat("\n" + body + "\n" + learned.value, "\n", END);
      assert BlockInner(body, learned) == "\n" + body + "\n" + learned.value + "\n";
    } else {
      assert BlockInner(body, learned) == "\n" + body;
    }
  }

  lemma NewlineFree()
    ensures Free("\n", END) && Free("\n", START) && Free("\n\n", END) && Free("\n\n", START) && Free("", START)
            && Free("", END)
  {
  }

  lemma ProseFree(existing: Option<string>)
    requires Fit(existing)
    ensures MarkerFree(Prose(existing))
  {
    hide Find;
    Markers();
    NewlineFree();
    if existing.Some? && HasBlock(existing.value) {
      Decompose(existing.value);
    } else if existing.Some? {
      FreeConcat(existing.value, Separator(existing.value), START);
      FreeConcat(existing.value, Separator(existing.value), END);
    }
  }

  lemma AdoptedFree(existing: Option<string>)
    ensures Adopted(existing).Some? ==> Free(Adopted(existing).value, END)
  {
    hide Find;
    if Adopted(existing).Some? {
      Decompose(existing.value);
      SectionReadsBack(Inner(existing.value));
    }
  }

  lemma WriteShape(existing: Option<string>, body: string)
    ensures Write(existing, body) ==
            Prose(existing) + START + BlockInner(body, Adopted(existing)) + END + ("\n" + Trailing(existing))
    ensures BlockInner(body, Adopted(existing)) != "" && BlockInner(body, Adopted(existing))[0] == '\n'
  {
    hide Find, LearnedSection, TrimStartNewlines, HasBlock, Before, Inner, After, Separator;
    var inner := BlockInner(body, Adopted(existing));
    SetIn(Prose(existing), START, inner, END, "\n", Trailing(existing));
    InnerStarts(body, Adopted(existing));
    hide BlockInner;
    var block := START + inner + END + "\n";
    if existing.None? {
      assert "" + block + "" == block;
    } else if !HasBlock(existing.value) {
      assert Prose(existing) + block + "" == Prose(existing) + block;
    }
  }

  lemma InnerStarts(body: string, learned: Option<string>)
    ensures BlockInner(body, learned) != "" && BlockInner(body, learned)[0] == '\n'
  {
  }

  lemma SetIn(before: string, opening: string, inner: string, closing: string, end: string, after: string)
    ensures before + (opening + inner + closing + end) + after == before + opening + inner + closing + (end + after)
  {
  }

  /** Whatever the file was, the written one is prose, block and trailing text, in that order. */
  lemma WrittenParts(existing: Option<string>, body: string)
    requires Fit(existing) && Free(body, END)
    ensures var s := Write(existing, body);
            && HasBlock(s) && Before(s) == Prose(existing)
            && Inner(s) == BlockInner(body, Adopted(existing)) && After(s) == "\n" + Trailing(existing)
  {
    hide Find, LearnedSection;
    var inner := BlockInner(body, Adopted(existing));
    ProseFree(existing);
    AdoptedFree(existing);
    InnerFree(body, Adopted(existing));
    hide BlockInner, Prose, Trailing, HasBlock, Before, Inner, After;
    PartsOf(Prose(existing), inner, "\n" + Trailing(existing));
    WriteShape(existing, body);
  }

  lemma TrimStartTwice(s: string)
    ensures TrimStartNewlines(TrimStartNewlines(s)) == TrimStartNewlines(s)
    ensures TrimStartNewlines("\n" + s) == TrimStartNewlines(s)
  {
    assert ("\n" + s)[1..] == s;
    if s != "" && s[0] == '\n' {
      TrimStartTwice(s[1..]);
    }
  }

  /** What the next write carries over: exactly what this one did, unless the body brings a heading of its own. */
  lemma NextAdopted(body: string, learned: Option<string>)
    requires learned.Some? ==> learned.value != "" && TrimEnd(learned.value) == learned.value
    requires learned.Some? ==> LearnedSection(learned.value + "\n") == learned
    ensures LearnedSection(BlockInner(body, learned)) == learned <==> LearnedSection(body).None?
  {
    hide TrimEnd, FirstLine;
    SpacesOnly();
    var rest := body + if learned.Some? then "\n" + learned.value + "\n" else "";
    assert BlockInner(body, learned) == "\n" + rest;
    assert "\n"[1..] == "";
    SkipLines("\n", rest);
    if learned.Some? {
      assert rest == (body + "\n") + (learned.value + "\n");
      if LearnedSection(body).None? {
        AddNewline(body);
        SkipLines(body + "\n", learned.value + "\n");
      } else {
        TrimEndTwice(learned.value);
        SectionGrows(body, learned.value + "\n");
      }
    } else {
      assert rest == body;
    }
  }

  lemma AdoptedReadsBack(existing: Option<string>)
    ensures var learned := Adopted(existing);
            learned.Some? ==>
              && learned.value != "" && TrimEnd(learned.value) == learned.value
              && LearnedSection(learned.value + "\n") == learned
  {
    if Adopted(existing).Some? {
      SectionReadsBack(Inner(existing.value));
    }
  }

  /** One write: prose kept byte for byte, the section kept, the trailing text less its leading newlines. */
  lemma WriteKeeps(existing: Option<string>, body: string)
    requires Fit(existing) && Free(body, END)
    ensures var s := Some(Write(existing, body));
            && HasBlock(s.value) && Fit(s) && Prose(s) == Prose(existing) && Trailing(s) == Trailing(existing)
            && (Adopted(s) == Adopted(existing) <==> LearnedSection(body).None?)
  {
    hide Find, LearnedSection, BlockInner, TrimEnd;
    WrittenParts(existing, body);
    AdoptedReadsBack(existing);
    NextAdopted(body, Adopted(existing));
    if existing.Some? && HasBlock(existing.value) {
      TrimStartTwice(After(existing.value));
      TrimStartTwice(Trailing(existing));
    } else {
      TrimStartTwice("");
    }
  }

  /** Writing the same block again changes nothing, exactly when the body has no heading line of its own. */
  lemma WriteTwice(existing: Option<string>, body: string)
    requires Fit(existing) && Free(body, END)
    ensures Write(Some(Write(existing, body)), body) == Write(existing, body) <==> LearnedSection(body).None?
  {
    hide Find, LearnedSection, Write, Prose, Trailing, Adopted, BlockInner, HasBlock;
    WriteKeeps(existing, body);
    var once := Some(Write(existing, body));
    WriteShape(existing, body);
    WriteShape(once, body);
    BlockInnerInjective(body, Adopted(existing), Adopted(once));
    var head, tail := Prose(existing) + START, END + ("\n" + Trailing(existing));
    Sandwich(head, BlockInner(body, Adopted(existing)), BlockInner(body, Adopted(once)), tail);
    assert Write(existing, body) == head + BlockInner(body, Adopted(existing)) + tail;
    assert Write(once, body) == head + BlockInner(body, Adopted(once)) + tail;
  }

  lemma BlockInnerInjective(body: string, a: Option<string>, b: Option<string>)
    ensures BlockInner(body, a) == BlockInner(body, b) <==> a == b
  {
    var x, y := BlockInner(body, a), BlockInner(body, b);
    if a.Some? && b.Some? && x == y {
      assert a.value == x[|body| + 2..|x| - 1] && b.value == y[|body| + 2..|y| - 1];
    }
  }

  lemma Sandwich(head: string, a: string, b: string, tail: string)
    ensures head + a + tail == head + b + tail <==> a == b
  {
    if head + a + tail == head + b + tail {
      assert a == (head + a + tail)[|head|..|head| + |a|];
      assert b == (head + b + tail)[|head|..|head| + |b|];
    }
  }

  function WriteAll(existing: Option<string>, bodies: seq<string>): Option<string>
    decreases |bodies|
  {
    if bodies == [] then existing else WriteAll(Some(Write(existing, bodies[0])), bodies[1..])
  }

  /** Any sequence of writes, with any bodies: the same three things are kept from the first file. */
  lemma {:induction false} AnyWritesKeep(existing: Option<string>, bodies: seq<string>)
    requires Fit(existing) && forall b <- bodies :: Free(b, END) && LearnedSection(b).None?
    ensures var s := WriteAll(existing, bodies);
            && Fit(s) && Prose(s) == Prose(existing) && Adopted(s) == Adopted(existing)
              && Trailing(s) == Trailing(existing)
    decreases |bodies|
  {
    hide Find, LearnedSection, Write, Prose, Trailing, Adopted, Fit;
    if bodies != [] {
      assert bodies[0] in bodies;
      WriteKeeps(existing, bodies[0]);
      AnyWritesKeep(Some(Write(existing, bodies[0])), bodies[1..]);
    }
  }

  // ---- Removing ----

  predicate Newlines(s: string) {
    forall i | 0 <= i < |s| :: s[i] == '\n'
  }

  lemma {:induction false} TrimEndNewlinesOver(s: string, extra: string)
    requires Newlines(extra)
    ensures TrimEndNewlines(s + extra) == TrimEndNewlines(s)
    decreases |extra|
  {
    if extra == "" {
      assert s + extra == s;
    } else {
      var init := extra[..|extra| - 1];
      assert (s + extra)[..|s + extra| - 1] == s + init && (s + extra)[|s + extra| - 1] == extra[|extra| - 1];
      TrimEndNewlinesOver(s, init);
    }
  }

  lemma {:induction false} TrimEndNewlinesKept(s: string)
    ensures var kept := TrimEndNewlines(s);
            kept <= s && Newlines(s[|kept|..]) && (kept != "" ==> kept[|kept| - 1] != '\n')
    decreases |s|
  {
    if s != "" && s[|s| - 1] == '\n' {
      var init := s[..|s| - 1];
      TrimEndNewlinesKept(init);
      assert s == init + [s[|s| - 1]];
      var n := |TrimEndNewlines(init)|;
      assert s[n..] == init[n..] + [s[|s| - 1]];
    } else {
      assert s[|s|..] == "";
    }
  }

  lemma TrimEndNewlinesParts(s: string, extra: string)
    requires Newlines(extra)
    ensures var kept := TrimEndNewlines(s);
            && kept <= s && Newlines(s[|kept|..]) && (kept != "" ==> kept[|kept| - 1] != '\n')
            && TrimEndNewlines(s + extra) == kept
  {
    hide TrimEndNewlines;
    TrimEndNewlinesKept(s);
    TrimEndNewlinesOver(s, extra);
  }

  /** Exactly one newline at the end, after something else. */
  predicate EndsInOneNewline(s: string) {
    |s| >= 2 && s[|s| - 1] == '\n' && s[|s| - 2] != '\n'
  }

  /** For a file without markers, removing the block restores it exactly when it was empty or ended in one newline. */
  lemma RemoveUndoesWrite(file: string, body: string)
    requires MarkerFree(file) && Free(body, END)
    ensures Remove(Write(Some(file), body)).Some?
    ensures Remove(Write(Some(file), body)) == Some(file) <==> file == "" || EndsInOneNewline(file)
  {
    hide Find, LearnedSection, Write, BlockInner, TrimEndNewlines;
    assert !HasBlock(file);
    WrittenParts(Some(file), body);
    TrimEndNewlinesParts(file, Separator(file));
    TrimStartTwice("");
    var kept := TrimEndNewlines(file);
    var written := Write(Some(file), body);
    assert TrimEndNewlines(Before(written)) == kept;
    assert TrimStartNewlines(After(written)) == "";
    var out := kept + if kept == "" then "" else "\n";
    assert out + "" == out;
    OneNewline(kept, file[|kept|..]);
    assert file == kept + file[|kept|..];
  }

  lemma OneNewline(kept: string, newlines: string)
    requires Newlines(newlines) && (kept != "" ==> kept[|kept| - 1] != '\n')
    ensures kept + newlines == kept + (if kept == "" then "" else "\n") <==>
            kept + newlines == "" || EndsInOneNewline(kept + newlines)
  {
    var file := kept + newlines;
    if kept != "" && |newlines| == 1 {
      assert newlines == "\n";
    }
    if |newlines| >= 2 {
      assert file[|file| - 2] == newlines[|newlines| - 2];
    }
  }

  /** Re-writing a block never changes what removing it leaves. */
  lemma RemoveIgnoresRewrite(file: string, body: string)
    requires HasBlock(file) && Free(body, END)
    ensures Remove(Write(Some(file), body)) == Remove(file)
  {
    hide Find, LearnedSection, Write, BlockInner, TrimEndNewlines;
    WrittenParts(Some(file), body);
    TrimStartTwice(After(file));
    TrimStartTwice(Trailing(Some(file)));
  }

  // ---- A file put together from its parts ----

  /** A file with text before and after a block, and newlines around it. */
  ghost predicate InParts(p: string, above: string, inner: string, below: string, q: string) {
    && MarkerFree(p) && Free(inner, END) && Newlines(above) && Newlines(below)
    && (p != "" ==> p[|p| - 1] != '\n') && (q != "" ==> q[0] != '\n')
  }

  function FromParts(p: string, above: string, inner: string, below: string, q: string): string {
    p + above + "<!-- gavin:start -->" + inner + "<!-- gavin:end -->" + below + q
  }

  lemma NewlinesFree(p: string, newlines: string, pat: string)
    requires Free(p, pat) && Newlines(newlines) && Solid(pat)
    ensures Free(p + newlines, pat)
  {
    hide Find;
    if Find(newlines, pat).Some? {
      CharAt(newlines, pat, Find(newlines, pat).value, Find(newlines, pat).value);
    }
    FreeConcat(p, newlines, pat);
  }

  lemma {:induction false} TrimBelow(below: string, q: string)
    requires Newlines(below) && (q != "" ==> q[0] != '\n')
    ensures TrimStartNewlines(below + q) == q
    decreases |below|
  {
    if below == "" {
      assert below + q == q;
    } else {
      assert (below + q)[1..] == below[1..] + q;
      TrimBelow(below[1..], q);
    }
  }

  lemma TrimAbove(p: string, above: string)
    requires Newlines(above) && (p != "" ==> p[|p| - 1] != '\n')
    ensures TrimEndNewlines(p + above) == p
  {
    TrimEndNewlinesParts(p, above);
  }

  lemma TakenApart(p: string, above: string, inner: string, below: string, q: string)
    requires InParts(p, above, inner, below, q)
    ensures var file := FromParts(p, above, inner, below, q);
            HasBlock(file) && Before(file) == p + above && Inner(file) == inner && After(file) == below + q
  {
    hide Find, HasBlock, Before, Inner, After;
    Markers();
    NewlinesFree(p, above, START);
    NewlinesFree(p, above, END);
    PartsOf(p + above, inner, below + q);
    assert FromParts(p, above, inner, below, q) == (p + above) + START + inner + END + (below + q);
  }

  /** Removing a block leaves what was before it and what was after, a blank line apart where there is both. */
  lemma RemoveOnParts(p: string, above: string, inner: string, below: string, q: string)
    requires InParts(p, above, inner, below, q)
    ensures Remove(FromParts(p, above, inner, below, q)) ==
            Some(p + (if p == "" then "" else if q == "" then "\n" else "\n\n") + q)
  {
    hide Find, HasBlock, Before, Inner, After, FromParts, TrimEndNewlines, TrimStartNewlines;
    TakenApart(p, above, inner, below, q);
    TrimAbove(p, above);
    TrimBelow(below, q);
  }

  /** Writing a block over one changes its inside, but for the section carried over, and the newlines after it. */
  lemma WriteOnParts(p: string, above: string, inner: string, below: string, q: string, body: string)
    requires InParts(p, above, inner, below, q)
    ensures var learned := LearnedSection(inner);
            Write(Some(FromParts(p, above, inner, below, q)), body) ==
            FromParts(p, above, "\n" + body + (if learned.Some? then "\n" + learned.value + "\n" else ""), "\n", q)
  {
    hide Find, HasBlock, Before, Inner, After, TrimStartNewlines, LearnedSection;
    TakenApart(p, above, inner, below, q);
    TrimBelow(below, q);
    hide FromParts;
    WriteOver(FromParts(p, above, inner, below, q), body);
    BlockOnParts(p + above, BlockInner(body, LearnedSection(inner)), q);
    FromGrouped(p, above, BlockInner(body, LearnedSection(inner)), q);
  }

  lemma BlockOnParts(before: string, inner: string, q: string)
    ensures before + (START + inner + END + "\n") + q == before + START + inner + END + "\n" + q
  {
  }

  lemma FromGrouped(p: string, above: string, inner: string, q: string)
    ensures FromParts(p, above, inner, "\n", q) == (p + above) + START + inner + END + "\n" + q
  {
  }

  /** So remove after write leaves a file that has text after its block as removing the old block would. */
  lemma RemoveAfterRewrite(p: string, above: string, inner: string, below: string, q: string, body: string)
    requires InParts(p, above, inner, below, q) && Free(body, END)
    ensures Remove(Write(Some(FromParts(p, above, inner, below, q)), body)) ==
            Some(p + (if p == "" then "" else if q == "" then "\n" else "\n\n") + q)
  {
    hide Find, HasBlock, FromParts, Write, Remove;
    TakenApart(p, above, inner, below, q);
    RemoveOnParts(p, above, inner, below, q);
    RemoveIgnoresRewrite(FromParts(p, above, inner, below, q), body);
  }

  /** Onto a file without markers the block is appended, one blank line below what is there. */
  lemma WriteOnPlain(file: string, body: string)
    requires MarkerFree(file)
    ensures Write(Some(file), body) ==
            file + (if file == "" then ""
                    else if file[|file| - 1] != '\n' then "\n\n"
                    else if |file| >= 2 && file[|file| - 2] == '\n' then ""
                    else "\n")
            + "<!-- gavin:start -->" + ("\n" + body) + "<!-- gavin:end -->" + "\n"
  {
    hide Find;
    AppendShape(file, body);
    if |file| >= 2 {
      assert file[|file| - 2..] == [file[|file| - 2], file[|file| - 1]];
    }
  }

  // ---- The section, by its lines ----

  predicate IsHeadingLine(line: string) {
    TrimEnd(line) == "### Learned"
  }

  ghost predicate FirstHeading(lines: seq<string>, i: nat) {
    i < |lines| && IsHeadingLine(lines[i]) && forall j | 0 <= j < i :: !IsHeadingLine(lines[j])
  }

  /** There is a section exactly when some line, right-trimmed, is the heading; it starts at the first such line. */
  lemma {:induction false} SectionByLines(s: string)
    ensures LearnedSection(s).None? ==> forall i | 0 <= i < |Lines(s)| :: !IsHeadingLine(Lines(s)[i])
    ensures LearnedSection(s).Some? ==>
              exists i: nat :: FirstHeading(Lines(s), i) && LearnedSection(s).value == TrimEnd(Concat(Lines(s)[i..]))
    decreases |s|
  {
    hide TrimEnd, FirstLine, IsHeadingLine, LearnedSection, Lines, Concat;
    if s == "" {
      NoLines();
    } else {
      var rest := s[|FirstLine(s)|..];
      SectionStep(s);
      SectionByLines(rest);
      if IsHeadingLine(FirstLine(s)) {
        LinesConcat(s);
        assert Lines(s)[0..] == Lines(s) && FirstHeading(Lines(s), 0);
      } else if LearnedSection(rest).Some? {
        var i: nat :| FirstHeading(Lines(rest), i) && LearnedSection(rest).value == TrimEnd(Concat(Lines(rest)[i..]));
        HeadingLater(FirstLine(s), Lines(rest), i);
      }
    }
  }

  lemma NoLines()
    ensures Lines("") == [] && LearnedSection("").None?
  {
  }

  lemma SectionStep(s: string)
    requires s != ""
    ensures var line, rest := FirstLine(s), s[|FirstLine(s)|..];
            && Lines(s) == [line] + Lines(rest)
            && LearnedSection(s) == if IsHeadingLine(line) then Some(TrimEnd(s)) else LearnedSection(rest)
  {
    hide TrimEnd, FirstLine;
  }

  lemma HeadingLater(line: string, lines: seq<string>, i: nat)
    requires !IsHeadingLine(line) && FirstHeading(lines, i)
    ensures FirstHeading([line] + lines, i + 1) && ([line] + lines)[i + 1..] == lines[i..]
  {
    hide IsHeadingLine;
    assert forall j | 0 < j < |lines| + 1 :: ([line] + lines)[j] == lines[j - 1];
  }

  // ---- Files whose markers are not in order ----

  lemma FindPrefix(a: string, b: string, pat: string)
    requires Find(a, pat).Some?
    ensures Find(a + b, pat) == Find(a, pat)
  {
    hide Find;
    var i := Find(a, pat).value;
    OccursIn(a, b, pat, i);
    var j := Find(a + b, pat).value;
    OccursIn(a, b, pat, j);
  }

  /** An end marker with no start marker before it: every write appends another block. */
  lemma ReversedMarkersAppend(file: string, body: string)
    requires Find(file, END).Some? && !HasBlock(file)
    ensures var once := Write(Some(file), body);
            !HasBlock(once) && Write(Some(once), body) == once + Separator(once) + BlockWith(body, None)
  {
    hide Find, Separator;
    var added := Separator(file) + BlockWith(body, None);
    assert Write(Some(file), body) == file + added;
    FindPrefix(file, added, END);
    if Find(file, START).Some? {
      FindPrefix(file, added, START);
    } else if Find(file + added, START).Some? {
      OccursIn(file, added, START, Find(file + added, START).value);
      MarkersNotBefore(file, added);
    }
  }

  /** A start marker that only an appended text completes comes after every end marker already there. */
  lemma MarkersNotBefore(file: string, added: string)
    requires Find(file, END).Some? && Find(file, START).None? && Find(file + added, START).Some?
    ensures Find(file, END).value < Find(file + added, START).value
  {
    hide Find;
    Markers();
    var i, e := Find(file + added, START).value, Find(file, END).value;
    OccursIn(file, added, START, i);
    OccursIn(file, added, END, e);
    CharAt(file + added, END, e, e);
    CharAt(file + added, START, i, i + 11);
    CharAt(file + added, END, e, e + 11);
    if i <= e < i + |START| {
      CharAt(file + added, START, i, e);
    }
  }

  lemma SeparatorEndsLine(pre: string, tail: string)
    requires LearnedSection(tail).None?
    ensures var sep := Separator(pre + START + tail); EndsLine(tail + sep) && LearnedSection(tail + sep).None?
  {
    hide LearnedSection;
    var file := pre + START + tail;
    if tail == "" {
      assert file[|file| - 1] == START[19] && START[19] == '>';
    } else {
      assert file[|file| - 1] == tail[|tail| - 1];
    }
    AddNewline(tail);
    AddNewline(tail + "\n");
    assert tail + "\n" + "\n" == tail + "\n\n" && tail + "" == tail;
    if file[|file| - 2..] == "\n\n" {
      assert file[|file| - 2..][1] == file[|file| - 1];
    }
  }

  lemma NoHash(line: string)
    requires line != "" && line[0] != '#' && FirstLine(line) == line
    ensures LearnedSection(line).None?
  {
    hide TrimEnd;
    TrimEndParts(line);
    assert line[|line|..] == "";
    assert TrimEnd(line) != "" ==> TrimEnd(line)[0] == line[0];
  }

  lemma StartLineIsNoHeading()
    ensures LearnedSection(START + "\n").None?
  {
    hide FirstLine, LearnedSection;
    Markers();
    FirstLineOver(START, "\n");
    SpacesOnly();
    NoHash(START + "\n");
  }

  lemma SeparatorFree(file: string)
    ensures Separator(file) in {"", "\n", "\n\n"} && Free(Separator(file), END)
  {
    NewlineFree();
  }

  lemma PartsAt(pre: string, inner: string, post: string)
    requires var s := pre + START + inner + END + post;
             Find(s, START) == Some(|pre|) && Find(s, END) == Some(|pre + START + inner|)
    ensures var s := pre + START + inner + END + post;
            HasBlock(s) && Before(s) == pre && Inner(s) == inner && After(s) == post
  {
    hide Find;
    MarkersApart(pre + START + inner + END + post);
  }

  lemma Regroup(a: string, b: string, c: string, d: string)
    ensures (a + b) + c + d == a + (b + c + d)
  {
  }

  lemma Regroup2(a: string, b: string, c: string, d: string)
    ensures a + b + c + d == a + (b + c + d)
  {
  }

  lemma Regroup3(a: string, b: string, c: string, d: string, n: string, e: string)
    ensures (a + b + c) + d + b + (n + e) == a + b + ((c + d) + ((b + n) + e))
  {
  }

  lemma HalfBlockFirstEnd(file: string, body: string)
    requires Free(file, END) && Free(body, END)
    ensures Free(file + Separator(file) + START + ("\n" + body), END)
  {
    hide Find, Separator;
    Markers();
    NewlineFree();
    SeparatorFree(file);
    FreeConcat(file, Separator(file), END);
    StartIsNotEnd();
    FreeConcat(file + Separator(file), START, END);
    FreeConcat("\n", body, END);
    FreeConcat(file + Separator(file) + START, "\n" + body, END);
  }

  lemma AppendShape(file: string, body: string)
    requires !HasBlock(file)
    ensures Write(Some(file), body) == file + Separator(file) + START + ("\n" + body) + END + "\n"
  {
    hide Find, Separator, LearnedSection;
    assert BlockInner(body, None) == "\n" + body;
  }

  /** The first write onto a half block, as the second will take it apart. */
  lemma HalfBlockParts(pre: string, tail: string, body: string)
    requires Free(pre, START) && Free(pre + START + tail, END) && Free(body, END)
    ensures var file := pre + START + tail; var once := Write(Some(file), body);
            && !HasBlock(file) && HasBlock(once) && Before(once) == pre && After(once) == "\n"
            && Inner(once) == (tail + Separator(file)) + ((START + "\n") + body)
  {
    hide Find, LearnedSection, Separator, Write, Before, After, Inner;
    Markers();
    var file := pre + START + tail;
    var sep := Separator(file);
    var inner := (tail + sep) + ((START + "\n") + body);
    HalfBlockFirstEnd(file, body);
    FindAfter(pre, START, tail);
    var head := file + sep + START + ("\n" + body);
    FindAfter(head, END, "\n");
    AppendShape(file, body);
    FindPrefix(file, (sep + START + ("\n" + body)) + END + "\n", START);
    Regroup(file, sep + START + ("\n" + body), END, "\n");
    Regroup2(file, sep, START, "\n" + body);
    Regroup3(pre, START, tail, sep, "\n", body);
    PartsAt(pre, inner, "\n");
  }

  /**
   A start marker whose end marker is gone. The first write appends a whole block after it; the
   second takes everything from the stray marker to that block's end for the block, and keeps of it
   only what a Learned section there would hold.
   */
  lemma HalfBlockRewritten(pre: string, tail: string, body: string)
    requires Free(pre, START) && Free(pre + START + tail, END) && Free(body, END)
    ensures var file := pre + START + tail; var once := Write(Some(file), body);
            Write(Some(once), body) ==
            pre + BlockWith(body, LearnedSection((tail + Separator(file)) + ((START + "\n") + body)))
  {
    hide Find, LearnedSection, Separator, BlockWith;
    var once := Write(Some(pre + START + tail), body);
    HalfBlockParts(pre, tail, body);
    TrimStartTwice("");
    assert "\n" + "" == "\n";
    var section := LearnedSection((tail + Separator(pre + START + tail)) + ((START + "\n") + body));
    assert pre + BlockWith(body, section) + "" == pre + BlockWith(body, section);
    hide Write, HasBlock, Before, After, Inner;
    WriteOver(once, body);
  }

  /** Of a tail and a body without a heading line nothing is kept, the human's text included. */
  lemma HalfBlockSwallowsText(pre: string, tail: string, body: string)
    requires Free(pre, START) && Free(pre + START + tail, END) && LearnedSection(tail).None?
    requires Free(body, END) && LearnedSection(body).None?
    ensures var once := Write(Some(pre + START + tail), body);
            Write(Some(once), body) == pre + BlockWith(body, None)
  {
    hide Find, LearnedSection, Separator, Write, BlockWith, FirstLine;
    var file := pre + START + tail;
    HalfBlockRewritten(pre, tail, body);
    SeparatorEndsLine(pre, tail);
    StartLineIsNoHeading();
    SkipLines(START + "\n", body);
    SkipLines(tail + Separator(file), (START + "\n") + body);
  }

  /** Of a tail with a heading line, the text from that line on is kept, and ends up at the head of the new section. */
  lemma HalfBlockKeepsSection(pre: string, tail: string, body: string)
    requires Free(pre, START) && Free(pre + START + tail, END) && Free(body, END) && LearnedSection(tail).Some?
    ensures var file := pre + START + tail;
            var section := LearnedSection((tail + Separator(file)) + ((START + "\n") + body));
            && section.Some? && LearnedSection(tail).value <= section.value
            && Write(Some(Write(Some(file), body)), body) == pre + BlockWith(body, section)
  {
    hide Find, LearnedSection, Separator, Write, BlockWith;
    HalfBlockRewritten(pre, tail, body);
    SectionOfNothing();
    SeparatorStarts(pre, tail);
    SectionStays(tail, Separator(pre + START + tail), (START + "\n") + body);
  }

  lemma FirstOfNewlines(sep: string, b: string)
    requires Newlines(sep) && sep != ""
    ensures FirstLine(sep + b) == "\n"
  {
    assert sep + b == "" + "\n" + (sep[1..] + b);
    IndexOfFirst("", '\n', sep[1..] + b);
    assert (sep + b)[..1] == "\n";
  }

  lemma SeparatorStarts(pre: string, tail: string)
    requires tail != ""
    ensures var sep := Separator(pre + START + tail); Newlines(sep) && (sep == "" ==> EndsLine(tail))
  {
    var file := pre + START + tail;
    assert file[|file| - 1] == tail[|tail| - 1];
    if file[|file| - 2..] == "\n\n" {
      assert file[|file| - 2..][1] == file[|file| - 1];
    }
  }

  lemma SectionOfNothing()
    ensures LearnedSection("").None?
  {
  }

  /** A section at the end of a text stays the head of one when whole lines follow. */
  lemma {:induction false} SectionStays(a: string, sep: string, b: string)
    requires LearnedSection(a).Some? && Newlines(sep) && (sep == "" ==> EndsLine(a))
    ensures LearnedSection((a + sep) + b).Some? && LearnedSection(a).value <= LearnedSection((a + sep) + b).value
    decreases |a|
  {
    hide TrimEnd, FirstLine;
    var s := (a + sep) + b;
    var n := |FirstLine(a)|;
    assert s == a + (sep + b) && a != "" && s != "";
    FirstLineOver(a, sep + b);
    if sep != "" {
      FirstOfNewlines(sep, b);
    }
    if '\n' !in a {
      WholeLine(a);
      TrimEndOver(a, "\n");
      SpacesOnly();
    }
    if TrimEnd(FirstLine(a)) == HEADING {
      TrimEndOver(a, sep + b);
      TrimEndParts(a);
    } else {
      assert a[n..] != "" && s[n..] == (a[n..] + sep) + b;
      LineEnds(a);
      assert sep == "" ==> EndsLine(a[n..]);
      SectionStays(a[n..], sep, b);
    }
  }

  lemma WriteOver(file: string, body: string)
    requires HasBlock(file)
    ensures Write(Some(file), body) ==
            Before(file) + BlockWith(body, LearnedSection(Inner(file))) + TrimStartNewlines(After(file))
  {
    hide Find, LearnedSection, BlockWith, TrimStartNewlines;
  }
}
