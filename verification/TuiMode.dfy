/** The one line gavin edits in kimi's `tui.toml` (`with_kimi_fullscreen` in `agent_setup.rs`). */
module TuiMode {
  import opened Prelude
  import opened Text

  const KEY: string := "tui_mode"
  const REGULAR: string := "\"regular\""
  const FULLSCREEN: string := "\"fullscreen\""
  const NEW_KEY: string := "tui_mode = \"fullscreen\""

  function Indent(line: string): string {
    line[..|line| - |TrimStart(line)|]
  }

  /** What follows `tui_mode =`, when the line is such a line. */
  function KeyRest(line: string): Option<string> {
    AfterKey(TrimStart(line))
  }

  function AfterKey(body: string): Option<string> {
    if !(KEY <= body) then None
    else
      var after := TrimStart(body[|KEY|..]);
      if after != "" && after[0] == '=' then Some(after[1..]) else None
  }

  function TrimEol(s: string): (r: string)
    ensures r <= s
  {
    if s != "" && (s[|s| - 1] == '\n' || s[|s| - 1] == '\r') then TrimEol(s[..|s| - 1]) else s
  }

  function Eol(line: string): string {
    line[|TrimEol(line)|..]
  }

  function ValueOf(rest: string): string {
    Trim(rest[..IndexOf(rest, '#')])
  }

  /** The trailing comment, without its line ending. */
  function CommentOf(rest: string): Option<string> {
    var i := IndexOf(rest, '#');
    if i < |rest| then Some(TrimEol(rest[i..])) else None
  }

  function Rewritten(line: string, rest: string): string {
    Indent(line) + NEW_KEY + (if CommentOf(rest).Some? then " " + CommentOf(rest).value else "") + Eol(line)
  }

  datatype Scan = NoKey | Present | Changed(lines: seq<string>) | Foreign(value: string)

  /** What the first key line of the text calls for. */
  function ScanLines(lines: seq<string>): Scan {
    if lines == [] then NoKey
    else
      var rest := KeyRest(lines[0]);
      if rest.None? then
        var later := ScanLines(lines[1..]);
        if later.Changed? then Changed([lines[0]] + later.lines) else later
      else if ValueOf(rest.value) == FULLSCREEN then Present
      else if ValueOf(rest.value) == REGULAR then Changed([Rewritten(lines[0], rest.value)] + lines[1..])
      else Foreign(ValueOf(rest.value))
  }

  /** The new text, `None` when there is nothing to change, or the value gavin leaves alone. */
  function WithFullscreen(text: string): Result<Option<string>> {
    match ScanLines(Lines(text))
    case NoKey => Ok(Some(NEW_KEY + "\n" + text))
    case Present => Ok(None)
    case Changed(lines) => Ok(Some(Concat(lines)))
    case Foreign(value) => Err(value)
  }

  /** The answer still to come when `out` has been written and `rest` is left. */
  function Resume(text: string, out: string, found: bool, changed: bool, rest: seq<string>): Result<Option<string>> {
    if found then Ok(if changed then Some(out + Concat(rest)) else None)
    else
      match ScanLines(rest)
      case NoKey => Ok(Some(NEW_KEY + "\n" + text))
      case Present => Ok(None)
      case Changed(lines) => Ok(Some(out + Concat(lines)))
      case Foreign(value) => Err(value)
  }

  lemma ResumeOver(text: string, out: string, found: bool, changed: bool, rest: seq<string>)
    requires rest != [] && (found || KeyRest(rest[0]).None?)
    ensures Resume(text, out, found, changed, rest) == Resume(text, out + rest[0], found, changed, rest[1..])
  {
    hide KeyRest;
    assert out + Concat(rest) == out + rest[0] + Concat(rest[1..]);
    var later := ScanLines(rest[1..]);
    if later.Changed? {
      assert ([rest[0]] + later.lines)[1..] == later.lines;
      assert out + Concat([rest[0]] + later.lines) == out + rest[0] + Concat(later.lines);
    }
  }

  lemma ResumeAtKey(text: string, out: string, lines: seq<string>)
    requires lines != [] && KeyRest(lines[0]).Some?
    ensures var line, value := lines[0], ValueOf(KeyRest(lines[0]).value);
            Resume(text, out, false, false, lines) ==
            if value == FULLSCREEN then Resume(text, out + line, true, false, lines[1..])
            else if value == REGULAR then Resume(text, out + Rewritten(line, KeyRest(line).value), true, true,
              lines[1..])
            else Err(value)
  {
    hide KeyRest, ValueOf, Rewritten;
    var line := Rewritten(lines[0], KeyRest(lines[0]).value);
    assert ([line] + lines[1..])[1..] == lines[1..];
    assert out + Concat([line] + lines[1..]) == out + line + Concat(lines[1..]);
  }

  /** The loop of the source: `found`, `changed` and `out` over the lines. */
  method WithKimiFullscreen(text: string) returns (result: Result<Option<string>>)
    ensures result == WithFullscreen(text)
  {
    hide KeyRest, Resume, TrimStart, TrimEol, Trim, TrimEnd, IndexOf;
    var found, changed, out := false, false, "";
    var lines := Lines(text);
    assert Resume(text, out, found, changed, lines) == WithFullscreen(text) by { ResumeAll(text); }
    assert lines[0..] == lines;
    for i := 0 to |lines|
      invariant changed ==> found
      invariant Resume(text, out, found, changed, lines[i..]) == WithFullscreen(text)
    {
      var line := lines[i];
      assert lines[i..][1..] == lines[i + 1..];
      var rest := KeyRest(line);
      if rest.None? || found {
        ResumeOver(text, out, found, changed, lines[i..]);
        out := out + line;
        continue;
      }
      ResumeAtKey(text, out, lines[i..]);
      found := true;
      var eol := line[|TrimEol(line)|..];
      var hash := IndexOf(rest.value, '#');
      var value := Trim(rest.value[..hash]);
      var comment := if hash < |rest.value| then Some(TrimEol(rest.value[hash..])) else None;
      if value == FULLSCREEN {
        out := out + line;
      } else if value == REGULAR {
        changed := true;
        var indent := line[..|line| - |TrimStart(line)|];
        ghost var before := out;
        out := out + indent + NEW_KEY;
        if comment.Some? {
          out := out + " " + comment.value;
        }
        out := out + eol;
        assert out == before + Rewritten(line, rest.value);
      } else {
        return Err(value);
      }
    }
    ResumeEnd(text, out, found, changed);
    if !found {
      return Ok(Some(NEW_KEY + "\n" + text));
    }
    return Ok(if changed then Some(out) else None);
  }

  lemma ResumeAll(text: string)
    ensures Resume(text, "", false, false, Lines(text)) == WithFullscreen(text)
  {
    hide ScanLines;
    match ScanLines(Lines(text)) {
      case Changed(lines) => assert "" + Concat(lines) == Concat(lines);
      case _ =>
    }
  }

  lemma ResumeEnd(text: string, out: string, found: bool, changed: bool)
    ensures Resume(text, out, found, changed, []) ==
            if !found then Ok(Some(NEW_KEY + "\n" + text)) else Ok(if changed then Some(out) else None)
  {
    assert out + "" == out;
  }

  // ---- What the new line says ----

  lemma TrimStartParts(s: string)
    ensures forall c <- s[..|s| - |TrimStart(s)|] :: IsSpace(c)
    ensures TrimStart(s) != "" ==> !IsSpace(TrimStart(s)[0])
  {
  }

  lemma {:induction false} TrimStartOver(spaces: string, s: string)
    requires forall c <- spaces :: IsSpace(c)
    ensures TrimStart(spaces + s) == TrimStart(s)
    decreases |spaces|
  {
    if spaces == "" {
      assert spaces + s == s;
    } else {
      assert spaces[0] in spaces;
      assert (spaces + s)[1..] == spaces[1..] + s;
      TrimStartOver(spaces[1..], s);
    }
  }

  predicate EolChars(s: string) {
    forall i | 0 <= i < |s| :: s[i] == '\n' || s[i] == '\r'
  }

  lemma {:induction false} TrimEolOver(s: string, eol: string)
    requires EolChars(eol)
    ensures TrimEol(s + eol) == TrimEol(s)
    decreases |eol|
  {
    if eol == "" {
      assert s + eol == s;
    } else {
      assert (s + eol)[..|s + eol| - 1] == s + eol[..|eol| - 1];
      TrimEolOver(s, eol[..|eol| - 1]);
    }
  }

  lemma TrimEolParts(s: string)
    ensures EolChars(s[|TrimEol(s)|..])
    ensures TrimEol(s) == "" || (TrimEol(s)[|TrimEol(s)| - 1] != '\n' && TrimEol(s)[|TrimEol(s)| - 1] != '\r')
    ensures TrimEol(TrimEol(s)) == TrimEol(s)
  {
  }

  lemma KeySuffix(body: string)
    requires AfterKey(body).Some?
    ensures var rest := AfterKey(body).value; |rest| + |KEY| + 1 <= |body| && rest == body[|body| - |rest|..]
  {
    hide TrimStart;
    var after := TrimStart(body[|KEY|..]);
    Suffixes(body, |KEY|, after);
  }

  lemma Suffixes(s: string, n: nat, after: string)
    requires n <= |s| && after != "" && |after| <= |s| - n && after == s[n..][|s| - n - |after|..]
    ensures after[1..] == s[|s| - |after[1..]|..]
  {
    assert after == s[|s| - |after|..];
  }

  lemma SuffixOfSuffix(line: string, body: string, rest: string)
    requires |rest| <= |body| <= |line| && body == line[|line| - |body|..] && rest == body[|body| - |rest|..]
    ensures rest == line[|line| - |rest|..]
  {
  }

  lemma RestIsSuffix(line: string)
    requires KeyRest(line).Some?
    ensures var rest := KeyRest(line).value;
            |rest| + |KEY| + 1 <= |TrimStart(line)| <= |line| && rest == line[|line| - |rest|..]
  {
    hide AfterKey, TrimStart;
    KeySuffix(TrimStart(line));
    SuffixOfSuffix(line, TrimStart(line), KeyRest(line).value);
  }

  /** The shape every rewritten line has: an indent, the new key, perhaps a comment, the old line ending. */
  ghost predicate Pieces(indent: string, comment: Option<string>, eol: string) {
    && (forall c <- indent :: IsSpace(c)) && '\n' !in indent
    && (comment.Some? ==>
          && comment.value != "" && comment.value[0] == '#' && '\n' !in comment.value
          && TrimEol(comment.value) == comment.value)
    && EolChars(eol) && (eol != "" ==> '\n' !in eol[..|eol| - 1])
  }

  function Assemble(indent: string, comment: Option<string>, eol: string): string {
    indent + NEW_KEY + (if comment.Some? then " " + comment.value else "") + eol
  }

  lemma PiecesOf(line: string)
    requires IsLine(line) && KeyRest(line).Some?
    ensures Pieces(Indent(line), CommentOf(KeyRest(line).value), Eol(line))
    ensures Ended(line) <==> Ended(Eol(line))
  {
    hide TrimStart, TrimEol, KeyRest;
    RestIsSuffix(line);
    TrimStartParts(line);
    TrimEolParts(line);
    var rest := KeyRest(line).value;
    var i := IndexOf(rest, '#');
    assert forall k | 0 <= k < |line| - 1 :: line[..|line| - 1][k] == line[k];
    assert line == TrimEol(line) + Eol(line);
    if i < |rest| {
      TrimEolParts(rest[i..]);
      TrimEolHash(rest[i..]);
      CommentHasNoNewline(line, rest[i..]);
    }
  }

  lemma TrimEolHash(s: string)
    requires s != "" && s[0] == '#'
    ensures TrimEol(s) != "" && TrimEol(s)[0] == '#'
  {
  }

  lemma CommentHasNoNewline(line: string, tail: string)
    requires IsLine(line) && tail != "" && |tail| <= |line| && tail == line[|line| - |tail|..]
    ensures '\n' !in TrimEol(tail)
  {
    TrimEolParts(tail);
    var kept := TrimEol(tail);
    forall k | 0 <= k < |kept| ensures kept[k] != '\n' {
      var at := |line| - |tail| + k;
      assert kept[k] == line[at];
      if at < |line| - 1 {
        assert line[..|line| - 1][at] == line[at];
      } else {
        assert k == |kept| - 1;
      }
    }
  }

  lemma StartsBare(s: string)
    requires s != "" && !IsSpace(s[0])
    ensures TrimStart(s) == s
  {
  }

  lemma KeyLineReads(value: string)
    ensures var line := KEY + (" = " + value); TrimStart(line) == line && KeyRest(line) == Some(" " + value)
  {
    hide TrimStart;
    var line := KEY + (" = " + value);
    assert line[0] == KEY[0] && KEY[0] == 't';
    assert line[|KEY|..] == " = " + value;
    assert " = " + value == " " + ("= " + value);
    StartsBare(line);
    TrimStartOver(" ", "= " + value);
    StartsBare("= " + value);
    assert ("= " + value)[1..] == " " + value;
  }

  lemma NewKeyReads(tail: string)
    ensures TrimStart(NEW_KEY + tail) == NEW_KEY + tail
    ensures KeyRest(NEW_KEY + tail) == Some(" " + FULLSCREEN + tail)
  {
    hide TrimStart, KeyRest;
    KeyLineReads(FULLSCREEN + tail);
    assert NEW_KEY == KEY + " = " + FULLSCREEN;
    assert NEW_KEY + tail == KEY + (" = " + (FULLSCREEN + tail));
    assert " " + (FULLSCREEN + tail) == " " + FULLSCREEN + tail;
  }

  lemma TrimAround(core: string, eol: string)
    requires core != "" && !IsSpace(core[0]) && !IsSpace(core[|core| - 1]) && forall c <- eol :: IsSpace(c)
    ensures Trim(" " + core + eol) == core
  {
    var s := " " + core + eol;
    assert s[1..] == core + eol;
    assert TrimStart(s[1..]) == s[1..];
    AllSpaces(eol);
    TrimEndOver(core, eol);
  }

  lemma ValueReads(eol: string)
    requires forall c <- eol :: IsSpace(c)
    ensures Trim(" " + FULLSCREEN + eol) == FULLSCREEN
  {
    hide Trim;
    assert FULLSCREEN[0] == '"' && FULLSCREEN[11] == '"' && |FULLSCREEN| == 12;
    TrimAround(FULLSCREEN, eol);
  }

  lemma AllSpaces(s: string)
    requires forall c <- s :: IsSpace(c)
    ensures TrimEnd(s) == ""
  {
  }

  lemma FullscreenRest(comment: Option<string>, eol: string)
    requires Pieces("", comment, eol)
    ensures var rest := " " + FULLSCREEN + (if comment.Some? then " " + comment.value else "") + eol;
            ValueOf(rest) == FULLSCREEN && CommentOf(rest) == comment
  {
    hide Trim, TrimEol;
    var rest := " " + FULLSCREEN + (if comment.Some? then " " + comment.value else "") + eol;
    if comment.Some? {
      var head := " " + FULLSCREEN + " ";
      var tail := comment.value[1..] + eol;
      assert comment.value == ['#'] + comment.value[1..];
      assert rest == head + ['#'] + tail;
      IndexOfFirst(head, '#', tail);
      assert rest[..|head|] == head && rest[|head|..] == comment.value + eol;
      ValueReads(" ");
      TrimEolOver(comment.value, eol);
    } else {
      assert rest == " " + FULLSCREEN + eol;
      assert '#' !in rest;
      assert rest[..|rest|] == rest;
      ValueReads(eol);
    }
  }

  lemma AssembledReads(indent: string, comment: Option<string>, eol: string)
    requires Pieces(indent, comment, eol)
    ensures var line := Assemble(indent, comment, eol);
            && Indent(line) == indent && Eol(line) == eol && IsLine(line) && (Ended(line) <==> Ended(eol))
            && KeyRest(line).Some? && ValueOf(KeyRest(line).value) == FULLSCREEN
              && CommentOf(KeyRest(line).value) == comment
  {
    hide TrimStart, TrimEol, ValueOf, CommentOf, KeyRest, IsSpace;
    var middle := if comment.Some? then " " + comment.value else "";
    AssembledKey(indent, middle, eol);
    FullscreenRest(comment, eol);
    AssembledEol(indent + NEW_KEY + middle, comment, eol);
  }

  lemma AssembledKey(indent: string, middle: string, eol: string)
    requires forall c <- indent :: IsSpace(c)
    ensures var line := indent + NEW_KEY + middle + eol;
            && Indent(line) == indent && KeyRest(line) == Some(" " + FULLSCREEN + middle + eol)
  {
    hide TrimStart, KeyRest, IsSpace;
    var body := NEW_KEY + (middle + eol);
    assert indent + NEW_KEY + middle + eol == indent + body;
    TrimStartOver(indent, body);
    NewKeyReads(middle + eol);
    KeyRestOver(indent, body);
    assert " " + FULLSCREEN + (middle + eol) == " " + FULLSCREEN + middle + eol;
  }

  lemma AssembledEol(head: string, comment: Option<string>, eol: string)
    requires Pieces("", comment, eol) && '\n' !in head && |head| >= |NEW_KEY|
    requires if comment.Some? then head[|head| - 1] == comment.value[|comment.value| - 1] else head[|head| - 1] == '"'
    ensures var line := head + eol; Eol(line) == eol && IsLine(line) && (Ended(line) <==> Ended(eol))
  {
    hide TrimEol, IsSpace;
    var line := head + eol;
    TrimEolOver(head, eol);
    NoEol(head, comment);
    assert line[|head|..] == eol;
    if eol != "" {
      assert line[..|line| - 1] == head + eol[..|eol| - 1];
    } else {
      assert line[..|line| - 1] == head[..|head| - 1];
    }
  }

  lemma KeyRestOver(indent: string, body: string)
    requires TrimStart(indent + body) == TrimStart(body)
    ensures KeyRest(indent + body) == KeyRest(body)
  {
    hide TrimStart, AfterKey;
  }

  lemma NoEol(head: string, comment: Option<string>)
    requires |head| >= |NEW_KEY|
    requires if comment.Some? then
               comment.value != "" && TrimEol(comment.value) == comment.value
                 && head[|head| - 1] == comment.value[|comment.value| - 1]
             else head[|head| - 1] == '"'
    ensures TrimEol(head) == head && head[|head| - 1] != '\n'
  {
  }

  /** The rewritten line keeps the old one's indent, comment and line ending, and reads fullscreen. */
  lemma RewrittenReads(line: string)
    requires IsLine(line) && KeyRest(line).Some?
    ensures var rest := KeyRest(line).value; var written := Rewritten(line, rest);
            && Indent(written) == Indent(line) && Eol(written) == Eol(line)
            && IsLine(written) && (Ended(written) <==> Ended(line))
            && KeyRest(written).Some? && CommentOf(KeyRest(written).value) == CommentOf(rest)
            && ValueOf(KeyRest(written).value) == FULLSCREEN
  {
    hide KeyRest, Indent, Eol, CommentOf, ValueOf;
    PiecesOf(line);
    AssembledReads(Indent(line), CommentOf(KeyRest(line).value), Eol(line));
  }

  /** The new lines differ from the old ones at one place, the first key line. */
  ghost predicate OneLineChanged(lines: seq<string>, written: seq<string>, k: nat) {
    && k < |lines| && |written| == |lines|
    && (forall j | 0 <= j < k :: KeyRest(lines[j]).None?)
    && KeyRest(lines[k]).Some? && ValueOf(KeyRest(lines[k]).value) == REGULAR
    && written == lines[k := Rewritten(lines[k], KeyRest(lines[k]).value)]
  }

  lemma {:induction false} ScanChanges(lines: seq<string>) returns (k: nat)
    requires AreLines(lines) && ScanLines(lines).Changed?
    ensures var written := ScanLines(lines).lines;
            OneLineChanged(lines, written, k) && AreLines(written) && ScanLines(written) == Present
    decreases |lines|
  {
    hide KeyRest, ValueOf, Rewritten, IsLine, Ended;
    var written := ScanLines(lines).lines;
    if KeyRest(lines[0]).None? {
      var rest := ScanLines(lines[1..]).lines;
      var later := ScanChanges(lines[1..]);
      k := later + 1;
      assert written == [lines[0]] + rest && lines == [lines[0]] + lines[1..];
      LineBefore(lines[0], lines[1..], rest, later);
      assert written[1..] == rest;
    } else {
      k := 0;
      RewrittenReads(lines[0]);
      assert written[1..] == lines[1..];
      FirstLineChanged(lines, written[0]);
    }
  }

  lemma LineBefore(line: string, lines: seq<string>, written: seq<string>, k: nat)
    requires KeyRest(line).None? && AreLines([line] + lines) && AreLines(written) && OneLineChanged(lines, written, k)
    ensures OneLineChanged([line] + lines, [line] + written, k + 1) && AreLines([line] + written)
  {
    hide KeyRest, ValueOf, Rewritten, IsLine, Ended;
    assert forall j | 0 <= j < |lines| :: ([line] + lines)[j + 1] == lines[j];
    assert forall j | 1 <= j <= |lines| :: ([line] + lines)[j] == lines[j - 1];
    assert Ended(([line] + lines)[0]) && IsLine(([line] + lines)[0]);
    forall j | 0 <= j <= |written|
      ensures var all := [line] + written; IsLine(all[j]) && (j + 1 < |all| ==> Ended(all[j]))
    {
      if j > 0 {
        assert ([line] + written)[j] == written[j - 1];
      }
    }
  }

  lemma FirstLineChanged(lines: seq<string>, line: string)
    requires AreLines(lines) && lines != [] && IsLine(line) && (Ended(lines[0]) ==> Ended(line))
    ensures AreLines([line] + lines[1..]) && [line] + lines[1..] == lines[0 := line]
  {
    hide IsLine, Ended;
    var written := [line] + lines[1..];
    forall j | 0 <= j < |written| ensures IsLine(written[j]) && (j + 1 < |written| ==> Ended(written[j])) {
      assert j > 0 ==> written[j] == lines[j];
    }
  }

  /** The first key line decides, whatever comes after it; without one a line is prepended. */
  lemma {:induction false} FirstKeyDecides(lines: seq<string>, k: nat)
    requires k <= |lines| && forall j | 0 <= j < k :: KeyRest(lines[j]).None?
    requires k < |lines| ==> KeyRest(lines[k]).Some?
    ensures ScanLines(lines) ==
            if k == |lines| then NoKey
            else
              var rest := KeyRest(lines[k]).value;
              if ValueOf(rest) == FULLSCREEN then Present
              else if ValueOf(rest) == REGULAR then Changed(lines[k := Rewritten(lines[k], rest)])
              else Foreign(ValueOf(rest))
    decreases k
  {
    hide KeyRest, ValueOf, Rewritten;
    if k > 0 {
      FirstKeyDecides(lines[1..], k - 1);
      if k < |lines| {
        var line := Rewritten(lines[k], KeyRest(lines[k]).value);
        assert [lines[0]] + lines[1..][k - 1 := line] == lines[k := line];
      }
    } else if lines != [] {
      var line := Rewritten(lines[0], KeyRest(lines[0]).value);
      assert [line] + lines[1..] == lines[0 := line];
    }
  }

  /** A new text: an edited first key line or a prepended one, and nothing left to change in it. */
  lemma FullscreenSettles(text: string)
    requires WithFullscreen(text).Ok? && WithFullscreen(text).value.Some?
    ensures var written := WithFullscreen(text).value.value;
            && WithFullscreen(written) == Ok(None)
            && (|| Lines(written) == [NEW_KEY + "\n"] + Lines(text)
                || exists k: nat :: OneLineChanged(Lines(text), Lines(written), k))
  {
    hide KeyRest, ValueOf, Rewritten;
    var lines := Lines(text);
    LinesConcat(text);
    if ScanLines(lines).Changed? {
      var k := ScanChanges(lines);
      ConcatLines(ScanLines(lines).lines);
    } else {
      var written := [NEW_KEY + "\n"] + lines;
      assert written[1..] == lines;
      NewKeyLine();
      assert AreLines(written);
      ConcatLines(written);
    }
  }

  lemma NewKeyLine()
    ensures var line := NEW_KEY + "\n";
            IsLine(line) && Ended(line) && KeyRest(line).Some? && ValueOf(KeyRest(line).value) == FULLSCREEN
  {
    hide KeyRest, ValueOf;
    assert Assemble("", None, "\n") == NEW_KEY + "\n";
    AssembledReads("", None, "\n");
  }

  // ---- A line, spelled out ----

  ghost predicate Blank(s: string) {
    forall i | 0 <= i < |s| :: IsSpace(s[i])
  }

  predicate Bare(s: string) {
    s == "" || (!IsSpace(s[0]) && !IsSpace(s[|s| - 1]))
  }

  lemma BlankIsSpaces(s: string)
    requires Blank(s)
    ensures forall c <- s :: IsSpace(c)
  {
  }

  lemma {:induction false} TrimEndBlank(s: string)
    requires Blank(s)
    ensures TrimEnd(s) == ""
    decreases |s|
  {
    if s != "" {
      TrimEndBlank(s[..|s| - 1]);
    }
  }

  lemma TrimCore(lead: string, core: string, trail: string)
    requires Blank(lead) && Blank(trail) && Bare(core)
    ensures Trim(lead + core + trail) == core
  {
    hide IsSpace;
    BlankIsSpaces(lead);
    assert lead + core + trail == lead + (core + trail);
    TrimStartOver(lead, core + trail);
    TrimEndBlank(trail);
    if core == "" {
      assert core + trail == trail;
      BlankStart(trail);
    } else {
      assert (core + trail)[0] == core[0];
      TrimEndOver(core, trail);
    }
  }

  lemma {:induction false} BlankStart(s: string)
    requires Blank(s)
    ensures TrimStart(s) == ""
  {
    if s != "" {
      BlankStart(s[1..]);
    }
  }

  /** A line is a key line exactly when it is spelled like one. */
  lemma KeyRestMeans(line: string, rest: string)
    ensures KeyRest(line) == Some(rest) <==>
            exists indent, gap :: Blank(indent) && Blank(gap) && line == indent + "tui_mode" + gap + "=" + rest
  {
    hide TrimStart, IsSpace, AfterKey;
    if KeyRest(line) == Some(rest) {
      var body := TrimStart(line);
      TrimStartParts(line);
      var indent := line[..|line| - |body|];
      var gap := AfterKeyParts(body, rest);
      assert Blank(indent) && line == indent + body;
      assert line == indent + "tui_mode" + gap + "=" + rest;
    }
    if exists indent, gap :: Blank(indent) && Blank(gap) && line == indent + "tui_mode" + gap + "=" + rest {
      var indent, gap :| Blank(indent) && Blank(gap) && line == indent + "tui_mode" + gap + "=" + rest;
      SpelledKey(indent, gap, rest);
    }
  }

  lemma AfterKeyParts(body: string, rest: string) returns (gap: string)
    requires AfterKey(body) == Some(rest)
    ensures Blank(gap) && body == "tui_mode" + gap + "=" + rest
  {
    hide TrimStart, IsSpace;
    var tail := body[|KEY|..];
    var after := TrimStart(tail);
    TrimStartParts(tail);
    gap := tail[..|tail| - |after|];
    hide Blank;
    assert Blank(gap) by { BlankOf(gap); }
    Glued(body, |KEY|, gap, after);
    assert body[..|KEY|] == KEY;
    assert after == "=" + rest;
    Grouped(KEY, gap, "=", rest);
  }

  lemma BlankOf(s: string)
    requires forall c <- s :: IsSpace(c)
    ensures Blank(s)
  {
  }

  lemma Glued(body: string, n: nat, gap: string, after: string)
    requires n <= |body| && body[n..] == gap + after
    ensures body == body[..n] + (gap + after)
  {
  }

  lemma Grouped(key: string, gap: string, sign: string, rest: string)
    ensures key + (gap + (sign + rest)) == key + gap + sign + rest
  {
  }

  lemma NoSpaceEither()
    ensures !IsSpace('t') && !IsSpace('=')
  {
  }

  lemma SpelledKey(indent: string, gap: string, rest: string)
    requires Blank(indent) && Blank(gap)
    ensures var line := indent + "tui_mode" + gap + "=" + rest;
            KeyRest(line) == Some(rest) && Indent(line) == indent
  {
    hide TrimStart, IsSpace, AfterKey, Blank;
    var body := KEY + (gap + ("=" + rest));
    SpelledAfter(gap, rest);
    IndentOver(indent, body);
    Grouped(indent, KEY, gap, "=" + rest);
    assert indent + (KEY + (gap + ("=" + rest))) == indent + KEY + gap + ("=" + rest);
    assert indent + KEY + gap + "=" + rest == indent + KEY + gap + ("=" + rest);
  }

  lemma IndentOver(indent: string, body: string)
    requires Blank(indent) && TrimStart(body) == body
    ensures TrimStart(indent + body) == body && Indent(indent + body) == indent
  {
    hide TrimStart, IsSpace;
    BlankIsSpaces(indent);
    TrimStartOver(indent, body);
  }

  lemma SpelledAfter(gap: string, rest: string)
    requires Blank(gap)
    ensures var body := KEY + (gap + ("=" + rest)); AfterKey(body) == Some(rest) && TrimStart(body) == body
  {
    hide TrimStart, IsSpace, Blank;
    var sign := "=" + rest;
    var body := KEY + (gap + sign);
    NoSpaceEither();
    assert body[0] == KEY[0] == 't';
    StartsBare(body);
    StartsBare(sign);
    BlankIsSpaces(gap);
    TrimStartOver(gap, sign);
    assert body[|KEY|..] == gap + sign && sign[1..] == rest;
  }

  /** The value, trimmed, and the comment from its `#` on. */
  lemma ValueAndComment(lead: string, value: string, trail: string, comment: string, eol: string)
    requires Blank(lead) && Blank(trail) && Bare(value) && '#' !in value && EolChars(eol)
    requires comment == "" || (comment[0] == '#' && TrimEol(comment) == comment)
    ensures var rest := lead + value + trail + comment + eol;
            && ValueOf(rest) == value
            && CommentOf(rest) == if comment == "" then None else Some(comment)
  {
    hide TrimStart, TrimEnd, Trim, TrimEol, IndexOf;
    var before, rest := lead + value + trail, lead + value + trail + comment + eol;
    NoHashIn(lead, value, trail);
    EolIsBlank(eol);
    if comment == "" {
      assert rest == before + eol && '#' !in rest;
      assert rest[..|rest|] == rest && lead + value + (trail + eol) == rest;
      TrimCore(lead, value, trail + eol);
    } else {
      assert rest == before + ['#'] + (comment[1..] + eol);
      IndexOfFirst(before, '#', comment[1..] + eol);
      assert rest[..|before|] == before && rest[|before|..] == comment + eol;
      TrimEolOver(comment, eol);
      TrimCore(lead, value, trail);
    }
  }

  lemma NoHashIn(lead: string, value: string, trail: string)
    requires Blank(lead) && Blank(trail) && '#' !in value
    ensures '#' !in lead + value + trail
  {
  }

  lemma EolIsBlank(eol: string)
    requires EolChars(eol)
    ensures Blank(eol) && '#' !in eol
  {
  }

  /**
   A text of one key line: left alone, edited, or refused, by its value; the edit keeps indent,
   comment and line ending.
   */
  lemma OneKeyLine(indent: string, gap: string, lead: string, value: string, trail: string, comment: string,
                   eol: string)
    requires Blank(indent) && Blank(gap) && Blank(lead) && Blank(trail) && Bare(value) && '#' !in value
    requires comment == "" || (comment[0] == '#' && TrimEol(comment) == comment)
    requires eol in {"", "\n", "\r\n"}
    requires comment == "" ==> TrimEol(lead + value + trail) == lead + value + trail
    ensures var line := indent + "tui_mode" + gap + "=" + (lead + value + trail + comment + eol);
            IsLine(line) ==>
              WithFullscreen(line) ==
              if value == "\"fullscreen\"" then Ok(None)
              else if value == "\"regular\"" then
                Ok(Some(indent + "tui_mode = \"fullscreen\"" + (if comment == "" then "" else " " + comment) + eol))
              else Err(value)
  {
    hide KeyRest, ValueOf, CommentOf, Indent, Eol, TrimEol, Lines, IsSpace;
    var rest := lead + value + trail + comment + eol;
    var line := indent + "tui_mode" + gap + "=" + rest;
    SpelledKey(indent, gap, rest);
    ValueAndComment(lead, value, trail, comment, eol);
    EolOf(indent + "tui_mode" + gap + "=", lead + value + trail, comment, eol);
    assert line == indent + "tui_mode" + gap + "=" + (lead + value + trail) + comment + eol;
    if IsLine(line) {
      LinesOfOne(line);
      assert [line][1..] == [];
      assert [Rewritten(line, rest)] + [] == [Rewritten(line, rest)];
      ConcatOne(Rewritten(line, rest));
    }
  }

  lemma EolOf(head: string, value: string, comment: string, eol: string)
    requires EolChars(eol) && (comment == "" ==> TrimEol(value) == value) && TrimEol(comment) == comment
    requires head != "" && head[|head| - 1] == '='
    ensures Eol(head + value + comment + eol) == eol
  {
    var whole := head + value + comment;
    TrimEolOver(whole, eol);
    assert (whole + eol)[|whole|..] == eol;
    TrimEolLast(comment);
    TrimEolLast(value);
    assert comment != "" ==> whole[|whole| - 1] == comment[|comment| - 1];
    assert comment == "" ==> whole[|whole| - 1] == if value != "" then value[|value| - 1] else '=';
  }

  lemma TrimEolLast(s: string)
    ensures s != "" && TrimEol(s) == s ==> s[|s| - 1] != '\n' && s[|s| - 1] != '\r'
  {
  }

  lemma LinesOfOne(line: string)
    requires IsLine(line)
    ensures Lines(line) == [line]
  {
    ConcatOne(line);
    ConcatLines([line]);
  }

  lemma ConcatOne(line: string)
    ensures Concat([line]) == line
  {
    assert Concat([line][1..]) == "";
  }
}
