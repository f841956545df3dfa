/**
 `plain_text` of `agent_skills.rs`: a terminal program's output as the text it leaves on screen.
 The source peeks ahead in one pass; here the same reading is also a machine fed one character
 at a time, which is what makes it streamable.
 */
module PlainText {
  import opened Prelude

  const ESC: char := '\U{1b}'

  /** What has been read but not yet settled. */
  datatype Mode = Ground | Escape | Control(params: string) | Return

  datatype Screen = Screen(out: string, mode: Mode)

  /** The output up to and including its last newline: the lines nothing can redraw any more. */
  function Completed(out: string): (lines: string)
    ensures lines <= out
  {
    if out == "" then "" else if out[|out| - 1] == '\n' then out else Completed(out[..|out| - 1])
  }

  predicate Final(c: char) {
    '@' <= c <= '~'
  }

  /** The two control sequences that redraw: cursor to column one, and clear to an end. */
  predicate Clears(params: string, final: char) {
    (final == 'G' && (params == "" || params == "1")) || final == 'J' || final == 'K'
  }

  function Plain(out: string, c: char): Screen {
    if c == ESC then Screen(out, Escape) else if c == '\r' then Screen(out, Return) else Screen(out + [c], Ground)
  }

  function Feed(s: Screen, c: char): Screen {
    match s.mode
    case Ground => Plain(s.out, c)
    case Escape => if c == '[' then Screen(s.out, Control("")) else Screen(s.out, Ground)
    case Control(params) =>
      if Final(c) then Screen(if Clears(params, c) then Completed(s.out) else s.out, Ground)
      else Screen(s.out, Control(params + [c]))
    case Return => Plain(if c == '\n' then s.out else Completed(s.out), c)
  }

  function FeedAll(s: Screen, text: string): Screen
    decreases |text|
  {
    if text == "" then s else FeedAll(Feed(s, text[0]), text[1..])
  }

  function Settle(s: Screen): string {
    if s.mode.Return? then Completed(s.out) else s.out
  }

  const BLANK := Screen("", Ground)

  function Visible(raw: string): string {
    Settle(FeedAll(BLANK, raw))
  }

  // ---- The one-pass reading ----

  /** `out` cut back to the start of its last line. */
  method ClearLine(out: string) returns (cleared: string)
    ensures cleared == Completed(out)
  {
    var n := |out|;
    assert out[..n] == out;
    while n > 0 && out[n - 1] != '\n'
      invariant 0 <= n <= |out| && Completed(out[..n]) == Completed(out)
    {
      assert out[..n][..n - 1] == out[..n - 1];
      n := n - 1;
    }
    return out[..n];
  }

  method PlainText(raw: string) returns (out: string)
    ensures out == Visible(raw)
  {
    hide Completed;
    out := "";
    var i := 0;
    assert raw[0..] == raw;
    while i < |raw|
      invariant i <= |raw| && Settle(FeedAll(Screen(out, Ground), raw[i..])) == Visible(raw)
    {
      var c := raw[i];
      assert raw[i..][1..] == raw[i + 1..];
      i := i + 1;
      if c == ESC {
        if i == |raw| || raw[i] != '[' {
          if i < |raw| {
            assert raw[i..][1..] == raw[i + 1..];
            i := i + 1;
          }
          continue;
        }
        assert raw[i..][1..] == raw[i + 1..];
        i := i + 1;
        var params, last := "", None;
        while i < |raw| && last.None?
          invariant i <= |raw|
          invariant last.None? ==> Settle(FeedAll(Screen(out, Control(params)), raw[i..])) == Visible(raw)
          invariant last.Some? ==>
                      Settle(FeedAll(Screen(if Clears(params, last.value) then Completed(out) else out, Ground),
                        raw[i..])) == Visible(raw)
          decreases |raw| - i, last.None?
        {
          var n := raw[i];
          assert raw[i..][1..] == raw[i + 1..];
          i := i + 1;
          if '@' <= n <= '~' {
            last := Some(n);
          } else {
            params := params + [n];
          }
        }
        var toColumnOne := last == Some('G') && (params == "" || params == "1");
        if toColumnOne || last == Some('J') || last == Some('K') {
          out := ClearLine(out);
        }
      } else if c == '\r' {
        if i < |raw| && raw[i] == '\n' {
          continue;
        }
        out := ClearLine(out);
      } else {
        out := out + [c];
      }
    }
  }

  // ---- What it leaves ----

  predicate NoControls(text: string) {
    forall i | 0 <= i < |text| :: text[i] != ESC && text[i] != '\r'
  }

  lemma {:induction false} FeedConcat(s: Screen, x: string, y: string)
    ensures FeedAll(s, x + y) == FeedAll(FeedAll(s, x), y)
    decreases |x|
  {
    if x == "" {
      assert x + y == y;
    } else {
      assert (x + y)[1..] == x[1..] + y;
      FeedConcat(Feed(s, x[0]), x[1..], y);
    }
  }

  lemma CompletedParts(out: string)
    ensures Completed(Completed(out)) == Completed(out)
    ensures Completed(out) == "" || Completed(out)[|Completed(out)| - 1] == '\n'
    ensures forall i | |Completed(out)| <= i < |out| :: out[i] != '\n'
  {
  }

  /** Completed lines never shrink when text is added. */
  lemma CompletedGrows(out: string, more: string)
    ensures Completed(out) <= Completed(out + more)
  {
    if more == "" {
      assert out + more == out;
    } else {
      assert (out + more)[..|out + more| - 1] == out + more[..|more| - 1];
      CompletedGrows(out, more[..|more| - 1]);
    }
  }

  lemma FeedKeeps(s: Screen, c: char)
    ensures Completed(s.out) <= Completed(Feed(s, c).out)
    ensures NoControls(s.out) ==> NoControls(Feed(s, c).out)
  {
    hide Completed;
    CompletedParts(s.out);
    PlainKeeps(s.out, c);
    PlainKeeps(Completed(s.out), c);
  }

  lemma PlainKeeps(out: string, c: char)
    ensures Completed(out) <= Completed(Plain(out, c).out)
    ensures NoControls(out) ==> NoControls(Plain(out, c).out)
  {
    CompletedGrows(out, [c]);
  }

  lemma {:induction false} FeedAllKeeps(s: Screen, text: string)
    ensures Completed(s.out) <= Completed(FeedAll(s, text).out)
    ensures NoControls(s.out) ==> NoControls(FeedAll(s, text).out)
    decreases |text|
  {
    if text != "" {
      FeedKeeps(s, text[0]);
      FeedAllKeeps(Feed(s, text[0]), text[1..]);
    }
  }

  lemma {:induction false} FeedPlain(out: string, text: string)
    requires NoControls(text)
    ensures FeedAll(Screen(out, Ground), text) == Screen(out + text, Ground)
    decreases |text|
  {
    if text == "" {
      assert out + text == out;
    } else {
      assert out + [text[0]] + text[1..] == out + text;
      FeedPlain(out + [text[0]], text[1..]);
    }
  }

  /** The output holds no escape and no carriage return; on text without them nothing changes. */
  lemma VisibleIsPlain(raw: string)
    ensures NoControls(Visible(raw))
    ensures NoControls(raw) ==> Visible(raw) == raw
    ensures Visible(Visible(raw)) == Visible(raw)
  {
    FeedAllKeeps(BLANK, raw);
    FeedPlain("", Visible(raw));
    assert "" + Visible(raw) == Visible(raw);
    if NoControls(raw) {
      FeedPlain("", raw);
      assert "" + raw == raw;
    }
  }

  /** Streaming: the lines already completed stay as they are whatever comes next, wherever the text was cut. */
  lemma CompletedLinesStay(x: string, y: string)
    ensures Completed(Visible(x)) <= Completed(Visible(x + y)) <= Visible(x + y)
  {
    var s := FeedAll(BLANK, x);
    FeedConcat(BLANK, x, y);
    CompletedParts(s.out);
    FeedAllKeeps(s, y);
    CompletedParts(FeedAll(s, y).out);
  }

  /** Reading can stop anywhere, inside an escape sequence too, and go on from the screen it left. */
  lemma ReadsOn(x: string, y: string)
    ensures Visible(x + y) == Settle(FeedAll(FeedAll(BLANK, x), y))
  {
    FeedConcat(BLANK, x, y);
  }

  lemma FeedClear(out: string, params: string, final: char)
    requires Final(final) && forall i | 0 <= i < |params| :: !Final(params[i])
    ensures FeedAll(Screen(out, Ground), [ESC] + "[" + params + [final]) ==
            Screen(if Clears(params, final) then Completed(out) else out, Ground)
  {
    var text := [ESC] + "[" + params + [final];
    assert text[1..] == "[" + (params + [final]) && text[1..][1..] == params + [final];
    assert FeedAll(Screen(out, Ground), text) == FeedAll(Screen(out, Control("")), params + [final]);
    FeedParams(out, "", params, [final]);
    assert "" + params == params && [final][1..] == "";
  }

  lemma {:induction false} FeedParams(out: string, seen: string, params: string, rest: string)
    requires forall i | 0 <= i < |params| :: !Final(params[i])
    ensures FeedAll(Screen(out, Control(seen)), params + rest) == FeedAll(Screen(out, Control(seen + params)), rest)
    decreases |params|
  {
    if params == "" {
      assert params + rest == rest && seen + params == seen;
    } else {
      assert (params + rest)[1..] == params[1..] + rest;
      assert seen + [params[0]] + params[1..] == seen + params;
      FeedParams(out, seen + [params[0]], params[1..], rest);
    }
  }

  /**
   A spinner: after anything that ends outside an escape sequence, a redraw and a frame leave
   the completed lines and that last frame, whatever frames were drawn on the line before.
   */
  lemma RedrawLeavesLastFrame(x: string, params: string, final: char, frame: string)
    requires FeedAll(BLANK, x).mode.Ground? && NoControls(frame)
    requires Final(final) && Clears(params, final) && forall i | 0 <= i < |params| :: !Final(params[i])
    ensures Visible(x + ([ESC] + "[" + params + [final]) + frame) == Completed(Visible(x)) + frame
  {
    var code := [ESC] + "[" + params + [final];
    var s := FeedAll(BLANK, x);
    FeedConcat(BLANK, x + code, frame);
    FeedConcat(BLANK, x, code);
    FeedClear(s.out, params, final);
    FeedPlain(Completed(s.out), frame);
  }

  // ---- The screen, element by element ----

  /**
   What a terminal text is made of: plain text, `ESC` and one character, a control sequence, a line
   end, a lone return.
   */
  datatype Element = Frame(text: string) | Short(c: char) | Sequence(params: string, final: char) | CrLf | LoneReturn

  function Spelled(e: Element): string {
    match e
    case Frame(text) => text
    case Short(c) => ['\U{1b}', c]
    case Sequence(params, final) => ['\U{1b}'] + "[" + params + [final]
    case CrLf => "\r\n"
    case LoneReturn => "\r"
  }

  function SpelledAll(es: seq<Element>): string {
    if es == [] then "" else Spelled(es[0]) + SpelledAll(es[1..])
  }

  predicate NoFinal(params: string) {
    forall i | 0 <= i < |params| :: !('@' <= params[i] <= '~')
  }

  predicate IsElement(e: Element) {
    match e
    case Frame(text) => NoControls(text)
    case Short(c) => c != '['
    case Sequence(params, final) => NoFinal(params) && '@' <= final <= '~'
    case CrLf => true
    case LoneReturn => true
  }

  /** A sequence the text ends in the middle of. */
  predicate Unfinished(tail: string) {
    tail == "" || tail == [ESC] || ([ESC, '['] <= tail && NoFinal(tail[2..]))
  }

  predicate BeginsLine(s: string) {
    s != "" && s[0] == '\n'
  }

  /** Elements, no lone return before a newline, and perhaps an unfinished sequence. */
  predicate Reads(es: seq<Element>, tail: string) {
    if es == [] then Unfinished(tail)
    else
      && IsElement(es[0]) && Reads(es[1..], tail)
      && (es[0].LoneReturn? ==> !BeginsLine(SpelledAll(es[1..]) + tail))
  }

  /**
   What a terminal shows for them: a redraw or a lone return takes the line back, a line end ends
   it, the rest is silent.
   */
  function ShownAfter(out: string, e: Element): string {
    match e
    case Frame(text) => out + text
    case Short(_) => out
    case Sequence(params, final) =>
      if (final == 'G' && (params == "" || params == "1")) || final == 'J' || final == 'K' then Completed(out) else out
    case CrLf => out + "\n"
    case LoneReturn => Completed(out)
  }

  function Shown(out: string, es: seq<Element>): string
    decreases |es|
  {
    if es == [] then out else Shown(ShownAfter(out, es[0]), es[1..])
  }

  lemma FeedElement(out: string, e: Element, rest: string)
    requires IsElement(e) && !e.LoneReturn?
    ensures FeedAll(Screen(out, Ground), Spelled(e) + rest) == FeedAll(Screen(ShownAfter(out, e), Ground), rest)
  {
    FeedConcat(Screen(out, Ground), Spelled(e), rest);
    match e {
      case Frame(text) => FeedPlain(out, text);
      case Short(c) =>
        assert [ESC, c][1..] == [c] && [c][1..] == "";
        assert FeedAll(Screen(out, Escape), [c]) == FeedAll(Screen(out, Ground), "");
      case Sequence(params, final) => FeedClear(out, params, final);
      case CrLf =>
        assert "\r\n"[1..] == "\n" && "\n"[1..] == "";
        assert FeedAll(Screen(out, Return), "\n") == FeedAll(Screen(out + "\n", Ground), "");
    }
  }

  /** After a return, anything but a newline finds the line taken back. */
  lemma FeedReturn(out: string, rest: string)
    requires !BeginsLine(rest)
    ensures Settle(FeedAll(Screen(out, Ground), "\r" + rest)) == Settle(FeedAll(Screen(Completed(out), Ground), rest))
  {
    assert ("\r" + rest)[1..] == rest;
    if rest != "" {
      assert Feed(Screen(out, Return), rest[0]) == Feed(Screen(Completed(out), Ground), rest[0]);
    }
  }

  lemma FeedUnfinished(out: string, tail: string)
    requires Unfinished(tail)
    ensures Settle(FeedAll(Screen(out, Ground), tail)) == out
  {
    if tail == [ESC] {
      assert [ESC][1..] == "";
      assert FeedAll(Screen(out, Escape), "") == Screen(out, Escape);
    } else if tail != "" {
      var params := tail[2..];
      assert tail[1..][1..] == params && tail[0] == ESC && tail[1] == '[';
      assert FeedAll(Screen(out, Ground), tail) == FeedAll(Screen(out, Control("")), params);
      FeedParams(out, "", params, "");
      assert params + "" == params && "" + params == params;
    }
  }

  lemma {:induction false} FeedElements(out: string, es: seq<Element>, tail: string)
    requires Reads(es, tail)
    ensures Settle(FeedAll(Screen(out, Ground), SpelledAll(es) + tail)) == Shown(out, es)
    decreases |es|
  {
    hide FeedAll, Settle, Completed;
    if es == [] {
      FeedUnfinished(out, tail);
      assert SpelledAll(es) + tail == tail;
    } else {
      var rest := SpelledAll(es[1..]) + tail;
      assert SpelledAll(es) + tail == Spelled(es[0]) + rest;
      FeedElements(ShownAfter(out, es[0]), es[1..], tail);
      if es[0].LoneReturn? {
        FeedReturn(out, rest);
      } else {
        FeedElement(out, es[0], rest);
      }
    }
  }

  /** The text left of any terminal output is what a terminal shows for its elements. */
  lemma VisibleIsShown(es: seq<Element>, tail: string)
    requires Reads(es, tail)
    ensures Visible(SpelledAll(es) + tail) == Shown("", es)
  {
    FeedElements("", es, tail);
  }

  /** And every text is made of them. */
  lemma {:induction false} EveryTextReads(raw: string) returns (es: seq<Element>, tail: string)
    ensures Reads(es, tail) && raw == SpelledAll(es) + tail
    decreases |raw|
  {
    if raw == "" || raw == [ESC] {
      es, tail := [], raw;
    } else if [ESC, '['] <= raw && NoFinal(raw[2..]) {
      es, tail := [], raw;
    } else {
      var e, n := FirstElement(raw);
      es, tail := EveryTextReads(raw[n..]);
      es := Preceded(e, es, tail, raw);
    }
  }

  lemma Preceded(e: Element, es: seq<Element>, tail: string, raw: string) returns (all: seq<Element>)
    requires IsElement(e) && Reads(es, tail) && raw == Spelled(e) + (SpelledAll(es) + tail)
    requires e.LoneReturn? ==> !BeginsLine(SpelledAll(es) + tail)
    ensures Reads(all, tail) && raw == SpelledAll(all) + tail
  {
    all := [e] + es;
    assert all[1..] == es;
  }

  lemma FirstElement(raw: string) returns (e: Element, n: nat)
    requires raw != "" && raw != [ESC] && !([ESC, '['] <= raw && NoFinal(raw[2..]))
    ensures 0 < n <= |raw| && IsElement(e) && raw == Spelled(e) + raw[n..]
    ensures e.LoneReturn? ==> !BeginsLine(raw[n..])
  {
    if [ESC, '['] <= raw {
      n := FinalAt(raw[2..]);
      var params := raw[2..][..n];
      e, n := Sequence(params, raw[n + 2]), n + 3;
      assert raw[..n] == [ESC] + "[" + params + [raw[n - 1]];
    } else if raw[0] == ESC {
      e, n := Short(raw[1]), 2;
    } else if raw[0] == '\r' {
      if |raw| > 1 && raw[1] == '\n' {
        e, n := CrLf, 2;
      } else {
        e, n := LoneReturn, 1;
      }
    } else {
      e, n := Frame([raw[0]]), 1;
    }
  }

  /** Where the first character that can end a control sequence stands. */
  function FinalAt(s: string): (n: nat)
    ensures n <= |s| && NoFinal(s[..n]) && (n < |s| ==> '@' <= s[n] <= '~')
  {
    if s == "" || '@' <= s[0] <= '~' then 0 else 1 + FinalAt(s[1..])
  }

  lemma {:induction false} ShownOver(out: string, a: seq<Element>, b: seq<Element>)
    ensures Shown(out, a + b) == Shown(Shown(out, a), b)
    decreases |a|
  {
    if a == [] {
      assert a + b == b;
    } else {
      assert (a + b)[1..] == a[1..] + b;
      ShownOver(ShownAfter(out, a[0]), a[1..], b);
    }
  }

  lemma {:induction false} ReadsOver(a: seq<Element>, b: seq<Element>, tail: string)
    requires Reads(a, "") && Reads(b, tail) && !BeginsLine(SpelledAll(b) + tail)
    ensures Reads(a + b, tail) && SpelledAll(a + b) == SpelledAll(a) + SpelledAll(b)
    decreases |a|
  {
    hide IsElement, Unfinished, Spelled, BeginsLine;
    if a == [] {
      assert a + b == b;
    } else {
      assert (a + b)[1..] == a[1..] + b && (a + b)[0] == a[0];
      ReadsOver(a[1..], b, tail);
      if a[0].LoneReturn? {
        BeginsOver(SpelledAll(a[1..]), SpelledAll(b), tail);
      }
      Grouped(Spelled(a[0]), SpelledAll(a[1..]), SpelledAll(b));
    }
  }

  lemma BeginsOver(a: string, b: string, tail: string)
    requires !BeginsLine(b + tail) && !BeginsLine(a + "")
    ensures !BeginsLine(a + b + tail)
  {
    if a == "" {
      assert a + b + tail == b + tail;
    } else {
      assert (a + "")[0] == a[0];
    }
  }

  lemma Grouped(a: string, b: string, c: string)
    ensures (a + b) + c == a + (b + c)
  {
  }

  /** After whole elements, a line ending in return and newline ends the line and keeps it. */
  lemma LineEndKept(es: seq<Element>)
    requires Reads(es, "")
    ensures Visible(SpelledAll(es) + "\r\n") == Visible(SpelledAll(es)) + "\n"
  {
    hide FeedAll, Settle, Completed, Visible;
    var x := SpelledAll(es);
    assert x + "" == x;
    VisibleIsShown(es, "");
    assert [CrLf][1..] == [] && SpelledAll([CrLf]) == "\r\n" + "" == "\r\n";
    assert Shown(Visible(x), [CrLf]) == Shown(Visible(x) + "\n", []);
    AfterElements(es, [CrLf]);
  }

  /** A lone return and a frame leave the completed lines and the frame. */
  lemma ReturnTakesBack(es: seq<Element>, frame: string)
    requires Reads(es, "") && NoControls(frame) && !BeginsLine(frame)
    ensures Visible(SpelledAll(es) + "\r" + frame) == Completed(Visible(SpelledAll(es))) + frame
  {
    hide FeedAll, Settle, Completed, Visible;
    var x := SpelledAll(es);
    assert x + "" == x;
    VisibleIsShown(es, "");
    ReturnAndFrame(Visible(x), frame);
    AfterElements(es, [LoneReturn, Frame(frame)]);
    assert x + ("\r" + frame) == x + "\r" + frame;
  }

  lemma ReturnAndFrame(out: string, frame: string)
    requires NoControls(frame) && !BeginsLine(frame)
    ensures var es := [LoneReturn, Frame(frame)];
            Reads(es, "") && SpelledAll(es) == "\r" + frame && Shown(out, es) == Completed(out) + frame
  {
    hide Completed, NoControls;
    var last := [Frame(frame)];
    assert last[1..] == [] && [LoneReturn, Frame(frame)][1..] == last;
    assert SpelledAll(last) == frame + "" == frame && frame + "" == frame;
    assert Reads(last[1..], "") && Reads(last, "");
    assert Shown(Completed(out), last) == Shown(Completed(out) + frame, []);
  }

  lemma AfterElements(es: seq<Element>, more: seq<Element>)
    requires Reads(es, "") && Reads(more, "") && !BeginsLine(SpelledAll(more))
    ensures Visible(SpelledAll(es) + SpelledAll(more)) == Shown(Shown("", es), more)
  {
    hide FeedAll, Settle, Completed;
    assert SpelledAll(more) + "" == SpelledAll(more);
    ReadsOver(es, more, "");
    VisibleIsShown(es + more, "");
    assert SpelledAll(es + more) + "" == SpelledAll(es + more);
    ShownOver("", es, more);
  }
}
