/**
 What one run cost, read out of the agent's own transcript (`agent_tokens.rs`): the sum over
 distinct messages for Claude Code, the last cumulative record for codex, the sum of every
 request's record for kimi. Parsing a line is a parameter.
 */
module Tokens {
  import opened Prelude
  import opened Text

  datatype Totals = Totals(input: nat, output: nat, cacheRead: nat, cacheWrite: nat, total: nat, turns: nat)

  datatype Report = Ready(totals: Totals, models: seq<string>) | Unavailable

  // ---- The records of a text ----

  function OrNothing<T>(record: Option<T>): seq<T> {
    match record
    case Some(value) => [value]
    case None => []
  }

  /** The records `read` makes of some lines, passing over those it makes nothing of. */
  function Records<T>(read: string -> Option<T>, lines: seq<string>): seq<T> {
    if lines == [] then [] else OrNothing(read(lines[0])) + Records(read, lines[1..])
  }

  function RecordsIn<T>(read: string -> Option<T>, text: string): seq<T> {
    Records(read, Bodies(text))
  }

  lemma {:induction false} RecordsOver<T>(read: string -> Option<T>, a: seq<string>, b: seq<string>)
    ensures Records(read, a + b) == Records(read, a) + Records(read, b)
    decreases |a|
  {
    if a == [] {
      assert a + b == b;
    } else {
      assert (a + b)[1..] == a[1..] + b;
      RecordsOver(read, a[1..], b);
    }
  }

  lemma RecordsSnoc<T>(read: string -> Option<T>, lines: seq<string>, i: nat)
    requires i < |lines|
    ensures Records(read, lines[..i + 1]) == Records(read, lines[..i]) + OrNothing(read(lines[i]))
    ensures read(lines[i]).None? ==> Records(read, lines[..i + 1]) == Records(read, lines[..i])
  {
    assert lines[..i + 1] == lines[..i] + [lines[i]];
    RecordsOver(read, lines[..i], [lines[i]]);
    assert Records(read, [lines[i]][1..]) == [];
  }

  /**
   JSON's white space (section 2 of RFC 8259): a blank line is no record, a return ending a line is
   not part of one.
   */
  ghost predicate SkipsBlanks<T>(read: string -> Option<T>) {
    && read("") == None
    && forall line :: read(line + "\r") == read(line)
  }

  lemma BodyOfLast<T>(read: string -> Option<T>, line: string)
    requires SkipsBlanks(read) && '\n' !in line
    ensures read(Body(line + "\n")) == read(line) && Body(line) == line
    ensures line == "" ==> read(line) == None
  {
    assert (line + "\n")[..|line|] == line;
    if line != "" && line[|line| - 1] == '\r' {
      assert line == line[..|line| - 1] + "\r";
      assert read(line[..|line| - 1] + "\r") == read(line[..|line| - 1]);
    }
  }

  lemma RecordsHead<T>(read: string -> Option<T>, text: string)
    requires text != ""
    ensures RecordsIn(read, text) == OrNothing(read(Body(FirstLine(text)))) + RecordsIn(read, text[|FirstLine(text)|..])
  {
    var line := FirstLine(text);
    assert Bodies(text)[1..] == Bodies(text[|line|..]);
  }

  lemma NewlineEnds(a: string, b: string)
    requires '\n' !in a
    ensures FirstLine(a + "\n" + b) == a + "\n" && (a + "\n" + b)[|a| + 1..] == b && FirstLine(a) == a
  {
    IndexOfFirst(a, '\n', b);
    WholeLine(a);
  }

  /**
   The newline pushed after each file ends a last line the agent was still writing, so the next
   file's first record is never glued to it; and it adds no record.
   */
  lemma {:induction false} JoinedRecords<T>(read: string -> Option<T>, a: string, b: string)
    requires SkipsBlanks(read)
    ensures RecordsIn(read, a + "\n" + b) == RecordsIn(read, a) + RecordsIn(read, b)
    decreases |a|
  {
    hide FirstLine, Body, SkipsBlanks, RecordsIn;
    var text := a + "\n" + b;
    RecordsHead(read, text);
    if '\n' in a {
      var line := FirstLine(a);
      RecordsHead(read, a);
      assert text == a + ("\n" + b);
      FirstLineOver(a, "\n" + b);
      assert text[|line|..] == a[|line|..] + "\n" + b;
      JoinedRecords(read, a[|line|..], b);
    } else {
      NewlineEnds(a, b);
      BodyOfLast(read, a);
      if a != "" {
        RecordsHead(read, a);
        assert a[|a|..] == "";
      }
      NoRecords(read);
    }
  }

  lemma NoRecords<T>(read: string -> Option<T>)
    ensures RecordsIn(read, "") == []
  {
  }

  // ---- Sums ----

  /** What some records come to: the four counts, the turns, and how many records carried counts. */
  datatype Tally = Tally(input: nat, output: nat, cacheRead: nat, cacheWrite: nat, turns: nat, records: nat) {
    function Plus(other: Tally): Tally {
      Tally(input + other.input, output + other.output, cacheRead + other.cacheRead,
            cacheWrite + other.cacheWrite, turns + other.turns, records + other.records)
    }

    function Summed(): Totals {
      Totals(input, output, cacheRead, cacheWrite, input + output + cacheRead + cacheWrite, turns)
    }
  }

  const NOTHING := Tally(0, 0, 0, 0, 0, 0)

  function SumOf<T>(cost: T -> Tally, xs: seq<T>): Tally {
    if xs == [] then NOTHING else SumOf(cost, xs[..|xs| - 1]).Plus(cost(xs[|xs| - 1]))
  }

  lemma {:induction false} SumOver<T>(cost: T -> Tally, a: seq<T>, b: seq<T>)
    ensures SumOf(cost, a + b) == SumOf(cost, a).Plus(SumOf(cost, b))
    decreases |b|
  {
    if b == [] {
      assert a + b == a;
      assert SumOf(cost, b) == NOTHING;
    } else {
      var init, last := b[..|b| - 1], b[|b| - 1];
      assert a + b == (a + init) + [last] && b == init + [last];
      SumOver(cost, a, init);
      SumSnoc(cost, a + init, last);
      SumSnoc(cost, init, last);
    }
  }

  lemma SumSnoc<T>(cost: T -> Tally, xs: seq<T>, x: T)
    ensures SumOf(cost, xs + [x]) == SumOf(cost, xs).Plus(cost(x))
  {
    assert (xs + [x])[..|xs|] == xs;
  }

  lemma SumWithout<T>(cost: T -> Tally, xs: seq<T>, i: nat)
    requires i < |xs|
    ensures SumOf(cost, xs) == SumOf(cost, xs[..i] + xs[i + 1..]).Plus(cost(xs[i]))
  {
    hide SumOf;
    var before, after := xs[..i], xs[i + 1..];
    assert xs == (before + [xs[i]]) + after;
    SumOver(cost, before + [xs[i]], after);
    SumSnoc(cost, before, xs[i]);
    SumOver(cost, before, after);
  }

  lemma SameWithout<T>(a: seq<T>, before: seq<T>, after: seq<T>, x: T)
    requires multiset(a + [x]) == multiset(before + [x] + after)
    ensures multiset(a) == multiset(before + after)
  {
    assert multiset(a) == multiset(a + [x]) - multiset{x};
    assert multiset(before + after) == multiset(before + [x] + after) - multiset{x};
  }

  lemma {:induction false} SumPermuted<T>(cost: T -> Tally, a: seq<T>, b: seq<T>)
    requires multiset(a) == multiset(b)
    ensures SumOf(cost, a) == SumOf(cost, b)
    decreases |a|
  {
    if a == [] {
      assert |multiset(a)| == |multiset(b)|;
    } else {
      var last := a[|a| - 1];
      assert last in multiset(b);
      var i :| 0 <= i < |b| && b[i] == last;
      assert a == a[..|a| - 1] + [last] && b == b[..i] + [b[i]] + b[i + 1..];
      SameWithout(a[..|a| - 1], b[..i], b[i + 1..], last);
      SumPermuted(cost, a[..|a| - 1], b[..i] + b[i + 1..]);
      SumWithout(cost, b, i);
    }
  }

  /** The models named, in the order they first are. */
  function Named<T>(model: T -> Option<string>, xs: seq<T>): seq<string> {
    if xs == [] then []
    else
      var before, last := Named(model, xs[..|xs| - 1]), model(xs[|xs| - 1]);
      if last.Some? && last.value !in before then before + [last.value] else before
  }

  lemma {:induction false} NamedAreThe<T>(model: T -> Option<string>, xs: seq<T>)
    ensures forall m :: m in Named(model, xs) <==> exists x <- xs :: model(x) == Some(m)
    ensures forall i, j | 0 <= i < j < |Named(model, xs)| :: Named(model, xs)[i] != Named(model, xs)[j]
  {
    if xs != [] {
      var rest := xs[..|xs| - 1];
      assert xs == rest + [xs[|xs| - 1]];
      NamedAreThe(model, rest);
      forall m ensures m in Named(model, xs) <==> exists x <- xs :: model(x) == Some(m) {
        assert m in Named(model, rest) <==> exists x <- rest :: model(x) == Some(m);
        if m in Named(model, xs) && m !in Named(model, rest) {
          assert xs[|xs| - 1] in xs;
        }
      }
    }
  }

  // ---- Claude Code: one count per message ----

  datatype Usage = Usage(input: nat, output: nat, cacheRead: nat, cacheWrite: nat)

  /** The fields a line's record may have; a count that is missing or odd reads as zero. */
  datatype ClaudeRecord = ClaudeRecord(kind: Option<string>, message: Option<ClaudeMessage>)

  datatype ClaudeMessage = ClaudeMessage(id: Option<string>, model: Option<string>, usage: Option<Usage>)

  datatype Message = Message(id: string, model: Option<string>, usage: Option<Usage>)

  const ASSISTANT: string := "assistant"
  const QUOTED_ASSISTANT: string := "\"assistant\""

  /** The assistant message a parsed line records, if it does and the message has an id. */
  function MessageOf(record: Option<ClaudeRecord>): Option<Message> {
    if record.Some? && record.value.kind == Some(ASSISTANT) && record.value.message.Some?
      && record.value.message.value.id.Some? then
      var message := record.value.message.value;
      Some(Message(message.id.value, message.model, message.usage))
    else None
  }

  /** What the loop reads of a line: nothing unless it spells the word. */
  function ReadMessage(parse: string -> Option<ClaudeRecord>): string -> Option<Message> {
    line => if Find(line, QUOTED_ASSISTANT).None? then None else MessageOf(parse(line))
  }

  function Cost(m: Message): Tally {
    match m.usage
    case Some(u) => Tally(u.input, u.output, u.cacheRead, u.cacheWrite, 1, 0)
    case None => NOTHING
  }

  /** A model is only taken from a message whose usage was counted. */
  function ModelOf(m: Message): Option<string> {
    if m.usage.Some? then m.model else None
  }

  ghost function Ids(ms: seq<Message>): set<string> {
    set m <- ms :: m.id
  }

  /** The messages that are the first with their id. */
  ghost function Firsts(ms: seq<Message>): seq<Message> {
    if ms == [] then []
    else
      var before, last := ms[..|ms| - 1], ms[|ms| - 1];
      if last.id in Ids(before) then Firsts(before) else Firsts(before) + [last]
  }

  ghost function ClaudeReport(ms: seq<Message>): Report {
    var tally := SumOf(Cost, Firsts(ms));
    if tally.turns == 0 then Unavailable else Ready(tally.Summed(), Named(ModelOf, Firsts(ms)))
  }

  method ClaudeTotals(parse: string -> Option<ClaudeRecord>, text: string) returns (report: Report)
    ensures report == ClaudeReport(RecordsIn(ReadMessage(parse), text))
  {
    hide Find, Bodies, SumOf, Named, Firsts, Ids, Records;
    var tally, seen, models := NOTHING, {}, [];
    var lines := Bodies(text);
    ghost var read := ReadMessage(parse);
    NoMessages(read, lines);
    for i := 0 to |lines|
      invariant seen == Ids(Records(read, lines[..i]))
      invariant tally == SumOf(Cost, Firsts(Records(read, lines[..i])))
      invariant models == Named(ModelOf, Firsts(Records(read, lines[..i])))
    {
      var line := lines[i];
      RecordsSnoc(read, lines, i);
      if Find(line, QUOTED_ASSISTANT).None? {
        continue;
      }
      var record := parse(line);
      if record.None? || record.value.kind != Some(ASSISTANT) {
        continue;
      }
      if record.value.message.None? || record.value.message.value.id.None? {
        continue;
      }
      var message := record.value.message.value;
      ghost var before := Records(read, lines[..i]);
      FirstsSnoc(before, Message(message.id.value, message.model, message.usage));
      if message.id.value in seen {
        continue;
      }
      seen := seen + {message.id.value};
      if message.usage.None? {
        continue;
      }
      var usage := message.usage.value;
      tally := tally.Plus(Tally(usage.input, usage.output, usage.cacheRead, usage.cacheWrite, 1, 0));
      if message.model.Some? && message.model.value !in models {
        models := models + [message.model.value];
      }
    }
    assert lines[..|lines|] == lines;
    report := if tally.turns == 0 then Unavailable else Ready(tally.Summed(), models);
  }

  lemma NoMessages(read: string -> Option<Message>, lines: seq<string>)
    ensures Records(read, lines[..0]) == [] && Ids([]) == {} && Firsts([]) == []
    ensures SumOf(Cost, []) == NOTHING && Named(ModelOf, []) == []
  {
  }

  lemma FirstsSnoc(ms: seq<Message>, m: Message)
    ensures Ids(ms + [m]) == Ids(ms) + {m.id}
    ensures m.id in Ids(ms) ==> Firsts(ms + [m]) == Firsts(ms)
    ensures m.id !in Ids(ms) ==>
              && SumOf(Cost, Firsts(ms + [m])) == SumOf(Cost, Firsts(ms)).Plus(Cost(m))
              && Named(ModelOf, Firsts(ms + [m])) ==
                   if ModelOf(m).Some? && ModelOf(m).value !in Named(ModelOf, Firsts(ms)) then
                     Named(ModelOf, Firsts(ms)) + [ModelOf(m).value]
                   else Named(ModelOf, Firsts(ms))
  {
    assert (ms + [m])[..|ms|] == ms;
    if m.id !in Ids(ms) {
      assert (Firsts(ms) + [m])[..|Firsts(ms)|] == Firsts(ms);
    }
  }

  lemma IdsSnoc(ms: seq<Message>, m: Message)
    ensures Ids(ms + [m]) == Ids(ms) + {m.id}
  {
  }

  /** The earliest message of its id. */
  ghost predicate Earliest(ms: seq<Message>, m: Message) {
    exists i :: 0 <= i < |ms| && ms[i] == m && forall j | 0 <= j < i :: ms[j].id != m.id
  }

  ghost predicate Distinct(ms: seq<Message>) {
    forall i, j | 0 <= i < j < |ms| :: ms[i].id != ms[j].id
  }

  /** `Firsts` keeps of every id exactly its earliest message. */
  lemma {:induction false} FirstsAreFirst(ms: seq<Message>)
    ensures Ids(Firsts(ms)) == Ids(ms) && Distinct(Firsts(ms))
    ensures forall m <- Firsts(ms) :: Earliest(ms, m)
  {
    hide Ids, Earliest, Distinct;
    if ms != [] {
      var before, last := ms[..|ms| - 1], ms[|ms| - 1];
      assert ms == before + [last];
      FirstsAreFirst(before);
      IdsSnoc(before, last);
      forall m <- Firsts(ms) ensures Earliest(ms, m) {
        EarliestSnoc(before, last, m);
      }
      if last.id in Ids(before) {
        assert Ids(before) + {last.id} == Ids(before);
      } else {
        IdsSnoc(Firsts(before), last);
        DistinctSnoc(Firsts(before), last);
      }
    } else {
      assert Firsts(ms) == ms && Distinct(ms) by { NothingToRepeat(); }
    }
  }

  lemma NothingToRepeat()
    ensures Distinct([]) && Firsts([]) == []
  {
  }

  lemma EarliestSnoc(before: seq<Message>, last: Message, m: Message)
    ensures Earliest(before, m) ==> Earliest(before + [last], m)
    ensures m == last && last.id !in Ids(before) ==> Earliest(before + [last], m)
  {
    var ms := before + [last];
    if Earliest(before, m) {
      var i :| 0 <= i < |before| && before[i] == m && forall j | 0 <= j < i :: before[j].id != m.id;
      assert ms[i] == m && forall j | 0 <= j < i :: ms[j] == before[j];
    }
    if m == last && last.id !in Ids(before) {
      assert ms[|before|] == m && forall j | 0 <= j < |before| :: ms[j] == before[j] && ms[j] in before;
    }
  }

  lemma DistinctSnoc(ms: seq<Message>, m: Message)
    requires Distinct(ms) && m.id !in Ids(ms)
    ensures Distinct(ms + [m])
  {
    forall i | 0 <= i < |ms| ensures ms[i].id != m.id {
      assert ms[i] in ms;
    }
  }

  /** Records that only repeat messages already counted change nothing. */
  lemma {:induction false} RepeatsChangeNothing(ms: seq<Message>, more: seq<Message>)
    requires Ids(more) <= Ids(ms)
    ensures ClaudeReport(ms + more) == ClaudeReport(ms)
  {
    RepeatsKeepFirsts(ms, more);
  }

  lemma {:induction false} RepeatsKeepFirsts(ms: seq<Message>, more: seq<Message>)
    requires Ids(more) <= Ids(ms)
    ensures Firsts(ms + more) == Firsts(ms)
    decreases |more|
  {
    if more == [] {
      assert ms + more == ms;
    } else {
      var init, last := more[..|more| - 1], more[|more| - 1];
      assert (ms + more)[..|ms + more| - 1] == ms + init;
      assert forall m <- init :: m in more && m.id in Ids(more);
      RepeatsKeepFirsts(ms, init);
      assert last in more && last.id in Ids(more);
      assert exists m <- ms :: m.id == last.id;
      assert last.id in Ids(ms + init) by {
        var m :| m in ms && m.id == last.id;
        assert m in ms + init;
      }
    }
  }

  /** Records of one message, in either transcript, carry the same counts. */
  ghost predicate Agree(a: seq<Message>, b: seq<Message>) {
    forall x <- a, y <- b | x.id == y.id :: x.usage == y.usage
  }

  lemma SomeIds(ms: seq<Message>)
    ensures ms != [] ==> Ids(ms) != {}
  {
    if ms != [] {
      assert ms[0].id in Ids(ms);
    }
  }

  lemma {:induction false} SameIdsSameSum(a: seq<Message>, b: seq<Message>)
    requires Distinct(a) && Distinct(b) && Ids(a) == Ids(b) && Agree(a, b)
    ensures SumOf(Cost, a) == SumOf(Cost, b)
    decreases |a|
  {
    if a == [] {
      SomeIds(b);
    } else {
      var init, last := a[..|a| - 1], a[|a| - 1];
      assert last in a && last.id in Ids(b);
      var i :| 0 <= i < |b| && b[i].id == last.id;
      var others := b[..i] + b[i + 1..];
      DropOne(a, |a| - 1);
      assert a[..|a| - 1] + a[|a|..] == init;
      DropOne(b, i);
      SameIdsSameSum(init, others);
      SumWithout(Cost, b, i);
      assert b[i] in b;
    }
  }

  lemma DropOne(ms: seq<Message>, i: nat)
    requires i < |ms| && Distinct(ms)
    ensures var rest := ms[..i] + ms[i + 1..];
            Distinct(rest) && Ids(rest) == Ids(ms) - {ms[i].id} && forall m <- rest :: m in ms
  {
    var rest := ms[..i] + ms[i + 1..];
    forall id | id in Ids(ms) && id != ms[i].id ensures id in Ids(rest) {
      var k :| 0 <= k < |ms| && ms[k].id == id;
      assert ms[k] == if k < i then rest[k] else rest[k - 1];
      assert ms[k] in rest;
    }
    forall m <- rest ensures m in ms && m.id != ms[i].id {
      var k :| 0 <= k < |rest| && rest[k] == m;
      assert m == if k < i then ms[k] else ms[k + 1];
    }
  }

  /** When same-id records agree, the totals depend only on which messages there were: not on order, not on repeats. */
  lemma OrderChangesNoTotal(a: seq<Message>, b: seq<Message>)
    requires Ids(a) == Ids(b) && Agree(a, b)
    ensures SumOf(Cost, Firsts(a)) == SumOf(Cost, Firsts(b))
  {
    FirstsAreFirst(a);
    FirstsAreFirst(b);
    FirstsAmong(a);
    FirstsAmong(b);
    SameIdsSameSum(Firsts(a), Firsts(b));
  }

  lemma FirstsAmong(ms: seq<Message>)
    ensures forall m <- Firsts(ms) :: m in ms
  {
    FirstsAreFirst(ms);
  }

  /** What `b` adds to the sum depends only on which ids came before it. */
  lemma {:induction false} SameAddition(p: seq<Message>, q: seq<Message>, b: seq<Message>) returns (more: Tally)
    requires Ids(p) == Ids(q)
    ensures SumOf(Cost, Firsts(p + b)) == SumOf(Cost, Firsts(p)).Plus(more)
    ensures SumOf(Cost, Firsts(q + b)) == SumOf(Cost, Firsts(q)).Plus(more)
    decreases |b|
  {
    hide SumOf, Firsts, Ids, Named;
    if b == [] {
      assert p + b == p && q + b == q;
      more := NOTHING;
    } else {
      var init, last := b[..|b| - 1], b[|b| - 1];
      var less := SameAddition(p, q, init);
      assert p + b == p + init + [last] && q + b == q + init + [last];
      FirstsSnoc(p + init, last);
      FirstsSnoc(q + init, last);
      IdsOver(p, init);
      IdsOver(q, init);
      more := if last.id in Ids(p + init) then less else less.Plus(Cost(last));
    }
  }

  lemma IdsOver(a: seq<Message>, b: seq<Message>)
    ensures Ids(a + b) == Ids(a) + Ids(b)
  {
  }

  lemma FirstsOfPair(a: seq<Message>, x: Message, y: Message)
    requires x.id == y.id
    ensures Ids(a + [x, y]) == Ids(a) + {x.id}
    ensures SumOf(Cost, Firsts(a + [x, y])) ==
            if x.id in Ids(a) then SumOf(Cost, Firsts(a)) else SumOf(Cost, Firsts(a)).Plus(Cost(x))
  {
    hide SumOf, Named, Firsts, Ids;
    assert a + [x, y] == a + [x] + [y];
    FirstsSnoc(a, x);
    FirstsSnoc(a + [x], y);
  }

  /**
   Wherever in a transcript two records of one message meet, swapping them is harmless exactly when
   the message had been seen before or they cost the same. A record without usage costs nothing.
   */
  lemma SwappedRecords(a: seq<Message>, x: Message, y: Message, b: seq<Message>)
    requires x.id == y.id
    ensures SumOf(Cost, Firsts(a + [x, y] + b)) == SumOf(Cost, Firsts(a + [y, x] + b)) <==>
            x.id in Ids(a) || Cost(x) == Cost(y)
  {
    hide SumOf, Named, Firsts, Ids;
    FirstsOfPair(a, x, y);
    FirstsOfPair(a, y, x);
    var more := SameAddition(a + [x, y], a + [y, x], b);
  }

  /** Passing over a line that does not spell the word skips no message, as long as every such record does spell it. */
  lemma {:induction false} PrefilterSkipsNothing(parse: string -> Option<ClaudeRecord>, lines: seq<string>)
    requires forall line <- lines :: MessageOf(parse(line)).Some? ==> Find(line, "\"assistant\"").Some?
    ensures Records(ReadMessage(parse), lines) == Records(line => MessageOf(parse(line)), lines)
  {
    if lines != [] {
      assert lines[0] in lines && forall line <- lines[1..] :: line in lines;
      PrefilterSkipsNothing(parse, lines[1..]);
    }
  }

  // ---- kimi: every request's record ----

  datatype KimiEvent =
    | UsageRecord(scope: Option<string>, usage: Option<Usage>, model: Option<string>)
    | TurnEnded
    | OtherEvent

  const TURN_SCOPE: string := "turn"
  const QUOTED_USAGE: string := "\"usage.record\""
  const QUOTED_TURN: string := "\"turn.ended\""

  function ReadEvent(parse: string -> Option<KimiEvent>): string -> Option<KimiEvent> {
    line => if Find(line, QUOTED_USAGE).None? && Find(line, QUOTED_TURN).None? then None else parse(line)
  }

  /** Only records of the one verified scope count; a turn that ended is the only turn. */
  function EventCost(e: KimiEvent): Tally {
    match e
    case UsageRecord(scope, usage, _) =>
      if scope == Some(TURN_SCOPE) && usage.Some? then
        Tally(usage.value.input, usage.value.output, usage.value.cacheRead, usage.value.cacheWrite, 0, 1)
      else NOTHING
    case TurnEnded => Tally(0, 0, 0, 0, 1, 0)
    case OtherEvent => NOTHING
  }

  function EventModel(e: KimiEvent): Option<string> {
    if e.UsageRecord? && e.scope == Some(TURN_SCOPE) && e.usage.Some? then e.model else None
  }

  function KimiReport(events: seq<KimiEvent>): Report {
    var tally := SumOf(EventCost, events);
    if tally.records == 0 then Unavailable else Ready(tally.Summed(), Named(EventModel, events))
  }

  method KimiTotals(parse: string -> Option<KimiEvent>, text: string) returns (report: Report)
    ensures report == KimiReport(RecordsIn(ReadEvent(parse), text))
  {
    hide Find, Bodies, SumOf, Named, Records;
    var tally, models := NOTHING, [];
    var lines := Bodies(text);
    ghost var read := ReadEvent(parse);
    NoEvents(read, lines);
    for i := 0 to |lines|
      invariant tally == SumOf(EventCost, Records(read, lines[..i]))
      invariant models == Named(EventModel, Records(read, lines[..i]))
    {
      var line := lines[i];
      RecordsSnoc(read, lines, i);
      if Find(line, QUOTED_USAGE).None? && Find(line, QUOTED_TURN).None? {
        continue;
      }
      var event := parse(line);
      if event.None? {
        continue;
      }
      EventsSnoc(Records(read, lines[..i]), event.value);
      match event.value {
        case UsageRecord(scope, usage, model) =>
          if scope != Some(TURN_SCOPE) || usage.None? {
            continue;
          }
          var u := usage.value;
          tally := tally.Plus(Tally(u.input, u.output, u.cacheRead, u.cacheWrite, 0, 1));
          if model.Some? && model.value !in models {
            models := models + [model.value];
          }
        case TurnEnded => tally := tally.Plus(Tally(0, 0, 0, 0, 1, 0));
        case OtherEvent =>
      }
    }
    assert lines[..|lines|] == lines;
    report := if tally.records == 0 then Unavailable else Ready(tally.Summed(), models);
  }

  lemma NoEvents(read: string -> Option<KimiEvent>, lines: seq<string>)
    ensures Records(read, lines[..0]) == [] && SumOf(EventCost, []) == NOTHING && Named(EventModel, []) == []
  {
  }

  lemma EventsSnoc(events: seq<KimiEvent>, e: KimiEvent)
    ensures SumOf(EventCost, events + [e]) == SumOf(EventCost, events).Plus(EventCost(e))
    ensures EventCost(e) == NOTHING ==> SumOf(EventCost, events + [e]) == SumOf(EventCost, events)
    ensures Named(EventModel, events + [e]) ==
            if EventModel(e).Some? && EventModel(e).value !in Named(EventModel, events) then
              Named(EventModel, events) + [EventModel(e).value]
            else Named(EventModel, events)
  {
    assert (events + [e])[..|events|] == events;
  }

  /** The text a report is made of: each file's, with a newline pushed after it. */
  function WiresText(parts: seq<string>): string {
    if parts == [] then "" else parts[0] + "\n" + WiresText(parts[1..])
  }

  ghost function PartCost(read: string -> Option<KimiEvent>): string -> Tally {
    part => SumOf(EventCost, RecordsIn(read, part))
  }

  ghost function PartCosts(read: string -> Option<KimiEvent>, parts: seq<string>): Tally {
    SumOf(PartCost(read), parts)
  }

  /** A session costs what its files cost one by one. */
  lemma {:induction false} SessionIsItsFiles(read: string -> Option<KimiEvent>, parts: seq<string>)
    requires SkipsBlanks(read)
    ensures SumOf(EventCost, RecordsIn(read, WiresText(parts))) == PartCosts(read, parts)
    decreases |parts|
  {
    hide RecordsIn, Tally.Plus, SkipsBlanks;
    if parts == [] {
      NoRecords(read);
    } else {
      JoinedRecords(read, parts[0], WiresText(parts[1..]));
      SumOver(EventCost, RecordsIn(read, parts[0]), RecordsIn(read, WiresText(parts[1..])));
      SessionIsItsFiles(read, parts[1..]);
      assert parts == [parts[0]] + parts[1..];
      SumOver(PartCost(read), [parts[0]], parts[1..]);
      SumOne(PartCost(read), parts[0]);
    }
  }

  lemma SumOne<T>(cost: T -> Tally, x: T)
    ensures SumOf(cost, [x]) == cost(x)
  {
    assert [x][..0] == [];
  }

  lemma {:induction false} SessionModels(read: string -> Option<KimiEvent>, parts: seq<string>, m: string)
    requires SkipsBlanks(read)
    ensures m in Named(EventModel, RecordsIn(read, WiresText(parts))) <==>
            exists part <- parts :: m in Named(EventModel, RecordsIn(read, part))
    decreases |parts|
  {
    hide RecordsIn, SkipsBlanks, Named;
    if parts == [] {
      NoRecords(read);
      NamedAreThe(EventModel, RecordsIn(read, ""));
    } else {
      var first, rest := RecordsIn(read, parts[0]), RecordsIn(read, WiresText(parts[1..]));
      JoinedRecords(read, parts[0], WiresText(parts[1..]));
      SessionModels(read, parts[1..], m);
      NamedOver(EventModel, first, rest, m);
      assert forall part :: part in parts <==> part == parts[0] || part in parts[1..];
    }
  }

  lemma NamedOver<T>(model: T -> Option<string>, a: seq<T>, b: seq<T>, m: string)
    ensures m in Named(model, a + b) <==> m in Named(model, a) || m in Named(model, b)
  {
    NamedAreThe(model, a);
    NamedAreThe(model, b);
    NamedAreThe(model, a + b);
  }

  /** Two reports that may list the models in another order, and nothing else. */
  ghost predicate SameButForOrder(a: Report, b: Report) {
    && a.Ready? == b.Ready?
    && (a.Ready? ==> a.totals == b.totals && forall m :: m in a.models <==> m in b.models)
  }

  /** The order the files are read in changes no total and no model. */
  lemma FileOrderChangesNothing(parse: string -> Option<KimiEvent>, a: seq<string>, b: seq<string>)
    requires SkipsBlanks(ReadEvent(parse)) && multiset(a) == multiset(b)
    ensures SameButForOrder(KimiReport(RecordsIn(ReadEvent(parse), WiresText(a))),
            KimiReport(RecordsIn(ReadEvent(parse), WiresText(b))))
  {
    hide RecordsIn, SkipsBlanks, Named, SumOf, ReadEvent;
    var read := ReadEvent(parse);
    SessionIsItsFiles(read, a);
    SessionIsItsFiles(read, b);
    SumPermuted(PartCost(read), a, b);
    forall m ensures m in Named(EventModel, RecordsIn(read, WiresText(a))) <==>
           m in Named(EventModel, RecordsIn(read, WiresText(b))) {
      SessionModels(read, a, m);
      SessionModels(read, b, m);
      assert forall part :: part in a <==> part in multiset(a);
      assert forall part :: part in b <==> part in multiset(b);
    }
  }

  // ---- codex: the last cumulative record ----

  datatype CodexUsage = CodexUsage(input: nat, cached: nat, output: nat, total: nat)

  /** A token-count record; `model` is the one its info names. */
  datatype CodexRecord = CodexRecord(usage: CodexUsage, model: Option<string>)

  function Less(a: nat, b: nat): nat {
    if a < b then 0 else a - b
  }

  function CodexFigures(u: CodexUsage): Totals {
    var input := Less(u.input, u.cached);
    Totals(input, u.output, u.cached, 0, if u.total == 0 then input + u.output + u.cached else u.total, 0)
  }

  function CodexModels(r: CodexRecord): seq<string> {
    OrNothing(r.model)
  }

  /** The records from which a total can be told. */
  function Telling(records: seq<CodexRecord>): seq<CodexRecord> {
    if records == [] then []
    else (if CodexFigures(records[0].usage).total != 0 then [records[0]] else []) + Telling(records[1..])
  }

  function CodexReport(records: seq<CodexRecord>): Report {
    var telling := Telling(records);
    if telling == [] then Unavailable
    else
      var last := telling[|telling| - 1];
      Ready(CodexFigures(last.usage), CodexModels(last))
  }

  method CodexTotals(parse: string -> Option<CodexRecord>, text: string) returns (report: Report)
    ensures report == CodexReport(RecordsIn(parse, text))
  {
    hide Bodies, CodexReport, Records;
    var lines := Bodies(text);
    var i := |lines|;
    assert lines[..i] == lines;
    while i > 0
      invariant i <= |lines|
      invariant CodexReport(Records(parse, lines[..i])) == CodexReport(RecordsIn(parse, text))
    {
      i := i - 1;
      RecordsSnoc(parse, lines, i);
      var record := parse(lines[i]);
      if record.None? {
        continue;
      }
      CodexLast(Records(parse, lines[..i]), record.value);
      var used := record.value.usage;
      var totals := Totals(Less(used.input, used.cached), used.output, used.cached, 0, used.total, 0);
      if totals.total == 0 {
        totals := totals.(total := totals.input + totals.output + totals.cacheRead);
      }
      if totals.total == 0 {
        continue;
      }
      return Ready(totals, CodexModels(record.value));
    }
    NothingTold(parse, lines);
    return Unavailable;
  }

  lemma NothingTold(parse: string -> Option<CodexRecord>, lines: seq<string>)
    ensures CodexReport(Records(parse, lines[..0])) == Unavailable
  {
    assert Records(parse, lines[..0]) == [];
  }

  lemma {:induction false} TellingOver(a: seq<CodexRecord>, b: seq<CodexRecord>)
    ensures Telling(a + b) == Telling(a) + Telling(b)
    decreases |a|
  {
    if a == [] {
      assert a + b == b;
    } else {
      assert (a + b)[1..] == a[1..] + b;
      TellingOver(a[1..], b);
    }
  }

  lemma CodexLast(records: seq<CodexRecord>, r: CodexRecord)
    ensures CodexReport(records + [r]) ==
            if CodexFigures(r.usage).total == 0 then CodexReport(records)
              else Ready(CodexFigures(r.usage), CodexModels(r))
  {
    TellingOver(records, [r]);
    assert Telling([r][1..]) == [];
  }

  /** What is written later decides, as soon as it tells a total; nothing is added up. */
  lemma LaterRecordsDecide(earlier: seq<CodexRecord>, later: seq<CodexRecord>)
    ensures CodexReport(earlier + later) == if CodexReport(later).Ready? then CodexReport(later)
            else CodexReport(earlier)
  {
    TellingOver(earlier, later);
    if Telling(later) != [] {
      var both := Telling(earlier) + Telling(later);
      assert both[|both| - 1] == Telling(later)[|Telling(later)| - 1];
    } else {
      assert Telling(earlier) + [] == Telling(earlier);
    }
  }

  /** Cached input is split off the input it is reported inside of, and the file's own total stands. */
  lemma CodexSplitsInput(u: CodexUsage)
    ensures var t := CodexFigures(u);
            && (u.cached <= u.input ==> t.input + t.cacheRead == u.input)
            && (u.total != 0 ==> t.total == u.total)
            && (t.total == 0 <==> u == CodexUsage(0, 0, 0, 0))
            && (u.total == 0 ==> t.total == u.output + if u.cached <= u.input then u.input else u.cached)
            && (u.cached > u.input ==> t.input == 0)
            && t.output == u.output && t.cacheRead == u.cached && t.cacheWrite == 0 && t.turns == 0
  {
  }

  /** A file's report is the same with the newline pushed after it. */
  lemma PushedNewline<T>(read: string -> Option<T>, text: string)
    requires SkipsBlanks(read)
    ensures RecordsIn(read, WiresText([text])) == RecordsIn(read, text)
  {
    JoinedRecords(read, text, "");
    NoRecords(read);
    assert WiresText([text]) == text + "\n" + "";
  }

  lemma OccursBeforeReturn(line: string, pat: string, i: nat)
    requires pat != "" && pat[|pat| - 1] != '\r'
    ensures Occurs(line + "\r", pat, i) <==> Occurs(line, pat, i)
  {
    var longer := line + "\r";
    if i + |pat| <= |line| {
      assert longer[i..i + |pat|] == line[i..i + |pat|];
    } else if i + |pat| == |longer| {
      assert longer[i..i + |pat|][|pat| - 1] == '\r';
    }
  }

  lemma FindBeforeReturn(line: string, pat: string)
    requires pat != "" && pat[|pat| - 1] != '\r'
    ensures Find(line + "\r", pat).None? <==> Find(line, pat).None?
  {
    hide Find, Occurs;
    forall i: nat ensures Occurs(line + "\r", pat, i) <==> Occurs(line, pat, i) {
      OccursBeforeReturn(line, pat, i);
    }
  }

  /** The cheap look before a parse leaves both readers skipping blanks as the parser does. */
  lemma PrefiltersSkipBlanks(claude: string -> Option<ClaudeRecord>, kimi: string -> Option<KimiEvent>)
    requires SkipsBlanks(claude) && SkipsBlanks(kimi)
    ensures SkipsBlanks(ReadMessage(claude)) && SkipsBlanks(ReadEvent(kimi))
  {
    forall line ensures ReadMessage(claude)(line + "\r") == ReadMessage(claude)(line)
           && ReadEvent(kimi)(line + "\r") == ReadEvent(kimi)(line) {
      FindBeforeReturn(line, QUOTED_ASSISTANT);
      FindBeforeReturn(line, QUOTED_USAGE);
      FindBeforeReturn(line, QUOTED_TURN);
    }
  }

  // ---- What one record adds ----

  /** A line counts as a message exactly when it records an assistant message that has an id. */
  lemma OnlyAssistantMessages(record: Option<ClaudeRecord>, m: Message)
    ensures MessageOf(record) == Some(m) <==>
            record == Some(ClaudeRecord(Some("assistant"), Some(ClaudeMessage(Some(m.id), m.model, m.usage))))
  {
  }

  function Push(models: seq<string>, model: Option<string>): seq<string> {
    if model.Some? && model.value !in models then models + [model.value] else models
  }

  lemma NoMessagesReport()
    ensures ClaudeReport([]) == Unavailable
  {
  }

  /**
   A message not seen before adds each of its counts to its own total, one turn, and its model; one
   without usage adds nothing.
   */
  lemma NewMessageAdds(ms: seq<Message>, m: Message)
    requires m.id !in Ids(ms)
    ensures var before, after := ClaudeReport(ms), ClaudeReport(ms + [m]);
            match m.usage
            case None => after == before
            case Some(u) =>
              var t := if before.Ready? then before.totals else Totals(0, 0, 0, 0, 0, 0);
              var models := if before.Ready? then before.models else [];
              after == Ready(Totals(t.input + u.input, t.output + u.output, t.cacheRead + u.cacheRead,
                                    t.cacheWrite + u.cacheWrite,
                                    t.total + u.input + u.output + u.cacheRead + u.cacheWrite, t.turns + 1),
                             Push(models, m.model))
  {
    hide SumOf, Named, Firsts, Ids;
    FirstsSnoc(ms, m);
    NoTurnsNothing(Firsts(ms));
  }

  lemma NamedSnoc(ms: seq<Message>, m: Message)
    ensures m.usage.None? ==> Named(ModelOf, ms + [m]) == Named(ModelOf, ms)
  {
    assert (ms + [m])[..|ms|] == ms;
  }

  lemma {:induction false} NoTurnsNothing(ms: seq<Message>)
    ensures SumOf(Cost, ms).turns == 0 ==> SumOf(Cost, ms) == NOTHING && Named(ModelOf, ms) == []
    decreases |ms|
  {
    hide SumOf, Named;
    NoMessages(_ => None, []);
    if ms != [] {
      var init, last := ms[..|ms| - 1], ms[|ms| - 1];
      NoTurnsNothing(init);
      assert ms == init + [last];
      SumSnoc(Cost, init, last);
      NamedSnoc(init, last);
    }
  }

  /**
   A request's record of the one counted scope adds its counts and its model; an ended turn adds a
   turn; nothing else adds.
   */
  lemma EventAdds(events: seq<KimiEvent>, e: KimiEvent)
    requires KimiReport(events).Ready?
    ensures var before, after := KimiReport(events), KimiReport(events + [e]);
            var t := before.totals;
            match e
            case UsageRecord(Some(scope), Some(u), model) =>
              after == if scope == "turn" then
                         Ready(Totals(t.input + u.input, t.output + u.output, t.cacheRead + u.cacheRead,
                                      t.cacheWrite + u.cacheWrite,
                                      t.total + u.input + u.output + u.cacheRead + u.cacheWrite, t.turns),
                               Push(before.models, model))
                       else before
            case UsageRecord(_, _, _) => after == before
            case TurnEnded => after == Ready(t.(turns := t.turns + 1), before.models)
            case OtherEvent => after == before
  {
    hide SumOf, Named;
    EventsSnoc(events, e);
  }

  /** And a session is unavailable exactly while no record of that scope has counts. */
  lemma {:induction false} KimiNeedsARecord(events: seq<KimiEvent>)
    ensures KimiReport(events).Ready? <==>
            exists e <- events :: e.UsageRecord? && e.scope == Some("turn") && e.usage.Some?
    decreases |events|
  {
    hide Named;
    if events != [] {
      var init, last := events[..|events| - 1], events[|events| - 1];
      assert events == init + [last];
      KimiNeedsARecord(init);
      EventsSnoc(init, last);
      assert forall e :: e in events <==> e in init || e == last;
    }
  }

  /** Passing over kimi lines that spell neither word changes no sum, as long as the records that count spell theirs. */
  lemma {:induction false} KimiPrefilterSkipsNothing(parse: string -> Option<KimiEvent>, lines: seq<string>)
    requires forall line <- lines :: parse(line).Some? ==>
               && (parse(line).value.UsageRecord? ==> Find(line, "\"usage.record\"").Some?)
               && (parse(line).value.TurnEnded? ==> Find(line, "\"turn.ended\"").Some?)
    ensures SumOf(EventCost, Records(ReadEvent(parse), lines)) == SumOf(EventCost, Records(parse, lines))
    decreases |lines|
  {
    hide Find, SumOf;
    if lines != [] {
      var init, last := lines[..|lines| - 1], lines[|lines| - 1];
      assert last in lines && forall line <- init :: line in lines;
      KimiPrefilterSkipsNothing(parse, init);
      assert lines[..|lines|] == lines;
      RecordsSnoc(ReadEvent(parse), lines, |init|);
      RecordsSnoc(parse, lines, |init|);
      hide Records;
      if parse(last).Some? {
        EventsSnoc(Records(parse, init), parse(last).value);
        EventsSnoc(Records(ReadEvent(parse), init), parse(last).value);
      }
    }
  }

  /** A rollout has a report exactly when some record tells a total, and then the total is not zero. */
  lemma {:induction false} CodexNeedsATotal(records: seq<CodexRecord>)
    ensures CodexReport(records).Ready? <==> exists r <- records :: CodexFigures(r.usage).total != 0
    ensures CodexReport(records).Ready? ==> CodexReport(records).totals.total != 0
    decreases |records|
  {
    if records != [] {
      var init, last := records[..|records| - 1], records[|records| - 1];
      assert records == init + [last];
      CodexNeedsATotal(init);
      CodexLast(init, last);
      hide CodexReport, CodexFigures;
      assert forall r :: r in records <==> r in init || r == last;
    }
  }
}
