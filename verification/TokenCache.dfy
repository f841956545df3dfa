/**
 The token report cache of `agent_tokens.rs` while transcripts are still being written. A call
 lists the conversation's files, stats them one by one, looks the newest mtime up in the cache
 and, when it is not there, reads the files one by one and stores what it read under that mtime.
 Other calls, appends and new files may come between any two of those steps.
 */
module TokenCache {
  import opened Prelude

  type Conversation = nat
  type Wire = nat

  /** One state a file has been in. Files only grow, and every write gets a later mtime than any before it. */
  datatype Version = Version(mtime: nat, text: string)

  /** What a finished read put together: which files, in which of their versions, under which mtime. */
  datatype Report = Report(key: nat, listedAt: nat, wires: seq<Wire>, observed: seq<nat>, read: seq<nat>)

  datatype Phase =
    | Listing
    | Statting
    | Reading                                      // the lookup missed
    | Served(report: Report, cached: bool)
    | Unreadable

  /** `observed` and `read` hold version numbers, in the order of `wires`, as far as the call has come. */
  datatype Call = Call(conversation: Conversation, listedAt: nat, wires: seq<Wire>, observed: seq<nat>,
    read: seq<nat>, phase: Phase)

  datatype State = State(
    clock: nat,                                    // the latest mtime given so far
    files: map<Wire, seq<Version>>,
    sessions: map<Conversation, seq<Wire>>,
    cache: map<Conversation, Report>,
    calls: map<nat, Call>)

  const INIT := State(0, map[], map[], map[], map[])

  datatype Step =
    | Create(conversation: Conversation, wire: Wire, at: nat, text: string, mtime: nat)
    | Append(wire: Wire, more: string, mtime: nat)
    | Ask(c: nat, conversation: Conversation)
    | List(c: nat)
    | Stat(c: nat)
    | Lookup(c: nat)
    | Read(c: nat)
    | ReadFails(c: nat)
    | Insert(c: nat)

  function WiresOf(s: State, conversation: Conversation): seq<Wire> {
    if conversation in s.sessions then s.sessions[conversation] else []
  }

  function MtimeAt(s: State, wire: Wire, version: nat): nat {
    if wire in s.files && version < |s.files[wire]| then s.files[wire][version].mtime else 0
  }

  /** The newest mtime observed, zero when there is none. */
  function KeyOf(s: State, wires: seq<Wire>, observed: seq<nat>): nat {
    if wires == [] || observed == [] then 0
    else
      var first, rest := MtimeAt(s, wires[0], observed[0]), KeyOf(s, wires[1..], observed[1..]);
      if first > rest then first else rest
  }

  function ReportOf(s: State, call: Call): Report {
    Report(KeyOf(s, call.wires, call.observed), call.listedAt, call.wires, call.observed, call.read)
  }

  predicate Enabled(s: State, t: Step) {
    match t
    case Create(conversation, wire, at, _, mtime) =>
      wire !in s.files && at <= |WiresOf(s, conversation)| && mtime > s.clock
    case Append(wire, _, mtime) => wire in s.files && s.files[wire] != [] && mtime > s.clock
    case Ask(c, conversation) => c !in s.calls
    case List(c) => c in s.calls && s.calls[c].phase.Listing?
    case Stat(c) =>
      c in s.calls && s.calls[c].phase.Statting? && |s.calls[c].observed| < |s.calls[c].wires|
      && s.calls[c].wires[|s.calls[c].observed|] in s.files
    case Lookup(c) => c in s.calls && s.calls[c].phase.Statting? && |s.calls[c].observed| == |s.calls[c].wires|
    case Read(c) =>
      c in s.calls && s.calls[c].phase.Reading? && |s.calls[c].read| < |s.calls[c].wires|
      && s.calls[c].wires[|s.calls[c].read|] in s.files
    case ReadFails(c) => c in s.calls && s.calls[c].phase.Reading?
    case Insert(c) => c in s.calls && s.calls[c].phase.Reading? && |s.calls[c].read| == |s.calls[c].wires|
  }

  function Last(s: State, wire: Wire): nat
    requires wire in s.files
  {
    if s.files[wire] == [] then 0 else |s.files[wire]| - 1
  }

  function With(s: State, c: nat, call: Call): State {
    s.(calls := s.calls[c := call])
  }

  function Apply(s: State, t: Step): State
    requires Enabled(s, t)
  {
    match t
    case Create(conversation, wire, at, text, mtime) =>
      var wires := WiresOf(s, conversation);
      s.(clock := mtime, files := s.files[wire := [Version(mtime, text)]],
         sessions := s.sessions[conversation := wires[..at] + [wire] + wires[at..]])
    case Append(wire, more, mtime) =>
      var versions := s.files[wire];
      s.(clock := mtime, files := s.files[wire := versions + [Version(mtime, versions[|versions| - 1].text + more)]])
    case Ask(c, conversation) => With(s, c, Call(conversation, 0, [], [], [], Listing))
    case List(c) =>
      var call := s.calls[c];
      With(s, c, call.(listedAt := s.clock, wires := WiresOf(s, call.conversation), phase := Statting))
    case Stat(c) =>
      var call := s.calls[c];
      With(s, c, call.(observed := call.observed + [Last(s, call.wires[|call.observed|])]))
    case Lookup(c) =>
      var call := s.calls[c];
      if call.conversation in s.cache && s.cache[call.conversation].key == KeyOf(s, call.wires, call.observed) then
        With(s, c, call.(phase := Served(s.cache[call.conversation], true)))
      else With(s, c, call.(phase := Reading))
    case Read(c) =>
      var call := s.calls[c];
      With(s, c, call.(read := call.read + [Last(s, call.wires[|call.read|])]))
    case ReadFails(c) => With(s, c, s.calls[c].(phase := Unreadable))
    case Insert(c) =>
      var call := s.calls[c];
      With(s, c, call.(phase := Served(ReportOf(s, call), false)))
        .(cache := s.cache[call.conversation := ReportOf(s, call)])
  }

  // ---- Histories of files ----

  /** A file's versions: later ones have later mtimes and extend the earlier text. */
  ghost predicate Grows(versions: seq<Version>, clock: nat) {
    && versions != []
    && (forall i | 0 <= i < |versions| :: versions[i].mtime <= clock)
    && (forall i, j | 0 <= i < j < |versions| ::
      versions[i].mtime < versions[j].mtime && versions[i].text <= versions[j].text)
  }

  ghost predicate FilesOk(s: State) {
    && (forall w <- s.files :: Grows(s.files[w], s.clock))
    && (forall conversation <- s.sessions :: forall w <- s.sessions[conversation] :: w in s.files)
  }

  /** Version numbers taken so far, of files that have them. */
  ghost predicate Taken(s: State, wires: seq<Wire>, versions: seq<nat>) {
    |versions| <= |wires| && (forall w <- wires :: w in s.files)
    && forall k | 0 <= k < |versions| :: versions[k] < |s.files[wires[k]]|
  }

  /** Nothing written since a version was read is as old as the key. */
  ghost predicate NewerThan(s: State, wires: seq<Wire>, read: seq<nat>, key: nat)
    requires Taken(s, wires, read)
  {
    forall k, v | 0 <= k < |read| && read[k] < v < |s.files[wires[k]]| :: s.files[wires[k]][v].mtime > key
  }

  /** A file of the conversation was listed exactly when it existed at the listing. */
  ghost predicate Listed(s: State, conversation: Conversation, listedAt: nat, wires: seq<Wire>) {
    && listedAt <= s.clock
    && forall w <- WiresOf(s, conversation) ::
      w in s.files && s.files[w] != [] && (w in wires <==> s.files[w][0].mtime <= listedAt)
  }

  ghost predicate ReportOk(s: State, conversation: Conversation, r: Report) {
    && Taken(s, r.wires, r.observed) && Taken(s, r.wires, r.read) && |r.observed| == |r.read| == |r.wires|
    && r.key == KeyOf(s, r.wires, r.observed) && r.key <= s.clock && NewerThan(s, r.wires, r.read, r.key)
    && (forall k | 0 <= k < |r.wires| :: r.observed[k] <= r.read[k])
    && Listed(s, conversation, r.listedAt, r.wires)
  }

  /** A served report is at least as new as what the call itself observed of each file they share. */
  ghost predicate FreshFor(s: State, call: Call, r: Report) {
    forall j, k | 0 <= j < |call.observed| && 0 <= k < |r.read| && |call.observed| <= |call.wires|
           && |r.read| <= |r.wires|
                  && call.wires[j] == r.wires[k] :: call.observed[j] <= r.read[k]
  }

  ghost predicate CallOk(s: State, c: nat)
    requires c in s.calls
  {
    var call := s.calls[c];
    && Taken(s, call.wires, call.observed) && Taken(s, call.wires, call.read)
    && (!call.phase.Listing? ==> Listed(s, call.conversation, call.listedAt, call.wires))
    && (call.phase.Listing? || call.phase.Statting? ==> call.read == [])
    && (call.phase.Listing? ==> call.wires == [] && call.observed == [])
    && (call.phase.Reading? || call.phase.Served? ==> |call.observed| == |call.wires|)
    && (call.phase.Reading? ==>
          && |call.read| <= |call.observed|
          && NewerThan(s, call.wires, call.read, KeyOf(s, call.wires, call.observed))
          && forall k | 0 <= k < |call.read| :: call.observed[k] <= call.read[k])
    && (call.phase.Served? ==>
          && ReportOk(s, call.conversation, call.phase.report)
          && call.phase.report.key == KeyOf(s, call.wires, call.observed)
          && FreshFor(s, call, call.phase.report))
  }

  ghost predicate Inv(s: State) {
    && FilesOk(s)
    && (forall conversation <- s.cache :: ReportOk(s, conversation, s.cache[conversation]))
    && (forall c <- s.calls :: CallOk(s, c))
  }

  // ---- The key ----

  lemma {:induction false} KeyBounds(s: State, wires: seq<Wire>, observed: seq<nat>)
    requires FilesOk(s) && Taken(s, wires, observed)
    ensures KeyOf(s, wires, observed) <= s.clock
    ensures forall k | 0 <= k < |observed| :: MtimeAt(s, wires[k], observed[k]) <= KeyOf(s, wires, observed)
    decreases |wires|
  {
    if wires != [] && observed != [] {
      assert wires[0] in wires;
      assert forall w <- wires[1..] :: w in wires;
      assert forall k | 0 <= k < |observed| - 1 :: observed[1..][k] == observed[k + 1] && wires[1..][k] == wires[k + 1];
      KeyBounds(s, wires[1..], observed[1..]);
      forall k | 0 <= k < |observed| ensures MtimeAt(s, wires[k], observed[k]) <= KeyOf(s, wires, observed) {
        if k > 0 {
          assert MtimeAt(s, wires[1..][k - 1], observed[1..][k - 1]) <= KeyOf(s, wires[1..], observed[1..]);
        }
      }
    }
  }

  /** The key is the mtime of some file observed, or zero when none was: with `KeyBounds`, their newest. */
  lemma {:induction false} KeyIsObserved(s: State, wires: seq<Wire>, observed: seq<nat>)
    requires |observed| <= |wires|
    ensures var key := KeyOf(s, wires, observed);
            key == 0 || exists k :: 0 <= k < |observed| && MtimeAt(s, wires[k], observed[k]) == key
    decreases |wires|
  {
    if wires != [] && observed != [] {
      KeyIsObserved(s, wires[1..], observed[1..]);
      var rest := KeyOf(s, wires[1..], observed[1..]);
      if rest != 0 {
        var k :| 0 <= k < |observed[1..]| && MtimeAt(s, wires[1..][k], observed[1..][k]) == rest;
        assert MtimeAt(s, wires[k + 1], observed[k + 1]) == rest;
      }
      assert MtimeAt(s, wires[0], observed[0]) == KeyOf(s, wires, observed) || rest == KeyOf(s, wires, observed);
    }
  }

  /** Files of `later` are files of `s` with versions added. */
  ghost predicate Extends(s: State, later: State) {
    && s.clock <= later.clock
    && forall w <- s.files :: w in later.files && s.files[w] <= later.files[w]
                              && forall v | |s.files[w]| <= v < |later.files[w]| :: later.files[w][v].mtime > s.clock
  }

  lemma {:induction false} KeyStays(s: State, later: State, wires: seq<Wire>, observed: seq<nat>)
    requires Extends(s, later) && Taken(s, wires, observed)
    ensures KeyOf(later, wires, observed) == KeyOf(s, wires, observed)
    decreases |wires|
  {
    if wires != [] && observed != [] {
      assert wires[0] in wires;
      assert forall w <- wires[1..] :: w in wires;
      assert forall k | 0 <= k < |observed| - 1 :: observed[1..][k] == observed[k + 1] && wires[1..][k] == wires[k + 1];
      KeyStays(s, later, wires[1..], observed[1..]);
    }
  }

  // ---- One step ----

  lemma StepExtends(s: State, t: Step)
    requires FilesOk(s) && Enabled(s, t)
    ensures Extends(s, Apply(s, t))
  {
  }

  lemma FilesStep(s: State, t: Step)
    requires FilesOk(s) && Enabled(s, t)
    ensures FilesOk(Apply(s, t))
  {
    var s' := Apply(s, t);
    if t.Append? {
      var versions := s.files[t.wire];
      assert Grows(s'.files[t.wire], s'.clock);
    }
  }

  lemma TakenStays(s: State, later: State, wires: seq<Wire>, versions: seq<nat>)
    requires Extends(s, later) && Taken(s, wires, versions)
    ensures Taken(later, wires, versions)
  {
    forall k | 0 <= k < |versions| ensures versions[k] < |later.files[wires[k]]| {
      assert wires[k] in wires;
    }
  }

  lemma NewerStays(s: State, later: State, wires: seq<Wire>, read: seq<nat>, key: nat)
    requires Extends(s, later) && Taken(s, wires, read) && NewerThan(s, wires, read, key) && key <= s.clock
    ensures Taken(later, wires, read) && NewerThan(later, wires, read, key)
  {
    TakenStays(s, later, wires, read);
    forall k, v | 0 <= k < |read| && read[k] < v < |later.files[wires[k]]|
      ensures later.files[wires[k]][v].mtime > key
    {
      assert wires[k] in wires;
      if v < |s.files[wires[k]]| {
        assert later.files[wires[k]][v] == s.files[wires[k]][v];
      }
    }
  }

  lemma ListedStays(s: State, t: Step, conversation: Conversation, listedAt: nat, wires: seq<Wire>)
    requires FilesOk(s) && Enabled(s, t) && Listed(s, conversation, listedAt, wires)
    requires forall w <- wires :: w in s.files
    ensures Listed(Apply(s, t), conversation, listedAt, wires)
  {
    var s' := Apply(s, t);
    forall w <- WiresOf(s', conversation)
      ensures w in s'.files && s'.files[w] != [] && (w in wires <==> s'.files[w][0].mtime <= listedAt)
    {
      if t.Create? && w == t.wire {
      } else {
        assert w in WiresOf(s, conversation);
        assert s'.files[w][0] == s.files[w][0];
      }
    }
  }

  lemma ReportStays(s: State, t: Step, conversation: Conversation, r: Report)
    requires FilesOk(s) && Enabled(s, t) && ReportOk(s, conversation, r)
    ensures ReportOk(Apply(s, t), conversation, r)
  {
    hide Apply, Enabled, Listed, Extends, Taken, NewerThan;
    var s' := Apply(s, t);
    StepExtends(s, t);
    TakenWires(s, r.wires, r.observed);
    TakenStays(s, s', r.wires, r.observed);
    KeyStays(s, s', r.wires, r.observed);
    NewerStays(s, s', r.wires, r.read, r.key);
    ListedStays(s, t, conversation, r.listedAt, r.wires);
    ClockGrows(s, s');
  }

  lemma TakenWires(s: State, wires: seq<Wire>, versions: seq<nat>)
    requires Taken(s, wires, versions)
    ensures forall w <- wires :: w in s.files
  {
  }

  lemma ClockGrows(s: State, later: State)
    requires Extends(s, later)
    ensures s.clock <= later.clock
  {
  }

  /** A call that does not move keeps all it knows. */
  lemma OtherCallStays(s: State, t: Step, c: nat)
    requires FilesOk(s) && Enabled(s, t) && c in s.calls && CallOk(s, c)
    requires c in Apply(s, t).calls && Apply(s, t).calls[c] == s.calls[c]
    ensures CallOk(Apply(s, t), c)
  {
    hide Enabled, Listed, Extends, NewerThan, KeyOf, FreshFor, ReportOk, FilesOk;
    var s' := Apply(s, t);
    hide Apply;
    var call := s.calls[c];
    StepExtends(s, t);
    TakenStays(s, s', call.wires, call.observed);
    TakenStays(s, s', call.wires, call.read);
    hide Taken;
    KeyStays(s, s', call.wires, call.observed);
    KeyBounds(s, call.wires, call.observed);
    if call.phase.Reading? {
      NewerStays(s, s', call.wires, call.read, KeyOf(s, call.wires, call.observed));
    }
    TakenWires(s, call.wires, call.observed);
    if !call.phase.Listing? {
      ListedStays(s, t, call.conversation, call.listedAt, call.wires);
    }
    if call.phase.Served? {
      ReportStays(s, t, call.conversation, call.phase.report);
      FreshStays(s, s', call, call.phase.report);
    }
  }

  lemma FreshStays(s: State, later: State, call: Call, r: Report)
    requires FreshFor(s, call, r)
    ensures FreshFor(later, call, r)
  {
  }

  /**
   The heart of it. What a report read of a file is no older than what a call observed of it when
   their keys agree: an observed version is no newer than the key, and every version after the one
   read is.
   */
  lemma SameKeyIsFresh(s: State, call: Call, r: Report)
    requires FilesOk(s) && Taken(s, call.wires, call.observed) && Taken(s, r.wires, r.read)
    requires NewerThan(s, r.wires, r.read, r.key) && r.key == KeyOf(s, call.wires, call.observed)
    ensures FreshFor(s, call, r)
  {
    KeyBounds(s, call.wires, call.observed);
    forall j, k | 0 <= j < |call.observed| && 0 <= k < |r.read| && call.wires[j] == r.wires[k]
      ensures call.observed[j] <= r.read[k]
    {
      assert call.wires[j] in call.wires;
      assert MtimeAt(s, call.wires[j], call.observed[j]) <= r.key;
    }
  }

  function Mover(t: Step): Option<nat> {
    match t
    case Create(_, _, _, _, _) => None
    case Append(_, _, _) => None
    case Ask(c, _) => Some(c)
    case List(c) => Some(c)
    case Stat(c) => Some(c)
    case Lookup(c) => Some(c)
    case Read(c) => Some(c)
    case ReadFails(c) => Some(c)
    case Insert(c) => Some(c)
  }

  lemma ListStep(s: State, c: nat)
    requires FilesOk(s) && Enabled(s, List(c)) && CallOk(s, c)
    ensures CallOk(Apply(s, List(c)), c)
  {
    var conversation := s.calls[c].conversation;
    forall w <- WiresOf(s, conversation) ensures w in s.files && Grows(s.files[w], s.clock) {
    }
  }

  lemma StatStep(s: State, c: nat)
    requires FilesOk(s) && Enabled(s, Stat(c)) && CallOk(s, c)
    ensures CallOk(Apply(s, Stat(c)), c)
  {
    var call := s.calls[c];
    assert Grows(s.files[call.wires[|call.observed|]], s.clock);
  }

  lemma LookupStep(s: State, c: nat)
    requires FilesOk(s) && Enabled(s, Lookup(c)) && CallOk(s, c)
    requires s.calls[c].conversation in s.cache ==>
             ReportOk(s, s.calls[c].conversation, s.cache[s.calls[c].conversation])
    ensures CallOk(Apply(s, Lookup(c)), c)
  {
    var call := s.calls[c];
    var s' := Apply(s, Lookup(c));
    KeySame(s, s', call.wires, call.observed);
    if call.conversation in s.cache && s.cache[call.conversation].key == KeyOf(s, call.wires, call.observed) {
      var r := s.cache[call.conversation];
      SameKeyIsFresh(s, call, r);
      KeySame(s, s', r.wires, r.observed);
    }
  }

  lemma {:induction false} KeySame(s: State, later: State, wires: seq<Wire>, observed: seq<nat>)
    requires s.files == later.files
    ensures KeyOf(later, wires, observed) == KeyOf(s, wires, observed)
    decreases |wires|
  {
    if wires != [] && observed != [] {
      KeySame(s, later, wires[1..], observed[1..]);
    }
  }

  lemma ReadOne(s: State, wires: seq<Wire>, observed: seq<nat>, read: seq<nat>, key: nat)
    requires FilesOk(s) && Taken(s, wires, observed) && Taken(s, wires, read) && NewerThan(s, wires, read, key)
    requires |read| < |wires| == |observed| && forall k | 0 <= k < |read| :: observed[k] <= read[k]
    ensures var more := read + [Last(s, wires[|read|])];
            && Taken(s, wires, more) && NewerThan(s, wires, more, key)
            && forall k | 0 <= k < |more| :: observed[k] <= more[k]
  {
    assert Grows(s.files[wires[|read|]], s.clock);
  }

  lemma TakenSame(s: State, later: State, wires: seq<Wire>, versions: seq<nat>, key: nat)
    requires s.files == later.files && Taken(s, wires, versions)
    ensures Taken(later, wires, versions)
            && (NewerThan(s, wires, versions, key) <==> NewerThan(later, wires, versions, key))
  {
  }

  lemma ReadStep(s: State, c: nat)
    requires FilesOk(s) && Enabled(s, Read(c)) && CallOk(s, c)
    ensures CallOk(Apply(s, Read(c)), c)
  {
    hide FilesOk, Taken, NewerThan, KeyOf;
    var call := s.calls[c];
    var s' := Apply(s, Read(c));
    var key := KeyOf(s, call.wires, call.observed);
    KeySame(s, s', call.wires, call.observed);
    ReadOne(s, call.wires, call.observed, call.read, key);
    TakenSame(s, s', call.wires, call.observed, key);
    TakenSame(s, s', call.wires, s'.calls[c].read, key);
  }

  lemma InsertStep(s: State, c: nat)
    requires FilesOk(s) && Enabled(s, Insert(c)) && CallOk(s, c)
    ensures var s' := Apply(s, Insert(c));
            && CallOk(s', c)
            && ReportOk(s', s.calls[c].conversation, ReportOf(s, s.calls[c]))
  {
    var call := s.calls[c];
    KeyBounds(s, call.wires, call.observed);
    SameKeyIsFresh(s, call, ReportOf(s, call));
    KeySame(s, Apply(s, Insert(c)), call.wires, call.observed);
  }

  lemma MoverStep(s: State, t: Step)
    requires Inv(s) && Enabled(s, t) && Mover(t).Some?
    ensures CallOk(Apply(s, t), Mover(t).value)
  {
    hide CallOk, ReportOk, FilesOk;
    match t {
      case Ask(c, _) => NewCallOk(s, t);
      case List(c) => ListStep(s, c);
      case Stat(c) => StatStep(s, c);
      case Lookup(c) => LookupStep(s, c);
      case Read(c) => ReadStep(s, c);
      case ReadFails(c) => ReadFailsStep(s, c);
      case Insert(c) => InsertStep(s, c);
      case _ =>
    }
  }

  lemma NewCallOk(s: State, t: Step)
    requires Enabled(s, t) && t.Ask?
    ensures CallOk(Apply(s, t), t.c)
  {
  }

  lemma ReadFailsStep(s: State, c: nat)
    requires Enabled(s, ReadFails(c)) && CallOk(s, c)
    ensures CallOk(Apply(s, ReadFails(c)), c)
  {
  }

  lemma InvStep(s: State, t: Step)
    requires Inv(s) && Enabled(s, t)
    ensures Inv(Apply(s, t))
  {
    hide CallOk, ReportOk, FilesOk, KeyOf;
    var s' := Apply(s, t);
    FilesStep(s, t);
    if Mover(t).Some? {
      MoverStep(s, t);
    }
    forall c <- s'.calls | Some(c) != Mover(t) ensures CallOk(s', c) {
      assert s'.calls[c] == s.calls[c];
      OtherCallStays(s, t, c);
    }
    forall conversation <- s'.cache ensures ReportOk(s', conversation, s'.cache[conversation]) {
      if t.Insert? && conversation == s.calls[t.c].conversation {
        InsertStep(s, t.c);
      } else {
        assert s'.cache[conversation] == s.cache[conversation];
        ReportStays(s, t, conversation, s.cache[conversation]);
      }
    }
  }

  // ---- Every run ----

  ghost predicate Runs(s: State, ts: seq<Step>)
    decreases |ts|
  {
    ts == [] || (Enabled(s, ts[0]) && Runs(Apply(s, ts[0]), ts[1..]))
  }

  ghost function After(s: State, ts: seq<Step>): State
    requires Runs(s, ts)
    decreases |ts|
  {
    if ts == [] then s else After(Apply(s, ts[0]), ts[1..])
  }

  lemma {:induction false} InvRun(s: State, ts: seq<Step>)
    requires Inv(s) && Runs(s, ts)
    ensures Inv(After(s, ts))
    decreases |ts|
  {
    hide Inv, Apply, Enabled;
    if ts != [] {
      InvStep(s, ts[0]);
      InvRun(Apply(s, ts[0]), ts[1..]);
    }
  }

  /** The text a report read of its k-th file. */
  function TextRead(s: State, r: Report, k: nat): string
    requires k < |r.read| && k < |r.wires| && r.wires[k] in s.files && r.read[k] < |s.files[r.wires[k]]|
  {
    s.files[r.wires[k]][r.read[k]].text
  }

  /**
   A served report read of each shared file an extension of what the call saw, and a beginning of
   what it holds now.
   */
  ghost predicate CoversWhatWasSeen(s: State, call: Call, r: Report) {
    && |r.read| == |r.wires| && |call.observed| == |call.wires|
    && forall j, k | 0 <= j < |call.wires| && 0 <= k < |r.wires| && call.wires[j] == r.wires[k] ::
         && r.wires[k] in s.files && call.observed[j] <= r.read[k] < |s.files[r.wires[k]]|
         && s.files[r.wires[k]][call.observed[j]].text <= TextRead(s, r, k)
         && TextRead(s, r, k) <= s.files[r.wires[k]][|s.files[r.wires[k]]| - 1].text
  }

  /** It covers the files that existed at its listing, and misses only ones made before the stat its key comes from. */
  ghost predicate MissesOnlyNewFiles(s: State, call: Call, r: Report) {
    && (forall w <- WiresOf(s, call.conversation) :: w in r.wires <==> MtimeAt(s, w, 0) <= r.listedAt)
    && (forall j | 0 <= j < |call.wires| && call.wires[j] !in r.wires :: MtimeAt(s, call.wires[j], 0) <= r.key)
  }

  lemma ServedCovers(s: State, c: nat)
    requires FilesOk(s) && c in s.calls && CallOk(s, c) && s.calls[c].phase.Served?
    ensures CoversWhatWasSeen(s, s.calls[c], s.calls[c].phase.report)
  {
    hide NewerThan, Listed;
    var call := s.calls[c];
    var r := call.phase.report;
    hide FreshFor;
    forall j, k | 0 <= j < |call.wires| && 0 <= k < |r.wires| && call.wires[j] == r.wires[k]
      ensures && r.wires[k] in s.files && call.observed[j] <= r.read[k] < |s.files[r.wires[k]]|
              && s.files[r.wires[k]][call.observed[j]].text <= TextRead(s, r, k)
              && TextRead(s, r, k) <= s.files[r.wires[k]][|s.files[r.wires[k]]| - 1].text
    {
      FreshAt(s, call, r, j, k);
      assert r.wires[k] in r.wires;
      assert Grows(s.files[r.wires[k]], s.clock);
    }
  }

  lemma FreshAt(s: State, call: Call, r: Report, j: nat, k: nat)
    requires FreshFor(s, call, r) && |call.observed| == |call.wires| && |r.read| == |r.wires|
    requires j < |call.wires| && k < |r.wires| && call.wires[j] == r.wires[k]
    ensures call.observed[j] <= r.read[k]
  {
  }

  lemma ServedMisses(s: State, c: nat)
    requires FilesOk(s) && c in s.calls && CallOk(s, c) && s.calls[c].phase.Served?
    ensures MissesOnlyNewFiles(s, s.calls[c], s.calls[c].phase.report)
  {
    hide NewerThan, FreshFor;
    var call := s.calls[c];
    KeyBounds(s, call.wires, call.observed);
    forall j | 0 <= j < |call.wires| && call.wires[j] !in call.phase.report.wires
      ensures MtimeAt(s, call.wires[j], 0) <= call.phase.report.key
    {
      assert call.wires[j] in call.wires;
      assert Grows(s.files[call.wires[j]], s.clock);
      assert MtimeAt(s, call.wires[j], call.observed[j]) <= call.phase.report.key;
    }
  }

  lemma InvInit()
    ensures Inv(INIT)
  {
  }

  /** In every reachable state, for every report served, from the cache or not. */
  lemma ServedReportsAreFresh(ts: seq<Step>, c: nat)
    requires Runs(INIT, ts) && c in After(INIT, ts).calls && After(INIT, ts).calls[c].phase.Served?
    ensures var s := After(INIT, ts);
            CoversWhatWasSeen(s, s.calls[c], s.calls[c].phase.report)
              && MissesOnlyNewFiles(s, s.calls[c], s.calls[c].phase.report)
  {
    hide CallOk, FilesOk, CoversWhatWasSeen, MissesOnlyNewFiles;
    InvInit();
    InvRun(INIT, ts);
    ServedCovers(After(INIT, ts), c);
    ServedMisses(After(INIT, ts), c);
  }

  // ---- Exactly what was observed ----

  /** The report reads every file as the call saw it. */
  ghost predicate AsSeen(s: State, call: Call, r: Report) {
    && |r.read| == |r.wires| && |call.observed| == |call.wires| && r.wires == call.wires
    && forall k | 0 <= k < |r.wires| ::
         && r.wires[k] in s.files && r.read[k] < |s.files[r.wires[k]]| && call.observed[k] < |s.files[r.wires[k]]|
         && s.files[r.wires[k]][r.read[k]] == s.files[r.wires[k]][call.observed[k]]
  }

  lemma KeyOfOne(s: State, w: Wire, observed: seq<nat>)
    requires |observed| == 1
    ensures KeyOf(s, [w], observed) == MtimeAt(s, w, observed[0])
  {
    assert KeyOf(s, [w][1..], observed[1..]) == 0;
  }

  /** The last version of a file that is no newer than the key. */
  ghost predicate LatestBy(s: State, w: Wire, version: nat, key: nat) {
    && w in s.files && version < |s.files[w]| && s.files[w][version].mtime <= key
    && forall v | version < v < |s.files[w]| :: s.files[w][v].mtime > key
  }

  /**
   No write past the key got into the read, and none up to it came after the call's own stat: the
   one is a write between a stat and a read of the call that built the report, the other a write
   between two stats of the call that was served.
   */
  ghost predicate Undisturbed(s: State, call: Call, r: Report) {
    && r.wires == call.wires && |r.read| == |r.wires| && |call.observed| == |call.wires|
    && forall k | 0 <= k < |r.wires| ::
      MtimeAt(s, r.wires[k], r.read[k]) <= r.key && LatestBy(s, r.wires[k], call.observed[k], r.key)
  }

  /** What one file shows of it. */
  lemma FileAsSeen(s: State, w: Wire, read: nat, observed: nat, key: nat)
    requires FilesOk(s) && w in s.files && read < |s.files[w]| && observed < |s.files[w]|
    requires s.files[w][observed].mtime <= key && forall v | read < v < |s.files[w]| :: s.files[w][v].mtime > key
    ensures s.files[w][read] == s.files[w][observed] <==> MtimeAt(s, w, read) <= key && LatestBy(s, w, observed, key)
  {
    assert Grows(s.files[w], s.clock);
  }

  lemma ServedAsSeen(s: State, c: nat)
    requires FilesOk(s) && c in s.calls && CallOk(s, c) && s.calls[c].phase.Served?
    ensures AsSeen(s, s.calls[c], s.calls[c].phase.report) <==> Undisturbed(s, s.calls[c], s.calls[c].phase.report)
  {
    hide Listed, FreshFor, FilesOk;
    var call := s.calls[c];
    var r := call.phase.report;
    KeyBounds(s, call.wires, call.observed);
    if r.wires == call.wires {
      forall k | 0 <= k < |r.wires|
        ensures s.files[r.wires[k]][r.read[k]] == s.files[r.wires[k]][call.observed[k]] <==>
                MtimeAt(s, r.wires[k], r.read[k]) <= r.key && LatestBy(s, r.wires[k], call.observed[k], r.key)
      {
        assert r.wires[k] in r.wires;
        assert MtimeAt(s, call.wires[k], call.observed[k]) <= r.key;
        FileAsSeen(s, r.wires[k], r.read[k], call.observed[k], r.key);
      }
    }
  }

  /**
   In every run, for any number of files: a served report is of the texts the call observed exactly
   when nothing disturbed either.
   */
  lemma ServedReportsAreExact(ts: seq<Step>, c: nat)
    requires Runs(INIT, ts) && c in After(INIT, ts).calls && After(INIT, ts).calls[c].phase.Served?
    ensures var s := After(INIT, ts);
            AsSeen(s, s.calls[c], s.calls[c].phase.report) <==> Undisturbed(s, s.calls[c], s.calls[c].phase.report)
  {
    hide CallOk, FilesOk, AsSeen, Undisturbed;
    InvInit();
    InvRun(INIT, ts);
    ServedAsSeen(After(INIT, ts), c);
  }

  /** A call that lists one file cannot disturb itself: only a write past the key in the read can. */
  lemma SingleFileReportsAreExact(ts: seq<Step>, c: nat, w: Wire)
    requires Runs(INIT, ts) && c in After(INIT, ts).calls && After(INIT, ts).calls[c].phase.Served?
    requires After(INIT, ts).calls[c].wires == [w]
    ensures var s := After(INIT, ts); var r := s.calls[c].phase.report;
            AsSeen(s, s.calls[c], r) <==> r.wires == [w] && |r.read| == 1 && MtimeAt(s, w, r.read[0]) <= r.key
  {
    hide CallOk, FilesOk, AsSeen;
    InvInit();
    InvRun(INIT, ts);
    ServedReportsAreExact(ts, c);
    SingleFile(After(INIT, ts), c, w);
  }

  lemma SingleFile(s: State, c: nat, w: Wire)
    requires FilesOk(s) && c in s.calls && CallOk(s, c) && s.calls[c].phase.Served? && s.calls[c].wires == [w]
    ensures var call := s.calls[c]; |call.observed| == 1 && LatestBy(s, w, call.observed[0], call.phase.report.key)
  {
    hide NewerThan, Listed, FreshFor;
    var call := s.calls[c];
    assert w in call.wires && Grows(s.files[w], s.clock);
    KeyOfOne(s, w, call.observed);
  }

  // ---- The window between a stat and a read ----

  function Writes(ts: seq<Step>, w: Wire): nat {
    if ts == [] then 0 else (if ts[0].Append? && ts[0].wire == w then 1 else 0) + Writes(ts[1..], w)
  }

  /** The call has observed this version of the k-th of its files. */
  ghost predicate HasObserved(s: State, c: nat, wires: seq<Wire>, k: nat, version: nat) {
    && c in s.calls && !s.calls[c].phase.Listing? && s.calls[c].wires == wires && k < |wires| && wires[k] in s.files
    && k < |s.calls[c].observed| && s.calls[c].observed[k] == version
  }

  lemma ObservedStep(s: State, t: Step, c: nat, wires: seq<Wire>, k: nat, version: nat)
    requires Enabled(s, t) && HasObserved(s, c, wires, k, version)
    ensures HasObserved(Apply(s, t), c, wires, k, version)
    ensures |Apply(s, t).files[wires[k]]| == |s.files[wires[k]]| + Writes([t], wires[k])
  {
    hide KeyOf, ReportOf;
    assert [t][1..] == [];
  }

  lemma {:induction false} ObservedRun(s: State, ts: seq<Step>, c: nat, wires: seq<Wire>, k: nat, version: nat)
    requires Runs(s, ts) && HasObserved(s, c, wires, k, version)
    ensures HasObserved(After(s, ts), c, wires, k, version)
    ensures |After(s, ts).files[wires[k]]| == |s.files[wires[k]]| + Writes(ts, wires[k])
    decreases |ts|
  {
    hide HasObserved, Enabled, Apply;
    if ts != [] {
      ObservedStep(s, ts[0], c, wires, k, version);
      assert [ts[0]][1..] == [];
      ObservedRun(Apply(s, ts[0]), ts[1..], c, wires, k, version);
    }
  }

  /** A call stats its next file, `between` happens, and it is about to read that same file. */
  ghost predicate Window(s: State, c: nat, between: seq<Step>) {
    && Enabled(s, Stat(c)) && Runs(Apply(s, Stat(c)), between)
    && Enabled(After(Apply(s, Stat(c)), between), Read(c))
    && |After(Apply(s, Stat(c)), between).calls[c].read| == |s.calls[c].observed|
  }

  /** The state once it has read it. */
  ghost function AfterWindow(s: State, c: nat, between: seq<Step>): State
    requires Window(s, c, between)
  {
    Apply(After(Apply(s, Stat(c)), between), Read(c))
  }

  /**
   Between a call's stat of a file and its read of it, whatever else happens: the version read is
   as many past the one observed as there were writes to the file, and is newer exactly when there
   was one.
   */
  lemma ReadFollowsTheWrites(before: seq<Step>, c: nat, between: seq<Step>)
    requires Runs(INIT, before) && Window(After(INIT, before), c, between)
    ensures var s := After(INIT, before); var end := AfterWindow(s, c, between);
            var k := |s.calls[c].observed|; var w := s.calls[c].wires[k];
            && Inv(end) && c in end.calls && end.calls[c].wires == s.calls[c].wires
            && k < |end.calls[c].observed| && |end.calls[c].read| == k + 1
            && end.calls[c].read[k] == end.calls[c].observed[k] + Writes(between, w)
            && (MtimeAt(end, w, end.calls[c].read[k]) > MtimeAt(end, w, end.calls[c].observed[k]) <==>
              Writes(between, w) > 0)
  {
    hide Runs, After, Inv, KeyOf;
    InvInit();
    InvRun(INIT, before);
    var s := After(INIT, before);
    var statted := Apply(s, Stat(c));
    InvStep(s, Stat(c));
    InvRun(statted, between);
    var k, wires := |s.calls[c].observed|, s.calls[c].wires;
    StatObserves(s, c);
    ObservedRun(statted, between, c, wires, k, Last(s, wires[k]));
    ReadTakes(After(statted, between), c, wires, k, Last(s, wires[k]));
    InvStep(After(statted, between), Read(c));
  }

  lemma StatObserves(s: State, c: nat)
    requires Inv(s) && Enabled(s, Stat(c))
    ensures var k, wires := |s.calls[c].observed|, s.calls[c].wires;
            && wires[k] in s.files && |Apply(s, Stat(c)).files[wires[k]]| == Last(s, wires[k]) + 1
            && HasObserved(Apply(s, Stat(c)), c, wires, k, Last(s, wires[k]))
  {
    hide CallOk, ReportOk;
    assert Grows(s.files[s.calls[c].wires[|s.calls[c].observed|]], s.clock);
  }

  lemma ReadTakes(s: State, c: nat, wires: seq<Wire>, k: nat, version: nat)
    requires Inv(s) && Enabled(s, Read(c)) && HasObserved(s, c, wires, k, version) && |s.calls[c].read| == k
             && version < |s.files[wires[k]]|
    ensures var end := Apply(s, Read(c)); var w := wires[k];
            && end.calls[c].wires == wires && k < |end.calls[c].observed| && end.calls[c].observed[k] == version
            && |end.calls[c].read| == k + 1 && end.calls[c].read[k] == |s.files[w]| - 1
            && (MtimeAt(end, w, |s.files[w]| - 1) > MtimeAt(end, w, version) <==> version < |s.files[w]| - 1)
  {
    hide CallOk, ReportOk;
    assert Grows(s.files[wires[k]], s.clock);
  }

  /**
   So what a call of one file is about to store is past its own key exactly when a write came
   between its stat and its read.
   */
  lemma OnlyTheWindowDisturbs(before: seq<Step>, c: nat, between: seq<Step>, w: Wire)
    requires Runs(INIT, before) && Window(After(INIT, before), c, between) && After(INIT, before).calls[c].wires == [w]
    ensures var end := AfterWindow(After(INIT, before), c, between); var r := ReportOf(end, end.calls[c]);
            && Enabled(end, Insert(c)) && |r.read| == 1
            && (MtimeAt(end, w, r.read[0]) <= r.key <==> Writes(between, w) == 0)
  {
    ReadFollowsTheWrites(before, c, between);
    ReportOfOne(AfterWindow(After(INIT, before), c, between), c, w);
  }

  lemma ReportOfOne(end: State, c: nat, w: Wire)
    requires Inv(end) && c in end.calls && end.calls[c].wires == [w] && |end.calls[c].observed| >= 1
             && |end.calls[c].read| == 1
    ensures ReportOf(end, end.calls[c]).key == MtimeAt(end, w, end.calls[c].observed[0])
  {
    hide NewerThan, Listed, FreshFor, ReportOk, FilesOk;
    assert CallOk(end, c);
    KeyOfOne(end, w, end.calls[c].observed);
  }

  lemma {:induction false} RunOn(s: State, ts: seq<Step>, t: Step)
    requires Runs(s, ts) && Enabled(After(s, ts), t)
    ensures Runs(s, ts + [t]) && After(s, ts + [t]) == Apply(After(s, ts), t)
    decreases |ts|
  {
    hide Enabled, Apply;
    if ts == [] {
      assert ts + [t] == [t] && [t][1..] == [];
      assert After(Apply(s, t), []) == Apply(s, t);
    } else {
      assert (ts + [t])[1..] == ts[1..] + [t];
      RunOn(Apply(s, ts[0]), ts[1..], t);
    }
  }

  lemma Extended(ts: seq<Step>, s: State, t: Step) returns (more: seq<Step>, next: State)
    requires Runs(INIT, ts) && After(INIT, ts) == s && Enabled(s, t)
    ensures Runs(INIT, more) && After(INIT, more) == next && next == Apply(s, t)
  {
    RunOn(INIT, ts, t);
    more, next := ts + [t], Apply(s, t);
  }

  /** One call has statted the session's only file. */
  lemma OneStatted() returns (ts: seq<Step>, s: State)
    ensures Runs(INIT, ts) && After(INIT, ts) == s
    ensures s == State(1, map[0 := [Version(1, "a")]], map[0 := [0]], map[],
            map[0 := Call(0, 1, [0], [0], [], Statting)])
  {
    hide Runs, After;
    ts := NoSteps();
    ts, s := Extended(ts, INIT, Create(0, 0, 0, "a", 1));
    ts, s := Extended(ts, s, Ask(0, 0));
    ts, s := Extended(ts, s, List(0));
    assert s.calls[0].wires == [0];
    ts, s := Extended(ts, s, Stat(0));
    assert s.calls[0].observed == [0] && s.sessions[0] == [0];
  }

  lemma NoSteps() returns (ts: seq<Step>)
    ensures Runs(INIT, ts) && After(INIT, ts) == INIT
  {
    ts := [];
  }

  /** A second one has, too, and the first is about to read. */
  lemma BothStatted() returns (ts: seq<Step>, s: State)
    ensures Runs(INIT, ts) && After(INIT, ts) == s
    ensures s == State(1, map[0 := [Version(1, "a")]], map[0 := [0]], map[],
                       map[0 := Call(0, 1, [0], [0], [], Reading), 1 := Call(0, 1, [0], [0], [], Statting)])
  {
    hide Runs, After;
    ts, s := OneStatted();
    ts, s := Extended(ts, s, Ask(1, 0));
    ts, s := Extended(ts, s, List(1));
    ts, s := Extended(ts, s, Stat(1));
    assert s.calls[1].observed == [0];
    ts, s := Extended(ts, s, Lookup(0));
  }

  /** A write between the stat and the read reaches a call that observed the file without it. */
  lemma ReportOfALaterText() returns (ts: seq<Step>)
    ensures && Runs(INIT, ts) && 1 in After(INIT, ts).calls && After(INIT, ts).calls[1].phase.Served?
            && After(INIT, ts).calls[1].phase.cached
            && !AsSeen(After(INIT, ts), After(INIT, ts).calls[1], After(INIT, ts).calls[1].phase.report)
  {
    hide Runs, After;
    var s;
    ts, s := BothStatted();
    KeyOfOne(s, 0, [0]);
    ts, s := Extended(ts, s, Append(0, "b", 2));
    ts, s := Extended(ts, s, Read(0));
    KeyOfOne(s, 0, [0]);
    ts, s := Extended(ts, s, Insert(0));
    assert s.cache[0] == Report(1, 1, [0], [0], [1]);
    KeyOfOne(s, 0, [0]);
    ts, s := Extended(ts, s, Lookup(1));
    assert s.files[0][1].mtime == 2 && s.files[0][0].mtime == 1;
  }

  /** A call that listed one file, then statted it when a second had come and the first had grown. */
  lemma ListedBefore() returns (ts: seq<Step>, s: State)
    ensures Runs(INIT, ts) && After(INIT, ts) == s
    ensures s == State(3, map[0 := [Version(1, "a"), Version(3, "ac")], 1 := [Version(2, "b")]], map[0 := [0, 1]],
            map[],
                       map[0 := Call(0, 1, [0], [1], [], Statting)])
  {
    hide Runs, After;
    ts := NoSteps();
    ts, s := Extended(ts, INIT, Create(0, 0, 0, "a", 1));
    ts, s := Extended(ts, s, Ask(0, 0));
    ts, s := Extended(ts, s, List(0));
    assert s.calls[0].wires == [0] && s.sessions[0] == [0];
    assert s == State(1, map[0 := [Version(1, "a")]], map[0 := [0]], map[],
           map[0 := Call(0, 1, [0], [], [], Statting)]);
    ts, s := Extended(ts, s, Create(0, 1, 1, "b", 2));
    assert s.sessions[0] == [0, 1];
    ts, s := Extended(ts, s, Append(0, "c", 3));
    assert s.files[0][1].text == "ac" && s.files[0] == [Version(1, "a"), Version(3, "ac")];
    ts, s := Extended(ts, s, Stat(0));
    assert s.calls[0].observed == [1];
  }

  lemma InsertedWithoutIt() returns (ts: seq<Step>, s: State)
    ensures Runs(INIT, ts) && After(INIT, ts) == s
    ensures s.files == map[0 := [Version(1, "a"), Version(3, "ac")], 1 := [Version(2, "b")]]
            && s.sessions == map[0 := [0, 1]]
    ensures s.cache == map[0 := Report(3, 1, [0], [1], [1])] && s.calls.Keys == {0}
  {
    hide Runs, After;
    ts, s := ListedBefore();
    ts, s := Extended(ts, s, Lookup(0));
    ts, s := Extended(ts, s, Read(0));
    KeyOfOne(s, 0, [1]);
    assert s.calls[0].read == [1];
    ts, s := Extended(ts, s, Insert(0));
    assert s.cache[0] == Report(3, 1, [0], [1], [1]);
  }

  /** A file made after the listing is missed by calls that do list it, for as long as the key stands. */
  lemma ReportWithoutANewFile() returns (ts: seq<Step>)
    ensures && Runs(INIT, ts) && 1 in After(INIT, ts).calls && After(INIT, ts).calls[1].phase.Served?
            && 1 in After(INIT, ts).calls[1].wires && 1 !in After(INIT, ts).calls[1].phase.report.wires
  {
    hide Runs, After;
    var s;
    ts, s := InsertedWithoutIt();
    ts, s := Extended(ts, s, Ask(1, 0));
    ts, s := Extended(ts, s, List(1));
    ts, s := Extended(ts, s, Stat(1));
    ts, s := Extended(ts, s, Stat(1));
    KeyOfOne(s, 1, [0]);
    assert [0, 1][1..] == [1] && [1, 0][1..] == [0];
    assert KeyOf(s, [0, 1], [1, 0]) == 3;
    ts, s := Extended(ts, s, Lookup(1));
  }
}
