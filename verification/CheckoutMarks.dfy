/**
 The marks by which a human trusts a checkout's own launcher (`agent_setup.rs`), over any
 history of edits, checks and approvals. A root stands for its canonical key; the digest is any
 function of the launcher's bytes, injective where a result says so.
 */
module CheckoutMarks {
  import opened Prelude

  type Bytes = seq<int>
  type Digest = Bytes -> string

  const MCP_LAUNCHER: string := "scripts/gavin-mcp"

  /** A stored value: the digest approved, or something in the file that is not text. */
  datatype Mark = Approved(digest: string) | NotText

  /** The disk and the mark store. `crates` are the roots that ship the crate as well. */
  datatype World = World(launchers: map<string, Bytes>, crates: set<string>, marks: map<string, Mark>)

  predicate LooksLikeCheckout(w: World, root: string) {
    root in w.crates && root in w.launchers
  }

  /** Whether the mark stands; a mark for other bytes is dropped, if the store can be written. */
  function MarkMatches(w: World, digest: Digest, root: string, writes: bool): (bool, World) {
    if root !in w.launchers || root !in w.marks || w.marks[root].NotText? then (false, w)
    else if w.marks[root].digest == digest(w.launchers[root]) then (true, w)
    else (false, if writes then w.(marks := w.marks - {root}) else w)
  }

  function RecordMark(w: World, digest: Digest, root: string, writes: bool): Result<World> {
    if root !in w.launchers || !writes then Err("no mark recorded")
    else Ok(w.(marks := w.marks[root := Approved(digest(w.launchers[root]))]))
  }

  /** The command a config names: the relative launcher, or the binary beside the app. */
  function McpCommand(w: World, digest: Digest, root: string, binary: string, writes: bool): (string, World) {
    if !LooksLikeCheckout(w, root) then (binary, w)
    else
      var (matches, w') := MarkMatches(w, digest, root, writes);
      (if matches then MCP_LAUNCHER else binary, w')
  }

  /**
   The part of an integration that decides the command: a check, the approval asked for, then the
   write's own check.
   */
  function Integrate(w: World, digest: Digest, root: string, binary: string, approve: bool,
                     writes: bool): (Result<string>, World) {
    var (_, checked) := McpCommand(w, digest, root, binary, writes);
    if approve && LooksLikeCheckout(checked, root) && !MarkMatches(checked, digest, root, writes).0 then
      var dropped := MarkMatches(checked, digest, root, writes).1;
      var recorded := RecordMark(dropped, digest, root, writes);
      if recorded.Err? then (Err(recorded.error), dropped)
      else
        var (command, w') := McpCommand(recorded.value, digest, root, binary, writes);
        (Ok(command), w')
    else
      var (command, w') := McpCommand(checked, digest, root, binary, writes);
      (Ok(command), w')
  }

  // ---- Histories ----

  datatype Event =
    | Edit(root: string, bytes: Option<Bytes>)      // the launcher's bytes change, or it goes away
    | Ship(root: string, crate: bool)               // the crate beside it comes or goes
    | Look(root: string, writes: bool)               // the mark is asked for
    | Approve(root: string, writes: bool)            // an approval is recorded
    | Check(root: string, binary: string, writes: bool)
    | Run(root: string, binary: string, approve: bool, writes: bool)

  function After(w: World, digest: Digest, e: Event): World {
    match e
    case Edit(root, bytes) =>
      w.(launchers := if bytes.Some? then w.launchers[root := bytes.value] else w.launchers - {root})
    case Ship(root, crate) => w.(crates := if crate then w.crates + {root} else w.crates - {root})
    case Look(root, writes) => MarkMatches(w, digest, root, writes).1
    case Approve(root, writes) =>
      var recorded := RecordMark(w, digest, root, writes);
      if recorded.Ok? then recorded.value else w
    case Check(root, binary, writes) => McpCommand(w, digest, root, binary, writes).1
    case Run(root, binary, approve, writes) => Integrate(w, digest, root, binary, approve, writes).1
  }

  function AfterAll(w: World, digest: Digest, es: seq<Event>): World
    decreases |es|
  {
    if es == [] then w else AfterAll(After(w, digest, es[0]), digest, es[1..])
  }

  /** Whether this event records an approval of `root`. */
  predicate Approves(w: World, e: Event, root: string) {
    || (e.Run? && e.root == root && e.approve && e.writes && LooksLikeCheckout(w, root))
    || (e.Approve? && e.root == root && e.writes && root in w.launchers)
  }

  /** The bytes the latest recorded approval of `root` was given to, `start` being those before the history. */
  ghost function LastApproved(w: World, digest: Digest, es: seq<Event>, root: string,
                              start: Option<Bytes>): Option<Bytes>
    decreases |es|
  {
    if es == [] then start
    else LastApproved(After(w, digest, es[0]), digest, es[1..], root,
                      if Approves(w, es[0], root) then Some(w.launchers[root]) else start)
  }

  /** A mark, if there is one, is the digest of the bytes last approved. */
  ghost predicate Honest(w: World, digest: Digest, root: string, approved: Option<Bytes>) {
    root in w.marks && w.marks[root].Approved? ==> approved.Some? && w.marks[root].digest == digest(approved.value)
  }

  lemma HonestStep(w: World, digest: Digest, e: Event, root: string, approved: Option<Bytes>)
    requires Honest(w, digest, root, approved)
    ensures Honest(After(w, digest, e), digest, root,
            if Approves(w, e, root) then Some(w.launchers[root]) else approved)
  {
  }

  lemma {:induction false} HonestHistory(w: World, digest: Digest, es: seq<Event>, root: string,
                                         approved: Option<Bytes>)
    requires Honest(w, digest, root, approved)
    ensures Honest(AfterAll(w, digest, es), digest, root, LastApproved(w, digest, es, root, approved))
    decreases |es|
  {
    if es != [] {
      HonestStep(w, digest, es[0], root, approved);
      HonestHistory(After(w, digest, es[0]), digest, es[1..], root,
        if Approves(w, es[0], root) then Some(w.launchers[root]) else approved);
    }
  }

  ghost predicate Injective(digest: Digest) {
    forall a, b :: digest(a) == digest(b) ==> a == b
  }

  /**
   From an empty mark store, after any history and whether or not writes succeed: the relative
   launcher is named only for a checkout whose bytes are those last approved.
   */
  lemma LauncherNamedOnlyForApprovedBytes(w: World, digest: Digest, es: seq<Event>, root: string, binary: string,
                                          approve: bool, writes: bool)
    requires w.marks == map[] && Injective(digest) && binary != MCP_LAUNCHER
    ensures var now := AfterAll(w, digest, es); var approved := LastApproved(w, digest, es, root, None);
            && (McpCommand(now, digest, root, binary, writes).0 == MCP_LAUNCHER ==>
                  LooksLikeCheckout(now, root) && approved == Some(now.launchers[root]))
            && (Integrate(now, digest, root, binary, approve, writes).0 == Ok(MCP_LAUNCHER) ==>
                  LooksLikeCheckout(now, root) && (approve || approved == Some(now.launchers[root])))
  {
    HonestHistory(w, digest, es, root, None);
  }

  /** Nothing about `root`'s own files. */
  predicate Elsewhere(e: Event, root: string) {
    (e.Edit? || e.Ship?) ==> e.root != root
  }

  ghost predicate Marked(w: World, digest: Digest, root: string) {
    LooksLikeCheckout(w, root) && root in w.marks && w.marks[root] == Approved(digest(w.launchers[root]))
  }

  /** An approval names the launcher at once, and at every check until the checkout's files change. */
  lemma {:induction false} ApprovalLasts(w: World, digest: Digest, es: seq<Event>, root: string, binary: string,
                                         writes: bool)
    requires Marked(w, digest, root) && forall e <- es :: Elsewhere(e, root)
    ensures Marked(AfterAll(w, digest, es), digest, root)
    ensures McpCommand(AfterAll(w, digest, es), digest, root, binary, writes).0 == MCP_LAUNCHER
    decreases |es|
  {
    if es != [] {
      assert Elsewhere(es[0], root) && forall e <- es[1..] :: e in es;
      MarkedStep(w, digest, es[0], root);
      ApprovalLasts(After(w, digest, es[0]), digest, es[1..], root, binary, writes);
    }
  }

  lemma MarkedStep(w: World, digest: Digest, e: Event, root: string)
    requires Marked(w, digest, root) && Elsewhere(e, root)
    ensures Marked(After(w, digest, e), digest, root)
  {
  }

  lemma ApprovalMarks(w: World, digest: Digest, root: string, binary: string)
    requires LooksLikeCheckout(w, root)
    ensures Integrate(w, digest, root, binary, true, true).0 == Ok(MCP_LAUNCHER)
    ensures Marked(After(w, digest, Run(root, binary, true, true)), digest, root)
  {
  }

  /** Whether this event is a check that looks at `root`'s launcher and finds other bytes than `bytes`. */
  predicate SeesOther(w: World, e: Event, root: string, bytes: Bytes) {
    && (e.Look? || e.Check? || e.Run?) && e.root == root && e.writes
    && root in w.launchers && (e.Look? || root in w.crates) && w.launchers[root] != bytes
  }

  ghost predicate Unmarked(w: World, root: string) {
    root !in w.marks || w.marks[root].NotText?
  }

  lemma {:induction false} StaysUnmarked(w: World, digest: Digest, es: seq<Event>, root: string)
    requires Unmarked(w, root) && LastApproved(w, digest, es, root, None).None?
    ensures Unmarked(AfterAll(w, digest, es), root)
    decreases |es|
  {
    if es != [] {
      var next := After(w, digest, es[0]);
      if Approves(w, es[0], root) {
        LastApprovedKept(next, digest, es[1..], root, w.launchers[root]);
      } else {
        UnmarkedStep(w, digest, es[0], root);
        StaysUnmarked(next, digest, es[1..], root);
      }
    }
  }

  lemma UnmarkedStep(w: World, digest: Digest, e: Event, root: string)
    requires Unmarked(w, root) && !Approves(w, e, root)
    ensures Unmarked(After(w, digest, e), root)
  {
  }

  lemma {:induction false} LastApprovedKept(w: World, digest: Digest, es: seq<Event>, root: string, bytes: Bytes)
    ensures LastApproved(w, digest, es, root, Some(bytes)).Some?
    decreases |es|
  {
    if es != [] {
      LastApprovedKept(After(w, digest, es[0]), digest, es[1..], root,
                       if Approves(w, es[0], root) then w.launchers[root] else bytes);
    }
  }

  /**
   Once a check has seen other bytes than those the mark was given to, and could write that down,
   no history without a new approval brings the launcher back, the old bytes restored or not.
   */
  lemma ChangedBytesEndTheMark(w: World, digest: Digest, seen: Event, es: seq<Event>, root: string, bytes: Bytes,
                               binary: string, writes: bool)
    requires Injective(digest) && binary != MCP_LAUNCHER && Honest(w, digest, root, Some(bytes))
    requires SeesOther(w, seen, root, bytes) && !Approves(w, seen, root)
    requires LastApproved(After(w, digest, seen), digest, es, root, None).None?
    ensures McpCommand(AfterAll(After(w, digest, seen), digest, es), digest, root, binary, writes).0 == binary
  {
    var next := After(w, digest, seen);
    assert Unmarked(next, root) by {
      if root in w.marks && w.marks[root].Approved? {
        assert w.marks[root].digest != digest(w.launchers[root]);
      }
    }
    StaysUnmarked(next, digest, es, root);
  }

  /** Restored bytes find their old mark again exactly when the check that saw the others could not write. */
  lemma UnwrittenCheckForgets(w: World, digest: Digest, root: string, other: Bytes, binary: string, writes: bool,
                              later: bool)
    requires Marked(w, digest, root) && digest(other) != digest(w.launchers[root]) && binary != MCP_LAUNCHER
    ensures var history := [Edit(root, Some(other)), Check(root, binary, writes), Edit(root, Some(w.launchers[root]))];
            McpCommand(AfterAll(w, digest, history), digest, root, binary, later).0 == MCP_LAUNCHER <==> !writes
  {
    var e0, e1, e2 := Edit(root, Some(other)), Check(root, binary, writes), Edit(root, Some(w.launchers[root]));
    var w1 := After(w, digest, e0);
    var w2 := After(w1, digest, e1);
    var w3 := After(w2, digest, e2);
    assert [e0, e1, e2][1..] == [e1, e2] && [e1, e2][1..] == [e2] && [e2][1..] == [];
    assert AfterAll(w2, digest, [e2]) == w3;
    assert AfterAll(w1, digest, [e1, e2]) == w3;
    assert AfterAll(w, digest, [e0, e1, e2]) == w3;
  }

  // ---- What the mark stands for ----

  /** The bytes `root` is trusted for: those last approved, until a check that can write it sees others. */
  ghost function TrustedFor(w: World, digest: Digest, es: seq<Event>, root: string, start: Option<Bytes>): Option<Bytes>
    decreases |es|
  {
    if es == [] then start
    else TrustedFor(After(w, digest, es[0]), digest, es[1..], root, TrustedNext(w, es[0], root, start))
  }

  ghost function TrustedNext(w: World, e: Event, root: string, trusted: Option<Bytes>): Option<Bytes> {
    if Approves(w, e, root) then Some(w.launchers[root])
    else if trusted.Some? && SeesOther(w, e, root, trusted.value) then None
    else trusted
  }

  /** The store says of `root` what the history does. */
  ghost predicate Tells(w: World, digest: Digest, root: string, trusted: Option<Bytes>) {
    match trusted
    case Some(bytes) => root in w.marks && w.marks[root] == Approved(digest(bytes))
    case None => Unmarked(w, root)
  }

  lemma TellsStep(w: World, digest: Digest, e: Event, root: string, trusted: Option<Bytes>)
    requires Injective(digest) && Tells(w, digest, root, trusted)
    ensures Tells(After(w, digest, e), digest, root, TrustedNext(w, e, root, trusted))
  {
  }

  lemma {:induction false} TellsHistory(w: World, digest: Digest, es: seq<Event>, root: string, trusted: Option<Bytes>)
    requires Injective(digest) && Tells(w, digest, root, trusted)
    ensures Tells(AfterAll(w, digest, es), digest, root, TrustedFor(w, digest, es, root, trusted))
    decreases |es|
  {
    hide Tells, TrustedNext, After;
    if es != [] {
      TellsStep(w, digest, es[0], root, trusted);
      TellsHistory(After(w, digest, es[0]), digest, es[1..], root, TrustedNext(w, es[0], root, trusted));
    }
  }

  /** Over every history, the launcher is named exactly for a checkout whose bytes are those it is trusted for. */
  lemma LauncherNamedExactly(w: World, digest: Digest, es: seq<Event>, root: string, binary: string, writes: bool)
    requires w.marks == map[] && Injective(digest)
    ensures var now := AfterAll(w, digest, es);
            McpCommand(now, digest, root, binary, writes).0 ==
            if LooksLikeCheckout(now, root) && TrustedFor(w, digest, es, root, None) == Some(now.launchers[root])
            then MCP_LAUNCHER else binary
  {
    TellsHistory(w, digest, es, root, None);
  }

  lemma {:induction false} OneMoreEvent(w: World, digest: Digest, es: seq<Event>, e: Event, root: string,
                                        start: Option<Bytes>)
    ensures AfterAll(w, digest, es + [e]) == After(AfterAll(w, digest, es), digest, e)
    ensures TrustedFor(w, digest, es + [e], root, start) ==
            TrustedNext(AfterAll(w, digest, es), e, root, TrustedFor(w, digest, es, root, start))
    decreases |es|
  {
    hide After, TrustedNext;
    if es == [] {
      assert es + [e] == [e] && [e][1..] == [];
    } else {
      assert (es + [e])[1..] == es[1..] + [e];
      OneMoreEvent(After(w, digest, es[0]), digest, es[1..], e, root, TrustedNext(w, es[0], root, start));
    }
  }

  /**
   An integration is a check, the approval asked for, and a check again; where the mark stands or
   nothing can be written it leaves all as it was.
   */
  lemma RunIs(w: World, digest: Digest, root: string, binary: string, approve: bool, writes: bool)
    ensures var run, check := Run(root, binary, approve, writes), Check(root, binary, writes);
            var checked := After(w, digest, check);
            && (!(approve && LooksLikeCheckout(w, root)) ==> After(w, digest, run) == After(checked, digest, check))
            && (approve && LooksLikeCheckout(w, root) && writes ==>
                  After(w, digest, run) == After(After(After(checked, digest, Look(root, writes)), digest,
                    Approve(root, writes)), digest, check))
            && (Marked(w, digest, root) || !writes ==>
                  After(w, digest, run) == checked == After(w, digest, Look(root, writes)) ==
                    After(w, digest, Approve(root, writes)) == w)
  {
  }

  // ---- The store as the source keeps it ----

  /** One machine's launchers and mark store, with everything that has happened since the store was empty. */
  class Desk {
    const digest: Digest
    var world: World
    ghost const first: World
    ghost var history: seq<Event>

    /** The store is what the history made of an empty one, mark for mark. */
    ghost predicate Valid()
      reads this
    {
      first.marks == map[] && Injective(digest) && world == AfterAll(first, digest, history)
    }

    /** The bytes the human trusts this root's launcher for, by the history alone. */
    ghost function Trusted(root: string): Option<Bytes>
      reads this
    {
      TrustedFor(first, digest, history, root, None)
    }

    constructor (digest: Digest, launchers: map<string, Bytes>, crates: set<string>)
      requires Injective(digest)
      ensures Valid() && history == [] && this.digest == digest && world.launchers == launchers
              && world.crates == crates
    {
      this.digest := digest;
      world := World(launchers, crates, map[]);
      first := World(launchers, crates, map[]);
      history := [];
    }

    /** The launcher's file changes, or goes. */
    method EditLauncher(root: string, bytes: Option<Bytes>)
      requires Valid()
      modifies this
      ensures Valid() && history == old(history) + [Edit(root, bytes)]
      ensures Trusted(root) == old(Trusted(root))
    {
      OneMoreEvent(first, digest, history, Edit(root, bytes), root, None);
      world := world.(launchers := if bytes.Some? then world.launchers[root := bytes.value]
        else world.launchers - {root});
      history := history + [Edit(root, bytes)];
    }

    /** The crate beside it comes or goes. */
    method ShipCrate(root: string, crate: bool)
      requires Valid()
      modifies this
      ensures Valid() && history == old(history) + [Ship(root, crate)]
      ensures Trusted(root) == old(Trusted(root))
    {
      OneMoreEvent(first, digest, history, Ship(root, crate), root, None);
      world := world.(crates := if crate then world.crates + {root} else world.crates - {root});
      history := history + [Ship(root, crate)];
    }

    method CheckoutMarkMatches(root: string, writes: bool) returns (matches: bool)
      requires Valid()
      modifies this
      ensures Valid() && history == old(history) + [Look(root, writes)]
              && world == After(old(world), digest, Look(root, writes))
      ensures world.launchers == old(world).launchers && world.crates == old(world).crates
      ensures matches <==> root in old(world).launchers && old(Trusted(root)) == Some(old(world).launchers[root])
      ensures Trusted(root) == if !matches && writes && root in old(world).launchers then None else old(Trusted(root))
    {
      var look := Look(root, writes);
      OneMoreEvent(first, digest, history, look, root, None);
      TellsHistory(first, digest, history, root, None);
      hide TrustedFor, AfterAll;
      history := history + [look];
      if root !in world.launchers {
        return false;
      }
      var marks := world.marks;
      if root !in marks || marks[root].NotText? {
        return false;
      }
      if marks[root].digest == digest(world.launchers[root]) {
        return true;
      }
      marks := marks - {root};
      if writes {
        world := world.(marks := marks);
      }
      return false;
    }

    method RecordCheckoutMark(root: string, writes: bool) returns (recorded: bool)
      requires Valid()
      modifies this
      ensures Valid() && history == old(history) + [Approve(root, writes)]
              && world == After(old(world), digest, Approve(root, writes))
      ensures world.launchers == old(world).launchers && world.crates == old(world).crates
      ensures recorded <==> root in old(world).launchers && writes
      ensures Trusted(root) == if recorded then Some(old(world).launchers[root]) else old(Trusted(root))
      ensures !recorded ==> world == old(world)
    {
      OneMoreEvent(first, digest, history, Approve(root, writes), root, None);
      hide TrustedFor, AfterAll;
      history := history + [Approve(root, writes)];
      if root !in world.launchers || !writes {
        return false;
      }
      world := world.(marks := world.marks[root := Approved(digest(world.launchers[root]))]);
      return true;
    }

    method McpCommandFor(root: string, binary: string, writes: bool) returns (command: string)
      requires Valid()
      modifies this
      ensures Valid() && history == old(history) + [Check(root, binary, writes)]
              && world == After(old(world), digest, Check(root, binary, writes))
      ensures world.launchers == old(world).launchers && world.crates == old(world).crates
      ensures command ==
              if LooksLikeCheckout(old(world), root) && old(Trusted(root)) == Some(old(world).launchers[root])
              then MCP_LAUNCHER else binary
      ensures Trusted(root) ==
              if writes && LooksLikeCheckout(old(world), root) && old(Trusted(root)) != Some(old(world).launchers[root])
              then None else old(Trusted(root))
    {
      ghost var before := history;
      OneMoreEvent(first, digest, before, Look(root, writes), root, None);
      OneMoreEvent(first, digest, before, Check(root, binary, writes), root, None);
      hide TrustedFor, AfterAll;
      command := binary;
      if root in world.crates && root in world.launchers {
        var matches := CheckoutMarkMatches(root, writes);
        if matches {
          command := MCP_LAUNCHER;
        }
      }
      history := before + [Check(root, binary, writes)];
    }

    /** The command an integration names: refused only when an approval is needed and cannot be written. */
    method CommandToWrite(root: string, binary: string, approve: bool, writes: bool) returns (command: Result<string>)
      requires Valid()
      modifies this
      ensures Valid() && history == old(history) + [Run(root, binary, approve, writes)]
      ensures var looks := LooksLikeCheckout(old(world), root);
              var trusted := looks && old(Trusted(root)) == Some(old(world).launchers[root]);
              if approve && looks && !trusted && !writes then command.Err?
              else command == Ok(if trusted || (approve && looks) then MCP_LAUNCHER else binary)
    {
      ghost var before := history;
      OneMoreEvent(first, digest, before, Run(root, binary, approve, writes), root, None);
      RunIs(world, digest, root, binary, approve, writes);
      TellsHistory(first, digest, before, root, None);
      hide TrustedFor, AfterAll, TrustedNext, Injective, After;
      var own := McpCommandFor(root, binary, writes);
      if approve && root in world.crates && root in world.launchers {
        var matches := CheckoutMarkMatches(root, writes);
        if !matches {
          var recorded := RecordCheckoutMark(root, writes);
          if !recorded {
            history := before + [Run(root, binary, approve, writes)];
            return Err("no mark recorded");
          }
        }
      }
      own := McpCommandFor(root, binary, writes);
      history := before + [Run(root, binary, approve, writes)];
      return Ok(own);
    }
  }
}
