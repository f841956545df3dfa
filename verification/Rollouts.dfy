/**
 Finding a conversation's rollout among codex's session files (`agent_tokens.rs`): a walk with a
 depth limit and a budget of files that every branch of it spends from.
 */
module Rollouts {
  import opened Prelude

  const MAX_DEPTH: nat := 4
  const MAX_FILES: nat := 4000

  /** What is under the sessions directory, in the order it is listed; `Closed` cannot be listed. */
  datatype Tree = File(path: string, stem: string, jsonl: bool) | Folder(entries: seq<Tree>) | Closed

  predicate IsDir(t: Tree) {
    !t.File?
  }

  /** Every rollout the depth limit lets a walk see, in order, no file too many. */
  function RolloutsUnder(dir: Tree, depth: nat): seq<Tree>
    decreases dir, 0
  {
    if depth > MAX_DEPTH || !dir.Folder? then [] else RolloutsAmong(dir.entries, depth)
  }

  function RolloutsAmong(entries: seq<Tree>, depth: nat): seq<Tree>
    decreases entries, |entries|
  {
    if entries == [] then []
    else
      (if IsDir(entries[0]) then RolloutsUnder(entries[0], depth + 1) else if entries[0].jsonl then [entries[0]]
        else [])
      + RolloutsAmong(entries[1..], depth)
  }

  predicate Names(stem: string, conversation: string) {
    var suffix := "-" + conversation;
    stem == conversation || (|suffix| <= |stem| && stem[|stem| - |suffix|..] == suffix)
  }

  /** A stem names the conversation alone, or ends in a dash and its name: the whole last part, never a piece of one. */
  lemma NamesMeans(stem: string, conversation: string)
    ensures Names(stem, conversation) <==>
            stem == conversation || exists before :: stem == before + "-" + conversation
  {
    var suffix := "-" + conversation;
    if |suffix| <= |stem| && stem[|stem| - |suffix|..] == suffix {
      var before := stem[..|stem| - |suffix|];
      assert stem == before + suffix == before + "-" + conversation;
    }
    if exists before :: stem == before + "-" + conversation {
      var before :| stem == before + "-" + conversation;
      assert stem == before + suffix;
    }
  }

  predicate IsFor(t: Tree, conversation: string) {
    t.File? && Names(t.stem, conversation)
  }

  function FirstNamed(files: seq<Tree>, conversation: string): Option<Tree> {
    if files == [] then None
    else if IsFor(files[0], conversation) then Some(files[0])
    else FirstNamed(files[1..], conversation)
  }

  function OrElse(found: Option<Tree>, other: Option<Tree>): Option<Tree> {
    if found.Some? then found else other
  }

  function Least(a: nat, b: nat): nat {
    if a < b then a else b
  }

  lemma {:induction false} FirstNamedOver(a: seq<Tree>, b: seq<Tree>, conversation: string)
    ensures FirstNamed(a + b, conversation) == OrElse(FirstNamed(a, conversation), FirstNamed(b, conversation))
    decreases |a|
  {
    if a == [] {
      assert a + b == b;
    } else {
      assert (a + b)[1..] == a[1..] + b;
      FirstNamedOver(a[1..], b, conversation);
    }
  }

  class Search {
    const conversation: string
    var budget: nat
    var found: Option<Tree>

    constructor (conversation: string)
      ensures this.conversation == conversation && budget == MAX_FILES && found == None
    {
      this.conversation := conversation;
      budget := MAX_FILES;
      found := None;
    }

    method Visit(file: Tree)
      requires file.File?
      modifies this`found
      ensures found == OrElse(old(found), FirstNamed([file], conversation))
    {
      if found.Some? {
        return;
      }
      if Names(file.stem, conversation) {
        found := Some(file);
      }
      assert [file][1..] == [];
    }

    method Walk(dir: Tree, depth: nat)
      modifies this
      ensures Cut(conversation, old(budget), old(found), RolloutsUnder(dir, depth), budget, found)
      decreases dir
    {
      hide Cut, Names, FirstNamed;
      if depth > MAX_DEPTH || budget == 0 {
        NothingCut(conversation, budget, found, RolloutsUnder(dir, depth));
        return;
      }
      if !dir.Folder? {
        NothingCut(conversation, budget, found, []);
        return;
      }
      var i := 0;
      ghost var seen, all := [], RolloutsAmong(dir.entries, depth);
      NothingCut(conversation, budget, found, []);
      assert dir.entries[0..] == dir.entries;
      while i < |dir.entries|
        invariant i <= |dir.entries|
        invariant all == seen + RolloutsAmong(dir.entries[i..], depth)
        invariant Cut(conversation, old(budget), old(found), seen, budget, found)
      {
        var entry := dir.entries[i];
        ghost var b, f, rest := budget, found, RolloutsAmong(dir.entries[i + 1..], depth);
        assert dir.entries[i..][1..] == dir.entries[i + 1..];
        if IsDir(entry) {
          Walk(entry, depth + 1);
          CutOver(conversation, old(budget), old(found), seen, b, f, RolloutsUnder(entry, depth + 1), budget, found);
          SplitOff(all, seen, RolloutsUnder(entry, depth + 1), rest);
          seen := seen + RolloutsUnder(entry, depth + 1);
        } else if entry.jsonl {
          SplitOff(all, seen, [entry], rest);
          if budget == 0 {
            NothingCut(conversation, budget, found, [entry] + rest);
            CutOver(conversation, old(budget), old(found), seen, b, f, [entry] + rest, budget, found);
            assert all == seen + ([entry] + rest);
            return;
          }
          budget := budget - 1;
          Visit(entry);
          OneCut(conversation, b, f, entry);
          CutOver(conversation, old(budget), old(found), seen, b, f, [entry], budget, found);
          seen := seen + [entry];
        } else {
          SplitOff(all, seen, [], rest);
          assert seen + [] == seen;
        }
        i := i + 1;
      }
      assert dir.entries[i..] == [] && seen + [] == seen;
    }

    /** Looking for a conversation from scratch. */
    method Find(sessions: Tree) returns (rollout: Option<Tree>)
      requires budget == MAX_FILES && found == None
      modifies this
      ensures var all := RolloutsUnder(sessions, 0);
              rollout == FirstNamed(all[..Least(|all|, 4000)], conversation)
    {
      Walk(sessions, 0);
      rollout := found;
    }
  }

  // ---- The budget ----

  /**
   What walking past `files` does: the budget cuts the list short, at the same file wherever in the
   tree it runs out, and only files before the cut are looked at.
   */
  ghost predicate Cut(conversation: string, budget: nat, found: Option<Tree>, files: seq<Tree>, left: nat,
                      answer: Option<Tree>) {
    var n := Least(|files|, budget);
    left == budget - n && answer == OrElse(found, FirstNamed(files[..n], conversation))
  }

  lemma NothingCut(conversation: string, budget: nat, found: Option<Tree>, files: seq<Tree>)
    requires budget == 0 || files == []
    ensures Cut(conversation, budget, found, files, budget, found)
  {
    assert files[..0] == [];
  }

  lemma OneCut(conversation: string, budget: nat, found: Option<Tree>, file: Tree)
    requires budget > 0
    ensures Cut(conversation, budget, found, [file], budget - 1, OrElse(found, FirstNamed([file], conversation)))
  {
    assert [file][..1] == [file];
  }

  lemma CutOver(conversation: string, budget: nat, found: Option<Tree>, a: seq<Tree>, b1: nat, f1: Option<Tree>,
                b: seq<Tree>, b2: nat, f2: Option<Tree>)
    requires Cut(conversation, budget, found, a, b1, f1) && Cut(conversation, b1, f1, b, b2, f2)
    ensures Cut(conversation, budget, found, a + b, b2, f2)
  {
    hide FirstNamed;
    var n, m := Least(|a|, budget), Least(|b|, b1);
    FirstNamedOver(a[..n], b[..m], conversation);
    if b1 == 0 {
      assert (a + b)[..Least(|a + b|, budget)] == a[..n] + b[..m];
    } else {
      assert a[..n] == a;
      assert (a + b)[..Least(|a + b|, budget)] == a + b[..m];
    }
  }

  lemma SplitOff(all: seq<Tree>, seen: seq<Tree>, next: seq<Tree>, rest: seq<Tree>)
    requires all == seen + (next + rest)
    ensures all == (seen + next) + rest
  {
  }

  /** A walk cut short finds nothing that an unbounded one would not, and the same while it fits the budget. */
  lemma BudgetOnlyHides(files: seq<Tree>, conversation: string)
    ensures var kept := FirstNamed(files[..Least(|files|, MAX_FILES)], conversation);
            kept.Some? || |files| <= MAX_FILES ==> kept == FirstNamed(files, conversation)
  {
    var n := Least(|files|, MAX_FILES);
    assert files == files[..n] + files[n..];
    FirstNamedOver(files[..n], files[n..], conversation);
  }

  /** No match among the files means none is named for the conversation; a match is the first that is. */
  lemma {:induction false} FirstNamedIsFirst(files: seq<Tree>, conversation: string)
    ensures FirstNamed(files, conversation).None? <==> forall f <- files :: !IsFor(f, conversation)
    ensures FirstNamed(files, conversation).Some? ==>
              exists i :: 0 <= i < |files| && files[i] == FirstNamed(files, conversation).value
                     && IsFor(files[i], conversation)
                          && forall j | 0 <= j < i :: !IsFor(files[j], conversation)
  {
    hide IsFor;
    if files != [] && !IsFor(files[0], conversation) {
      FirstNamedIsFirst(files[1..], conversation);
      assert forall f :: f in files <==> f == files[0] || f in files[1..];
      if FirstNamed(files, conversation).Some? {
        var i :| 0 <= i < |files[1..]| && files[1..][i] == FirstNamed(files, conversation).value
                 && IsFor(files[1..][i], conversation)
                 && forall j | 0 <= j < i :: !IsFor(files[1..][j], conversation);
        assert files[i + 1] == files[1..][i];
        assert forall j | 0 < j < i + 1 :: files[j] == files[1..][j - 1];
      }
    }
  }

  // ---- Which files a walk sees ----

  /** Going down from `dir` by these positions ends at `file`. */
  ghost predicate LeadsTo(dir: Tree, steps: seq<nat>, file: Tree) {
    && steps != [] && dir.Folder? && steps[0] < |dir.entries|
    && var next := dir.entries[steps[0]];
       if |steps| == 1 then next == file && file.File? else LeadsTo(next, steps[1..], file)
  }

  ghost predicate Within(entries: seq<Tree>, depth: nat, steps: seq<nat>, file: Tree) {
    LeadsTo(Folder(entries), steps, file) && depth + |steps| <= MAX_DEPTH + 1
  }

  /** A walk of `dir` sees `file` exactly when it is a `.jsonl` no deeper than the limit. */
  ghost predicate SeenUnder(dir: Tree, depth: nat, file: Tree) {
    file in RolloutsUnder(dir, depth) <==>
    file.File? && file.jsonl && exists steps :: LeadsTo(dir, steps, file) && depth + |steps| <= 5
  }

  /** A walk sees exactly the `.jsonl` files no deeper than the limit. */
  lemma {:induction false} SeesDownToTheLimit(dir: Tree, depth: nat, file: Tree)
    ensures SeenUnder(dir, depth, file)
    decreases dir, 0
  {
    if depth <= MAX_DEPTH && dir.Folder? {
      SeesAmong(dir.entries, depth, file);
      assert dir == Folder(dir.entries);
      if exists steps :: LeadsTo(dir, steps, file) && depth + |steps| <= MAX_DEPTH + 1 {
        var steps :| LeadsTo(dir, steps, file) && depth + |steps| <= MAX_DEPTH + 1;
        assert Within(dir.entries, depth, steps, file);
      }
    }
  }

  lemma {:induction false} SeesAmong(entries: seq<Tree>, depth: nat, file: Tree)
    requires depth <= MAX_DEPTH
    ensures file in RolloutsAmong(entries, depth) <==>
            file.File? && file.jsonl && exists steps :: Within(entries, depth, steps, file)
    decreases entries, |entries|
  {
    if entries == [] {
      return;
    }
    SeesAmong(entries[1..], depth, file);
    if IsDir(entries[0]) {
      SeesDownToTheLimit(entries[0], depth + 1, file);
    }
    SeesOneMore(entries, depth, file);
  }

  lemma SeesOneMore(entries: seq<Tree>, depth: nat, file: Tree)
    requires depth <= MAX_DEPTH && entries != [] && (IsDir(entries[0]) ==> SeenUnder(entries[0], depth + 1, file))
    requires file in RolloutsAmong(entries[1..], depth) <==>
             file.File? && file.jsonl && exists steps :: Within(entries[1..], depth, steps, file)
    ensures file in RolloutsAmong(entries, depth) <==>
            file.File? && file.jsonl && exists steps :: Within(entries, depth, steps, file)
  {
    hide RolloutsUnder;
    if file in RolloutsAmong(entries, depth) {
      if file in RolloutsAmong(entries[1..], depth) {
        var steps :| Within(entries[1..], depth, steps, file);
        LaterEntry(entries, steps, file);
        assert Within(entries, depth, [steps[0] + 1] + steps[1..], file);
      } else if IsDir(entries[0]) {
        var steps :| LeadsTo(entries[0], steps, file) && depth + 1 + |steps| <= MAX_DEPTH + 1;
        assert ([0] + steps)[1..] == steps;
        assert Within(entries, depth, [0] + steps, file);
      } else {
        assert Within(entries, depth, [0], file);
      }
    }
    if file.File? && file.jsonl && exists steps :: Within(entries, depth, steps, file) {
      var steps :| Within(entries, depth, steps, file);
      SeenAt(entries, depth, steps, file);
    }
  }

  lemma SeenAt(entries: seq<Tree>, depth: nat, steps: seq<nat>, file: Tree)
    requires depth <= MAX_DEPTH && entries != [] && file.File? && file.jsonl && Within(entries, depth, steps, file)
    requires IsDir(entries[0]) ==> SeenUnder(entries[0], depth + 1, file)
    requires (exists steps :: Within(entries[1..], depth, steps, file)) ==> file in RolloutsAmong(entries[1..], depth)
    ensures file in RolloutsAmong(entries, depth)
  {
    hide RolloutsUnder;
    if steps[0] > 0 {
      var later := [steps[0] - 1] + steps[1..];
      assert [later[0] + 1] + later[1..] == steps;
      LaterEntry(entries, later, file);
      assert Within(entries[1..], depth, later, file);
    } else if |steps| > 1 {
      assert LeadsTo(entries[0], steps[1..], file) && depth + 1 + |steps[1..]| <= MAX_DEPTH + 1;
    }
  }

  lemma LaterEntry(entries: seq<Tree>, steps: seq<nat>, file: Tree)
    requires entries != [] && steps != []
    ensures LeadsTo(Folder(entries[1..]), steps, file) <==> LeadsTo(Folder(entries), [steps[0] + 1] + steps[1..], file)
  {
    assert ([steps[0] + 1] + steps[1..])[1..] == steps[1..];
  }
}
