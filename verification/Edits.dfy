/**
 Which of a checkout's changed files one run touched (`agent_edits.rs`): what its edit tools named,
 what its writing commands named, and what a hook saw its watched commands write.
 */
module Edits {
  import opened Prelude
  import opened Text
  import Disk
  import Resolve

  // ---- Paths as strings ----

  function Join(parts: seq<string>): string {
    if parts == [] then "" else if |parts| == 1 then parts[0] else parts[0] + "/" + Join(parts[1..])
  }

  predicate IsAbsolute(path: string) {
    path != "" && path[0] == '/'
  }

  /** `Path::join`: an absolute path replaces the base. */
  function Under(base: string, path: string): string {
    if IsAbsolute(path) then path
    else if base == "" || base[|base| - 1] == '/' then base + path
    else base + "/" + path
  }

  function Comps(parts: seq<string>): seq<Disk.Comp> {
    if parts == [] then []
    else
      (if parts[0] == "" || parts[0] == "." then [] else if parts[0] == ".." then [Disk.Up] else [Disk.Named(parts[0])])
      + Comps(parts[1..])
  }

  function Components(path: string): seq<Disk.Comp> {
    Comps(Split(path, '/'))
  }

  function Place(nodes: Disk.Nodes, path: string): Disk.Path {
    Resolve.Resolved(nodes, Resolve.Folded([], Components(path)))
  }

  /** A path as the checkout names it, if it is below the checkout's root. */
  function Relative(nodes: Disk.Nodes, path: string, cwd: string, root: string): Option<string> {
    var base, place := Place(nodes, root), Place(nodes, Under(cwd, path));
    if base < place then Some(Join(place[|base|..])) else None
  }

  method UnderRoot(nodes: Disk.Nodes, paths: seq<string>, cwd: string, root: string) returns (out: set<string>)
    ensures forall s :: s in out <==> exists p <- paths :: Relative(nodes, p, cwd, root) == Some(s)
  {
    hide Join, Under, Components, Resolve.Resolved, Resolve.Folded;
    var base := Resolve.Resolve(nodes, Components(root));
    out := {};
    for i := 0 to |paths|
      invariant forall s :: s in out <==> exists p <- paths[..i] :: Relative(nodes, p, cwd, root) == Some(s)
    {
      var path := paths[i];
      assert forall p :: p in paths[..i + 1] <==> p in paths[..i] || p == path;
      var place := Resolve.Resolve(nodes, Components(Under(cwd, path)));
      ghost var relative := Relative(nodes, path, cwd, root);
      assert relative == if base < place then Some(Join(place[|base|..])) else None;
      assert forall s :: (exists p <- paths[..i + 1] :: Relative(nodes, p, cwd, root) == Some(s))
                         <==> relative == Some(s) || exists p <- paths[..i] :: Relative(nodes, p, cwd, root) == Some(s);
      if !(base <= place) {
        continue;
      }
      var parts := place[|base|..];
      if parts != [] {
        out := out + {Join(parts)};
      }
    }
    assert paths[..|paths|] == paths;
  }

  // ---- Words of a command ----

  /** `alphanumeric` is Unicode's; `mayWrite` is the protocol's judgement of a command. */
  datatype Host = Host(nodes: Disk.Nodes, alphanumeric: char -> bool, mayWrite: string -> bool)

  predicate IsPathChar(alphanumeric: char -> bool, c: char) {
    alphanumeric(c) || c in "/._-+@~"
  }

  /** Where the first character a path is not spelled with stands. */
  function RunEnd(alphanumeric: char -> bool, s: string): (i: nat)
    ensures i <= |s| && (forall k | 0 <= k < i :: IsPathChar(alphanumeric, s[k]))
            && (i < |s| ==> !IsPathChar(alphanumeric, s[i]))
  {
    if s == "" || !IsPathChar(alphanumeric, s[0]) then 0 else 1 + RunEnd(alphanumeric, s[1..])
  }

  function Runs(alphanumeric: char -> bool, s: string): seq<string>
    decreases |s|
  {
    var i := RunEnd(alphanumeric, s);
    if i < |s| then [s[..i]] + Runs(alphanumeric, s[i + 1..]) else [s]
  }

  predicate LooksLikePath(alphanumeric: char -> bool, w: string) {
    && w != "" && w[0] != '-' && ('/' in w || '.' in w)
    && exists i | 0 <= i < |w| :: alphanumeric(w[i])
  }

  function Kept<T>(xs: seq<T>, keep: T -> bool): seq<T> {
    if xs == [] then [] else (if keep(xs[0]) then [xs[0]] else []) + Kept(xs[1..], keep)
  }

  function PathWords(alphanumeric: char -> bool, command: string): seq<string> {
    Kept(Runs(alphanumeric, command), w => LooksLikePath(alphanumeric, w))
  }

  /** `w` stands in `s` as a whole run: nothing a path is spelled with on either side. */
  ghost predicate IsRunAt(alphanumeric: char -> bool, s: string, w: string, i: nat) {
    && i + |w| <= |s| && s[i..i + |w|] == w && (forall k | 0 <= k < |w| :: IsPathChar(alphanumeric, w[k]))
    && (i == 0 || !IsPathChar(alphanumeric, s[i - 1]))
    && (i + |w| == |s| || !IsPathChar(alphanumeric, s[i + |w|]))
  }

  ghost predicate IsRun(alphanumeric: char -> bool, s: string, w: string) {
    exists i: nat :: IsRunAt(alphanumeric, s, w, i)
  }

  lemma RunAfter(alphanumeric: char -> bool, s: string, w: string, n: nat, i: nat)
    requires n < |s| && !IsPathChar(alphanumeric, s[n])
    ensures IsRunAt(alphanumeric, s[n + 1..], w, i) <==> IsRunAt(alphanumeric, s, w, i + n + 1)
  {
    hide IsPathChar;
    var rest := s[n + 1..];
    if i + |w| <= |rest| {
      assert rest[i..i + |w|] == s[i + n + 1..i + n + 1 + |w|];
    }
  }

  /** A run cannot start between two path characters, and one that starts at the beginning is the first. */
  lemma FirstRun(alphanumeric: char -> bool, s: string, w: string, i: nat)
    requires IsRunAt(alphanumeric, s, w, i) && i <= RunEnd(alphanumeric, s)
    ensures i == 0 && w == s[..RunEnd(alphanumeric, s)]
  {
    hide IsPathChar;
    var n := RunEnd(alphanumeric, s);
    assert forall k | 0 <= k < |w| :: w[k] == s[i..i + |w|][k] == s[i + k];
    assert |w| == n;
  }

  lemma {:induction false} RunsAreRuns(alphanumeric: char -> bool, s: string, w: string)
    ensures w in Runs(alphanumeric, s) <==> IsRun(alphanumeric, s, w)
    decreases |s|
  {
    hide IsPathChar, IsRunAt;
    var n := RunEnd(alphanumeric, s);
    FirstIsRun(alphanumeric, s);
    if n < |s| {
      RunsAreRuns(alphanumeric, s[n + 1..], w);
      if IsRun(alphanumeric, s[n + 1..], w) {
        var i: nat :| IsRunAt(alphanumeric, s[n + 1..], w, i);
        RunAfter(alphanumeric, s, w, n, i);
      }
    }
    if IsRun(alphanumeric, s, w) {
      var i: nat :| IsRunAt(alphanumeric, s, w, i);
      if i <= n {
        FirstRun(alphanumeric, s, w, i);
      } else {
        RunInside(alphanumeric, s, w, i);
        RunAfter(alphanumeric, s, w, n, i - n - 1);
      }
    }
    assert s[..|s|] == s;
  }

  lemma RunInside(alphanumeric: char -> bool, s: string, w: string, i: nat)
    requires IsRunAt(alphanumeric, s, w, i)
    ensures i <= |s|
  {
  }

  lemma FirstIsRun(alphanumeric: char -> bool, s: string)
    ensures IsRunAt(alphanumeric, s, s[..RunEnd(alphanumeric, s)], 0)
  {
  }

  // ---- Keeping some of a sequence ----

  lemma {:induction false} KeptAre<T>(xs: seq<T>, keep: T -> bool)
    ensures forall x :: x in Kept(xs, keep) <==> x in xs && keep(x)
    ensures forall x :: multiset(Kept(xs, keep))[x] == if keep(x) then multiset(xs)[x] else 0
  {
    if xs != [] {
      KeptAre(xs[1..], keep);
      assert xs == [xs[0]] + xs[1..];
    }
  }

  lemma {:induction false} KeptSame<T>(xs: seq<T>, keep: T -> bool, also: T -> bool)
    requires forall x <- xs :: keep(x) == also(x)
    ensures Kept(xs, keep) == Kept(xs, also)
  {
    if xs != [] {
      assert xs[0] in xs && forall x <- xs[1..] :: x in xs;
      KeptSame(xs[1..], keep, also);
    }
  }

  /** A narrower rule keeps, of what a wider one kept, what it would have kept of the whole. */
  lemma {:induction false} KeptOfKept<T>(xs: seq<T>, narrow: T -> bool, wide: T -> bool)
    requires forall x <- xs :: narrow(x) ==> wide(x)
    ensures Kept(Kept(xs, wide), narrow) == Kept(xs, narrow)
  {
    if xs != [] {
      assert xs[0] in xs && forall x <- xs[1..] :: x in xs;
      KeptOfKept(xs[1..], narrow, wide);
      if wide(xs[0]) {
        assert ([xs[0]] + Kept(xs[1..], wide))[1..] == Kept(xs[1..], wide);
      } else {
        assert Kept(xs, wide) == Kept(xs[1..], wide);
      }
    }
  }

  // ---- The evidence ----

  datatype Command = Command(call: Option<string>, text: string)

  datatype Evidence = Evidence(edited: seq<string>, commands: seq<Command>)

  /** What the hook recorded: the calls it watched, and the files they changed below a root each. */
  datatype Recorded = Recorded(root: string, paths: seq<string>)

  datatype Observed = Observed(calls: seq<string>, files: seq<Recorded>)

  predicate Watched(observed: Observed, c: Command) {
    c.call.Some? && c.call.value in observed.calls
  }

  predicate IsName(part: string) {
    part != "" && part != "."
  }

  /** The tail a relative word stands for: two or more names, no climbing. */
  function Tail(w: string): Option<string> {
    if IsAbsolute(w) || (w != "" && w[0] == '~') then None
    else
      var parts := Kept(Split(w, '/'), IsName);
      if |parts| >= 2 && ".." !in parts then Some(Join(parts)) else None
  }

  predicate EndsWith(s: string, end: string) {
    |end| <= |s| && s[|s| - |end|..] == end
  }

  predicate HasTail(candidate: string, tail: string) {
    candidate == tail || EndsWith(candidate, "/" + tail)
  }

  // ---- The rule ----

  /** A writing command nobody watched names `w`. */
  ghost predicate Written(h: Host, e: Evidence, o: Observed, w: string) {
    LooksLikePath(h.alphanumeric, w) && exists c <- e.commands ::
      !Watched(o, c) && h.mayWrite(c.text) && IsRun(h.alphanumeric, c.text, w)
  }

  /** The evidence names `path`. */
  ghost predicate Names(h: Host, e: Evidence, o: Observed, path: string) {
    || path in e.edited
    || Written(h, e, o, path)
    || exists f <- o.files :: exists p <- f.paths :: path == Under(f.root, p)
  }

  ghost predicate Touches(h: Host, e: Evidence, o: Observed, cwd: string, root: string, candidate: string) {
    || (exists path :: Names(h, e, o, path) && Relative(h.nodes, path, cwd, root) == Some(candidate))
    || (exists w :: Written(h, e, o, w) && Tail(w).Some? && HasTail(candidate, Tail(w).value))
  }

  ghost function Rule(h: Host, e: Evidence, o: Observed, cwd: string, root: string): string -> bool {
    candidate => Touches(h, e, o, cwd, root, candidate)
  }

  // ---- The source's way ----

  function WordsOf(h: Host, o: Observed, commands: seq<Command>): seq<string> {
    if commands == [] then []
    else
      (if !Watched(o, commands[0]) && h.mayWrite(commands[0].text) then PathWords(h.alphanumeric, commands[0].text)
        else [])
      + WordsOf(h, o, commands[1..])
  }

  lemma PathChars(alphanumeric: char -> bool)
    ensures forall c :: IsPathChar(alphanumeric, c) <==> alphanumeric(c) || c in {'/', '.', '_', '-', '+', '@', '~'}
  {
    var others: string := "/._-+@~";
    assert others == ['/', '.', '_', '-', '+', '@', '~'];
    assert forall c :: c in others <==> c in {'/', '.', '_', '-', '+', '@', '~'};
  }

  lemma PathLooks(alphanumeric: char -> bool, w: string)
    ensures LooksLikePath(alphanumeric, w) <==>
              && w != "" && w[0] != '-' && ('/' in w || '.' in w) && exists i :: 0 <= i < |w| && alphanumeric(w[i])
  {
  }

  lemma PathWordsAre(alphanumeric: char -> bool, command: string, w: string)
    ensures w in PathWords(alphanumeric, command) <==> LooksLikePath(alphanumeric, w) && IsRun(alphanumeric, command, w)
    ensures LooksLikePath(alphanumeric, w) <==>
              && w != "" && w[0] != '-' && ('/' in w || '.' in w) && exists i :: 0 <= i < |w| && alphanumeric(w[i])
    ensures forall c :: IsPathChar(alphanumeric, c) <==> alphanumeric(c) || c in {'/', '.', '_', '-', '+', '@', '~'}
  {
    PathChars(alphanumeric);
    PathLooks(alphanumeric, w);
    hide LooksLikePath, IsRun, IsPathChar;
    RunsAreRuns(alphanumeric, command, w);
    KeptAre(Runs(alphanumeric, command), w => LooksLikePath(alphanumeric, w));
  }

  lemma {:induction false} WordsAreWritten(h: Host, e: Evidence, o: Observed, w: string)
    ensures w in WordsOf(h, o, e.commands) <==> Written(h, e, o, w)
    decreases |e.commands|
  {
    hide PathWords, LooksLikePath, IsRun, Watched;
    if e.commands != [] {
      var rest := e.(commands := e.commands[1..]);
      WordsAreWritten(h, rest, o, w);
      PathWordsAre(h.alphanumeric, e.commands[0].text, w);
      assert forall c :: c in e.commands <==> c == e.commands[0] || c in rest.commands;
    }
  }

  function RecordedPaths(files: seq<Recorded>): seq<string> {
    if files == [] then [] else Rooted(files[0].root, files[0].paths) + RecordedPaths(files[1..])
  }

  function Rooted(root: string, paths: seq<string>): (r: seq<string>)
    ensures forall s :: s in r <==> exists p <- paths :: s == Under(root, p)
  {
    if paths == [] then []
    else
      assert forall p :: p in paths <==> p == paths[0] || p in paths[1..];
      [Under(root, paths[0])] + Rooted(root, paths[1..])
  }

  lemma {:induction false} RecordedAre(files: seq<Recorded>, s: string)
    ensures s in RecordedPaths(files) <==> exists f <- files :: exists p <- f.paths :: s == Under(f.root, p)
  {
    if files != [] {
      RecordedAre(files[1..], s);
      assert forall f :: f in files <==> f == files[0] || f in files[1..];
    }
  }

  /** Words are sorted and deduplicated before anything touches the disk, which leaves the set of them. */
  method Touched(h: Host, candidates: seq<string>, e: Evidence, o: Observed, cwd: string, root: string)
    returns (touched: seq<string>)
    ensures touched == Kept(candidates, Rule(h, e, o, cwd, root))
  {
    hide WordsOf, RecordedPaths, Relative, Tail, HasTail, Kept, Written;
    var words := WordsOf(h, o, e.commands);
    var recorded := RecordedPaths(o.files);
    var exact := UnderRoot(h.nodes, e.edited + words + recorded, cwd, root);
    var tails := set w <- words | Tail(w).Some? :: Tail(w).value;
    var rule := c => c in exact || exists t <- tails :: HasTail(c, t);
    touched := Kept(candidates, rule);
    forall c <- candidates ensures rule(c) == Touches(h, e, o, cwd, root, c) {
      SourceMeetsRule(h, e, o, cwd, root, c, words, recorded, exact, tails);
    }
    KeptSame(candidates, rule, Rule(h, e, o, cwd, root));
  }

  lemma SourceMeetsRule(h: Host, e: Evidence, o: Observed, cwd: string, root: string, c: string,
                        words: seq<string>, recorded: seq<string>, exact: set<string>, tails: set<string>)
    requires words == WordsOf(h, o, e.commands) && recorded == RecordedPaths(o.files)
    requires forall s :: s in exact <==>
             exists p <- e.edited + words + recorded :: Relative(h.nodes, p, cwd, root) == Some(s)
    requires tails == set w <- words | Tail(w).Some? :: Tail(w).value
    ensures (c in exact || exists t <- tails :: HasTail(c, t)) <==> Touches(h, e, o, cwd, root, c)
  {
    hide WordsOf, RecordedPaths, Relative, Tail, HasTail, Written;
    forall p ensures p in e.edited + words + recorded <==> Names(h, e, o, p) {
      WordsAreWritten(h, e, o, p);
      RecordedAre(o.files, p);
    }
    forall w ensures w in words <==> Written(h, e, o, w) {
      WordsAreWritten(h, e, o, w);
    }
    hide Names;
    if exists w :: Written(h, e, o, w) && Tail(w).Some? && HasTail(c, Tail(w).value) {
      var w :| Written(h, e, o, w) && Tail(w).Some? && HasTail(c, Tail(w).value);
      assert Tail(w).value in tails;
    }
  }

  // ---- What follows from the rule ----

  ghost predicate Within<T(!new)>(xs: seq<T>, ys: seq<T>) {
    forall x <- xs :: x in ys
  }

  /** The same words and paths and more, and fewer calls watched. */
  ghost predicate MoreEvidence(e: Evidence, o: Observed, e2: Evidence, o2: Observed) {
    Within(e.edited, e2.edited) && Within(e.commands, e2.commands) && Within(o.files, o2.files)
      && Within(o2.calls, o.calls)
  }

  lemma MoreIsNamed(h: Host, e: Evidence, o: Observed, e2: Evidence, o2: Observed, path: string)
    requires MoreEvidence(e, o, e2, o2)
    ensures Written(h, e, o, path) ==> Written(h, e2, o2, path)
    ensures Names(h, e, o, path) ==> Names(h, e2, o2, path)
  {
    hide LooksLikePath, IsRun;
    if Written(h, e, o, path) {
      var c :| c in e.commands && !Watched(o, c) && h.mayWrite(c.text) && IsRun(h.alphanumeric, c.text, path);
      assert c in e2.commands && !Watched(o2, c);
    }
  }

  /**
   More edits, more commands, more recorded files, or fewer watched calls never lose a candidate;
   the answer only grows in place.
   */
  lemma MoreTouches(h: Host, candidates: seq<string>, e: Evidence, o: Observed, e2: Evidence, o2: Observed,
                    cwd: string, root: string)
    requires MoreEvidence(e, o, e2, o2)
    ensures var more := Kept(candidates, Rule(h, e2, o2, cwd, root));
            Kept(more, Rule(h, e, o, cwd, root)) == Kept(candidates, Rule(h, e, o, cwd, root))
  {
    hide Written, Names, Relative, Tail, HasTail, MoreEvidence;
    forall c <- candidates ensures Touches(h, e, o, cwd, root, c) ==> Touches(h, e2, o2, cwd, root, c) {
      forall path ensures (Names(h, e, o, path) ==> Names(h, e2, o2, path))
             && (Written(h, e, o, path) ==> Written(h, e2, o2, path)) {
        MoreIsNamed(h, e, o, e2, o2, path);
      }
    }
    KeptOfKept(candidates, Rule(h, e, o, cwd, root), Rule(h, e2, o2, cwd, root));
  }

  /** The same calls in the same order, and the same text wherever a call was not watched. */
  ghost predicate SameUnwatched(o: Observed, a: seq<Command>, b: seq<Command>) {
    |a| == |b| && forall i | 0 <= i < |a| :: a[i].call == b[i].call && (!Watched(o, a[i]) ==> a[i].text == b[i].text)
  }

  lemma SameWritten(h: Host, e: Evidence, commands: seq<Command>, o: Observed, w: string)
    requires SameUnwatched(o, e.commands, commands)
    ensures Written(h, e, o, w) ==> Written(h, e.(commands := commands), o, w)
  {
    hide LooksLikePath, IsRun;
    if Written(h, e, o, w) {
      var c :| c in e.commands && !Watched(o, c) && h.mayWrite(c.text) && IsRun(h.alphanumeric, c.text, w);
      var i :| 0 <= i < |e.commands| && e.commands[i] == c;
      assert commands[i] == c && commands[i] in commands;
    }
  }

  /** What a watched command says makes no difference: its record stands for it. */
  lemma WatchedTextIsNotRead(h: Host, candidates: seq<string>, e: Evidence, commands: seq<Command>, o: Observed,
                             cwd: string, root: string)
    requires SameUnwatched(o, e.commands, commands)
    ensures Kept(candidates, Rule(h, e.(commands := commands), o, cwd, root)) ==
            Kept(candidates, Rule(h, e, o, cwd, root))
  {
    hide Written, Relative, Tail, HasTail;
    var e2 := e.(commands := commands);
    assert SameUnwatched(o, commands, e.commands) && e2.(commands := e.commands) == e;
    forall c <- candidates ensures Touches(h, e, o, cwd, root, c) == Touches(h, e2, o, cwd, root, c) {
      forall w ensures Written(h, e, o, w) == Written(h, e2, o, w) {
        SameWritten(h, e, commands, o, w);
        SameWritten(h, e2, e.commands, o, w);
      }
    }
    KeptSame(candidates, Rule(h, e2, o, cwd, root), Rule(h, e, o, cwd, root));
  }

  /**
   However the run spelled the way to the checkout, a file below it is named as the checkout names
   it, whether it is there, was deleted, or lost its directory too.
   */
  lemma FilesBelowTheRoot(nodes: Disk.Nodes, path: string, cwd: string, root: string, alias: Disk.Path,
                          dir: Disk.Path, suffix: Disk.Path, k: nat)
    requires Disk.Sound(nodes) && suffix != [] && k <= |suffix|
    requires Disk.Canonical(nodes, Resolve.Folded([], Components(root))) == Disk.Found(dir)
    requires Disk.Canonical(nodes, alias) == Disk.Found(dir)
             && Resolve.Folded([], Components(Under(cwd, path))) == alias + suffix
    requires Disk.Real(nodes, dir + suffix[..k]) && (k < |suffix| ==> dir + suffix[..k + 1] !in nodes)
    ensures Relative(nodes, path, cwd, root) == Some(Join(suffix))
  {
    hide Disk.Walk, Disk.Canonical, Resolve.Resolved, Resolve.Folded, Join, Under, Components, Disk.Real;
    Resolve.FileBelow(nodes, alias, dir, suffix, k);
    assert Place(nodes, Under(cwd, path)) == dir + suffix;
    RootResolves(nodes, Resolve.Folded([], Components(root)), dir);
    assert (dir + suffix)[|dir|..] == suffix;
  }

  lemma RootResolves(nodes: Disk.Nodes, root: Disk.Path, dir: Disk.Path)
    requires Disk.Canonical(nodes, root) == Disk.Found(dir)
    ensures Resolve.Resolved(nodes, root) == dir
  {
  }

  /** Matching by tail takes two names: a bare one matches nothing that way. */
  lemma TailsHaveTwoNames(w: string, candidate: string)
    requires Tail(w).Some? && HasTail(candidate, Tail(w).value)
    ensures '/' in candidate && '/' in w
  {
    var parts := Kept(Split(w, '/'), IsName);
    assert Join(parts)[|parts[0]|] == '/';
    if '/' !in w {
      OneName(w);
    }
    if candidate != Tail(w).value {
      assert candidate[|candidate| - |"/" + Tail(w).value|..][0] == '/';
    }
  }

  lemma OneName(w: string)
    requires '/' !in w
    ensures |Kept(Split(w, '/'), IsName)| <= 1
  {
    SplitNone(w, '/');
    assert Kept([w][1..], IsName) == [];
  }

  // ---- apply_patch envelopes ----

  const HEADERS: seq<string> := ["*** Add File: ", "*** Update File: ", "*** Delete File: ", "*** Move to: "]

  /** What follows the first of the headers that begins the line. */
  function AfterHeader(line: string, headers: seq<string>): Option<string> {
    if headers == [] then None
    else if headers[0] <= line then Some(line[|headers[0]|..])
    else AfterHeader(line, headers[1..])
  }

  function NamedBy(line: string): seq<string> {
    match AfterHeader(line, HEADERS)
    case Some(path) => if Trim(path) == "" then [] else [Trim(path)]
    case None => []
  }

  function FilesNamed(lines: seq<string>): seq<string> {
    if lines == [] then [] else NamedBy(lines[0]) + FilesNamed(lines[1..])
  }

  function PatchFiles(patch: string): seq<string> {
    FilesNamed(Bodies(patch))
  }

  /** One line of an envelope: a header with its path, or anything no header begins. */
  datatype PatchLine = Header(kind: nat, path: string) | Content(text: string)

  predicate IsPatchLine(l: PatchLine) {
    match l
    case Header(kind, path) => kind < |HEADERS| && path != "" && Trim(path) == path && '\n' !in path
    case Content(text) => AfterHeader(text, HEADERS) == None && '\n' !in text
  }

  function PrintLine(l: PatchLine): string {
    match l
    case Header(kind, path) => (if kind < |HEADERS| then HEADERS[kind] else "") + path
    case Content(text) => text
  }

  function PrintPatch(lines: seq<PatchLine>): string {
    if lines == [] then "" else PrintLine(lines[0]) + "\n" + PrintPatch(lines[1..])
  }

  function PathsOf(lines: seq<PatchLine>): seq<string> {
    if lines == [] then [] else (if lines[0].Header? then [lines[0].path] else []) + PathsOf(lines[1..])
  }

  /** An envelope's files are read back, in order and once each time they are named. */
  lemma {:induction false} PatchReadsBack(lines: seq<PatchLine>)
    requires forall l <- lines :: IsPatchLine(l)
    ensures PatchFiles(PrintPatch(lines)) == PathsOf(lines)
    decreases |lines|
  {
    hide IsPatchLine, PrintLine, NamedBy, FirstLine, Body;
    if lines != [] {
      assert lines[0] in lines && forall l <- lines[1..] :: l in lines;
      var line, rest := PrintLine(lines[0]), PrintPatch(lines[1..]);
      LineReadsBack(lines[0]);
      IndexOfFirst(line, '\n', rest);
      FirstOf(line, rest);
      assert (line + "\n" + rest)[|line| + 1..] == rest;
      PatchReadsBack(lines[1..]);
      assert Bodies(line + "\n" + rest)[1..] == Bodies(rest);
    }
  }

  lemma FirstOf(line: string, rest: string)
    requires '\n' !in line
    ensures FirstLine(line + "\n" + rest) == line + "\n"
  {
    IndexOfFirst(line, '\n', rest);
  }

  lemma LineReadsBack(l: PatchLine)
    requires IsPatchLine(l)
    ensures '\n' !in PrintLine(l) && NamedBy(Body(PrintLine(l) + "\n")) == if l.Header? then [l.path] else []
  {
    match l {
      case Header(kind, path) => HeaderLineReadsBack(kind, path);
      case Content(text) =>
        assert (text + "\n")[..|text|] == text;
        ShorterHasNoHeader(text, Body(text + "\n"), HEADERS);
    }
  }

  lemma HeaderLineReadsBack(kind: nat, path: string)
    requires kind < |HEADERS| && path != "" && Trim(path) == path && '\n' !in path
    ensures '\n' !in HEADERS[kind] + path && NamedBy(Body(HEADERS[kind] + path + "\n")) == [path]
  {
    hide AfterHeader, Trim;
    var line := HEADERS[kind] + path;
    HeaderReadsBack(kind, path);
    TrimmedEnd(path);
    assert line[|line| - 1] == path[|path| - 1];
    EndedInNoSpace(line);
  }

  lemma EndedInNoSpace(line: string)
    requires line != "" && !IsSpace(line[|line| - 1])
    ensures Body(line + "\n") == line
  {
    assert (line + "\n")[..|line|] == line;
  }

  lemma TrimmedEnd(path: string)
    requires path != "" && Trim(path) == path
    ensures !IsSpace(path[|path| - 1])
  {
    TrimEndParts(TrimStart(path));
  }

  lemma ShorterHasNoHeader(text: string, shorter: string, headers: seq<string>)
    requires AfterHeader(text, headers) == None && shorter <= text
    ensures AfterHeader(shorter, headers) == None
  {
  }

  lemma HeaderReadsBack(kind: nat, path: string)
    requires kind < |HEADERS|
    ensures AfterHeader(HEADERS[kind] + path, HEADERS) == Some(path) && '\n' !in HEADERS[kind]
  {
    var line := HEADERS[kind] + path;
    assert line[4] == HEADERS[kind][4];
    HeaderAt(line, HEADERS, kind);
    assert line[|HEADERS[kind]|..] == path;
  }

  lemma {:induction false} HeaderAt(line: string, headers: seq<string>, k: nat)
    requires k < |headers| && headers[k] <= line && forall j | 0 <= j < k :: !(headers[j] <= line)
    ensures AfterHeader(line, headers) == Some(line[|headers[k]|..])
  {
    if k > 0 {
      HeaderAt(line, headers[1..], k - 1);
    }
  }

  // ---- Paths and tails, spelled out ----

  /** A candidate has a tail when it is the tail, or ends in it after a slash: never in the middle of a name. */
  lemma HasTailMeans(candidate: string, tail: string)
    ensures HasTail(candidate, tail) <==> candidate == tail || exists before :: candidate == before + "/" + tail
  {
    var end := "/" + tail;
    if EndsWith(candidate, end) {
      var before := candidate[..|candidate| - |end|];
      assert candidate == before + end == before + "/" + tail;
    }
    if exists before :: candidate == before + "/" + tail {
      var before :| candidate == before + "/" + tail;
      assert candidate == before + end;
    }
  }

  /** A path's components, part by part between its slashes: nothing for none or a dot, up for two, else a name. */
  lemma ComponentsByPart(part: string, rest: string)
    requires '/' !in part
    ensures Components(part + "/" + rest) == Components(part) + Components(rest)
    ensures Components(part) ==
            if part == "" || part == "." then [] else if part == ".." then [Disk.Up] else [Disk.Named(part)]
  {
    SplitAt(part, '/', rest);
    SplitNone(part, '/');
    assert ([part] + Split(rest, '/'))[1..] == Split(rest, '/') && [part][1..] == [];
    assert Comps([part]) == Comps([part]) + [];
  }

  /** A path joined to a directory is below it, and an absolute one is itself. */
  lemma JoinedPath(base: string, path: string)
    requires base != ""
    ensures Under(base, path) ==
            if path != "" && path[0] == '/' then path
            else if base[|base| - 1] == '/' then base + path
            else base + "/" + path
  {
  }

  predicate IsPart(part: string) {
    part != "" && part != "." && part != ".." && '/' !in part
  }

  /** Names joined by slashes are split back into them. */
  lemma {:induction false} JoinSplits(parts: seq<string>)
    requires parts != [] && forall p <- parts :: IsPart(p)
    ensures Split(Join(parts), '/') == parts && Kept(parts, IsName) == parts && ".." !in parts
    decreases |parts|
  {
    assert parts[0] in parts && forall p <- parts[1..] :: p in parts;
    if |parts| == 1 {
      SplitNone(parts[0], '/');
      assert parts[1..] == [] && parts == [parts[0]];
    } else {
      JoinSplits(parts[1..]);
      SplitAt(parts[0], '/', Join(parts[1..]));
      assert parts == [parts[0]] + parts[1..];
    }
  }

  /**
   Two names or more are the tail they spell, a leading dot passed over; rooted, in a home or
   climbing, they are none.
   */
  lemma TailOfNames(parts: seq<string>)
    requires parts != [] && forall p <- parts :: IsPart(p)
    ensures var w := Join(parts);
            && w != ""
            && Tail(w) == (if |parts| >= 2 && w[0] != '~' then Some(w) else None)
            && Tail("/" + w) == None && Tail("~/" + w) == None
            && Tail("./" + w) == (if |parts| >= 2 then Some(w) else None)
            && Tail("../" + w) == None
  {
    hide IsPart, Join, Split, Kept, Tail;
    JoinSplits(parts);
    JoinStarts(parts);
    TailPlain(parts);
    TailRooted(Join(parts));
    assert "." + "/" == "./" && ".." + "/" == "../";
    TailAfter(".", parts);
    TailAfter("..", parts);
  }

  lemma TailPlain(parts: seq<string>)
    requires parts != [] && Split(Join(parts), '/') == parts && Kept(parts, IsName) == parts && ".." !in parts
    requires Join(parts) != "" && Join(parts)[0] != '/'
    ensures Tail(Join(parts)) == if |parts| >= 2 && Join(parts)[0] != '~' then Some(Join(parts)) else None
  {
  }

  lemma TailRooted(w: string)
    ensures Tail("/" + w) == None && Tail("~/" + w) == None
  {
    assert ("/" + w)[0] == '/' && ("~/" + w)[0] == '~';
  }

  /** The parts of a path behind a dot or two, or none. */
  lemma TailAfter(dots: string, parts: seq<string>)
    requires dots == "." || dots == ".."
    requires parts != [] && Split(Join(parts), '/') == parts && Kept(parts, IsName) == parts && ".." !in parts
    ensures Tail(dots + "/" + Join(parts)) == if dots == "." && |parts| >= 2 then Some(Join(parts)) else None
  {
    hide Join;
    var w := dots + "/" + Join(parts);
    assert w[0] == dots[0] == '.';
    SplitAt(dots, '/', Join(parts));
    hide Split;
    assert ([dots] + parts)[1..] == parts && ([dots] + parts)[0] == dots;
    assert Split(w, '/') == [dots] + parts;
    if dots == "." {
      assert Kept([dots] + parts, IsName) == parts;
    } else {
      assert Kept([dots] + parts, IsName) == [dots] + parts && ".." in [dots] + parts;
    }
  }

  lemma JoinStarts(parts: seq<string>)
    requires parts != [] && forall p <- parts :: IsPart(p)
    ensures parts[0] != "" && Join(parts) != "" && Join(parts)[0] == parts[0][0] && Join(parts)[0] != '/'
  {
    assert parts[0] in parts;
  }

  /** A path has a name below the root exactly when it resolves to a place strictly below where the root does. */
  lemma RelativeMeans(nodes: Disk.Nodes, path: string, cwd: string, root: string, name: string)
    ensures Relative(nodes, path, cwd, root) == Some(name) <==>
            exists below ::
              below != [] && Place(nodes, Under(cwd, path)) == Place(nodes, root) + below && name == Join(below)
  {
    hide Join, Place, Under;
    var base, place := Place(nodes, root), Place(nodes, Under(cwd, path));
    if base < place {
      assert place == base + place[|base|..] && place[|base|..] != [];
    }
    forall below | below != [] && place == base + below ensures base < place && place[|base|..] == below {
    }
  }

  /** A word counts exactly when some command that may write holds it and no hook watched that very call. */
  lemma WrittenMeans(h: Host, e: Evidence, o: Observed, w: string)
    ensures Written(h, e, o, w) <==>
            LooksLikePath(h.alphanumeric, w) &&
            exists c <- e.commands ::
              && (c.call.None? || c.call.value !in o.calls)
              && h.mayWrite(c.text) && IsRun(h.alphanumeric, c.text, w)
  {
    hide LooksLikePath, IsRun;
  }
}
