/**
 Where a served token report comes from, event by event: the call that built it, the window between
 that call's stat and its read of each file, and the time since the served call's own stat.
 */
module TokenWindows {
  import opened TokenCache

  lemma {:induction false} RunSplits(s: State, ts: seq<Step>, i: nat)
    requires Runs(s, ts) && i <= |ts|
    ensures Runs(s, ts[..i]) && Runs(After(s, ts[..i]), ts[i..])
    ensures After(After(s, ts[..i]), ts[i..]) == After(s, ts)
    decreases i
  {
    hide Enabled, Apply;
    if i == 0 {
      assert ts[..0] == [] && ts[0..] == ts;
    } else {
      assert ts[..i][0] == ts[0] && ts[..i][1..] == ts[1..][..i - 1] && ts[1..][i - 1..] == ts[i..];
      RunSplits(Apply(s, ts[0]), ts[1..], i - 1);
    }
  }

  /** The state before the i-th step. */
  ghost function StateAt(ts: seq<Step>, i: nat): State
    requires Runs(INIT, ts) && i <= |ts|
  {
    RunSplits(INIT, ts, i);
    After(INIT, ts[..i])
  }

  lemma StepAt(ts: seq<Step>, i: nat)
    requires Runs(INIT, ts) && i < |ts|
    ensures Enabled(StateAt(ts, i), ts[i]) && StateAt(ts, i + 1) == Apply(StateAt(ts, i), ts[i])
  {
    hide Enabled, Apply;
    RunSplits(INIT, ts, i);
    assert ts[i..][0] == ts[i];
    assert ts[..i + 1] == ts[..i] + [ts[i]];
    RunOn(INIT, ts[..i], ts[i]);
  }

  lemma StateEnds(ts: seq<Step>)
    requires Runs(INIT, ts)
    ensures StateAt(ts, 0) == INIT && StateAt(ts, |ts|) == After(INIT, ts)
  {
    assert ts[..0] == [] && ts[..|ts|] == ts;
  }

  lemma InvAt(ts: seq<Step>, i: nat)
    requires Runs(INIT, ts) && i <= |ts|
    ensures Inv(StateAt(ts, i))
  {
    hide Inv;
    RunSplits(INIT, ts, i);
    InvInit();
    InvRun(INIT, ts[..i]);
  }

  // ---- Who built a report ----

  /** The i-th step of the run stored exactly this report. */
  ghost predicate BuiltAt(ts: seq<Step>, i: nat, conversation: Conversation, r: Report)
    requires Runs(INIT, ts)
  {
    && i < |ts| && ts[i].Insert? && ts[i].c in StateAt(ts, i).calls
    && var call := StateAt(ts, i).calls[ts[i].c];
       call.conversation == conversation && r == ReportOf(StateAt(ts, i), call)
  }

  lemma {:induction false} CachedWasBuilt(ts: seq<Step>, n: nat, conversation: Conversation) returns (i: nat)
    requires Runs(INIT, ts) && n <= |ts| && conversation in StateAt(ts, n).cache
    ensures i < n && BuiltAt(ts, i, conversation, StateAt(ts, n).cache[conversation])
    decreases n
  {
    StateEnds(ts);
    hide StateAt;
    StepAt(ts, n - 1);
    var t, s := ts[n - 1], StateAt(ts, n - 1);
    if t.Insert? && s.calls[t.c].conversation == conversation {
      i := n - 1;
    } else {
      i := CachedWasBuilt(ts, n - 1, conversation);
    }
  }

  /** Every report served, from the cache or not, was stored by a call of the run that read all of it. */
  lemma {:induction false} ServedWasBuilt(ts: seq<Step>, n: nat, c: nat) returns (i: nat)
    requires Runs(INIT, ts) && n <= |ts| && c in StateAt(ts, n).calls && StateAt(ts, n).calls[c].phase.Served?
    ensures i < n && BuiltAt(ts, i, StateAt(ts, n).calls[c].conversation, StateAt(ts, n).calls[c].phase.report)
    decreases n
  {
    StateEnds(ts);
    hide StateAt;
    StepAt(ts, n - 1);
    var t, s := ts[n - 1], StateAt(ts, n - 1);
    if t == Lookup(c) {
      i := CachedWasBuilt(ts, n - 1, s.calls[c].conversation);
    } else if t == Insert(c) {
      i := n - 1;
    } else {
      assert c in s.calls && s.calls[c] == StateAt(ts, n).calls[c] by { ServedStays(s, t, c); }
      i := ServedWasBuilt(ts, n - 1, c);
    }
  }

  lemma ServedStays(s: State, t: Step, c: nat)
    requires Enabled(s, t) && c in Apply(s, t).calls && Apply(s, t).calls[c].phase.Served?
    requires t != Lookup(c) && t != Insert(c)
    ensures c in s.calls && s.calls[c] == Apply(s, t).calls[c]
  {
    hide KeyOf, ReportOf;
  }

  // ---- When a call statted and read its k-th file ----

  ghost predicate StatAt(ts: seq<Step>, c: nat, k: nat, i: nat)
    requires Runs(INIT, ts)
  {
    i < |ts| && ts[i] == Stat(c) && c in StateAt(ts, i).calls && |StateAt(ts, i).calls[c].observed| == k
  }

  ghost predicate ReadAt(ts: seq<Step>, c: nat, k: nat, i: nat)
    requires Runs(INIT, ts)
  {
    i < |ts| && ts[i] == Read(c) && c in StateAt(ts, i).calls && |StateAt(ts, i).calls[c].read| == k
  }

  /** The call took this version of its k-th file at a stat, or at a read. */
  ghost predicate Took(s: State, c: nat, stat: bool, wires: seq<Wire>, k: nat, version: nat) {
    && c in s.calls && !s.calls[c].phase.Listing? && s.calls[c].wires == wires && k < |wires| && wires[k] in s.files
    && var taken := if stat then s.calls[c].observed else s.calls[c].read;
       k < |taken| && taken[k] == version
  }

  lemma TookStays(s: State, t: Step, c: nat, stat: bool, wires: seq<Wire>, k: nat, version: nat)
    requires Enabled(s, t) && Took(s, c, stat, wires, k, version)
    ensures Took(Apply(s, t), c, stat, wires, k, version)
  {
    hide KeyOf, ReportOf;
  }

  lemma {:induction false} TookUntil(ts: seq<Step>, i: nat, n: nat, c: nat, stat: bool, wires: seq<Wire>, k: nat,
                                     version: nat)
    requires Runs(INIT, ts) && i <= n <= |ts| && Took(StateAt(ts, i), c, stat, wires, k, version)
    ensures Took(StateAt(ts, n), c, stat, wires, k, version)
    decreases n - i
  {
    hide Took, StateAt;
    if i < n {
      StepAt(ts, i);
      TookStays(StateAt(ts, i), ts[i], c, stat, wires, k, version);
      TookUntil(ts, i + 1, n, c, stat, wires, k, version);
    }
  }

  lemma TakesLast(s: State, c: nat, stat: bool)
    requires Inv(s) && Enabled(s, if stat then Stat(c) else Read(c))
    ensures var call, s' := s.calls[c], Apply(s, if stat then Stat(c) else Read(c));
            var k := if stat then |call.observed| else |call.read|;
            && k < |call.wires| && call.wires[k] in s.files && s.files[call.wires[k]] != []
            && Took(s', c, stat, call.wires, k, |s.files[call.wires[k]]| - 1)
  {
    hide ReportOk;
    assert CallOk(s, c);
    var k := if stat then |s.calls[c].observed| else |s.calls[c].read|;
    assert Grows(s.files[s.calls[c].wires[k]], s.clock);
  }

  /** A step that takes the k-th file's version takes the newest, and that stays the call's. */
  lemma TakenAt(ts: seq<Step>, c: nat, stat: bool, k: nat, i: nat, n: nat)
    requires Runs(INIT, ts) && i < n <= |ts| && (if stat then StatAt(ts, c, k, i) else ReadAt(ts, c, k, i))
    ensures var wires := StateAt(ts, i).calls[c].wires;
            && k < |wires| && wires[k] in StateAt(ts, i).files && StateAt(ts, i).files[wires[k]] != []
            && Took(StateAt(ts, n), c, stat, wires, k, |StateAt(ts, i).files[wires[k]]| - 1)
  {
    InvAt(ts, i);
    hide Inv, StateAt;
    StepAt(ts, i);
    TakesLast(StateAt(ts, i), c, stat);
    hide Took, Apply;
    TookUntil(ts, i + 1, n, c, stat, StateAt(ts, i).calls[c].wires, k,
      |StateAt(ts, i).files[StateAt(ts, i).calls[c].wires[k]]| - 1);
  }

  /** Whatever a call has taken, it took at some step. */
  lemma {:induction false} TakenSomewhere(ts: seq<Step>, n: nat, c: nat, stat: bool, k: nat) returns (i: nat)
    requires Runs(INIT, ts) && n <= |ts| && c in StateAt(ts, n).calls
    requires k < if stat then |StateAt(ts, n).calls[c].observed| else |StateAt(ts, n).calls[c].read|
    ensures i < n && if stat then StatAt(ts, c, k, i) else ReadAt(ts, c, k, i)
    decreases n
  {
    StateEnds(ts);
    hide StateAt;
    StepAt(ts, n - 1);
    TakesOne(StateAt(ts, n - 1), ts[n - 1], c, stat, k);
    var s := StateAt(ts, n - 1);
    if c in s.calls && k < if stat then |s.calls[c].observed| else |s.calls[c].read| {
      i := TakenSomewhere(ts, n - 1, c, stat, k);
    } else {
      i := n - 1;
    }
  }

  lemma TakesOne(s: State, t: Step, c: nat, stat: bool, k: nat)
    requires Enabled(s, t) && c in Apply(s, t).calls
    requires k < if stat then |Apply(s, t).calls[c].observed| else |Apply(s, t).calls[c].read|
    ensures c in s.calls
    ensures var taken := if stat then s.calls[c].observed else s.calls[c].read;
            k < |taken| || (t == (if stat then Stat(c) else Read(c)) && k == |taken|)
  {
    hide KeyOf, ReportOf;
  }

  // ---- Versions and writes ----

  ghost predicate WritesTo(t: Step, w: Wire, mtime: nat) {
    t.Append? && t.wire == w && t.mtime == mtime
  }

  ghost predicate Wrote(ts: seq<Step>, w: Wire, mtime: nat) {
    exists n :: 0 <= n < |ts| && WritesTo(ts[n], w, mtime)
  }

  /** A version with this mtime was added. */
  ghost predicate Added(s: State, end: State, w: Wire, mtime: nat)
    requires w in s.files && w in end.files
  {
    exists v :: |s.files[w]| <= v < |end.files[w]| && end.files[w][v].mtime == mtime
  }

  /** Versions added to a file are its writes, one by one. */
  ghost predicate AreWrites(s: State, ts: seq<Step>, w: Wire, end: State) {
    && w in s.files && w in end.files && s.files[w] <= end.files[w]
    && forall mtime: nat :: Added(s, end, w, mtime) <==> Wrote(ts, w, mtime)
  }

  lemma {:induction false} VersionsAreWrites(s: State, ts: seq<Step>, w: Wire)
    requires Runs(s, ts) && w in s.files
    ensures AreWrites(s, ts, w, After(s, ts))
    decreases |ts|
  {
    if ts != [] {
      hide Enabled, Apply, AreWrites, After;
      var next := Apply(s, ts[0]);
      WriteStep(s, ts[0], w);
      VersionsAreWrites(next, ts[1..], w);
      assert After(s, ts) == After(next, ts[1..]) by { AfterStep(s, ts); }
      WritesOn(s, ts, w, next, After(s, ts));
    }
  }

  lemma AfterStep(s: State, ts: seq<Step>)
    requires Runs(s, ts) && ts != []
    ensures After(s, ts) == After(Apply(s, ts[0]), ts[1..])
  {
  }

  lemma WriteStep(s: State, t: Step, w: Wire)
    requires Enabled(s, t) && w in s.files
    ensures w in Apply(s, t).files
    ensures if t.Append? && t.wire == w then
              && |Apply(s, t).files[w]| == |s.files[w]| + 1 && Apply(s, t).files[w][|s.files[w]|].mtime == t.mtime
              && s.files[w] <= Apply(s, t).files[w]
            else Apply(s, t).files[w] == s.files[w]
  {
    hide KeyOf, ReportOf;
  }

  lemma WritesOn(s: State, ts: seq<Step>, w: Wire, next: State, end: State)
    requires ts != [] && w in s.files && w in next.files && AreWrites(next, ts[1..], w, end)
    requires if ts[0].Append? && ts[0].wire == w then
               && |next.files[w]| == |s.files[w]| + 1 && next.files[w][|s.files[w]|].mtime == ts[0].mtime
               && s.files[w] <= next.files[w]
             else next.files[w] == s.files[w]
    ensures AreWrites(s, ts, w, end)
  {
    forall mtime: nat ensures Added(s, end, w, mtime) <==> Wrote(ts, w, mtime) {
      WroteHead(ts, w, mtime);
      AddedFirst(s, next, end, w, mtime);
      assert Added(next, end, w, mtime) <==> Wrote(ts[1..], w, mtime);
    }
  }

  lemma WroteHead(ts: seq<Step>, w: Wire, mtime: nat)
    requires ts != []
    ensures Wrote(ts, w, mtime) <==> WritesTo(ts[0], w, mtime) || Wrote(ts[1..], w, mtime)
  {
    if Wrote(ts[1..], w, mtime) {
      var n :| 0 <= n < |ts[1..]| && WritesTo(ts[1..][n], w, mtime);
      assert ts[n + 1] == ts[1..][n];
    }
    if Wrote(ts, w, mtime) {
      var n :| 0 <= n < |ts| && WritesTo(ts[n], w, mtime);
      assert n > 0 ==> ts[1..][n - 1] == ts[n];
    }
  }

  lemma AddedFirst(s: State, next: State, end: State, w: Wire, mtime: nat)
    requires w in s.files && w in next.files && w in end.files && s.files[w] <= next.files[w] <= end.files[w]
    requires |next.files[w]| <= |s.files[w]| + 1
    ensures Added(s, end, w, mtime) <==>
            Added(next, end, w, mtime) || (|next.files[w]| > |s.files[w]| && next.files[w][|s.files[w]|].mtime == mtime)
  {
    assert |next.files[w]| > |s.files[w]| ==> end.files[w][|s.files[w]|] == next.files[w][|s.files[w]|];
  }

  /** A write to `w` between two points of the run, with an mtime past the key, or up to it. */
  ghost predicate WriteBetween(ts: seq<Step>, i: nat, j: nat, w: Wire, past: bool, key: nat) {
    exists n :: i <= n < j && n < |ts| && ts[n].Append? && ts[n].wire == w && (ts[n].mtime > key <==> past)
  }

  lemma WritesBetween(ts: seq<Step>, i: nat, j: nat, w: Wire)
    requires Runs(INIT, ts) && i <= j <= |ts| && w in StateAt(ts, i).files
    ensures AreWrites(StateAt(ts, i), ts[i..j], w, StateAt(ts, j))
  {
    hide AreWrites, Runs, After;
    RunSplits(INIT, ts, j);
    RunSplits(INIT, ts[..j], i);
    assert ts[..j][..i] == ts[..i] && ts[..j][i..] == ts[i..j];
    RunSplits(INIT, ts, i);
    VersionsAreWrites(StateAt(ts, i), ts[i..j], w);
  }

  /** Some version added is past the key, or up to it, exactly when such a write came. */
  lemma AddedVersions(ts: seq<Step>, i: nat, j: nat, w: Wire, past: bool, key: nat)
    requires Runs(INIT, ts) && i <= j <= |ts| && w in StateAt(ts, i).files
    ensures var s, end := StateAt(ts, i), StateAt(ts, j);
            && w in end.files && s.files[w] <= end.files[w]
            && (WriteBetween(ts, i, j, w, past, key) <==>
                  exists v :: |s.files[w]| <= v < |end.files[w]| && (end.files[w][v].mtime > key <==> past))
  {
    hide StateAt;
    WritesBetween(ts, i, j, w);
    hide Wrote, Added;
    var s, end := StateAt(ts, i), StateAt(ts, j);
    if WriteBetween(ts, i, j, w, past, key) {
      var n :| i <= n < j && n < |ts| && ts[n].Append? && ts[n].wire == w && (ts[n].mtime > key <==> past);
      WroteAt(ts[i..j], n - i, w);
      var v := AddedAt(s, end, w, ts[n].mtime);
    }
    if exists v :: |s.files[w]| <= v < |end.files[w]| && (end.files[w][v].mtime > key <==> past) {
      var v :| |s.files[w]| <= v < |end.files[w]| && (end.files[w][v].mtime > key <==> past);
      VersionAdded(s, end, w, v);
      var n := WroteSomewhere(ts[i..j], w, end.files[w][v].mtime);
      assert ts[i + n] == ts[i..j][n];
    }
  }

  lemma WroteAt(ts: seq<Step>, n: nat, w: Wire)
    requires n < |ts| && ts[n].Append? && ts[n].wire == w
    ensures Wrote(ts, w, ts[n].mtime)
  {
    assert WritesTo(ts[n], w, ts[n].mtime);
  }

  lemma WroteSomewhere(ts: seq<Step>, w: Wire, mtime: nat) returns (n: nat)
    requires Wrote(ts, w, mtime)
    ensures n < |ts| && ts[n].Append? && ts[n].wire == w && ts[n].mtime == mtime
  {
    n :| 0 <= n < |ts| && WritesTo(ts[n], w, mtime);
  }

  lemma AddedAt(s: State, end: State, w: Wire, mtime: nat) returns (v: nat)
    requires w in s.files && w in end.files && Added(s, end, w, mtime)
    ensures |s.files[w]| <= v < |end.files[w]| && end.files[w][v].mtime == mtime
  {
    v :| |s.files[w]| <= v < |end.files[w]| && end.files[w][v].mtime == mtime;
  }

  lemma VersionAdded(s: State, end: State, w: Wire, v: nat)
    requires w in s.files && w in end.files && |s.files[w]| <= v < |end.files[w]|
    ensures Added(s, end, w, end.files[w][v].mtime)
  {
  }

  // ---- The two windows ----

  /** Between the call's stat of its k-th file and its read of it, the file was written past the key. */
  ghost predicate WrittenBeforeRead(ts: seq<Step>, c: nat, k: nat, w: Wire, key: nat)
    requires Runs(INIT, ts)
  {
    exists i, j :: StatAt(ts, c, k, i) && ReadAt(ts, c, k, j) && WriteBetween(ts, i, j, w, true, key)
  }

  /** After the call's stat of its k-th file, the file was written with an mtime no newer than the key. */
  ghost predicate WrittenSinceStat(ts: seq<Step>, c: nat, k: nat, w: Wire, key: nat)
    requires Runs(INIT, ts)
  {
    exists i :: StatAt(ts, c, k, i) && WriteBetween(ts, i, |ts|, w, false, key)
  }

  /** The version observed at a stat is the last one up to the key exactly when no such write came since. */
  lemma SinceStat(ts: seq<Step>, c: nat, k: nat, key: nat)
    requires Runs(INIT, ts) && c in After(INIT, ts).calls
    requires var call := After(INIT, ts).calls[c];
             k < |call.observed| <= |call.wires| && MtimeAt(After(INIT, ts), call.wires[k], call.observed[k]) <= key
    ensures var s := After(INIT, ts); var call := s.calls[c];
            LatestBy(s, call.wires[k], call.observed[k], key) <==> !WrittenSinceStat(ts, c, k, call.wires[k], key)
  {
    hide Runs, After, Apply, LatestBy, Inv;
    StateEnds(ts);
    var s := After(INIT, ts);
    var w := s.calls[c].wires[k];
    var at := TakenSomewhere(ts, |ts|, c, true, k);
    forall i | StatAt(ts, c, k, i)
      ensures LatestBy(s, w, s.calls[c].observed[k], key) <==> !WriteBetween(ts, i, |ts|, w, false, key)
    {
      TakenAt(ts, c, true, k, i, |ts|);
      AddedVersions(ts, i, |ts|, w, false, key);
      LatestOf(StateAt(ts, i), s, w, key);
    }
  }

  lemma LatestOf(s: State, end: State, w: Wire, key: nat)
    requires w in s.files && s.files[w] != [] && w in end.files && s.files[w] <= end.files[w]
    requires MtimeAt(end, w, |s.files[w]| - 1) <= key
    ensures LatestBy(end, w, |s.files[w]| - 1, key) <==>
            !exists v :: |s.files[w]| <= v < |end.files[w]| && (end.files[w][v].mtime > key <==> false)
  {
  }

  /** A read is past the key exactly when such a write came between it and the stat, the stat itself being up to it. */
  lemma BeforeRead(ts: seq<Step>, c: nat, k: nat, key: nat)
    requires Runs(INIT, ts) && c in After(INIT, ts).calls
    requires var call := After(INIT, ts).calls[c];
             && k < |call.observed| <= |call.wires| && k < |call.read|
             && MtimeAt(After(INIT, ts), call.wires[k], call.observed[k]) <= key
    ensures var s := After(INIT, ts); var call := s.calls[c];
            MtimeAt(s, call.wires[k], call.read[k]) > key <==> WrittenBeforeRead(ts, c, k, call.wires[k], key)
  {
    hide Runs, After, Apply, Inv;
    StateEnds(ts);
    InvAt(ts, |ts|);
    var s := After(INIT, ts);
    var w := s.calls[c].wires[k];
    var i0 := TakenSomewhere(ts, |ts|, c, true, k);
    var j0 := TakenSomewhere(ts, |ts|, c, false, k);
    forall i, j | StatAt(ts, c, k, i) && ReadAt(ts, c, k, j)
      ensures MtimeAt(s, w, s.calls[c].read[k]) > key <==> WriteBetween(ts, i, j, w, true, key)
    {
      TakenAt(ts, c, true, k, i, |ts|);
      TakenAt(ts, c, false, k, j, |ts|);
      if i <= j {
        AddedVersions(ts, i, j, w, true, key);
        AddedVersions(ts, j, |ts|, w, true, key);
        NewestPast(StateAt(ts, i), StateAt(ts, j), s, w, key);
      } else {
        AddedVersions(ts, j, i, w, true, key);
        AddedVersions(ts, i, |ts|, w, true, key);
        NotNewer(StateAt(ts, j), StateAt(ts, i), s, w, key);
      }
    }
  }

  lemma NewestPast(s: State, mid: State, end: State, w: Wire, key: nat)
    requires Inv(end) && w in s.files && s.files[w] != [] && w in mid.files && w in end.files
    requires s.files[w] <= mid.files[w] <= end.files[w] && MtimeAt(end, w, |s.files[w]| - 1) <= key
    ensures MtimeAt(end, w, |mid.files[w]| - 1) > key <==>
            exists v :: |s.files[w]| <= v < |mid.files[w]| && (mid.files[w][v].mtime > key <==> true)
  {
    hide CallOk, ReportOk;
    assert Grows(end.files[w], end.clock);
    assert forall v | 0 <= v < |mid.files[w]| :: mid.files[w][v] == end.files[w][v];
    var last := |mid.files[w]| - 1;
    if MtimeAt(end, w, last) > key {
      assert mid.files[w][last].mtime > key;
    }
  }

  lemma NotNewer(mid: State, s: State, end: State, w: Wire, key: nat)
    requires Inv(end) && w in mid.files && mid.files[w] != [] && w in s.files && w in end.files
    requires mid.files[w] <= s.files[w] <= end.files[w] && MtimeAt(end, w, |s.files[w]| - 1) <= key
    ensures MtimeAt(end, w, |mid.files[w]| - 1) <= key
  {
    hide CallOk, ReportOk;
    assert Grows(end.files[w], end.clock);
  }

  // ---- A served report, by what was written when ----

  /** The report's own fields are those of the call that built it, then and ever after. */
  lemma BuilderKeeps(ts: seq<Step>, at: nat, conversation: Conversation, r: Report)
    requires Runs(INIT, ts) && BuiltAt(ts, at, conversation, r)
    ensures var b := ts[at].c; var s := After(INIT, ts);
            && b in s.calls && s.calls[b].wires == r.wires && s.calls[b].observed == r.observed
              && s.calls[b].read == r.read
  {
    hide StateAt, KeyOf;
    StateEnds(ts);
    StepAt(ts, at);
    var next := StateAt(ts, at + 1);
    DoneStaysUntil(ts, at + 1, |ts|, ts[at].c);
  }

  lemma {:induction false} DoneStaysUntil(ts: seq<Step>, i: nat, n: nat, c: nat)
    requires Runs(INIT, ts) && i <= n <= |ts| && c in StateAt(ts, i).calls && StateAt(ts, i).calls[c].phase.Served?
    ensures c in StateAt(ts, n).calls && StateAt(ts, n).calls[c] == StateAt(ts, i).calls[c]
    decreases n - i
  {
    hide StateAt;
    if i < n {
      StepAt(ts, i);
      DoneStays(StateAt(ts, i), ts[i], c);
      DoneStaysUntil(ts, i + 1, n, c);
    }
  }

  lemma DoneStays(s: State, t: Step, c: nat)
    requires Enabled(s, t) && c in s.calls && s.calls[c].phase.Served?
    ensures c in Apply(s, t).calls && Apply(s, t).calls[c] == s.calls[c]
  {
    hide KeyOf, ReportOf;
  }

  /**
   In every run, for every served report and any number of files: with `at` the step that stored it,
   it is of the texts the call observed exactly when it lists the same files and, of each of them,
   no write past the key came between the builder's stat and its read, and none up to the key since
   the call's own stat.
   */
  lemma ExactByWrites(ts: seq<Step>, c: nat) returns (at: nat)
    requires Runs(INIT, ts) && c in After(INIT, ts).calls && After(INIT, ts).calls[c].phase.Served?
    ensures var call := After(INIT, ts).calls[c]; var r := call.phase.report;
            && BuiltAt(ts, at, call.conversation, r)
            && (AsSeen(After(INIT, ts), call, r) <==>
                  && r.wires == call.wires
                  && forall k | 0 <= k < |r.wires| ::
                       && !WrittenBeforeRead(ts, ts[at].c, k, r.wires[k], r.key)
                       && !WrittenSinceStat(ts, c, k, r.wires[k], r.key))
  {
    hide Runs, After, Apply, Inv, AsSeen, LatestBy, BuiltAt, WrittenBeforeRead, WrittenSinceStat;
    StateEnds(ts);
    var s := After(INIT, ts);
    var call := s.calls[c];
    var r := call.phase.report;
    at := ServedWasBuilt(ts, |ts|, c);
    var b := BuilderOf(ts, at, call.conversation, r);
    ServedReportsAreExact(ts, c);
    ServedSizes(ts, c);
    if r.wires == call.wires {
      forall k | 0 <= k < |r.wires|
        ensures MtimeAt(s, r.wires[k], r.read[k]) <= r.key <==> !WrittenBeforeRead(ts, b, k, r.wires[k], r.key)
        ensures LatestBy(s, r.wires[k], call.observed[k], r.key) <==> !WrittenSinceStat(ts, c, k, r.wires[k], r.key)
      {
        BeforeRead(ts, b, k, r.key);
        SinceStat(ts, c, k, r.key);
      }
    }
  }

  lemma BuilderOf(ts: seq<Step>, at: nat, conversation: Conversation, r: Report) returns (b: nat)
    requires Runs(INIT, ts) && BuiltAt(ts, at, conversation, r)
    ensures at < |ts| && ts[at].Insert? && b == ts[at].c && b in After(INIT, ts).calls
    ensures var call := After(INIT, ts).calls[b];
            call.wires == r.wires && call.observed == r.observed && call.read == r.read
  {
    BuilderKeeps(ts, at, conversation, r);
    b := ts[at].c;
  }

  /** Both the report's observations and the call's own are as many as their files and no newer than the key. */
  lemma ServedSizes(ts: seq<Step>, c: nat)
    requires Runs(INIT, ts) && c in After(INIT, ts).calls && After(INIT, ts).calls[c].phase.Served?
    ensures var s := After(INIT, ts); var call := s.calls[c]; var r := call.phase.report;
            && |r.observed| == |r.read| == |r.wires| && |call.observed| == |call.wires|
            && (forall k | 0 <= k < |r.wires| :: MtimeAt(s, r.wires[k], r.observed[k]) <= r.key)
            && (forall k | 0 <= k < |call.wires| :: MtimeAt(s, call.wires[k], call.observed[k]) <= r.key)
  {
    hide Runs, After, NewerThan, Listed, FreshFor;
    InvInit();
    InvRun(INIT, ts);
    var s := After(INIT, ts);
    assert CallOk(s, c);
    hide CallOk;
    KeyBounds(s, s.calls[c].wires, s.calls[c].observed);
    KeyBounds(s, s.calls[c].phase.report.wires, s.calls[c].phase.report.observed);
  }
}
