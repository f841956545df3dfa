/** What every run of the usage cache keeps, from an empty cache and for any number of callers. */
module UsageRuns {
  import opened UsageCache
  import opened UsageProtocol

  ghost predicate Runs(s: State, ts: seq<Step>)
    decreases |ts|
  {
    ts == [] || (Enabled(s, ts[0]) && Runs(Apply(s, ts[0]), ts[1..]))
  }

  ghost function After(s: State, ts: seq<Step>): State
    requires Runs(s, ts)
    decreases |ts|
  {
    if ts == [] then s else After(Apply(s, ts[0]), ts[1..])
  }

  lemma {:induction false} InvRun(s: State, ts: seq<Step>)
    requires Inv(s) && Runs(s, ts)
    ensures Inv(After(s, ts))
    decreases |ts|
  {
    if ts != [] {
      InvStep(s, ts[0]);
      InvRun(Apply(s, ts[0]), ts[1..]);
    }
  }

  lemma InvReached(ts: seq<Step>)
    requires Runs(INIT, ts)
    ensures Inv(After(INIT, ts))
  {
    forall p ensures EntryOk(INIT, p) && HolderOk(INIT, p) {
    }
    InvRun(INIT, ts);
  }

  /** At most one probe per profile is in flight. */
  lemma AtMostOneProbe(ts: seq<Step>, c: nat, d: nat)
    requires Runs(INIT, ts)
    requires var s := After(INIT, ts);
             && c in s.callers && d in s.callers && s.callers[c].profile == s.callers[d].profile
             && InFlight(PcOf(s, c)) && InFlight(PcOf(s, d))
    ensures c == d
  {
    InvReached(ts);
    SlotExcludes(After(INIT, ts), c, d);
  }

  // ---- The generation counts the stored probes ----

  ghost predicate StoresFor(s: State, t: Step, p: string) {
    t.Section? && t.c in s.callers && PcOf(s, t.c).InStore? && s.callers[t.c].profile == p
  }

  /** How many steps of the run stored a probe of `p`. */
  ghost function StoreSteps(s: State, ts: seq<Step>, p: string): nat
    requires Runs(s, ts)
    decreases |ts|
  {
    if ts == [] then 0
    else (if StoresFor(s, ts[0], p) then 1 else 0) + StoreSteps(Apply(s, ts[0]), ts[1..], p)
  }

  lemma {:induction false} GenerationGrows(s: State, ts: seq<Step>, p: string)
    requires Runs(s, ts)
    ensures GenerationOf(After(s, ts).entries, p) == GenerationOf(s.entries, p) + StoreSteps(s, ts, p)
    decreases |ts|
  {
    if ts != [] {
      EntriesEffect(s, ts[0]);
      GenerationGrows(Apply(s, ts[0]), ts[1..], p);
    }
  }

  lemma GenerationCountsStores(ts: seq<Step>, p: string)
    requires Runs(INIT, ts)
    ensures GenerationOf(After(INIT, ts).entries, p) == StoreSteps(INIT, ts, p) == |LogOf(After(INIT, ts), p)|
  {
    GenerationGrows(INIT, ts, p);
    InvReached(ts);
    assert EntryOk(After(INIT, ts), p);
  }

  // ---- Callers who arrive together cause one stored probe ----

  /** `c` asked about `p` and had read its generation when at most `n` probes were stored. */
  ghost predicate AskedBy(s: State, c: nat, p: string, n: nat) {
    && c in s.callers && s.callers[c].profile == p
    && !PcOf(s, c).Arriving? && !PcOf(s, c).InGeneration?
    && (HasAsked(PcOf(s, c)) ==> PcOf(s, c).askedAt <= n)
  }

  lemma AskedByStep(s: State, t: Step, c: nat, p: string, n: nat)
    requires Enabled(s, t) && AskedBy(s, c, p, n)
    ensures AskedBy(Apply(s, t), c, p, n)
  {
    if t.c == c {
      hide ApplySection;
      if t.Section? {
        AskedBySection(s, c, p, n);
      }
    } else {
      OthersKeep(s, t);
      hide Apply;
    }
  }

  lemma AskedBySection(s: State, c: nat, p: string, n: nat)
    requires Enabled(s, Section(c)) && AskedBy(s, c, p, n)
    ensures AskedBy(ApplySection(s, c), c, p, n)
  {
    hide AnswerOf, StoreOf, GenerationOf, LogOf;
  }

  lemma StoreSteps1(s: State, t: Step, p: string)
    requires Enabled(s, t)
    ensures var log, log' := LogOf(s, p), LogOf(Apply(s, t), p);
            if StoresFor(s, t, p) then
              |log'| == |log| + 1 && log' == log + [log'[|log|]] && log'[|log|].caller == t.c
                && log'[|log|].askedAt == PcOf(s, t.c).askedAt
            else log' == log
  {
    EntriesEffect(s, t);
  }

  lemma {:induction false} CohortRun(s: State, ts: seq<Step>, cohort: set<nat>, p: string, n: nat)
    requires Runs(s, ts)
    requires forall c <- cohort :: AskedBy(s, c, p, n)
    requires forall i | n <= i < |LogOf(s, p)| :: LogOf(s, p)[i].caller in cohort ==> LogOf(s, p)[i].askedAt <= n
    ensures var log := LogOf(After(s, ts), p);
            forall i | n <= i < |log| :: log[i].caller in cohort ==> log[i].askedAt <= n
    decreases |ts|
  {
    if ts != [] {
      forall c <- cohort ensures AskedBy(Apply(s, ts[0]), c, p, n) {
        AskedByStep(s, ts[0], c, p, n);
      }
      StoreSteps1(s, ts[0], p);
      CohortRun(Apply(s, ts[0]), ts[1..], cohort, p, n);
      assert After(s, ts) == After(Apply(s, ts[0]), ts[1..]);
    } else {
      assert After(s, ts) == s;
    }
  }

  /**
   However many callers have asked about `p` by the end of `before`, and whatever happens in
   `after`, the only probe of theirs that can be stored from then on is the very next one.
   */
  lemma CohortStoresOnce(before: seq<Step>, after: seq<Step>, cohort: set<nat>, p: string)
    requires Runs(INIT, before) && Runs(After(INIT, before), after)
    requires var s := After(INIT, before);
             forall c <- cohort :: AskedBy(s, c, p, |LogOf(s, p)|)
    ensures var n := |LogOf(After(INIT, before), p)|; var log := LogOf(After(After(INIT, before), after), p);
            forall i | n < i < |log| :: log[i].caller !in cohort
  {
    InvReached(before);
    InvRun(After(INIT, before), after);
    var s, s' := After(INIT, before), After(After(INIT, before), after);
    assert EntryOk(s', p);
    CohortRun(s, after, cohort, p, |LogOf(s, p)|);
  }

  /** A caller who has read its generation in a reached state belongs to such a cohort. */
  lemma ArrivedIsCohort(ts: seq<Step>, c: nat)
    requires Runs(INIT, ts) && c in After(INIT, ts).callers
    requires !PcOf(After(INIT, ts), c).Arriving? && !PcOf(After(INIT, ts), c).InGeneration?
    ensures var s := After(INIT, ts); AskedBy(s, c, s.callers[c].profile, |LogOf(s, s.callers[c].profile)|)
  {
    InvReached(ts);
    var s := After(INIT, ts);
    assert CallerOk(s, c) && EntryOk(s, s.callers[c].profile);
  }

  // ---- The floor and the park ----

  /**
   Consecutive stored probes: the second's caller read the generation the first left behind,
   no park of the first was in force, and an unforced one kept the floor.
   */
  lemma ConsecutiveProbes(ts: seq<Step>, p: string, i: nat)
    requires Runs(INIT, ts) && i + 1 < |LogOf(After(INIT, ts), p)|
    ensures var log := LogOf(After(INIT, ts), p);
            && log[i].askedAt == i && log[i + 1].askedAt == i + 1
            && (log[i].park.Some? ==> log[i].park.value <= log[i + 1].now)
            && (!log[i + 1].force ==> log[i].now + MIN_INTERVAL_SECS <= log[i + 1].now)
  {
    InvReached(ts);
    var log := LogOf(After(INIT, ts), p);
    assert EntryOk(After(INIT, ts), p);
    assert MayFollow(log[i + 1 - 1], log[i + 1]);
  }

  /** A probe in flight started with no park in force and, unforced, past the floor of the last stored one. */
  lemma ProbeInFlight(ts: seq<Step>, c: nat)
    requires Runs(INIT, ts)
    requires var s := After(INIT, ts); c in s.callers && InFlight(PcOf(s, c)) && s.callers[c].profile in s.entries
    ensures var s := After(INIT, ts); var last := LogOf(s, s.callers[c].profile);
            && last != [] && PcOf(s, c).askedAt == |last|
            && (last[|last| - 1].park.None? || last[|last| - 1].park.value <= PcOf(s, c).now)
            && (s.callers[c].force || last[|last| - 1].now + MIN_INTERVAL_SECS <= PcOf(s, c).now)
  {
    InvReached(ts);
    var s := After(INIT, ts);
    assert CallerOk(s, c) && EntryOk(s, s.callers[c].profile);
  }

  /**
   In every reached state a caller at its second check goes on to probe exactly when nothing was
   stored since it asked and its clock reads past the end of the last park and, unforced, past the
   floor of the last probe.
   */
  lemma DueCallerProbes(ts: seq<Step>, c: nat)
    requires Runs(INIT, ts) && c in After(INIT, ts).callers && PcOf(After(INIT, ts), c).InSecondCheck?
    ensures var s := After(INIT, ts); var me := s.callers[c]; var log := LogOf(s, me.profile);
            PcOf(Apply(s, Section(c)), c) == Probing(me.pc.askedAt, me.pc.now) <==>
            && me.pc.askedAt == |log|
            && (log != [] ==>
                  var last := log[|log| - 1];
                  && (last.park.None? || last.park.value <= me.pc.now)
                  && (me.force || last.now + 120 <= me.pc.now))
  {
    InvReached(ts);
    hide Inv;
    var s := After(INIT, ts);
    assert EntryOk(s, s.callers[c].profile) && CallerOk(s, c) by { InvOf(s, c); }
    SecondCheck(s, c);
  }

  lemma InvOf(s: State, c: nat)
    requires Inv(s) && c in s.callers
    ensures EntryOk(s, s.callers[c].profile) && CallerOk(s, c)
  {
  }

  lemma SecondCheck(s: State, c: nat)
    requires c in s.callers && PcOf(s, c).InSecondCheck?
    ensures var me := s.callers[c];
            PcOf(Apply(s, Section(c)), c) == Probing(me.pc.askedAt, me.pc.now) <==>
            AnswerOf(s.entries, me.profile, me.force, me.pc.askedAt, me.pc.now).None?
  {
    hide AnswerOf;
  }

  // ---- Nobody waits for ever ----

  /** The next step of a caller that holds a lock nobody else can take from it. */
  lemma HolderMoves(s: State, h: nat) returns (t: Step)
    requires Inv(s) && h in s.callers
             && (HoldsProbe(PcOf(s, h)) || HoldsEntries(PcOf(s, h)) || HoldsSlotMap(PcOf(s, h)))
    ensures Enabled(s, t) && !t.Call?
  {
    var pc := PcOf(s, h);
    assert SlotOk(s, h);
    if pc.SecondClock? {
      t := ReadClock(h, 0);
    } else if pc.Probing? {
      t := ProbePanics(h);
    } else if WantsEntries(pc) {
      if s.entriesLock.None? {
        t := LockEntries(h);
      } else {
        assert LockOk(s, s.entriesLock.value);
        t := Section(s.entriesLock.value);
      }
    } else {
      t := Section(h);
    }
  }

  /** No deadlock: while any caller is unfinished, some caller can take its next step. */
  lemma SomeoneMoves(ts: seq<Step>, c: nat) returns (t: Step)
    requires Runs(INIT, ts) && c in After(INIT, ts).callers && !Finished(PcOf(After(INIT, ts), c))
    ensures Enabled(After(INIT, ts), t) && !t.Call?
  {
    InvReached(ts);
    var s := After(INIT, ts);
    var pc := PcOf(s, c);
    assert SlotOk(s, c);
    if pc.FirstClock? {
      t := ReadClock(c, 0);
    } else if pc.WantProbe? {
      var p := s.callers[c].profile;
      if HolderOf(s, p).None? {
        t := LockProbe(c);
      } else {
        assert HolderOk(s, p);
        assert SlotOk(s, HolderOf(s, p).value);
        t := HolderMoves(s, HolderOf(s, p).value);
      }
    } else if pc.WantSlot? {
      if s.slotsLock.None? {
        t := LockSlotMap(c);
      } else {
        assert LockOk(s, s.slotsLock.value);
        t := HolderMoves(s, s.slotsLock.value);
      }
    } else if WantsEntries(pc) {
      if s.entriesLock.None? {
        t := LockEntries(c);
      } else {
        assert LockOk(s, s.entriesLock.value);
        t := HolderMoves(s, s.entriesLock.value);
      }
    } else {
      t := HolderMoves(s, c);
    }
  }

  /** The steps a caller still has to take, at most. */
  ghost function Rank(pc: Pc): nat {
    match pc
    case Arriving => 15
    case InGeneration => 14
    case FirstClock(_) => 13
    case FirstCheck(_, _) => 12
    case InFirstCheck(_, _) => 11
    case WantSlot(_) => 10
    case InSlotMap(_) => 9
    case WantProbe(_) => 8
    case SecondClock(_) => 7
    case SecondCheck(_, _) => 6
    case InSecondCheck(_, _) => 5
    case Probing(_, _) => 4
    case WantStore(_, _, _, _) => 3
    case InStore(_, _, _, _) => 2
    case Unlocking(_) => 1
    case Done(_) => 0
    case Panicked => 0
  }

  ghost function StepsOf(ts: seq<Step>, c: nat): nat {
    if ts == [] then 0 else (if ts[0].c == c then 1 else 0) + StepsOf(ts[1..], c)
  }

  lemma RankFalls(s: State, t: Step)
    requires Enabled(s, t) && !t.Call?
    ensures Rank(PcOf(Apply(s, t), t.c)) < Rank(PcOf(s, t.c))
  {
    hide ApplySection;
    if t.Section? {
      SectionRankFalls(s, t.c);
    }
  }

  lemma SectionRankFalls(s: State, c: nat)
    requires Enabled(s, Section(c))
    ensures Rank(PcOf(ApplySection(s, c), c)) < Rank(PcOf(s, c))
  {
    hide AnswerOf, StoreOf, GenerationOf, LogOf;
  }

  lemma {:induction false} StepsBounded(s: State, ts: seq<Step>, c: nat)
    requires Runs(s, ts) && c in s.callers
    ensures c in After(s, ts).callers && StepsOf(ts, c) + Rank(PcOf(After(s, ts), c)) <= Rank(PcOf(s, c))
    decreases |ts|
  {
    if ts != [] {
      OthersKeep(s, ts[0]);
      if ts[0].c == c {
        RankFalls(s, ts[0]);
      }
      StepsBounded(Apply(s, ts[0]), ts[1..], c);
    }
  }

  /** A call takes at most fifteen steps of its own, whatever the others do. */
  lemma CallReturns(before: seq<Step>, call: Step, after: seq<Step>)
    requires Runs(INIT, before) && call.Call? && Enabled(After(INIT, before), call)
    requires Runs(Apply(After(INIT, before), call), after)
    ensures StepsOf(after, call.c) <= 15
    ensures var s := After(Apply(After(INIT, before), call), after);
            call.c in s.callers && (StepsOf(after, call.c) == 15 ==> Finished(PcOf(s, call.c)))
  {
    StepsBounded(Apply(After(INIT, before), call), after, call.c);
  }

  /** A probe that panics leaves its slot free, if poisoned, and nothing torn: the next waiter gets it. */
  lemma PanicLeavesSlotFree(ts: seq<Step>, c: nat, waiter: nat)
    requires Runs(INIT, ts) && Enabled(After(INIT, ts), ProbePanics(c))
    requires var s := After(INIT, ts);
             waiter in s.callers && PcOf(s, waiter).WantProbe? && s.callers[waiter].profile == s.callers[c].profile
    ensures var s, s' := After(INIT, ts), Apply(After(INIT, ts), ProbePanics(c));
            s'.entries == s.entries && Enabled(s', LockProbe(waiter)) && Inv(Apply(s', LockProbe(waiter)))
  {
    InvReached(ts);
    var s' := Apply(After(INIT, ts), ProbePanics(c));
    InvStep(After(INIT, ts), ProbePanics(c));
    InvStep(s', LockProbe(waiter));
  }
}
