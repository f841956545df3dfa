/**
 `UsageCache::read` under any interleaving of any number of callers. Each caller runs the
 source's own sequence of lock acquisitions: the entries mutex for the generation, for each
 check and for the store; the probing mutex to find its profile's slot; and the slot's mutex
 across the second check, the probe and the store. A probe may return anything or panic, and
 every clock reading is arbitrary.
 */
module UsageProtocol {
  import opened Prelude
  import opened UsageCache

  datatype Pc =
    | Arriving                                        // about to read the generation
    | InGeneration                                    // holds entries
    | FirstClock(askedAt: nat)
    | FirstCheck(askedAt: nat, now: int)
    | InFirstCheck(askedAt: nat, now: int)            // holds entries
    | WantSlot(askedAt: nat)
    | InSlotMap(askedAt: nat)                         // holds probing
    | WantProbe(askedAt: nat)                         // has its slot, waits for the slot's lock
    | SecondClock(askedAt: nat)                       // holds the slot from here on
    | SecondCheck(askedAt: nat, now: int)
    | InSecondCheck(askedAt: nat, now: int)           // holds the slot and entries
    | Probing(askedAt: nat, now: int)
    | WantStore(askedAt: nat, now: int, report: UsageReport, park: Option<int>)
    | InStore(askedAt: nat, now: int, report: UsageReport, park: Option<int>)  // holds the slot and entries
    | Unlocking(reply: UsageReport)                   // holds the slot, entries already released
    | Done(reply: UsageReport)
    | Panicked

  datatype Caller = Caller(profile: string, force: bool, pc: Pc)

  datatype Slot = Slot(holder: Option<nat>, poisoned: bool)

  /** A stored probe: who made it, what generation they had read, and what they stored. */
  datatype Stored = Stored(caller: nat, askedAt: nat, force: bool, now: int, report: UsageReport, park: Option<int>)

  datatype State = State(
    entries: Entries, entriesLock: Option<nat>,
    slots: map<string, Slot>, slotsLock: Option<nat>,
    callers: map<nat, Caller>,
    log: map<string, seq<Stored>>)  // every probe stored so far, a history variable

  const INIT := State(map[], None, map[], None, map[], map[])

  predicate WantsEntries(pc: Pc) { pc.Arriving? || pc.FirstCheck? || pc.SecondCheck? || pc.WantStore? }
  predicate HoldsEntries(pc: Pc) { pc.InGeneration? || pc.InFirstCheck? || pc.InSecondCheck? || pc.InStore? }
  predicate HoldsSlotMap(pc: Pc) { pc.InSlotMap? }
  predicate HoldsProbe(pc: Pc) {
    pc.SecondClock? || pc.SecondCheck? || pc.InSecondCheck? || pc.Probing? || pc.WantStore? || pc.InStore?
      || pc.Unlocking?
  }
  predicate InFlight(pc: Pc) { pc.Probing? || pc.WantStore? || pc.InStore? }
  predicate HasAsked(pc: Pc) {
    !pc.Arriving? && !pc.InGeneration? && !pc.Unlocking? && !pc.Done? && !pc.Panicked?
  }
  predicate Finished(pc: Pc) { pc.Done? || pc.Panicked? }

  // ---- Steps ----

  datatype Step =
    | Call(c: nat, profile: string, force: bool)
    | LockEntries(c: nat)                 // the entries mutex, from any of the four places that want it
    | ReadClock(c: nat, now: int)
    | LockSlotMap(c: nat)
    | LockProbe(c: nat)                   // poisoned or not
    | ProbeReturns(c: nat, report: UsageReport, park: Option<int>)
    | ProbePanics(c: nat)
    | Section(c: nat)                     // the body of the critical section held, and its release

  function PcOf(s: State, c: nat): Pc
    requires c in s.callers
  {
    s.callers[c].pc
  }

  predicate Enabled(s: State, t: Step) {
    if t.Call? then t.c !in s.callers
    else
      t.c in s.callers &&
      var pc := PcOf(s, t.c);
      match t
      case LockEntries(c) => WantsEntries(pc) && s.entriesLock.None?
      case ReadClock(c, now) => pc.FirstClock? || pc.SecondClock?
      case LockSlotMap(c) => pc.WantSlot? && s.slotsLock.None?
      case LockProbe(c) => pc.WantProbe? && s.callers[c].profile in s.slots
        && s.slots[s.callers[c].profile].holder.None?
      case ProbeReturns(c, report, park) => pc.Probing?
      case ProbePanics(c) => pc.Probing?
      case Section(c) => HoldsEntries(pc) || HoldsSlotMap(pc) || (pc.Unlocking? && s.callers[c].profile in s.slots)
  }

  function Go(s: State, c: nat, pc: Pc): State
    requires c in s.callers
  {
    s.(callers := s.callers[c := s.callers[c].(pc := pc)])
  }

  function Locked(pc: Pc): Pc
    requires WantsEntries(pc)
  {
    match pc
    case Arriving => InGeneration
    case FirstCheck(a, now) => InFirstCheck(a, now)
    case SecondCheck(a, now) => InSecondCheck(a, now)
    case WantStore(a, now, report, park) => InStore(a, now, report, park)
  }

  function LogOf(s: State, profile: string): seq<Stored> {
    if profile in s.log then s.log[profile] else []
  }

  function Apply(s: State, t: Step): State
    requires Enabled(s, t)
  {
    var c := t.c;
    if t.Call? then s.(callers := s.callers[c := Caller(t.profile, t.force, Arriving)])
    else
      var me := s.callers[c];
      match t
      case LockEntries(_) => Go(s, c, Locked(me.pc)).(entriesLock := Some(c))
      case ReadClock(_, now) =>
        Go(s, c, if me.pc.FirstClock? then FirstCheck(me.pc.askedAt, now) else SecondCheck(me.pc.askedAt, now))
      case LockSlotMap(_) => Go(s, c, InSlotMap(me.pc.askedAt)).(slotsLock := Some(c))
      case LockProbe(_) =>
        Go(s, c, SecondClock(me.pc.askedAt)).(slots := s.slots[me.profile := s.slots[me.profile].(holder := Some(c))])
      case ProbeReturns(_, report, park) => Go(s, c, WantStore(me.pc.askedAt, me.pc.now, report, park))
      case ProbePanics(_) => Go(s, c, Panicked).(slots := s.slots[me.profile := Slot(None, true)])
      case Section(_) => ApplySection(s, c)
  }

  function ApplySection(s: State, c: nat): State
    requires Enabled(s, Section(c))
  {
    var me := s.callers[c];
    match me.pc
    case InGeneration => Go(s, c, FirstClock(GenerationOf(s.entries, me.profile))).(entriesLock := None)
    case InFirstCheck(a, now) =>
      var answer := AnswerOf(s.entries, me.profile, me.force, a, now);
      Go(s, c, if answer.Some? then Done(answer.value) else WantSlot(a)).(entriesLock := None)
    case InSlotMap(a) =>
      var slots := if me.profile in s.slots then s.slots else s.slots[me.profile := Slot(None, false)];
      Go(s, c, WantProbe(a)).(slots := slots, slotsLock := None)
    case InSecondCheck(a, now) =>
      var answer := AnswerOf(s.entries, me.profile, me.force, a, now);
      Go(s, c, if answer.Some? then Unlocking(answer.value) else Probing(a, now)).(entriesLock := None)
    case InStore(a, now, report, park) =>
      Go(s, c, Unlocking(report)).(
        entries := StoreOf(s.entries, me.profile, now, report, park), entriesLock := None,
        log := s.log[me.profile := LogOf(s, me.profile) + [Stored(c, a, me.force, now, report, park)]])
    case Unlocking(reply) =>
      Go(s, c, Done(reply)).(slots := s.slots[me.profile := s.slots[me.profile].(holder := None)])
  }

  // ---- The invariant ----

  ghost predicate LockOk(s: State, c: nat)
    requires c in s.callers
  {
    && (HoldsEntries(PcOf(s, c)) <==> s.entriesLock == Some(c))
    && (HoldsSlotMap(PcOf(s, c)) <==> s.slotsLock == Some(c))
  }

  ghost predicate LocksOk(s: State) {
    && (forall c <- s.callers :: LockOk(s, c))
    && (s.entriesLock.Some? ==> s.entriesLock.value in s.callers)
    && (s.slotsLock.Some? ==> s.slotsLock.value in s.callers)
  }

  ghost function HolderOf(s: State, profile: string): Option<nat> {
    if profile in s.slots then s.slots[profile].holder else None
  }

  ghost predicate SlotOk(s: State, c: nat)
    requires c in s.callers
  {
    var me := s.callers[c];
    && (HoldsProbe(me.pc) <==> HolderOf(s, me.profile) == Some(c))
    && (me.pc.WantProbe? ==> me.profile in s.slots)
  }

  ghost predicate HolderOk(s: State, p: string) {
    HolderOf(s, p).Some? ==> HolderOf(s, p).value in s.callers && s.callers[HolderOf(s, p).value].profile == p
  }

  ghost predicate SlotsOk(s: State) {
    (forall c <- s.callers :: SlotOk(s, c)) && (forall p :: HolderOk(s, p))
  }

  /** Probe `next` could follow `prev`: no park in force, and the floor kept unless forced. */
  predicate MayFollow(prev: Stored, next: Stored) {
    (prev.park.None? || prev.park.value <= next.now) && (next.force || prev.now + MIN_INTERVAL_SECS <= next.now)
  }

  /** The i-th stored probe was made by a caller who read generation i: after its predecessor was stored. */
  ghost predicate LogOk(log: seq<Stored>) {
    && (forall i | 0 <= i < |log| :: log[i].askedAt == i)
    && (forall i | 1 <= i < |log| :: MayFollow(log[i - 1], log[i]))
  }

  /** A profile's entry is its last stored probe, and its generation counts them. */
  ghost predicate EntryOk(s: State, p: string) {
    && LogOk(LogOf(s, p)) && (p in s.entries <==> LogOf(s, p) != [])
    && (p in s.entries ==> var last := LogOf(s, p)[|LogOf(s, p)| - 1];
                           s.entries[p] == Entry(last.report, last.now, last.park, |LogOf(s, p)|))
  }

  ghost predicate EntriesOk(s: State) {
    forall p :: EntryOk(s, p)
  }

  ghost predicate CallerOk(s: State, c: nat)
    requires c in s.callers
  {
    var me := s.callers[c];
    && (HasAsked(me.pc) ==> me.pc.askedAt <= GenerationOf(s.entries, me.profile))
    && (InFlight(me.pc) ==> AnswerOf(s.entries, me.profile, me.force, me.pc.askedAt, me.pc.now).None?)
  }

  ghost predicate CallersOk(s: State) {
    forall c <- s.callers :: CallerOk(s, c)
  }

  ghost predicate Inv(s: State) {
    LocksOk(s) && SlotsOk(s) && EntriesOk(s) && CallersOk(s)
  }

  lemma LogStep(s: State, c: nat)
    requires Inv(s) && c in s.callers && PcOf(s, c).InStore?
    ensures var me := s.callers[c]; var pc := me.pc;
            LogOk(LogOf(s, me.profile) + [Stored(c, pc.askedAt, me.force, pc.now, pc.report, pc.park)])
  {
    var log := LogOf(s, s.callers[c].profile);
    assert CallerOk(s, c) && EntryOk(s, s.callers[c].profile);
    assert GenerationOf(s.entries, s.callers[c].profile) == |log|;
  }

  /** While a caller holds a slot, nobody else is past it for that profile. */
  lemma SlotExcludes(s: State, c: nat, d: nat)
    requires SlotsOk(s) && c in s.callers && d in s.callers
    requires HoldsProbe(PcOf(s, c)) && HoldsProbe(PcOf(s, d)) && s.callers[c].profile == s.callers[d].profile
    ensures c == d
  {
    assert SlotOk(s, c) && SlotOk(s, d);
  }

  // ---- What one step may change, caller by caller and lock by lock ----

  /** A caller's own step writes its program counter and nothing else of any caller. */
  ghost predicate OnlyPcOf(s: State, s': State, c: nat) {
    c in s.callers && c in s'.callers && s'.callers == s.callers[c := s.callers[c].(pc := s'.callers[c].pc)]
  }

  lemma SectionWritesPc(s: State, c: nat)
    requires Enabled(s, Section(c))
    ensures OnlyPcOf(s, ApplySection(s, c), c)
  {
    hide AnswerOf, StoreOf, GenerationOf, LogOf;
  }

  lemma StepWritesPc(s: State, t: Step)
    requires Enabled(s, t) && !t.Call?
    ensures OnlyPcOf(s, Apply(s, t), t.c)
  {
    hide ApplySection;
    if t.Section? {
      SectionWritesPc(s, t.c);
    }
  }

  lemma OthersKeep(s: State, t: Step)
    requires Enabled(s, t)
    ensures Apply(s, t).callers.Keys == s.callers.Keys + {t.c}
    ensures forall c <- s.callers :: c != t.c ==> Apply(s, t).callers[c] == s.callers[c]
  {
    if !t.Call? {
      StepWritesPc(s, t);
      hide Apply;
    }
  }

  lemma StepKeepsCall(s: State, t: Step)
    requires Enabled(s, t) && !t.Call?
    ensures var me, me' := s.callers[t.c], Apply(s, t).callers[t.c]; me'.profile == me.profile && me'.force == me.force
  {
    hide Apply;
    StepWritesPc(s, t);
  }

  /** A lock is taken only when free, and given up only by its holder. */
  ghost predicate Handover(before: Option<nat>, after: Option<nat>, c: nat) {
    after == before || (before == None && after == Some(c)) || (before == Some(c) && after == None)
  }

  lemma LockEffect(s: State, t: Step)
    requires Enabled(s, t) && (t.Call? || LockOk(s, t.c))
    requires t.Call? ==> s.entriesLock != Some(t.c) && s.slotsLock != Some(t.c)
    ensures var s' := Apply(s, t);
            && Handover(s.entriesLock, s'.entriesLock, t.c) && Handover(s.slotsLock, s'.slotsLock, t.c)
              && LockOk(s', t.c)
  {
    hide ApplySection;
    if t.Section? {
      SectionLockEffect(s, t.c);
    }
  }

  lemma SectionLockEffect(s: State, c: nat)
    requires Enabled(s, Section(c)) && LockOk(s, c)
    ensures var s' := Apply(s, Section(c));
            && Handover(s.entriesLock, s'.entriesLock, c) && Handover(s.slotsLock, s'.slotsLock, c) && LockOk(s', c)
  {
    hide AnswerOf, StoreOf, GenerationOf, LogOf;
  }

  lemma LocksStep(s: State, t: Step)
    requires Inv(s) && Enabled(s, t)
    ensures LocksOk(Apply(s, t))
  {
    OthersKeep(s, t);
    LockEffect(s, t);
    forall c <- s.callers | c != t.c ensures LockOk(Apply(s, t), c) {
      assert LockOk(s, c);
    }
  }

  ghost predicate SlotMoves(s: State, s': State, c: nat)
    requires c in s'.callers
  {
    var p := s'.callers[c].profile;
    && s.slots.Keys <= s'.slots.Keys && SlotOk(s', c)
    && Handover(HolderOf(s, p), HolderOf(s', p), c)
    && (forall q | q != p :: HolderOf(s', q) == HolderOf(s, q))
  }

  lemma SectionSlotEffect(s: State, c: nat)
    requires Enabled(s, Section(c)) && SlotOk(s, c)
    ensures SlotMoves(s, ApplySection(s, c), c)
  {
  }

  lemma SlotEffect(s: State, t: Step)
    requires Enabled(s, t) && (t.Call? || SlotOk(s, t.c))
    requires t.Call? ==> HolderOf(s, t.profile) != Some(t.c)
    ensures SlotMoves(s, Apply(s, t), t.c)
  {
    if t.Section? {
      SectionSlotEffect(s, t.c);
    }
  }

  lemma SlotsStep(s: State, t: Step)
    requires Inv(s) && Enabled(s, t)
    ensures SlotsOk(Apply(s, t))
  {
    var s' := Apply(s, t);
    if t.Call? {
      assert HolderOk(s, t.profile);
    } else {
      StepKeepsCall(s, t);
    }
    OthersKeep(s, t);
    SlotEffect(s, t);
    SlotsKept(s, s', t.c);
  }

  lemma SlotsKept(s: State, s': State, c: nat)
    requires SlotsOk(s) && s'.callers.Keys == s.callers.Keys + {c} && SlotMoves(s, s', c)
    requires forall d <- s.callers :: d != c ==> s'.callers[d] == s.callers[d]
    requires c in s.callers ==> s'.callers[c].profile == s.callers[c].profile
    ensures SlotsOk(s')
  {
    forall d <- s.callers | d != c ensures SlotOk(s', d) {
      assert SlotOk(s, d);
    }
    forall p ensures HolderOk(s', p) {
      assert HolderOk(s, p);
    }
  }

  /** Only a store changes the entries, and only its own profile's, whose generation grows. */
  lemma EntriesEffect(s: State, t: Step)
    requires Enabled(s, t)
    ensures var s' := Apply(s, t);
            if t.Section? && PcOf(s, t.c).InStore? then
              && HoldsProbe(PcOf(s, t.c))
              && (forall q | q != s.callers[t.c].profile ::
                (q in s'.entries <==> q in s.entries) && (q in s.entries ==> s'.entries[q] == s.entries[q]))
              && (forall q :: GenerationOf(s.entries, q) <= GenerationOf(s'.entries, q))
              && (forall q | q != s.callers[t.c].profile :: LogOf(s', q) == LogOf(s, q))
            else s'.entries == s.entries && s'.log == s.log
  {
  }

  lemma EntriesStep(s: State, t: Step)
    requires Inv(s) && Enabled(s, t)
    ensures EntriesOk(Apply(s, t))
  {
    EntriesEffect(s, t);
    forall p ensures EntryOk(Apply(s, t), p) {
      assert EntryOk(s, p);
      if t.Section? && PcOf(s, t.c).InStore? && p == s.callers[t.c].profile {
        LogStep(s, t.c);
      }
    }
  }

  lemma SectionCallerEffect(s: State, c: nat)
    requires Enabled(s, Section(c)) && CallerOk(s, c)
    ensures CallerOk(ApplySection(s, c), c)
  {
    hide LogOf;
  }

  lemma CallerEffect(s: State, t: Step)
    requires Enabled(s, t) && (t.Call? || CallerOk(s, t.c))
    ensures CallerOk(Apply(s, t), t.c)
  {
    hide ApplySection;
    if t.Section? {
      SectionCallerEffect(s, t.c);
    }
  }

  lemma CallersStep(s: State, t: Step)
    requires Inv(s) && Enabled(s, t)
    ensures CallersOk(Apply(s, t))
  {
    OthersKeep(s, t);
    EntriesEffect(s, t);
    CallerEffect(s, t);
    forall c <- s.callers | c != t.c ensures CallerOk(Apply(s, t), c) {
      assert CallerOk(s, c);
      if t.Section? && PcOf(s, t.c).InStore? && s.callers[c].profile == s.callers[t.c].profile && InFlight(PcOf(s, c)) {
        SlotExcludes(s, c, t.c);
      }
    }
  }

  lemma InvStep(s: State, t: Step)
    requires Inv(s) && Enabled(s, t)
    ensures Inv(Apply(s, t))
  {
    LocksStep(s, t);
    SlotsStep(s, t);
    EntriesStep(s, t);
    CallersStep(s, t);
  }
}
