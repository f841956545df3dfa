/**
 The cache as a caller should be able to think of it: a list of probes per profile, and calls
 that are each served whole, at one moment between the call and its return. Every run of the
 locking protocol is a run of this one, with the same replies.
 */
module AtomicUsage {
  import opened Prelude
  import opened UsageCache
  import P = UsageProtocol
  import R = UsageRuns

  datatype Probe = Probe(now: int, report: UsageReport, park: Option<int>)

  /** `Waiting(at)` has called and counted `at` probes of its profile; nothing has been decided for it. */
  datatype Status = Called | Waiting(at: nat) | Answered(reply: UsageReport) | Crashed

  datatype Call = Call(profile: string, force: bool, status: Status)

  datatype Cache = Cache(probes: map<string, seq<Probe>>, calls: map<nat, Call>)

  datatype Action =
    | Enter(c: nat, profile: string, force: bool)
    | Count(c: nat)
    | Refuse(c: nat, now: int)                                            // a park is in force
    | Serve(c: nat, now: int)                                             // the last report, marked cached
    | Fetch(c: nat, now: int, report: UsageReport, park: Option<int>)     // a real probe, kept and returned
    | Crash(c: nat)

  function ProbesOf(a: Cache, profile: string): seq<Probe> {
    if profile in a.probes then a.probes[profile] else []
  }

  /** A report served again says so, and is otherwise as it was. */
  function Marked(report: UsageReport): UsageReport {
    match report
    case Ready(windows, plan, observedAt, _) => Ready(windows, plan, observedAt, true)
    case Unsupported => Unsupported
    case Unavailable(reason, retryAfter) => Unavailable(reason, retryAfter)
  }

  /** Whether the cache may answer with its last report: a newer one than counted, or a fresh one unforced. */
  predicate MayServe(probes: seq<Probe>, at: nat, force: bool, now: int)
    requires probes != []
  {
    |probes| > at || (!force && now < probes[|probes| - 1].now + MIN_INTERVAL_SECS)
  }

  predicate Parked(probes: seq<Probe>, now: int) {
    probes != [] && probes[|probes| - 1].park.Some? && now < probes[|probes| - 1].park.value
  }

  predicate Allowed(a: Cache, t: Action) {
    if t.Enter? then t.c !in a.calls
    else
      t.c in a.calls &&
      var call := a.calls[t.c];
      var probes := ProbesOf(a, call.profile);
      match t
      case Count(_) => call.status.Called?
      case Refuse(_, now) => call.status.Waiting? && Parked(probes, now)
      case Serve(_, now) =>
        call.status.Waiting? && !Parked(probes, now) && probes != []
          && MayServe(probes, call.status.at, call.force, now)
      case Fetch(_, now, _, _) =>
        call.status.Waiting? && !Parked(probes, now)
          && (probes == [] || !MayServe(probes, call.status.at, call.force, now))
      case Crash(_) => call.status.Waiting?
  }

  function Act(a: Cache, t: Action): Cache
    requires Allowed(a, t)
  {
    if t.Enter? then a.(calls := a.calls[t.c := Call(t.profile, t.force, Called)])
    else
      var call := a.calls[t.c];
      var probes := ProbesOf(a, call.profile);
      match t
      case Count(_) => Settle(a, t.c, Waiting(|probes|))
      case Refuse(_, now) => Settle(a, t.c, Answered(Unavailable(RATE_LIMITED, probes[|probes| - 1].park)))
      case Serve(_, now) => Settle(a, t.c, Answered(Marked(probes[|probes| - 1].report)))
      case Fetch(_, now, report, park) =>
        Settle(a, t.c, Answered(report)).(probes := a.probes[call.profile := probes + [Probe(now, report, park)]])
      case Crash(_) => Settle(a, t.c, Crashed)
  }

  function Settle(a: Cache, c: nat, status: Status): Cache
    requires c in a.calls
  {
    a.(calls := a.calls[c := a.calls[c].(status := status)])
  }

  ghost predicate Acts(a: Cache, ts: seq<Action>)
    decreases |ts|
  {
    ts == [] || (Allowed(a, ts[0]) && Acts(Act(a, ts[0]), ts[1..]))
  }

  ghost function Result(a: Cache, ts: seq<Action>): Cache
    requires Acts(a, ts)
    decreases |ts|
  {
    if ts == [] then a else Result(Act(a, ts[0]), ts[1..])
  }

  // ---- What the protocol looks like from here ----

  ghost function View(pc: P.Pc): Status {
    if pc.Arriving? || pc.InGeneration? then Called
    else if pc.Unlocking? || pc.Done? then Answered(pc.reply)
    else if pc.Panicked? then Crashed
    else Waiting(pc.askedAt)
  }

  ghost function ViewCaller(c: P.Caller): Call {
    Call(c.profile, c.force, View(c.pc))
  }

  ghost function ViewStored(p: P.Stored): Probe {
    Probe(p.now, p.report, p.park)
  }

  ghost function ViewLog(log: seq<P.Stored>): seq<Probe> {
    seq(|log|, i requires 0 <= i < |log| => ViewStored(log[i]))
  }

  ghost function Abstract(s: P.State): Cache {
    Cache(map p | p in s.log :: ViewLog(s.log[p]), map c | c in s.callers :: ViewCaller(s.callers[c]))
  }

  /** The one action, if any, that a step of the protocol amounts to. */
  ghost function ActionOf(s: P.State, t: P.Step): seq<Action>
    requires P.Enabled(s, t)
  {
    if t.Call? then [Enter(t.c, t.profile, t.force)]
    else if t.ProbePanics? then [Crash(t.c)]
    else if !t.Section? then []
    else
      var me := s.callers[t.c];
      match me.pc
      case InGeneration => [Count(t.c)]
      case InFirstCheck(a, now) => Decide(s, t.c, a, now)
      case InSecondCheck(a, now) => Decide(s, t.c, a, now)
      case InStore(a, now, report, park) => [Fetch(t.c, now, report, park)]
      case _ => []
  }

  ghost function Decide(s: P.State, c: nat, askedAt: nat, now: int): seq<Action>
    requires c in s.callers
  {
    var me := s.callers[c];
    if AnswerOf(s.entries, me.profile, me.force, askedAt, now).None? then []
    else if Parked(ProbesOf(Abstract(s), me.profile), now) then [Refuse(c, now)]
    else [Serve(c, now)]
  }

  lemma ViewOf(s: P.State, c: nat)
    requires P.Inv(s) && c in s.callers
    ensures var p := s.callers[c].profile; var probes := ProbesOf(Abstract(s), p);
            && |probes| == GenerationOf(s.entries, p) == |P.LogOf(s, p)|
            && (p in s.entries <==> probes != [])
            && (probes != [] ==> var last := probes[|probes| - 1]; var entry := s.entries[p];
                                 last.now == entry.fetchedAt && last.report == entry.report
                                   && last.park == entry.parkedUntil)
  {
    assert P.EntryOk(s, s.callers[c].profile);
  }

  lemma OneCallChanges(s: P.State, s': P.State, c: nat)
    requires c in s.callers && s'.callers.Keys == s.callers.Keys && s'.log == s.log
    requires forall d <- s.callers :: d != c ==> s'.callers[d] == s.callers[d]
    requires s'.callers[c].profile == s.callers[c].profile && s'.callers[c].force == s.callers[c].force
    ensures Abstract(s') == Settle(Abstract(s), c, View(P.PcOf(s', c)))
  {
    var a, b := Abstract(s'), Settle(Abstract(s), c, View(P.PcOf(s', c)));
    assert a.calls == b.calls;
  }

  lemma StutterView(s: P.State, t: P.Step)
    requires P.Enabled(s, t) && ActionOf(s, t) == []
    ensures !t.Call? && View(P.PcOf(P.Apply(s, t), t.c)) == View(P.PcOf(s, t.c)) && P.Apply(s, t).log == s.log
  {
    if t.Section? && P.PcOf(s, t.c).InFirstCheck? {
      assert Decide(s, t.c, P.PcOf(s, t.c).askedAt, P.PcOf(s, t.c).now) == [];
    }
    if t.Section? && P.PcOf(s, t.c).InSecondCheck? {
      assert Decide(s, t.c, P.PcOf(s, t.c).askedAt, P.PcOf(s, t.c).now) == [];
    }
  }

  /** Nothing was decided in this step. */
  lemma Stutter(s: P.State, t: P.Step)
    requires P.Enabled(s, t) && ActionOf(s, t) == []
    ensures Abstract(P.Apply(s, t)) == Abstract(s)
  {
    StutterView(s, t);
    P.OthersKeep(s, t);
    P.StepKeepsCall(s, t);
    OneCallChanges(s, P.Apply(s, t), t.c);
    assert Abstract(P.Apply(s, t)).calls == Abstract(s).calls;
  }

  /** A reply of the cache is what the atomic cache may say at that moment. */
  lemma DecisionAllowed(s: P.State, c: nat, askedAt: nat, now: int)
    requires P.Inv(s) && c in s.callers && View(P.PcOf(s, c)) == Waiting(askedAt) && P.HasAsked(P.PcOf(s, c))
    ensures var me := s.callers[c]; var answer := AnswerOf(s.entries, me.profile, me.force, askedAt, now);
            var ts := Decide(s, c, askedAt, now);
            if answer.None? then
              var probes := ProbesOf(Abstract(s), me.profile);
              !Parked(probes, now) && (probes == [] || !MayServe(probes, askedAt, me.force, now))
            else
              && |ts| == 1 && Allowed(Abstract(s), ts[0])
              && Act(Abstract(s), ts[0]) == Settle(Abstract(s), c, Answered(answer.value))
  {
    ViewOf(s, c);
    assert P.CallerOk(s, c);
  }

  lemma SimulateCheck(s: P.State, c: nat)
    requires P.Inv(s) && c in s.callers && (P.PcOf(s, c).InFirstCheck? || P.PcOf(s, c).InSecondCheck?)
    requires ActionOf(s, P.Section(c)) != []
    ensures var t := ActionOf(s, P.Section(c))[0];
            Allowed(Abstract(s), t) && Act(Abstract(s), t) == Abstract(P.Apply(s, P.Section(c)))
  {
    hide Abstract, AnswerOf;
    DecisionAllowed(s, c, P.PcOf(s, c).askedAt, P.PcOf(s, c).now);
    StepView(s, P.Section(c));
  }

  lemma StoredCalls(s: P.State, c: nat)
    requires c in s.callers && P.PcOf(s, c).InStore?
    ensures Abstract(P.Apply(s, P.Section(c))).calls == Settle(Abstract(s), c, Answered(P.PcOf(s, c).report)).calls
  {
    var s' := P.Apply(s, P.Section(c));
    assert s'.callers == s.callers[c := s.callers[c].(pc := P.Unlocking(P.PcOf(s, c).report))];
    OneCallChanges(s, s.(callers := s'.callers), c);
    assert Abstract(s').calls == Abstract(s.(callers := s'.callers)).calls;
  }

  lemma StoreView(s: P.State, c: nat)
    requires c in s.callers && P.PcOf(s, c).InStore?
    ensures var s' := P.Apply(s, P.Section(c)); var pc := P.PcOf(s, c); var p := s.callers[c].profile;
            && Abstract(s').calls == Settle(Abstract(s), c, Answered(pc.report)).calls
            && Abstract(s').probes ==
               Abstract(s).probes[p := ProbesOf(Abstract(s), p) + [Probe(pc.now, pc.report, pc.park)]]
  {
    var s' := P.Apply(s, P.Section(c));
    var p := s.callers[c].profile;
    StoredCalls(s, c);
    assert ViewLog(s'.log[p]) == ViewLog(P.LogOf(s, p)) + [ViewStored(s'.log[p][|P.LogOf(s, p)|])];
  }

  lemma SimulateStore(s: P.State, c: nat)
    requires P.Inv(s) && c in s.callers && P.PcOf(s, c).InStore?
    ensures var t := ActionOf(s, P.Section(c))[0];
            Allowed(Abstract(s), t) && Act(Abstract(s), t) == Abstract(P.Apply(s, P.Section(c)))
  {
    assert P.CallerOk(s, c);
    DecisionAllowed(s, c, P.PcOf(s, c).askedAt, P.PcOf(s, c).now);
    StoreView(s, c);
  }

  lemma SimulateOther(s: P.State, t: P.Step)
    requires P.Inv(s) && P.Enabled(s, t) && ActionOf(s, t) != []
    requires t.Call? || t.ProbePanics? || P.PcOf(s, t.c).InGeneration?
    ensures Allowed(Abstract(s), ActionOf(s, t)[0]) && Act(Abstract(s), ActionOf(s, t)[0]) == Abstract(P.Apply(s, t))
  {
    if t.Call? {
      SimulateCall(s, t);
    } else {
      hide Abstract;
      CallView(s, t.c);
      ViewOf(s, t.c);
      StepView(s, t);
      P.StepWritesPc(s, t);
    }
  }

  lemma CallView(s: P.State, c: nat)
    requires c in s.callers
    ensures c in Abstract(s).calls && Abstract(s).calls[c] == ViewCaller(s.callers[c])
  {
  }

  /** A step that stores nothing settles its own call and nothing else. */
  lemma StepView(s: P.State, t: P.Step)
    requires P.Enabled(s, t) && !t.Call? && P.Apply(s, t).log == s.log
    ensures t.c in P.Apply(s, t).callers && t.c in Abstract(s).calls
    ensures Abstract(P.Apply(s, t)) == Settle(Abstract(s), t.c, View(P.PcOf(P.Apply(s, t), t.c)))
  {
    hide P.Apply, Abstract;
    P.OthersKeep(s, t);
    P.StepKeepsCall(s, t);
    CallView(s, t.c);
    OneCallChanges(s, P.Apply(s, t), t.c);
  }

  lemma SimulateCall(s: P.State, t: P.Step)
    requires P.Enabled(s, t) && t.Call?
    ensures Allowed(Abstract(s), ActionOf(s, t)[0]) && Act(Abstract(s), ActionOf(s, t)[0]) == Abstract(P.Apply(s, t))
  {
    hide P.ApplySection;
    assert Act(Abstract(s), ActionOf(s, t)[0]).calls == Abstract(P.Apply(s, t)).calls;
  }

  lemma Simulate(s: P.State, t: P.Step)
    requires P.Inv(s) && P.Enabled(s, t)
    ensures Acts(Abstract(s), ActionOf(s, t)) && Result(Abstract(s), ActionOf(s, t)) == Abstract(P.Apply(s, t))
  {
    var ts := ActionOf(s, t);
    if ts == [] {
      Stutter(s, t);
    } else {
      if t.Section? && P.PcOf(s, t.c).InStore? {
        SimulateStore(s, t.c);
      } else if t.Section? && !P.PcOf(s, t.c).InGeneration? {
        SimulateCheck(s, t.c);
      } else {
        SimulateOther(s, t);
      }
      assert ts == [ts[0]] && ts[1..] == [];
    }
  }

  ghost function ActionsOf(s: P.State, ts: seq<P.Step>): seq<Action>
    requires R.Runs(s, ts)
    decreases |ts|
  {
    if ts == [] then [] else ActionOf(s, ts[0]) + ActionsOf(P.Apply(s, ts[0]), ts[1..])
  }

  lemma {:induction false} ActsConcat(a: Cache, x: seq<Action>, y: seq<Action>)
    requires Acts(a, x) && Acts(Result(a, x), y)
    ensures Acts(a, x + y) && Result(a, x + y) == Result(Result(a, x), y)
    decreases |x|
  {
    if x == [] {
      assert x + y == y;
    } else {
      ActsConcat(Act(a, x[0]), x[1..], y);
      assert (x + y)[1..] == x[1..] + y;
    }
  }

  lemma {:induction false} SimulateRun(s: P.State, ts: seq<P.Step>)
    requires P.Inv(s) && R.Runs(s, ts)
    ensures Acts(Abstract(s), ActionsOf(s, ts)) && Result(Abstract(s), ActionsOf(s, ts)) == Abstract(R.After(s, ts))
    decreases |ts|
  {
    if ts != [] {
      Simulate(s, ts[0]);
      P.InvStep(s, ts[0]);
      SimulateRun(P.Apply(s, ts[0]), ts[1..]);
      ActsConcat(Abstract(s), ActionOf(s, ts[0]), ActionsOf(P.Apply(s, ts[0]), ts[1..]));
    }
  }

  /** Every run of the protocol is a run of the atomic cache: same probes, same replies. */
  lemma ProtocolRefinesAtomicCache(ts: seq<P.Step>)
    requires R.Runs(P.INIT, ts)
    ensures Acts(Cache(map[], map[]), ActionsOf(P.INIT, ts))
    ensures var a := Result(Cache(map[], map[]), ActionsOf(P.INIT, ts)); var s := R.After(P.INIT, ts);
            && (forall p :: ProbesOf(a, p) == ViewLog(P.LogOf(s, p)))
            && a.calls.Keys == s.callers.Keys
            && (forall c <- s.callers :: P.PcOf(s, c).Done? ==> a.calls[c].status == Answered(P.PcOf(s, c).reply))
  {
    R.InvReached([]);
    SimulateRun(P.INIT, ts);
    assert Abstract(P.INIT) == Cache(map[], map[]);
  }
}
