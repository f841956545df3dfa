/**
 The usage cache of `agent_usage.rs`: the entries it keeps, what they may answer without a
 real call, and what a real call leaves behind. The three functions below are the bodies of
 the sections the source runs while it holds the `entries` mutex; the class holds the same
 sections as they update the map, and `UsageProtocol` interleaves them.
 */
module UsageCache {
  import opened Prelude

  const MIN_INTERVAL_SECS: int := 120
  const RATE_LIMITED := "the usage endpoint rate-limited gavin"

  datatype UsageWindow = UsageWindow(id: string, title: string, usedPercent: real, resetsAt: Option<int>)

  datatype UsageReport =
    | Ready(windows: seq<UsageWindow>, plan: Option<string>, observedAt: int, cached: bool)
    | Unsupported
    | Unavailable(reason: string, retryAfter: Option<int>)
  {
    function AsCached(): UsageReport {
      if Ready? then this.(cached := true) else this
    }
  }

  datatype Entry = Entry(report: UsageReport, fetchedAt: int, parkedUntil: Option<int>, generation: nat)

  type Entries = map<string, Entry>

  function GenerationOf(entries: Entries, profile: string): nat {
    if profile in entries then entries[profile].generation else 0
  }

  /** A refusal while a park stands, else the last report where it will do, else nothing. */
  function AnswerOf(entries: Entries, profile: string, force: bool, askedAt: nat, now: int): Option<UsageReport> {
    if profile !in entries then None
    else
      var entry := entries[profile];
      if entry.parkedUntil.Some? && now < entry.parkedUntil.value then
        Some(Unavailable(RATE_LIMITED, entry.parkedUntil))
      else if entry.generation != askedAt || (now - entry.fetchedAt < MIN_INTERVAL_SECS && !force) then
        Some(entry.report.AsCached())
      else None
  }

  function StoreOf(entries: Entries, profile: string, now: int, report: UsageReport, park: Option<int>): Entries {
    entries[profile := Entry(report, now, park, GenerationOf(entries, profile) + 1)]
  }

  /** A report as it is served from the cache: marked so, and nothing else of it changed. */
  lemma ServedAsItWas(report: UsageReport)
    ensures forall windows, plan, observedAt, cached :: report == Ready(windows, plan, observedAt, cached) ==>
              report.AsCached() == Ready(windows, plan, observedAt, true)
    ensures !report.Ready? ==> report.AsCached() == report
  {
  }

  /**
   What the cache answers, with nothing left to a name: it refuses exactly while the clock is before
   the park's end, forced or not; else it serves exactly what landed since the caller asked or,
   unforced, what is less than two minutes old.
   */
  lemma AnswersExactly(entries: Entries, profile: string, force: bool, askedAt: nat, now: int)
    ensures var answer := AnswerOf(entries, profile, force, askedAt, now);
            if profile !in entries then answer.None?
            else
              var e := entries[profile];
              if e.parkedUntil.Some? && now < e.parkedUntil.value then
                answer == Some(Unavailable("the usage endpoint rate-limited gavin", e.parkedUntil))
              else if e.generation != askedAt || (!force && now < e.fetchedAt + 120) then
                answer == Some(e.report.AsCached())
              else answer.None?
  {
  }

  /**
   Whoever asked before a probe was stored is answered by it, forcing or not, unless it parked;
   other profiles are not.
   */
  lemma StoredProbeAnswers(entries: Entries, profile: string, now: int, report: UsageReport, park: Option<int>,
                           other: string, force: bool, askedAt: nat, at: int)
    requires askedAt <= GenerationOf(entries, other)
    ensures AnswerOf(StoreOf(entries, profile, now, report, park), other, force, askedAt, at) ==
            if other != profile then AnswerOf(entries, other, force, askedAt, at)
            else if park.Some? && at < park.value then Some(Unavailable(RATE_LIMITED, park))
            else Some(report.AsCached())
  {
  }

  /** Whoever asks after it needs a probe of their own exactly when its park is over and, unforced, the floor is. */
  lemma StoredProbeHolds(entries: Entries, profile: string, now: int, report: UsageReport, park: Option<int>,
                         force: bool, at: int)
    ensures var after := StoreOf(entries, profile, now, report, park);
            AnswerOf(after, profile, force, GenerationOf(after, profile), at).None? <==>
            (park.None? || park.value <= at) && (force || now + MIN_INTERVAL_SECS <= at)
  {
  }

  class Cache {
    var entries: Entries

    constructor ()
      ensures entries == map[]
    {
      entries := map[];
    }

    method Generation(profile: string) returns (generation: nat)
      ensures generation == GenerationOf(entries, profile)
    {
      if profile in entries {
        generation := entries[profile].generation;
      } else {
        generation := 0;
      }
    }

    method Answer(profile: string, force: bool, askedAt: nat, now: int) returns (answer: Option<UsageReport>)
      ensures answer == AnswerOf(entries, profile, force, askedAt, now)
    {
      if profile !in entries {
        return None;
      }
      var entry := entries[profile];
      if entry.parkedUntil.Some? {
        var until := entry.parkedUntil.value;
        if now < until {
          return Some(Unavailable(RATE_LIMITED, Some(until)));
        }
      }
      var landedSinceAsked := entry.generation != askedAt;
      var isFresh := now - entry.fetchedAt < MIN_INTERVAL_SECS;
      if landedSinceAsked || (isFresh && !force) {
        return Some(entry.report.AsCached());
      }
      return None;
    }

    method Store(profile: string, now: int, report: UsageReport, park: Option<int>)
      modifies this
      ensures entries == StoreOf(old(entries), profile, now, report, park)
    {
      var generation := Generation(profile);
      entries := entries[profile := Entry(report, now, park, generation + 1)];
    }

    /**
     One caller with nobody beside it. The clock is read once before each check and the
     probe's answer is an input. A caller that is alone is answered from the cache exactly
     when a park is in force or the last probe is fresh and the caller does not force; at
     most one probe is made, and only it changes the cache.
     */
    method Read(profile: string, force: bool, first: int, second: int, report: UsageReport, park: Option<int>)
      returns (reply: UsageReport, probed: bool)
      modifies this
      ensures probed ==> reply == report && entries == StoreOf(old(entries), profile, second, report, park)
      ensures !probed ==> entries == old(entries) && profile in entries
      ensures probed <==> profile !in old(entries) || forall now | now in [first, second] ::
                  && (old(entries)[profile].parkedUntil.None? || old(entries)[profile].parkedUntil.value <= now)
                  && (force || old(entries)[profile].fetchedAt + MIN_INTERVAL_SECS <= now)
      ensures !probed ==> exists now | now in [first, second] ::
                var park := entries[profile].parkedUntil;
                reply == if park.Some? && now < park.value then Unavailable(RATE_LIMITED, park)
                         else entries[profile].report.AsCached()
    {
      var askedAt := Generation(profile);
      var answer := Answer(profile, force, askedAt, first);
      if answer.Some? {
        assert first in [first, second];
        return answer.value, false;
      }
      answer := Answer(profile, force, askedAt, second);
      if answer.Some? {
        assert second in [first, second];
        return answer.value, false;
      }
      Store(profile, second, report, park);
      return report, true;
    }
  }
}
