/** The Playwright step of `agent_playwright.rs`: what is found, how it is judged, and the install. */
module Playwright {
  import opened Prelude
  import opened McpConfig

  const PLAYWRIGHT: string := "playwright"

  type Files = map<string, FileText>

  /** One stock profile's config: where `contained_dest` puts it, or why it may not be written. */
  datatype Layout = Layout(dest: Result<string>, format: Format)

  datatype Entry = Present | Absent | Conflict(server: Server) | Unknown

  function At(files: Files, path: string): Option<FileText> {
    if path in files then Some(files[path]) else None
  }

  function ReadEntryAt(files: Files, layout: Layout, own: Result<string>): Entry {
    if layout.dest.Err? then Unknown
    else
      var servers := ServersIn(At(files, layout.dest.value), layout.format);
      if servers.Err? then Unknown
      else if PLAYWRIGHT !in servers.value then Absent
      else if own.Err? then Unknown
      else
        var server := servers.value[PLAYWRIGHT];
        if server.command == own.value && server.args != [] && server.args[0] == PLAYWRIGHT then Present
        else Conflict(server)
  }

  // ---- Judging ----

  datatype State = Verified | Missing | Unavailable

  /** `entry` is `None` for a profile gavin knows no config for; `host` names a remote machine. */
  datatype Findings = Findings(npx: Result<bool>, browser: Result<bool>, entry: Option<Entry>, own: Result<string>,
    host: Option<string>)

  datatype Status = Status(state: State, installable: bool, conflict: Option<Server>)

  function Assess(f: Findings): Status {
    var conflict := if f.entry.Some? && f.entry.value.Conflict? then Some(f.entry.value.server) else None;
    if f.entry.None? then Status(Unavailable, false, conflict)
    else if f.npx == Ok(false) then Status(Missing, false, conflict)
    else if f.entry.value.Unknown? then Status(Unavailable, false, conflict)
    else if f.browser.Err? then Status(Unavailable, false, conflict)
    else if f.entry.value.Present? && f.browser.value then Status(Verified, false, conflict)
    else if f.own.Err? then Status(Unavailable, false, conflict)
    else if f.host.Some? && !f.browser.value then Status(Missing, false, conflict)
    else Status(Missing, true, conflict)
  }

  /**
   A row is verified exactly when nothing looked for was found missing. Install is offered exactly
   where it can end there: something is missing, every check could be made, gavin's own command is
   known, and a remote machine lacks no browser. The rest is missing or cannot be told.
   */
  lemma AssessMeans(f: Findings)
    ensures Assess(f).state.Verified? <==> f.entry == Some(Present) && f.browser == Ok(true) && f.npx != Ok(false)
    ensures Assess(f).installable <==>
              && !Assess(f).state.Verified? && f.entry.Some? && !f.entry.value.Unknown? && f.npx != Ok(false)
              && f.browser.Ok? && f.own.Ok? && (f.host.None? || f.browser == Ok(true))
    ensures Assess(f).installable ==> Assess(f.(entry := Some(Present), browser := Ok(true))).state.Verified?
    ensures Assess(f).state.Missing? <==>
              f.entry.Some? && (f.npx == Ok(false) || Assess(f).installable ||
                                (!f.entry.value.Unknown? && f.own.Ok? && f.host.Some? && f.browser == Ok(false)))
    ensures Assess(f).conflict == match f.entry { case Some(Conflict(server)) => Some(server) case _ => None }
  {
  }

  /** What the config says of the entry: gavin's own is its command with `playwright` first among the arguments. */
  lemma EntryMeans(files: Files, layout: Layout, own: Result<string>)
    ensures var entry := ReadEntryAt(files, layout, own);
            var servers := if layout.dest.Ok? then ServersIn(At(files, layout.dest.value), layout.format) else Err("");
            && (entry.Absent? <==> servers.Ok? && "playwright" !in servers.value)
            && (entry.Present? <==>
                  && servers.Ok? && "playwright" in servers.value && own == Ok(servers.value["playwright"].command)
                  && ["playwright"] <= servers.value["playwright"].args)
            && (entry.Conflict? <==> servers.Ok? && "playwright" in servers.value && own.Ok? && !entry.Present?)
            && (entry.Conflict? ==> entry.server == servers.value["playwright"])
  {
  }

  // ---- Writing the entries ----

  /** Where the writing loop may leave a layout. */
  predicate Settled(entry: Entry, replace: bool) {
    entry.Present? || entry.Unknown? || (entry.Conflict? && !replace)
  }

  function Rest(text: Option<FileText>): Fields {
    if text.None? then map[]
    else
      match text.value
      case JsonObject(fields) => fields - {Container(JsonLocal), Container(JsonServers)}
      case OtherText(_, toml) => if toml.Some? then toml.value - {Container(TomlServers)} else map[]
  }

  /** A server a dialect read before is still read, raw value and all; `playwright` too, unless replaced. */
  ghost predicate KeepsServer(before: Option<FileText>, after: Option<FileText>, replace: bool, format: Format,
                              name: string) {
    RawServers(before, format).Ok? && name in RawServers(before, format).value && (name != PLAYWRIGHT || !replace) ==>
      RawServers(after, format).Ok? && name in RawServers(after, format).value
      && RawServers(after, format).value[name] == RawServers(before, format).value[name]
  }

  ghost predicate KeepsServers(before: Option<FileText>, after: Option<FileText>, replace: bool) {
    forall format, name :: KeepsServer(before, after, replace, format, name)
  }

  ghost predicate Kept(before: Files, after: Files, replace: bool) {
    && before.Keys <= after.Keys
    && forall path <- after ::
         && Rest(At(after, path)) == Rest(At(before, path))
         && KeepsServers(At(before, path), At(after, path), replace)
  }

  datatype Loop = Finished | Failed | Panicked

  /** What an install answers: a status, an error before anything was attempted, or nothing, when a panic unwinds it. */
  datatype Reply = Reported(status: Status) | NotAttempted | Unwound

  /** The layout wants an entry and cannot have it. */
  ghost predicate StoppedAt(files: Files, layout: Layout, own: string, replace: bool, readOnly: set<string>,
                            end: Loop) {
    && !Settled(ReadEntryAt(files, layout, Ok(own)), replace) && layout.dest.Ok?
    && var written := WriteServer(At(files, layout.dest.value), layout.format, PLAYWRIGHT, own, [PLAYWRIGHT]);
       if layout.dest.value in readOnly then end.Failed?
       else (written.Refused? && end.Failed?) || (written.Panics? && end.Panicked?)
  }

  /** Before the loop: the layout wants an entry, and its file cannot be written, or not merged into. */
  ghost predicate Stops(files: Files, layout: Layout, own: string, replace: bool, readOnly: set<string>) {
    && !Settled(ReadEntryAt(files, layout, Ok(own)), replace) && layout.dest.Ok?
    && (layout.dest.value in readOnly || !Writable(At(files, layout.dest.value), layout.format))
  }

  /** A TOML file that parses and whose container is there and no table. */
  ghost predicate NoTable(files: Files, layout: Layout) {
    layout.dest.Ok? && layout.format.TomlServers? &&
    var document := Document(At(files, layout.dest.value), layout.format);
    document.Ok? && var servers := Get(document.value, Container(layout.format)); servers.Some? && !servers.value.Obj?
  }

  /** Layouts that share a file write it in one family, as the stock ones do. */
  ghost predicate OneFamily(layouts: seq<Layout>) {
    forall i, j | 0 <= i < |layouts| && 0 <= j < |layouts| && layouts[i].dest.Ok?
           && layouts[i].dest == layouts[j].dest ::
      layouts[i].format.TomlServers? == layouts[j].format.TomlServers?
  }

  ghost predicate StopsFirst(files: Files, layouts: seq<Layout>, own: string, replace: bool, readOnly: set<string>,
                             i: nat) {
    && i < |layouts| && Stops(files, layouts[i], own, replace, readOnly)
    && forall j | 0 <= j < i :: !Stops(files, layouts[j], own, replace, readOnly)
  }

  /** The first layout the loop cannot serve is a TOML file it may write and that has no table to write into. */
  ghost predicate PanicsOn(files: Files, layouts: seq<Layout>, own: string, replace: bool, readOnly: set<string>) {
    exists i: nat :: && StopsFirst(files, layouts, own, replace, readOnly, i)
                     && layouts[i].dest.value !in readOnly && NoTable(files, layouts[i])
  }

  lemma PanicsWithoutTable(files: Files, layout: Layout, own: string)
    requires layout.dest.Ok?
    ensures var text := At(files, layout.dest.value);
            && (WriteServer(text, layout.format, PLAYWRIGHT, own, [PLAYWRIGHT]).Wrote? <==>
              Writable(text, layout.format))
            && (WriteServer(text, layout.format, PLAYWRIGHT, own, [PLAYWRIGHT]).Panics? <==> NoTable(files, layout))
  {
  }

  /** Writing one layout leaves what would stop the others as it was. */
  lemma StopsStay(files: Files, written: Layout, own: string, other: Layout, replace: bool, readOnly: set<string>)
    requires written.dest.Ok? && written.dest.value !in readOnly
             && Writable(At(files, written.dest.value), written.format)
    requires other.dest == written.dest ==> other.format.TomlServers? == written.format.TomlServers?
    ensures var text := WriteServer(At(files, written.dest.value), written.format, PLAYWRIGHT, own, [PLAYWRIGHT]).text;
            var after := files[written.dest.value := text];
            && (Stops(after, other, own, replace, readOnly) <==> Stops(files, other, own, replace, readOnly))
            && (NoTable(after, other) <==> NoTable(files, other))
  {
    if other.dest == written.dest {
      var text := At(files, written.dest.value);
      var after := WriteServer(text, written.format, PLAYWRIGHT, own, [PLAYWRIGHT]).text;
      WritableStays(text, written.format, own, other.format);
      WriteSeenBy(text, written.format, PLAYWRIGHT, own, [PLAYWRIGHT], other.format);
      hide WriteServer, ServersIn, Writable;
      assert At(files[written.dest.value := after], other.dest.value) == Some(after);
    }
  }

  lemma WritableStays(text: Option<FileText>, format: Format, own: string, other: Format)
    requires Writable(text, format) && format.TomlServers? == other.TomlServers?
    ensures var after := Some(WriteServer(text, format, PLAYWRIGHT, own, [PLAYWRIGHT]).text);
            && (Writable(after, other) <==> Writable(text, other))
            && (Container(format) == Container(other) ==> Writable(text, other))
            && Document(text, other).Ok? && Document(after, other).Ok?
            && (Container(format) != Container(other) ==>
                  Get(Document(after, other).value, Container(other)) ==
                    Get(Document(text, other).value, Container(other)))
  {
    hide EntryValue;
  }

  /** What would stop a layout is what would have at the start, and nothing has among the first `done`. */
  ghost predicate AsBefore(before: Files, files: Files, layouts: seq<Layout>, own: string, replace: bool,
                           readOnly: set<string>, done: nat) {
    && (forall j | 0 <= j < |layouts| ::
          && (Stops(files, layouts[j], own, replace, readOnly) <==> Stops(before, layouts[j], own, replace, readOnly))
          && (NoTable(files, layouts[j]) <==> NoTable(before, layouts[j])))
    && (forall j | 0 <= j < |layouts| && j < done :: !Stops(before, layouts[j], own, replace, readOnly))
  }

  lemma AsBeforeWritten(before: Files, files: Files, layouts: seq<Layout>, own: string, replace: bool,
                        readOnly: set<string>, i: nat)
    requires OneFamily(layouts) && i < |layouts| && AsBefore(before, files, layouts, own, replace, readOnly, i)
    requires layouts[i].dest.Ok? && layouts[i].dest.value !in readOnly
    requires Writable(At(files, layouts[i].dest.value), layouts[i].format)
    ensures var path := layouts[i].dest.value;
            var text := WriteServer(At(files, path), layouts[i].format, PLAYWRIGHT, own, [PLAYWRIGHT]).text;
            AsBefore(before, files[path := text], layouts, own, replace, readOnly, i + 1)
  {
    hide NoTable, Writable, WriteServer, ReadEntryAt;
    PanicsWithoutTable(files, layouts[i], own);
    var path := layouts[i].dest.value;
    var after := files[path := WriteServer(At(files, path), layouts[i].format, PLAYWRIGHT, own, [PLAYWRIGHT]).text];
    forall j | 0 <= j < |layouts|
      ensures Stops(after, layouts[j], own, replace, readOnly) <==> Stops(files, layouts[j], own, replace, readOnly)
      ensures NoTable(after, layouts[j]) <==> NoTable(files, layouts[j])
    {
      StopsStay(files, layouts[i], own, layouts[j], replace, readOnly);
    }
    assert !Stops(files, layouts[i], own, replace, readOnly);
  }

  /** A file whose `mcp_servers` is a number: it reads as lacking the entry, and writing it panics. */
  lemma NumberForServers(own: string, replace: bool)
    ensures var files: Files := map["config.toml" := OtherText(false, Some(map["mcp_servers" := Number(1)]))];
            var layout := Layout(Ok("config.toml"), TomlServers);
            && ReadEntryAt(files, layout, Ok(own)).Absent?
            && OneFamily([layout]) && PanicsOn(files, [layout], own, replace, {})
  {
    var files: Files := map["config.toml" := OtherText(false, Some(map["mcp_servers" := Number(1)]))];
    var layout := Layout(Ok("config.toml"), TomlServers);
    assert ServersIn(At(files, "config.toml"), TomlServers) == Ok(map[]);
    assert StopsFirst(files, [layout], own, replace, {}, 0);
  }

  lemma WriteKeepsServers(text: Option<FileText>, format: Format, own: string, replace: bool)
    requires Writable(text, format)
    requires !replace ==> PLAYWRIGHT !in RawServers(text, format).value
    ensures var after := Some(WriteServer(text, format, PLAYWRIGHT, own, [PLAYWRIGHT]).text);
            Rest(after) == Rest(text) && KeepsServers(text, after, replace)
  {
    var after := Some(WriteServer(text, format, PLAYWRIGHT, own, [PLAYWRIGHT]).text);
    WriteKeepsRest(text, format, own);
    hide WriteServer, RawServers, Writable;
    forall other, name ensures KeepsServer(text, after, replace, other, name) {
      RawSeenBy(text, format, PLAYWRIGHT, own, [PLAYWRIGHT], other);
      NoOtherFamily(text, format, other);
      SameContainer(text, format, other);
    }
  }

  lemma WriteKeepsRest(text: Option<FileText>, format: Format, own: string)
    requires Writable(text, format)
    ensures Rest(Some(WriteServer(text, format, PLAYWRIGHT, own, [PLAYWRIGHT]).text)) == Rest(text)
  {
    hide EntryValue;
    var fields := Document(text, format).value.fields;
    var after := WriteServer(text, format, PLAYWRIGHT, own, [PLAYWRIGHT]).text;
    if format.TomlServers? {
      assert after.toml.value - {Container(TomlServers)} == fields - {Container(TomlServers)};
    } else {
      assert after.fields - {Container(JsonLocal), Container(JsonServers)} ==
             fields - {Container(JsonLocal), Container(JsonServers)};
    }
  }

  /** A text one family can write, the other reads no server from. */
  lemma NoOtherFamily(text: Option<FileText>, format: Format, other: Format)
    requires Writable(text, format)
    ensures format.TomlServers? != other.TomlServers? ==>
            RawServers(text, other).Err? || RawServers(text, other).value == map[]
  {
  }

  lemma SameContainer(text: Option<FileText>, format: Format, other: Format)
    ensures format.TomlServers? == other.TomlServers? && Container(format) == Container(other) ==>
              RawServers(text, format) == RawServers(text, other)
  {
  }

  lemma KeptRefl(files: Files, replace: bool)
    ensures Kept(files, files, replace)
  {
  }

  lemma KeptThen(a: Files, b: Files, path: string, text: FileText, replace: bool)
    requires Kept(a, b, replace)
    requires Rest(Some(text)) == Rest(At(b, path)) && KeepsServers(At(b, path), Some(text), replace)
    ensures Kept(a, b[path := text], replace)
  {
    hide RawServers, Rest;
    var c := b[path := text];
    forall p <- c ensures Rest(At(c, p)) == Rest(At(a, p)) && KeepsServers(At(a, p), At(c, p), replace) {
      if p == path && p !in b {
        MissingKeeps(text, replace);
      } else if p == path {
        KeepsThen(At(a, p), At(b, p), Some(text), replace);
      } else {
        assert p in b;
      }
    }
  }

  lemma KeepsThen(a: Option<FileText>, b: Option<FileText>, c: Option<FileText>, replace: bool)
    requires KeepsServers(a, b, replace) && KeepsServers(b, c, replace)
    ensures KeepsServers(a, c, replace)
  {
    forall format, name ensures KeepsServer(a, c, replace, format, name) {
      assert KeepsServer(a, b, replace, format, name) && KeepsServer(b, c, replace, format, name);
    }
  }

  lemma MissingKeeps(text: FileText, replace: bool)
    ensures KeepsServers(None, Some(text), replace)
  {
  }

  /** Writing one layout's entry never unsettles another's, whether or not they share the file. */
  lemma StaysSettled(files: Files, written: Layout, own: string, other: Layout, replace: bool)
    requires written.dest.Ok? && Writable(At(files, written.dest.value), written.format)
    requires Settled(ReadEntryAt(files, other, Ok(own)), replace)
    ensures var text := WriteServer(At(files, written.dest.value), written.format, PLAYWRIGHT, own, [PLAYWRIGHT]).text;
            Settled(ReadEntryAt(files[written.dest.value := text], other, Ok(own)), replace)
  {
    hide WriteServer, ServersIn, Writable;
    if other.dest == written.dest {
      WriteSeenBy(At(files, written.dest.value), written.format, PLAYWRIGHT, own, [PLAYWRIGHT], other.format);
    }
  }

  lemma WrittenIsPresent(files: Files, layout: Layout, own: string)
    requires layout.dest.Ok? && Writable(At(files, layout.dest.value), layout.format)
    ensures var text := WriteServer(At(files, layout.dest.value), layout.format, PLAYWRIGHT, own, [PLAYWRIGHT]).text;
            ReadEntryAt(files[layout.dest.value := text], layout, Ok(own)).Present?
  {
    hide WriteServer, ServersIn, Writable;
    WriteSeenBy(At(files, layout.dest.value), layout.format, PLAYWRIGHT, own, [PLAYWRIGHT], layout.format);
  }

  /** An absent entry is in no server list its dialect reads. */
  lemma AbsentIsUnread(files: Files, layout: Layout, own: string)
    requires ReadEntryAt(files, layout, Ok(own)).Absent?
    ensures layout.dest.Ok? && RawServers(At(files, layout.dest.value), layout.format).Ok?
    ensures PLAYWRIGHT !in RawServers(At(files, layout.dest.value), layout.format).value
  {
  }

  /** A layout with no place to write to reads as unknown, so the loop never gets as far as writing it. */
  lemma UnsettledIsPlaced(files: Files, layout: Layout, own: Result<string>, replace: bool)
    requires !Settled(ReadEntryAt(files, layout, own), replace)
    ensures layout.dest.Ok?
  {
  }

  /** What the checks find at one moment. */
  datatype Machine = Machine(npx: Result<bool>, browser: Result<bool>, own: Result<string>, host: Option<string>)

  function Find(machine: Machine, files: Files, profile: Layout): Findings {
    Findings(machine.npx, machine.browser, Some(ReadEntryAt(files, profile, machine.own)), machine.own, machine.host)
  }

  class Configs {
    var files: Files

    constructor (files: Files)
      ensures this.files == files
    {
      this.files := files;
    }

    /**
     gavin's entry, in every layout that lacks it or whose foreign one the human asked to replace.
     `readOnly` holds the paths whose write fails. A loop that finishes leaves every layout settled;
     one that does not has still only ever merged.
     */
    method WriteEntries(layouts: seq<Layout>, own: string, replace: bool, readOnly: set<string>) returns (end: Loop)
      modifies this
      ensures Kept(old(files), files, replace)
      ensures end.Finished? ==> forall i | 0 <= i < |layouts| ::
              Settled(ReadEntryAt(files, layouts[i], Ok(own)), replace)
      ensures !end.Finished? ==> exists i | 0 <= i < |layouts| ::
              StoppedAt(files, layouts[i], own, replace, readOnly, end)
      ensures OneFamily(layouts) ==>
                && (end.Finished? <==> forall i | 0 <= i < |layouts| ::
                  !Stops(old(files), layouts[i], own, replace, readOnly))
                && (end.Panicked? <==> PanicsOn(old(files), layouts, own, replace, readOnly))
    {
      KeptRefl(files, replace);
      hide Kept, KeepsServers, ReadEntryAt, WriteServer, RawServers, Rest, Writable, NoTable;
      for i := 0 to |layouts|
        invariant Kept(old(files), files, replace)
        invariant forall j | 0 <= j < i :: Settled(ReadEntryAt(files, layouts[j], Ok(own)), replace)
        invariant OneFamily(layouts) ==> AsBefore(old(files), files, layouts, own, replace, readOnly, i)
      {
        var layout := layouts[i];
        var entry := ReadEntryAt(files, layout, Ok(own));
        var write := entry.Absent? || (entry.Conflict? && replace);
        if write {
          UnsettledIsPlaced(files, layout, Ok(own), replace);
          var path := layout.dest.value;
          PanicsWithoutTable(files, layout, own);
          if path in readOnly {
            assert StoppedAt(files, layouts[i], own, replace, readOnly, Failed);
            return Failed;
          }
          var written := WriteServer(At(files, path), layout.format, PLAYWRIGHT, own, [PLAYWRIGHT]);
          if written.Refused? {
            assert StoppedAt(files, layouts[i], own, replace, readOnly, Failed);
            return Failed;
          }
          if written.Panics? {
            assert StoppedAt(files, layouts[i], own, replace, readOnly, Panicked);
            return Panicked;
          }
          WriteThenRead(At(files, path), layout.format, PLAYWRIGHT, own, [PLAYWRIGHT]);
          if !replace {
            AbsentIsUnread(files, layout, own);
          }
          WriteKeepsServers(At(files, path), layout.format, own, replace);
          KeptThen(old(files), files, path, written.text, replace);
          WrittenIsPresent(files, layout, own);
          forall j | 0 <= j < i
            ensures Settled(ReadEntryAt(files[path := written.text], layouts[j], Ok(own)), replace)
          {
            StaysSettled(files, layout, own, layouts[j], replace);
          }
          if OneFamily(layouts) {
            AsBeforeWritten(old(files), files, layouts, own, replace, readOnly, i);
          }
          files := files[path := written.text];
        }
      }
      return Finished;
    }

    /**
     The install. `asked` is the asked profile's layout, one of the stock ones, or nothing for an
     agent whose config gavin does not know. The checks run before, the browser's again before
     anything is written, and all of them after, unless the loop's panic unwinds the call.
     */
    method Install(rootIsDir: bool, layouts: seq<Layout>, asked: Option<Layout>, replace: bool, readOnly: set<string>,
                   before: Machine, browserNow: Result<bool>, later: Machine)
      returns (reply: Reply, downloaded: bool, end: Option<Loop>)
      requires asked.Some? ==> asked.value in layouts
      modifies this
      ensures Kept(old(files), files, replace)
      ensures reply.NotAttempted? <==> !rootIsDir || asked.None?
      ensures reply.NotAttempted? ==> !downloaded && end.None?
      ensures reply.Unwound? <==> end == Some(Panicked)
      ensures OneFamily(layouts) ==>
                (reply.Unwound? <==>
                   && rootIsDir && asked.Some? && before.npx != Ok(false) && browserNow == Ok(true) && before.own.Ok?
                   && PanicsOn(old(files), layouts, before.own.value, replace, readOnly))
      ensures !reply.NotAttempted? ==> (downloaded <==> before.npx != Ok(false) && before.browser != Ok(true))
      ensures !reply.NotAttempted? ==>
              (end.Some? <==> before.npx != Ok(false) && browserNow == Ok(true) && before.own.Ok?)
      ensures end.None? ==> files == old(files)
      ensures end == Some(Finished) ==> forall i | 0 <= i < |layouts| ::
              Settled(ReadEntryAt(files, layouts[i], before.own), replace)
      ensures end.Some? && !end.value.Finished? ==>
                exists i | 0 <= i < |layouts| ::
                       StoppedAt(files, layouts[i], before.own.value, replace, readOnly, end.value)
      ensures reply.Reported? && reply.status.state.Verified? ==>
                before.npx != Ok(false) && later.npx != Ok(false) && later.browser == Ok(true)
                  && ReadEntryAt(files, asked.value, later.own).Present?
      ensures end == Some(Finished) && later.own == before.own && later.npx != Ok(false)
              && later.browser == Ok(true) ==>
                || reply.status.state.Verified?
                || (reply.status.state.Missing? && reply.status.conflict.Some? && !replace)
                || (reply.status.state.Unavailable? && ReadEntryAt(files, asked.value, before.own).Unknown?)
    {
      KeptRefl(files, replace);
      downloaded, end := false, None;
      if !rootIsDir || asked.None? {
        return NotAttempted, false, None;
      }
      var profile := asked.value;
      if before.npx == Ok(false) {
        return Reported(Assess(Find(before, files, profile))), false, None;
      }
      downloaded := before.browser != Ok(true);
      hide Kept, ReadEntryAt, StoppedAt, PanicsOn;
      if browserNow == Ok(true) && before.own.Ok? {
        var ended := WriteEntries(layouts, before.own.value, replace, readOnly);
        end := Some(ended);
        if ended.Panicked? {
          return Unwound, downloaded, end;
        }
      }
      reply := Reported(Assess(Find(later, files, profile)));
    }
  }
}
