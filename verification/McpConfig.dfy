/**
 The MCP server entries gavin merges into an agent's config file (`agent_setup.rs`), in four
 dialects. A document is a tree; how a text is spelled, and what a TOML file keeps of its
 comments and order, is the parsers' business.
 */
module McpConfig {
  import opened Prelude

  datatype Value = Null | Bool(b: bool) | Number(n: int) | Str(s: string) | Arr(items: seq<Value>) | Obj(fields: Fields)

  type Fields = map<string, Value>

  /**
   A file's text by what the two parsers make of it. A text that is a JSON object opens with a
   brace and is never TOML; any other may be JSON of another kind, TOML, both or neither.
   */
  datatype FileText = JsonObject(fields: Fields) | OtherText(isJson: bool, toml: Option<Fields>)

  datatype Format = JsonServers | JsonServersStdio | JsonLocal | TomlServers

  datatype Server = Server(command: string, args: seq<string>)

  function Container(format: Format): string {
    match format
    case JsonLocal => "mcp"
    case JsonServers => "mcpServers"
    case JsonServersStdio => "mcpServers"
    case TomlServers => "mcp_servers"
  }

  function Strings(items: seq<string>): (values: seq<Value>)
    ensures |values| == |items|
  {
    if items == [] then [] else [Str(items[0])] + Strings(items[1..])
  }

  function EntryValue(format: Format, command: string, args: seq<string>): Value {
    match format
    case JsonLocal => Obj(map["type" := Str("local"), "command" := Arr(Strings([command] + args)),
      "enabled" := Bool(true)])
    case JsonServersStdio => Obj(map["type" := Str("stdio"), "command" := Str(command), "args" := Arr(Strings(args))])
    case JsonServers => Obj(map["command" := Str(command), "args" := Arr(Strings(args))])
    case TomlServers => Obj(map["command" := Str(command), "args" := Arr(Strings(args))])
  }

  // ---- Reading ----

  function Get(value: Value, key: string): Option<Value> {
    if value.Obj? && key in value.fields then Some(value.fields[key]) else None
  }

  function StringsIn(items: seq<Value>): seq<string> {
    if items == [] then [] else (if items[0].Str? then [items[0].s] else []) + StringsIn(items[1..])
  }

  function StringArray(value: Option<Value>): seq<string> {
    if value.Some? && value.value.Arr? then StringsIn(value.value.items) else []
  }

  function StringOr(value: Option<Value>): string {
    if value.Some? && value.value.Str? then value.value.s else ""
  }

  /** An entry as the disclosure shows it, read defensively: what has another shape is dropped. */
  function ReadEntry(entry: Value, format: Format): Server {
    if format.JsonLocal? then
      var parts := StringArray(Get(entry, "command"));
      if parts == [] then Server("", []) else Server(parts[0], parts[1..])
    else Server(StringOr(Get(entry, "command")), StringArray(Get(entry, "args")))
  }

  /** The document a dialect sees in a text, when it parses at all. A missing file is an empty one. */
  function Document(text: Option<FileText>, format: Format): Result<Value> {
    if text.None? then Ok(Obj(map[]))
    else
      match text.value
      case JsonObject(fields) => if format.TomlServers? then Err("not valid TOML") else Ok(Obj(fields))
      case OtherText(isJson, toml) =>
        if format.TomlServers? then (if toml.Some? then Ok(Obj(toml.value)) else Err("not valid TOML"))
        else if isJson then Ok(Null) else Err("not valid JSON")
  }

  /** The raw entries of the dialect's container; none when it is missing or of another shape. */
  function RawServers(text: Option<FileText>, format: Format): Result<Fields> {
    var document := Document(text, format);
    if document.Err? then Err(document.error)
    else
      var servers := Get(document.value, Container(format));
      Ok(if servers.Some? && servers.value.Obj? then servers.value.fields else map[])
  }

  function ServersIn(text: Option<FileText>, format: Format): Result<map<string, Server>> {
    var raw := RawServers(text, format);
    if raw.Err? then Err(raw.error) else Ok(ReadAll(raw.value, format))
  }

  function ReadAll(raw: Fields, format: Format): map<string, Server> {
    map name | name in raw :: ReadEntry(raw[name], format)
  }

  lemma ReadAllUpdate(raw: Fields, format: Format, key: string, entry: Value)
    ensures ReadAll(raw[key := entry], format) == ReadAll(raw, format)[key := ReadEntry(entry, format)]
  {
  }

  // ---- Writing and removing ----

  /** `Panics` is the TOML editor's answer to indexing into a value that is no table. */
  datatype Written = Wrote(text: FileText) | Refused(why: string) | Panics

  /** The text a dialect writes its document back as. */
  function TextOf(fields: Fields, format: Format): FileText {
    if format.TomlServers? then OtherText(false, Some(fields)) else JsonObject(fields)
  }

  function WriteServer(text: Option<FileText>, format: Format, key: string, command: string,
                       args: seq<string>): Written {
    var document := Document(text, format);
    if document.Err? then Refused(document.error)
    else if !document.value.Obj? then Refused("not a JSON object")
    else
      var fields, container := document.value.fields, Container(format);
      var servers := if container in fields then fields[container] else Obj(map[]);
      if !servers.Obj? then (if format.TomlServers? then Panics else Refused("not a JSON object"))
      else Wrote(TextOf(fields[container := Obj(servers.fields[key := EntryValue(format, command, args)])], format))
  }

  /** The text without the entry; `None` when there was nothing to remove. */
  function RemoveServer(text: Option<FileText>, format: Format, key: string): Result<Option<FileText>> {
    if text.None? then Ok(None)
    else
      var document := Document(text, format);
      if document.Err? then Err(document.error)
      else
        var servers := Get(document.value, Container(format));
        if servers.None? || !servers.value.Obj? || key !in servers.value.fields then Ok(None)
        else Ok(Some(TextOf(document.value.fields[Container(format) := Obj(servers.value.fields - {key})], format)))
  }

  // ---- What the writer promises ----

  lemma StringsReadBack(items: seq<string>)
    ensures StringsIn(Strings(items)) == items
  {
  }

  lemma EntryReadsBack(format: Format, command: string, args: seq<string>)
    ensures ReadEntry(EntryValue(format, command, args), format) == Server(command, args)
  {
    StringsReadBack(args);
    StringsReadBack([command] + args);
  }

  /** A file is written exactly when it parses to a table whose container, if there, is a table. */
  predicate Writable(text: Option<FileText>, format: Format) {
    Document(text, format).Ok? && Document(text, format).value.Obj? &&
    (Container(format) in Document(text, format).value.fields ==>
      Document(text, format).value.fields[Container(format)].Obj?)
  }

  /** Reading back what was written: this entry as given, every other server and every other key as it was. */
  lemma WriteThenRead(text: Option<FileText>, format: Format, key: string, command: string, args: seq<string>)
    ensures WriteServer(text, format, key, command, args).Wrote? <==> Writable(text, format)
    ensures Writable(text, format) ==>
              var after := Some(WriteServer(text, format, key, command, args).text);
              && Writable(after, format)
              && ServersIn(text, format).Ok? && RawServers(after, format).Ok?
              && ServersIn(after, format) == Ok(ServersIn(text, format).value[key := Server(command, args)])
              && RawServers(after, format).value - {key} == RawServers(text, format).value - {key}
              && Document(after, format).value.fields - {Container(format)} ==
                Document(text, format).value.fields - {Container(format)}
  {
    hide EntryValue, ReadEntry, ReadAll;
    EntryReadsBack(format, command, args);
    if Writable(text, format) {
      WrittenRaw(text, format, key, command, args);
      var raw, entry := RawServers(text, format).value, EntryValue(format, command, args);
      assert raw[key := entry] - {key} == raw - {key};
      ReadAllUpdate(raw, format, key, entry);
      hide WriteServer, RawServers;
    }
  }

  lemma WrittenRaw(text: Option<FileText>, format: Format, key: string, command: string, args: seq<string>)
    requires Writable(text, format)
    ensures var after := Some(WriteServer(text, format, key, command, args).text);
            && Writable(after, format) && RawServers(text, format).Ok?
            && RawServers(after, format) == Ok(RawServers(text, format).value[key := EntryValue(format, command, args)])
            && Document(after, format).value.fields - {Container(format)} ==
               Document(text, format).value.fields - {Container(format)}
  {
    hide EntryValue;
  }

  /** The last write wins, so writing the same entry again changes nothing. */
  lemma WriteTwice(text: Option<FileText>, format: Format, key: string, command: string, args: seq<string>,
                   again: string, more: seq<string>)
    requires Writable(text, format)
    ensures var once := WriteServer(text, format, key, command, args).text;
            && WriteServer(Some(once), format, key, again, more) == WriteServer(text, format, key, again, more)
            && WriteServer(Some(once), format, key, command, args) == Wrote(once)
  {
    var fields, container := Document(text, format).value.fields, Container(format);
    var servers := if container in fields then fields[container].fields else map[];
    var first, second := EntryValue(format, command, args), EntryValue(format, again, more);
    assert servers[key := first][key := second] == servers[key := second];
    assert fields[container := Obj(servers[key := first])][container := Obj(servers[key := second])] ==
           fields[container := Obj(servers[key := second])];
    assert servers[key := first][key := first] == servers[key := first];
    assert fields[container := Obj(servers[key := first])][container := Obj(servers[key := first])] ==
           fields[container := Obj(servers[key := first])];
  }

  /** The document with its container replaced, made if there was none. */
  function WithServers(text: FileText, format: Format, servers: Fields): Value
    requires Writable(Some(text), format)
  {
    Obj(Document(Some(text), format).value.fields[Container(format) := Obj(servers)])
  }

  lemma WrittenThenRemoved(text: FileText, format: Format, key: string, command: string, args: seq<string>)
    requires Writable(Some(text), format)
    ensures var after := WriteServer(Some(text), format, key, command, args).text;
            var removed := RemoveServer(Some(after), format, key);
            && removed.Ok? && removed.value.Some?
            && Document(removed.value, format) ==
              Ok(WithServers(text, format, RawServers(Some(text), format).value - {key}))
  {
    hide EntryValue;
    var fields, container := Document(Some(text), format).value.fields, Container(format);
    var servers, entry := RawServers(Some(text), format).value, EntryValue(format, command, args);
    var between := fields[container := Obj(servers[key := entry])];
    assert Document(Some(WriteServer(Some(text), format, key, command, args).text), format) == Ok(Obj(between));
    assert servers[key := entry] - {key} == servers - {key};
    assert between[container := Obj(servers - {key})] == fields[container := Obj(servers - {key})];
  }

  /** Removal undoes the write exactly when the container was there and the key was not. */
  lemma RemoveUndoesWrite(text: FileText, format: Format, key: string, command: string, args: seq<string>)
    requires Writable(Some(text), format)
    ensures var after := WriteServer(Some(text), format, key, command, args).text;
            var removed := RemoveServer(Some(after), format, key);
            && removed.Ok? && removed.value.Some?
            && (Document(removed.value, format) == Document(Some(text), format) <==>
                  Get(Document(Some(text), format).value, Container(format)).Some?
                    && key !in RawServers(Some(text), format).value)
  {
    hide WriteServer, RemoveServer;
    WrittenThenRemoved(text, format, key, command, args);
    var fields, container := Document(Some(text), format).value.fields, Container(format);
    var servers := RawServers(Some(text), format).value;
    if container in fields && key !in servers {
      assert servers - {key} == servers && fields[container] == Obj(servers);
      assert fields[container := Obj(servers)] == fields;
    } else if container in fields {
      assert fields[container] == Obj(servers) && key !in servers - {key};
    }
  }

  lemma EntryReadsAcross(format: Format, other: Format, command: string, args: seq<string>)
    requires Container(format) == Container(other)
    ensures ReadEntry(EntryValue(format, command, args), other) == Server(command, args)
  {
    EntryReadsBack(format, command, args);
    StringsReadBack(args);
  }

  /** One file seen raw in two dialects, after a write in the first. */
  lemma RawSeenBy(text: Option<FileText>, format: Format, key: string, command: string, args: seq<string>,
                  other: Format)
    requires Writable(text, format)
    ensures var after := Some(WriteServer(text, format, key, command, args).text);
            if format.TomlServers? != other.TomlServers? then RawServers(after, other).Err?
            else if Container(format) == Container(other) then
              && RawServers(text, other).Ok?
              && RawServers(after, other) == Ok(RawServers(text, other).value[key := EntryValue(format, command, args)])
            else RawServers(after, other) == RawServers(text, other)
  {
    hide EntryValue;
  }

  /**
   One file read in two dialects. A write in one leaves the other's container as it was, gives it
   the same entry when they share the container, or, across JSON and TOML, leaves it unreadable.
   */
  lemma WriteSeenBy(text: Option<FileText>, format: Format, key: string, command: string, args: seq<string>,
                    other: Format)
    requires Writable(text, format)
    ensures var after := Some(WriteServer(text, format, key, command, args).text);
            if format.TomlServers? != other.TomlServers? then ServersIn(after, other).Err?
            else if Container(format) == Container(other) then
              && ServersIn(text, other).Ok?
              && ServersIn(after, other) == Ok(ServersIn(text, other).value[key := Server(command, args)])
            else ServersIn(after, other) == ServersIn(text, other)
  {
    hide WriteServer, RawServers, Writable, EntryValue, ReadEntry, ReadAll;
    RawSeenBy(text, format, key, command, args, other);
    if Container(format) == Container(other) && format.TomlServers? == other.TomlServers? {
      EntryReadsAcross(format, other, command, args);
      ReadAllUpdate(RawServers(text, other).value, other, key, EntryValue(format, command, args));
    }
  }

  // ---- The dialects, spelled out ----

  /** What a first write puts into no file at all, in each dialect, key by key. */
  lemma FirstWrite(key: string, command: string, args: seq<string>)
    ensures WriteServer(None, JsonServers, key, command, args) ==
            Wrote(JsonObject(map["mcpServers" := Obj(map[key :=
              Obj(map["command" := Str(command), "args" := Arr(Strings(args))])])]))
    ensures WriteServer(None, JsonServersStdio, key, command, args) ==
            Wrote(JsonObject(map["mcpServers" := Obj(map[key :=
              Obj(map["type" := Str("stdio"), "command" := Str(command), "args" := Arr(Strings(args))])])]))
    ensures WriteServer(None, JsonLocal, key, command, args) ==
            Wrote(JsonObject(map["mcp" := Obj(map[key :=
              Obj(map["type" := Str("local"), "command" := Arr(Strings([command] + args)),
                "enabled" := Bool(true)])])]))
    ensures WriteServer(None, TomlServers, key, command, args) ==
            Wrote(OtherText(false, Some(map["mcp_servers" := Obj(map[key :=
              Obj(map["command" := Str(command), "args" := Arr(Strings(args))])])])))
  {
    var none: Fields := map[];
    forall value ensures none[key := value] == map[key := value] {
    }
    FirstContainer(JsonServers, key, EntryValue(JsonServers, command, args));
    FirstContainer(JsonServersStdio, key, EntryValue(JsonServersStdio, command, args));
    FirstContainer(JsonLocal, key, EntryValue(JsonLocal, command, args));
    FirstContainer(TomlServers, key, EntryValue(TomlServers, command, args));
  }

  lemma FirstContainer(format: Format, key: string, entry: Value)
    ensures var none: Fields := map[];
            none[Container(format) := Obj(none[key := entry])] == map[Container(format) := Obj(map[key := entry])]
  {
    var none: Fields := map[];
    assert none[key := entry] == map[key := entry];
  }

  /** The strings written, one by one. */
  lemma {:induction false} StringsAre(items: seq<string>)
    ensures |Strings(items)| == |items| && forall i | 0 <= i < |items| :: Strings(items)[i] == Str(items[i])
  {
    if items != [] {
      StringsAre(items[1..]);
    }
  }

  /** Of a foreign entry's array what is no string is dropped and the rest kept in order. */
  lemma {:induction false} StringsInOver(a: seq<Value>, b: seq<Value>)
    ensures StringsIn(a + b) == StringsIn(a) + StringsIn(b)
    ensures forall s :: StringsIn([Str(s)]) == [s]
    ensures forall v: Value :: !v.Str? ==> StringsIn([v]) == []
    decreases |a|
  {
    forall v: Value ensures StringsIn([v]) == if v.Str? then [v.s] else [] {
      assert [v][1..] == [];
    }
    if a == [] {
      assert a + b == b;
    } else {
      assert (a + b)[1..] == a[1..] + b;
      StringsInOver(a[1..], b);
    }
  }

  /** A foreign entry in the shape of its dialect reads as it says; a missing or odd field as empty. */
  lemma ForeignEntryReads(fields: Fields, format: Format)
    ensures var server := ReadEntry(Obj(fields), format);
            if format.JsonLocal? then
              var parts := if "command" in fields && fields["command"].Arr? then StringsIn(fields["command"].items)
                           else [];
              if parts == [] then server == Server("", []) else [server.command] + server.args == parts
            else
              && server.command == (if "command" in fields && fields["command"].Str? then fields["command"].s else "")
              && server.args == (if "args" in fields && fields["args"].Arr? then StringsIn(fields["args"].items)
                else [])
  {
  }

  /** A text neither parser makes anything of is neither read, written nor edited, in any dialect. */
  lemma MalformedIsLeft(format: Format, key: string, command: string, args: seq<string>)
    ensures var text := OtherText(false, None);
            && ServersIn(Some(text), format).Err?
            && WriteServer(Some(text), format, key, command, args).Refused?
            && RemoveServer(Some(text), format, key).Err?
  {
  }
}
