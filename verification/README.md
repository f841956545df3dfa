# Gavin's host, modelled in Dafny

Gavin drives coding agents from a Tauri host written in Rust. This project models the six modules of
that host with the hardest promises and proves those promises over every input, every run and every
interleaving. Files, links, clocks, network answers, parsed documents and the judgement of a shell
command are inputs of the model.

| module | what it models |
| --- | --- |
| `UsageCache`, `UsageProtocol`, `UsageRuns`, `AtomicUsage` | the usage cache: its methods, its locking under any number of callers, what holds over whole runs, and the atomic cache it refines |
| `Gemini` | the Gemini probe and the one access token it remembers |
| `Calendar`, `Rfc3339` | day numbers and instants; Rust's truncating division is written out |
| `Text`, `Prelude` | string operations and shared values |
| `InstructionsBlock` | the marker block in an instructions file |
| `McpConfig`, `Playwright` | MCP server entries in four dialects, and the install that writes them |
| `TuiMode` | the one line edited in kimi's `tui.toml` |
| `Disk`, `Containment`, `Resolve` | a file system with links, destinations kept under a root, paths resolved as far as they exist |
| `CheckoutMarks` | the marks by which a human trusts a checkout's launcher |
| `Tokens`, `Rollouts`, `TokenCache`, `TokenWindows` | what a run cost, finding its transcript, the cache of the answers, and which writes a cached answer is exact against |
| `Edits` | which changed files a run touched |
| `PlainText` | terminal output read as the screen showed it |

Verify with `dafny verify dfyconfig.toml` (Dafny 4.11).

## Where the code does less than it says

Each of these is stated as a lemma with the exact condition, or with an input that shows it.

- An instant spelled with a lower-case `t` is not read, and a lower-case `z` with no fraction before it
  loses its seconds, though section 5.6 of RFC 3339 admits both (`Rfc3339.RoundTrip`).
- A cached token report is of texts no older than what the call observed, not of those texts
  (`TokenWindows.ExactByWrites` has the exact condition). A write between the stat and the read of
  the call that built it is reported early (`TokenCache.OnlyTheWindowDisturbs`,
  `TokenCache.ReportOfALaterText`); in a session of several wires a write between two stats of the call
  that is served does the same; and a wire made after the listing is missing from the report until a
  later write moves the newest mtime (`TokenCache.ReportWithoutANewFile`).
- An assistant record without usage still takes its id, so a later record of the same message is not
  counted; where same-id records cost differently, which comes first decides (`Tokens.SwappedRecords`).
- A path with more links than one resolution follows is resolved only partly, and resolves further
  when resolved again (`Resolve.ResolveIsIdempotent`, `Resolve.ResolvedOnlyHalfway`).
- Removing the instructions block restores the file only when it was empty or ended in exactly one
  newline (`InstructionsBlock.RemoveUndoesWrite`); a block body with a heading line of its own makes the
  Learned section grow (`InstructionsBlock.WriteTwice`); and a file that has lost its end marker loses,
  on the second write, the text after the start marker up to its first heading line, or all of it when
  there is none (`InstructionsBlock.HalfBlockRewritten`, `InstructionsBlock.HalfBlockSwallowsText`,
  `InstructionsBlock.HalfBlockKeepsSection`).
- Removing an MCP entry leaves an empty container where there was none
  (`McpConfig.RemoveUndoesWrite`).
- A TOML config whose `mcp_servers` is no table reads as having no `playwright` server, and writing one
  panics: the install then answers nothing (`Playwright.Configs.Install` has the exact condition on the
  files as they were, `Playwright.NumberForServers` an input).
- A check that sees changed launcher bytes but cannot write the mark store leaves the mark, so restored
  bytes are trusted again (`CheckoutMarks.UnwrittenCheckForgets`).

## Model

| member | source | states |
|---|---|---|
| `UsageCache.StoredProbeAnswers` | app/src-tauri/src/agent_usage.rs:208-240 | whoever asked before a probe was stored is answered by it, forcing or not, unless it parked; no other profile's answer changes |
| `UsageCache.StoredProbeHolds` | app/src-tauri/src/agent_usage.rs:208-240 | whoever asks after it needs a probe exactly when it did not park and, unforced, the floor is over |
| `UsageCache.AnswersExactly` | app/src-tauri/src/agent_usage.rs:224-241 | the cache refuses exactly while the clock is before the park's end, forced or not, serves exactly what landed since the caller asked or, unforced, is under two minutes old, and else answers nothing |
| `UsageCache.ServedAsItWas` | app/src-tauri/src/agent_usage.rs:224-241 | a report served from the cache is marked so and otherwise unchanged |
| `UsageCache.Cache.Read` | app/src-tauri/src/agent_usage.rs:170-216 | for a lone caller: a probe is made exactly when neither check finds a park in force or (unforced) the floor not yet over; only a probe changes the entries; a reply without one is the refusal or the cached report, by the park at one of the two clock readings |
| `UsageProtocol.InvStep` | app/src-tauri/src/agent_usage.rs:187-216 | every step of any caller keeps the books of locks, slots, entries and callers: who holds which lock, that the generation counts the stored probes, and that nobody probes while the cache could answer |
| `UsageProtocol.SlotExcludes` | app/src-tauri/src/agent_usage.rs:197-200 | two callers past the same profile's slot are one caller |
| `UsageRuns.InvReached` | app/src-tauri/src/agent_usage.rs:187-216 | the invariant in every state any interleaving reaches, panicking probes included |
| `UsageRuns.AtMostOneProbe` | app/src-tauri/src/agent_usage.rs:151-170 | at most one probe per profile is in flight |
| `UsageRuns.GenerationCountsStores` | app/src-tauri/src/agent_usage.rs:141-145 | the generation is the number of probes stored in the run |
| `UsageRuns.CohortStoresOnce` | app/src-tauri/src/agent_usage.rs:218-239 | of any set of callers that have asked by some moment, no probe is stored after the very next one |
| `UsageRuns.ArrivedIsCohort` | app/src-tauri/src/agent_usage.rs:176-182 | every caller that has read its generation belongs to such a set |
| `UsageRuns.ConsecutiveProbes` | app/src-tauri/src/agent_usage.rs:203-215 | of two consecutive stored probes the second's caller read the generation the first left, started under no park of it and, unforced, no sooner than the floor after it started |
| `UsageRuns.ProbeInFlight` | app/src-tauri/src/agent_usage.rs:203-211 | the same for a probe not yet stored: it runs under no park in force, forced or not, and unforced only past the floor |
| `UsageRuns.DueCallerProbes` | app/src-tauri/src/agent_usage.rs:203-211 | and conversely a caller at its second check probes exactly when nothing was stored since it asked, its clock is past the last park's end and, unforced, past the floor |
| `UsageRuns.SomeoneMoves` | app/src-tauri/src/agent_usage.rs:180-216 | no deadlock: while a caller is unfinished some caller can take its next step |
| `UsageRuns.CallReturns` | app/src-tauri/src/agent_usage.rs:187-216 | a caller is finished after at most fifteen steps of its own, whatever the others do |
| `UsageRuns.PanicLeavesSlotFree` | app/src-tauri/src/agent_usage.rs:198-200 | after a probe panics, the entries are as they were and the next waiter can take the slot |
| `AtomicUsage.DecisionAllowed` | app/src-tauri/src/agent_usage.rs:224-241 | what the cache answers is what an atomic cache may reply at that moment, and it answers nothing exactly when that cache would have to probe |
| `AtomicUsage.SimulateStore` | app/src-tauri/src/agent_usage.rs:208-216 | storing a probe is the atomic cache's own probe, kept and returned |
| `AtomicUsage.Simulate` | app/src-tauri/src/agent_usage.rs:187-241 | each step of the locking protocol is one action of an atomic cache, or none |
| `AtomicUsage.ProtocolRefinesAtomicCache` | app/src-tauri/src/agent_usage.rs:187-241 | every run of the protocol is a run of a cache that serves each call whole at one moment between its start and its return: the same probes stored, the same replies |
| `Gemini.Tokens.Refresh` | app/src-tauri/src/agent_usage.rs:1433-1447 | one request with the login's own refresh token; the slot holds the new token and its end of life, and is emptied on every other outcome |
| `Gemini.Tokens.Choose` | app/src-tauri/src/agent_usage.rs:1264-1291 | the login file's own token until it expires, then the one in the slot if it was minted for this login and has more than a minute left, are sent without a refresh; only without either is one made; either way the token is one the login may send |
| `Gemini.Tokens.Probe` | app/src-tauri/src/agent_usage.rs:1224-1362 | every request, in order: with a token at hand a quota request with it, a refresh and a second one only after a 401, without one a refresh first, the assist request last on a 403 or on a 401 to a token just minted; every token sent is one the login may send; the probe parks exactly when the last quota request was answered 429, for 900 seconds from when that answer arrived, and reports usage exactly when it was answered 200 in a known shape |
| `Calendar.NextAddsOne` | app/src-tauri/src/agent_usage.rs:631-639 | the next valid date's number is one higher, for every year, negative ones included |
| `Calendar.NumberOfCount` | app/src-tauri/src/agent_usage.rs:631-639 | the formula is the day-by-day count from 1970-01-01, forwards and backwards |
| `Calendar.NumberIsMonotone` | app/src-tauri/src/agent_usage.rs:631-639 | numbers are in the order of the dates, so no two dates share one |
| `Calendar.CountOfNumber` | app/src-tauri/src/agent_usage.rs:631-639 | every valid date is the one reached by counting its number of days |
| `Rfc3339.ParseOfPrint` | app/src-tauri/src/agent_usage.rs:592-627 | what reading back any spelling of section 5.6 of RFC 3339 gives: the epoch second, nothing for a lower-case t, a missing second for a lower-case z with no fraction |
| `Rfc3339.RoundTrip` | app/src-tauri/src/agent_usage.rs:592-627 | printing and parsing gives back the epoch second exactly when the separator is not t and the zone is not z with non-zero seconds and no fraction |
| `Rfc3339.SpellingsAgree` | app/src-tauri/src/agent_usage.rs:592-627 | any two spellings: those whose instant survives parse equal exactly when they are one instant, and the others exactly when what is left of them is |
| `Rfc3339.NoZoneIsUtc` | app/src-tauri/src/agent_usage.rs:601-615 | an instant with no zone is read as UTC |
| `InstructionsBlock.ScanForLearned` | app/src-tauri/src/agent_setup.rs:2543-2552 | the line scan with its offset finds the text from the first heading line on, right-trimmed |
| `InstructionsBlock.WrittenParts` | app/src-tauri/src/agent_setup.rs:2558-2601 | the written file is the prose, the block with its inside, and the trailing text, and its first markers are that block's |
| `InstructionsBlock.WriteKeeps` | app/src-tauri/src/agent_setup.rs:2558-2590 | one write keeps the prose byte for byte and the trailing text but for leading newlines, and keeps the Learned section exactly when the body has no heading line |
| `InstructionsBlock.AnyWritesKeep` | app/src-tauri/src/agent_setup.rs:2558-2590 | so does any sequence of writes of any such bodies |
| `InstructionsBlock.WriteTwice` | app/src-tauri/src/agent_setup.rs:2558-2590 | writing the same block again changes nothing, exactly when the body has no heading line |
| `InstructionsBlock.RemoveUndoesWrite` | app/src-tauri/src/agent_setup.rs:3927-3953 | removing what was written into a file without markers restores it exactly when it was empty or ended in one newline after another character |
| `InstructionsBlock.RemoveIgnoresRewrite` | app/src-tauri/src/agent_setup.rs:3927-3953 | re-writing a block does not change what removing it leaves |
| `InstructionsBlock.RemoveOnParts` | app/src-tauri/src/agent_setup.rs:3941-3951 | removing the block from a file with text above and below leaves both, a blank line apart, and of a file with one of them just that |
| `InstructionsBlock.RemoveAfterRewrite` | app/src-tauri/src/agent_setup.rs:3927-3953 | and so does remove after write |
| `InstructionsBlock.WriteOnParts` | app/src-tauri/src/agent_setup.rs:2568-2573 | writing over a block changes its inside, but for the section carried over, and the newlines below it |
| `InstructionsBlock.WriteOnPlain` | app/src-tauri/src/agent_setup.rs:2574-2583 | onto a file without markers the block is appended, one blank line below what is there |
| `InstructionsBlock.SectionByLines` | app/src-tauri/src/agent_setup.rs:2543-2552 | there is a section exactly when some line, right-trimmed, is the heading, and it starts at the first such line |
| `InstructionsBlock.SectionReadsBack` | app/src-tauri/src/agent_setup.rs:2543-2552 | a carried-over section is read back as itself by the next write |
| `InstructionsBlock.ReversedMarkersAppend` | app/src-tauri/src/agent_setup.rs:2565-2586 | with an end marker before any start marker every write appends one more block |
| `InstructionsBlock.HalfBlockRewritten` | app/src-tauri/src/agent_setup.rs:2565-2586 | with a start marker whose end is gone, the second write replaces all text from it on by the block, keeping what a Learned section in that text holds, for every tail and body |
| `InstructionsBlock.HalfBlockSwallowsText` | app/src-tauri/src/agent_setup.rs:2565-2586 | so of a tail and body without a heading line it keeps nothing |
| `InstructionsBlock.HalfBlockKeepsSection` | app/src-tauri/src/agent_setup.rs:2565-2586 | and of a tail with one it keeps the text from that line on, at the head of the new section |
| `McpConfig.EntryReadsBack` | app/src-tauri/src/agent_setup.rs:2326-2350 | an entry read in its own dialect is the command and arguments written, in all four |
| `McpConfig.FirstWrite` | app/src-tauri/src/agent_setup.rs:2326-2350 | what a first write puts into no file at all, in each dialect, key by key |
| `McpConfig.ForeignEntryReads` | app/src-tauri/src/agent_setup.rs:2733-2743 | a foreign entry reads as it says, a missing or odd field as empty |
| `McpConfig.StringsInOver` | app/src-tauri/src/agent_setup.rs:2726-2731 | of an array what is no string is dropped and the rest kept in order |
| `McpConfig.MalformedIsLeft` | app/src-tauri/src/agent_setup.rs:2392-2448 | a text neither parser makes anything of is neither read, written nor edited |
| `McpConfig.WriteThenRead` | app/src-tauri/src/agent_setup.rs:2392-2448 | a file is written exactly when it parses to a table whose container, if there, is a table; then this entry reads as given, and every other entry and key has its value |
| `McpConfig.WriteTwice` | app/src-tauri/src/agent_setup.rs:2376-2448 | the last write wins; writing an entry again changes nothing |
| `McpConfig.RemoveUndoesWrite` | app/src-tauri/src/agent_setup.rs:3864-3906 | removing the entry restores the document exactly when it had the container and not the key |
| `McpConfig.WriteSeenBy` | app/src-tauri/src/agent_setup.rs:2689-2766 | one file read in another dialect after a write: unreadable across JSON and TOML, the same new entry when the container is shared, unchanged otherwise |
| `TuiMode.WithKimiFullscreen` | app/src-tauri/src/agent_setup.rs:2943-2980 | the loop over lines is the scan for the first key line: nothing to change, a refusal naming another value, or the new text |
| `TuiMode.FirstKeyDecides` | app/src-tauri/src/agent_setup.rs:2943-2980 | the first key line alone decides: present, edited or refused; without one a line is prepended |
| `TuiMode.KeyRestMeans` | app/src-tauri/src/agent_setup.rs:2948-2950 | a line is a key line exactly when it is blanks, the key, blanks and an equals sign |
| `TuiMode.OneKeyLine` | app/src-tauri/src/agent_setup.rs:2955-2975 | what becomes of one key line, spelled out with its indent, value, comment and line ending |
| `TuiMode.RewrittenReads` | app/src-tauri/src/agent_setup.rs:2943-2980 | the edited line keeps its indent, comment and line ending and reads as fullscreen |
| `TuiMode.FullscreenSettles` | app/src-tauri/src/agent_setup.rs:2943-2980 | a new text has nothing left to change, and differs in one prepended line or in its first key line only |
| `Disk.WalkFindsReal` | app/src-tauri/src/agent_setup.rs:304-318 | whatever a resolution finds is a path with no link on it |
| `Disk.RealIsCanonical` | app/src-tauri/src/agent_setup.rs:304-318 | and such a path is its own canonical form |
| `Containment.FileSystem.Enter` | app/src-tauri/src/agent_setup.rs:318-346 | one component is entered exactly when nothing denies it and it resolves under the root, to a directory unless it is the last, or is nothing at all in a directory; it becomes what it resolves to, or is made one level at a time |
| `Containment.FileSystem.ContainedDest` | app/src-tauri/src/agent_setup.rs:304-356 | for a root that resolves: a plain path is granted, links and missing ends included, whenever each of its beginnings is, on the disk as it was, nothing at all or something that resolves under the root, to a directory before the last, and only then as long as no beginning takes more links than the kernel follows; the answer is where the path resolves to, re-spelled under the root; the destination and everything made lie under the root, each existing part of it resolves to itself there, and a destination below the root is no link; what is not plain is refused |
| `Containment.FileSystem.Follow` | app/src-tauri/src/agent_setup.rs:314-356 | over all components the walked path stays under the canonical root, so the last fallback is never reached, and is what the path asked for was |
| `Containment.ContainedWhenGrounded` | app/src-tauri/src/agent_setup.rs:348-352 | re-spelled under the caller's root, such a path resolves to itself as far as it exists |
| `CheckoutMarks.Desk.CheckoutMarkMatches` | app/src-tauri/src/agent_setup.rs:2243-2259 | after any history the mark stands exactly when the launcher's bytes are those the human trusts it for, and a check that can write ends that trust when they are not |
| `CheckoutMarks.Desk.RecordCheckoutMark` | app/src-tauri/src/agent_setup.rs:2262-2269 | a recorded approval makes the present bytes the trusted ones; it is recorded exactly when the launcher is there and the store can be written |
| `CheckoutMarks.Desk.McpCommandFor` | app/src-tauri/src/agent_setup.rs:2300-2306 | the relative launcher is named exactly for a checkout whose bytes are the trusted ones |
| `CheckoutMarks.Desk.CommandToWrite` | app/src-tauri/src/agent_setup.rs:3636-3643 | an integration fails only when an approval is needed and cannot be written, and names the launcher exactly for a checkout trusted or approved now |
| `CheckoutMarks.LauncherNamedExactly` | app/src-tauri/src/agent_setup.rs:2243-2306 | over every history from an empty store, the launcher is named if and only if the checkout's bytes are those last approved and no check that could write has seen others since |
| `CheckoutMarks.HonestHistory` | app/src-tauri/src/agent_setup.rs:2243-2306 | over any history a mark is the digest of the bytes of the latest recorded approval |
| `CheckoutMarks.LauncherNamedOnlyForApprovedBytes` | app/src-tauri/src/agent_setup.rs:2300-2306 | the relative launcher is named only for a checkout whose bytes are those last approved, writes failing or not |
| `CheckoutMarks.ApprovalMarks` | app/src-tauri/src/agent_setup.rs:3636-3649 | an approved, written run names the launcher and leaves it marked |
| `CheckoutMarks.ApprovalLasts` | app/src-tauri/src/agent_setup.rs:2243-2306 | from then on every check names it until the checkout's own files change |
| `CheckoutMarks.ChangedBytesEndTheMark` | app/src-tauri/src/agent_setup.rs:2243-2259 | after a check that saw other bytes and could write it, only a new approval brings the launcher back, old bytes restored or not |
| `CheckoutMarks.UnwrittenCheckForgets` | app/src-tauri/src/agent_setup.rs:2243-2259 | from any world with a mark: after other bytes, a check and the old bytes back, the launcher is named exactly when the check could not write |
| `Playwright.AssessMeans` | app/src-tauri/src/agent_playwright.rs:499-572 | verified exactly when the entry is gavin's, the browser is there and npx was not found missing; installing is offered exactly where every check could be made, something is missing, the own command is known and a remote machine lacks no browser; missing exactly there, without npx, or for that browser |
| `Playwright.EntryMeans` | app/src-tauri/src/agent_playwright.rs:374-396 | the entry is gavin's exactly when its command is gavin's own with `playwright` first among the arguments; absent, a conflict or unknown otherwise |
| `Playwright.StaysSettled` | app/src-tauri/src/agent_playwright.rs:654-680 | writing one layout's entry never unsettles another's, whether or not they share a file |
| `Playwright.StopsStay` | app/src-tauri/src/agent_playwright.rs:654-680 | writing one layout leaves what would stop another of its family as it was |
| `Playwright.Configs.WriteEntries` | app/src-tauri/src/agent_playwright.rs:649-689 | a finished loop leaves every layout present, unknown, or a conflict nobody asked to replace; one that stops does so at a layout that wants an entry and cannot have it; where layouts that share a file are of one family, as the stock ones are, it finishes exactly when no layout's file as it was would stop it, and panics exactly when the first that would is a writable TOML file whose container is no table; however it ends, every other server and key keeps its value and no foreign entry changes without being asked |
| `Playwright.Configs.Install` | app/src-tauri/src/agent_playwright.rs:620-703 | nothing is written unless the browser check is then true; nothing is attempted where the source answers with an error; it answers nothing at all exactly when the loop is reached and, by the files as they were, panics; after a finished loop the answer is verified, a conflict left alone, or an unknown; verified implies entry and browser were found |
| `Playwright.NumberForServers` | app/src-tauri/src/agent_playwright.rs:654-672 | a config whose `mcp_servers` is a number reads as lacking the entry and makes the loop panic |
| `Tokens.JoinedRecords` | app/src-tauri/src/agent_tokens.rs:279-288 | the newline pushed after a file keeps its unfinished last line from merging with the next file and adds no record |
| `Text.BodiesByLine` | app/src-tauri/src/agent_tokens.rs:467-467 | the lines a text is read by: each up to its newline, a return before it dropped |
| `Tokens.PushedNewline` | app/src-tauri/src/agent_tokens.rs:279-288 | a single file's records are the same with the newline pushed |
| `Tokens.ClaudeTotals` | app/src-tauri/src/agent_tokens.rs:462-502 | the loop's report is that of the first messages of each id |
| `Tokens.FirstsAreFirst` | app/src-tauri/src/agent_tokens.rs:448-479 | those are exactly one message per id, its earliest |
| `Tokens.OnlyAssistantMessages` | app/src-tauri/src/agent_tokens.rs:471-476 | a line counts exactly when it records an assistant message with an id |
| `Tokens.NewMessageAdds` | app/src-tauri/src/agent_tokens.rs:481-500 | a message not seen before adds each of its counts to its own total, one turn and its model; one without usage adds nothing |
| `Tokens.RepeatsChangeNothing` | app/src-tauri/src/agent_tokens.rs:441-451 | records that repeat messages already seen change nothing of the report |
| `Tokens.OrderChangesNoTotal` | app/src-tauri/src/agent_tokens.rs:441-451 | when same-id records agree, the totals depend only on which messages there were |
| `Tokens.SwappedRecords` | app/src-tauri/src/agent_tokens.rs:475-486 | anywhere in a transcript two records of one message can be swapped exactly when the message was seen before or they cost the same |
| `Tokens.PrefilterSkipsNothing` | app/src-tauri/src/agent_tokens.rs:453-470 | skipping lines that do not spell the word loses nothing while every assistant record spells it |
| `Tokens.PrefiltersSkipBlanks` | app/src-tauri/src/agent_tokens.rs:605-612 | with the cheap look before the parse, blank lines and returns are still passed over as the parser does |
| `Tokens.KimiTotals` | app/src-tauri/src/agent_tokens.rs:599-647 | the loop's report is the sum over the records of the one counted scope, its turns the ended ones |
| `Tokens.EventAdds` | app/src-tauri/src/agent_tokens.rs:615-645 | a record of scope `turn` adds its counts and its model, an ended turn one turn, anything else nothing |
| `Tokens.KimiNeedsARecord` | app/src-tauri/src/agent_tokens.rs:638-642 | a session is available exactly when some record of that scope has counts |
| `Tokens.KimiPrefilterSkipsNothing` | app/src-tauri/src/agent_tokens.rs:605-612 | passing over lines that spell neither word changes no sum while the records that count spell theirs |
| `Tokens.SessionIsItsFiles` | app/src-tauri/src/agent_tokens.rs:596-598 | a session's sum is the sum of its files' sums |
| `Tokens.FileOrderChangesNothing` | app/src-tauri/src/agent_tokens.rs:596-598 | the order of the files changes no total and no model |
| `Tokens.CodexTotals` | app/src-tauri/src/agent_tokens.rs:539-582 | the backward scan's report is that of the last record from which a total can be told |
| `Tokens.CodexNeedsATotal` | app/src-tauri/src/agent_tokens.rs:565-581 | a rollout has a report exactly when some record tells a total, and that total is not zero |
| `Tokens.LaterRecordsDecide` | app/src-tauri/src/agent_tokens.rs:527-538 | later records replace earlier ones as soon as they tell a total; nothing is added up |
| `Tokens.CodexSplitsInput` | app/src-tauri/src/agent_tokens.rs:549-570 | cached input is split off the input it was reported inside of, the file's own total stands, and a record tells no total only when all its counts are zero |
| `Rollouts.Search.Walk` | app/src-tauri/src/agent_tokens.rs:361-379 | walking a tree with a shared budget is looking at the first so many rollouts of the unbounded walk, wherever in the tree the budget runs out |
| `Rollouts.Search.Find` | app/src-tauri/src/agent_tokens.rs:345-359 | the answer is the first rollout named for the conversation among those |
| `Rollouts.BudgetOnlyHides` | app/src-tauri/src/agent_tokens.rs:345-359 | the budget only ever turns a find into none, and not when all rollouts fit it |
| `Rollouts.FirstNamedIsFirst` | app/src-tauri/src/agent_tokens.rs:349-357 | none is answered exactly when none is named for the conversation |
| `Rollouts.NamesMeans` | app/src-tauri/src/agent_tokens.rs:346-356 | a stem names the conversation alone, or ends in a dash and its name |
| `Rollouts.SeesDownToTheLimit` | app/src-tauri/src/agent_tokens.rs:361-379 | a walk sees exactly the .jsonl files no deeper than the limit |
| `TokenCache.InvStep` | app/src-tauri/src/agent_tokens.rs:258-296 | every step of any call, append or new file keeps what is known of cached reports, files and calls |
| `TokenCache.KeyIsObserved` | app/src-tauri/src/agent_tokens.rs:268-272 | the key is the mtime of some file observed, or zero when none was |
| `TokenCache.SameKeyIsFresh` | app/src-tauri/src/agent_tokens.rs:268-277 | a report under the mtime a call observed read every shared file no earlier than the call saw it |
| `TokenCache.ServedReportsAreFresh` | app/src-tauri/src/agent_tokens.rs:103-107 | every report served covers what the call observed of each shared file and nothing the file does not hold, lists exactly the files that existed at its listing, and misses only ones made before the write its key comes from |
| `TokenCache.ServedReportsAreExact` | app/src-tauri/src/agent_tokens.rs:258-296 | in every run and for any number of files a served report is of the texts the call observed exactly when it lists the same files, read none past its key, and the call observed the last version of each up to the key |
| `TokenCache.SingleFileReportsAreExact` | app/src-tauri/src/agent_tokens.rs:264-296 | for a call that lists one file, exactly when the report read that file alone and not past its key |
| `TokenCache.ReadFollowsTheWrites` | app/src-tauri/src/agent_tokens.rs:268-288 | of any file the version read is past the one observed by the number of writes between the stat and the read |
| `TokenCache.OnlyTheWindowDisturbs` | app/src-tauri/src/agent_tokens.rs:268-294 | so a one-file report reads past its key exactly when a write fell between its stat and its read |
| `TokenWindows.ServedWasBuilt` | app/src-tauri/src/agent_tokens.rs:273-295 | every report served, from the cache or not, was stored by a call of the run that read all of it |
| `TokenWindows.ExactByWrites` | app/src-tauri/src/agent_tokens.rs:258-296 | for any number of files: a served report is of the texts the call observed exactly when it lists the same files and, of each, no write past its key came between the stat and the read of the call that built it, and none up to its key since the served call's own stat |
| `TokenCache.ReportOfALaterText` | app/src-tauri/src/agent_tokens.rs:268-288 | a run in which a write between stat and read reaches a call that observed the file without it |
| `TokenCache.ReportWithoutANewFile` | app/src-tauri/src/agent_tokens.rs:264-277 | a run in which a file made after the listing is missed by a call that lists it |
| `Resolve.Resolve` | app/src-tauri/src/agent_edits.rs:439-464 | the two loops are folding by name and canonicalizing the longest beginning that exists |
| `Resolve.ResolvedStops` | app/src-tauri/src/agent_edits.rs:449-463 | that beginning's canonical form with the rest put back as it was spelled |
| `Resolve.ResolveIsIdempotent` | app/src-tauri/src/agent_edits.rs:439-464 | resolving a resolved path changes nothing exactly when what stopped the first resolution was not the links spent on the way |
| `Resolve.FewLinksIsSteady` | app/src-tauri/src/agent_edits.rs:439-464 | which holds whenever no beginning of the path takes more links than the kernel follows |
| `Resolve.ResolvedOnlyHalfway` | app/src-tauri/src/agent_edits.rs:439-464 | a path that needs two resolutions |
| `Resolve.SpellingsResolveAlike` | app/src-tauri/src/agent_edits.rs:410-415 | under whatever alias of a directory a path is spelled, it resolves to one path |
| `Resolve.FileBelow` | app/src-tauri/src/agent_edits.rs:414-415 | a deleted file resolves to its place below the directory's own name |
| `Resolve.ExistingPathsResolve` | app/src-tauri/src/agent_edits.rs:439-448 | where there are no links, folding by name is what the file system does with a path that exists |
| `Edits.UnderRoot` | app/src-tauri/src/agent_edits.rs:416-435 | the set of root-relative names of the paths below the root |
| `Edits.RelativeMeans` | app/src-tauri/src/agent_edits.rs:416-435 | a path has a name below the root exactly when it resolves strictly below where the root does |
| `Edits.ComponentsByPart` | app/src-tauri/src/agent_edits.rs:439-448 | a path's components, part by part between its slashes |
| `Edits.FilesBelowTheRoot` | app/src-tauri/src/agent_edits.rs:407-415 | a file below the checkout is named as the checkout names it, however spelled, deleted or not |
| `Edits.PathWordsAre` | app/src-tauri/src/agent_edits.rs:339-344 | the words are exactly the whole runs of path characters that look like a path |
| `Edits.WrittenMeans` | app/src-tauri/src/agent_edits.rs:367-377 | a word counts exactly when a command that may write holds it and no hook watched that call |
| `Edits.Touched` | app/src-tauri/src/agent_edits.rs:360-405 | the answer is the candidates meeting the rule, in order: named by an edit, by an unwatched writing command, by a record, or by a relative tail of two names |
| `Edits.KeptAre` | app/src-tauri/src/agent_edits.rs:401-404 | each candidate meeting the rule is kept as often as it was given, and no other |
| `Edits.MoreTouches` | app/src-tauri/src/agent_edits.rs:360-405 | more edits, commands or records, or fewer watched calls, never lose a candidate |
| `Edits.WatchedTextIsNotRead` | app/src-tauri/src/agent_edits.rs:357-359 | the text of a watched command makes no difference |
| `Edits.TailsHaveTwoNames` | app/src-tauri/src/agent_edits.rs:352-355 | a bare name matches nothing by its tail |
| `Edits.HasTailMeans` | app/src-tauri/src/agent_edits.rs:401-404 | a tail is matched whole, from a slash on |
| `Edits.TailOfNames` | app/src-tauri/src/agent_edits.rs:393-400 | two names or more are the tail they spell, a leading dot passed over; rooted, in a home or climbing, they are none |
| `Edits.PatchReadsBack` | app/src-tauri/src/agent_edits.rs:325-335 | an envelope's added, updated, deleted and moved-to files are read back in order |
| `PlainText.PlainText` | app/src-tauri/src/agent_skills.rs:326-365 | the one-pass loop with its look-ahead is a machine fed one character at a time |
| `PlainText.VisibleIsShown` | app/src-tauri/src/agent_skills.rs:326-365 | the text left is what a terminal shows for the elements read: a redraw (`G` with no parameter or 1, `J`, `K`) or a lone return takes the line back, return and newline end it, other sequences are silent |
| `PlainText.EveryTextReads` | app/src-tauri/src/agent_skills.rs:326-365 | every text is made of those elements |
| `PlainText.LineEndKept` | app/src-tauri/src/agent_skills.rs:354-358 | a line ended by return and newline is kept |
| `PlainText.ReturnTakesBack` | app/src-tauri/src/agent_skills.rs:354-360 | a lone return and a frame leave the completed lines and the frame |
| `PlainText.VisibleIsPlain` | app/src-tauri/src/agent_skills.rs:326-365 | the output has no escape and no carriage return, is the text itself where there were none, and is settled after one pass |
| `PlainText.CompletedLinesStay` | app/src-tauri/src/agent_skills.rs:326-365 | the completed lines of a beginning are completed lines of the whole, wherever the split falls |
| `PlainText.ReadsOn` | app/src-tauri/src/agent_skills.rs:326-365 | reading a text in two parts is reading it whole |
| `PlainText.RedrawLeavesLastFrame` | app/src-tauri/src/agent_skills.rs:321-325 | after a redraw sequence the last frame replaces the unfinished line |

## Left out

- Calling out: curl, the Keychain, sqlite3, `npx`, `claude`, their timeouts and pipes. What they answer is an input.
- Parsing and printing JSON and TOML byte by byte, and what the TOML editor keeps of comments and order. Documents are trees; a text is what the two parsers make of it, and a text that is a JSON object is taken never to be TOML.
- `McpConfig.WriteServer`: the TOML editor's panic on a `mcp_servers` that is no table is that library's behaviour, given here as a third outcome.
- The order in which `mcp_servers_in` lists servers, and the wording of errors and details.
- `refresh_instructions_block` in the Playwright loop, and the rest of `run_integration` around its choice of command.
- Widths of `i64` and `u64`: sums and day numbers are unbounded here.
- `Rfc3339.ParseRfc3339`: non-ASCII text inside an offset, where the source slices by bytes, is not modelled; characters are counted instead.
- `TokenCache.ServedReportsAreFresh`: files that shrink, are replaced or keep their mtime when written are outside the model, as is a stat that fails; a report stands for the versions it read, whose totals are the business of `Tokens`.
- `Rollouts.Search.Walk`: the directory tree is finite and still while it is walked; links to directories appear as directories.
- `Edits.UnderRoot`: paths still relative after joining the launch directory are read from `/`.
- `Resolve.Resolve`: a canonicalization that fails for want of permission is not modelled.
- `Containment.FileSystem.ContainedDest`: nothing else changes the disk during the call.
- `UsageProtocol.InvStep`: a poisoned entries lock cannot arise, since nothing panics while holding it; it is not a state of the model.
- `CheckoutMarks.Desk.CheckoutMarkMatches`: reading the mark store always succeeds here. The source takes an unreadable or unparsable store for an empty one, so no launcher is trusted by it, and the next approval writes a store without the other roots' marks.
- The evidence readers that collect edits and commands from a transcript: shapes of records, no rule across them.
- `write_owned`, `as_epoch_secs`, `b64url_encode`, `Run::combined`, percentages of usage windows, and the profile table: one-branch facts and constants.
- The plugin lock of `agent_skills.rs`: a single read/write lock around each run, whose exclusion is the lock's own.
- `may_write`, `launch_grant`, `pick_revision` and `hash_bytes_hex` belong to a crate that is not part of this model; where one matters it is a parameter.
