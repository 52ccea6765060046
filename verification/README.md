# Rhei: protocols, codecs and readings, verified

Rhei runs agents over Markdown plans. This project models the parts of it where many steps have to agree, and proves
what they promise for every input, every run and every interleaving.

- **Root access** (`RootInterlock`, `RootLimits`, `RootOrder`, `RootGuards`). Readers and writers take guards on execution roots while
  a forced recovery may publish a marker under one. One thing one thread does is an `Action`, so a sequence of actions is
  an interleaving. `World` is the acquiring code itself, written step by step among threads that interfere as any script
  says; each of its methods is proved to be a run of the interlock. A grant is a lock between two looks at the markers.
- **Agent output** (`OutputDrain`, `OutputReader`, `Lines`). A reader thread, the pipe's writers and a spawner that waits
  for the captured flag; and the reader's loop, proved to be a run of them.
- **Spawn names** (`Ledger`, `Base64Url`, `SpawnNaming`, `SpawnFreshness`, `SpawnFamilies`, `SpawnPlan`, `Text`). The
  ledger's text is parsed and counted, a plan is made from the counts and the records on disk, and runs of moves, spawns,
  crashes and other people's files are followed. While no log is moved away no two spawns have one log, recorded or not
  (`SpawnNaming.LogsStay`). When logs are moved away, the name of a recorded spawn is still never given again in a
  steady run (`SpawnNaming.NoNameIsReused`); that of a spawn without a record is, which is what moving its log away is
  for. `SpawnFamilies` puts any number of tasks, states and identities into one project.
- **Archives** (`TarFormat`, `ArchiveReader`, `ArchiveWriter`). The reader's tar parser over arbitrary bytes, and the
  round trip from a printer of ustar headers and GNU long names.
- **Accounting** (`AccountingRoots`, `AccountingMerge`, `AccountingIdentity`, `AccountingPricing`, `PriceReachability`).
  Which roots are read, the union of their records, the identities of attempts, prices and their rereading, and the
  worklist of states to price before a run.
- **Timestamps** (`Calendar`). Day counts, dates, and text that sorts as time does.
- **Line scanners and quoting** (`LogTail`, `Fences`, `ShellQuote`). Following a growing log, fenced blocks with the
  header and frontmatter around them, and command lines a shell reads back as they were meant.

What the modelled code does not compute is a parameter: JSON, UUID and time parsing (`Ledger.Library`,
`AccountingMerge.Clock`), the lossy decoding of member names (`decode`), the canonical spelling of a directory (`canon`),
agent resolution (`resolve`), and what files hold. Nothing is assumed of them beyond what a lemma's `requires` says.

Some promises do not hold as widely as their wording. Each such limit is a lemma with the input that shows it, beside a
lemma that says exactly when the promise holds:

- The tailer stops for good at a line that is not UTF-8, and at a backfill offset that lands inside a character
  (`LogTail.TextCanBeLost`); it gives every line once exactly if the fragment it passes over and every line due are text
  (`LogTail.EachLineOnce`).
- Restating token counts undoes the subtraction of cached tokens exactly if the sum fits in 64 bits or the input is zero
  (`AccountingPricing.RestateInverts`, `AccountingPricing.RestatedCostsTheSame`); `AccountingPricing.CountsCanBeTooMany` is
  an input that does not.
- Log names tell entries and attempts apart within one task, state and identity, but not across them: entry 2 of `opus`
  has the names of entry 1 of `opus-2` (`SpawnFamilies.OpusMeets`), entry 2 of state `draft` those of state `draft-2`
  (`SpawnFamilies.NumberedStatesMeet`), and state `review` under identity `fix` is named as state `review-fix`
  (`SpawnFamilies.StatesMeet`); the later one's spawn is refused. Any two families can clash in a run exactly if their
  stems are equal or one is the other with the number of a later entry or attempt after it
  (`SpawnFamilies.FamiliesClashExactly`); families apart in this sense keep each other's promises over every run of all
  of them (`SpawnFamilies.ApartFamiliesAreFresh`). The documentation of log names says nothing of this.
- A ledger row that starts with the ticket and is no movement moves the move count and not the entry number. It harms
  exactly after an accounted spawn of the present visit, or before the record of one planned earlier in it
  (`SpawnNaming.StalingExactly`): over a run from a consistent start every plan is fresh exactly if no step is such a one
  (`SpawnFreshness.FreshExactly`), and `SpawnFreshness.NoteBlocksVisit` is a run from nothing that is blocked by one.
- A root stays unmarked under a shared hold backed by a lock file; under a degraded hold, or a shared clone of the
  thread's own exclusive hold, it need not (`RootInterlock.UnbackedHoldIsUnprotected`,
  `RootInterlock.ExclusiveCloneIsUnprotected`). From any state a hold's root can become marked while the hold stays
  exactly if the hold is exclusive or unbacked (`RootLimits.MarkableExactly`).
- Timestamps sort as text exactly through year 9999 (`Calendar.TextOrderEndsThere`, `Calendar.TextOrderLimit`).
- An attempt identity tells an empty part from the text `task` no more than a file name does
  (`AccountingIdentity.AttemptIdTells`).

Verify with `dafny verify dfyconfig.toml`.

## Model

| member | source | states |
|---|---|---|
| RootInterlock.GuardsProtect | crates/rhei-core/src/root_access.rs:310-385 | At every point of every interleaving, no root under a granted, file-backed shared hold carries a marker, and an exclusive lock excludes every other thread's lock |
| RootInterlock.ProtectionLasts | crates/rhei-core/src/root_access.rs:112-147 | A hold of several guards stays as granted, and its root unmarked, until the last guard on it drops |
| RootInterlock.EveryStateIsInvariant | crates/rhei-core/src/root_access.rs:310-385 | Every reachable state keeps lock exclusion and protection, no marker appears on a root once the check under its lock has passed it, and a thread asks or waits only for a root it does not hold unless it is reusing one |
| RootInterlock.GrantedExactly | crates/rhei-core/src/root_access.rs:362-385 | In every reachable state a waiting shared request can be granted exactly if no exclusive hold is on its root, an exclusive one exactly if nothing with a lock file is: readers share, and an unbacked hold stops nobody |
| RootInterlock.FirstCheckIsNotEnough | crates/rhei-core/src/root_access.rs:329-383 | Without the check under the lock a reader would be granted a marked root: the interleaving |
| RootInterlock.UnbackedHoldIsUnprotected | crates/rhei-core/src/root_access.rs:332-341 | A degraded hold's root can become marked: the interleaving |
| RootInterlock.ExclusiveCloneIsUnprotected | crates/rhei-core/src/root_access.rs:313-328 | A shared request under one's own exclusive hold gives a clone of that hold, whose root can become marked |
| RootLimits.MarkableExactly | crates/rhei-core/src/root_access.rs:310-385 | From every reachable state a hold's root can become marked while the hold stays exactly if the hold is exclusive or has no lock file |
| RootOrder.NoDeadlock | crates/rhei-core/src/root_access_discovery.rs:87-106 | In every reachable state every nonempty set of waiting threads has a member none of the others blocks, queueing behind waiting writers included |
| RootOrder.SomeoneMoves | crates/rhei-core/src/root_access.rs:310-385 | While anyone waits, some waiting thread can be granted its lock, or is blocked only by threads that can move |
| RootOrder.NoSelfWait | crates/rhei-core/src/root_access.rs:313-328 | A thread never waits on a root it holds, and shared-to-exclusive is refused on the spot with nothing changed |
| RootOrder.OrderIsNeeded | crates/rhei-core/src/root_access_discovery.rs:87-106 | Two threads taking two roots in opposite orders can each block the other, so the canonical order is what prevents it |
| RootGuards.World.CheckPending | crates/rhei-core/src/root_access.rs:150-215 | Looks at every owner's marker in turn as actions of the interlock; passes only if every one was seen absent during the call, and is refused only if some owner's marker was seen there during the call or cannot be looked at; refused, the thread is as it was |
| RootGuards.World.Reacquire | crates/rhei-core/src/root_access.rs:313-328 | A held root is shared again, refused or contended as the request and the hold say; a shared request is refused only for an owner that is marked or unreadable, and only a grant changes what the thread holds |
| RootGuards.World.AwaitLock | crates/rhei-core/src/root_access.rs:362-382 | Waits while the lock is taken, and stops short only when nothing more happens; granted, an exclusive request holds the root and a shared one is at its second check |
| RootGuards.World.OpenAndLock | crates/rhei-core/src/root_access.rs:329-385 | A shared request without a lock file gets an unbacked hold, and is refused only for an owner marked or unreadable; an exclusive one is refused exactly without a lock file; either waits only while the lock is taken |
| RootGuards.World.Acquire | crates/rhei-core/src/root_access.rs:310-385 | The whole acquisition is an interleaving; granted, exactly one guard more is held, otherwise exactly what was held; a shared request is refused only for an owner that was marked during the call or is unreadable, an exclusive one only as an upgrade or on a root that cannot be locked, a probe contended only on a root held or taken, and none is left waiting while its lock is free |
| RootGuards.World.Complete | crates/rhei-core/src/root_access_discovery.rs:87-95 | The batch is strictly ascending, has every requested root, and nothing that is no input of a requested root with all its inputs in it |
| RootGuards.World.AcquireAll | crates/rhei-core/src/root_access_discovery.rs:95-103 | One guard on each root of the batch, or the thread as it was; refused only for an owner of a root of the batch that was marked during the call or is unreadable; in canonical order throughout when it held nothing or all of the batch |
| RootGuards.World.SharedRoots | crates/rhei-core/src/root_access_discovery.rs:87-106 | Granted, every root of the complete batch has one guard more, was seen unmarked after the last of them was taken, and is unmarked where its hold is shared and backed; left waiting for one, every root was all the same seen unmarked; refused, nothing changed, and some owner of a root of the batch was marked during the call or is unreadable |
| RootGuards.BatchIsOrderly | crates/rhei-core/src/root_access_discovery.rs:87-106 | Taking a batch in ascending order asks only for roots already held or above all held |
| Lines.SplitIsFramed | crates/rhei-cli/src/cli/agent_output_reader.rs:268-287 | A split's pieces join to the text, each but the last ends in its only line feed |
| Lines.SplitIsUnique | crates/rhei-cli/src/cli/agent_output_reader.rs:268-287 | No other pieces are so framed and join to the text |
| Lines.FeedInPieces | crates/rhei-cli/src/cli/agent_output_reader.rs:268-287 | Taking complete lines from two chunks in turn gives those of the chunks together, and leaves the same rest |
| OutputDrain.DrainSafety | crates/rhei-cli/src/cli/agent_output_reader.rs:163-196 | Once captured is up, the lines taken join to a prefix of the pipe's bytes that has everything written before the agent exited, or the reader has ended |
| OutputDrain.CountsAreSound | crates/rhei-cli/src/cli/agent_output_reader.rs:307-356 | The owed count is never negative nor above what the pipe holds, and no read is issued with an empty buffer or past what is owed |
| OutputDrain.Framing | crates/rhei-cli/src/cli/agent_output_reader.rs:268-356 | A reader that reached the end took the newline split of the bytes up to the boundary and then that of the rest, and a settled boundary is at or past the agent's exit |
| OutputDrain.ChunkingDoesNotMatter | crates/rhei-cli/src/cli/agent_output_reader.rs:307-356 | Two runs over the same bytes with the same boundary took the same lines, however their reads were cut |
| OutputDrain.TakenPlusPending | crates/rhei-cli/src/cli/agent_output_reader.rs:267-287 | Until the reader ends, lines taken plus bytes pending are exactly the bytes read |
| OutputDrain.RankFalls | crates/rhei-cli/src/cli/agent_output_reader.rs:307-356 | Each step of the reader that owes lowers what is left to do, an interrupted read puts its issue back, and no step of others changes it |
| OutputDrain.OwedNeverBlocks | crates/rhei-cli/src/cli/agent_output_reader.rs:307-356 | A reader that owes can always settle, issue a read or receive a byte |
| OutputDrain.OwedIsCaptured | crates/rhei-cli/src/cli/agent_output_reader.rs:391-409 | A reader that owes n bytes releases the waiting spawner within 2n+2 steps of its own and two more for each interrupted read, whatever others do |
| OutputDrain.LiveNeverBlocks | crates/rhei-cli/src/cli/agent_output_reader.rs:316-332 | Before it sees the exit the reader always has a step to take, since it polls before it reads |
| OutputDrain.ExitIsCaptured | crates/rhei-cli/src/cli/agent_output_reader.rs:391-409 | From the raised exit flag on: within five steps of the reader, two for each byte ever written and two for each interrupted read, captured is up or the source could not say what it held |
| OutputReader.TakeComplete | crates/rhei-cli/src/cli/agent_output_reader.rs:267-279 | Takes exactly the complete lines and leaves the rest, or stops at the line whose write fails |
| OutputReader.Drain.WatchForExit | crates/rhei-cli/src/cli/agent_output_reader.rs:316-332 | An exit already raised is seen, and what is then owed is just what the pipe holds, where it can say; otherwise a poll that finds the pipe readable issues a read of a whole chunk; it takes nothing |
| OutputReader.Drain.SettleCapture | crates/rhei-cli/src/cli/agent_output_reader.rs:280-330 | With nothing owed, the unterminated tail is taken as a line and the spawner released |
| OutputReader.Drain.ReadOnce | crates/rhei-cli/src/cli/agent_output_reader.rs:336-356 | An interrupted read leaves everything as it was; an ordinary one reads just as many bytes as asked for, issued and there allow, at least one, and takes the lines they complete; the end comes only of a closed, empty pipe, with the unterminated last line, whose write may fail |
| OutputReader.Drain.ReadAgentOutput | crates/rhei-cli/src/cli/agent_output_reader.rs:307-356 | The loop is a run of the drain; the lines it returns are those taken, captured means the exit was reached, and at the end they are the split at the boundary; with the pipe closed and nothing going wrong it comes to the end once its turns that read are three more than the bytes left |
| TarFormat.NumberFieldInverts | crates/rhei-cli/src/cli/archive_reader.rs:22-36 | A number printed in a field, octal or base-256, is the number read from it |
| TarFormat.MalformedNumber | crates/rhei-cli/src/cli/archive_reader.rs:22-36 | A field of text with any byte but octal digits, plus signs, spaces and NULs is no number |
| TarFormat.TextInverts | crates/rhei-cli/src/cli/archive_reader.rs:55-67 | A NUL-free text printed in a field is the text read from it |
| TarFormat.HeaderInverts | crates/rhei-cli/src/cli/archive_reader.rs:38-67 | A printed header is valid, checksum included, and gives back its name, size and kind |
| TarFormat.OnlyUstarHasPrefix | crates/rhei-cli/src/cli/archive_reader.rs:55-67 | A header that is not ustar's own, a GNU one, is named by its first hundred bytes alone |
| TarFormat.ChecksumCounts | crates/rhei-cli/src/cli/archive_reader.rs:38-52 | The checksum is that of the bytes with its own eight read as spaces: 256 over zeros, and each other byte changes it by its own change |
| TarFormat.ChangedHeaderFails | crates/rhei-cli/src/cli/archive_reader.rs:38-52 | A valid header with any one byte outside the checksum changed is refused |
| ArchiveReader.ReadArchive | crates/rhei-cli/src/cli/archive_reader.rs:93-148 | On any bytes ends in bounds; succeeds exactly if the tar's entries parse to the end, no long name is left over and the index comes first; then keeps and refuses just what the entries say |
| ArchiveReader.BlocksAre | crates/rhei-cli/src/cli/archive_reader.rs:115 | Data is padded to the least whole number of blocks that holds it |
| ArchiveReader.EntriesFill | crates/rhei-cli/src/cli/archive_reader.rs:93-148 | Entries that parse fill the bytes: each has its valid header where the one before ends, its data just behind and of the size stated there, and only zeros follow the last, a block at least |
| ArchiveReader.NamedExactly | crates/rhei-cli/src/cli/archive_reader.rs:118-127 | The names come out exactly if no long name is left over, one for each entry that is no long name |
| ArchiveReader.LongNameIs | crates/rhei-cli/src/cli/archive_reader.rs:120-125 | A long name is its data up to the last byte that is not zero |
| ArchiveReader.ComponentsJoin | crates/rhei-cli/src/cli/archive_reader.rs:11-19 | A path's components with slashes between give it back |
| ArchiveReader.PathSafeMeans | crates/rhei-cli/src/cli/archive_reader.rs:9-19 | A path is safe exactly if it is not empty, holds no backslash, starts with no drive letter and colon, and has nothing, a dot or two dots nowhere between its slashes |
| ArchiveReader.EntriesAreConserved | crates/rhei-cli/src/cli/archive_reader.rs:93-148 | Every entry but the long names is exactly one of kept and refused, every kept path is safe, and the entries decide both |
| ArchiveReader.IndexIsKept | crates/rhei-cli/src/cli/archive_reader.rs:11-19 | The index's own path is safe, so a first index is kept |
| ArchiveReader.MemberFindings | crates/rhei-cli/src/cli/archive_reader.rs:276-304 | Afterwards every refused entry and every kept member no check names, or an event prunes, has a finding, absent events and manifest too, and nothing else is added |
| ArchiveWriter.PlaceForFits | crates/rhei-cli/src/cli/archive_pack.rs:188-203 | Every NUL-free path has a place, and a long-name entry exactly where no ustar split holds it |
| ArchiveWriter.EntryInverts | crates/rhei-cli/src/cli/archive_pack.rs:190-203 | One printed entry, whatever follows, is the first entry read back |
| ArchiveWriter.MemberInverts | crates/rhei-cli/src/cli/archive_pack.rs:190-203 | One printed member, long name or not, reads as one entry under its path with its bytes |
| ArchiveWriter.ArchiveInverts | crates/rhei-cli/src/cli/archive_pack.rs:229-255 | A printed archive reads as its members in order |
| ArchiveWriter.PackAndRead | crates/rhei-cli/src/cli/archive_pack.rs:208-277 | An index and members at distinct safe paths read back as exactly those paths and bytes, with nothing refused, wherever each path was placed |
| Base64Url.EncodeInverts | crates/rhei-core/src/transition_history.rs:53-62 | Every byte sequence's encoding decodes to it |
| Base64Url.DecodeIsCanonical | crates/rhei-core/src/transition_history.rs:56-62 | A text decodes to bytes exactly if it is their encoding: non-canonical spellings are refused |
| Base64Url.EncodeUsesSymbols | crates/rhei-core/src/transition_history.rs:53-55 | An encoding has only alphabet symbols, so a payload is one field |
| Base64Url.SymbolTable | crates/rhei-core/src/transition_history.rs:53-62 | The 64 symbols are those of RFC 4648, table 2, in its order, and every other character is none |
| Ledger.Parse | crates/rhei-core/src/transition_history.rs:120-162 | Succeeds exactly if every force row is its pair's first and no recovery id repeats; then gives one movement per movement row and one per pair, in order |
| Ledger.PairMeans | crates/rhei-core/src/transition_history.rs:73-112 | An accepted force row is the canonical row of a valid audit and is followed by exactly its movement row |
| Ledger.PayloadMeans | crates/rhei-core/src/transition_history.rs:81-112 | A payload is accepted as an audit exactly if it is the encoding of its canonical bytes, these parse as it, and every field is as the ledger demands |
| Ledger.PlainMovementMeans | crates/rhei-core/src/transition_history.rs:145-160 | A row without a force mark says a hop exactly if its second word is that hop, both states named, and not metadata; and never more than one |
| Ledger.MoveRowSays | crates/rhei-core/src/transition_history.rs:145-160 | A printed movement row reads as its movement and is no force row |
| Ledger.PrintedItems | crates/rhei-core/src/transition_history.rs:73-79 | Rows printed for any mix of movements, unknown rows and audits with distinct ids are well paired and contribute just the movements printed |
| Ledger.PrintAndParse | crates/rhei-core/src/transition_history.rs:120-162 | Parsing a printed ledger's text gives back its movements, one per row and one per pair, in order |
| SpawnNaming.EntriesTellVisits | crates/rhei-cli/src/cli/agent_log_files.rs:100-131 | While the ticket is in a state, two moments have equal entry numbers exactly if it has not moved in between, and equal move counts exactly if, besides, no other row of its name came in between |
| SpawnNaming.EntryInState | crates/rhei-cli/src/cli/agent_log_files.rs:129-130 | In the state, the entry number is its arrivals plus one if the ticket started there |
| SpawnNaming.NamesAreDistinct | crates/rhei-cli/src/cli/agent_log_files.rs:178-211 | Within a task, state and identity a log name tells its entry and attempt, and a record name its entry |
| SpawnNaming.UseTellsVisit | crates/rhei-cli/src/cli/agent_spawn_plan.rs:21-78 | A spawn has the present entry number exactly if it was made in this visit, and the present move count exactly if, besides, no other row came since |
| SpawnNaming.PlanIsOfThisVisit | crates/rhei-cli/src/cli/agent_spawn_plan.rs:21-78 | The plan counts past every accounted spawn of this visit and continues from none of an earlier one |
| SpawnNaming.StalingExactly | crates/rhei-cli/src/cli/agent_spawn_records.rs:216-230 | A step leaves a record of this visit at an older count exactly if it appends a row of the ticket that is no movement after an accounted spawn of the visit, or records one planned before such a row |
| SpawnNaming.RunHolds | crates/rhei-cli/src/cli/spawn_record_writes.rs:12-72 | Up to the first such step every run keeps records at or past the attempts they account for, visits' attempts rising, and every log known |
| SpawnNaming.PlannedNameIsFresh | crates/rhei-cli/src/cli/agent_spawn_plan.rs:21-78 | Over every run without such a step, the planned name is none an accounted spawn had, the attempt is past this visit's, and no earlier visit's record is taken as the previous attempt |
| SpawnNaming.NoNameIsReused | crates/rhei-cli/src/cli/agent_log_files.rs:198-211 | Over those runs an accounted spawn's log is never given to a later spawn, even when logs are moved away |
| SpawnNaming.LogsStay | crates/rhei-cli/src/cli/agent_log_files.rs:243-259 | Over every run in which no log is moved away, whatever rows the ledger has, all spawns have different logs, with a record or without, and all are still there |
| SpawnNaming.RefusedExactly | crates/rhei-cli/src/cli/agent_spawn_plan.rs:80-95 | Over every run, unless somebody else's file has the name, a spawn is refused exactly if one of this visit had the planned attempt and its log is still there; in a steady run that one has no record, and at the present count it is any that no record answers for |
| SpawnFreshness.SteadyMeans | crates/rhei-cli/src/cli/agent_spawn_records.rs:216-230 | No record of the present visit is ever at another count than the ledger's exactly if no step is `Staling` |
| SpawnFreshness.FreshExactly | crates/rhei-cli/src/cli/agent_spawn_plan.rs:21-78 | Over a run from any start whose records of the visit are those of spawns it lists, no plan ever takes an accounted spawn's name exactly if no step is `Staling` |
| SpawnFreshness.FreshIsConsistent | crates/rhei-cli/src/cli/agent_spawn_plan.rs:21-78 | A start with no record of the present visit is such a start |
| SpawnFreshness.RunStaysConsistent | crates/rhei-cli/src/cli/agent_spawn_plan.rs:21-78 | And so is where any steady run from one comes to, in the middle of a visit too |
| SpawnFreshness.StalePlanExactly | crates/rhei-cli/src/cli/agent_spawn_plan.rs:32-34 | At the first stale record, from any start, the plan is attempt 1, and its name is taken exactly if the visit has an accounted first attempt |
| SpawnFreshness.UnknownRowReusesName | crates/rhei-cli/src/cli/agent_spawn_records.rs:216-230 | After a row that starts with the ticket and is no movement, the plan of this visit is its first attempt again, under a name already used |
| SpawnFreshness.NoteBlocksVisit | crates/rhei-cli/src/cli/agent_spawn_records.rs:216-230 | A run from nothing: a recorded spawn, a metadata row the parser skips, and the visit's next spawn is refused for the first one's name |
| SpawnFamilies.FamiliesMeetExactly | crates/rhei-cli/src/cli/agent_log_files.rs:178-211 | Families of different stems share a log name exactly if one stem is the other followed by a later entry's number or attempt, and a record name exactly if by an entry's number |
| SpawnFamilies.IdentitiesDecide | crates/rhei-cli/src/cli/agent_log_files.rs:178-189 | In one state of one task that is a condition on the identities' own parts of the name |
| SpawnFamilies.OpusMeets | crates/rhei-cli/src/cli/agent_log_files.rs:178-211 | `opus` at its second entry has the log and the record name of `opus-2` at its first |
| SpawnFamilies.OthersKeepSound | crates/rhei-cli/src/cli/agent_spawn_plan.rs:21-78 | A family's step is, for a family apart from it, one of its environment, and keeps what that one's runs keep |
| SpawnFamilies.NotOfFamily | crates/rhei-cli/src/cli/agent_spawn_records.rs:187-200 | A record of a family that is apart has none of this one's record names |
| SpawnFamilies.ApartFamiliesAreFresh | crates/rhei-cli/src/cli/agent_spawn_plan.rs:80-95 | Over every steady run of any families that are apart, no plan takes any family's recorded name, and a spawn is refused only for a log of its own visit without a record |
| SpawnFamilies.NumberedFamiliesClash | crates/rhei-cli/src/cli/agent_log_files.rs:178-211 | Families not apart come to a clash: a run from nothing, for every number a stem ends in |
| SpawnFamilies.FamiliesClashExactly | crates/rhei-cli/src/cli/agent_log_files.rs:178-211 | Any two families, of whatever tasks and states, can come to clash exactly if their stems are equal or one is the other with a later entry's number or attempt after it, that is if they are not apart |
| SpawnFamilies.IdentitiesClashExactly | crates/rhei-cli/src/cli/agent_log_files.rs:178-189 | For two identities of one state that is a condition on their own parts of the name |
| SpawnFamilies.StatesMeet | crates/rhei-cli/src/cli/agent_log_files.rs:198-211 | State `review` under identity `fix` and state `review-fix` can clash |
| SpawnFamilies.NumberedStatesMeet | crates/rhei-cli/src/cli/agent_log_files.rs:198-211 | State `draft-2` and the second entry of state `draft` can clash |
| SpawnPlan.TicketMoveCount | crates/rhei-cli/src/cli/agent_spawn_records.rs:216-230 | Counts the lines that start with the ticket over both ledgers, an unreadable one as none |
| SpawnPlan.TicketEntryNumber | crates/rhei-cli/src/cli/agent_log_files.rs:100-131 | Refused exactly if a ledger cannot be read or parsed; otherwise the number of the two ledgers' movements in turn |
| SpawnPlan.PrintedCounts | crates/rhei-cli/src/cli/agent_log_files.rs:100-131 | On a printed ledger both counts are those of its items: a force pair is two lines and one arrival, another ticket's rows are none |
| SpawnPlan.Runtime.CreateExclusively | crates/rhei-cli/src/cli/agent_log_files.rs:243-259 | Makes the log exactly if its name is free, and changes no other |
| SpawnPlan.Runtime.Drop | crates/rhei-cli/src/cli/agent_log_files.rs:314-321 | Removes the log only of a spawn that never started |
| SpawnPlan.Runtime.PlanNamed | crates/rhei-cli/src/cli/agent_spawn_plan.rs:117-139 | From the ledger's text, the next plan, or a refusal exactly if its name is taken |
| SpawnPlan.Runtime.Spawn | crates/rhei-cli/src/cli/agent_spawn_plan.rs:117-139 | One spawn is the run of its start and ending, or refused, also when another writer takes the name in between; no log there before goes |
| Calendar.YearsAddUp | crates/rhei-cli/src/cli/agent_command.rs:485-487 | The day count's years are as long as their months, by the leap rule |
| Calendar.CivilIsTheDate | crates/rhei-cli/src/cli/agent_command.rs:486-496 | Every day count, negative ones too, gives a valid Gregorian date whose day count it is |
| Calendar.DatesInOrder | crates/rhei-cli/src/cli/agent_command.rs:486-496 | Day counts order and identify dates as year, month and day do |
| Calendar.CivilInverts | crates/rhei-cli/src/cli/agent_command.rs:486-496 | It undoes the day count of every valid date, and no other date has the day count it was given |
| Calendar.TimesInOrder | crates/rhei-cli/src/cli/agent_command.rs:472-480 | Later seconds have later dates and clock readings, all valid |
| Calendar.TextSortsAsTime | crates/rhei-cli/src/cli/agent_command.rs:472-483 | Through year 9999 two timestamps sort as text exactly as their moments do, which the record readers rely on |
| Calendar.TextSays | crates/rhei-cli/src/cli/agent_command.rs:472-483 | Through year 9999 the fields read back from the text are a valid date and clock reading that make up exactly the seconds it was printed from |
| Calendar.TextOrderEndsThere | crates/rhei-cli/src/cli/agent_command.rs:482 | The first second of year 10000 sorts before the last of 9999 |
| Calendar.TextOrderLimit | crates/rhei-cli/src/cli/agent_command.rs:482 | All texts up to a moment sort as their moments do exactly if it is within year 9999 |
| AccountingIdentity.EncodeInverts | crates/rhei-cli/src/cli/accounting.rs:1534-1553 | Percent-encoding is undone by decoding, holds no colon, and is empty only for the empty text |
| AccountingIdentity.PlainStays | crates/rhei-cli/src/cli/accounting.rs:1534-1553 | A text encodes to itself exactly if it is letters, digits, dots, underscores and hyphens alone |
| AccountingIdentity.SegmentTells | crates/rhei-cli/src/cli/accounting.rs:1534-1553 | Two texts have one segment exactly if they are equal, an empty one reading as `task` |
| AccountingIdentity.SplitLastAt | crates/rhei-cli/src/cli/accounting_identity.rs:32-40 | A separator with no colon after it is the one a split from the right finds |
| AccountingIdentity.PartsOfAttemptId | crates/rhei-cli/src/cli/accounting_identity.rs:32-40 | Parsing a printed attempt id returns its encoded run, its move and its attempt, whatever the other parts hold |
| AccountingIdentity.PartsMean | crates/rhei-cli/src/cli/accounting_identity.rs:32-40 | An id parses as an attempt of a run without colons exactly if it ends in that run, not empty, and in texts of the two numbers, a plus sign allowed, that fit 64 bits |
| AccountingIdentity.VisitIdHasNoParts | crates/rhei-cli/src/cli/accounting_identity.rs:16-40 | No visit-level id parses as an attempt's, whatever its task, state and target hold |
| AccountingIdentity.AttemptIdTells | crates/rhei-cli/src/cli/accounting.rs:610-624 | Two attempts have one id exactly if all their parts are the same, an empty text reading as `task`; so ids are injective over non-empty parts |
| AccountingRoots.EnumerateRoot | crates/rhei-cli/src/cli/accounting_roots.rs:60-78 | A root is added once under its canonical key, and its rhei listed there and nowhere else |
| AccountingRoots.OwnersTell | crates/rhei-cli/src/cli/accounting_roots.rs:116-122 | More owners than listed rheis means exactly that a rhei outside the scope roots there |
| AccountingRoots.AccountingRoots | crates/rhei-cli/src/cli/accounting_roots.rs:87-124 | No directory twice, the run root first when project-wide, each root with exactly its rheis in scope, every rhei in scope covered, shared exactly if somebody out of scope is there |
| AccountingMerge.CompatibleIsSymmetric | crates/rhei-cli/src/cli/accounting_identity.rs:69-85 | Whether two records can share a union does not depend on which was read first |
| AccountingMerge.BothAreKept | crates/rhei-cli/src/cli/accounting_identity.rs:45-85 | Two different records of one older id are both kept exactly if task, state, visit and target agree and either both say different runs or both ran forward in time and neither started before the other ended |
| AccountingMerge.Merge | crates/rhei-cli/src/cli/accounting_roots.rs:315-376 | The loop over roots and records computes the union, and its per-root counts are the kept records of each root and sum to all |
| AccountingMerge.FateFrom | crates/rhei-cli/src/cli/accounting_roots.rs:334-363 | The lookup by id decides as a look at every kept record would |
| AccountingMerge.FateMeans | crates/rhei-cli/src/cli/accounting_roots.rs:334-363 | A record is a copy exactly if an equal one is kept, kept exactly if new and compatible with all kept, and otherwise refused by the first kept record it clashes with |
| AccountingMerge.MergedAgree | crates/rhei-cli/src/cli/accounting_roots.rs:315-366 | The kept records are pairwise different and compatible |
| AccountingMerge.RecordsAreConserved | crates/rhei-cli/src/cli/accounting_roots.rs:315-376 | Every in-scope record is kept, a copy of a kept one, or named in a conflict with a kept one, and the three numbers add up |
| AccountingMerge.RefusedIsNotKept | crates/rhei-cli/src/cli/accounting_roots.rs:341-362 | A record is refused exactly if nothing equal to it is kept, before it or after: no record has two fates |
| AccountingMerge.NoConflictMeans | crates/rhei-cli/src/cli/accounting_roots.rs:315-366 | There is no conflict exactly if every two records are equal or compatible, and then exactly they are kept |
| AccountingMerge.OrderDoesNotMatter | crates/rhei-cli/src/cli/accounting_roots.rs:315-366 | Readings of the same in-scope records, in any order of roots and records and with repeats, agree on whether there is a conflict, and without one keep the same records |
| AccountingPricing.PriceIsClose | crates/rhei-cli/src/cli/accounting_pricing.rs:50-93 | A price is never above the exact rational cost, and below it by less than four micro-units unless capped |
| AccountingPricing.PriceTokensMeans | crates/rhei-cli/src/cli/accounting_pricing.rs:5-71 | There is an amount exactly where a priced dimension was measured and the book has an entry for provider and model, by the first such entry; nothing applies exactly where nothing was measured |
| AccountingPricing.RestatedCounts | crates/rhei-cli/src/cli/accounting_reading.rs:199-215 | Restating adds the cached parts to the input and to the whole, up to the largest 64-bit number, where they were measured, and changes nothing else |
| AccountingPricing.RestateInverts | crates/rhei-cli/src/cli/accounting_reading.rs:199-215 | The uncached part of restated counts is the stored input total exactly if the counts fit in 64 bits or the total is zero or unmeasured |
| AccountingPricing.RestatedCostsTheSame | crates/rhei-cli/src/cli/accounting_reading.rs:199-215 | Pricing restated counts equals pricing the stored ones by the old formula, at every rate, exactly if the counts fit; it is never above it |
| AccountingPricing.CountsCanBeTooMany | crates/rhei-cli/src/cli/accounting_reading.rs:204-206 | The largest input count with one cached token: restating saturates, and a token is not charged for |
| AccountingPricing.IncludedCostsNoMore | crates/rhei-cli/src/cli/accounting_reading.rs:250-270 | Where the cache is included the new amount is at most the old, and equal where nothing is cached |
| AccountingPricing.NamedBookIs | crates/rhei-cli/src/cli/accounting_reading.rs:112-123 | The book beside the records is taken if it has the id, then the archive under it, then the built-in; none exactly if none of the three has it |
| AccountingPricing.ConventionsAre | crates/rhei-cli/src/cli/accounting_reading.rs:34-51 | Which stated conventions and which agents mean that input includes the cache, and which that it does not |
| AccountingPricing.ReadingChargesOnce | crates/rhei-cli/src/cli/accounting_reading.rs:144-248 | A record's money as read is today's price of its tokens as read by its writer's book; there is none exactly where the stored amount charged the cache twice and neither the book beside the records, nor an archive, nor the built-in book has that id |
| PriceReachability.ReachableIsLeast | crates/rhei-cli/src/cli/accounting_profile_prices.rs:41-75 | A closed set of reachable states is exactly what runs can reach, and in every closed set |
| PriceReachability.EdgesAre | crates/rhei-cli/src/cli/accounting_profile_prices.rs:63-74 | An edge is a rule from its state or from the wildcard, out of a declared state that is not terminal, to an allowed one; so an allowed target of a wildcard is an edge out of every such state |
| PriceReachability.PushExits | crates/rhei-cli/src/cli/accounting_profile_prices.rs:63-74 | Pushes every declared or wildcard exit to an allowed state, and only reachable states |
| PriceReachability.Visit | crates/rhei-cli/src/cli/accounting_profile_prices.rs:41-75 | The worklist ends on any machine; its visited set is exactly the reachable states, the least closed set; its agent states are exactly the declared ones among them that are neither terminal nor gating nor a program, each met once |
| PriceReachability.SelectedRunInvocations | crates/rhei-cli/src/cli/accounting_profile_prices.rs:23-78 | Refused exactly if resolving some reachable agent state of a task in scope fails, otherwise exactly the invocations of all of them |
| PriceReachability.SourcesMerge | crates/rhei-cli/src/cli/accounting_profile_prices.rs:225-255 | Price sources merge exactly if every two of one provider and model have the same rates, and each pair then has them |
| PriceReachability.SourcesAreListed | crates/rhei-cli/src/cli/accounting_profile_prices.rs:225-255 | A merged pair lists the labels and profiles of all its sources, each once and in order |
| LogTail.Trimmed | crates/rhei-cli/src/cli/attach_tail.rs:133 | The line up to its trailing line feeds and carriage returns, and no further |
| LogTail.ReadNewLines | crates/rhei-cli/src/cli/attach_tail.rs:86-141 | The loop gives exactly the poll's lines, trimmed, and moves the offset past them, the rotation and the fragment included |
| LogTail.PollsCompose | crates/rhei-cli/src/cli/attach_tail.rs:86-141 | Two polls of a growing log give together what the second alone would |
| LogTail.ScheduleDoesNotMatter | crates/rhei-cli/src/cli/attach_tail.rs:74-82 | Over every schedule of appends and polls a growing log has given what one poll of it would |
| LogTail.PollGives | crates/rhei-cli/src/cli/attach_tail.rs:101-140 | What is given is the first of the lines due, each a whole line; all of them exactly if the fragment passed over and every line due are text; otherwise nothing from the first that is not |
| LogTail.EachLineOnce | crates/rhei-cli/src/cli/attach_tail.rs:39-141 | After any schedule the lines given are those due, once and in order, exactly under that condition |
| LogTail.ReplacedGives | crates/rhei-cli/src/cli/attach_tail.rs:91-96 | A log found shorter than what was read gives the first complete lines of what it holds now, from byte 0, all of them exactly if every one is text, and goes on just past them |
| LogTail.ReplacedOnce | crates/rhei-cli/src/cli/attach_tail.rs:86-141 | Over any schedule before and after, a log that is replaced and then grows adds the first complete lines of the new file as last seen, all of them exactly if every one is text |
| LogTail.MidCharacterStays | crates/rhei-cli/src/cli/attach_tail.rs:103-113 | A backfill that starts inside a character never gives anything |
| LogTail.TextCanBeLost | crates/rhei-cli/src/cli/attach_tail.rs:46-58 | A log that is text throughout can be followed from inside a character |
| LogTail.Tailer.Follow | crates/rhei-cli/src/cli/attach_tail.rs:39-59 | The task and slot is followed once, last and from the backfill offset, and the others as they were, in order |
| LogTail.Tailer.Release | crates/rhei-cli/src/cli/attach_tail.rs:64-72 | The log is dropped after one last poll, which is returned, and nothing of that task and slot is followed any more |
| LogTail.Tailer.PollAll | crates/rhei-cli/src/cli/attach_tail.rs:75-81 | Every followed log is polled once, its lines in order |
| Fences.FenceTracker.Read | crates/rhei-core/src/fence.rs:53-76 | Reads one line as the tracker's step does |
| Fences.FenceMeans | crates/rhei-core/src/fence.rs:17-29 | A line is a fence of a marker, run and bareness exactly if it is white space, that run of at least three backticks or tildes, and a rest that does not go on with the marker and is blank just when bare |
| Fences.TrackerReadsBlocks | crates/rhei-core/src/fence.rs:31-84 | A line is a fence line, or is read with a block open, exactly if it belongs to a block of the document; and a fence line exactly if it opens or closes one |
| Fences.FreshTrackerAgrees | crates/rhei-core/src/header.rs:68-75 | Below a line outside every block a fresh tracker has the state of one run over the whole document |
| Fences.BlocksBelow | crates/rhei-core/src/header.rs:68-75 | The blocks below such a line are those of the text below it |
| Fences.HeaderMeans | crates/rhei-core/src/header.rs:26-29 | The header test holds exactly of `#`, white space, one of the two names, a colon, white space, and any title |
| Fences.FindHeaderLine | crates/rhei-core/src/header.rs:36-43 | The first header line outside every block, or none |
| Fences.BlankAndRule | crates/rhei-core/src/header.rs:68-81 | Blank is white space alone, and a rule is three hyphens with only white space around |
| Fences.FindFrontmatter | crates/rhei-core/src/header.rs:68-81 | The first header, and the frontmatter exactly if the first content below it outside every block of the whole document is a rule, closed by the next rule |
| ShellQuote.QuotedReads | crates/rhei-core/src/platform.rs:180-212 | A quoted value, wherever it stands, adds exactly itself to the word being read |
| ShellQuote.QuoteInverts | crates/rhei-core/src/platform.rs:180-212 | A POSIX shell reads any quoted value as one word equal to it |
| ShellQuote.BareStays | crates/rhei-core/src/platform.rs:180-212 | A value is left bare exactly if it is not empty, starts with no `=` and has only the safe characters; any other stands between single quotes |
| ShellQuote.LinesRead | crates/rhei-core/src/platform.rs:135-176 | Copy, move and make-directory lines read as their verb words and the given paths |
| ShellQuote.TrimReads | crates/rhei-core/src/platform.rs:156-161 | The shortening line reads as a copy, `&&`, and a `dd` whose words carry the file and the length |

## Left out

- Real files, `flock`, pipes, signals and timers: a lock is a mode per thread and root, a pipe is a byte sequence with a read position, a disk is a map; waiting is any number of steps of others.
- The 100 ms wait for stray writers after the captured flag, and the poll interval, which only bound how long a wait lasts.
- RootInterlock.ProtectionLasts: guards handed from one thread to another are not modelled; a hold belongs to the thread that took it.
- The removal marker's owner exemption (`root_access_removal.rs`): its marker is one more that refuses.
- The exact fairness of operating-system locks: `RootOrder` counts every earlier waiter on the root as a blocker, which covers queueing locks and those that let readers past.
- Nested projects: `inputs` is any function from a root to the roots it needs, so the directory walk and the `shared_roots` skip below a nested project are not modelled.
- OutputDrain.ExitIsCaptured: a source that cannot say what it held leaves the spawner to wait for the reader's end, so no bound is stated for it.
- Decoding output lines and member names lossily to text: lines are bytes, and member names go through `decode`.
- The `tar` crate's own choice of prefix split: `ArchiveWriter.PackAndRead` holds for every legal place, and `PlaceFor` is one.
- ArchiveReader.MemberFindings: which members a check names and an event prunes are parameters, since they come from JSON documents.
- JSON canonicalisation, SHA-256, UUID and RFC 3339 parsing.
- The budget half of spawn records (charges, grants, withheld visits, provider unavailability): no name or attempt depends on it.
- Counted states' visit numbers, which come from the ticket's own count rather than the ledger.
- SpawnNaming.PlannedNameIsFresh: holds over one ledger per ticket whose movements of the ticket are its walk.
- SpawnFreshness.FreshExactly: a record of the present visit that answers for no spawn the start lists, an older program's unsuffixed one above all, is outside it; `SpawnFreshness.StalePlanExactly` says what a stale record does then, and `SpawnNaming.PlannedNameIsFresh` holds there too.
- Spawn records that are removed or become unreadable: no action of the runs does this, so nothing is said of the names planned after it.
- SpawnFamilies.FamiliesClashExactly: identities whose parts of the name are equal are one family under two spellings, none and the empty one.
- SpawnPlan.Runtime.PlanNamed: one printed ledger; the sums over a second running ledger are those of `SpawnPlan.TicketMoveCount` and `SpawnPlan.TicketEntryNumber`.
- SpawnPlan.Runtime.Spawn: the ticket does not move while this method's spawn runs; in `SpawnNaming` it may.
- Overflow of 64-bit day counts, attempts and move counts, and timestamps before 1970, which the program prints as 1970.
- The final sort of the union by start time, the spawns read beside the records, price books generated from profiles, and all error wording.
- AccountingPricing.ReadingChargesOnce: a record that states it excludes the cache is not covered, since the program never writes one; one of unknown convention is read as stored.
- `quote_for_cmd` and `quote_for_cmd_path`: `cmd` has no published grammar to read them back with.
- Shell lines are read as words and `&&`; a line with other operators, expansions or patterns outside quotes has no reading here, and none is printed.
- Carriage returns before a line's end, which `lines()` removes: the scanners are given lines already.
