# flap-dashboard trace processing, modelled in Dafny

flap-dashboard collects kernel trace logs and turns them into browsable data.
Every syscall of a traced process appears as an ENTER line (`EN`) and an EXIT
line (`EX`). The model covers both halves of the repository.

The **Go half** reads the trace files:
- A reader (`include/workers/reader.go`) takes one chunk of a file. It
  recognises each line with a regular expression and parses the line's
  key=value block. It then sends a packet to a reductor, chosen by the 64-bit
  FNV-1a hash of the packet's trace key (`pkg/hashing/fnv.go`).
- A reductor (`include/components/loader/reductors.go`) pairs packets that
  share a trace key and merges each pair into one packet.
- The interpreter (`include/components/interpreter/`) replays a
  `####`-separated syscall log through five handlers. The handlers maintain an
  fd → file-name table and an address → fd table, and report durations with
  integer nanosecond clock arithmetic.

The **Python half** does the following:
- It recognises the same trace grammar (`src/rexfsm.py`) and dumps the meta log
  (`database.py`).
- It pairs ENTER and EXIT objects into database records (`src/logreaders/`).
- It indexes a JSON-lines log into per-process, per-operand files
  (`pipeline.py`).
- It paginates and filters the HTTP API's queries (`src/api/routes.py`).
- It pairs ENTER and EXIT events for four plots (`timeline.py`, `files.py`,
  `latency.py`, `dashboard.py`).

Modules follow the source files:
- `rexfsm.dfy` (RexFsm), `database.dfy` (Database).
- `reader.dfy` (GoReader), `fnv.dfy` (Fnv), `reductor.dfy` (Reductor).
- `clock.dfy` (Clock), `tables.dfy` (Tables), `interpreter.dfy` (Interpreter).
- `logobjects.dfy`, `io_reader.dfy`, `meta_reader.dfy`, `memory_reader.dfy`.
- `pipeline.dfy`, `routes.dfy`.
- `pairing.dfy`: the keyed ENTER/EXIT loop shared by the four plot scripts.
- `timeline.dfy`, `files.dfy`, `latency.dfy`, `dashboard.dfy`.
- Shared helpers:
  - `wrappers.dfy`, `strings.dfy`: Go and Python string, split and integer-parse semantics;
  - `kvmaps.dfy`: last-write-wins map building;
  - `json.dfy`: decoded JSON values with Python's `[]`, `.get`, `in`, `int()` and `str()`.

Where the source changes things in place, the model does too:
- The fd table, the address-space table, the interpreter, the reader, the
  reductor worker, the Python `IOReader`, the pipeline's queue registry and
  the writer are classes with fields.
- Their loops are methods with loop invariants.
- Each method is proved equal to a specification function.
- What the source promises is proved about those functions as lemmas.

Integer widths: the Go integers are modelled as unbounded. FNV-1a is computed
on `bv64`. Go's truncating `/` and `%` are written out (`Clock.GoDiv`,
`Clock.GoRem`). Python's floor division `//` appears only on non-negative operands (the page arithmetic in `Routes`), where it agrees with Dafny's Euclidean `/`, so it is written as `/`.

## Model

| member | source | states |
|---|---|---|
| RexFsm.MatchCompose | src/rexfsm.py:3-8 | every line laid out from well-formed groups (digits, non-empty proc without `}`, EN/EX, word operand, spec without `}`) and whitespace runs is matched, returning exactly those groups and gaps |
| RexFsm.MatchSound | src/rexfsm.py:3-8 | whatever is matched is well-formed and is exactly the layout of the groups and gaps returned |
| RexFsm.MatchIffComposed | src/rexfsm.py:11-12 | `match_string` succeeds iff the line can be laid out from well-formed groups; otherwise it returns None (never raises) |
| RexFsm.DecompositionUnique | src/rexfsm.py:3-8 | two layouts of the same line have the same groups and gaps: the decomposition is unique |
| RexFsm.ComposeEndsWithClose | src/rexfsm.py:7 | every layout ends with the spec's closing `}` followed by nothing or a single newline |
| RexFsm.MatchEnding | src/rexfsm.py:7 | `$` tolerates exactly one trailing newline: a matching line ends in `}` or `}\n` |
| RexFsm.MatchStringCompose | src/rexfsm.py:11-12 | `match_string` returns the groups of every well-formed layout |
| Strings.SplitWhitespaceRejoin | database.py:40 | the tokens of `str.split()` are the maximal non-whitespace runs, in order: with the whitespace runs put back between them they give the string, every token is non-empty and space-free, and the runs between two tokens are non-empty |
| Strings.SplitWhitespaceOfBlank | database.py:39-40 | a whitespace-only spec has no token |
| Strings.TrimEmpty | database.py:39 | a string that strips to empty is whitespace only |
| Strings.SplitOnce | include/workers/reader.go:133 | `SplitN(s, "=", 2)` gives one piece iff there is no `=`, else the text before the first `=` and the rest, rejoining to `s` |
| Strings.Split | include/workers/reader.go:131 | `strings.Split` returns at least one piece and no piece contains the separator |
| Strings.JoinSplit | include/components/interpreter/interpreter.go:148 | splitting loses nothing: joining the pieces with the separator gives the line back |
| Strings.GoAtoiMeaning | include/components/interpreter/handlers.go:15 | `v, _ := strconv.Atoi(s)` reads `%d` text back to its integer, and is 0 for text that does not end in a digit |
| Strings.GoParseDecimal | include/components/loader/reductors.go:66 | the `%d` text of the diff parses back to the same integer |
| Strings.PyParseDecimal | src/logreaders/io.py:18-19 | Python `int()` reads back `str(n)` |
| Strings.DecimalRoundTrip | include/components/loader/reductors.go:66 | the decimal digits of a natural number denote that number |
| KvMaps.LastWins | database.py:42 | assigning pairs in order binds a key iff some pair carries it, to the value of the last such pair |
| KvMaps.PairsLastWins | include/workers/reader.go:132-136 | keeping only the accepted pieces and assigning them in order: a key is bound iff an accepted piece carries it, to the value of the last one |
| Database.SpecItemMeaning | database.py:41 | `k, v = item.split("=", 1)` succeeds iff the item holds `=`; k has no `=` and `k + "=" + v` is the item |
| Database.SpecPairsMeaning | database.py:40-41 | the pairs fail iff some item has no `=`, else pair k is item k's split |
| Database.ParseSpec | database.py:38-42 | the spec loop, with the spec dict updated item by item, equals the spec function |
| Database.PairsMapMeaning | database.py:40-42 | a key is in the spec iff some item has it before its first `=`; it maps to the rest of the last such item |
| Database.SpecMapMeaning | database.py:38-42 | an empty or whitespace spec gives `{}`; the parse raises iff a token has no `=`; otherwise the last duplicate wins and values may contain further `=` |
| Database.ClassifyLine | database.py:21-49 | one loop body: non-matching lines are skipped; status and operand are the match groups |
| Database.DumpLog | database.py:20-51 | the main loop prints the records of the matching lines in order and stops at the first ValueError |
| Database.DumpMeaning | database.py:20-51 | with no raising line the dump is every matching line's record; at the first raising line the run ends after the records before it |
| Fnv.HashFromAppend | pkg/hashing/fnv.go:8-9 | FNV-1a is a left fold: two writes equal one write of both |
| Fnv.HashSnoc | pkg/hashing/fnv.go:8-9 | one more byte applies one xor-then-multiply round |
| Fnv.HashOfConcat | pkg/hashing/fnv.go:8-9 | the hash of s + t resumes from the hash of s over t's UTF-8 bytes |
| Fnv.HashToRange | pkg/hashing/fnv.go:7-10 | for 0 < N ≤ 2^63 the index lies in [0, N), not [0, N] as the doc comment says; N = 0 is excluded as Go panics |
| Fnv.SinglePartition | pkg/hashing/fnv.go:10 | with one reductor every key goes to index 0 |
| Fnv.KnownVectors | pkg/hashing/fnv.go:8-9 | the empty input hashes to the offset basis 14695981039346656037, and "a" to the published FNV-1a value |
| GoReader.MatchCompose | include/workers/reader.go:21 | every line laid out from well-formed groups (optional kv block, operand any `}`-free text) is matched with exactly those groups |
| GoReader.MatchSound | include/workers/reader.go:21 | whatever is matched is a well-formed layout of the groups returned |
| GoReader.MatchIffComposed | include/workers/reader.go:120-123 | `FindStringSubmatch` succeeds iff the line is a well-formed layout; otherwise no packet |
| GoReader.NoBlockEmptyKv | include/workers/reader.go:21 | without the optional block the kv group is empty |
| GoReader.ComposedIsTrimmed | include/workers/reader.go:119 | a matching line is unchanged by `TrimSpace` |
| GoReader.KvPiece | include/workers/reader.go:133-134 | a piece is kept iff it holds `=`; key has no `=` and key + "=" + value is the piece |
| GoReader.ParseKv | include/workers/reader.go:130-137 | the in-place kv loop equals the kv function |
| GoReader.KvMeaning | include/workers/reader.go:130-137 | a key is bound iff a space-separated piece has it before its first `=`, to the rest of the last such piece; pieces without `=` are ignored |
| GoReader.EmptyBlockEmptyKv | include/workers/reader.go:131-137 | an absent block gives an empty kv map |
| GoReader.EnterExitSameKey | include/workers/reader.go:154-160 | ENTER and EXIT of the same pid, tid, proc and operand get the same trace key and the same reductor index |
| GoReader.LineEnd | include/workers/reader.go:97 | `ReadString('\n')` stops after the first newline or at end of input |
| GoReader.LineHasNoInnerNewline | include/workers/reader.go:97 | a line read holds no newline before its last character |
| GoReader.ReadString | include/workers/reader.go:97 | the line read is the text up to and including the next newline; err is set iff it does not end in one |
| GoReader.SkipPartialLine | include/workers/reader.go:88-94 | a reader with offset > 0 discards through the next newline |
| GoReader.ChunkText | include/workers/reader.go:96-113 | the lines handled are exactly the text from the start position to the end of the first line reaching the chunk end |
| GoReader.BoundaryLineLost | include/workers/reader.go:85-113 | when the chunk end falls right after a newline, this reader stops there and the next reader skips the whole next line (see Findings) |
| GoReader.BoundaryLineLostExample | include/workers/reader.go:85-113 | on "a\nb\n" with chunk 2, the readers handle "a\n" and nothing: "b\n" is lost |
| GoReader.DuplicateLineExample | include/workers/reader.go:88-113 | on "aaaa\nb\n" with chunk 2, the readers at offsets 2 and 4 both handle "b\n" |
| GoReader.Boundary | include/workers/reader.go:85-113 | corrected rule: the boundary of an offset is at or after it and is a line start |
| GoReader.LinesBeforeText | include/workers/reader.go:96-113 | corrected rule: a reader handles exactly the text between its two boundaries |
| GoReader.ChunkFixedText | include/workers/reader.go:85-113 | corrected rule: chunk k covers c[Boundary(k·size)..Boundary((k+1)·size)] |
| GoReader.FixedReadersCover | include/workers/reader.go:85-113 | corrected rule: n readers together handle every line of the first n chunks exactly once, in order |
| GoReader.FixedExamples | include/workers/reader.go:85-113 | the corrected rule handles both counterexample inputs correctly |
| GoReader.DeliverLine | include/workers/reader.go:118-165 | delivering a line keeps the number of reductor channels |
| GoReader.DeliverLineMeaning | include/workers/reader.go:118-165 | a rejected line sends nothing; an accepted one appends exactly one packet to the channel its trace key hashes to, and no other channel changes |
| GoReader.DeliverKeepsRouted | include/workers/reader.go:160-164 | every packet stays in the channel of its trace key's reductor |
| GoReader.DeliverCount | include/workers/reader.go:163-164 | the in-flight count grows by one per accepted line |
| GoReader.Reader.constructor | include/workers/reader.go:26-44 | a reader with its partition, chunk parameters and empty channels |
| GoReader.Reader.MakePacket | include/workers/reader.go:118-156 | the packet built from a line is the one the line grammar defines for the trimmed line, tagged with the reader's id and file path; none when the trimmed line does not match |
| GoReader.Reader.LogHandler | include/workers/reader.go:118-165 | the channels after one line are the delivery function of the line |
| GoReader.ReadLine | include/workers/reader.go:96-113 | the line read in the loop is the next line of the chunk; the loop may stop exactly when the chunk's lines have all been read |
| GoReader.Reader.ReadAndHandle | include/workers/reader.go:95-113 | one turn of the read loop delivers the next line of the chunk and stops after the line reaching the chunk end or at the end of the file |
| GoReader.Reader.Start | include/workers/reader.go:47-114 | the channels after the reader has run hold the delivery of exactly the chunk's lines |
| Reductor.MergeMeaning | include/components/loader/reductors.go:63-72 | the merge keeps start's partition and key; `diff` is end − start unless end carries its own; end's kv wins on shared keys; start's other keys are kept |
| Reductor.PairStartsAtEnter | include/components/loader/reductors.go:41-50 | in either arrival order the merged packet is built on the ENTER, goes to its partition, and its diff runs ENTER → EXIT |
| Reductor.StepConsistent | include/components/loader/reductors.go:36-57 | one packet keeps readLogs == 2·sentLogs + pending, one send per pair, and each pending packet under its own key |
| Reductor.StepPending | include/components/loader/reductors.go:41-57 | a key is pending after a packet iff exactly one of: it was pending, the packet carries it |
| Reductor.RunMeaning | include/components/loader/reductors.go:31-60 | from an empty reductor the counters stay consistent, readLogs counts all packets, and a key is pending iff an odd number of packets carried it |
| Reductor.ReductorWorker.constructor | include/components/loader/reductors.go:12-28 | a worker with empty memory and zero counters |
| Reductor.ReductorWorker.Receive | include/components/loader/reductors.go:36-57 | receiving a packet updates the worker's fields as one step and keeps the invariant |
| Clock.GoDiv | include/components/interpreter/time_manager.go:47 | Go's `/` truncates toward zero |
| Clock.GoDivRem | include/components/interpreter/time_manager.go:47-48 | q·1e9 + r == x, \|r\| < 1e9, and r carries the sign of x |
| Clock.Unix | include/components/interpreter/time_manager.go:50 | `time.Unix(secs, nsecs)` is normalised and denotes secs·1e9 + nsecs ns |
| Clock.SplitExact | include/components/interpreter/time_manager.go:47-48 | the split recombines exactly, with a remainder below a second carrying the sign of the total |
| Clock.ToTimeExact | include/components/interpreter/time_manager.go:40-50 | `ToTime(t)` denotes RefWall + (t − RefMono) ns |
| Clock.AtReference | include/components/interpreter/time_manager.go:42-45 | `ToTime(RefMono)` is exactly RefWall ns |
| Clock.Monotone | include/components/interpreter/time_manager.go:42-45 | a ≤ b implies ToTime(a) ≤ ToTime(b) |
| Clock.Shift | include/components/interpreter/time_manager.go:42-45 | ToTime(t + d) − ToTime(t) == d ns |
| Tables.PutMeaning | include/components/interpreter/memory.go:11-17 | after `put`, the fd maps to the name; every other binding is unchanged |
| Tables.ReplaceMeaning | include/components/interpreter/memory.go:20-27 | `replace` moves old's name to new and unbinds old when old is bound; nothing changes otherwise; `replace(x, x)` unbinds x |
| Tables.FdTable.constructor | include/components/interpreter/interpreter.go:52-54 | the table starts empty |
| Tables.FdTable.Put | include/components/interpreter/memory.go:11-17 | the in-place `put` equals the put function |
| Tables.FdTable.Replace | include/components/interpreter/memory.go:20-27 | the in-place `replace` equals the replace function |
| Tables.FdTable.Remove | include/components/interpreter/memory.go:30-34 | `remove` never changes the table |
| Tables.PutRegionMeaning | include/components/interpreter/memory.go:54-60 | `put` stores [start, start + boundary] for the fd, replacing any earlier region; other fds keep theirs |
| Tables.RemoveRegionMeaning | include/components/interpreter/memory.go:63-67 | `remove` unbinds exactly that fd, and does nothing for an unknown proc |
| Tables.AddressSpace.constructor | include/components/interpreter/interpreter.go:57-59 | the address space starts empty |
| Tables.AddressSpace.Put | include/components/interpreter/memory.go:54-60 | the in-place `put` equals the put function |
| Tables.AddressSpace.Remove | include/components/interpreter/memory.go:63-67 | the in-place `remove` equals the remove function |
| Tables.AddressSpace.Search | include/components/interpreter/memory.go:70-80 | returns some fd whose region contains the address (both ends inclusive), or −2 when none does; the fd chosen among overlapping regions is left open |
| Interpreter.ParseLineSound | include/components/interpreter/interpreter.go:148-157 | a parsed line starts with its four fields joined by "####", none of which holds "####" |
| Interpreter.ParseLineComplete | include/components/interpreter/interpreter.go:148-157 | four `#`-free fields joined by "####" parse back to themselves, whatever fields follow |
| Interpreter.ThreeFieldsSkipped | include/components/interpreter/interpreter.go:149-150 | a line with three fields is skipped |
| Interpreter.KvEntrySound | include/components/interpreter/interpreter.go:162-166 | an accepted piece holds exactly one `=`; the pair is its two sides trimmed of spaces |
| Interpreter.KvEntryComplete | include/components/interpreter/interpreter.go:162-166 | a key and a value without `=` read back trimmed |
| Interpreter.KvEntryDropsEquals | include/components/interpreter/interpreter.go:164 | a value containing `=` drops the whole piece |
| Interpreter.KvOfTextMeaning | include/components/interpreter/interpreter.go:160-168 | a key is bound iff an accepted `****` piece has it, to the value of the last such piece |
| Interpreter.BuildKv | include/components/interpreter/interpreter.go:160-168 | the in-place kv loop equals the kv function |
| Interpreter.DispatchTable | include/components/interpreter/interpreter.go:62-85 | the operands of each of the five handlers, both directions |
| Interpreter.DurationIsDiff | include/components/interpreter/handlers.go:29-40 | the reported duration is the parsed `diff` (0 when absent), whatever the reference times |
| Interpreter.UnhandledLineIgnored | include/components/interpreter/interpreter.go:171-173 | a skipped line or an operand with no handler leaves the state unchanged |
| Interpreter.FailedCallIgnored | include/components/interpreter/handlers.go:15-18 | every handler does nothing when `ret` parses negative |
| Interpreter.IOMeaning | include/components/interpreter/handlers.go:13-46 | the I/O handler leaves the tables alone and appends one report: the bound name or "unknown (fd=<fd>)", the count text and the diff |
| Interpreter.FdTableMeaning | include/components/interpreter/handlers.go:49-63 | `close` leaves the table unchanged; any other successful call binds fd `ret` to `fname`; nothing else changes |
| Interpreter.UpdateFdMeaning | include/components/interpreter/handlers.go:66-78 | dup* moves oldfd's name to newfd and unbinds oldfd |
| Interpreter.MemoryUnmappedSilent | include/components/interpreter/handlers.go:89-94 | a page fault outside every region of the process reports nothing |
| Interpreter.MemoryMappedReports | include/components/interpreter/handlers.go:81-118 | a fault inside a region appends one report naming the file of some fd whose region holds the address |
| Interpreter.AddressSpaceMeaning | include/components/interpreter/handlers.go:121-140 | `mmap` stores [ret, ret + len] under `fd`; `munmap` unbinds an fd whose region holds the address in `ret` |
| Interpreter.ToDatetimeExact | include/components/interpreter/interpreter.go:88-98 | `toDatetime` is `ToTime` of the same references: RefWall + (t − RefMono) ns, exactly |
| Interpreter.Interp.constructor | include/components/interpreter/interpreter.go:32-59 | empty tables, the given reference times, no output |
| Interpreter.Interp.HandleIO | include/components/interpreter/handlers.go:13-46 | appends the I/O reports to the output |
| Interpreter.Interp.HandleFdTable | include/components/interpreter/handlers.go:49-63 | updates the fd table as the fd-table effect |
| Interpreter.Interp.HandleUpdateFd | include/components/interpreter/handlers.go:66-78 | updates the fd table as the dup effect |
| Interpreter.Interp.HandleMemory | include/components/interpreter/handlers.go:81-118 | the output grows by the report of some outcome of the region search |
| Interpreter.Interp.HandleAddressSpace | include/components/interpreter/handlers.go:121-140 | the region table changes as mmap/munmap for some outcome of the search |
| Interpreter.Interp.ProcessLine | include/components/interpreter/interpreter.go:143-173 | one line takes the state one allowed step |
| Interpreter.ScanLines | include/components/interpreter/interpreter.go:140-145 | every line the scanner yields is newline-free and shorter than 64 KiB |
| Interpreter.ScanRejoin | include/components/interpreter/interpreter.go:140-145 | on text without carriage returns, a scan that does not stop early yields the lines that, each followed by a newline, give the text back |
| Interpreter.ScanTooLongMeaning | include/components/interpreter/interpreter.go:140-178 | the scan stops with ErrTooLong exactly when some line of the text is 64 KiB or longer |
| Interpreter.ScanDropsCR | include/components/interpreter/interpreter.go:143-145 | a line ending in "\r\n" is yielded without its carriage return |
| Interpreter.Interp.ProcessFile | include/components/interpreter/interpreter.go:132-182 | the scanned lines are handled in order, one allowed step each, and the call fails exactly when the scanner stops on a line over its buffer |
| Interpreter.Interp.Process | include/components/interpreter/interpreter.go:143-173 | the states after each line form a chain of allowed steps from the old state to the new one |
| LogObjects.SpecIntMeaning | src/logreaders/io.py:18-19 | `int(spec.get(key, default))` reads a stored decimal back as its number, and a missing key as the default |
| IoReader.BuildRecord | src/logreaders/io.py:17-37 | no record iff fd < 0 or ret < 0 (defaults −1); a record carries the validated fd and ret, count or 0, pid/tid/proc/event_name from the ENTER and each timestamp from its own side |
| IoReader.MissingFdRejected | src/logreaders/io.py:18-22 | an ENTER without `fd` never gives a record |
| IoReader.DecimalFieldsKept | src/logreaders/io.py:18-36 | decimal fd, ret and count come through unchanged |
| MetaReader.BuildRecord | src/logreaders/meta.py:17-34 | no record iff ret < 0 (default −1); no fd check; the record's fields as the source selects them |
| MetaReader.FdIgnored | src/logreaders/meta.py:18-20 | the ENTER's fd has no effect on the result |
| MemoryReader.StepMeaning | src/logreaders/memory.py:14-52 | an ENTER replaces its (pid, tid) entry and yields None; an exit without an entry changes nothing; with one it pops it whatever the result; no other key changes; the size moves by at most one |
| MemoryReader.RunPending | src/logreaders/memory.py:14-29 | after a run a key is pending iff its last object is an ENTER, holding that object |
| MemoryReader.AsWrittenAllRaise | src/logreaders/memory.py:14-24 | as written, no line ever creates `self.memory`, so every `build_record` call raises AttributeError and the attribute never appears (see Findings) |
| MemoryReader.InitialisedRun | src/logreaders/memory.py:14-29 | with the dictionary started empty, the pending state after the calls is the run of the step function, which RunPending characterises |
| MemoryReader.IOReader.constructor | src/logreaders/__init__.py:5-8 | the corrected reader starts its pending dictionary empty, which the inherited constructor does not do (see Findings) |
| MemoryReader.IOReader.BuildRecord | src/logreaders/memory.py:14-52 | the in-place dictionary update and the result equal the step function |
| Pipeline.PathJoin | pipeline.py:85-86 | `os.path.join` always ends with its second component; a relative one keeps the first in front with at most one `/` added and a `/` at the seam; an absolute one discards what precedes it |
| Pipeline.ClassifyLine | pipeline.py:75-88 | one iteration of the batch loop yields the classification of its line |
| Pipeline.ProcessBatch | pipeline.py:70-90 | the batch loop equals the batch function |
| Pipeline.FailSticks | pipeline.py:74-88 | once a line raises, the whole batch raises |
| Pipeline.BatchOutputMeaning | pipeline.py:70-90 | a batch raises iff one of its lines does; otherwise one pair per routed line in input order, carrying the path and payload that line is routed with |
| Pipeline.SkipMeaning | pipeline.py:75-82 | lines that do not decode and objects whose `proc` is missing or falsy are skipped, and no others |
| Pipeline.OutPathMeaning | pipeline.py:85-86 | the two joins give base/procs/proc/op for a plain base and relative components, and proc/op when proc is absolute |
| Pipeline.RouteMeaning | pipeline.py:80-88 | a routed line carries its UTF-8 plus "\n" and goes to base/procs/proc/operand.jsonl; an absolute proc discards the base directory |
| Pipeline.PayloadsConcat | pipeline.py:88 | the payloads concatenated are the UTF-8 of the kept lines, each followed by a newline |
| Pipeline.BatchOutputAppend | pipeline.py:117-135 | processing a batch in two halves gives the output of processing it whole |
| Pipeline.PutAllMeaning | pipeline.py:121-123 | putting routed pairs creates exactly the queues of new paths and appends to each queue exactly its payloads, in order |
| Pipeline.PutAllAppend | pipeline.py:121-134 | putting two outputs in turn equals putting their concatenation |
| Pipeline.Registry.constructor | pipeline.py:52-53 | no queues and no writers |
| Pipeline.Registry.GetWriterQueue | pipeline.py:55-64 | a new path gets an empty queue and a started writer; a known path changes nothing |
| Pipeline.Registry.Dispatch | pipeline.py:121-123 | the queues after dispatching a batch's output are the put function of it |
| Pipeline.Registry.FlushBatch | pipeline.py:120-125 | one flush succeeds iff the lines so far do not raise, and extends the queues by the batch |
| Pipeline.Registry.IndexLogs | pipeline.py:110-140 | returns the line count iff no line raises; the queues receive exactly the output of the whole log; batches are full 2000-line batches and one last partial one |
| Pipeline.FeedBuffered | pipeline.py:31-42 | between items the byte count matches the buffer and stays below 4 MiB, each write holds at least 4 MiB, and writes followed by the buffer are exactly the items received |
| Pipeline.ShutdownWritesAll | pipeline.py:44-46 | after the sentinel the buffer is empty and the file holds every received item, in order |
| Pipeline.Writer.constructor | pipeline.py:27-28 | empty buffer, zero bytes, nothing written |
| Pipeline.Writer.Take | pipeline.py:36-42 | taking an item updates the writer as the receive function |
| Pipeline.Writer.Serve | pipeline.py:31-46 | the writer takes items up to the first None sentinel and then has written all of them in order; without a sentinel it has taken the whole queue |
| Pipeline.ReadLinesMmap | pipeline.py:96-104 | mapping an empty file raises; otherwise the lines hold no newline and rejoin to the data, or to the data plus a newline when the last line is unterminated |
| Routes.PageArgMeaning | src/api/routes.py:27 | `page` reads back the decimal it was given, and is 1 when absent |
| Routes.AsciiLower | src/api/routes.py:28 | lower-casing keeps the length, maps each capital A-Z to its small letter and keeps every other character |
| Routes.OrderingArgMeaning | src/api/routes.py:28-42 | `desc` orders descending exactly when it is "true" in any mix of ASCII cases; an absent `desc` orders ascending |
| Routes.TotalPagesCeiling | src/api/routes.py:50 | total_pages · 20 ≥ total, the last page is not empty, and there are 0 pages iff total is 0 |
| Routes.NextPrevMeaning | src/api/routes.py:55-56 | a next page iff page < total_pages, then page + 1; a previous page iff page > 1, then page − 1 |
| Routes.UnvalidatedPage | src/api/routes.py:44-56 | pages ≤ 0 are not rejected: a negative offset, no previous page, and a next page when any row exists |
| Routes.RowOnOnePage | src/api/routes.py:44-50 | row k is on page k / 20 + 1 only, and that page is within total_pages |
| Routes.Window | src/api/routes.py:47 | LIMIT 20 OFFSET o holds at most 20 rows, the next 20 when there are that many |
| Routes.PagesCover | src/api/routes.py:44-50 | pages 1..total_pages together return every ordered row exactly once, in order |
| Routes.FileRows | src/api/routes.py:34-35 | the grouped rows are those with `proc IS :proc` and `event_name IS NOT 'close'` |
| Routes.GroupSums | src/api/routes.py:72-77 | a group's `count()` is the number, and its `sum(countbytes)` the total, of exactly the selected rows with that file name |
| Routes.GroupMeaning | src/api/routes.py:32-40 | a file name is a group iff a selected row has it, and then its count is positive and at most the table size |
| Routes.MissingProcSelectsNull | src/api/routes.py:26-34 | without `proc` the aggregations keep only rows whose proc is NULL |
| Routes.EventRows | src/api/routes.py:168-175 | the listed rows are those passing the proc filter (non-empty proc only) and the `hunk` filter |
| Routes.EventRowsUnfiltered | src/api/routes.py:170-173 | an empty or absent proc and a hunk other than "true" list the whole table |
| Routes.HiddenUnknownKeepsNull | src/api/routes.py:172-173 | `fname IS NOT 'unknown'` keeps rows whose fname is NULL |
| Pairing.FailSticks | timeline.py:34-54 | once an event raises the whole pairing raises |
| Pairing.LastTouch | timeline.py:39-46 | the last ENTER/EXIT of a key is within the events and touches that key |
| Pairing.LastTouchMeaning | timeline.py:39-46 | nothing after the last touch touches the key; no touch means no event of the key |
| Pairing.PendingMeaning | timeline.py:41-46 | a key is pending iff its last ENTER/EXIT is an ENTER, and it then holds what that ENTER stored |
| Pairing.RunMeaning | timeline.py:30-56 | the loop raises iff some event raises given those before it; otherwise it emits, in EXIT order, one row per EXIT whose key's last earlier touch is an ENTER, unless skipped |
| Pairing.RowPerMatch | files.py:33-40 | with a row builder that never skips there is one row per matched EXIT |
| Pairing.RowsProvenance | timeline.py:45-54 | every row comes from an EXIT and an earlier ENTER of the same key |
| Timeline.PairEvents | timeline.py:30-56 | the loop over events, with the pending dict updated in place, equals the pairing function |
| Timeline.MakeRowMeaning | timeline.py:47-54 | a row holds the pair's operand, the EXIT's fname (containing "/root"), both timestamps and int() of the latency |
| Timeline.RowsMeaning | timeline.py:30-56 | every row pairs an ENTER with a later EXIT of the same (tid, operand, fd) and states those facts |
| Timeline.FilteredExitPops | timeline.py:45-47 | an EXIT whose fname lacks "/root" still pops the pending ENTER and adds no row |
| Timeline.MissingFdRaises | timeline.py:37 | an event without `details.fd` raises, whatever its type |
| Timeline.EnterOverwrites | timeline.py:41-43 | a later ENTER replaces the pending one and adds no row |
| Files.PairEvents | files.py:15-42 | the loop over events equals the pairing function |
| Files.RowPerMatchedExit | files.py:33-40 | one row per matched EXIT |
| Files.RowsMeaning | files.py:27-40 | each row pairs an ENTER with a later EXIT of the same key and holds the EXIT's fname, operand and int() latency |
| Latency.PairEvents | latency.py:17-35 | the loop over events equals the pairing function |
| Latency.RowsMeaning | latency.py:28-33 | every row carries the requested operand, and there is one row per matched EXIT |
| Dashboard.BuildPairs | dashboard.py:34-64 | the loop over events, with the stack updated in place, equals the pairing function |
| Dashboard.IntervalsMeaning | dashboard.py:45-62 | one interval per matched EXIT, each from an ENTER's ts to a later EXIT's ts of the same (tid, fd, fname), carrying that fname |
| Dashboard.DefaultsInKey | dashboard.py:46-48 | a missing fname keys as "unknown" and a missing fd as None |
| Dashboard.OtherEventsIgnored | dashboard.py:50-53 | events neither ENTER nor EXIT change nothing |

## Left out

- File and process I/O are parameters or sequences: opening, seeking, mmap, logging, `print`, output files, the Go channels and wait groups, Python processes, pools and `mp.Queue`. The reader's channels and the reductor's writer channels are sequences of what was sent.
- Concurrency is left out: the readers, the reductors, the writer processes and the pool run one at a time. The interleaving of writers and of reductor channels is not modelled.
- Floating point is left out. This covers the reference-time conversion (`RefWall * 1e9`), `total_seconds() * 1e9` latencies, µs/ms divisions, and the interval midpoint.
- Datetime parsing and formatting are left out. This covers `isoformat`, `RFC3339Nano`, `generate_datetime_from_nanos`, `parse_timestamp` and the pandas frames. Datetimes are carried as opaque values.
- JSON decoding is a parameter (`Pipeline.Decoder`). Decoded values are the `Json.JVal` datatype. Containers other than objects and strings keep only their truthiness and text.
- Python hash equality across types (1 == 1.0 == True as dict keys) and unhashable keys are not modelled. Keys are compared structurally.
- `in` on lists is not modelled.
- `str.lower` is modelled on ASCII only.
- The UTF-8 decode error of `read_lines_mmap` is not modelled. Lines are byte sequences.
- SQL is modelled only through the WHERE clauses, the grouping and LIMIT/OFFSET. These are left out:
  - ORDER BY count and the order within equal counts;
  - the engine's treatment of a negative OFFSET;
  - `sum()` over NULL;
  - the `bytes` and `duration` aggregate values beyond the per-group sums.
- Go integer overflow is not modelled: int64 timestamps, `ret + len`, and `strconv.ParseInt` range errors. `ParseInt(x, 10, 64)` and `Atoi` share `Strings.GoParseInt`.
- The handlers call `i.timeManager`, which `interpreter.go` does not declare. The model gives the interpreter a time manager built from its reference times.
- Go map iteration order in `vma.search` is modelled as an unspecified choice among matching regions.
- The loader's chunk sizing and reader/reductor start-up (`include/components/loader/loader.go`) are not part of this model.
- `src/logreaders/events.py` is not part of this model.
- Tables.AddressSpace.Search: states only that some matching fd is returned, because Go leaves the iteration order open.
- Interpreter.Interp.HandleMemory: states the report for some outcome of the search, for the same reason.
- Interpreter.Interp.HandleAddressSpace: states the effect for some outcome of the search, for the same reason.
- Fnv.HashToRange: requires N ≤ 2^63 for the range bound, because the Go result is converted to a signed `int`.
- RexFsm.MatchIffComposed: `\d` is modelled as the ASCII digits 0-9 only. Python's `\d` on a str pattern also matches every other Unicode decimal digit (category Nd), so a line whose timestamp is, say, Arabic-Indic digits is matched by the program but skipped by the model.
- Strings.PyParseInt: `int()` is modelled on ASCII digits only. Python's `int()` also accepts the other Unicode decimal digits.
- Json.PyInt: a decoded float is not modelled (it is a `JOther` value), so `int()` of it is treated as raising. Python truncates it (`int(1.5) == 1`), so a float `latency` makes the model's pairing in timeline.py, files.py and latency.py raise where the program emits a row.
- GoReader.ChunkText: offsets and chunk sizes count characters here, while Go's `Seek` and chunk sizes count bytes. The two agree on ASCII text only. The same holds for GoReader.FixedReadersCover and GoReader.Reader.Start.
- Pipeline.Registry.IndexLogs: takes the lines already read. The ValueError that `read_lines_mmap` raises on an empty log file (Pipeline.ReadLinesMmap returns None for it) is not carried into it, so on an empty file the model counts 0 lines where the program raises before any batch.
- Interpreter.ScanLines: lengths count characters, while bufio.Scanner's 64 KiB buffer counts bytes. The two agree on ASCII text only. Read errors other than ErrTooLong are not modelled.
- Pipeline.Registry.IndexLogs: a writer queue is identified by its path. The writer process started beside it is a recorded path, not a process.

## Findings

| source | as written | input that shows it | evidently intended | confidence | as-written member | corrected member |
|---|---|---|---|---|---|---|
| include/workers/reader.go:85-113 | a reader stops after the line that reaches its chunk end, and every later reader skips through its first newline; when a chunk ends exactly after a newline, the next line is read by neither reader | "a\nb\n" with chunk size 2 and two readers: reader 0 handles "a\n", reader 1 skips "b\n" | every line is handled by exactly one reader | not executed | GoReader.BoundaryLineLostExample | GoReader.FixedReadersCover |
| include/workers/reader.go:88-113 | a line longer than a whole chunk makes a reader whose chunk lies inside it skip only to the next newline, so that reader handles the following line, which the earlier reader has already handled | "aaaa\nb\n" with chunk size 2: the readers at offsets 2 and 4 both handle "b\n" | every line is handled by exactly one reader | not executed | GoReader.DuplicateLineExample | GoReader.FixedReadersCover |
| src/logreaders/memory.py:14-24 | `build_record` reads and writes `self.memory`, but neither the IOReader of memory.py nor `Reader.__init__` (src/logreaders/__init__.py:5-8) ever assigns it | any first call: for an ENTER object `self.memory[key] = obj` raises AttributeError, for any other `key not in self.memory` does | the pending dictionary starts empty, and each ENTER waits for the EXIT of its (pid, tid) | not executed | MemoryReader.AsWrittenAllRaise | MemoryReader.InitialisedRun |
