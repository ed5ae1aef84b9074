# Verified model of php-clickhouse

A Dafny model of the parts of the php-clickhouse extension that decide something: the typed
column codec, the insert and streaming state machines, the life of pooled connections, the
byte-moving loops, and the small codecs with real bounds. `dafny verify dfyconfig.toml` checks it.

## How it is put together

**Column codec.** `Columns` is the client library's column interface on values (Nullable =
nested column + flags, Array = flattened data + end offsets, Tuple = parallel columns, Map = Array
of pairs); `Rows` gives the meaning of a column, one item per row. `ColumnLaws` proves what
appending, slicing and splicing do to that meaning. `ColumnCodec` has the writer (`Append`) and a
meaning of PHP values that knows no columns (`Encode`); `CellReader` has the reader, proved against
`Decode`; `CellRoundTrip` says exactly which values come back, `ReadBack` what every other one comes
back as and which fault is reported, at any nesting, and `WireLayout` what an accepted value adds to
each part of the column that goes over the wire. `HeapColumns` and `HeapWriter` are
the same writer on mutable column objects, with the memo table of Map templates that one insert
shares. `MemoRun` is what writing a value does to the allocator and to that table, and whether it
throws what: a function of allocator, type and value, without columns. The writer does exactly that,
and a column that accepts a value is the one that `Append` specifies, where every cell has fresh
templates. `TemplateMemo` is the theory of such tables. `Insert` pivots rows into one block and runs
the conversation with the server; its outcome is a function of rows, network and allocator, and of
the rows' meaning and the network alone unless two Map types come to lie at one address.

**Connections.** `ResultStream` and `Batch` are the two long-lived objects. `Lifecycle` is a
transition system in which any number of calls, Results and Batches interleave on one pool and every
network call may fail with any exception and any state of the wire; `CleanReuse` adds when an idle
connection is fit for use. `Simulation` shows that starting, fetching from and destroying a Result,
a whole insert call, and flushing and destroying a Batch are runs of that system to the matching
state, and that the events of all other handles leave the object matching its handle, so that the runs
of many objects interleave. `Calls` goes from the call of a query, an insert or a batch by either way
to a connection to such an object, or to nothing. `Transport` has the send and receive loops.

**Codecs and configuration.** `DateTime64`, `DecimalText`, `UuidText` (text form of section 3 of
RFC 4122 and section 4 of RFC 9562), `HostList`, `Endpoints`, `Exceptions`; `Arithmetic`,
`Numerals`, `PhpValues` and `ScalarCodec` support them.

What the engine and the library decide is a parameter: `Lib` (conversions of PHP values, text
parsers), `Script` (answers of the network), `Answer` (answers of the socket), the events of
`Lifecycle`, the allocator's address function in `MemoRun`.

## What the proofs found

Each is a result with its exact condition and a lemma at an input that fails.

- **A cell that cannot be read leaks a half-read connection.** Only four exception classes poison a
  connection (ch_client.cpp:80-86). Any other exception out of a row of an unfinished stream
  releases the connection as reusable (ch_client.cpp:1061-1064) with the rest of the response
  unread; docs/architecture.md:202 promises that a half-drained connection is never reused. On an
  honest wire idle connections are always clean iff this never happens (`CleanReuse.CleanReuse`);
  `CleanReuse.LeakIsReachable` is a run.
- **The Map template table is right only while an address denotes one Map type.** It is keyed by the
  raw address of a Type object (ch_client.cpp:195-201, 399), and nested Maps live in temporary
  columns (ch_client.cpp:349) that are freed while the table lives on. Acceptable rows are sent iff
  the lookups that writing them makes see one Map type per address (`Insert.MemoInsertIff`), which
  allocators that keep Map types apart and columns without Maps guarantee; otherwise nothing is sent.
  `Insert.ReusedAddressRefusesInsert` is an acceptable row of two Array(Map) cells that is refused.
- **A Map with date-time keys can be written but not read.** The reader turns every key that is no
  integer into a string (ch_client.cpp:800-803), which the engine refuses for a date-time object; no
  such key ever returns (`CellRoundTrip.KeyReturnsIff`, at DateTime, Date and DateTime64 keys).
- **A flush whose EndInsert fails has sent its block.** The rows stay pending, so the next flush
  sends them again (`Batch.LostFlushSendsTwice`). The wire has carried exactly the acknowledged rows
  iff no flush failed after its block went out (`Batch.WireCarriesAckedIff`).
- **fetchOne with repeated column names** gives the last namesake of the first column
  (`ResultStream.FetchOnePicksLastNamesake`, `ResultStream.FetchOneMissesColumn0`).
- **A null needs a placeholder.** Null into a Nullable appends the integer 0 to the nested column
  (ch_client.cpp:328-331); where the nested type refuses it (Array, Tuple, Map, or a text the
  library cannot parse from "0"), so does the insert (`CellRoundTrip.PlaceholderIff`, `CellRoundTrip.NullableArrayRefusesNull`).
- **The round-robin counter is 32 bits.** Where it wraps the ring is kept iff the number of servers
  divides 2^32 (`Endpoints.RingStepIff`, `Endpoints.RingBreaksForThree`).
- **Default port of later hosts.** Entries without a port take the port of the first entry, not the
  client's; tests/connection/004-host-no-port.phpt describes it as the client's port, which agrees
  exactly under `HostList.DefaultIsClientPortIff`; `HostList.LaterEntryMissesClientPort` is a list
  where it does not. The code is followed.

## Model

| member | source | states |
|---|---|---|
| ColumnCodec.Append | ch_client.cpp:205-446 | an accepted value keeps the column well formed, offsets included, and adds exactly one row |
| ColumnCodec.AppendRefinesEncode | ch_client.cpp:205-446 | the writer accepts a value iff it has a meaning in the type, with the same error otherwise, and adds one row of that meaning behind untouched rows; every type, any nesting |
| CellReader.ColumnValueToZval | ch_client.cpp:602-832 | the reader returns what the row means, for every well-formed column and row |
| CellReader.ReadColumn | ch_client.cpp:751-764 | the array branch: all rows of a cut-out column, in order |
| CellReader.ReadEntries | ch_client.cpp:781-810 | the map branch: keys in order, int-like keys as ints, a repeated key overwrites in place |
| CellRoundTrip.ColumnRoundTrip | ch_client.cpp:205-832 | append then read: earlier rows read as before, and the new row reads back as the value iff the value fits the type |
| CellRoundTrip.ReturnsIff | ch_client.cpp:205-832 | a value survives iff it fits, by structural conditions on type and value |
| CellRoundTrip.KeyReturnsIff | ch_client.cpp:419-428 | a map key survives write and read iff it fits the key type: int-like strings, flags, floats, labels, composite types, and date-times, which never do |
| CellRoundTrip.PlaceholderIff | ch_client.cpp:322-338 | a null is accepted iff the nested type accepts the placeholder 0 |
| CellRoundTrip.NullableArrayRefusesNull | ch_client.cpp:322-343 | a null into Nullable(Array(String)) is a ValidationError |
| ReadBack.IntReadsBack | ch_client.cpp:210-217 | any value in an integer column is stored as the number of that width congruent to its integer, and read as that int, or as a float beyond the ints |
| ReadBack.EnumReadsBack | ch_client.cpp:294-308 | a string comes back or is refused by the library; anything else gives the label of the wrapped code |
| ReadBack.DateTime64Stores | ch_client.cpp:248-271 | what is stored: the last whole tick not after a date-time object, the rounded ticks of a float, or whole seconds scaled by the precision, as a 64-bit number |
| ReadBack.TicksReadAsInstant | ch_client.cpp:716-737 | a tick count reads as the last whole microsecond not after it |
| ReadBack.SecondsReadBackIff | ch_client.cpp:265-267 | a number n written to DateTime64 reads as the second n iff n * 10^precision fits 64 bits |
| ReadBack.DateTimeReadsBackIff | ch_client.cpp:259-262 | a date-time object reads back with its microseconds truncated to the precision iff its ticks fit 64 bits |
| ReadBack.TimeReadsBack | ch_client.cpp:236-246 | a number in Date, Date32 or DateTime reads as the date-time object of that second does |
| ReadBack.FlagAndFloatReadBack | ch_client.cpp:218-220 | a Bool is the truth of any value, a float its double, rounded once for single precision |
| ReadBack.TextReadsBack | ch_client.cpp:222-285 | a String keeps the text of any value; a FixedString fills it up with NUL bytes or refuses it; IPv4 and IPv6 keep or refuse it as the parser does |
| ReadBack.DecimalReadsBack | ch_client.cpp:310-319 | any value: the canonical text of the number that the library reads, or its refusal |
| ReadBack.UuidReadsBack | ch_client.cpp:287-292 | any value: a canonical lower-case text of the same two words |
| ReadBack.NullableReadsBack | ch_client.cpp:321-338 | a null reads as null where the nested column takes the placeholder, with its refusal elsewhere; anything else reads as in the nested column |
| ReadBack.ArrayReadsBack | ch_client.cpp:340-358 | any value: the list of what its elements read back as, or the first element's fault; no array is a ValidationError |
| ReadBack.TupleReadsBack | ch_client.cpp:360-385 | any value: the list of what its members read back as, or the first member's fault, before a wrong number is noticed; that, and no array, is a ValidationError |
| ReadBack.MapReadsBack | ch_client.cpp:387-440 | any value: the array built of what keys and values read back as, the engine's error for a key that is an object, or the first fault, each key before its value; no array and unknown types are ValidationErrors |
| ReadBack.MapRaisesIff | ch_client.cpp:781-810 | reading any map raises an engine error iff a key is read as a date-time object or raises itself |
| ReadBack.UnknownTypeIsRefused | ch_client.cpp:403-409 | a Map that mentions an unknown type, however deep, refuses even the empty array |
| ReadBack.LowCardinalityReadsAsString | ch_client.cpp:812-825 | a LowCardinality text reads as a String column with the same cells does |
| ReadBack.NullIsNoCell | ch_client.cpp:602-832 | a cell reads as null iff it is an absent LowCardinality text or of a type without a reader |
| ReadBack.WideReadsAsNumeral | ch_client.cpp:688-702 | an Int128 or UInt128 reads as its canonical numeral |
| ReadBack.ReaderIsInjective | ch_client.cpp:602-832 | different cells of a column never read alike, but for ints beyond the PHP range, ticks below a microsecond and shared labels |
| WireLayout.AppendLaysOut | ch_client.cpp:205-446 | what an accepted value adds to cells, null flags, end offsets, members, key and value columns, behind what was there |
| ColumnLaws.Splice | ch_client.cpp:348-357 | AppendAsColumn: the new row cut out again is the temporary column cell for cell, and every earlier row is cut out as before, at every nesting depth |
| ColumnLaws.AppendRows | ch_client.cpp:412-438 | appending a column means concatenating its rows although inner offsets are shifted |
| ColumnLaws.GetAsColumnRows | ch_client.cpp:751-753 | the column cut out of an array row has exactly that row's elements |
| ColumnLaws.SliceRows | ch_client.cpp:781-787 | a slice of a well-formed column means the slice of its rows |
| PhpValues.BuildKeepsAllIff | ch_client.cpp:790-808 | an array built key by key keeps every pair, in order, iff no key repeats |
| PhpValues.IntKeySurvives | ch_client.cpp:797-806 | an int key that was stored as text becomes the int again |
| PhpValues.UpdateInPlace | ch_client.cpp:797-806 | a key that is there keeps its place and gets the new value |
| PhpValues.BuildKeepsLast | ch_client.cpp:790-808 | an array built pair by pair has each key once, at the place of its first pair, with the value of its last |
| ScalarCodec.ScalarSurvivesIff | ch_client.cpp:209-320 | which scalars come back unchanged, for every scalar type of the writer: casts, floats, padding, text, dates, date-times, labels, UUIDs, and for a Decimal exactly the canonical texts of the values it can hold |
| ScalarCodec.LibOkIsMet | ch_client.cpp:205-320 | what is assumed of the engine's conversions and of the library's parsers can be met, by ones that print the float zero as "0" |
| HeapColumns.HColumn.AppendColumn | ch_client.cpp:436-437 | the in-place column append computes the append of the values, for a tree of distinct objects |
| HeapColumns.HColumn.AppendAsColumn | ch_client.cpp:356 | the in-place splice computes the splice of the values |
| HeapWriter.AppendValue | ch_client.cpp:205-446 | the in-place writer with the shared memo table: its clock, its lookups and its exception are those of the run `Try` of the value, whatever the allocator does; an accepting column is the very one that fresh templates per cell give |
| HeapWriter.AppendMemberValues | ch_client.cpp:365-383 | the same for the member loop: one value per member, too many and too few refused in the source's order |
| HeapWriter.SendContext.EnsureTemplates | ch_client.cpp:397-410 | a lookup is served from the table or by new templates, and is refused only where there are none and they cannot be made |
| HeapWriter.SendContext.ClonePair | ch_client.cpp:412-413 | the cell gets empty columns, fresh and apart from the table, of the types that the first lookup at the address asked for |
| MemoRun.TryRight | ch_client.cpp:205-446 | the run with the shared table against the meaning of the value, which knows no table: what the run accepts has a meaning; while its lookups see one Map type per address it throws what the meaning throws, and an accepting run keeps it so; any nesting |
| TemplateMemo.MemoAgreesIff | ch_client.cpp:397-413 | a first-wins table answers the lookups of an insert like fresh templates iff no address is used for two Map types |
| TemplateMemo.LookupIsRightIff | ch_client.cpp:397-413 | the same for one more lookup, as the writer uses it |
| TemplateMemo.ReusedAddressIsServedWrong | ch_client.cpp:399-413 | two Map types at one address: the second is served the first one's templates |
| Insert.FillRowsTransposes | ch_client.cpp:493-516 | the filled columns are the transpose of the rows' meaning; the first fault of the first faulty row is the error |
| Insert.AcceptedIff | ch_client.cpp:495-516 | all or nothing: accepted iff every row is an array of exactly one acceptable cell per column |
| Insert.FirstFaultIsReported | ch_client.cpp:495-516 | refused rows are refused for the first fault of the first faulty row: no array, a refused cell, or too few or too many |
| Insert.WidthMismatchIsValueError | ch_client.cpp:483-486 | another number of columns than names sends nothing and is a ValueError for the caller |
| Insert.AbandonedIff | ch_client.cpp:527-539 | the connection is given up iff the failure poisons or the closing EndInsert, the first or the second, fails too |
| Insert.CellsReadBackIff | ch_client.cpp:488-516 | column i, row j of the block reads back as rows[j][i] iff that cell fits its column |
| Insert.FillBlock | ch_client.cpp:493-516 | the row loop over mutable columns: exception, clock and lookups are those of the run over the rows, and columns that accept them all are the pivot |
| Insert.LookupsOfInsert | ch_client.cpp:195-201 | every lookup of an insert is of a Map type at the address of a Type object that denotes it; so they see one type per address if Map types never share addresses, and there are none without a Map |
| Insert.TableIsInvisibleIff | ch_client.cpp:397-413 | the rows are accepted iff they have a meaning and the lookups of writing them see one Map type per address; while they do, the exception is the one that fresh templates give |
| Insert.MemoInsertIff | ch_client.cpp:474-543 | the whole insert: a block is sent iff the shapes agree, every cell is acceptable and the lookups see one Map type per address; while they do the failure is fixed by the rows' meaning and the network |
| Insert.ReusedAddressRefusesInsert | ch_client.cpp:349-413 | an acceptable row with two Array(Map) cells, the second temporary Map at the address of the freed first: refused, and nothing is sent |
| Insert.SendBlock | ch_client.cpp:474-543 | at most one block goes out and it carries exactly the rows; the outcome, the exception seen, the closing calls and the broken flag are fixed by rows, network and allocator, and by the rows' meaning and the network alone if the allocator keeps Map types apart, if no column has a Map, or as long as the lookups see one Map type per address |
| Exceptions.PoisonIsWhatTheCallerSees | ch_exceptions.cpp:32-70 | the poison set is the set of failures shown as connection or protocol exceptions |
| Exceptions.EveryClassIsSeenAs | ch_exceptions.cpp:32-70 | which class the caller sees for which failure, the server's code included, and which four poison |
| Exceptions.Executor.TranslateAndThrow | ch_exceptions.cpp:32-70 | a pending exception wins; otherwise the class decides |
| ResultStream.ReadableIsLongestPrefix | ch_client.cpp:1027-1068 | what a consumer can get is the longest readable prefix of the result set |
| ResultStream.CauseIsFirstUnreadable | ch_client.cpp:1027-1068 | the exception that ends a stream is that of the first unreadable row, else the network's, else none |
| ResultStream.EmptyBlocksVanish | ch_client.cpp:998-1014 | blocks without rows change nothing, wherever they come |
| ResultStream.ItemsAreRows | ch_client.cpp:1033-1043 | a block gives one item per row, in row order: the array of the row's cells under their names if all can be read, else the exception of the first that cannot |
| ResultStream.ResultSetIsTheBlocks | ch_client.cpp:1027-1068 | the same for row k of block i of any number of blocks, at its place in the stream |
| ResultStream.RowOfDistinctNames | ch_client.cpp:1033-1043 | where no name repeats, entry c of the array is column c's name and its cell in that row |
| ResultStream.ChResult.Start | ch_client.cpp:965-1025 | the query begins and is primed without losing a row; done iff there are none; it throws what BeginExecute throws, else the network's exception iff no row comes before it; an exception releases, broken iff it poisons |
| ResultStream.ChResult.Prime | ch_client.cpp:1002-1014 | the priming loop stops behind exactly the leading empty blocks, at rows, the end or an exception; it throws the network's exception iff no rows come before it |
| ResultStream.ChResult.ReadRow | ch_client.cpp:1033-1043 | the row at hand, cell by cell under its column names, or the exception of the first cell that cannot be read |
| ResultStream.ChResult.Next | ch_client.cpp:1027-1068 | delivered rows ++ rows to come is constant; end of stream and an unreadable row are permanent; after release nothing is pulled or marked; done iff released |
| ResultStream.ChResult.Free | ch_client.cpp:1075-1090 | an unfinished result marks its connection broken before the one release |
| ResultStream.FetchKeepsReadable | ch_client.cpp:1027-1068 | one fetch moves at most the front row from what is to come to what is handed out |
| ResultStream.ResultObject.FetchAll | clickhouse_async.cpp:428-444 | every remaining row, once and in order, after any number of fetches; and the exception that cut the stream, iff there is one |
| ResultStream.ResultObject.FetchOne | clickhouse_async.cpp:446-472 | one row is consumed and one element of it returned; without a row, the exception that ended the stream |
| ResultStream.FetchOnePicksLastNamesake | clickhouse_async.cpp:453-463 | that element is the cell of the last column named like column 0; it is column 0's value iff they agree |
| ResultStream.FetchOneMissesColumn0 | clickhouse_async.cpp:453-463 | two columns of one name: the second is returned |
| ResultStream.ResultObject.Rewind | clickhouse_async.cpp:494-505 | only the first rewind fetches, and may throw; a later one changes nothing |
| ResultStream.ResultObject.Foreach | clickhouse_async.cpp:357-372 | a foreach visits every row ahead once, in order, under consecutive keys, 0.. on a fresh object, and ends with the exception that cut the stream, if one did |
| Batch.RunConserves | ch_client.cpp:1138-1182 | over every run: rows in acknowledged flushes ++ pending = rows offered in shape, in order |
| Batch.BrokenIff | ch_client.cpp:1109-1121 | a batch is broken iff some flush broke it, whatever later flushes did |
| Batch.WireCarriesAckedIff | ch_client.cpp:1161-1178 | over every run the rows on the wire are the rows of acknowledged flushes iff no flush failed after its block went out |
| Batch.LostFlushSendsTwice | ch_client.cpp:1161-1178 | one row, EndInsert answers with a server error, a second flush succeeds: the row was sent twice |
| Batch.ChBatch.Append | ch_client.cpp:1138-1158 | takes a row iff it is an array of one value per column |
| Batch.ShapeIsWhatInsertNeeds | ch_client.cpp:1138-1158 | a batch takes exactly the rows that an insert into as many String columns accepts, and no row that any insert of that width could accept is turned away |
| Batch.ChBatch.Flush | ch_client.cpp:1161-1178 | one insert of exactly the pending rows, with that insert's fate, exception and broken flag; what reached the wire, carried by one block, is stated for failures too; a failure leaves the rows pending |
| Batch.ChBatch.Count | ch_client.cpp:1180-1184 | whatever calls came before: the rows offered in the right shape less those in acknowledged flushes |
| Batch.ChBatch.Free | ch_client.cpp:1186-1196 | one release, of a connection marked broken iff the batch is |
| Lifecycle.StepKeeps | ch_client.cpp:917-1121 | every event of every handle keeps the invariant |
| Lifecycle.EveryRunIsSafe | clickhouse_async.cpp:152-199 | in every run: a live connection is idle or has one owner; each acquire is released once; the pool keeps its size; no release into a closed pool; no call on a connection of somebody else; nothing is left at the end |
| Lifecycle.ClosedMeansSettled | clickhouse_async.cpp:229-243 | once the last reference is gone no connection and no acquire is outstanding |
| Lifecycle.FreeStepKeeps | clickhouse_async.cpp:391-412 | destroying a Result or Batch releases before it drops the client |
| Lifecycle.TalkStepKeeps | clickhouse_async.cpp:808-835 | an insert call releases exactly once on every path |
| Lifecycle.AcquireStepKeeps | clickhouse_async.cpp:185-199 | acquiring, dialing and failing to acquire keep the book and the bound |
| Calls.AcquireIsEnabledIff | clickhouse_async.cpp:185-199 | a waiting call may take any idle connection, and have one dialled iff none is idle and the pool is not full |
| Calls.StuckIffFull | clickhouse_async.cpp:185-199 | it is stuck iff every connection the pool may have is in use or being dialled |
| Calls.CallStarts | clickhouse_async.cpp:758-868 | either way to a connection starts the call as what it is: an insert about to begin, a batch at rest, a query about to be executed |
| Calls.FailedCallLeavesNothing | clickhouse_async.cpp:185-199 | a call that gets no connection, dialled for or not, and a reference taken and dropped leave the whole state as it was |
| Calls.InsertCall | clickhouse_async.cpp:808-837 | the whole insert call is a run: acquire, talk, gone; its connection is idle iff the insert did not break it |
| Calls.BatchCall | clickhouse_async.cpp:839-868 | insertBatch is a run to a fresh Batch that matches its handle |
| Calls.QueryCall | clickhouse_async.cpp:758-806 | query on a clean pool is a run to a Result that matches its handle, or to nothing but its exception |
| CleanReuse.StepCleanIff | ch_client.cpp:1061-1087 | exactly the dirtying events put an unfit connection into the idle pool |
| CleanReuse.AlwaysCleanIff | ch_client.cpp:80-86 | the same over whole runs, whatever the network does |
| CleanReuse.CleanReuseIff | ch_client.cpp:1061-1064 | while a non-poisoning wire exception ends a query's exchange, or leaves an insert's session closed or in order, the pool offers only clean connections iff no non-poisoning exception comes out of a row of an unfinished stream |
| CleanReuse.CleanReuse | ch_client.cpp:527-542 | that condition for every run from a new client on, inserts and batches with any failures included |
| CleanReuse.ConverseInStep | ch_client.cpp:474-543 | the insert conversation stays in step with the wire or gives the connection up |
| CleanReuse.ConversionThrowLeaks | ch_client.cpp:1061-1064 | a non-poisoning exception out of a cell of an unfinished stream puts an unread response into the pool |
| CleanReuse.LeakIsReachable | ch_client.cpp:1061-1064 | a concrete run that does so |
| Simulation.InsertIsConversation | ch_client.cpp:474-543 | the calls of every insert, with their answers, are a conversation of the transition system, broken in the one iff in the other |
| Simulation.TalkRun | ch_client.cpp:474-543 | a conversation is a run of the whole system to the state it says |
| Simulation.InsertSimulates | clickhouse_async.cpp:808-835 | an insert call is a run: the call is gone, and its connection idle iff the insert did not break it |
| Simulation.StartSimulates | ch_client.cpp:965-1025 | starting a query is a run to the matching state; on an exception the call is gone and its connection idle iff the exception does not poison |
| Simulation.FlushSimulates | ch_client.cpp:1161-1178 | a flush is a run to the matching state, whatever became of it |
| Simulation.FreeBatchSimulates | ch_client.cpp:1186-1196 | destroying a batch is a step; its connection is idle iff no flush broke it |
| Simulation.PullSimulates | ch_client.cpp:1051-1064 | a pull by the Result object is a step of the transition system to the matching state, and the connection goes to the idle pool iff it is not broken |
| Simulation.TakeRowSimulates | ch_client.cpp:1033-1064 | the same for reading a row, unreadable ones included |
| Simulation.FreeSimulates | ch_client.cpp:1075-1090 | the same for destroying the object; an unfinished stream's connection is destroyed |
| Simulation.RunOfOthersSpares | clickhouse_async.cpp:185-199 | any run of events of other handles leaves a handle alive and as it was, and its connection untouched |
| Simulation.MatchingSurvivesOthers | clickhouse_async.cpp:152-199 | whatever other calls, Results and Batches do in between, a Result and a Batch still match their handles |
| Transport.OutSocket.DoWrite | ch_transport.cpp:165-194 | returns iff the system lets the whole buffer through; the peer then has exactly the buffer, else a proper prefix, and the exception poisons |
| Transport.OutSocket.TlsDoWrite | ch_transport.cpp:275-291 | the same for TLS, where nothing but progress is survived |
| Transport.OutSocket.WriteAll | ch_transport.cpp:165-194 | over many packets: exactly the bytes that the answers let through, packet after packet, have reached the peer; it returns iff those are all, else the exception poisons |
| Transport.OneAnswerOnePacket | ch_transport.cpp:165-194 | an answer serves one call: room for 100 bytes in one answer carries the first of two small packets only |
| Transport.WaitsVanish | ch_transport.cpp:139-148 | interruptions and answered waits change neither what a write gets through nor what decides a read, wherever they come |
| Transport.WaitsDisturbNoPacket | ch_transport.cpp:178-187 | nor how much of a sequence of packets gets through |
| Transport.FailureEnds | ch_transport.cpp:189-190 | a failure or an unanswered wait, and on TLS whatever moves nothing, ends it: nothing behind counts |
| Transport.WriteAfterWaits | ch_transport.cpp:165-194 | a signal, a full buffer, then room: the write returns with everything sent |
| Transport.ReadAfterWaits | ch_transport.cpp:126-152 | the same before a read: the next bytes come |
| Transport.InSocket.DoRead | ch_transport.cpp:126-152 | the next bytes of the stream, as many as have come and not more than asked for; or an exception that poisons, and nothing consumed |
| Transport.InSocket.TlsDoRead | ch_transport.cpp:255-264 | the same in one attempt |
| Endpoints.ClientObject.PoolFactory | clickhouse_async.cpp:75-133 | host and failover list are the ring of servers from the start that the strategy picks |
| Endpoints.ClientObject.SetHosts | clickhouse_async.cpp:723-755 | the servers are the in-order image of the list |
| Endpoints.RotationIsPermutation | clickhouse_async.cpp:75-112 | every server occurs once, in ring order, for every start |
| Endpoints.RoundRobinIsFair | clickhouse_async.cpp:86-91 | of N consecutive counter values without a wrap each server is the start N / total times, rounded down or up |
| Endpoints.Dial | clickhouse_async.cpp:75-133 | N factory calls on one client, counter not wrapping: every server is first N / total times, rounded down or up, and every configuration is a rotation |
| Endpoints.RingStepIff | clickhouse_async.cpp:86-88 | the next start is one further, except at the wrap of the counter, where it is iff the number of servers divides 2^32 |
| Endpoints.RingBreaksForThree | clickhouse_async.cpp:86-88 | three servers at the wrap: server 0 starts twice |
| HostList.ParseHostPort | clickhouse_async.cpp:285-305 | the backwards search finds the last colon; invalid ports become the default |
| HostList.ParseOfPrint | clickhouse_async.cpp:285-305 | host:port comes back for every host, colons included, iff the host has no NUL byte |
| HostList.WholeEntryIff | clickhouse_async.cpp:297-304 | an entry is all host iff it has no colon (and no NUL) |
| HostList.PortReplacedIff | clickhouse_async.cpp:297-300 | a port is replaced iff it is not a number in 1..65535 |
| HostList.PortRange | clickhouse_async.cpp:299-300 | exactly the numbers 1 to 65535 stand for themselves |
| HostList.StrtolReads | clickhouse_async.cpp:299 | spaces, a sign and digits are the clamped number of the digits, whatever follows |
| HostList.HostImageOfPrint | clickhouse_async.cpp:723-755 | a printed list of servers comes back whole and in order |
| HostList.DefaultIsClientPortIff | clickhouse_async.cpp:740-745 | a later entry without a port gets the client's port iff the first entry has that port or no valid one |
| HostList.LaterEntryMissesClientPort | clickhouse_async.cpp:740-745 | ["a:1234", "b"] with client port 9000: b gets 1234 |
| DateTime64.Write | ch_client.cpp:252-263 | the ticks of a date-time object, by the source's loop and division |
| DateTime64.Read | ch_client.cpp:716-737 | floored seconds and microseconds, by truncating division and correction |
| DateTime64.ReadOfWrite | ch_client.cpp:248-271 | the second comes back and the microseconds truncated to the precision |
| DateTime64.WriteOfRead | ch_client.cpp:716-737 | identity on ticks up to precision 6, above it rounded down to the microsecond |
| DateTime64.ReadIsMonotone | ch_client.cpp:724-736 | reading preserves order, also before the epoch |
| DateTime64.ProductsFitIff | ch_client.cpp:254-263 | all sub-second products fit 64 bits iff the precision is at most 12 |
| DateTime64.SecondFitsIff | ch_client.cpp:258-263 | a second can be written at every microsecond iff its first and last ticks fit |
| DecimalText.RenderMeetsReference | ch_client.cpp:571-592 | the text has exactly `scale` fractional digits and a canonical integer part |
| DecimalText.RenderIsLossless | ch_client.cpp:571-592 | deleting the point and parsing recovers the raw value |
| DecimalText.RenderIsInjective | ch_client.cpp:571-592 | per scale, different raw values have different texts |
| DecimalText.RenderLetters | ch_client.cpp:571-592 | a minus in front iff negative, a point before the last `scale` characters, digits everywhere else |
| DecimalText.RenderIsCanonical | ch_client.cpp:571-592 | what is rendered is canonical: exactly `scale` fractional digits, no needless zero, no negative zero |
| DecimalText.RenderOfCanonical | ch_client.cpp:571-592 | every canonical text is the rendering of the number it reads as |
| UuidText.Parse | ch_client.cpp:148-178 | the loop computes the two words of the first 32 hex digits |
| UuidText.ParseOfPrint | ch_client.cpp:554-568 | parse(print(u)) = u for all 128-bit values |
| UuidText.CanonicalLetters | ch_client.cpp:554-568 | dashes at 8, 13, 18 and 23, around them the 16 digits of the first word, then those of the second |
| UuidText.PrintOfParse | ch_client.cpp:148-178 | print(parse(s)) is s in lower case for every canonical s |
| UuidText.TextSurvivesIff | ch_client.cpp:148-178 | a text survives the trip iff it is canonical and lower case |
| UuidText.OnlyTheFirst32DigitsMatter | ch_client.cpp:156-175 | nothing behind the 32nd hex digit matters |

## Left out

- DateTime64.Write: computes on unbounded integers; `ScalarCodec.EncodeScalar` wraps the ticks to 64 bits and has the branches for numbers.
- HeapWriter.AppendPair: that appending a column of another type is refused with a ValidationError is the client library's contract, which is not part of this model.
- Floats are opaque: which one is nearest to an integer or to a single, how one prints, and how one of seconds rounds to ticks, are parameters, and so are the library's day arithmetic, labels and text parsers. `elapsed` is not modelled.
- Library columns that refuse a cell (too long FixedString, unparsable text): the refusal is modelled, the parser is a parameter.
- Signed overflow of out-of-range DateTime64 seconds: undefined in C++, modelled as wrap-around of the final tick count.
- PHP exceptions raised inside a conversion of a PHP value while the insert goes on, so that a block may be sent although the caller sees an exception: engine behaviour.
- Column objects are read on values: `CellReader` does not model the reader's aliasing of column references.
- HeapWriter.AppendValue: after an exception the partly filled column is not described, because the source drops it.
- Transport.OutSocket.DoWrite: an endless stream of interruptions is not modelled; every terminating behaviour is. The cast of a length to int on Windows is left out.
- Lifecycle.EveryRunIsSafe: a network call is one event, because between its start and its end only other handles' connections change; the pool's own waiting queue is the choice of the next event.
- Lifecycle.EveryRunIsSafe: `getPool()` used by hand, and one Result or Batch used by two coroutines at once.
- ResultStream.ResultObject.Foreach: a Result constructed directly, without a query, is left out; it has no rows.
- Query text, parameters, settings, the INSERT statement's text, Summary, compression mapping and configuration defaults: copying without a hard property.
- Framing, compression, checksums and column serialisation of the client library, the reactor, the pool implementation, DNS, connect, TLS handshake: not part of this model; only their contracts are.
- Reference counts of zvals and strings: only the client's keepalive count is modelled.
