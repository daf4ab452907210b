# Binlog, modelled and proved in Dafny

Binlog logs structured events from many threads through lock-free queues, and reads them back as text.
This project models the parts of it that have to be right for that, and proves one story: an event logged by
any thread is read back exactly once, in order, with the source it was logged with and the text its format and
arguments spell, also from a memory dump of a crashed program.

`dafny verify dfyconfig.toml` checks everything.

## How it is put together

- **The ring** (`Ring.dfy`, `Queue.dfy`). The single-producer, single-consumer queue is a transition system of
  atomic loads and stores, the plain store of `dataEnd`, and copies of single bytes, in any interleaving. The
  classes `Queue`, `QueueWriter` and `QueueReader` hold the real members; each carries a ghost state of that
  system and walks it along enabled steps, so what holds of all runs holds of the objects.
- **Sessions** (`SessionProtocol.dfy`, `Session.dfy`). The protocol lets any number of writers commit, replace
  and close channels between the steps of a consumer that holds the mutex. It sees a queue as the list of
  entries committed to it and two counts into that list, which is what `Ring.ViewContents`,
  `Ring.CommitUnread` and `Ring.EndReadUnread` say a queue is; `DumpRecovery.CommitCarries` and its neighbours
  match the steps of both. The classes `Session` and `SessionWriter` are the
  code between two acquisitions of the mutex, on top of the real queues; `Sessions.BatchIsProtocolBatch` ties
  the bytes they write to the items of the protocol.
- **Entries** (`Entries.dfy`, `SegmentedMap.dfy`, `EventStream.dfy`, `EventFilter.dfy`). Layout and framing, the
  reader of a stream with its retries, its index as a refinement of a plain map, and the filter.
- **Recovery** (`Recovery.dfy`, `MemoryDump.dfy`, `RecoverableStream.dfy`, `RecoveredOutput.dfy`,
  `DumpRecovery.dfy`). Searching memory for magic numbers, taking queues apart in whatever state a run left them,
  ordering the output, and all of that put together.
- **Tags and values** (`Tags.dfy`, `Hex.dfy`, `Visit.dfy`, `Serialize.dfy`, `Serializer.dfy`). Types are trees,
  tags are strings. Visiting is given twice: on text, branch by branch as the code has it, and on types, with
  no text to take apart. `Visits.VisitRefines` shows that both agree on generated tags, and the other laws
  are proved on types: `VisitDetermines.dfy` (bytes and calls determine the value), `VisitSingular.dfy` (the
  shortcut for elements without bytes), `VisitBound.dfy` (the number of calls) and `VisitByteless.dfy` (exactly
  which sequences escape the bound).
- **Rendering** (`ToString.dfy`, `VisitMethods.dfy`, `PrettyPrint.dfy`). The visitor as a state machine, the
  recursive functions that drive it while shortening tags in place, and the message of an event.
- **Arithmetic and the viewer** (`Integers.dfy`, `Time.dfy`, `BtuiModel.dfy`).

Exceptions are result values. Where a loop of the code works on a local variable or an object, it is a loop
here; functions next to it say what it computes, and the lemmas are about those. Where a format is what the code
says it is - the bytes of entries, of values and of memory, tags, texts - examples write it out in literals.

## Where code, comments and properties differ

- An event stream promises to remain unchanged when it throws (`include/binlog/EventStream.hpp:26-28`). Sources,
  writer and clock sync do. The event object does not when an event of a known source ends before its clock: the
  new source is in it by then (`include/binlog/EventStream.cpp:65-76`). `EventStreams.ThrownKeepsObject` has the
  exact condition, `EventStreams.SourceOfRefusedEvent` an input.
- `EventFilter` never forgets an allowed id. Filtering and reading commute exactly when nothing leaks that way;
  `EventFilters.RedeclaredSourceLeaks` is a stream where it does.
- `size_between_balanced` asks for an open delimiter in front, but `resolve_recursive_tag` calls it at a backtick
  (`include/mserialize/detail/tag_util.hpp:167-170`). The function does not look at that character.
- `clockToNsSinceEpoch` asks for a non-zero frequency, but what it calls needs one that is positive as a signed
  integer (`include/binlog/Time.hpp:32`, `:47`); `Time.NegativeFrequency` has what happens to the others. The result
  is said to be exact if it fits 64 bits (`include/binlog/Time.cpp:7-11`). It is exact if and only if the ticks
  short of a second fit, too (`Time.NanosecondsAreExact`), so for all ticks just up to a frequency of 9223372037
  (`Time.ExactFrequencies`).
- `addEvent` stores the size of an event in 32 bits without checking it (`include/binlog/SessionWriter.hpp:162`).
  The event is an entry if and only if its size fits those (`Sessions.EventIsEntry`); a larger one is taken for a
  shorter entry and rubbish behind it (`Sessions.LargeEvent`).
- Structures without bytes are recognized by `singular`, but not where they are only referred to
  (`include/mserialize/detail/Singular.hpp:28-36`). Such references are just what lets sequences make any number of
  calls without bytes to pay for them (`VisitByteless.ExcessIsExact`); without them the calls are linear in the
  bytes (`VisitBound.CallsAreLinear`).
- A dump taken while a source is being serialized can lose all sources of the session, because the size in the
  header then covers a part of an entry: `Sessions.Session.AddEventSource` tells from which dumps nothing is
  recovered.

## Model

| member | source | states |
|---|---|---|
| `Ring.StepInv` | include/binlog/detail/QueueWriter.hpp:59-136 | the invariant of the ring - readable bytes in place, the private region of the writer free however stale its copy of the read index, a begun wrap not yet visible - survives every step: each load, store and copied byte of either side |
| `Ring.RunInv` | include/binlog/detail/Queue.hpp:48-92 | hence it holds in every state of every interleaving |
| `Ring.NothingLostOrReordered` | include/binlog/detail/QueueReader.hpp:44-72 | at every moment of every interleaving the bytes released so far, followed by the unread ones in the ring, are all committed writes in order |
| `Ring.ViewIsStable` | include/binlog/detail/QueueReader.hpp:33-72 | a view holds exactly what was unread at the load of `writeIndex`, and keeps it until `endRead` whatever the writer does; the bytes copied out one at a time in between are a prefix of it |
| `Ring.WriterNeverWaits` | include/binlog/detail/Queue.hpp:16-47 | wherever the reader is, the writer can take its next step, and begin any write that fits its region |
| `Ring.ReaderNeverWaits` | include/binlog/detail/Queue.hpp:16-47 | wherever the writer is, the reader can take its next step, read on in its view, and release it |
| `Ring.ViewContents` | include/binlog/detail/QueueReader.hpp:44-66 | both halves of a view begin and end at commit boundaries |
| `Ring.DumpIsRecoverable` | include/binlog/detail/Queue.hpp:48-116 | a copy of the shared memory taken at any step has sane indices and yields exactly the bytes committed and not released |
| `Ring.DrainedGrantsHalf` | include/binlog/detail/QueueWriter.hpp:107-136 | with everything released, wherever the indices stand, a contiguous half of the capacity less one, rounded up, can be had |
| `Ring.LongestRunIsLongest` | include/binlog/detail/QueueWriter.hpp:95-106 | room is what the indices leave: bytes can be written in one piece, where the last commit ended or at the start, up to the length given by the indices, and no further |
| `Ring.SelectsLongestRun` | include/binlog/detail/QueueWriter.hpp:107-136 | the region selected is such a free run, and none is longer |
| `Ring.TwoPartViewsHappen` | include/binlog/detail/QueueReader.hpp:56-62 | the theorems are about something: a run is written down in which a view has two parts |
| `Ring.SelectInv` | include/binlog/detail/QueueWriter.hpp:107-136 | choosing a region, also by storing `dataEnd`, disturbs nothing readable |
| `Ring.CommitInv` | include/binlog/detail/QueueWriter.hpp:89-94 | storing `writeIndex` publishes the pending bytes and no others, also at a wrap |
| `Ring.EndReadInv` | include/binlog/detail/QueueReader.hpp:68-72 | storing `readIndex` gives back just the viewed bytes, also past a wrap |
| `Ring.CommitUnread` | include/binlog/detail/QueueWriter.hpp:89-94 | a commit appends the pending bytes to the unread ones |
| `Ring.EndReadUnread` | include/binlog/detail/QueueReader.hpp:68-72 | a release takes the viewed bytes off the front of the unread ones |
| `Queues.Queue.constructor` | include/binlog/detail/Queue.hpp:100-106 | a new queue is empty and is an initial state of the ring |
| `Queues.QueueWriter.UnreadWriteSize` | include/binlog/detail/QueueWriter.hpp:38-47 | it is the number of bytes committed and not released |
| `Queues.QueueWriter.MaximizeWriteCapacity` | include/binlog/detail/QueueWriter.hpp:95-136 | the result is the size of the largest contiguous free run; it takes the three steps of the ring, keeps what is unread, drops what is pending |
| `Queues.QueueWriter.BeginWrite` | include/binlog/detail/QueueWriter.hpp:49-64 | true if and only if the region has the size left or a free run is that long; it never changes what is unread; of a drained queue it grants any half |
| `Queues.QueueWriter.WriteBuffer` | include/binlog/detail/QueueWriter.hpp:66-81 | the bytes become pending and stay invisible to the reader |
| `Queues.QueueWriter.EndWrite` | include/binlog/detail/QueueWriter.hpp:89-94 | the pending bytes become one commit behind the unread ones |
| `Queues.QueueReader.BeginRead` | include/binlog/detail/QueueReader.hpp:44-66 | the two parts of the view, one after the other, are all unread bytes; it is empty iff there are none |
| `Queues.QueueReader.EndRead` | include/binlog/detail/QueueReader.hpp:68-72 | exactly the bytes of the view are released |
| `SessionProtocol.StepInv` | include/binlog/Session.hpp:278-418 | every step of session, writers and consumer, in any interleaving the mutex allows, keeps the invariant of the protocol |
| `SessionProtocol.RunInv` | include/binlog/Session.hpp:305-418 | hence it holds in every state of every run |
| `SessionProtocol.EveryEventOnceInOrder` | include/binlog/SessionWriter.hpp:142-191 | the events whose `addEvent` succeeded are, in call order and each once, those in the outputs followed by those unread, across channel replacement |
| `SessionProtocol.NothingLostInDroppedChannels` | include/binlog/Session.hpp:343-392 | a channel that was dropped has no writer and nothing unread |
| `SessionProtocol.OutputsReadBack` | include/binlog/Session.hpp:153-162 | every output, the first and any begun with `reconsumeMetadata`, reads back without a refused event, each event with the source it was logged with |
| `SessionProtocol.LastClockSyncInForce` | include/binlog/Session.hpp:297-334 | once consumed, the clock sync a reader ends up with is the last one set |
| `SessionProtocol.BatchSizesAreExact` | include/binlog/Session.hpp:357-373 | the batch size of each writer properties entry is the length in bytes of the events right behind it, which are of one writer |
| `SessionProtocol.DroppedChannelsHappen` | include/binlog/Session.hpp:343-392 | a run is written down in which a replaced channel is consumed and dropped, its event being in the output |
| `SessionProtocol.WritersNeverWait` | include/binlog/SessionWriter.hpp:142-191 | whatever the consumer is doing, a writer can log any event of a known source, switch to the channel it created, and be destroyed |
| `SessionProtocol.OthersWaitForConsumer` | include/binlog/Session.hpp:250-418 | adding sources and clock syncs, creating channels and consuming are possible if and only if no consumer holds the mutex |
| `SessionProtocol.ConsumerNeverWaits` | include/binlog/Session.hpp:305-398 | a consumer that holds it can go on to the end without anybody |
| `SessionProtocol.StepProtocol` | include/binlog/Session.hpp:343-392 | the part of the invariant about channels, writers and the consumer: an earlier channel of a writer is read out before a later one |
| `SessionProtocol.StepHistory` | include/binlog/SessionWriter.hpp:142-191 | the part about what was logged, taken and left |
| `SessionProtocol.StepOutput` | include/binlog/Session.hpp:326-341 | the part about the output: sources before their events |
| `Sessions.Session.constructor` | include/binlog/Session.hpp:250-254 | a new session has the clock sync of the system clock, due to be written |
| `Sessions.Session.CreateChannel` | include/binlog/Session.hpp:256-262 | one fresh, empty, open channel of the given capacity is added behind the others |
| `Sessions.Session.SetChannelWriterId` | include/binlog/Session.hpp:264-269 | the id of a listed channel is changed, and nothing else of the session |
| `Sessions.Session.SetChannelWriterName` | include/binlog/Session.hpp:271-276 | the same for the name |
| `Sessions.Session.AddEventSource` | include/binlog/Session.hpp:278-285 | the source is stored under its position, counted from one, which is returned; from a dump taken meanwhile the old sources can be recovered, or all of them, or - and some dump is like that - none, just as the size in the header says |
| `Sessions.Session.SetClockSync` | include/binlog/Session.hpp:297-303 | the clock sync is stored behind the others, and due to be written; dumps taken meanwhile tell the old ones, all, or none |
| `Sessions.ConsumeChannel` | include/binlog/Session.hpp:345-373 | the bytes written for a channel are its properties, with the size of its data, and that data; nothing for an empty one; each write is made of whole entries; the writer is not disturbed |
| `Sessions.ConsumeChannels` | include/binlog/Session.hpp:342-383 | all channels are polled in order, each as if alone |
| `Sessions.Session.ConsumeMetadata` | include/binlog/Session.hpp:328-340 | clock syncs if due, then exactly the sources not consumed before |
| `Sessions.Session.Consume` | include/binlog/Session.hpp:305-398 | what it writes, in order and in whole entries; what is left of the channels; which channels are gone; and that its counters say so |
| `Sessions.Session.ReconsumeMetadata` | include/binlog/Session.hpp:400-418 | all clock syncs and just the sources consumed before, nothing of the channels |
| `Sessions.BatchIsProtocolBatch` | include/binlog/Session.hpp:355-373 | the bytes written for a channel are the items the protocol writes in that step |
| `Sessions.HalvesUnframe` | include/binlog/Session.hpp:363-369 | where commits are whole entries, each half of a view is whole entries |
| `Sessions.RemainingStates` | include/binlog/Session.hpp:385-392 | erasing the reset channels leaves the open ones, polled, in their order |
| `Sessions.KeptOne` | include/binlog/Session.hpp:376-392 | a channel is kept if and only if it is open |
| `Sessions.KeptAppend` | include/binlog/Session.hpp:385-392 | those kept stay in their order |
| `Sessions.BatchesAppend` | include/binlog/Session.hpp:342-373 | the batches of channels are written in the order of the channels |
| `Sessions.EventIsEntry` | include/binlog/SessionWriter.hpp:142-166 | the serialized event is a framed entry if and only if size, source and arguments stay below 2^32 bytes; then it is the very entry a reader finds |
| `Sessions.LargeEvent` | include/binlog/SessionWriter.hpp:159-166 | of any larger event a reader takes its first bytes, as many as the size modulo 2^32, for an entry, and goes on inside the event |
| `Sessions.FourGigabytesAreLost` | include/binlog/SessionWriter.hpp:159-166 | an event of exactly 2^32 bytes is read as an empty entry with 2^32 bytes behind it |
| `Sessions.WholeAfterEvent` | include/binlog/SessionWriter.hpp:159-168 | smaller events keep every commit a run of whole entries, which is what makes the writes of `consume` whole |
| `Sessions.SessionWriter.constructor` | include/binlog/SessionWriter.hpp:123-130 | a writer starts on its own fresh channel, with id and name set afterwards if they are given |
| `Sessions.SessionWriter.SetId` | include/binlog/SessionWriter.hpp:132-135 | the id of the own channel changes, whatever is unread in it |
| `Sessions.SessionWriter.SetName` | include/binlog/SessionWriter.hpp:137-140 | the same for the name |
| `Sessions.SessionWriter.WriteEvent` | include/binlog/SessionWriter.hpp:159-168 | the fields of an event of any size and id reach the queue as exactly one commit |
| `Sessions.SessionWriter.TryWrite` | include/binlog/SessionWriter.hpp:150-169 | the event is appended if and only if the region or a free run of the queue has room for it, else nothing changes; a drained queue of twice the size has room |
| `Sessions.SessionWriter.ReplaceChannel` | include/binlog/SessionWriter.hpp:172-191 | the capacity of the new channel is that of the old one or twice the event, the larger of both; it inherits id and name, and the old one is closed; on failure nothing changes |
| `Sessions.SessionWriter.AddEvent` | include/binlog/SessionWriter.hpp:83-170 | for events of any size: where the queue has room the event is the last one of the channel; if and only if it has not, the channel is replaced and the event is the first one of the new channel; if and only if that cannot be created, either, it fails; nothing unread is lost |
| `Entries.SourceRoundTrip` | include/binlog/Entries.hpp:34-47 | a serialized source, whatever follows, is read back and leaves what follows |
| `Entries.WriterRoundTrip` | include/binlog/Entries.hpp:65-72 | the same for writer properties |
| `Entries.ClockRoundTrip` | include/binlog/Entries.hpp:98-108 | the same for clock syncs |
| `Entries.SourceDecodesOnlyItself` | include/mserialize/detail/Deserializer.hpp:84-163 | only the serialized form of a source reads as that source |
| `Entries.CutSourceFails` | include/binlog/Entries.hpp:34-47 | a source cut short, however little, does not decode |
| `Entries.CutWriterFails` | include/binlog/Entries.hpp:65-80 | nor do writer properties |
| `Entries.CutClockFails` | include/binlog/Entries.hpp:98-110 | nor does a clock sync |
| `Entries.TagBytes` | include/binlog/Entries.hpp:34-110 | the eight bytes that tell sources, writer properties and clock syncs in a stream |
| `Entries.FrameOfSource` | include/binlog/Entries.hpp:138-148 | a source in a stream is the size of what follows, eight bytes FF, and its fields |
| `Entries.FrameOfWriter` | include/binlog/Entries.hpp:138-148 | writer properties likewise, with FE and seven bytes FF |
| `Entries.FrameOfClock` | include/binlog/Entries.hpp:138-148 | and a clock sync, with FD and seven bytes FF |
| `Entries.SourceLayout` | include/binlog/Entries.hpp:153-154 | the order and width of the fields of a source, byte by byte |
| `Entries.WriterLayout` | include/binlog/Entries.hpp:156-157 | those of writer properties |
| `Entries.ClockLayout` | include/binlog/Entries.hpp:158-159 | those of a clock sync |
| `Entries.EventLayout` | include/binlog/SessionWriter.hpp:159-166 | those of an event: size, source id, clock, arguments |
| `Entries.UnframeOfFrameAll` | include/binlog/Entries.hpp:14-24 | framed payloads are found again |
| `Entries.UnframeOnly` | bin/brecovery.cpp:86-104 | only framed payloads pass as whole entries |
| `SegmentedMaps.SegmentedMap.Emplace` | include/binlog/detail/SegmentedMap.hpp:37-59 | the map it stands for is updated at the key, the last value winning; offsets stay strictly increasing and segments apart |
| `SegmentedMaps.SegmentedMap.Find` | include/binlog/detail/SegmentedMap.hpp:78-91 | it agrees with the map, for every key |
| `SegmentedMaps.SegmentedMap.Size` | include/binlog/detail/SegmentedMap.hpp:66-74 | it is the number of keys of the map |
| `SegmentedMaps.SegmentedMap.Empty` | include/binlog/detail/SegmentedMap.hpp:61-64 | it is true of the empty map only |
| `SegmentedMaps.SegmentedMap.SegmentIndex` | include/binlog/detail/SegmentedMap.hpp:94-99 | it finds the last segment that starts at or before the key |
| `SegmentedMaps.NewSegment` | include/binlog/detail/SegmentedMap.hpp:53-58 | inserting a segment adds one key to the map |
| `SegmentedMaps.ToMapSize` | include/binlog/detail/SegmentedMap.hpp:66-74 | the sizes of the segments add up to the number of keys |
| `EventStreams.Range.View` | include/binlog/Range.hpp:101-118 | bytes are dropped from the front, or nothing changes |
| `EventStreams.RangeEntryStream.NextEntryPayload` | include/binlog/EntryStream.cpp:52-57 | it hands out the next payload, the end, or an exception |
| `EventStreams.IstreamEntryStream.NextEntryPayload` | include/binlog/EntryStream.cpp:13-40 | the same; a framing failure leaves the position where it was |
| `EventStreams.EventStream.ReadPayload` | include/binlog/EventStream.cpp:14-38 | one payload changes the state of the reader as the specification says: an update, an event, or a refusal that leaves sources, writer and clock alone, and the event object too unless the event of a known source is cut short; then the object has that source |
| `EventStreams.EventStream.NextEvent` | include/binlog/EventStream.cpp:7-40 | it reads up to the next event, the end, or an exception, as the specification of the stream says, which also tells what is left in the event object |
| `EventStreams.EventStream.NextEventOfFile` | include/binlog/EventStream.cpp:7-40 | over a file the same, but an entry that is not whole is left to be read again, and the end of the file stays the end |
| `EventStreams.ThrownKeepsObject` | include/binlog/EventStream.hpp:26-28 | the promise that an exception leaves the event stream unchanged: sources, writer and clock sync always are as the offending entry found them; the event object is if and only if the entry is not an event of a known source cut short, or the object has that source anyway |
| `EventStreams.SourceOfRefusedEvent` | include/binlog/EventStream.cpp:65-76 | an entry that holds nothing but a known source id throws, and leaves an event object that mixes this source with the clock and arguments of an older event |
| `EventStreams.EventStream.ReadEventSource` | include/binlog/EventStream.cpp:42-47 | a source is learnt only if it decodes |
| `EventStreams.DrainReadsAll` | include/binlog/EventStream.cpp:7-40 | calling until the end, also after exceptions, observes every payload of a framed stream in order |
| `EventStreams.RetryIsDeletion` | include/binlog/EventStream.cpp:7-76 | retrying after each exception gives what reading the stream without the offending entries gives |
| `EventStreams.UnknownSpecialHasNoEffect` | include/binlog/EventStream.cpp:17-32 | special entries of unknown kind are read without complaint, and can be left out or put in anywhere |
| `EventStreams.ReactToTagBytes` | include/binlog/EventStream.cpp:14-63 | eight bytes FF and a source teach that source; FE and seven FF set the writer properties behind them; FD and seven FF the clock sync |
| `EventStreams.SpecialIsTopBit` | include/binlog/EventStream.cpp:14-15 | an entry is special if and only if the top bit of its eighth byte is set |
| `EventStreams.CutEntriesAreRefused` | include/binlog/EventStream.cpp:42-63 | a special entry cut short, however little, throws |
| `EventStreams.StrayEventsAreRefused` | include/binlog/EventStream.cpp:65-76 | an event of an unknown source, or without its clock, throws, and so does an entry without a tag |
| `EventStreams.TruncatedThrows` | include/binlog/EntryStream.cpp:52-57 | an input that ends inside an entry throws |
| `EventStreams.TruncatedEntry` | include/binlog/EntryStream.cpp:52-57 | what is then left: the stray bytes of a size, or what follows the size |
| `EventStreams.EmptyEntryIsEnd` | include/binlog/EventStream.cpp:11-12 | an empty entry ends a call as the end of the input does |
| `EventStreams.SourcesFirstReadsBack` | include/binlog/EventStream.cpp:65-76 | a stream where sources precede their events is read without a refusal |
| `EventFilters.EventFilter.WriteAllowed` | include/binlog/EventFilter.hpp:60-104 | its output, its result and the ids it learnt are those of filtering the bytes entry by entry, up to the first invalid entry |
| `EventFilters.FilterBytesIsFilterPayloads` | include/binlog/EventFilter.hpp:60-104 | on framed payloads that is filtering the payloads |
| `EventFilters.FilterInTwoCalls` | include/binlog/EventFilter.hpp:60-104 | splitting the input at an entry boundary changes nothing |
| `EventFilters.FilterInManyCalls` | include/binlog/EventFilter.hpp:60-104 | any number of calls, cut at entry boundaries, write what one call on the whole input writes, and learn the same ids |
| `EventFilters.TruncatedInput` | include/binlog/EventFilter.hpp:60-104 | an input that ends inside an entry throws, with all whole entries before it dealt with |
| `EventFilters.FilterCommutesWithReading` | include/binlog/EventFilter.hpp:60-104 | reading the filtered stream gives the allowed events of the original, with the same source, writer and clock, if and only if no event of a source that is no longer allowed was let through |
| `EventFilters.SteadyVerdictsDoNotLeak` | include/binlog/EventFilter.hpp:75-94 | that is so when no id is declared again with another verdict |
| `EventFilters.FilteredStreamReadsAsAllowedEvents` | include/binlog/EventFilter.hpp:60-104 | the two together, for streams as sessions write them |
| `EventFilters.FilteredChunksReadAsAllowedEvents` | include/binlog/EventFilter.hpp:60-104 | so for an input that reaches the filter in any number of chunks |
| `EventFilters.RedeclaredSourceLeaks` | include/binlog/EventFilter.hpp:82-88 | an allowed id is never forgotten: a stream with a redeclared id where filtering and reading do not commute |
| `Recovery.HalvesAreWholeEntries` | include/binlog/Session.hpp:363-369 | with one entry per commit both halves of every view are separately whole entries, across any number of wraps |
| `Recovery.CheckEntryBuffer` | bin/brecovery.cpp:86-104 | it accepts exactly the runs of whole entries |
| `Recovery.CheckQueueInvariants` | bin/brecovery.cpp:160-181 | it accepts exactly the queues whose indices are within the capacity |
| `Recovery.ReadQueue` | bin/brecovery.cpp:223-238 | the unread bytes of a dumped queue, if they are whole entries |
| `Recovery.DumpYieldsUnreadEntries` | bin/brecovery.cpp:183-239 | of a queue dumped at any step of any interleaving exactly the entries committed and not released are recovered |
| `MemoryDumps.MagicNumbers` | bin/brecovery.cpp:271-277 | the searched bytes are the two magic numbers as they lie in memory |
| `MemoryDumps.MetadataLayout` | include/binlog/detail/VectorOutputStream.hpp:32-40 | where the session, the size and the content of metadata are in memory |
| `MemoryDumps.ChannelLayout` | include/binlog/detail/Queue.hpp:109-116 | where the session, the members of the queue and its buffer are |
| `MemoryDumps.RecoveredAreWhole` | bin/brecovery.cpp:120-245 | whatever the input, only runs of whole entries are recovered |
| `MemoryDumps.ReadMetadata` | bin/brecovery.cpp:116-158 | a buffer is read as its layout says, or refused |
| `MemoryDumps.ReadData` | bin/brecovery.cpp:183-239 | a channel is read as its layout says, or refused |
| `MemoryDumps.RecoverBuffers` | bin/brecovery.cpp:281-313 | the search for magic numbers, with its seeking back and its end near the end of the input, is the scan of the specification |
| `MemoryDumps.RecoversEveryBuffer` | bin/brecovery.cpp:281-313 | from any memory exactly the buffers of metadata and channels are taken, whatever bytes they hold, provided no magic number in other memory stands in front of what passes for a buffer |
| `RecoveredOutput.Sort` | bin/brecovery.cpp:326-331 | an ordered permutation, as `std::sort` promises |
| `RecoveredOutput.OutputIsFramed` | bin/brecovery.cpp:333-346 | the written file is the entries of all buffers, framed |
| `RecoveredOutput.EventsResolveInOwnSession` | bin/brecovery.cpp:326-331 | in any such order every event is read with the source of its own session, even where sessions use the same ids |
| `RecoveredOutput.RecoveredFileReadsBack` | bin/brecovery.cpp:243-351 | the file recovered from any number of sessions, each in the middle of some run, is well framed and reads back so |
| `DumpRecovery.Recover` | bin/brecovery.cpp:281-346 | search, sort, write: the output is some ordering of what the scan finds, and whatever the input a run of whole entries |
| `DumpRecovery.DumpReadsBack` | bin/brecovery.cpp:243-351 | end to end: from the memory of a program with any number of sessions at any step of their protocols, and their queues at any step of the ring, the file has the metadata and the unreleased events, each just once; a reader refuses none of them and reads each with the source of its own session |
| `DumpRecovery.VectorIsPiece` | include/binlog/detail/VectorOutputStream.hpp:32-40 | between writes the buffer of a session lies in memory as the search expects it |
| `DumpRecovery.InitCarries` | include/binlog/Session.hpp:256-262 | a new queue carries a new channel of the protocol |
| `DumpRecovery.CommitCarries` | include/binlog/SessionWriter.hpp:159-168 | a commit of one framed entry to the ring is the `AddEvent` of the protocol |
| `DumpRecovery.ReleaseCarries` | include/binlog/detail/QueueReader.hpp:68-72 | storing `readIndex` is the `EndRead` of the protocol |
| `DumpRecovery.OtherStepsCarry` | include/binlog/detail/QueueWriter.hpp:49-136 | no other load, store or copied byte of the ring is a step of the protocol |
| `DumpRecovery.ViewIsBatch` | include/binlog/Session.hpp:355-373 | the view of a ring at any moment shows the bytes of just those entries the protocol writes in one batch, and its size is their batch size |
| `RecoverableStreams.RecoverableVectorOutputStream.Write` | include/binlog/detail/VectorOutputStream.hpp:78-92 | the data is appended, and what a dump holds after any store of it: the old size with some of the new bytes, or the new size with all, the magic number being there or not; nothing is recovered from a buffer given up when the vector grows |
| `RecoverableStreams.DuringContent` | include/binlog/detail/VectorOutputStream.hpp:78-92 | so a dump after any store of one write finds the old content, the new one, or none |
| `RecoverableStreams.RecoverableVectorOutputStream.SerializeSizePrefixedTagged` | include/binlog/Entries.hpp:138-148 | an entry written field by field: from a dump after any store the old entries are recovered if the size in the header is the old one, all of them if it is the new one, and otherwise nothing at all, which does happen |
| `RecoverableStreams.PiecesOfFrame` | include/binlog/Entries.hpp:138-148 | what the calls of `write` for an entry append, one after the other, is the framed entry |
| `RecoverableStreams.BoundaryOrNothing` | include/binlog/detail/VectorOutputStream.hpp:78-92 | whole entries and a part of one more pass as entries if and only if the part is nothing or all of it |
| `RecoverableStreams.RecoverableVectorOutputStream.constructor` | include/binlog/detail/VectorOutputStream.hpp:52-64 | the header of a new buffer tells an empty content |
| `RecoverableStreams.RecoverableVectorOutputStream.Destroy` | include/binlog/detail/VectorOutputStream.hpp:66-70 | nothing is recovered from a destroyed buffer |
| `RecoverableStreams.PartialEntryHidesAll` | include/binlog/detail/VectorOutputStream.hpp:78-92 | in the middle of an entry nothing is recovered, not even the whole entries before it |
| `Tags.ComputeSizeBetweenBalanced` | include/mserialize/detail/tag_util.hpp:19-38 | the counting loop finds the closing delimiter |
| `Tags.ComputeFirstSize` | include/mserialize/detail/tag_util.hpp:60-94 | the size of the first tag |
| `Tags.TagPop` | include/mserialize/detail/tag_util.hpp:96-103 | the first tag is removed and returned |
| `Tags.TagPopLabel` | include/mserialize/detail/tag_util.hpp:105-122 | the first label is removed and returned |
| `Tags.Find` | include/mserialize/detail/tag_util.hpp:160-164 | the leftmost occurrence, or none |
| `Tags.ResolveRecursiveTag` | include/mserialize/detail/tag_util.hpp:139-176 | the search by text, as its specification says |
| `Tags.PopTag` | include/mserialize/detail/Tag.hpp:83-137 | off generated tags put behind each other exactly the first is taken, whatever follows it |
| `Tags.NeutralTag` | include/mserialize/detail/tag_util.hpp:19-38 | a generated tag closes what it opens, for every kind of delimiter |
| `Tags.StructTag` | include/mserialize/make_struct_tag.hpp:55-90 | the tag of a structure with a vector member, as text |
| `Tags.TupleTag` | include/mserialize/detail/Tag.hpp:100-115 | that of a tuple |
| `Tags.VariantTag` | include/binlog/adapt_stdvariant.hpp:55-95 | that of a variant that can be empty |
| `Tags.EnumTag` | include/mserialize/make_enum_tag.hpp:1-60 | that of an enumeration |
| `Tags.ResolveFindsFirst` | include/mserialize/detail/tag_util.hpp:139-176 | in a generated tag a structure is found by its very name: names that only begin like it, fields and enumerators do not get in the way |
| `Hex.WriteIntegerAsHex` | include/mserialize/detail/integer_to_hex.hpp:45-83 | the digits of the integer, also of negative ones |
| `Hex.HexStringSize` | include/mserialize/detail/integer_to_hex.hpp:12-33 | it is the length of that text |
| `Hex.HexRoundTrip` | include/mserialize/detail/integer_to_hex.hpp:45-73 | the text tells the integer |
| `Hex.HexExamples` | include/mserialize/detail/integer_to_hex.hpp:46-75 | zero, a positive and a negative integer, as text |
| `Hex.KindsHold` | include/mserialize/detail/Visit.hpp:54-78 | the integers each kind holds, with literal bounds: so many bytes, signed or not |
| `Hex.HoldsBool` | include/mserialize/detail/integer_to_hex.hpp:78-84 | a `bool` is one byte, and any but zero is true |
| `Hex.HexFitsBuffer` | include/mserialize/detail/Visit.hpp:17-46 | with both delimiters it fits the buffer of 20 characters |
| `Hex.HexOfInjective` | include/mserialize/detail/Visit.hpp:217-230 | different serialized integers have different texts |
| `Hex.SearchFindsEnumerator` | include/mserialize/detail/Visit.hpp:224-238 | an enumerator is found iff one with the value is listed, and then it is the first; the search cannot match inside a name or across two |
| `Visits.VisitRefines` | include/mserialize/detail/Visit.hpp:243-277 | on generated tags, visiting by taking text apart is visiting by type: the same calls, exceptions and bytes left, for every input and depth |
| `Visits.SingularRefines` | include/mserialize/detail/Singular.hpp:49-64 | the same for `singular` |
| `Visits.EnumRefines` | include/mserialize/detail/Visit.hpp:202-239 | the same for enumerations |
| `Visits.EnumVisitNamesInteger` | include/mserialize/detail/Visit.hpp:212-250 | on integers: the visitor gets the name of the first enumerator listed with the very integer in the input, and an empty name if and only if there is none |
| `Visits.ArithmeticTakes` | include/mserialize/detail/Visit.hpp:54-78 | for each kind, the number of bytes taken from the input and handed over |
| `Visits.IndexOutOfRange` | include/mserialize/detail/Visit.hpp:129-160 | an index that no alternative of a variant has is reported with nothing in it |
| `Visits.RecursionLimit` | include/mserialize/detail/Visit.hpp:240-277 | visiting works up to 2048 levels of nesting, and no further |
| `Visits.CollapsesBeyond32` | include/mserialize/detail/Visit.hpp:91-105 | elements without bytes are visited just once from 33 elements on |
| `Serialization.VisitOfSerialized` | include/mserialize/detail/Visit.hpp:243-277 | visiting a serialized value, whatever follows, makes the calls that tell the value and leaves what follows, if nesting stays within the limit |
| `Serialization.VisitByTagOfSerialized` | include/mserialize/detail/Visit.hpp:78-277 | the same by tag, with recursive structures resolved in it and the limit of 2048 |
| `Serialization.SingularIsExact` | include/mserialize/detail/Singular.hpp:49-64 | `singular` answers whether the type is one without bytes |
| `Serialization.SingularAnswers` | include/mserialize/detail/Singular.hpp:49-51 | it never gives up where a value of the type can be visited |
| `Serialization.SingularIsEmpty` | include/mserialize/detail/Singular.hpp:11-64 | values of such types are serialized to nothing |
| `Serialization.SerExamples` | include/mserialize/detail/Serializer.hpp:92-246 | a sequence starts with its size in four bytes, a variant with its index in one, a tuple or structure with nothing |
| `Serializers.Serialize` | include/mserialize/detail/Serializer.hpp:69-241 | the stream receives the serialized form |
| `Serializers.SerializedSize` | include/mserialize/detail/Serializer.hpp:75-240 | it is the length of that form, also where elements of fixed size are only counted |
| `VisitDetermines.VisitConserves` | include/mserialize/detail/Visit.hpp:243-277 | for any tag and any input, every byte consumed was handed to the visitor once, also when an exception ends the visit |
| `VisitDetermines.SerializedDeterminesValue` | include/mserialize/detail/Serializer.hpp:97-241 | values of a type are told apart by their bytes, and none is a proper prefix of another |
| `VisitDetermines.BytesOfTrace` | include/mserialize/detail/Visit.hpp:54-277 | the calls tell the serialized bytes |
| `VisitDetermines.TraceDeterminesValue` | include/mserialize/detail/Visit.hpp:54-277 | so the calls determine the value |
| `VisitSingular.SingularVisit` | include/mserialize/detail/Singular.hpp:11-64 | where `singular` says yes, visiting takes no byte and makes the same calls for every input |
| `VisitSingular.GivingUpThrows` | include/mserialize/detail/Singular.hpp:49-51 | where `singular` gives up, visiting throws, too |
| `VisitSingular.ShortcutIsExact` | include/mserialize/detail/Visit.hpp:91-105 | with the shortcut a visit ends as without, and expanding the reported repetitions gives the very calls of the plain loop |
| `VisitBound.VisitIsCheap` | include/mserialize/detail/Visit.hpp:91-105 | bound on the calls of every part of a visit; a successful visit without bytes is one of a type without bytes |
| `VisitBound.CallsAreLinear` | include/mserialize/detail/Visit.hpp:91-105 | on any input the calls are at most a factor, fixed by the tag, times the bytes consumed plus one, if the tag refers to no structure that has members but no bytes |
| `VisitBound.RecursionIsLinear` | include/mserialize/detail/Singular.hpp:28-36 | so for every tag whose references stand inside the structures they name, as those of recursive types do |
| `VisitBound.OutsideReferencesAreNotLinear` | include/mserialize/detail/Singular.hpp:28-36 | a tag that does refer to one breaks the bound with any factor: four bytes are enough for more calls |
| `VisitByteless.ExcessIsExact` | include/mserialize/detail/Visit.hpp:91-105 | for every tag and element: sequences of the element exceed every factor if and only if its values take no bytes, references followed, and `singular`, which does not follow them, says otherwise |
| `VisitByteless.ReferencesExceed` | include/mserialize/detail/Singular.hpp:28-36 | a reference, in particular: if and only if the structure it refers to has members but no bytes |
| `VisitByteless.HollowIsNotAllThereIs` | include/mserialize/detail/Singular.hpp:28-36 | a structure that exceeds need not have such members itself; members that refer to one are enough |
| `VisitByteless.ExcessRefersToHollow` | include/mserialize/detail/Singular.hpp:28-36 | and then a structure is referred to whose members `singular` knows to have no bytes, which is what `CallsAreLinear` excludes |
| `VisitByteless.BytelessIsExact` | include/mserialize/detail/Visit.hpp:240-277 | a visit succeeds without taking a byte if and only if the type is byteless, on every input |
| `VisitByteless.NoBytesIffByteless` | include/mserialize/detail/Serializer.hpp:70-246 | a value is serialized to nothing if and only if its type is byteless |
| `VisitByteless.SingularIffNoBytes` | include/mserialize/singular.hpp:12-37 | on tags: where no such structure is referred to, `singular` says of the tag of any value, recursive ones included, whether the value is serialized to nothing |
| `ToStrings.PrintsText` | include/binlog/ToStringVisitor.cpp:17-168 | driven by the calls for a value the visitor prints exactly its compositional rendering, with `, ` before every sibling but the first at any depth, structure names up to a template bracket, and restores its depth |
| `ToStrings.PrintsFields` | include/binlog/ToStringVisitor.cpp:121-134 | the same for the fields of a structure |
| `ToStrings.PrintsBody` | include/binlog/ToStringVisitor.cpp:148-156 | the same for elements, with repetitions shown once and counted |
| `ToStrings.StringIsShown` | include/binlog/ToStringVisitor.cpp:30-44 | the text of a string has the byte of its i-th element for its i-th character |
| `ToStrings.ShownAsSequence` | include/binlog/ToStringVisitor.cpp:30-50 | the text of a sequence, literally |
| `ToStrings.ShownAsTuple` | include/binlog/ToStringVisitor.cpp:52-64 | that of a tuple |
| `ToStrings.ShownAsStructure` | include/binlog/ToStringVisitor.cpp:85-134 | that of a structure: the name up to a bracket, labels unless they are empty |
| `ToStrings.ShownAsNothing` | include/binlog/ToStringVisitor.cpp:66-119 | those of an empty structure and an empty optional |
| `ToStrings.ShownAsEnumerators` | include/binlog/ToStringVisitor.cpp:72-83 | those of enumerators, listed and not |
| `ToStrings.ShownAsRepeated` | include/binlog/ToStringVisitor.cpp:150-156 | the note on repeated elements |
| `ToStrings.DecimalRoundTrip` | include/binlog/ToStringVisitor.cpp:150-156 | the digits of its number tell it |
| `VisitMethods.ToStringVisitor.VisitSequenceBegin` | include/binlog/ToStringVisitor.cpp:30-44 | strings are taken from the input whole, and their characters not visited |
| `VisitMethods.ComputeSingular` | include/mserialize/detail/Singular.hpp:49-64 | the recursive check is its specification |
| `VisitMethods.ComputeSingularStruct` | include/mserialize/detail/Singular.hpp:22-47 | the same for structures and references |
| `VisitMethods.VisitImpl` | include/mserialize/detail/Visit.hpp:250-277 | the recursive functions that shorten tags and consume input make the visitor follow exactly the calls of the specification |
| `VisitMethods.VisitElementsOf` | include/mserialize/detail/Visit.hpp:91-105 | the same for the elements of a sequence, with the shortcut |
| `VisitMethods.VisitVariantTag` | include/mserialize/detail/Visit.hpp:129-156 | the same for variants, also with an index out of range |
| `VisitMethods.VisitStructTag` | include/mserialize/detail/Visit.hpp:169-200 | the same for structures and references |
| `VisitMethods.VisitEnumTag` | include/mserialize/detail/Visit.hpp:211-239 | the same for enumerations |
| `PrettyPrinting.CountPlaceholders` | include/binlog/create_source_and_event.hpp:70-84 | the number of placeholders of a format |
| `PrettyPrinting.PrintEventMessage` | include/binlog/PrettyPrinter.cpp:251-272 | the index loop is its specification, for every format, tag and input |
| `PrettyPrinting.MessageIsFormatted` | include/binlog/PrettyPrinter.cpp:251-272 | the message is the format with the i-th placeholder replaced by the rendering of the i-th argument, whatever their numbers; the bytes of the arguments that have one are used up, no others |
| `PrettyPrinting.FormatSplits` | include/binlog/PrettyPrinter.cpp:251-272 | the first pair of braces is replaced by the first text, and it goes on behind it with the others |
| `PrettyPrinting.PlainFormat` | include/binlog/PrettyPrinter.cpp:251-272 | text without an open brace stands for itself |
| `PrettyPrinting.HelloMessage` | include/binlog/PrettyPrinter.cpp:251-272 | from the tag and bytes of a string argument to the message, literally |
| `Time.NanosecondsAreExact` | include/binlog/Time.cpp:5-16 | for a frequency that is positive as a signed integer and a result that fits: what is computed is ticks times 10^9 over the frequency, truncated towards zero, if and only if the remainder of ticks is at most 9223372036 either way |
| `Time.ExactModulo` | include/binlog/Time.cpp:5-16 | the same for results that do not fit, modulo 2^64 |
| `Time.ExactFrequencies` | include/binlog/Time.cpp:5-16 | of all frequencies but 0, just those up to 9223372037 are exact for every number of ticks; for each greater one a number of ticks is given that comes out wrong |
| `Time.NegativeFrequency` | include/binlog/Time.hpp:47-49 | the precondition `clockFrequency != 0` is not enough: every frequency of 2^63 and more is negative as a signed integer, and for some ticks gives a number of the wrong sign |
| `Time.SplitIsExact` | include/binlog/Time.cpp:7-15 | splitting off whole seconds is exact for every positive frequency, also for negative ticks |
| `Integers.Truncates` | include/binlog/Time.cpp:12-14 | division truncates towards zero, for either sign |
| `Time.TimeIsExact` | include/binlog/Time.cpp:18-27 | for every clock sync with such a frequency and every clock value: the time is that of the clock sync plus the signed difference, in 64 bits, if and only if the remainder of the difference is that small |
| `BtuiModels.ContainsSubstringCaseInsensitive` | bin/btui_model.cpp:31-55 | true iff the text occurs somewhere, but for case |
| `BtuiModels.LowerCase` | bin/btui_model.cpp:36-39 | the letters, and nothing else, are made lower case |
| `BtuiModels.FiltersAreIndependent` | bin/btui_model.cpp:129-160 | without a filter all records from the lowest severity on are shown, and each filter looks at its own member |
| `BtuiModels.FiltersCombine` | bin/btui_model.cpp:129-160 | all filters together let through what each of them does |
| `BtuiModels.StableSort` | bin/btui_model.cpp:175-184 | a sorted permutation that keeps equal elements in order |
| `BtuiModels.StableSortShows` | bin/btui_model.cpp:167-185 | so what is shown, and the file order of equal clocks, survive sorting |
| `BtuiModels.SortedMeans` | bin/btui_model.cpp:167-185 | ascending means that clocks do not decrease, descending that they do not increase |
| `BtuiModels.SortedListIsDetermined` | bin/btui_model.cpp:167-185 | after sorting the list depends on what passed the filter and on the order alone |
| `BtuiModels.BtuiModel.ApplyFilters` | bin/btui_model.cpp:129-165 | exactly the passing records of all are listed, once each, in the set order |
| `BtuiModels.BtuiModel.ApplySorting` | bin/btui_model.cpp:167-185 | the same records are listed, sorted; without an order the list is untouched |
| `BtuiModels.BtuiModel.Load` | bin/btui_model.cpp:72-127 | records are appended, and filters applied unless reading threw |
| `BtuiModels.BtuiModel.CycleSortOrder` | bin/btui_model.cpp:232-241 | from descending back to no order the previous order of the list stays |
| `BtuiModels.BtuiModel.CycleSeverityFilter` | bin/btui_model.cpp:243-256 | the next severity, or the first, and the list that goes with it |
| `BtuiModels.BtuiModel.ResetFilters` | bin/btui_model.cpp:258-262 | no filter, and the list that goes with it |

## Left out

- C++ memory orders: steps are sequentially consistent; which store publishes what is said in `Ring.dfy`.
- `SessionProtocol` works on lists of entries, not on the bytes of the rings; their steps are matched one by one in `DumpRecovery.dfy`, not in one combined transition system.
- Sessions.Session.Consume: is the code of one call; what producers do meanwhile is in `SessionProtocol`.
- Sessions.Session.CreateChannel: allocation failure is not modelled there, only in `SessionWriter.ReplaceChannel`, as a parameter; capacities of 2^63 and more never allocate.
- Sessions.Session.AddEventSource: strings that make a source of 4 GB and more are not given to it, nor to the other special entries; 2^63 sources are not added.
- RecoverableStreams.RecoverableVectorOutputStream.Write: eight bytes of a header are one store; the buffer a vector grows into is not described before it has taken over the data.
- MemoryDumps.RecoversEveryBuffer: does not say what is taken where a magic number in other memory stands in front of what passes for a buffer; that is only in the scan itself.
- DumpRecovery.DumpReadsBack: assumes that the metadata buffers are whole, which a dump in the middle of `addEventSource` is not; there `AddEventSource` tells what is lost.
- VisitByteless.ExcessIsExact: takes the size of a sequence as a number; in the input it has 32 bits, for which `VisitBound.OutsideReferencesAreNotLinear` shows an input.
- EventStreams.EventStream.NextEvent: the pointer to a source that an event holds, and for how long it is valid, are not modelled.
- Serialization.VisitOfSerialized: enumerations over `bool` with other bytes than 0 and 1 are not values; types of names with tag delimiters, such as templates, are not types of the model.
- ToStrings.PrintsText: the text of a number is a parameter; the special cases of `PrettyPrinter::printStruct`, durations and addresses are not part of this model.
- Time.NanosecondsAreExact: integers that do not fit 64 bits are cut to them, where the language leaves open what happens.
- Time.TimeIsExact: broken-down time and time zones are library calls and not modelled.
- BtuiModels.BtuiModel.Load: takes decoded records; their rendering is not modelled.
- Sizes of arithmetic types are those of a 64 bit Linux target, `char` is signed, integers are little-endian.
- `std::sort` and `std::stable_sort` are simple sorts with the same contracts.
- Event format placeholders other than the message, date formats, severities as text, the terminal interface, `bread`, argument handling, files and streams of the standard library.
- Template and macro machinery that derives tags and serializers from C++ types.
