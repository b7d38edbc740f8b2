# A verified model of the Bitácora core

Bitácora is an agent-and-hub monitoring system. This project models the parts
of it whose correctness depends on more than one function, and proves what
they are for: a crash-safe buffer on the agent, delivery to the hub, the
stores behind the hub, version ordering, fault statistics, the black-box ring
file, the alert engine, the collector loop and downsampling.

## How it is laid out

| files | what they model |
|---|---|
| `Common`, `Calendar`, `Schema` | shared definitions; Go's civil time and `AddDate`; metrics, events, log lines |
| `FlatLog` | what the agent buffer means: one sequence of numbered items |
| `WalDisk`, `WalIndex`, `WalRecovery`, `WalLayout`, `WalSegments`, `WalBuffer` | the on-disk buffer: files, cached segment metadata, recovery, where items lie, and the `Buffer` class, which refines the flat log |
| `WalCapacity`, `WalAge` | priority discard, and what the age budget does not see |
| `WalRuns`, `WalCodec` | whole runs with crashes, a record encoding for every run |
| `WalDrain`, `WalBackfill` | draining the flat log while others append and enforce its capacity, and the drain loop that does it |
| `Ingest`, `Delivery`, `DeliveryRaces` | packing and ingesting a batch; agents, a lossy network and the hub with its concurrent handlers as a step system; exactly when delivery is safe |
| `Months`, `EventStore`, `EventListing` | month-sharded and flat event stores, and exactly when they agree |
| `LogBlock`, `LogIndex`, `LogStore`, `LogRuns`, `LogRebuild`, `LogService` | log blocks, index reconstruction, every interleaving of appends, flushes and crashes, and the store's operations as such steps |
| `DebVersion`, `DebOrder`, `DebPolicy`, `AptUpdates` | Debian version comparison, what it says about strings, and the updates reported from it |
| `Binomial`, `FaultTracker`, `FaultReports` | the binomial tail, the fault tracker driven by it, and exactly which faults it reports |
| `Bytes`, `BlackBoxSample`, `BlackBoxRing`, `BlackBox`, `BlackBoxRuns` | the ring file, byte by byte |
| `Alert`, `AlertHysteresis`, `AlertManager`, `AlertRuns` | one alert's state machine, hysteresis in closed loop, the manager and silences, whole runs of both |
| `CollectorLoop` | backoff and disabling |
| `Sorting`, `SeriesKey`, `Buckets`, `Downsample` | grouping samples into series and buckets |

State that the program changes in place is a class whose methods are proved
against functions on values; loops are loops with invariants; runs, crashes
and interleavings are sequences of steps over values. `dafny verify
dfyconfig.toml` checks everything.

## Results worth knowing

* **The buffer is durable.** Every run of appends, acknowledgements, discards,
  closes, crashes between operations and crashes inside a record write is a
  run of the flat log; an item leaves only by acknowledgement or discard, and
  events never by discard (`WalRuns.Run`, `WalRuns.NothingLost`). Records only
  have to read back for the items a run writes, and for any run there is an
  encoding that does this (`WalCodec.RunFromEmpty`). A crash between the two
  halves of sealing loses nothing, but the first reopening lists that segment
  twice (`WalRuns.CrashDuringSeal`); if its last item is then discarded, a
  listing without a file stays behind and reading past it fails until the next
  restart (`WalSegments.TwiceListedDangles`, `WalSegments.ReadOldest`).
* **A drain removes only what it sent.** Its rounds are flat-log steps: what
  others do, a batch that is the oldest items when it was read, and the
  acknowledgement of that batch, which takes nothing that was not in it
  (`WalDrain.AckTakesBatch`). Everything that was or came in was sent, is still
  there or, if it is no event, went in an enforcement by someone else; if there
  was none, what was sent and what is left are exactly what was and came in,
  in order, over a second drain too (`WalDrain.DrainAccounts`,
  `WalBackfill.BackfillTwice`).
* **Enforcement discards no more than it must.** Before each discard the files
  on disk were over the byte budget or the item the age is measured from was
  too old, and afterwards they are not, or only events are left
  (`WalCapacity.EnforceCapacity`).
* **The age budget has a blind spot.** It looks at the first listed segment and,
  if that one is empty, goes straight to the open one. The item it finds is the
  oldest buffered one exactly unless an empty segment is listed first and a
  later listed one is not empty (`WalCapacity.AgeItemIff`). Confirming an item
  while its segment is open and restarting leaves such a segment; what is
  sealed behind it never exceeds the age budget, however old it gets
  (`WalAge.AgeUnseen`).
* **Acknowledged means received exactly when** the network does not replay
  requests (`DeliveryRaces.SafeIff`). The hub marks a batch id and then
  receives the batch, in two steps; a replay that comes between them is
  answered as a duplicate, and the agent deletes what has not been stored
  (`DeliveryRaces.ReplayOvertakes`). On a replaying network the item is at
  least still being received exactly when receives never fail and the hub
  never stops (`DeliveryRaces.InHandIff`); otherwise it can be gone for good
  (`DeliveryRaces.ReplayLosesItem`). Batches that name another host than the
  token they come with are refused without a trace, so all of this holds with
  any number of them on the network (`Delivery.RunsStayOwn`).
* **The log store loses only what is in memory.** A key's accepted lines are,
  in order, its blocks and losses and then its buffer; a crash loses exactly
  the buffers and the blocks whose payload was not written
  (`LogRuns.LinesAccounted`, `LogRuns.CrashLoses`), and without a crash nothing
  is lost (`LogRuns.NothingLost`). Whatever is called on a real store is such a
  run without a crash (`LogService.Run`).
* **Month sharding is not always invisible.** `monthsBetween` steps with
  `AddDate`, which from the 29th to the 31st jumps over the first later month
  that lacks the day — February from late January, but also every 30-day month
  from a 31st. The listing equals the flat one for every store exactly when no
  month strictly inside the range is too short for its start day and the
  range is not reversed within one millisecond (`EventListing.ListingsAgreeIff`).
  The shards themselves hold what a flat table would exactly when equal ids
  never span months (`EventStore.ShardingIff`).
* **A silence matcher with an empty value** also matches alerts that lack the
  label, although the documentation of `Matchers` asks for its presence; the
  two readings agree exactly when no matcher value is empty
  (`AlertManager.PresenceIff`). The model follows the code.
* **Series keys can collide.** Label validation forbids neither `=` nor `;`,
  in names or in values. Keys tell all label sets over two alphabets apart
  exactly when names lack `=` and values `;`, or names lack `;` and values `=`,
  or names lack both and share no character with values
  (`SeriesKey.TellApartIff`); for any other shared character c the sets
  {c: ";cc="} and {c: "", cc: ""} collide (`SeriesKey.KeysCollide`).
* **A block's text gives its lines back** exactly when no message contains a
  newline (`LogBlock.TextRoundTripIff`).
* **Version order in Policy terms.** What two parts have in common at the front
  does not matter unless it cuts a number in two; after that the first
  difference decides, by groups of characters or as numbers
  (`DebPolicy.CommonFront` and the lemmas after it).
* **A fault is reported exactly if** it is the first at which its core has at
  least five faults and a tail below 1%, whatever other cores do
  (`FaultReports.Watch`).
* **Hysteresis means what it says** exactly when the resolving threshold is not
  above the firing one; otherwise a steady value switches the alert on and off
  (`AlertHysteresis.FaithfulIff`).
* **A lone failing core** is reported at its fifth fault with three or more
  active cores, at its seventh with two, and never with one
  (`FaultTracker.LoneCoreReported`).

## Model

| member | source | states |
|---|---|---|
| `FlatLog.KeepKeep` | internal/agentbuffer/backfill.go:106-178 | acknowledging or discarding twice equals doing it once with both bounds |
| `FlatLog.KeepAfterPrefix` | internal/agentbuffer/backfill.go:63-69 | acknowledging the last item of a batch removes exactly that batch from an ordered log |
| `FlatLog.DiscardsInOrder` | internal/agentbuffer/capacity.go:92-99 | after any number of discards the log lines lost a prefix, then the metrics a prefix, and the events nothing |
| `WalDisk.ParseRender` | internal/agentbuffer/segment.go:30-47 | the lines of items whose records read back parse as those items, followed by whatever the rest parses as |
| `WalDisk.ParseTorn` | internal/agentbuffer/buffer.go:287-325 | a record cut off anywhere is dropped and all records before it survive; a complete one without its newline is kept |
| `WalIndex.IndexLists` | internal/agentbuffer/buffer.go:185-235 | a sorted, accurate segment list that only leaves out empty files lists exactly what the directory holds |
| `WalIndex.IndexNewest` | internal/agentbuffer/segment.go:52-74 | listing a newly sealed newest segment keeps the list accurate and appends its items |
| `WalIndex.AckFinish` | internal/agentbuffer/backfill.go:106-178 | when the acknowledgement loop ends the list describes the files again and the log has only higher numbers |
| `WalIndex.CollectWithout` | internal/agentbuffer/capacity.go:135-194 | filtering the one segment that holds a number filters the whole log, by one item |
| `WalRecovery.ResumeSeq` | internal/agentbuffer/buffer.go:185-235 | the sequence number recovery resumes from is the highest buffered one |
| `WalSegments.ReadRecords` | internal/agentbuffer/buffer.go:287-325 | the scanning loop yields the records up to the first undecodable line |
| `WalSegments.InspectSealed` | internal/agentbuffer/buffer.go:237-252 | the recovered list indexes the sealed files, with the right total and highest number |
| `WalSegments.SealOrphans` | internal/agentbuffer/buffer.go:287-325 | sealing leftover open segments turns the directory into the recovered one and lists it |
| `WalSegments.AckSegment` | internal/agentbuffer/backfill.go:110-155 | the cached bounds decide the clear cases; what remains of a segment is exactly its higher numbers, with the right metadata |
| `WalSegments.AckSealed` | internal/agentbuffer/backfill.go:106-178 | all sealed segments are filtered, the list stays accurate, and the count of removed items is right |
| `WalSegments.RemoveSealed` | internal/agentbuffer/capacity.go:149-194 | removes exactly the item with the number from the sealed segments, or reports that none has it |
| `WalLayout.WithoutAgain` | internal/agentbuffer/capacity.go:149-194 | taking numbers out of the segments in two steps, with emptied files and their listings going, is taking them out in one |
| `WalSegments.TwiceListedDangles` | internal/agentbuffer/capacity.go:172-177 | taking an item out of a segment that is listed twice leaves a listing without a file if and only if it was the last item |
| `WalSegments.ReadOldest` | internal/agentbuffer/backfill.go:77-91 | the first n items of the listed segments; fails if and only if a listing without its file comes before they are complete |
| `WalBuffer.Buffer.constructor` | internal/agentbuffer/buffer.go:90-109 | an intact directory opens to a valid buffer with exactly its items and numbering above them; any directory's total is that of its files |
| `WalBuffer.Buffer.Append` | internal/agentbuffer/buffer.go:133-163 | an item whose record reads back gets the next number and is appended to the flat log; it joins the open segment or a new one, which is sealed and listed exactly if it then has the segment size; the invariant holds after |
| `WalBuffer.Buffer.SealActive` | internal/agentbuffer/segment.go:52-74 | sealing moves the open items into a listed sealed segment and changes no item |
| `WalBuffer.Buffer.RewriteActive` | internal/agentbuffer/segment.go:81-104 | the open file holds exactly the new items afterwards |
| `WalBuffer.Buffer.Close` | internal/agentbuffer/buffer.go:115-128 | the buffered items are unchanged and no open segment is left |
| `WalBuffer.Buffer.Ack` | internal/agentbuffer/backfill.go:106-178 | exactly the items with higher numbers stay, in order; files, metadata and total agree |
| `WalBuffer.Buffer.RemoveItem` | internal/agentbuffer/capacity.go:135-194 | exactly the item with that number goes, from its own segment, which goes too if that empties it; the result says whether there was one |
| `WalBuffer.Buffer.Len` | internal/agentbuffer/buffer.go:166-170 | the cached total is the number of buffered items |
| `WalBuffer.Buffer.OldestItems` | internal/agentbuffer/backfill.go:73-102 | the prefix of the flat log of length min(n, len) |
| `WalCapacity.AgeItemIff` | internal/agentbuffer/capacity.go:79-90 | the item whose age counts is the oldest buffered one, none for an empty buffer, if and only if not (the first listed segment is empty and some listed one is not) |
| `WalCapacity.OldestItem` | internal/agentbuffer/capacity.go:79-90 | finds that item |
| `WalCapacity.FileCounts` | internal/agentbuffer/capacity.go:60-67 | a listed file adds exactly its size to the bytes on disk |
| `WalCapacity.SizesAddUp` | internal/agentbuffer/capacity.go:60-67 | the cached sizes add up to the sizes of the listed files |
| `WalCapacity.IsOverBudget` | internal/agentbuffer/capacity.go:60-77 | true if and only if the listed segment files and the open file together exceed the byte budget or the age item is too old; within budget the oldest buffered item is young enough, unless an empty segment hides it |
| `WalCapacity.OldestWithPriority` | internal/agentbuffer/capacity.go:101-130 | the scan across all segments finds the first item of the class in the flat log |
| `WalCapacity.FindDiscardVictim` | internal/agentbuffer/capacity.go:92-99 | the victim is the head of the discard order: log lines, then metrics, never events |
| `WalCapacity.EnforceCapacity` | internal/agentbuffer/capacity.go:24-45 | for any clock and size function it terminates, reports exactly the first discards in order and leaves the rest where it was; each discard was made over budget; it stops with no log line or metric left, or with the bytes on disk within budget and the oldest buffered item within the age budget unless an empty segment hides it |
| `WalCapacity.EnforcedMeaning` | internal/agentbuffer/capacity.go:24-45 | a prefix of the log lines went, metrics only once no log line was left, every event stayed in order, and the report names each removed item and no event |
| `WalCapacity.KindTells` | internal/agentbuffer/capacity.go:24-45 | the reported kind is the kind of the payload |
| `WalAge.AgeUnseen` | internal/agentbuffer/buffer.go:208-218 | an item sealed behind a segment that was confirmed and closed exceeds the budget only by bytes, whatever its timestamp and the time |
| `WalBackfill.Interleave` | internal/agentbuffer/backfill.go:45-67 | what others do between two steps of a drain is a run of exactly those appends and enforcements on the flat log |
| `WalDrain.Summary` | internal/agentbuffer/backfill.go:45-67 | such a run adds its items numbered on from the log and only removes non-events, and those only if it enforces the capacity |
| `WalDrain.AckTakesBatch` | internal/agentbuffer/backfill.go:63-69 | whatever happened since a batch was read, an item its acknowledgement removes was in the batch |
| `WalDrain.RoundKeeps` | internal/agentbuffer/backfill.go:45-70 | a round moves its batch from what is left to what was sent and keeps the account of everything else |
| `WalDrain.DrainAccounts` | internal/agentbuffer/backfill.go:30-37 | in a whole drain everything that was or came in was sent, is left or, if it is no event and someone enforced the capacity, was discarded; sent and left are in order, come from there, and without an enforcement are exactly that |
| `WalBackfill.Backfill` | internal/agentbuffer/backfill.go:38-71 | the drain is a run of the flat log in which each batch is the oldest items where it was read, at most the batch size (200 by default), and only what others do and the acknowledgement of that batch happen; it ends cancelled, failed or with an empty buffer, and terminates |
| `WalBackfill.BackfillTwice` | internal/agentbuffer/backfill.go:34-37 | two drains of a real buffer: everything that was or came in was sent by one of them, is left or was discarded by an enforcement (no event); what was sent comes from there, in order; without an enforcement nothing is missing |
| `WalRuns.CrashAndReopen` | internal/agentbuffer/buffer.go:185-235 | dying between operations and reopening yields the same items, numbering continues above them |
| `WalRuns.CrashDuringAppend` | internal/agentbuffer/segment.go:30-47 | dying inside a record write keeps all earlier items, and the new one exactly if its bytes are complete |
| `WalRuns.CrashDuringSeal` | internal/agentbuffer/segment.go:52-74 | dying between rename and remove lists the segment twice on the first reopening, loses nothing, counts right only if it is empty, and the next reopening is exact |
| `WalRuns.ReopenTwice` | internal/agentbuffer/buffer.go:185-235 | recovering twice equals recovering once |
| `WalRuns.Run` | internal/agentbuffer/buffer.go:133-163 | every sequence of operations and crashes is a run of the flat log |
| `WalRuns.RunWellFormed` | internal/agentbuffer/buffer.go:133-163 | in every reachable state numbers strictly increase and stay below the next one |
| `WalRuns.NothingLost` | internal/agentbuffer/backfill.go:30-32 | an item that is gone later was acknowledged or discarded in between, events never discarded |
| `WalCodec.CodecEncodes` | internal/agentbuffer/segment.go:30-47 | for any items there is a record encoding under which each reads back, with any number and not when cut short |
| `WalCodec.RunFromEmpty` | internal/agentbuffer/buffer.go:90-109 | every sequence of operations and crashes can be run from an empty directory and is a run of the empty flat log |
| `Ingest.WireKeepsRow` | internal/agentbuffer/transportsender.go:64-97 | millisecond wire times keep the stored row and the month |
| `Ingest.ItemsToBatch` | internal/agentbuffer/transportsender.go:30-48 | the loop builds the batch of the items under the given id and host |
| `Ingest.PackedCarries` | internal/agentbuffer/transportsender.go:30-48 | a batch carries every item, has as many records as items, and keeps each kind in order |
| `Ingest.SeenKeyInjective` | internal/transport/idempotency.go:33-43 | keys of different (host, batch id) pairs differ whatever the host name contains, for ids without the separator |
| `Ingest.Hub.MarkSeen` | internal/transport/idempotency.go:33-43 | reports whether the pair was recorded before, and records it |
| `Ingest.Hub.ReceiveBatch` | internal/ingestreceiver/receiver.go:70-99 | stores nothing if cancelled; otherwise the month tables hold all events inserted so far, without the failed inserts or those the process did not get to; success exactly when it runs to its end |
| `Ingest.Hub.Begin` | internal/transport/server.go:110-126 | forbidden if and only if the batch names another host than the token, else missing id if and only if it has none, else a duplicate if and only if the pair is marked, and in all three cases nothing changes; otherwise the pair is marked and the handler goes on |
| `Ingest.Hub.Finish` | internal/transport/server.go:128-145 | the receive as a second step, from whatever state other handlers left: the receipt it leaves, and the answer, success exactly if it ran to its end and none exactly if the process died |
| `Ingest.Hub.HandleIngest` | internal/transport/server.go:110-145 | a request served without interruption: refused with nothing marked or stored exactly if the host differs, the id is missing or the pair is marked; otherwise received, and the id stays marked also when the receive fails |
| `Ingest.InsertsIff` | internal/ingestreceiver/receiver.go:85-90 | what is inserted is exactly what the received batches carry, without the failed inserts |
| `Ingest.StoredExactlyOnce` | internal/storage/sqlite.go:178-221 | an event inserted any number of times has one row in a flat table, and one row over all month tables when ids keep their month |
| `Delivery.ReplyMeansReceived` | internal/transport/server.go:122-135 | a success response for the pending attempt means every item it lets the agent remove was received or, on a replaying network, is being received |
| `Delivery.FreshUnseen` | internal/agentbuffer/transportsender.go:30-34 | a batch id never drawn before is not marked on the hub, for any mix of hosts |
| `Delivery.DuplicateMeansHeld` | internal/transport/server.go:122-135 | a duplicate answer is only given on a replaying network, for a batch that was received or whose handler is still receiving |
| `Delivery.StepKeepsInv` | internal/transport/server.go:122-135 | every agent, network and hub step keeps the invariant, with concurrent handlers, restarts of either side, losses, delays, failed receives and given-up attempts |
| `Delivery.RunsAreSafe` | internal/agentbuffer/transportsender.go:19-34 | without replays, in every state of every run, each acknowledged item was itself sent in a batch whose receive succeeded, and each event ever appended is buffered or was received |
| `Delivery.RunsKeepInHand` | internal/agentbuffer/transportsender.go:19-34 | with replays but no lost handler the same holds, except that the receive may still be under way |
| `Delivery.RunsStayOwn` | internal/transport/server.go:110-116 | in every state of every run, on any network and with any stray requests, each handler and each receipt has a batch that names the host whose token sent it |
| `Delivery.AckedEventStoredOnce` | internal/storage/sqlite.go:163-221 | without replays an acknowledged event was received, in a batch that has a record of it, and as soon as one insert of it did not fail a valid one has exactly one row despite resends |
| `DeliveryRaces.ReplayOvertakes` | internal/transport/server.go:122-133 | on a replaying network any item can be acknowledged while nothing has been received: a replay between mark and receive |
| `DeliveryRaces.ReplayLosesItem` | internal/transport/server.go:122-133 | if the handler is then lost, by a failed receive or a stop of the hub, the item is in no buffer, request, handler or receipt |
| `DeliveryRaces.SafeIff` | internal/ingestreceiver/receiver.go:57-69 | acknowledged means received in all states of all runs if and only if the network does not replay |
| `DeliveryRaces.InHandIff` | internal/ingestreceiver/receiver.go:57-69 | acknowledged means received or being received if and only if the network does not replay, or receives never fail and the hub never stops |
| `Calendar.AddMonth` | internal/storage/sqlite.go:312 | the same day of the next month if it exists, else the first days of the month after; always later |
| `Calendar.MonthOrdersMillis` | internal/storage/sqlite.go:117-119 | an earlier month means an earlier millisecond timestamp, so the stored timestamp determines the month file |
| `Calendar.YearStart` | internal/storage/sqlite.go:117-119 | the first day of every year is 365 days per year and one per leap day after 1970, by the Gregorian rule |
| `Calendar.MonthLengths` | internal/storage/sqlite.go:312 | the twelve lengths of a year's months |
| `Calendar.MillisOrdered` | internal/storage/sqlite.go:373 | a later time never has an earlier millisecond timestamp |
| `Months.MonthsBetween` | internal/storage/sqlite.go:306-327 | increasing, without repeats, and exactly the months of the range except the one jumped over; empty for a reversed range |
| `Months.CompleteIff` | internal/storage/sqlite.go:306-327 | every month of the range is listed if and only if no month strictly inside lacks the start day |
| `Months.MissesAtMostOne` | internal/storage/sqlite.go:306-327 | at most one month is missed |
| `Months.CompleteUpTo28` | internal/storage/sqlite.go:306-327 | ranges starting by the 28th are complete |
| `Months.FebruaryMissed` | internal/storage/sqlite.go:306-327 | from 31 January of any year to any time from March on February is missed |
| `EventStore.TableIds` | internal/storage/sqlite.go:197-214 | a table has a row for an id exactly if a valid event with it was inserted, and never two |
| `EventStore.TableShows` | internal/storage/sqlite.go:197-214 | a table has a row if and only if it shows, field by field, the first valid event with its id |
| `EventStore.ShardingIff` | internal/storage/sqlite.go:163-176 | each month table is that month's part of the flat table, for all months, if and only if valid events with equal ids share a month |
| `EventStore.AddMonthOfRows` | internal/storage/sqlite.go:361-375 | selecting from one more month adds exactly that month's matching rows |
| `EventListing.SqliteStore.InsertEvent` | internal/storage/sqlite.go:163-221 | invalid events are refused and change nothing; otherwise the month tables hold the longer history |
| `EventListing.SqliteStore.ListEvents` | internal/storage/sqlite.go:334-384 | sorted by timestamp; a row is listed, once, if and only if a listed month's table has it, its timestamp is in the range in milliseconds, and the host is its own or not asked for |
| `EventListing.PostgresStore.InsertEvent` | internal/storage/postgres.go:102-135 | the table holds the longer history |
| `EventListing.PostgresStore.ListEvents` | internal/storage/postgres.go:138-151 | sorted by timestamp; a row is listed, once, if and only if the table has it, its timestamp is in the range in milliseconds, and the host is its own or not asked for |
| `EventListing.FlatListsEvent` | internal/storage/postgres.go:138-151 | an event that is the first with its id is listed, once and with its own fields, if and only if its millisecond is in the range and the host is its own or not asked for |
| `EventListing.ShardedListsEvent` | internal/storage/sqlite.go:334-384 | from the month files if and only if its month is listed, too |
| `EventListing.CompleteRangeAgrees` | internal/storage/sqlite.go:334-384 | a complete range lists the same multiset of rows from both stores |
| `EventListing.JumpedEventMissed` | internal/storage/sqlite.go:306-327 | for every range with a jumped month an event in it is listed by the flat store only |
| `EventListing.ListingsAgreeIff` | internal/storage/sqlite.go:306-384 | both stores list the same for all histories whose ids keep their month if and only if the range jumps no month and is not reversed within a millisecond |
| `LogBlock.TextSize` | internal/logstore/logstore.go:128-131 | the running byte count is the size of the block's text |
| `LogBlock.TextRoundTripIff` | internal/logstore/logstore.go:187-189 | splitting a block's text gives its messages back if and only if none contains a newline |
| `LogBlock.LevelNames` | internal/logstore/logstore.go:34-44 | a level sets the bit of its name in any case, and unknown ones none |
| `LogBlock.DescribesUnique` | internal/logstore/logstore.go:218-230 | the description of a block determines its metadata |
| `LogBlock.Summarize` | internal/logstore/logstore.go:179-199 | the loop yields the text, the least and greatest timestamp of the lines, and exactly the level bits some line sets |
| `LogBlock.MetaDescribes` | internal/logstore/logstore.go:218-230 | the metadata computed from the lines describes exactly them |
| `LogIndex.ScanIndex` | internal/logstore/index.go:32-91 | lists the parsable sidecars with payloads once each, their totals, both kinds of orphans once each, and the corrupt ones |
| `LogStore.Accept` | internal/logstore/logstore.go:121-132 | the line joins its own buffer and flushing is due exactly at the size or age limit |
| `LogStore.Store.Append` | internal/logstore/logstore.go:116-138 | invalid lines change nothing; otherwise the line is buffered and its buffer is below both limits, or the whole buffer, which reached one, becomes a described block with payload then sidecar |
| `LogStore.Store.Flush` | internal/logstore/logstore.go:142-154 | the buffer is removed and written as one described block; nothing happens without one |
| `LogStore.Store.WriteBlock` | internal/logstore/logstore.go:179-242 | payload first, then a sidecar that describes exactly the lines |
| `LogStore.Store.FlushAll` | internal/logstore/logstore.go:158-177 | no buffer is left, and each had its described block appended to the files, once |
| `LogRuns.StepKeepsInv` | internal/logstore/logstore.go:116-242 | every atomic step, crash included, keeps accepted lines accounted for and jobs, files and metadata in agreement |
| `LogRuns.LinesAccounted` | internal/logstore/logstore.go:116-242 | in every interleaving with any crashes each key's accepted lines are its blocks and losses in order and then its buffer; each is stored, lost or still to be written; stored payloads are on disk and finished metadata describes its lines |
| `LogRuns.NothingLost` | internal/logstore/logstore.go:116-242 | without a crash no line is lost |
| `LogRuns.CrashLoses` | internal/logstore/logstore.go:142-154 | a crash loses exactly the buffers and the blocks without a payload and changes nothing on disk |
| `LogRebuild.NoOrphanMetas` | internal/logstore/logstore.go:213-239 | a sidecar always has its payload; payloads without one are exactly the blocks interrupted in between |
| `LogRebuild.Rebuild` | internal/logstore/index.go:32-91 | scanning the files of any reachable state rebuilds exactly the metadata and totals of the finished blocks, with no orphan sidecar and nothing corrupt |
| `LogService.Run` | internal/logstore/logstore.go:116-177 | any sequence of appends, flushes and flushes of everything on a real store is a run of the steps without a crash; every block is finished, the blocks in order and then the buffer of a key hold exactly the valid lines logged for it, and every buffer is below the size limit and dates from its oldest line |
| `DebVersion.CompareNonDigitRun` | internal/debversion/debversion.go:95-116 | the loop compares the runs' weights padded with that of the end |
| `DebVersion.CompareDigitRun` | internal/debversion/debversion.go:141-157 | runs of digits of any length compare as the numbers they denote; other strings, which an epoch may be, by length and then bytewise after leading zeros |
| `DebVersion.DigitRunsAreNumbers` | internal/debversion/debversion.go:134-157 | length and then bytes, after leading zeros, is the order of the denoted numbers |
| `DebVersion.CompareVersionPart` | internal/debversion/debversion.go:59-85 | the two-index loop refines the lexicographic order of padded keys |
| `DebVersion.Compare` | internal/debversion/debversion.go:18-31 | epoch, then upstream version, then revision, each by the order of its keys |
| `DebOrder.VersionReflexive` | internal/debversion/debversion.go:18-31 | every string equals itself |
| `DebOrder.VersionAntisymmetric` | internal/debversion/debversion.go:18-31 | swapping the arguments flips the sign, which is -1, 0 or 1 |
| `DebOrder.VersionTransitive` | internal/debversion/debversion.go:18-31 | the order is transitive on all byte strings, strictly if one step is strict |
| `DebOrder.EqualIffSameKey` | internal/debversion/debversion.go:18-31 | two strings compare equal if and only if their canonical keys are the same |
| `DebOrder.TildeSortsFirst` | internal/debversion/debversion.go:118-132 | appending a tilde and anything sorts a part below itself |
| `DebOrder.NoRevisionIsZero` | internal/debversion/debversion.go:47-52 | a version without a hyphen equals itself with revision 0 |
| `DebPolicy.UpstreamThenRevision` | internal/debversion/debversion.go:25-31 | of u-r and v-s the upstream parts decide, and the revisions only between equal ones; upstream parts may contain hyphens |
| `DebPolicy.EpochFirst` | internal/debversion/debversion.go:19-23 | a numerically lower epoch is older whatever follows; between equal epochs what follows decides |
| `DebPolicy.NoEpochIsZero` | internal/debversion/debversion.go:35-40 | a version without a colon compares like itself with epoch 0 |
| `DebPolicy.CommonFront` | internal/debversion/debversion.go:59-85 | a common front that does not cut a number in two does not matter |
| `DebPolicy.WeightsAreGroups` | internal/debversion/debversion.go:118-132 | characters sort by group (tilde, end, letters, others) and by byte within a group |
| `DebPolicy.FirstCharacters` | internal/debversion/debversion.go:95-116 | the first characters that are no digits decide by that order |
| `DebPolicy.EndSorts` | internal/debversion/debversion.go:95-116 | a part that ends sorts before one that goes on, and after one that goes on with a tilde |
| `DebPolicy.FirstNumbers` | internal/debversion/debversion.go:141-157 | numbers compare as numbers, and equal ones do not matter |
| `DebPolicy.EndIsZero` | internal/debversion/debversion.go:141-157 | the end of a part counts as the number 0 |
| `AptUpdates.VersionPreorder` | internal/debversion/debversion.go:18-31 | the version order is a total preorder, which is all the update logic needs |
| `AptUpdates.CandidateVersions` | internal/collector/pkgupdates/apt.go:114-151 | for each offered package a highest offered version, from any visiting order |
| `AptUpdates.HighestDecides` | internal/collector/pkgupdates/apt.go:36-40 | some list file offers more than the installed version if and only if the running maximum does |
| `AptUpdates.AptItems` | internal/collector/pkgupdates/apt.go:21-57 | reports exactly the installed packages with a strictly higher offer, once each, with a highest offered version |
| `AptUpdates.OrderIrrelevant` | internal/collector/pkgupdates/apt.go:114-151 | the order of the list files does not change which packages are due |
| `Binomial.ChooseRatio` | internal/faultcluster/binomial.go:29-38 | the ratio of successive binomial coefficients the recurrence multiplies by |
| `Binomial.MassRatio` | internal/faultcluster/binomial.go:29-38 | one step of the recurrence turns the probability of i into that of i + 1 |
| `Binomial.UpperTailPValue` | internal/faultcluster/binomial.go:15-44 | the loop computes the sum from k to n of C(n,i) p^i (1-p)^(n-i), and its edge cases |
| `Binomial.UpperTailIsTail` | internal/faultcluster/binomial.go:15-44 | the early returns and the clamp never change the exact tail |
| `Binomial.TailIsOne` | internal/faultcluster/binomial.go:15-20 | the whole distribution sums to 1 |
| `Binomial.TailIsProbability` | internal/faultcluster/binomial.go:40-43 | every tail lies in [0, 1], so the clamp never fires |
| `Binomial.TailNonIncreasing` | internal/faultcluster/binomial.go:15-44 | the tail does not increase with k |
| `Binomial.TailRecurrence` | internal/faultcluster/binomial.go:15-44 | T(n+1,k+1) = p T(n,k) + (1-p) T(n,k+1) |
| `Binomial.TailOfAll` | internal/faultcluster/binomial.go:15-44 | T(n,n) = p^n |
| `FaultTracker.ActiveCores` | internal/faultcluster/topology.go:160-168 | exactly the cores with an online logical CPU |
| `FaultTracker.Tracker.Observe` | internal/faultcluster/tracker.go:57-87 | counts the fault, flags and reports its core once significant, and ignores unknown CPUs |
| `FaultTracker.RunBalanced` | internal/faultcluster/tracker.go:57-87 | in every run the total is the sum of the per-core counts |
| `FaultTracker.AtMostOneEvent` | internal/faultcluster/tracker.go:57-87 | no core is reported twice in a run |
| `FaultTracker.EventIsSignificant` | internal/faultcluster/tracker.go:57-87 | a report means at least five faults on the core and an exact tail below 0.01 |
| `FaultTracker.OneCoreNeverEmits` | internal/faultcluster/tracker.go:57-87 | with at most one active core nothing is ever reported |
| `FaultTracker.LoneCoreReported` | internal/faultcluster/tracker.go:57-87 | faults on one core only are reported at exactly the fifth with three or more active cores, the seventh with two |
| `FaultReports.Watch` | internal/faultcluster/tracker.go:57-87 | a real tracker through any faults: a fault is reported, with its counts and exact tail, if and only if it is the first on its core with at least five faults there and a tail below 0.01, counting the faults so far on that core and on any core |
| `FaultReports.ReportedExactly` | internal/faultcluster/tracker.go:57-87 | the same for runs as values, with the tracker's counts and flags being those of the faults |
| `Bytes.RecordRoundTrip` | internal/blackbox/encode.go:13-32 | a record of little-endian words of any layout reads back |
| `Bytes.WordDigits` | internal/blackbox/encode.go:13-32 | a word is written as its digits to base 256, lowest first |
| `BlackBoxSample.SampleSize` | internal/blackbox/sample.go:23-66 | the layout takes 1384 bytes |
| `BlackBoxSample.SampleRoundTrip` | internal/blackbox/encode.go:13-32 | every sample survives being encoded and decoded |
| `BlackBoxSample.SampleBytes` | internal/blackbox/sample.go:23-66 | a record is the struct's fields in their order, each in its width, with six bytes of padding after each 16-bit count |
| `BlackBox.HeaderRoundTrip` | internal/blackbox/header.go:46-70 | a header at the start of any file decodes to itself |
| `BlackBox.HeaderBytes` | internal/blackbox/header.go:28-35 | the header's bytes, field after field, and zeros up to 64 |
| `BlackBox.HeaderReads` | internal/blackbox/header.go:56-70 | what any bytes read as, and each reason to refuse them |
| `BlackBox.ResumesIff` | internal/blackbox/recorder.go:73-84 | a file is resumed if and only if it starts with a header of version 1 with this record size and capacity |
| `BlackBoxRing.SlotsDiffer` | internal/blackbox/recorder.go:97-107 | records less than a lap apart use different slots |
| `BlackBoxRing.RingExtended` | internal/blackbox/recorder.go:97-107 | writing the next slot makes the ring hold the longer log's last records |
| `BlackBoxRing.RingTorn` | internal/blackbox/recorder.go:97-107 | a slot copy without the header write replaces the oldest record of a full ring and nothing otherwise |
| `BlackBoxRing.CutCopy` | internal/blackbox/recorder.go:97-107 | a slot copy cut after any number of bytes is a whole copy of the new bytes followed by the old |
| `BlackBoxRing.SlotRead` | internal/blackbox/reader.go:28-43 | the reader's i-th slot holds the i-th oldest surviving record |
| `BlackBox.PrepareFile` | internal/blackbox/recorder.go:67-93 | a matching header resumes with the file resized; anything else becomes zeros at index 0 |
| `BlackBox.Recorder.constructor` | internal/blackbox/recorder.go:36-62 | a ring of the same capacity reopens unchanged; anything else starts empty; capacity 0 means the default |
| `BlackBox.Recorder.Record` | internal/blackbox/recorder.go:97-107 | the mapped bytes then hold the log with one more record, header included |
| `BlackBox.Recorder.CopyRecord` | internal/blackbox/recorder.go:97-107 | the first half of recording changes only the record's slot |
| `BlackBox.Recorder.CopyPart` | internal/blackbox/recorder.go:97-107 | dying after any number of bytes of the copy leaves a ring whose oldest record, if it is full, is mixed with the new one |
| `BlackBox.Dump` | internal/blackbox/reader.go:17-55 | of a file that holds a log exactly its last min(n, capacity) samples, oldest first; a bad header is an error |
| `BlackBoxRuns.Run` | internal/blackbox/recorder.go:97-107 | from a ring file or from anything that is not one, any run of records, reopenings and crashes at any byte of a record leaves a file whose dump is the tail of its history |
| `BlackBoxRuns.TornChangesOldest` | internal/blackbox/recorder.go:97-107 | a torn record changes at most the oldest returned position of a wrapped ring and nothing in an unwrapped one |
| `BlackBoxRuns.RecordAndDump` | internal/blackbox/reader.go:17-55 | recording samples over any number of restarts and dumping returns exactly the last min(n, capacity) of everything recorded, oldest first |
| `BlackBoxRuns.HistoryOfRecords` | internal/blackbox/recorder.go:97-107 | without a crash inside a record that history is everything recorded, in order, over any number of restarts |
| `Alert.Alert.EvaluateFor` | internal/alerting/alert.go:84-130 | the whole new state and the result of an evaluation |
| `Alert.HistoryIsPath` | internal/alerting/alert.go:84-130 | in every run the history is a connected path over the five legal edges from inactive to the current state |
| `Alert.NoticesAlternate` | internal/alerting/alert.go:66-76 | notifications alternate firing, resolved, starting with firing, and the alert fires exactly after an odd number |
| `Alert.FiresExactly` | internal/alerting/alert.go:84-112 | an alert fires at an evaluation if and only if the condition held at every one since the stretch began, long enough now and not before |
| `Alert.ResolvesExactly` | internal/alerting/alert.go:114-120 | it resolves if and only if the condition is false right after a stretch that made it fire |
| `Alert.FiringSinceMeans` | internal/alerting/alert.go:84-130 | the time an alert has fired since is that of the last evaluation that made it fire |
| `Alert.ResolvedAtMeans` | internal/alerting/alert.go:114-120 | the time it was resolved is that of the last evaluation that resolved it |
| `Alert.HistoryGrows` | internal/alerting/alert.go:84-130 | an evaluation adds at most two transitions to the history, at its own time, and none exactly if the state stays |
| `AlertHysteresis.LoopIsRun` | internal/alerting/hysteresis.go:12-22 | the closed loop is a run of the alert |
| `AlertHysteresis.NoFlapping` | internal/alerting/hysteresis.go:17-22 | between two firing notifications some value is below the resolving threshold and a later one above the firing threshold |
| `AlertHysteresis.QuietUnlessPending` | internal/alerting/hysteresis.go:17-22 | values between the thresholds neither notify nor change an alert that is not pending |
| `AlertHysteresis.AtMostOnce` | internal/alerting/hysteresis.go:17-22 | a stretch of such values notifies at most once, by firing |
| `AlertHysteresis.FaithfulIff` | internal/alerting/hysteresis.go:12-22 | in every run an alert is active exactly when a value was above the firing threshold and none since below the resolving one, if and only if the resolving threshold is not above the firing one |
| `AlertManager.NewSilence` | internal/alerting/silence.go:26-41 | refused exactly without an end or when never in effect; otherwise in effect exactly from start to end |
| `AlertManager.Matches` | internal/alerting/silence.go:51-61 | the loop decides whether every matcher equals the label read, with at least one matcher |
| `AlertManager.PresenceIff` | internal/alerting/silence.go:48-61 | the documented rule and the code agree on all labels if and only if no matcher value is empty |
| `AlertManager.CoversMeans` | internal/alerting/silence.go:51-61 | each matcher asks for its value, or with an empty one for a label that is missing or empty |
| `AlertManager.SilenceStore.Silenced` | internal/alerting/silence.go:90-99 | whether some silence in effect covers the labels |
| `AlertManager.Manager.Evaluate` | internal/alerting/manager.go:33-53 | advances exactly the one alert; notifies exactly on an unsilenced transition |
| `AlertManager.Manager.ListFiring` | internal/alerting/manager.go:65-75 | exactly the firing alerts, once each |
| `AlertRuns.Serve` | internal/alerting/manager.go:24-53 | a manager put through any evaluations and changes of its silences: each alert ends where its own evaluations lead, and notifies exactly where a transition is due and no silence stored at that time covers it |
| `AlertRuns.WithAndWithout` | internal/alerting/manager.go:24-53 | next to a manager that gets only the evaluations all alerts and histories are the same, and the notifications are exactly those the silences do not cover |
| `AlertRuns.IndependentStep` | internal/alerting/manager.go:33-53 | an evaluation takes its own alert where its own evaluations lead and leaves every other one alone |
| `CollectorLoop.Backoff` | internal/collector/runtime.go:112-119 | min(10, 2^errors) |
| `CollectorLoop.BackoffTable` | internal/collector/runtime.go:112-119 | 1, 2, 4, 8 and then 10 intervals |
| `CollectorLoop.RunLoop` | internal/collector/runtime.go:83-134 | stops exactly at the first three timeouts in a row; reports and period after every tick follow from the errors since the last success |
| `CollectorLoop.ReportsMean` | internal/collector/runtime.go:92-131 | every timeout and error is reported, a recovery exactly at a success after an error with no success in between, disabling exactly at the third timeout in a row |
| `CollectorLoop.PeriodBounds` | internal/collector/runtime.go:107-131 | the period is between one and ten intervals, never shrinks before a success and is one interval after it |
| `CollectorLoop.EffectiveTimeout` | internal/collector/runtime.go:76-81 | never above the configured timeout nor above 80% of the interval, and the largest such whole duration |
| `SeriesKey.SeriesLabelKey` | internal/metricstore/downsample.go:99-114 | the labels in sorted order, whatever order the map is visited in |
| `SeriesKey.KeyUnique` | internal/metricstore/downsample.go:99-114 | a label set has one key |
| `SeriesKey.KeyInjective` | internal/metricstore/downsample.go:99-114 | names without = and values without ; are told apart by their keys |
| `SeriesKey.KeyInjectiveBack` | internal/metricstore/downsample.go:99-114 | and so are names without ; and values without =, read from the back |
| `SeriesKey.TellApartIff` | internal/metricstore/downsample.go:99-114 | for any two alphabets keys tell all label sets over them apart if and only if names lack = and values ;, or names lack ; and values =, or names lack both and share no character with values |
| `SeriesKey.KeysCollide` | internal/metricstore/downsample.go:99-114 | for every other character c that both may use two different label sets over c, = and ; have the same key |
| `Buckets.OneBucket` | internal/metricstore/downsample.go:50 | a timestamp lies in exactly one of the buckets at multiples of the width |
| `Buckets.SumsConserved` | internal/metricstore/downsample.go:47-53 | distinct buckets that cover the samples keep each series' sum as count times mean |
| `Buckets.MeanBounds` | internal/metricstore/downsample.go:81-87 | a mean lies within any bounds its bucket's values keep, so ratios stay ratios |
| `Buckets.TallyOfPermutation` | internal/metricstore/downsample.go:47-53 | sums and counts do not depend on the order of the samples |
| `Downsample.Accumulate` | internal/metricstore/downsample.go:43-53 | the maps hold the sum and count of every bucket with samples and labels of every series |
| `Downsample.Run` | internal/metricstore/downsample.go:24-95 | no result for raw resolution; otherwise one metric per bucket of one or five minutes with samples, sorted by series and time, with its mean and its series' labels |
| `Downsample.EmittedLabels` | internal/metricstore/downsample.go:70-87 | with the host and the name put back, an emitted metric's labels are those of its series |
| `Downsample.TimesIncrease` | internal/metricstore/downsample.go:55-68 | emitted timestamps strictly increase within a series |
| `Downsample.Conserves` | internal/metricstore/downsample.go:24-95 | over each series count times emitted value adds up to the values read |
| `Downsample.OrderIrrelevant` | internal/metricstore/downsample.go:55-68 | with keys that tell series apart the output does not depend on the order samples are read in |
| `Downsample.OrderNeverMatters` | internal/metricstore/downsample.go:55-68 | and so for all samples whose labels are over alphabets that keys tell apart |

## Left out

- File system calls, fsync, mmap and msync: writes that return have happened, renames are atomic.
- zstd, JSON and protobuf: lossless for what is written; a record line contains no newline and a proper prefix of it does not decode. An item JSON cannot represent, which Append refuses, is not appended.
- Crashes inside `segmentWriter.rewrite`: it truncates before it writes, so nothing can be promised between the two.
- Writes that fail while the process survives, and a failed seal inside Append.
- ULIDs: names that increase in creation order for segments, distinct ids for batches and blocks.
- Wrap-around of 64-bit sequence numbers, of the ring's write index beyond 2^64 - 1 records, and of time.Duration products.
- The open segment's writer is a value owned by the buffer and not an object of its own; nothing else refers to it.
- Inserts of batches received at the same time are ordered batch by batch.
- Validation and storage of metrics and log lines on the receiving side: the model stops at the receive call for them; inventories are not stored by the receiver.
- The host check is on the batch: the host a record names itself is stored as it comes.
- Authentication, rate limits and body limits before the host check of the ingest handler.
- Event rows: fingerprint and log references are part of an opaque body; the query and the scan name them in different orders.
- Year formatting of month keys and block paths, the attach limit, full-text search, inventories, and the writer goroutine's queue.
- Ties in ORDER BY: listings are compared as multisets plus sortedness.
- Rule fingerprints: alerts are keyed by rule and labels instead of their SHA-256.
- Floating point: values, thresholds and probabilities are exact reals; NaN and rounding are not modelled. Black-box floats are bit patterns.
- Character encoding: messages and versions are sequences of bytes; level names are lower-cased for ASCII letters and the dotted capital I.
- Text parsing of dpkg status and package lists: the model starts from the parsed maps.
- The level bitmap is the set of its one-bits.
- Collectors, samplers, deadman rules, notifiers, the read API, the web interface and the rest of the repository: plumbing or single decisions that would only add easy members.
