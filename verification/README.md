# fleet-memory: verified model

This project models the parts of fleet-memory in which a fast, paged or fault-tolerant code path has to
agree with a simple meaning, and proves that it does. It covers six groups.

1. **Deterministic writer** (`Records`, `Construction`, `Writer`, `WriterRuns`). Payload construction from
   JSON, a content-hash upsert with versions, predecessor marks and a paged forward scan over a store that
   may fail at any operation. The methods are proved against functions on the store; those are proved over
   all sequential runs, crashes and write orders.
2. **Relay delivery** (`RelayService`, `RelayHandler`, `RelayProtocol`, `RelayChunks`, `RelayRows`,
   `ChunkStore`). At-least-once delivery with a cap: acknowledge, negative acknowledgement, dead-letter and
   terminate, crash at any store step. A call of the handler is an event of the protocol; over all runs, a
   message's fate, termination, the exactly-once effect on chunks, and versions and links of typed rows.
3. **Retrieval** (`Search`, `Composition`, `Assembly`). Paged filtered search over a store with a
   candidate window, merged partitions, weighted interleaving and greedy packing.
4. **Batching and chunking** (`EmbedBatches`, `Sections`, `TokenWindows`, `Chunker`). Optimal batches,
   heading-aware sections, overlapping token windows, and chunks that lose no content.
5. **Reindex** (`Manifest`, `Identifiers`, `Collisions`, `Republishing`, `Reindex`). Directory ownership,
   identifiers and their collisions, conservation of documents, and lessons kept although the relay writes
   what was published later, repeatedly and out of order.
6. **Prefix selection and the fence** (`LikeOperand`, `Marker`, `Fence`). LIKE escaping against a matcher
   (section 8.5, <like predicate>, of ISO/IEC 9075-2), and the relay's progress marker across restarts up
   to the fence's verdict.

`Errors` names the exceptions and the ways a store fails; `Text`, `Sorting` and `Wrappers` hold string
operations, sorting and result types.

Code that changes state is modelled as classes and methods with loops; its `ensures` clauses give the whole
new state as a function of the old one, and the lemmas are about those functions. Calls into services
outside the program are parameters: the tokenizer (decoding undoes encoding and distributes over
concatenation, and exactly the texts that spell one of its special tokens are refused), the embedding service,
the store's ranking, when and with what exception a store fails, the relay's turns during a reindex run, the
clock. Version-5 UUIDs (section 4.3 of RFC 4122) and SHA-256 digests
are injective constructors.

Verify with `dafny verify dfyconfig.toml`.

## What the code does that its documentation does not say

- `relay/service.py:110-113`: deterministic failures are said to be poison. Of those that come before the
  store is reached, exactly these are retried instead (`RelayService.Misrouted`): a JSON body the parser gives
  up on, one that is not an object, a field named `self`, a project or identifier that is neither empty nor a
  string, references that cannot be iterated or hold something other than a natural key, a payload that
  supersedes itself; and a prose body that is not blank and spells a special token of the tokenizer, for which
  `relay/chunker.py:27` raises on every delivery. Inputs are in `RelayService.NumberIsRetried`,
  `RelayService.BadReferencesAreRetried`, `RelayService.SelfReferenceIsRetried` and
  `RelayService.SpecialIsRetried`; a publisher can send each of them. Failures inside the store, which may
  also be the same on every delivery, are whatever the store raises and are not part of the list.
- `relay/handler.py:108-119`: unreachable metadata counts as delivery 0, said to cost only a redelivery. On
  the last delivery it turns the dead-letter path into a nak, and the message is silently dropped
  (`RelayProtocol.LostExactly`, `RelayProtocol.UnreachableMetadataLoses`). The code notes that metadata is
  always present on a real JetStream pull, so only another caller of the handler meets this.
- `relay/handler.py:122-139`: when the dead-letter publish raises, the exception leaves the handler and the
  framework answers. Which answer that is belongs to FastStream and is the parameter `Config.onEscape`:
  with a nak or silence the message is lost only on its last delivery, with an ack or term at once.
  `RelayProtocol.LostExactly` and `RelayProtocol.FateOf` depend on it.
- `relay/chunk_writer.py:71-73`: "no writes occur if validation fails" holds only if the first chunk is the
  refused one (`ChunkStore.RefusalWritesNothingIff`, `ChunkStore.MixedIsHalfWritten`). Only a direct caller
  can supply a batch of several projects; the relay's are of one (`ChunkStore.OneProjectAllOrNone`).
- `writer/core.py:119-125`: an upsert compares content with the row, not age. A payload redelivered after a
  newer one of its key puts the older content back (`RelayRows.StaleRedeliveryReverts`); when that can still
  happen is `RelayRows.ContentChangesIff`.
- `reindex/pipeline.py:155-159`: lessons are read before publishing, and the relay writes later. A message
  without lessons that was prepared before the lessons were stored removes them
  (`Republishing.LessonsLostIff`).
- `relay/chunker.py:43`: an overlap ratio of 1.0 is in the documented range, and the window loop then never
  ends (`TokenWindows.WindowLoopEndsIff`, `TokenWindows.RatioBelowOneIff`).
- `reindex/manifest.py:11-14`: validation strips trailing slashes and resolution does not, so an accepted
  manifest can make a file publishable by both pipelines (`Manifest.TrailingSlashDefeats`, with the exact
  condition in `Manifest.KeptApartIff`).
- `writer/supersession.py:42`: predecessors may be in other namespaces, but the forward scan reads one
  namespace, so such a mark can be lost on a rewrite (`WriterRuns.RewriteMayLoseMark`,
  `WriterRuns.AnyMarkCanBeLost`).
- `retrieval/assembly.py:75-76`: lower-ranked memories are said to be omitted once the budget is exhausted.
  The code skips a memory that does not fit and goes on (`Assembly.LowerRankedIsTaken`); the documented
  omission is what happens exactly under the condition of `Assembly.PrefixIff`. One stored content that spells
  a special token makes the whole call raise (`Assembly.AssembleContext`).

## Model

| member | source | states |
|---|---|---|
| `Construction.Construct` | src/fleet_memory/payloads/base.py:105-156 | construction succeeds exactly for the constructible fields and gives a valid payload that carries the type, project, identifier, references, lessons, text and version it was made from; otherwise the kind of error is known beforehand: one that ingestion takes for poison, or, exactly for the inputs that evade it, one that it does not |
| `Construction.EveryPayloadIsCarried` | src/fleet_memory/payloads/base.py:105-156 | round trip: every valid payload comes back from the fields that say it, its references in their order |
| `Construction.ContentTells` | src/fleet_memory/writer/identity.py:51-94 | constructions from the same fields have equal hashes if and only if their lessons and text are equal |
| `Construction.CheckReferences` | src/fleet_memory/payloads/base.py:128-147 | any JSON value as supersession references: which are accepted, and that repetitions and nothing else are dropped |
| `Records.HomeIsLocated` | src/fleet_memory/writer/supersession.py:60-69 | parsing an accepted payload's natural key leads back to the place it is written to |
| `Records.DistinctIsInOrder` | src/fleet_memory/payloads/base.py:127-147 | dropping repetitions keeps the order of the first occurrences |
| `Writer.ApplySupersessions` | src/fleet_memory/writer/supersession.py:32-85 | marks exactly the stored references before the first malformed one, or before the one where the store fails; succeeds only if every reference is well formed |
| `Writer.ForwardSuccessor` | src/fleet_memory/writer/supersession.py:88-138 | paging answers only with the first declarer of the whole listing, and with nothing only if there is none or a search failed on the way, after whichever page |
| `Writer.ScanIsAdmissible` | src/fleet_memory/writer/supersession.py:110-138 | the listing contains every row of the payload's namespace, so nothing declared there is missed |
| `Writer.ValidateNamespace` | src/fleet_memory/store.py:55-74 | reports refused segments exactly when the namespace is invalid |
| `Writer.DeterministicWriter.WriteRecord` | src/fleet_memory/writer/core.py:157-213 | the row at the payload's place is replaced by one built from scratch, marked with what the scan found, unless the store fails first |
| `Writer.DeterministicWriter.Write` | src/fleet_memory/writer/core.py:53-129 | the whole new store is the write cut after the number of steps made: all of them on success, none on a refusal, any number when the store fails on the way; a row that was put carries an answer the scan could give; an embedding error comes only from a write that has something to put |
| `Writer.DeterministicWriter.WriteChanged` | src/fleet_memory/writer/core.py:102-129 | put and marks of changed content make exactly the steps of a write, in that order, wherever the store fails |
| `Writer.DeterministicWriter.MarkDeclared` | src/fleet_memory/writer/core.py:113-118 | the last step of a write marks exactly the declared predecessors that are stored, up to where the store fails |
| `Writer.CollapseBatch` | src/fleet_memory/writer/core.py:147-151 | the dictionary loop yields the collapsed batch |
| `Writer.CollapseKeepsLast` | src/fleet_memory/writer/core.py:131-155 | a payload survives collapsing if and only if it is the last of the batch with its key, and no key survives twice |
| `Writer.CollapseKeepsOrder` | src/fleet_memory/writer/core.py:147-151 | the survivors are in the order in which their keys first occur |
| `Writer.DeterministicWriter.WriteBatch` | src/fleet_memory/writer/core.py:131-155 | a batch is a sequential run of writes of the collapsed payloads, up to the first that is refused or cut short, and the store is that run followed by the cut |
| `WriterRuns.RunKeepsLinked` | src/fleet_memory/writer/core.py:94-129 | in every sequential run, after every call, a stored predecessor that a row of its namespace declares carries a mark, whichever was written first and however often either is rewritten |
| `WriterRuns.WriteKeepsLinked` | src/fleet_memory/writer/supersession.py:141-172 | one write keeps every such link, with either of its two mechanisms |
| `WriterRuns.VersionCountsChanges` | src/fleet_memory/writer/core.py:99-125 | over any run a key's version is the number of writes that changed its hash, and its hash is the last write's, however many marks landed between |
| `WriterRuns.PutCarriesWrite` | src/fleet_memory/writer/core.py:187-213 | a write of changed content leaves the payload, its key and references, the metadata of that write and the scan's answer in the row |
| `WriterRuns.ReplayIsOneWrite` | src/fleet_memory/writer/core.py:94-129 | a write cut after any store step, any number of times, then completed, leaves a store one uninterrupted write could have left: no extra version, no missing mark |
| `WriterRuns.WriteOrderIrrelevant` | src/fleet_memory/writer/supersession.py:71-85 | a predecessor's only declarer and the predecessor may be written in either order: equal stores |
| `WriterRuns.OrdersAgree` | src/fleet_memory/writer/core.py:94-129 | the two orders as functions of one store: the results agree whatever the two first scans answer |
| `WriterRuns.ScanForSuccessorUnaffected` | src/fleet_memory/writer/supersession.py:110-138 | the predecessor's write leaves every answer of a scan for the successor as it was, so assuming one answer for both orders is no restriction |
| `WriterRuns.RewriteMayLoseMark` | src/fleet_memory/writer/core.py:187-213 | a rewrite with changed content keeps a mark under every scan answer if and only if some row of its own namespace declares it |
| `WriterRuns.AnyMarkCanBeLost` | src/fleet_memory/writer/supersession.py:42-42 | any record without references, a successor of another type, and the record rewritten: the mark is there after the second write and gone after the third, with the declarer still stored |
| `ChunkStore.SeedInjective` | src/fleet_memory/relay/chunk_writer.py:92-93 | the key seed tells episode and number apart for every episode id, colons included |
| `ChunkStore.ChunkWriter.WriteChunks` | src/fleet_memory/relay/chunk_writer.py:46-112 | puts exactly the chunks before the first refused one, or before the one where the store fails; succeeds only if none is refused |
| `ChunkStore.PutAllOwn` | src/fleet_memory/relay/chunk_writer.py:80-112 | every chunk of a numbered episode is found at its own place: none overwrites another |
| `ChunkStore.PutAllOther` | src/fleet_memory/relay/chunk_writer.py:80-112 | no other row is touched |
| `ChunkStore.ExactlyOnceEffect` | src/fleet_memory/relay/chunk_writer.py:57-62 | any sequence of partial runs followed by a full one leaves what one full run leaves |
| `ChunkStore.RefusalWritesNothingIff` | src/fleet_memory/relay/chunk_writer.py:71-86 | a refused batch leaves every store unchanged if and only if its first chunk is the refused one |
| `ChunkStore.MixedIsHalfWritten` | src/fleet_memory/relay/chunk_writer.py:71-73 | a batch of two projects, the second refused, whose first chunk is stored |
| `ChunkStore.OneProjectAllOrNone` | src/fleet_memory/relay/service.py:255-268 | chunks of one project, all that the relay ever passes, are refused all or none |
| `Sections.SplitIntoSections` | src/fleet_memory/relay/chunker.py:135-172 | sections concatenate to the exact text; a heading occurs only as a first line; every section but the first opens with one and every section but the last ends a line |
| `Sections.SectionsAreUnique` | src/fleet_memory/relay/chunker.py:135-146 | these four properties determine the division |
| `Sections.StripInk` | src/fleet_memory/relay/chunker.py:77-94 | stripping loses nothing but whitespace |
| `TokenWindows.SplitLargeSection` | src/fleet_memory/relay/chunker.py:175-207 | a short section is kept whole; the loop over a long one yields exactly the texts of all its windows |
| `TokenWindows.NeighboursShareOverlap` | src/fleet_memory/relay/chunker.py:197-205 | windows respect the target, neighbours share exactly the overlap, each goes further |
| `TokenWindows.WindowsRestore` | src/fleet_memory/relay/chunker.py:190-207 | the first window and the later ones without their overlap are the token stream |
| `TokenWindows.CeilDivIsLeast` | src/fleet_memory/relay/chunker.py:197-205 | the number of windows beyond the first is the least number of steps that reaches the end |
| `TokenWindows.WindowLoopEndsIff` | src/fleet_memory/relay/chunker.py:197-205 | the loop over a long section ends if and only if the overlap is below the target |
| `TokenWindows.RatioBelowOneIff` | src/fleet_memory/relay/chunker.py:63-63 | for a positive target that is the case if and only if the ratio is below one |
| `TokenWindows.OverlapIsLargest` | src/fleet_memory/relay/chunker.py:63-63 | the overlap is the largest number of tokens within the ratio's share of the target |
| `Chunker.TailIsShortSuffix` | src/fleet_memory/relay/chunker.py:210-224 | the overlap carried forward is an end of the text, with one space behind it if it was cut, and as short as asked |
| `Chunker.TailHoldsLast` | src/fleet_memory/relay/chunker.py:210-224 | it is a text that is short enough, whole, and otherwise the last tokens asked for and a space |
| `Chunker.ChunkProse` | src/fleet_memory/relay/chunker.py:24-132 | raises exactly for a body that is not blank and spells a special token; otherwise the chunks are numbered from 0, carry project and source reference, are none exactly for a blank body, and with overlaps removed and whitespace ignored are the body; every overlap repeats the end of the chunk before; a chunk of whole sections is followed by the next section only where that section would have exceeded the target; equal bodies give equal chunks |
| `Chunker.ChunkTextsCover` | src/fleet_memory/relay/chunker.py:30-132 | the same of the chunker as a function of the body: when there are no texts, when there are none to make, and that they cover the body |
| `Chunker.SmallBodyIsOneChunk` | src/fleet_memory/relay/chunker.py:100-119 | a body whose sections fit the target together is one chunk, the stripped body |
| `Chunker.RefusedSection` | src/fleet_memory/relay/chunker.py:71-75 | a text cannot be encoded exactly if one of its sections cannot: no special token is split between two |
| `Chunker.BufferIsEncoded` | src/fleet_memory/relay/chunker.py:100-116 | the buffer, and the section behind it, can be encoded whenever the section itself can, overlaps included: nothing else on the way raises |
| `Chunker.PieceIsBounded` | src/fleet_memory/relay/chunker.py:52-113 | before its outer whitespace is stripped, every chunk can be spelled with at most target, overlap and one space of tokens, and without overlap with at most the target |
| `RelayService.RelayService.IngestJson` | src/fleet_memory/relay/service.py:195-240 | an acceptable episode is written with its envelope, as many steps as the store allows; any other is refused before the store with an exception that leads to its verdict |
| `RelayService.RelayService.Ingest` | src/fleet_memory/relay/service.py:96-193 | without an exception of the store the outcome is the episode's verdict (committed, poison, or transient exactly for the misrouted failures); of what the store raises, a rejected embedding or one of the wrong dimension is poison, an unreachable or slow service, a broken connection, a time-out or anything else is transient, and the end of the process is no outcome; the stores are cut where it raised, and a row put carries an admissible scan answer |
| `RelayService.WhatIsPoison` | src/fleet_memory/relay/service.py:128-193 | which exceptions the except clauses make poison, which transient, and which none catches |
| `RelayService.RelayService.IngestProse` | src/fleet_memory/relay/service.py:242-268 | the chunker is called on the text: if it raises, nothing is put and the outcome is transient; otherwise all chunks are put or the exception leads to the verdict, unless the store raised before the last accepted chunk |
| `RelayService.BodyVerdict` | src/fleet_memory/relay/service.py:195-240 | what becomes of a JSON episode with no type, an unknown type, a body that cannot be parsed, is beyond the parser or is no object, and of an episode in no known format |
| `RelayService.EveryPayloadCanBeSent` | src/fleet_memory/relay/service.py:195-240 | every payload the writer accepts has an episode, the one with its fields, whose verdict is committed and whose payload is that very one |
| `RelayService.ProseVerdict` | src/fleet_memory/relay/service.py:242-268 | what becomes of a prose episode, from its text and project alone: retried to the end exactly if the text is not blank and spells a special token, poison exactly if it can be chunked, is not blank and the project is refused, written otherwise |
| `RelayService.SpecialIsRetried` | src/fleet_memory/relay/chunker.py:24-27 | a text that is a special token is retried |
| `RelayService.NumberIsRetried` | src/fleet_memory/payloads/base.py:29-32 | inputs that are misrouted: a number for the project, a truth value for the identifier, a field named like the receiver, a body that is no object or beyond the parser |
| `RelayService.BadReferencesAreRetried` | src/fleet_memory/payloads/base.py:128-145 | references that are a number, hold a number or lack natural-key shape are misrouted |
| `RelayService.SelfReferenceIsRetried` | src/fleet_memory/payloads/base.py:151-156 | every payload that lists its own key is misrouted |
| `RelayService.EmptyIsPoison` | src/fleet_memory/payloads/base.py:29-30 | absent or empty values of the same fields are poison |
| `RelayHandler.Handler.PublishDlq` | src/fleet_memory/relay/handler.py:122-139 | a dead-letter publish appends one record or raises |
| `RelayHandler.Handler.RouteTransient` | src/fleet_memory/relay/handler.py:142-193 | negative acknowledgement before the last delivery; on it, a dead-letter record and then termination; no answer if the publish fails |
| `RelayHandler.Handler.HandleMemoryEpisode` | src/fleet_memory/relay/handler.py:203-275 | one call, over stores and a broker that fail anywhere, is a delivery of the protocol with its stores and records; and what was raised decides how it ends: nothing with an acknowledgement, a rejected or wrongly sized embedding with a record and a termination at once, any other failure of the store with a nak and no record before the last delivery and like poison on it, the end of the process with no answer; the marker counts an ingest exactly on acknowledgement |
| `RelayHandler.Handler.Route` | src/fleet_memory/relay/handler.py:234-275 | an outcome becomes an answer, with the dead-letter record published before a termination; if that fails the exception escapes |
| `RelayHandler.AckIsWhole` | src/fleet_memory/relay/handler.py:230-235 | in every delivery the handler can make, an acknowledgement of its own means that the whole episode was written |
| `RelayProtocol.PendingCountsDeliveries` | src/fleet_memory/relay/handler.py:101-105 | in every run a pending message has completed fewer than the cap, and none exceeds it |
| `RelayProtocol.LostExactly` | src/fleet_memory/relay/handler.py:108-119 | a delivery loses its message if and only if it is the last and no answer arrives, a transient failure meets unreachable metadata or the dead-letter publish raises; or, on any delivery, that publish raises and the framework settles the message |
| `RelayProtocol.FateOf` | src/fleet_memory/relay/handler.py:149-193 | in every run a terminated message has a dead-letter record of its own, and a lost one was lost by a delivery that loses in one of these ways |
| `RelayProtocol.TracesOf` | src/fleet_memory/relay/handler.py:142-193 | what a message leaves behind, lost or not: a record exactly if one of its deliveries published one, something in its place for good if one made a step, and no change at all if none did |
| `RelayProtocol.AckedBy` | src/fleet_memory/relay/handler.py:230-235 | an acknowledged message has a delivery that made all its steps and was acknowledged |
| `RelayProtocol.RunsEnd` | src/fleet_memory/relay/handler.py:101-105 | deliveries made and deliveries left never exceed the cap times the messages |
| `RelayProtocol.Deliver` | src/fleet_memory/relay/handler.py:203-275 | any call of the handler for a pending message, whatever fails, extends the run by a state with the stores and records the handler has, whether its answer arrives or is lost |
| `RelayProtocol.NextAcksIff` | src/fleet_memory/relay/handler.py:230-235 | the next delivery can acknowledge a pending message if and only if the service accepts it |
| `RelayProtocol.NextTermsIff` | src/fleet_memory/relay/handler.py:237-275 | it can terminate it if and only if it is poison, or has something to put and can meet a rejected embedding there, or is on its last delivery and is misrouted or can fail in the store |
| `RelayProtocol.NextSettlesIff` | src/fleet_memory/relay/handler.py:158-193 | it can settle it one way or the other unless it is misrouted and not on its last delivery |
| `RelayProtocol.UnreachableMetadataLoses` | src/fleet_memory/relay/handler.py:108-119 | a run in which a message is lost with no record and no delivery left |
| `RelayChunks.ChunksFollowDeliveries` | src/fleet_memory/relay/chunk_writer.py:80-112 | in every run of any stream the chunk row at a place is the one put by the last delivery that reached it, and there is none if none did |
| `RelayChunks.AckedIsPut` | src/fleet_memory/relay/handler.py:230-235 | in every run of any stream every acknowledged prose message was put whole by the delivery that was acknowledged |
| `RelayChunks.PutCarriesEnvelope` | src/fleet_memory/relay/chunk_writer.py:80-112 | right after that delivery each chunk's row holds the chunk's text and number and the id, project, source reference and metadata of the message |
| `RelayChunks.AckedIsStored` | src/fleet_memory/relay/handler.py:230-235 | in every run every acknowledged prose message is stored whole, then and ever after, whatever envelopes its text is published under again |
| `RelayChunks.ExactlyOnceStore` | src/fleet_memory/relay/service.py:263-268 | once every prose message is acknowledged the store holds the chunks that writing each message once puts there, if messages that share a place carry one text; and is the same store if they also share their envelopes |
| `RelayChunks.StoredCoversBody` | src/fleet_memory/relay/service.py:254-268 | end to end: for an acknowledged prose message, the stored chunks of its id and project, read by number, are texts that cover its body, and nothing else is stored for them |
| `RelayChunks.ShorterTextKeepsTail` | src/fleet_memory/relay/chunk_writer.py:57-62 | where an id is reused for a shorter text, the tail of the longer one stays stored |
| `RelayRows.RowsFollowDeliveries` | src/fleet_memory/writer/core.py:94-129 | in every run a row exists exactly when a delivery reached its place, has the hash of the last such delivery, and its version counts the deliveries that differ from the one before |
| `RelayRows.AckedIsWritten` | src/fleet_memory/relay/handler.py:230-235 | every acknowledged structured message was written whole, as one uninterrupted write of the store at that point of the run |
| `RelayRows.AckedHoldsBody` | src/fleet_memory/relay/service.py:195-240 | the row it leaves holds the type, project, identifier, references, lessons and text of the message's body, and its metadata if the content changed |
| `RelayRows.LinkedUnlessOwing` | src/fleet_memory/writer/supersession.py:141-172 | in every run, crashes at any step included, the links of every row are in place unless the last delivery that put it was cut short and none was completed since |
| `RelayRows.LinksWhenAcked` | src/fleet_memory/writer/supersession.py:141-172 | once every structured message the service writes is acknowledged, every link is in place |
| `RelayRows.StaleRedeliveryReverts` | src/fleet_memory/writer/core.py:119-125 | two payloads of one key, the older one redelivered after the newer: all is acknowledged and the row holds the older payload, as its third version |
| `RelayRows.ContentChangesIff` | src/fleet_memory/writer/core.py:99-125 | the content of a row can still change exactly if a message of its key with another hash has deliveries left |
| `Search.FetchIsWideEnough` | src/fleet_memory/retrieval/core.py:196-206 | asking for offset and page together returns the page unshortened despite the store's window |
| `Search.PageLimitFallsShort` | src/fleet_memory/retrieval/core.py:196-199 | asking for the page alone returns nothing once the offset has passed the window |
| `Search.SearchPartition` | src/fleet_memory/retrieval/core.py:174-241 | exactly the first ten distinct accepted items among the first 1024; the bound path if and only if the ranking is longer and fewer than ten were accepted; the opt-in search then fails |
| `Search.AcceptPage` | src/fleet_memory/retrieval/core.py:211-229 | filters and de-duplication over one page continue the picks of the ranking |
| `Search.Search` | src/fleet_memory/retrieval/core.py:296-398 | fails exactly when a substantive search meets a bound in the partition of some requested type, or in the one of all types if none is requested; otherwise the ten first of the merged answers |
| `Search.PartitionsAre` | src/fleet_memory/retrieval/core.py:336-338 | every requested type has exactly one partition, and there is the one of all types exactly if none is requested |
| `Search.AcceptsIff` | src/fleet_memory/retrieval/core.py:211-225 | an item is accepted if and only if its namespace names the project, it has a requested tag if any is requested, it is not superseded or superseded ones are asked for, it is substantive if that is asked for, and the type before the first colon of its natural key is the partition's |
| `Search.SecondPassIsIdle` | src/fleet_memory/retrieval/core.py:355-393 | with distinct keys the second filters and de-duplication remove nothing |
| `Search.SearchReturnsBestTen` | src/fleet_memory/retrieval/core.py:336-398 | for rankings by score, different keys and no bound hit: at most ten different items, by descending score and then by key, every one of a requested type and matching the request field by field; and an item of any requested type that matches and is not returned is left out only for ten that score at least as much |
| `Composition.Interleave` | src/fleet_memory/retrieval/composition.py:143-172 | ends; merges both lists in order; balances sum to zero; while both last, every prefix holds the first category's share rounded to the nearest integer |
| `Composition.IdealIsProduct` | src/fleet_memory/retrieval/composition.py:147-150 | the accumulated ideal is the number of picks times the share |
| `Composition.ApplyWeightedComposition` | src/fleet_memory/retrieval/composition.py:81-174 | the result merges the top of each category in order; if both have items, each is as long as its own weight's share of all items, rounded, at least one and at most what there is; for weights that are not negative every prefix holds the rounded share of the first |
| `Composition.ComposeByComplexity` | src/fleet_memory/retrieval/composition.py:177-219 | patterns and warnings have three thirteenths of a simple job, one half of a standard and ten thirteenths of a complex one, the other types the rest: both in how many are selected and in every prefix |
| `Composition.SlotsAreFair` | src/fleet_memory/retrieval/composition.py:118-125 | the number of slots is within one half of the share, except where there are fewer items or the share is less than one; for negative weights too |
| `Composition.SlotsAreRounded` | src/fleet_memory/retrieval/composition.py:118-125 | adding one half and truncating is rounding, for shares that are not negative |
| `Composition.SelectionBounds` | src/fleet_memory/retrieval/composition.py:104-132 | no category that has items is dropped, and no more is selected than there is |
| `Assembly.AssembleContext` | src/fleet_memory/retrieval/assembly.py:67-148 | there is no block exactly if there is a budget and a non-empty content the tokenizer refuses; otherwise the block is the chosen contents joined in rank order by blank lines and fits the budget by measure; a content is taken exactly when it fits behind those taken before; the choice is the lexicographically greatest feasible one; and it is a prefix of the non-empty contents exactly when nothing fits where the first misfit did not |
| `Assembly.BlockIsJoined` | src/fleet_memory/retrieval/assembly.py:126-131 | extending the block content by content is joining the chosen contents from the highest-ranked down |
| `Assembly.TokenizerRefusesParts` | src/fleet_memory/retrieval/assembly.py:128-134 | joining by a blank line neither makes nor breaks a refused text, so it is the contents alone that decide |
| `Assembly.GreedyIsGreatest` | src/fleet_memory/retrieval/assembly.py:135-145 | taking a content whenever it fits is never behind another feasible choice |
| `Assembly.PrefixIff` | src/fleet_memory/retrieval/assembly.py:137-145 | lower-ranked contents are omitted from the first misfit on if and only if none of them fits behind the contents above that misfit |
| `Assembly.LowerRankedIsTaken` | src/fleet_memory/retrieval/assembly.py:75-76 | two contents of which the higher-ranked is over the budget: the lower-ranked one is the block |
| `EmbedBatches.TruncationFits` | src/fleet_memory/embed.py:75-88 | a truncated text is within the budget, and it is the text itself if and only if that is |
| `EmbedBatches.TruncationIsLongest` | src/fleet_memory/embed.py:75-88 | what is sent of a text is its longest beginning within the budget, four characters a token |
| `EmbedBatches.PackBatches` | src/fleet_memory/embed.py:45-102 | flattening gives back the inputs in order, each up to four characters a token of the budget; batches are non-empty and within budget; no order-preserving partition within budget has fewer, nor has it sent more texts after any number of batches |
| `EmbedBatches.GreedyIsOptimal` | src/fleet_memory/embed.py:90-97 | a greedy packing that has a lead over another keeps it after every number of batches and needs no more of them |
| `EmbedBatches.Asked` | src/fleet_memory/embed.py:232-236 | an answer counts only with one vector for each text |
| `EmbedBatches.RequestWithRetry` | src/fleet_memory/embed.py:280-303 | one retry after a 5xx answer, none after anything else, a wrong number of vectors included |
| `EmbedBatches.Embed` | src/fleet_memory/embed.py:306-366 | one vector per input whatever the service sends; each input's own, in input order and however they were batched, if the service embeds text by text; at most two requests per batch |
| `Manifest.ResolveKind` | src/fleet_memory/reindex/manifest.py:71-96 | the claim of the first longest non-empty directory over the path, or none if there is no such directory |
| `Manifest.ValidateManifest` | src/fleet_memory/reindex/manifest.py:99-135 | accepts exactly the manifests with known owners, no directory covered twice and no reindex directory inside a harvest directory, and names a broken rule |
| `Manifest.OrderIrrelevant` | src/fleet_memory/reindex/manifest.py:85-96 | in an accepted manifest the answer does not depend on the order of entries and directories |
| `Manifest.PermutedClaims` | src/fleet_memory/reindex/manifest.py:88-89 | reordering entries leaves the claims as they are |
| `Manifest.KeptApartIff` | src/fleet_memory/reindex/manifest.py:99-135 | an accepted manifest keeps every reindex path out of every harvest directory if and only if no harvest directory is itself resolved to the reindex owner |
| `Manifest.NormalFormKeepsApart` | src/fleet_memory/reindex/manifest.py:128-135 | it does whenever no directory is written with a trailing slash |
| `Manifest.TrailingSlashDefeats` | src/fleet_memory/reindex/manifest.py:90-91 | an accepted manifest with a trailing slash that does not |
| `Collisions.ResolveGroup` | src/fleet_memory/reindex/pipeline.py:115-147 | one group: its deepest path wins if all titles agree, and everyone else is skipped with the reason |
| `Collisions.ResolveCollisions` | src/fleet_memory/reindex/pipeline.py:98-149 | each candidate is exactly once a winner or a loser; the winners are exactly the deepest (first of equals) candidates of identifiers with one title; every loss is explained |
| `Collisions.WinnerIsUnique` | src/fleet_memory/reindex/pipeline.py:104-109 | an identifier has at most one winner |
| `Collisions.PartsOfNames` | src/fleet_memory/reindex/pipeline.py:133-136 | a path of names is as deep as it has names, one more with a leading slash |
| `Identifiers.SanitizedJoins` | src/fleet_memory/reindex/parsers.py:67-85 | whatever surrounds them, the words of an id are kept and joined by single underscores |
| `Identifiers.EveryIdDivides` | src/fleet_memory/reindex/parsers.py:82-85 | every id with a letter or digit consists of such words, so its identifier is always their join |
| `Identifiers.LettersKept` | src/fleet_memory/reindex/parsers.py:82-85 | the identifier has the letters and digits of the id in order; it is the stand-in exactly if there are none |
| `Identifiers.IdentifierIsKept` | src/fleet_memory/reindex/parsers.py:84-84 | an id of word characters without outer underscores is its own identifier |
| `Identifiers.Sanitized` | src/fleet_memory/reindex/parsers.py:67-85 | whatever the id, the identifier meets the payload contract |
| `Reindex.CandidatesAreParsed` | src/fleet_memory/reindex/parsers.py:191-222 | every candidate's payload is acceptable, supersedes nothing and never has empty lessons |
| `Reindex.CandidatesTell` | src/fleet_memory/reindex/pipeline.py:217-253 | the candidates are the tasks with an id, each once and in the order of the walk, with the path, title, kind, sanitized identifier, body and lessons of their document |
| `Reindex.DifferentIdsAllWin` | src/fleet_memory/reindex/pipeline.py:98-149 | in a corpus whose ids differ in a letter or digit no task is lost to a collision |
| `Reindex.PreserveExistingLessons` | src/fleet_memory/reindex/pipeline.py:152-183 | the lessons are the payload's own if it has some, else the stored ones if there are some, else none; nothing else changes |
| `Reindex.CorpusPublisher.Publish` | src/fleet_memory/reindex/publisher.py:137-170 | a payload that is too large is dropped with a reason; any other becomes a message of the stream under its natural key, and nothing is written yet |
| `Reindex.CorpusPublisher.RelayTurns` | src/fleet_memory/relay/service.py:195-240 | whatever messages the relay writes or settles meanwhile, the run goes on from the stores they leave, and payloads not yet sent are untouched |
| `Republishing.LessonsNeverLost` | src/fleet_memory/reindex/pipeline.py:155-159 | over any run of any corpora, with any delay, repetition and reordering between reading, publishing and writing, a row whose lessons no message on its way threatens never loses them, and keeps them verbatim until a document brings its own |
| `Republishing.LessonsLostIff` | src/fleet_memory/reindex/pipeline.py:258-271 | a stored row can lose its lessons if and only if a message without lessons is still on its way to it |
| `Republishing.SecondRunChangesNothing` | src/fleet_memory/reindex/pipeline.py:258-271 | after a run that found nothing on its way and whose messages are written, preparing the same payloads again, in any order and with any redeliveries, leaves every row and version as it is |
| `Reindex.RerunIsIdle` | src/fleet_memory/reindex/pipeline.py:186-211 | so does a second run over an unchanged corpus |
| `Reindex.WinnersDiffer` | src/fleet_memory/reindex/pipeline.py:255-271 | winners have pairwise different natural keys and places |
| `Reindex.ReindexCorpus` | src/fleet_memory/reindex/pipeline.py:186-282 | walked is published plus skipped plus unparseable; every document's path is in exactly one bucket; the published keys are pairwise different, counted per kind, and exactly those of the messages sent; the winners are prepared in turn while the relay goes on writing |
| `LikeOperand.ThreePassesAreOne` | src/fleet_memory/fixture/scratch.py:125-125 | the three replacements in this order escape every metacharacter once |
| `LikeOperand.OperandIff` | src/fleet_memory/fixture/scratch.py:115-126 | the operand matches a text if and only if it continues the literal with a dot |
| `LikeOperand.CommonRowIff` | src/fleet_memory/fence/store_age.py:99-107 | two projects can share a row if and only if one is or continues the other with a dot; different dot-free names never do |
| `LikeOperand.SelectsIsInProject` | src/fleet_memory/fixture/scratch.py:70-70 | the match clause of a dot-free project selects exactly the rows whose second segment it is |
| `LikeOperand.ScratchStore.Discard` | src/fleet_memory/fixture/scratch.py:129-162 | deletes exactly the selected rows and vectors and counts the rows; an invalid id deletes nothing |
| `LikeOperand.ScratchStore.ListProjects` | src/fleet_memory/fixture/scratch.py:172-210 | lists exactly the scratch projects present |
| `LikeOperand.DiscardRemovesExactly` | src/fleet_memory/fixture/scratch.py:115-126 | discarding takes one project off the listing and no row of another project |
| `Marker.RelayMarker.RecordStart` | src/fleet_memory/fence/marker.py:123-133 | takes over the last stamps of a readable marker, restarts the counters, and writes |
| `Marker.RelayMarker.RecordIngest` | src/fleet_memory/fence/marker.py:135-143 | memory and file after an ingest; a refused write leaves the old file |
| `Marker.RelayMarker.RecordMessage` | src/fleet_memory/fence/marker.py:145-154 | memory and file after a message that was not ingested |
| `Marker.MarkerHoldsLatest` | src/fleet_memory/fence/marker.py:102-154 | over any run the file holds the latest start, message and ingest and what the latest message came to, across all restarts, and counts the messages and the ingests since the last start |
| `Fence.IngestInWindowIsNeverIdle` | src/fleet_memory/fence/check.py:304-327 | an ingest inside the build window, in whatever process, never yields an alarm from its marker |
| `Fence.DarkRelayIsIdle` | src/fleet_memory/fence/check.py:364-393 | enough builds, no ingest and no watched row in the window, grace over: the alarm is raised |
| `Fence.RelayIdleIff` | src/fleet_memory/fence/check.py:304-393 | the exact condition of the idle alarm, receipts counted and the newest row unfolded |
| `Fence.NewestWatchedIsMax` | src/fleet_memory/fence/check.py:338-349 | the newest watched row is recent if and only if some watched row is |
| `Fence.StoreSaysIff` | src/fleet_memory/fence/check.py:104-236 | what each check says, by the rows and write time it judges: empty, blind without a write time, stale exactly past the limit, OK otherwise |
| `Fence.StoreRunIff` | src/fleet_memory/fence/check.py:85-236 | with nothing acknowledged, a run over the store is OK if and only if the store was reached, has rows and a newest write time within the limit, and every watched project has too |
| `Fence.BlindIsNeverOK` | src/fleet_memory/fence/check.py:85-264 | a check says that it is blind exactly when its own input could not be seen, the store, a watched project or the relay; it is never OK, and an OK run has that very check acknowledged by name |
| `Fence.VerdictIff` | src/fleet_memory/fence/check.py:410-443 | the run is OK if and only if every alarm is acknowledged by name, which changes no name and no reason |
| `Fence.AcknowledgedIff` | src/fleet_memory/fence/ack.py:107-175 | an acknowledgement file makes a run OK if and only if nothing trips, or it gives a reason and a day at most fourteen days off that is not past, and names everything that trips |
| `Fence.SilenceIsBounded` | src/fleet_memory/fence/ack.py:139-175 | whatever trips and however facts and clock move, one unchanged acknowledgement file keeps the runs of at most fifteen days OK |

## Left out

- Writers that run at the same time: there is no transaction around read and put, and interleaved writers can lose a mark. The theorems are about sequential runs, crash cuts, replays and redeliveries.
- Writer.ForwardSuccessor: an exception of the store is caught inside the scan, which then answers as far as it came; rows put after such a scan need not be linked, and the theorems on links are about scans that do not fail.
- RelayRows and RelayProtocol.Deliver: for the same reason they are about stores whose searches work; gets and puts may fail at any point.
- RelayChunks.AckedIsStored, RelayChunks.ExactlyOnceStore and RelayChunks.StoredCoversBody: prose messages that share an id and a project are taken to carry one text, under whatever envelopes; for any stream there are `RelayChunks.ChunksFollowDeliveries` and `RelayChunks.AckedIsPut`, and `RelayChunks.ShorterTextKeepsTail` says what stays behind of a longer text.
- RelayService.RelayService.IngestProse: an episode of the model carries its chunks beside its text, and the precondition ties the two; they are what `Chunker.ChunksOf` says.
- Construction.Construct: fields other than project, identifier, supersedes, lessons and version are one text, and one flag says whether the model's own validation accepts their types.
- Whole chunk rows and typed rows share one store in the program and are two maps here; their namespaces never meet.
- Chunker.ChunkProse: a token boundary inside a multi-byte character, or a lone surrogate in the text, breaks the assumption that decoding undoes encoding and distributes over concatenation.
- Chunker.PieceIsBounded: it bounds some spelling of the text before stripping, not what the encoder counts for the published text, because joining or stripping pieces may change how a byte-pair encoder splits them.
- Search: whether stored content is substantive is a field of the item; scores are exact reals and the ranking is one fixed list per partition; the timeout is not modelled.
- Composition, Assembly: floating-point rounding, coverage score and contributing types.
- EmbedBatches.Embed: that vectors belong to their texts rests on a service that embeds each text independently of the rest of its request; dimension and finiteness checks of single vectors are part of what the service answers.
- Manifest: directories are compared as texts, as the code does, and the path is taken as the path library renders it; `.` segments and other spellings of one directory are not identified.
- Reindex.ReindexCorpus: a store or stream that raises ends the run without a report and is not modelled, though `Republishing` covers every prefix of a run; the walk, front-matter, classification rules and the lessons section are inputs; stored content that is not readable JSON is not modelled.
- Reindex.CorpusPublisher.Publish: the stream's duplicate window is not modelled as such; a message may be dropped at any time, for that or any other reason, and `Republishing.SecondRunChangesNothing` asks that none of the first run's was dropped unwritten.
- LikeOperand.ScratchStore.ListProjects: the sorted order of the listing.
- Marker: stamps are whole seconds, the ISO text form and the atomic file replacement are not modelled.
- Fence: message wording, details and notes.
- UUID, SHA-256, JSON and tokenizer internals; Postgres, langgraph, NATS, httpx; settings, logging, the MCP tools and the file system.
- Audit counts, parity difference, backfill, probe harness, story cards, fixture snapshot and restore: they would add only easy members.
