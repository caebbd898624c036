# wee-events: a verified model

wee-events is an event-sourcing toolkit.  Aggregates are streams of events; publishing appends a batch to one stream
under an optimistic check of its revision; entities are renders of streams; documents are cached renders.  This
project models the two event stores, what is built on them, and the algorithms they rest on, and proves what they
promise.

`dafny verify dfyconfig.toml` checks everything.

## The parts

- `AppendLog` is the abstract store: a history of commits, each admissible when it was made (it extends its stream by
  strictly greater revisions, from exactly the expected revision if one is named).  Both stores refine it.
- `SqliteTable` is the `events` table and one publish transaction with its three guarded INSERTs, as functions of the
  rows, in SQL's three-valued logic.  `RevisionText` shows that the guards mean the same over the text that the
  database really compares.  `SqliteRuns` runs any number of store instances over one table.  `SqliteStore` is the
  imperative publish path with its three nested retry loops.
- `MemoryRuns` is the memory store as interleaved steps of any number of tasks (resolve or insert the stream, lock,
  check, mint, extend; get and read for a load).  `MemoryStore` is its calls in imperative form.
- `Glob` and `Renderer` match event types and fold streams.  `Commands` interleaves load-decide-publish-reload cycles
  over the log; `Documents` interleaves projection workers, and holds the imperative apply and rebuild.
- `Binary` and `Minting` are what several parts share: bytes and bits, and what a ULID generator hands out.
- `AggregateIds`, `LocalPaths`, `Fnv`, `Hashed`, `Sanitize` and `ByteOrder` are texts, paths, hashes and names.
- `Strategies` and `Enumeration` route aggregates to partitions and list them again; `PartitionNames` is the guard
  that ties a database to one partition name.
- `Effects` is the effect type-state that the `service!` macro generates.

## Assumptions about libraries

- An immediate transaction is exclusive; one that is dropped, or whose commit fails, applies nothing.
- One SELECT is a snapshot.  SQL compares text bytewise, and a comparison with NULL is not true.
- A successful `Generator::generate` returns a value strictly above its previous one, starting from nil.  It may fail.
- A lock is held by one writer; a reader gets in only while nobody writes.
- Files and rows of a local store are never deleted behind its back, and names are Rust strings, that is, valid UTF-8.

Busy databases, failing calls, namespaces that are not ready, minted values and scheduling are nondeterministic
choices; the imperative models count the faults that occur, so that their contracts can say that nothing else is
reported as one or retried.  A Rust `str` is the sequence of its UTF-8 bytes.  `Reducer`s, command handlers and partitioners are
arbitrary deterministic functions; payloads are bytes.

## Where the code is not what one would expect

The model follows the code in each of these places, and the named lemma says exactly what holds.

- The glob matcher compares a pattern byte literally before it looks at it as a star, so the pattern `*` rejects the
  text `*a`.  It never accepts wrongly, and it is right for every pattern exactly on texts without a `*` that
  something follows (`Glob.CorrectForTextIff`).
- A publish that names the current revision still conflicts if its writer's clock lags, with `expected == actual`
  (`SqliteTable.LaggingWriterConflicts`).
- An empty publish ignores the expected revision in both stores (`MemoryStore.Store.Publish`,
  `SqliteStore.EventStore.PublishWithConnection`).
- A failed mint leaves an empty stream in the memory store, and enumeration shows it
  (`MemoryRuns.MintFailureLeavesPhantom`).  While no publish is in flight, an id is listed exactly if it has events or
  a publish for it failed to mint (`MemoryRuns.QuiescentEnumeration`).
- The documentation of `AggregateId` calls its text round trip guaranteed and then excepts empty types and keys; a
  colon in the type breaks it as well (`AggregateIds.ParsePrintedIff`).
- The aggregate strategy lists the id of a partition without looking for events, so its listing is right exactly if
  no partition file is empty (`Enumeration.AggregateListingIsExactIff`).  An id that does not round-trip is never
  discovered as itself (`Strategies.UnprintableIdIsMistaken`), and may share its file with another id
  (`Enumeration.AggregateSharesFileIff`); enumeration is proved for ids that do round-trip.
- A named partition with the empty name gets the name of the default database, which is itself empty if the prefix
  has no letter or digit (`Sanitize.EmptyDatabaseNameIff`).
- Documents are keyed by the aggregate key alone; what is proved of a collection is proved for one aggregate type and
  one renderer per collection.

## Model

| member | source | states |
|---|---|---|
| `AppendLog.StreamsIncrease` | crates/wee-events-sqlite/src/event_store/store.rs:761-782 | in every history of admissible commits every stream is strictly increasing, starting above the zero revision |
| `AppendLog.StreamsOnlyGrow` | crates/wee-events-sqlite/src/event_store/store.rs:353-391 | an earlier stream is a prefix of every later one: nothing is rewritten, reordered or removed |
| `AppendLog.SameRevisionSameStream` | crates/wee-events/src/aggregate.rs:43-53 | the revision derived from the last event identifies how far a stream has been read, so one compared revision is enough |
| `AppendLog.OwnBatchStays` | crates/wee-events/src/service_builder.rs:326-346 | a commit's own events stand in every later stream of its aggregate, right behind what they were appended to |
| `AppendLog.AtMostOncePerExpectedRevision` | crates/wee-events-sqlite/src/event_store/store.rs:761-771 | over a whole history at most one non-empty publish naming a given expected revision of an aggregate succeeds |
| `SqliteTable.MaxIsLast` | crates/wee-events-sqlite/src/event_store/store.rs:402-422 | `MAX(revision)` of an increasing stream is the revision of its last event, NULL exactly when it has none |
| `SqliteTable.LoadOfIncreasing` | crates/wee-events-sqlite/src/event_store/store.rs:353-391 | `ORDER BY revision` gives an increasing stream back in the order in which it was appended |
| `SqliteTable.OrderSorts` | crates/wee-events-sqlite/src/event_store/store.rs:353-364 | `ORDER BY revision` is an ascending permutation of whatever is in the table |
| `SqliteTable.OpenTxAppends` | crates/wee-events-sqlite/src/event_store/store.rs:524-600 | a transaction that is still open holds the old rows followed by exactly its recorded batch; no other aggregate moves |
| `SqliteTable.OpenTxIncreases` | crates/wee-events-sqlite/src/event_store/store.rs:751-782 | whichever of the three guards lets a row in, the stream keeps increasing strictly |
| `SqliteTable.FinishedTxIsAdmissible` | crates/wee-events-sqlite/src/event_store/store.rs:800-869 | a finished transaction carries the raw batch in order, extends its stream monotonically, and saw exactly the expected revision (an empty stream for zero) |
| `SqliteTable.ConflictIsAtFirstInsert` | crates/wee-events-sqlite/src/event_store/store.rs:560-577 | a conflict arises only at the first statement, reports the true maximum, and says why: attempted not above actual when blind; stream not empty for zero; otherwise actual differs from expected or attempted is not above it |
| `SqliteTable.LaterInsertsAdvance` | crates/wee-events-sqlite/src/event_store/store.rs:774-782 | behind its own first row a transaction always passes the advance guard, so there is no conflict after a partial insert |
| `SqliteTable.TxSucceedsIff` | crates/wee-events-sqlite/src/event_store/store.rs:524-600 | exactly when a transaction gets through: the optimistic condition held of the stream at its start and no minted event id is in the table |
| `SqliteTable.LaggingWriterConflicts` | crates/wee-events-sqlite/src/event_store/store.rs:761-771 | a publish naming the current revision conflicts exactly if the minted revision is not above it, and then reports `expected == actual` |
| `SqliteTable.CommitExtendsLog` | crates/wee-events-sqlite/src/event_store/store.rs:524-600 | committing appends one admissible commit to the log, keeps event ids unique, and leaves every other aggregate as it was |
| `Minting.MintedBatchCarries` | crates/wee-events-sqlite/src/event_store/store.rs:579-585 | a minted batch has the types, payloads and metadata it was given, in order, and strictly increasing event ids and revisions above the generator's old value |
| `SqliteTable.SkewHintOfBlindConflict` | crates/wee-events-sqlite/src/event_store/store.rs:709-716 | in a blind conflict the skew hint is absent exactly when both revisions carry the same millisecond, and otherwise is their exact positive gap |
| `SqliteTable.TimestampReadsBack` | crates/wee-events-sqlite/src/event_store/store.rs:709-716 | the timestamp is what stands above 80 random bits: milliseconds for milliseconds |
| `SqliteTable.FirstGuard` | crates/wee-events-sqlite/src/event_store/store.rs:800-869 | each of the three SQL guards, NULLs included, says exactly what the optimistic condition says of the stream |
| `SqliteRuns.RunRefinesLog` | crates/wee-events-sqlite/src/event_store/store.rs:524-600 | any number of instances with independent generators and skewed clocks: every attempt is a step of the append log or invisible to it, loads return its streams, all strictly increasing in commit order |
| `SqliteRuns.LoadsArePrefixes` | crates/wee-events-sqlite/src/event_store/store.rs:353-391 | any earlier load of an aggregate is a prefix of every later one, and its revision no greater |
| `SqliteRuns.PublishTouchesOneAggregate` | crates/wee-events-sqlite/src/event_store/store.rs:524-600 | a committed publish extends its aggregate by exactly the raw batch and leaves every other aggregate unchanged |
| `SqliteRuns.ExpectedRevisionCommitsOnce` | crates/wee-events-sqlite/src/event_store/store.rs:800-869 | in any run at most one publish with a given expected revision of an aggregate commits |
| `SqliteStore.Database.Commit` | crates/wee-events-sqlite/src/event_store/store.rs:588-588 | makes a finished transaction permanent: one commit more, attributed to its call, and the rows of its batch |
| `SqliteStore.EventStore.GenerateUlid` | crates/wee-events-sqlite/src/event_store/store.rs:345-351 | a minted ULID is strictly above all earlier ones of this generator; a failure leaves the generator where it was |
| `SqliteStore.EventStore.InsertAll` | crates/wee-events-sqlite/src/event_store/store.rs:540-586 | the statement loop: all INSERTs go through with fresh increasing ids, or a conflict of the first one is reported truthfully, or a library fault that did occur or a taken event id is reported |
| `SqliteStore.EventStore.TryPublishOnce` | crates/wee-events-sqlite/src/event_store/store.rs:524-600 | one transaction: success commits exactly the returned changeset, which is the raw batch under freshly minted ids; any error leaves the database untouched |
| `SqliteStore.EventStore.TryPublishWhileBusy` | crates/wee-events-sqlite/src/event_store/store.rs:445-459 | at most nine attempts, repeated only because the database was busy, exactly nine if it still is; the call has committed exactly the returned changeset or nothing, whatever others committed in between |
| `SqliteStore.EventStore.PublishWithConnection` | crates/wee-events-sqlite/src/event_store/store.rs:424-489 | exactly once in at most 5 * 9 attempts; a publish naming a revision stops at its first conflict, within nine attempts, a blind one gives up at its fifth; every attempt but the last was busy or such a conflict; faults are reported only if they occurred; conflicts and diagnostics name the revision the stream has on return, and `expected == actual` only if the generator lagged; the `expect` cannot fire; an empty batch reports the current revision whatever was expected, and never conflicts |
| `SqliteStore.EventStore.OpenAndPublish` | crates/wee-events-sqlite/src/event_store/store.rs:500-506 | one round of the outer loop: one opening and what publishing through it promises |
| `SqliteStore.EventStore.PublishToAggregate` | crates/wee-events-sqlite/src/event_store/store.rs:491-522 | the same through all three loops, in at most 30 * 5 * 9 attempts, 30 * 9 if a revision is named; every opening but the last was not ready, and `NotReady` is reported only after thirty; the `unreachable!` is unreachable |
| `RevisionText.DigitsKeepOrder` | crates/wee-events/src/id.rs:92-99 | fixed-width base-32 text is order-isomorphic to the numbers, for every width |
| `RevisionText.TextOrderIsNumericOrder` | crates/wee-events/src/id.rs:74-99 | the byte order of two printed revisions is their numeric order, and equal texts are equal revisions |
| `RevisionText.OnlyZeroPrintsAsZero` | crates/wee-events/src/id.rs:116-118 | the nil ULID, and nothing else, prints as the zero revision |
| `RevisionText.ParsePrinted` | crates/wee-events/src/id.rs:144-157 | parsing any printed revision gives it back |
| `RevisionText.ParseOtherText` | crates/wee-events/src/id.rs:144-157 | another length is an error that says so, characters that are no digits are invalid, and 26 digits parse to the revision that prints as them exactly if the first is at most 7 |
| `RevisionText.DigitIs` | crates/wee-events/src/id.rs:92-99 | the digits are those of the Crockford alphabet |
| `RevisionText.TextStartsWithTimestamp` | crates/wee-events/src/id.rs:74-86 | the first ten of the 26 characters are the timestamp |
| `RevisionText.MaxTextIsMaxRevision` | crates/wee-events-sqlite/src/event_store/store.rs:402-422 | `MAX` over the text column is the text of the numeric maximum |
| `RevisionText.TextGuardsAreNumeric` | crates/wee-events-sqlite/src/event_store/store.rs:751-782 | every SQL guard evaluated over text has the truth value of the guard over numbers |
| `MemoryRuns.RunRefinesLog` | crates/wee-events/src/memory_store.rs:85-168 | every interleaved step is a step of the atomic append log or invisible to it; every stream is the log's and strictly increasing although all tasks share one generator |
| `MemoryRuns.HandlesAliasTheOneStream` | crates/wee-events/src/memory_store.rs:180-191 | every handle in flight for an id is the one stream of the map, tasks of different ids never share one, and at most one task holds its lock |
| `MemoryRuns.MintedExtends` | crates/wee-events/src/memory_store.rs:132-161 | revisions minted from the shared generator under the write lock lie above everything in the stream |
| `MemoryRuns.LoadsAreLinearisable` | crates/wee-events/src/memory_store.rs:67-80 | a load returns the stream as it was at one moment between its call and its return |
| `MemoryRuns.LaterLoadsExtendEarlierOnes` | crates/wee-events/src/memory_store.rs:67-80 | of two loads that do not overlap the later extends the earlier |
| `MemoryRuns.QuiescentEnumeration` | crates/wee-events/src/memory_store.rs:218-224 | exactly what is enumerated while no publish is in flight: the aggregates with events, and those for which a publish failed to mint |
| `MemoryRuns.MintFailureLeavesPhantom` | crates/wee-events/src/memory_store.rs:111-135 | a complete run in which a failed mint leaves an empty stream behind that is enumerated |
| `MemoryRuns.OkMeansAppended` | crates/wee-events/src/memory_store.rs:161-167 | a publish that returned `Ok` is in the log with the batch it was given, under the id it was called with and the revision of its last event |
| `MemoryRuns.ConflictIsTrue` | crates/wee-events/src/memory_store.rs:99-130 | in any run a publish that has just conflicted had named a revision other than its stream's, which the conflict reports, and nothing was appended |
| `MemoryRuns.StalePublishConflicts` | crates/wee-events/src/memory_store.rs:115-131 | the check under the write lock conflicts exactly if the expected revision is not the stream's |
| `MemoryRuns.ExpectedRevisionCommitsOnce` | crates/wee-events/src/memory_store.rs:115-131 | in any run at most one publish with a given expected revision of an aggregate appends |
| `MemoryStore.Store.MintEventIds` | crates/wee-events/src/memory_store.rs:49-61 | mints pairs of strictly increasing ids, all above everything minted before, or fails |
| `MemoryStore.Store.LoadSync` | crates/wee-events/src/memory_store.rs:67-80 | the stream of the aggregate, empty with the zero revision if there is none |
| `MemoryStore.Store.PublishSync` | crates/wee-events/src/memory_store.rs:85-168 | a conflict exactly if a revision was expected that is not the current one: it changes nothing and names the true revision; otherwise success is one admissible append of the returned batch under freshly minted ids, unless the generator fails, which changes no events but lists a new id |
| `MemoryStore.Store.Publish` | crates/wee-events/src/memory_store.rs:243-260 | an empty batch ignores the expected revision and changes nothing; any other conflicts exactly if the expected revision is not the current one; errors change no stream |
| `MemoryStore.MintedBatchAppends` | crates/wee-events/src/memory_store.rs:132-161 | the minted batch carries the raw events in order and is an admissible append that keeps the generator ahead of every stream |
| `Commands.UnmovedRevisionMeansSameView` | crates/wee-events/src/publisher.rs:21-51 | if the revision pinned by the publisher is still the stream's, the entity decided on is the render of exactly that stream |
| `Commands.Serialisable` | crates/wee-events/src/service_builder.rs:326-346 | in every interleaving of command cycles every committed batch is the decision of its command on the render of exactly the stream it was appended to |
| `Commands.ReloadIncludesOwnBatch` | crates/wee-events/src/service_builder.rs:339-345 | a reload after a successful publish renders an extension of the stream that includes the command's own batch |
| `Commands.DomainInvariantHolds` | crates/wee-events/src/service_builder.rs:326-346 | a domain invariant kept by sequential decide-and-fold holds of every rendered stream in every reachable state, and every stream renders |
| `Glob.GlobMatches` | crates/wee-events/src/renderer.rs:222-251 | the single-pass loop with backtracking to the last star only decides the literal-first match, and terminates |
| `Glob.Sound` | crates/wee-events/src/renderer.rs:222-251 | whatever the matcher accepts is a glob match, for all patterns and texts |
| `Glob.CompleteWithoutInnerStar` | crates/wee-events/src/renderer.rs:222-251 | a text in which no `*` is followed by anything, in particular one without `*`, is accepted by every pattern that matches it |
| `Glob.InnerStarIsRejected` | crates/wee-events/src/renderer.rs:228-231 | for every other text a concrete pattern matches it and is rejected |
| `Glob.CorrectForTextIff` | crates/wee-events/src/renderer.rs:222-251 | exactly which texts are decided correctly whatever the pattern: those without a `*` that is followed by anything |
| `Renderer.DecidePattern` | crates/wee-events/src/renderer.rs:30-35 | exact patterns compare, glob patterns run the matcher |
| `Renderer.PatternMeans` | crates/wee-events/src/renderer.rs:30-35 | an exact pattern stands for itself; a glob accepts only what matches it, and everything that does unless the event type has a `*` with something behind it |
| `Renderer.FindAction` | crates/wee-events/src/renderer.rs:172-205 | the loop over the rules finds the action of the first rule that matches |
| `Renderer.RenderAggregate` | crates/wee-events/src/renderer.rs:172-205 | the loop leads from the initial state through all events, each by the reducer of its first matching rule or left alone if that rule ignores it, or stops at the first event without a rule or with a failing reducer |
| `Renderer.RenderMeans` | crates/wee-events/src/renderer.rs:172-205 | every render has such a path of states, to its result or to its error |
| `Renderer.RenderIsDetermined` | crates/wee-events/src/renderer.rs:172-205 | and whatever such a path of states leads to is what the render gives |
| `Renderer.FirstMatchWins` | crates/wee-events/src/renderer.rs:172-205 | rules take precedence in registration order |
| `Renderer.RenderExtends` | crates/wee-events/src/renderer.rs:172-205 | rendering an extended stream is rendering the prefix and carrying on from its state |
| `Renderer.FoldOfSameRaws` | crates/wee-events/src/renderer.rs:172-205 | the rendered state depends on event types and payloads only, not on ids, revisions or metadata |
| `Documents.DocumentsAreRenderedPrefixes` | crates/wee-events-sqlite/src/projections.rs:7-67 | under any interleaving of publishers, workers and deletes each document is the encoded state of the render of exactly the stream prefix that ends at its revision |
| `Documents.ProjectMeans` | crates/wee-events-sqlite/src/projections.rs:14-16 | a worker gets the document that shows the loaded stream, and none exactly if rendering or encoding fails |
| `Documents.WorkersDoTheirWork` | crates/wee-events-sqlite/src/projections.rs:14-26 | loading leaves a worker with the document that shows the stream, or with none if that cannot be shown; storing leaves a document at least as new and no other changed |
| `Documents.RevisionsNeverDecrease` | crates/wee-events-sqlite/src/document_store.rs:41-61 | between deletes the revision of a document never decreases |
| `Documents.NewestDocumentIsFullRender` | crates/wee-events-sqlite/src/projections.rs:45-51 | a document at least as new as the stream shows the whole stream, which is why a rebuild may skip it |
| `Documents.Host.Store` | crates/wee-events-sqlite/src/document_store.rs:41-61 | the upsert keeps the newer of the two documents and no other document changes |
| `Documents.Host.ApplyProjection` | crates/wee-events-sqlite/src/projections.rs:7-28 | on success the document is at least as new as the stream was at the call and shows the prefix that ends at its revision, whatever others published or applied; it fails only if a store does or the loaded stream cannot be shown |
| `Documents.Host.EnumerateByType` | crates/wee-events-sqlite/src/event_store/store.rs:190-210 | while others publish, no key that had events at the start is missing; others may be listed |
| `Documents.Host.RebuildOne` | crates/wee-events-sqlite/src/projections.rs:42-64 | one iteration, the skip branch included, leaves the document at least as new as the stream it loaded |
| `Documents.Host.RebuildProjection` | crates/wee-events-sqlite/src/projections.rs:31-67 | on success every aggregate of the type that existed at the start has a document at least as new as its stream then, showing the prefix that ends at its revision; with no publish meanwhile each shows the full stream, skipped ones included; it fails only if a store does or a loaded stream cannot be shown |
| `AggregateIds.ParsePrintedIff` | crates/wee-events/src/id.rs:249-275 | an id round-trips through its text exactly if its type is non-empty and free of colons and its key is non-empty |
| `AggregateIds.PrintParsed` | crates/wee-events/src/id.rs:249-275 | whatever parses prints back as the same text, and round-trips |
| `AggregateIds.TextIsSharedIff` | crates/wee-events/src/id.rs:249-253 | exactly the ids with a colon in type or key share their text with another id |
| `AggregateIds.TypeDecidesBeforeKey` | crates/wee-events-sqlite/src/event_store/store.rs:296-303 | types decide the order of ids, keys only between equal types |
| `AggregateIds.IdLessIsTotal` | crates/wee-events-sqlite/src/event_store/store.rs:296-303 | the order is a strict total order (with transitivity in `IdLessIsTransitive`) |
| `ByteOrder.LessIff` | crates/wee-events-sqlite/src/event_store/store.rs:298-302 | text order: at the first place where the texts differ the one that ends there or has the smaller byte comes first |
| `LocalPaths.SymbolsReadBack` | crates/wee-events-sqlite/src/event_store/backends/local.rs:113-119 | reading base-32 symbols back gives the bits, with fewer than five zero bits of padding |
| `LocalPaths.SymbolIs` | crates/wee-events-sqlite/src/event_store/backends/local.rs:113-119 | the symbols are those of the alphabet of RFC 4648, section 6 |
| `LocalPaths.KnownComponents` | crates/wee-events-sqlite/src/event_store/backends/local.rs:111-119 | the form of a component, the length of the unpadded code, and a published value |
| `LocalPaths.DecodeEncodedComponent` | crates/wee-events-sqlite/src/event_store/backends/local.rs:113-137 | encoding any partition name to a path component and decoding it returns the name |
| `LocalPaths.DistinctNamesDistinctComponents` | crates/wee-events-sqlite/src/event_store/backends/local.rs:113-119 | distinct names get distinct path components |
| `LocalPaths.DiscoverPartitions` | crates/wee-events-sqlite/src/event_store/backends/local.rs:47-67 | the directory loop computes the partitions of the database files in directory order, or the first error |
| `LocalPaths.DiscoveredMembers` | crates/wee-events-sqlite/src/event_store/backends/local.rs:47-67 | discovery succeeds exactly if every database file decodes to a name of the strategy, and then finds exactly those partitions |
| `LocalPaths.DatabaseStemIff` | crates/wee-events-sqlite/src/event_store/backends/local.rs:54-59 | the files taken for databases are those that end in `.db` with something before it |
| `LocalPaths.DiscoveryIsExact` | crates/wee-events-sqlite/src/event_store/backends/local.rs:27-67 | given the strategy's name round trip, the partitions discovered are exactly those whose files were created |
| `Hashed.HashAggregateId` | crates/wee-events-sqlite/src/event_store/strategies/hashed.rs:86-108 | the loop computes 32-bit FNV-1a over the length-prefixed byte stream |
| `Hashed.HashInputIsInjective` | crates/wee-events-sqlite/src/event_store/strategies/hashed.rs:86-108 | no two ids, with type lengths that fit a `u32`, feed the same bytes to the hash |
| `Hashed.BoundaryNeverCollides` | crates/wee-events-sqlite/src/event_store/strategies/hashed.rs:86-89 | moving the boundary between type and key always changes the hash, for types shorter than 256 bytes |
| `Fnv.BitOfXor` | crates/wee-events-sqlite/src/event_store/strategies/hashed.rs:103-103 | the step's exclusive or, bit by bit |
| `Fnv.HashSnoc` | crates/wee-events-sqlite/src/event_store/strategies/hashed.rs:97-105 | the bytes are hashed in order |
| `Fnv.KnownHashes` | crates/wee-events-sqlite/src/event_store/turso_platform/sanitize.rs:73-82 | the published values of both hashes for the empty text and for "a" |
| `Fnv.StepIsBijective` | crates/wee-events-sqlite/src/event_store/turso_platform/sanitize.rs:76-80 | for a fixed byte an FNV-1a step is a bijection on the states of 32 and of 64 bits, with an explicit inverse |
| `Fnv.OneByteNeverCollides` | crates/wee-events-sqlite/src/event_store/strategies/hashed.rs:97-105 | byte streams that differ in exactly one byte never have equal hashes, of 32 or of 64 bits |
| `Hashed.KeysDifferingInOneByteNeverCollide` | crates/wee-events-sqlite/src/event_store/strategies/hashed.rs:86-108 | two ids of one type whose keys differ in exactly one byte never have equal hashes |
| `Hashed.BucketNameRoundTrips` | crates/wee-events-sqlite/src/event_store/strategies/hashed.rs:59-70 | a bucket name restores its bucket through decimal printing and parsing exactly if the bucket is a `u32` |
| `Hashed.KnownBucketNames` | crates/wee-events-sqlite/src/event_store/strategies/hashed.rs:35-41 | what bucket names look like |
| `Hashed.RoutedBucketIsRestored` | crates/wee-events-sqlite/src/event_store/strategies/hashed.rs:35-41 | every id is routed to one of the configured buckets, whose name restores it |
| `Sanitize.SanitizeFragment` | crates/wee-events-sqlite/src/event_store/turso_platform/sanitize.rs:21-55 | the loop with its early break and trailing pops computes the collapsed text, cut and stripped of trailing dashes |
| `Sanitize.FragmentIsClean` | crates/wee-events-sqlite/src/event_store/turso_platform/sanitize.rs:21-55 | a fragment fits its limit, uses only `a-z`, `0-9` and `-`, and has no edge or doubled dash |
| `Sanitize.FragmentIsIdempotent` | crates/wee-events-sqlite/src/event_store/turso_platform/sanitize.rs:21-55 | sanitising a sanitised fragment changes nothing |
| `Sanitize.FragmentKeeps` | crates/wee-events-sqlite/src/event_store/turso_platform/sanitize.rs:21-55 | apart from dashes a fragment is the letters and digits of the text, in order and in lower case: all of them if they fit, otherwise a prefix |
| `Sanitize.HexDigitIs` | crates/wee-events-sqlite/src/event_store/turso_platform/sanitize.rs:82-82 | the digits are lower-case hexadecimal |
| `Sanitize.PrefixTellsItsOrigin` | crates/wee-events-sqlite/src/event_store/turso_platform/sanitize.rs:57-70 | the prefix of database names is what of the configured prefix fits in twelve characters, or `db`, a dash, and eight digits of its hash |
| `Sanitize.NameTellsItsOrigin` | crates/wee-events-sqlite/src/event_store/turso_platform/sanitize.rs:5-19 | a database name has the prefix, what of the partition name fits, and all sixteen digits of its hash |
| `Sanitize.ComputeStableHashHex` | crates/wee-events-sqlite/src/event_store/turso_platform/sanitize.rs:72-83 | the loop computes 64-bit FNV-1a, printed as sixteen hexadecimal digits |
| `Sanitize.Remaining` | crates/wee-events-sqlite/src/event_store/turso_platform/sanitize.rs:5-19 | the length budget for the partition never underflows and uses up the limit exactly |
| `Sanitize.DatabaseNameIsValid` | crates/wee-events-sqlite/src/event_store/turso_platform/sanitize.rs:5-19 | every database name has at most 51 characters, all permitted, with no edge or doubled dash |
| `Sanitize.SharedDatabaseMeansEqualHash` | crates/wee-events-sqlite/src/event_store/turso_platform/sanitize.rs:5-19 | two non-empty names under one prefix share a database name only if their 64-bit hashes are equal |
| `Sanitize.OneByteSeparatesDatabases` | crates/wee-events-sqlite/src/event_store/turso_platform/sanitize.rs:5-19 | two names that differ in exactly one byte never share a database, under any prefix |
| `Sanitize.EmptyDatabaseNameIff` | crates/wee-events-sqlite/src/event_store/turso_platform/sanitize.rs:6-8 | a database name is empty exactly for the default partition under a prefix without letters or digits |
| `PartitionNames.RecordedNameNeverChanges` | crates/wee-events-sqlite/src/database.rs:212-235 | whatever the provisioner aliases, across instances and restarts a database's recorded name never changes once it is set |
| `PartitionNames.OneNamePerDatabase` | crates/wee-events-sqlite/src/event_store/store.rs:491-522 | no database ever holds events routed under two partition names, also through connections that publishers still hold after others dropped them from the cache |
| `PartitionNames.SharedDatabaseMeansSameName` | crates/wee-events-sqlite/src/event_store/backends/remote.rs:117-127 | all connections ever handed out to one database, cached or held, of any instances, were made under one name |
| `PartitionNames.MetadataTable.EnsurePartitionName` | crates/wee-events-sqlite/src/database.rs:212-250 | first writer wins under concurrent openers: unless the database fails, success is exactly for the name on record afterwards, a mismatch names both parties, and the missing-row error cannot occur |
| `Strategies.HashedPartitionIsSharedIff` | crates/wee-events-sqlite/src/event_store/strategies/hashed.rs:35-41 | under the hashed strategy two aggregates share a partition, and a partition name, exactly if their hashes agree modulo the number of buckets |
| `Strategies.PartitionIsSharedIff` | crates/wee-events-sqlite/src/event_store/strategies/by_type.rs:20-29 | exactly which aggregates share a partition under every strategy, and the names that types, ids and the partitioner give |
| `Strategies.RestoredIff` | crates/wee-events-sqlite/src/event_store/strategies/by_aggregate.rs:52-62 | a named partition is restored from its name always, except that an aggregate partition is restored exactly if its id round-trips |
| `Strategies.UnprintableIdIsMistaken` | crates/wee-events-sqlite/src/event_store/strategies/by_aggregate.rs:52-62 | the partition name of an id that does not round-trip is rejected or taken for another aggregate |
| `Enumeration.RunHousesEvents` | crates/wee-events-sqlite/src/event_store/backends/local.rs:27-96 | in every run of any number of local stores, about whatever aggregates, events lie only in the file of their own partition |
| `Enumeration.RunKeepsInv` | crates/wee-events-sqlite/src/event_store/backends/local.rs:27-96 | in every run about routable aggregates each file holds events of one partition only, and every connection leads to its partition's file |
| `Enumeration.AggregateSharesFileIff` | crates/wee-events-sqlite/src/event_store/strategies/by_aggregate.rs:20-28 | under the aggregate strategy exactly the ids with a colon in type or key share a file with another id, although every id is a partition of its own |
| `Enumeration.PathDeterminesPartition` | crates/wee-events-sqlite/src/event_store/backends/local.rs:27-45 | two routable aggregates share a file only if they share a partition |
| `Enumeration.AnswerIsOwnShare` | crates/wee-events-sqlite/src/event_store/strategies/by_type.rs:31-45 | under every strategy and read plan, of both forms, a partition's answer is exactly its own share of the ids to list |
| `Enumeration.CommittedIsListed` | crates/wee-events-sqlite/src/event_store/store.rs:212-235 | every id with committed events is listed, under every strategy |
| `Enumeration.AggregateListingIsExactIff` | crates/wee-events-sqlite/src/event_store/store.rs:232-232 | the aggregate strategy lists exactly the ids with events if and only if no partition file is empty |
| `Enumeration.OneOrderPerSet` | crates/wee-events-sqlite/src/event_store/store.rs:296-305 | strictly sorted lists of the same ids are equal, so the result does not depend on the order of the answers |
| `Enumeration.SortedUniqueIds` | crates/wee-events-sqlite/src/event_store/store.rs:296-305 | sort and dedup give a strictly sorted list of exactly the given ids |
| `Enumeration.LocalStore.AllKnownPartitions` | crates/wee-events-sqlite/src/event_store/store.rs:282-287 | the partitions known are exactly those whose files exist; no file in the root is rejected |
| `Enumeration.LocalStore.OpenPartitionIfExists` | crates/wee-events-sqlite/src/event_store/store.rs:256-280 | opens the partition exactly if its file exists, and remembers the connection |
| `Enumeration.LocalStore.EnumeratePartition` | crates/wee-events-sqlite/src/event_store/store.rs:212-235 | answers the read plan; the direct plan without looking |
| `Enumeration.LocalStore.EnumerateAggregates` | crates/wee-events-sqlite/src/event_store/store.rs:172-210 | strictly sorted; everything to list at the start is there and nothing that is not to list at the end, while other instances publish; hence exact when nobody does; the by-type form is the same set filtered |
| `Effects.SubsetTypeIsInjective` | crates/wee-events-macros/src/service_macro.rs:299-311 | different subsets of effects are different types |
| `Effects.FullTypeIsInOrder` | crates/wee-events-macros/src/service_macro.rs:299-311 | the type of all effects lists them in the order of their declaration |
| `Effects.GenerateImpls` | crates/wee-events-macros/src/service_macro.rs:975-1022 | the nested loops emit an impl for every non-empty subset and member, and no other; the ghost keys show that none is emitted twice |
| `Effects.ImplsNeverOverlap` | crates/wee-events-macros/src/service_macro.rs:975-1022 | no two generated impls have the same input type and effect |
| `Effects.TransitionsAreDeletions` | crates/wee-events-macros/src/service_macro.rs:982-1000 | a transition from any subset is generated exactly if its output is its input with that one effect deleted |
| `Effects.RegistersByDeleting` | crates/wee-events-macros/src/service_macro.rs:982-1017 | from the type of any subset, a sequence of calls resolved through the generated impls is deletion of one effect after the other |
| `Effects.AcceptedIff` | crates/wee-events-macros/src/service_macro.rs:1003-1017 | through the generated impls a list of effects is accepted exactly if all are still to be registered, and leaves exactly the others |
| `Effects.AttachableIff` | crates/wee-events-macros/src/service_macro.rs:1093-1113 | through the generated impls `Ready` is reached, and attaching possible, after exactly the permutations of all effects: in as many steps as there are effects, with none accepted twice and nothing earlier attachable |

## Left out

- The Restate crate (client, HTTP protocol, effect dispatch, correlation ids): network plumbing over an SDK that is not part of this model.
- The Turso HTTP client and the provisioner's cache: thin wrappers over a platform API.  In `PartitionNames` a provisioner may answer anything.
- Discovery in the remote catalog: it opens whatever targets the provisioner names, and a provisioner's list need not be complete.
- Opening connections, pragmas and schema migrations: library calls; the primary key on the event id and the uniqueness of the metadata key are in the model, the rest of the schema is not.
- JSON and CBOR: payloads are opaque bytes, encoding a document may fail, and rows with an unknown encoding do not occur.
- Sleeping, backoff and jitter: delays are nothing.
- Error display and conversion: errors keep their kind and the revisions they report.
- ULID randomness and wall clocks: only the strict increase of each generator matters; timestamps are the top 48 bits.
- Parsing of lower-case or otherwise non-canonical ULID text: revisions in the stores are always printed ones.
- Handlers that return an entity of their own instead of asking for a reload: the caller gets back what the handler made up, so there is nothing to prove.
- Handlers that publish more than once in a cycle, or past the publisher.
- Several aggregate types projected into one collection: their documents overwrite each other under equal keys.
- `list` of the document store: it reads what `get` reads.
- The order in which the memory store enumerates: it iterates a concurrent map, modelled as one snapshot of its keys.
- Token generation in the macros apart from the effect subsets; lifetime bridges; derive naming; more than 63 effects, for which the mask arithmetic overflows a 64-bit word.
- More than one partition in `SqliteStore`: a publish only ever touches the database of its aggregate's partition, and `PartitionNames` and `Enumeration` treat the rest.
- Databases of the default partition in `PartitionNames`: the source records no name for them.
