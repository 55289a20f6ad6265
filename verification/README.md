# Logal in Dafny

Logal is a local OpenTelemetry collector with a command line. It receives logs, spans and metric points over HTTP and
gRPC, redacts secrets, gives each record a canonical payload and a fingerprint, stores the records in three SQLite
tables under one writer, evicts old records, and answers bounded read-only queries, among them counter rates.

The project models that behaviour and proves what it promises:

- **Counter rates** (`rates.dfy`, `rate_rules.dfy`, `gap_rules.dfy`, `sql.dfy`). The window, `LAG` and 16-arm `CASE` over SQL's
  three-valued logic are an executable pipeline; the rules are stated on the multiset of the other points of the
  stream, where row ids do not exist.
- **Canonical payloads** (`json.dfy`), **redaction** (`redaction.dfy`, `text.dfy`) and **exporting** (`envelope.dfy`,
  `export.dfy`, `payloads.dfy`, `envelope_panics.dfy`, `replay.dfy`). A JSON object is the list of its fields in fixed key order.
- **The store** (`tables.dfy`, `store_state.dfy`, `eviction.dfy`, `store.dfy`). A class with the fields of the source;
  every answer of the lock, the disk, the context and SQLite is an arbitrary input. `interleaving.dfy` breaks the
  operations into their atomic steps and lets any number of goroutines interleave them, and `races.dfy` says which
  interleavings leave readiness set or miscount rows. `atomicity.dfy` shows that the uninterrupted steps of an insert
  that found the store ready, a clear, a retention statement, a pressure transaction, a publication, and a shutdown of
  an open store give the states of their methods.
- **Queries** (`scanner.dfy`, `paging.dfy`, `reader.dfy`, `page_walk.dfy`, `filters.dfy`, `queries.dfy`). The scanner
  against a character automaton, the reader against a declarative byte charge and the real JSON text of a result, and
  the compiled conditions against the meaning of the filters, placeholder by placeholder.
- **Protocols** (`admission.dfy`, `writer_lock.dfy`, `ownership.dfy`). The shared admission limit, the context-aware
  mutex, and single ownership of the database by one process.

Three properties one might expect are false of the code, and the project shows by how much:

- The number of rows kept is not always the number at start plus committed minus deleted. Asking for the number of
  affected rows can fail in two places: after a retention statement, where rows have left that no counter shows, and
  in the insert loops of logs and metric points, which ignore the error, where rows have come that no counter shows.
  The counters account for the rows exactly when both amounts are equal (`Interleaving.Conservation`), which they are
  in every run whose counts are answered (`Races.CountedRunsConserve`); `Races.RowsCanBeLost` and
  `Races.RowsCanGoUnseen` are runs in which they are not.
- A shutdown that has cleared `ready` does not always leave it cleared. It can be set again exactly when the maintenance
  run that held the writer as closing was set had already looked at closing and was about to publish its success
  (`Races.ReadyAfterShutdown`); `Races.ReadyCanOutliveShutdown` ends with every goroutine idle. Admission and reported
  readiness stay off all the same (`Interleaving.ShutdownIsFinal`).
- `gap_seconds` is not always independent of row ids. It is exactly for a point that is alone at its time, or whose gap
  from the latest earlier time equals the gap from its own time (`GapRules.GapRule`); so a tied delta point with an
  earlier point that ends before its start has two answers.

`dafny verify dfyconfig.toml` checks the whole project.

## Model

| member | source | states |
|---|---|---|
| RateRules.CumulativeRule | internal/query/metrics.go:115-142 | A cumulative point is rated exactly when it is valid, alone at its time, and the latest earlier time of its stream holds exactly one recorded, non-negative, not larger point with the same start and not before that start; its rate is then the increase over that point. Which reason an unrated point gets is RateRules.ReasonRule |
| RateRules.DeltaRule | internal/query/metrics.go:115-142 | A delta point is rated exactly when it is valid, alone at its time, has a positive duration and no earlier point of its stream ends after its start; its rate is its value over that duration |
| RateRules.ReasonRule | internal/query/metrics.go:121-139 | A point gets each of the fourteen reasons exactly when that reason explains it: first what the point tells of itself, in the order of the arms; then whether it is alone at its time; then for a delta an earlier point that ends after its start, and for a cumulative point what the one latest earlier point is: none or unusable, tied, of another start, before the common start, or larger |
| RateRules.ReasonOrRate | internal/query/metrics.go:121-147 | A point has a reason exactly when it has neither interval, nor delta, nor rate |
| RateRules.RenumberingKeepsAnswers | internal/query/metrics.go:116-142 | Reason, interval, delta and rate of a point depend only on the multiset of points of its stream: two selections with the same points under any row ids answer alike |
| CounterRates.OnlyThePriorMatters | internal/query/metrics.go:129-138 | The arms for ties come before every arm that reads a tied predecessor, so which tied row LAG returns cannot change an answer |
| CounterRates.Located | internal/query/metrics.go:115-120 | The window and the LAG of a row say what the multiset of the other points says: alone at its time, and what the latest earlier time holds |
| RateRules.RatedInterval | internal/query/metrics.go:139-142 | The interval of a rated point starts before the point, not before any earlier point of its stream, and has positive length |
| RateRules.RatedIntervalsApart | internal/query/metrics.go:139-142 | The intervals of two different rated points of one stream do not overlap |
| RateRules.DeltasTelescope | internal/query/metrics.go:132-142 | Over a run of consecutive rated cumulative points the deltas add up to the last value minus the baseline, with one start |
| RateRules.IntegerDeltaFits | internal/query/metrics.go:137-141 | The delta of two 64-bit integer values of a rated cumulative point is non-negative and fits 64 bits |
| GapRules.PreviousIsOneOfTwo | internal/query/metrics.go:119-120 | LAG carries over the latest earlier time of the stream, or for a tied point possibly its own time |
| GapRules.GapRule | internal/query/metrics.go:147 | The gap of a point is the same under all row ids exactly when the point is alone at its time, or the gap from the latest earlier time equals the gap from its own time |
| GapRules.GapValue | internal/query/metrics.go:147 | The gap of a point alone at its time is the time from the latest earlier point to its start, and is shown exactly for a delta for which both are positive |
| GapRules.BothAreReached | internal/query/metrics.go:147 | A tied point has both gaps: the lowest id measures from the latest earlier time, the highest from its own |
| GapRules.GapRuleOfIntervals | internal/query/metrics.go:147 | For a point with start not after time: the gap depends on row ids exactly when it is a tied delta and the latest earlier time is positive and before its start |
| GapRules.LatestEarlierExists | internal/query/metrics.go:119-120 | Every selected point has a latest earlier time in its stream, or none is earlier |
| CanonicalJson.NormalForm | internal/exporter/exporter.go:368-388 | Two trees have equal canonical forms exactly when they differ only in the order of key/value lists, at any depth, where entries with equal keys keep their order and every other array keeps its own |
| CanonicalJson.NormalFormOfFields | internal/exporter/exporter.go:370-382 | The same for the fields of an object under a given parent name |
| CanonicalJson.CanonicalIsIdempotent | internal/exporter/exporter.go:368-388 | The canonical form of a canonical form is itself |
| CanonicalJson.StableSortKeeps | internal/exporter/exporter.go:374-378 | Sorting a list orders it by key and keeps, for each key, the entries with that key in their order |
| CanonicalJson.EntryKeyRule | internal/exporter/exporter.go:374-377 | An entry is sorted by the text of its first key, and by the empty text when that is missing or no text |
| CanonicalJson.LessRule | internal/exporter/exporter.go:377 | Keys are ordered by the first place where they differ, a prefix first |
| CanonicalJson.PanicRule | internal/exporter/exporter.go:368-388 | Canonicalization panics exactly when somewhere in the payload a key/value list of several entries holds one that is no object |
| CanonicalJson.SortedIsUnique | internal/exporter/exporter.go:374-378 | A list sorted by key is determined by its entries per key |
| CanonicalJson.PermutationKeepsKeyed | internal/exporter/exporter.go:374-378 | Permuting a list with distinct keys changes nothing that sorting looks at |
| CanonicalJson.SameKeyedIsPermutation | internal/exporter/exporter.go:374-378 | Lists with the same entries per key are permutations of each other, so sorting neither adds nor loses entries |
| CanonicalJson.EqualKeysKeepTheirOrder | internal/exporter/exporter.go:374-378 | Swapping two entries with the same key and different canonical values does change the canonical form |
| EnvelopePanics.LogHasPayload | internal/exporter/exporter.go:311-388 | The comparison that asserts objects never fails on an exported log, so every log has a payload |
| EnvelopePanics.SpanHasPayload | internal/exporter/exporter.go:329-388 | The same for spans with their events and links |
| EnvelopePanics.PointHasPayload | internal/exporter/metrics.go:233-308 | The same for metric points with their metadata and exemplars |
| Redaction.RedactionHidesSecrets | internal/exporter/exporter.go:390-410 | Two values have equal redacted forms exactly when they differ only in values under sensitive keys, at any depth; everything else is intact |
| Redaction.MapRedactionHidesSecrets | internal/exporter/exporter.go:390-399 | The same for attribute lists |
| Redaction.RedactionIsIdempotent | internal/exporter/exporter.go:390-410 | Redacting twice is redacting once |
| Redaction.SensitiveKeyRule | internal/exporter/exporter.go:412-436 | A key is sensitive exactly when, without the spaces around it, its last segment spells a credential in any case with hyphens and underscores anywhere, or the key has a last segment and ends in the words of a credential behind a mark |
| Redaction.NamespacedCredential | internal/exporter/exporter.go:412-436 | A sensitive key stays sensitive behind any prefix that ends in a dot, slash or colon |
| Redaction.ColumnKeysAreSafe | internal/exporter/exporter.go:136 | None of the attributes that are copied into columns is a sensitive key |
| Redaction.ColumnsHideSecrets | internal/exporter/exporter.go:438-444 | A projected column reads the same from lists that differ only in secrets, when its own key is not sensitive |
| Export.LogsHideSecrets | internal/exporter/exporter.go:114-136 | Logs that differ only in values under sensitive keys are stored as one and the same record: fingerprint, columns, body and payload |
| Export.SpansHideSecrets | internal/exporter/exporter.go:196-205 | The same for spans, with the attributes of events and links |
| Export.PointsHideSecrets | internal/exporter/metrics.go:82-99 | The same for metric points, with metadata and exemplars |
| Export.BodyColumnRule | internal/exporter/exporter.go:225-264 | Two log bodies have one body column exactly when they differ at most in what stands under sensitive keys |
| Export.TaggedReadsBack | internal/exporter/exporter.go:225-264 | The body column can be read back into the value it was made of, by the names of its kinds |
| Export.LogColumnsRule | internal/exporter/exporter.go:114-136 | Each column of a stored log holds what the record, its resource or the first attribute with that key says, under the payload and its hash |
| Export.SpanColumnsRule | internal/exporter/exporter.go:196-205 | The same for spans |
| Export.PointColumnsRule | internal/exporter/metrics.go:82-99 | The same for metric points |
| Export.CarriedText | internal/exporter/exporter.go:438-443 | A projected attribute is the text of the first attribute with its key, and empty when that is missing or no text |
| Export.Consume | internal/exporter/exporter.go:97-139 | A request yields all its records, projected in order, exactly when it is within the count and the 64 MiB limit, every record is valid and encodes, and the caller stays; otherwise none, with the reason met first |
| Envelope.ResentValues | internal/exporter/exporter.go:368-410 | Two values have one canonical form once redacted and encoded exactly when one is the other resent with reordered maps and other secrets; attributes that repeat a key keep their order among themselves, and everything else counts |
| Envelope.ResentItself | internal/exporter/exporter.go:368-388 | Any value resent unchanged is covered, repeated keys included |
| Envelope.ResentReordered | internal/exporter/exporter.go:368-388 | So is any order of attributes that keeps those of each key in theirs |
| Envelope.ResentSwapped | internal/exporter/exporter.go:368-388 | In particular neighbours with different keys may change places |
| Payloads.EnvelopesAlike | internal/exporter/exporter.go:311-327 | Two envelopes have one canonical form exactly when resource, scope and record have |
| Payloads.LogPayloadRule | internal/exporter/exporter.go:311-327 | Two logs have one payload exactly when one is the other sent again: reordered attributes and other secrets in resource, scope, record and body, and no other difference |
| Payloads.SpanPayloadRule | internal/exporter/exporter.go:329-350 | The same for spans, with the attributes of every event and link |
| Payloads.PointPayloadRule | internal/exporter/metrics.go:233-308 | The same for metric points of every kind, with metadata and exemplars |
| Replay.ResentLogs | internal/exporter/exporter.go:114-136 | A log sent again with reordered attributes and other secrets has the same identity and fingerprint; and when the hash separates the two payloads, only then |
| Replay.ResentSpans | internal/exporter/exporter.go:196-205 | A span sent again has the same fingerprint, and when the hash separates the payloads only then; the identity is the same exactly when both ids are |
| Replay.ResentPoints | internal/exporter/metrics.go:82-99 | A metric point sent again has the same identity and fingerprint; and when the hash separates the two payloads, only then |
| Replay.StoredBatchSentAgain | internal/store/store.go:181-270 | A stored batch whose rows are still there, sent again, changes no table and no counter whatever happens to it, and never conflicts |
| Replay.LogsStoredOnce | internal/exporter/exporter.go:114-143 | End to end: exporting a log batch twice, reordered and with other secrets, stores it once |
| Replay.SpansStoredOnce | internal/exporter/exporter.go:196-215 | End to end for spans |
| Replay.PointsStoredOnce | internal/exporter/metrics.go:82-107 | End to end for metric points |
| Tables.InsertAllKeeps | internal/store/store.go:198-214 | A log or metric batch keeps every row and uniqueness, and leaves exactly the fingerprints of table and batch |
| Tables.InsertAllStores | internal/store/store.go:198-214 | Each row that a batch adds holds a record of the batch as it was given, time and every column included; each record that is neither stored nor repeated has exactly one such row, and no other row is added |
| Tables.InsertAllCounts | internal/store/store.go:205-214 | The table grows by one row for each record that is neither stored already nor a repetition within the batch |
| Tables.KnownBatchChangesNothing | internal/store/store.go:198-214 | A batch that is stored already changes nothing |
| Tables.SpanBatchRule | internal/store/store.go:247-264 | A span batch succeeds exactly when table and batch together give each identity one fingerprint; the table then holds exactly those pairs |
| Tables.SpansStored | internal/store/store.go:247-264 | A span batch without a conflict stores its new records just as they are given, one row for each |
| Tables.SpanOrderIsIrrelevant | internal/store/store.go:247-264 | Permuting a span batch changes neither its outcome nor the resulting map |
| Tables.BatchesRule | internal/store/store.go:247-270 | A sequence of span batches succeeds exactly when table and batches are consistent together |
| Tables.BatchesConverge | internal/store/store.go:247-270 | Span batches in any order or multiplicity succeed together and converge to one map |
| Tables.KnownSpansChangeNothing | internal/store/store.go:247-264 | A stored span batch commits without changing anything |
| Tables.SelectOldest | internal/store/maintenance.go:159-166 | The selection for eviction: the oldest rows by received time, signal and id, in that order and no more than the limit |
| StoreState.TransactionInsertsAll | internal/store/store.go:198-217 | A log or metric transaction that ends well has inserted the whole batch |
| StoreState.TransactionInsertsSpans | internal/store/store.go:239-267 | A span transaction that ends well has inserted the whole batch; without storage errors it fails only on a conflict of the batch |
| StoreState.InsertKeeps | internal/store/store.go:181-220 | Whatever the lock, the disk and the database answer, an insert keeps uniqueness and every row, changes nothing in any signal when it fails, stores each new record of the batch as it was given when it succeeds, and keeps rows plus deleted minus committed, plus exactly the new rows whose count failed |
| StoreState.MissedRule | internal/store/store.go:211-213 | A committed log or metric batch leaves its counter behind exactly when the count failed for some new record, and never by more than the batch added |
| StoreState.RepeatedInsert | internal/store/store.go:181-270 | Inserting what is stored already changes neither tables nor counters and never conflicts |
| TelemetryStore.RunLogs | internal/store/store.go:205-217 | The insert loop of logs computes the transaction, stores each new record as it was given, and its counter is the growth of the table less exactly the new rows whose count failed, an error that the loop ignores |
| TelemetryStore.RunMetrics | internal/store/metrics.go:52-75 | The same for metric points, with the record checks inside the loop |
| TelemetryStore.RunSpans | internal/store/store.go:247-267 | The same for spans, with a lookup before each insert |
| TelemetryStore.RunSpan | internal/store/store.go:249-263 | One span: a conflict, a known span, or a new row |
| TelemetryStore.Store.InsertLogs | internal/store/store.go:181-220 | The method gives the state and error of a guarded, all-or-nothing insert of logs that stores each new record as it was given, with the counter behind by the rows whose count failed |
| TelemetryStore.Store.InsertMetricPoints | internal/store/metrics.go:28-78 | The same for metric points |
| TelemetryStore.Store.InsertSpanBatch | internal/store/store.go:222-270 | The same for spans |
| StoreState.AdmissionReason | internal/store/maintenance.go:290-306 | Each refusal says what is wrong: the state first, then no room for the reserve of a request, then the floor of free space, then the write-ahead log |
| StoreState.AdmittedWhenReported | internal/store/maintenance.go:254-263 | A batch is admitted exactly when the store is open and would be reported ready |
| StoreState.RelievedAdmits | internal/store/maintenance.go:97-109 | Under a short write-ahead log the disk is without pressure exactly when the database is below its mark and an open, ready store admits |
| TelemetryStore.Store.Clear | internal/store/clear.go:24-75 | Clear fails exactly when the lock, the closed store, the path or one of its eight database calls fails, with the first of these errors; otherwise it empties all tables and counts what it deleted. Readiness and disk pressure have no say |
| TelemetryStore.ClearKeepsBalance | internal/store/clear.go:55-71 | Clearing keeps rows plus deleted minus committed of each signal |
| TelemetryStore.Store.Start | internal/store/store.go:107-133 | A start is ready exactly when ownership, schema and the write probe succeed; otherwise it returns the first of their errors and leaves the store as it was |
| TelemetryStore.Store.Shutdown | internal/store/store.go:135-159 | Shutdown closes the database and leaves the store closing and not ready, whatever the checkpoint and the close answer |
| TelemetryStore.Store.DeleteExpired | internal/store/maintenance.go:78-87 | One retention statement deletes the oldest expired rows of one signal, a full batch of 5000 if there is one, and counts them; a failed statement changes nothing, a failed count leaves exactly those rows uncounted |
| TelemetryStore.Store.DrainRound | internal/store/maintenance.go:72-88 | A round over the three signals deletes only expired rows, at least 5000 when it asks for another round, and none is left when it does not; it fails exactly at the first call that fails |
| TelemetryStore.Store.Drain | internal/store/maintenance.go:72-92 | The rounds end; a drain in which every call succeeds leaves nothing expired, and one that stops at its first failing call has deleted only expired rows |
| TelemetryStore.Store.DeletePressureBatch | internal/store/maintenance.go:158-224 | One pressure batch deletes and counts exactly the 5000 oldest rows of all signals, or all when there are fewer, or changes nothing and returns the first failing call |
| TelemetryStore.Store.Relieve | internal/store/maintenance.go:93-132 | A round counts only if the disk was over a mark both before and after a truncating checkpoint that no reader held up; exactly one batch of oldest rows leaves for each such round without a free page; success means a reading at which the store was not stuck, giving up means 200 stuck rounds, and every other error is the first failing call |
| TelemetryStore.Store.EvictBatch | internal/store/maintenance.go:111-121 | A batch on top of earlier ones is again an age prefix, one batch longer |
| TelemetryStore.ReadDisk | internal/store/maintenance.go:94-106 | The two readings of a round with the checkpoint between them say whether the store is stuck |
| TelemetryStore.UnexpiredRowsStay | internal/store/maintenance.go:93-122 | No row received within the retention time leaves in a cleaning without a round that stays under pressure after a truncating checkpoint and finds no free page |
| TelemetryStore.Store.Clean | internal/store/maintenance.go:70-132 | What cleaning deletes is expired, or nothing expired is left and it is an age prefix; beyond the expired rows no more than 5000 leave for each stuck round without a free page, and exactly so many on success, which needs a reading at which the store was not stuck; every error is accounted for |
| TelemetryStore.Store.Maintain | internal/store/maintenance.go:44-132 | A whole maintenance run: no row older than the retention time is left when it succeeds, and the same as for cleaning for every failure on the way, with readiness and last error published as the source does; a run that never got the writer changes nothing, and a closed store is refused |
| TelemetryStore.CollectIds | internal/store/maintenance.go:170-193 | The selected rows are sorted into one list per signal, none lost |
| TelemetryStore.DeleteAll | internal/store/maintenance.go:202-219 | Deleting by id removes exactly the rows of the three lists |
| Eviction.PressureBatch | internal/store/maintenance.go:158-224 | Removing the oldest rows of all tables is an age prefix and keeps the counts |
| Eviction.DrainBatch | internal/store/maintenance.go:78-87 | Removing a selection of expired rows of one signal: what left, what is counted, and when nothing expired is left in it |
| Eviction.DrainThenPressure | internal/store/maintenance.go:70-132 | After a complete drain, age prefixes compose with it: survivors are upward closed in age |
| Interleaving.Conservation | internal/store/store.go:181-270 | In every interleaving, whenever the writer is free, rows and identities are unique, the tables are the logged batches, evictions and clears applied whole one after the other, and each signal holds its rows at start plus committed minus deleted, less the deleted rows whose count was lost, plus the inserted rows whose count was not seen; the counters account for the rows exactly when these two are equal |
| Interleaving.LostRule | internal/store/maintenance.go:82-86 | Rows are lost exactly when asking for the number of deleted rows failed after a statement that deleted some |
| Interleaving.UnseenRule | internal/store/store.go:211-213 | Rows go unseen exactly when a committed batch missed the count of some |
| Races.CountedRunsConserve | internal/store/maintenance.go:82-86 | In every interleaving in which all counts are answered, rows equal rows at start plus committed minus deleted |
| Races.RowsCanBeLost | internal/store/maintenance.go:82-86 | The loss is real: whatever rows of a signal a retention statement deletes, a run can leave the counters as they were |
| Races.RowsCanGoUnseen | internal/store/store.go:211-213 | So is the surplus: a run can store the new rows of any log batch without counting one of them |
| Interleaving.NoAdmissionBeforeRecovery | internal/store/maintenance.go:51-66 | After a listed storage failure no insert is admitted until a maintenance run that took the writer after that failure has succeeded |
| Interleaving.ShutdownIsFinal | internal/store/store.go:135-159 | Once closing is set nothing is admitted and readiness is never reported, and only the holder of the writer uses the database, while it is open |
| Races.ReadyByLog | internal/store/maintenance.go:51-66 | In every interleaving the store is ready exactly when a recovery follows the last withdrawal, or it started ready and was never withdrawn; once closing is set and every shutdown has cleared ready, only the recovery counts |
| Races.ReadyAfterShutdown | internal/store/store.go:135-137 | After a shutdown has set closing, some continuation ends ready, with ready cleared by every shutdown on the way, exactly when the maintenance run that holds the writer has passed its look at closing and is about to publish success |
| Races.ReadyCanOutliveShutdown | internal/store/maintenance.go:51-65 | The race is real: a store can be completely shut down and closed, every goroutine idle, with ready still set |
| Interleaving.ExclusiveStep | internal/store/mutex.go:15-33 | Every step keeps the one holder of the writer the only goroutine past acquiring it |
| Interleaving.OperationStays | internal/store/store.go:135-220 | A goroutine goes on with its operation until it is done or its context ends while it waits, which changes nothing; a shutdown, which no context can end, is done only once the database is closed |
| Interleaving.TurnsAreLogged | internal/store/maintenance.go:284-317 | A goroutine that goes off to record a failure logs it, and one that starts an insert logs that it was admitted |
| Atomicity.InsertAlone | internal/store/store.go:181-220 | An insert whose atomic steps nobody interrupts ends in the state that the method gives, whatever the disk and the database answer |
| Atomicity.ClearAlone | internal/store/clear.go:24-75 | An uninterrupted clear ends in the state that the method gives, ready or not |
| Atomicity.RetentionAlone | internal/store/maintenance.go:78-87 | A retention statement and its count, answered or not, leave the state that the method gives |
| Atomicity.PressureAlone | internal/store/maintenance.go:158-224 | The transaction of a pressure batch and its counts leave the state that the method gives |
| Atomicity.PublishAlone | internal/store/maintenance.go:51-66 | The end of an uninterrupted maintenance run, with its separate stores of last error and readiness, publishes its result as the method does |
| Atomicity.RefusalAlone | internal/store/maintenance.go:44-66 | An uninterrupted maintenance run that finds the store closed publishes just that |
| Atomicity.ShutdownAlone | internal/store/store.go:135-159 | An uninterrupted shutdown of an open store ends closed, closing and not ready |
| Scanner.SingleStatement | internal/query/query.go:282-331 | The scanner accepts and refuses every text as the character automaton says, with its reason; an accepted text has no separator in code position, and the wrapper after it is code at every character |
| Scanner.Scan | internal/query/query.go:291-330 | The index-jumping loop agrees with the automaton on every text without NUL |
| Scanner.WrapperIsWhole | internal/query/query.go:110 | The closing parenthesis, LIMIT and OFFSET are in code position exactly for the texts that the automaton contains |
| Scanner.SeparatorInCode | internal/query/query.go:323-324 | The automaton meets a separator exactly when the text holds a semicolon in code position |
| Scanner.TrimmedFits | internal/query/query.go:283-290 | Trimming never lengthens a text, so the second length check cannot fail |
| Scanner.TrimmedRule | internal/query/query.go:283-290 | Of the text between the spaces one final semicolon is taken off, and nothing else |
| Scanner.CommentEnds | internal/query/query.go:310-316 | A block comment ends at the first star and slash after its opening, or not at all |
| Scanner.LineEnd | internal/query/query.go:304-308 | A line comment ends at the next newline, or with the text |
| Paging.FillIsLongest | internal/query/query.go:162-217 | A page is the longest run of rows within both limits, with the reason why it is not longer; reading fails only at an unreadable row that the page had room for or at a first row over the budget |
| Reader.PageIsLongest | internal/query/query.go:152-217 | The same for the pages of a query over its rows |
| Reader.FillPage | internal/query/query.go:156-217 | The loop with its incremental byte count fills the page that the declarative charge describes |
| Reader.NextRow | internal/query/query.go:168-216 | Reading one row charges its text and each column name that it is the first to show |
| Reader.NewNames | internal/query/query.go:195-203 | The bytes of new column names do not depend on the order in which the map is visited |
| Reader.ShapeHolds | internal/query/query.go:176-190 | A row shows exactly the selected columns that are not empty, or all selected columns, with their formatted values |
| Reader.ShownRow | internal/query/query.go:176-280 | A selected field is missing from a row only if it is NULL, an empty text, a JSON document that says nothing, or a time of zero or without a text; numbers, booleans and texts with a character stay, and every field is shown in its form |
| Reader.BlankRaw | internal/query/query.go:241-256 | A JSON document is left out exactly when between spaces it is null, an empty text, or brackets or braces around spaces |
| Reader.SelectionRule | internal/query/query.go:119-147 | Columns are accepted exactly when the answer has no repeated column and, unless only columns are asked for, the requested ones exist and do not repeat |
| Reader.CheckColumns | internal/query/query.go:119-125 | The loop finds the first repeated column of the answer |
| Reader.CheckRequest | internal/query/query.go:137-146 | The loop finds the first unknown or repeated requested column |
| Reader.PageFits | internal/query/query.go:157-158 | What is reserved and charged covers the whole JSON text of any page and its newline |
| Reader.AnswerFits | internal/query/query.go:152-236 | The text of every successful answer, with its newline, is within the byte budget |
| Reader.ResultTextRule | internal/query/query.go:30-37 | The printed page lists columns and rows in their order, then the count in decimal, whether and why it is cut, and the next offset |
| Text.ByteLenRule | internal/query/query.go:157-158 | Sizes are those of the UTF-8 text (section 3 of RFC 3629), from which the string can be read back |
| Reader.Read | internal/query/query.go:61-237 | Reading answers every request as described: each refusal in its order, the longest page otherwise, within the budget |
| Reader.ReadAndPrint | cmd/logal/query.go:237-243 | Under one budget the printer never refuses what the reader answered |
| PageWalk.PageRule | internal/query/query.go:218-236 | A page holds the next rows in order; it is truncated exactly when rows remain, then it is not empty and next_offset follows its last row |
| PageWalk.PageShows | internal/query/query.go:168-216 | Row m of a page shows row offset + m of the database: which fields are there and in which form |
| PageWalk.ColumnsShown | internal/query/query.go:133-157 | A page names the requested columns or all, without those that no row shows unless empty fields stay, in their order |
| PageWalk.PagesTile | internal/query/query.go:105-109 | Following next_offset gives every row once, in order, up to the end or to the first failing page |
| PageWalk.WalkReadsEverything | internal/query/query.go:46-48 | The walk reads the whole answer when every row fits a page of its own and the answer ends within one row of the offset cap; otherwise it stops at the cap or names a row that does not fit |
| FilterCompiler.AppendClause | internal/query/otel.go:69-92 | Appending a clause with its own arguments narrows a condition by that clause and leaves every earlier placeholder its own argument |
| FilterCompiler.SearchMeans | internal/query/otel.go:142-146 | The EXISTS search finds an entry exactly when the list holds that key with that value of that type |
| FilterCompiler.ParsedInt | internal/query/otel.go:131-136 | The decimal text of an integer is read as that integer, with or without a plus, exactly when it fits 64 bits |
| FilterCompiler.AttributeClause | internal/query/otel.go:99-147 | One KEY=VALUE filter compiles to a search for its typed value, or is refused with its reason |
| FilterCompiler.AddFilters | internal/query/otel.go:85-92 | The loop over a list of attribute filters selects the rows that match all of them, or gives the first error |
| FilterCompiler.AddNames | internal/query/otel.go:72-77 | The loop over the text filters selects the rows that match every filter that is set |
| FilterCompiler.AddWindow | internal/query/otel.go:47-71 | The time clauses select the rows in the window on the chosen time; without an end these are, for a duration d, exactly the rows at or after now - d, and for an instant those at or after it |
| FilterCompiler.Cutoff | internal/query/statements.go:17-32 | A start is read as a positive duration back from now, or as an instant in range, or refused with its reason |
| FilterCompiler.WindowRule | internal/query/otel.go:47-71 | A row is in the window exactly when its chosen time is no longer ago than the duration, or not before the instant, and before the end if there is one |
| FilterCompiler.LongerWindow | internal/query/statements.go:17-32 | A longer duration never loses a row |
| FilterCompiler.AddUntil | internal/query/otel.go:61-71 | An end of the window is compiled, or refused when it is no instant in range or not after the cutoff |
| FilterCompiler.OtelWhere | internal/query/otel.go:46-95 | The compiled condition has as many placeholders as arguments and selects exactly the rows that match the filters |
| Queries.DecodedIdIsValid | internal/query/otel.go:38-44 | An identity is accepted exactly when it is hexadecimal of the right length and not all zero bytes |
| Queries.HexRule | internal/query/otel.go:38-44 | A text is read as some bytes exactly when, in lower case, it is their hexadecimal |
| Queries.AddIds | internal/query/statements.go:47-59 | The loop over trace and span identities selects the rows with those bytes, or gives the first invalid one |
| Queries.Logs | internal/query/statements.go:34-68 | The logs query selects exactly the rows that match window, filters, level and identities |
| Queries.LevelRule | internal/query/statements.go:39-46 | The six levels, in any case, stand four apart in their order; anything else is refused |
| Queries.Spans | internal/query/spans.go:8-64 | The spans query adds identities, name, kind, status and minimum duration |
| Queries.KindRule | internal/query/spans.go:30-45 | Kinds and statuses are the positions of their names; anything else is refused |
| Queries.MetricQuery | internal/query/metrics.go:43-109 | The metrics query adds name, resource, type and temporality, and refuses views that do not fit |
| Queries.ViewRule | internal/query/metrics.go:79-108 | Points are always shown, a list or a series without payload, a rate for a name that is not blank; nothing else is a view |
| Queries.AppendSource | internal/query/spans.go:76-100 | Appending a source and its arguments to a union leaves every source with its own arguments |
| Queries.Services | internal/query/spans.go:68-103 | Each of the three sources of the union, with its slice of the one argument list, selects exactly the rows of its signal that match; no source has a column of record attributes, and the statement reads one exactly when an attribute filter is given |
| Queries.Trace | internal/query/statements.go:70-99 | Both sources of a trace select exactly the rows of that trace |
| Admission.AdmissionLimit | internal/status/status.go:145-174 | In every interleaving no more export handlers run than the limit; the permits are the counter corrected for requests between permit and count; at rest both are zero |
| Admission.RefusedWhenFull | internal/status/status.go:161-168 | A ready request is refused exactly when requests that hold a permit have used up the limit |
| Admission.CounterCanExceedLimit | internal/status/status.go:171-174 | The counter alone can exceed the limit: a request gives its permit back before it leaves the counter |
| Admission.StepsAreAcquire | internal/status/status.go:156-169 | The atomic steps of one request without interruption are the method below |
| Admission.Status.Acquire | internal/status/status.go:156-169 | Acquiring takes a permit and counts it, or counts a rejection |
| Admission.Status.Release | internal/status/status.go:171-174 | Releasing gives back one permit and one count |
| Admission.Status.Wrap | internal/status/status.go:138-154 | A wrapped request leaves permits and count as they were; it is handled exactly when it is no export, or the service is ready and below its limit |
| WriterLock.MutualExclusion | internal/store/mutex.go:15-33 | In every interleaving at most one goroutine holds the writer, and the permit is free exactly when nobody is between taking and giving it back |
| WriterLock.NobodyIsTrapped | internal/store/mutex.go:15-31 | In every interleaving a goroutine whose context has ended leaves the lock by its own steps, whoever holds the writer, and keeps no permit; one whose context is alive takes a free writer by its own steps |
| WriterLock.ContextMutex.LockContext | internal/store/mutex.go:15-31 | The lock is taken only when it was free and the context alive; an error leaves it as it was |
| Ownership.SingleOwner | internal/store/ownership.go:16-61 | For any number of processes and any interleaving of Start, failed Start, Shutdown, Reset and crashes, at most one has the database open read-write or is replacing its files |
| Ownership.GoalStays | internal/store/ownership.go:16-29 | A process keeps to its goal until it is idle again, so a reset never opens the database |
| Ownership.LockKeepsItsInode | internal/store/ownership.go:96-104 | Once it exists, the lock file keeps one inode for ever |
| Ownership.OnlyTheOwnerRemoves | internal/store/ownership.go:106-116 | Files are removed only by the process that owns the lock, and never the lock file |
| Ownership.ServedFilesStay | internal/store/ownership.go:16-61 | While a process has the database open, its main file is there and no step of any process removes, replaces or adds a database file |
| Ownership.RemovalIsComplete | internal/store/ownership.go:106-116 | A reset or replacement that has removed the last file has left none behind but the lock file |
| Ownership.FilesStayApart | internal/store/ownership.go:40-42 | Without hard links at the start no two names ever become one file |
| Ownership.UnlinkingAllowsTwoOwners | internal/store/ownership.go:103 | Removing the lock file after unlocking would allow two owners |

## Left out

What the model abstracts:

- SQLite is its standard meaning: a statement is atomic, a transaction sees its own writes, a commit applies all or nothing; pages, the WAL, VACUUM and plans are not modelled, and sizes, busy readers and free pages are arbitrary inputs.
- The hash of a payload is an arbitrary function; distinct payloads are not assumed to have distinct hashes.
- JSON text is modelled where its length matters (the result of a query); payloads are trees, and encoding a row or a column name is an arbitrary function.
- Metric values are integers and exact reals in the rate query, so the `nonfinite_rate` arm and floating-point rounding are missing.
- Counters are unbounded integers; the 64-bit wrap-around of the lifetime counters is not modelled.
- Redaction and canonicalization change trees in place in the source; they are functions on values here, so aliasing between a tree and its parts is not captured.
- Go maps visited in random order are modelled where the order could matter (the column names of a row); the children of a JSON object are visited in field order.
- Lower case is exact for the question whether a key, level or resource id equals an ASCII name, not for every letter.
- Texts are sequences of code points (UTF-8 bytes in the reader); invalid UTF-8 is not modelled.
- The parsers of durations, instants, JSON scalars and floating-point numbers are arbitrary functions; integers and hexadecimal are parsed in full.
- The OTLP rows that filters and rates read are already extracted; JSON paths and the column catalogue are not modelled.

Members whose statement is weaker than the source:

- TelemetryStore.Store.DeleteExpired: which of several expired rows received at one time leave first is SQLite's choice; the contract leaves it open, and the body takes them by id.
- TelemetryStore.RunMetrics: the check that a payload is valid JSON is missing, because payloads are trees.
- TelemetryStore.Store.Clear: comparing the database paths is one answer, so a failure to resolve the own path is not told from a mismatch.
- Export.Consume: the loops over resources and scopes are one loop over the flattened records, and depth, size and timestamp checks are one predicate of a record.
- Replay.ResentLogs: covers identity and fingerprint; the body column is not canonical, so a resent body may list its entries in another order there.
- Payloads.SpanPayloadRule: the direction from equal payloads takes the other encoded fields of a span as arbitrary JSON, so it asks that none of them is named like the events or links after it, as in every encoded span.
- Payloads.PointPayloadRule: the direction from equal payloads asks the same of the exemplars, data points and metadata of a point, and that its data stands under one of the five kinds.
- Replay.ResentSpans: the direction from equal fingerprints is for a hash that separates the two payloads and for spans as in Payloads.SpanPayloadRule.
- Replay.ResentPoints: the direction from equal fingerprints is for a hash that separates the two payloads and for points as in Payloads.PointPayloadRule.
- EnvelopePanics.LogHasPayload: the fields of a record that hold no attributes are arbitrary JSON, required not to hold malformed key/value lists themselves.
- Scanner.SingleStatement: bracket identifiers close with the doubling rule that the code uses, which is not SQLite's.
- Reader.Read: opening, connecting and preparing are one fault, and so are the end of the rows and the end of the context.
- Ownership.SingleOwner: a crash releases the lock and the database in one step, and symlink, descriptor and permission checks are arbitrary answers.

What the repository does and the model does not:

- Schema inspection, the decision whether a file may be replaced, and the migration to incremental vacuum (internal/store/schema.go).
- Size and depth limits of attribute values, other than as a predicate of a record (internal/exporter/exporter.go:266-309).
- The projection of histogram, summary and number columns of metric points beyond their identity (internal/exporter/metrics.go:166-224).
- The HTTP, gRPC and command-line plumbing, human table output, activity logging, snapshots of oldest records and scripts.
- The maintenance timer, and the time limits of queries and maintenance, other than as arbitrary context answers.
