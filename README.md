# go-url-shortener core, modelled in Dafny

This project models the core of the go-url-shortener service and proves properties of that model.

- **Map stores.** The URL store keeps a map from short code to record. It has two map-backed implementations: in memory, and file-backed with a whole-map snapshot after every mutation.
- **Deletion queue.** It buffers deletion tasks and hands the whole buffer to the store on every timer tick and on cancellation.
- **Shortener service.** It draws codes from a generator, calls the store and joins batch results with their correlation ids.
- **Postgres store, pure parts.** The multi-row INSERT text, its argument list and the `{...}` array literal, and how SaveURL classifies the database's answer.
- **Compression decision.** The gzip response writer: whether the Content-Type is compressible, the Content-Encoding header and the choice of sink.

Files:

- `domain.dfy`: records, requests, tasks and the error values.
- `url_table.dfy`: the semantics both map stores share, as functions. These are SaveOne, SaveMany, DeleteCodes and ApplyTasks, with the lemmas about them: deduplication by original URL, the distinct-URL invariant, batch order, and owner-scoped soft deletion.
- `in_memory_storage.dfy` and `file_storage.dfy`: the stores as classes whose map field their methods update in place. The mutating methods and FindByOriginalURL are proved against the functions in `url_table.dfy`; the getters, Ping, the constructors, ParseFromFile and SaveToFile are specified on the map field directly.
- `delete_url_queue.dfy`: the queue as a class with `pending`, `tasks`, `storeCalls` and `logs`. It also holds the state machine Flush/Step/Run that the class methods are proved against, and lemmas about runs of events.
- `shortener.dfy`: the service as a class that records its store calls, with the correlation table and the batch join.
- `go_strings.dfy`: `strings.Index`, `strings.Join` and `%d`, each with an inverse or a reference reading: SplitOn for Join, ParseDecimal for `%d`, and the first-occurrence characterisation of IndexOf.
- `database_storage.dfy`: the statement builder and SaveURL's classification.
- `compress.dfy`: the media-type test and the `CompressWriter` class.

Behaviours of the code the model keeps as written:

- **Code collisions.** The map stores never check whether the proposed short code is already a key. A new URL whose code collides overwrites that entry, and no ShortURLConflict is raised; only the Postgres store reports one.
- **The buffer is never cleared.** After a successful flush the queue reassigns `q.tasks = q.tasks[0:]`, which keeps every element, so the next tick re-submits the same tasks.
- **Cancellation does not stop the loop.** The cancellation branch of the consumer loop flushes and keeps looping.
- **Map-store records have no owner.** The in-memory and file stores write a new record with the empty owner id `""` (internal/storage/in_memory_storage.go:66-70, internal/storage/file_storage.go:81-85), while user ids are generated UUIDs (internal/services/user.go:16). So a real user's deletion never flags a record these stores saved, and their GetURLsByUserID never returns one for a real user. UrlTable.SavedRecordUntouchedByOwnerDeletion states the first half.

## Model

| member | source | states |
|---|---|---|
| UrlTable.FindOriginal | internal/storage/in_memory_storage.go:48-56 | some record with the URL is found exactly when one is stored; it is a stored record with that URL |
| UrlTable.FindOriginalUnique | internal/storage/in_memory_storage.go:48-56 | when original URLs are distinct, the lookup of a stored record's URL yields that record |
| UrlTable.SaveOne | internal/storage/in_memory_storage.go:59-75 | the returned record carries the request's original URL |
| UrlTable.SaveOneSpec | internal/storage/in_memory_storage.go:59-75 | conflict iff the URL is stored; a conflict returns a stored record and leaves the table unchanged; a new URL is written only at the proposed code, with id = size + 1, owner "" and not deleted, and other keys are unchanged |
| UrlTable.SaveOnePreservesDistinct | internal/storage/in_memory_storage.go:60-70 | saving keeps "no two records share an original URL" |
| UrlTable.SaveOnePreservesKeysMatch | internal/storage/in_memory_storage.go:66-70 | saving keeps "every record is stored under its own code" |
| UrlTable.SaveTwiceSameRecord | internal/storage/in_memory_storage.go:60-64 | a second save of the same URL returns the first save's record (same code) with URLConflict and changes nothing |
| UrlTable.SaveMany | internal/storage/in_memory_storage.go:78-92 | a batch returns one record per request |
| UrlTable.SaveManySnoc | internal/storage/in_memory_storage.go:81-89 | a batch with one more request is the shorter batch followed by one save |
| UrlTable.SaveManyOriginals | internal/storage/in_memory_storage.go:81-89 | record i of a batch carries request i's original URL |
| UrlTable.SaveManyExtend | internal/storage/in_memory_storage.go:81-89 | one loop round extends the saved prefix by one request and keeps URLs distinct |
| UrlTable.SaveManyPreservesDistinct | internal/storage/in_memory_storage.go:78-92 | a batch keeps original URLs distinct |
| UrlTable.CodesFreshTail | internal/storage/in_memory_storage.go:81-89 | after the first save of a batch with fresh codes, the rest still has fresh codes, and every stored record is kept |
| UrlTable.SaveManyKeepsRecords | internal/storage/in_memory_storage.go:81-89 | without code collisions, a batch keeps every stored record |
| UrlTable.SaveManyRecordsStored | internal/storage/in_memory_storage.go:81-89 | without code collisions, every returned record is in the final table |
| UrlTable.SaveManyReturnsStoredAt | internal/storage/in_memory_storage.go:81-89 | a request whose URL was already stored gets the stored record |
| UrlTable.SaveManyReturnsStored | internal/storage/in_memory_storage.go:78-92 | the same, for every request of the batch |
| UrlTable.SaveManyRepeatsFirst | internal/storage/in_memory_storage.go:81-89 | a later request with the first request's URL gets the first request's record |
| UrlTable.SaveManyDedupAt | internal/storage/in_memory_storage.go:81-89 | a later duplicate URL in a batch gets the earlier duplicate's record |
| UrlTable.SaveManyDedup | internal/storage/in_memory_storage.go:78-92 | the same, for every pair of duplicates |
| UrlTable.DeleteOne | internal/storage/in_memory_storage.go:97-104 | one loop round: the key is written, flagged deleted, exactly when the record read there belongs to the caller; every other key is unchanged |
| UrlTable.DeleteCodes | internal/storage/in_memory_storage.go:95-108 | deletion removes no key, changes nothing but deletion flags, never clears a flag, and leaves unlisted keys unchanged |
| UrlTable.ApplyTasks | internal/storage/in_memory_storage.go:111-126 | running the tasks removes no key, changes nothing but deletion flags and never clears a flag |
| UrlTable.DeleteCodesAt | internal/storage/in_memory_storage.go:95-108 | a key is flagged deleted exactly when it is listed and the record read there belongs to the caller; a missing key is added only then; nothing else changes |
| UrlTable.DeleteCodesScoped | internal/storage/in_memory_storage.go:95-108 | unlisted records and records of other owners are unchanged; listed records of the caller get the deletion flag |
| UrlTable.ApplyTasksAt | internal/storage/in_memory_storage.go:111-126 | after the tasks, a record is flagged exactly when some task lists it on behalf of its owner |
| UrlTable.ApplyTasksIdempotent | internal/storage/in_memory_storage.go:111-126 | applying the same tasks twice is applying them once |
| UrlTable.ApplyTasksAppend | internal/storage/in_memory_storage.go:111-126 | applying concatenated task lists is applying one list after the other |
| UrlTable.DeleteCodesKeepsInvariants | internal/storage/in_memory_storage.go:95-108 | for a non-empty caller id, deletion keeps the key set, distinct URLs and codes-as-keys |
| UrlTable.DeleteMissingAsEmptyUser | internal/storage/in_memory_storage.go:97-104 | deleting two missing codes from an empty table on behalf of the empty id adds two deleted zero records, which breaks both invariants |
| UrlTable.SavedRecordUntouchedByOwnerDeletion | internal/storage/in_memory_storage.go:66-70 | a record saved for a new URL is left exactly as saved, not deleted, by a deletion of its code on behalf of any non-empty user id |
| InMemory.InMemoryStorage.constructor | internal/storage/in_memory_storage.go:17-23 | the store starts empty |
| InMemory.InMemoryStorage.GetByShortURL | internal/storage/in_memory_storage.go:26-32 | the record exactly when the code is a key; otherwise URLNotFound |
| InMemory.InMemoryStorage.GetURLsByUserID | internal/storage/in_memory_storage.go:35-45 | exactly the records of the given owner, each read once from a distinct key; never an error |
| InMemory.InMemoryStorage.FindByOriginalURL | internal/storage/in_memory_storage.go:48-56 | a stored record with that URL iff one exists; otherwise the zero record and URLNotFound; agrees with FindOriginal under distinct URLs |
| InMemory.InMemoryStorage.SaveURL | internal/storage/in_memory_storage.go:59-75 | conflict iff the URL is stored, with a stored record and the map unchanged; otherwise the new record is written at the code; equals SaveOne under distinct URLs |
| InMemory.InMemoryStorage.SaveSeveralURL | internal/storage/in_memory_storage.go:78-92 | never fails; one record per request with its URL, in order; under distinct URLs the result and the new map are SaveMany's, and distinctness is kept |
| InMemory.InMemoryStorage.DeleteByShortURLs | internal/storage/in_memory_storage.go:95-108 | the new map is DeleteCodes of the old one; never fails |
| InMemory.InMemoryStorage.DoDeleteURLTasks | internal/storage/in_memory_storage.go:111-126 | the new map is ApplyTasks of the old one; never fails |
| InMemory.InMemoryStorage.Ping | internal/storage/in_memory_storage.go:129-131 | always available |
| FileBacked.FileStorage.constructor | internal/storage/file_storage.go:20-37 | saving is on iff the path is non-empty and the file opened; the map is the parsed file when saving, else empty; nothing saved yet |
| FileBacked.FileStorage.ParseFromFile | internal/storage/file_storage.go:169-181 | a decoded file's entries are merged into the map, each replacing the entry under its key; a failed read or decode leaves the map |
| FileBacked.FileStorage.SaveToFile | internal/storage/file_storage.go:183-191 | one snapshot of the whole current map is written |
| FileBacked.FileStorage.GetByShortURL | internal/storage/file_storage.go:41-47 | the record exactly when the code is a key; otherwise URLNotFound |
| FileBacked.FileStorage.GetURLsByUserID | internal/storage/file_storage.go:50-60 | exactly the records of the given owner, each once; never an error |
| FileBacked.FileStorage.FindByOriginalURL | internal/storage/file_storage.go:63-71 | a stored record with that URL iff one exists, else URLNotFound; agrees with FindOriginal under distinct URLs |
| FileBacked.FileStorage.SaveURL | internal/storage/file_storage.go:74-93 | as the in-memory SaveURL; a conflict saves nothing, a new record is saved once iff saving is on |
| FileBacked.FileStorage.InsertMissing | internal/storage/file_storage.go:100-110 | one batch round: a stored URL yields its record and no change; otherwise the new record is written at the code |
| FileBacked.FileStorage.SaveSeveralURL | internal/storage/file_storage.go:96-120 | never fails; one record per request, in order; one snapshot after the whole batch iff saving is on; under distinct URLs the result is SaveMany's |
| FileBacked.FileStorage.DeleteByShortURLs | internal/storage/file_storage.go:123-140 | the new map is DeleteCodes of the old one, saved once iff saving is on; never fails |
| FileBacked.FileStorage.DoDeleteURLTasks | internal/storage/file_storage.go:143-162 | the new map is ApplyTasks of the old one, saved once iff saving is on; never fails |
| FileBacked.FileStorage.Ping | internal/storage/file_storage.go:165-167 | always available |
| DeleteQueue.Flush | internal/services/delete_url_queue.go:59-71 | an empty buffer calls nothing and returns no error; otherwise one store call with the whole buffer, the store's error returned, a success logged with the count; the buffer is unchanged either way |
| DeleteQueue.FlushAndLog | internal/services/delete_url_queue.go:43-50 | a tick or cancellation with a non-empty buffer makes one store call with the whole buffer and logs one line, the count on success or the store's error; with an empty buffer it does neither; the buffer and the channel are unchanged |
| DeleteQueue.Step | internal/services/delete_url_queue.go:40-51 | one select loses no task, store call or log line; a received task moves from the head of the channel to the end of the buffer |
| DeleteQueue.Run | internal/services/delete_url_queue.go:35-53 | over any run of events, tasks only move from the channel to the end of the buffer in order; store calls and log lines are only appended |
| DeleteQueue.StepKeepsCallsNested | internal/services/delete_url_queue.go:39-52 | every store call is a prefix of the buffer and of every later call, and one event keeps this |
| DeleteQueue.RunKeepsCallsNested | internal/services/delete_url_queue.go:35-53 | the same over any run of events |
| DeleteQueue.RunAppend | internal/services/delete_url_queue.go:39-52 | running two event sequences one after the other is running their concatenation |
| DeleteQueue.ReceiveTasks | internal/services/delete_url_queue.go:41-42 | n task events move the first n pending tasks to the end of the buffer and make no store call |
| DeleteQueue.OneTickFlushesAll | internal/services/delete_url_queue.go:41-50 | pushed tasks, received and then flushed by one tick, reach the store in one call in push order |
| DeleteQueue.EmptyTickIsIdle | internal/services/delete_url_queue.go:60-62 | a tick or cancellation with an empty buffer changes nothing |
| DeleteQueue.CancellationFlushesBuffer | internal/services/delete_url_queue.go:43-46 | cancellation submits the whole buffer, and the loop still receives tasks afterwards |
| DeleteQueue.SuccessfulTicksResubmit | internal/services/delete_url_queue.go:68-70 | two successful ticks with no task in between submit the same batch twice |
| DeleteQueue.DeleteURLQueue.constructor | internal/services/delete_url_queue.go:26-33 | capacity is maxWorker; the channel and the buffer are empty |
| DeleteQueue.DeleteURLQueue.Push | internal/services/delete_url_queue.go:55-57 | a send adds exactly the task at the end of the channel when there is room |
| DeleteQueue.DeleteURLQueue.DoDeleteTasks | internal/services/delete_url_queue.go:59-71 | the new state and the error are Flush's |
| DeleteQueue.DeleteURLQueue.Select | internal/services/delete_url_queue.go:40-51 | one select is Step, and the channel bound is kept |
| DeleteQueue.DeleteURLQueue.Start | internal/services/delete_url_queue.go:35-53 | the loop over a run of events is Run |
| Shortener.BatchDtos | internal/services/shortener.go:59-64 | one save request per input |
| Shortener.BatchDtosAt | internal/services/shortener.go:59-64 | request i has input i's URL, the i-th code drawn and the caller's id |
| Shortener.Correlations | internal/services/shortener.go:59-66 | the table has at most one entry per input, and at least one for a non-empty batch |
| Shortener.CorrelationsKeys | internal/services/shortener.go:59-66 | the correlation table's keys are exactly the inputs' URLs |
| Shortener.CorrelationsLastWins | internal/services/shortener.go:59-66 | a URL maps to the correlation id of its last occurrence |
| Shortener.JoinBatch | internal/services/shortener.go:74-82 | one answer per stored record |
| Shortener.JoinBatchAt | internal/services/shortener.go:76-81 | answer i copies record i's code and URL and takes the table's id for that URL, or "" if absent |
| Shortener.JoinRecoversCorrelationAt | internal/services/shortener.go:74-84 | with distinct input URLs and matching records, answer i carries input i's correlation id |
| Shortener.JoinFindsCorrelation | internal/services/shortener.go:74-84 | with distinct input URLs, whichever record carries input i's URL gets input i's correlation id, whatever order the store answers in |
| Shortener.JoinRecoversCorrelations | internal/services/shortener.go:74-84 | the same for every input |
| Shortener.BatchOverMapStore | internal/services/shortener.go:55-85 | over a map store, a batch with distinct URLs answers every input in order, with its own URL and correlation id |
| Shortener.JoinRecords | internal/services/shortener.go:74-82 | the result loop computes JoinBatch |
| Shortener.ShortenerService.constructor | internal/services/shortener.go:33-43 | nothing drawn, called or handed off yet |
| Shortener.ShortenerService.Draw | internal/services/shortener.go:46 | the next code of the generator |
| Shortener.ShortenerService.ShortURL | internal/services/shortener.go:45-53 | one code drawn; one SaveURL call with (url, that code, userID); the store's answer unchanged |
| Shortener.ShortenerService.ShortBatchURL | internal/services/shortener.go:55-85 | one code per input; one SaveSeveralURL call with the requests in input order; on a store error no result and that error, otherwise the join of the records with the correlation table |
| Shortener.ShortenerService.GetByShortURL | internal/services/shortener.go:87-89 | one store call; its answer unchanged |
| Shortener.ShortenerService.GetUserURLs | internal/services/shortener.go:91-93 | one store call; its answer unchanged |
| Shortener.ShortenerService.DeleteURLs | internal/services/shortener.go:95-102 | exactly one task with the caller's codes and id goes to the queue; never fails |
| Shortener.ShortenerService.GetInternalStats | internal/services/shortener.go:104-106 | one store call; its answer unchanged |
| Shortener.ShortenerService.Ping | internal/services/shortener.go:108-110 | one store call; its answer unchanged |
| GoStrings.IndexOf | internal/middlewares/compress.go:51 | -1 iff the character is absent; otherwise the position of its first occurrence |
| GoStrings.IndexOfAfter | internal/middlewares/compress.go:51 | in a character-free part followed by the character, the first occurrence is right after the part |
| GoStrings.JoinSnoc | internal/storage/database_storage.go:154 | joining one more part appends the separator and that part |
| GoStrings.SplitOnAfter | internal/storage/database_storage.go:154 | cutting after a separator-free part gives that part and then the cut of the rest |
| GoStrings.SplitJoin | internal/storage/database_storage.go:154 | cutting at every separator undoes joining parts that do not contain it |
| GoStrings.DigitChar | internal/storage/database_storage.go:133 | a digit character with the given value |
| GoStrings.Decimal | internal/storage/database_storage.go:133 | %d prints a non-empty string of digits with no leading zero |
| GoStrings.DecimalRoundTrip | internal/storage/database_storage.go:133 | parsing the printed digits gives back the number |
| GoStrings.DecimalInjective | internal/storage/database_storage.go:133 | different numbers print differently |
| DatabaseSql.InsertArgs | internal/storage/database_storage.go:139 | three arguments per request |
| DatabaseSql.InsertArgsBind | internal/storage/database_storage.go:139 | arguments 3i, 3i+1, 3i+2 are request i's code, URL and user id |
| DatabaseSql.Originals | internal/storage/database_storage.go:140 | one URL per request |
| DatabaseSql.OriginalsAt | internal/storage/database_storage.go:140 | entry i is request i's URL |
| DatabaseSql.PlaceholderRoundTrip | internal/storage/database_storage.go:133 | a placeholder is `$` followed by the digits of its number |
| DatabaseSql.DigitRunOf | internal/storage/database_storage.go:133 | a printed number followed by a non-digit ends where its digits end |
| DatabaseSql.TupleShape | internal/storage/database_storage.go:133 | a tuple is `($`, its first parameter number, then the rest |
| DatabaseSql.TupleInjective | internal/storage/database_storage.go:133 | no two requests get the same tuple |
| DatabaseSql.ArrayLiteralElements | internal/storage/database_storage.go:154 | the literal is braced and, when no URL contains a comma, its elements are the requests' URLs in input order |
| DatabaseSql.PartialSnoc | internal/storage/database_storage.go:133-137 | writing the next tuple, and a comma unless it is the last, extends the statement by one tuple |
| DatabaseSql.TuplesSnoc | internal/storage/database_storage.go:132-133 | the tuples for n+1 requests are those for n followed by tuple n |
| DatabaseSql.PartialNext | internal/storage/database_storage.go:133-137 | one loop round turns the text after i tuples into the text after i+1, with no trailing comma after the last |
| DatabaseSql.PartialDone | internal/storage/database_storage.go:143 | after the last round no separator is pending before the suffix |
| DatabaseSql.BuildSaveSeveral | internal/storage/database_storage.go:125-154 | the loop builds exactly the prefix, the comma-separated tuples and the suffix, the 3n arguments, and the select-back literal |
| DatabaseSql.ClassifySaveURL | internal/storage/database_storage.go:93-113 | no error iff a row came back with the proposed code; a row with another code comes back with RowConflict; SQLSTATE 23505 gives ShortURLConflict; any other error is passed through |
| Compress.MediaType | internal/middlewares/compress.go:48-53 | the part of Content-Type before its first `;`, or all of it |
| Compress.Compressible | internal/middlewares/compress.go:47-60 | a compressible Content-Type starts with a listed type; one without parameters is compressible exactly when it is listed |
| Compress.AnnouncedHeader | internal/middlewares/compress.go:22-30 | Content-Encoding is set to the format iff compressible; nothing else changes |
| Compress.CompressibleMeansListedType | internal/middlewares/compress.go:47-60 | compressible iff Content-Type is a listed type, alone or followed by `;` and parameters |
| Compress.ParametersIgnored | internal/middlewares/compress.go:48-53 | parameters after the media type never change the decision |
| Compress.GzipCompressesJson | internal/middlewares/compress.go:47-60 | a gzip writer compresses `application/json;charset=utf-8` |
| Compress.GzipSkipsPlainText | internal/middlewares/compress.go:47-60 | a gzip writer does not compress `text/plain` |
| Compress.AnnounceIdempotent | internal/middlewares/compress.go:22-30 | announcing twice is announcing once |
| Compress.CompressWriter.NewGzipWriter | internal/middlewares/compress.go:70-80 | the types are exactly JSON and HTML and the format is "gzip" |
| Compress.CompressWriter.Writer | internal/middlewares/compress.go:62-68 | the compressing sink iff compressible |
| Compress.CompressWriter.SetHeader | internal/middlewares/compress.go:28 | one header entry set |
| Compress.CompressWriter.WriteHeader | internal/middlewares/compress.go:22-30 | the header becomes AnnouncedHeader, and the code is always forwarded once |
| Compress.CompressWriter.Write | internal/middlewares/compress.go:34-36 | the chunk goes to the sink writer() selects, and that sink's answer is returned |

## Left out

- File contents and JSON: the file store's bytes and `encoding/json` are not modelled. ParseFromFile takes the decoded map, or None, as a parameter; a snapshot is one entry appended to `saves`.
- A partially decoded file is not modelled: parseFromFile either merges the whole decoded map or leaves the map.
- SQL execution: the transaction, ExecContext, QueryContext, row iteration, Commit, bootstrap DDL, and the Postgres store's GetOriginalURLByShortURL, GetURLsByUserID and Ping are calls into the database. Only the statement, the arguments, the literal and SaveURL's classification are modelled. The database's answer to SaveURL is the RowOutcome parameter.
- Concurrency: the channel, the goroutine that runs Start, the `go` hand-off in DeleteURLs and unsynchronised map access are modelled as one sequence of discrete events.
- The ticker and the context are modelled as Tick and Cancelled events. What the store answers a flush is part of the event.
- DeleteQueue.DeleteURLQueue.Push: a send on a full channel blocks in Go until the consumer receives. Here it is refused and reported, because blocking is not sequential behaviour.
- The shortener's DeleteURLs records the task in `handedOff`; the queue that receives it is `delete_url_queue.dfy`.
- The logger's text, "Successfully did %d delete url tasks", is modelled as the count `Done(n)`; an error line as `Failed(err)`.
- Random codes: GenerateRandom is the parameter `generate: nat -> string` with a draw counter. Base62 encoding is not part of this model.
- GetInternalStats: every store implements it (internal/storage/storage_fabric.go:19), but no store's implementation is among the files modelled here. The service passes through whatever answer it is given.
- The store interfaces behind the service are call logs with the store's answer as a parameter. The service is not wired to a particular store, except in Shortener.BatchOverMapStore.
- Compression: the gzip streams, Close and the middleware's Handler (request decompression, Accept-Encoding) are left out. So is the canonicalisation of header keys.
- HTTP and gRPC handlers, auth, JWT, config, logging, the static-analysis tool and the older `internal/app` tree are left out; the latter's compress code is the same as the modelled one.
- DatabaseSql.ArrayLiteralElements: stated only for URLs without commas. The literal is written without quoting, so a URL containing a comma is read back as several elements. SplitOn is also a simplified reading of Postgres array input: in an unquoted element `"`, `\`, `{` and `}` are special too, surrounding blanks are dropped and `NULL` means a null element; none of these is modelled.
- UrlTable.SaveManyKeepsRecords, SaveManyRecordsStored, SaveManyReturnsStored, SaveManyDedup: stated only for batches whose proposed codes are fresh and pairwise distinct. A colliding code overwrites a stored record.
- Methods that rely on Go map iteration order: the stores' FindByOriginalURL picks some record with the URL. It is tied to UrlTable.FindOriginal only while original URLs are distinct, because only then is there one candidate.
- InMemory.InMemoryStorage.SaveSeveralURL and FileBacked.FileStorage.SaveSeveralURL: they are equal to SaveMany only while original URLs are distinct. The per-request URL and the one-record-per-request facts hold always.
- The empty-owner case of deletion is kept as written: a missing code deleted on behalf of the user id "" writes a deleted zero record. UrlTable.DeleteMissingAsEmptyUser shows it.
- domain.ErrShortURLConflict (internal/domain/errors.go:9) has no value in the model: none of the modelled operations returns it.
- Integer widths: ids, counts and placeholder numbers are unbounded integers; Go's `int` does not overflow at these sizes.
