# ddb-to-es sync engine, modelled in Dafny

This project models the sync engine of `ddb-to-es`. The engine forwards
DynamoDB stream records to Elasticsearch. `DDBToES.sync` splits a batch of
stream records into chunks of `bulkSize` records (100 by default). For each
chunk, `getESBody` turns every record into at most one removal or one upsert:

- a REMOVE record becomes a removal;
- an INSERT or MODIFY record becomes an upsert when its unwrapped new image is
  not empty;
- any other record becomes nothing.

The chunk's intents are assembled into one bulk body: all delete descriptors
first, then an index descriptor and a document per upsert. The body is
serialized as newline-delimited JSON. A non-empty body is sent through
`exponentialBackoff`, which retries the bulk call up to `maxRetry` times (3 by
default). Between calls it waits a jittered delay below
`min(1000, 100 * 2^attempts)` ms. The bulk call rethrows a failure with no
status, or with status 502, 503 or 504, so that it is retried. It returns any
other failure as `{error}`. `sync` pushes one result per chunk with a
non-empty body. A failure that exhausts its retries is pushed as `{error}`, and
later chunks are still processed.

Files, one module each:

- `wrappers.dfy` (`Wrappers`): the optional value that stands for `undefined`.
- `attributes.dfy` (`Attributes`): the `AttributeValue` union and a recursive
  decoder standing for `unmarshall`. It also holds property lookup and
  deletion on decoded objects, and the text a value turns into when it is
  appended to a string.
- `utils.dfy` (`Utils`): `chunkArray`, the backoff delay and
  `exponentialBackoff`. `Chunks`, `Calls` and `Retried` are specification
  functions. `ChunkArray` and `ExponentialBackoff` are the loops, proved
  against those functions.
- `intents.dfy` (`Intents`): stream records, the document id, the unwrapped
  document, and the removal or upsert each record yields.
- `bulk.dfy` (`Bulk`): body assembly, the NDJSON payload with its line
  structure, and the classification of the HTTP outcome. It also holds the
  body as line 22 actually builds it (see Findings).
- `sync.dfy` (`SyncEngine`): the settings, the `DDBToES` class (`Sync`,
  `GetESBody` and `Unwrap` as methods with loops), and the specification of
  `sync`'s results.

The network is an input. `http(c, k)` is how the k-th POST made for chunk `c`
ends: a response, or a failure with an optional status. `random(c, k)` is the
value `Math.random` returns for the wait after that call. The caller's
`setIndex` is a function parameter. `JSON.stringify` is a function parameter
wherever the payload is built.

In three places the model follows the code where a reader might expect otherwise:

- A status of 0 is retried like a missing status, because the test is
  `!status`.
- `setIndex` receives the new image for REMOVE records too.
- The first wait is bounded by 200 ms rather than 100 ms, because `attempts`
  has already been incremented when the delay is computed.

In two places the model uses the evidently intended behaviour. The code as
written is modelled beside it, and both cases are listed under Findings:

- Upserts carry their routed index and key id into the body. As written,
  line 84 pushes only the document.
- The chunk size must be positive for a non-empty batch. As written, a
  negative `bulkSize` makes `sync` loop forever.

## Model

| member | source | states |
|---|---|---|
| `Attributes.Decode` | src/types.ts:5-16 | decoding follows the tag. A string, number, binary or boolean keeps its exact content; a number keeps its decimal text, as `wrapNumbers` asks at src/index.ts:96. NULL decodes to null. A list decodes element by element, a map field by field under the same names and in the same order, and a set member by member. Only the three set tags decode to a set |
| `Attributes.DecodeEncode` | src/types.ts:5-16 | decoding undoes encoding on every value a well-formed attribute can decode to, so no decoded content is lost or altered |
| `Attributes.EncodeDecode` | src/types.ts:5-16 | encoding undoes decoding on every well-formed attribute (NULL carries true, sets are non-empty), so different well-formed attributes never decode to the same value |
| `Attributes.Unmarshall` | src/index.ts:95-97 | the decoded object has one field per image attribute, with the same name, the decoded value and the same order |
| `Attributes.Lookup` | src/index.ts:22 | reading a property is absent exactly when no field has that name; otherwise it is the value of a field with that name |
| `Attributes.RemoveField` | src/index.ts:100-102 | deleting a property keeps exactly the fields with another name and never adds fields |
| `Utils.ChunkArray` | src/utils.ts:1-5 | the `for` loop that advances by `chunkSize` and pushes slices returns exactly `Chunks(items, chunkSize)`; it requires a positive size unless the input is empty, the only cases in which the source loop ends |
| `Utils.ChunksFlatten` | src/utils.ts:1-5 | concatenating the chunks gives back the input, in order |
| `Utils.ChunksSizes` | src/utils.ts:3 | every chunk is non-empty and at most `size` long, and every chunk but the last is exactly `size` long |
| `Utils.ChunksCount` | src/utils.ts:2-4 | the number of chunks is ceil(n / size), the fewest chunks of `size` that hold n elements; an empty input gives no chunks and only an empty input does |
| `Utils.ChunkIndexAfter` | src/utils.ts:3 | as written, the loop index after any number of turns stays at or below 0 for a size of 0 or less, and is at least the number of turns for a positive size |
| `Utils.ChunkLoopNeverEnds` | src/utils.ts:3 | as written, for a size of 0 or less and a non-empty input, the test `i < array.length` holds after every turn, so the loop never ends |
| `Utils.DelayCap` | src/utils.ts:7-9 | the ceiling `min(1000, 100 * 2^attempts)` lies between 100 and 1000 ms |
| `Utils.Fraction` | src/utils.ts:8 | a random fraction in [0, 1) of a positive ceiling is at least 0 and below the ceiling |
| `Utils.Delay` | src/utils.ts:7-9 | the jittered wait is at least 0, below the ceiling for that attempt count, and below 1000 ms |
| `Utils.DelayCapGrowth` | src/utils.ts:8 | the ceiling doubles from one to three attempts, equals the 1000 ms cap from four attempts on, and never shrinks |
| `Utils.CallsFrom` | src/utils.ts:14-24 | counting calls from a given point never goes back below the calls already made |
| `Utils.Calls` | src/utils.ts:11-29 | the operation is called at least once |
| `Utils.CallsBounds` | src/utils.ts:11-29 | between 1 and `maxAttempts + 1` calls are made (one for a negative budget); every call before the last failed; the promise settles as the last call did; a rejection means the whole budget was used |
| `Utils.AlwaysFailing` | src/utils.ts:19-20 | if every call fails, exactly `maxAttempts + 1` calls are made (one when the budget is 0) and the promise rejects with the last call's error |
| `Utils.FirstSuccess` | src/utils.ts:16-17 | the first call that succeeds within the budget settles the promise with its value, and no later call is made |
| `Utils.ExponentialBackoff` | src/utils.ts:11-29 | the retry loop makes exactly `Calls(fn, maxAttempts)` calls and settles as the last one did; it waits once between consecutive calls, and the wait after call j is `Delay(j + 1, random(j))` |
| `Attributes.JoinAppend` | src/index.ts:75 | joining one more piece appends the separator and that piece |
| `Attributes.TextOfList` | src/index.ts:75 | string conversion of an array: an empty array gives "", a single element gives its own piece, and each further element adds "," and its piece; a null element's piece is empty |
| `Attributes.TextOfScalars` | src/index.ts:75 | string conversion of a string, number or binary value is its text; null gives "null", booleans "true" and "false"; a set gives "[object Set]" and an object "[object Object]" |
| `Attributes.TextOfListExample` | src/index.ts:75 | the array `[null, "a", 1.5]` converts to ",a,1.5" |
| `Intents.Concat` | src/index.ts:75 | `reduce` with `concat` from "" over the keys, for any per-key text, starts with the first key's text |
| `Intents.ConcatSnoc` | src/index.ts:75 | one more key appends exactly its own text, as one step of the `reduce` |
| `Intents.ConcatAppend` | src/index.ts:75 | the fold over two runs of keys is the fold over the first run followed by the fold over the second |
| `Intents.KeyId` | src/index.ts:74-75 | the id, the `reduce` with `concat` over the decoded key values in key order, starts with the first key's text (the whole id is stated by `Intents.KeyIdIsKeyTexts`) |
| `Intents.KeyIdOfOneKey` | src/index.ts:75 | a single key of any kind (string, number or binary) gives exactly its own text as the id |
| `Intents.KeyTexts` | src/index.ts:75 | the key texts laid end to end, first key first, start with the first key's text |
| `Intents.KeyIdIsKeyTexts` | src/index.ts:74-75 | for every key map, the id is exactly the concatenation of every key's text in key order, whatever the key kinds |
| `Intents.KeyIdSnoc` | src/index.ts:75 | one more key appends exactly its own decoded text to the id |
| `Intents.KeyIdAppend` | src/index.ts:75 | the id of a key map is the ids of its parts concatenated, so each key value appears at its place in key order |
| `Intents.KeyIdOfStringKey` | src/index.ts:75 | a single string key gives its own text as the id |
| `Intents.KeyIdOfStringKeys` | src/index.ts:75 | a hash and range key of strings give the two texts concatenated, hash first |
| `Intents.Stripped` | src/index.ts:99-102 | the stripped document keeps exactly the fields whose names are not SequenceNumber, SizeBytes or StreamViewType |
| `Intents.StrippedByDeletes` | src/index.ts:100-102 | the three deletes in sequence leave exactly the stripped fields, in order |
| `Intents.Unwrapped` | src/index.ts:92-107 | `unwrap` is null exactly when there is no image or every decoded field is a housekeeping field; otherwise the document is non-empty and holds exactly the non-housekeeping decoded fields |
| `Intents.RemovalOf` | src/index.ts:73-80 | a record yields a removal exactly when its event name is REMOVE; the removal's index is `setIndex(OldImage, NewImage)` and its id the key id |
| `Intents.UpsertOf` | src/index.ts:73-85 | a record yields an upsert exactly when it is an INSERT or MODIFY whose new image unwraps to a document; the upsert carries the routed index, the key id and that document |
| `Intents.AtMostOneIntent` | src/index.ts:77-86 | each record yields at most one intent, and a record with any other event name yields none |
| `Intents.CollectAppend` | src/index.ts:72-87 | collecting each record's contribution over two runs of records gives the first run's pieces followed by the second's |
| `Intents.IntentsOfOne` | src/index.ts:72-87 | a single record yields exactly its own removal or upsert |
| `Intents.IntentsAppend` | src/index.ts:72-87 | removals and upserts of concatenated record runs are the concatenations, so each kind keeps input record order |
| `Intents.IntentsBound` | src/index.ts:72-87 | there are never more removals plus upserts than records |
| `Intents.IgnoredRecords` | src/index.ts:77-86 | records whose event name is none of REMOVE, MODIFY or INSERT yield no intent at all |
| `Intents.RemoveExample` | src/index.ts:73-79 | a REMOVE record keyed `{id: "42"}` yields exactly the removal of "42" from the routed index |
| `Intents.HousekeepingOnlyInsert` | src/index.ts:83-84 | an INSERT whose new image holds only a housekeeping field yields no intent |
| `Bulk.DeleteEntries` | src/index.ts:21 | one delete descriptor per removal, carrying its index and id, in removal order |
| `Bulk.UpsertEntries` | src/index.ts:22 | two entries per upsert: its index descriptor (routed index and key id) immediately followed by its document, in upsert order |
| `Bulk.BuildBody` | src/index.ts:20-23 | the body has removals + 2 * upserts entries; it is empty exactly when there are no intents; its delete descriptors are exactly its first entries, one per removal in order, and they are followed by the index/document pairs in upsert order |
| `Bulk.Serialized` | src/index.ts:41 | one serialized line per body entry |
| `Bulk.Payload` | src/index.ts:41 | the payload is never empty and ends in a newline |
| `Bulk.NewlineAt` | src/index.ts:41 | the position found is the first newline, or the end when there is none |
| `Bulk.PayloadLines` | src/index.ts:41 | for a non-empty body, the payload's lines are exactly the entries' serializations, one per entry and in order, when no serialization contains a raw newline |
| `Bulk.BulkCall` | src/index.ts:56-64 | a bulk call rejects exactly when the HTTP call failed with no status or with status 0, 502, 503 or 504, rethrowing that error; any other failure resolves as `{error}`; a response resolves as `{data}` |
| `Bulk.AsWrittenUpsertEntries` | src/index.ts:22 | as written, each upsert entry yields a descriptor whose `_index` and `_id` are the document's own `index` and `id` properties, followed by its `body` property |
| `Bulk.AsWrittenUpsertLosesRouting` | src/index.ts:84 | for a document without `index`, `id` and `body` properties, the as-written entries are an empty descriptor and an absent document, where the intended entries carry the routed index, the key id and the document |
| `Bulk.Docs` | src/index.ts:84 | the documents line 84 pushes, one per upsert and in order |
| `Bulk.AsWrittenBodyLength` | src/index.ts:20-25 | the as-written body has as many entries as the intended one, so it is empty exactly when the intended body is, and the same chunks are sent |
| `Bulk.AsWrittenExample` | src/index.ts:84 | the same discrepancy on a document `{title: "a"}` routed to "books" under id "42" |
| `SyncEngine.ChunkSize` | src/index.ts:15 | `bulkSize \|\| 100`: an absent or zero size gives 100, and any other size is kept |
| `SyncEngine.CheckedChunkSize` | src/index.ts:15 | the checked chunk size is refused exactly when `bulkSize` is negative; otherwise it is `bulkSize \|\| 100`, which is positive |
| `SyncEngine.CheckedChunking` | src/utils.ts:1-5 | with a checked size, the chunks laid end to end give back the records, no chunk is empty or longer than the size, and only the last chunk may be shorter |
| `SyncEngine.NegativeBulkSizeNeverEnds` | src/index.ts:15 | as written, `bulkSize: -1` reaches `chunkArray` as a size of -1, the loop test holds after every turn on one record, and the checked size refuses that configuration |
| `SyncEngine.MaxRetry` | src/index.ts:27 | the budget is 3 only when `maxRetry` is absent, so an explicit 0 is kept |
| `SyncEngine.Settle` | src/index.ts:27-33 | a resolved call is pushed as it resolved, and a rejection is pushed as `{error}` with the rejecting error |
| `SyncEngine.BusyChunks` | src/index.ts:25 | no more chunks have a non-empty body than there are chunks |
| `SyncEngine.SyncResultsCount` | src/index.ts:25-34 | there is exactly one result per chunk with a non-empty body, whatever the HTTP outcomes, so there are never more results than chunks |
| `SyncEngine.SyncResultAt` | src/index.ts:17-35 | the result of each chunk with a non-empty body sits after those of the earlier such chunks and is what that chunk's own retried call settled to, so an earlier failure never stops a later chunk |
| `SyncEngine.TerminalFailure` | src/index.ts:56-64 | a failure with a status other than 0, 502, 503 or 504 gets exactly one call and is recorded as `{error}` |
| `SyncEngine.TransientThenSuccess` | src/index.ts:27 | two 503 failures then a response, with a budget of at least 2, give exactly 3 calls and the response's `{data}` |
| `SyncEngine.PersistentTransientFailure` | src/index.ts:27-33 | when every call fails retryably, `maxRetry + 1` calls are made (one when `maxRetry` is 0) and the last error is recorded as `{error}` |
| `SyncEngine.Classified` | src/index.ts:72-87 | handling one more record appends exactly that record's contribution to the removals and upserts |
| `SyncEngine.ChunkProcessed` | src/index.ts:17-35 | handling one more chunk appends exactly that chunk's results |
| `SyncEngine.DDBToES.constructor` | src/index.ts:9-11 | the engine keeps the settings it is given |
| `SyncEngine.DDBToES.Sync` | src/index.ts:13-38 | the chunk loop returns exactly `SyncResults` over the chunks of the records, at most one result per chunk, and never fails for bulk errors; it requires a checked chunk size unless there are no records (see Findings) |
| `SyncEngine.DDBToES.GetESBody` | src/index.ts:68-90 | the record loop returns exactly the removals and the upserts of the records, each in record order |
| `SyncEngine.DDBToES.Unwrap` | src/index.ts:92-107 | decoding and then deleting the three housekeeping properties returns exactly `Unwrapped(image)` |

## Left out

- The POST itself is not modelled: URL and `refresh` flag, headers, basic
  auth, `httpsAgent` (src/index.ts:44-53). Its outcome is the input
  `http(c, k)`. That outcome does not depend on the payload, and
  `Bulk.Payload` models line 41 on its own.
- Promises and `setTimeout` are not modelled. `exponentialBackoff` is a
  synchronous loop: the waits are computed, but no time passes.
- `Math.random` is an input in [0, 1). Floating-point arithmetic is modelled as
  exact real arithmetic, so rounding is not modelled.
- `unmarshall` is a recursive decoder, not the library's code. Sets keep their
  members as listed (a JS `Set` would drop duplicates). Binary values keep
  their text.
- Numbers keep their decimal text whether or not `wrapNumbers` is set. So
  `KeyId` does not model how JS prints a number (`"1.50"` becomes `"1.5"`). Nor
  does it model that, without `wrapNumbers` (src/index.ts:74), numbers
  outside the safe integer range become BigInt values, or make `unmarshall`
  throw when that conversion fails.
- A malformed attribute (no tag, or an unknown one) makes `unmarshall` throw.
  The `AttributeValue` datatype cannot express one, so that error path is not
  modelled.
- Attributes.TextOfScalars: a number prints as its stored decimal text. This
  matches JS only when that text is already in canonical form. At
  src/index.ts:74 the keys are decoded without `wrapNumbers`, so a key number
  prints as JS prints it: "1.50" prints "1.5" and "1e2" prints "100".
- Attributes.TextOfListExample: uses a number whose text is already canonical
  ("1.5"). A non-canonical one such as "1.50" would print as written, which
  src/index.ts:75 does not do.
- Attributes.Unmarshall: images and key maps are association lists, so they
  may repeat a name, which a JS object cannot. On such an image, `Unmarshall`
  keeps every field, `Lookup` returns the first value where JS keeps the last,
  and `KeyId` appends every value. These results have no counterpart in the
  source, and stream images never repeat a name.
- The `data.constructor.name !== 'Object'` check (src/index.ts:104) is not
  modelled. Decoding a map always yields an object here.
- JS enumerates integer-like property names first, in ascending order. The
  model enumerates keys in the image's own order.
- In the source, a record without `dynamodb` or `Keys` throws. The model's
  record type always has both.
- A `setIndex` or `JSON.stringify` that throws is not modelled. Both are total
  function parameters.
- `bulkSize` and `maxRetry` are integers or absent. NaN, fractional values and
  a `null` `maxRetry` are not modelled.
- SyncEngine.DDBToES.Sync: requires the chunk size to be checked. A negative
  `bulkSize` with a non-empty batch, on which the source never returns, is
  covered only by `SyncEngine.NegativeBulkSizeNeverEnds` (see Findings).
- SyncEngine.DDBToES.GetESBody: pushes `Upsert(index, id, document)`, which
  carries the routed index and the key id. src/index.ts:84 pushes the bare
  document (see Findings). `Sync`'s results are unaffected, because only
  whether a body is empty reaches them, and `Bulk.AsWrittenBodyLength` shows
  that the as-written body has the same length.
- Bulk.BuildBody: builds each upsert's index descriptor from its routed index
  and key id, not from the document's own `index` and `id` properties as
  src/index.ts:22 does with what line 84 pushes.
  `Bulk.AsWrittenUpsertEntries` models the as-written entries.
- The `ignore` setting (src/types.ts:43) is not modelled: no code reads it.
  `esRefresh` and the `es` endpoint and credentials are not modelled: they only
  shape the request.
- Per-item failures inside a successful bulk response are not inspected, as in
  the source.

## Findings

| source | as written | input that shows it | evidently intended | confidence | as-written member | corrected member |
|---|---|---|---|---|---|---|
| src/index.ts:84 | `getESBody` pushes only the unwrapped document as the upsert entry. Line 22 then reads `doc.index`, `doc.id` and `doc.body` from that document. | An INSERT of `{title: "a"}` routed to index "books" with key id "42". Its descriptor gets no `_index` and no `_id`, and its document line is `undefined`, which joins as an empty line. | Push `{index, id, body}`, so that the descriptor carries the routed index and the key id and the next line is the document. | high; not executed | `Bulk.AsWrittenUpsertLosesRouting` | `Bulk.UpsertEntries` |
| src/utils.ts:3 | `sync` hands `bulkSize \|\| 100` to `chunkArray`, which keeps a negative size. The loop adds that size to `i`, so `i < array.length` never fails and `sync` never returns. | `bulkSize: -1` and one record. | Refuse a chunk size of 0 or less before chunking, in configuration validation. | high; not executed | `SyncEngine.NegativeBulkSizeNeverEnds` | `SyncEngine.CheckedChunkSize` |

The rest of the model uses the corrected upsert entry `Upsert(index, id, doc)`
and the checked chunk size. The upsert is built in `Intents.UpsertOf` and
`SyncEngine.DDBToES.GetESBody`, and laid out in the body by
`Bulk.UpsertEntries` and `Bulk.BuildBody`. `Bulk.AsWrittenUpsertEntries` and
`Utils.ChunkIndexAfter` keep the as-written behaviour for comparison.
