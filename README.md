# ssb-index-feeds in Dafny

A model of the core of `ssb-index-feeds`, with proofs about it. This
Secure Scuttlebutt plugin does two things:

- It defines the **indexed-v1** feed format: a validator, the tuple/header
  accessors, and a memoised message ID.
- It runs an **index-feed writer**. For every registered query, the writer
  keeps a task that writes a reference to each matching log entry into an
  index feed.

The model has six modules:

| file | module | models |
|---|---|---|
| `js.dfy` | `Js` | The JavaScript values the core handles: primitives, arrays, buffers, and objects as ordered field lists. Also property reads and writes, truthiness, `===`, `Object.keys`, and completions that return or throw. A `Ref` class is a mutable reference. |
| `foreign.dfy` | `Foreign` | The libraries the core calls but does not implement. They are total functions held in a record, and every property is proved for every choice of them. |
| `msg_id.dfy` | `MsgId` | `getMsgId`: the URL-safe hash of the header's 2-space JSON, under the `ssb:message/indexed-v1/` prefix. The module-level cache is a class whose map is keyed by reference. |
| `format.dfy` | `Format` | The feed-format accessors. `fromDecryptedNativeMsg` is a method, because it changes the header in place. |
| `validation.dfy` | `Validation` | The validator: every rule as a function, and `validateSync` as a fixed pipeline of eleven rules that returns the first failure. `validateBatch` is a loop, proved against a recursive specification. |
| `index_writer.dfy` | `IndexWriter` | The state inside `init`: `tasks`, `taskCount`, `tasksDoneWithOld`, `doneOldListeners` and the shared indexes meta-feed promise, as the fields of class `Writer`. It also holds the cursor rule, the content of an index entry and the sentinel handling. |

The writer records what it does in an append-only `effects` list: aborts,
callback calls, warnings and publishes. Each method's contract gives that
list exactly, in order. `Writer.Valid()` states four invariants, and every
operation preserves them:

- There is at most one task per canonical query ID, and the tasks are kept
  in the order they were set up.
- Drainers are numbered from 1 up to `taskCount`.
- No listener waits on a query that has already caught up.
- Every callback `doneOld` accepted has been called or is still queued, in
  the order accepted. Ghost maps `requested` and `answered` carry this
  ledger.

In three places the code behaves in a way a reader may not expect. The
model follows the code in each.

- **Shape of a tuple.** `validateShape` recurses into the first element of a
  2-element array (validation.js:15-21). So a pair whose first element is
  itself a well-formed pair passes the shape rule. The author rule rejects
  it afterwards, because an array has no `author`.
- **`start` for a query that already has a task.** A second `start` is not
  a no-op. The code still looks up the subfeed and calls back with it, and
  then `schedule` warns (index.js:71-78, 213-216).
- **The author check in `start`.** This is described below under
  "## Findings".

## Model

| member | source | states |
|---|---|---|
| Validation.FirstMissing | validation.js:28-48 | returns nothing iff every listed field is defined; otherwise it returns the missing-field error for the first undefined field, and every field before it is defined |
| Validation.ValidateShape | validation.js:14-49 | an array of any length but 2 is rejected as not a pair; a non-array passes iff it is an object with the seven required fields defined; a header's error is the first missing field in order author, previous, sequence, timestamp, hash, content, signature |
| Validation.ShapeAcceptsIff | validation.js:14-49 | the shape rule passes exactly on a header with every required field, or on a pair whose first element passes |
| Validation.ValidateHmac | validation.js:199-215 | passes iff the key is falsy, or is a 32-byte buffer, or is a string that equals the base64 re-encoding of its decoding and decodes to 32 bytes; the string-or-buffer error is returned exactly for other truthy keys |
| Validation.EncodedKeyPasses | validation.js:199-215 | a 32-byte key passes both as a buffer and as its base64 text, whenever the codec decodes that text back to the key |
| Validation.ValidateAuthor | validation.js:51-55 | passes iff `author` is an indexed-v1 feed URI |
| Validation.ValidateHash | validation.js:156-161 | passes iff `hash` is exactly the string `sha256` |
| Validation.ValidateTimestamp | validation.js:149-154 | passes iff `timestamp` is a number |
| Validation.ValidatePrevious | validation.js:108-117 | when the prior header has no truthy `id`, passes iff `previous` is the computed ID of that header; for a primitive `id`, passes iff `previous` equals the truthy `id`, or the computed ID when `id` is falsy |
| Validation.ValidateSequence | validation.js:133-147 | reports a non-integer sequence exactly when `sequence` is not an integer, and passes iff `sequence` is an integer equal to the prior header's `sequence + 1` |
| Validation.SequenceFollowsPrior | validation.js:133-147 | after a prior header with sequence n, exactly the entries with sequence n + 1 pass |
| Validation.ValidateFirstPrevious | validation.js:119-124 | the first entry of a feed passes iff `previous` is `null` |
| Validation.ValidateFirstSequence | validation.js:126-131 | the first entry of a feed passes iff `sequence` is 1 |
| Validation.ValidateChain | validation.js:245-251 | the chaining branch returns only chaining errors, and it throws only when a truthy prior entry has a nullish header |
| Validation.ChainAcceptsIff | validation.js:108-147 | the chaining branch passes exactly when the prior header exists, `previous` is its expected ID and `sequence` is its sequence + 1; with no prior entry the first-entry rules apply |
| Validation.ValidateOrder | validation.js:83-106 | reports the count error iff there are not exactly seven keys, and passes iff the keys are `previous, author, sequence, timestamp, hash, content, signature`, or the same with author and sequence swapped |
| Validation.OrderIsPermutationOfRequired | validation.js:83-106 | an accepted key order is a permutation of the seven required fields that puts `previous` first and keeps the last four in place |
| Validation.ValidateContent | validation.js:163-197 | passes iff the content is a string ending in `.box` or `.box2`, or an object whose `type` is exactly `metafeed/index` and whose `indexed` is a message ref; arrays and falsy values get their own errors, and only content errors are returned |
| Validation.ValidatePayload | validation.js:217-224 | a falsy payload passes; otherwise the entry passes iff `content.indexed` is the payload's classic message ID |
| Validation.ValidateAsJson | validation.js:226-232 | passes iff the 2-space JSON of the header is at most 8192 characters |
| Validation.ValidateSignature | validation.js:57-81 | passes iff the signature is a string that ends in `.sig.ed25519`, is canonical base64, is 100 characters long, and verifies against the author; a mismatch error implies that the string, suffix, canonical-base64 and length checks passed |
| Validation.RunRules | validation.js:234-257 | a rule list accepts iff every rule accepts; otherwise it returns the verdict of the first rule that does not accept, and every rule before that one accepted |
| Validation.ValidateSyncReportsFirstFailure | validation.js:234-257 | `validateSync` accepts iff every rule of its fixed order accepts, and otherwise returns the outcome of the first rule that fails |
| Validation.RuleReturnsOwnErrors | validation.js:14-232 | each rule returns only errors that belong to it |
| Validation.ErrorNamesFailedRule | validation.js:234-257 | an error returned by `validateSync` identifies its rule: that rule produced it, and every rule before it in the order passed |
| Validation.AcceptedPassesShapeAndChain | validation.js:234-251 | an accepted entry has the required shape and passes the chaining rules against its prior entry |
| Validation.AcceptsIffEveryRulePasses | validation.js:234-257 | `validateSync` accepts iff every rule, in any order, accepts |
| Validation.CheckAcceptsIff | validation.js:14-232 | each rule accepts exactly when its stated requirement holds |
| Validation.ValidateSyncAcceptsIff | validation.js:234-257 | `validateSync` accepts exactly the entries that meet every rule's requirement |
| Validation.ChainDeterminesLink | validation.js:108-147 | two entries accepted after the same prior entry have the same `previous` and the same `sequence` |
| Validation.RunBatchIsFirstFailure | validation.js:267-276 | a batch accepts iff each entry accepts against its predecessor (the first against the given prior entry; an empty batch accepts); otherwise the result is the verdict of the first entry that fails |
| Validation.ValidateBatch | validation.js:267-276 | the loop returns the recursive batch verdict: Accept iff each entry passes `validateSync` against the entry before it, and otherwise the first failing entry's error |
| Validation.BatchSequencesConsecutive | validation.js:267-276 | in an accepted batch after a prior entry with sequence s (or none, s = 0), entry i has sequence s + i + 1 |
| Format.IsAuthorAgreesWithValidator | format.js:14-16 | `isAuthor` accepts an author value exactly when the validator's author rule accepts an entry with that author |
| Format.IsNativeMsg | format.js:18-26 | a pair is native iff its header's author is an indexed-v1 URI and its payload is `null` or a classic native message; any other value is judged by its own `author`; it throws exactly when the header read is nullish |
| Format.GetFeedId | format.js:28-31 | returns the `author` of a bare header, or of the first element of a tuple |
| Format.GetSequence | format.js:33-36 | returns the `sequence` of a bare header, or of the first element of a tuple |
| Format.AccessorsIgnoreTupling | format.js:28-36 | both accessors give the same result for a header and for the pair of that header with any payload |
| Format.NewNativeMsg | format.js:44-48 | throws only for nullish options; otherwise returns a pair of the classic header and `opts.payload`, or `null` when that is falsy |
| Format.FromNativeMsg | format.js:50-58 | for `js` (also the default) returns the header, unwrapping a tuple; any other encoding throws |
| Format.ToNativeMsg | format.js:72-79 | the identity for `js`; any other encoding throws |
| Format.NativeRoundTrip | format.js:50-79 | converting a header to native form and back gives the header, and a tuple converts to its header |
| Format.WithContentTouchesOnlyContent | format.js:60-69 | the header with new content reads the new content, reads every other property as before, and keeps its key order when `content` already existed |
| Format.FromDecryptedNativeMsg | format.js:60-69 | for `js`, replaces the content of the referenced header in place with the parsed plaintext and returns that header; other encodings and unparsable plaintext throw and change nothing |
| MsgId.ReplaceAll | get-msg-id.js:15-17 | the result has the input's length, with every occurrence of the character replaced and every other character kept |
| MsgId.UrlSafe | get-msg-id.js:15-17 | maps each `+` to `-` and each `/` to `_`, keeps every other character, and leaves no `+` or `/` |
| MsgId.MsgIdOf | get-msg-id.js:13-17 | the ID starts with `ssb:message/indexed-v1/`, has no `+` or `/` after that prefix, and is as long as the prefix plus the hash |
| MsgId.IdSuffixIsUrlSafeHash | get-msg-id.js:15-17 | character i after the prefix is the URL-safe form of character i of the hash of the header's JSON |
| MsgId.TupleAndHeaderShareId | get-msg-id.js:13-14 | a tuple and its bare header have the same ID |
| MsgId.MsgIdCache.constructor | get-msg-id.js:7 | the cache starts empty |
| MsgId.MsgIdCache.GetMsgId | get-msg-id.js:9-20 | a hit returns the cached ID and leaves the cache unchanged; a miss returns the computed ID and adds exactly that entry; a coherent cache stays coherent and then returns the computed ID |
| MsgId.MsgIdCache.GetMsgIdTwice | get-msg-id.js:9-20 | two calls on the same reference return the same ID, and they add at most that one entry |
| IndexWriter.Without | index.js:88 | deleting a query keeps exactly the tasks of every other query, and leaves no task for it |
| IndexWriter.WithoutKeepsOrder | index.js:88 | deleting a query's task keeps the remaining tasks distinct and in the order they were set up |
| IndexWriter.DrainerOf | index.js:267 | the drainer found for a query is the one registered under it |
| IndexWriter.ScheduleKeepsOneTaskPerQuery | index.js:67-94 | after `schedule` the query has a task, there is still one task per query, and drainers are numbered up to `taskCount`; scheduling the same query again changes neither `tasks` nor `taskCount`, and only warns |
| IndexWriter.QueueKeepsBalance | index.js:238-240 | queuing a callback keeps every accepted callback called or queued, in order |
| IndexWriter.AnswerKeepsBalance | index.js:235-236 | answering a callback at once, for a query with nothing queued, keeps the ledger balanced |
| IndexWriter.ReleaseKeepsBalance | index.js:150-156 | releasing a query's queue answers exactly the callbacks still owed and keeps the ledger balanced |
| IndexWriter.LatestSequence | index.js:117-129 | an empty index feed resumes after 0; otherwise, when `value.content.indexed` exists and its `key` resolves to a message, the cursor is that message's `sequence`; a failed lookup is reported as a lookup error; a TypeError comes exactly from a nullish `value`, `content`, `indexed` or resolved message |
| IndexWriter.IndexContent | index.js:159-162 | throws exactly when the entry or its `value` is nullish; otherwise returns an object with keys `type, indexed`, with type `metafeed/index` and with `indexed` holding the entry's key and sequence |
| IndexWriter.CursorReadsBackPublishedEntry | index.js:117-129 | resuming from an index entry that the writer published for a message gives that message's own sequence as the cursor |
| IndexWriter.OldScan | index.js:136-137 | the old scan yields only sequences above the cursor, and no more entries than the log |
| IndexWriter.OldScanSelects | index.js:136-137 | a sequence is scanned iff it is in the log and above the cursor |
| IndexWriter.ResumeScansTheRest | index.js:117-137 | in an increasing log, resuming after entry k scans exactly the entries after it, so nothing is skipped or indexed twice |
| IndexWriter.FreshScanCoversLog | index.js:117-137 | from cursor 0, the scan covers the whole log of positive sequences |
| IndexWriter.NextPromise | index.js:189-200 | the indexes meta-feed promise is created on first use and then fixed; it resolves iff it had resolved before, or it is new and its lookup succeeds |
| IndexWriter.ForeignAuthorAnsweredTwice | index.js:183-216 | as written, a valid query for another author gets two callback calls, the author error and then the subfeed, and a task is set up |
| IndexWriter.StartCheckedAnswersOnce | index.js:176-219 | with a return after the author error, `start` calls its callback at most once, and exactly once unless it waits on a rejected meta feed; it schedules only the local author's queries, and only after handing over the subfeed |
| IndexWriter.Writer.constructor | index.js:61-65 | the registry starts with no tasks, a count of 0, no caught-up queries and no listeners, and is valid |
| IndexWriter.Writer.Schedule | index.js:67-94 | a new query gets one task whose drainer is numbered `taskCount + 1`, and the count goes up by one; a known query only warns; the invariants hold and nothing else changes |
| IndexWriter.Writer.TaskEnded | index.js:80-91 | a task that ends with an error warns and removes just that query's task; one that ends cleanly changes nothing |
| IndexWriter.Writer.Stop | index.js:247-270 | an invalid query or one without a task only warns; otherwise stop aborts that query's drainer and removes just its task |
| IndexWriter.Writer.DoneOld | index.js:225-242 | an invalid query gets an error; a caught-up query's callback is called at once and the queue is untouched; otherwise the callback is appended to that query's queue |
| IndexWriter.Writer.CatchUp | index.js:150-157 | the sentinel marks the query caught up, deletes its queue and calls each queued listener once, in order; after this every callback accepted for the query has been answered |
| IndexWriter.Writer.Release | index.js:154-156 | calls each listener once with no error, in order, and changes nothing else |
| IndexWriter.Writer.WriteToIndexFeed | index.js:149-166 | a nullish entry throws; the sentinel runs the catch-up; any other entry publishes its index content, or throws when it has no `value`; a throw changes neither the effects, the caught-up set nor the listeners; the caught-up set only grows, and `tasks`, `taskCount` and the meta-feed promise are untouched |
| IndexWriter.Writer.Teardown | index.js:273-278 | aborts every task in insertion order, then leaves `tasks` empty |
| IndexWriter.Writer.OpenAndSchedule | index.js:189-218 | waits for the shared indexes meta feed; a rejected one leaves `cb` uncalled; a lookup error is passed to `cb`; a found subfeed is passed to `cb` and then scheduled |
| IndexWriter.Writer.CheckAuthor | index.js:183-186 | reports the foreign-author error to `cb` when the query's author is not the local feed, and changes nothing else |
| IndexWriter.Writer.Start | index.js:176-219 | `start` as written: an invalid query gets one error; otherwise the author-error call, when owed, comes first, followed by the open-and-schedule step |
| IndexWriter.Writer.StartChecked | index.js:176-219 | `start` with the return after the author error: the callback outcomes are those of `StartCheckedAnswersOnce`, only the local author's queries are scheduled, and the meta-feed promise advances only for a valid query of the local author |

## Left out

- The pull-stream pipeline and its `pull-cat` merge, and the `batch(75)` and `live()` database queries (index.js:98-168) are not modelled. The last index message, the result of `sbot.db.get` and each streamed entry are parameters of the operations that use them.
- The failure of the query for the last index message (index.js:109-112) is not modelled: it is stream plumbing before the cursor rule.
- `sbot.db.publishAs` is not performed. It is recorded as a `Publish` effect, and its completion callback is not modelled.
- `metafeeds.findOrCreate` and the promise chain around it are not performed. They are two parameters: whether the indexes meta feed resolves, and how the subfeed lookup ends. The find predicate and the options of a new feed are not modelled.
- QL0's `validate`, `parse`, `stringify` and `isEquals` are abstract functions. Parsing the metadata query inside `schedule` is assumed not to throw.
- The other foreign libraries are total functions: ssb-uri2, ssb-ref, ssb-keys, ssb-classic, is-canonical-base64, `JSON` and `Buffer`. Exceptions thrown inside them are not modelled.
- Autostart (index.js:41-55), `debug` output and `console.warn` text are not modelled. Warnings are kept as constructors without their text.
- Error messages are constructors without their text. The author in some of them is not kept.
- The ID a found subfeed is scheduled under comes from the lookup's own metadata query (index.js:68-69, 216), not from the `query` passed to `start`. The find predicate, which ties the two together through `QL0.isEquals`, is not modelled, so no contract says that `start(query)` leads to a task under the canonical form of `query`.
- The checks at index.js:32-37 for missing `ssb-db2` and `ssb-meta-feeds` are not modelled: they concern the plugin environment.
- The callback wrapper `validate` (validation.js:259-265) and `toPlaintextBuffer` are not modelled. Both are one-line adapters outside the named core.
- Numbers are mathematical reals. NaN, infinities and floating-point rounding are not modelled, for example in `prev.sequence + 1` above 2^53.
- The 8192 limit counts Dafny characters. JavaScript counts UTF-16 code units.
- JavaScript objects are ordered lists of own fields. Prototypes, getters, integer-like keys and object identity are not modelled, and `===` never holds between two objects. References are modelled only where the source depends on them: the message-ID cache and the in-place content update.
- Asynchronous interleaving is not modelled. Each operation runs to completion, so a second `start` cannot run between the `await` and the subfeed lookup, and a listener cannot call back into the registry during its release.
- The property that the writer's own index entries pass the validator is not modelled. They fail it: index.js:161 writes `indexed` as an object, and validation.js:192 requires a message-ref string.
- The old scan is not over database records. It is modelled on a list of integer sequence numbers, with the strict comparison made by `gt(latestSequence, 'sequence')`.
- `fn.apply(this, args)` in the close hook is not modelled. It hands control back to the closing server.
- Validation.ValidatePrevious: computes the expected ID with `MsgId.MsgIdOf` and not through the cache. The two agree while the cache is coherent, as `MsgIdCache.GetMsgId` proves. A header changed in place after being cached, for example by `fromDecryptedNativeMsg`, breaks that coherence.
- IndexWriter.Writer.TaskEnded: the error value is reduced to a flag. An abort without an error ends cleanly and removes nothing.

## Findings

| source | as written | input that shows it | evidently intended | confidence | as-written member | corrected member |
|---|---|---|---|---|---|---|
| index.js:183-186 | after the callback gets the foreign-author error, `start` goes on: it looks up the subfeed, calls the callback a second time with it, and schedules a task | a valid query whose author is not the local feed, with the indexes meta feed and the subfeed lookup both succeeding | a `return` after the error, as in the invalid-query branch above it: one callback call and no task | not executed | IndexWriter.ForeignAuthorAnsweredTwice | IndexWriter.StartCheckedAnswersOnce |

`IndexWriter.Writer.Start` models the code as written and `IndexWriter.Writer.StartChecked` the corrected form. The contract of each names its reply function.
