# Evaluation tooling: models and proofs

This project models the algorithmic parts of the evaluation tooling and proves what they promise.
`dafny verify dfyconfig.toml` checks all of it.

Code that changes things step by step is imperative here too: classes with the source's fields, loops
with invariants, each method tied to a function or predicate on values; what the source promises is then
proved about those. Concurrency is a machine whose steps may come in any order. Random draws, orders in
which tasks complete, request failures and thread interleavings are arbitrary, so every result holds for
all of them. The JSON grammar and metric computation are function parameters.

- `dispatch.dfy`, `requests.dfy`: the continuous-feed dispatcher. What an attempt does is a table over
  (item, index, attempt). Every step of the scheduler keeps the invariant and lowers a measure, the
  results of any finished run are those of a sequential retry loop whatever the schedule and the limit,
  and a run aborts exactly when some item's verdict is a terminal failure. `RunResults` is the source's
  loop and takes only steps of that machine.
- `reporter.dfy`: the throttled status reporter. Lock sections are atomic steps, everything between
  them may interleave, and a send or a thread start may fail at any point. Every call is recorded with its
  time, and which calls claim the slot is stated on those records.
- `reservoir.dfy`: Algorithm R over a shard, and a count over all draw sequences: every row is kept
  equally often, and so is every set of rows.
- `balance.dfy`: the round-based balanced sampler; a record stands for its position in the list.
- `sampling.dfy`: the two-pass samplers of a JSONL file, compared with loading it whole first; `text.dfy`
  has the two ways of trimming a line that matter there.
- `native_ids.dfy`, `extract.dfy`: unique row ids with a cached counter, line offsets, request lookups,
  rows and batches.
- `upload.dfy`: the send protocol with its retries, against the ingest service of
  `dashboard/api`, whose artifact, task-result and instance handling is modelled as a function on its
  stored state. For a plan whose task files are all among its artifacts, that "unchanged" is only answered
  when all rows are stored is proved from that function; for other plans it is false (below).
- `schema_emit.dfy`: the depth-first schema-to-class generator, with a log of when each class is entered
  and written, from which the order of the classes is read off; `annotations.dfy` reads the texts it writes
  back as Python type annotations.
- `pass_at_k.dfy`, `downsample.dfy`: pass@k and pass^k, and averaging into time buckets, over the reals.
- `collections.dfy`: optional values and facts about sequences and sets.

Where a promise does not hold of the code as it stands, the exact condition is proved instead:

- Two-pass sampling parses the second time without stripping the line
  (`src/olmo_eval/data/helmet_loader.py:106-109`, `:152-155`), and the documentation says the result is
  that of a full load. `strip` removes more characters than the JSON parser skips. `RowsMatchFullLoad` and
  `KeyedMatchesFullLoad` say that the results agree exactly when no line that is parsed twice has one of the
  other characters at its ends; a line that ends in a vertical tab is an input where sampling raises
  (`VerticalTabRaises`).
- With every key sampled, keyed sampling drops kept rows whose key is None; the uncapped branch keeps
  them. `CapAboveKeysIsNoCap` says when the two answers agree: exactly when there is no such row and the
  lines have plain ends. `KeylessRowIsDropped` is an input where they do not.
- A task may name a predictions file that `collect_artifacts` skipped: a symbolic link, a file over 5 GiB,
  or one past the first 10,000 (`src/olmo_eval/upload/uploader.py:241-261`). The service then hashes no
  checksum for it, or an old one. `TellsWhenCovered`: what the service hashes tells a task's files apart
  exactly when every file the task names is signed for. Otherwise a changed file is answered "unchanged" and
  the old rows stay (`SkippedFileIsMissed`, and `LargeFileKeepsOldRow` for one such input). `Send` is proved
  for plans that cover their tasks' files (`Covered`), which a caller can check before sending.
- Ids are cut to 512 characters before they are made unique, so a file keeps its ids exactly when they
  are distinct and have 1 to 512 characters (`IdsKept`); `RepeatedIdChanges` and `LongIdIsCut` are inputs
  where it does not.
- A dispatcher limit below one starts nothing and returns blank results; `RunResults` and
  `DispatchRequests` say so.
- A request reads back as failed when all its attempts raised, or when the provider itself marked every
  output of the attempt that returned (`MarkedExactlyWhenFailed`; `MarkedByProvider` is such an input).
- A negative number of shots makes the balanced sampler fail with an index error exactly when some
  label's count does not divide the (negative) number of rounds (`BalanceLabels`; two records of one label
  and -1 shots in `MinusOneShot`).
- An optional property is meant to admit None. The generator looks for "None" between bars anywhere in the
  text of its type, in brackets too, and then adds nothing. `FieldReads` says when the property admits None;
  `NoneInBrackets` is an input where it does not.

These assumptions are part of the statements. `Upload.Honest`: the plan is true to the local files. Each
artifact has its file's checksum, a path occurs once, and a task's rows, with distinct ids and as many as
announced, depend on the request and the checksums of its files alone, as they do when they are extracted
from files that their checksums identify (`RowsOfFiles`: the files' bytes determine the rows, their distinct ids
and their number). A request that reaches the service more than once does so before the client's next
request. `Sampling.Reader.Sane`: no JSON value begins or ends with white space. `SchemaEmit.Book`: references
resolve, inline class names do not collide, and no alias leads back to itself without passing through a
class. The last is stated by a rank for each alias; `RanksExist` and `RankedHasNoCycle` show that it is the
same.

## Model

| member | source | states |
|---|---|---|
| `Dispatch.Dispatcher.constructor` | src/olmo_eval/inference/dispatch.py:38-49 | a new dispatcher has zero statistics and has called nothing back |
| `Dispatch.Dispatcher.RunResults` | src/olmo_eval/inference/dispatch.py:55-133 | aborts exactly when some item's sequential verdict is terminal; otherwise result i has index i and reports what the last attempt of item i did, and the retries counted are the attempts of all the sequential loops less one for each item; callbacks and statistics agree; on an abort no attempt is left running, each being settled or cancelled and then awaited, and no result was reported for the failed item |
| `Dispatch.Dispatcher.TopUp` | src/olmo_eval/inference/dispatch.py:82-88 | starts attempts in queue order until the limit is reached or the queue is empty, by steps of the machine |
| `Dispatch.Dispatcher.Settle` | src/olmo_eval/inference/dispatch.py:106-123 | a completed attempt is either queued again or recorded, counted and reported; the invariant holds and the work left falls |
| `Dispatch.Dispatcher.TakeOutcomes` | src/olmo_eval/inference/dispatch.py:96-123 | the outcomes of any non-empty set of tasks are settled one by one, lowering the work left, until one is terminal; then the run ends as `AbortedAt` says |
| `Dispatch.Dispatcher.StopSiblings` | src/olmo_eval/inference/dispatch.py:101-103 | of the tasks started, exactly those still in flight end up awaited, the others stay settled, and none is live |
| `Dispatch.Dispatcher.CancelAll` | src/olmo_eval/inference/dispatch.py:101-102 | exactly the live siblings become cancelled |
| `Dispatch.Dispatcher.Gather` | src/olmo_eval/inference/dispatch.py:103 | only cancelled siblings are awaited, and all of them |
| `Dispatch.Dispatcher.FirstAttempts` | src/olmo_eval/inference/dispatch.py:74 | the queue begins with every item once, in order, at attempt 0 |
| `Dispatch.StartKeeps` | src/olmo_eval/inference/dispatch.py:83-88 | starting an attempt keeps the invariant |
| `Dispatch.RetryKeeps` | src/olmo_eval/inference/dispatch.py:106-109 | queueing a retry keeps the invariant |
| `Dispatch.RecordKeeps` | src/olmo_eval/inference/dispatch.py:110-123 | recording a result keeps the invariant |
| `Dispatch.StepWorks` | src/olmo_eval/inference/dispatch.py:81-123 | every step, in whatever order, keeps the invariant and lowers the weighted number of attempts left |
| `Dispatch.RunKeeps` | src/olmo_eval/inference/dispatch.py:81-123 | the invariant holds after every run, and a run has at most two steps per possible attempt |
| `Dispatch.InvFacts` | src/olmo_eval/inference/dispatch.py:81-123 | conservation: completed, queued and in flight add up to the total, the queue grew by the retries, the limit holds, progress was counted 1, 2, ... and failures are the failed calls |
| `Dispatch.RunningTask` | src/olmo_eval/inference/dispatch.py:90-97 | a running attempt is within the retry limit, leads to its item's verdict, and its item has not been reported |
| `Dispatch.AttemptsInOrder` | src/olmo_eval/inference/dispatch.py:74-88 | every first attempt starts before any retry, and no item is tried more than max_retries + 1 times |
| `Dispatch.NeverStuck` | src/olmo_eval/inference/dispatch.py:81-123 | with a limit of at least one, a run that is not over can go on |
| `Dispatch.QuietResults` | src/olmo_eval/inference/dispatch.py:81-133 | when nothing is queued or running, no verdict is terminal and every result is its item's verdict |
| `Dispatch.QuietFailures` | src/olmo_eval/inference/dispatch.py:114-115 | at the end, failed is the number of results with an error |
| `Dispatch.QuietRetries` | src/olmo_eval/inference/dispatch.py:106-109 | at the end, the attempts made are those of the sequential loops, all told |
| `Dispatch.SpentIs` | src/olmo_eval/inference/dispatch.py:106-112 | an item takes at most max_retries + 1 attempts; all before the last raised, and the last did not or was the last allowed; the verdict is what it did |
| `Dispatch.ScheduleIndependence` | src/olmo_eval/inference/dispatch.py:70-133 | any two finished runs over the same outcomes, under any schedules and limits, have the same results and the same statistics |
| `Dispatch.SequentialIgnoresLimit` | src/olmo_eval/inference/dispatch.py:83 | the verdict of an item does not depend on max_in_flight |
| `Dispatch.TerminalVerdict` | src/olmo_eval/inference/dispatch.py:96-104 | a terminal failure that surfaces is its item's verdict: it is never retried |
| `Dispatch.BlankUntilRecorded` | src/olmo_eval/inference/dispatch.py:71 | results are blank as long as nothing was recorded |
| `Requests.DispatchRequests` | src/olmo_eval/inference/utils.py:17-44 | outputs in request order: what the first returning attempt returned, or one empty output marked with the kind and message of the last error, of which it has the first 500 characters and an ellipsis if it has more; a terminal failure propagates |
| `Requests.RaisedIffEveryAttempt` | src/olmo_eval/inference/dispatch.py:106-112 | the verdict is an error exactly when every allowed attempt raised |
| `Requests.VerdictIsAnAttempt` | src/olmo_eval/inference/dispatch.py:106-112 | the verdict is what one of the attempts did |
| `Requests.MarkedExactlyWhenFailed` | src/olmo_eval/inference/errors.py:47-54 | request_error reads back an error exactly for requests whose every attempt raised, given a provider that never marks a whole answer itself |
| `Requests.MarkedByProvider` | src/olmo_eval/inference/errors.py:44-54 | an input whose request reads back as failed though no attempt raised |
| `Reporter.BeakerStatusReporter.constructor` | src/olmo_eval/common/beaker_status.py:74-98 | the first update is never throttled and nothing is in flight or pending |
| `Reporter.BeakerStatusReporter.Update` | src/olmo_eval/common/beaker_status.py:85-97 | one step of the machine below: a call claims the slot if it is free and the call is forced or late enough; during an update only a forced message is kept, over the one before |
| `Reporter.BeakerStatusReporter.TakePending` | src/olmo_eval/common/beaker_status.py:107-111 | the sender takes the pending message, or gives the slot up if there is none |
| `Reporter.BeakerStatusReporter.Release` | src/olmo_eval/common/beaker_status.py:115-117 | a failure drops the pending message and gives the slot up |
| `Reporter.StepKeepsHolder` | src/olmo_eval/common/beaker_status.py:85-132 | every step keeps: the threads between claim and release are at most one, and the flag tells whether there is one |
| `Reporter.StepKeepsOrder` | src/olmo_eval/common/beaker_status.py:85-132 | every step keeps sent, in-hand and pending messages in lock order |
| `Reporter.StepKeepsForced` | src/olmo_eval/common/beaker_status.py:90-111 | until something fails, every step keeps the latest forced message sent, in hand or pending |
| `Reporter.RunKeeps` | src/olmo_eval/common/beaker_status.py:85-132 | the invariant holds after every interleaving, with failures anywhere |
| `Reporter.LockKeepsThrottle` | src/olmo_eval/common/beaker_status.py:90-97 | a call keeps the time of the last claim and the spacing of the claims before it |
| `Reporter.ClaimsAreSpaced` | src/olmo_eval/common/beaker_status.py:94-97 | in every run, on the recorded times of the calls: a call that meets a taken slot does not claim it; one that meets it free claims exactly if it is forced or at least min_interval after the last claim |
| `Reporter.OneSender` | src/olmo_eval/common/beaker_status.py:102-117 | at most one thread is ever inside a send |
| `Reporter.PendingIsServed` | src/olmo_eval/common/beaker_status.py:90-117 | a pending message has an update in flight, and an update in flight has a thread that will finish it |
| `Reporter.SentInLockOrder` | src/olmo_eval/common/beaker_status.py:104-111 | sent messages are a subsequence of the calls in lock order, none twice |
| `Reporter.IdleHasLatest` | src/olmo_eval/common/beaker_status.py:86-93 | in runs without failures, whenever idle, the latest forced message was sent and only later calls' messages after it |
| `Reservoir.Kept` | src/olmo_eval/data/ruler_plus_loader.py:123-128 | for every draws the reservoir holds k different row numbers, all of rows seen |
| `Reservoir.LoadShard` | src/olmo_eval/data/ruler_plus_loader.py:96-131 | min(max_samples, n) records for n rows, none for a negative cap, and every row in order without one: the parsed lines of the rows the algorithm keeps, each with its own row number; the first row that enters and does not parse raises |
| `Reservoir.EntersIs` | src/olmo_eval/data/ruler_plus_loader.py:120-129 | a row is parsed exactly when it is in the reservoir right after its turn |
| `Reservoir.AllDrawsAre` | src/olmo_eval/data/ruler_plus_loader.py:126 | the sequences counted are exactly those whose t-th draw is between 0 and the row's position |
| `Reservoir.AllDrawsCount` | src/olmo_eval/data/ruler_plus_loader.py:126 | each further row multiplies the number of draw sequences by its position |
| `Reservoir.IncludingNewest` | src/olmo_eval/data/ruler_plus_loader.py:126-128 | the newest row is kept in k cases for every sequence before it |
| `Reservoir.IncludingOlder` | src/olmo_eval/data/ruler_plus_loader.py:126-128 | an older row stays in all but one case for every sequence that kept it |
| `Reservoir.Uniform` | src/olmo_eval/data/ruler_plus_loader.py:105-131 | counted over all draw sequences for n rows, every row is kept in exactly k of n |
| `Reservoir.EverySubsetAlike` | src/olmo_eval/data/ruler_plus_loader.py:105-131 | every set of k rows is the reservoir for the same number of draw sequences, (n - k)! |
| `NativeIds.NumeralReads` | src/olmo_eval/upload/extract.py:247 | a numeral says its number in decimal, without a leading zero |
| `NativeIds.CandidateKeeps` | src/olmo_eval/upload/extract.py:247-248 | a numbered candidate is as much of the base as fits 512 characters together with "#" and the number, and then those |
| `NativeIds.CandidatesDiffer` | src/olmo_eval/upload/extract.py:242-248 | candidates for different numbers above one differ, however the base is cut, so the search ends |
| `NativeIds.LeastFrom` | src/olmo_eval/upload/extract.py:241-252 | the search finds a free candidate after at most as many tries as there are used ids, plus two |
| `NativeIds.LeastIsUnique` | src/olmo_eval/upload/extract.py:241-252 | the first free candidate from any cached start below it is the first free one from 1 |
| `NativeIds.Keys.Unique` | src/olmo_eval/upload/extract.py:234-252 | with the cached counter, the id is that of the naive search from 1 among all used ids, and is added to them |
| `NativeIds.IdsAreKeys` | src/olmo_eval/upload/extract.py:234-252 | all ids are different and have 1 to 512 characters |
| `NativeIds.UnchangedWhenDistinct` | src/olmo_eval/upload/extract.py:241-252 | ids are the bases themselves exactly when no base repeats |
| `NativeIds.RepeatedIdChanges` | src/olmo_eval/upload/extract.py:241-252 | an input whose second id is changed: the ids 7, 7 become 7, 7#2 |
| `Extract.LinesConcat` | src/olmo_eval/upload/extract.py:88-93 | the lines concatenate back to the file |
| `Extract.LinesAreLines` | src/olmo_eval/upload/extract.py:88-93 | no line is empty or has a newline inside, and all but the last end with one |
| `Extract.PiecesAreSlices` | src/olmo_eval/upload/extract.py:88-93 | each non-blank line is its slice of the file, and the slices are disjoint and increasing |
| `Extract.PiecesAre` | src/olmo_eval/upload/extract.py:88-93 | the pieces are exactly the lines with a byte that is not white space, in order, each at the total length of the lines before it |
| `Extract.LineLength` | src/olmo_eval/upload/extract.py:80-85 | the bytes up to that length are the line without the LF or CR LF that ends it, or all of a line that does not end in LF |
| `Extract.CountInstances` | src/olmo_eval/upload/extract.py:325-332 | the count is the number of non-blank lines |
| `Extract.IndexRequests` | src/olmo_eval/upload/extract.py:126-146 | either dictionary answers every id with the first line that has it |
| `Extract.FindIsFirst` | src/olmo_eval/upload/extract.py:139-145 | a lookup gives the reference of the first line with the id, and nothing when no line has it |
| `Extract.IterInstances` | src/olmo_eval/upload/extract.py:335-377 | row k addresses non-blank line k, has the naive-search id for its base, and the request line of its uncut id or else of its integer doc id |
| `Extract.RowsAddressTheFile` | src/olmo_eval/upload/extract.py:80-93 | as many rows as non-blank lines; the byte range of each row is its line without the LF or CR LF that ends it, with no length exactly if that is over 2^31 - 1; lines are disjoint and increasing; ids differ |
| `Extract.RequestIsFound` | src/olmo_eval/upload/extract.py:372-377 | a row's request is the byte range, again without the ending, and the first 300 characters of the preview of the first requests line with the id it asks for, or else with its integer doc id; there is none exactly if there is neither |
| `Extract.BasesOfOriginals` | src/olmo_eval/upload/extract.py:364-369 | the base of an id is the first 512 characters of what the line asks for, or names the line if it asks for nothing |
| `Extract.WantedIdsAreKept` | src/olmo_eval/upload/extract.py:364-370 | a line asks for its native id, or else its doc id, or else its number; what lines ask for they get, if it is of 1 to 512 characters for each and never the same |
| `Extract.IdsKept` | src/olmo_eval/upload/extract.py:364-370 | a file keeps its ids exactly when they are distinct and have 1 to 512 characters |
| `Extract.LongIdIsCut` | src/olmo_eval/upload/extract.py:369 | an input whose id of 513 characters loses its last one |
| `Extract.Batched` | src/olmo_eval/upload/extract.py:380-388 | the batches concatenate back to the rows, all full except possibly the last, none empty |
| `Upload.Idempotent` | src/olmo_eval/upload/client.py:246-272 | any request that reaches the service a second time changes nothing more and gets the same reply |
| `Upload.PostKeeps` | dashboard/api/src/olmo_eval_api/services/ingest.py:727-778 | posting rows of a result's content keeps its count exact and its rows among those of the content |
| `Upload.UnchangedIsRight` | dashboard/api/src/olmo_eval_api/services/ingest.py:600-618 | whatever happened before, when the stored checksums determine the task's rows, "unchanged" is only answered when exactly those rows are stored |
| `Upload.ReadyOnceKnown` | src/olmo_eval/upload/uploader.py:216-277 | once the artifacts of a plan that covers its tasks' files are signed, the stored checksums determine each task's rows |
| `Upload.TellsWhenCovered` | dashboard/api/src/olmo_eval_api/services/ingest.py:664-679 | the content the service hashes tells a task's files apart exactly when every file it names is signed for |
| `Upload.SkippedFileIsMissed` | dashboard/api/src/olmo_eval_api/services/ingest.py:608-618 | when only files that are not signed for change, the request is answered "unchanged" and the first rows stay |
| `Upload.LargeFileKeepsOldRow` | src/olmo_eval/upload/uploader.py:256-258 | an input: a predictions file too large to be an artifact, whose changed row is never stored |
| `Upload.RowMapSum` | dashboard/api/src/olmo_eval_api/services/ingest.py:753-765 | rows posted in batches overwrite by native_id like rows posted at once |
| `Upload.BackoffDoubles` | src/olmo_eval/upload/client.py:20 | the backoff is one second, twice the one before it five times over, and 32 seconds from then on |
| `Upload.SevenAttempts` | src/olmo_eval/upload/client.py:265-272 | seven attempts at one request, all there are by default, take at least 63 seconds |
| `Upload.IngestClient.WithRetries` | src/olmo_eval/upload/client.py:246-272 | however often attempts reach the service, it ends in the old state or that of one request, in the latter if there is an answer; every attempt but the last met a transport error or a status worth retrying, and the last explains the outcome; at most max_retries + 1 attempts, each after its backoff, none begun past the deadline; it runs out of time only if less is left than the next wait may take |
| `Upload.IngestClient.SendOnce` | src/olmo_eval/upload/client.py:253-258 | an attempt may reach the service whether or not it is answered; a successful one has |
| `Upload.IngestClient.UploadOne` | src/olmo_eval/upload/uploader.py:506-521 | a file not reported as failed is in the bucket with its checksum; the requests made are a put, then, exactly if that finds its signature rejected, a signing and, unless that fails or finds the file there, a second put; it fails exactly if the file cannot be read or a request fails that is not that first put |
| `Upload.IngestClient.UploadArtifacts` | src/olmo_eval/upload/uploader.py:501-529 | if signing never fails, every artifact is signed for, at most a hundred at a time, and is in the bucket with its checksum or reported as failed, and no result is touched; it fails only if a file could not be read or a request failed that is not a first put whose signature was rejected |
| `Upload.IngestClient.SendTask` | src/olmo_eval/upload/uploader.py:539-545 | the task is announced and its rows go out in batches of 2000, only the last of them smaller; sent to the end, which is when no request fails, it is held with exactly its rows; no other result is touched, and the service stays fit for another try however it ends |
| `Upload.IngestClient.Send` | src/olmo_eval/upload/uploader.py:532-565 | for a plan that covers its tasks' files: after any earlier aborted sends, a send that completes leaves every task (the last with its key) stored with exactly its rows and count, finalized, and requested completion last; ok is true only with every file in the bucket; with every file readable and no request failing but first puts whose signature was rejected, it completes with ok; other results are untouched |
| `Upload.RowsOfFiles` | src/olmo_eval/upload/uploader.py:117-121 | a task's rows are determined by its files, have distinct ids, and are as many as counted |
| `Balance.DrawIndices` | src/olmo_eval/data/helmet_icl_loader.py:132-137 | a sample of num_rounds mod n indices and then only full permutations, ending at exactly num_rounds indices, so that each record is drawn num_rounds div n times or once more |
| `Balance.Group` | src/olmo_eval/data/helmet_icl_loader.py:124-126 | every label once, in order of first appearance, with exactly the records that have it, in the order of the list |
| `Balance.AddColumn` | src/olmo_eval/data/helmet_icl_loader.py:138-139 | index i goes to round i; an index error exactly when there are more indices than rounds |
| `Balance.Ceiling` | src/olmo_eval/data/helmet_icl_loader.py:128 | the number of rounds is the smallest that holds as many records as shots are asked for |
| `Balance.NextLabel` | src/olmo_eval/data/helmet_icl_loader.py:131-139 | one more label keeps every round at one record per label done, and every record of those labels fairly used |
| `Balance.PrefixFair` | src/olmo_eval/data/helmet_icl_loader.py:117-120 | in every prefix of length p each label occurs p div L times or once more, and exactly p div L when L divides p |
| `Balance.BalanceLabels` | src/olmo_eval/data/helmet_icl_loader.py:112-144 | exactly `shots` records; every prefix balanced; before the cut every record is used as often as the others of its label, give or take one; when it fails, and how |
| `Balance.MinusOneShot` | src/olmo_eval/data/helmet_icl_loader.py:128-139 | an input that fails with an index error: two records of one label and -1 shots |
| `Annotations.PrintRead` | dashboard/api/scripts/generate_api_schemas.py:101 | reading a text as an annotation loses nothing: printing what was read gives the text back, for every text |
| `Annotations.JoinedReads` | dashboard/api/scripts/generate_api_schemas.py:99-101 | types joined by bars read as all their alternatives, in order |
| `SchemaEmit.TypeReads` | dashboard/api/scripts/generate_api_schemas.py:80-144 | the text written for any term reads as the annotation the term stands for: a name, a list, a list of pairs, a dictionary from strings, or the different alternatives of a union |
| `SchemaEmit.UnionParts` | dashboard/api/scripts/generate_api_schemas.py:100-101 | the parts of a union are the different texts of its options, each at the place of its first occurrence |
| `SchemaEmit.FieldReads` | dashboard/api/scripts/generate_api_schemas.py:179-182 | the text of a required property is that of its type; to an optional one's alternatives at most None is added; it admits None exactly if its type does or "None" does not stand between bars in the type's text |
| `SchemaEmit.NoneInBrackets` | dashboard/api/scripts/generate_api_schemas.py:180 | an input: an optional list of strings, None or integers, which is not made optional |
| `SchemaEmit.LinesRead` | dashboard/api/scripts/generate_api_schemas.py:160-186 | the lines of a class are its properties in order, each with a text that reads as its type, or as its type or None if it is optional |
| `SchemaEmit.Generator.constructor` | dashboard/api/scripts/generate_api_schemas.py:70-75 | a new generator has written nothing |
| `SchemaEmit.Generator.RefType` | dashboard/api/scripts/generate_api_schemas.py:80-89 | the text of a reference, after everything it mentions was emitted or is open |
| `SchemaEmit.Generator.EmitAlias` | dashboard/api/scripts/generate_api_schemas.py:91-94 | the alias is there afterwards, and terminates although a definition is entered before it is stored |
| `SchemaEmit.Generator.TypeOf` | dashboard/api/scripts/generate_api_schemas.py:96-144 | the text of a term, which reads as the annotation the term stands for, after every class it mentions was emitted or is open |
| `SchemaEmit.Generator.UnionOf` | dashboard/api/scripts/generate_api_schemas.py:99-111 | the text of a union, after every class its options mention was emitted or is open |
| `SchemaEmit.Generator.FieldLines` | dashboard/api/scripts/generate_api_schemas.py:157-186 | one line for each property in order, with a text that reads as its type, or as its type or None if it is optional, after every class the open class uses was emitted or is open |
| `SchemaEmit.Generator.EmitClass` | dashboard/api/scripts/generate_api_schemas.py:146-189 | the class is emitted or open afterwards, the log only grows and stays one in which a class is written once all it uses is written or open, and recursion ends |
| `SchemaEmit.Generator.Render` | dashboard/api/scripts/generate_api_schemas.py:191-206 | every object definition is emitted exactly once with its own lines, every other one is an alias, definitions are entered in schema order, and each class is written after every class it uses that was not still open then |
| `SchemaEmit.Generator.EmitDefinition` | dashboard/api/scripts/generate_api_schemas.py:192-198 | afterwards everything the definition leads to is written or open, and the definition is there |
| `SchemaEmit.Open` | dashboard/api/scripts/generate_api_schemas.py:147-149 | entering a class keeps the invariant: it is entered once, from the innermost open class, which uses it, or in its turn |
| `SchemaEmit.Close` | dashboard/api/scripts/generate_api_schemas.py:187-189 | writing the innermost open class keeps the invariant, if every class it uses is written or open |
| `SchemaEmit.EventHolds` | dashboard/api/scripts/generate_api_schemas.py:146-189 | every event of a walk's log happened in a state that allowed it |
| `SchemaEmit.EmittedAfterUses` | dashboard/api/scripts/generate_api_schemas.py:146-189 | wherever a class is written, each class it uses was written before, or was open on the stack just then |
| `SchemaEmit.WrittenOrEnteredFirst` | dashboard/api/scripts/generate_api_schemas.py:146-189 | each class that a class uses is written before it, is the class itself, or was entered before it |
| `SchemaEmit.LoggedIsOrdered` | dashboard/api/scripts/generate_api_schemas.py:146-189 | so a class is written before one it uses only if that one leads back to it |
| `SchemaEmit.CycleOfThree` | dashboard/api/scripts/generate_api_schemas.py:146-189 | a cycle of three classes entered at the first is written in one order only, from the inside out |
| `SchemaEmit.RankedHasNoCycle` | dashboard/api/scripts/generate_api_schemas.py:91-94 | with ranks, no alias leads back to itself without passing through a class |
| `SchemaEmit.RanksExist` | dashboard/api/scripts/generate_api_schemas.py:91-94 | without such a cycle there are ranks, so the walk is defined for every schema whose references resolve and whose inline names do not collide |
| `SchemaEmit.WalkDone` | dashboard/api/scripts/generate_api_schemas.py:191-206 | with nothing open, every class used by an emitted one is emitted |
| `SchemaEmit.LineNames` | dashboard/api/scripts/generate_api_schemas.py:157-189 | a name in a line of a class is a class it uses, an alias, or given by a scalar's own text |
| `SchemaEmit.EveryNameIsDefined` | dashboard/api/scripts/generate_api_schemas.py:191-206 | every name in what is written, classes and aliases, is a written class, an alias, or given by a scalar's own text |
| `SchemaEmit.AcyclicIsTopological` | dashboard/api/scripts/generate_api_schemas.py:146-189 | without recursive classes, every class comes after all it uses |
| `Text.TrimIs` | src/olmo_eval/data/helmet_loader.py:73 | trimming takes off all such characters at both ends and nothing else |
| `Text.PlainEndsTrimAlike` | src/olmo_eval/data/helmet_loader.py:106-109 | strip and the JSON parser take the same off a line exactly when no other white space stands at its ends |
| `Sampling.ParsesAlike` | src/olmo_eval/data/helmet_loader.py:106-109 | a line whose stripped text parses gives the same value unstripped exactly when its ends are plain |
| `Sampling.LoadJsonl` | src/olmo_eval/data/helmet_loader.py:69-85 | the full load |
| `Sampling.LoadedAre` | src/olmo_eval/data/helmet_loader.py:69-85 | a file loads exactly when every non-blank stripped line is a JSON object, and then line by line |
| `Sampling.PositionsAre` | src/olmo_eval/data/helmet_loader.py:99-101 | the positions are exactly those of the non-blank lines, in file order |
| `Sampling.ParseChosen` | src/olmo_eval/data/helmet_loader.py:105-110 | only chosen lines are parsed, in file order, and come out in the order of their ranks |
| `Sampling.SampleRows` | src/olmo_eval/data/helmet_loader.py:88-110 | the rows are the lines that the first min(max_samples, n) entries of the permutation of the n non-blank lines pick, in that order, nulls left out; for a negative cap, all but as many entries; it raises exactly when a picked line is not JSON |
| `Sampling.RowsMatchFullLoad` | src/olmo_eval/data/helmet_loader.py:91-94 | for a file that loads, the sample has as many rows as the cap allows, and row i is row permutation[i] of the full load, exactly when no picked line has white space at its ends that JSON does not know |
| `Sampling.PresentAre` | src/olmo_eval/data/helmet_loader.py:110 | of the rows picked, exactly those that are there are returned, in order |
| `Sampling.VerticalTabRaises` | src/olmo_eval/data/helmet_loader.py:106-109 | an input that loads but raises when sampled: an object, a vertical tab and a newline |
| `Sampling.SampleByKey` | src/olmo_eval/data/helmet_loader.py:113-156 | min(max_samples, number of keys) different keys are sampled, and the rows are those of the lines with a sampled key, in file order |
| `Sampling.KeyedMatchesFullLoad` | src/olmo_eval/data/helmet_loader.py:121-129 | for a file that loads, the keys are those of the full load, and the sample is its rows with sampled keys exactly when no line of a sampled key has white space at its ends that JSON does not know |
| `Sampling.KeepRowsAre` | src/olmo_eval/data/helmet_loader.py:133 | exactly the kept rows are returned, in order |
| `Sampling.RowsWithKeyAre` | src/olmo_eval/data/helmet_loader.py:151-156 | exactly the rows that are kept and have a sampled key are returned, in order |
| `Sampling.RowsOfSampledKeys` | src/olmo_eval/data/helmet_loader.py:151-156 | every row of a sampled key is there as often as in the file, and no other row |
| `Sampling.EverySampledKeyOccurs` | src/olmo_eval/data/helmet_loader.py:148-149 | the keys of the result are exactly the sampled keys |
| `Sampling.AllKeysKeepAll` | src/olmo_eval/data/helmet_loader.py:131-133 | on loaded rows: with every key sampled, nothing is dropped exactly when every kept row has a key |
| `Sampling.CapAboveKeys` | src/olmo_eval/data/helmet_loader.py:149 | a cap of at least the number of keys samples them all |
| `Sampling.CapAboveKeysIsNoCap` | src/olmo_eval/data/helmet_loader.py:131-156 | the answers with a cap of at least the number of keys and without a cap are equal exactly when every kept row has a key and its line has plain ends |
| `Sampling.KeylessRowIsDropped` | src/olmo_eval/data/helmet_loader.py:143-148 | an input that loses a kept row: one without a key |
| `PassAtK.SubsetsAre` | src/olmo_eval/common/utils.py:40-41 | the k-subsets counted are exactly the sets of k samples |
| `PassAtK.SubsetsCount` | src/olmo_eval/common/utils.py:58 | there are C(n, k) of them |
| `PassAtK.PassingCount` | src/olmo_eval/common/utils.py:58 | C(n, k) - C(n - c, k) of them hold a correct sample |
| `PassAtK.ProductIsShare` | src/olmo_eval/common/utils.py:57-59 | the product equals C(n - c, k) / C(n, k) |
| `PassAtK.PassAtKIsShare` | src/olmo_eval/common/utils.py:37-59 | pass@k is the share of k-subsets of the samples that hold a correct one, with k cut to n, in both branches |
| `PassAtK.PassAtKIsProduct` | src/olmo_eval/common/utils.py:55-59 | the early return agrees with the product |
| `PassAtK.PassAtKOrder` | src/olmo_eval/common/utils.py:37-59 | the value is in [0, 1] and never falls with more correct samples or a larger k |
| `PassAtK.PassAtOne` | src/olmo_eval/common/utils.py:37-59 | pass@1 is c / n |
| `PassAtK.AnyAtLeastAll` | src/olmo_eval/common/utils.py:62-79 | pass^k is never above pass@k |
| `PassAtK.TuplesAre` | src/olmo_eval/common/utils.py:65-66 | the k-tuples counted are exactly the sequences of k samples |
| `PassAtK.PassPowIsShare` | src/olmo_eval/common/utils.py:62-79 | pass^k is the share of k-tuples of the samples that are all correct |
| `Downsample.SortedIs` | src/olmo_eval/upload/inference.py:90-91 | sorting orders the points by time, then value, and keeps them all |
| `Downsample.SumBuckets` | src/olmo_eval/upload/inference.py:92-101 | the dictionary holds the totals of consecutive runs of the sorted points, one run for each bucket |
| `Downsample.Averages` | src/olmo_eval/upload/inference.py:102 | one mean for each bucket, in the order of the buckets |
| `Downsample.Downsample` | src/olmo_eval/upload/inference.py:88-102 | above the cap, at most max_points outputs, each the mean of its run of a partition of the sorted points; at or below it, the sorted points; when it fails, and how |
| `Downsample.AveragesKeep` | src/olmo_eval/upload/inference.py:88-102 | output times rise strictly, a bucket spans at most its width, and sums weighted by run are those of all points |
| `Downsample.EqualBuckets` | src/olmo_eval/upload/inference.py:93-97 | the runs are the points of different buckets of one width, in order; max_points buckets make up the time from the first point to the last, or a bucket is one wide if that is zero; the last bucket keeps its end |

## Left out

- Dispatch.Dispatcher.RunResults: callbacks are recorded, not called, so one that raises is not modelled; the logged first error is left out.
- Dispatch.ScheduleIndependence: speaks of runs that finish; in a run with several terminal items, which of them surfaces depends on the schedule.
- Upload.IngestClient.WithRetries: what an attempt meets is a parameter, by its number; messages are left out.
- Upload.IngestClient.UploadArtifacts: the eight parallel uploads of a batch are made one at a time, in any order; failures are listed in that order.
- Upload.IngestClient.Send: authentication, the run upsert, inference metrics and suite results change nothing that is modelled; a task's fields beside key, paths and count are one opaque text; the service's limits on sizes and counts are left out.
- Upload.UnchangedIsRight: the service compares SHA-256 hashes of contents; here it compares the contents, as if hashes never collided.
- Extract.IterInstances: a row has its id, byte ranges and request, with the preview; the metrics, labels and token counts of `build_instance_row` are left out. A generator is the sequence it yields.
- NativeIds.IdsAreKeys: the length bound is for files of fewer than 10^500 rows, beyond which a suffix would not fit.
- Reservoir.LoadShard: the draws are a parameter; that the generator makes every sequence equally likely is its own promise.
- Sampling.SampleRows: the permutation is a parameter, and the first pass opens the same file as the second.
- Sampling.SampleByKey: `keep` and `key` return; a row on which they raise is not modelled. The order of the sorted keys matters only to the generator and is left out.
- Balance.BalanceLabels: every record has the label field; a record is its position, so its other fields play no part.
- SchemaEmit.Generator.FieldLines: a line is a property's name and its type; see Render.
- SchemaEmit.TypeReads: for schemas whose names separate nothing (no brackets, quotes, commas, bars or spaces) and whose scalar texts are one type on their own (`Readable`); what a scalar's text says is taken from the text.
- SchemaEmit.Generator.Render: a class is its name and its field types; attribute names, defaults, constraints, descriptions and the header are left out, and terms that become plain text (constants, enums, scalars) are one case.
- PassAtK.AnyAtLeastAll: reals instead of floating point, and no negative k.
- Downsample.Downsample: reals instead of floating point, no rounding of times; for a negative cap and at least one point nothing is stated beyond that it does not fail.
- Reporter.OneSender: `flush`, `_send_thread`, logging and `progress_callback` are left out; the clock is a parameter.
- The GPU planner and the pool of the inference manager: disjoint slices of a list, which would add only easy members.
- Configuration, presets, the dashboard's pages, and access to Beaker, Google Cloud and Hugging Face: no logic of their own.
