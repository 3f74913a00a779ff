# ImgurViral: the poll → enqueue → lease → post → mark-seen pipeline

ImgurViral is an App Engine application with two scheduled handlers.
`pollImgur` reads Imgur's hot-gallery feed and enqueues one pull-queue task
per entry it has not posted yet. `processTasks` leases up to 20 of those
tasks. For each one it renders a status line, tweets it, records the id in
memcache and deletes the task. The handlers share nothing but memcache (the
set of posted ids) and the pull-queue, so the guarantees of the pipeline are
facts about how the two handlers change those two collections.

The model is written in Dafny and verifies:

- `imgur.dfy` (module `Imgur`): the data model. Go strings are byte
  sequences (`Bytes`). It defines `Entry` (the source's `Result`),
  `Results`, `Task`, and the queue helpers `Names` and `Without`.
- `render.dfy` (module `Render`): title truncation, link choice and the
  status line, as pure functions. `GalleryIdOf` reads the id back out of a
  status.
- `stores.dfy` (module `Stores`): memcache as class `Memcache` (a set of
  keys) and the pull-queue as class `PullQueue` (a sequence of tasks with
  unique names, in insertion order). Each service call takes a flag that
  says whether the call fails. Otherwise its answer follows from the
  stored state: Hit/CacheMiss, Stored/NotStored, Added/AlreadyAdded.
- `poller.dfy` (module `Poller`): `PollImgur` is the imperative handler, a
  `for … downto` loop with the source's `continue`s. It is proved against
  the specification function `OfferedFrom`, and the lemmas about that
  function give the properties.
- `worker.dfy` (module `Worker`): `ProcessTasks` is the imperative handler.
  Its loop body is the method `HandleTask`. The handler is proved against `Run` (the state after the batch) and `Posted`
  (the statuses sent to the publisher), and the lemmas about those
  functions give the properties.
- `pipeline.dfy` (module `Pipeline`): properties of both handlers together,
  and concrete scenarios.

External calls are inputs of the model:

- the fetched and decoded feed (`Fetch`);
- per feed position, whether the memcache lookup, the JSON encode and the
  enqueue fail (`EntryFaults`);
- whether the lease fails;
- per leased task, whether the JSON decode, the tweet, the memcache add and
  the delete fail (`TaskFaults`).

JSON encoding followed by decoding is the identity: a task's payload is the
entry itself.

Three behaviours of main.go that are easy to misread, all of which the model
follows:

- Titles are cut when they are longer than 91 bytes, not 90. The cut keeps
  90 bytes and appends the marker. `len` counts bytes. The marker literal
  in the source holds the 7 bytes `C3 A2 E2 82 AC C2 A6`, so a cut title is
  97 bytes long, and a 92-byte title gets longer when it is cut
  (`Render.CutCanLengthen`).
- When the feed reports failure (`success` false or `status` not 200), the
  handler returns its `err` variable. That variable is nil at that point,
  so the handler answers Ok and enqueues nothing.
- When the memcache add fails with an error other than `ErrNotStored`, the
  task is not deleted. It stays queued, and the id is not recorded.

## Model

| member | source | states |
|---|---|---|
| `Render.TruncateTitle` | main.go:201-205 | A title of at most 91 bytes comes back unchanged. A longer title comes back as its first 90 bytes followed by the marker, which makes it exactly 97 bytes. No result is longer than 97 bytes. |
| `Render.TruncateIdempotent` | main.go:201-205 | Cutting an already-cut title changes nothing. |
| `Render.CutCanLengthen` | main.go:202-204 | A 92-byte title becomes 5 bytes longer when it is cut, because the 7-byte marker replaces 2 bytes. |
| `Render.ChooseLink` | main.go:206-211 | With a non-empty cover, the link is `http://i.imgur.com/`, then the cover, then `.jpg`. With an empty cover, the link is the entry's own link. |
| `Render.ConstantsAreAscii` | main.go:208-212 | The byte constants of the link and the status spell `http://i.imgur.com/`, `.jpg` and ` (https://imgur.com/gallery/`. |
| `Render.Status` | main.go:212 | The status is the title after cutting, a space, the chosen link, and then ` (https://imgur.com/gallery/<id>)`. Its length is the sum of those parts. |
| `Render.GalleryIdRoundTrip` | main.go:212 | Whatever text comes before it, the gallery link ` (https://imgur.com/gallery/<id>)` at the end of a status gives back exactly `<id>` when it is read out, for any id without a '/'. |
| `Render.StatusNamesGalleryId` | main.go:212 | Reading the last path segment of the gallery link back out of the status gives exactly the entry's id, for any id without a '/'. |
| `Stores.Memcache.Get` | main.go:119-127 | The lookup answers an error exactly when the call fails. Otherwise it answers Hit when the key is present and CacheMiss when it is absent. |
| `Stores.Memcache.Add` | main.go:222-230 | Add-if-absent. A failed call changes nothing and answers an error. Otherwise the key is present afterwards, and the answer is NotStored exactly when the key was already there. |
| `Stores.PullQueue.Add` | main.go:137-145 | Add-if-absent by task name. A failed call, or a name already queued (`ErrTaskAlreadyAdded`), leaves the queue unchanged. Otherwise the task is appended. Names stay unique. |
| `Stores.PullQueue.Lease` | main.go:152-156 | A failed lease answers an error. Otherwise it hands out the oldest `min(max, queued)` tasks, with unique names. |
| `Stores.PullQueue.Delete` | main.go:232-236 | A successful delete removes the task of that name and keeps every other task in order. A failed delete changes nothing. |
| `Poller.OfferedFrom` | main.go:115-146 | Polling only appends: the old queue is a prefix of the new one, and at most one task is added per feed entry. |
| `Poller.PollImgur` | main.go:83-148 | Request, transport and body-decode failures return that error and enqueue nothing. An unsuccessful feed returns Ok and enqueues nothing. Otherwise the queue becomes `OfferedFrom` of the reversed walk. Memcache never changes, and the queue's names stay unique. |
| `Poller.OfferedOldestFirst` | main.go:115-117 | The entries a poll enqueues appear in the same order as in the reversed feed, i.e. oldest first. |
| `Poller.OfferedNames` | main.go:119-145 | An id is queued after a poll if and only if it was queued before, or some entry with that id was unseen and none of its lookup, encode or enqueue calls failed. A seen id or a failed lookup skips only that entry. |
| `Poller.OfferedTasksWellFormed` | main.go:137-141 | Every appended task is named by the id of the entry it carries, that id is not in memcache, and the entry comes from the feed. |
| `Poller.OfferedKeepsUnique` | main.go:137-145 | A poll keeps task names unique, even when the feed repeats an id. |
| `Poller.OfferedNothingNew` | main.go:137-145 | Offering entries whose admitted ids are all queued already leaves the queue unchanged. |
| `Poller.PollIdempotent` | main.go:137-145 | Polling the same snapshot again, with the same service outcomes, leaves the queue unchanged. |
| `Poller.PollSkipsSeen` | main.go:119-127 | An id in memcache is never enqueued, whatever the feed holds and whatever the services answer. |
| `Poller.PollKeepsQueueWellFormed` | main.go:129-145 | A poll keeps both queue invariants: names are unique, and each task is named by its entry's id. |
| `Worker.LeasedBatch` | main.go:152 | A lease takes the oldest `min(20, queued)` tasks: all of them when fewer than 20 are queued, otherwise exactly 20. |
| `Worker.Run` | main.go:159-238 | A worker run never removes a memcache key and never makes the queue longer. |
| `Worker.SentCount` | main.go:159-216 | The publisher receives exactly one item per leased task that decodes, whatever the rendering. |
| `Worker.SentInBatchOrder` | main.go:159-216 | A task that decodes is sent as item number `DecodedCount(faults, j)`, that is, after the decoded tasks before it, and the item is that task's own rendering. |
| `Worker.SentFromBatch` | main.go:162-216 | Every item sent renders one of the handled tasks that decoded. Nothing else is sent. |
| `Worker.DecodedCountGrows` | main.go:159 | The loop handles the tasks in lease order: a decoded task's position among the sent items is below that of every later decoded task. |
| `Worker.PostedInBatchOrder` | main.go:159-216 | The statuses posted are exactly the statuses of the leased tasks that decode, in batch order. Their number is the number of decoded tasks, the task at position j gives status number `DecodedCount(faults, j)`, and every status comes from a decoded task. |
| `Worker.AllDecoded` | main.go:162-166 | When no task fails to decode, every task of the batch counts as decoded. |
| `Worker.AllPosted` | main.go:162-216 | When no task fails to decode, one status is posted for every leased task. |
| `Worker.HandleTask` | main.go:160-237 | One pass of the loop body, where `return` plays the role of the source's `continue`. Memcache and the queue change exactly as `Step` says. The publisher receives the rendered status unless decoding failed. |
| `Worker.ProcessTasks` | main.go:150-239 | A failed lease returns that error and changes nothing. Otherwise the answer is Ok, memcache and the queue become `Run` of the leased batch, the publisher receives `Posted` of the batch, and queue names stay unique. |
| `Worker.RunEffect` | main.go:216-236 | Exactly the names of tasks that were decoded, posted and marked are added to memcache. Exactly the tasks that were also deleted leave the queue. Nothing else changes. |
| `Worker.CompletedTaskDone` | main.go:216-236 | A task that was posted, marked (stored or `ErrNotStored`) and deleted ends with its name in memcache and absent from the queue. |
| `Worker.MarkedTaskSeen` | main.go:227-236 | A task whose memcache add succeeded has its name in memcache, even when its delete failed. |
| `Worker.UnfinishedTaskStays` | main.go:162-236 | A leased task whose decode, post, memcache add or delete failed is still queued after the run, whatever happened to the rest of the batch. |
| `Worker.UnpostedTaskUnseen` | main.go:216-230 | A task that was not posted, or whose memcache add failed, does not get its name into memcache. |
| `Worker.RunKeepsQueueWellFormed` | main.go:232-236 | A worker run keeps both queue invariants: names are unique, and each task is named by its entry's id. |
| `Pipeline.CompletedNeverRequeued` | main.go:119-127 | After a task has been posted, marked and deleted, no later poll puts it back in the queue. |
| `Pipeline.PostedLinksLeasedTask` | main.go:212 | Every posted status links to the gallery page of a task in the leased batch. |
| `Pipeline.ScenarioOldestEnqueuedFirst` | main.go:115-117 | For the feed [2, 1] with nothing seen or queued, task 1 is enqueued before task 2. |
| `Pipeline.ScenarioSeenSkipped` | main.go:119-127 | For the same feed with 1 already seen, only task 2 is enqueued. |
| `Pipeline.ScenarioUnsuccessfulFeed` | main.go:110-113 | When `success` is false, or `status` is 500, the poll enqueues nothing. |
| `Pipeline.ScenarioPublishSucceeds` | main.go:216-236 | When task 1 is posted successfully, 1 is in memcache and the queue is empty. |
| `Pipeline.ScenarioPublishFails` | main.go:216-220 | When posting task 1 fails, the queue still holds task 1 and memcache stays empty. |
| `Pipeline.ScenarioLinks` | main.go:206-211 | Cover `abc` gives `http://i.imgur.com/abc.jpg`. An empty cover gives the entry's own link. |
| `Pipeline.ScenarioTitles` | main.go:201-205 | A 120-byte title becomes its first 90 bytes plus the marker, 97 bytes in all. A 91-byte title is kept. |

## Left out

- HTTP handler adapter, route registration (main.go:56-62, 77-78) and configuration loading (main.go:64-75): server plumbing and file I/O. A handler's `Outcome` is what the adapter would turn into HTTP 500.
- The HTTP request to Imgur, its headers, and the commented-out deadline (main.go:85-100): network I/O. `Fetch` gives the outcome of the request and of JSON decoding.
- JSON encoding and decoding of payloads (main.go:129-135, 162-166): modelled as the identity plus a failure flag. A `null` entry in the feed's `data`, which would make the Go code dereference nil, is not modelled.
- `postTweet` and the tweetlib client (main.go:242-269): the publisher is a failure flag, and the statuses it receives are the `posted` output. The always-nil media and the commented-out image download (main.go:168-199) are dead code.
- Time: the 72-hour memcache expiry and the 30-second lease (main.go:152, 224) are kept only as constants. Expiry, eviction and re-leasing after a lease lapses are not modelled. A failed task is therefore leasable again on the next run.
- Stores.PullQueue.Lease: always hands out the oldest tasks, because a single run is modelled. Tasks held under another run's unexpired lease are not excluded, since concurrent runs are not modelled.
- Concurrency between poll and process runs, and App Engine's tombstoning of deleted task names: these are properties of the platform, not of this code.
- Stores.Memcache.Get: a cache miss is answered only for absent keys. Memcache can evict keys early, which would let a posted id be enqueued again. That is not modelled.
- Logging (`ctx.Errorf`): no effect on state.
- Entries with an empty id: the model names every task by its entry's id and deduplicates it like any other name. App Engine's taskqueue generates a fresh name for a task whose `Name` is empty (main.go:137-141), so the real program would add a new task for such an entry on every poll, and it would record the generated name in memcache (main.go:223), not the empty id. The generated names are chosen by the platform, outside main.go, and Imgur gallery ids are never empty. So `Poller.OfferedKeepsUnique`, `Poller.PollIdempotent` and `Pipeline.CompletedNeverRequeued` are statements about non-empty ids. They would not hold for an entry whose id is empty.
