/**
 `pollImgur`: reconcile one feed snapshot with the seen ids and enqueue a
 task for every entry not yet published, oldest entry first.
 */
module Poller {
  import opened Imgur
  import opened Stores

  /** What fetching and decoding the feed produced; the HTTP request itself is not modelled. */
  datatype Fetch =
    | RequestFailed    // http.NewRequest returned an error
    | TransportFailed  // client.Do returned an error
    | BodyUndecodable  // the body is not JSON of the `Results` shape
    | Decoded(results: Results)

  /** Which service calls fail while one feed entry is handled. */
  datatype EntryFaults = EntryFaults(lookupFails: bool, encodeFails: bool, enqueueFails: bool)

  const NoEntryFaults := EntryFaults(false, false, false)

  /** The snapshot is used only when the feed reports success with status 200. */
  predicate Usable(r: Results)
  {
    r.success && r.status == 200
  }

  /** The entry passes every check before the enqueue: not seen, and no service call failed. */
  predicate Admitted(seen: set<Bytes>, e: Entry, f: EntryFaults)
  {
    !f.lookupFails && e.id !in seen && !f.encodeFails && !f.enqueueFails
  }

  /** The queue after one entry is offered: appended when admitted and no task has its name. */
  function Offer(seen: set<Bytes>, q: seq<Task>, e: Entry, f: EntryFaults): seq<Task>
  {
    if Admitted(seen, e, f) && e.id !in Names(q) then q + [Task(e.id, e)] else q
  }

  /**
   The queue after the entries at positions |data|-1 down to k were offered
   (the loop runs from the last, oldest, entry towards the first). Polling
   only ever appends to the queue.
   */
  function OfferedFrom(seen: set<Bytes>, q: seq<Task>, data: seq<Entry>, faults: nat -> EntryFaults, k: nat): (r: seq<Task>)
    requires k <= |data|
    ensures |q| <= |r| <= |q| + |data| - k
    ensures r[..|q|] == q
    decreases |data| - k
  {
    if k == |data| then q
    else Offer(seen, OfferedFrom(seen, q, data, faults, k + 1), data[k], faults(k))
  }

  /** The queue after a whole poll run. */
  function PolledQueue(seen: set<Bytes>, q: seq<Task>, fetch: Fetch, faults: nat -> EntryFaults): seq<Task>
  {
    if fetch.Decoded? && Usable(fetch.results) then OfferedFrom(seen, q, fetch.results.data, faults, 0) else q
  }

  /**
   Fetch the feed, then walk it from its last entry to its first: skip ids
   found in memcache or whose lookup failed, and enqueue the others by id.
   */
  method PollImgur(fetch: Fetch, cache: Memcache, queue: PullQueue, faults: nat -> EntryFaults) returns (r: Outcome)
    requires queue.Valid()
    modifies queue
    ensures queue.Valid() && unchanged(cache)
    ensures r == match fetch
                 case RequestFailed => Failed(RequestError)
                 case TransportFailed => Failed(FetchError)
                 case BodyUndecodable => Failed(DecodeError)
                 case Decoded(_) => Ok
    ensures queue.tasks == PolledQueue(cache.keys, old(queue.tasks), fetch, faults)
  {
    match fetch
    case RequestFailed => return Failed(RequestError);
    case TransportFailed => return Failed(FetchError);
    case BodyUndecodable => return Failed(DecodeError);
    case Decoded(results) =>
      if !results.success || results.status != 200 {
        // the source returns its `err` variable here, which is nil
        return Ok;
      }
      var data := results.data;
      for i := |data| downto 0
        invariant queue.Valid()
        invariant queue.tasks == OfferedFrom(cache.keys, old(queue.tasks), data, faults, i)
      {
        var entry := data[i];
        var found := cache.Get(entry.id, faults(i).lookupFails);
        if found != CacheMiss {
          // already published, or the lookup failed
          continue;
        }
        if faults(i).encodeFails {
          continue;
        }
        var added := queue.Add(Task(entry.id, entry), faults(i).enqueueFails);
        if added == EnqueueError {
          continue;
        }
      }
      return Ok;
  }

  /** `s` in reverse order. */
  function Reversed<T>(s: seq<T>): (r: seq<T>)
    ensures |r| == |s|
  {
    if |s| == 0 then [] else Reversed(s[1..]) + [s[0]]
  }

  /** `a` is `b` with some elements left out, the rest in the same order. */
  ghost predicate Subsequence<T>(a: seq<T>, b: seq<T>)
    decreases |b|
  {
    |a| == 0 ||
    (|b| > 0 &&
      (Subsequence(a, b[..|b| - 1]) ||
       (a[|a| - 1] == b[|b| - 1] && Subsequence(a[..|a| - 1], b[..|b| - 1]))))
  }

  lemma SubsequenceGrow<T>(a: seq<T>, b: seq<T>, x: T)
    requires Subsequence(a, b)
    ensures Subsequence(a, b + [x]) && Subsequence(a + [x], b + [x])
  {
    assert (b + [x])[..|b|] == b;
    assert (a + [x])[..|a|] == a;
  }

  /** The entries a sequence of tasks carries. */
  function Payloads(ts: seq<Task>): (r: seq<Entry>)
    ensures |r| == |ts| && forall i :: 0 <= i < |ts| ==> r[i] == ts[i].payload
  {
    seq(|ts|, i requires 0 <= i < |ts| => ts[i].payload)
  }

  /** The ids of the entries admitted at positions k and later. */
  function AdmittedIds(seen: set<Bytes>, data: seq<Entry>, faults: nat -> EntryFaults, k: nat): set<Bytes>
  {
    set i | k <= i < |data| && Admitted(seen, data[i], faults(i)) :: data[i].id
  }

  /**
   Oldest first: the entries a poll enqueues appear in the order of the
   reversed feed, i.e. from the oldest entry to the newest.
   */
  lemma {:induction false} OfferedOldestFirst(seen: set<Bytes>, q: seq<Task>, data: seq<Entry>, faults: nat -> EntryFaults, k: nat)
    requires k <= |data|
    decreases |data| - k
    ensures Subsequence(Payloads(OfferedFrom(seen, q, data, faults, k)[|q|..]), Reversed(data[k..]))
  {
    if k < |data| {
      OfferedOldestFirst(seen, q, data, faults, k + 1);
      var before := OfferedFrom(seen, q, data, faults, k + 1);
      var after := OfferedFrom(seen, q, data, faults, k);
      assert data[k..][1..] == data[k + 1..];
      assert Reversed(data[k..]) == Reversed(data[k + 1..]) + [data[k]];
      SubsequenceGrow(Payloads(before[|q|..]), Reversed(data[k + 1..]), data[k]);
      if after != before {
        assert after == before + [Task(data[k].id, data[k])];
        assert Payloads(after[|q|..]) == Payloads(before[|q|..]) + [data[k]];
      }
    }
  }

  lemma AdmittedIdsStep(seen: set<Bytes>, data: seq<Entry>, faults: nat -> EntryFaults, k: nat)
    requires k < |data|
    ensures AdmittedIds(seen, data, faults, k) ==
            AdmittedIds(seen, data, faults, k + 1) + (if Admitted(seen, data[k], faults(k)) then {data[k].id} else {})
  {
  }

  lemma NamesAppend(q: seq<Task>, t: Task)
    ensures Names(q + [t]) == Names(q) + {t.name}
  {
  }

  /**
   What a poll enqueues, exactly: an id ends up queued if and only if it was
   queued before or some entry with that id was admitted.
   */
  lemma {:induction false} OfferedNames(seen: set<Bytes>, q: seq<Task>, data: seq<Entry>, faults: nat -> EntryFaults, k: nat)
    requires k <= |data|
    decreases |data| - k
    ensures Names(OfferedFrom(seen, q, data, faults, k)) == Names(q) + AdmittedIds(seen, data, faults, k)
  {
    if k < |data| {
      OfferedNames(seen, q, data, faults, k + 1);
      AdmittedIdsStep(seen, data, faults, k);
      var before := OfferedFrom(seen, q, data, faults, k + 1);
      var rest := AdmittedIds(seen, data, faults, k + 1);
      var e := data[k];
      assert OfferedFrom(seen, q, data, faults, k) == Offer(seen, before, e, faults(k));
      if !Admitted(seen, e, faults(k)) {
        assert AdmittedIds(seen, data, faults, k) == rest;
      } else if e.id in Names(before) {
        assert AdmittedIds(seen, data, faults, k) == rest + {e.id};
      } else {
        assert AdmittedIds(seen, data, faults, k) == rest + {e.id};
        NamesAppend(before, Task(e.id, e));
      }
    } else {
      assert AdmittedIds(seen, data, faults, k) == {};
    }
  }

  /** The tasks after position |q| of r are named by their entry's id, not seen, and carry entries of `entries`. */
  ghost predicate FreshTasks(seen: set<Bytes>, q: seq<Task>, r: seq<Task>, entries: seq<Entry>)
  {
    forall i :: |q| <= i < |r| ==> r[i].name == r[i].payload.id && r[i].name !in seen && r[i].payload in entries
  }

  /** Every task a poll appends is named by the id of the entry it carries, and that id is not seen. */
  lemma {:induction false} OfferedTasksWellFormed(seen: set<Bytes>, q: seq<Task>, data: seq<Entry>, faults: nat -> EntryFaults, k: nat)
    requires k <= |data|
    decreases |data| - k
    ensures FreshTasks(seen, q, OfferedFrom(seen, q, data, faults, k), data[k..])
  {
    if k < |data| {
      OfferedTasksWellFormed(seen, q, data, faults, k + 1);
      var before := OfferedFrom(seen, q, data, faults, k + 1);
      var r := OfferedFrom(seen, q, data, faults, k);
      assert FreshTasks(seen, q, before, data[k + 1..]);
      assert data[k..] == [data[k]] + data[k + 1..];
      forall i | |q| <= i < |r|
        ensures r[i].name == r[i].payload.id && r[i].name !in seen && r[i].payload in data[k..]
      {
        if i < |before| {
          assert r[i] == before[i];
        } else {
          assert r == before + [Task(data[k].id, data[k])];
        }
      }
    }
  }

  /** A poll keeps the queue's names unique. */
  lemma {:induction false} OfferedKeepsUnique(seen: set<Bytes>, q: seq<Task>, data: seq<Entry>, faults: nat -> EntryFaults, k: nat)
    requires k <= |data| && UniqueNames(q)
    decreases |data| - k
    ensures UniqueNames(OfferedFrom(seen, q, data, faults, k))
  {
    if k < |data| {
      OfferedKeepsUnique(seen, q, data, faults, k + 1);
    }
  }

  /** Offering entries whose admitted ids are all queued already changes nothing. */
  lemma {:induction false} OfferedNothingNew(seen: set<Bytes>, q: seq<Task>, data: seq<Entry>, faults: nat -> EntryFaults, k: nat)
    requires k <= |data|
    requires AdmittedIds(seen, data, faults, k) <= Names(q)
    decreases |data| - k
    ensures OfferedFrom(seen, q, data, faults, k) == q
  {
    if k < |data| {
      assert AdmittedIds(seen, data, faults, k + 1) <= AdmittedIds(seen, data, faults, k);
      OfferedNothingNew(seen, q, data, faults, k + 1);
      if Admitted(seen, data[k], faults(k)) {
        assert data[k].id in AdmittedIds(seen, data, faults, k);
      }
    }
  }

  /** Polling the same snapshot again, with the same outcomes of the service calls, enqueues nothing. */
  lemma PollIdempotent(seen: set<Bytes>, q: seq<Task>, fetch: Fetch, faults: nat -> EntryFaults)
    ensures PolledQueue(seen, PolledQueue(seen, q, fetch, faults), fetch, faults) == PolledQueue(seen, q, fetch, faults)
  {
    if fetch.Decoded? && Usable(fetch.results) {
      var data := fetch.results.data;
      OfferedNames(seen, q, data, faults, 0);
      OfferedNothingNew(seen, OfferedFrom(seen, q, data, faults, 0), data, faults, 0);
    }
  }

  /** An id already in memcache is never enqueued by a poll, whatever the services answer. */
  lemma PollSkipsSeen(seen: set<Bytes>, q: seq<Task>, fetch: Fetch, faults: nat -> EntryFaults, id: Bytes)
    requires id in seen && id !in Names(q)
    ensures id !in Names(PolledQueue(seen, q, fetch, faults))
  {
    if fetch.Decoded? && Usable(fetch.results) {
      OfferedNames(seen, q, fetch.results.data, faults, 0);
    }
  }

  /** A poll keeps the queue's invariants: unique names, each task named by its entry's id. */
  lemma PollKeepsQueueWellFormed(seen: set<Bytes>, q: seq<Task>, fetch: Fetch, faults: nat -> EntryFaults)
    requires UniqueNames(q) && NamedByPayload(q)
    ensures UniqueNames(PolledQueue(seen, q, fetch, faults)) && NamedByPayload(PolledQueue(seen, q, fetch, faults))
  {
    if fetch.Decoded? && Usable(fetch.results) {
      var data := fetch.results.data;
      OfferedKeepsUnique(seen, q, data, faults, 0);
      OfferedTasksWellFormed(seen, q, data, faults, 0);
      var r := OfferedFrom(seen, q, data, faults, 0);
      forall i | 0 <= i < |r|
        ensures r[i].name == r[i].payload.id
      {
        if i < |q| {
          assert r[i] == r[..|q|][i] == q[i];
        } else {
          assert FreshTasks(seen, q, r, data[0..]);
        }
      }
    }
  }
}
