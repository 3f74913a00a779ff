/**
 `processTasks`: lease a batch of tasks, post a status for each, and for
 every posted one record its id in memcache and delete the task.
 */
module Worker {
  import opened Imgur
  import opened Stores
  import opened Render

  /** At most this many tasks are leased per run. */
  const LeaseBatch: nat := 20
  /** The lease duration and the memcache expiry, kept as constants only: time is not modelled. */
  const LeaseSeconds: nat := 30
  const SeenHours: nat := 72

  /** Which calls fail while one leased task is handled. */
  datatype TaskFaults = TaskFaults(decodeFails: bool, publishFails: bool, markFails: bool, deleteFails: bool)

  const NoTaskFaults := TaskFaults(false, false, false, false)

  /** The publisher accepted the status. */
  predicate Published(f: TaskFaults)
  {
    !f.decodeFails && !f.publishFails
  }

  /** The id reached memcache (the add stored it or found it there). */
  predicate Marked(f: TaskFaults)
  {
    Published(f) && !f.markFails
  }

  /** The task was also deleted from the queue. */
  predicate Completed(f: TaskFaults)
  {
    Marked(f) && !f.deleteFails
  }

  /** The two shared collections: memcache keys and queued tasks. */
  datatype State = State(seen: set<Bytes>, tasks: seq<Task>)

  /** The tasks one lease hands out: the oldest ones, at most `LeaseBatch`. */
  function LeasedBatch(q: seq<Task>): (r: seq<Task>)
    ensures |r| <= LeaseBatch && |r| <= |q|
    ensures |q| >= LeaseBatch ==> |r| == LeaseBatch
    ensures |r| == Min(LeaseBatch, |q|)
    ensures r == q[..|r|]
  {
    q[..Min(LeaseBatch, |q|)]
  }

  /** The state after one leased task is handled. */
  function Step(st: State, t: Task, f: TaskFaults): State
  {
    if !Marked(f) then st
    else State(st.seen + {t.name}, if f.deleteFails then st.tasks else Without(st.tasks, {t.name}))
  }

  /** The state after the first n tasks of the batch are handled. */
  function Run(st: State, batch: seq<Task>, faults: nat -> TaskFaults, n: nat): (r: State)
    requires n <= |batch|
    ensures st.seen <= r.seen
    ensures |r.tasks| <= |st.tasks|
  {
    if n == 0 then st
    else Step(Run(st, batch, faults, n - 1), batch[n - 1], faults(n - 1))
  }

  /** How many of the first n tasks of the batch decode. */
  function DecodedCount(faults: nat -> TaskFaults, n: nat): (r: nat)
    ensures r <= n
  {
    if n == 0 then 0
    else DecodedCount(faults, n - 1) + (if faults(n - 1).decodeFails then 0 else 1)
  }

  /** When every one of the first n tasks decodes, all n of them count. */
  lemma {:induction false} AllDecoded(faults: nat -> TaskFaults, n: nat)
    requires forall j :: 0 <= j < n ==> !faults(j).decodeFails
    ensures DecodedCount(faults, n) == n
  {
    if n > 0 {
      AllDecoded(faults, n - 1);
    }
  }

  /** A task that decodes is counted before every later task that decodes. */
  lemma {:induction false} DecodedCountGrows(faults: nat -> TaskFaults, j: nat, k: nat)
    requires j < k && !faults(j).decodeFails
    decreases k
    ensures DecodedCount(faults, j) < DecodedCount(faults, k)
  {
    if j < k - 1 {
      DecodedCountGrows(faults, j, k - 1);
    }
  }

  /**
   What the publisher receives while the first n tasks are handled, when a
   decoded task's entry is rendered by `render`: one item per task that
   decodes, in batch order.
   */
  function Sent<T>(batch: seq<Task>, faults: nat -> TaskFaults, n: nat, render: Entry -> T): (r: seq<T>)
    requires n <= |batch|
    ensures |r| <= n
  {
    if n == 0 then []
    else
      var earlier := Sent(batch, faults, n - 1, render);
      if faults(n - 1).decodeFails then earlier else earlier + [render(batch[n - 1].payload)]
  }

  /** The statuses handed to the publisher while the first n tasks are handled. */
  function Posted(batch: seq<Task>, faults: nat -> TaskFaults, n: nat): seq<Bytes>
    requires n <= |batch|
  {
    Sent(batch, faults, n, Status)
  }

  /** One item is sent per task that decodes. */
  lemma {:induction false} SentCount<T>(batch: seq<Task>, faults: nat -> TaskFaults, n: nat, render: Entry -> T)
    requires n <= |batch|
    ensures |Sent(batch, faults, n, render)| == DecodedCount(faults, n)
  {
    if n > 0 {
      SentCount(batch, faults, n - 1, render);
    }
  }

  /** The task at position j, when it decodes, is sent as item number `DecodedCount(faults, j)`. */
  lemma {:induction false} SentInBatchOrder<T>(batch: seq<Task>, faults: nat -> TaskFaults, n: nat, render: Entry -> T, j: nat)
    requires n <= |batch| && j < n && !faults(j).decodeFails
    ensures DecodedCount(faults, j) < |Sent(batch, faults, n, render)|
    ensures Sent(batch, faults, n, render)[DecodedCount(faults, j)] == render(batch[j].payload)
  {
    var earlier := Sent(batch, faults, n - 1, render);
    SentCount(batch, faults, n - 1, render);
    if j < n - 1 {
      SentInBatchOrder(batch, faults, n - 1, render, j);
    }
  }

  /** Every item sent renders a task among the first n that decodes. */
  lemma {:induction false} SentFromBatch<T>(batch: seq<Task>, faults: nat -> TaskFaults, n: nat, render: Entry -> T, i: nat)
    requires n <= |batch| && i < |Sent(batch, faults, n, render)|
    ensures exists j :: 0 <= j < n && !faults(j).decodeFails && Sent(batch, faults, n, render)[i] == render(batch[j].payload)
  {
    var earlier := Sent(batch, faults, n - 1, render);
    if i < |earlier| {
      SentFromBatch(batch, faults, n - 1, render, i);
      var j :| 0 <= j < n - 1 && !faults(j).decodeFails && earlier[i] == render(batch[j].payload);
      assert Sent(batch, faults, n, render)[i] == earlier[i];
    } else {
      assert Sent(batch, faults, n, render)[i] == render(batch[n - 1].payload);
    }
  }

  /**
   The publisher receives exactly the statuses of the tasks that decode, in
   batch order: there are `DecodedCount(faults, n)` of them, the task at
   position j gives status number `DecodedCount(faults, j)`, which grows with
   j (`DecodedCountGrows`), and no status comes from anywhere else.
   */
  lemma PostedInBatchOrder(batch: seq<Task>, faults: nat -> TaskFaults, n: nat)
    requires n <= |batch|
    ensures |Posted(batch, faults, n)| == DecodedCount(faults, n)
    ensures forall j :: 0 <= j < n && !faults(j).decodeFails ==>
      DecodedCount(faults, j) < |Posted(batch, faults, n)| && Posted(batch, faults, n)[DecodedCount(faults, j)] == Status(batch[j].payload)
    ensures forall i :: 0 <= i < |Posted(batch, faults, n)| ==>
      exists j :: 0 <= j < n && !faults(j).decodeFails && Posted(batch, faults, n)[i] == Status(batch[j].payload)
  {
    SentCount(batch, faults, n, Status);
    forall j | 0 <= j < n && !faults(j).decodeFails
      ensures DecodedCount(faults, j) < |Posted(batch, faults, n)| && Posted(batch, faults, n)[DecodedCount(faults, j)] == Status(batch[j].payload)
    {
      SentInBatchOrder(batch, faults, n, Status, j);
    }
    forall i | 0 <= i < |Posted(batch, faults, n)|
      ensures exists j :: 0 <= j < n && !faults(j).decodeFails && Posted(batch, faults, n)[i] == Status(batch[j].payload)
    {
      SentFromBatch(batch, faults, n, Status, i);
    }
  }

  /** When no leased task fails to decode, every one of them is posted. */
  lemma AllPosted(batch: seq<Task>, faults: nat -> TaskFaults, n: nat)
    requires n <= |batch|
    requires forall j :: 0 <= j < n ==> !faults(j).decodeFails
    ensures |Posted(batch, faults, n)| == n
  {
    AllDecoded(faults, n);
    SentCount(batch, faults, n, Status);
  }

  /**
   One iteration of the worker's loop: decode the task, render and post its
   status, record its name in memcache and delete it, stopping at the first
   failure. `sent` is what the publisher received.
   */
  method HandleTask(cache: Memcache, queue: PullQueue, task: Task, f: TaskFaults) returns (sent: seq<Bytes>)
    requires queue.Valid()
    modifies cache, queue
    ensures queue.Valid()
    ensures State(cache.keys, queue.tasks) == Step(State(old(cache.keys), old(queue.tasks)), task, f)
    ensures sent == if f.decodeFails then [] else [Status(task.payload)]
  {
    sent := [];
    if f.decodeFails {
      return;
    }
    var result := task.payload;
    var status := Status(result);
    sent := [status];
    if f.publishFails {
      return;
    }
    var marked := cache.Add(task.name, f.markFails);
    if marked == AddError {
      return;
    }
    var deleted := queue.Delete(task.name, f.deleteFails);
  }

  /**
   Lease up to 20 tasks and handle each in turn. Any failure moves on to the
   next task and leaves this one in the queue.
   */
  method ProcessTasks(cache: Memcache, queue: PullQueue, leaseFails: bool, faults: nat -> TaskFaults)
    returns (r: Outcome, posted: seq<Bytes>)
    requires queue.Valid()
    modifies cache, queue
    ensures queue.Valid()
    ensures leaseFails ==> r == Failed(LeaseError) && posted == [] && unchanged(cache, queue)
    ensures !leaseFails ==>
      var batch := LeasedBatch(old(queue.tasks));
      && r == Ok
      && State(cache.keys, queue.tasks) == Run(State(old(cache.keys), old(queue.tasks)), batch, faults, |batch|)
      && posted == Posted(batch, faults, |batch|)
  {
    posted := [];
    var leased := queue.Lease(LeaseBatch, leaseFails);
    if leased == LeaseFailed {
      return Failed(LeaseError), posted;
    }
    var batch := leased.batch;
    ghost var st0 := State(cache.keys, queue.tasks);
    for i := 0 to |batch|
      invariant queue.Valid()
      invariant State(cache.keys, queue.tasks) == Run(st0, batch, faults, i)
      invariant posted == Posted(batch, faults, i)
    {
      var sent := HandleTask(cache, queue, batch[i], faults(i));
      posted := posted + sent;
    }
    return Ok, posted;
  }

  /** The names the first n tasks of the batch recorded in memcache. */
  function MarkedNames(batch: seq<Task>, faults: nat -> TaskFaults, n: nat): set<Bytes>
  {
    set j | 0 <= j < n && j < |batch| && Marked(faults(j)) :: batch[j].name
  }

  /** The names the first n tasks of the batch deleted from the queue. */
  function DeletedNames(batch: seq<Task>, faults: nat -> TaskFaults, n: nat): set<Bytes>
  {
    set j | 0 <= j < n && j < |batch| && Completed(faults(j)) :: batch[j].name
  }

  lemma MarkedNamesStep(batch: seq<Task>, faults: nat -> TaskFaults, n: nat)
    requires 0 < n <= |batch|
    ensures MarkedNames(batch, faults, n) ==
            MarkedNames(batch, faults, n - 1) + (if Marked(faults(n - 1)) then {batch[n - 1].name} else {})
  {
  }

  lemma DeletedNamesStep(batch: seq<Task>, faults: nat -> TaskFaults, n: nat)
    requires 0 < n <= |batch|
    ensures DeletedNames(batch, faults, n) ==
            DeletedNames(batch, faults, n - 1) + (if Completed(faults(n - 1)) then {batch[n - 1].name} else {})
  {
  }

  /**
   What a run does, exactly: memcache gains the names of the tasks that were
   posted and marked, and the queue loses the tasks that were also deleted;
   nothing else changes.
   */
  lemma {:induction false} RunEffect(st: State, batch: seq<Task>, faults: nat -> TaskFaults, n: nat)
    requires n <= |batch|
    ensures Run(st, batch, faults, n) ==
            State(st.seen + MarkedNames(batch, faults, n), Without(st.tasks, DeletedNames(batch, faults, n)))
  {
    if n == 0 {
      assert MarkedNames(batch, faults, 0) == {};
      assert DeletedNames(batch, faults, 0) == {};
      WithoutNothing(st.tasks);
    } else {
      RunEffect(st, batch, faults, n - 1);
      var prev := Run(st, batch, faults, n - 1);
      var f, name := faults(n - 1), batch[n - 1].name;
      var marked, deleted := MarkedNames(batch, faults, n - 1), DeletedNames(batch, faults, n - 1);
      var r := Run(st, batch, faults, n);
      assert r == Step(prev, batch[n - 1], f);
      if !Marked(f) {
        MarkedNamesStep(batch, faults, n);
        DeletedNamesStep(batch, faults, n);
        assert MarkedNames(batch, faults, n) == marked;
        assert DeletedNames(batch, faults, n) == deleted;
        assert r == prev;
      } else if f.deleteFails {
        MarkedNamesStep(batch, faults, n);
        DeletedNamesStep(batch, faults, n);
        assert MarkedNames(batch, faults, n) == marked + {name};
        assert DeletedNames(batch, faults, n) == deleted;
        assert r.seen == st.seen + marked + {name};
        assert r.tasks == Without(st.tasks, deleted);
      } else {
        MarkedNamesStep(batch, faults, n);
        DeletedNamesStep(batch, faults, n);
        WithoutTwice(st.tasks, deleted, {name});
        assert MarkedNames(batch, faults, n) == marked + {name};
        assert DeletedNames(batch, faults, n) == deleted + {name};
        assert r.seen == st.seen + marked + {name};
        assert r.tasks == Without(st.tasks, deleted + {name});
      }
    }
  }

  /** A task that was posted, marked and deleted ends in memcache and out of the queue. */
  lemma CompletedTaskDone(st: State, batch: seq<Task>, faults: nat -> TaskFaults, j: nat)
    requires j < |batch| && Completed(faults(j))
    ensures var r := Run(st, batch, faults, |batch|);
      batch[j].name in r.seen && batch[j].name !in Names(r.tasks)
  {
    RunEffect(st, batch, faults, |batch|);
    assert batch[j].name in MarkedNames(batch, faults, |batch|);
    assert batch[j].name in DeletedNames(batch, faults, |batch|);
    WithoutMembers(st.tasks, DeletedNames(batch, faults, |batch|));
  }

  /** A task whose memcache add succeeded is in memcache even when its delete failed. */
  lemma MarkedTaskSeen(st: State, batch: seq<Task>, faults: nat -> TaskFaults, j: nat)
    requires j < |batch| && Marked(faults(j))
    ensures batch[j].name in Run(st, batch, faults, |batch|).seen
  {
    RunEffect(st, batch, faults, |batch|);
    assert batch[j].name in MarkedNames(batch, faults, |batch|);
  }

  /**
   A leased task that failed to decode, to post, to be marked or to be
   deleted is still queued afterwards, whatever happened to the other tasks.
   */
  lemma UnfinishedTaskStays(st: State, batch: seq<Task>, faults: nat -> TaskFaults, j: nat)
    requires UniqueNames(batch) && j < |batch| && batch[j] in st.tasks
    requires !Completed(faults(j))
    ensures batch[j] in Run(st, batch, faults, |batch|).tasks
  {
    RunEffect(st, batch, faults, |batch|);
    assert batch[j].name !in DeletedNames(batch, faults, |batch|);
    WithoutMembers(st.tasks, DeletedNames(batch, faults, |batch|));
  }

  /** A task that was not posted (or not marked) leaves memcache without its name. */
  lemma UnpostedTaskUnseen(st: State, batch: seq<Task>, faults: nat -> TaskFaults, j: nat)
    requires UniqueNames(batch) && j < |batch| && batch[j].name !in st.seen
    requires !Marked(faults(j))
    ensures batch[j].name !in Run(st, batch, faults, |batch|).seen
  {
    RunEffect(st, batch, faults, |batch|);
    assert batch[j].name !in MarkedNames(batch, faults, |batch|);
  }

  /** A run keeps the queue's invariants: it only deletes tasks. */
  lemma RunKeepsQueueWellFormed(st: State, batch: seq<Task>, faults: nat -> TaskFaults)
    requires UniqueNames(st.tasks) && NamedByPayload(st.tasks)
    ensures UniqueNames(Run(st, batch, faults, |batch|).tasks) && NamedByPayload(Run(st, batch, faults, |batch|).tasks)
  {
    RunEffect(st, batch, faults, |batch|);
    WithoutKeepsUnique(st.tasks, DeletedNames(batch, faults, |batch|));
    WithoutKeepsNamed(st.tasks, DeletedNames(batch, faults, |batch|));
  }
}
