/**
 The two shared services the handlers coordinate through: the memcache
 namespace that records published ids, and the "pull-queue" task queue.
 Each call takes, as an input, whether the service call fails; otherwise
 its answer follows from the stored state.
 */
module Stores {
  import opened Imgur

  /** The three answers of `memcache.Get`: the key is there, `ErrCacheMiss`, or another error. */
  datatype Lookup = Hit | CacheMiss | LookupError

  /** The three answers of `memcache.Add`: stored, `ErrNotStored` (key already there), or another error. */
  datatype AddResult = Stored | NotStored | AddError

  /** The three answers of `taskqueue.Add`: added, `ErrTaskAlreadyAdded`, or another error. */
  datatype EnqueueResult = Added | AlreadyAdded | EnqueueError

  /** The answer of `taskqueue.Lease`: the leased tasks, or an error. */
  datatype LeaseResult = Leased(batch: seq<Task>) | LeaseFailed

  /** The memcache keys, i.e. the ids already published (values and expiry are not modelled). */
  class Memcache {
    var keys: set<Bytes>

    constructor (initial: set<Bytes>)
      ensures keys == initial
    {
      keys := initial;
    }

    method Get(key: Bytes, fails: bool) returns (r: Lookup)
      ensures r == LookupError <==> fails
      ensures r == Hit <==> !fails && key in keys
      ensures r == CacheMiss <==> !fails && key !in keys
    {
      if fails {
        r := LookupError;
      } else if key in keys {
        r := Hit;
      } else {
        r := CacheMiss;
      }
    }

    /** Add-if-absent: a present key is left as it is and reported as `NotStored`. */
    method Add(key: Bytes, fails: bool) returns (r: AddResult)
      modifies this
      ensures r == AddError <==> fails
      ensures r == NotStored <==> !fails && key in old(keys)
      ensures keys == if fails then old(keys) else old(keys) + {key}
    {
      if fails {
        r := AddError;
      } else if key in keys {
        r := NotStored;
      } else {
        r := Stored;
        keys := keys + {key};
      }
    }
  }

  /** The pull-queue: its tasks in the order they were added, each name at most once. */
  class PullQueue {
    var tasks: seq<Task>

    ghost predicate Valid()
      reads this
    {
      UniqueNames(tasks)
    }

    constructor (initial: seq<Task>)
      requires UniqueNames(initial)
      ensures Valid() && tasks == initial
    {
      tasks := initial;
    }

    /** Add-if-absent by task name: a task whose name is queued is refused with `AlreadyAdded`. */
    method Add(t: Task, fails: bool) returns (r: EnqueueResult)
      requires Valid()
      modifies this
      ensures Valid()
      ensures r == EnqueueError <==> fails
      ensures r == AlreadyAdded <==> !fails && t.name in Names(old(tasks))
      ensures tasks == if r == Added then old(tasks) + [t] else old(tasks)
    {
      if fails {
        r := EnqueueError;
      } else if t.name in Names(tasks) {
        r := AlreadyAdded;
      } else {
        r := Added;
        tasks := tasks + [t];
      }
    }

    /**
     Leases up to `max` tasks, oldest first. Leasing hides tasks from other
     leases for a while; within one handler run that changes nothing, so the
     queue's contents stay as they are.
     */
    method Lease(max: nat, fails: bool) returns (r: LeaseResult)
      requires Valid()
      ensures r == LeaseFailed <==> fails
      ensures r.Leased? ==> |r.batch| == Min(max, |tasks|) && r.batch == tasks[..|r.batch|]
      ensures r.Leased? ==> UniqueNames(r.batch)
    {
      if fails {
        r := LeaseFailed;
      } else {
        r := Leased(tasks[..Min(max, |tasks|)]);
      }
    }

    /** Deletes the task with the given name. */
    method Delete(name: Bytes, fails: bool) returns (ok: bool)
      requires Valid()
      modifies this
      ensures Valid()
      ensures ok <==> !fails
      ensures tasks == if fails then old(tasks) else Without(old(tasks), {name})
    {
      ok := !fails;
      if ok {
        WithoutKeepsUnique(tasks, {name});
        tasks := Without(tasks, {name});
      }
    }
  }

  function Min(a: int, b: int): int
  {
    if a < b then a else b
  }
}
