/**
 Properties of the poller and the worker taken together: they share only
 memcache and the pull-queue, and through them an entry is posted once.
 */
module Pipeline {
  import opened Imgur
  import opened Render
  import opened Stores
  import opened Poller
  import opened Worker

  /**
   Once a task has been posted, marked and deleted, no later poll puts it
   back in the queue, whatever the feed holds and whatever the services answer.
   */
  lemma CompletedNeverRequeued(st: State, batch: seq<Task>, faults: nat -> TaskFaults, j: nat,
                               fetch: Fetch, pollFaults: nat -> EntryFaults)
    requires j < |batch| && Completed(faults(j))
    ensures var after := Run(st, batch, faults, |batch|);
      batch[j].name !in Names(PolledQueue(after.seen, after.tasks, fetch, pollFaults))
  {
    var after := Run(st, batch, faults, |batch|);
    CompletedTaskDone(st, batch, faults, j);
    PollSkipsSeen(after.seen, after.tasks, fetch, pollFaults, batch[j].name);
  }

  /**
   Every status the worker posts links to the gallery page of a task it
   leased, when the queue holds tasks named by their entries' ids and ids
   contain no '/'.
   */
  lemma PostedLinksLeasedTask(batch: seq<Task>, faults: nat -> TaskFaults, n: nat)
    requires n <= |batch| && NamedByPayload(batch)
    requires forall t :: t in batch ==> Slash !in t.name
    ensures forall s :: s in Posted(batch, faults, n) ==> exists j :: 0 <= j < n && GalleryIdOf(s) == batch[j].name
  {
    var posted := Posted(batch, faults, n);
    forall s | s in posted
      ensures exists j :: 0 <= j < n && GalleryIdOf(s) == batch[j].name
    {
      var i :| 0 <= i < |posted| && posted[i] == s;
      SentFromBatch(batch, faults, n, Status, i);
      var j :| 0 <= j < n && !faults(j).decodeFails && s == Status(batch[j].payload);
      var e := batch[j].payload;
      assert batch[j] in batch && batch[j].name == e.id;
      StatusNamesGalleryId(e);
    }
  }

  // Scenarios: entry "1" is older than entry "2"; the feed lists the newest first.

  const Id1: Bytes := Ascii("1")
  const Id2: Bytes := Ascii("2")
  const Entry1 := Entry(Id1, Ascii("first"), [], Ascii("https://y"))
  const Entry2 := Entry(Id2, Ascii("second"), Ascii("abc"), Ascii("https://x"))
  const Feed := Decoded(Results([Entry2, Entry1], true, 200))

  /** With nothing seen or queued, "1" is enqueued before "2". */
  lemma ScenarioOldestEnqueuedFirst()
    ensures PolledQueue({}, [], Feed, _ => NoEntryFaults) == [Task(Id1, Entry1), Task(Id2, Entry2)]
  {
    var data := [Entry2, Entry1];
    assert Id1 != Id2 by { assert Id1[0] != Id2[0]; }
    assert OfferedFrom({}, [], data, _ => NoEntryFaults, 1) == [Task(Id1, Entry1)];
  }

  /** With "1" already seen, only "2" is enqueued. */
  lemma ScenarioSeenSkipped()
    ensures PolledQueue({Id1}, [], Feed, _ => NoEntryFaults) == [Task(Id2, Entry2)]
  {
    var data := [Entry2, Entry1];
    assert Id1 != Id2 by { assert Id1[0] != Id2[0]; }
    assert OfferedFrom({Id1}, [], data, _ => NoEntryFaults, 1) == [];
  }

  /** A feed that reports a failure enqueues nothing (`PollImgur` then answers Ok). */
  lemma ScenarioUnsuccessfulFeed(seen: set<Bytes>, q: seq<Task>, faults: nat -> EntryFaults)
    ensures PolledQueue(seen, q, Decoded(Results([Entry2, Entry1], false, 200)), faults) == q
    ensures PolledQueue(seen, q, Decoded(Results([Entry2, Entry1], true, 500)), faults) == q
  {
  }

  /** The worker posts "1" successfully: "1" is seen and no longer queued. */
  lemma ScenarioPublishSucceeds()
    ensures Run(State({}, [Task(Id1, Entry1)]), [Task(Id1, Entry1)], _ => NoTaskFaults, 1) == State({Id1}, [])
  {
    assert Without([Task(Id1, Entry1)], {Id1}) == [];
  }

  /** The publisher fails for "1": it stays queued and is not seen. */
  lemma ScenarioPublishFails()
    ensures Run(State({}, [Task(Id1, Entry1)]), [Task(Id1, Entry1)], _ => TaskFaults(false, true, false, false), 1)
         == State({}, [Task(Id1, Entry1)])
  {
  }

  /** Entry "2" has a cover, so its link is the cover image; entry "1" has none, so its own link is used. */
  lemma ScenarioLinks()
    ensures ChooseLink(Entry2) == Ascii("http://i.imgur.com/abc.jpg")
    ensures ChooseLink(Entry1) == Ascii("https://y")
  {
    assert Ascii("http://i.imgur.com/") + Ascii("abc") + Ascii(".jpg") == Ascii("http://i.imgur.com/abc.jpg");
  }

  /** A 120-byte title becomes its first 90 bytes and the marker; a 91-byte title is kept. */
  lemma ScenarioTitles(long: Bytes, exact: Bytes)
    requires |long| == 120 && |exact| == 91
    ensures TruncateTitle(long) == long[..90] + Ellipsis && |TruncateTitle(long)| == 97
    ensures TruncateTitle(exact) == exact
  {
  }
}
