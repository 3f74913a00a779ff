/**
 The data model shared by the poller and the worker: Go byte strings, the
 gallery entries decoded from the Imgur feed, and the pull-queue tasks that
 carry one entry each.
 */
module Imgur {

  /** A Go string is a sequence of bytes; `len` and slicing count bytes. */
  type Byte = b: int | 0 <= b < 256
  type Bytes = seq<Byte>

  /** The bytes of a string literal written in ASCII (each such character is its own byte). */
  function Ascii(s: string): (r: Bytes)
    ensures |r| == |s|
    ensures forall i :: 0 <= i < |s| && s[i] as int < 256 ==> r[i] == s[i] as int
  {
    seq(|s|, i requires 0 <= i < |s| => s[i] as int % 256)
  }

  /** One gallery image or album of the feed (`Result` in the source). */
  datatype Entry = Entry(id: Bytes, title: Bytes, cover: Bytes, link: Bytes)

  /** A signed 32-bit integer, the type of the feed's `status` field. */
  type Int32 = x: int | -0x8000_0000 <= x < 0x8000_0000

  /** The decoded feed response (`Results` in the source): entries newest first. */
  datatype Results = Results(data: seq<Entry>, success: bool, status: Int32)

  /** A pull-queue task: its name is the entry's id, its payload the encoded entry. */
  datatype Task = Task(name: Bytes, payload: Entry)

  /** What a handler returns to the HTTP adapter: nil, or the error that stopped it. */
  datatype HandlerError = RequestError | FetchError | DecodeError | LeaseError
  datatype Outcome = Ok | Failed(error: HandlerError)

  /** The names of the tasks of a queue. */
  function Names(q: seq<Task>): (r: set<Bytes>)
    ensures forall t :: t in q ==> t.name in r
    ensures forall n :: n in r ==> exists t :: t in q && t.name == n
  {
    set t | t in q :: t.name
  }

  /** No two tasks of the queue share a name (the task queue enforces this). */
  predicate UniqueNames(q: seq<Task>)
  {
    forall i, j :: 0 <= i < j < |q| ==> q[i].name != q[j].name
  }

  /** Every task is named by the id of the entry it carries (the poller names tasks so). */
  predicate NamedByPayload(q: seq<Task>)
  {
    forall i :: 0 <= i < |q| ==> q[i].name == q[i].payload.id
  }

  /** The queue without the tasks whose names are in `drop`, the others kept in order. */
  function Without(q: seq<Task>, drop: set<Bytes>): (r: seq<Task>)
    ensures |r| <= |q|
  {
    if |q| == 0 then []
    else
      var rest := Without(q[..|q| - 1], drop);
      var last := q[|q| - 1];
      assert q == q[..|q| - 1] + [last];
      if last.name in drop then rest else rest + [last]
  }

  /** Removing names keeps the queue's names unique. */
  lemma {:induction false} WithoutKeepsUnique(q: seq<Task>, drop: set<Bytes>)
    requires UniqueNames(q)
    ensures UniqueNames(Without(q, drop))
  {
    if |q| > 0 {
      var init := q[..|q| - 1];
      WithoutKeepsUnique(init, drop);
      WithoutMembers(init, drop);
      var last := q[|q| - 1];
      assert q == init + [last];
      assert last.name !in Names(init);
      assert last.name !in Names(Without(init, drop));
    }
  }

  /** Removing names keeps every task named by its payload. */
  lemma {:induction false} WithoutKeepsNamed(q: seq<Task>, drop: set<Bytes>)
    requires NamedByPayload(q)
    ensures NamedByPayload(Without(q, drop))
  {
    if |q| > 0 {
      WithoutKeepsNamed(q[..|q| - 1], drop);
    }
  }

  /** Removing two sets of names one after the other removes their union. */
  lemma {:induction false} WithoutTwice(q: seq<Task>, a: set<Bytes>, b: set<Bytes>)
    ensures Without(Without(q, a), b) == Without(q, a + b)
  {
    if |q| > 0 {
      WithoutTwice(q[..|q| - 1], a, b);
      var last := q[|q| - 1];
      if last.name !in a {
        var r := Without(q[..|q| - 1], a);
        assert (r + [last])[..|r + [last]| - 1] == r;
      }
    }
  }

  /** Removing no names changes nothing. */
  lemma {:induction false} WithoutNothing(q: seq<Task>)
    ensures Without(q, {}) == q
  {
    if |q| > 0 {
      WithoutNothing(q[..|q| - 1]);
      assert q == q[..|q| - 1] + [q[|q| - 1]];
    }
  }

  /** Exactly the tasks whose names are not dropped remain. */
  lemma {:induction false} WithoutMembers(q: seq<Task>, drop: set<Bytes>)
    ensures forall t :: t in Without(q, drop) <==> t in q && t.name !in drop
  {
    if |q| > 0 {
      WithoutMembers(q[..|q| - 1], drop);
      assert q == q[..|q| - 1] + [q[|q| - 1]];
    }
  }
}
