/** The phone's offline queue (mobile-app/src/services/queue.ts): texts
    that could not be sent wait in persistent storage, oldest first, and
    are replayed in order when the connection comes back. */
module OfflineQueue {
  import opened Common

  /** `QueuedTranscription`. */
  datatype QueuedTranscription = QueuedTranscription(id: string, deviceId: string, text: string, timestamp: int)

  /** `queue.filter(item => item.id !== id)`. */
  function Without(q: seq<QueuedTranscription>, id: string): (r: seq<QueuedTranscription>)
    ensures |r| <= |q|
  {
    if q == [] then []
    else if q[0].id != id then [q[0]] + Without(q[1..], id)
    else Without(q[1..], id)
  }

  /** The filter keeps exactly the items with another id. */
  lemma {:induction false} WithoutMembers(q: seq<QueuedTranscription>, id: string)
    ensures forall x :: x in Without(q, id) <==> x in q && x.id != id
  {
    if q != [] {
      WithoutMembers(q[1..], id);
      assert q == [q[0]] + q[1..];
    }
  }

  /** The filter works piece by piece, so the kept items keep their order. */
  lemma {:induction false} WithoutConcat(a: seq<QueuedTranscription>, b: seq<QueuedTranscription>, id: string)
    ensures Without(a + b, id) == Without(a, id) + Without(b, id)
  {
    if a == [] {
      assert a + b == b;
    } else {
      assert (a + b)[0] == a[0];
      assert (a + b)[1..] == a[1..] + b;
      WithoutConcat(a[1..], b, id);
    }
  }

  /** Removing an id no item has changes nothing. */
  lemma {:induction false} WithoutAbsent(q: seq<QueuedTranscription>, id: string)
    requires forall i :: 0 <= i < |q| ==> q[i].id != id
    ensures Without(q, id) == q
  {
    if q != [] {
      WithoutAbsent(q[1..], id);
      assert [q[0]] + q[1..] == q;
    }
  }

  /** Removing the same id twice is removing it once. */
  lemma WithoutTwice(q: seq<QueuedTranscription>, id: string)
    ensures Without(Without(q, id), id) == Without(q, id)
  {
    var r := Without(q, id);
    WithoutMembers(q, id);
    assert forall i :: 0 <= i < |r| ==> r[i] in r;
    WithoutAbsent(r, id);
  }

  /** `uuidv4()` gives every item its own id. */
  predicate DistinctIds(q: seq<QueuedTranscription>) {
    forall i, j :: 0 <= i < j < |q| ==> q[i].id != q[j].id
  }

  /** The stored queue after `replayQueue` has dequeued the ids of the
      first `k` items of the queue it loaded, one after another. */
  function Dequeued(q: seq<QueuedTranscription>, k: nat): (r: seq<QueuedTranscription>)
    requires k <= |q|
    ensures |r| <= |q|
  {
    if k == 0 then q else Without(Dequeued(q, k - 1), q[k - 1].id)
  }

  /** With distinct ids, dequeuing the first `k` items' ids leaves exactly
      the rest of the queue: what replay removes is a prefix. */
  lemma {:induction false} DequeuedPrefix(q: seq<QueuedTranscription>, k: nat)
    requires DistinctIds(q) && k <= |q|
    ensures Dequeued(q, k) == q[k..]
  {
    if k > 0 {
      DequeuedPrefix(q, k - 1);
      var rest := q[k..];
      assert q[k - 1..] == [q[k - 1]] + rest;
      WithoutAbsent(rest, q[k - 1].id);
    }
  }

  /** How many leading sends succeed, out of at most `n` attempts. */
  function LeadingSuccesses(outcomes: seq<bool>, n: nat): (count: nat)
    ensures count <= n && count <= |outcomes|
    ensures forall i :: 0 <= i < count ==> outcomes[i]
    ensures count < n && count < |outcomes| ==> !outcomes[count]
  {
    if n == 0 || outcomes == [] || !outcomes[0] then 0
    else 1 + LeadingSuccesses(outcomes[1..], n - 1)
  }

  /** Persistent storage under the queue's key; `None` when nothing has
      been stored yet. Each operation loads, changes and saves the whole
      list. */
  class QueueStorage {
    var stored: Option<seq<QueuedTranscription>>

    constructor ()
      ensures stored == None
    {
      stored := None;
    }

    /** What `loadQueue` reads. */
    function Contents(): (q: seq<QueuedTranscription>)
      reads this
      ensures stored.None? ==> q == []
      ensures stored.Some? ==> q == stored.value
    {
      stored.GetOr([])
    }

    /** `loadQueue`: the stored list, or `[]` when there is none. */
    method LoadQueue() returns (q: seq<QueuedTranscription>)
      ensures stored.None? ==> q == []
      ensures stored.Some? ==> q == stored.value
    {
      q := if stored.Some? then stored.value else [];
    }

    /** `enqueue`: appends one item, with a fresh id and the current time,
        after the items already there. */
    method Enqueue(deviceId: string, text: string, id: string, now: int) returns (item: QueuedTranscription)
      modifies this
      ensures item == QueuedTranscription(id, deviceId, text, now)
      ensures stored == Some(old(Contents()) + [item])
      ensures |Contents()| == |old(Contents())| + 1
    {
      var queue := LoadQueue();
      item := QueuedTranscription(id, deviceId, text, now);
      queue := queue + [item];
      stored := Some(queue);
    }

    /** `dequeue`: stores the queue without the items with that id. */
    method Dequeue(id: string)
      modifies this
      ensures stored == Some(Without(old(Contents()), id))
    {
      var queue := LoadQueue();
      stored := Some(Without(queue, id));
    }

    /** `getQueueLength`. */
    method GetQueueLength() returns (n: nat)
      ensures n == |Contents()|
    {
      var queue := LoadQueue();
      n := |queue|;
    }

    /** `replayQueue`: sends the loaded items in order; `outcomes[i]` is
        what the `i`-th send reports. Each success dequeues that item's
        id; the first failure ends the replay. Returns the number sent. */
    method ReplayQueue(outcomes: seq<bool>) returns (sentCount: nat)
      modifies this
      ensures sentCount == LeadingSuccesses(outcomes, |old(Contents())|)
      ensures sentCount == 0 ==> stored == old(stored)
      ensures sentCount > 0 ==> stored == Some(Dequeued(old(Contents()), sentCount))
    {
      var queue := LoadQueue();
      sentCount := 0;
      var i := 0;
      while i < |queue|
        invariant sentCount == i <= |queue|
        invariant i <= |outcomes| && forall j :: 0 <= j < i ==> outcomes[j]
        invariant i == 0 ==> stored == old(stored)
        invariant i > 0 ==> stored == Some(Dequeued(queue, i))
      {
        var success := i < |outcomes| && outcomes[i];
        if success {
          Dequeue(queue[i].id);
          sentCount := sentCount + 1;
          i := i + 1;
        } else {
          break;
        }
      }
      LeadingSuccessesExact(outcomes, |queue|, sentCount);
    }

    /** `clearQueue`: stores the empty list. */
    method ClearQueue()
      modifies this
      ensures stored == Some([]) && Contents() == []
    {
      stored := Some([]);
    }
  }

  /** The leading-success count is the first index that is not a success. */
  lemma {:induction false} LeadingSuccessesExact(outcomes: seq<bool>, n: nat, k: nat)
    requires k <= n
    requires k <= |outcomes| && forall j :: 0 <= j < k ==> outcomes[j]
    requires k == n || k == |outcomes| || !outcomes[k]
    ensures LeadingSuccesses(outcomes, n) == k
  {
    if k > 0 {
      assert outcomes[0];
      var rest := outcomes[1..];
      forall j | 0 <= j < k - 1
        ensures rest[j]
      {
        assert outcomes[j + 1];
      }
      LeadingSuccessesExact(rest, n - 1, k - 1);
    }
  }

  /** With distinct ids, a replay leaves the items after the sent ones, in
      their order: the items removed are exactly the first `sentCount`. */
  lemma ReplayRemovesPrefix(q: seq<QueuedTranscription>, outcomes: seq<bool>)
    requires DistinctIds(q)
    ensures LeadingSuccesses(outcomes, |q|) <= |q|
    ensures Dequeued(q, LeadingSuccesses(outcomes, |q|)) == q[LeadingSuccesses(outcomes, |q|)..]
  {
    DequeuedPrefix(q, LeadingSuccesses(outcomes, |q|));
  }

  /** A fresh id keeps the ids distinct. */
  lemma EnqueueKeepsDistinct(q: seq<QueuedTranscription>, item: QueuedTranscription)
    requires DistinctIds(q)
    requires forall i :: 0 <= i < |q| ==> q[i].id != item.id
    ensures DistinctIds(q + [item])
  {
  }
}
