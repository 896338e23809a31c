/** The relay's per-device message queue (backend-server/src/services/queue.ts):
    FIFO, at most 50 entries, entries older than 24 hours pruned lazily. */
module MessageQueue {
  import opened Common
  import opened Messages

  const MaxQueueSize: nat := 50
  const MaxQueueAgeMs: int := 24 * 60 * 60 * 1000

  /** The filter both `enqueue` and `drainQueue` apply. */
  predicate IsFresh(m: QueuedMessage, now: int) {
    now - m.timestamp < MaxQueueAgeMs
  }

  /** `queue.filter(m => now - m.timestamp < MAX_QUEUE_AGE_MS)`: keeps the
      fresh entries, in their order. */
  function Unexpired(q: seq<QueuedMessage>, now: int): (r: seq<QueuedMessage>)
    ensures |r| <= |q|
  {
    if q == [] then []
    else if IsFresh(q[0], now) then [q[0]] + Unexpired(q[1..], now)
    else Unexpired(q[1..], now)
  }

  /** The pruned queue holds exactly the fresh entries of the original. */
  lemma {:induction false} UnexpiredMembers(q: seq<QueuedMessage>, now: int)
    ensures forall m :: m in Unexpired(q, now) <==> m in q && IsFresh(m, now)
  {
    if q != [] {
      UnexpiredMembers(q[1..], now);
      assert q == [q[0]] + q[1..];
    }
  }

  lemma {:induction false} UnexpiredConcat(a: seq<QueuedMessage>, b: seq<QueuedMessage>, now: int)
    ensures Unexpired(a + b, now) == Unexpired(a, now) + Unexpired(b, now)
  {
    if a == [] {
      assert a + b == b;
    } else {
      assert (a + b)[0] == a[0];
      assert (a + b)[1..] == a[1..] + b;
      UnexpiredConcat(a[1..], b, now);
    }
  }

  /** An entry that has expired stays expired: pruning at one time and
      again later is the same as pruning once, later. */
  lemma {:induction false} PruneLater(q: seq<QueuedMessage>, now: int, later: int)
    requires now <= later
    ensures Unexpired(Unexpired(q, now), later) == Unexpired(q, later)
  {
    if q != [] {
      PruneLater(q[1..], now, later);
      if IsFresh(q[0], now) {
        assert Unexpired(q, now) == [q[0]] + Unexpired(q[1..], now);
        UnexpiredConcat([q[0]], Unexpired(q[1..], now), later);
      }
    }
  }

  lemma {:induction false} AllFreshUnexpired(q: seq<QueuedMessage>, now: int)
    requires forall i :: 0 <= i < |q| ==> IsFresh(q[i], now)
    ensures Unexpired(q, now) == q
  {
    if q != [] {
      AllFreshUnexpired(q[1..], now);
    }
  }

  /** What `messageQueues.get(normalized) || []` reads. */
  function Stored(queues: map<string, seq<QueuedMessage>>, key: string): seq<QueuedMessage> {
    if key in queues then queues[key] else []
  }

  /** The device's queue after `enqueue` at time `now`: `None` is
      `QUEUE_FULL` (the stored queue is not touched); otherwise the fresh
      old entries, in order, then the new message. */
  function EnqueueValue(q: seq<QueuedMessage>, message: QueuedMessage, now: int): (r: Option<seq<QueuedMessage>>)
    ensures r.None? <==> |Unexpired(q, now)| >= MaxQueueSize
    ensures r.Some? ==> 0 < |r.value| <= MaxQueueSize && r.value[|r.value| - 1] == message
                        && r.value[..|r.value| - 1] == Unexpired(q, now)
  {
    var kept := Unexpired(q, now);
    if |kept| >= MaxQueueSize then None else Some(kept + [message])
  }

  /** The device's queue after enqueueing `ms` one after another at `now`
      (a refused message leaves the queue as it was). */
  function EnqueueEach(q: seq<QueuedMessage>, ms: seq<QueuedMessage>, now: int): seq<QueuedMessage>
    decreases |ms|
  {
    if ms == [] then q
    else
      var next := EnqueueValue(q, ms[0], now);
      EnqueueEach(next.GetOr(q), ms[1..], now)
  }

  /** FIFO: as long as there is room, a drain at any later time returns the
      old fresh entries and then the new messages that are still fresh, in
      the order they were enqueued. */
  lemma {:induction false} DrainAfterEnqueuesIsFifo(q: seq<QueuedMessage>, ms: seq<QueuedMessage>, now: int, later: int)
    requires |Unexpired(q, now)| + |ms| <= MaxQueueSize
    requires now <= later
    ensures Unexpired(EnqueueEach(q, ms, now), later) == Unexpired(q, later) + Unexpired(ms, later)
    decreases |ms|
  {
    if ms == [] {
      assert Unexpired(ms, later) == [];
    } else {
      var q1 := Unexpired(q, now) + [ms[0]];
      assert EnqueueEach(q, ms, now) == EnqueueEach(q1, ms[1..], now);
      DrainAfterEnqueuesIsFifo(q1, ms[1..], now, later);
      PruneThenAppend(q, ms[0], now, later);
      UnexpiredConcat([ms[0]], ms[1..], later);
      assert [ms[0]] + ms[1..] == ms;
    }
  }

  lemma PruneThenAppend(q: seq<QueuedMessage>, m: QueuedMessage, now: int, later: int)
    requires now <= later
    ensures Unexpired(Unexpired(q, now) + [m], later) == Unexpired(q, later) + Unexpired([m], later)
  {
    UnexpiredConcat(Unexpired(q, now), [m], later);
    PruneLater(q, now, later);
  }

  /** No entries are pruned while the queue is full of fresh ones, so the
      51st fresh message is refused. */
  lemma FullOfFreshRefuses(q: seq<QueuedMessage>, m: QueuedMessage, now: int)
    requires |q| >= MaxQueueSize
    requires forall i :: 0 <= i < |q| ==> IsFresh(q[i], now)
    ensures EnqueueValue(q, m, now) == None
  {
    AllFreshUnexpired(q, now);
  }

  datatype EnqueueResult = Enqueued | QueueFullError

  /** Stored queues are keyed by normal forms, never empty and never longer
      than the capacity. */
  ghost predicate WellFormed(queues: map<string, seq<QueuedMessage>>) {
    forall k :: k in queues ==> IsNormalized(k) && 0 < |queues[k]| <= MaxQueueSize
  }

  lemma StoreKeepsWellFormed(queues: map<string, seq<QueuedMessage>>, k: string, q: seq<QueuedMessage>)
    requires WellFormed(queues) && IsNormalized(k) && 0 < |q| <= MaxQueueSize
    ensures WellFormed(queues[k := q])
  {
  }

  /** The module-level `messageQueues` map. */
  class MessageQueues {
    var queues: map<string, seq<QueuedMessage>>

    ghost predicate Valid()
      reads this
    {
      WellFormed(queues)
    }

    constructor ()
      ensures Valid() && queues == map[]
    {
      queues := map[];
    }

    /** `enqueue`: prunes a copy, refuses when the copy is at capacity
        (storing nothing), else stores the copy plus the message. Other
        devices' queues are untouched. */
    method Enqueue(deviceId: string, message: QueuedMessage, now: int) returns (r: EnqueueResult)
      requires Valid()
      modifies this
      ensures Valid()
      ensures var n := NormalizeDeviceId(deviceId);
        match EnqueueValue(Stored(old(queues), n), message, now)
        case None => r == QueueFullError && queues == old(queues)
        case Some(q) => r == Enqueued && queues == old(queues)[n := q]
    {
      var normalized := NormalizeDeviceId(deviceId);
      var queue := if normalized in queues then queues[normalized] else [];
      queue := Unexpired(queue, now);
      ghost var outcome := EnqueueValue(Stored(queues, normalized), message, now);
      if |queue| >= MaxQueueSize {
        assert outcome == None;
        return QueueFullError;
      }
      assert outcome == Some(queue + [message]);
      queue := queue + [message];
      NormalizeIdempotent(deviceId);
      StoreKeepsWellFormed(queues, normalized, queue);
      queues := queues[normalized := queue];
      return Enqueued;
    }

    /** `drainQueue`: deletes the device's entry and returns its fresh
        messages in FIFO order. */
    method DrainQueue(deviceId: string, now: int) returns (messages: seq<QueuedMessage>)
      requires Valid()
      modifies this
      ensures Valid()
      ensures messages == Unexpired(Stored(old(queues), NormalizeDeviceId(deviceId)), now)
      ensures queues == old(queues) - {NormalizeDeviceId(deviceId)}
    {
      var normalized := NormalizeDeviceId(deviceId);
      var queue := if normalized in queues then queues[normalized] else [];
      queues := queues - {normalized};
      messages := Unexpired(queue, now);
    }

    /** `getQueueSize`: the stored length, expired entries included. */
    function GetQueueSize(deviceId: string): (size: nat)
      reads this
      requires Valid()
      ensures size <= MaxQueueSize
      ensures size == 0 <==> NormalizeDeviceId(deviceId) !in queues
      ensures forall now :: size >= |Unexpired(Stored(queues, NormalizeDeviceId(deviceId)), now)|
    {
      |Stored(queues, NormalizeDeviceId(deviceId))|
    }

    /** `hasQueuedMessages`: some entry is stored, expired or not. */
    function HasQueuedMessages(deviceId: string): (has: bool)
      reads this
      requires Valid()
      ensures has <==> GetQueueSize(deviceId) > 0
    {
      var normalized := NormalizeDeviceId(deviceId);
      normalized in queues && |queues[normalized]| > 0
    }
  }
}
