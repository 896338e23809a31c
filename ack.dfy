/** The relay's acknowledgement tracker (backend-server/src/websocket/ack.ts).

    Every `sendAndWaitForAck` creates a promise together with a timeout
    timer; here both are one numbered handle. A handle is settled by one
    of three paths: the agent's ack (true), its own timer firing (false)
    or a per-device cancel (false). Settlements are logged in the order
    they happen. */
module AckTracking {
  import opened Messages

  const DefaultAckTimeoutMs: int := 5000

  /** A `pendingAcks` entry: the device id the caller passed (as given,
      not normalised) and the handle of the promise waiting for the ack. */
  datatype PendingAck = PendingAck(deviceId: string, handle: nat)

  /** A running timeout: which message id it deletes when it fires. */
  datatype AckTimer = AckTimer(messageId: string, delayMs: int)

  /** A settled promise and the value it was resolved with. */
  datatype Resolution = Resolution(handle: nat, delivered: bool)

  /** The ids of the pending entries stored under exactly `deviceId`. */
  function Owned(pending: map<string, PendingAck>, deviceId: string): set<string> {
    set id | id in pending && pending[id].deviceId == deviceId
  }

  /** The handles of those entries. */
  function OwnedHandles(pending: map<string, PendingAck>, deviceId: string): set<nat> {
    set id | id in pending && pending[id].deviceId == deviceId :: pending[id].handle
  }

  /** The pending entries that survive a cancel for `deviceId`. */
  function Without(pending: map<string, PendingAck>, deviceId: string): (r: map<string, PendingAck>)
    ensures forall id :: id in r <==> id in pending && pending[id].deviceId != deviceId
    ensures forall id :: id in r ==> r[id] == pending[id]
  {
    map id | id in pending && pending[id].deviceId != deviceId :: pending[id]
  }

  /** The handles of the entries stored under the ids in `ids`. */
  function HandlesOf(pending: map<string, PendingAck>, ids: set<string>): set<nat> {
    set id | id in ids && id in pending :: pending[id].handle
  }

  lemma HandlesOfAdd(pending: map<string, PendingAck>, ids: set<string>, id: string)
    requires id in pending
    ensures HandlesOf(pending, ids + {id}) == HandlesOf(pending, ids) + {pending[id].handle}
  {
  }

  /** A false resolution of one of `handles`. */
  function CancelsOf(handles: set<nat>): set<Resolution> {
    set h | h in handles :: Resolution(h, false)
  }

  /** Removing the owned ids is what `Without` keeps, and their handles are
      the owned handles. */
  lemma CancelRemovesOwned(pending: map<string, PendingAck>, deviceId: string)
    ensures pending - Owned(pending, deviceId) == Without(pending, deviceId)
    ensures HandlesOf(pending, Owned(pending, deviceId)) == OwnedHandles(pending, deviceId)
  {
  }

  lemma RemoveStep<K, V>(m: map<K, V>, gone: set<K>, k: K)
    ensures (m - gone) - {k} == m - (gone + {k})
  {
  }

  predicate IsSettled(log: seq<Resolution>, h: nat) {
    exists i :: 0 <= i < |log| && log[i].handle == h
  }

  /** No handle appears twice in the log: no promise is settled twice. */
  predicate SettledOnce(log: seq<Resolution>) {
    forall i, j :: 0 <= i < j < |log| ==> log[i].handle != log[j].handle
  }

  class AckTracker {
    /** `pendingAcks`, keyed by message id. */
    var pending: map<string, PendingAck>
    /** The timers not yet fired nor cleared, by handle. */
    var armed: map<nat, AckTimer>
    /** Every promise settled so far, in order. */
    var resolutions: seq<Resolution>
    /** The handle the next `sendAndWaitForAck` gets. */
    var nextHandle: nat

    /** Each pending entry's timer is still running and deletes that very
        entry; every handle ever created has its timer running or has
        been settled, never both; nothing is settled twice. */
    ghost predicate Valid()
      reads this
    {
      && (forall id :: id in pending ==>
            pending[id].handle in armed && armed[pending[id].handle].messageId == id)
      && (forall h :: h in armed ==> h < nextHandle)
      && (forall i :: 0 <= i < |resolutions| ==>
            resolutions[i].handle < nextHandle && resolutions[i].handle !in armed)
      && (forall h :: 0 <= h < nextHandle ==> h in armed || IsSettled(resolutions, h))
      && SettledOnce(resolutions)
    }

    constructor ()
      ensures Valid()
      ensures pending == map[] && armed == map[] && resolutions == [] && nextHandle == 0
    {
      pending := map[];
      armed := map[];
      resolutions := [];
      nextHandle := 0;
    }

    /** `sendAndWaitForAck` up to its `await`: arms the timer, stores the
        entry under the message id (replacing any entry with that id) and
        then sends the frame. The returned handle stands for the promise. */
    method SendAndWaitForAck(wire: Wire, socket: SocketId, message: ServerMessage, deviceId: string, timeoutMs: int)
      returns (h: nat)
      requires Valid()
      modifies this, wire
      ensures Valid()
      ensures h == old(nextHandle) && nextHandle == h + 1
      ensures pending == old(pending)[message.id := PendingAck(deviceId, h)]
      ensures armed == old(armed)[h := AckTimer(message.id, timeoutMs)]
      ensures resolutions == old(resolutions)
      ensures wire.actions == old(wire.actions) + [Sent(socket, message)]
    {
      h := nextHandle;
      nextHandle := nextHandle + 1;
      armed := armed[h := AckTimer(message.id, timeoutMs)];
      pending := pending[message.id := PendingAck(deviceId, h)];
      wire.Send(socket, message);
    }

    /** `handleAck`: an unknown id returns false and changes nothing; a
        pending one has its timer cleared, is resolved true, is removed,
        and true is returned. */
    method HandleAck(messageId: string) returns (found: bool)
      requires Valid()
      modifies this
      ensures Valid()
      ensures found <==> messageId in old(pending)
      ensures !found ==> pending == old(pending) && armed == old(armed) && resolutions == old(resolutions)
      ensures found ==> var h := old(pending)[messageId].handle;
        && pending == old(pending) - {messageId}
        && armed == old(armed) - {h}
        && resolutions == old(resolutions) + [Resolution(h, true)]
      ensures nextHandle == old(nextHandle)
    {
      if messageId !in pending {
        return false;
      }
      Resolve(messageId, true);
      return true;
    }

    /** The ack and cancel paths for one pending entry: clear its timer,
        resolve its promise with `delivered`, delete the entry. */
    method Resolve(messageId: string, delivered: bool)
      requires Valid() && messageId in pending
      modifies this
      ensures Valid()
      ensures var h := old(pending)[messageId].handle;
        && pending == old(pending) - {messageId}
        && armed == old(armed) - {h}
        && resolutions == old(resolutions) + [Resolution(h, delivered)]
      ensures nextHandle == old(nextHandle)
    {
      var h := pending[messageId].handle;
      Settle(h, delivered);
      pending := pending - {messageId};
    }

    /** A running timer fires: whatever entry is stored under its message
        id is deleted, and its own promise is resolved false. */
    method TimeoutFired(h: nat)
      requires Valid() && h in armed
      modifies this
      ensures Valid()
      ensures pending == old(pending) - {old(armed)[h].messageId}
      ensures armed == old(armed) - {h}
      ensures resolutions == old(resolutions) + [Resolution(h, false)]
      ensures nextHandle == old(nextHandle)
    {
      var id := armed[h].messageId;
      Settle(h, false);
      pending := pending - {id};
    }

    /** `clearTimeout` followed by `resolve(delivered)`, shared by the three
        paths; the caller removes the entry. */
    method Settle(h: nat, delivered: bool)
      requires Valid() && h in armed
      modifies this
      ensures armed == old(armed) - {h}
      ensures resolutions == old(resolutions) + [Resolution(h, delivered)]
      ensures pending == old(pending) && nextHandle == old(nextHandle)
      ensures forall id :: id in pending && pending[id].handle != h ==>
        pending[id].handle in armed && armed[pending[id].handle].messageId == id
      ensures (forall k :: k in armed ==> k < nextHandle)
      ensures forall i :: 0 <= i < |resolutions| ==>
        resolutions[i].handle < nextHandle && resolutions[i].handle !in armed
      ensures forall k :: 0 <= k < nextHandle ==> k in armed || IsSettled(resolutions, k)
      ensures SettledOnce(resolutions)
    {
      armed := armed - {h};
      var before := resolutions;
      resolutions := resolutions + [Resolution(h, delivered)];
      forall k | 0 <= k < nextHandle && k !in armed
        ensures IsSettled(resolutions, k)
      {
        if k == h {
          assert resolutions[|before|].handle == k;
        } else {
          var i :| 0 <= i < |before| && before[i].handle == k;
          assert resolutions[i].handle == k;
        }
      }
    }

    /** `clearPendingAcks`: every entry stored under exactly `deviceId` has
        its timer cleared, is resolved false and is removed; all other
        entries stay as they were. */
    method ClearPendingAcks(deviceId: string)
      requires Valid()
      modifies this
      ensures Valid()
      ensures pending == Without(old(pending), deviceId)
      ensures armed == old(armed) - OwnedHandles(old(pending), deviceId)
      ensures |resolutions| == |old(resolutions)| + |Owned(old(pending), deviceId)|
      ensures resolutions[..|old(resolutions)|] == old(resolutions)
      ensures forall i :: |old(resolutions)| <= i < |resolutions| ==>
        resolutions[i] in CancelsOf(OwnedHandles(old(pending), deviceId))
      ensures nextHandle == old(nextHandle)
    {
      ghost var owned := OwnedHandles(pending, deviceId);
      ghost var cancelled: seq<Resolution> := [];
      var todo := Owned(pending, deviceId);
      ghost var done: set<string> := {};
      assert resolutions == old(resolutions) + cancelled;
      while todo != {}
        invariant Valid() && nextHandle == old(nextHandle)
        invariant todo !! done && todo + done == Owned(old(pending), deviceId)
        invariant Cancelling(old(pending), old(armed), old(resolutions), owned, done, cancelled)
        decreases todo
      {
        var id :| id in todo;
        cancelled := CancelStep(id, old(pending), old(armed), old(resolutions), owned, done, cancelled);
        todo := todo - {id};
        done := done + {id};
      }
      CancelRemovesOwned(old(pending), deviceId);
    }

    /** Where a cancel loop stands after cancelling the ids in `done`,
        starting from the state `p0`, `a0`, `log0`. */
    ghost predicate Cancelling(p0: map<string, PendingAck>, a0: map<nat, AckTimer>, log0: seq<Resolution>,
                               owned: set<nat>, done: set<string>, cancelled: seq<Resolution>)
      reads this
    {
      && pending == p0 - done
      && armed == a0 - HandlesOf(p0, done)
      && resolutions == log0 + cancelled && |cancelled| == |done|
      && (forall i :: 0 <= i < |cancelled| ==> cancelled[i] in CancelsOf(owned))
    }

    /** One iteration of `clearPendingAcks`. */
    method CancelStep(id: string, ghost p0: map<string, PendingAck>, ghost a0: map<nat, AckTimer>,
                      ghost log0: seq<Resolution>, ghost owned: set<nat>, ghost done: set<string>,
                      ghost cancelled: seq<Resolution>)
      returns (ghost cancelled': seq<Resolution>)
      requires Valid() && Cancelling(p0, a0, log0, owned, done, cancelled)
      requires id in p0 && id !in done && p0[id].handle in owned
      modifies this
      ensures Valid() && nextHandle == old(nextHandle)
      ensures Cancelling(p0, a0, log0, owned, done + {id}, cancelled')
    {
      assert id in pending && pending[id] == p0[id];
      Resolve(id, false);
      cancelled' := cancelled + [Resolution(p0[id].handle, false)];
      HandlesOfAdd(p0, done, id);
      RemoveStep(p0, done, id);
      RemoveStep(a0, HandlesOf(p0, done), p0[id].handle);
      assert |done + {id}| == |done| + 1;
    }

    /** A promise still waiting in `pendingAcks` has not been settled, so
        whichever of the three paths reaches it first settles it, and
        only once. */
    lemma PendingNotSettled(messageId: string)
      requires Valid() && messageId in pending
      ensures !IsSettled(resolutions, pending[messageId].handle)
      ensures pending[messageId].handle in armed
    {
    }

    /** `hasPendingAcks`: scans the entries for one stored under exactly
        `deviceId`. */
    method HasPendingAcks(deviceId: string) returns (has: bool)
      ensures has <==> Owned(pending, deviceId) != {}
    {
      var rest := pending.Keys;
      while rest != {}
        invariant rest <= pending.Keys
        invariant forall id :: id in pending && id !in rest ==> pending[id].deviceId != deviceId
        decreases rest
      {
        var id :| id in rest;
        if pending[id].deviceId == deviceId {
          assert id in Owned(pending, deviceId);
          return true;
        }
        rest := rest - {id};
      }
      return false;
    }
  }
}
