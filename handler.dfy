/** One accepted agent WebSocket on the relay
    (backend-server/src/websocket/handler.ts): the per-connection
    `deviceId` bookkeeping, registration with duplicate rejection, burst
    delivery of queued messages, and the pong and close handlers. */
module WsHandler {
  import opened Common
  import opened Messages
  import opened Registry
  import opened MessageQueue
  import opened AckTracking

  /** A frame received from the agent, after `JSON.parse`. `Unparsable`
      stands for any frame the parse (or the handler) throws on. */
  datatype InboundFrame =
    | Unparsable
    | RegisterFrame(deviceId: string)
    | AckFrame(id: string)
    | OtherFrame

  /** The frame a queued message is burst-delivered as: the same id, text,
      payload and timestamp. */
  function AsFrame(m: QueuedMessage): ServerMessage {
    Transcription(m.id, m.text, m.payload, m.timestamp)
  }

  /** The sends of a burst delivery of `ms` on `socket`, in order. */
  function Burst(socket: SocketId, ms: seq<QueuedMessage>): (r: seq<SocketAction>)
    ensures |r| == |ms|
  {
    seq(|ms|, i requires 0 <= i < |ms| => Sent(socket, AsFrame(ms[i])))
  }

  /** handler.ts:119-126: each burst frame carries the queued message's
      fields unchanged, and the frames go out in drain order. */
  lemma BurstCarriesMessages(socket: SocketId, ms: seq<QueuedMessage>)
    ensures forall i :: 0 <= i < |ms| ==>
      Burst(socket, ms)[i].Sent? && Burst(socket, ms)[i].socket == socket &&
      var f := Burst(socket, ms)[i].frame;
      f.id == ms[i].id && f.text == ms[i].text && f.payload == ms[i].payload && f.timestamp == ms[i].timestamp
  {
  }

  lemma BurstSnoc(socket: SocketId, ms: seq<QueuedMessage>, i: nat)
    requires i < |ms|
    ensures Burst(socket, ms[..i + 1]) == Burst(socket, ms[..i]) + [Sent(socket, AsFrame(ms[i]))]
  {
  }

  /** `deliverQueuedMessages`: drains the device's queue and sends every
      message that was still fresh, in FIFO order, without waiting for
      acks (the tracker is not touched). */
  method DeliverQueuedMessages(socket: SocketId, deviceId: string, queues: MessageQueues, wire: Wire, now: int)
    requires queues.Valid()
    modifies queues, wire
    ensures queues.Valid()
    ensures queues.queues == old(queues.queues) - {NormalizeDeviceId(deviceId)}
    ensures wire.actions == old(wire.actions)
                            + Burst(socket, Unexpired(Stored(old(queues.queues), NormalizeDeviceId(deviceId)), now))
  {
    var messages := queues.DrainQueue(deviceId, now);
    if |messages| == 0 {
      assert Burst(socket, messages) == [];
      return;
    }
    var i := 0;
    while i < |messages|
      invariant 0 <= i <= |messages|
      invariant wire.actions == old(wire.actions) + Burst(socket, messages[..i])
      modifies wire
    {
      BurstSnoc(socket, messages, i);
      wire.Send(socket, AsFrame(messages[i]));
      i := i + 1;
    }
    assert messages[..i] == messages;
  }

  /** `handleRegister`. A normal form already registered gets the new
      socket closed with 4000 `DUPLICATE_CONNECTION`, and nothing else
      changes. Otherwise the agent is registered alive under the normal
      form and whatever is queued for it is burst-delivered. */
  method HandleRegister(socket: SocketId, rawDeviceId: string, reg: ConnectionRegistry, queues: MessageQueues,
                        wire: Wire, now: int)
    requires reg.Valid() && queues.Valid()
    modifies reg, queues, wire
    ensures reg.Valid() && queues.Valid()
    ensures var n := NormalizeDeviceId(rawDeviceId);
      if n in old(reg.agents) then
        && reg.agents == old(reg.agents)
        && queues.queues == old(queues.queues)
        && wire.actions == old(wire.actions) + [Closed(socket, DuplicateCloseCode, "DUPLICATE_CONNECTION")]
      else
        && reg.agents == old(reg.agents)[n := AgentSession(socket, n, now, true)]
        && queues.queues == old(queues.queues) - {n}
        && wire.actions == old(wire.actions) + Burst(socket, Unexpired(Stored(old(queues.queues), n), now))
  {
    var deviceId := NormalizeDeviceId(rawDeviceId);
    NormalizeIdempotent(rawDeviceId);
    var existing := reg.GetAgent(deviceId);
    if existing.Some? {
      wire.Close(socket, DuplicateCloseCode, "DUPLICATE_CONNECTION");
      return;
    }
    var registered := reg.RegisterAgent(deviceId, socket, now);
    // The REGISTRATION_FAILED branch (handler.ts:87-91) cannot be taken:
    // nothing runs between the lookup and the registration.
    assert registered;
    var queued := queues.HasQueuedMessages(deviceId);
    if queued {
      DeliverQueuedMessages(socket, deviceId, queues, wire, now);
    } else {
      assert Unexpired(Stored(queues.queues, deviceId), now) == [];
      assert Burst(socket, []) == [];
    }
  }

  /** The closure created by `handleConnection` for one socket: the socket
      and the `deviceId` variable, where "" stands for both `null` and an
      empty normal form (every use of it is a truthiness test). */
  class Connection {
    const socket: SocketId
    var deviceId: string

    /** `deviceId` only ever holds a normal form. */
    ghost predicate Valid()
      reads this
    {
      IsNormalized(deviceId)
    }

    constructor (socket: SocketId)
      ensures Valid() && this.socket == socket && deviceId == ""
    {
      this.socket := socket;
      deviceId := "";
      new;
      assert AsciiLower("") == "";
    }

    /** The `message` handler. A register frame runs `handleRegister` and
        then records the normal form, even when the registration was
        refused; an ack frame goes to `handleAck`; anything else (an
        unparsable frame, an unknown type) changes nothing. */
    method OnMessage(frame: InboundFrame, reg: ConnectionRegistry, queues: MessageQueues, acks: AckTracker,
                     wire: Wire, now: int)
      requires Valid() && reg.Valid() && queues.Valid() && acks.Valid()
      modifies this, reg, queues, acks, wire
      ensures Valid() && reg.Valid() && queues.Valid() && acks.Valid()
      ensures frame.RegisterFrame? ==> deviceId == NormalizeDeviceId(frame.deviceId)
      ensures !frame.RegisterFrame? ==> deviceId == old(deviceId)
      ensures !frame.RegisterFrame? ==>
        reg.agents == old(reg.agents) && queues.queues == old(queues.queues) && wire.actions == old(wire.actions)
      ensures !frame.AckFrame? ==>
        acks.pending == old(acks.pending) && acks.armed == old(acks.armed)
        && acks.resolutions == old(acks.resolutions)
      ensures frame.AckFrame? ==>
        if frame.id in old(acks.pending) then
          && acks.pending == old(acks.pending) - {frame.id}
          && acks.armed == old(acks.armed) - {old(acks.pending)[frame.id].handle}
          && acks.resolutions == old(acks.resolutions) + [Resolution(old(acks.pending)[frame.id].handle, true)]
        else
          && acks.pending == old(acks.pending) && acks.armed == old(acks.armed)
          && acks.resolutions == old(acks.resolutions)
      ensures acks.nextHandle == old(acks.nextHandle)
      ensures frame.RegisterFrame? ==> var n := NormalizeDeviceId(frame.deviceId);
        if n in old(reg.agents) then
          && reg.agents == old(reg.agents)
          && queues.queues == old(queues.queues)
          && wire.actions == old(wire.actions) + [Closed(socket, DuplicateCloseCode, "DUPLICATE_CONNECTION")]
        else
          && reg.agents == old(reg.agents)[n := AgentSession(socket, n, now, true)]
          && queues.queues == old(queues.queues) - {n}
          && wire.actions == old(wire.actions) + Burst(socket, Unexpired(Stored(old(queues.queues), n), now))
    {
      match frame {
        case RegisterFrame(raw) =>
          HandleRegister(socket, raw, reg, queues, wire, now);
          deviceId := NormalizeDeviceId(raw);
          NormalizeIdempotent(raw);
        case AckFrame(id) =>
          var _ := acks.HandleAck(id);
        case Unparsable =>
        case OtherFrame =>
      }
    }

    /** The `pong` handler: marks the recorded device alive, if any. */
    method OnPong(reg: ConnectionRegistry)
      requires Valid() && reg.Valid()
      modifies reg
      ensures reg.Valid()
      ensures deviceId == "" ==> reg.agents == old(reg.agents)
      ensures deviceId != "" ==>
        reg.agents == if deviceId in old(reg.agents)
                      then old(reg.agents)[deviceId := old(reg.agents)[deviceId].(isAlive := true)]
                      else old(reg.agents)
    {
      if deviceId != "" {
        reg.SetAgentAlive(deviceId, true);
      }
    }

    /** The `close` handler: unregisters the recorded device and cancels
        the acks stored under exactly that id. With no recorded device it
        does nothing. */
    method OnClose(reg: ConnectionRegistry, acks: AckTracker)
      requires Valid() && reg.Valid() && acks.Valid()
      modifies reg, acks
      ensures reg.Valid() && acks.Valid()
      ensures deviceId == "" ==>
        reg.agents == old(reg.agents) && acks.pending == old(acks.pending)
        && acks.armed == old(acks.armed) && acks.resolutions == old(acks.resolutions)
      ensures deviceId != "" ==>
        && reg.agents == old(reg.agents) - {deviceId}
        && acks.pending == Without(old(acks.pending), deviceId)
        && acks.armed == old(acks.armed) - OwnedHandles(old(acks.pending), deviceId)
        && |acks.resolutions| == |old(acks.resolutions)| + |Owned(old(acks.pending), deviceId)|
        && acks.resolutions[..|old(acks.resolutions)|] == old(acks.resolutions)
        && (forall i :: |old(acks.resolutions)| <= i < |acks.resolutions| ==>
              acks.resolutions[i] in CancelsOf(OwnedHandles(old(acks.pending), deviceId)))
      ensures acks.nextHandle == old(acks.nextHandle)
    {
      if deviceId != "" {
        reg.UnregisterAgent(deviceId);
        acks.ClearPendingAcks(deviceId);
      }
    }
  }
}
