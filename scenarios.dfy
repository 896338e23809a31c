/** Runs of several operations on freshly created relay and agent state,
    each showing a behaviour that only appears when the operations are
    put together. */
module Scenarios {
  import opened Common
  import opened Messages
  import opened Registry
  import opened MessageQueue
  import opened AckTracking
  import opened WsHandler
  import opened Transcription
  import Reconnect
  import AgentConnection

  /** ack.ts:47-56: the first ack of a pending message resolves it; the
      same ack again finds nothing. */
  method DoubleAck(messageId: string, deviceId: string, socket: SocketId, frame: ServerMessage)
    returns (first: bool, second: bool)
    requires frame.id == messageId
    ensures first && !second
  {
    var acks := new AckTracker();
    var wire := new Wire();
    var _ := acks.SendAndWaitForAck(wire, socket, frame, deviceId, DefaultAckTimeoutMs);
    first := acks.HandleAck(messageId);
    second := acks.HandleAck(messageId);
  }

  /** queue.ts:18, 42-52: a message queued under one spelling of an id is
      drained under another spelling of it, and a second drain finds
      nothing. */
  method DrainTwice(queuedAs: string, drainedAs: string, m: QueuedMessage, now: int)
    returns (first: seq<QueuedMessage>, second: seq<QueuedMessage>)
    requires AsciiLower(queuedAs) == AsciiLower(drainedAs)
    requires IsFresh(m, now)
    ensures first == [m] && second == []
  {
    var queues := new MessageQueues();
    var r := queues.Enqueue(queuedAs, m, now);
    SameNormalForm(queuedAs, drainedAs);
    first := queues.DrainQueue(drainedAs, now);
    second := queues.DrainQueue(drainedAs, now);
  }

  lemma SameNormalForm(a: string, b: string)
    requires AsciiLower(a) == AsciiLower(b)
    ensures NormalizeDeviceId(a) == NormalizeDeviceId(b)
  {
    NormalizeIgnoresCaseAndPadding(a, b, "", "");
    assert "" + a + "" == a;
  }

  /** handler.ts:30-32, 50-56, 75-83: a second connection registering
      the same id is closed with 4000, yet it has recorded the id, so its
      close unregisters the first connection's session. */
  method DuplicateCloseDropsIncumbent(first: string, second: string, now: int)
    returns (registeredBefore: bool, registeredAfter: bool, closed: seq<SocketAction>)
    requires AsciiLower(first) == AsciiLower(second)
    requires NormalizeDeviceId(first) != ""
    ensures registeredBefore && !registeredAfter
    ensures closed == [Closed(2, DuplicateCloseCode, "DUPLICATE_CONNECTION")]
  {
    var reg := new ConnectionRegistry();
    var queues := new MessageQueues();
    var acks := new AckTracker();
    var wire := new Wire();
    var incumbent := new Connection(1);
    var duplicate := new Connection(2);
    incumbent.OnMessage(RegisterFrame(first), reg, queues, acks, wire, now);
    assert Unexpired(Stored(map[], NormalizeDeviceId(first)), now) == [];
    registeredBefore := reg.GetAgent(first).Some?;
    SameNormalForm(first, second);
    duplicate.OnMessage(RegisterFrame(second), reg, queues, acks, wire, now);
    closed := wire.actions;
    duplicate.OnClose(reg, acks);
    registeredAfter := reg.GetAgent(first).Some?;
  }

  /** transcription.ts:88-95 and handler.ts:50-56: the pending ack is
      stored under the id as the request spelled it, while the close
      handler cancels under the normal form; a request spelled otherwise
      keeps waiting for its timeout after the agent is gone. */
  method RawIdAckSurvivesClose(raw: string, messageId: string, text: string, timestamp: int, now: int)
    returns (unregistered: bool, stillPending: bool)
    requires NormalizeDeviceId(raw) != raw && NormalizeDeviceId(raw) != ""
    ensures unregistered && stillPending
  {
    var reg := new ConnectionRegistry();
    var queues := new MessageQueues();
    var acks := new AckTracker();
    var wire := new Wire();
    var agent := new Connection(1);
    agent.OnMessage(RegisterFrame(raw), reg, queues, acks, wire, now);
    var step := RouteTranscription(raw, text, messageId, timestamp, now, reg, queues, acks, wire);
    agent.OnClose(reg, acks);
    unregistered := reg.GetAgent(raw).None?;
    stillPending := messageId in acks.pending;
  }

  /** transcription.ts:80-86, 122-129 and handler.ts:95-131: a message
      for an agent that is not connected is queued; when the agent
      registers, it is sent to it as the same transcription. */
  method OfflineThenBurst(deviceId: string, messageId: string, text: string, timestamp: int, now: int, later: int)
    returns (response: ApiResponse, delivered: seq<SocketAction>)
    requires NormalizeDeviceId(deviceId) != ""
    requires now <= later && later - timestamp < MaxQueueAgeMs
    ensures response == ApiSuccess(Some(true), Some(messageId))
    ensures delivered == [Sent(7, Transcription(messageId, Some(text), None, timestamp))]
  {
    var reg := new ConnectionRegistry();
    var queues := new MessageQueues();
    var acks := new AckTracker();
    var wire := new Wire();
    ghost var n := NormalizeDeviceId(deviceId);
    var m := Queued(messageId, text, timestamp);
    assert EnqueueValue(Stored(map[], n), m, now) == Some([m]);
    assert n !in reg.agents;
    var step := RouteTranscription(deviceId, text, messageId, timestamp, now, reg, queues, acks, wire);
    response := step.response;
    delivered := RegisterWithOneQueued(deviceId, m, later, reg, queues, acks, wire);
  }

  /** The agent connects on socket 7 and registers while exactly `m` is
      queued for it and nothing was sent yet: `m` is what it receives. */
  method RegisterWithOneQueued(deviceId: string, m: QueuedMessage, later: int,
                               reg: ConnectionRegistry, queues: MessageQueues, acks: AckTracker, wire: Wire)
    returns (delivered: seq<SocketAction>)
    requires reg.Valid() && queues.Valid() && acks.Valid()
    requires NormalizeDeviceId(deviceId) !in reg.agents
    requires queues.queues == map[NormalizeDeviceId(deviceId) := [m]] && wire.actions == []
    requires IsFresh(m, later)
    modifies reg, queues, acks, wire
    ensures delivered == [Sent(7, AsFrame(m))]
  {
    ghost var n := NormalizeDeviceId(deviceId);
    var agent := new Connection(7);
    agent.OnMessage(RegisterFrame(deviceId), reg, queues, acks, wire, later);
    assert Unexpired(Stored(map[n := [m]], n), later) == [m];
    assert Burst(7, [m]) == [Sent(7, AsFrame(m))];
    delivered := wire.actions;
  }

  /** connection.ts:124-137 (both agents): a close with an ordinary code,
      even a clean 1000 after registering, schedules a reconnect after
      the first backoff delay, between 925 ms and 1225 ms. */
  method CleanCloseReconnects(platform: AgentConnection.Platform, deviceId: string, random: real)
    returns (state: AgentConnection.ConnectionState, delay: int)
    requires 0.0 <= random < 1.0
    ensures state == AgentConnection.Disconnected
    ensures 925 <= delay <= 1225
  {
    var agent := new AgentConnection.AgentConnection(platform, deviceId);
    agent.Connect();
    agent.OnOpen();
    agent.OnClose(1000, random);
    state := agent.GetState();
    delay := agent.live[agent.reconnectTimeout.value].delayMs;
    Reconnect.JitterBand(0, random);
    Reconnect.BaseDelaySchedule(0);
  }

  /** connection.ts:124-137, 156-162 (both agents): after one failed
      attempt, a 4000 close waits the maximum delay and leaves the
      backoff count where it was. */
  method DuplicateCloseKeepsBackoff(platform: AgentConnection.Platform, deviceId: string, random: real)
    returns (attempt: nat, delay: int)
    requires 0.0 <= random < 1.0
    ensures attempt == 1 && delay == Reconnect.ReconnectMaxDelay
  {
    var agent := new AgentConnection.AgentConnection(platform, deviceId);
    agent.Connect();
    agent.OnClose(1006, random);
    agent.ReconnectFired(agent.reconnectTimeout.value);
    agent.OnClose(DuplicateCloseCode, random);
    attempt := agent.backoff.GetAttempt();
    delay := agent.live[agent.reconnectTimeout.value].delayMs;
  }

  /** connection.ts:48, 115-121, 124-137 (both agents): `close` itself
      arms no reconnect timer, but the close event of the socket it
      closed still reaches `onClose`, which arms one; a deliberate close
      is followed by a reconnect after the first backoff delay. */
  method GracefulCloseStillReconnects(platform: AgentConnection.Platform, deviceId: string, random: real)
    returns (armedByClose: bool, state: AgentConnection.ConnectionState, delay: int)
    requires 0.0 <= random < 1.0
    ensures !armedByClose
    ensures state == AgentConnection.Disconnected
    ensures 925 <= delay <= 1225
  {
    var agent := new AgentConnection.AgentConnection(platform, deviceId);
    agent.Connect();
    agent.OnOpen();
    agent.Close();
    armedByClose := agent.reconnectTimeout.Some?;
    agent.OnClose(1000, random);
    state := agent.GetState();
    delay := agent.live[agent.reconnectTimeout.value].delayMs;
    Reconnect.JitterBand(0, random);
    Reconnect.BaseDelaySchedule(0);
  }

  /** A server that stops pinging: the heartbeat timer terminates the
      socket, the close event that follows clears the stale heartbeat handle
      and arms one reconnect timer of the first backoff delay, and that
      timer dials a new socket. */
  method HeartbeatTimeoutReconnects(platform: AgentConnection.Platform, deviceId: string, random: real)
    returns (terminated: AgentConnection.AgentAction, timersAfterClose: map<nat, AgentConnection.AgentTimer>,
             dialed: AgentConnection.AgentAction, state: AgentConnection.ConnectionState)
    requires 0.0 <= random < 1.0
    ensures terminated == AgentConnection.TerminatedSocket(0)
    ensures timersAfterClose.Keys == {1}
    ensures timersAfterClose[1].ReconnectTimer? && 925 <= timersAfterClose[1].delayMs <= 1225
    ensures dialed == AgentConnection.Dialed(1)
    ensures state == AgentConnection.Connecting
  {
    var agent := new AgentConnection.AgentConnection(platform, deviceId);
    agent.Connect();
    agent.OnOpen();
    agent.HeartbeatFired(0);
    terminated := agent.actions[|agent.actions| - 1];
    agent.OnClose(1006, random);
    timersAfterClose := agent.live;
    Reconnect.JitterBand(0, random);
    Reconnect.BaseDelaySchedule(0);
    agent.ReconnectFired(1);
    dialed := agent.actions[|agent.actions| - 1];
    state := agent.GetState();
  }
}
