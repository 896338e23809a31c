/** The desktop agents' connection to the relay: `AgentConnection` in
    windows-agent/src/agent/connection.ts and
    linux-agent/src/agent/connection.ts. The two classes are the same state
    machine line for line except for how a transcription frame is handled,
    so one class with a `platform` constant models both.

    Sockets are numbered handles (`new WebSocket` takes the next number);
    timers are numbered handles in `live` until they fire or are cleared;
    what the agent does to sockets and to the desktop is logged in
    `actions`. Socket events are methods; as in the source, a handler
    does not check which socket raised the event and acts on the socket
    held in `ws` at that moment. */
module AgentConnection {
  import opened Common
  import opened Messages
  import opened Reconnect

  const HeartbeatTimeoutMs: int := 35000

  datatype ConnectionState = Disconnected | Connecting | Connected | Registered

  datatype Platform = Windows | Linux

  /** A frame from the relay, after `JSON.parse`. `Garbage` stands for a
      frame the parse throws on; `text` is the optional legacy field. */
  datatype AgentInbound =
    | Garbage
    | TranscriptionFrame(id: string, text: Option<string>)
    | OtherType

  /** What the message handler does with a frame: the text it pastes, if
      any, then the message id it acknowledges, if any. */
  datatype Reaction = Reaction(paste: Option<string>, ack: Option<string>)

  /** The Windows handler: a missing text counts as empty; an empty text is
      acknowledged without pasting; any other text is pasted and then
      acknowledged. */
  function WindowsReaction(frame: AgentInbound): Reaction {
    match frame
    case TranscriptionFrame(id, text) =>
      var t := text.GetOr("");
      if t == "" then Reaction(None, Some(id)) else Reaction(Some(t), Some(id))
    case _ => Reaction(None, None)
  }

  /** The Linux handler: a missing text throws at `msg.text.length` before
      anything happens (the error is caught and logged); any text, even
      empty, is pasted and then acknowledged. */
  function LinuxReaction(frame: AgentInbound): Reaction {
    match frame
    case TranscriptionFrame(id, text) =>
      if text.None? then Reaction(None, None) else Reaction(Some(text.value), Some(id))
    case _ => Reaction(None, None)
  }

  function React(platform: Platform, frame: AgentInbound): Reaction {
    if platform == Windows then WindowsReaction(frame) else LinuxReaction(frame)
  }

  /** windows connection.ts:84-111: every transcription frame is
      acknowledged with its own id, and text is pasted exactly when it is
      present and non-empty; anything else is ignored. */
  lemma WindowsAcksEveryTranscription(frame: AgentInbound)
    ensures var r := WindowsReaction(frame);
      && (r.ack.Some? <==> frame.TranscriptionFrame?)
      && (r.ack.Some? ==> r.ack.value == frame.id)
      && (r.paste.Some? <==> frame.TranscriptionFrame? && frame.text.Some? && frame.text.value != "")
      && (r.paste.Some? ==> r.paste == frame.text)
  {
  }

  /** linux connection.ts:84-99: a transcription frame is acknowledged
      exactly when it carries text, and that text (even empty) is what is
      pasted first. */
  lemma LinuxAcksOnlyWithText(frame: AgentInbound)
    ensures var r := LinuxReaction(frame);
      && (r.ack.Some? <==> frame.TranscriptionFrame? && frame.text.Some?)
      && (r.ack.Some? ==> r.ack.value == frame.id && r.paste == frame.text)
      && (r.ack.None? ==> r.paste.None?)
  {
  }

  /** The two agents part ways on text-less frames: Windows acknowledges
      them, Linux never does, so the relay times out and queues the
      message again. */
  lemma PlatformsDifferOnMissingText(id: string)
    ensures WindowsReaction(TranscriptionFrame(id, None)) == Reaction(None, Some(id))
    ensures LinuxReaction(TranscriptionFrame(id, None)) == Reaction(None, None)
    ensures WindowsReaction(TranscriptionFrame(id, Some(""))) == Reaction(None, Some(id))
    ensures LinuxReaction(TranscriptionFrame(id, Some(""))) == Reaction(Some(""), Some(id))
  {
  }

  /** A pending `setTimeout`. */
  datatype AgentTimer = HeartbeatTimer(delayMs: int) | ReconnectTimer(delayMs: int)

  /** What the agent did, in order. */
  datatype AgentAction =
    | Dialed(socket: nat)
    | SentFrame(socket: nat, frame: AgentMessage)
    | ClosedSocket(socket: nat)
    | TerminatedSocket(socket: nat)
    | Pasted(text: string)

  function Handles(o: Option<nat>): set<nat> {
    if o.Some? then {o.value} else {}
  }

  /** The timers left running after `clearTimers`. */
  function Cleared(live: map<nat, AgentTimer>, heartbeat: Option<nat>, reconnect: Option<nat>): map<nat, AgentTimer> {
    live - Handles(heartbeat) - Handles(reconnect)
  }

  /** The log entries a reaction adds, given the socket held in `ws`. */
  function ReactionActions(r: Reaction, ws: Option<nat>): seq<AgentAction> {
    (if r.paste.Some? then [Pasted(r.paste.value)] else [])
    + (if r.ack.Some? && ws.Some? then [SentFrame(ws.value, Ack(r.ack.value))] else [])
  }

  class AgentConnection {
    const platform: Platform
    const deviceId: string
    const backoff: ReconnectionManager
    var state: ConnectionState
    var ws: Option<nat>
    var nextSocket: nat
    /** Timers set and neither fired nor cleared. */
    var live: map<nat, AgentTimer>
    var nextTimer: nat
    var heartbeatTimeout: Option<nat>
    var reconnectTimeout: Option<nat>
    var actions: seq<AgentAction>

    /** `connected` is only ever held inside `onOpen`; a socket is held
        whenever the agent is not disconnected; at most one heartbeat
        timer and one reconnect timer run, each the one its field holds. */
    ghost predicate Valid()
      reads this
    {
      && state != Connected
      && (state != Disconnected ==> ws.Some?)
      && (ws.Some? ==> ws.value < nextSocket)
      && (forall t :: t in live ==> t < nextTimer)
      && (forall t :: t in live && live[t].HeartbeatTimer? ==> heartbeatTimeout == Some(t))
      && (forall t :: t in live && live[t].ReconnectTimer? ==> reconnectTimeout == Some(t))
    }

    constructor (platform: Platform, deviceId: string)
      ensures Valid() && fresh(backoff)
      ensures this.platform == platform && this.deviceId == deviceId
      ensures state == Disconnected && ws == None && live == map[] && actions == []
      ensures backoff.attempt == 0
      ensures heartbeatTimeout == None && reconnectTimeout == None
      ensures nextSocket == 0 && nextTimer == 0
    {
      this.platform := platform;
      this.deviceId := deviceId;
      backoff := new ReconnectionManager();
      state := Disconnected;
      ws := None;
      nextSocket := 0;
      live := map[];
      nextTimer := 0;
      heartbeatTimeout := None;
      reconnectTimeout := None;
      actions := [];
    }

    /** `connect`: ignored unless disconnected; otherwise opens exactly one
        new socket and moves to `connecting`. Timers are not touched. */
    method Connect()
      requires Valid()
      modifies this
      ensures Valid()
      ensures old(state) != Disconnected ==>
        state == old(state) && ws == old(ws) && nextSocket == old(nextSocket) && actions == old(actions)
      ensures old(state) == Disconnected ==>
        && state == Connecting && ws == Some(old(nextSocket)) && nextSocket == old(nextSocket) + 1
        && actions == old(actions) + [Dialed(old(nextSocket))]
      ensures live == old(live) && nextTimer == old(nextTimer)
      ensures heartbeatTimeout == old(heartbeatTimeout) && reconnectTimeout == old(reconnectTimeout)
    {
      if state == Connecting || state == Connected || state == Registered {
        return;
      }
      state := Connecting;
      var socket := nextSocket;
      nextSocket := nextSocket + 1;
      ws := Some(socket);
      actions := actions + [Dialed(socket)];
    }

    /** `clearTimers`: clears both timers the fields hold. */
    method ClearTimers()
      requires Valid()
      modifies this
      ensures live == Cleared(old(live), old(heartbeatTimeout), old(reconnectTimeout))
      ensures heartbeatTimeout == None && reconnectTimeout == None
      ensures forall t :: t in live ==> t < nextTimer
      ensures forall t :: t in live ==> !live[t].HeartbeatTimer? && !live[t].ReconnectTimer?
      ensures state == old(state) && ws == old(ws) && nextSocket == old(nextSocket)
      ensures nextTimer == old(nextTimer) && actions == old(actions)
    {
      if heartbeatTimeout.Some? {
        live := live - {heartbeatTimeout.value};
        heartbeatTimeout := None;
      }
      if reconnectTimeout.Some? {
        live := live - {reconnectTimeout.value};
        reconnectTimeout := None;
      }
    }

    /** `close`: clears both timers, closes and drops the socket, and
        becomes `disconnected`, without scheduling anything. */
    method Close()
      requires Valid()
      modifies this
      ensures Valid()
      ensures state == Disconnected && ws == None
      ensures heartbeatTimeout == None && reconnectTimeout == None
      ensures live == Cleared(old(live), old(heartbeatTimeout), old(reconnectTimeout))
      ensures forall t :: t in live ==> !live[t].ReconnectTimer? && !live[t].HeartbeatTimer?
      ensures actions == old(actions) + (if old(ws).Some? then [ClosedSocket(old(ws).value)] else [])
      ensures nextTimer == old(nextTimer) && nextSocket == old(nextSocket)
    {
      ClearTimers();
      if ws.Some? {
        actions := actions + [ClosedSocket(ws.value)];
        ws := None;
      }
      state := Disconnected;
    }

    /** `resetHeartbeatTimeout`: replaces the heartbeat timer by a fresh one
        of 35 seconds. */
    method ResetHeartbeatTimeout()
      requires Valid()
      modifies this
      ensures Valid()
      ensures heartbeatTimeout == Some(old(nextTimer)) && nextTimer == old(nextTimer) + 1
      ensures live == (old(live) - Handles(old(heartbeatTimeout)))[old(nextTimer) := HeartbeatTimer(HeartbeatTimeoutMs)]
      ensures state == old(state) && ws == old(ws) && nextSocket == old(nextSocket)
      ensures reconnectTimeout == old(reconnectTimeout) && actions == old(actions)
    {
      if heartbeatTimeout.Some? {
        live := live - {heartbeatTimeout.value};
      }
      var t := nextTimer;
      nextTimer := nextTimer + 1;
      live := live[t := HeartbeatTimer(HeartbeatTimeoutMs)];
      heartbeatTimeout := Some(t);
    }

    /** `scheduleReconnect`: arms a reconnect timer of `delay`. */
    method ScheduleReconnect(delay: int)
      requires Valid()
      requires forall t :: t in live ==> !live[t].ReconnectTimer?
      modifies this
      ensures Valid()
      ensures reconnectTimeout == Some(old(nextTimer)) && nextTimer == old(nextTimer) + 1
      ensures live == old(live)[old(nextTimer) := ReconnectTimer(delay)]
      ensures state == old(state) && ws == old(ws) && nextSocket == old(nextSocket)
      ensures heartbeatTimeout == old(heartbeatTimeout) && actions == old(actions)
    {
      var t := nextTimer;
      nextTimer := nextTimer + 1;
      live := live[t := ReconnectTimer(delay)];
      reconnectTimeout := Some(t);
    }

    /** `onOpen`: sends `register` with the device id on the held socket,
        ends `registered`, resets the backoff and arms the heartbeat
        timer. The source asserts a socket is held (`this.ws!`). */
    method OnOpen()
      requires Valid() && ws.Some?
      modifies this, backoff
      ensures Valid()
      ensures state == Registered && ws == old(ws) && backoff.attempt == 0
      ensures actions == old(actions) + [SentFrame(old(ws).value, Register(deviceId))]
      ensures heartbeatTimeout == Some(old(nextTimer))
      ensures live == (old(live) - Handles(old(heartbeatTimeout)))[old(nextTimer) := HeartbeatTimer(HeartbeatTimeoutMs)]
      ensures reconnectTimeout == old(reconnectTimeout)
      ensures nextTimer == old(nextTimer) + 1 && nextSocket == old(nextSocket)
    {
      state := Connected;
      actions := actions + [SentFrame(ws.value, Register(deviceId))];
      state := Registered;
      backoff.Reset();
      ResetHeartbeatTimeout();
    }

    /** `onMessage`, run to completion: the platform's reaction, the ack
        going to the socket held when the frame arrived (no close or
        reconnect can come between the frame and the ack here). The
        paste's own success does not change what happens. */
    method OnMessage(frame: AgentInbound, pasteSucceeded: bool)
      requires Valid()
      modifies this
      ensures Valid()
      ensures actions == old(actions) + ReactionActions(React(platform, frame), old(ws))
      ensures state == old(state) && ws == old(ws) && live == old(live)
      ensures heartbeatTimeout == old(heartbeatTimeout) && reconnectTimeout == old(reconnectTimeout)
      ensures nextTimer == old(nextTimer) && nextSocket == old(nextSocket)
    {
      var reaction := React(platform, frame);
      if reaction.paste.Some? {
        actions := actions + [Pasted(reaction.paste.value)];
      }
      if reaction.ack.Some? && ws.Some? {
        actions := actions + [SentFrame(ws.value, Ack(reaction.ack.value))];
      }
    }

    /** `onPing`: the heartbeat timer starts over. */
    method OnPing()
      requires Valid()
      modifies this
      ensures Valid()
      ensures heartbeatTimeout == Some(old(nextTimer))
      ensures live == (old(live) - Handles(old(heartbeatTimeout)))[old(nextTimer) := HeartbeatTimer(HeartbeatTimeoutMs)]
      ensures state == old(state) && ws == old(ws) && actions == old(actions)
      ensures reconnectTimeout == old(reconnectTimeout)
      ensures nextTimer == old(nextTimer) + 1 && nextSocket == old(nextSocket)
    {
      ResetHeartbeatTimeout();
    }

    /** `onClose`: clears both timers, becomes `disconnected` and arms one
        reconnect timer. Code 4000 waits the maximum delay and leaves the
        backoff count alone; any other code takes the next backoff delay. */
    method OnClose(code: int, random: real)
      requires Valid() && 0.0 <= random < 1.0
      modifies this, backoff
      ensures Valid()
      ensures state == Disconnected && ws == old(ws) && actions == old(actions)
      ensures heartbeatTimeout == None && reconnectTimeout == Some(old(nextTimer))
      ensures nextTimer == old(nextTimer) + 1 && nextSocket == old(nextSocket)
      ensures code == DuplicateCloseCode ==>
        && backoff.attempt == old(backoff.attempt)
        && live == Cleared(old(live), old(heartbeatTimeout), old(reconnectTimeout))
                   [old(nextTimer) := ReconnectTimer(ReconnectMaxDelay)]
      ensures code != DuplicateCloseCode ==>
        && backoff.attempt == old(backoff.attempt) + 1
        && live == Cleared(old(live), old(heartbeatTimeout), old(reconnectTimeout))
                   [old(nextTimer) := ReconnectTimer(NextDelay(old(backoff.attempt), random))]
    {
      ClearTimers();
      state := Disconnected;
      if code == DuplicateCloseCode {
        ScheduleReconnect(ReconnectMaxDelay);
      } else {
        var delay := backoff.GetNextDelay(random);
        ScheduleReconnect(delay);
      }
    }

    /** The heartbeat timer fires: the held socket, if any, is terminated
        (its close event then follows as `OnClose`). */
    method HeartbeatFired(t: nat)
      requires Valid() && t in live && live[t].HeartbeatTimer?
      modifies this
      ensures Valid()
      ensures live == old(live) - {t}
      ensures actions == old(actions) + (if ws.Some? then [TerminatedSocket(ws.value)] else [])
      ensures state == old(state) && ws == old(ws)
      ensures heartbeatTimeout == old(heartbeatTimeout) && reconnectTimeout == old(reconnectTimeout)
      ensures nextTimer == old(nextTimer) && nextSocket == old(nextSocket)
    {
      live := live - {t};
      if ws.Some? {
        actions := actions + [TerminatedSocket(ws.value)];
      }
    }

    /** The reconnect timer fires and calls `connect`. */
    method ReconnectFired(t: nat)
      requires Valid() && t in live && live[t].ReconnectTimer?
      modifies this
      ensures Valid()
      ensures live == old(live) - {t}
      ensures old(state) == Disconnected ==>
        state == Connecting && ws == Some(old(nextSocket)) && actions == old(actions) + [Dialed(old(nextSocket))]
      ensures old(state) != Disconnected ==> state == old(state) && ws == old(ws) && actions == old(actions)
      ensures nextSocket == old(nextSocket) + (if old(state) == Disconnected then 1 else 0)
      ensures heartbeatTimeout == old(heartbeatTimeout) && reconnectTimeout == old(reconnectTimeout)
      ensures nextTimer == old(nextTimer)
    {
      live := live - {t};
      Connect();
    }

    /** `getState`. */
    method GetState() returns (s: ConnectionState)
      ensures s == state
    {
      s := state;
    }
  }
}
