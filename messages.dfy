/** The relay's data shapes (backend-server/src/types/messages.ts) and the
    socket as the relay sees it: an abstract handle whose sends, closes,
    terminations and pings are recorded in order on a `Wire`. */
module Messages {
  import opened Common

  /** An accepted WebSocket, identified by an abstract handle. */
  type SocketId = nat

  datatype KeyAction = Enter | Tab | Up | Down | Left | Right | Home | End

  /** One unit of a payload: a run of text or a single key action. */
  datatype Segment = TextSegment(value: string) | KeySegment(key: KeyAction)

  /** Relay to agent. The type declares a single variant, `transcription`,
      with the legacy `text` and the newer `payload` both optional. */
  datatype ServerMessage =
    Transcription(id: string, text: Option<string>, payload: Option<seq<Segment>>, timestamp: int)

  /** Agent to relay. */
  datatype AgentMessage = Ack(id: string) | Register(deviceId: string)

  /** A message parked for an offline agent. */
  datatype QueuedMessage =
    QueuedMessage(id: string, text: Option<string>, payload: Option<seq<Segment>>, timestamp: int)

  datatype ErrorCode =
    | AgentOffline | QueueFull | InvalidDeviceId | InternalError | AckTimeout | DuplicateConnection

  /** `ApiSuccessResponse | ApiErrorResponse`; the optional fields of the
      success shape are options. */
  datatype ApiResponse =
    | ApiSuccess(queued: Option<bool>, messageId: Option<string>)
    | ApiError(code: ErrorCode, message: string)

  /** Close code the relay uses for a rejected duplicate registration. */
  const DuplicateCloseCode: int := 4000

  /** What the relay did to a socket. */
  datatype SocketAction =
    | Sent(socket: SocketId, frame: ServerMessage)
    | Closed(socket: SocketId, code: int, reason: string)
    | Terminated(socket: SocketId)
    | Pinged(socket: SocketId)

  /** The relay's view of all its sockets: the actions it performed on
      them, in the order it performed them. */
  class Wire {
    var actions: seq<SocketAction>

    constructor ()
      ensures actions == []
    {
      actions := [];
    }

    method Send(socket: SocketId, frame: ServerMessage)
      modifies this
      ensures actions == old(actions) + [Sent(socket, frame)]
    {
      actions := actions + [Sent(socket, frame)];
    }

    method Close(socket: SocketId, code: int, reason: string)
      modifies this
      ensures actions == old(actions) + [Closed(socket, code, reason)]
    {
      actions := actions + [Closed(socket, code, reason)];
    }

    method Terminate(socket: SocketId)
      modifies this
      ensures actions == old(actions) + [Terminated(socket)]
    {
      actions := actions + [Terminated(socket)];
    }

    method Ping(socket: SocketId)
      modifies this
      ensures actions == old(actions) + [Pinged(socket)]
    {
      actions := actions + [Pinged(socket)];
    }
  }
}
