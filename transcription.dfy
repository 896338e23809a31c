/** The relay's `POST /transcription` route
    (backend-server/src/routes/transcription.ts): validate the device id,
    then deliver to a connected agent and wait for its ack, or queue the
    message for later; an ack timeout falls back to queueing the same
    message. The request's `await` splits routing into two steps:
    `RouteTranscription` runs up to the wait and `ResumeAfterAck` runs
    once the promise settles. The message id (`crypto.randomUUID`) and the
    clock are inputs. */
module Transcription {
  import opened Common
  import opened Messages
  import opened Registry
  import opened MessageQueue
  import opened AckTracking

  const InvalidDeviceIdMessage: string := "deviceId is required and must be a non-empty string"
  const InternalErrorMessage: string := "Failed to process transcription"
  const QueueFullMessage: string := "Message queue is full for this device (max 50 messages)"

  /** An HTTP status and the JSON body sent with it. */
  datatype HttpReply = HttpReply(status: int, body: ApiResponse)

  /** How routing ended: with a response, or by throwing. */
  datatype RouteOutcome = Finished(response: ApiResponse) | Threw

  /** Routing up to the `await`: a final response, or the handle of the
      ack promise being waited for. */
  datatype RouteStep = Replied(response: ApiResponse) | AwaitingAck(handle: nat)

  /** The validation guard: `Some` reply (HTTP 200, `INVALID_DEVICE_ID`)
      exactly when the id is empty or only white space. */
  function Validate(deviceId: string): (r: Option<HttpReply>)
    ensures r.Some? <==> AllWhitespace(deviceId)
    ensures r.Some? ==> r.value == HttpReply(200, ApiError(InvalidDeviceId, InvalidDeviceIdMessage))
  {
    TrimEmptyIffAllWhitespace(deviceId);
    if deviceId == [] || Trim(deviceId) == [] then
      Some(HttpReply(200, ApiError(InvalidDeviceId, InvalidDeviceIdMessage)))
    else None
  }

  /** The reply to a valid request: 500 `INTERNAL_ERROR` when routing
      threw, otherwise 200 with routing's response, success or not. */
  function RoutedReply(outcome: RouteOutcome): (r: HttpReply)
    ensures r.status == 500 <==> outcome.Threw?
    ensures r.status != 500 ==> r.status == 200 && r.body == outcome.response
    ensures outcome.Threw? ==> r.body == ApiError(InternalError, InternalErrorMessage)
  {
    match outcome
    case Finished(response) => HttpReply(200, response)
    case Threw => HttpReply(500, ApiError(InternalError, InternalErrorMessage))
  }

  /** The whole handler's reply: an invalid id is answered without
      routing; only a throw gives 500. */
  function Reply(deviceId: string, outcome: RouteOutcome): (r: HttpReply)
    ensures AllWhitespace(deviceId) ==> r == HttpReply(200, ApiError(InvalidDeviceId, InvalidDeviceIdMessage))
    ensures r.status == 500 <==> !AllWhitespace(deviceId) && outcome.Threw?
    ensures r.status == 200 || r.status == 500
  {
    match Validate(deviceId)
    case Some(reply) => reply
    case None => RoutedReply(outcome)
  }

  /** The entry `queueMessage` stores: text but no payload. */
  function Queued(messageId: string, text: string, timestamp: int): QueuedMessage {
    QueuedMessage(messageId, Some(text), None, timestamp)
  }

  /** `queueMessage`: `queued: true` with the message id when the enqueue
      succeeds, `QUEUE_FULL` (and an untouched queue) when it does not. */
  method QueueMessage(queues: MessageQueues, deviceId: string, messageId: string, text: string,
                      timestamp: int, now: int) returns (r: ApiResponse)
    requires queues.Valid()
    modifies queues
    ensures queues.Valid()
    ensures var n := NormalizeDeviceId(deviceId);
      match EnqueueValue(Stored(old(queues.queues), n), Queued(messageId, text, timestamp), now)
      case None => r == ApiError(QueueFull, QueueFullMessage) && queues.queues == old(queues.queues)
      case Some(q) => r == ApiSuccess(Some(true), Some(messageId)) && queues.queues == old(queues.queues)[n := q]
  {
    var result := queues.Enqueue(deviceId, Queued(messageId, text, timestamp), now);
    if result == Enqueued {
      r := ApiSuccess(Some(true), Some(messageId));
    } else {
      r := ApiError(QueueFull, QueueFullMessage);
    }
  }

  /** `routeTranscription` up to its `await`. With no agent registered
      under the id's normal form the message is queued; otherwise it is
      sent to that agent's socket and an ack is awaited, the pending entry
      being stored under the id exactly as the request gave it. */
  method RouteTranscription(deviceId: string, text: string, messageId: string, timestamp: int, now: int,
                            reg: ConnectionRegistry, queues: MessageQueues, acks: AckTracker, wire: Wire)
    returns (step: RouteStep)
    requires reg.Valid() && queues.Valid() && acks.Valid()
    modifies queues, acks, wire
    ensures queues.Valid() && acks.Valid()
    ensures var n := NormalizeDeviceId(deviceId);
      if n !in reg.agents then
        && step.Replied?
        && acks.pending == old(acks.pending) && acks.armed == old(acks.armed)
        && acks.resolutions == old(acks.resolutions) && acks.nextHandle == old(acks.nextHandle)
        && wire.actions == old(wire.actions)
        && match EnqueueValue(Stored(old(queues.queues), n), Queued(messageId, text, timestamp), now)
           case None => step.response == ApiError(QueueFull, QueueFullMessage) && queues.queues == old(queues.queues)
           case Some(q) => step.response == ApiSuccess(Some(true), Some(messageId))
                           && queues.queues == old(queues.queues)[n := q]
      else
        var frame := Transcription(messageId, Some(text), None, timestamp);
        && step == AwaitingAck(old(acks.nextHandle))
        && acks.pending == old(acks.pending)[messageId := PendingAck(deviceId, step.handle)]
        && acks.armed == old(acks.armed)[step.handle := AckTimer(messageId, DefaultAckTimeoutMs)]
        && acks.resolutions == old(acks.resolutions) && acks.nextHandle == old(acks.nextHandle) + 1
        && wire.actions == old(wire.actions) + [Sent(reg.agents[n].socket, frame)]
        && queues.queues == old(queues.queues)
  {
    var agent := reg.GetAgent(deviceId);
    if agent.None? {
      var response := QueueMessage(queues, deviceId, messageId, text, timestamp, now);
      return Replied(response);
    }
    var serverMessage := Transcription(messageId, Some(text), None, timestamp);
    var h := acks.SendAndWaitForAck(wire, agent.value.socket, serverMessage, deviceId, DefaultAckTimeoutMs);
    return AwaitingAck(h);
  }

  /** `routeTranscription` after its `await`: an ack gives
      `queued: false`; a timeout (or a cancel) queues the very same
      message, with its original id and timestamp. */
  method ResumeAfterAck(delivered: bool, deviceId: string, text: string, messageId: string, timestamp: int,
                        now: int, queues: MessageQueues) returns (r: ApiResponse)
    requires queues.Valid()
    modifies queues
    ensures queues.Valid()
    ensures delivered ==> r == ApiSuccess(Some(false), Some(messageId)) && queues.queues == old(queues.queues)
    ensures !delivered ==> var n := NormalizeDeviceId(deviceId);
      match EnqueueValue(Stored(old(queues.queues), n), Queued(messageId, text, timestamp), now)
      case None => r == ApiError(QueueFull, QueueFullMessage) && queues.queues == old(queues.queues)
      case Some(q) => r == ApiSuccess(Some(true), Some(messageId)) && queues.queues == old(queues.queues)[n := q]
  {
    if delivered {
      return ApiSuccess(Some(false), Some(messageId));
    }
    r := QueueMessage(queues, deviceId, messageId, text, timestamp, now);
  }
}
