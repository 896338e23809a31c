# Voice-to-keyboard relay: a Dafny model

The system lets someone dictate on a phone and have the text typed on a
desktop. It has three parts:

- **Mobile app.** It turns spoken Spanish command words into punctuation
  (`punto` becomes `.`). It keeps an offline queue, a short history and a
  network-status monitor.
- **Relay server.** It takes `POST /transcription` and pushes the message to
  the agent registered for the device id over a WebSocket. It waits for the
  agent's ack. When the agent is offline or does not ack in time, it queues
  the message. When the agent next registers, it delivers the queue as a
  burst.
- **Desktop agents (Windows and Linux).** They connect to the relay,
  register, paste what they receive and ack it. When the connection drops,
  they reconnect with exponential backoff and jitter.

The model follows the source file by file. Pure helpers are Dafny
functions with lemmas. Each module-level singleton becomes a class whose
methods update its fields, and the contract of each method gives the whole
new state:

- the registry map;
- the per-device message queues;
- the pending-ack table;
- the heartbeat interval;
- the per-socket handler state;
- the agent connection and its backoff counter;
- the AsyncStorage slots of the phone;
- the network monitor.

Several things become explicit inputs:

- **Clocks.** `Date.now()` is a parameter.
- **Ids.** `uuid` values are parameters.
- **Randomness.** `Math.random()` is a real in `[0, 1)`.
- **Paste results.** Whether a paste succeeded is a parameter.

Timers and promises are numbered handles whose firing is a separate
event. Socket operations are appended to a log (`Messages.Wire` on the
relay, `AgentConnection.AgentConnection.actions` on the agent), so each
contract can state exactly which frames were sent, closed or terminated.

Modules:

- `Common`: device-id normalisation, using the JavaScript whitespace set
  and ASCII lower-casing.
- `Messages`: the wire types and the socket log.
- Relay: `Registry`, `MessageQueue`, `AckTracking`, `Heartbeat`,
  `WsHandler`, `Transcription`.
- Agents: `Reconnect`, `AgentConnection`.
- Mobile app: `CommandParser` and `CommandParserProperties`,
  `OfflineQueue`, `History`, `Network`.
- `Scenarios`: end-to-end runs across these modules.

Two places where the code's own comments suggest more than the code does:

- **Jitter.** The comment at windows-agent/src/agent/reconnect.ts:21
  calls the jitter "centered". The code computes
  `(random * 0.3 - 0.075) * base`, which gives the band
  `[-7.5%, +22.5%)` around the base delay, so the model follows the
  code (`Reconnect.JitterIsAsymmetric`).
- **Expired messages.** The comment at
  backend-server/src/services/queue.ts:49 filters expired messages
  "in case not pruned recently". Only `enqueue` (queue.ts:21) and
  `drainQueue` drop expired entries. `getQueueSize` and
  `hasQueuedMessages` still count them
  (`MessageQueue.MessageQueues.GetQueueSize`).

## Model

| member | source | states |
|---|---|---|
| Common.NormalizeIdempotent | backend-server/src/services/registry.ts:11-13 | the normal form of an id is already normalised: lower case, no outer whitespace, fixed by normalising again |
| Common.NormalizedShape | backend-server/src/services/registry.ts:11-13 | a normalised id contains no upper-case ASCII letter and neither starts nor ends with whitespace |
| Common.NormalizeIgnoresCaseAndPadding | backend-server/src/services/registry.ts:11-13 | ids that differ only in ASCII case and in surrounding whitespace normalise to the same key |
| Common.TrimEmptyIffAllWhitespace | backend-server/src/routes/transcription.ts:38 | `trim()` gives the empty string exactly when every character is JavaScript whitespace |
| Common.TrimIdempotent | backend-server/src/services/registry.ts:12 | trimming twice is trimming once |
| Registry.ConnectionRegistry.RegisterAgent | backend-server/src/services/registry.ts:19-34 | succeeds exactly when the normalised id is free; on success it stores an alive session under the normal form and changes no other entry; on refusal nothing changes |
| Registry.ConnectionRegistry.UnregisterAgent | backend-server/src/services/registry.ts:40-43 | removes exactly the entry under the normalised id |
| Registry.ConnectionRegistry.GetAgent | backend-server/src/services/registry.ts:48-51 | finds a session exactly when the normalised id is registered, and returns that session |
| Registry.ConnectionRegistry.GetAgentIgnoresCaseAndPadding | backend-server/src/services/registry.ts:48-51 | a lookup gives the same answer for every spelling of an id that differs only in case or padding |
| Registry.ConnectionRegistry.GetConnectedDevices | backend-server/src/services/registry.ts:57-59 | returns every registered key exactly once, each in normal form |
| Registry.ConnectionRegistry.SetAgentAlive | backend-server/src/services/registry.ts:64-70 | sets the alive flag of the session under the normalised id if it exists; all other entries and fields are unchanged |
| Registry.ConnectionRegistry.GetAllAgents | backend-server/src/services/registry.ts:75-77 | returns exactly the registered sessions |
| MessageQueue.UnexpiredMembers | backend-server/src/services/queue.ts:23 | pruning keeps exactly the messages that are still fresh |
| MessageQueue.PruneLater | backend-server/src/services/queue.ts:23 | pruning now and then again later is the same as pruning once at the later time |
| MessageQueue.EnqueueValue | backend-server/src/services/queue.ts:14-35 | refuses exactly when 50 or more unexpired messages are queued; otherwise the new queue is the pruned queue followed by the message, at most 50 long |
| MessageQueue.DrainAfterEnqueuesIsFifo | backend-server/src/services/queue.ts:14-52 | after enqueues that stay within the limit, a later drain returns the surviving old messages and then the surviving new ones, in enqueue order |
| MessageQueue.FullOfFreshRefuses | backend-server/src/services/queue.ts:23-28 | a queue of 50 fresh messages refuses a further one |
| MessageQueue.PruneThenAppend | backend-server/src/services/queue.ts:23-32 | pruning, appending and pruning again later is pruning the old queue later, followed by the new message if it is still fresh |
| MessageQueue.MessageQueues.Enqueue | backend-server/src/services/queue.ts:14-35 | stores the enqueue result under the normalised id and reports whether the message was accepted; other devices' queues are unchanged |
| MessageQueue.MessageQueues.DrainQueue | backend-server/src/services/queue.ts:42-52 | returns the unexpired messages in order and deletes the device's queue |
| MessageQueue.MessageQueues.GetQueueSize | backend-server/src/services/queue.ts:57-61 | at most 50; zero exactly when no queue exists; counts expired entries too, so it is at least the unexpired count |
| MessageQueue.MessageQueues.HasQueuedMessages | backend-server/src/services/queue.ts:66-70 | true exactly when the queue size is positive |
| AckTracking.Without | backend-server/src/websocket/ack.ts:63-71 | removes exactly the pending acks owned by the device |
| AckTracking.CancelRemovesOwned | backend-server/src/websocket/ack.ts:63-71 | removing the device's message ids leaves exactly the other devices' pending acks, and the handles cancelled are exactly that device's |
| AckTracking.AckTracker.SendAndWaitForAck | backend-server/src/websocket/ack.ts:20-41 | arms a timer with the given timeout, records the pending ack under the message id, and sends the frame on the socket |
| AckTracking.AckTracker.HandleAck | backend-server/src/websocket/ack.ts:47-57 | an ack for a pending id cancels its timer, resolves it as delivered and removes it; an unknown id changes nothing and returns false |
| AckTracking.AckTracker.TimeoutFired | backend-server/src/websocket/ack.ts:33-36 | an armed timer that fires resolves its message as not delivered and removes both the timer and the pending entry |
| AckTracking.AckTracker.ClearPendingAcks | backend-server/src/websocket/ack.ts:63-71 | cancels and resolves as not delivered every pending ack owned by the device id, and no other |
| AckTracking.AckTracker.PendingNotSettled | backend-server/src/websocket/ack.ts:33-55 | a pending message has not been resolved yet, so it resolves at most once |
| AckTracking.AckTracker.HasPendingAcks | backend-server/src/websocket/ack.ts:76-83 | true exactly when some pending ack is owned by the device id |
| Heartbeat.TickActions | backend-server/src/websocket/heartbeat.ts:24-39 | a tick terminates every session already marked dead and pings every live one, once each |
| Heartbeat.AfterTickAllSuspect | backend-server/src/websocket/heartbeat.ts:24-39 | after a tick every surviving session is marked not alive |
| Heartbeat.SilentAgentRemovedOnSecondTick | backend-server/src/websocket/heartbeat.ts:25-38 | a session that does not answer a ping is removed by the next tick |
| Heartbeat.PongBetweenTicksKeepsAgent | backend-server/src/websocket/heartbeat.ts:25-38 | a pong between two ticks keeps the session registered |
| Heartbeat.TwoSilentTicksEmpty | backend-server/src/websocket/heartbeat.ts:24-39 | with no pongs at all, two ticks empty the registry |
| Heartbeat.Tick | backend-server/src/websocket/heartbeat.ts:21-39 | the registry becomes the survivors of the tick; the pending acks of removed devices are removed, their timers cleared, and the resolution log gains exactly one `false` resolution per such entry and nothing else; no handle is allocated; the socket log gains exactly the tick's terminations and pings |
| Heartbeat.HeartbeatMonitor.Start | backend-server/src/websocket/heartbeat.ts:16-21 | starts the 30 s interval unless one is already running |
| Heartbeat.HeartbeatMonitor.Stop | backend-server/src/websocket/heartbeat.ts:49-54 | afterwards no interval is running, whether or not one was |
| WsHandler.BurstCarriesMessages | backend-server/src/websocket/handler.ts:119-131 | the burst sends one transcription frame per queued message, same id, text and timestamp, in queue order |
| WsHandler.DeliverQueuedMessages | backend-server/src/websocket/handler.ts:105-134 | drains the device's queue and appends exactly the burst of its unexpired messages to the socket log |
| WsHandler.HandleRegister | backend-server/src/websocket/handler.ts:70-99 | a taken id closes the new socket with code 4000 and `DUPLICATE_CONNECTION` and changes nothing else; a free id registers the socket and delivers the queue |
| WsHandler.Connection.constructor | backend-server/src/websocket/handler.ts:20-22 | a new connection has no device id |
| WsHandler.Connection.OnMessage | backend-server/src/websocket/handler.ts:26-40 | a register frame records the normalised id and registers; an ack frame for a pending id removes the entry, clears its timer and logs a `true` resolution for its handle, and an ack for an unknown id changes nothing; unparsable or other frames change nothing; no handle is ever allocated |
| WsHandler.Connection.OnPong | backend-server/src/websocket/handler.ts:42-48 | marks the connection's session alive; with no device id nothing changes |
| WsHandler.Connection.OnClose | backend-server/src/websocket/handler.ts:50-56 | unregisters the device and clears its pending acks: entries removed, timers cleared, one `false` resolution logged per entry; with no device id nothing changes; no handle is allocated |
| Transcription.Validate | backend-server/src/routes/transcription.ts:38-49 | rejects with `INVALID_DEVICE_ID` exactly when the device id is empty or only whitespace |
| Transcription.RoutedReply | backend-server/src/routes/transcription.ts:51-64 | status 500 with `INTERNAL_ERROR` exactly when routing threw; otherwise 200 with the routing response |
| Transcription.Reply | backend-server/src/routes/transcription.ts:33-66 | the reply is 200 or 500; an invalid id is always the validation error; 500 only for a valid id whose routing threw |
| Transcription.QueueMessage | backend-server/src/routes/transcription.ts:116-140 | enqueues under the normalised id; answers `queued: true` when accepted and `QUEUE_FULL` when refused |
| Transcription.RouteTranscription | backend-server/src/routes/transcription.ts:72-96 | an offline device gets the message queued (or the queue-full error) and the ack state is untouched; an online one gets the frame sent and a pending ack armed under the id as given, with one new handle and no resolution |
| Transcription.ResumeAfterAck | backend-server/src/routes/transcription.ts:98-110 | a delivered message answers `queued: false`; an undelivered one is queued as if the device were offline |
| Reconnect.BaseDelayMonotone | windows-agent/src/agent/reconnect.ts:16-19 | the base delay never falls as attempts grow and stays within 1 s to 30 s |
| Reconnect.BaseDelaySchedule | windows-agent/src/agent/reconnect.ts:16-19 | base delays are 1, 2, 4, 8, 16 s and then 30 s from the sixth attempt on |
| Reconnect.JitterBand | windows-agent/src/agent/reconnect.ts:16-27 | the delay lies between 92.5 % and 122.5 % of the base delay |
| Reconnect.JitterIsAsymmetric | windows-agent/src/agent/reconnect.ts:21-27 | the first delay ranges from 925 ms to 1225 ms, which is not centred on 1000 ms |
| Reconnect.ReconnectionManager.constructor | windows-agent/src/agent/reconnect.ts:9 | the attempt counter starts at zero |
| Reconnect.ReconnectionManager.GetNextDelay | windows-agent/src/agent/reconnect.ts:15-28 | returns the jittered delay of the current attempt and counts one more attempt |
| Reconnect.ReconnectionManager.GetAttempt | windows-agent/src/agent/reconnect.ts:33-35 | returns the attempt counter |
| Reconnect.ReconnectionManager.Reset | windows-agent/src/agent/reconnect.ts:40-42 | sets the attempt counter to zero |
| AgentConnection.WindowsAcksEveryTranscription | windows-agent/src/agent/connection.ts:80-115 | the Windows agent acks every transcription frame, pasting only non-empty text; other frames get no reaction |
| AgentConnection.LinuxAcksOnlyWithText | linux-agent/src/agent/connection.ts:80-104 | the Linux agent pastes and acks a transcription frame only when it has a text field; otherwise it does nothing |
| AgentConnection.PlatformsDifferOnMissingText | linux-agent/src/agent/connection.ts:84-98 | for a missing text, Windows acks and Linux stays silent; for empty text, Windows skips the paste but Linux pastes it |
| AgentConnection.AgentConnection.constructor | windows-agent/src/agent/connection.ts:15-28 | starts disconnected, with no socket, no timers and a fresh backoff |
| AgentConnection.AgentConnection.Connect | windows-agent/src/agent/connection.ts:33-50 | when disconnected, opens a new socket and becomes connecting; otherwise nothing changes |
| AgentConnection.AgentConnection.ClearTimers | windows-agent/src/agent/connection.ts:165-174 | cancels the heartbeat and reconnect timers and keeps every other timer |
| AgentConnection.AgentConnection.Close | windows-agent/src/agent/connection.ts:55-63 | clears both timers and arms none, closes the socket if there is one, and ends disconnected with no socket |
| AgentConnection.AgentConnection.ResetHeartbeatTimeout | windows-agent/src/agent/connection.ts:144-154 | replaces the heartbeat timer by a new 35 s timer |
| AgentConnection.AgentConnection.ScheduleReconnect | windows-agent/src/agent/connection.ts:156-163 | arms a reconnect timer with the given delay |
| AgentConnection.AgentConnection.OnOpen | windows-agent/src/agent/connection.ts:65-78 | resets the backoff, becomes registered, sends the register frame and starts the heartbeat timeout |
| AgentConnection.AgentConnection.OnMessage | windows-agent/src/agent/connection.ts:80-115 | the socket log gains exactly the platform's reaction (paste, ack) to the frame; nothing else changes |
| AgentConnection.AgentConnection.OnPing | windows-agent/src/agent/connection.ts:117-122 | restarts the heartbeat timeout: the old heartbeat timer is cleared and a fresh 35 s one takes its handle; the reconnect timer, the state, the socket and its log are unchanged |
| AgentConnection.AgentConnection.OnClose | windows-agent/src/agent/connection.ts:124-137 | becomes disconnected and schedules a reconnect; after close code 4000 it waits the maximum 30 s, otherwise it waits the next backoff delay |
| AgentConnection.AgentConnection.HeartbeatFired | windows-agent/src/agent/connection.ts:149-153 | terminates the current socket, if any; the fired timer is gone, but both handle fields keep their values (the source does not null them), and state and socket are unchanged |
| AgentConnection.AgentConnection.ReconnectFired | windows-agent/src/agent/connection.ts:160-162 | connects again if still disconnected, dialling exactly one new socket; otherwise nothing changes; the fired timer is gone and both handle fields keep their values |
| AgentConnection.AgentConnection.GetState | windows-agent/src/agent/connection.ts:179-181 | returns the connection state |
| CommandParser.EscapeRegexCharsRoundTrip | mobile-app/src/services/commandParser.ts:64-66 | reading back the escaped pattern gives the original phrase, so the pattern matches the phrase literally |
| CommandParser.EscapeRegexCharsPlain | mobile-app/src/services/commandParser.ts:64-66 | a phrase without regex metacharacters is its own pattern |
| CommandParser.WholeWordOnly | mobile-app/src/services/commandParser.ts:112-113 | a command replaces a phrase only where it stands between word boundaries |
| CommandParser.NoMatchUnchanged | mobile-app/src/services/commandParser.ts:112-113 | text with no whole-word occurrence of a phrase is left unchanged |
| CommandParser.FinishTrimSpec | mobile-app/src/services/commandParser.ts:161-163 | trims the result unless the result is only white space, in which case it is kept |
| CommandParser.NormalizeSpacingUnmarked | mobile-app/src/services/commandParser.ts:122-159 | the spacing pass leaves text without spaces or markers unchanged |
| CommandParser.DropSpacesBeforeTight | mobile-app/src/services/commandParser.ts:140 | after the pass, no space precedes a closing punctuation mark |
| CommandParser.DropSpacesBeforeOnlySpaces | mobile-app/src/services/commandParser.ts:140 | the pass deletes only spaces |
| CommandParser.DropSpacesAfterTight | mobile-app/src/services/commandParser.ts:144 | after the pass, no space follows `@` |
| CommandParser.AtSignTight | mobile-app/src/services/commandParser.ts:143-144 | `@` ends up with no space on either side |
| CommandParser.JoinOpeningBracketsAround | mobile-app/src/services/commandParser.ts:129 | an opening bracket loses the spaces after it and keeps the text around it |
| CommandParser.JoinOpeningQuotesAround | mobile-app/src/services/commandParser.ts:130 | an opening quote loses the spaces after it and keeps the text around it |
| CommandParser.DropSpacesBeforeAround | mobile-app/src/services/commandParser.ts:140 | spaces before a closing mark are dropped and the text on both sides is kept |
| CommandParser.DropSpacesAfterAround | mobile-app/src/services/commandParser.ts:144 | spaces after a joining mark are dropped and the text on both sides is kept |
| CommandParserProperties.TableShape | mobile-app/src/services/commandParser.ts:21-53 | every output is one to four characters and does not start with a word character; every pattern is at least four characters and starts with a lower-case letter other than `l` |
| CommandParserProperties.ApplyCommandsToOutput | mobile-app/src/services/commandParser.ts:110-115 | applying the whole table to a command's output leaves the output unchanged, so one command's symbol is never rewritten by a later command |
| CommandParserProperties.PlainTextUnchanged | mobile-app/src/services/commandParser.ts:81-164 | text with no outer whitespace, no `literal`, no command phrase and no spacing-sensitive character comes back unchanged |
| CommandParserProperties.PhraseCommand | mobile-app/src/services/commandParser.ts:110-115 | input that is exactly one command phrase, matched by no earlier entry, becomes that command's output after the spacing steps |
| CommandParserProperties.WordCommand | mobile-app/src/services/commandParser.ts:110-115 | a single word whose lower-case form is a command pattern, and no earlier one, becomes that command's output |
| CommandParserProperties.OtherWordUnchanged | mobile-app/src/services/commandParser.ts:110-115 | a single word that is no command pattern and does not start with `l` passes through unchanged |
| CommandParserProperties.EscapeToken | mobile-app/src/services/commandParser.ts:88-120 | `literal` in any case, any white space, then a token: the call throws exactly when the token's lookup is an inherited method that throws; otherwise the result is the lookup value (the token, its punctuation word, or an inherited member's value) after spacing |
| CommandParserProperties.EscapeWord | mobile-app/src/services/commandParser.ts:88-120 | `literal` followed by any word that is not an inherited object member gives the word unconverted, without throwing; no separator is needed, so `literalmente` gives `mente` |
| CommandParserProperties.EscapePunctuation | mobile-app/src/services/commandParser.ts:91-120 | `literal` followed by a punctuation mark does not throw and gives the mark's spoken word (`literal ,` gives `coma`) |
| CommandParserProperties.RestorePlaceholder | mobile-app/src/services/commandParser.ts:117-120 | restoring a lone placeholder inserts the lookup value, or calls the inherited method, which throws exactly for the throwing methods |
| CommandParserProperties.EscapeWordToken | mobile-app/src/services/commandParser.ts:88-120 | for a word token, throwing and the result are decided by the word's lookup value alone |
| CommandParserProperties.EscapeWordGives | mobile-app/src/services/commandParser.ts:88-120 | a non-throwing lookup value that spacing leaves alone is exactly the result |
| CommandParserProperties.EscapeConstructor | mobile-app/src/services/commandParser.ts:104-120 | `literal constructor` does not throw and leaves the placeholder itself in the result |
| CommandParserProperties.EscapeIsPrototypeOf | mobile-app/src/services/commandParser.ts:104-120 | `literal isPrototypeOf` does not throw and gives `false` |
| CommandParserProperties.EscapeToString | mobile-app/src/services/commandParser.ts:104-120 | `literal toString` does not throw and gives `[object Undefined]` |
| CommandParserProperties.EscapeProto | mobile-app/src/services/commandParser.ts:104-120 | `literal __proto__` does not throw and gives `[object Object]` |
| CommandParserProperties.EscapeThrowingMethod | mobile-app/src/services/commandParser.ts:104-120 | `literal valueOf`, `literal hasOwnProperty` and the other inherited methods outside `constructor`, `toString` and `isPrototypeOf` make the call throw |
| CommandParserProperties.WordSpacing | mobile-app/src/services/commandParser.ts:122-162 | a word comes through spacing and the final trim unchanged |
| CommandParserProperties.BracketedPhrase | mobile-app/src/services/commandParser.ts:122-162 | `[a b]` of two words comes through spacing and trim unchanged |
| CommandParserProperties.NormalizeSpacingTight | mobile-app/src/services/commandParser.ts:122-162 | text whose only spacing marks are closing marks other than `.`, none preceded by a space, is left unchanged by spacing |
| CommandParserProperties.SpacelessUnchanged | mobile-app/src/services/commandParser.ts:122-163 | the spacing and trim steps leave text without spaces or markers unchanged |
| CommandParserProperties.SpokenPunto | mobile-app/src/services/commandParser.test.ts:20-22 | `punto`, in any letter case, becomes `.` |
| CommandParserProperties.SpokenComa | mobile-app/src/services/commandParser.test.ts:24-26 | `coma`, in any letter case, becomes `,` |
| CommandParserProperties.SpokenGuion | mobile-app/src/services/commandParser.test.ts:36-38 | `guion` becomes `-` |
| CommandParserProperties.SpokenInterrogacion | mobile-app/src/services/commandParser.test.ts:40-42 | `interrogacion` becomes `?` |
| CommandParserProperties.SpokenExclamacion | mobile-app/src/services/commandParser.test.ts:48-50 | `exclamacion` becomes `!` |
| CommandParserProperties.SpokenArroba | mobile-app/src/services/commandParser.test.ts:58-60 | `arroba` becomes `@` |
| CommandParserProperties.SpokenEspacio | mobile-app/src/services/commandParser.test.ts:78-80 | `espacio` becomes one space, kept even though the result is only white space |
| CommandParserProperties.CompoundWordUnchanged | mobile-app/src/services/commandParser.test.ts:169-180 | `contrapunto`, `comadreja` and `puntoaparte` are not commands |
| CommandParserProperties.SpokenDosPuntos | mobile-app/src/services/commandParser.test.ts:28-30 | `dos puntos`, in any letter case, becomes `:` |
| CommandParserProperties.SpokenPuntoYComa | mobile-app/src/services/commandParser.test.ts:32-34 | `punto y coma` becomes `;` although `punto` and `coma` are commands themselves |
| CommandParserProperties.SpokenPuntoCom | mobile-app/src/services/commandParser.test.ts:138-140 | `punto com` becomes `.com` |
| CommandParserProperties.SpokenAbreParentesis | mobile-app/src/services/commandParser.test.ts:84-86 | `abre parentesis` becomes `(`, with no leftover marker |
| OfflineQueue.WithoutMembers | mobile-app/src/services/queue.ts:47-51 | dequeue keeps exactly the entries with a different id |
| OfflineQueue.WithoutConcat | mobile-app/src/services/queue.ts:49 | the filter works entry by entry, so order is preserved |
| OfflineQueue.WithoutTwice | mobile-app/src/services/queue.ts:47-51 | dequeuing the same id twice is dequeuing it once |
| OfflineQueue.DequeuedPrefix | mobile-app/src/services/queue.ts:66-84 | dequeuing the first k entries of a queue with distinct ids leaves the rest of the queue |
| OfflineQueue.LeadingSuccesses | mobile-app/src/services/queue.ts:72-81 | the replay count is the length of the run of successes at the head, stopping at the first failure |
| OfflineQueue.LeadingSuccessesExact | mobile-app/src/services/queue.ts:72-81 | k successes followed by a failure give exactly k |
| OfflineQueue.ReplayRemovesPrefix | mobile-app/src/services/queue.ts:66-84 | a replay removes exactly the sent prefix of the queue |
| OfflineQueue.EnqueueKeepsDistinct | mobile-app/src/services/queue.ts:27-41 | enqueuing a fresh id keeps the queue's ids distinct |
| OfflineQueue.QueueStorage.Contents | mobile-app/src/services/queue.ts:9-12 | the stored queue, or empty when nothing is stored |
| OfflineQueue.QueueStorage.LoadQueue | mobile-app/src/services/queue.ts:9-12 | returns the stored queue, or empty when nothing is stored |
| OfflineQueue.QueueStorage.Enqueue | mobile-app/src/services/queue.ts:27-41 | stores the old queue followed by the new item, one entry longer |
| OfflineQueue.QueueStorage.Dequeue | mobile-app/src/services/queue.ts:47-51 | stores the queue without the entries of that id |
| OfflineQueue.QueueStorage.GetQueueLength | mobile-app/src/services/queue.ts:56-59 | returns the number of stored entries |
| OfflineQueue.QueueStorage.ReplayQueue | mobile-app/src/services/queue.ts:66-84 | sends in order until the first failure, returns the number sent, and stores the queue without them |
| OfflineQueue.QueueStorage.ClearQueue | mobile-app/src/services/queue.ts:90-92 | stores an empty queue |
| History.Capped | mobile-app/src/services/history.ts:18-22 | keeps the first five items, the newest, in order |
| History.CappedShort | mobile-app/src/services/history.ts:18-22 | capping changes a list exactly when it has more than five items, and capping twice is capping once |
| History.FindIndex | mobile-app/src/services/history.ts:57 | finds an index holding the id exactly when the id occurs |
| History.Merge | mobile-app/src/services/history.ts:60 | replaces only the text and sent fields that are given and keeps id, device and timestamp |
| History.WithoutIdMembers | mobile-app/src/services/history.ts:70 | deleting keeps exactly the items with a different id |
| History.WithoutIdConcat | mobile-app/src/services/history.ts:70 | the filter works item by item, so order is preserved |
| History.UpdatedSpec | mobile-app/src/services/history.ts:52-63 | an update fails exactly when the id is absent; otherwise only the first matching item changes, merged with the updates |
| History.AddedNewestFirst | mobile-app/src/services/history.ts:42-44 | the added item comes first and at most five items remain |
| History.HistoryStorage.Contents | mobile-app/src/services/history.ts:10-13 | the stored history, or empty when nothing is stored |
| History.HistoryStorage.GetHistory | mobile-app/src/services/history.ts:10-13 | returns the stored history, or empty |
| History.HistoryStorage.SaveHistory | mobile-app/src/services/history.ts:18-22 | stores the list capped at five |
| History.HistoryStorage.AddHistoryItem | mobile-app/src/services/history.ts:27-47 | builds the item from its inputs and stores it in front of the old history, capped at five |
| History.HistoryStorage.UpdateHistoryItem | mobile-app/src/services/history.ts:52-63 | stores the updated list when the id is present and leaves storage untouched otherwise |
| History.HistoryStorage.DeleteHistoryItem | mobile-app/src/services/history.ts:68-72 | stores the history without the items of that id |
| History.HistoryStorage.ClearHistory | mobile-app/src/services/history.ts:77-79 | stores an empty history |
| Network.StatusOf | mobile-app/src/services/network.ts:23-26 | reconnecting takes precedence over the status; otherwise online or offline follows the connectivity flag |
| Network.Notifications | mobile-app/src/services/network.ts:89-92 | every listener is called once, in subscription order, with the same status |
| Network.UnsubscribedMembers | mobile-app/src/services/network.ts:81-83 | unsubscribing keeps exactly the listeners other than the callback |
| Network.SubscribeThenUnsubscribe | mobile-app/src/services/network.ts:77-84 | subscribing a new callback and then unsubscribing it restores the listener list |
| Network.UnsubscribedAbsent | mobile-app/src/services/network.ts:81-83 | unsubscribing a callback that is not subscribed changes nothing |
| Network.NetworkMonitor.constructor | mobile-app/src/services/network.ts:6-8 | starts online, not reconnecting, with no listeners |
| Network.NetworkMonitor.GetConnectionStatus | mobile-app/src/services/network.ts:23-26 | the status derived from the two flags |
| Network.NetworkMonitor.CheckNetworkStatus | mobile-app/src/services/network.ts:14-18 | records and returns the platform's connectivity |
| Network.NetworkMonitor.NotifyListeners | mobile-app/src/services/network.ts:89-92 | every listener receives the current status; no state changes |
| Network.NetworkMonitor.SetReconnecting | mobile-app/src/services/network.ts:32-35 | sets the flag and notifies every listener of the new status |
| Network.NetworkMonitor.NetworkStatusChange | mobile-app/src/services/network.ts:46-61 | coming back online starts reconnecting and notifies; going offline stops reconnecting and notifies; staying online notifies nobody |
| Network.NetworkMonitor.StopNetworkMonitoring | mobile-app/src/services/network.ts:68-71 | drops every listener |
| Network.NetworkMonitor.SubscribeToNetworkStatus | mobile-app/src/services/network.ts:77-84 | appends the callback and calls it once with the current status |
| Network.NetworkMonitor.Unsubscribe | mobile-app/src/services/network.ts:81-83 | removes every occurrence of the callback |
| Scenarios.DoubleAck | backend-server/src/websocket/ack.ts:47-57 | the first ack for a message settles it and a second ack for the same id is ignored |
| Scenarios.DrainTwice | backend-server/src/services/queue.ts:42-52 | a message queued under one spelling of an id is drained under another spelling, and a second drain returns nothing |
| Scenarios.SameNormalForm | backend-server/src/services/registry.ts:11-13 | spellings that differ only in case normalise to the same key |
| Scenarios.DuplicateCloseDropsIncumbent | backend-server/src/websocket/handler.ts:26-56 | a second agent with the same id is refused with code 4000, and its close then unregisters the first agent |
| Scenarios.RawIdAckSurvivesClose | backend-server/src/websocket/handler.ts:50-56 | an ack pending under an unnormalised id survives the close of the agent's socket |
| Scenarios.OfflineThenBurst | backend-server/src/routes/transcription.ts:80-86 | a message sent while the agent is offline is answered `queued: true` and delivered in the burst when the agent registers |
| Scenarios.CleanCloseReconnects | windows-agent/src/agent/connection.ts:124-137 | after a normal close the agent is disconnected and reconnects after 925 ms to 1225 ms |
| Scenarios.GracefulCloseStillReconnects | windows-agent/src/agent/connection.ts:124-137 | `close` arms no reconnect timer, but the close event of the socket it closed arms one: the agent ends disconnected and reconnects after 925 ms to 1225 ms |
| Scenarios.HeartbeatTimeoutReconnects | windows-agent/src/agent/connection.ts:144-163 | when no ping arrives the heartbeat timer terminates the socket; its close event clears the stale handle and arms only a reconnect timer of 925 ms to 1225 ms, which dials a new socket |
| Scenarios.DuplicateCloseKeepsBackoff | linux-agent/src/agent/connection.ts:113-125 | after a duplicate-connection close the agent waits the maximum 30 s and does not advance the backoff |

## Left out

- Logging, `console` output, the Express and `ws` servers, JSON parsing and serialisation: frames are modelled as already parsed values (`WsHandler.InboundFrame`, `AgentConnection.AgentInbound`).
- Real timers, intervals and promises: each is a numbered handle, and its firing is an explicit event method (`AckTracking.AckTracker.TimeoutFired`, `AgentConnection.AgentConnection.HeartbeatFired`, `AgentConnection.AgentConnection.ReconnectFired`). Interleavings come only from the order in which those events are called.
- Map iteration order in the heartbeat tick: `Heartbeat.Tick` accepts any visiting order and its contract does not depend on it.
- Registry.ConnectionRegistry.GetConnectedDevices: the registry is a map without insertion order, so the ids come back in no promised order. The source's `Array.from(registry.keys())` lists them in registration order. No caller in the modelled core depends on that order.
- AckTracking.AckTracker.SendAndWaitForAck: the branch that resolves non-transcription messages at once (`backend-server/src/websocket/ack.ts:26-30`) is not modelled. Every server message type declared in `backend-server/src/types/messages.ts` is a transcription, so that branch cannot be reached.
- WsHandler.HandleRegister: the `REGISTRATION_FAILED` branch (`backend-server/src/websocket/handler.ts:87-91`) is shown to be unreachable. The duplicate check just before it guarantees that registration succeeds.
- The socket `error` handler (`backend-server/src/websocket/handler.ts:58-61`) only logs.
- AgentConnection.AgentConnection.OnMessage: the reaction is atomic. The ack goes to the socket held when the frame arrived. The source awaits the paste and then acks on whatever socket it holds at that point.
- The paste implementations (clipboard, `xdotool`, key simulation) are not modelled. Whether a paste succeeded is an input.
- Payload segments (`KeyAction`) are carried in frames and bursts, but the agents do not interpret them.
- Letter case: device-id normalisation and command matching fold ASCII letters only. The accented command aliases are in the table, but a phrase that differs only in the case of a non-ASCII letter is not recognised as the same phrase.
- Floating-point arithmetic in the reconnect delay is modelled with exact reals, and `Math.round` is `floor(x + 0.5)`.
- The reconnect constants come from `linux-agent/src/config.ts`. The Windows agent's configuration file is not part of this model.
- AsyncStorage is a slot holding an optional list. Storage failures, the async ordering of reads and writes, and concurrent replays are not modelled.
- `isCurrentlyOnline` and the platform listener that `startNetworkMonitoring` registers are not modelled separately. `Network.NetworkMonitor.NetworkStatusChange` models the body of that listener, registered once.
- The mobile screens, the HTTP client and the agent tray and CLI code are outside the modelled core.
