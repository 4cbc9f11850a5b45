# Echo server registry and browser client, modelled in Dafny

This project models the two small state machines of the `audio_socket`
repository's echo service:

- **The server** (`audio_socket_api/main.py`). `ConnectionManager` keeps an
  ordered list of live WebSocket handles. `connect` appends after the
  handshake, `disconnect` uses Python's `list.remove` (the first equal
  element goes; an absent handle raises `ValueError`), and `/health` reports
  the list's length. `websocket_endpoint` receives a text frame `d` and
  sends back `"Echo: " + d`, one reply per answered frame, and its handlers for
  `WebSocketDisconnect`, `ValueError` and `RuntimeError` unregister the
  handle.
- **The browser client** (`audio_socket_api/static/websocket.js`) without its
  page: the `isConnected` flag, the `reconnectAttempts` counter bounded by
  `maxReconnectAttempts = 5`, the input box text, and the handlers `onopen`,
  `onmessage`, `onclose`, `onerror`, `attemptReconnect`, the reconnect timer's
  callback, `sendMessage`, the Enter-key listener and page unload.

Everything is pure: the registry is an immutable `seq<Handle>`, the client a
record, and each handler a function from state to next state and effects.
The server's asyncio event loop is single-threaded, so each registry
operation is atomic and an execution of many interleaved connections is a
sequence of events (`Accept h`, `Frame h d`, `Terminate h exit`) applied to
one world.

Modules, one per component:

| file | module | models |
|---|---|---|
| `wrappers.dfy` | `Wrappers` | `Option` and `Result` for raised exceptions |
| `registry.dfy` | `Registry` | `ConnectionManager` and the health count |
| `session.dfy` | `Session` | one connection's endpoint: echo, receive loop, exit handlers |
| `server.dfy` | `Server` | all connections interleaved; the registry invariant and reply traces |
| `text.dfy` | `Text` | `String.prototype.trim` |
| `client.dfy` | `Client` | `WebSocketClient`'s connection state machine |

Three facts about the code shape the model:

- Removal is not idempotent: `list.remove` raises `ValueError` for an absent
  handle (audio_socket_api/main.py:37). So `Registry.Disconnect` fails on an
  absent handle, and removing twice fails (`Registry.DisconnectTwiceFails`).
  `Server.StepKeepsInv` proves that the endpoint's own handlers never reach
  that failure.
- Only `WebSocketDisconnect`, `ValueError` and `RuntimeError` are caught
  (audio_socket_api/main.py:68-72). A receive loop that ends by any other
  exception leaves a stale handle in the list, and the health count keeps
  counting it (`Server.UncaughtExitLeavesStaleHandle`).
- This service has no audio processing; it echoes text.

## Model

| member | source | states |
|---|---|---|
| Registry.Init | audio_socket_api/main.py:26-27 | the registry starts with no handles, so the health count is 0 |
| Registry.Connect | audio_socket_api/main.py:29-33 | the handle goes at the end; the list grows by exactly one; earlier handles keep their places |
| Registry.RemoveFirst | audio_socket_api/main.py:35-37 | `list.remove` on a list holding the handle: one element fewer; the result is the list with its first occurrence cut out |
| Registry.RemoveFirstTakesOne | audio_socket_api/main.py:37 | removal takes away exactly one occurrence of the handle |
| Registry.RemoveFirstKeepsOthers | audio_socket_api/main.py:37 | every other handle stays, in the same relative order |
| Registry.Disconnect | audio_socket_api/main.py:35-37 | fails exactly when the handle is absent (the `ValueError`); otherwise exactly the first occurrence goes (what precedes and follows it is kept in order), size drops by exactly 1 and one copy leaves the multiset |
| Registry.Health | audio_socket_api/main.py:75-78 | status "healthy" with the number of registered handles |
| Registry.ConnectThenDisconnect | audio_socket_api/main.py:29-37 | connecting then disconnecting a handle not already present restores the registry exactly |
| Registry.ConnectThenDisconnectReorders | audio_socket_api/main.py:29-37 | a concrete instance of the next row: from [1, 2], connecting and disconnecting 1 gives [2, 1], so the order is not restored |
| Registry.ConnectThenDisconnectRemovesEarlier | audio_socket_api/main.py:29-37 | for every registry already holding `h`, connecting and disconnecting `h` removes the earlier `h` and leaves the new one last |
| Registry.RemoveFirstSnoc | audio_socket_api/main.py:37 | `list.remove` of a value present in a list is unaffected by anything appended after it |
| Registry.DisconnectTwiceFails | audio_socket_api/main.py:35-37 | removal is not idempotent: a second disconnect of a handle held once fails |
| Registry.ConnectKeepsNoDup | audio_socket_api/main.py:29-33 | appending a handle that is not live keeps the list duplicate-free |
| Registry.DisconnectKeepsNoDup | audio_socket_api/main.py:35-37 | in a duplicate-free list, disconnect removes the handle altogether and nothing else |
| Registry.RemoveFirstNoDup | audio_socket_api/main.py:37 | `list.remove` on a duplicate-free list keeps it duplicate-free and removes exactly that handle from its elements |
| Registry.NoDupCardinality | audio_socket_api/main.py:78 | for a duplicate-free list, the length the health check reports is the number of distinct handles |
| Session.Echo | audio_socket_api/main.py:66 | the reply is "Echo: " followed by exactly the received text, including the empty text |
| Session.Unecho | audio_socket_api/main.py:66 | a reply is recognised exactly when it starts with "Echo: " |
| Session.UnechoEcho | audio_socket_api/main.py:66 | every reply carries back exactly the frame it answers |
| Session.EchoUnecho | audio_socket_api/main.py:66 | a reply that reads back as some text is the echo of that text |
| Session.EchoInjective | audio_socket_api/main.py:66 | different frames get different replies |
| Session.Replies | audio_socket_api/main.py:60-66 | one reply per received frame, in order, each the echo of its frame |
| Session.RepliesAppend | audio_socket_api/main.py:60-66 | replies to later frames come after replies to earlier ones and leave them unchanged |
| Session.Endpoint | audio_socket_api/main.py:56-72 | one connection alone: one echo per frame in order; the handler's disconnect never fails; a caught exit restores a registry that did not hold the handle; an uncaught exit leaves the handle appended |
| Server.Start | audio_socket_api/main.py:45 | the server starts with an empty registry and no connections |
| Server.Step | audio_socket_api/main.py:55-72 | an event about one connection leaves every other connection untouched |
| Server.Run | audio_socket_api/main.py:55-72 | no events change nothing, and an accepted connection is never forgotten, whether live or ended |
| Server.RunAppend | audio_socket_api/main.py:55-72 | running two stretches of events in turn is running them together, a failure in the first stopping the whole run |
| Server.StartInv | audio_socket_api/main.py:45 | the registry invariant holds at start |
| Server.StepKeepsInv | audio_socket_api/main.py:58-72 | every event keeps the registry invariant (it lists each connection holding a slot once and nothing else; every connection's replies are the echoes of its frames), and the handler's disconnect never raises |
| Server.AcceptKeepsInv | audio_socket_api/main.py:58 | accepting a new handle keeps the invariant |
| Server.FrameKeepsInv | audio_socket_api/main.py:62-66 | answering a frame keeps the invariant |
| Server.HandledExitKeepsInv | audio_socket_api/main.py:68-72 | a caught exit succeeds and keeps the invariant |
| Server.UncaughtExitKeepsInv | audio_socket_api/main.py:59-72 | an uncaught exit keeps the invariant, the handle still holding its slot |
| Server.EndingKeepsReplies | audio_socket_api/main.py:68-72 | ending a connection changes none of the frames it received or sent |
| Server.RegisteredAfterRemoval | audio_socket_api/main.py:68-72 | a caught exit frees that connection's slot and no other |
| Server.ElementsOfSnoc | audio_socket_api/main.py:32 | after the append, the registered handles are the old ones plus the new one |
| Server.RunKeepsInv | audio_socket_api/main.py:55-72 | every interleaved execution keeps the invariant, and no failure arises inside the server |
| Server.HealthCountsRegistered | audio_socket_api/main.py:75-78 | the health count equals the number of connections holding a registry slot |
| Server.HealthCountsLive | audio_socket_api/main.py:75-78 | while no endpoint has left by an uncaught exception, the health count equals the number of live connections |
| Server.StepRecordsFrame | audio_socket_api/main.py:62 | an event adds to a connection's inbox exactly the frame it delivers to it |
| Server.RunRecordsFrames | audio_socket_api/main.py:60-63 | over any interleaving, each connection receives exactly its own frames, in order |
| Server.ReplyTrace | audio_socket_api/main.py:60-66 | however connections interleave, each connection's replies are the echoes of exactly its frames, one per frame, in order |
| Server.HandledExitUnregisters | audio_socket_api/main.py:68-72 | ending by disconnect, `ValueError` or `RuntimeError` removes the handle, and the health count drops by one |
| Server.UncaughtExitLeavesStaleHandle | audio_socket_api/main.py:59-72 | ending by any other exception leaves the handle registered with the health count unchanged, though the connection is no longer live |
| Server.ConnectEchoDisconnectScenario | tests/test_websocket.py:119-138 | connect, one message and disconnect: health 1 then 0, with the single reply "Echo: Test message" |
| Text.Leading | audio_socket_api/static/websocket.js:81 | the leading white space `trim` removes: all white space, and stops at the first other character |
| Text.Trailing | audio_socket_api/static/websocket.js:81 | the trailing white space `trim` removes: all white space, and stops at the last other character |
| Text.Trim | audio_socket_api/static/websocket.js:81 | the result has no white space at either end; it is the middle of the input after exactly the leading white space; it is empty exactly when the input is all white space |
| Text.LeadingOfPadded | audio_socket_api/static/websocket.js:81 | leading white space before a non-space character is measured exactly |
| Text.TrailingOfPadded | audio_socket_api/static/websocket.js:81 | trailing white space after a non-space character is measured exactly |
| Text.TrimPadded | audio_socket_api/static/websocket.js:81 | trimming a trimmed text padded with white space gives back that text |
| Text.TrimTrimmed | audio_socket_api/static/websocket.js:81 | a text with nothing to trim is left as it is |
| Text.TrimIdempotent | audio_socket_api/static/websocket.js:81 | trimming twice is trimming once |
| Client.Label | audio_socket_api/static/websocket.js:101-104 | sent lines read "You: " + text, received lines "Server: " + text |
| Client.LabelsAreUnambiguous | audio_socket_api/static/websocket.js:104 | a displayed line determines its direction and its text |
| Client.Create | audio_socket_api/static/websocket.js:3-21 | a new client is disconnected, has `reconnectAttempts` 0 and an empty box, and has already opened a socket |
| Client.OnOpen | audio_socket_api/static/websocket.js:40-47 | `onopen` sets `isConnected` and resets `reconnectAttempts` to 0 |
| Client.OnMessage | audio_socket_api/static/websocket.js:49-51 | a received frame is shown as "Server: " + data, nothing else changes |
| Client.AttemptReconnect | audio_socket_api/static/websocket.js:138-147 | `reconnectAttempts` grows by exactly 1 and the reconnect timer is started |
| Client.OnClose | audio_socket_api/static/websocket.js:53-63 | `isConnected` becomes false; a timer is started exactly when the close was not clean and fewer than 5 attempts were made; the counter grows by 1 exactly then; no socket is opened directly |
| Client.OnError | audio_socket_api/static/websocket.js:65-68 | an error only shows a notice |
| Client.TimerFires | audio_socket_api/static/websocket.js:142-146 | the timer opens a socket exactly when the client is still disconnected, and changes no state |
| Client.SendMessage | audio_socket_api/static/websocket.js:80-99 | with empty trimmed input or when disconnected, nothing happens; otherwise the trimmed input is sent, shown as "You: " + it, and the box cleared; a throwing send only shows a notice |
| Client.KeyPress | audio_socket_api/static/websocket.js:73-77 | Enter sends only while connected; any other key does nothing |
| Client.Apply | audio_socket_api/static/websocket.js:39-77 | page unload only closes the socket, and nothing else does; editing the box only changes its text; a socket is opened exactly when the reconnect timer fires while disconnected; only `onopen` and `onclose` change `isConnected` |
| Client.Run | audio_socket_api/static/websocket.js:164-173 | no events change nothing; over any sequence of events a socket is closed only if the page was unloaded |
| Client.ApplyKeepsValid | audio_socket_api/static/websocket.js:53-62 | every handler keeps 0 <= `reconnectAttempts` <= 5 |
| Client.RunKeepsValid | audio_socket_api/static/websocket.js:5-7 | 0 <= `reconnectAttempts` <= 5 across every sequence of events |
| Client.ApplyCountsTimers | audio_socket_api/static/websocket.js:138-146 | each handler other than `onopen` adds to the counter exactly the number of reconnect timers it starts |
| Client.SendStartsNoTimer | audio_socket_api/static/websocket.js:80-99 | sending starts no timer and leaves the counter alone |
| Client.KeyPressStartsNoTimer | audio_socket_api/static/websocket.js:73-77 | the Enter listener starts no timer and leaves the counter alone |
| Client.TimersAppend | audio_socket_api/static/websocket.js:142 | timers started over two stretches of events add up |
| Client.BoundedReconnects | audio_socket_api/static/websocket.js:59-62 | until a connection opens, the client starts at most 5 minus the current count of reconnect timers |
| Client.ApplySendsTrimmed | audio_socket_api/static/websocket.js:80-93 | a handler sends only while connected, and only non-empty trimmed text |
| Client.RunSendsTrimmed | audio_socket_api/static/websocket.js:80-93 | over any sequence of events, every frame sent is non-empty and trimmed |

## Left out

- HTTP routing, the static-file mount, serving `index.html`, uvicorn start-up and logging (audio_socket_api/main.py:12-19, 48-52, 81-84): framework plumbing and I/O.
- `send_message` (audio_socket_api/main.py:40-42) is modelled as appending to the connection's sent frames; the transport itself is not modelled.
- A failing handshake (`websocket.accept()` raising, audio_socket_api/main.py:31) is not modelled: it happens before the handle is appended and outside the `try`, so the registry is untouched.
- Binary frames: the endpoint only calls `receive_text`; what the framework raises for a binary frame is one of the exit kinds, and only its kind matters (`UncaughtFault` when it is none of the three caught ones).
- Real asyncio concurrency and socket transport: interleavings are event sequences, since the event loop is single-threaded. Events the framework never delivers (a reused handle, a frame or exit on an ended connection) fail as `Impossible`.
- Audio processing (format detection, transcoding, transcription): there is no such code in this service.
- A frame received but not answered: `receive_text` and `send_text` are separate awaits (audio_socket_api/main.py:62-66), so a `send_text` that raises leaves the frame received and logged but unanswered. A `Frame` event is a receive followed by a successful send; a failing send is modelled as a `Terminate` event, and its frame is not recorded in the connection's inbox. `Server.ReplyTrace` and `Session.Endpoint` therefore speak of answered frames.
- Client `connect()`'s `catch` path (audio_socket_api/static/websocket.js:32-36): constructing a WebSocket from the page's own location does not throw in practice, so `connect` is the `OpenSocket` effect.
- Client DOM work: status text, enabling and disabling the input, focus, scrolling and `console` logging. System lines are kept as tagged notices, not formatted strings.
- Client timing: `setTimeout` is the `StartTimer` effect plus a separate `TimerFired` event; pending timers are not tracked.
- The `this.ws` null check in `disconnect` and the `window.wsClient` check in the global `sendMessage` (audio_socket_api/static/websocket.js:149-161): the client always has a socket after construction, and page unload is the `CloseSocket` effect.
- Text.Trim: its white-space set lists ECMAScript's white-space and line-terminator characters explicitly; a browser whose Unicode version adds space separators would trim those as well.
