# Dev-mode websocket relay of Wails, modelled in Dafny

In development mode, Wails lets a running desktop application be mirrored into ordinary
browser tabs. Each tab opens a websocket to the dev server. The server's relay
(`DevWebServer` in `v2/internal/frontend/devserver/devserver.go`) does five things:

- it reassembles fragmented `C{"…"}` messages;
- it classifies each message by its leading bytes (`drag`, `EE`, `EB`, `EX`, anything else);
- it keeps a registry of live connections, each with its own set of subscribed event names;
- it fans notifications out to the other tabs;
- it hands everything else to the application's dispatcher and writes a non-empty answer
  back to the sender.

The model covers that relay. Each character of a Dafny `string` stands for one byte.

- `Framing` (`framing.dfy`): `Reassemble` is the reading of one message as a function of
  the frames still to come. `ReceiveMessage` is the imperative read loop, proved equal to it.
- `Classifier` (`classifier.dfy`): `Classify` is the prefix switch. `Subscriptions` is the
  effect of one message on the sender's set, and `SubscriptionsAfter` is its effect over a
  sequence of messages.
- `Protocol` (`protocol.dfy`): the effects of one message, as values. `Handled` gives the
  fan-outs (`Send`), the reply (`Reply`), the host's `Notify` and the dispatcher call.
  `Session` is the trace of one connection's whole read loop.
- `DevServer` (`devserver.dfy`): class `Relay`, whose `clients` field stands for
  `websocketClients`. Its methods are the registry updates, the broadcasts, the
  host-facing entry points and the read loop `Serve`. `Broadcast`, `Notify`,
  `HandleMessage` and `Serve` are proved against `Audience`, `Handled` and `Session`.
  The contracts of the other methods give the new registry or the effects directly.

A broadcast is modelled as one `Send(targets, payload)` effect. The targets come from a
snapshot of the registry. The source runs one goroutine per target instead.

The host's collaborators are parameters:
- the dispatcher is a function `string -> Dispatched`, with a result text and a failure flag;
- JSON decoding of an event is a function `string -> Option<Event>`;
- JSON encoding is a function `Event -> Option<string>`.

Where a write of a reply fails is also a parameter: the set of message ordinals whose
reply write fails. A read failure is modelled as the frame sequence running out.

## Behaviour as written

The model follows the code in these places:

- The reassembly stop test looks at the frame just read, not at the accumulated buffer.
  If the closing `"}` of a message is split across two frames, the end is not detected.
  `Framing.SplitClosingMarkerIsMissed` shows this with the frames `C{"a":"b"` and `}`.
  A design that tests the buffer would stop there.
- The same stop test applies to a `C{"` message that arrives whole in one frame. If its
  last two bytes are not `"}` (for example `C{"id":1}`), the next, unrelated message is
  appended to it. `Framing.UnquotedCloseAbsorbsNextMessage` shows this with
  `C{"id":1}` followed by `EBx"}`.
- Only the first frame is tested for the `C{"` marker. A first frame shorter than three
  bytes is taken as a complete message.
- Inbound `reload` and `reloadapp` are not special-cased. They go to the dispatcher.
- After their side effect, `EE` and `EX` messages still go to the dispatcher. Only `EB`
  skips it.
- A non-empty dispatcher result is written back even when the dispatcher also reported
  an error.
- `notify` with an empty event name is not filtered: it reaches every connection.

## Model

| member | source | states |
|---|---|---|
| `Framing.Gather` | v2/internal/frontend/devserver/devserver.go:194-205 | the inner loop absorbs frames up to the first frame whose own bytes end with `"}` (no frame before it does), and the message is their in-order concatenation; it fails exactly when no frame ends with `"}` |
| `Framing.ReceiveMessage` | v2/internal/frontend/devserver/devserver.go:186-207 | the imperative read loop (buffer appended frame by frame) returns exactly `Reassemble` of the remaining frames |
| `Framing.PlainFramePassesThrough` | v2/internal/frontend/devserver/devserver.go:191-206 | a frame not starting with `C{"` is the complete message, byte for byte, and consumes one frame |
| `Framing.GatherStopsAtFirstClosingFrame` | v2/internal/frontend/devserver/devserver.go:195-204 | given the first frame that ends with `"}`, gathering stops at it and yields the concatenation up to it |
| `Framing.FragmentedMessageReassembly` | v2/internal/frontend/devserver/devserver.go:191-206 | a `C{"` message is the concatenation of the frames from the first through the first one (possibly the first itself) ending with `"}` |
| `Framing.UnterminatedMessageIsDiscarded` | v2/internal/frontend/devserver/devserver.go:199-202 | when the frames run out (a read error) before a frame ends with `"}`, no message is produced and the connection ends |
| `Framing.ReassembleIgnoresLaterFrames` | v2/internal/frontend/devserver/devserver.go:195-204 | no frame after the ones a message used is consumed: replacing everything after them leaves the result unchanged |
| `Framing.SplitMessageReassembles` | v2/internal/frontend/devserver/devserver.go:194-206 | a message split into pieces of which only the last ends with `"}` reassembles to the concatenation of the pieces, wherever the splits fall |
| `Framing.UnquotedCloseAbsorbsNextMessage` | v2/internal/frontend/devserver/devserver.go:194-204 | a single-frame `C{"` message ending in `1}` rather than `"}` absorbs the next message: `C{"id":1}` then `EBx"}` reads as one message of two frames |
| `Framing.SplitClosingMarkerIsMissed` | v2/internal/frontend/devserver/devserver.go:196-198 | the stop test is on the last frame: `C{"a":"b"` then `}` ends with `"}` as a whole but is not detected, and the read fails |
| `Classifier.TaggedMessageSplits` | v2/internal/frontend/devserver/devserver.go:214-225 | a message classified `EE`/`EB`/`EX` is its two-byte tag followed by a non-empty payload |
| `Classifier.TaggedMessageClassifies` | v2/internal/frontend/devserver/devserver.go:214-225 | a tag followed by a non-empty payload is classified by that tag, with the payload as body or event name |
| `Classifier.ShortMessagesAreDispatched` | v2/internal/frontend/devserver/devserver.go:214 | messages of at most two bytes are never treated as `EE`, `EB` or `EX` |
| `Classifier.InboundReloadIsDispatched` | v2/internal/frontend/devserver/devserver.go:208-229 | inbound `reload` and `reloadapp` fall through to the dispatcher |
| `Classifier.UnsubscribeIsIdempotent` | v2/internal/frontend/devserver/devserver.go:223-224 | a second `EX` for the same name changes nothing, and the name is absent after the first |
| `Classifier.SubscribedAfterIff` | v2/internal/frontend/devserver/devserver.go:220-224 | after a sequence of messages a name is in the sender's set iff its last `EB` has no later `EX`, or it was there before and no `EX` for it came |
| `Protocol.UnfilteredAudienceIsEveryone` | v2/internal/frontend/devserver/devserver.go:266-270 | a broadcast with an empty event name reaches every registered connection |
| `Protocol.DragIsIgnored` | v2/internal/frontend/devserver/devserver.go:209-211 | exactly `drag` causes no dispatch, no send, no reply and no change to the subscription set |
| `Protocol.SubscribeIsLocal` | v2/internal/frontend/devserver/devserver.go:220-222 | `EB<name>` adds the name to the sender's set only and causes no effect at all (not dispatched) |
| `Protocol.UnsubscribeIsDispatched` | v2/internal/frontend/devserver/devserver.go:223-229 | `EX<name>` removes the name from the sender's set and is still handed to the dispatcher |
| `Protocol.EmitReachesOthersThenDispatches` | v2/internal/frontend/devserver/devserver.go:214-229 | `EE<body>` sends `n<body>` to every other connection whatever the body parses to, notifies the host only when it parses, then dispatches the message |
| `Protocol.ReplyGoesToSenderOnly` | v2/internal/frontend/devserver/devserver.go:229-240 | the only reply goes to the sender, carries the dispatcher's non-empty result, and is written iff the message was dispatched and the result is non-empty, regardless of the dispatcher's error flag |
| `Protocol.SubscriberReceivesBroadcast` | v2/internal/frontend/devserver/devserver.go:255-279 | after a sequence of messages, a broadcast filtered by a name reaches the sender iff its last `EB` for the name has no later `EX` (or it held the name and sent no `EX`) |
| `Protocol.SessionRepliesOnlyToSender` | v2/internal/frontend/devserver/devserver.go:229-240 | over a whole session every reply goes to the session's own connection |
| `Protocol.SessionRebroadcastsExcludeSender` | v2/internal/frontend/devserver/devserver.go:214-217 | over a whole session every fan-out is an `n`-prefixed rebroadcast to exactly the other registered connections |
| `DevServer.Relay.constructor` | v2/internal/frontend/devserver/devserver.go:337 | the registry starts empty |
| `DevServer.Relay.Connect` | v2/internal/frontend/devserver/devserver.go:172-175 | registers the connection with an empty set; other entries unchanged |
| `DevServer.Relay.Disconnect` | v2/internal/frontend/devserver/devserver.go:177-182 | removes exactly that connection; other entries unchanged |
| `DevServer.Relay.Broadcast` | v2/internal/frontend/devserver/devserver.go:255-279 | the targets are every registered connection when the name is empty, otherwise exactly those whose set holds the name |
| `DevServer.Relay.BroadcastExcludingSender` | v2/internal/frontend/devserver/devserver.go:295-312 | the targets are every registered connection except the sender, with no subscription filter; the sender is never a target |
| `DevServer.Relay.Notify` | v2/internal/frontend/devserver/devserver.go:281-293 | sends `n` plus the encoded event to the subscribers of its name only; sends nothing when encoding fails |
| `DevServer.Relay.NotifyExcludingSender` | v2/internal/frontend/devserver/devserver.go:314-325 | `n` plus the raw body goes to all but the sender even if the body does not parse; the host is notified iff it parses |
| `DevServer.Relay.WindowReload` | v2/internal/frontend/devserver/devserver.go:145-148 | `reload` goes to every connection, unfiltered, before the native window reloads |
| `DevServer.Relay.WindowReloadApp` | v2/internal/frontend/devserver/devserver.go:150-153 | `reloadapp` goes to every connection, unfiltered, before the native app reloads |
| `DevServer.Relay.HandleMessage` | v2/internal/frontend/devserver/devserver.go:206-240 | the effects equal `Handled` for the registry before the message; only the sender's set changes, as `Subscriptions` says; the loop stops iff a reply was written and failed |
| `DevServer.Relay.Serve` | v2/internal/frontend/devserver/devserver.go:169-244 | the read loop's effects are exactly `Session` from a registry with the connection freshly added, and on exit the registry is as before (that connection removed, others unchanged) |

## Left out

- `Run` (HTTP routing, reverse proxy to an external dev server, asset server set-up,
  starting the listener) and `handleReload`/`handleReloadApp` are I/O plumbing around
  the relay. The asset server (`v2/pkg/assetserver/assetserver_dev.go`) is not part of
  this model either.
- Goroutines and `socketMutex`: each broadcast is one atomic snapshot of the registry. In
  the source, a goroutine reads a connection's subscription set when it runs, so it can
  see a later `EB`/`EX`. The model does not capture that race or the order of deliveries.
- DevServer.Relay.Serve: runs one connection's loop on its own. Other connections do not
  connect, leave or broadcast while it runs, and the host does not call `notify`,
  `WindowReload` or `WindowReloadApp` meanwhile. So the `EB`/`EX` sets a session builds
  are never visible through `Serve`: its trace does not depend on them, and the entry is
  removed when it exits. They are visible through `HandleMessage` followed by `Notify`
  or `Broadcast`.
- Write failures during a broadcast are only logged by the source, so they are not
  modelled. Reply write failures are an input, the set `failing`.
- The `client == nil` check in `broadcast` is not modelled. Connection identities are
  never nil here.
- JSON encoding and decoding, the logger, and the dispatcher are parameters with no
  behaviour of their own. Callbacks from the dispatcher into the server are not modelled.
- The browser-side reconnecting client is not part of this model.
