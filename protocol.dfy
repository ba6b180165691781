/**
 * What the relay does, as values: the registry of connections, the effects of handling
 * one inbound message, and the trace of one connection's read loop
 * (v2/internal/frontend/devserver/devserver.go).
 *
 * A broadcast is one `Send` effect: the set of connections that a snapshot of the
 * registry selects, and the text each of them is sent. The dispatcher and the JSON
 * decoder of the host are parameters (`Host`); the model does not interpret JSON.
 */
module Protocol {
  import opened Wrappers
  import opened Framing
  import opened Classifier

  /** The identity of a websocket connection. */
  type ConnId = nat

  /** Each registered connection with the event names it has subscribed to. */
  type Registry = map<ConnId, set<string>>

  /** One argument of an event, kept as the JSON text it was given in. */
  type Datum = string

  /** A named event with its arguments (EventNotify in the source). */
  datatype Event = Event(name: string, data: seq<Datum>)

  /** What the dispatcher returns: a reply text (empty for none) and whether it failed. */
  datatype Dispatched = Dispatched(result: string, failed: bool)

  /** The host-side collaborators of the relay. */
  datatype Host = Host(
    parse: string -> Option<Event>,    // JSON decoding of an EventNotify
    dispatch: string -> Dispatched)    // the application's message dispatcher

  datatype Effect =
    | Send(targets: set<ConnId>, payload: string) // one fan-out to a snapshot's targets
    | Reply(target: ConnId, payload: string)      // the dispatcher's answer to the sender
    | HostNotify(event: Event)                    // Frontend.Notify on the native side
    | HostReload                                  // Frontend.WindowReload
    | HostReloadApp                               // Frontend.WindowReloadApp
    | Dispatch(message: string)                   // dispatcher.ProcessMessage

  /** The connections a broadcast reaches: all of them when no event name is given,
    * otherwise the ones subscribed to that name. */
  function Audience(registry: Registry, name: string): set<ConnId> {
    set c | c in registry && (name == "" || name in registry[c])
  }

  /** The text sent to browsers for an event: `n` followed by its JSON. */
  function NotifyText(json: string): string {
    "n" + json
  }

  /** Rebroadcast of a browser's event to every other connection, then the host's own
    * notification when the JSON parses. */
  function EmitEffects(registry: Registry, sender: ConnId, body: string, host: Host): seq<Effect> {
    [Send(registry.Keys - {sender}, NotifyText(body))]
    + match host.parse(body)
      case Some(ev) => [HostNotify(ev)]
      case None => []
  }

  /** Handing a message to the dispatcher; a non-empty result goes back to the sender,
    * whether or not the dispatcher also failed. */
  function DispatchEffects(conn: ConnId, msg: string, host: Host): seq<Effect> {
    [Dispatch(msg)]
    + if host.dispatch(msg).result != "" then [Reply(conn, host.dispatch(msg).result)] else []
  }

  /** The effects of one complete inbound message on connection `conn`. */
  function Handled(registry: Registry, conn: ConnId, msg: string, host: Host): seq<Effect> {
    match Classify(msg)
    case Drag => []
    case Subscribe(_) => []
    case EventEmit(body) => EmitEffects(registry, conn, body, host) + DispatchEffects(conn, msg, host)
    case Unsubscribe(_) => DispatchEffects(conn, msg, host)
    case Other => DispatchEffects(conn, msg, host)
  }

  /** Whether handling the message writes a reply to the sender. */
  predicate Replies(msg: string, host: Host) {
    !Classify(msg).Drag? && !Classify(msg).Subscribe? && host.dispatch(msg).result != ""
  }

  /**
   * The effects of a connection's read loop over the frames it receives, `count`
   * messages having been read so far. The loop ends when a read fails (the frames run
   * out) or when writing a reply fails; `failing` holds the ordinals of the messages
   * whose reply cannot be written.
   */
  function Session(registry: Registry, conn: ConnId, frames: seq<string>, count: nat,
                   host: Host, failing: set<nat>): seq<Effect>
    requires conn in registry
    decreases |frames|
  {
    match Reassemble(frames)
    case Closed => []
    case Complete(msg, used) =>
      var effects: seq<Effect> := Handled(registry, conn, msg, host);
      if Replies(msg, host) && count in failing then effects
      else effects + Session(registry[conn := Subscriptions(registry[conn], msg)], conn,
                             frames[used..], count + 1, host, failing)
  }

  /** A session whose next read fails produces nothing more. */
  lemma SessionEnds(registry: Registry, conn: ConnId, frames: seq<string>, count: nat,
                    host: Host, failing: set<nat>)
    requires conn in registry && Reassemble(frames).Closed?
    ensures Session(registry, conn, frames, count, host, failing) == []
  {
  }

  /** One turn of the read loop: the message's effects, then the rest of the session
    * with the sender's updated set, unless writing the reply failed. */
  lemma SessionStep(registry: Registry, conn: ConnId, frames: seq<string>, count: nat,
                    host: Host, failing: set<nat>, msg: string, used: nat)
    requires conn in registry && Reassemble(frames) == Complete(msg, used)
    ensures Replies(msg, host) && count in failing ==>
      Session(registry, conn, frames, count, host, failing) == Handled(registry, conn, msg, host)
    ensures !(Replies(msg, host) && count in failing) ==>
      Session(registry, conn, frames, count, host, failing)
      == Handled(registry, conn, msg, host)
         + Session(registry[conn := Subscriptions(registry[conn], msg)], conn,
                   frames[used..], count + 1, host, failing)
  {
  }

  /** The read loop's invariant is kept by one turn that does not stop the loop. */
  lemma SessionAdvances(trace: seq<Effect>, whole: seq<Effect>, registry: Registry, conn: ConnId,
                        inbox: seq<string>, count: nat, host: Host, failing: set<nat>,
                        msg: string, used: nat, effects: seq<Effect>, after: Registry)
    requires conn in registry && Reassemble(inbox) == Complete(msg, used)
    requires !(Replies(msg, host) && count in failing)
    requires trace + Session(registry, conn, inbox, count, host, failing) == whole
    requires effects == Handled(registry, conn, msg, host)
    requires after == registry[conn := Subscriptions(registry[conn], msg)]
    ensures used <= |inbox| && conn in after
    ensures (trace + effects) + Session(after, conn, inbox[used..], count + 1, host, failing) == whole
  {
    SessionStep(registry, conn, inbox, count, host, failing, msg, used);
  }

  /** The read loop's last turn, when writing the reply fails. */
  lemma SessionStops(trace: seq<Effect>, whole: seq<Effect>, registry: Registry, conn: ConnId,
                     frames: seq<string>, count: nat, host: Host, failing: set<nat>,
                     msg: string, used: nat)
    requires conn in registry && Reassemble(frames) == Complete(msg, used)
    requires Replies(msg, host) && count in failing
    requires trace + Session(registry, conn, frames, count, host, failing) == whole
    ensures trace + Handled(registry, conn, msg, host) == whole
  {
    SessionStep(registry, conn, frames, count, host, failing, msg, used);
  }

  /** A broadcast with no event name reaches every registered connection. */
  lemma UnfilteredAudienceIsEveryone(registry: Registry)
    ensures Audience(registry, "") == registry.Keys
  {
  }

  // Properties of one message

  /** `drag` does nothing at all. */
  lemma DragIsIgnored(registry: Registry, conn: ConnId, host: Host)
    ensures Handled(registry, conn, "drag", host) == []
    ensures conn in registry ==> Subscriptions(registry[conn], "drag") == registry[conn]
    ensures !Replies("drag", host)
  {
  }

  /** `EB<name>` adds the name to the sender's set only and is not dispatched. */
  lemma SubscribeIsLocal(registry: Registry, conn: ConnId, name: string, host: Host)
    requires conn in registry && name != ""
    ensures Handled(registry, conn, "EB" + name, host) == []
    ensures Subscriptions(registry[conn], "EB" + name) == registry[conn] + {name}
  {
    TaggedMessageClassifies("EB", name);
  }

  /** `EX<name>` removes the name from the sender's set and is still dispatched. */
  lemma UnsubscribeIsDispatched(registry: Registry, conn: ConnId, name: string, host: Host)
    requires conn in registry && name != ""
    ensures Handled(registry, conn, "EX" + name, host) == DispatchEffects(conn, "EX" + name, host)
    ensures Subscriptions(registry[conn], "EX" + name) == registry[conn] - {name}
  {
    TaggedMessageClassifies("EX", name);
  }

  /**
   * `EE<body>` is sent as `n<body>` to every other connection, whether or not the body
   * parses; the host is notified only when it parses; the message is then dispatched.
   */
  lemma EmitReachesOthersThenDispatches(registry: Registry, conn: ConnId, body: string, host: Host)
    requires conn in registry && body != ""
    ensures Handled(registry, conn, "EE" + body, host) ==
      [Send(registry.Keys - {conn}, "n" + body)]
      + (if host.parse(body).Some? then [HostNotify(host.parse(body).value)] else [])
      + DispatchEffects(conn, "EE" + body, host)
  {
    TaggedMessageClassifies("EE", body);
  }

  /** The dispatcher's result goes back to the sender alone, and only when non-empty. */
  lemma ReplyGoesToSenderOnly(registry: Registry, conn: ConnId, msg: string, host: Host)
    ensures forall e | e in Handled(registry, conn, msg, host) && e.Reply? ::
      e == Reply(conn, host.dispatch(msg).result) && e.payload != ""
    ensures Replies(msg, host) <==> exists e :: e in Handled(registry, conn, msg, host) && e.Reply?
  {
    var effects := Handled(registry, conn, msg, host);
    if Replies(msg, host) {
      assert effects[|effects| - 1] == Reply(conn, host.dispatch(msg).result);
    }
  }

  /**
   * After a sequence of messages from `conn`, a broadcast filtered by `name` reaches
   * `conn` exactly when its last `EB` for the name has no `EX` after it, or it held the
   * name before and sent no `EX` for it.
   */
  lemma SubscriberReceivesBroadcast(registry: Registry, conn: ConnId, msgs: seq<string>, name: string)
    requires conn in registry && name != ""
    ensures conn in Audience(registry[conn := SubscriptionsAfter(registry[conn], msgs)], name) <==>
      SubscribedLast(msgs, name) || (name in registry[conn] && UnsubscribedFrom(msgs, name, 0))
  {
    SubscribedAfterIff(registry[conn], msgs, name);
  }

  // Properties of a whole session

  /** Every reply written during a session goes to that session's connection. */
  lemma {:induction false} SessionRepliesOnlyToSender(registry: Registry, conn: ConnId,
      frames: seq<string>, count: nat, host: Host, failing: set<nat>)
    requires conn in registry
    ensures forall e | e in Session(registry, conn, frames, count, host, failing) && e.Reply? ::
      e.target == conn
    decreases |frames|
  {
    match Reassemble(frames)
    case Closed =>
    case Complete(msg, used) =>
      ReplyGoesToSenderOnly(registry, conn, msg, host);
      if !(Replies(msg, host) && count in failing) {
        var registry' := registry[conn := Subscriptions(registry[conn], msg)];
        SessionRepliesOnlyToSender(registry', conn, frames[used..], count + 1, host, failing);
      }
  }

  /** The only fan-outs a session causes are rebroadcasts of its own events, and each
    * reaches exactly the other registered connections. */
  lemma {:induction false} SessionRebroadcastsExcludeSender(registry: Registry, conn: ConnId,
      frames: seq<string>, count: nat, host: Host, failing: set<nat>)
    requires conn in registry
    ensures forall e | e in Session(registry, conn, frames, count, host, failing) && e.Send? ::
      e.targets == registry.Keys - {conn} && |e.payload| > 0 && e.payload[0] == 'n'
    decreases |frames|
  {
    match Reassemble(frames)
    case Closed =>
    case Complete(msg, used) =>
      if !(Replies(msg, host) && count in failing) {
        var registry' := registry[conn := Subscriptions(registry[conn], msg)];
        assert registry'.Keys == registry.Keys;
        SessionRebroadcastsExcludeSender(registry', conn, frames[used..], count + 1, host, failing);
      }
  }
}
