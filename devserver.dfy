/**
 * The dev-mode websocket relay itself (DevWebServer in
 * v2/internal/frontend/devserver/devserver.go): the registry of live connections, the
 * broadcasts that fan out over a snapshot of it, the host-side entry points, and one
 * connection's read loop.
 */
module DevServer {
  import opened Wrappers
  import opened Framing
  import opened Classifier
  import opened Protocol

  class Relay {
    /** websocketClients: every live connection with its subscribed event names. */
    var clients: Registry

    constructor ()
      ensures clients == map[]
    {
      clients := map[];
    }

    /** A new connection is registered with no subscriptions. */
    method Connect(conn: ConnId)
      modifies this
      ensures clients == old(clients)[conn := {}]
    {
      clients := clients[conn := {}];
    }

    /** Leaving the read loop removes exactly this connection. */
    method Disconnect(conn: ConnId)
      modifies this
      ensures clients == old(clients) - {conn}
    {
      clients := clients - {conn};
    }

    /** broadcast: every connection when `name` is empty, otherwise only the
      * connections subscribed to `name`. */
    method Broadcast(message: string, name: string) returns (e: Effect)
      ensures e.Send? && e.payload == message
      ensures forall c :: c in e.targets <==> c in clients && (name == "" || name in clients[c])
      ensures e == Send(Audience(clients, name), message)
    {
      var remaining := clients.Keys;
      var targets: set<ConnId> := {};
      while remaining != {}
        invariant remaining <= clients.Keys
        invariant forall c :: c in targets <==>
          c in clients && c !in remaining && (name == "" || name in clients[c])
        decreases remaining
      {
        var c :| c in remaining;
        if name == "" || name in clients[c] {
          targets := targets + {c};
        }
        remaining := remaining - {c};
      }
      e := Send(targets, message);
    }

    /** broadcastExcludingSender: every connection but the sender, with no filtering by
      * subscription. */
    method BroadcastExcludingSender(message: string, sender: ConnId) returns (e: Effect)
      ensures e.Send? && e.payload == message && sender !in e.targets
      ensures forall c :: c in e.targets <==> c in clients && c != sender
      ensures e == Send(clients.Keys - {sender}, message)
    {
      var remaining := clients.Keys;
      var targets: set<ConnId> := {};
      while remaining != {}
        invariant remaining <= clients.Keys
        invariant forall c :: c in targets <==> c in clients && c !in remaining && c != sender
        decreases remaining
      {
        var c :| c in remaining;
        if c != sender {
          targets := targets + {c};
        }
        remaining := remaining - {c};
      }
      e := Send(targets, message);
    }

    /** notify: the event encoded as JSON, prefixed with `n`, to the subscribers of its
      * name; nothing at all when encoding fails. */
    method Notify(name: string, data: seq<Datum>, encode: Event -> Option<string>)
      returns (effects: seq<Effect>)
      ensures encode(Event(name, data)).None? ==> effects == []
      ensures encode(Event(name, data)).Some? ==>
        effects == [Send(Audience(clients, name), NotifyText(encode(Event(name, data)).value))]
      ensures forall e | e in effects ::
        e.Send? && forall c | c in e.targets :: c in clients && (name == "" || name in clients[c])
    {
      var payload := encode(Event(name, data));
      if payload.None? {
        return [];
      }
      var e := Broadcast("n" + payload.value, name);
      effects := [e];
    }

    /** notifyExcludingSender: `n` and the event's JSON to every connection but the
      * sender, then the host's Notify when the JSON parses. */
    method NotifyExcludingSender(eventMessage: string, sender: ConnId, parse: string -> Option<Event>)
      returns (effects: seq<Effect>)
      requires |eventMessage| >= 2
      ensures |effects| >= 1
      ensures effects[0] == Send(clients.Keys - {sender}, "n" + eventMessage[2..])
      ensures effects[1..] ==
        match parse(eventMessage[2..])
        case Some(ev) => [HostNotify(ev)]
        case None => []
    {
      var e := BroadcastExcludingSender("n" + eventMessage[2..], sender);
      effects := [e];
      var notification := parse(eventMessage[2..]);
      if notification.None? {
        return;
      }
      effects := effects + [HostNotify(notification.value)];
    }

    /** WindowReload: `reload` to every connection, unfiltered, then the native window. */
    method WindowReload() returns (effects: seq<Effect>)
      ensures effects == [Send(clients.Keys, "reload"), HostReload]
    {
      var e := Broadcast("reload", "");
      UnfilteredAudienceIsEveryone(clients);
      effects := [e, HostReload];
    }

    /** WindowReloadApp: `reloadapp` to every connection, then the native app. */
    method WindowReloadApp() returns (effects: seq<Effect>)
      ensures effects == [Send(clients.Keys, "reloadapp"), HostReloadApp]
    {
      var e := Broadcast("reloadapp", "");
      UnfilteredAudienceIsEveryone(clients);
      effects := [e, HostReloadApp];
    }

    /**
     * The body of the read loop for one complete message from `conn`. `replyFails` says
     * whether writing a reply to `conn` would fail; `open` is false when the loop must
     * stop because it did.
     */
    method HandleMessage(conn: ConnId, msg: string, host: Host, replyFails: bool)
      returns (effects: seq<Effect>, open: bool)
      requires conn in clients
      modifies this
      ensures clients == old(clients)[conn := Subscriptions(old(clients)[conn], msg)]
      ensures effects == Handled(old(clients), conn, msg, host)
      ensures open <==> !(Replies(msg, host) && replyFails)
    {
      effects, open := [], true;
      if |msg| == 4 && msg == "drag" {
        return;
      }
      if |msg| > 2 {
        var tag := msg[..2];
        if tag == "EE" {
          effects := NotifyExcludingSender(msg, conn, host.parse);
        } else if tag == "EB" {
          clients := clients[conn := clients[conn] + {msg[2..]}];
          return;
        } else if tag == "EX" {
          clients := clients[conn := clients[conn] - {msg[2..]}];
        }
      }
      var reply := host.dispatch(msg);
      effects := effects + [Dispatch(msg)];
      if reply.result != "" {
        effects := effects + [Reply(conn, reply.result)];
        open := !replyFails;
      }
    }

    /**
     * handleIPCWebSocket for one connection: register it, read and handle messages until
     * a read or a reply write fails, then unregister it. `failing` holds the ordinals of
     * the messages whose reply cannot be written.
     */
    method Serve(conn: ConnId, frames: seq<string>, host: Host, failing: set<nat>)
      returns (trace: seq<Effect>)
      requires conn !in clients
      modifies this
      ensures clients == old(clients)
      ensures trace == Session(old(clients)[conn := {}], conn, frames, 0, host, failing)
    {
      Connect(conn);
      ghost var whole := Session(clients, conn, frames, 0, host, failing);
      var inbox := frames;
      var count: nat := 0;
      trace := [];
      while true
        invariant conn in clients && clients - {conn} == old(clients)
        invariant trace + Session(clients, conn, inbox, count, host, failing) == whole
        decreases |inbox|
      {
        var r := ReceiveMessage(inbox);
        if r.Closed? {
          SessionEnds(clients, conn, inbox, count, host, failing);
          assert trace + [] == trace;
          break;
        }
        ghost var before := clients;
        var effects, open := HandleMessage(conn, r.msg, host, count in failing);
        if !open {
          SessionStops(trace, whole, before, conn, inbox, count, host, failing, r.msg, r.used);
          trace := trace + effects;
          break;
        }
        SessionAdvances(trace, whole, before, conn, inbox, count, host, failing,
                        r.msg, r.used, effects, clients);
        trace := trace + effects;
        inbox, count := inbox[r.used..], count + 1;
      }
      Disconnect(conn);
      assert clients == old(clients);
    }
  }
}
