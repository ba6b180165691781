/**
 * Classification of a complete inbound message by its leading bytes, and the effect of
 * subscribe (`EB`) and unsubscribe (`EX`) messages on the sending connection's set of
 * event names (v2/internal/frontend/devserver/devserver.go, the switch in
 * handleIPCWebSocket).
 *
 * Only the exact message `drag` and the two-byte tags `EE`, `EB` and `EX` on messages
 * longer than two bytes are recognised. In particular an inbound `reload` or `reloadapp`
 * is not special: it goes to the dispatcher like any other message.
 */
module Classifier {

  datatype Kind =
    | Drag                    // dropped: browsers cannot start a native drag
    | EventEmit(body: string) // rebroadcast to the other browsers, then dispatched
    | Subscribe(name: string) // added to the sender's set, not dispatched
    | Unsubscribe(name: string) // removed from the sender's set, then dispatched
    | Other                   // dispatched unchanged

  function Classify(msg: string): Kind {
    if msg == "drag" then Drag
    else if |msg| > 2 && msg[..2] == "EE" then EventEmit(msg[2..])
    else if |msg| > 2 && msg[..2] == "EB" then Subscribe(msg[2..])
    else if |msg| > 2 && msg[..2] == "EX" then Unsubscribe(msg[2..])
    else Other
  }

  /** The two-byte tag a message of a tagged kind starts with. */
  function Tag(k: Kind): string
    requires k.EventEmit? || k.Subscribe? || k.Unsubscribe?
  {
    match k
    case EventEmit(_) => "EE"
    case Subscribe(_) => "EB"
    case Unsubscribe(_) => "EX"
  }

  /** What follows the tag. */
  function Payload(k: Kind): string
    requires k.EventEmit? || k.Subscribe? || k.Unsubscribe?
  {
    match k
    case EventEmit(body) => body
    case Subscribe(name) => name
    case Unsubscribe(name) => name
  }

  /** A message classified as tagged is its tag followed by a non-empty payload. */
  lemma TaggedMessageSplits(msg: string)
    requires Classify(msg).EventEmit? || Classify(msg).Subscribe? || Classify(msg).Unsubscribe?
    ensures msg == Tag(Classify(msg)) + Payload(Classify(msg))
    ensures |Payload(Classify(msg))| > 0
  {
    assert msg == msg[..2] + msg[2..];
  }

  /** Conversely, a tag followed by a non-empty payload is classified by its tag. */
  lemma TaggedMessageClassifies(tag: string, payload: string)
    requires tag in {"EE", "EB", "EX"} && payload != ""
    ensures Classify(tag + payload) ==
      if tag == "EE" then EventEmit(payload)
      else if tag == "EB" then Subscribe(payload)
      else Unsubscribe(payload)
  {
    var m := tag + payload;
    assert m[..2] == tag && m[2..] == payload;
    assert m != "drag" by {
      assert m[0] == 'E';
    }
  }

  /** Messages of at most two bytes are never tagged: a bare `EB`, `EX` or `EE` is
    * dispatched like any other message. */
  lemma ShortMessagesAreDispatched(msg: string)
    requires |msg| <= 2
    ensures Classify(msg) == Other
  {
  }

  /** Inbound reload requests are not special-cased. */
  lemma InboundReloadIsDispatched()
    ensures Classify("reload") == Other && Classify("reloadapp") == Other
  {
    assert "reload"[..2] == "re";
    assert "reloadapp"[..2] == "re";
  }

  /** The change one message makes to its sender's set of event names. */
  function Subscriptions(names: set<string>, msg: string): set<string> {
    match Classify(msg)
    case Subscribe(name) => names + {name}
    case Unsubscribe(name) => names - {name}
    case _ => names
  }

  /** The sender's set after a sequence of messages, oldest first. */
  function SubscriptionsAfter(names: set<string>, msgs: seq<string>): set<string> {
    if |msgs| == 0 then names
    else Subscriptions(SubscriptionsAfter(names, msgs[..|msgs| - 1]), msgs[|msgs| - 1])
  }

  /** Unsubscribing twice is the same as unsubscribing once. */
  lemma UnsubscribeIsIdempotent(names: set<string>, name: string)
    requires name != ""
    ensures Subscriptions(Subscriptions(names, "EX" + name), "EX" + name)
         == Subscriptions(names, "EX" + name)
    ensures name !in Subscriptions(names, "EX" + name)
  {
    TaggedMessageClassifies("EX", name);
  }

  /** A name was subscribed by `EB` and not unsubscribed by a later `EX`. */
  ghost predicate SubscribedLast(msgs: seq<string>, name: string) {
    exists i :: 0 <= i < |msgs| && msgs[i] == "EB" + name && UnsubscribedFrom(msgs, name, i + 1)
  }

  /** No `EX` for the name at index `from` or later. */
  ghost predicate UnsubscribedFrom(msgs: seq<string>, name: string, from: nat) {
    forall j :: from <= j < |msgs| ==> msgs[j] != "EX" + name
  }

  /** A message that is neither `EB` nor `EX` for a name leaves that name's membership
    * as it was. */
  lemma OtherMessageKeepsName(names: set<string>, msg: string, name: string)
    requires msg != "EB" + name && msg != "EX" + name
    ensures name in Subscriptions(names, msg) <==> name in names
  {
    match Classify(msg)
    case Subscribe(n) =>
      TaggedMessageSplits(msg);
    case Unsubscribe(n) =>
      TaggedMessageSplits(msg);
    case _ =>
  }

  /** How the last-`EB` condition changes when one message is appended. */
  lemma SubscribedLastSnoc(init: seq<string>, last: string, name: string)
    ensures SubscribedLast(init + [last], name) <==>
      last == "EB" + name || (last != "EX" + name && SubscribedLast(init, name))
  {
    var msgs := init + [last];
    if last == "EB" + name {
      assert msgs[|init|] == "EB" + name && UnsubscribedFrom(msgs, name, |init| + 1);
    } else if last == "EX" + name {
      assert msgs[|init|] == "EX" + name;
    } else {
      if SubscribedLast(msgs, name) {
        var i :| 0 <= i < |msgs| && msgs[i] == "EB" + name && UnsubscribedFrom(msgs, name, i + 1);
        assert init[i] == msgs[i];
        assert UnsubscribedFrom(init, name, i + 1) by {
          forall j | i + 1 <= j < |init| ensures init[j] != "EX" + name {
            assert init[j] == msgs[j];
          }
        }
      }
      if SubscribedLast(init, name) {
        var i :| 0 <= i < |init| && init[i] == "EB" + name && UnsubscribedFrom(init, name, i + 1);
        assert msgs[i] == init[i];
        assert UnsubscribedFrom(msgs, name, i + 1) by {
          forall j | i + 1 <= j < |msgs| ensures msgs[j] != "EX" + name {
            if j < |init| { assert msgs[j] == init[j]; }
          }
        }
      }
    }
  }

  /** How the no-`EX` condition changes when one message is appended. */
  lemma UnsubscribedSnoc(init: seq<string>, last: string, name: string)
    ensures UnsubscribedFrom(init + [last], name, 0) <==>
      last != "EX" + name && UnsubscribedFrom(init, name, 0)
  {
    var msgs := init + [last];
    assert msgs[|init|] == last;
    assert forall j :: 0 <= j < |init| ==> msgs[j] == init[j];
  }

  /**
   * A connection holds a name after a sequence of messages exactly when its last `EB`
   * for that name has no `EX` after it, or it held the name before and no `EX` for it
   * came at all.
   */
  lemma {:induction false} SubscribedAfterIff(names: set<string>, msgs: seq<string>, name: string)
    requires name != ""
    ensures name in SubscriptionsAfter(names, msgs) <==>
      SubscribedLast(msgs, name) || (name in names && UnsubscribedFrom(msgs, name, 0))
  {
    if |msgs| > 0 {
      var init := msgs[..|msgs| - 1];
      var last := msgs[|msgs| - 1];
      assert msgs == init + [last];
      SubscribedAfterIff(names, init, name);
      SubscribedLastSnoc(init, last, name);
      UnsubscribedSnoc(init, last, name);
      if last == "EB" + name {
        TaggedMessageClassifies("EB", name);
      } else if last == "EX" + name {
        TaggedMessageClassifies("EX", name);
      } else {
        OtherMessageKeepsName(SubscriptionsAfter(names, init), last, name);
      }
    }
  }
}
