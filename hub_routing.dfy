/**
 * `routeEvent` of the two hubs. server/internal/chat/ws/hub.go routes by `To`
 * alone; server/internal/ws/hub.go has a case per event type (typing,
 * channel membership, the legacy `chat.message`, `message.send`) and falls
 * back to the same `To`-based broadcast. The clock, the fresh message id and
 * the RFC 3339 `createdAt` text are parameters.
 */
module HubRouting {
  import opened Wrappers
  import opened WsTypes
  import opened Hub

  const TypingStartKind := "typing.start"
  const TypingStopKind := "typing.stop"
  const ChannelSubscribeKind := "channel.subscribe"
  const ChannelUnsubscribeKind := "channel.unsubscribe"
  const ChatMessageKind := "chat.message"
  const MessageSendKind := "message.send"

  /** `if ev.ServerTs == 0 { ev.ServerTs = now }`. */
  function Stamp(ev: Event, now: int): (e: Event)
    ensures ev.serverTs != 0 ==> e == ev
    ensures ev.serverTs == 0 ==> e.serverTs == now && e.(serverTs := 0) == ev
  {
    if ev.serverTs == 0 then ev.(serverTs := now) else ev
  }


  /** The subscribers of a channel, none for an unknown one. */
  function ChanSet(cs: map<string, set<Client>>, ch: string): set<Client> {
    if ch in cs then cs[ch] else {}
  }

  /** `broadcast`: everybody for an empty `To`, else the user's connections when it has an entry, else the channel. */
  function Recipients(clients: set<Client>, uc: map<string, set<Client>>, cs: map<string, set<Client>>, to: string): set<Client> {
    if to == "" then clients else if to in uc then uc[to] else ChanSet(cs, to)
  }

  /** Under the registry invariant a user-addressed event reaches registered connections of that user only. */
  lemma RecipientsOfUser(clients: set<Client>, uc: map<string, set<Client>>, cs: map<string, set<Client>>, to: string)
    requires UserIndexed(clients, uc) && to != "" && to in uc
    ensures forall c :: c in Recipients(clients, uc, cs, to) ==> c in clients && c.userId == to
    ensures forall c :: c in clients && c.userId == to ==> c in Recipients(clients, uc, cs, to)
  {
  }

  /** The typing frame passed on: same type, sender, target and payload, a fresh timestamp, no id. */
  function TypingOut(ev: Event, now: int): Event {
    Event(ev.kind, "", ev.from, ev.to, ev.payload, now)
  }

  /** `channel.subscribed` / `channel.unsubscribed`, sent to the requesting user. */
  function ChannelNotice(kind: string, ch: string, now: int): Event {
    NewServerEvent(kind, "server", ch, map["channel" := JStr(ch)], now)
  }

  /** `message.created`, echoing the send's `tempId`, `roomId` and `content`. */
  function Created(ev: Event, now: int, msgId: string, createdAt: string): Event {
    var roomId := StringAt(ev.payload, "roomId");
    NewServerEvent("message.created", "server", roomId,
      map["id" := JStr(msgId), "tempId" := JStr(StringAt(ev.payload, "tempId")), "roomId" := JStr(roomId),
          "author" := JObj(map["id" := JStr(ev.from), "name" := JStr("User")]),
          "content" := JStr(StringAt(ev.payload, "content")), "createdAt" := JStr(createdAt)], now)
  }

  /** `message.send` is dropped when the sender, the room or the content is empty. */
  predicate SendAccepted(ev: Event) {
    ev.from != "" && StringAt(ev.payload, "roomId") != "" && StringAt(ev.payload, "content") != ""
  }

  /** The channel-membership cases act when the sender has a connection and `To` is set. */
  predicate MembershipActs(uc: map<string, set<Client>>, ev: Event) {
    ev.to != "" && ev.from in uc && uc[ev.from] != {}
  }

  /**
   * What `routeEvent` in server/internal/ws queues for client `c`, given the
   * registry before the event and the connection id the typing fan-out
   * skips (`excluded`).
   */
  function Deliver(ev: Event, now: int, msgId: string, createdAt: string, clients: set<Client>,
                   uc: map<string, set<Client>>, cs: map<string, set<Client>>, excluded: string, c: Client): seq<Event>
  {
    if ev.kind == TypingStartKind || ev.kind == TypingStopKind then
      if ev.from == "" || ev.to == "" || c !in ChanSet(cs, ev.to) then [] else Sent(c, TypingOut(ev, now), excluded)
    else if ev.kind == ChannelSubscribeKind || ev.kind == ChannelUnsubscribeKind then
      if MembershipActs(uc, ev) && c in uc[ev.from] then
        [ChannelNotice(if ev.kind == ChannelSubscribeKind then "channel.subscribed" else "channel.unsubscribed", ev.to, now)]
      else []
    else if ev.kind == ChatMessageKind then
      if c in ChanSet(cs, ev.to) then [Stamp(ev, now)] else []
    else if ev.kind == MessageSendKind then
      if SendAccepted(ev) && c in ChanSet(cs, StringAt(ev.payload, "roomId")) then [Created(ev, now, msgId, createdAt)] else []
    else if c in Recipients(clients, uc, cs, ev.to) then [Stamp(ev, now)] else []
  }

  /** Typing with an empty sender or target queues nothing anywhere. */
  lemma TypingDropped(ev: Event, now: int, msgId: string, createdAt: string, clients: set<Client>,
                      uc: map<string, set<Client>>, cs: map<string, set<Client>>, excluded: string, c: Client)
    requires ev.kind == TypingStartKind || ev.kind == TypingStopKind
    requires ev.from == "" || ev.to == ""
    ensures Deliver(ev, now, msgId, createdAt, clients, uc, cs, excluded, c) == []
  {
  }

  /**
   * Otherwise each subscriber of `To` gets one copy, except the skipped
   * connection; nobody else gets anything.
   */
  lemma TypingFanout(ev: Event, now: int, msgId: string, createdAt: string, clients: set<Client>,
                     uc: map<string, set<Client>>, cs: map<string, set<Client>>, excluded: string, c: Client)
    requires ev.kind == TypingStartKind || ev.kind == TypingStopKind
    requires ev.from != "" && ev.to != ""
    ensures Deliver(ev, now, msgId, createdAt, clients, uc, cs, excluded, c) ==
      if c in ChanSet(cs, ev.to) && !(excluded != "" && c.id == excluded) then [TypingOut(ev, now)] else []
    ensures TypingOut(ev, now).kind == ev.kind && TypingOut(ev, now).payload == ev.payload
  {
    assert TypingStartKind != TypingStopKind;
  }

  /**
   * An accepted `message.send` reaches every subscriber of its room, the
   * sender's connections included, as one `message.created` echoing the
   * temporary id, room and content with the sender as author named "User".
   */
  lemma MessageSendFanout(ev: Event, now: int, msgId: string, createdAt: string, clients: set<Client>,
                          uc: map<string, set<Client>>, cs: map<string, set<Client>>, excluded: string, c: Client)
    requires ev.kind == MessageSendKind
    ensures var roomId := StringAt(ev.payload, "roomId");
      Deliver(ev, now, msgId, createdAt, clients, uc, cs, excluded, c) ==
        if SendAccepted(ev) && c in ChanSet(cs, roomId) then [Created(ev, now, msgId, createdAt)] else []
    ensures var out := Created(ev, now, msgId, createdAt);
      out.kind == "message.created" && out.to == StringAt(ev.payload, "roomId") &&
      out.payload["tempId"] == JStr(StringAt(ev.payload, "tempId")) &&
      out.payload["roomId"] == JStr(StringAt(ev.payload, "roomId")) &&
      out.payload["content"] == JStr(StringAt(ev.payload, "content")) &&
      out.payload["author"] == JObj(map["id" := JStr(ev.from), "name" := JStr("User")])
  {
    assert MessageSendKind != TypingStartKind && MessageSendKind != TypingStopKind && MessageSendKind != ChatMessageKind;
    assert MessageSendKind != ChannelSubscribeKind && MessageSendKind != ChannelUnsubscribeKind;
  }

  /** The membership cases tell every connection of the sender, and only those, when they act. */
  lemma MembershipNotice(ev: Event, now: int, msgId: string, createdAt: string, clients: set<Client>,
                         uc: map<string, set<Client>>, cs: map<string, set<Client>>, excluded: string, c: Client)
    requires ev.kind == ChannelSubscribeKind || ev.kind == ChannelUnsubscribeKind
    ensures Deliver(ev, now, msgId, createdAt, clients, uc, cs, excluded, c) ==
      if MembershipActs(uc, ev) && c in uc[ev.from] then
        [ChannelNotice(if ev.kind == ChannelSubscribeKind then "channel.subscribed" else "channel.unsubscribed", ev.to, now)]
      else []
  {
    assert ev.kind != TypingStartKind && ev.kind != TypingStopKind;
  }

  /** The legacy `chat.message` goes, stamped, to the subscribers of `To` (persisting aside). */
  lemma ChatMessageFanout(ev: Event, now: int, msgId: string, createdAt: string, clients: set<Client>,
                          uc: map<string, set<Client>>, cs: map<string, set<Client>>, excluded: string, c: Client)
    requires ev.kind == ChatMessageKind
    ensures Deliver(ev, now, msgId, createdAt, clients, uc, cs, excluded, c) ==
      if c in ChanSet(cs, ev.to) then [Stamp(ev, now)] else []
  {
    assert ChatMessageKind != TypingStartKind && ChatMessageKind != TypingStopKind;
    assert ChatMessageKind != ChannelSubscribeKind && ChatMessageKind != ChannelUnsubscribeKind;
  }

  /** An event of any other type is broadcast by `To`, stamped. */
  lemma DefaultBroadcast(ev: Event, now: int, msgId: string, createdAt: string, clients: set<Client>,
                         uc: map<string, set<Client>>, cs: map<string, set<Client>>, excluded: string, c: Client)
    requires ev.kind !in {TypingStartKind, TypingStopKind, ChannelSubscribeKind, ChannelUnsubscribeKind, ChatMessageKind, MessageSendKind}
    ensures Deliver(ev, now, msgId, createdAt, clients, uc, cs, excluded, c) ==
      if c in Recipients(clients, uc, cs, ev.to) then [Stamp(ev, now)] else []
  {
  }

  /** The connection the typing fan-out may skip: one of the sender's, or none. */
  predicate Skippable(uc: map<string, set<Client>>, from: string, excluded: string) {
    if from in uc && uc[from] != {} then exists c :: c in uc[from] && c.id == excluded else excluded == ""
  }

  // ---------------------------------------------------------------- server/internal/ws

  /**
   * `routeEvent` of server/internal/ws. `excluded` is the connection id the
   * typing fan-out skipped ("" for other events) and `joined` the connection
   * the membership cases acted on; both are whatever map order picked.
   */
  method RouteEvent(h: Registry, ev: Event, now: int, msgId: string, createdAt: string)
    returns (excluded: string, joined: Option<Client>)
    requires h.Valid()
    modifies h`channelSubs, h.clients`subscriptions, h.clients`outbox, Members(h.channelSubs)`outbox
    ensures h.Valid()
    ensures h.clients == old(h.clients) && h.userConns == old(h.userConns)
    ensures excluded != "" ==> (ev.kind == TypingStartKind || ev.kind == TypingStopKind) && Skippable(h.userConns, ev.from, excluded)
    ensures joined.Some? <==> (ev.kind == ChannelSubscribeKind || ev.kind == ChannelUnsubscribeKind) && MembershipActs(h.userConns, ev)
    ensures joined.Some? ==> joined.value in h.userConns[ev.from]
    ensures h.channelSubs ==
      if joined.Some? && ev.kind == ChannelSubscribeKind then AddTo(old(h.channelSubs), ev.to, joined.value)
      else if joined.Some? then RemoveFrom(old(h.channelSubs), ev.to, joined.value)
      else old(h.channelSubs)
    ensures joined.Some? ==>
      joined.value.subscriptions ==
        if ev.kind == ChannelSubscribeKind then old(joined.value.subscriptions) + {ev.to}
        else old(joined.value.subscriptions) - {ev.to}
    ensures forall c :: c in old(h.clients) && Some(c) != joined ==> c.subscriptions == old(c.subscriptions)
    ensures forall c :: c in old(h.clients + Members(h.channelSubs)) ==>
      c.outbox == old(c.outbox) + Deliver(ev, now, msgId, createdAt, h.clients, h.userConns, old(h.channelSubs), excluded, c)
  {
    excluded, joined := "", None;
    if ev.kind == TypingStartKind || ev.kind == TypingStopKind {
      excluded := RouteTyping(h, ev, now, msgId, createdAt);
    } else if ev.kind == ChannelSubscribeKind || ev.kind == ChannelUnsubscribeKind {
      joined := RouteMembership(h, ev, now, msgId, createdAt);
    } else if ev.kind == ChatMessageKind {
      RouteChatMessage(h, ev, now, msgId, createdAt);
    } else if ev.kind == MessageSendKind {
      RouteSend(h, ev, now, msgId, createdAt);
    } else {
      RouteDefault(h, ev, now, msgId, createdAt);
    }
  }

  /** The typing cases: to the subscribers of `To`, skipping one connection of the sender. */
  method RouteTyping(h: Registry, ev: Event, now: int, ghost msgId: string, ghost createdAt: string) returns (excluded: string)
    requires h.Valid() && (ev.kind == TypingStartKind || ev.kind == TypingStopKind)
    modifies h.ChannelSet(ev.to)`outbox
    ensures h.Valid()
    ensures excluded != "" ==> Skippable(h.userConns, ev.from, excluded)
    ensures forall c :: c in old(h.clients + Members(h.channelSubs)) ==>
      c.outbox == old(c.outbox) + Deliver(ev, now, msgId, createdAt, h.clients, h.userConns, old(h.channelSubs), excluded, c)
  {
    ghost var reach, cs := h.clients + Members(h.channelSubs), h.channelSubs;
    excluded := "";
    if ev.from != "" && ev.to != "" {
      excluded := h.FirstClientIdForUser(ev.from);
      h.BroadcastToChannel(ev.to, TypingOut(ev, now), excluded);
    }
    forall c | c in reach
      ensures c.outbox == old(c.outbox) + Deliver(ev, now, msgId, createdAt, h.clients, h.userConns, cs, excluded, c)
    {
      if ev.from == "" || ev.to == "" {
        TypingDropped(ev, now, msgId, createdAt, h.clients, h.userConns, cs, excluded, c);
      } else {
        TypingFanout(ev, now, msgId, createdAt, h.clients, h.userConns, cs, excluded, c);
      }
    }
  }

  /** The membership cases: `Subscribe`/`Unsubscribe` one connection of the sender and tell the user. */
  method RouteMembership(h: Registry, ev: Event, now: int, ghost msgId: string, ghost createdAt: string)
    returns (joined: Option<Client>)
    requires h.Valid() && (ev.kind == ChannelSubscribeKind || ev.kind == ChannelUnsubscribeKind)
    modifies h`channelSubs, h.clients`subscriptions, h.clients`outbox
    ensures h.Valid()
    ensures joined.Some? <==> MembershipActs(h.userConns, ev)
    ensures joined.Some? ==> joined.value in h.userConns[ev.from]
    ensures h.channelSubs ==
      if joined.Some? && ev.kind == ChannelSubscribeKind then AddTo(old(h.channelSubs), ev.to, joined.value)
      else if joined.Some? then RemoveFrom(old(h.channelSubs), ev.to, joined.value)
      else old(h.channelSubs)
    ensures joined.Some? ==>
      joined.value.subscriptions ==
        if ev.kind == ChannelSubscribeKind then old(joined.value.subscriptions) + {ev.to}
        else old(joined.value.subscriptions) - {ev.to}
    ensures forall c :: c in old(h.clients) && Some(c) != joined ==> c.subscriptions == old(c.subscriptions)
    ensures forall c :: c in old(h.clients + Members(h.channelSubs)) ==>
      c.outbox == old(c.outbox) + Deliver(ev, now, msgId, createdAt, h.clients, h.userConns, old(h.channelSubs), "", c)
  {
    ghost var reach, cs := h.clients + Members(h.channelSubs), h.channelSubs;
    joined := ActOnMembership(h, ev, now);
    forall c | c in reach
      ensures c.outbox == old(c.outbox) + Deliver(ev, now, msgId, createdAt, h.clients, h.userConns, cs, "", c)
    {
      MembershipNotice(ev, now, msgId, createdAt, h.clients, h.userConns, cs, "", c);
    }
  }

  /** The notice a membership change sends to the sender's connections. */
  function MembershipNoticeFor(ev: Event, now: int): Event {
    ChannelNotice(if ev.kind == ChannelSubscribeKind then "channel.subscribed" else "channel.unsubscribed", ev.to, now)
  }

  /** The membership change itself: one connection of the sender joins or leaves, and all of them are told. */
  method ActOnMembership(h: Registry, ev: Event, now: int) returns (joined: Option<Client>)
    requires h.Valid() && (ev.kind == ChannelSubscribeKind || ev.kind == ChannelUnsubscribeKind)
    modifies h`channelSubs, h.clients`subscriptions, h.clients`outbox
    ensures h.Valid()
    ensures joined.Some? <==> MembershipActs(h.userConns, ev)
    ensures joined.Some? ==> joined.value in h.userConns[ev.from]
    ensures h.channelSubs ==
      if joined.Some? && ev.kind == ChannelSubscribeKind then AddTo(old(h.channelSubs), ev.to, joined.value)
      else if joined.Some? then RemoveFrom(old(h.channelSubs), ev.to, joined.value)
      else old(h.channelSubs)
    ensures joined.Some? ==>
      joined.value.subscriptions ==
        if ev.kind == ChannelSubscribeKind then old(joined.value.subscriptions) + {ev.to}
        else old(joined.value.subscriptions) - {ev.to}
    ensures forall c :: c in old(h.clients) && Some(c) != joined ==> c.subscriptions == old(c.subscriptions)
    ensures forall c :: c in h.clients ==>
      c.outbox == old(c.outbox) + (if joined.Some? && c in h.userConns[ev.from] then [MembershipNoticeFor(ev, now)] else [])
  {
    var cli := h.FirstClientForUser(ev.from);
    joined := None;
    if cli.Some? && ev.to != "" {
      joined := cli;
      ApplyMembership(h, ev, cli.value);
      var _ := h.BroadcastToUser(ev.from, MembershipNoticeFor(ev, now));
    }
  }

  /** `Subscribe` for `channel.subscribe`, `Unsubscribe` for `channel.unsubscribe`. */
  method ApplyMembership(h: Registry, ev: Event, c: Client)
    requires h.Valid()
    modifies h`channelSubs, c`subscriptions
    ensures h.Valid()
    ensures h.channelSubs ==
      if ev.kind == ChannelSubscribeKind then AddTo(old(h.channelSubs), ev.to, c) else RemoveFrom(old(h.channelSubs), ev.to, c)
    ensures c.subscriptions ==
      if ev.kind == ChannelSubscribeKind then old(c.subscriptions) + {ev.to} else old(c.subscriptions) - {ev.to}
  {
    if ev.kind == ChannelSubscribeKind {
      h.Subscribe(c, ev.to);
    } else {
      h.Unsubscribe(c, ev.to);
    }
  }

  /** The legacy `chat.message`: stamped, to the subscribers of `To`. */
  method RouteChatMessage(h: Registry, ev: Event, now: int, ghost msgId: string, ghost createdAt: string)
    requires h.Valid() && ev.kind == ChatMessageKind
    modifies h.ChannelSet(ev.to)`outbox
    ensures h.Valid()
    ensures forall c :: c in old(h.clients + Members(h.channelSubs)) ==>
      c.outbox == old(c.outbox) + Deliver(ev, now, msgId, createdAt, h.clients, h.userConns, old(h.channelSubs), "", c)
  {
    ghost var reach, cs := h.clients + Members(h.channelSubs), h.channelSubs;
    h.BroadcastToChannel(ev.to, Stamp(ev, now), "");
    forall c | c in reach
      ensures c.outbox == old(c.outbox) + Deliver(ev, now, msgId, createdAt, h.clients, h.userConns, cs, "", c)
    {
      ChatMessageFanout(ev, now, msgId, createdAt, h.clients, h.userConns, cs, "", c);
    }
  }

  /** `message.send`: validated, then one `message.created` to every subscriber of the room. */
  method RouteSend(h: Registry, ev: Event, now: int, msgId: string, createdAt: string)
    requires h.Valid() && ev.kind == MessageSendKind
    modifies h.ChannelSet(StringAt(ev.payload, "roomId"))`outbox
    ensures h.Valid()
    ensures forall c :: c in old(h.clients + Members(h.channelSubs)) ==>
      c.outbox == old(c.outbox) + Deliver(ev, now, msgId, createdAt, h.clients, h.userConns, old(h.channelSubs), "", c)
  {
    ghost var reach, cs := h.clients + Members(h.channelSubs), h.channelSubs;
    var roomId := StringAt(ev.payload, "roomId");
    var content := StringAt(ev.payload, "content");
    if ev.from != "" && roomId != "" && content != "" {
      h.BroadcastToChannel(roomId, Created(ev, now, msgId, createdAt), "");
    }
    forall c | c in reach
      ensures c.outbox == old(c.outbox) + Deliver(ev, now, msgId, createdAt, h.clients, h.userConns, cs, "", c)
    {
      MessageSendFanout(ev, now, msgId, createdAt, h.clients, h.userConns, cs, "", c);
    }
  }

  /** Any other type: `broadcast`, stamped. */
  method RouteDefault(h: Registry, ev: Event, now: int, ghost msgId: string, ghost createdAt: string)
    requires h.Valid()
    requires ev.kind !in {TypingStartKind, TypingStopKind, ChannelSubscribeKind, ChannelUnsubscribeKind, ChatMessageKind, MessageSendKind}
    modifies h.clients`outbox, h.ChannelSet(ev.to)`outbox
    ensures h.Valid()
    ensures forall c :: c in old(h.clients + Members(h.channelSubs)) ==>
      c.outbox == old(c.outbox) + Deliver(ev, now, msgId, createdAt, h.clients, h.userConns, old(h.channelSubs), "", c)
  {
    ghost var reach, cs := h.clients + Members(h.channelSubs), h.channelSubs;
    Broadcast(h, Stamp(ev, now));
    forall c | c in reach
      ensures c.outbox == old(c.outbox) + Deliver(ev, now, msgId, createdAt, h.clients, h.userConns, cs, "", c)
    {
      DefaultBroadcast(ev, now, msgId, createdAt, h.clients, h.userConns, cs, "", c);
    }
  }

  /** `broadcast`: all, else the user, else the channel. */
  method Broadcast(h: Registry, ev: Event)
    requires h.Valid()
    modifies h.clients`outbox, h.ChannelSet(ev.to)`outbox
    ensures h.Valid()
    ensures forall c :: c in old(h.clients + h.ChannelSet(ev.to)) ==>
      c.outbox == old(c.outbox) + (if c in Recipients(h.clients, h.userConns, h.channelSubs, ev.to) then [ev] else [])
  {
    if ev.to == "" {
      h.BroadcastAll(ev);
      return;
    }
    var found := h.BroadcastToUser(ev.to, ev);
    if found {
      return;
    }
    h.BroadcastToChannel(ev.to, ev, "");
  }

  // ---------------------------------------------------------------- server/internal/chat/ws

  /** `routeEvent` of server/internal/chat/ws: stamp, then route by `To` alone. */
  method ChatRouteEvent(h: Registry, ev: Event, now: int)
    requires h.Valid()
    modifies h.clients`outbox, h.ChannelSet(ev.to)`outbox
    ensures h.Valid()
    ensures forall c :: c in old(h.clients + h.ChannelSet(ev.to)) ==>
      c.outbox == old(c.outbox) + (if c in Recipients(h.clients, h.userConns, h.channelSubs, ev.to) then [Stamp(ev, now)] else [])
  {
    var e := ev;
    if e.serverTs == 0 {
      e := e.(serverTs := now);
    }
    Broadcast(h, e);
  }
}
