/**
 * The server's connection registry, shared by server/internal/ws/hub.go and
 * server/internal/chat/ws/hub.go: the set of live clients, the index of
 * connections by user and the index of subscribers by channel, kept in step
 * with each client's own `subscriptions`. The `Run` select loop becomes one
 * method call per event and a client's send channel becomes its `outbox`.
 * The two files differ here only in the `conn.ack` that the first one sends
 * on registration (`sendsAck`).
 */
module Hub {
  import opened Wrappers
  import opened WsTypes

  /** The `Event` envelope; `kind` is the `type` field, `serverTs` is in seconds. */
  datatype Event = Event(kind: string, id: string, from: string, to: string,
                         payload: map<string, Json>, serverTs: int)

  /** `NewServerEvent`: a server-originated envelope stamped `now`, with no correlation id. */
  function NewServerEvent(kind: string, from: string, to: string, payload: map<string, Json>, now: int): (e: Event)
    ensures e.kind == kind && e.from == from && e.to == to && e.payload == payload
    ensures e.id == "" && e.serverTs == now
  {
    Event(kind, "", from, to, payload, now)
  }

  /** The `conn.ack` that registration sends in server/internal/ws. */
  function AckEvent(clientId: string, userId: string, now: int): Event {
    NewServerEvent("conn.ack", "server", userId, map["client_id" := JStr(clientId), "connected_at" := JNum(now)], now)
  }

  // ---------------------------------------------------------------- set-valued indexes

  /** No key of the index maps to an empty set. */
  predicate NoEmpty<T>(m: map<string, set<T>>) {
    forall k :: k in m ==> m[k] != {}
  }

  /** `m[k][x] = struct{}{}`, creating `m[k]` first when it is missing. */
  function AddTo<T>(m: map<string, set<T>>, k: string, x: T): (r: map<string, set<T>>)
    ensures r.Keys == m.Keys + {k}
    ensures x in r[k] && (k in m ==> r[k] == m[k] + {x})
    ensures forall j :: j in m && j != k ==> r[j] == m[j]
    ensures NoEmpty(m) ==> NoEmpty(r)
  {
    m[k := (if k in m then m[k] else {}) + {x}]
  }

  /** `delete(m[k], x)`, and `delete(m, k)` when that empties the set; nothing when `k` is absent. */
  function RemoveFrom<T>(m: map<string, set<T>>, k: string, x: T): (r: map<string, set<T>>)
    ensures r.Keys <= m.Keys && (k !in m ==> r == m)
    ensures k in r ==> r[k] == m[k] - {x} && r[k] != {}
    ensures k in m && k !in r ==> m[k] <= {x}
    ensures forall j :: j in m && j != k ==> j in r && r[j] == m[j]
    ensures NoEmpty(m) ==> NoEmpty(r)
  {
    if k in m then
      if m[k] - {x} == {} then m - {k} else m[k := m[k] - {x}]
    else m
  }

  /** Adding an element that is already indexed changes nothing: subscribing twice is idempotent. */
  lemma AddToIdempotent<T>(m: map<string, set<T>>, k: string, x: T)
    ensures AddTo(AddTo(m, k, x), k, x) == AddTo(m, k, x)
  {
    assert AddTo(m, k, x)[k] + {x} == AddTo(m, k, x)[k];
  }

  /** Removing what was just added restores the index, when it was not there and no set was empty. */
  lemma {:induction false} RemoveUndoesAdd<T>(m: map<string, set<T>>, k: string, x: T)
    requires NoEmpty(m) && (k in m ==> x !in m[k])
    ensures RemoveFrom(AddTo(m, k, x), k, x) == m
  {
    var a := AddTo(m, k, x);
    var r := RemoveFrom(a, k, x);
    if k in m {
      assert a[k] - {x} == m[k];
      assert r == m[k := m[k]];
    } else {
      assert a[k] - {x} == {};
      assert r == m;
    }
  }

  /** The channel index after `x` has left every channel in `ks` (the loop of `removeClient`). */
  function Unlink<T>(m: map<string, set<T>>, x: T, ks: set<string>): (r: map<string, set<T>>)
    ensures r.Keys <= m.Keys
    ensures forall j :: j in r && j in ks ==> r[j] == m[j] - {x}
    ensures forall j :: j in m && j !in ks ==> j in r && r[j] == m[j]
    ensures forall j :: j in m && j in ks && j !in r ==> m[j] <= {x}
  {
    map j | j in m && !(j in ks && m[j] - {x} == {}) :: if j in ks then m[j] - {x} else m[j]
  }

  lemma UnlinkNone<T>(m: map<string, set<T>>, x: T)
    ensures Unlink(m, x, {}) == m
  {
  }

  /** One more channel left: the loop body is `RemoveFrom`. */
  lemma UnlinkStep<T>(m: map<string, set<T>>, x: T, ks: set<string>, k: string)
    requires k !in ks
    ensures Unlink(m, x, ks + {k}) == RemoveFrom(Unlink(m, x, ks), k, x)
  {
    var a := Unlink(m, x, ks + {k});
    var b := RemoveFrom(Unlink(m, x, ks), k, x);
    assert a.Keys == b.Keys;
    forall j | j in a
      ensures a[j] == b[j]
    {
      if j == k {
        assert b[j] == m[j] - {x};
      }
    }
  }

  /**
   * When every channel holding `x` is in `ks`, leaving them all removes `x`
   * from the whole index and leaves no empty set behind.
   */
  lemma UnlinkRemovesAll<T>(m: map<string, set<T>>, x: T, ks: set<string>)
    requires NoEmpty(m)
    requires forall j :: j in m && x in m[j] ==> j in ks
    ensures forall j :: j in Unlink(m, x, ks) ==> x !in Unlink(m, x, ks)[j]
    ensures NoEmpty(Unlink(m, x, ks))
  {
  }

  // ---------------------------------------------------------------- clients

  /** A connection: `ID` and `UserID` never change; `send` is modelled as the `outbox`. */
  class Client {
    const id: string
    const userId: string
    var subscriptions: set<string>
    var outbox: seq<Event>

    /** `NewClient`: no subscriptions, nothing queued. */
    constructor (id: string, userId: string)
      ensures this.id == id && this.userId == userId
      ensures subscriptions == {} && outbox == []
    {
      this.id := id;
      this.userId := userId;
      subscriptions := {};
      outbox := [];
    }
  }

  /** What a broadcast that skips `exclude` queues for `c`. */
  function Sent(c: Client, ev: Event, exclude: string): seq<Event> {
    if exclude != "" && c.id == exclude then [] else [ev]
  }

  /** `SafeSend` to each client of `targets` (the `for c := range set` loops), skipping the id `exclude`. */
  method SendEach(targets: set<Client>, ev: Event, exclude: string)
    modifies targets`outbox
    ensures forall c :: c in targets ==> c.outbox == old(c.outbox) + Sent(c, ev, exclude)
  {
    var rest := targets;
    while rest != {}
      invariant rest <= targets
      invariant forall c :: c in targets - rest ==> c.outbox == old(c.outbox) + Sent(c, ev, exclude)
      invariant forall c :: c in rest ==> c.outbox == old(c.outbox)
      decreases |rest|
    {
      var c :| c in rest;
      if !(exclude != "" && c.id == exclude) {
        c.outbox := c.outbox + [ev];
      }
      rest := rest - {c};
    }
  }

  /** Every client some channel of `cs` lists. */
  ghost function Members(cs: map<string, set<Client>>): set<Client> {
    set ch, c | ch in cs && c in cs[ch] :: c
  }

  /**
   * The user index holds registered clients under their own, non-empty
   * `UserID`, and every registered client with a `UserID` is in it.
   */
  ghost predicate UserIndexed(clients: set<Client>, uc: map<string, set<Client>>) {
    "" !in uc
    && (forall u, c :: u in uc && c in uc[u] ==> c in clients && c.userId == u)
    && (forall c :: c in clients && c.userId != "" ==> c.userId in uc && c in uc[c.userId])
  }

  /** A client listed under a channel has that channel in its `subscriptions`. */
  ghost predicate Linked(cs: map<string, set<Client>>)
    reads Members(cs)`subscriptions
  {
    forall ch, c :: ch in cs && c in cs[ch] ==> ch in c.subscriptions
  }

  lemma UserIndexedAdd(clients: set<Client>, uc: map<string, set<Client>>, c: Client)
    requires UserIndexed(clients, uc)
    ensures UserIndexed(clients + {c}, if c.userId != "" then AddTo(uc, c.userId, c) else uc)
  {
  }

  lemma UserIndexedRemove(clients: set<Client>, uc: map<string, set<Client>>, c: Client)
    requires UserIndexed(clients, uc)
    ensures UserIndexed(clients - {c}, if c.userId != "" then RemoveFrom(uc, c.userId, c) else uc)
    ensures c.userId != "" ==> forall u :: u in RemoveFrom(uc, c.userId, c) ==> c !in RemoveFrom(uc, c.userId, c)[u]
    ensures c.userId == "" ==> forall u :: u in uc ==> c !in uc[u]
  {
  }

  /** Dropping members keeps the channels linked. */
  lemma LinkedShrink(cs: map<string, set<Client>>, ds: map<string, set<Client>>)
    requires Linked(cs)
    requires forall ch :: ch in ds ==> ch in cs && ds[ch] <= cs[ch]
    ensures Linked(ds)
  {
  }

  // ---------------------------------------------------------------- the registry

  class Registry {
    /** Whether `addClient` queues a `conn.ack` (server/internal/ws) or not (server/internal/chat/ws). */
    const sendsAck: bool
    var clients: set<Client>
    var userConns: map<string, set<Client>>
    var channelSubs: map<string, set<Client>>

    /**
     * The registry invariant: no empty set in either index, the user index
     * consistent with `clients`, and every channel listing only clients that
     * have it in their `subscriptions`.
     */
    ghost predicate Valid()
      reads this, Members(channelSubs)`subscriptions
    {
      NoEmpty(userConns) && NoEmpty(channelSubs) && UserIndexed(clients, userConns) && Linked(channelSubs)
    }

    /** `NewHub`: empty maps. */
    constructor (sendsAck: bool)
      ensures Valid() && this.sendsAck == sendsAck
      ensures clients == {} && userConns == map[] && channelSubs == map[]
    {
      this.sendsAck := sendsAck;
      clients := {};
      userConns := map[];
      channelSubs := map[];
    }

    /** `addClient`: always registered, indexed by user only with a non-empty `UserID`. */
    method AddClient(c: Client, now: int)
      requires Valid()
      modifies this`clients, this`userConns, c`outbox
      ensures Valid()
      ensures clients == old(clients) + {c}
      ensures userConns == if c.userId != "" then AddTo(old(userConns), c.userId, c) else old(userConns)
      ensures c.outbox == old(c.outbox) + (if sendsAck then [AckEvent(c.id, c.userId, now)] else [])
    {
      clients := clients + {c};
      JoinUser(c);
      if sendsAck {
        c.outbox := c.outbox + [AckEvent(c.id, c.userId, now)];
      }
      UserIndexedAdd(old(clients), old(userConns), c);
    }

    /** The user half of `addClient`. */
    method JoinUser(c: Client)
      modifies this`userConns
      ensures userConns == if c.userId != "" then AddTo(old(userConns), c.userId, c) else old(userConns)
    {
      if c.userId != "" {
        if c.userId !in userConns {
          userConns := userConns[c.userId := {}];
        }
        userConns := userConns[c.userId := userConns[c.userId] + {c}];
      }
    }

    /**
     * `removeClient`: out of `clients`, out of its user set and out of every
     * channel in its `subscriptions`, deleting sets that become empty; by the
     * invariant it is then listed nowhere.
     */
    method RemoveClient(c: Client)
      requires Valid()
      modifies this`clients, this`userConns, this`channelSubs
      ensures Valid()
      ensures clients == old(clients) - {c}
      ensures userConns == if c.userId != "" then RemoveFrom(old(userConns), c.userId, c) else old(userConns)
      ensures channelSubs == Unlink(old(channelSubs), c, c.subscriptions)
      ensures forall u :: u in userConns ==> c !in userConns[u]
      ensures forall ch :: ch in channelSubs ==> c !in channelSubs[ch]
    {
      clients := clients - {c};
      LeaveUser(c);
      LeaveChannels(c);
      UserIndexedRemove(old(clients), old(userConns), c);
      UnlinkRemovesAll(old(channelSubs), c, c.subscriptions);
      LinkedShrink(old(channelSubs), channelSubs);
    }

    /** The user half of `removeClient`. */
    method LeaveUser(c: Client)
      modifies this`userConns
      ensures userConns == if c.userId != "" then RemoveFrom(old(userConns), c.userId, c) else old(userConns)
    {
      if c.userId != "" && c.userId in userConns {
        var s := userConns[c.userId] - {c};
        if s == {} {
          userConns := userConns - {c.userId};
        } else {
          userConns := userConns[c.userId := s];
        }
      }
    }

    /** The channel loop of `removeClient`, over the client's `subscriptions`. */
    method LeaveChannels(c: Client)
      modifies this`channelSubs
      ensures channelSubs == Unlink(old(channelSubs), c, c.subscriptions)
    {
      var rest := c.subscriptions;
      ghost var done: set<string> := {};
      UnlinkNone(old(channelSubs), c);
      while rest != {}
        invariant rest + done == c.subscriptions && rest !! done
        invariant channelSubs == Unlink(old(channelSubs), c, done)
        decreases |rest|
      {
        var ch :| ch in rest;
        UnlinkStep(old(channelSubs), c, done, ch);
        LeaveChannel(c, ch);
        rest := rest - {ch};
        done := done + {ch};
      }
    }

    /** `Subscribe`: membership recorded both ways. */
    method Subscribe(c: Client, ch: string)
      requires Valid()
      modifies this`channelSubs, c`subscriptions
      ensures Valid()
      ensures channelSubs == AddTo(old(channelSubs), ch, c)
      ensures c.subscriptions == old(c.subscriptions) + {ch}
    {
      if ch !in channelSubs {
        channelSubs := channelSubs[ch := {}];
      }
      channelSubs := channelSubs[ch := channelSubs[ch] + {c}];
      c.subscriptions := c.subscriptions + {ch};
    }

    /** `Unsubscribe`: removed both ways; an unknown channel only clears `c.subscriptions`. */
    method Unsubscribe(c: Client, ch: string)
      requires Valid()
      modifies this`channelSubs, c`subscriptions
      ensures Valid()
      ensures channelSubs == RemoveFrom(old(channelSubs), ch, c)
      ensures c.subscriptions == old(c.subscriptions) - {ch}
    {
      LeaveChannel(c, ch);
      c.subscriptions := c.subscriptions - {ch};
    }

    /** `delete(set, c)` on the channel's set, deleting the set when it becomes empty. */
    method LeaveChannel(c: Client, ch: string)
      modifies this`channelSubs
      ensures channelSubs == RemoveFrom(old(channelSubs), ch, c)
    {
      if ch in channelSubs {
        var s := channelSubs[ch] - {c};
        if s == {} {
          channelSubs := channelSubs - {ch};
        } else {
          channelSubs := channelSubs[ch := s];
        }
      }
    }

    /** `firstClientIDForUser`: the id of some connection of the user (map order is unspecified), else "". */
    method FirstClientIdForUser(u: string) returns (id: string)
      ensures (u !in userConns || userConns[u] == {}) ==> id == ""
      ensures u in userConns && userConns[u] != {} ==> exists c :: c in userConns[u] && c.id == id
    {
      id := "";
      if u in userConns && userConns[u] != {} {
        var c :| c in userConns[u];
        id := c.id;
      }
    }

    /** The first connection of a user, as the `channel.subscribe` cases pick it. */
    method FirstClientForUser(u: string) returns (cli: Option<Client>)
      ensures cli.Some? <==> u in userConns && userConns[u] != {}
      ensures cli.Some? ==> cli.value in userConns[u]
    {
      cli := None;
      if u in userConns && userConns[u] != {} {
        var c :| c in userConns[u];
        cli := Some(c);
      }
    }

    /** `broadcastAll`: one copy to every registered client. */
    method BroadcastAll(ev: Event)
      requires Valid()
      modifies clients`outbox
      ensures Valid()
      ensures forall c :: c in clients ==> c.outbox == old(c.outbox) + [ev]
    {
      SendEach(clients, ev, "");
    }

    /** `broadcastToUser`: reports whether the user has an entry; only its connections get a copy. */
    method BroadcastToUser(u: string, ev: Event) returns (found: bool)
      requires Valid()
      modifies clients`outbox
      ensures Valid()
      ensures found <==> u in userConns
      ensures forall c :: c in clients ==>
        c.outbox == old(c.outbox) + (if found && c in userConns[u] then [ev] else [])
    {
      if u !in userConns {
        return false;
      }
      SendEach(userConns[u], ev, "");
      found := true;
    }

    /** The clients a send to channel `ch` may touch. */
    function ChannelSet(ch: string): set<Client>
      reads this
    {
      if ch in channelSubs then channelSubs[ch] else {}
    }

    /** `broadcastToChannel`: one copy to each subscriber except the one with id `exclude`; none for an unknown channel. */
    method BroadcastToChannel(ch: string, ev: Event, exclude: string)
      requires Valid()
      modifies ChannelSet(ch)`outbox
      ensures Valid()
      ensures ch !in channelSubs ==> ChannelSet(ch) == {}
      ensures forall c :: c in ChannelSet(ch) ==> c.outbox == old(c.outbox) + Sent(c, ev, exclude)
    {
      if ch !in channelSubs {
        return;
      }
      SendEach(channelSubs[ch], ev, exclude);
    }
  }
}
