/**
 * The older chat page (client/app/chat/page.tsx): the `useWebSocket` hook
 * with its frame queue, reconnect counter and `2^n` backoff capped at 15 s,
 * the frame reducers of `ChatShell`, the optimistic send, the typing
 * throttle and `classNames`.
 *
 * Sockets are numbered as in the connection manager model; a socket's
 * handlers are never detached in this hook. Reconnect timers and the 3 s
 * typing expiries are pending state with fire methods.
 */
module ChatPage {
  import opened Wrappers
  import opened Text
  import WsManager

  /** The hook's status (`WSStatus` of this page). */
  datatype PageStatus = PConnecting | POpen | PClosed | PError

  datatype ReadyState = CONNECTING | OPEN | CLOSING | CLOSED

  /** The frames the page sends (`Outgoing`). */
  datatype Outgoing = JoinRoom(roomId: string) | Say(roomId: string, content: string, tempId: string) | Typing(roomId: string)

  datatype LSocket = LSocket(ready: ReadyState, sent: seq<Outgoing>)

  const MaxDelay := 15000

  /** The delay scheduled after the `n`-th consecutive close. */
  function ReconnectDelay(n: nat): int {
    WsManager.Min(1000 * WsManager.Pow2(n), MaxDelay)
  }

  lemma {:induction false} Pow2AtLeast16(n: nat)
    requires n >= 4
    ensures WsManager.Pow2(n) >= 16
  {
    if n > 4 { Pow2AtLeast16(n - 1); }
  }

  /** The delays run 2000, 4000, 8000 and then 15000 for every later close. */
  lemma ReconnectDelays(n: nat)
    requires n >= 1
    ensures n == 1 ==> ReconnectDelay(n) == 2000
    ensures n == 2 ==> ReconnectDelay(n) == 4000
    ensures n == 3 ==> ReconnectDelay(n) == 8000
    ensures n >= 4 ==> ReconnectDelay(n) == 15000
  {
    if n >= 4 { Pow2AtLeast16(n); }
  }

  /**
   * `useWebSocket`: `ws` is `wsRef.current`, `queue` is `queueRef.current`
   * (JSON frames are never empty, so `if (frame)` always holds and frames
   * are kept as values), `retries` the delays of scheduled reconnects.
   */
  class LegacySocket {
    var sockets: seq<LSocket>
    var ws: Option<nat>
    var queue: seq<Outgoing>
    var attempts: nat
    var shouldReconnect: bool
    var status: PageStatus
    var retries: seq<int>

    ghost predicate Valid()
      reads this
    {
      (ws.Some? ==> ws.value < |sockets|) &&
      (forall i :: 0 <= i < |retries| ==> 2000 <= retries[i] <= MaxDelay)
    }

    function IsOpen(): bool
      reads this
      requires Valid()
    {
      ws.Some? && sockets[ws.value].ready == OPEN
    }

    constructor ()
      ensures Valid() && sockets == [] && ws == None && queue == [] && attempts == 0
      ensures shouldReconnect && status == PConnecting && retries == []
    {
      sockets, ws, queue, attempts := [], None, [], 0;
      shouldReconnect, status, retries := true, PConnecting, [];
    }

    /**
     * `connect()`: status becomes connecting; an invalid url (`new URL`
     * throws, `urlValid` false) sets status error and schedules nothing;
     * otherwise a new socket becomes current.
     */
    method Connect(urlValid: bool)
      requires Valid()
      modifies this`status, this`sockets, this`ws
      ensures Valid()
      ensures !urlValid ==> status == PError && sockets == old(sockets) && ws == old(ws)
      ensures urlValid ==> (status == PConnecting &&
        sockets == old(sockets) + [LSocket(CONNECTING, [])] && ws == Some(|old(sockets)|))
    {
      status := PConnecting;
      if !urlValid {
        status := PError;
        return;
      }
      sockets := sockets + [LSocket(CONNECTING, [])];
      ws := Some(|sockets| - 1);
    }

    /** The effect: enables reconnecting and connects. */
    method Start(urlValid: bool)
      requires Valid()
      modifies this`shouldReconnect, this`status, this`sockets, this`ws
      ensures Valid() && shouldReconnect
      ensures !urlValid ==> status == PError && sockets == old(sockets) && ws == old(ws)
      ensures urlValid ==>
        status == PConnecting && sockets == old(sockets) + [LSocket(CONNECTING, [])] && ws == Some(|old(sockets)|)
    {
      shouldReconnect := true;
      Connect(urlValid);
    }

    /** The effect's cleanup: disables reconnecting and closes the current socket. Scheduled reconnects stay. */
    method Cleanup()
      requires Valid()
      modifies this`shouldReconnect, this`sockets
      ensures Valid() && !shouldReconnect && retries == old(retries) && |sockets| == |old(sockets)|
      ensures ws.Some? ==> sockets[ws.value].ready in {CLOSING, CLOSED}
      ensures forall k :: 0 <= k < |sockets| && Some(k) != ws ==> sockets[k] == old(sockets)[k]
    {
      shouldReconnect := false;
      if ws.Some? {
        var s := sockets[ws.value];
        sockets := sockets[ws.value := s.(ready := if s.ready == CLOSED then CLOSED else CLOSING)];
      }
    }

    /** `send`: transmits on an OPEN current socket, otherwise queues the frame. */
    method Send(f: Outgoing)
      requires Valid()
      modifies this`sockets, this`queue
      ensures Valid()
      ensures old(IsOpen()) ==> (queue == old(queue) &&
        sockets == old(sockets)[ws.value := old(sockets)[ws.value].(sent := old(sockets)[ws.value].sent + [f])])
      ensures !old(IsOpen()) ==> queue == old(queue) + [f] && sockets == old(sockets)
    {
      if ws.Some? && sockets[ws.value].ready == OPEN {
        var k := ws.value;
        sockets := sockets[k := sockets[k].(sent := sockets[k].sent + [f])];
      } else {
        queue := queue + [f];
      }
    }

    /**
     * Socket `k` opens: status open, the counter resets, and the queue is
     * drained one `shift` at a time onto socket `k`, in FIFO order.
     */
    method SocketOpened(k: nat)
      requires Valid()
      requires k < |sockets| && sockets[k].ready == CONNECTING
      modifies this`sockets, this`status, this`attempts, this`queue
      ensures Valid()
      ensures status == POpen && attempts == 0 && queue == []
      ensures sockets == old(sockets)[k := LSocket(OPEN, old(sockets)[k].sent + old(queue))]
    {
      status := POpen;
      attempts := 0;
      sockets := sockets[k := sockets[k].(ready := OPEN)];
      ghost var q0 := queue;
      ghost var sent0 := sockets[k].sent;
      assert sent0 + q0[..0] == sent0;
      while |queue| > 0
        invariant Valid() && k < |sockets| && status == POpen && attempts == 0
        invariant |q0| >= |queue| && queue == q0[|q0| - |queue|..]
        invariant sockets == old(sockets)[k := LSocket(OPEN, sent0 + q0[..|q0| - |queue|])]
        decreases |queue|
      {
        var frame := queue[0];
        queue := queue[1..];
        assert q0[..|q0| - |queue|] == q0[..|q0| - |queue| - 1] + [frame];
        assert sent0 + q0[..|q0| - |queue|] == sent0 + q0[..|q0| - |queue| - 1] + [frame];
        sockets := sockets[k := sockets[k].(sent := sockets[k].sent + [frame])];
      }
      assert q0[..|q0|] == q0;
    }

    /** `onerror`: status error. */
    method SocketError()
      modifies this`status
      ensures status == PError
    {
      status := PError;
    }

    /**
     * Socket `k` closes: status closed; while reconnecting is enabled the
     * counter is incremented first and a reconnect after
     * `min(1000 * 2^attempts, 15000)` ms is scheduled.
     */
    method SocketClosed(k: nat)
      requires Valid()
      requires k < |sockets| && sockets[k].ready != CLOSED
      modifies this`sockets, this`status, this`attempts, this`retries
      ensures Valid()
      ensures status == PClosed && sockets == old(sockets)[k := old(sockets)[k].(ready := CLOSED)]
      ensures !shouldReconnect ==> attempts == old(attempts) && retries == old(retries)
      ensures shouldReconnect ==> attempts == old(attempts) + 1 && retries == old(retries) + [ReconnectDelay(attempts)]
    {
      sockets := sockets[k := sockets[k].(ready := CLOSED)];
      status := PClosed;
      if !shouldReconnect { return; }
      attempts := attempts + 1;
      ReconnectDelays(attempts);
      retries := retries + [ReconnectDelay(attempts)];
    }

    /** The `i`-th scheduled reconnect fires and calls `connect()`, whether or not reconnecting is still enabled. */
    method FireRetry(i: nat, urlValid: bool)
      requires Valid() && i < |retries|
      modifies this`retries, this`status, this`sockets, this`ws
      ensures Valid()
      ensures retries == old(retries)[..i] + old(retries)[i + 1..]
      ensures !urlValid ==> status == PError && sockets == old(sockets) && ws == old(ws)
      ensures urlValid ==>
        status == PConnecting && sockets == old(sockets) + [LSocket(CONNECTING, [])] && ws == Some(|old(sockets)|)
    {
      retries := retries[..i] + retries[i + 1..];
      Connect(urlValid);
    }
  }

  /** Three failed connections in a row schedule their reconnects after 2000, 4000 and 8000 ms. */
  method ThreeCloses() returns (delays: seq<int>)
    ensures delays == [2000, 4000, 8000]
  {
    var h := new LegacySocket();
    h.Start(true);
    h.SocketClosed(0);
    ReconnectDelays(1);
    assert h.retries == [2000] && h.attempts == 1;
    delays := [h.retries[0]];
    h.FireRetry(0, true);
    h.SocketClosed(1);
    ReconnectDelays(2);
    assert h.retries == [4000] && h.attempts == 2;
    delays := delays + [h.retries[0]];
    h.FireRetry(0, true);
    h.SocketClosed(2);
    ReconnectDelays(3);
    assert h.retries == [8000];
    delays := delays + [h.retries[0]];
  }

  // ---------------------------------------------------------------- frames

  /** A message as this page holds it; `createdAt` is an integer timestamp. */
  datatype PMessage = PMessage(id: string, tempId: Option<string>, roomId: string, userId: string,
                               username: string, content: string, createdAt: int, mine: bool)

  /** The inbound frames (`Incoming`); an absent `username` is "". */
  datatype Incoming =
    | History(roomId: string, messages: seq<PMessage>)
    | MessageFrame(message: PMessage)
    | Ack(tempId: Option<string>, id: string, createdAt: Option<int>)
    | TypingFrame(roomId: string, userId: string, username: string)
    | ErrorFrame(text: string)

  /** `history`: the frame's list replaces the state, `mine` recomputed against the current user. */
  function OnHistory(messages: seq<PMessage>, me: string): (r: seq<PMessage>)
    ensures |r| == |messages|
    ensures forall i :: 0 <= i < |r| ==>
      r[i] == messages[i].(mine := messages[i].userId == me) && (r[i].mine <==> messages[i].userId == me)
  {
    seq(|messages|, i requires 0 <= i < |messages| => messages[i].(mine := messages[i].userId == me))
  }

  /** `message`: appended, without any dedupe. */
  function OnMessage(cur: seq<PMessage>, m: PMessage, me: string): (r: seq<PMessage>)
    ensures |r| == |cur| + 1 && r[..|cur|] == cur
    ensures r[|cur|] == m.(mine := m.userId == me)
  {
    cur + [m.(mine := m.userId == me)]
  }

  /** `ack`: every message whose `tempId` equals the frame's takes the server id (and `createdAt` when given). */
  function OnAck(cur: seq<PMessage>, tempId: Option<string>, id: string, createdAt: Option<int>): (r: seq<PMessage>)
    ensures |r| == |cur|
    ensures forall i :: 0 <= i < |cur| && cur[i].tempId != tempId ==> r[i] == cur[i]
    ensures forall i :: 0 <= i < |cur| && cur[i].tempId == tempId ==>
      r[i] == cur[i].(id := id, createdAt := createdAt.GetOr(cur[i].createdAt))
  {
    seq(|cur|, i requires 0 <= i < |cur| =>
      if cur[i].tempId == tempId then cur[i].(id := id, createdAt := createdAt.GetOr(cur[i].createdAt)) else cur[i])
  }

  /** The name a typing frame shows. */
  function TypingName(username: string): string {
    if username != "" then username else "Someone"
  }

  /** A typing frame from another user adds its name unless already shown. */
  function OnTypingName(who: seq<string>, name: string): (r: seq<string>)
    requires WsManager.NoDup(who)
    ensures WsManager.NoDup(r) && name in r
    ensures forall n :: n in r <==> n in who || n == name
    ensures name in who ==> r == who
  {
    if name in who then who else who + [name]
  }

  /** The 3 s expiry: removes the name however often it was announced since. */
  function ExpireName(who: seq<string>, name: string): (r: seq<string>)
    ensures forall n :: n in r <==> n in who && n != name
    ensures |r| <= |who|
    ensures WsManager.NoDup(who) ==> WsManager.NoDup(r)
  {
    if who == [] then []
    else
      var t := ExpireName(who[..|who| - 1], name);
      assert who == who[..|who| - 1] + [who[|who| - 1]];
      assert WsManager.NoDup(who) ==> who[|who| - 1] !in who[..|who| - 1];
      t + (if who[|who| - 1] != name then [who[|who| - 1]] else [])
  }

  /** `classNames`: drops the falsy items (`false`, `null`, `undefined` are None; "" is falsy) and joins with a space. */
  function ClassNames(xs: seq<Option<string>>): (r: string)
    ensures r == Join(Kept(xs), " ")
    ensures r == "" <==> Kept(xs) == []
    ensures r == "" <==> forall i :: 0 <= i < |xs| ==> xs[i].None? || xs[i].value == ""
  {
    var k := Kept(xs);
    JoinEmpty(k);
    assert k != [] ==> k[0] in k && Some(k[0]) in xs;
    assert forall i :: 0 <= i < |xs| && xs[i].Some? ==> Some(xs[i].value) in xs;
    Join(k, " ")
  }

  /** The truthy items of `classNames`' argument, as strings, in order. */
  function Kept(xs: seq<Option<string>>): (r: seq<string>)
    ensures forall i :: 0 <= i < |r| ==> r[i] != ""
    ensures |r| <= |xs|
    ensures (forall i :: 0 <= i < |xs| ==> xs[i].Some? && xs[i].value != "") ==> |r| == |xs|
    ensures forall c :: c in r <==> c != "" && Some(c) in xs
  {
    if xs == [] then []
    else
      var t := Kept(xs[1..]);
      assert forall c :: Some(c) in xs <==> Some(c) == xs[0] || Some(c) in xs[1..];
      (if xs[0].Some? && xs[0].value != "" then [xs[0].value] else []) + t
  }

  /** A single item is kept exactly when it is a non-empty string. */
  lemma KeptSingle(x: Option<string>)
    ensures x.Some? && x.value != "" ==> Kept([x]) == [x.value]
    ensures x.None? || x.value == "" ==> Kept([x]) == []
  {
  }

  /** Keeping distributes over concatenation, so the kept items come out in input order. */
  lemma {:induction false} KeptAppend(a: seq<Option<string>>, b: seq<Option<string>>)
    ensures Kept(a + b) == Kept(a) + Kept(b)
  {
    if a == [] {
      assert a + b == b;
    } else {
      assert (a + b)[1..] == a[1..] + b;
      KeptAppend(a[1..], b);
    }
  }

  lemma {:induction false} JoinEmpty(k: seq<string>)
    requires forall i :: 0 <= i < |k| ==> k[i] != ""
    ensures Join(k, " ") == "" <==> k == []
  {
    if |k| > 1 {
      assert |Join(k, " ")| >= |k[0]| + 1;
    } else if |k| == 1 {
      assert Join(k, " ") == k[0];
    }
  }

  /**
   * `ChatShell` state: the list, the typing names with their pending
   * expiries, and `last` of the memoised `onTyping` closure.
   */
  class Shell {
    const sock: LegacySocket
    const me: string
    const room: string
    var messages: seq<PMessage>
    var typingWho: seq<string>
    var expiries: seq<string>
    var last: int

    ghost predicate Valid()
      reads this, sock
    {
      sock.Valid() && WsManager.NoDup(typingWho)
    }

    constructor (s: LegacySocket, userId: string, roomId: string)
      requires s.Valid()
      ensures Valid() && sock == s && me == userId && room == roomId
      ensures messages == [] && typingWho == [] && expiries == [] && last == 0
    {
      sock, me, room := s, userId, roomId;
      messages, typingWho, expiries, last := [], [], [], 0;
    }

    /** The frame subscriber. A typing frame from the current user changes nothing and sets no timer. */
    method OnFrame(f: Incoming)
      requires Valid()
      modifies this`messages, this`typingWho, this`expiries
      ensures Valid()
      ensures f.History? ==> messages == OnHistory(f.messages, me)
      ensures f.MessageFrame? ==> messages == OnMessage(old(messages), f.message, me)
      ensures f.Ack? ==> messages == OnAck(old(messages), f.tempId, f.id, f.createdAt)
      ensures f.TypingFrame? || f.ErrorFrame? ==> messages == old(messages)
      ensures (f.TypingFrame? && f.userId == me) || !f.TypingFrame? ==>
        typingWho == old(typingWho) && expiries == old(expiries)
      ensures f.TypingFrame? && f.userId != me ==>
        typingWho == OnTypingName(old(typingWho), TypingName(f.username)) &&
        expiries == old(expiries) + [TypingName(f.username)]
    {
      match f
      case History(_, ms) => messages := OnHistory(ms, me);
      case MessageFrame(m) => messages := OnMessage(messages, m, me);
      case Ack(t, id, c) => messages := OnAck(messages, t, id, c);
      case TypingFrame(_, u, name) =>
        if u == me { return; }
        typingWho := OnTypingName(typingWho, TypingName(name));
        expiries := expiries + [TypingName(name)];
      case ErrorFrame(_) =>
    }

    /** The `i`-th pending typing expiry fires. */
    method FireExpiry(i: nat)
      requires Valid() && i < |expiries|
      modifies this`typingWho, this`expiries
      ensures Valid()
      ensures typingWho == ExpireName(old(typingWho), old(expiries)[i])
      ensures expiries == old(expiries)[..i] + old(expiries)[i + 1..]
    {
      typingWho := ExpireName(typingWho, expiries[i]);
      expiries := expiries[..i] + expiries[i + 1..];
    }

    /** The join effect: once the hook reports open, joins the room. */
    method JoinOnOpen()
      requires Valid()
      modifies sock`sockets, sock`queue
      ensures Valid()
      ensures old(sock.status) != POpen ==> sock.sockets == old(sock.sockets) && sock.queue == old(sock.queue)
      ensures old(sock.status) == POpen && !old(sock.IsOpen()) ==>
        sock.queue == old(sock.queue) + [JoinRoom(room)] && sock.sockets == old(sock.sockets)
      ensures old(sock.status) == POpen && old(sock.IsOpen()) ==> (sock.queue == old(sock.queue) &&
        sock.sockets == old(sock.sockets)[sock.ws.value :=
          old(sock.sockets)[sock.ws.value].(sent := old(sock.sockets)[sock.ws.value].sent + [JoinRoom(room)])])
    {
      if sock.status == POpen {
        sock.Send(JoinRoom(room));
      }
    }

    /**
     * `onSend`: appends an optimistic message with id `temp-<tempId>`, the
     * raw `tempId`, and `mine` set, then sends the frame with that `tempId`.
     */
    method OnSend(content: string, tempId: string, name: string, now: int)
      requires Valid()
      modifies this`messages, sock`sockets, sock`queue
      ensures Valid()
      ensures messages == old(messages) +
        [PMessage("temp-" + tempId, Some(tempId), room, me, name, content, now, true)]
      ensures !old(sock.IsOpen()) ==> sock.queue == old(sock.queue) + [Say(room, content, tempId)] && sock.sockets == old(sock.sockets)
      ensures old(sock.IsOpen()) ==> (sock.queue == old(sock.queue) &&
        sock.sockets == old(sock.sockets)[sock.ws.value :=
          old(sock.sockets)[sock.ws.value].(sent := old(sock.sockets)[sock.ws.value].sent + [Say(room, content, tempId)])])
    {
      messages := messages + [PMessage("temp-" + tempId, Some(tempId), room, me, name, content, now, true)];
      sock.Send(Say(room, content, tempId));
    }

    /** `onTyping`: sends only when more than 1500 ms passed since the last send of this closure. */
    method OnTyping(now: int) returns (sent: bool)
      requires Valid()
      modifies this`last, sock`sockets, sock`queue
      ensures Valid()
      ensures sent <==> now - old(last) > 1500
      ensures sent ==> last == now
      ensures !sent ==> last == old(last) && sock.queue == old(sock.queue) && sock.sockets == old(sock.sockets)
      ensures sent && !old(sock.IsOpen()) ==> sock.queue == old(sock.queue) + [Typing(room)] && sock.sockets == old(sock.sockets)
      ensures sent && old(sock.IsOpen()) ==> (sock.queue == old(sock.queue) &&
        sock.sockets == old(sock.sockets)[sock.ws.value :=
          old(sock.sockets)[sock.ws.value].(sent := old(sock.sockets)[sock.ws.value].sent + [Typing(room)])])
    {
      if now - last > 1500 {
        sock.Send(Typing(room));
        last := now;
        return true;
      }
      return false;
    }
  }

  /** The ack for an optimistic message gives it the server id, and touches nothing else. */
  lemma AckReplacesOptimistic(cur: seq<PMessage>, opt: PMessage, id: string, createdAt: Option<int>)
    requires forall i :: 0 <= i < |cur| ==> cur[i].tempId != opt.tempId
    ensures var r := OnAck(cur + [opt], opt.tempId, id, createdAt);
      r[..|cur|] == cur && r[|cur|].id == id && r[|cur|].content == opt.content
  {
  }

  /** Typing names stay distinct through announcements and expiries. */
  lemma TypingNamesDistinct(who: seq<string>, a: string, b: string)
    requires WsManager.NoDup(who)
    ensures WsManager.NoDup(ExpireName(OnTypingName(OnTypingName(who, a), b), a))
    ensures a != b ==> b in ExpireName(OnTypingName(OnTypingName(who, a), b), a)
    ensures a !in ExpireName(OnTypingName(OnTypingName(who, a), b), a)
  {
  }
}
