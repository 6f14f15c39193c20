/**
 * The browser's connection manager (client/lib/ws.ts): one socket at a time,
 * a reconnect backoff that doubles from 500 ms up to 5000 ms, a FIFO outbox
 * for commands sent while the socket is not open, a 25 s ping interval, and
 * two listener sets.
 *
 * The socket is abstract. Every socket the manager creates gets the next
 * number; the events a browser delivers to socket `k` (open, close, message)
 * are methods taking `k`. Timers are explicit pending state: `retries` holds
 * the delays of reconnect timers that have been scheduled and not fired,
 * `pingArmed` says whether the ping interval is set. Listener callbacks are
 * numbered; the calls the manager makes to them are appended to `notified`
 * and `dispatched`.
 */
module WsManager {
  import opened Wrappers
  import opened WsTypes

  /** The `readyState` of a browser WebSocket. */
  datatype ReadyState = CONNECTING | OPEN | CLOSING | CLOSED

  /** One socket: its state, whether the manager's handlers are still attached, what it transmitted. */
  datatype Socket = Socket(url: string, ready: ReadyState, attached: bool, sent: seq<ClientEvent>)

  /** The payload of a message event: a string, a Blob (with its text), or anything else. */
  datatype FrameData = TextData(text: string) | BlobData(text: string) | OtherData

  const InitialBackoff := 500
  const MaxBackoff := 5000
  const PingIntervalMs := 25000

  function Min(a: int, b: int): int { if a <= b then a else b }

  /** The delay of the retry a close schedules, given the current backoff. */
  function RetryDelay(backoff: int): int { Min(backoff, MaxBackoff) }

  /** The backoff after a close. */
  function NextBackoff(backoff: int): int { Min(backoff * 2, MaxBackoff) }

  /** The backoff after `n` closes in a row since the last reset. */
  function BackoffAfter(n: nat): int {
    if n == 0 then InitialBackoff else NextBackoff(BackoffAfter(n - 1))
  }

  /** The backoffs the manager can hold. */
  predicate IsBackoff(b: int) {
    b == 500 || b == 1000 || b == 2000 || b == 4000 || b == 5000
  }

  function Pow2(n: nat): nat { if n == 0 then 1 else 2 * Pow2(n - 1) }

  /** After `n` consecutive closes the backoff is `min(500 * 2^n, 5000)`. */
  lemma {:induction false} BackoffClosedForm(n: nat)
    ensures BackoffAfter(n) == Min(InitialBackoff * Pow2(n), MaxBackoff)
  {
    if n > 0 {
      BackoffClosedForm(n - 1);
      assert Pow2(n) == 2 * Pow2(n - 1);
    }
  }

  /** Every backoff reached from the initial one is one of 500, 1000, 2000, 4000, 5000. */
  lemma {:induction false} BackoffAfterIsBackoff(n: nat)
    ensures IsBackoff(BackoffAfter(n))
  {
    if n > 0 { BackoffAfterIsBackoff(n - 1); }
  }

  /** The first delays are 500, 1000, 2000, 4000, and 5000 from then on. */
  lemma {:induction false} RetryDelays(n: nat)
    ensures RetryDelay(BackoffAfter(n)) == [500, 1000, 2000, 4000, 5000][Min(n, 4)]
  {
    if n > 4 {
      RetryDelays(n - 1);
    }
  }

  /** Closing keeps the backoff among the admitted values, and the delay within [500, 5000]. */
  lemma BackoffStep(b: int)
    requires IsBackoff(b)
    ensures IsBackoff(NextBackoff(b))
    ensures InitialBackoff <= RetryDelay(b) <= MaxBackoff
  {
  }

  /** No element occurs twice, as in the JavaScript `Set`s these sequences stand for. */
  predicate NoDup<T(==)>(s: seq<T>) {
    forall i, j :: 0 <= i < j < |s| ==> s[i] != s[j]
  }

  /** `Set.add`: appends `x` unless it is already there. */
  function SetAdd(s: seq<nat>, x: nat): (r: seq<nat>)
    requires NoDup(s)
    ensures NoDup(r) && x in r
    ensures forall y :: y in r <==> y in s || y == x
  {
    if x in s then s else s + [x]
  }

  /** `Set.delete`: removes `x`, keeping the others in insertion order. */
  function SetDelete(s: seq<nat>, x: nat): (r: seq<nat>)
    requires NoDup(s)
    ensures NoDup(r) && |r| <= |s|
    ensures forall y :: y in r <==> y in s && y != x
    ensures x in s ==> |r| == |s| - 1
    ensures x !in s ==> r == s
  {
    if s == [] then []
    else if s[0] == x then
      assert x !in s[1..];
      SetDelete(s[1..], x)
    else
      var t := SetDelete(s[1..], x);
      assert s[0] !in t;
      [s[0]] + t
  }

  /** The calls `for (const cb of set) cb(x)` makes, in order. */
  function Fanout<X>(ls: seq<nat>, x: X): (r: seq<(nat, X)>)
    ensures |r| == |ls|
    ensures forall i :: 0 <= i < |ls| ==> r[i] == (ls[i], x)
  {
    seq(|ls|, i requires 0 <= i < |ls| => (ls[i], x))
  }

  /** `parsed.data = parsed.payload` on an object. */
  function AliasPayload(j: Json): Json {
    if j.JObj? && "payload" in j.fields then JObj(j.fields["data" := j.fields["payload"]]) else j
  }

  /** The text of a frame, if the handler reads one. */
  function FrameText(d: FrameData): Option<string> {
    match d
    case TextData(t) => Some(t)
    case BlobData(t) => Some(t)
    case OtherData => None
  }

  /**
   * What the message handler hands to the listeners for a frame, if anything.
   * `parse` is `JSON.parse`, with None where it throws.
   */
  function Accept(d: FrameData, parse: string -> Option<Json>): (r: Option<Json>)
    ensures r.Some? <==>
      FrameText(d).Some? && FrameText(d).value != "" &&
      parse(FrameText(d).value).Some? &&
      FieldTruthy(parse(FrameText(d).value).value, "type")
    ensures r.Some? ==>
      var p := parse(FrameText(d).value).value;
      p.JObj? && r.value.JObj? && p.fields.Keys <= r.value.fields.Keys <= p.fields.Keys + {"data"} &&
      (forall k :: k in p.fields && k != "data" ==> r.value.fields[k] == p.fields[k]) &&
      Field(r.value, "data") ==
        (if FieldTruthy(p, "payload") && !FieldTruthy(p, "data") then Field(p, "payload") else Field(p, "data"))
  {
    match FrameText(d)
    case None => None
    case Some(text) =>
      if text == "" then None
      else
        match parse(text)
        case None => None
        case Some(p) =>
          var q := if Truthy(p) && FieldTruthy(p, "type") && FieldTruthy(p, "payload") && !FieldTruthy(p, "data")
                   then AliasPayload(p) else p;
          if !Truthy(q) || !FieldTruthy(q, "type") then None else Some(q)
  }

  /**
   * The sockets after flushing `items`: when `ws` names an OPEN socket, the
   * items before the first failing send are appended, in order, to what it
   * sent; every other socket, and every socket when none is open, is as it was.
   */
  function FlushInto(ss: seq<Socket>, ws: Option<nat>, items: seq<ClientEvent>, failAt: Option<nat>): (r: seq<Socket>)
    ensures |r| == |ss|
    ensures forall j :: 0 <= j < |ss| && Some(j) != ws ==> r[j] == ss[j]
    ensures ws.Some? && ws.value < |ss| ==>
      r[ws.value].url == ss[ws.value].url && r[ws.value].ready == ss[ws.value].ready &&
      r[ws.value].attached == ss[ws.value].attached
    ensures ws.Some? && ws.value < |ss| && ss[ws.value].ready == OPEN ==>
      var n := if failAt.Some? then Min(failAt.value, |items|) else |items|;
      r[ws.value].sent == ss[ws.value].sent + items[..n] && n <= |items|
    ensures !(ws.Some? && ws.value < |ss| && ss[ws.value].ready == OPEN) || items == [] ==> r == ss
  {
    if ws.Some? && ws.value < |ss| && ss[ws.value].ready == OPEN && items != [] then
      var c := ws.value;
      ss[c := ss[c].(sent := ss[c].sent + items[..WSManager.FlushCount(|items|, failAt)])]
    else ss
  }

  class WSManager {
    var sockets: seq<Socket>
    var ws: Option<nat>
    var url: Option<string>
    var listeners: seq<nat>
    var statusListeners: seq<nat>
    var status: Status
    var shouldRun: bool
    var backoff: int
    var pingArmed: bool
    var outbox: seq<ClientEvent>
    var retries: seq<int>
    var notified: seq<(nat, Status)>
    var dispatched: seq<(nat, Json)>

    ghost predicate Valid()
      reads this
    {
      && (ws.Some? ==> ws.value < |sockets| && sockets[ws.value].attached)
      && IsBackoff(backoff)
      && (forall i :: 0 <= i < |retries| ==> InitialBackoff <= retries[i] <= MaxBackoff)
      && NoDup(listeners)
      && NoDup(statusListeners)
    }

    /** Whether the current socket exists and is OPEN (`isOpen()`). */
    function IsOpen(): bool
      reads this
      requires Valid()
    {
      ws.Some? && sockets[ws.value].ready == OPEN
    }

    constructor ()
      ensures Valid()
      ensures sockets == [] && ws == None && url == None
      ensures listeners == [] && statusListeners == []
      ensures status == Offline && !shouldRun && backoff == InitialBackoff && !pingArmed
      ensures outbox == [] && retries == [] && notified == [] && dispatched == []
    {
      sockets, ws, url := [], None, None;
      listeners, statusListeners := [], [];
      status, shouldRun, backoff, pingArmed := Offline, false, InitialBackoff, false;
      outbox, retries, notified, dispatched := [], [], [], [];
    }

    /** `onEvent(cb)`: registers an event listener. */
    method OnEvent(cb: nat)
      requires Valid()
      modifies this
      ensures Valid()
      ensures listeners == SetAdd(old(listeners), cb)
      ensures unchanged(this`sockets, this`ws, this`url, this`statusListeners, this`status, this`shouldRun)
      ensures unchanged(this`backoff, this`pingArmed, this`outbox, this`retries, this`notified, this`dispatched)
    {
      listeners := SetAdd(listeners, cb);
    }

    /** The unsubscribe function `onEvent` returns: removes exactly `cb`. */
    method OffEvent(cb: nat)
      requires Valid()
      modifies this
      ensures Valid()
      ensures listeners == SetDelete(old(listeners), cb)
      ensures unchanged(this`sockets, this`ws, this`url, this`statusListeners, this`status, this`shouldRun)
      ensures unchanged(this`backoff, this`pingArmed, this`outbox, this`retries, this`notified, this`dispatched)
    {
      listeners := SetDelete(listeners, cb);
    }

    /** `onStatus(cb)`: registers a status listener. */
    method OnStatus(cb: nat)
      requires Valid()
      modifies this
      ensures Valid()
      ensures statusListeners == SetAdd(old(statusListeners), cb)
      ensures unchanged(this`sockets, this`ws, this`url, this`listeners, this`status, this`shouldRun)
      ensures unchanged(this`backoff, this`pingArmed, this`outbox, this`retries, this`notified, this`dispatched)
    {
      statusListeners := SetAdd(statusListeners, cb);
    }

    /** The unsubscribe function `onStatus` returns: removes exactly `cb`. */
    method OffStatus(cb: nat)
      requires Valid()
      modifies this
      ensures Valid()
      ensures statusListeners == SetDelete(old(statusListeners), cb)
      ensures unchanged(this`sockets, this`ws, this`url, this`listeners, this`status, this`shouldRun)
      ensures unchanged(this`backoff, this`pingArmed, this`outbox, this`retries, this`notified, this`dispatched)
    {
      statusListeners := SetDelete(statusListeners, cb);
    }

    /** `setStatus`: records the new status and notifies listeners only on a change. */
    method SetStatus(s: Status)
      requires Valid()
      modifies this`status, this`notified
      ensures Valid()
      ensures status == s
      ensures notified == old(notified) + (if old(status) == s then [] else Fanout(statusListeners, s))
    {
      if status == s { return; }
      status := s;
      notified := notified + Fanout(statusListeners, s);
    }

    /**
     * `open()`: without a url it does nothing; otherwise status becomes
     * connecting and a new socket, with the handlers attached, becomes current.
     */
    method Open()
      requires Valid()
      modifies this`sockets, this`ws, this`status, this`notified
      ensures Valid()
      ensures old(url).None? || old(url).value == "" ==>
        sockets == old(sockets) && ws == old(ws) && status == old(status) && notified == old(notified)
      ensures old(url).Some? && old(url).value != "" ==>
        && sockets == old(sockets) + [Socket(url.value, CONNECTING, true, [])]
        && ws == Some(|old(sockets)|)
        && status == Connecting
        && notified == old(notified) + (if old(status) == Connecting then [] else Fanout(statusListeners, Connecting))
    {
      if url.None? || url.value == "" { return; }
      SetStatus(Connecting);
      sockets := sockets + [Socket(url.value, CONNECTING, true, [])];
      ws := Some(|sockets| - 1);
    }

    /**
     * `connect(fullUrl?)`: `fallback` is what `buildWsUrl()` would return;
     * `??` replaces only a missing url, so an empty one is kept (and `open` then does nothing).
     */
    method Connect(fullUrl: Option<string>, fallback: string)
      requires Valid()
      modifies this`url, this`shouldRun, this`sockets, this`ws, this`status, this`notified
      ensures Valid()
      ensures url == Some(fullUrl.GetOr(fallback)) && shouldRun
      ensures url.value == "" ==>
        sockets == old(sockets) && ws == old(ws) && status == old(status) && notified == old(notified)
      ensures url.value != "" ==>
        sockets == old(sockets) + [Socket(url.value, CONNECTING, true, [])] &&
        ws == Some(|old(sockets)|) && status == Connecting &&
        notified == old(notified) + (if old(status) == Connecting then [] else Fanout(statusListeners, Connecting))
    {
      url := Some(fullUrl.GetOr(fallback));
      shouldRun := true;
      Open();
    }

    /**
     * `disconnect()`: stops reconnecting, clears the ping interval, resets the
     * backoff, detaches and closes the current socket and reports offline.
     * The outbox and any reconnect timer already scheduled are left alone.
     */
    method Disconnect()
      requires Valid()
      modifies this`shouldRun, this`pingArmed, this`backoff, this`sockets, this`ws, this`status, this`notified
      ensures Valid()
      ensures !shouldRun && !pingArmed && backoff == InitialBackoff && ws == None && status == Offline
      ensures |sockets| == |old(sockets)|
      ensures forall k :: 0 <= k < |sockets| && Some(k) != old(ws) ==> sockets[k] == old(sockets)[k]
      ensures old(ws).Some? ==>
        var s := old(sockets)[old(ws).value];
        sockets[old(ws).value] == s.(attached := false, ready := if s.ready == CLOSED then CLOSED else CLOSING)
      ensures notified == old(notified) + (if old(status) == Offline then [] else Fanout(statusListeners, Offline))
      ensures unchanged(this`outbox, this`retries, this`url, this`listeners, this`statusListeners, this`dispatched)
    {
      shouldRun := false;
      pingArmed := false;
      backoff := InitialBackoff;
      if ws.Some? {
        var k := ws.value;
        var s := sockets[k];
        sockets := sockets[k := s.(attached := false, ready := if s.ready == CLOSED then CLOSED else CLOSING)];
        ws := None;
      }
      SetStatus(Offline);
    }

    /**
     * `send(ev)`: transmits on an OPEN socket and returns true; otherwise, or
     * when the socket's `send` throws (`throws`), queues `ev` and returns false.
     */
    method Send(ev: ClientEvent, throws: bool) returns (ok: bool)
      requires Valid()
      modifies this`sockets, this`outbox
      ensures Valid()
      ensures ok <==> old(IsOpen()) && !throws
      ensures ok ==> (outbox == old(outbox) &&
        sockets == old(sockets)[ws.value := old(sockets)[ws.value].(sent := old(sockets)[ws.value].sent + [ev])])
      ensures !ok ==> outbox == old(outbox) + [ev] && sockets == old(sockets)
    {
      if ws.None? || sockets[ws.value].ready != OPEN {
        outbox := outbox + [ev];
        return false;
      }
      if throws {
        outbox := outbox + [ev];
        return false;
      }
      var k := ws.value;
      sockets := sockets[k := sockets[k].(sent := sockets[k].sent + [ev])];
      return true;
    }

    /**
     * Socket `k` opens. With the handlers attached: status becomes connected,
     * the backoff resets, the whole outbox is removed at once (`splice(0)`)
     * and transmitted in order on the current socket, the first `failAt`
     * items (all of them when `failAt` is None) before a send throws; what
     * follows a throw is lost. Then the ping interval is (re)armed.
     */
    method SocketOpened(k: nat, failAt: Option<nat>)
      requires Valid()
      requires k < |sockets| && sockets[k].ready == CONNECTING
      modifies this`sockets, this`status, this`notified, this`backoff, this`outbox, this`pingArmed
      ensures Valid()
      ensures !old(sockets)[k].attached ==>
        sockets == old(sockets)[k := old(sockets)[k].(ready := OPEN)] &&
        status == old(status) && notified == old(notified) && backoff == old(backoff) &&
        outbox == old(outbox) && pingArmed == old(pingArmed)
      ensures old(sockets)[k].attached ==>
        && status == Connected
        && notified == old(notified) + (if old(status) == Connected then [] else Fanout(statusListeners, Connected))
        && backoff == InitialBackoff && outbox == [] && pingArmed
        && sockets == FlushInto(old(sockets)[k := old(sockets)[k].(ready := OPEN)], ws, old(outbox), failAt)
      ensures unchanged(this`ws, this`url, this`shouldRun, this`retries, this`listeners, this`statusListeners, this`dispatched)
    {
      sockets := sockets[k := sockets[k].(ready := OPEN)];
      if !sockets[k].attached { return; }
      OpenHandler(failAt);
    }

    /** The `onopen` handler. */
    method OpenHandler(failAt: Option<nat>)
      requires Valid()
      modifies this`sockets, this`status, this`notified, this`backoff, this`outbox, this`pingArmed
      ensures Valid()
      ensures status == Connected
      ensures notified == old(notified) + (if old(status) == Connected then [] else Fanout(statusListeners, Connected))
      ensures backoff == InitialBackoff && outbox == [] && pingArmed
      ensures sockets == FlushInto(old(sockets), ws, old(outbox), failAt)
      ensures unchanged(this`ws, this`url, this`shouldRun, this`retries, this`listeners, this`statusListeners, this`dispatched)
    {
      SetStatus(Connected);
      backoff := InitialBackoff;
      Flush(failAt);
      pingArmed := true;
    }

    /**
     * The flush in the open handler: the whole outbox is removed at once
     * (`splice(0)`) and written to the current socket.
     */
    method Flush(failAt: Option<nat>)
      requires Valid()
      modifies this`sockets, this`outbox
      ensures Valid()
      ensures outbox == [] && sockets == FlushInto(old(sockets), ws, old(outbox), failAt)
    {
      if |outbox| > 0 {
        var items := outbox;
        outbox := [];
        if IsOpen() {
          var n := FlushCount(|items|, failAt);
          var c := ws.value;
          sockets := sockets[c := sockets[c].(sent := sockets[c].sent + items[..n])];
        }
      }
    }

    /** How many of `len` flushed items reach the socket when the `failAt`-th send throws. */
    static function FlushCount(len: nat, failAt: Option<nat>): (n: nat)
      ensures n <= len
      ensures failAt.None? ==> n == len
      ensures failAt.Some? ==> n == Min(failAt.value, len)
    {
      if failAt.Some? && failAt.value < len then failAt.value else len
    }

    /**
     * Socket `k` closes. With the handlers attached: the ping interval is
     * cleared; when the manager should not run it reports offline; otherwise
     * it reports connecting, schedules a retry after `min(backoff, 5000)` ms
     * and doubles the backoff up to 5000 ms.
     */
    method SocketClosed(k: nat)
      requires Valid()
      requires k < |sockets| && sockets[k].ready != CLOSED
      modifies this`sockets, this`status, this`notified, this`backoff, this`pingArmed, this`retries
      ensures Valid()
      ensures sockets == old(sockets)[k := old(sockets)[k].(ready := CLOSED)]
      ensures !old(sockets)[k].attached ==>
        status == old(status) && notified == old(notified) && backoff == old(backoff) &&
        pingArmed == old(pingArmed) && retries == old(retries)
      ensures old(sockets)[k].attached && !shouldRun ==>
        !pingArmed && status == Offline && backoff == old(backoff) && retries == old(retries) &&
        notified == old(notified) + (if old(status) == Offline then [] else Fanout(statusListeners, Offline))
      ensures old(sockets)[k].attached && shouldRun ==>
        && !pingArmed && status == Connecting
        && notified == old(notified) + (if old(status) == Connecting then [] else Fanout(statusListeners, Connecting))
        && retries == old(retries) + [RetryDelay(old(backoff))]
        && backoff == NextBackoff(old(backoff))
      ensures unchanged(this`ws, this`url, this`shouldRun, this`outbox, this`listeners, this`statusListeners, this`dispatched)
    {
      sockets := sockets[k := sockets[k].(ready := CLOSED)];
      if !sockets[k].attached { return; }
      CloseHandler();
    }

    /** The `onclose` handler. */
    method CloseHandler()
      requires Valid()
      modifies this`status, this`notified, this`backoff, this`pingArmed, this`retries
      ensures Valid() && !pingArmed
      ensures !shouldRun ==>
        status == Offline && backoff == old(backoff) && retries == old(retries) &&
        notified == old(notified) + (if old(status) == Offline then [] else Fanout(statusListeners, Offline))
      ensures shouldRun ==>
        && status == Connecting
        && notified == old(notified) + (if old(status) == Connecting then [] else Fanout(statusListeners, Connecting))
        && retries == old(retries) + [RetryDelay(old(backoff))]
        && backoff == NextBackoff(old(backoff))
      ensures unchanged(this`sockets, this`ws, this`url, this`shouldRun, this`outbox, this`listeners, this`statusListeners, this`dispatched)
    {
      pingArmed := false;
      if !shouldRun {
        SetStatus(Offline);
        return;
      }
      SetStatus(Connecting);
      BackoffStep(backoff);
      retries := retries + [RetryDelay(backoff)];
      backoff := NextBackoff(backoff);
    }

    /**
     * A message arrives on socket `k`. With the handlers attached, an
     * accepted frame is handed to every event listener in turn; the frame
     * handed over is returned.
     */
    method SocketMessage(k: nat, d: FrameData, parse: string -> Option<Json>) returns (accepted: Option<Json>)
      requires Valid()
      requires k < |sockets|
      modifies this`dispatched
      ensures Valid()
      ensures accepted == if sockets[k].attached then Accept(d, parse) else None
      ensures dispatched == old(dispatched) + (if accepted.Some? then Fanout(listeners, accepted.value) else [])
    {
      if !sockets[k].attached { return None; }
      accepted := Accept(d, parse);
      if accepted.Some? {
        dispatched := dispatched + Fanout(listeners, accepted.value);
      }
    }

    /**
     * The `i`-th pending reconnect timer fires and calls `open()`. Nothing
     * checks `shouldRun`: a retry scheduled before `disconnect()` still opens
     * a socket as long as a url is set.
     */
    method FireRetry(i: nat)
      requires Valid()
      requires i < |retries|
      modifies this`retries, this`sockets, this`ws, this`status, this`notified
      ensures Valid()
      ensures retries == old(retries)[..i] + old(retries)[i + 1..]
      ensures url.Some? && url.value != "" ==>
        sockets == old(sockets) + [Socket(url.value, CONNECTING, true, [])] &&
        ws == Some(|old(sockets)|) && status == Connecting &&
        notified == old(notified) + (if old(status) == Connecting then [] else Fanout(statusListeners, Connecting))
      ensures url.None? || url.value == "" ==>
        sockets == old(sockets) && ws == old(ws) && status == old(status) && notified == old(notified)
    {
      retries := retries[..i] + retries[i + 1..];
      Open();
    }

    /** Disconnecting twice in a row notifies the status listeners at most once. */
    method DisconnectTwice()
      requires Valid()
      modifies this`shouldRun, this`pingArmed, this`backoff, this`sockets, this`ws, this`status, this`notified
      ensures Valid() && status == Offline && ws == None && !shouldRun
      ensures notified == old(notified) + (if old(status) == Offline then [] else Fanout(statusListeners, Offline))
      ensures unchanged(this`outbox, this`retries)
    {
      Disconnect();
      Disconnect();
    }

    /** The ping interval fires: `send({type: 'ping'})`. */
    method FirePing(throws: bool) returns (ok: bool)
      requires Valid()
      requires pingArmed
      modifies this`sockets, this`outbox
      ensures Valid()
      ensures ok <==> old(IsOpen()) && !throws
      ensures !ok ==> outbox == old(outbox) + [Ping] && sockets == old(sockets)
      ensures ok ==> (outbox == old(outbox) &&
        sockets == old(sockets)[ws.value := old(sockets)[ws.value].(sent := old(sockets)[ws.value].sent + [Ping])])
    {
      ok := Send(Ping, throws);
    }
  }

  lemma NoDupTail<T>(s: seq<T>)
    requires NoDup(s) && s != []
    ensures NoDup(s[1..])
  {
    var u := s[1..];
    forall a, b | 0 <= a < b < |u| ensures u[a] != u[b] {
      assert u[a] == s[a + 1] && u[b] == s[b + 1];
    }
  }

  lemma ConsKeepsOrder(h: nat, t: seq<nat>, p: nat, q: nat)
    requires exists a, b :: 0 <= a < b < |t| && t[a] == p && t[b] == q
    ensures exists a, b :: 0 <= a < b < |[h] + t| && ([h] + t)[a] == p && ([h] + t)[b] == q
  {
    var a, b :| 0 <= a < b < |t| && t[a] == p && t[b] == q;
    assert ([h] + t)[a + 1] == p && ([h] + t)[b + 1] == q;
  }

  /** Both unsubscribe functions remove exactly their callback and keep the rest in order. */
  lemma {:induction false} SetDeleteKeepsOrder(s: seq<nat>, x: nat, i: nat, j: nat)
    requires NoDup(s) && i < j < |s| && s[i] != x && s[j] != x
    ensures var r := SetDelete(s, x);
      exists a, b :: 0 <= a < b < |r| && r[a] == s[i] && r[b] == s[j]
  {
    var u := s[1..];
    NoDupTail(s);
    assert u[j - 1] == s[j];
    if s[0] == x {
      assert u[i - 1] == s[i];
      SetDeleteKeepsOrder(u, x, i - 1, j - 1);
      assert SetDelete(s, x) == SetDelete(u, x);
    } else {
      var t := SetDelete(u, x);
      var r := [s[0]] + t;
      assert SetDelete(s, x) == r;
      if i == 0 {
        assert s[j] in t by {
          assert s[j] in u;
        }
        var b :| 0 <= b < |t| && t[b] == s[j];
        assert r[0] == s[i] && r[b + 1] == s[j];
      } else {
        assert u[i - 1] == s[i];
        SetDeleteKeepsOrder(u, x, i - 1, j - 1);
        ConsKeepsOrder(s[0], t, s[i], s[j]);
      }
    }
  }

  /**
   * The source does not cancel a scheduled retry on `disconnect()`: a close
   * while running, then `disconnect()`, then the timer firing, leaves a new
   * socket connecting although the manager no longer runs.
   */
  method RetryAfterDisconnect(u: string) returns (m: WSManager)
    requires u != ""
    ensures fresh(m) && m.Valid()
    ensures !m.shouldRun && m.status == Connecting && |m.sockets| == 2 && m.ws == Some(1)
  {
    m := new WSManager();
    m.Connect(Some(u), u);
    m.SocketClosed(0);
    m.Disconnect();
    m.FireRetry(0);
  }
}
