/**
 * The current client's timeline state (client/components/layout/AppShell.tsx):
 * per-room message buckets updated by `applyInsert` and the reducers of the
 * `message.created`, `message.updated` and `message.deleted` events, the map
 * of users typing in the current room, the optimistic send, and the effect
 * that connects the manager and subscribes to it while a room is shown.
 *
 * `createdAt` is an integer timestamp (the source sorts on
 * `new Date(createdAt).getTime()`); buckets are keyed by the event's raw
 * `roomId`.
 */
module AppShell {
  import opened Wrappers
  import opened WsTypes
  import opened Text
  import WsManager

  datatype Message = Message(id: string, roomId: string, author: Author, content: string,
                             createdAt: int, editedAt: Option<int>)

  /** The optimistic author (`ME`). */
  const Me := Author("me", "You")

  // ---------------------------------------------------------------- ordering

  /** Ascending by `createdAt`. */
  predicate Sorted(s: seq<Message>) {
    forall i, j :: 0 <= i < j < |s| ==> s[i].createdAt <= s[j].createdAt
  }

  /** The messages of `s` created at time `k`, in their order in `s`. */
  function AtTime(s: seq<Message>, k: int): seq<Message> {
    if s == [] then []
    else AtTime(s[..|s| - 1], k) + (if s[|s| - 1].createdAt == k then [s[|s| - 1]] else [])
  }

  /** Inserts `x` after every element not later than it. */
  function InsertSorted(t: seq<Message>, x: Message): (r: seq<Message>)
    ensures |r| == |t| + 1
    ensures multiset(r) == multiset(t) + multiset{x}
    ensures r[|r| - 1] == x || (t != [] && r[|r| - 1] == t[|t| - 1])
  {
    if t == [] then [x]
    else if t[|t| - 1].createdAt <= x.createdAt then t + [x]
    else
      assert t == t[..|t| - 1] + [t[|t| - 1]];
      InsertSorted(t[..|t| - 1], x) + [t[|t| - 1]]
  }

  /** Insertion into a sorted list keeps it sorted. */
  lemma {:induction false} InsertSortedSorted(t: seq<Message>, x: Message)
    requires Sorted(t)
    ensures Sorted(InsertSorted(t, x))
    decreases |t|
  {
    if t != [] && t[|t| - 1].createdAt > x.createdAt {
      var last := t[|t| - 1];
      var rest := InsertSorted(t[..|t| - 1], x);
      InsertSortedSorted(t[..|t| - 1], x);
      assert rest[|rest| - 1].createdAt <= last.createdAt;
      assert InsertSorted(t, x) == rest + [last];
    }
  }

  /**
   * The stable sort `Array.prototype.sort` performs with the comparator
   * `a.createdAt - b.createdAt`, as insertion of each element in turn.
   */
  function SortByCreated(s: seq<Message>): (r: seq<Message>)
    ensures |r| == |s|
    ensures multiset(r) == multiset(s)
    ensures Sorted(r)
  {
    if s == [] then []
    else
      assert s == s[..|s| - 1] + [s[|s| - 1]];
      InsertSortedSorted(SortByCreated(s[..|s| - 1]), s[|s| - 1]);
      InsertSorted(SortByCreated(s[..|s| - 1]), s[|s| - 1])
  }

  lemma AtTimeSnoc(s: seq<Message>, x: Message, k: int)
    ensures AtTime(s + [x], k) == AtTime(s, k) + (if x.createdAt == k then [x] else [])
  {
    assert (s + [x])[..|s|] == s;
  }

  /** Appending an element later than `x` on both sides keeps the time-`k` relation. */
  lemma StableStep(r: seq<Message>, init: seq<Message>, last: Message, x: Message, k: int)
    requires last.createdAt > x.createdAt
    requires AtTime(r, k) == AtTime(init, k) + (if x.createdAt == k then [x] else [])
    ensures AtTime(r + [last], k) == AtTime(init + [last], k) + (if x.createdAt == k then [x] else [])
  {
    AtTimeSnoc(r, last, k);
    AtTimeSnoc(init, last, k);
    if last.createdAt == k {
      assert AtTime(r, k) == AtTime(init, k);
    } else {
      assert AtTime(r + [last], k) == AtTime(r, k);
      assert AtTime(init + [last], k) == AtTime(init, k);
    }
  }

  lemma {:induction false} InsertSortedStable(t: seq<Message>, x: Message, k: int)
    requires Sorted(t)
    ensures AtTime(InsertSorted(t, x), k) == AtTime(t, k) + (if x.createdAt == k then [x] else [])
    decreases |t|
  {
    if t == [] {
      AtTimeSnoc([], x, k);
      assert [] + [x] == [x];
    } else if t[|t| - 1].createdAt <= x.createdAt {
      AtTimeSnoc(t, x, k);
    } else {
      var init := t[..|t| - 1];
      InsertSortedStable(init, x, k);
      assert t == init + [t[|t| - 1]];
      StableStep(InsertSorted(init, x), init, t[|t| - 1], x, k);
    }
  }

  /** Ties keep their prior relative order: the sort is stable. */
  lemma {:induction false} SortStable(s: seq<Message>, k: int)
    ensures AtTime(SortByCreated(s), k) == AtTime(s, k)
  {
    if s != [] {
      SortStable(s[..|s| - 1], k);
      InsertSortedStable(SortByCreated(s[..|s| - 1]), s[|s| - 1], k);
    }
  }

  // ---------------------------------------------------------------- ids

  /** `findIndex(m => m.id === id)`, with |s| for -1. */
  function IndexOfId(s: seq<Message>, id: string): (k: nat)
    ensures k <= |s|
    ensures k < |s| ==> s[k].id == id
    ensures forall j :: 0 <= j < k ==> s[j].id != id
  {
    if s == [] then 0
    else if s[0].id == id then 0
    else 1 + IndexOfId(s[1..], id)
  }

  /** How many entries of `s` carry `id`. */
  function CountId(s: seq<Message>, id: string): nat {
    if s == [] then 0
    else CountId(s[..|s| - 1], id) + (if s[|s| - 1].id == id then 1 else 0)
  }

  predicate UniqueIds(s: seq<Message>) {
    forall i, j :: 0 <= i < j < |s| ==> s[i].id != s[j].id
  }

  lemma {:induction false} CountIdAbsent(s: seq<Message>, id: string)
    requires IndexOfId(s, id) == |s|
    ensures CountId(s, id) == 0
  {
    if s != [] {
      assert IndexOfId(s[..|s| - 1], id) == |s| - 1;
      CountIdAbsent(s[..|s| - 1], id);
    }
  }

  lemma {:induction false} CountIdUnique(s: seq<Message>, i: nat)
    requires UniqueIds(s) && i < |s|
    ensures CountId(s, s[i].id) == 1
  {
    var init := s[..|s| - 1];
    if i == |s| - 1 {
      assert IndexOfId(init, s[i].id) == |init|;
      CountIdAbsent(init, s[i].id);
    } else {
      assert init[i] == s[i];
      CountIdUnique(init, i);
    }
  }

  lemma {:induction false} CountIdUpdate(s: seq<Message>, i: nat, v: Message, id: string)
    requires i < |s|
    ensures CountId(s[i := v], id) ==
      CountId(s, id) - (if s[i].id == id then 1 else 0) + (if v.id == id then 1 else 0)
  {
    var t := s[i := v];
    if i < |s| - 1 {
      assert t[..|t| - 1] == s[..|s| - 1][i := v];
      CountIdUpdate(s[..|s| - 1], i, v, id);
    } else {
      assert t[..|t| - 1] == s[..|s| - 1];
    }
  }

  lemma {:induction false} InsertSortedCount(t: seq<Message>, x: Message, id: string)
    ensures CountId(InsertSorted(t, x), id) == CountId(t, id) + (if x.id == id then 1 else 0)
    decreases |t|
  {
    if t == [] {
      assert [x][..0] == [];
    } else if t[|t| - 1].createdAt <= x.createdAt {
      assert (t + [x])[..|t|] == t;
    } else {
      var init := t[..|t| - 1];
      var r := InsertSorted(init, x);
      InsertSortedCount(init, x, id);
      assert (r + [t[|t| - 1]])[..|r|] == r;
    }
  }

  lemma {:induction false} SortCount(s: seq<Message>, id: string)
    ensures CountId(SortByCreated(s), id) == CountId(s, id)
  {
    if s != [] {
      SortCount(s[..|s| - 1], id);
      InsertSortedCount(SortByCreated(s[..|s| - 1]), s[|s| - 1], id);
    }
  }

  lemma {:induction false} CountIdSnoc(s: seq<Message>, x: Message, id: string)
    ensures CountId(s + [x], id) == CountId(s, id) + (if x.id == id then 1 else 0)
  {
    assert (s + [x])[..|s|] == s;
  }

  // ---------------------------------------------------------------- applyInsert

  /**
   * `applyInsert`: an entry with the same id is replaced in place; otherwise
   * `m` is appended and the list is sorted by `createdAt`.
   */
  function ApplyInsert(arr: seq<Message>, m: Message): (r: seq<Message>)
    ensures IndexOfId(arr, m.id) < |arr| ==>
      |r| == |arr| && r[IndexOfId(arr, m.id)] == m &&
      forall j :: 0 <= j < |arr| && j != IndexOfId(arr, m.id) ==> r[j] == arr[j]
    ensures IndexOfId(arr, m.id) == |arr| ==>
      |r| == |arr| + 1 && Sorted(r) && multiset(r) == multiset(arr) + multiset{m}
  {
    var idx := IndexOfId(arr, m.id);
    if idx < |arr| then arr[idx := m] else SortByCreated(arr + [m])
  }

  /** With a new id, messages created at the same time keep the order they had in `arr + [m]`. */
  lemma ApplyInsertStable(arr: seq<Message>, m: Message, k: int)
    requires IndexOfId(arr, m.id) == |arr|
    ensures AtTime(ApplyInsert(arr, m), k) == AtTime(arr + [m], k)
  {
    SortStable(arr + [m], k);
  }

  /** After `applyInsert` exactly one entry carries `m.id`, when at most one did before. */
  lemma ApplyInsertCount(arr: seq<Message>, m: Message)
    requires UniqueIds(arr)
    ensures CountId(ApplyInsert(arr, m), m.id) == 1
  {
    var idx := IndexOfId(arr, m.id);
    if idx < |arr| {
      CountIdUnique(arr, idx);
      CountIdUpdate(arr, idx, m, m.id);
    } else {
      CountIdAbsent(arr, m.id);
      SortCount(arr + [m], m.id);
      CountIdSnoc(arr, m, m.id);
    }
  }

  // ---------------------------------------------------------------- buckets

  type Buckets = map<string, seq<Message>>

  /** `prev[roomId] || []`. */
  function Bucket(b: Buckets, room: string): seq<Message> {
    if room in b then b[room] else []
  }

  /** The message a `message.created` event carries. */
  function CreatedMessage(e: ServerEvent): Message
    requires e.MessageCreated?
  {
    Message(e.id, e.roomId, e.author, e.content, e.createdAt, None)
  }

  /** Where a `message.created` event's `tempId` is found in `list` (|list| when it is empty or absent). */
  function TempIndex(list: seq<Message>, e: ServerEvent): (i: nat)
    requires e.MessageCreated?
    ensures i <= |list|
    ensures i < |list| ==> list[i].id == e.tempId && e.tempId != ""
  {
    if e.tempId != "" then IndexOfId(list, e.tempId) else |list|
  }

  /**
   * The bucket after `message.created`: an entry whose id is the event's
   * `tempId` is replaced at the same index, with no re-sort; otherwise the
   * message goes through `applyInsert`.
   */
  function CreatedInto(list: seq<Message>, e: ServerEvent): (r: seq<Message>)
    requires e.MessageCreated?
    ensures var i := TempIndex(list, e);
      (i < |list| ==>
        |r| == |list| && r[i] == CreatedMessage(e) &&
        forall j :: 0 <= j < |list| && j != i ==> r[j] == list[j]) &&
      (i == |list| ==> r == ApplyInsert(list, CreatedMessage(e)))
  {
    var i := TempIndex(list, e);
    if i < |list| then list[i := CreatedMessage(e)] else ApplyInsert(list, CreatedMessage(e))
  }

  /** `message.created` on the buckets: only the event's bucket changes; it is created when absent. */
  function OnCreated(b: Buckets, e: ServerEvent): (r: Buckets)
    requires e.MessageCreated?
    ensures r.Keys == b.Keys + {e.roomId}
    ensures forall room :: room in b && room != e.roomId ==> r[room] == b[room]
    ensures r[e.roomId] == CreatedInto(Bucket(b, e.roomId), e)
  {
    b[e.roomId := CreatedInto(Bucket(b, e.roomId), e)]
  }

  /**
   * What delivering a `message.created` twice needs: ids are unique in the
   * bucket, and when the optimistic entry is found the server id is not
   * already another entry's.
   */
  predicate CreatedReady(list: seq<Message>, e: ServerEvent)
    requires e.MessageCreated?
  {
    UniqueIds(list) &&
    (TempIndex(list, e) < |list| && e.id != e.tempId ==> IndexOfId(list, e.id) == |list|)
  }

  lemma CreatedTempFound(list: seq<Message>, e: ServerEvent)
    requires e.MessageCreated? && CreatedReady(list, e) && TempIndex(list, e) < |list|
    ensures CreatedInto(CreatedInto(list, e), e) == CreatedInto(list, e)
    ensures CountId(CreatedInto(list, e), e.id) == 1
  {
    var i := TempIndex(list, e);
    var next := CreatedMessage(e);
    var r1 := CreatedInto(list, e);
    assert r1 == list[i := next];
    CountIdUpdate(list, i, next, e.id);
    if e.id == e.tempId {
      CountIdUnique(list, i);
      assert IndexOfId(r1, e.tempId) == i;
      assert r1[i := next] == r1;
    } else {
      CountIdAbsent(list, e.id);
      assert TempIndex(r1, e) == |r1| by {
        forall j | 0 <= j < |r1| ensures r1[j].id != e.tempId {
          if j != i { assert list[j].id != list[i].id; }
        }
      }
      assert IndexOfId(r1, e.id) == i;
      assert r1[i := next] == r1;
    }
  }

  lemma CreatedUpsertExisting(list: seq<Message>, e: ServerEvent)
    requires e.MessageCreated? && UniqueIds(list) && TempIndex(list, e) == |list|
    requires IndexOfId(list, e.id) < |list|
    ensures CreatedInto(CreatedInto(list, e), e) == CreatedInto(list, e)
    ensures CountId(CreatedInto(list, e), e.id) == 1
  {
    var next := CreatedMessage(e);
    var k := IndexOfId(list, e.id);
    ApplyInsertCount(list, next);
    var r1 := CreatedInto(list, e);
    assert r1 == list[k := next];
    if e.tempId != "" {
      assert IndexOfId(r1, e.tempId) == |r1| by {
        forall j | 0 <= j < |r1| ensures r1[j].id != e.tempId {
          if j == k { assert e.tempId != e.id; }
        }
      }
    }
    assert IndexOfId(r1, e.id) == k;
    assert r1[k := next] == r1;
  }

  /** No element of `s` carries an id `IndexOfId` does not find. */
  lemma AbsentIdMembers(s: seq<Message>, id: string)
    requires IndexOfId(s, id) == |s|
    ensures forall x :: x in s ==> x.id != id
  {
  }

  /** With a new id, every entry after `applyInsert` is an old entry or `m`. */
  lemma ApplyInsertMembers(arr: seq<Message>, m: Message)
    requires IndexOfId(arr, m.id) == |arr|
    ensures forall x :: x in ApplyInsert(arr, m) ==> x in arr || x == m
  {
    var r := ApplyInsert(arr, m);
    forall x | x in r ensures x in arr || x == m {
      assert x in multiset(r);
    }
  }

  /** Replacing the only entry carrying `m.id` by `m` itself changes nothing. */
  lemma ReplacePresent(r: seq<Message>, m: Message)
    requires m in r
    requires forall x :: x in r && x.id == m.id ==> x == m
    ensures IndexOfId(r, m.id) < |r|
    ensures r[IndexOfId(r, m.id) := m] == r
  {
    var q :| 0 <= q < |r| && r[q] == m;
    var p := IndexOfId(r, m.id);
    assert p <= q;
    assert r[p] in r;
  }

  lemma CreatedInsertNew(list: seq<Message>, e: ServerEvent)
    requires e.MessageCreated? && UniqueIds(list) && TempIndex(list, e) == |list|
    requires IndexOfId(list, e.id) == |list|
    ensures CreatedInto(CreatedInto(list, e), e) == CreatedInto(list, e)
    ensures CountId(CreatedInto(list, e), e.id) == 1
  {
    var next := CreatedMessage(e);
    ApplyInsertCount(list, next);
    ApplyInsertMembers(list, next);
    AbsentIdMembers(list, e.id);
    var r1 := ApplyInsert(list, next);
    assert CreatedInto(list, e) == r1;
    assert next in r1 by {
      assert next in multiset(r1);
    }
    ReplacePresent(r1, next);
    if e.tempId != "" && e.tempId != e.id {
      AbsentIdMembers(list, e.tempId);
      assert IndexOfId(r1, e.tempId) == |r1| by {
        forall j | 0 <= j < |r1| ensures r1[j].id != e.tempId {
          assert r1[j] in r1;
        }
      }
    }
  }

  /** Delivering a `message.created` twice to one bucket; see `CreatedIdempotent`. */
  lemma CreatedIntoTwice(list: seq<Message>, e: ServerEvent)
    requires e.MessageCreated? && CreatedReady(list, e)
    ensures CreatedInto(CreatedInto(list, e), e) == CreatedInto(list, e)
    ensures CountId(CreatedInto(list, e), e.id) == 1
  {
    if TempIndex(list, e) < |list| {
      CreatedTempFound(list, e);
    } else if IndexOfId(list, e.id) < |list| {
      CreatedUpsertExisting(list, e);
    } else {
      CreatedInsertNew(list, e);
    }
  }

  /**
   * A repeated `message.created` changes nothing, and leaves exactly one
   * entry with the server id: the second delivery finds no `tempId` and
   * upserts by the server id.
   */
  lemma CreatedIdempotent(b: Buckets, e: ServerEvent)
    requires e.MessageCreated?
    requires CreatedReady(Bucket(b, e.roomId), e)
    ensures OnCreated(OnCreated(b, e), e) == OnCreated(b, e)
    ensures CountId(OnCreated(b, e)[e.roomId], e.id) == 1
  {
    var r1 := CreatedInto(Bucket(b, e.roomId), e);
    var b1 := b[e.roomId := r1];
    assert OnCreated(b1, e) == b1 by {
      CreatedIntoTwice(Bucket(b, e.roomId), e);
      assert Bucket(b1, e.roomId) == r1;
    }
    CreatedIntoTwice(Bucket(b, e.roomId), e);
  }

  /**
   * `message.updated`: an unknown id (or room) leaves the state as it was;
   * otherwise only `content` and `editedAt` of the first entry with the id
   * change.
   */
  function OnUpdated(b: Buckets, e: ServerEvent): (r: Buckets)
    requires e.MessageUpdated?
    ensures var list := Bucket(b, e.roomId); var i := IndexOfId(list, e.id);
      (i == |list| ==> r == b) &&
      (i < |list| ==>
        && r.Keys == b.Keys && e.roomId in b
        && (forall room :: room in b && room != e.roomId ==> r[room] == b[room])
        && |r[e.roomId]| == |list|
        && r[e.roomId][i] == list[i].(content := e.content, editedAt := Some(e.editedAt))
        && (forall j :: 0 <= j < |list| && j != i ==> r[e.roomId][j] == list[j]))
  {
    var list := Bucket(b, e.roomId);
    var i := IndexOfId(list, e.id);
    if i == |list| then b
    else b[e.roomId := list[i := list[i].(content := e.content, editedAt := Some(e.editedAt))]]
  }

  /** `filter(m => m.id !== id)`. */
  function RemoveId(s: seq<Message>, id: string): (r: seq<Message>)
    ensures |r| <= |s|
    ensures forall i :: 0 <= i < |r| ==> r[i].id != id && r[i] in s
    ensures forall i :: 0 <= i < |s| && s[i].id != id ==> s[i] in r
    ensures CountId(s, id) == 0 ==> r == s
  {
    if s == [] then []
    else
      var init := s[..|s| - 1];
      var last := s[|s| - 1];
      assert s == init + [last];
      RemoveId(init, id) + (if last.id != id then [last] else [])
  }

  /** The filter keeps order: it distributes over concatenation. */
  lemma {:induction false} RemoveIdAppend(a: seq<Message>, c: seq<Message>, id: string)
    ensures RemoveId(a + c, id) == RemoveId(a, id) + RemoveId(c, id)
    decreases |c|
  {
    if c == [] {
      assert a + c == a;
    } else {
      var init := c[..|c| - 1];
      assert (a + c)[..|a + c| - 1] == a + init;
      RemoveIdAppend(a, init, id);
    }
  }

  /**
   * `message.deleted`: every entry with the id leaves the event's bucket
   * (which is set even when it was absent); other buckets are untouched.
   */
  function OnDeleted(b: Buckets, e: ServerEvent): (r: Buckets)
    requires e.MessageDeleted?
    ensures r.Keys == b.Keys + {e.roomId}
    ensures forall room :: room in b && room != e.roomId ==> r[room] == b[room]
    ensures IndexOfId(r[e.roomId], e.id) == |r[e.roomId]|
    ensures forall m :: m in r[e.roomId] <==> m in Bucket(b, e.roomId) && m.id != e.id
  {
    b[e.roomId := RemoveId(Bucket(b, e.roomId), e.id)]
  }

  // ---------------------------------------------------------------- typing

  type Typers = map<string, string>

  /** Every stored name is non-empty (so `prev[userId]` is truthy exactly for stored users). */
  predicate NamesNonEmpty(t: Typers) {
    forall u :: u in t ==> t[u] != ""
  }

  /** `typing.start`: ignored outside the current room; adds a user only if absent, as `name || 'Someone'`. */
  function OnTypingStart(t: Typers, current: string, e: ServerEvent): (r: Typers)
    requires e.TypingStarted?
    ensures e.roomId != current ==> r == t
    ensures NamesNonEmpty(t) ==> NamesNonEmpty(r)
    ensures NamesNonEmpty(t) && e.userId in t ==> r == t
    ensures e.roomId == current && e.userId !in t ==>
      r == t[e.userId := if e.name != "" then e.name else "Someone"]
  {
    if e.roomId != current then t
    else if e.userId in t && t[e.userId] != "" then t
    else t[e.userId := if e.name != "" then e.name else "Someone"]
  }

  /** `typing.stop`: ignored outside the current room; removes only that user. */
  function OnTypingStop(t: Typers, current: string, e: ServerEvent): (r: Typers)
    requires e.TypingStopped?
    ensures e.roomId != current ==> r == t
    ensures e.roomId == current ==> r.Keys == t.Keys - {e.userId}
    ensures forall u :: u in r ==> u in t && r[u] == t[u]
  {
    if e.roomId != current || e.userId !in t then t else t - {e.userId}
  }

  /** Starting then stopping the same user in the current room restores a map without them. */
  lemma TypingStartStop(t: Typers, current: string, u: string, name: string)
    requires u !in t
    ensures OnTypingStop(OnTypingStart(t, current, TypingStarted(current, u, name)), current,
                         TypingStopped(current, u)) == t
  {
    var s := OnTypingStart(t, current, TypingStarted(current, u, name));
    assert s - {u} == t;
  }

  // ---------------------------------------------------------------- url

  /** `buildWsUrl` adds `room_id` only for a non-empty id that does not look like a URL. */
  predicate AddsRoomParam(roomId: string) {
    roomId != "" && !Contains(roomId, "://") && !HasPrefix(roomId, "ws%3A")
  }

  lemma {:induction false} ContainsAt(s: string, sub: string, i: nat)
    requires i + |sub| <= |s| && s[i..i + |sub|] == sub
    ensures Contains(s, sub)
  {
    if i > 0 {
      assert s[1..][i - 1..i - 1 + |sub|] == s[i..i + |sub|];
      ContainsAt(s[1..], sub, i - 1);
    }
  }

  /** A room id that embeds a scheme separator is never passed on. */
  lemma UrlLikeRoomIgnored(a: string, c: string)
    ensures !AddsRoomParam(a + "://" + c)
  {
    var s := a + "://" + c;
    assert s[|a|..|a| + 3] == "://";
    ContainsAt(s, "://", |a|);
  }

  // ---------------------------------------------------------------- the component

  /** Folds the reducer over one event; other event kinds leave the state as it is. */
  function Reduce(b: Buckets, t: Typers, current: string, e: ServerEvent): (r: (Buckets, Typers))
    ensures !e.TypingStarted? && !e.TypingStopped? ==> r.1 == t
    ensures e.TypingStarted? || e.TypingStopped? || e.Hello? || e.ConnAck? || e.ServerError? ==> r.0 == b
  {
    match e
    case MessageCreated(_, _, _, _, _, _) => (OnCreated(b, e), t)
    case MessageUpdated(_, _, _, _) => (OnUpdated(b, e), t)
    case MessageDeleted(_, _) => (OnDeleted(b, e), t)
    case TypingStarted(_, _, _) => (b, OnTypingStart(t, current, e))
    case TypingStopped(_, _) => (b, OnTypingStop(t, current, e))
    case _ => (b, t)
  }

  /**
   * The `AppShell` component's state and effects. `mgr` is the shared
   * connection manager; the two callbacks the effect registers are numbered
   * `statusCb` and `eventCb`, fresh for every run of the effect.
   */
  class Shell {
    var mgr: WsManager.WSManager
    var messagesByRoom: Buckets
    var typers: Typers
    var status: Status
    var currentRoomId: string
    var active: bool
    var statusCb: nat
    var eventCb: nat
    var nextCb: nat

    ghost predicate Valid()
      reads this, mgr
    {
      mgr.Valid() && NamesNonEmpty(typers) && statusCb < nextCb && eventCb < nextCb
    }

    constructor (m: WsManager.WSManager)
      requires m.Valid()
      ensures Valid() && mgr == m && !active
      ensures messagesByRoom == map[] && typers == map[] && status == Offline
    {
      mgr := m;
      messagesByRoom, typers, status := map[], map[], Offline;
      currentRoomId, active := "", false;
      statusCb, eventCb, nextCb := 0, 0, 1;
    }

    /**
     * The connection effect for `room`: connects with `url` (what
     * `buildWsUrl(room)` returns), copies the status, registers both
     * listeners and clears the typing map.
     */
    method StartEffect(room: string, url: string)
      requires Valid() && !active
      modifies this, mgr
      ensures Valid() && active && currentRoomId == room && typers == map[]
      ensures mgr == old(mgr) && mgr.url == Some(url) && mgr.shouldRun
      ensures statusCb in mgr.statusListeners && eventCb in mgr.listeners
      ensures status == mgr.status
      ensures url != "" ==>
        && mgr.sockets == old(mgr.sockets) + [WsManager.Socket(url, WsManager.CONNECTING, true, [])]
        && mgr.ws == Some(|old(mgr.sockets)|) && mgr.status == Connecting
        && mgr.notified == old(mgr.notified) +
             (if old(mgr.status) == Connecting then [] else WsManager.Fanout(old(mgr.statusListeners), Connecting))
      ensures url == "" ==>
        mgr.sockets == old(mgr.sockets) && mgr.ws == old(mgr.ws) && mgr.status == old(mgr.status) &&
        mgr.notified == old(mgr.notified)
      ensures mgr.outbox == old(mgr.outbox) && unchanged(this`messagesByRoom)
      ensures mgr.statusListeners == WsManager.SetAdd(old(mgr.statusListeners), statusCb)
      ensures mgr.listeners == WsManager.SetAdd(old(mgr.listeners), eventCb)
      ensures mgr.retries == old(mgr.retries) && mgr.backoff == old(mgr.backoff)
      ensures mgr.pingArmed == old(mgr.pingArmed) && mgr.dispatched == old(mgr.dispatched)
    {
      var m := mgr;
      var cb := nextCb;
      m.Connect(Some(url), url);
      m.OnStatus(cb);
      m.OnEvent(cb + 1);
      currentRoomId := room;
      status := m.status;
      statusCb, eventCb, nextCb := cb, cb + 1, cb + 2;
      typers := map[];
      active := true;
    }

    /** The effect's cleanup: unsubscribes both listeners and disconnects. */
    method Cleanup()
      requires Valid() && active
      modifies this, mgr
      ensures Valid() && !active && mgr == old(mgr)
      ensures !mgr.shouldRun && mgr.ws == None && mgr.status == Offline
      ensures mgr.statusListeners == WsManager.SetDelete(old(mgr.statusListeners), statusCb)
      ensures mgr.listeners == WsManager.SetDelete(old(mgr.listeners), eventCb)
      ensures mgr.outbox == old(mgr.outbox) && unchanged(this`messagesByRoom)
      ensures unchanged(this`status, this`typers, this`currentRoomId)
      ensures mgr.retries == old(mgr.retries) && mgr.url == old(mgr.url) && mgr.dispatched == old(mgr.dispatched)
      ensures !mgr.pingArmed && mgr.backoff == WsManager.InitialBackoff
      ensures |mgr.sockets| == |old(mgr.sockets)|
      ensures forall k :: 0 <= k < |mgr.sockets| && Some(k) != old(mgr.ws) ==> mgr.sockets[k] == old(mgr.sockets)[k]
      ensures old(mgr.ws).Some? ==>
        var s := old(mgr.sockets)[old(mgr.ws).value];
        mgr.sockets[old(mgr.ws).value] ==
          s.(attached := false, ready := if s.ready == WsManager.CLOSED then WsManager.CLOSED else WsManager.CLOSING)
      ensures mgr.notified == old(mgr.notified) +
        (if old(mgr.status) == Offline then [] else WsManager.Fanout(WsManager.SetDelete(old(mgr.statusListeners), statusCb), Offline))
    {
      mgr.OffStatus(statusCb);
      mgr.OffEvent(eventCb);
      mgr.Disconnect();
      active := false;
    }

    /** The status listener: mirrors the manager's status. */
    method OnStatusNotified(s: Status)
      requires Valid() && active
      modifies this`status
      ensures Valid() && status == s
    {
      status := s;
    }

    /** The event listener: one reducer step, the typing cases judged against the effect's room. */
    method OnEvent(e: ServerEvent)
      requires Valid() && active
      modifies this`messagesByRoom, this`typers
      ensures Valid()
      ensures (messagesByRoom, typers) == Reduce(old(messagesByRoom), old(typers), currentRoomId, e)
    {
      var r := Reduce(messagesByRoom, typers, currentRoomId, e);
      messagesByRoom, typers := r.0, r.1;
    }

    /**
     * `sendMessage`: inserts the optimistic message, whose id is the
     * `tempId`, then sends `message.send` with that `tempId`; a refused send
     * leaves the optimistic message in place (and the command queued).
     */
    method SendMessage(roomId: string, content: string, tempId: string, now: int, throws: bool)
      returns (ok: bool)
      requires Valid()
      modifies this`messagesByRoom, mgr`sockets, mgr`outbox
      ensures Valid()
      ensures messagesByRoom ==
        old(messagesByRoom)[roomId := ApplyInsert(Bucket(old(messagesByRoom), roomId),
                                                  Message(tempId, roomId, Me, content, now, None))]
      ensures ok <==> old(mgr.IsOpen()) && !throws
      ensures !ok ==> mgr.outbox == old(mgr.outbox) + [MessageSend(tempId, roomId, content)]
      ensures ok ==> (mgr.outbox == old(mgr.outbox) &&
        mgr.sockets[mgr.ws.value].sent == old(mgr.sockets[mgr.ws.value].sent) + [MessageSend(tempId, roomId, content)])
    {
      var optimistic := Message(tempId, roomId, Me, content, now, None);
      messagesByRoom := messagesByRoom[roomId := ApplyInsert(Bucket(messagesByRoom, roomId), optimistic)];
      ok := mgr.Send(MessageSend(tempId, roomId, content), throws);
    }
  }

  /** The optimistic entry is found by the server's echo of its `tempId`: the echo replaces it. */
  lemma SendThenEcho(b: Buckets, e: ServerEvent, now: int)
    requires e.MessageCreated? && e.tempId != ""
    requires UniqueIds(Bucket(b, e.roomId)) && IndexOfId(Bucket(b, e.roomId), e.tempId) == |Bucket(b, e.roomId)|
    ensures var b1 := b[e.roomId := ApplyInsert(Bucket(b, e.roomId), Message(e.tempId, e.roomId, Me, e.content, now, None))];
      TempIndex(Bucket(b1, e.roomId), e) < |Bucket(b1, e.roomId)| &&
      |OnCreated(b1, e)[e.roomId]| == |Bucket(b1, e.roomId)| &&
      CreatedMessage(e) in OnCreated(b1, e)[e.roomId]
  {
    var list := Bucket(b, e.roomId);
    var opt := Message(e.tempId, e.roomId, Me, e.content, now, None);
    var b1 := b[e.roomId := ApplyInsert(list, opt)];
    var l1 := Bucket(b1, e.roomId);
    assert l1 == ApplyInsert(list, opt);
    assert opt in multiset(l1);
    var p :| 0 <= p < |l1| && l1[p] == opt;
    assert IndexOfId(l1, e.tempId) <= p;
  }
}
