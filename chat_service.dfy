/**
 * The chat business rules of server/internal/chat/service.go over an
 * abstract store: rooms, messages keyed by room and message id, and room
 * participants. Ids, the clock (milliseconds) and UUID parsing are
 * parameters; lengths are Go byte lengths of the `strings.TrimSpace`d text.
 */
module ChatService {
  import opened Wrappers
  import opened Text

  const MinRoomName := 3
  const MaxContent := 4000
  /** `15*time.Minute`, in milliseconds. */
  const EditWindow := 15 * 60 * 1000

  const ErrRoomName := "room name must be at least 3 chars"
  const ErrContent := "invalid content"
  const ErrDeleted := "message deleted"
  const ErrForbidden := "forbidden"
  const ErrExpired := "edit window has expired"
  const ErrNotFound := "not found"
  const ErrSelfDM := "cannot DM yourself"
  const ErrNotParticipant := "forbidden: not a participant"

  datatype Room = Room(roomId: string, name: string, createdBy: string, createdAt: int)

  /** A stored message; the soft-delete columns are empty while it is live. */
  datatype Message = Message(roomId: string, msgId: string, userId: string, content: string, createdAt: int,
                             editedAt: Option<int>, deletedAt: Option<int>, deletedBy: Option<string>,
                             deletedReason: Option<string>)

  datatype MsgKey = MsgKey(roomId: string, msgId: string)

  datatype CreateRoomResponse = CreateRoomResponse(roomId: string, name: string)
  datatype SendMessageResponse = SendMessageResponse(msgId: string, content: string)
  datatype EditResult = EditResult(roomId: string, msgId: string, content: string, editedAt: int)
  datatype DeleteResult = DeleteResult(roomId: string, msgId: string, deletedAt: int, deletedBy: string,
                                       deletedReason: Option<string>)

  /** The query `GetMessages` hands to the repository. */
  datatype ListQuery = ListQuery(roomId: string, limit: int, before: Option<string>)

  // ---------------------------------------------------------------- the checks

  /** The content check shared by sending and editing: the trimmed text, or "invalid content". */
  function CheckContent(content: string): (r: Result<string>)
    ensures r.Ok? <==> 0 < Utf8Len(GoTrim(content)) <= MaxContent
    ensures r.Ok? ==> r.value == GoTrim(content)
    ensures r.Err? ==> r.error == ErrContent
  {
    var t := GoTrim(content);
    if Utf8Len(t) == 0 || Utf8Len(t) > MaxContent then Err(ErrContent) else Ok(t)
  }

  /** Accepted text is already trimmed, so it passes the check again unchanged. */
  lemma CheckContentStable(content: string)
    requires CheckContent(content).Ok?
    ensures CheckContent(CheckContent(content).value) == CheckContent(content)
    ensures !IsGoSpace(CheckContent(content).value[0])
    ensures !IsGoSpace(CheckContent(content).value[|CheckContent(content).value| - 1])
  {
    TrimIdempotent(content, IsGoSpace);
    TrimSpec(content, IsGoSpace);
  }

  /**
   * The decision of `EditMessage` before it writes: the content check
   * first, then lookup, then deleted, author and window, in that order.
   */
  function CheckEdit(content: string, stored: Option<Message>, userId: string, now: int): (r: Result<string>)
    ensures CheckContent(content).Err? ==> r == Err(ErrContent)
    ensures CheckContent(content).Ok? && stored.None? ==> r == Err(ErrNotFound)
    ensures CheckContent(content).Ok? && stored.Some? && stored.value.deletedAt.Some? ==> r == Err(ErrDeleted)
    ensures CheckContent(content).Ok? && stored.Some? && stored.value.deletedAt.None? && stored.value.userId != userId ==>
      r == Err(ErrForbidden)
    ensures (CheckContent(content).Ok? && stored.Some? && stored.value.deletedAt.None? && stored.value.userId == userId &&
             now - stored.value.createdAt > EditWindow) ==> r == Err(ErrExpired)
    ensures r.Ok? <==>
      CheckContent(content).Ok? && stored.Some? && stored.value.deletedAt.None? &&
      stored.value.userId == userId && now - stored.value.createdAt <= EditWindow
    ensures r.Ok? ==> r.value == GoTrim(content)
  {
    var c := CheckContent(content);
    if c.Err? then c
    else if stored.None? then Err(ErrNotFound)
    else if stored.value.deletedAt.Some? then Err(ErrDeleted)
    else if stored.value.userId != userId then Err(ErrForbidden)
    else if now - stored.value.createdAt > EditWindow then Err(ErrExpired)
    else c
  }

  /** What `DeleteMessage` decides for the stored row. */
  datatype DeleteOutcome =
    | Missing
    | AlreadyDeleted(result: DeleteResult)
    | NotAuthor
    | SoftDelete(result: DeleteResult)

  /** `strings.TrimSpace(reason)`, or nil when that is blank. */
  function ReasonOut(reason: string): (r: Option<string>)
    ensures r.None? <==> GoTrim(reason) == ""
    ensures r.Some? ==> r.value == GoTrim(reason)
  {
    if GoTrim(reason) != "" then Some(GoTrim(reason)) else None
  }

  /**
   * The decision of `DeleteMessage`: an already deleted message answers with
   * its stored deletion time and reason whoever asks; otherwise only the
   * author may delete.
   */
  function CheckDelete(roomId: string, msgId: string, stored: Option<Message>, userId: string, reason: string, now: int): (o: DeleteOutcome)
    ensures stored.None? <==> o.Missing?
    ensures stored.Some? && stored.value.deletedAt.Some? ==>
      o == AlreadyDeleted(DeleteResult(roomId, msgId, stored.value.deletedAt.value, userId, stored.value.deletedReason))
    ensures stored.Some? && stored.value.deletedAt.None? && stored.value.userId != userId ==> o.NotAuthor?
    ensures o.SoftDelete? <==> stored.Some? && stored.value.deletedAt.None? && stored.value.userId == userId
    ensures o.SoftDelete? ==> o.result == DeleteResult(roomId, msgId, now, userId, ReasonOut(reason))
  {
    if stored.None? then Missing
    else if stored.value.deletedAt.Some? then
      AlreadyDeleted(DeleteResult(roomId, msgId, stored.value.deletedAt.value, userId, stored.value.deletedReason))
    else if stored.value.userId != userId then NotAuthor
    else SoftDelete(DeleteResult(roomId, msgId, now, userId, ReasonOut(reason)))
  }

  /** `SoftDeleteMessage`: the row marked deleted; the repository gets the reason untrimmed. */
  function SoftDeleted(m: Message, userId: string, reason: string, now: int): Message {
    m.(deletedAt := Some(now), deletedBy := Some(userId), deletedReason := Some(reason))
  }

  /**
   * A second delete, by anybody and with any reason, answers with the first
   * one's time and the reason the first one stored, and writes nothing.
   */
  lemma DeleteIdempotent(roomId: string, msgId: string, m: Message, u1: string, r1: string, t1: int,
                         u2: string, r2: string, t2: int)
    requires CheckDelete(roomId, msgId, Some(m), u1, r1, t1).SoftDelete?
    ensures CheckDelete(roomId, msgId, Some(SoftDeleted(m, u1, r1, t1)), u2, r2, t2) ==
      AlreadyDeleted(DeleteResult(roomId, msgId, t1, u2, Some(r1)))
  {
  }

  /** `GetMessages`: a `before` cursor that does not parse as a UUID is treated as absent. */
  function MessagesQuery(roomId: string, limit: int, before: string, parseUuid: string -> Option<string>): (q: ListQuery)
    ensures q.roomId == roomId && q.limit == limit
    ensures q.before.None? <==> before == "" || parseUuid(before).None?
    ensures q.before.Some? ==> q.before == parseUuid(before)
  {
    ListQuery(roomId, limit, if before != "" && parseUuid(before).Some? then parseUuid(before) else None)
  }

  /** `EnsureDM`: a DM with oneself is refused before the repository is asked. */
  function EnsureDM<R>(me: string, peer: string, repoEnsureDM: (string, string) -> Result<R>): (r: Result<R>)
    ensures me == peer ==> r == Err(ErrSelfDM)
    ensures me != peer ==> r == repoEnsureDM(me, peer)
  {
    if me == peer then Err(ErrSelfDM) else repoEnsureDM(me, peer)
  }

  /** `EnsureMemberOrPublic`: participants, and anybody in a room without participants, are let in. */
  function EnsureMemberOrPublic(participants: map<string, set<string>>, roomId: string, userId: string): (r: Option<string>)
    ensures r.None? <==>
      (roomId in participants && userId in participants[roomId]) || roomId !in participants || participants[roomId] == {}
    ensures r.Some? ==> r.value == ErrNotParticipant
  {
    var isParticipant := roomId in participants && userId in participants[roomId];
    var hasParticipants := roomId in participants && participants[roomId] != {};
    if isParticipant then None
    else if !hasParticipants then None
    else Some(ErrNotParticipant)
  }

  // ---------------------------------------------------------------- the service over its store

  class Service {
    var rooms: map<string, Room>
    var messages: map<MsgKey, Message>
    var participants: map<string, set<string>>

    constructor ()
      ensures rooms == map[] && messages == map[] && participants == map[]
    {
      rooms, messages, participants := map[], map[], map[];
    }

    function Lookup(roomId: string, msgId: string): Option<Message>
      reads this
    {
      if MsgKey(roomId, msgId) in messages then Some(messages[MsgKey(roomId, msgId)]) else None
    }

    /** `CheckDelete` on the stored row. */
    function DeleteDecision(roomId: string, msgId: string, userId: string, reason: string, now: int): DeleteOutcome
      reads this
    {
      CheckDelete(roomId, msgId, Lookup(roomId, msgId), userId, reason, now)
    }

    /** `CreateRoom`: a trimmed name of fewer than 3 bytes is refused; the trimmed name is stored. */
    method CreateRoom(userId: string, name: string, newId: string, now: int) returns (r: Result<CreateRoomResponse>)
      modifies this`rooms
      ensures Utf8Len(GoTrim(name)) < MinRoomName ==> r == Err(ErrRoomName) && rooms == old(rooms)
      ensures Utf8Len(GoTrim(name)) >= MinRoomName ==>
        r == Ok(CreateRoomResponse(newId, GoTrim(name))) && rooms == old(rooms)[newId := Room(newId, GoTrim(name), userId, now)]
    {
      var trimmed := GoTrim(name);
      if Utf8Len(trimmed) < MinRoomName {
        return Err(ErrRoomName);
      }
      rooms := rooms[newId := Room(newId, trimmed, userId, now)];
      r := Ok(CreateRoomResponse(newId, trimmed));
    }

    /** `SendMessage`: the content check comes before any write; the trimmed text is stored. */
    method SendMessage(roomId: string, userId: string, content: string, newId: string, now: int)
      returns (r: Result<SendMessageResponse>)
      modifies this`messages
      ensures CheckContent(content).Err? ==> r == Err(ErrContent) && messages == old(messages)
      ensures CheckContent(content).Ok? ==>
        r == Ok(SendMessageResponse(newId, GoTrim(content))) &&
        messages == old(messages)[MsgKey(roomId, newId) :=
          Message(roomId, newId, userId, GoTrim(content), now, None, None, None, None)]
    {
      var c := CheckContent(content);
      if c.Err? {
        return Err(c.error);
      }
      messages := messages[MsgKey(roomId, newId) := Message(roomId, newId, userId, c.value, now, None, None, None, None)];
      r := Ok(SendMessageResponse(newId, c.value));
    }

    /** `EditMessage`: only an accepted edit writes, and it changes the content and edit time only. */
    method EditMessage(roomId: string, msgId: string, userId: string, content: string, now: int)
      returns (r: Result<EditResult>)
      modifies this`messages
      ensures CheckEdit(content, old(Lookup(roomId, msgId)), userId, now).Err? ==>
        r == Err(CheckEdit(content, old(Lookup(roomId, msgId)), userId, now).error) && messages == old(messages)
      ensures CheckEdit(content, old(Lookup(roomId, msgId)), userId, now).Ok? ==>
        r == Ok(EditResult(roomId, msgId, GoTrim(content), now)) &&
        messages == old(messages)[MsgKey(roomId, msgId) :=
          old(messages)[MsgKey(roomId, msgId)].(content := GoTrim(content), editedAt := Some(now))]
    {
      var d := CheckEdit(content, Lookup(roomId, msgId), userId, now);
      if d.Err? {
        return Err(d.error);
      }
      var k := MsgKey(roomId, msgId);
      messages := messages[k := messages[k].(content := d.value, editedAt := Some(now))];
      r := Ok(EditResult(roomId, msgId, d.value, now));
    }

    /** `DeleteMessage`: idempotent for deleted rows, author-only otherwise. */
    method DeleteMessage(roomId: string, msgId: string, userId: string, reason: string, now: int)
      returns (r: Result<DeleteResult>)
      modifies this`messages
      ensures old(DeleteDecision(roomId, msgId, userId, reason, now)).Missing? ==>
        r == Err(ErrNotFound) && messages == old(messages)
      ensures old(DeleteDecision(roomId, msgId, userId, reason, now)).NotAuthor? ==>
        r == Err(ErrForbidden) && messages == old(messages)
      ensures old(DeleteDecision(roomId, msgId, userId, reason, now)).AlreadyDeleted? ==>
        r == Ok(old(DeleteDecision(roomId, msgId, userId, reason, now)).result) && messages == old(messages)
      ensures old(DeleteDecision(roomId, msgId, userId, reason, now)).SoftDelete? ==>
        r == Ok(old(DeleteDecision(roomId, msgId, userId, reason, now)).result) &&
        messages == old(messages)[MsgKey(roomId, msgId) := SoftDeleted(old(messages)[MsgKey(roomId, msgId)], userId, reason, now)]
    {
      var o := CheckDelete(roomId, msgId, Lookup(roomId, msgId), userId, reason, now);
      match o
      case Missing => r := Err(ErrNotFound);
      case NotAuthor => r := Err(ErrForbidden);
      case AlreadyDeleted(res) => r := Ok(res);
      case SoftDelete(res) =>
        var k := MsgKey(roomId, msgId);
        messages := messages[k := SoftDeleted(messages[k], userId, reason, now)];
        r := Ok(res);
    }
  }

  /**
   * Deleting twice through the service: once the first call succeeds the
   * row is deleted, so the second answers with the same time, and with the
   * first caller's raw reason when the first call did the deleting.
   */
  method DeleteTwice(s: Service, roomId: string, msgId: string, u1: string, r1: string, t1: int,
                     u2: string, r2: string, t2: int) returns (first: Result<DeleteResult>, second: Result<DeleteResult>)
    modifies s`messages
    ensures first.Ok? ==> second.Ok? && second.value.deletedAt == first.value.deletedAt
    ensures first.Ok? && old(s.Lookup(roomId, msgId)).Some? && old(s.Lookup(roomId, msgId)).value.deletedAt.None? ==>
      second == Ok(DeleteResult(roomId, msgId, t1, u2, Some(r1)))
  {
    first := s.DeleteMessage(roomId, msgId, u1, r1, t1);
    ghost var row := s.Lookup(roomId, msgId);
    assert first.Ok? ==> row.Some? && row.value.deletedAt == Some(first.value.deletedAt);
    assert first.Ok? && old(s.Lookup(roomId, msgId)).Some? && old(s.Lookup(roomId, msgId)).value.deletedAt.None? ==> row.value.deletedReason == Some(r1);
    second := s.DeleteMessage(roomId, msgId, u2, r2, t2);
  }
}
