/**
 * Wire-level types of the browser client (client/lib/ws-types.ts): the
 * connection status, a JSON value as `JSON.parse` produces it, the commands
 * the client sends and the typed events the UI reducers consume.
 */
module WsTypes {
  import opened Wrappers

  /** What `getStatus()` reports. */
  datatype Status = Connecting | Connected | Offline

  /** A parsed JSON value (numbers are modelled as integers). */
  datatype Json =
    | JNull
    | JBool(b: bool)
    | JNum(n: int)
    | JStr(s: string)
    | JArr(items: seq<Json>)
    | JObj(fields: map<string, Json>)

  /** JavaScript truthiness of a parsed JSON value. */
  predicate Truthy(j: Json) {
    match j
    case JNull => false
    case JBool(b) => b
    case JNum(n) => n != 0
    case JStr(s) => s != ""
    case JArr(_) => true
    case JObj(_) => true
  }

  /** Property access `j.key`: only objects have own fields; anything else reads `undefined`. */
  function Field(j: Json, key: string): Option<Json> {
    if j.JObj? && key in j.fields then Some(j.fields[key]) else None
  }

  /** Go's `v, _ := m[key].(string)`: the string stored under `key`, or "" when it is absent or not a string. */
  function StringAt(m: map<string, Json>, key: string): (v: string)
    ensures key in m && m[key].JStr? ==> v == m[key].s
    ensures !(key in m && m[key].JStr?) ==> v == ""
  {
    if key in m && m[key].JStr? then m[key].s else ""
  }

  /** Truthiness of `j.key`, where `undefined` is falsy. */
  predicate FieldTruthy(j: Json, key: string) {
    Field(j, key).Some? && Truthy(Field(j, key).value)
  }

  /** Commands the client sends (`ClientEvent`). */
  datatype ClientEvent =
    | Ping
    | MessageSend(tempId: string, roomId: string, content: string)
    | TypingStart(to: string, roomId: string)
    | TypingStop(to: string, roomId: string)
    | RoomJoin(roomId: string)
    | RoomLeave(roomId: string)

  /** A message author as the server's events carry it. */
  datatype Author = Author(id: string, name: string)

  /**
   * Inbound events (`ServerEvent`). Timestamps are integers; an absent
   * `tempId` or `name` is the empty string (both are falsy in the source).
   */
  datatype ServerEvent =
    | Hello
    | ConnAck
    | MessageCreated(id: string, tempId: string, roomId: string, author: Author, content: string, createdAt: int)
    | MessageUpdated(id: string, roomId: string, content: string, editedAt: int)
    | MessageDeleted(id: string, roomId: string)
    | TypingStarted(roomId: string, userId: string, name: string)
    | TypingStopped(roomId: string, userId: string)
    | ServerError(reason: string)
}
