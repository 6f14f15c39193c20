# GO-chat core, modelled in Dafny

This project models the logic of GO-chat. GO-chat is a Next.js chat client with a Go WebSocket and REST server. The model covers:

- **Browser client**
  - the connection manager of `client/lib/ws.ts`: status, backoff, outbox, listener sets, reconnect and ping timers;
  - the timeline state of `AppShell`: `applyInsert`, the per-room event reducers, the typing map and the optimistic send;
  - the older chat page `app/chat/page.tsx`: its socket hook, frame reducers, typing throttle and `classNames`;
  - the row builder of `MessageList`;
  - `normalizeEmoji`;
  - the mock message generator.
- **Server**
  - the connection registry and event routing of the two Go hubs;
  - the chat business rules;
  - sign-up and log-in validation;
  - the two bearer-token parsers;
  - room presence keys;
  - the build-directive extractor of the comment stripper;
  - the CORS wrapper, `getEnv` and the JWT validator closure of the server's `main`.

One Dafny module stands for each source file. There are also two shared modules:

- `Text`: string helpers such as Go and JavaScript trimming, ASCII lower-casing, UTF-8 byte length, split and join, and decimal printing.
- `Wrappers`: `Option` and `Result`.

`WsTypes` holds the client's wire types.

The source's form carries over to the model:

- Code that changes things in place becomes classes whose methods name what they modify. Examples are the manager, the hubs' registry, the socket hook, the stores behind the services and the response writer.
- Its loops become Dafny loops proved against a specification function. Examples are the listener fan-out, the outbox flush, `removeClient`'s channel loop, the row builder, the presence scan, the directive scan and the mock generator.
- Pure updaters and checks become functions, with lemmas about them.

The outside world enters as parameters and explicit pending state:

- sockets are numbered objects whose open, close and message events are methods;
- each timer becomes pending state with a method that fires it;
- clocks are integers;
- `JSON.parse`, hashing, JWT signing and validation, `isSameDay` and `fmtDay`, `encodeURIComponent`, `filepath.Match`, and Go's parser and printer are passed in as functions;
- the repositories and Redis become maps and given replies.

Some behaviours of the code are worth stating up front:

- a delete removes messages physically, with no tombstone;
- buckets are keyed by the event's raw `roomId`;
- `parentId` is never carried;
- `disconnect()` does not cancel a reconnect that is already scheduled, so that reconnect still opens a socket;
- `sameAuthor` tests the raw author ids for emptiness before it normalises them;
- sign-up never fills the tables that log-in reads (see Findings).

## Model

| member | source | states |
|---|---|---|
| WsManager.BackoffClosedForm | client/lib/ws.ts:176-179 | after n closes in a row the backoff is min(500·2ⁿ, 5000) |
| WsManager.BackoffAfterIsBackoff | client/lib/ws.ts:15 | every backoff reached from the initial 500 is one of 500, 1000, 2000, 4000, 5000 |
| WsManager.RetryDelays | client/lib/ws.ts:176-179 | the reconnect delays are 500, 1000, 2000, 4000, then 5000 for ever |
| WsManager.BackoffStep | client/lib/ws.ts:177-179 | one close keeps the backoff admissible and the delay within [500, 5000] |
| WsManager.SetAdd | client/lib/ws.ts:23-31 | `Set.add`: the result has no duplicates and holds exactly the old members and the new one |
| WsManager.SetDelete | client/lib/ws.ts:23-31 | `Set.delete`: removes exactly that member, shrinking by one when it was present and changing nothing otherwise |
| WsManager.SetDeleteKeepsOrder | client/lib/ws.ts:23-31 | deleting one callback keeps the other callbacks in their insertion order |
| WsManager.Fanout | client/lib/ws.ts:83-87 | `for (const cb of set) cb(x)` calls each listener once, in insertion order, with the same value |
| WsManager.Accept | client/lib/ws.ts:126-164 | a frame reaches the listeners iff it is a string or Blob with non-empty text that parses to a value with a truthy `type`; the value dispatched keeps every parsed field and carries `payload` as `data` exactly when `payload` is truthy and `data` is not |
| WsManager.FlushInto | client/lib/ws.ts:107-116 | flushing appends, in order, the queued items before the first failing send to the open socket only; no other socket changes, and nothing changes when no socket is open |
| WsManager.WSManager.constructor | client/lib/ws.ts:6-19 | the initial state: no socket, no url, no listeners, offline, not running, backoff 500, empty outbox, no timers |
| WsManager.WSManager.OnEvent | client/lib/ws.ts:23-24 | adds the callback to the event listeners and changes nothing else |
| WsManager.WSManager.OffEvent | client/lib/ws.ts:25 | the returned unsubscribe removes exactly that callback and changes nothing else |
| WsManager.WSManager.OnStatus | client/lib/ws.ts:28-29 | adds the callback to the status listeners and changes nothing else |
| WsManager.WSManager.OffStatus | client/lib/ws.ts:30 | the returned unsubscribe removes exactly that status callback |
| WsManager.WSManager.SetStatus | client/lib/ws.ts:83-87 | the status becomes the new one; listeners are notified, in order, only when it changed |
| WsManager.WSManager.Open | client/lib/ws.ts:96-100 | without a url nothing happens; otherwise the status becomes connecting and a new socket to that url, with handlers attached, becomes the current one |
| WsManager.WSManager.Connect | client/lib/ws.ts:47-51 | records the given url (or the fallback), sets `shouldRun` and opens a socket when the url is non-empty, telling the status listeners `connecting` only when the status changes; an empty url notifies no one |
| WsManager.WSManager.Disconnect | client/lib/ws.ts:53-64 | stops running, clears the ping, resets the backoff to 500, detaches and closes the current socket, forgets it and goes offline; outbox and pending retries are untouched |
| WsManager.WSManager.Send | client/lib/ws.ts:66-79 | returns true iff the current socket is open and the send does not throw; then the event is transmitted, otherwise it is queued at the end of the outbox |
| WsManager.WSManager.SocketOpened | client/lib/ws.ts:103-123 | an open event on a detached socket only changes its ready state; on an attached one the `onopen` handler runs |
| WsManager.WSManager.OpenHandler | client/lib/ws.ts:103-123 | `onopen`: connected, backoff 500, the outbox emptied into the socket up to the first failing send, and the ping interval armed |
| WsManager.WSManager.Flush | client/lib/ws.ts:107-116 | the outbox is emptied (`splice(0)`) and the socket receives its prefix up to the first failing send |
| WsManager.WSManager.FlushCount | client/lib/ws.ts:109-115 | how many items get through: all, or the ones before the failing send |
| WsManager.WSManager.SocketClosed | client/lib/ws.ts:168-180 | the socket becomes CLOSED; a detached socket changes nothing else, an attached one runs `onclose` |
| WsManager.WSManager.CloseHandler | client/lib/ws.ts:168-180 | `onclose`: clears the ping; when stopped it goes offline; when running it goes connecting, schedules a retry after min(backoff, 5000) and doubles the backoff, capped at 5000 |
| WsManager.WSManager.SocketMessage | client/lib/ws.ts:126-165 | a message on an attached socket dispatches `Accept`'s value to every event listener, in order; a detached socket dispatches nothing |
| WsManager.WSManager.FireRetry | client/lib/ws.ts:178 | the fired timer is removed and `open()` runs: a new socket and a `connecting` notification (on a change) when a url is set, nothing else otherwise |
| WsManager.WSManager.DisconnectTwice | client/lib/ws.ts:53-64 | two disconnects in a row notify the status listeners at most once |
| WsManager.WSManager.FirePing | client/lib/ws.ts:120-122 | the ping interval sends `{type: 'ping'}` through `send`: transmitted when open, queued otherwise |
| WsManager.RetryAfterDisconnect | client/lib/ws.ts:53-64 | a retry timer scheduled before `disconnect()` still fires and opens a new socket, leaving the manager connecting while it no longer runs |
| Text.TrimSpec | server/internal/chat/service.go:34 | `strings.TrimSpace` keeps a slice of its argument that neither starts nor ends with a space; only spaces are cut off, and only at the ends |
| Text.TrimIdempotent | server/internal/chat/service.go:142-143 | trimming twice is trimming once |
| Text.Split | server/internal/auth/middleware.go:25 | `strings.Split` on one character: no piece holds the separator |
| Text.SplitJoin | server/internal/auth/middleware.go:25 | joining the pieces again with the separator gives back the input |
| Text.SplitLength | server/internal/auth/middleware.go:25-26 | there is one more piece than there are separators |
| Text.LowerAt | server/internal/chat/handler.go:30 | lower-casing maps each character on its own |
| AuthService.IsEmailCorrect | server/internal/auth/service.go:26-29 | the hand-written recogniser accepts exactly the strings of `^[a-z0-9._%+\-]+@[a-z0-9.\-]+\.[a-z]{2,}$`, both directions |
| AuthService.IsEmailSound | server/internal/auth/service.go:26-29 | every accepted address splits as local part, '@', domain part, '.', two or more lower-case letters |
| AuthService.IsEmailComplete | server/internal/auth/service.go:26-29 | every string of that shape is accepted |
| AuthService.EmailShape | server/internal/auth/service.go:26-29 | an accepted address has exactly one '@', no upper-case letter, and ends in two lower-case letters |
| AuthService.EmailHasAt | server/internal/auth/service.go:26-29 | an accepted address contains '@', so the log-in lookup treats it as an e-mail |
| AuthService.SignupCheck | server/internal/auth/service.go:23-32 | the checks in order (username 3 to 30 bytes, then the e-mail pattern, then a password of at least 6 bytes) with their error texts; none fails iff all three hold |
| AuthService.Service.constructor | server/internal/auth/service.go:15-20 | `NewService`: tokens expire after 24 hours (86400 s), and the store starts empty |
| AuthService.Service.FindUser | server/internal/auth/repository.go:74-117 | an identifier containing '@' is looked up by e-mail, any other by username |
| AuthService.Service.Signup | server/internal/auth/service.go:22-50 | a failed check writes nothing and returns its error; a username or e-mail already stored gives "username or email already exists"; otherwise exactly one user row, with the hashed password, is added and nothing else changes |
| AuthService.Service.SignupIndexed | server/internal/auth/repository.go:167-185 | the corrected sign-up: the same outcomes, and a new user is also entered in both lookup tables |
| AuthService.SignupThenLoginAsWritten | server/internal/auth/service.go:39-63 | as written, a user who has just signed up is not found when logging in by username |
| AuthService.SignupThenLogin | server/internal/auth/service.go:52-67 | after the corrected sign-up, logging in by username and by e-mail with the same password finds the user just stored |
| AuthService.Service.LoginCheck | server/internal/auth/service.go:53-67 | request shape, then lookup, then password, each with its error text; the stored user iff all three pass |
| AuthService.Service.Login | server/internal/auth/service.go:52-88 | on any failure nothing is saved; on success one refresh token for the user (lifetime 7 days) is saved, and the response carries the signed token, that refresh token and an expiry `jwtExpiry` seconds from now |
| AuthService.LoginExpiresInADay | server/internal/auth/service.go:18-86 | with the default 24-hour expiry, a user signed up through the indexed sign-up logs in successfully with the signed token, the issued refresh token and an expiry exactly 86400 seconds after now |
| AuthMiddleware.Authenticate | server/internal/auth/middleware.go:17-47 | 401 with "Missing Authorization header" for an empty header, with the format error unless it splits on ' ' into exactly two parts whose first lower-cases to "bearer", with the token error when validation fails; forwarded iff all pass, and every rejection is 401 |
| AuthMiddleware.SplitBearer | server/internal/auth/middleware.go:25 | `strings.Split` of `scheme + " " + token` gives back the two halves when neither holds a space |
| AuthMiddleware.BearerFormatExactly | server/internal/auth/middleware.go:25-31 | the accepted headers are exactly `scheme + " " + token` with no other space and a scheme that lower-cases to "bearer", both directions |
| AuthMiddleware.SpaceCountRejected | server/internal/auth/middleware.go:25-29 | a non-empty header without exactly one space gets the format error |
| AuthMiddleware.ForwardClaims | server/internal/auth/middleware.go:39-45 | a well-formed header with a valid token forwards its `user_id` and `role` claims, "" where a claim is missing or not a string |
| AuthMiddleware.GetUserId | server/internal/auth/middleware.go:49-54 | the string stored under the user-id key, and "" when nothing or a non-string is stored |
| WsTypes.StringAt | server/internal/auth/middleware.go:39-40 | `v, _ := m[key].(string)`: the string under the key, and "" when it is absent or not a string |
| WsHandler.ExtractToken | server/internal/chat/handler.go:28-34 | a header starting, in any ASCII case, with "bearer " gives its text after the seventh character; any other header is ignored and the `token` query parameter is used |
| WsHandler.BearerPrefixBytes | server/internal/chat/handler.go:30-31 | the seven characters that lower-case to "bearer " are single-byte, so cutting seven characters is the same as Go's `auth[7:]`, which cuts seven bytes |
| WsHandler.Decide | server/internal/chat/handler.go:35-44 | 401 "missing token" for an empty token, 401 "invalid token" when validation fails or yields an empty id; admitted iff the token is non-empty and validates to a non-empty user id, which is the admitted id |
| WsHandler.NoTokenSkipsValidator | server/internal/chat/handler.go:35-38 | with no token the validator is never consulted: any two validators give the same refusal |
| WsHandler.BearerHeaderWins | server/internal/chat/handler.go:30-31 | a bearer header makes the query parameter irrelevant |
| WsHandler.BareBearerRefused | server/internal/chat/handler.go:30-37 | a header that is only the prefix is refused as a missing token, whatever the query holds |
| WsHandler.OtherHeaderIgnored | server/internal/chat/handler.go:32-34 | any two non-bearer headers give the same decision |
| WsHandler.Serve | server/internal/chat/handler.go:25-64 | a refused request leaves the hub unchanged; an admitted one registers exactly one new client for the user, with no subscriptions, and queues the hub's greeting (when it sends one) followed by the `conn.ack` welcome |
| Presence.TouchKey | server/internal/presence/presence.go:20-22 | the key `presence:<room>:<user>`: it starts with the room's prefix and has the summed length |
| Presence.ScanPattern | server/internal/presence/presence.go:30 | the SCAN pattern `presence:<room>:*`, whose literal part prefixes every key `Touch` writes for that room |
| Presence.UserOfKey | server/internal/presence/presence.go:44-55 | a key yields a user iff it has a ':' that is not its last character; the user is the non-empty, colon-free text after the last ':' |
| Presence.LastColon | server/internal/presence/presence.go:46-52 | the backward loop finds the index of the last ':', or -1 when there is none |
| Presence.TouchKeyRoundTrip | server/internal/presence/presence.go:20-55 | a non-empty user id without ':' comes back out of the key `Touch` writes for it |
| Presence.UsersOfKeys | server/internal/presence/presence.go:44-56 | at most one user per key |
| Presence.UsersOfKeysAppend | server/internal/presence/presence.go:44-56 | the users of `a + b` are those of `a` followed by those of `b` |
| Presence.UsersOfKeysFrom | server/internal/presence/presence.go:44-56 | every listed user is the text after the last ':' of some scanned key |
| Presence.ExtractUsers | server/internal/presence/presence.go:44-56 | the second loop returns exactly the users of the keys, in key order |
| Presence.AppendUser | server/internal/presence/presence.go:46-55 | one step of that loop appends the key's user when it has one |
| Presence.LastCall | server/internal/presence/presence.go:32-42 | the reply that ends the scan is the first error or zero cursor, and no earlier reply ends it |
| Presence.ListResult | server/internal/presence/presence.go:25-58 | an error iff some reply up to the ending one is an error; otherwise no more users than keys scanned |
| Presence.List | server/internal/presence/presence.go:25-58 | the SCAN loop and the extraction loop together return the first error, or the users of every page's keys in order |
| Presence.LastCallIs | server/internal/presence/presence.go:32-42 | the first ending reply is the one the scan stops at |
| Presence.PageKeysPrefix | server/internal/presence/presence.go:37 | the keys gathered from the first n pages depend on those pages only |
| Presence.ListStops | server/internal/presence/presence.go:38-41 | replies after the ending one are never read: appending any further replies leaves the result unchanged |
| ServerMain.GetEnv | server/cmd/main.go:172-177 | the variable's value when it is set and non-empty, the default otherwise; a non-empty default gives a non-empty result |
| ServerMain.JwtValidator | server/cmd/main.go:127-137 | a validation error is passed through; a missing, non-string or empty `user_id` claim gives "user_id missing in token"; otherwise the claim, which is non-empty |
| ServerMain.WsAdmission | server/cmd/main.go:127-140 | wired into the websocket handler, a request is admitted iff its token validates with a non-empty string `user_id`, and is admitted as that user |
| ServerMain.CorsHeaders | server/cmd/main.go:193-200 | the three common headers always, `Access-Control-Allow-Origin` (the origin) and `Vary: Origin` iff the origin is one of the two dev origins, and no other header |
| ServerMain.OtherOriginNotAllowed | server/cmd/main.go:194-200 | any other origin gets exactly the three common headers |
| ServerMain.ResponseWriter.constructor | server/cmd/main.go:191-192 | a response with no headers, no status and no handler call yet |
| ServerMain.ResponseWriter.Set | server/cmd/main.go:195-200 | `Header().Set` replaces the value under its key only |
| ServerMain.ResponseWriter.WriteHeader | server/cmd/main.go:203 | records the status written |
| ServerMain.SetOriginHeaders | server/cmd/main.go:193-197 | adds the origin headers for an allowed origin and nothing otherwise |
| ServerMain.SetCommonHeaders | server/cmd/main.go:198-200 | adds the three common headers |
| ServerMain.WithCors | server/cmd/main.go:191-208 | the CORS headers are merged into the response on every request; a preflight is answered 204 without calling the wrapped handler, any other method calls it exactly once and writes no status itself |
| StripComments.ShouldExclude | server/stripcomments/main.go:94-112 | no patterns exclude nothing; otherwise a path is excluded iff some pattern matches the whole path or its base name |
| StripComments.IsDirectiveCorrect | server/stripcomments/main.go:115 | the hand-written recogniser accepts exactly the texts that `^\s*//\s*(?:\+build\|go:build\|go:[A-Za-z0-9_]+)` matches at their start, both directions |
| StripComments.IsDirectiveSound | server/stripcomments/main.go:115 | every accepted line has the spaces, "//", spaces and directive word the pattern asks for |
| StripComments.IsDirectiveComplete | server/stripcomments/main.go:115 | every line the pattern matches is accepted |
| StripComments.TopEnd | server/stripcomments/main.go:123-141 | the scan stops at the first line that is neither blank nor a `//` comment, or at the end |
| StripComments.TopEndIs | server/stripcomments/main.go:123-141 | that stopping line is unique |
| StripComments.Kept | server/stripcomments/main.go:126-137 | at most one kept line per scanned line |
| StripComments.KeptAppend | server/stripcomments/main.go:123-141 | the kept lines of `a + b` are those of `a` followed by those of `b` |
| StripComments.KeptFrom | server/stripcomments/main.go:126-137 | every kept line is an input line, unchanged, that is blank or a directive comment |
| StripComments.TopDirectives | server/stripcomments/main.go:118-143 | the directives are the kept lines before the first code line, and the rest is the lines from there joined by '\n' |
| StripComments.ExtractTopDirectives | server/stripcomments/main.go:118-143 | the loop returns exactly `TopDirectives` of the source |
| StripComments.ScanLine | server/stripcomments/main.go:124-140 | one line stops the scan iff it is code; otherwise it is kept iff it is blank or a directive comment |
| StripComments.NoCodeNoRest | server/stripcomments/main.go:142 | a file of blank lines and comments leaves nothing for the parser |
| StripComments.RestIsTheTail | server/stripcomments/main.go:119-142 | nothing is lost: the source is the scanned lines, one '\n', then the rest (and the rest is the whole source when the first line is code) |
| StripComments.DirectivesHaveNoNewline | server/stripcomments/main.go:119 | the directive lines come from splitting on '\n', so none contains one |
| StripComments.Terminated | server/stripcomments/main.go:171-174 | a header line is written ending in '\n', with one added only when it has none |
| StripComments.HeaderText | server/stripcomments/main.go:169-180 | an empty header writes nothing |
| StripComments.WriteHeader | server/stripcomments/main.go:169-180 | the header loop writes every line terminated, then one more '\n' unless the joined header already ends in "\n\n" |
| StripComments.WriteLine | server/stripcomments/main.go:171-174 | one header line goes into the buffer terminated |
| StripComments.TerminatedAllJoin | server/stripcomments/main.go:170-175 | for lines without '\n', the loop writes their '\n'-join followed by one '\n' |
| StripComments.HeaderEndsInBlankLine | server/stripcomments/main.go:169-180 | a non-empty header of directive lines always ends in a blank line before the body |
| StripComments.BlankLineAfter | server/stripcomments/main.go:177-179 | a text, a '\n', and one more unless the text already ends in "\n\n", always ends in "\n\n" |
| StripComments.ProcessOutput | server/stripcomments/main.go:145-185 | with the flag off the output is the formatted source; with it on, the header text followed by the formatted rest; an error exactly when formatting the parsed text fails |
| StripComments.ProcessFile | server/stripcomments/main.go:145-185 | `processFile` produces exactly `ProcessOutput` |
| ChatService.CheckContent | server/internal/chat/service.go:55-87 | accepted iff the trimmed text has 1 to 4000 bytes; the value is the trimmed text, the error "invalid content" |
| ChatService.CheckContentStable | server/internal/chat/service.go:55-58 | accepted text passes the check again unchanged, and neither starts nor ends in white space |
| ChatService.CheckEdit | server/internal/chat/service.go:83-104 | content, then lookup, then deleted, author and 15-minute window, each with its error, including "edit window has expired" for the author's live message older than 15 minutes; accepted iff all hold, with the trimmed text |
| ChatService.ReasonOut | server/internal/chat/service.go:141-145 | the reason reported is the trimmed reason, and absent exactly when that is blank |
| ChatService.CheckDelete | server/internal/chat/service.go:117-153 | a missing row is an error; a deleted row answers with its stored time and reason whoever asks; otherwise only the author deletes, at `now`, with the trimmed reason |
| ChatService.DeleteIdempotent | server/internal/chat/service.go:124-138 | after one delete, any second delete by anyone answers with the first time and the raw reason the first one stored |
| ChatService.MessagesQuery | server/internal/chat/service.go:73-81 | the room and limit are passed through; a `before` cursor that is empty or does not parse as a UUID is dropped |
| ChatService.EnsureDM | server/internal/chat/service.go:162-169 | a DM with oneself is refused with "cannot DM yourself" before the repository is asked; otherwise the repository answers |
| ChatService.EnsureMemberOrPublic | server/internal/chat/service.go:175-192 | let in iff the user is a participant or the room has no participants; otherwise "forbidden: not a participant" |
| ChatService.Service.constructor | server/internal/chat/service.go:31 | an empty store |
| ChatService.Service.CreateRoom | server/internal/chat/service.go:33-48 | a trimmed name under 3 bytes is refused and nothing is written; otherwise exactly one room, with the trimmed name, is stored |
| ChatService.Service.SendMessage | server/internal/chat/service.go:54-71 | refused content writes nothing; accepted content stores exactly one live message with the trimmed text |
| ChatService.Service.EditMessage | server/internal/chat/service.go:83-115 | only an accepted edit writes, and it changes that message's content and edit time only |
| ChatService.Service.DeleteMessage | server/internal/chat/service.go:117-153 | missing and forbidden write nothing; an already deleted row is answered unchanged; otherwise that row alone is soft-deleted with the raw reason while the answer carries the trimmed one |
| ChatService.DeleteTwice | server/internal/chat/service.go:117-153 | once a delete succeeds, a second one succeeds with the same deletion time, and with the first caller's raw reason when the first call did the deleting |
| Hub.NewServerEvent | server/internal/ws/events.go:19-27 | a server envelope carries the given type, sender, recipient and payload, no correlation id, and the current time |
| Hub.AddTo | server/internal/ws/hub.go:386-394 | adding to a set-valued index creates the set when missing, adds only to that key, and never leaves an empty set |
| Hub.RemoveFrom | server/internal/ws/hub.go:396-406 | removing from a set-valued index touches only that key, deletes the set when it becomes empty, and changes nothing for an unknown key |
| Hub.AddToIdempotent | server/internal/ws/hub.go:386-394 | subscribing twice is the same as subscribing once |
| Hub.RemoveUndoesAdd | server/internal/ws/hub.go:386-406 | unsubscribing right after a fresh subscribe restores the index exactly |
| Hub.Unlink | server/internal/ws/hub.go:156-163 | after leaving every channel in a set, the client is out of those channels, emptied channels are gone and all other channels are unchanged |
| Hub.UnlinkStep | server/internal/ws/hub.go:156-163 | each turn of the channel loop of `removeClient` is one `RemoveFrom` |
| Hub.UnlinkRemovesAll | server/internal/ws/hub.go:141-164 | when a client's subscriptions cover every channel that lists it, the loop removes it from all of them and no empty set remains |
| Hub.Client.constructor | server/internal/ws/client.go:28-37 | a new client has the given id and user, no subscriptions and nothing queued |
| Hub.SendEach | server/internal/ws/hub.go:364-369 | every target gets exactly one copy, except the one whose id is excluded, which gets none |
| Hub.UserIndexedAdd | server/internal/ws/hub.go:120-131 | registering a client keeps the user index consistent with the set of clients |
| Hub.UserIndexedRemove | server/internal/ws/hub.go:141-154 | unregistering keeps it consistent and leaves the client under no user |
| Hub.LinkedShrink | server/internal/ws/hub.go:156-163 | dropping members from channels keeps every member linked to its channel |
| Hub.Registry.constructor | server/internal/ws/hub.go:38-52 | `NewHub`: empty client set and empty indexes, which satisfy the registry invariant |
| Hub.Registry.AddClient | server/internal/ws/hub.go:120-139 | the client is registered, indexed under its user only when the user id is non-empty, and (in this hub) queued a `conn.ack` carrying its id; the invariant is kept |
| Hub.Registry.JoinUser | server/internal/chat/ws/hub.go:89-94 | the user half of `addClient`: indexed only under a non-empty user id |
| Hub.Registry.RemoveClient | server/internal/chat/ws/hub.go:99-120 | the client leaves the client set, its user set and each channel of its subscriptions, emptied sets are deleted, it is afterwards listed nowhere, and the invariant is kept |
| Hub.Registry.LeaveUser | server/internal/chat/ws/hub.go:103-110 | the user half of `removeClient` |
| Hub.Registry.LeaveChannels | server/internal/chat/ws/hub.go:111-119 | the channel loop of `removeClient` over the client's subscriptions |
| Hub.Registry.Subscribe | server/internal/chat/ws/hub.go:204-212 | membership is recorded in the channel index and in the client's subscriptions; the invariant is kept |
| Hub.Registry.Unsubscribe | server/internal/chat/ws/hub.go:215-225 | membership is removed both ways, deleting an emptied channel; an unknown channel only clears the client's side |
| Hub.Registry.LeaveChannel | server/internal/chat/ws/hub.go:218-223 | `delete(set, c)` on one channel, deleting the set when it becomes empty |
| Hub.Registry.FirstClientIdForUser | server/internal/ws/hub.go:58-67 | the id of some connection of the user, and "" when the user has none |
| Hub.Registry.FirstClientForUser | server/internal/ws/hub.go:423-432 | some connection of the user iff the user has one |
| Hub.Registry.BroadcastAll | server/internal/chat/ws/hub.go:145-151 | every registered client gets one copy |
| Hub.Registry.BroadcastToUser | server/internal/chat/ws/hub.go:154-165 | reports whether the user has an entry, and exactly that user's connections get one copy |
| Hub.Registry.BroadcastToChannel | server/internal/chat/ws/hub.go:169-182 | each subscriber of the channel gets one copy except the excluded id; an unknown channel sends nothing |
| HubRouting.Stamp | server/internal/ws/hub.go:170-172 | an event with a server timestamp is unchanged; one without gets `now` and nothing else changes |
| HubRouting.RecipientsOfUser | server/internal/chat/ws/hub.go:137-139 | under the registry invariant, an event addressed to a user with an entry reaches exactly that user's registered connections |
| HubRouting.TypingDropped | server/internal/ws/hub.go:178-180 | typing with an empty sender or target queues nothing anywhere |
| HubRouting.TypingFanout | server/internal/ws/hub.go:177-211 | otherwise each subscriber of the target gets one copy with the same type and payload, except the skipped connection; nobody else gets anything |
| HubRouting.MembershipNotice | server/internal/ws/hub.go:214-259 | when a connection of the sender exists and `To` is set, every connection of the sender, and nobody else, is told `channel.subscribed` or `channel.unsubscribed` |
| HubRouting.ChatMessageFanout | server/internal/ws/hub.go:262-277 | the legacy `chat.message` goes, stamped, to the subscribers of `To` only |
| HubRouting.MessageSendFanout | server/internal/ws/hub.go:280-325 | an accepted `message.send` reaches every subscriber of its room, the sender's connections included, as one `message.created` that echoes the temporary id, room and content, with the sender as author named "User"; a send without sender, room or content reaches nobody |
| HubRouting.DefaultBroadcast | server/internal/ws/hub.go:327-330 | any other type is broadcast by `To`, stamped |
| HubRouting.RouteEvent | server/internal/ws/hub.go:168-331 | one routing step: clients and user index unchanged, the channel index changed only by a membership case that acted, the acting connection's `subscriptions` gaining or losing `To` while every other client's stay the same, every client's queue extended by exactly what `Deliver` says, and the invariant kept |
| HubRouting.RouteTyping | server/internal/ws/hub.go:177-211 | the typing cases, skipping one connection of the sender |
| HubRouting.RouteMembership | server/internal/ws/hub.go:214-259 | the membership cases: one connection of the sender joins or leaves the channel, in the channel index and in its own `subscriptions`, no other client's `subscriptions` change, and the sender's connections are told |
| HubRouting.ActOnMembership | server/internal/ws/hub.go:215-233 | the act-and-notify step of those cases: a connection acts iff the sender has one and `To` is set; it gains or loses `To` in both the channel index and its `subscriptions`, other clients' `subscriptions` stay, and each of the sender's connections gets one notice |
| HubRouting.ApplyMembership | server/internal/ws/hub.go:214-259 | `Subscribe` for `channel.subscribe`, `Unsubscribe` for `channel.unsubscribe`: the channel index and the client's `subscriptions` gain or lose `To` together |
| HubRouting.RouteChatMessage | server/internal/ws/hub.go:262-277 | the legacy case, delivered as `Deliver` says |
| HubRouting.RouteSend | server/internal/ws/hub.go:280-325 | the `message.send` case, delivered as `Deliver` says |
| HubRouting.RouteDefault | server/internal/ws/hub.go:327-330 | the fallback case, delivered as `Deliver` says |
| HubRouting.Broadcast | server/internal/ws/hub.go:70-79 | everybody for an empty `To`, else the user's connections when the user has an entry, else the channel's subscribers, one copy each |
| HubRouting.ChatRouteEvent | server/internal/chat/ws/hub.go:123-142 | stamp, then the same `To`-based broadcast |
| Emoji.StripJoiners | client/lib/emoji.ts:12 | the global replace leaves no variation selector or zero-width (non-)joiner |
| Emoji.StripJoinersKeeps | client/lib/emoji.ts:12 | it keeps every other character, in order, and every occurrence of it |
| Emoji.ToneIndex | client/lib/emoji.ts:6-13 | the search stops at the first skin-tone modifier, or at the end when there is none |
| Emoji.RemoveFirstTone | client/lib/emoji.ts:13 | the replace without `g` deletes exactly the first skin tone, and changes nothing when there is none |
| Emoji.RemoveFirstToneCount | client/lib/emoji.ts:13 | exactly one skin tone disappears when there is one, so any later ones survive |
| Emoji.DeleteToneCount | client/lib/emoji.ts:13 | deleting a skin tone lowers the count by one |
| Emoji.NormalizeEmoji | client/lib/emoji.ts:8-14 | empty input gives ""; the result contains no joiner or selector |
| Emoji.NormalizeEmojiSpec | client/lib/emoji.ts:8-14 | the result is a subsequence of the input, never longer, with one skin tone fewer than the stripped text when it had any |
| Emoji.SecondToneKept | client/lib/emoji.ts:13 | thumbs-up with a light and a medium tone becomes thumbs-up with the medium tone |
| MockMessages.MockCount | client/lib/mockMessages.ts:4-7 | the loop runs `count` times, 250 by default, and not at all for a count that is not positive |
| MockMessages.GenerateMockMessages | client/lib/mockMessages.ts:4-27 | message `i` has id `<room>-<i+1>`, the room, the i-th author and content, a timestamp `(count - i)` minutes before now, and type "user" |
| MockMessages.MockIdsDistinct | client/lib/mockMessages.ts:11-12 | the ids are pairwise distinct and every message carries the room |
| MockMessages.MockTimes | client/lib/mockMessages.ts:8 | timestamps rise strictly in one-minute steps, the last one a minute before now |
| MockMessages.MockAuthors | client/lib/mockMessages.ts:9-15 | the author is "me" iff `i % 3 == 0`; otherwise "u2", named Avi for odd and Neha for even `i` |
| AppShell.InsertSorted | client/components/layout/AppShell.tsx:38-40 | one insertion step of the time sort: one longer, the same multiset plus the new message |
| AppShell.InsertSortedSorted | client/components/layout/AppShell.tsx:38-40 | inserting into a list ascending by `createdAt` keeps it ascending |
| AppShell.SortByCreated | client/components/layout/AppShell.tsx:38-40 | the `createdAt` sort returns a permutation of its input, ascending by `createdAt` |
| AppShell.SortStable | client/components/layout/AppShell.tsx:38-40 | the sort is stable: messages with equal `createdAt` keep their relative order |
| AppShell.IndexOfId | client/components/layout/AppShell.tsx:32 | `findIndex` by id: the first index carrying the id, or the length when none does |
| AppShell.ApplyInsert | client/components/layout/AppShell.tsx:31-41 | a known id is replaced at its index and nothing else changes; a new id is appended and the list comes out sorted and a permutation of the old list plus the message |
| AppShell.ApplyInsertStable | client/components/layout/AppShell.tsx:38-40 | with a new id, messages created at the same instant keep the order of `arr + [m]` |
| AppShell.ApplyInsertCount | client/components/layout/AppShell.tsx:31-41 | on a list with unique ids, exactly one entry carries the inserted id afterwards |
| AppShell.TempIndex | client/components/layout/AppShell.tsx:129 | the optimistic entry's index: found only for a non-empty `tempId` equal to that entry's id |
| AppShell.CreatedInto | client/components/layout/AppShell.tsx:128-134 | a found `tempId` is replaced in place by the server message with no re-sort; otherwise the message goes through `applyInsert` |
| AppShell.OnCreated | client/components/layout/AppShell.tsx:125-137 | only the event's bucket changes, and it is created when absent |
| AppShell.CreatedIntoTwice | client/components/layout/AppShell.tsx:125-137 | a bucket given the same `message.created` twice is as after once and holds the server id exactly once |
| AppShell.CreatedIdempotent | client/components/layout/AppShell.tsx:125-137 | a repeated `message.created` leaves the state unchanged and leaves exactly one entry with the server id |
| AppShell.OnUpdated | client/components/layout/AppShell.tsx:140-151 | an unknown id or room leaves the state as it was; otherwise only `content` and `editedAt` of the first matching entry change |
| AppShell.RemoveId | client/components/layout/AppShell.tsx:157 | the filter keeps exactly the entries with another id |
| AppShell.RemoveIdAppend | client/components/layout/AppShell.tsx:157 | the filter keeps order: it distributes over concatenation |
| AppShell.OnDeleted | client/components/layout/AppShell.tsx:153-160 | every entry with the id leaves the event's bucket, and the other buckets are untouched |
| AppShell.OnTypingStart | client/components/layout/AppShell.tsx:162-169 | ignored outside the current room; a user already present stays as they were; a new user is stored under `name`, or "Someone" when it is empty |
| AppShell.OnTypingStop | client/components/layout/AppShell.tsx:171-180 | ignored outside the current room; removes only that user |
| AppShell.TypingStartStop | client/components/layout/AppShell.tsx:162-180 | start followed by stop for a user who was absent gives back the original map |
| AppShell.UrlLikeRoomIgnored | client/components/layout/AppShell.tsx:61-63 | a room id that contains `://` is never added as `room_id` |
| AppShell.Reduce | client/components/layout/AppShell.tsx:117-185 | typing events touch only the typers; `hello`, `conn.ack`, errors and typing events leave the messages as they are |
| AppShell.Shell.constructor | client/components/layout/AppShell.tsx:86-88 | starts with no messages, no typers and status `offline` |
| AppShell.Shell.StartEffect | client/components/layout/AppShell.tsx:104-188 | the effect connects with the built URL (a new connecting socket and a `connecting` notification when the URL is non-empty, nothing otherwise), adds exactly its two callbacks to the listener sets, copies the manager's status and clears the typers; the outbox, pending retries, backoff, ping timer, dispatched frames and messages are untouched |
| AppShell.Shell.Cleanup | client/components/layout/AppShell.tsx:190-195 | the cleanup removes both of the effect's listeners and then disconnects, so the shell never hears `offline`: its status, typers and room stay as they were, and the manager is stopped, offline and socket-less, with its ping cleared, its backoff reset, the old socket detached and closing, and its outbox, url and pending retries kept; the `offline` notice goes only to the listeners left after the shell's own was removed |
| AppShell.Shell.OnStatusNotified | client/components/layout/AppShell.tsx:112-115 | the status listener copies the manager's status |
| AppShell.Shell.OnEvent | client/components/layout/AppShell.tsx:117-185 | one event listener call is one reducer step, judged against the effect's room |
| AppShell.Shell.SendMessage | client/components/layout/AppShell.tsx:199-220 | the optimistic message goes in through `applyInsert` whatever the send returns; the command is sent when the socket is open, and queued otherwise |
| AppShell.SendThenEcho | client/components/layout/AppShell.tsx:129-134 | the server's echo of a sent message finds the optimistic entry by its `tempId` and replaces it, so no duplicate is added |
| ChatPage.Pow2AtLeast16 | client/app/chat/page.tsx:98 | from the fourth close on, `2 ** attempts` is at least 16, so the cap of 15000 applies |
| ChatPage.ReconnectDelays | client/app/chat/page.tsx:97-99 | the reconnect delays are 2000, 4000, 8000, then 15000 for every later close |
| ChatPage.LegacySocket.constructor | client/app/chat/page.tsx:64-67 | the hook starts `connecting`, with no socket, an empty queue, no attempts and reconnecting enabled |
| ChatPage.LegacySocket.Connect | client/app/chat/page.tsx:69-104 | `connect`: status `connecting` and a new current socket; a URL the constructor throws on gives status `error` and no socket |
| ChatPage.LegacySocket.Start | client/app/chat/page.tsx:106-108 | the effect turns reconnecting on and connects |
| ChatPage.LegacySocket.Cleanup | client/app/chat/page.tsx:109-112 | the cleanup turns reconnecting off and closes only the current socket; scheduled reconnects stay pending |
| ChatPage.LegacySocket.Send | client/app/chat/page.tsx:116-121 | a frame goes out on an OPEN current socket and is queued otherwise |
| ChatPage.LegacySocket.SocketOpened | client/app/chat/page.tsx:78-86 | on open: status `open`, attempts reset, and the whole queue sent in order |
| ChatPage.LegacySocket.SocketError | client/app/chat/page.tsx:92 | `onerror` sets status `error` |
| ChatPage.LegacySocket.SocketClosed | client/app/chat/page.tsx:93-100 | on close: status `closed`; with reconnecting on, the attempt count goes up and a reconnect is scheduled with that attempt's delay |
| ChatPage.LegacySocket.FireRetry | client/app/chat/page.tsx:99 | a scheduled reconnect calls `connect` and is consumed, even after the cleanup |
| ChatPage.ThreeCloses | client/app/chat/page.tsx:93-100 | three closes after one another schedule reconnects after 2000, 4000 and 8000 ms |
| ChatPage.OnHistory | client/app/chat/page.tsx:323-325 | `history` replaces the list, with `mine` recomputed for every message against the current user |
| ChatPage.OnMessage | client/app/chat/page.tsx:326-327 | `message` appends the message with its `mine` flag and keeps the rest, with no dedupe |
| ChatPage.OnAck | client/app/chat/page.tsx:328-329 | `ack` gives the server id, and the `createdAt` when one is sent, to every message with that `tempId`; the others are untouched |
| ChatPage.OnTypingName | client/app/chat/page.tsx:333-337 | a typing name is added once: the list stays free of duplicates and holds the old names plus the new one |
| ChatPage.ExpireName | client/app/chat/page.tsx:338 | the 3 s expiry removes every copy of the name and nothing else |
| ChatPage.ClassNames | client/app/chat/page.tsx:54-56 | `classNames` joins the truthy items with single spaces, and is empty exactly when every item is falsy |
| ChatPage.Kept | client/app/chat/page.tsx:55 | `filter(Boolean)` drops `false`, `null`, `undefined` and "": a string is kept iff it is non-empty and some item holds it, and all-truthy input keeps every item |
| ChatPage.KeptSingle | client/app/chat/page.tsx:55 | one item is kept, as its string, exactly when it is a non-empty string |
| ChatPage.KeptAppend | client/app/chat/page.tsx:55 | the filter distributes over concatenation, so the kept items are the truthy items in input order |
| ChatPage.JoinEmpty | client/app/chat/page.tsx:55 | joining non-empty strings gives "" only for the empty list |
| ChatPage.Shell.constructor | client/app/chat/page.tsx:309-313 | the shell starts with no messages and no typing names |
| ChatPage.Shell.OnFrame | client/app/chat/page.tsx:321-344 | each frame kind applies its reducer; a typing frame from another user shows the name and schedules its expiry; one from the current user changes nothing |
| ChatPage.Shell.FireExpiry | client/app/chat/page.tsx:338 | a pending expiry removes its name and is consumed |
| ChatPage.Shell.JoinOnOpen | client/app/chat/page.tsx:347-351 | the room is joined only when the hook reports `open`: the join frame goes out on an OPEN socket, and is queued (socket untouched) otherwise; another status sends and queues nothing |
| ChatPage.Shell.OnSend | client/app/chat/page.tsx:353-367 | the optimistic message `temp-<tempId>` is appended as `mine`, then the frame with that `tempId` is appended to the OPEN socket's sent frames, or else queued with the sockets untouched |
| ChatPage.Shell.OnTyping | client/app/chat/page.tsx:369-378 | a typing frame goes out only when more than 1500 ms have passed since the last one (with `last` starting at 0, the first call sends for any clock past 1500 ms): on an OPEN socket it is transmitted, otherwise queued; a throttled call changes nothing |
| ChatPage.AckReplacesOptimistic | client/app/chat/page.tsx:328-366 | the ack for a sent message gives the optimistic entry the server id and leaves every other entry as it was |
| ChatPage.TypingNamesDistinct | client/app/chat/page.tsx:333-338 | typing names stay distinct through announcements and expiries, and an expiry removes only its own name |
| MessageList.AvatarUrl | client/components/messages/MessageList.tsx:69 | only rows that are not mine get an avatar |
| MessageList.MsgRow | client/components/messages/MessageList.tsx:63-70 | the message row carries the message and its id |
| MessageList.RowsAt | client/components/messages/MessageList.tsx:45-70 | one message pushes between one and three rows |
| MessageList.RowsAtEnd | client/components/messages/MessageList.tsx:63-70 | a message's rows end with its message row |
| MessageList.RowsAtLast | client/components/messages/MessageList.tsx:49-70 | a message's rows carry exactly that message |
| MessageList.RowsAtMine | client/components/messages/MessageList.tsx:25-58 | `mine` holds exactly when the trimmed, lower-cased author id equals the normalised `meId` |
| MessageList.RowsAtHeader | client/components/messages/MessageList.tsx:24-61 | the header is hidden exactly when there is a previous message whose author id and this one's are both non-empty, agree once normalised, and are less than 5 minutes apart |
| MessageList.RowsAtAvatar | client/components/messages/MessageList.tsx:35-69 | only other people's rows carry an avatar, seeded by the username, else the author id, else "user" |
| MessageList.RowsAtDay | client/components/messages/MessageList.tsx:48-51 | a day divider `day-<id>` opens a message's rows exactly when it is the first message or starts a new day |
| MessageList.RowsAtNew | client/components/messages/MessageList.tsx:53-56 | a `new-<id>` marker stands just before the message row exactly when the message is the non-empty anchor |
| MessageList.PushRows | client/components/messages/MessageList.tsx:45-70 | one loop iteration pushes exactly that message's rows |
| MessageList.BuildRows | client/components/messages/MessageList.tsx:40-73 | the loop returns every message's rows, message after message, with `meId` normalised |
| MessageList.ListRows | client/components/messages/MessageList.tsx:92-96 | an empty `meId` gives no rows; otherwise the message rows carry exactly the items, in order |
| MessageList.RowsCarryMessages | client/components/messages/MessageList.tsx:40-73 | every message gets exactly one message row, in input order |
| MessageList.RowsPrefix | client/components/messages/MessageList.tsx:44-71 | the rows for a prefix of the messages are a prefix of the rows |
| MessageList.RowsBlocks | client/components/messages/MessageList.tsx:44-71 | the i-th block of the rows is what the loop pushes for message i |
| MessageList.FirstRow | client/components/messages/MessageList.tsx:48-51 | a non-empty list's rows open with the day divider of its first message |
| MessageList.RowsAtPrefix | client/components/messages/MessageList.tsx:45-46 | a message's rows depend only on it and the message before it |

## Findings

| source | as written | input that shows it | evidently intended | confidence | as-written member | corrected member |
|---|---|---|---|---|---|---|
| server/internal/auth/repository.go:44-72 | `Signup` calls `CreateUser` (service.go:39), which writes only the `users` table. `Login` finds users through `users_by_email` and `users_by_username` (repository.go:74-117). Only `ReserveEmail` and `ReserveUsername` (repository.go:167-185) fill those tables, and nothing calls them | sign up "alice", "alice@example.com", "secret1", then log in as "alice" with "secret1": the answer is "User not found" | sign-up also enters the new id under its e-mail and its username, so the user can log in at once | medium, not executed | AuthService.SignupThenLoginAsWritten (with AuthService.Service.Signup) | AuthService.SignupThenLogin (with AuthService.Service.SignupIndexed) |

## Left out

Outside the model, by kind:

- **Concurrency.** The hubs' `Run` select loop, their channels and locks, `Shutdown`, `drainAndClose` and `SafeSend`'s overflow handling (close and unregister) are concurrency. Registration, unregistration and routing are sequential method calls, and a client's send channel is an outbox that can always grow.
- **Socket and HTTP I/O.**
  - The read and write pumps, ping deadlines and the websocket upgrade are socket I/O.
  - The rest of `WSHandler` after registration is goroutine wiring.
  - The id of a new chat client is a parameter, because server/internal/chat/ws/client.go is not part of this model.
- **Storage.**
  - Each database and Redis call becomes an abstract map or a given reply.
  - SCAN's cursor and count arguments are not modelled: the replies come in call order.
  - The presence key's TTL is not modelled.
  - Repository errors other than "not found" are not modelled.
  - Persisting a `message.send` (`persistMessage`, and its `persist_failed` error) is not modelled.
  - The hub's `Presence.Touch` calls are not modelled.
- **Missing repository code.** The chat repository methods the service calls are not part of the source, so the model assumes their behaviour:
  - each of them reads or writes the abstract store;
  - a missing row gives the error "not found";
  - `ListRooms` and `IsParticipant` are plain look-ups;
  - the repository's limit defaulting is left out.
- **Library calls and parameters.**
  - Cryptography, JWT signing and validation, `filepath.Match` and `filepath.Base`, Go's parser and printer, and `encodeURIComponent` are uninterpreted parameters.
  - So are UUID generation and parsing, `crypto.randomUUID`, the `tempId` maker and the fresh refresh-token id.
  - A parse that yields an empty AST is folded into the `format` parameter's error.
- **Clocks.** `Date.now`, `new Date()` and `time.Now` are integer parameters.
  - The mock generator's ISO timestamp is the millisecond value it is printed from.
  - The chat page's and AppShell's `createdAt` are integer timestamps.
- **Case and white space.**
  - `toLowerCase` and `strings.ToLower` are modelled on ASCII letters only. For the "bearer" comparisons this is exact.
  - Go and JavaScript trimming follow their own white-space sets.
  - In `presence.go` Go indexes bytes where the model indexes characters; ':' is a single byte, so the last-colon split is the same.
- **URL building.** `buildWsUrl`'s URL building is not modelled: the built URL is a parameter of the connection effect. Only its `room_id` predicate is modelled.
  - The chat page's `new URL(url)` is a flag saying whether the constructor throws.
  - The manager's `new WebSocket` is never given a malformed URL.
- **User interface.** React rendering, refs, scrolling, the virtualiser, `MessageItem` and the other components are rendering and DOM, not logic.
  - The author of the mock messages as a display name is not modelled.
  - Re-running effects on every re-render is not modelled. In particular the chat page's `onTyping` closure is re-created with each new `send`, which the model does not follow.
- **The legacy `chat.message` case.** In server/internal/ws/hub.go its payload's UUID parsing and time formatting are parameters. The RFC 3339 `createdAt` text of `message.created` is a parameter too.
- **Server wiring.** The router setup in server/cmd/main.go is not modelled, because its `ws.NewHub(persist, lookup)` call does not match the constructor in server/internal/ws/hub.go. `withCORS` is modelled on its own.
- **Other files.** lib/time.ts becomes the abstract day key and label. The fetch and localStorage helpers, the WebRTC hook, the commented-out DM hook, auth/handler.go and utils are UI or I/O outside the core.
  - The directory walk of server/stripcomments/main.go is file-system I/O and is not modelled: skipping the `.git`, `vendor`, `node_modules`, `.idea` and `.vscode` directories, the `.go` suffix filter, the "skip" and "wrote" messages, the printed `// ----- path -----` banners and the in-place `os.WriteFile`. The model starts from one file's text.
- **Frame shape.** `cb(parsed as ServerEvent)` in client/lib/ws.ts is an unchecked cast. The model has no decoding from the parsed JSON to a typed event: AppShell's reducers receive well-typed events, so a frame with a `type` but the wrong fields is not modelled.

Member-specific notes:

- WsManager.WSManager.SocketMessage: does not model two behaviours of the `onmessage` handler. A Blob frame is dispatched only after `await e.data.text()`, so a later string frame can reach the listeners first, and a Blob read can finish after `disconnect()` has detached the handler; the model dispatches each frame at once, in arrival order, and only while the handlers are attached. The fan-out loop sits inside the `try`, so a listener that throws stops the remaining listeners; the model's listeners never throw, and every listener receives each accepted frame.
- WsManager.WSManager.Open: does not model a `new WebSocket` that throws on a malformed URL. `open()` has no `catch`, so the exception would leave `connect` with the status already `connecting`; the model assumes a well-formed URL.
- ChatService.MessagesQuery: parsing the `before` cursor is an uninterpreted parameter, not Go's UUID grammar.
- AuthService.Service.Login: does not model failures of `GenerateJWT`, `GenerateRefreshToken` or `SaveRefreshToken`, which are library or database errors. The signed token and the refresh token are parameters.
- Hub.Registry.AddClient: a full send buffer never drops the welcome `conn.ack`, because `SafeSend`'s overflow path is concurrency outside the model.
- AuthService.Service.Signup: does not model failures of `HashPassword`, of `UserExists` or of the insert, which are library or database errors.
