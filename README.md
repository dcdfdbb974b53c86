# BrainBridge core, modelled in Dafny

BrainBridge is a FastAPI backend with a Svelte frontend where users post ideas,
like them, comment on them and chat. This project models its core:

- the WebSocket chat registry and the chat handler;
- JWT issuance and identity checks;
- the register, login, refresh and admin handlers;
- the CRUD layer over three MongoDB collections: ideas, users and comments;
- the pydantic schemas behind them;
- the test FIFO message queue of `backend/main.py`;
- the browser-side logic that stores tokens in cookies.

Every async call is modelled as one sequential step. Python exceptions become
`Err` values of `Outcomes.Result`.

Module layout:

- `Outcomes`: Option, Result, and the exceptions a handler can let escape.
- `ObjectIds`: bson ObjectIds as numbers below 16^24.
  - `ObjectId.is_valid` on a string is modelled as exactly 24 hexadecimal characters. The whitespace case is left out (see "## Left out").
  - `str(oid)` gives 24 lower-case hex digits.
- `Tables`: one MongoDB collection as a class.
  - It holds a map from `_id` to document, plus the natural (insertion) order.
  - Operations: `insert_one`, `find`, `find_one`, `update_one` and `delete_one`.
  - It also defines the array operators `$addToSet` and `$pull`.
- `IdeaModels`, `UserModels` and `CommentModels`: the pydantic models.
  - Field bounds are predicates.
  - Stored documents and API views are datatypes.
  - `model_validate` is a function that returns None where pydantic raises.
- `IdeaCrud`, `UserCrud` and `CommentCrud`: the three CRUD files.
  - They are methods on a `Table` the caller passes in.
  - The id of an inserted document is a parameter `newId` that is not yet in the table.
- `Primitives`: PyJWT and pwdlib, as records of functions passed in by the caller.
  - What the model relies on is stated as ghost predicates: `JwtCodec.RoundTrips`, `Hasher.Sound`, `Hasher.Discriminating` and `Hasher.EmbedsSalt`.
  - The hasher is salted: `hash` takes the random salt drawn for the call, and `saltOf` reads the salt back out of an encoded hash.
  - Lemmas take these predicates as hypotheses.
- `Auth`: `backend/internals/auth.py`. The clock is an integer `now` in seconds.
- `AuthRouter`: `backend/routers/auth.py`, with the defaults of `backend/settings.py` as constants.
- `ChatRegistry`: `backend/internals/chat.py`.
  - A socket is a handle that records whether it was accepted and the frames sent to it.
  - The registry is a class holding the username-to-socket map.
- `ChatRouter`: `backend/routers/chat.py`.
  - The JSON objects the socket receives are given as a sequence.
  - How the receive loop ends (the client disconnects, or some other error) is a parameter.
  - The result of `get_current_user_ws` is a parameter `Option<UserGet>`. No file of this model defines that function.
- `MessageQueue`: the module-level `messages` list of `backend/main.py`, as a class.
- `TokenCookies`: `frontend/src/lib/api/token.ts`.
  - The js-cookie store is a class holding a map.
  - A cookie whose lifetime is over is simply absent.

### Where the code cannot run as written

Many call sites cannot run as they stand. The model captures the evident
decision logic, and the doc comment of the member concerned says what the
code does instead. The cases:

- `backend/internals/auth.py` does not import `datetime`, `timezone`, `HTTPException` or `status`. The model supplies them.
- `authenticate_user` (line 64), `get_current_user` (line 85) and `register` (lines 24 and 26) call async lookups without awaiting them.
- `register` does not await `create_user` (line 29 of `backend/routers/auth.py`). No user is stored and the handler returns the coroutine object. `AuthRouter.Register` models the awaited call.
- `refresh` does not await `get_user_by_email` (line 65 of `backend/routers/auth.py`). The coroutine is always truthy, so the "User does not exist" branch at line 67 never fires. `AuthRouter.ResolveRefresh` models the awaited lookup, and that branch is intent, not behaviour.
- Line 66 of `backend/internals/auth.py` and line 43 of `backend/routers/auth.py` test the argument instead of the lookup's result.
- Line 69 of `backend/internals/auth.py` reads the password from a `UserGet`, which has no password field. The model reads the stored hash.
- `decode_token` is not imported into `backend/routers/auth.py` (line 59).
- `auth_user` is undefined at lines 71-72 of `backend/routers/auth.py`.
- login and refresh:
  - pass the email string where `create_token` expects a dict;
  - pass a setting read from the Settings class, not the instance, as a bare number of minutes or days.

  The model passes `{"sub": email}` and the lifetime in seconds.
- `user.isAdmin` (line 89 of `backend/routers/auth.py`) does not exist: the field is `is_admin`.
- `UserGet.id` is an `int` without the `_id` alias. The model gives it the stored ObjectId.
- `Comment` and `CommentFilter` are imported from `backend/models/comment.py`, which does not define them. Their fields are inferred from their use.
- `UserLogin` is imported from `backend/models/user.py`, which does not define it. Its fields are taken from their use: `email` and `password`.
- `backend/routers/comments.py:37` calls `create_comment(user_id, username, comment)` with three arguments. `create_comment` (`backend/crud/comments.py:15`) takes two, so the call raises a TypeError. `CommentCrud.CreateComment` models the two-argument function.
- `backend/crud/user.py:18` passes `exclude=["id"]`, a list, to `model_dump`. Pydantic 2 types `exclude` as a set or a mapping, and pydantic-core rejects other types with a TypeError. No version is pinned here. If that rejection applies, `create_user` fails before any insert. `UserCrud.CreateUser` models the intended dump without `id`.

## Model

| member | source | states |
|---|---|---|
| ObjectIds.Parse | backend/crud/ideas.py:44-47 | `ObjectId(s)` yields an id exactly when `ObjectId.is_valid(s)` holds: 24 hexadecimal characters, ignoring the whitespace case |
| ObjectIds.ToString | backend/models/idea.py:6 | `str(oid)` is a valid id string of 24 lower-case hex digits |
| ObjectIds.ParseToString | backend/models/idea.py:6 | printing an id and parsing the result gives back the same id |
| ObjectIds.ToStringParse | backend/models/idea.py:6 | a valid lower-case id string is exactly the print of the id it parses to |
| Tables.AddToSetContains | backend/crud/ideas.py:145-148 | after `$addToSet` the element is present exactly once if it was absent, and nothing else is added |
| Tables.AddToSetIdempotent | backend/crud/ideas.py:145-148 | liking twice leaves the array as liking once does |
| Tables.PullRemovesAll | backend/crud/ideas.py:174-177 | `$pull` leaves no occurrence, and every other element keeps its multiplicity |
| Tables.PullAppend | backend/crud/ideas.py:174-177 | `$pull` works element by element: pulling from a concatenation is concatenating the pulls, so the kept elements stay in order |
| Tables.PullIdempotent | backend/crud/ideas.py:174-177 | pulling twice leaves the array as pulling once does |
| Tables.PullAfterAddToSet | backend/crud/ideas.py:145-177 | like then unlike leaves what unlike alone leaves |
| Tables.Table.Find | backend/crud/ideas.py:68-72 | the cursor holds each stored document that passes the filter, and only those |
| Tables.Table.FindOne | backend/crud/user.py:42 | `find_one` is None exactly when no document matches, and otherwise returns a stored match |
| Tables.Table.FindOneIsFirst | backend/crud/user.py:42 | no document before the one `find_one` returns, in natural order, matches |
| Tables.Table.InsertOne | backend/crud/ideas.py:27 | the document is stored under the new id, added last in natural order, and nothing else changes |
| Tables.Table.UpdateOne | backend/crud/user.py:85-87 | matched_count is 1 exactly for a stored id; modified_count is 0 when the operator leaves the document unchanged; other documents are kept |
| Tables.Table.DeleteOne | backend/crud/ideas.py:202-203 | deleted_count is 1 exactly when the id is stored and the rest of the filter holds; only then is the document removed |
| IdeaModels.NewIdeaCreate | backend/models/idea.py:34-45 | `long_description` defaults to None and `likedByUser` to [] |
| IdeaModels.ValidateIdea | backend/models/idea.py:14-27 | a stored idea validates exactly when its title has 1-200 characters, its description is non-empty and every link has a non-empty url and text; its id is str(_id), every other field is the stored one, and images default to [] |
| IdeaModels.CreatedIdeaValidates | backend/models/idea.py:14-45 | a valid IdeaCreate reads back as an Idea with the same fields and `images` defaulted to [] |
| IdeaModels.IdeaGetIsProjection | backend/models/idea.py:52-61 | IdeaGet keeps exactly id, title, user_id, description and likedByUser of the Idea |
| IdeaModels.EmptyTitleInvalidates | backend/models/idea.py:68-83 | IdeaUpdate does not repeat the title bound: setting an empty title makes a valid stored idea fail validation |
| UserModels.NewUser | backend/models/user.py:15-21 | `is_admin` defaults to False and the other fields are the given ones |
| UserModels.ValidateUserGet | backend/models/user.py:27-36 | a stored user validates exactly when the username has at least 3 characters, the email at least 5, and name and surename 1-100; the result carries the stored id and every stored field but the password |
| UserModels.StoredUserValidates | backend/models/user.py:11-36 | a valid User, stored with any password hash, reads back as UserGet: User minus password |
| CommentModels.ToCommentInDB | backend/models/comment.py:7-20 | a comment is a CommentInDB exactly when `_id`, `user_id` and `created_at` are present and the content has 1-2000 characters |
| IdeaCrud.UpdateInvalidatesOnlyThroughTitleOrDescription | backend/models/idea.py:68-83 | after an update whose links pydantic accepted, a valid stored idea fails validation exactly when the supplied title is empty or over 200 characters, or the supplied description is empty |
| IdeaCrud.ApplySetSetsSuppliedFields | backend/crud/ideas.py:106-119 | `$set` writes each supplied field and keeps each unsupplied one; supplying nothing changes nothing; setting twice equals setting once |
| IdeaCrud.ReadIdea | backend/crud/ideas.py:47-51 | None exactly for an absent id; a ValidationError exactly when the stored document fails validation |
| IdeaCrud.CreateIdea | backend/crud/ideas.py:16-30 | the idea is dumped without None fields and stored under the new id; what is returned is what reads back from the new id |
| IdeaCrud.GetIdea | backend/crud/ideas.py:34-51 | None for a malformed id, otherwise the stored idea under that id |
| IdeaCrud.GetIdeas | backend/crud/ideas.py:54-74 | for a filter whose links pydantic accepted: None for an empty filter; otherwise each matching idea in natural order; raises exactly when some match fails validation |
| IdeaCrud.GetAllIdeas | backend/crud/ideas.py:77-88 | every stored idea appears, in natural order, in its IdeaGet view |
| IdeaCrud.EveryIdeaIsListed | backend/crud/ideas.py:85-86 | the list read from the full cursor holds every stored idea |
| IdeaCrud.UpdateIdea | backend/crud/ideas.py:92-129 | for an update whose links pydantic accepted: None with the table unchanged for a malformed id, an empty update or an absent id; otherwise `$set` on exactly that document and the updated idea returned |
| IdeaCrud.LikeIdea | backend/crud/ideas.py:132-158 | None with the table unchanged for a malformed or absent id; otherwise `$addToSet` on likedByUser of that document only |
| IdeaCrud.UnlikeIdea | backend/crud/ideas.py:161-186 | None with the table unchanged for a malformed or absent id; otherwise `$pull` on likedByUser of that document only |
| IdeaCrud.DeleteIdea | backend/crud/ideas.py:190-203 | False with the table unchanged for a malformed id; otherwise True exactly when the idea existed, only that id leaves the documents and the natural order, and afterwards get_idea gives None |
| UserCrud.ReadUser | backend/crud/user.py:32-35 | None exactly for an absent id; a ValidationError exactly when the stored document fails validation |
| UserCrud.ReadFirst | backend/crud/user.py:42-47 | None exactly when no user matches; otherwise the match that comes first in natural order, validated; an error only when that first match fails validation |
| UserCrud.CreateUser | backend/crud/user.py:14-24 | the user is stored without `id`, with the hash of the password under the drawn salt in place of the password, and read back as UserGet; stored passwords stay hashes |
| UserCrud.GetUser | backend/crud/user.py:27-37 | None for a malformed or absent id, otherwise the stored user |
| UserCrud.GetUserByUsername | backend/crud/user.py:40-47 | None exactly when no stored user has the username; otherwise the first stored user with it in natural order |
| UserCrud.GetUserByEmail | backend/crud/user.py:50-60 | None exactly when no stored user has the email; otherwise the first stored user with it in natural order |
| UserCrud.GetAllUsers | backend/crud/user.py:63-70 | every stored user in natural order as UserGet; raises exactly when one fails validation |
| UserCrud.HashPassword | backend/crud/user.py:82-83 | a supplied password is replaced by its hash under the drawn salt and every other field is kept |
| UserCrud.UserSetSetsSuppliedFields | backend/crud/user.py:80-85 | `$set` writes each supplied field, with the password hashed, and keeps each unsupplied one; an empty update changes nothing |
| UserCrud.FreshSaltChangesDocument | backend/crud/user.py:82-85 | a password hashed under a salt other than the stored hash's always changes the document, even when it is the same password |
| UserCrud.UpdateUser | backend/crud/user.py:73-92 | None for a malformed or absent id; otherwise `$set`, and the updated user only when the document changed; with a freshly salted hash, a supplied password always gives the updated user; stored passwords stay hashes |
| UserCrud.DeleteUser | backend/crud/user.py:95-102 | False for a malformed id; otherwise True exactly when the user existed, only that id leaves the documents and the natural order, and afterwards get_user gives None |
| CommentCrud.CreateComment | backend/crud/comments.py:15-30 | `user_id` is overwritten with the creator's id; the non-None fields are stored under the new id and returned with that id as a string |
| CommentCrud.CreatedCommentIsNotInDB | backend/crud/comments.py:25-30 | create_comment never sets `created_at`, so a comment created without one is never a CommentInDB |
| CommentCrud.GetComments | backend/crud/comments.py:33-53 | None for an empty filter; otherwise every matching comment in natural order |
| CommentCrud.MatchesAreRead | backend/crud/comments.py:47-51 | every stored comment that matches the filter is in the list read from the cursor |
| CommentCrud.DeleteComment | backend/crud/comments.py:56-71 | InvalidId for a malformed id; otherwise True exactly when a comment with that id and owner existed, which alone is removed from the documents and the natural order |
| CommentCrud.DeleteCommentAsWritten | backend/crud/comments.py:66-71 | as written, the delete runs on the empty sub-collection `comments.collection` and never returns True or touches `comments` |
| CommentCrud.OwnerDeleteScenario | backend/crud/comments.py:66-71 | the owner's delete of a fresh comment gives False as written and True as intended |
| Auth.ClaimDict.Copy | backend/internals/auth.py:27 | `data.copy()` is a new dict with the same entries |
| Auth.ClaimDict.Update | backend/internals/auth.py:34 | `update` adds the entries, replacing those with the same key |
| Auth.EncodedClaims | backend/internals/auth.py:27-34 | the encoded claims are the input claims plus `exp`; every other claim is kept |
| Auth.ExpiryDefaults | backend/internals/auth.py:29-32 | `exp` is now + delta for a non-zero delta, and now + 30 minutes for a missing or zero one |
| Auth.CreateToken | backend/internals/auth.py:22-38 | the token encodes the caller's claims plus `exp`; the caller's dict is not modified |
| Auth.DecodeToken | backend/internals/auth.py:41-46 | every failure is one of PyJWT's decode errors |
| Auth.DecodeCreatedToken | backend/internals/auth.py:35-46 | a token created for plain claims decodes to its claims plus `exp` before its expiry, and fails as expired from then on |
| Auth.AuthenticateUser | backend/internals/auth.py:59-72 | None when no user has the email or the password does not verify against the stored hash; otherwise the user found by email |
| Auth.WrongPasswordRejected | backend/internals/auth.py:69-70 | with a discriminating hasher, a password other than the stored one never authenticates |
| Auth.Bearer | backend/internals/auth.py:77-92 | decode errors propagate; a wrong `type` gives 401 with the invalid message; a `sub` naming no user gives 401 with the missing message; otherwise that user |
| Auth.GetCurrentUser | backend/internals/auth.py:75-92 | 401 "Invalid token" exactly when the claims lack `type` "access"; 401 "User not found" exactly when `sub` names no stored user; otherwise that user |
| AuthRouter.IssueTokens | backend/routers/auth.py:46-49 | the pair encodes the email with type "access" for 30 minutes and with type "refresh" for one day |
| AuthRouter.RegisterCheck | backend/routers/auth.py:24-27 | 409 "Email already taken" exactly when the email exists; only otherwise 409 "Username already taken" when the username exists; no error exactly when neither exists |
| AuthRouter.Register | backend/routers/auth.py:22-31 | a user is created only when both checks pass, and can then authenticate with the password it registered with |
| AuthRouter.LoginUser | backend/routers/auth.py:41-44 | 401 "Incorrect email or password" exactly when authentication gives None |
| AuthRouter.Login | backend/routers/auth.py:39-49 | login returns a new token pair for the authenticated user's email |
| AuthRouter.ResolveRefresh | backend/routers/auth.py:59-68 | 401 "Invalid refresh token" exactly when the claims lack `type` "refresh"; 401 "User does not exist" exactly when `sub` names no stored user |
| AuthRouter.Refresh | backend/routers/auth.py:57-73 | refresh returns a new token pair for the user the refresh token names |
| AuthRouter.Admin | backend/routers/auth.py:87-92 | `{"ok": True}` exactly when the user is an admin |
| AuthRouter.AdminOnlyForStoredAdmins | backend/routers/auth.py:87-92 | admin answers ok exactly for a token whose subject is stored with `is_admin` set |
| AuthRouter.AccessTokenAccepted | backend/routers/auth.py:46-47 | an issued access token names its user to get_current_user until it expires, and fails as expired after |
| AuthRouter.RefreshTokenAccepted | backend/routers/auth.py:59-73 | an issued refresh token is accepted by refresh until it expires, and fails as expired after |
| AuthRouter.TokenKindsAreNotInterchangeable | backend/routers/auth.py:61-62 | a refresh token never passes get_current_user and an access token never passes refresh |
| AuthRouter.LoginAsWritten | backend/routers/auth.py:46-49 | as written, login's tokens carry only `sub` and `exp` |
| AuthRouter.WrittenTokensNeverAccepted | backend/internals/auth.py:79-82 | a token issued for claims without `type` is refused by both get_current_user and refresh |
| ChatRegistry.Socket.Accept | backend/internals/chat.py:32 | the socket is accepted and nothing is sent |
| ChatRegistry.Socket.SendText | backend/internals/chat.py:71 | the frame is appended to what the socket has been sent |
| ChatRegistry.InjectiveOneKey | backend/internals/chat.py:70-71 | a socket registered under one key only receives one frame per broadcast |
| ChatRegistry.NewSocketOneKey | backend/internals/chat.py:34 | a socket registered under a new name, and under no other key, holds exactly that one key |
| ChatRegistry.Registry.ConnectUser | backend/internals/chat.py:22-34 | the socket is accepted, then registered under the username (last write wins), and every other key is kept |
| ChatRegistry.Registry.DisconnectUser | backend/internals/chat.py:37-46 | the username is removed if present, nothing happens otherwise, and every other key is kept |
| ChatRegistry.Registry.Broadcast | backend/internals/chat.py:49-71 | each registered socket is sent the `{username, message}` frame once per key it holds; the registry is unchanged |
| ChatRegistry.Registry.SendTo | backend/internals/chat.py:70-71 | one turn of the loop sends the frame to the socket under that key and to no other, adding one copy for that key to its count |
| ChatRegistry.DisconnectIdempotent | backend/internals/chat.py:46 | disconnecting twice equals disconnecting once, and every other entry is kept |
| ChatRouter.ConnectionName | backend/routers/chat.py:30-34 | the resolved user's username, or "guest" when resolving raised |
| ChatRouter.MissingMessageIsEmpty | backend/routers/chat.py:46 | an object without "message" is broadcast with "", one with it with its message |
| ChatRouter.FramesInOrder | backend/routers/chat.py:44-48 | one frame per received object, in receive order, under the connection's name |
| ChatRouter.StutterOnce | backend/internals/chat.py:70-71 | a socket under one key receives each broadcast frame exactly once, in order |
| ChatRouter.ReceiveLoop | backend/routers/chat.py:43-48 | each registered socket gets the frames of the received objects in receive order, once per key it holds; the registry is unchanged |
| ChatRouter.ReceiveOne | backend/routers/chat.py:45-48 | one received object adds its frame, once per key, to what every registered socket has received; the registry is unchanged |
| ChatRouter.Serve | backend/routers/chat.py:41-48 | the connection is registered under its name and receives its own frames once each; a socket it replaced is sent nothing |
| ChatRouter.Chat | backend/routers/chat.py:19-50 | registration under the resolved name or "guest", one broadcast per object in order, and the name removed on disconnect only |
| ChatRouter.SharedNameScenario | backend/routers/chat.py:41-50 | when the earlier of two same-name connections disconnects, it removes the later one's entry |
| MessageQueue.Queue.GetMessage | backend/main.py:30-36 | 204 "No messages left on the stack" on an empty queue, which stays empty; otherwise the oldest message, removed |
| MessageQueue.Queue.AddMessage | backend/main.py:39-42 | the message is appended at the tail and echoed back with status "success" |
| MessageQueue.FirstInFirstOut | backend/main.py:30-42 | messages come out in the order they went in, and then GET fails with 204 |
| TokenCookies.GetTokens | frontend/src/lib/api/token.ts:16-35 | null without a refresh cookie; "expired_cookie" as access token without an access cookie; otherwise both cookies unchanged |
| TokenCookies.CookieJar.SetTokens | frontend/src/lib/api/token.ts:11-14 | both cookies are set and every other cookie is kept; with non-empty tokens, getTokens then returns the pair |
| TokenCookies.CookieJar.Logout | frontend/src/lib/api/token.ts:37-40 | both cookies are removed, every other cookie is kept, and getTokens then returns null |
| TokenCookies.CookieJar.Expire | frontend/src/lib/api/token.ts:12-13 | when a cookie's lifetime ends, only that cookie disappears |
| TokenCookies.SetThenGet | frontend/src/lib/api/token.ts:11-35 | what setTokens stores reads back as the pair; an empty refresh token reads back as null and an empty access token as the placeholder |
| TokenCookies.LogoutThenGet | frontend/src/lib/api/token.ts:16-40 | after logout getTokens returns null whatever else is stored |
| TokenCookies.AccessExpiredThenGet | frontend/src/lib/api/token.ts:24-29 | once the access cookie has expired, the refresh token comes back with "expired_cookie" |
| TokenCookies.RefreshStart | frontend/src/lib/api/token.ts:42-55 | refresh stops with "Cannot refresh tokens. No refresh token is set." exactly when getTokens gives null, and otherwise sends the tokens |
| TokenCookies.ValidateStart | frontend/src/lib/api/token.ts:70-81 | validate gives false exactly when getTokens gives null, and otherwise sends the access token as bearer |
| TokenCookies.NoRefreshCookieNoRequest | frontend/src/lib/api/token.ts:16-22 | without a refresh cookie, neither refresh nor validate sends a request |

## Left out

- Async and concurrency: every await is one sequential step. Races between broadcasts, and between a broadcast and a connect or disconnect, are not modelled.
- The WebSocket transport: accept, receive, close, and the JSON serialisation of frames. A frame is kept as its two fields.
- MongoDB itself and `backend/crud/mongodb_connector.py`: each collection is an in-memory `Tables.Table`. There are no network errors and no write concerns.
- empty updates: `update_one` with an empty `$set` is modelled as a no-op that modifies nothing. This is what current MongoDB servers do; older ones raise.
- generated ids: MongoDB generates ObjectIds, and the model takes the new id as a parameter `newId` that is not yet stored.
- JWT signing and verification (PyJWT) and password hashing and verification (pwdlib): `Primitives.JwtCodec` and `Primitives.Hasher` are parameters. `verify_password` and `get_password_hash` are their `verify` and `hash`.
  - What PyJWT guarantees is a hypothesis (`RoundTrips`), not a proof.
  - Auth.DecodeCreatedToken: stated only for plain claims (`Primitives.Plain`). Claims with `aud`, `nbf` or `iat`, a non-integer `exp`, or a non-string `sub` or `jti` make PyJWT's decode raise, and the model says nothing about them. Every token this code issues carries plain claims.
  - The random salt of each `hash` call is a parameter. UserCrud.UpdateUser promises the updated user for a supplied password only when that salt differs from the one in the stored hash. A fresh 16-byte salt equals the stored one only with negligible probability.
  - `decode_token` on a token the codec did not produce is left abstract.
- The clock: `datetime.now` is an integer parameter `now` in seconds. `exp` is kept as a whole number of seconds.
- `backend/settings.py`: environment variables are not read, and the defaults are constants. `REFRESH_TOKEN_EXPIRE_DAYS` reads the `ACCESS_TOKEN_EXPIRE_MINUTES` variable at line 27. The model uses its default of one day.
- The secret key and the algorithm: they are fixed inside the codec parameter.
- `me` (backend/routers/auth.py:81-83) returns get_current_user's result unchanged, so it needs no member of its own.
- The email syntax check behind `EmailStr`: only the length bounds are modelled.
- UserCrud.UpdateUser: the dump at line 80 uses only `exclude_unset`, so a field sent explicitly as null keeps its key. A `password` sent as null reaches `get_password_hash(None)` at line 83, and the argon2 hasher raises there, before any `$set`. Any other field sent as null is written as null by `$set`. The model treats both as unsupplied, because its Option fields cannot tell null from absent, so it leaves out this error path and the null writes.
- get_current_user_ws (backend/routers/chat.py:12) is not part of this model. Its result is the parameter `resolved`, None where it raises.
- `print(username)` in chat (backend/routers/chat.py:39) writes to standard output only. It changes no state the model tracks, so it is left out.
- the `Failed` ending of chat: an error other than WebSocketDisconnect ends the handler and leaves the name registered. A client reaches it by sending a frame that is not JSON, since `receive_json` raises. The server then closes that socket, but the name stays registered. Each later `broadcast` would reach the closed socket at backend/internals/chat.py:71, where `send_text` raises in the sender's handler and the loop stops partway. The model's socket stays accepted and keeps receiving frames. Closing sockets, and sends failing on a closed socket, are not modelled.
- The cookie lifetimes of `frontend/src/lib/api/token.ts`: the float max-age values at lines 7-8 are left out, because their arithmetic is floating point. Expiry is an explicit `CookieJar.Expire` step.
- js-cookie's encoding of cookie values: a value is stored and read back unchanged.
- The network parts of `refresh` and `validate` (token.ts lines 49-67 and 76-88): they are I/O, and only the decision to send a request is modelled.
- CommentCrud.CreateComment: python mutates the caller's Comment in place (`comment.user_id = user_id`). The model returns the changed comment instead. It also requires a comment without an id, as a new comment from the request body has.
- `ObjectId.is_valid` also accepts 12-byte `bytes` and ObjectId instances. Every call site here passes a string, so only the string case is modelled.
- ObjectIds.Parse: for a 24-character string, bson decodes with `bytes.fromhex`, which skips ASCII whitespace between digit pairs. Such a string (two spaces and 22 hex digits, say) passes `is_valid` and yields a shorter id. The model treats it as malformed and does not model what the crud functions then do with the short id.
- The HTTP routers for ideas and comments (`backend/routers/ideas.py`, `backend/routers/comments.py`): they map None to 404 and are not part of this model.
- The frontend fetch wrappers, stores and page loaders: network I/O, with no decision logic.

## Findings

| source | as written | input that shows it | evidently intended | confidence | as-written member | corrected member |
|---|---|---|---|---|---|---|
| backend/routers/auth.py:46-49 | login and refresh issue tokens whose claims are only the email and `exp`; `create_token` never adds `type`, and get_current_user (backend/internals/auth.py:79) and refresh (line 61) demand it | any successful login, followed by a request carrying its access token or a refresh with its refresh token: both are refused with 401 | access tokens carry `type` "access" and refresh tokens `type` "refresh", so each is accepted by its own check until it expires | high, not executed | AuthRouter.WrittenTokensNeverAccepted | AuthRouter.AccessTokenAccepted |
| backend/crud/comments.py:66 | delete_comment deletes from `comments.collection`, the sub-collection named "comments.collection", which nothing writes to | a comment created by user u, deleted by u with its own id: the result is False and the comment stays | delete from `comments` itself, removing the comment when both id and owner match | high, not executed | CommentCrud.OwnerDeleteScenario | CommentCrud.DeleteComment |
