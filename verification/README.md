# Meadowlark relay core in Dafny

Meadowlark is a point-to-point chat relay. Users register an account and log
in for a token. With that token they open a WebSocket session. The server
routes each message a session sends to the current session of its
recipient. Message content is opaque bytes, encrypted end to end by the
clients.

This project models the routing core of that server and proves properties
of it:

- `Hub` (internal/server/hub.go) is one sequential loop that owns the
  registry (username to current session) and every session's bounded
  outbound channel (capacity 256). Each iteration takes one register,
  unregister or forward event. It is modelled as a pure step function over
  an immutable state. Channels are queues with a closed flag. The
  non-blocking send is a capacity test. Go's panics on channel misuse are an
  explicit `Panic` outcome.
- `HubFindings` models hub.go exactly as written, next to the corrected
  `Hub.Step`, and proves where the two differ (see Findings).
- `Session` (internal/server/client.go) covers the read pump's per-frame
  normalisation, the read pump over a sequence of reads, and the write pump
  draining its channel.
- `Protocol` (internal/protocol/message.go) defines the routed envelope:
  recipient, sender, opaque content bytes.
- `Gateway` (internal/server/server.go) covers `Authorization` header
  parsing, token selection, admission before registration, and the
  path/content-type rules for static files.
- `Auth` (internal/auth/auth.go) covers registration's ordered input
  checks with hex key decoding, and the error shapes of login and
  public-key lookup.
- `Relay` composes gateway, session and hub end to end.
- Helper modules: `Bytes` (Go's `[]byte(s)` and `len(s)` as UTF-8
  encoding), `Hex` (`encoding/hex`), `GoStrings` (`strings.Split`,
  `HasPrefix`, `TrimPrefix`, `filepath.Ext`) and `Wrappers`.

Outside collaborators become parameters:

- token validation: `validate: string -> Result<string, string>`;
- the outcome of bcrypt hashing: `hashed`;
- bcrypt comparison: `matches`;
- `os.Stat`: `stat`;
- `json.Marshal`: `marshal`;
- the outcome of each transport write: `writeOk`;
- the outcome of the WebSocket upgrade: `upgraded`.

A decoded inbound frame is an input datatype.

How the source is read:

- hub.go:30 closes `cleint.send`. This is read as `client.send`, the
  unregistering session's channel.
- Three other points do not compile as written, and none changes the
  modelled logic:
  - the protocol import path at hub.go:3 differs from the one at client.go:7;
  - the `Email` field is declared twice (server.go:44, 46);
  - `LoginRequest` is declared twice (server.go:51, 63).
- The hub's intended behaviour is to close a displaced session's channel
  and to remove an entry only for that same session. The code does neither
  (hub.go:26, 28). `Hub.Step` implements the intended behaviour and is the
  hub the rest of the model uses. `HubFindings.StepAsWritten` follows the
  code.

## Model

| member | source | states |
|---|---|---|
| Bytes.Utf8 | internal/server/client.go:50-51 | Go's `[]byte(s)`: at least one and at most four bytes per character. Exactly one byte per character iff the string is ASCII, and then each byte is the character code. |
| Bytes.DecodeUtf8RoundTrip | internal/server/client.go:51 | Converting string content to bytes loses nothing: decoding the bytes as UTF-8 gives the string back. |
| Bytes.Utf8OfDecoded | internal/server/client.go:51 | Conversely, every valid UTF-8 byte sequence is exactly the conversion of the string it decodes to. |
| Bytes.Utf8Injective | internal/server/client.go:51 | Distinct string contents become distinct byte contents. |
| Hex.Decode | internal/auth/auth.go:61-66 | `hex.DecodeString` succeeds iff the string has even length and only `[0-9a-fA-F]`. It then yields one byte per digit pair, high digit first. |
| Hex.DecodeEncode | internal/auth/auth.go:62 | Decoding the hex encoding of any key gives that key back. |
| GoStrings.Split | internal/server/server.go:146 | `strings.Split` on a space always gives at least one part, and no part contains the separator. |
| GoStrings.JoinSplit | internal/server/server.go:146 | Joining the parts of a split with the separator gives back the original header. |
| GoStrings.SplitJoin | internal/server/server.go:146 | Splitting a join of separator-free parts gives back exactly those parts. |
| GoStrings.TrimPrefix | internal/server/server.go:234 | Exactly one leading copy of the prefix is removed when present, and nothing otherwise. |
| GoStrings.Ext | internal/server/server.go:263 | `filepath.Ext` is empty, or it is a suffix of the path that starts with its only dot and has no slash. |
| GoStrings.ExtEmpty | internal/server/server.go:263 | The extension is empty iff the final path element has no dot. |
| GoStrings.ExtOfSuffix | internal/server/server.go:263-270 | A path ending in `.js` (or any dotted suffix without further dot or slash) has that suffix as extension. |
| Hub.CloseQueue | internal/server/hub.go:30 | `close` keeps the buffered messages and marks the channel closed, touching no other channel. Closing a closed channel is a panic, and only that is. |
| Hub.Route | internal/server/hub.go:32-41 | Forwarding to an absent user is a no-op. Forwarding never panics on an open channel and never adds a registry key. Only the recipient's channel may change. |
| Hub.Install | internal/server/hub.go:25-26 | Corrected: After registration the registry is the old one with the session's username mapped to the session. The session's channel exists. |
| Hub.Remove | internal/server/hub.go:27-31 | Corrected: Unregistering a session that is not current for its user changes nothing. Unregistering the current session deletes exactly its entry and closes its channel. |
| Hub.DrainIsContents | internal/server/client.go:79-83 | Receiving from a channel until nothing more is delivered yields exactly its buffered messages, oldest first. The last receive reports the close iff the channel was closed, and would block otherwise. |
| Hub.Receive | internal/server/client.go:79-83 | The write pump's receive yields the oldest buffered message, even after close. Only a closed, drained channel reports the close. A receive never changes the registry. |
| Hub.RegisterInstalls | internal/server/hub.go:25-26 | Corrected: Registering a new session maps its username to it and changes no other key. The session's channel is fresh. A displaced session's channel is closed. All other channels are unchanged. |
| Hub.UnregisterCurrent | internal/server/hub.go:27-31 | The current session's unregister deletes exactly its entry and closes its channel, keeping buffered messages. Nothing else changes. |
| Hub.UnregisterStale | internal/server/hub.go:28 | Corrected: An unregister for a user not registered, or from a session that is no longer current, changes nothing. |
| Hub.ForwardEnqueues | internal/server/hub.go:34-36 | A message for a present user with fewer than 256 waiting is appended at the back of that user's channel (FIFO). The registry and all other channels are unchanged. |
| Hub.ForwardEvicts | internal/server/hub.go:35-39 | A message for a user with a full channel does not block. That channel is closed, that entry is deleted, and nothing else changes. |
| Hub.ForwardIgnoresContent | internal/server/hub.go:34 | Routing reads the recipient only. Messages with the same recipient give the same registry and channels of equal length and closed state. |
| Hub.RegisterSound | internal/server/hub.go:25-26 | Corrected: Registering a session whose channel was just made keeps the hub sound and never panics. |
| Hub.UnregisterSound | internal/server/hub.go:27-31 | Corrected: Any unregister, current or stale, keeps the hub sound and never panics. |
| Hub.ForwardSound | internal/server/hub.go:32-41 | Forwarding any message, whether it is queued, evicts or is dropped, keeps the hub sound and never panics. |
| Hub.StepPreservesSound | internal/server/hub.go:22-44 | Corrected: On every admissible event the loop does not panic. It keeps four invariants: each key is its session's username; registered channels are open; no channel exceeds 256; every open channel belongs to a current session. |
| Hub.RunPreservesSound | internal/server/hub.go:22-44 | Corrected: Along any trace in which each session registers once, right after its channel is made, the hub never panics and stays sound. |
| HubFindings.AsWrittenPreservesValid | internal/server/hub.go:24-42 | As written, the loop keeps keys equal to usernames and registered channels open and bounded. It panics exactly on an unregister from a non-current session whose channel is already closed. |
| HubFindings.AsWrittenRegisterLeaksDisplaced | internal/server/hub.go:26 | As written, re-registering a user leaves the displaced session's channel open with no entry pointing at it. |
| HubFindings.AsWrittenStaleUnregisterEvictsNewer | internal/server/hub.go:28-30 | As written, a stale session's unregister deletes the current session's entry, while that session's channel stays open. |
| HubFindings.ForwardsFill | internal/server/hub.go:34-36 | `k` messages for a user with room for them land at the back of that user's channel in arrival order, under either loop. |
| HubFindings.ReplaceThenStaleUnregister | internal/server/hub.go:26-31 | Register alice#1, register alice#2, unregister alice#1. As written, no entry for alice remains, #2's channel is open and #1's own channel is closed. Corrected, alice maps to #2 and #1's channel is closed. |
| HubFindings.EvictedThenStaleUnregisterPanics | internal/server/hub.go:28-38 | Register alice#1, send 257 messages, register alice#2, unregister alice#1. As written this panics with "close of closed channel". Corrected, alice maps to #2. |
| Session.Normalize | internal/server/client.go:41-67 | A frame is forwarded iff it decoded and its content is a string or re-decodes as a message. The sender is the session's username and the recipient is copied. String content is exactly the string's bytes; other content is the re-decoded bytes. |
| Session.SenderClaimIgnored | internal/server/client.go:63-67 | The sender a frame claims never affects what is forwarded. |
| Session.FramesBeforeError | internal/server/client.go:32-39 | The frames handled are exactly those received before the first read error. |
| Session.ReadPump | internal/server/client.go:27-71 | Exactly the accepted frames before the first read error are forwarded, in order. The pump ends iff a read fails, and then sends exactly one unregister for itself, last. |
| Session.ReadPumpSenders | internal/server/client.go:63-69 | Every message the read pump hands to the hub carries the session's own username as sender. |
| Session.AcceptedSenders | internal/server/client.go:65 | Every message a session forwards carries that session's username as sender. |
| Session.WritePump | internal/server/client.go:73-95 | Writes the marshalled messages in order, skipping marshal errors. It stops at the first failing write and fails iff some write fails. It sends a close frame iff the channel is closed and no write failed. |
| Session.TextContentNotBase64Decoded | internal/server/client.go:50-51 | String content "aGk=" is forwarded as its four bytes, not base64-decoded to "hi". |
| Gateway.BearerToken | internal/server/server.go:146-149 | A token is found only in a header that is `Bearer`, one space and a token with no space. |
| Gateway.BearerTokenIff | internal/server/server.go:146-149 | The header yields token `t` iff it equals `"Bearer " + t` and `t` has no space. |
| Gateway.BearerTokenNone | internal/server/server.go:146-149 | A header is rejected iff it does not start with `Bearer ` or has another space after that prefix. |
| Gateway.LowerCaseSchemeRejected | internal/server/server.go:147 | `bearer abc` is rejected: the scheme must be exactly `Bearer`. |
| Gateway.DoubleSpaceRejected | internal/server/server.go:147 | `Bearer  abc` (two spaces) is rejected. |
| Gateway.ExtraPartRejected | internal/server/server.go:147 | `Bearer abc def` is rejected. |
| Gateway.SchemeAloneRejected | internal/server/server.go:147 | `Bearer` alone is rejected. |
| Gateway.WellFormedAccepted | internal/server/server.go:146-149 | `Bearer abc` yields the token `abc`. |
| Gateway.AuthenticateRequest | internal/server/server.go:140-157 | Each rejection has its own message: an empty header gives "authorization header required"; a malformed one gives "invalid authorization header format"; a refused token gives "invalid token: " plus the validator's error. Success iff the header is well formed and the token validates, and the username is the validator's. |
| Gateway.SelectToken | internal/server/server.go:179-188 | A non-empty query token wins. Otherwise the header's bearer token is used, and then the header is `"Bearer " + token`. The result is empty iff neither gives a non-empty token. |
| Gateway.HandleConnections | internal/server/server.go:177-208 | An empty token gives "Authentication token required" and a refused one "Invalid token". A failed upgrade makes no session. A session is made iff the token is non-empty, validates and the upgrade succeeds. Its username is exactly the validated one. |
| Gateway.RegisteredOnlyWhenAdmitted | internal/server/server.go:177-208 | The hub is sent a registration iff the token is non-empty, the validator accepts it and the upgrade succeeded. The registered session carries exactly the validated username. |
| Gateway.QueryTokenWins | internal/server/server.go:179-197 | An invalid query token is refused even if the header holds a valid one. |
| Gateway.ContentType | internal/server/server.go:263-273 | `.html`, `.js` and `.css` get their text types, and every other extension gets `application/octet-stream`. |
| Gateway.ServeStaticFiles | internal/server/server.go:217-276 | Any path with a reserved prefix is NotFound. A served file is a non-directory, either the requested one or the index, with the content type of its extension. A lookup of the requested file that fails other than by not existing gives an internal error with its message, never the index; an internal error only follows such a failure. |
| Gateway.ExistingFileServed | internal/server/server.go:234-275 | An existing non-directory outside the reserved prefixes is served from its own path, with the content type of its extension. |
| Gateway.IndexServed | internal/server/server.go:229-275 | A request that resolves to the index page serves `index.html` as HTML when that is a non-directory. |
| Gateway.RootIsIndex | internal/server/server.go:229-231 | `/` and the empty path serve `index.html` as HTML. |
| Gateway.MissingFallsBackToIndex | internal/server/server.go:238-249 | A missing non-index file falls back to `index.html` as HTML, or NotFound if that is missing or a directory. |
| Gateway.DirectoryNotFound | internal/server/server.go:257-260 | A directory is answered NotFound. |
| Gateway.ReservedByPrefixOnly | internal/server/server.go:219-224 | `/apiary` and `/wsdl.html` are NotFound: the reserved test is a plain string prefix. |
| Gateway.ScriptServedAsJavaScript | internal/server/server.go:263-268 | An existing `/<name>.js` outside the reserved prefixes is served as JavaScript. |
| Auth.StoredKey | internal/auth/auth.go:60-69 | An empty hex key stores NULL. A non-empty one is accepted iff it is valid hex, and then stores its decoded, non-empty bytes. |
| Auth.RegisterNewUser | internal/auth/auth.go:46-78 | Checks run in order: empty fields ("cannot be empty"), then fewer than 6 bytes, then a hashing error, then a bad key ("invalid public key format"). After those, any insert failure is "username already exists". Success adds exactly the new record. |
| Auth.VerifyUser | internal/auth/auth.go:81-99 | A database fault is passed on. Otherwise login succeeds iff the user exists and the hash matches, and every failure is "invalid username or password". |
| Auth.UnknownUserLooksLikeWrongPassword | internal/auth/auth.go:87-96 | An unknown user and a wrong password get the identical answer. |
| Auth.GetUserPublicKey | internal/auth/auth.go:161-185 | An unknown user gives "user not found". A NULL or empty key gives "user has no public key". Otherwise the result is the stored, non-empty bytes. |
| Auth.RegisterKeepsKeysNonEmpty | internal/auth/auth.go:60-69 | Registration never stores an empty key. |
| Auth.RegisterThenLookUp | internal/auth/auth.go:60-78 | After registering, login succeeds iff the stored hash matches the attempt. The key lookup returns the decoded key, or "no public key" when none was given. |
| Auth.PasswordLengthInBytes | internal/auth/auth.go:51-53 | "abcde" is too short and "abcdef" is accepted. "€€" (two characters, six bytes) is accepted, because the length counts bytes. |
| Auth.PublicKeyFormat | internal/auth/auth.go:60-69 | "abc" (odd length) and "zz" are refused, "" stores NULL, and "0aFf" stores bytes 0x0a 0xff. |
| Relay.Connect | internal/server/server.go:207-208 | A caller that was not admitted leaves the hub untouched. |
| Relay.AdmissionRegisters | internal/server/server.go:190-208 | The hub stays sound. A rejected caller changes nothing. An admitted one becomes the current session of exactly the validated username. |
| Relay.HandleFrame | internal/server/client.go:63-69 | A dropped frame changes nothing, and routing a frame never panics on a valid hub. |
| Relay.FrameReachesRecipient | internal/server/client.go:63-69 | An accepted frame lands last in the recipient's channel. It keeps the frame's recipient and content, has the reading session as sender, and leaves the registry unchanged. |
| Relay.FrameToAbsentDropped | internal/server/hub.go:34 | A frame for a user nobody is connected as changes nothing and raises nothing. |
| Relay.AliceMessagesBob | internal/server/client.go:63-69 | Alice and Bob connect, and Alice sends `{recipient: bob, sender: mallory, content: "hi"}`. Bob's channel then holds exactly one message, from alice with content "hi". |
| Relay.FrameAsWritten | internal/server/hub.go:32-41 | Forwarding a frame gives the same result under hub.go as written as under the corrected hub. |
| Relay.AliceMessagesBobAsWritten | internal/server/hub.go:24-42 | Under hub.go as written, registering Alice and Bob and forwarding Alice's message leaves Bob's channel holding exactly that message and Alice's channel empty. |
| Relay.MessageToOfflineUser | internal/server/hub.go:34 | With only Alice connected, a message to Bob changes nothing. |

## Left out

- Goroutines and scheduling are not modelled. The hub loop is one step per event. The register, unregister and forward channels are unbuffered and their blocking is not modelled. `Session.WritePump` works on a snapshot of its channel, taken between two hub steps. `Hub.DrainIsContents` ties that snapshot to the channel receive: receiving repeatedly yields exactly the snapshot's messages in order, and reports the close iff the channel is closed. Hub steps that interleave with a running write pump are not modelled.
- WebSocket I/O is not modelled: upgrading, `CheckOrigin`, reading, writing and closing connections, and buffer sizes. Reads become a `Read` sequence, write outcomes become `writeOk`, and the upgrade's outcome becomes `upgraded`.
- JSON encoding and decoding are library code. A decoded frame is an input datatype, and `json.Marshal` (with its base64 output for bytes) is a parameter. The JSON keys `recipient`, `sender` and `content`, shared by `IncomingMessage` and `protocol.Message`, are assumed by that datatype rather than modelled.
- `GenerateToken` and `ValidateToken` are not modelled. They are HS256 JWTs (RFC 7519) built by a library with a hard-coded secret and a clock. Validation is the parameter `validate`.
- bcrypt hashing and comparison are opaque. They are the parameters `hashed` and `matches`.
- SQLite is reduced to a map: table creation, `NewUserStorage`, `GetAllUsers` and its ordering are left out. Of the database faults, only these are modelled: `insertFault` in registration and `queryFault` in login.
- The `Authorization` header, the `token` query value and the URL path are modelled as strings of Unicode scalar values, so they are taken to be valid UTF-8. Go passes them on as raw bytes. Every rule that reads them (splitting on a space, the `Bearer ` and `/` prefixes, the extension's dot) matches ASCII bytes only.
- Auth.GetUserPublicKey: a failing existence query and the race between its two queries are not modelled. Both only ever yield "user not found" or "user has no public key".
- Gateway.ServeStaticFiles: the full path is `cmd/static/` plus the trimmed path. The cleaning `filepath.Join` performs (`..`, doubled or trailing slashes) is not modelled. `http.ServeFile` itself is left out.
- HTTP plumbing is left out because it only writes responses: `HandleRegister`, `HandleLogin`, `HandleGetUsers`, `HandleGetPublicKey`, `respondJSONError`, route wiring in `Start`, `NewServer` and status codes beyond 401. `NewHub` is `Hub.Init`.
- Logging is left out, including `IsUnexpectedCloseError`, which only chooses whether to log.

## Findings

| source | as written | input that shows it | evidently intended | confidence | as-written member | corrected member |
|---|---|---|---|---|---|---|
| internal/server/hub.go:26 | Registration overwrites the user's entry without closing the displaced session's channel. That channel stays open until the displaced session's own unregister, and is never closed if the username has left the registry before then | register alice#1, then register alice#2 | close the displaced session's channel in the same step | high; not executed | HubFindings.AsWrittenRegisterLeaksDisplaced | Hub.RegisterInstalls |
| internal/server/hub.go:28-30 | Unregister matches the username only, so a stale session's unregister deletes the newer session's entry | register alice#1, register alice#2, unregister alice#1 | remove the entry only if it is this very session | high; not executed | HubFindings.ReplaceThenStaleUnregister | Hub.UnregisterStale |
| internal/server/hub.go:30 | After eviction closed a session's channel (hub.go:38), its late unregister closes it again and the process panics | register alice#1, 257 messages to alice, register alice#2, unregister alice#1 | ignore an unregister from a session that is not current | high; not executed | HubFindings.EvictedThenStaleUnregisterPanics | Hub.StepPreservesSound |
