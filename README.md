# Form handler worker with a real-time room, modelled in Dafny

This project models the worker of a contact-form application: a Cloudflare
Worker that takes form submissions, stores them in a key-value namespace,
registers and logs in users against a users table, and pushes every new post
to the browsers connected over WebSocket. The browsers are held by a single
room object (`WebSocketRoom`).

The model has these modules:

- `Room` (`room.dfy`): the room as a class. Its `sessions` map is updated in
  place by upgrades, close and error events, and by `broadcast`.
  - The broadcast loop is proved against `AfterBroadcast`, a function over
    the old registry.
  - Lemmas give the count, the pruning, the order of deliveries and the
    registry size over a run of events.
- `Relay` (`websocket.dfy`): the upgrade check in front of the room and the
  broadcast request sent to it.
- `Form` (`form.dfy`): the field checks in their order and the e-mail pattern
  (proved equal to the language of the regular expression). Also the spam
  length rule, HTML escaping with its decoding inverse, the store key and
  expiry, the webhook preview, and the handler as a method over a key-value
  namespace object.
- `Auth` (`auth.dfy`): the hex text of a digest (with its inverse), the
  registration and login checks, and the Base64 login token. It proves that
  the token's first field reads back as the user id. The users table is a
  class that registration appends to.
- `Worker` (`worker.dfy`): the CORS origin choice, the `requireAuth`
  middleware, the routes `/api/verify`, `/ws`, `/api/submit`,
  `/generate-poem` and `/api/submissions`.
- Supporting modules model the JavaScript built-ins the code relies on:
  - `Strings`: `trim`, `\s`, `split`, `startsWith`, `replace` with a string
    pattern;
  - `Numbers`: `${n}`, `parseInt`, `Number`;
  - `Base64`: `btoa`/`atob` as the Base64 of section 4 of RFC 4648, with the
    forgiving decode of the WHATWG Infra standard;
  - `Http`: JSON values, requests, responses.

Outside inputs are parameters. These are:

- the fresh connection id, the submission UUID, the ISO timestamp and the
  clock;
- the SHA-256 digest (a function);
- the sentiment model's verdict and the text model (functions);
- whether a store write, a table insert or the room call fails;
- the key order of a store listing.

The two readers of a token's id differ. `requireAuth` reads it with
`parseInt` and `verifyToken` with `Number`. So any field made of digits
followed by a character other than a digit, whitespace, `.` or an exponent
mark, such as `12x`, passes the middleware as the user those digits name
and is then refused by the handler, apart from the `0x`/`0o`/`0b` prefixes
(`Worker.ParsersDisagree`). Every token that login issues is read alike by
both (`Worker.IssuedTokenNamesUser`).

## Model

| member | source | states |
|---|---|---|
| Room.WebSocketRoom.Accept | src/worker/durable-objects/WebSocketRoom.ts:19-28 | an upgrade adds exactly one entry, under an id not present before; the registry grows by one and the answer is 101 |
| Room.WebSocketRoom.OnClose | src/worker/durable-objects/WebSocketRoom.ts:51-54 | the close listener removes exactly that connection's entry |
| Room.WebSocketRoom.OnError | src/worker/durable-objects/WebSocketRoom.ts:56-60 | the error listener removes exactly that connection's entry |
| Room.UnregisterIdempotent | src/worker/durable-objects/WebSocketRoom.ts:53 | removal is idempotent and leaves every other entry as it was |
| Room.WebSocketRoom.OnMessage | src/worker/durable-objects/WebSocketRoom.ts:33-48 | any inbound message leaves the registry alone (no frame); non-JSON or `null` is a caught error; an `auth` message with a truthy token authenticates exactly when `atob` accepts the token, naming the text before the first `:`; otherwise it is a caught auth error |
| Room.AuthToken | src/worker/durable-objects/WebSocketRoom.ts:36 | a message carries a token exactly when its `type` is the text `auth` and its `token` is truthy; the token is that value as text |
| Room.WebSocketRoom.Broadcast | src/worker/durable-objects/WebSocketRoom.ts:77-104 | the loop leaves exactly `AfterBroadcast` of the old registry (OPEN, non-throwing entries kept with the one message appended, all others deleted) and reports `success: true` with the number of such entries |
| Room.BroadcastCount | src/worker/durable-objects/WebSocketRoom.ts:83-98 | the count equals the number of surviving entries and is at most the registry size before the call |
| Room.BroadcastPrunes | src/worker/durable-objects/WebSocketRoom.ts:84-97 | an entry survives iff it was present, OPEN and its send did not throw; survivors keep their state and receive the message; nothing is added |
| Room.AllOpenAllDelivered | src/worker/durable-objects/WebSocketRoom.ts:86-88 | with every connection open and healthy, every one receives the message and the count is the registry size |
| Room.StaleConnectionsPruned | src/worker/durable-objects/WebSocketRoom.ts:90-97 | with M stale connections among N, the count is N - M and exactly the stale ones are removed |
| Room.BroadcastsInOrder | src/worker/durable-objects/WebSocketRoom.ts:78-88 | two broadcasts reach a surviving client in the order issued, the same serialised message each |
| Room.WebSocketRoom.Fetch | src/worker/durable-objects/WebSocketRoom.ts:15-75 | upgrade first; then a POST to `/broadcast` broadcasts its body (a body that does not parse throws, registry untouched); anything else is 404 with the registry untouched |
| Room.PartialBroadcastStep | src/worker/durable-objects/WebSocketRoom.ts:84-97 | one loop iteration: the visited entry is kept with the message or deleted, and the count grows by one exactly when it was delivered |
| Room.RegistrySize | src/worker/durable-objects/WebSocketRoom.ts:27-28 | over any run of upgrades and close/error events, the registry holds the admitted connections not yet closed, and its size is the admissions minus the closed ones |
| Room.ThreeClientScenario | src/worker/durable-objects/WebSocketRoom.ts:77-104 | three clients, one broadcast (count 3), one close, another broadcast (count 2): the two survivors hold both messages in order |
| Room.WebSocketRoom.SocketChanged | src/worker/durable-objects/WebSocketRoom.ts:84-97 | a registered socket's state changes without the room hearing of it; its sent messages and every other entry stay as they were |
| Room.StaleClientScenario | src/worker/durable-objects/WebSocketRoom.ts:84-97 | a client whose socket closed unannounced is not counted by the next broadcast and is dropped from the registry |
| Relay.UpgradeRoute | src/worker/websocket.ts:6-17 | a request without an exact `Upgrade: websocket` is answered 426 "Expected Upgrade: websocket"; otherwise it is forwarded unchanged to the room named `main-room` |
| Relay.RoutesMeetInTheRoom | src/worker/websocket.ts:13-32 | the upgrade and broadcast routes name the same room; the forwarded upgrade is an upgrade for the room and the broadcast request is a POST to `/broadcast` without an upgrade header, the room's broadcast condition |
| Relay.BroadcastRequest | src/worker/websocket.ts:28-32 | the broadcast request carries the submission as its JSON body |
| Relay.BroadcastRoute | src/worker/websocket.ts:21-32 | the broadcast is always forwarded, as the broadcast request |
| Relay.HandleWebSocketUpgrade | src/worker/websocket.ts:5-18 | a rejected upgrade returns 426 before the room is touched; an accepted one registers the connection under the fresh id, adds that id to the ids issued, and answers 101 |
| Relay.BroadcastNewPost | src/worker/websocket.ts:21-39 | errors never propagate: an unreachable room changes nothing; a reachable one performs the broadcast of the submission |
| Form.EscapeHtml | src/worker/handlers/form.ts:187-196 | the output holds no raw `<`, `>`, `"` or `'`; it is at least as long as the input, and equal to the input exactly when there was nothing to escape |
| Form.EscapeHtmlAppend | src/worker/handlers/form.ts:195 | escaping maps each character independently: it distributes over concatenation |
| Form.EscapedLength | src/worker/handlers/form.ts:188-194 | the output length is the input length plus 4 per `&`, 3 per `<` or `>`, 5 per `"` or `'` |
| Form.AmpersandsOpenEntities | src/worker/handlers/form.ts:188-195 | every `&` in the output begins one of the five entities |
| Form.UnescapeEscapeHtml | src/worker/handlers/form.ts:187-196 | decoding the entities gives the input back: escaping loses nothing |
| Form.IsValidEmail | src/worker/handlers/form.ts:59-62 | the decision (no whitespace, first `@` not at the start and the only one, a `.` strictly inside the domain) holds exactly when the text is in the language of the e-mail pattern |
| Form.Validate | src/worker/handlers/form.ts:203-218 | after trimming, the name check, then the e-mail check, then the message check; the first failure decides the 400; success yields the trimmed fields |
| Form.FieldValue | src/worker/handlers/form.ts:203-205 | a missing field is empty; a present one loses only whitespace on either side and neither starts nor ends with it |
| Form.ValidatedFieldsAreTrimmed | src/worker/handlers/form.ts:203-205 | validated fields are their own trim, and the e-mail matches the pattern |
| Form.IsSpam | src/worker/handlers/form.ts:20-56 | a message shorter than 10 characters after trimming is spam; any longer one is spam exactly when the classifier marks its first 512 characters negative |
| Form.ValidatedMessageNotShort | src/worker/handlers/form.ts:23-25 | after validation the length rule never fires: the verdict is the classifier's alone |
| Form.ClassifierInput | src/worker/handlers/form.ts:32 | the classifier sees the first 512 characters: the whole message when it is no longer, exactly 512 otherwise |
| Form.SubmissionKey | src/worker/handlers/form.ts:240 | the key is `submission:` followed by the id |
| Form.ExpirationTtl | src/worker/handlers/form.ts:241 | the value is the current time in whole seconds, rounded down, plus 2592000 |
| Form.HandleFormSubmission | src/worker/handlers/form.ts:199-263 | unparseable form data throws; a failed check gives its 400 and spam a 403, both with nothing stored; otherwise the trimmed record is stored under its key with its expiry and answered 200 with the record attached (a failing write throws) |
| Form.WebhookPreview | src/worker/handlers/form.ts:163 | the message itself up to 200 characters; beyond that its first 200 characters followed by `...` |
| Auth.ToHex | src/worker/handlers/auth.ts:8-9 | two hex digits per byte, every one a lowercase hex digit |
| Auth.FromHexToHex | src/worker/handlers/auth.ts:8-9 | reading the hex text back recovers the digest bytes |
| Auth.HashPassword | src/worker/handlers/auth.ts:4-10 | the hash is the hex text of the digest: twice its length, and it decodes back to the digest |
| Auth.HashesAgree | src/worker/handlers/auth.ts:87-88 | two passwords hash alike exactly when their digests agree |
| Auth.RegistrationFields | src/worker/handlers/auth.ts:18-24 | the username must be at least 3 characters and the password at least 6, else 400; a valid username with a short password gets the password message |
| Auth.UsernameCheckedFirst | src/worker/handlers/auth.ts:18-20 | a short username is reported before anything about the password |
| Auth.UserTable.RegisterUser | src/worker/handlers/auth.ts:13-59 | a body that does not destructure is 500; checks in order; an existing username is 409 before hashing or inserting; a failed insert is 500; every failure leaves the rows and the last id alone; otherwise one row with the next id and the password hash is appended |
| Auth.UserTable.LoginUser | src/worker/handlers/auth.ts:62-110 | both credentials are required (400); an unknown user and a wrong password get the identical 401; success returns the Base64 token of the user's id, name and clock, or 500 when the name is outside Latin-1 |
| Auth.Token | src/worker/handlers/auth.ts:93 | the token exists exactly when the username is a Latin-1 text |
| Auth.TokenNamesUser | src/worker/handlers/auth.ts:93-122 | decoding a token and taking the text before the first `:` gives the id's decimal text, which both `parseInt` and `Number` read as the id |
| Auth.BearerToken | src/worker/handlers/auth.ts:115-120 | a token exists exactly when the header starts with `Bearer `; the header is `Bearer ` followed by the token |
| Auth.IndexByName | src/worker/handlers/auth.ts:72-74 | the first row with that username, or none when there is none |
| Auth.IndexById | src/worker/handlers/auth.ts:125-127 | the first row with that id, or none when there is none |
| Auth.UserTable.VerifyToken | src/worker/handlers/auth.ts:113-145 | a missing or non-Bearer header is 401 "Unauthorized"; a token that does not decode, whose first field `Number` rejects, or that names no user is 401 "Invalid token"; otherwise the user's id and name |
| Worker.CorsOrigin | src/worker/index.ts:12-18 | unset, empty or `*` setting gives `*`; otherwise an absent or listed origin is echoed and any other gets the first listed origin |
| Worker.AllowedOrigins | src/worker/index.ts:15 | the setting split on commas, each piece trimmed |
| Worker.CorsAnswersListedOrigins | src/worker/index.ts:15-17 | outside the wildcard setting the answer is a listed origin or the empty one; an unlisted origin is never echoed |
| Worker.SingleOrigin | src/worker/index.ts:15-17 | with one configured origin every request that sent an origin is answered with it |
| Worker.RequireAuth | src/worker/index.ts:27-54 | missing or non-Bearer header, undecodable token, non-numeric id or unknown user all give the same 401; otherwise the row's id and username are attached |
| Worker.IssuedTokenNamesUser | src/worker/index.ts:33-42 | a token issued at login, sent as `Bearer` header, names the user's own row for both the middleware and the verify handler |
| Worker.ParsersDisagree | src/worker/index.ts:42 | for any digits followed by a character other than a digit, whitespace, `.`, `e` or `E` (outside the base prefixes), `parseInt` reads the digits while `Number` rejects the text |
| Worker.VerifyRoute | src/worker/index.ts:65-67 | the middleware's 401 comes first; past it, "Invalid token" when `Number` rejects the field or its id names no row, else the row that id names |
| Worker.WsRoute | src/worker/index.ts:123-130 | without an exact `Upgrade: websocket` the answer is 426 "WebSocket upgrade required" and the room is untouched; the upgrade handler's own 426 can never be returned on this route; an upgrade registers the fresh id and records it as issued |
| Worker.ApiSubmit | src/worker/index.ts:133-165 | the handler's response is returned whatever the broadcast does; the broadcast is attempted only for a 200 with the record attached; a thrown handler error is 500; every failure leaves the store and the room alone |
| Worker.GeneratePoem | src/worker/index.ts:101-120 | a missing or `null` input throws; an input for which `inputText.length > 50` holds (own length of text or array, numeric `length` property of an object) is rejected without asking the model; any other input is sent to the model inside the fixed prompt |
| Worker.PoemBoundary | src/worker/index.ts:105-107 | exactly 50 characters reach the model; 51 do not |
| Worker.PromptQuotesInput | src/worker/index.ts:110 | the prompt quotes the input verbatim after a fixed lead |
| Worker.ObjectLengthCompared | src/worker/index.ts:105-107 | an object input with a `length` of 51 or `"60"` is refused before the model; one without `length` reaches it as `[object Object]` |
| Worker.ListedItem | src/worker/index.ts:177-180 | the item has exactly the stored properties plus `id`; the stored properties are kept, and without a stored `id` the id is the key with its first `submission:` replaced away |
| Worker.ListSubmissions | src/worker/index.ts:173-190 | a listed key whose value is gone is dropped; the count is the number of present keys and the items are their records in listing order |
| Worker.PresentKeys | src/worker/index.ts:176-189 | the kept keys are exactly the listed keys that have a value; all are kept exactly when every listed key has one |
| Worker.PresentKeysAppend | src/worker/index.ts:188-189 | the filter keeps listing order: it distributes over concatenation |
| Worker.FetchedThenFiltered | src/worker/index.ts:173-189 | mapping a missing key to `null` and filtering the `null`s out leaves the present keys' items, in order |
| Worker.MissingKeysSkipped | src/worker/index.ts:186-189 | the count equals the number of listed keys exactly when none is missing |
| Worker.StoredSubmissionListed | src/worker/index.ts:178-179 | the key of a stored record, with the prefix replaced away, is the record's id, and the record is listed exactly as stored |
| Worker.ForeignKeyKeepsName | src/worker/index.ts:178 | `replace` leaves a key without the prefix whole |
| Worker.SubmissionsRoute | src/worker/index.ts:168-198 | behind the middleware's 401, the list, whatever keys the listing names |
| Strings.Trim | src/worker/handlers/form.ts:203-205 | `trim` gives the text with only whitespace dropped on either side, and the result neither starts nor ends with whitespace |
| Strings.TrimIdempotent | src/worker/handlers/form.ts:23 | trimming twice is trimming once |
| Strings.Split | src/worker/index.ts:37 | `split` gives the separator-free pieces that join back to the text |
| Strings.SplitJoin | src/worker/index.ts:15 | splitting a join of separator-free pieces gives the pieces back |
| Strings.FirstField | src/worker/handlers/auth.ts:122 | the first piece of `split(":")` has no `:` and is the whole text or the text before its first `:` |
| Strings.ReplacePrefix | src/worker/index.ts:178 | `replace` on text starting with the pattern drops that prefix only |
| Strings.ReplaceFirstOccurrence | src/worker/index.ts:178 | `replace` with a text pattern replaces only its first occurrence and keeps the text on either side |
| Numbers.NatToString | src/worker/handlers/auth.ts:93 | the decimal text of an id is digits only and reads back as the id |
| Numbers.ParseIntOfNatToString | src/worker/index.ts:42 | `parseInt` reads the decimal text of an id back |
| Numbers.ParseIntReadsDigitRun | src/worker/index.ts:42 | `parseInt` reads a run of decimal digits and stops at the first non-digit, whatever follows |
| Numbers.ToNumber | src/worker/handlers/auth.ts:127 | `Number` of blank text is 0; any text it accepts is, once trimmed, a digit or sign followed only by letters and digits |
| Numbers.NumberRejectsTrailingText | src/worker/handlers/auth.ts:127 | `Number` refuses digits followed by a character that is neither a digit, whitespace, `.`, `e` nor `E` |
| Numbers.ToNumberOfNatToString | src/worker/handlers/auth.ts:127 | `Number` reads the decimal text of an id back |
| Base64.Btoa | src/worker/handlers/auth.ts:93 | `btoa` fails exactly on text with a character above 255; the output is four characters per three bytes, rounded up |
| Base64.AtobOfBtoa | src/worker/handlers/auth.ts:93-121 | `atob` inverts `btoa` on every Latin-1 text |
| Base64.Atob | src/worker/handlers/auth.ts:121 | `atob` fails on any character outside the alphabet, whitespace and `=`; its output is Latin-1, three bytes for every four characters left after whitespace and padding are removed |
| Base64.BytesOfSextets | src/worker/handlers/auth.ts:121 | the 6-bit groups carry exactly the encoded bytes |

## Left out

- JSON text: `JSON.stringify`/`JSON.parse` are not modelled. Bodies, stored values and socket messages are JSON values. A body that does not parse is an explicit case.
- Number width: ids, lengths and parsed numbers are unbounded integers. The runtime's numbers are doubles, so `parseInt` and `Number` round digit runs beyond 2^53 (`9007199254740993` reads as `9007199254740992`), and an id that large could name a neighbouring row; the model reads every digit run exactly.
- Integer forms of `Number`: only these are modelled (decimal with sign, `0x`/`0o`/`0b`, surrounding whitespace, empty text is 0). A decimal point or exponent (`1e3`) is treated as not a number, where the runtime would look up the id it denotes. For that reason `Numbers.NumberRejectsTrailingText` and `Worker.ParsersDisagree` state nothing about digits followed by `.`, `e` or `E`.
- Auth.UserTable.RegisterUser, Auth.UserTable.LoginUser: the 500 answers omit the `message` property that carries the runtime's error text.
- Worker.ApiSubmit: the 500 answer also omits that `message` property.
- Non-string credentials and form fields: a `username`/`password` that is present but not a string counts as missing, and form fields are strings or absent. A `File` value is not modelled.
- Floating-point spam verdict: the sentiment model's label and `score > 0.7` are a function parameter. An AI failure counts as "not spam".
- Worker.GeneratePoem: a `length` property holding a fraction (`50.5`) or an exponent is not representable, since JSON numbers are integers here. A text-valued `length` such as `"50.5"`, `"1e2"` or `"Infinity"` converts to no number in the model (see "Integer forms of `Number`"), so such an input reaches the text model where the runtime would refuse it as too long.
- Worker.GeneratePoem: the model's answer is its text or its error message. An answer without a `response` property is not modelled.
- The key-value store:
  - the store is a map from key to value and `expirationTtl`;
  - expiry is not modelled;
  - the handler passes an absolute time as `expirationTtl`, which the store reads as a duration in seconds; the model records the value as passed;
  - a listing returns every key once, in the order given as a parameter; paging of long listings is not modelled.
- Worker.ListedItem: spreading a stored value that is not an object is modelled as adding nothing. The runtime would spread the index properties of a stored string or array; the form handler never stores one.
- Stored text: the list tests `if (value)` on the stored text; stored values are JSON values here, whose text is never empty, so a present key always counts. Stored text that does not parse (a 500 from `JSON.parse`) is not modelled.
- The delete route `/api/submissions/:id`, `/check-key`, `/post/`, `/env` and `/api/`: not part of this model.
- E-mail and webhook delivery: the outbound requests to the mail service and the webhook are not part of this model. Their failures are swallowed by the handler, so they cannot change its outcome. The HTML template, `toLocaleString` and logging are left out too; the preview text and HTML escaping are modelled.
- The SHA-256 digest and `crypto.randomUUID`: the digest is a function parameter and ids are parameters (connection ids fresh, by precondition).
- Runtime plumbing:
  - the room namespace lookup (`idFromName`/`get`) is the identity on the one room;
  - `WebSocketPair`, `accept` and the client end are not modelled;
  - the Hono CORS middleware around the origin choice is not modelled;
  - concurrency between requests is not modelled (the room is one sequential object).
- Text is a sequence of characters. UTF-16 code units, and the UTF-8 encoding before hashing, are not modelled.
