/** The worker's routes: the CORS origin choice, the `requireAuth`
    middleware, `/api/verify`, `/ws`, `/api/submit`, `/generate-poem` and
    the submission list. */
module Worker {
  import opened Options
  import opened Strings
  import opened Http
  import Numbers
  import Base64
  import Room
  import Relay
  import Form
  import Auth

  // ---------------------------------------------------------------------
  // CORS

  /** The configured list, split on commas, each piece trimmed. */
  function AllowedOrigins(allowed: string): (origins: seq<string>)
    ensures |origins| == |Split(allowed, ',')| >= 1
    ensures forall i :: 0 <= i < |origins| ==> origins[i] == Trim(Split(allowed, ',')[i])
  {
    var parts := Split(allowed, ',');
    seq(|parts|, i requires 0 <= i < |parts| => Trim(parts[i]))
  }

  /** `ALLOWED_ORIGINS || "*"`. */
  function Configured(setting: Option<string>): string {
    if setting.None? || setting.value == "" then "*" else setting.value
  }

  /** The `origin` option of the CORS middleware; `origin` is `""` when the
      request has no `Origin` header. */
  function CorsOrigin(setting: Option<string>, origin: string): (r: string)
    ensures Configured(setting) == "*" ==> r == "*"
    ensures Configured(setting) != "*" && (origin == "" || origin in AllowedOrigins(Configured(setting))) ==> r == origin
    ensures Configured(setting) != "*" && origin != "" && origin !in AllowedOrigins(Configured(setting)) ==>
      r == AllowedOrigins(Configured(setting))[0]
  {
    var allowed := Configured(setting);
    if allowed == "*" then "*"
    else
      var origins := AllowedOrigins(allowed);
      if origin == "" || origin in origins then origin else origins[0]
  }

  /** Outside the wildcard configuration the answer is always a listed
      origin, or the empty origin of a request that sent none: an unlisted
      origin is never echoed. */
  lemma CorsAnswersListedOrigins(setting: Option<string>, origin: string)
    requires Configured(setting) != "*"
    ensures CorsOrigin(setting, origin) in AllowedOrigins(Configured(setting)) || CorsOrigin(setting, origin) == ""
    ensures CorsOrigin(setting, origin) == origin || origin !in AllowedOrigins(Configured(setting))
  {
  }

  /** With a single configured origin every request is answered with it,
      whatever it sent (unless it sent none). */
  lemma SingleOrigin(site: string, origin: string)
    requires site != "" && site != "*" && ',' !in site && origin != ""
    ensures CorsOrigin(Some(site), origin) == Trim(site)
  {
    assert Split(site, ',') == [site] by {
      assert IndexOf(site, ',') == -1;
    }
  }

  // ---------------------------------------------------------------------
  // requireAuth and /api/verify

  /** The id `requireAuth` looks up: the Bearer token, Base64-decoded, up to
      the first `:`, read by `parseInt`; `None` when any step fails. */
  function ClaimedId(header: Option<string>): Option<int> {
    match Auth.BearerToken(header)
    case None => None
    case Some(token) =>
      match Auth.TokenUserField(token)
      case None => None
      case Some(field) => Numbers.ParseInt(field)
  }

  /** A token issued at login names its user for both the middleware and the
      verify handler, and the row it names is the user's own. */
  lemma IssuedTokenNamesUser(rows: seq<Auth.User>, k: int, nowMs: nat)
    requires 0 <= k < |rows| && forall i, j :: 0 <= i < j < |rows| ==> rows[i].id != rows[j].id
    requires Auth.Token(rows[k].id, rows[k].username, nowMs).Some?
    ensures var header := Some("Bearer " + Auth.Token(rows[k].id, rows[k].username, nowMs).value);
      ClaimedId(header) == Some(rows[k].id) &&
      Auth.TokenUserField(Auth.BearerToken(header).value) == Some(Numbers.NatToString(rows[k].id)) &&
      Numbers.ToNumber(Numbers.NatToString(rows[k].id)) == Some(rows[k].id) &&
      Auth.IndexById(rows, rows[k].id) == k
  {
    var token := Auth.Token(rows[k].id, rows[k].username, nowMs).value;
    var header := Some("Bearer " + token);
    Auth.BearerOfToken(token);
    Auth.TokenNamesUser(rows[k].id, rows[k].username, nowMs);
    assert Auth.BearerToken(header) == Some(token);
    assert Auth.TokenUserField(token) == Some(Numbers.NatToString(rows[k].id));
    assert ClaimedId(header) == Numbers.ParseInt(Numbers.NatToString(rows[k].id));
    Auth.IdFindsRow(rows, k);
  }

  /** The two readers of the id disagree on a run of digits followed by
      text that opens with neither a digit, whitespace, a decimal point nor
      an exponent mark: `parseInt` takes the leading digits, so
      `requireAuth` admits the user they name, while `Number` rejects the
      whole field and `verifyToken` answers "Invalid token" for the same
      request (`12x` is user 12 to one and nothing to the other). */
  lemma ParsersDisagree(digits: string, rest: string)
    requires |digits| >= 1 && Numbers.AllDigits(digits, 10)
    requires rest != [] && !Numbers.IsDigit(rest[0], 10) && !IsWhitespace(rest[0])
    requires rest[0] != '.' && rest[0] != 'e' && rest[0] != 'E'
    requires !(digits == "0" && rest[0] in "xXoObB")
    ensures Numbers.ParseInt(digits + rest) == Some(Numbers.ValueIn(digits, 10) as int)
    ensures Numbers.ToNumber(digits + rest) == None
  {
    Numbers.ParseIntReadsDigitRun(digits, rest);
    Numbers.NumberRejectsTrailingText(digits, rest);
  }

  /** `requireAuth`: every failure is the same 401; on success the row's id
      and username, the two columns the middleware selects, are attached
      for the next handler. */
  method RequireAuth(users: Auth.UserTable, header: Option<string>) returns (r: Result<(nat, string), Response>)
    ensures r.Err? ==> r.error == Auth.Unauthorized
    ensures r.Ok? <==> ClaimedId(header).Some? && Auth.IndexById(users.rows, ClaimedId(header).value) >= 0
    ensures r.Ok? ==>
      var row := users.rows[Auth.IndexById(users.rows, ClaimedId(header).value)];
      r.value == (row.id, row.username)
  {
    var token := Auth.BearerToken(header);
    if token.None? {
      return Err(Auth.Unauthorized);
    }
    var field := Auth.TokenUserField(token.value);
    if field.None? {
      return Err(Auth.Unauthorized);
    }
    var id := Numbers.ParseInt(field.value);
    if id.None? {
      return Err(Auth.Unauthorized);
    }
    var k := Auth.IndexById(users.rows, id.value);
    if k < 0 {
      return Err(Auth.Unauthorized);
    }
    r := Ok((users.rows[k].id, users.rows[k].username));
  }

  /** `GET /api/verify`: the middleware, then `verifyToken`, which reads
      the id again, with `Number`. */
  method VerifyRoute(users: Auth.UserTable, header: Option<string>) returns (resp: Response)
    ensures ClaimedId(header).None? || Auth.IndexById(users.rows, ClaimedId(header).value) < 0 ==>
      resp == Auth.Unauthorized
    ensures ClaimedId(header).Some? && Auth.IndexById(users.rows, ClaimedId(header).value) >= 0 ==>
      var field := Auth.TokenUserField(Auth.BearerToken(header).value).value;
      (Numbers.ToNumber(field).None? ==> resp == Auth.InvalidToken) &&
      (Numbers.ToNumber(field).Some? && Auth.IndexById(users.rows, Numbers.ToNumber(field).value) < 0 ==>
        resp == Auth.InvalidToken) &&
      (Numbers.ToNumber(field).Some? && Auth.IndexById(users.rows, Numbers.ToNumber(field).value) >= 0 ==>
        resp == Auth.Verified(users.rows[Auth.IndexById(users.rows, Numbers.ToNumber(field).value)]))
  {
    var admitted := RequireAuth(users, header);
    if admitted.Err? {
      return admitted.error;
    }
    resp := users.VerifyToken(header);
  }

  // ---------------------------------------------------------------------
  // /ws

  const UpgradeRequired := Response(426, Text("WebSocket upgrade required"))

  /** `GET /ws`: a request that is not an exact `websocket` upgrade is
      426 here and never reaches the upgrade handler, whose own 426 is
      therefore unreachable on this path. */
  method WsRoute(req: Request, room: Room.WebSocketRoom, freshId: Room.ConnId) returns (resp: Response)
    requires room.Valid() && freshId !in room.issued
    modifies room
    ensures room.Valid()
    ensures resp != Relay.ExpectedUpgrade
    ensures !Room.IsUpgrade(req) ==>
      resp == UpgradeRequired && room.sessions == old(room.sessions) && room.issued == old(room.issued)
    ensures Room.IsUpgrade(req) ==>
      resp == Room.SwitchingProtocols && room.sessions == old(room.sessions)[freshId := Room.Accepted] &&
      room.issued == old(room.issued) + {freshId}
  {
    if req.Header("upgrade") == Some("websocket") {
      resp := Relay.HandleWebSocketUpgrade(req, room, freshId);
    } else {
      resp := UpgradeRequired;
    }
  }

  // ---------------------------------------------------------------------
  // /api/submit

  /** `POST /api/submit`: the form handler, then, only for a 200 response
      with the record attached, the broadcast of that record. The handler's
      response is returned whatever the broadcast did (`roomReachable`); an
      exception from the handler becomes a 500. */
  method ApiSubmit(form: Option<Form.FormData>, kv: Form.KvNamespace, room: Room.WebSocketRoom,
                   negative: string -> bool, id: string, timestamp: string, nowMs: nat,
                   putFails: bool, roomReachable: bool)
    returns (resp: Response)
    requires room.Valid()
    modifies kv, room
    ensures room.Valid() && room.issued == old(room.issued)
    ensures form.None? ==>
      resp == Auth.InternalError && room.sessions == old(room.sessions) && kv.entries == old(kv.entries)
    ensures form.Some? && Form.Validate(form.value).Err? ==>
      resp == Form.InvalidResponse(Form.Validate(form.value).error) &&
      room.sessions == old(room.sessions) && kv.entries == old(kv.entries)
    ensures form.Some? && Form.Validate(form.value).Ok? && Form.IsSpam(Form.Validate(form.value).value.message, negative) ==>
      resp == Form.RejectedAsSpam && room.sessions == old(room.sessions) && kv.entries == old(kv.entries)
    ensures form.Some? && Form.Validate(form.value).Ok? && !Form.IsSpam(Form.Validate(form.value).value.message, negative) ==>
      var f := Form.Validate(form.value).value;
      var sub := Form.Submission(id, f.name, f.email, f.message, timestamp);
      (putFails ==>
         resp == Auth.InternalError && room.sessions == old(room.sessions) && kv.entries == old(kv.entries)) &&
      (!putFails ==>
         resp == Form.Submitted(id) &&
         kv.entries == old(kv.entries)[Form.SubmissionKey(id) := Form.KvEntry(Form.SubmissionJson(sub), Form.ExpirationTtl(nowMs))] &&
         (roomReachable ==>
            room.sessions == Room.AfterBroadcast(old(room.sessions), Room.NewPostMessage(Form.SubmissionJson(sub)))) &&
         (!roomReachable ==> room.sessions == old(room.sessions)))
  {
    var outcome := Form.HandleFormSubmission(form, kv, negative, id, timestamp, nowMs, putFails);
    if outcome.Threw? {
      return Auth.InternalError;
    }
    if outcome.response.status == 200 && outcome.submission.Some? {
      Relay.BroadcastNewPost(Form.SubmissionJson(outcome.submission.value), room, roomReachable);
    }
    resp := outcome.response;
  }

  // ---------------------------------------------------------------------
  // /generate-poem

  const MaxPoemInput := 50

  /** The prompt sent to the text model. */
  function PoemPrompt(text: string): string {
    "Write a work-appropriate poem about: " + text + ". Avoid offensive language or any inappropriate content."
  }

  /** The prompt carries the input verbatim after a fixed 37-character lead. */
  lemma PromptQuotesInput(text: string)
    ensures |PoemPrompt(text)| == |text| + 93
    ensures PoemPrompt(text)[37..37 + |text|] == text
  {
  }

  /** `inputText.length > 50` as JavaScript evaluates it. A string or an
      array compares its own length; an object compares its `length`
      property, converted to a number (no such property, or one that does
      not convert, compares false); numbers and booleans have no `length`,
      so the comparison is false. */
  predicate TooLongInput(input: Json) {
    match input
    case JStr(s) => |s| > MaxPoemInput
    case JArr(items) => |items| > MaxPoemInput
    case JObj(fields) =>
      "length" in fields && NumericValue(fields["length"]).Some? && NumericValue(fields["length"]).value > MaxPoemInput
    case _ => false
  }

  /** JavaScript's conversion of a JSON value to a number, on the integer
      forms: `null` is 0, booleans 0 and 1, text as `Number` reads it, an
      array through its text, an object never converts. */
  function NumericValue(v: Json): (r: Option<int>)
    ensures v.JNum? ==> r == Some(v.n)
    ensures v.JObj? ==> r.None?
  {
    match v
    case JNull => Some(0)
    case JBool(b) => Some(if b then 1 else 0)
    case JNum(n) => Some(n)
    case JStr(s) => Numbers.ToNumber(s)
    case JArr(_) => Numbers.ToNumber(ToText(v))
    case JObj(_) => None
  }

  /** What `/generate-poem` does: it throws (a missing or `null`
      `inputText`), or it answers, having asked the model with the given
      prompt or not at all. */
  datatype PoemOutcome = PoemThrew | PoemAnswered(response: Response, asked: Option<string>)

  const TooLong := JsonResponse(JObj(map["status" := JStr("error"), "message" := JStr("Input must be 50 characters or fewer.")]))

  /** `POST /generate-poem`; `model` stands for the AI call: the generated
      text, or the message of the error it threw. */
  function GeneratePoem(body: Option<Json>, model: string -> Result<string, string>): (r: PoemOutcome)
    ensures r.PoemThrew? <==>
      body.None? || body.value.JNull? || Field(body.value, "inputText").None? || Field(body.value, "inputText").value.JNull?
    ensures r.PoemAnswered? ==>
      var input := Field(body.value, "inputText").value;
      (r.asked.None? <==> TooLongInput(input)) &&
      (r.asked.None? ==> r.response == TooLong) &&
      (r.asked.Some? ==> r.asked.value == PoemPrompt(ToText(input)))
  {
    if body.None? || body.value.JNull? then PoemThrew
    else
      match Field(body.value, "inputText")
      case None => PoemThrew
      case Some(input) =>
        if input.JNull? then PoemThrew
        else if TooLongInput(input) then PoemAnswered(TooLong, None)
        else
          var prompt := PoemPrompt(ToText(input));
          match model(prompt)
          case Ok(poem) =>
            PoemAnswered(JsonResponse(JObj(map["status" := JStr("ok"), "poem" := JStr(poem)])), Some(prompt))
          case Err(message) =>
            PoemAnswered(JsonResponse(JObj(map["status" := JStr("error"),
              "message" := JStr("Failed to generate poem. Please try again." + message)])), Some(prompt))
  }

  /** The bound is inclusive: 50 characters reach the model, 51 do not. */
  lemma PoemBoundary(a: string, b: string, model: string -> Result<string, string>)
    requires |a| == 50 && |b| == 51
    ensures GeneratePoem(Some(JObj(map["inputText" := JStr(a)])), model).asked == Some(PoemPrompt(a))
    ensures GeneratePoem(Some(JObj(map["inputText" := JStr(b)])), model) == PoemAnswered(TooLong, None)
  {
    assert Field(JObj(map["inputText" := JStr(a)]), "inputText") == Some(JStr(a));
    assert Field(JObj(map["inputText" := JStr(b)]), "inputText") == Some(JStr(b));
  }

  /** An object standing in for the input is measured by its `length`
      property: a numeric 51 or the text `"60"` is refused before the model
      is asked, while an object without one goes to the model. */
  lemma ObjectLengthCompared(model: string -> Result<string, string>)
    ensures GeneratePoem(Some(JObj(map["inputText" := JObj(map["length" := JNum(51)])])), model) == PoemAnswered(TooLong, None)
    ensures GeneratePoem(Some(JObj(map["inputText" := JObj(map["length" := JStr("60")])])), model) == PoemAnswered(TooLong, None)
    ensures GeneratePoem(Some(JObj(map["inputText" := JObj(map[])])), model).asked == Some(PoemPrompt("[object Object]"))
  {
    NumericLengthRefused();
    TooLongObject(JObj(map["length" := JNum(51)]), model);
    TextLengthRefused();
    TooLongObject(JObj(map["length" := JStr("60")]), model);
    NoLengthAsked(model);
  }

  lemma NumericLengthRefused()
    ensures TooLongInput(JObj(map["length" := JNum(51)]))
  {
    assert NumericValue(JNum(51)) == Some(51);
  }

  lemma TextLengthRefused()
    ensures TooLongInput(JObj(map["length" := JStr("60")]))
  {
    Numbers.ToNumberOfDigits("60");
    assert "60"[..1] == "6" && "6"[..0] == "";
    assert Numbers.ValueIn("60", 10) == 60;
  }

  lemma NoLengthAsked(model: string -> Result<string, string>)
    ensures GeneratePoem(Some(JObj(map["inputText" := JObj(map[])])), model).asked == Some(PoemPrompt("[object Object]"))
  {
    var input := JObj(map[]);
    assert Field(JObj(map["inputText" := input]), "inputText") == Some(input);
    assert !TooLongInput(input);
  }

  lemma TooLongObject(input: Json, model: string -> Result<string, string>)
    requires TooLongInput(input)
    ensures GeneratePoem(Some(JObj(map["inputText" := input])), model) == PoemAnswered(TooLong, None)
  {
    assert Field(JObj(map["inputText" := input]), "inputText") == Some(input);
  }

  // ---------------------------------------------------------------------
  // The submission list

  /** One listed submission: `{ id: key.replace("submission:", ""),
      ...JSON.parse(value) }`; the stored properties are spread after the
      id, so a stored `id` wins. */
  function ListedItem(key: string, value: Json): (item: Json)
    ensures item.JObj?
    ensures item.fields.Keys == {"id"} + (if value.JObj? then value.fields.Keys else {})
    ensures value.JObj? ==> forall p :: p in value.fields ==> item.fields[p] == value.fields[p]
    ensures !(value.JObj? && "id" in value.fields) ==>
      item.fields["id"] == JStr(ReplaceFirst(key, Form.KeyPrefix, ""))
  {
    var base := map["id" := JStr(ReplaceFirst(key, Form.KeyPrefix, ""))];
    if value.JObj? then JObj(base + value.fields) else JObj(base)
  }

  /** What `kv.get` gave for each listed key, in listing order: the item,
      or `null` (`None`) for a key that is no longer there. */
  function Fetched(entries: map<string, Form.KvEntry>, keys: seq<string>): seq<Option<Json>> {
    seq(|keys|, i requires 0 <= i < |keys| =>
      if keys[i] in entries then Some(ListedItem(keys[i], entries[keys[i]].value)) else None)
  }

  /** `filter(s => s !== null)`. */
  function NonNull(xs: seq<Option<Json>>): (r: seq<Json>)
    ensures |r| <= |xs|
  {
    if xs == [] then []
    else (if xs[0].Some? then [xs[0].value] else []) + NonNull(xs[1..])
  }

  /** The listed keys that still have a value, in listing order. */
  function PresentKeys(entries: map<string, Form.KvEntry>, keys: seq<string>): (r: seq<string>)
    ensures |r| <= |keys|
    ensures forall k :: k in r <==> k in keys && k in entries
    ensures |r| == |keys| <==> forall i :: 0 <= i < |keys| ==> keys[i] in entries
  {
    if keys == [] then []
    else
      var rest := PresentKeys(entries, keys[1..]);
      assert forall k :: k in keys <==> k == keys[0] || k in keys[1..];
      if keys[0] in entries then
        assert forall i :: 0 <= i < |keys| - 1 ==> keys[1..][i] == keys[i + 1];
        [keys[0]] + rest
      else rest
  }

  /** Selection keeps the listing order: it distributes over concatenation. */
  lemma {:induction false} PresentKeysAppend(entries: map<string, Form.KvEntry>, a: seq<string>, b: seq<string>)
    ensures PresentKeys(entries, a + b) == PresentKeys(entries, a) + PresentKeys(entries, b)
  {
    if a != [] {
      assert (a + b)[0] == a[0] && (a + b)[1..] == a[1..] + b;
      PresentKeysAppend(entries, a[1..], b);
    } else {
      assert a + b == b;
    }
  }

  /** The items of keys that all have a value. */
  function Items(entries: map<string, Form.KvEntry>, keys: seq<string>): (items: seq<Json>)
    requires forall i :: 0 <= i < |keys| ==> keys[i] in entries
    ensures |items| == |keys|
  {
    seq(|keys|, i requires 0 <= i < |keys| => ListedItem(keys[i], entries[keys[i]].value))
  }

  /** Mapping a missing key to `null` and filtering the `null`s out leaves
      the items of the present keys, in listing order. */
  lemma {:induction false} FetchedThenFiltered(entries: map<string, Form.KvEntry>, keys: seq<string>)
    ensures NonNull(Fetched(entries, keys)) == Items(entries, PresentKeys(entries, keys))
  {
    if keys != [] {
      var f := Fetched(entries, keys);
      assert f[1..] == Fetched(entries, keys[1..]);
      FetchedThenFiltered(entries, keys[1..]);
      var rest := PresentKeys(entries, keys[1..]);
      if keys[0] in entries {
        ItemsCons(entries, keys[0], rest);
      }
    }
  }

  lemma ItemsCons(entries: map<string, Form.KvEntry>, key: string, rest: seq<string>)
    requires key in entries && forall i :: 0 <= i < |rest| ==> rest[i] in entries
    ensures Items(entries, [key] + rest) == [ListedItem(key, entries[key].value)] + Items(entries, rest)
  {
    var keys := [key] + rest;
    assert forall i :: 1 <= i < |keys| ==> keys[i] == rest[i - 1];
  }

  /** `GET /api/submissions` after the middleware: each listed key is looked
      up, a key whose value is gone gives `null`, and the `null`s are
      filtered out of both the count and the list. */
  function ListSubmissions(entries: map<string, Form.KvEntry>, keys: seq<string>): (r: Response)
    ensures r.status == 200
    ensures r.body.JsonBody? && r.body.json.JObj?
    ensures Field(r.body.json, "success") == Some(JBool(true))
    ensures Field(r.body.json, "count") == Some(JNum(|PresentKeys(entries, keys)|))
    ensures Field(r.body.json, "submissions") == Some(JArr(Items(entries, PresentKeys(entries, keys))))
  {
    var items := NonNull(Fetched(entries, keys));
    FetchedThenFiltered(entries, keys);
    JsonResponse(JObj(map["success" := JBool(true), "count" := JNum(|items|), "submissions" := JArr(items)]))
  }

  /** A key whose value is gone is neither counted nor listed: the count
      falls short of the listing exactly when some key is missing. */
  lemma MissingKeysSkipped(entries: map<string, Form.KvEntry>, keys: seq<string>)
    ensures Field(ListSubmissions(entries, keys).body.json, "count") == Some(JNum(|keys|)) <==>
      forall i :: 0 <= i < |keys| ==> keys[i] in entries
    ensures forall k :: k in PresentKeys(entries, keys) ==> k in keys && k in entries
  {
  }

  /** A record stored by the form handler is listed exactly as it was
      stored; its key, with the prefix replaced away, is the record's id,
      so the listed id agrees with the key whether or not the record
      carried one. */
  lemma StoredSubmissionListed(sub: Form.Submission)
    ensures ReplaceFirst(Form.SubmissionKey(sub.id), Form.KeyPrefix, "") == sub.id
    ensures ListedItem(Form.SubmissionKey(sub.id), Form.SubmissionJson(sub)) == Form.SubmissionJson(sub)
  {
    ReplacePrefix(Form.KeyPrefix, "", sub.id);
    var stored := Form.SubmissionJson(sub);
    var item := ListedItem(Form.SubmissionKey(sub.id), stored);
    assert item.fields.Keys == stored.fields.Keys;
  }

  /** Keys outside the `submission:` namespace keep their whole name as id. */
  lemma ForeignKeyKeepsName(key: string, value: Json)
    requires !value.JObj? && forall i: nat :: !OccursAt(key, Form.KeyPrefix, i)
    ensures ListedItem(key, value) == JObj(map["id" := JStr(key)])
  {
    ReplaceAbsent(key, Form.KeyPrefix, "");
  }

  /** `GET /api/submissions`: the middleware, then the list. */
  method SubmissionsRoute(users: Auth.UserTable, header: Option<string>, kv: Form.KvNamespace, keys: seq<string>)
    returns (resp: Response)
    ensures ClaimedId(header).None? || Auth.IndexById(users.rows, ClaimedId(header).value) < 0 ==>
      resp == Auth.Unauthorized
    ensures ClaimedId(header).Some? && Auth.IndexById(users.rows, ClaimedId(header).value) >= 0 ==>
      resp == ListSubmissions(kv.entries, keys)
  {
    var admitted := RequireAuth(users, header);
    if admitted.Err? {
      return admitted.error;
    }
    resp := ListSubmissions(kv.entries, keys);
  }
}
