/** Accounts: password hashing, registration, login with its Base64 token,
    and the token check. The users table is an object whose rows the
    handlers read and whose registration appends to; the SHA-256 digest is a
    function parameter (the model does not compute it). */
module Auth {
  import opened Options
  import opened Strings
  import opened Http
  import Numbers
  import Base64

  type Byte = Base64.Byte

  // ---------------------------------------------------------------------
  // Hex text of a digest

  function HexDigit(d: nat): (c: char)
    requires d < 16
    ensures HexValue(c) == d
  {
    if d < 10 then ('0' as int + d) as char else ('a' as int + (d - 10)) as char
  }

  /** The value of a lowercase hex digit, or -1. */
  function HexValue(c: char): (v: int)
    ensures -1 <= v < 16
  {
    if '0' <= c <= '9' then c as int - '0' as int
    else if 'a' <= c <= 'f' then c as int - 'a' as int + 10
    else -1
  }

  /** `b.toString(16).padStart(2, "0")`: two lowercase digits, high first. */
  function ByteHex(b: Byte): string {
    [HexDigit(b / 16), HexDigit(b % 16)]
  }

  /** The digest bytes as lowercase hex, two digits per byte. */
  function ToHex(bytes: seq<Byte>): (h: string)
    ensures |h| == 2 * |bytes|
    ensures forall i :: 0 <= i < |h| ==> HexValue(h[i]) >= 0
  {
    if bytes == [] then [] else ByteHex(bytes[0]) + ToHex(bytes[1..])
  }

  /** Reads hex text back into bytes; odd length or a non-digit fails. */
  function FromHex(h: string): Option<seq<Byte>>
    decreases |h|
  {
    if h == [] then Some([])
    else if |h| == 1 || HexValue(h[0]) < 0 || HexValue(h[1]) < 0 then None
    else
      match FromHex(h[2..])
      case None => None
      case Some(rest) => Some([HexValue(h[0]) * 16 + HexValue(h[1])] + rest)
  }

  /** The hex text carries the digest exactly. */
  lemma {:induction false} FromHexToHex(bytes: seq<Byte>)
    ensures FromHex(ToHex(bytes)) == Some(bytes)
  {
    if bytes != [] {
      var h := ToHex(bytes);
      assert h[0] == HexDigit(bytes[0] / 16) && h[1] == HexDigit(bytes[0] % 16);
      assert h[2..] == ToHex(bytes[1..]);
      FromHexToHex(bytes[1..]);
      assert HexValue(h[0]) * 16 + HexValue(h[1]) == bytes[0];
      assert bytes == [bytes[0]] + bytes[1..];
    }
  }

  /** `hashPassword(password)`: the hex text of the digest of the password. */
  function HashPassword(digest: string -> seq<Byte>, password: string): (h: string)
    ensures |h| == 2 * |digest(password)|
    ensures FromHex(h) == Some(digest(password))
  {
    FromHexToHex(digest(password));
    ToHex(digest(password))
  }

  /** Two passwords hash alike exactly when their digests agree. */
  lemma HashesAgree(digest: string -> seq<Byte>, p: string, q: string)
    ensures HashPassword(digest, p) == HashPassword(digest, q) <==> digest(p) == digest(q)
  {
    if HashPassword(digest, p) == HashPassword(digest, q) {
      assert FromHex(HashPassword(digest, p)) == Some(digest(p));
    }
  }

  // ---------------------------------------------------------------------
  // Request bodies

  /** The string property `key` of a JSON body; anything else is absent. */
  function StringField(body: Json, key: string): Option<string> {
    match Field(body, key)
    case Some(JStr(t)) => Some(t)
    case _ => None
  }

  /** `const { username, password } = await c.req.json()` succeeds: the body
      parsed and is not `null`. */
  predicate Destructures(body: Option<Json>) {
    body.Some? && !body.value.JNull?
  }

  /** A truthy string of at least `n` characters. */
  predicate AtLeast(v: Option<string>, n: nat) {
    v.Some? && v.value != "" && |v.value| >= n
  }

  /** A truthy string. */
  predicate Present(v: Option<string>) {
    v.Some? && v.value != ""
  }

  const InternalError := ErrorResponse(500, "Internal server error")
  const Unauthorized := ErrorResponse(401, "Unauthorized")
  const InvalidToken := ErrorResponse(401, "Invalid token")
  const InvalidCredentials := ErrorResponse(401, "Invalid username or password")

  // ---------------------------------------------------------------------
  // The users table

  datatype User = User(id: nat, username: string, passwordHash: string)

  /** The first row with the given username, as `.first()` returns it. */
  function IndexByName(rows: seq<User>, name: string): (k: int)
    ensures -1 <= k < |rows|
    ensures k == -1 <==> forall i :: 0 <= i < |rows| ==> rows[i].username != name
    ensures k >= 0 ==> rows[k].username == name && forall i :: 0 <= i < k ==> rows[i].username != name
  {
    if rows == [] then -1
    else if rows[|rows| - 1].username == name && IndexByName(rows[..|rows| - 1], name) == -1 then |rows| - 1
    else IndexByName(rows[..|rows| - 1], name)
  }

  /** The first row with the given id. */
  function IndexById(rows: seq<User>, id: int): (k: int)
    ensures -1 <= k < |rows|
    ensures k == -1 <==> forall i :: 0 <= i < |rows| ==> rows[i].id != id
    ensures k >= 0 ==> rows[k].id == id && forall i :: 0 <= i < k ==> rows[i].id != id
  {
    if rows == [] then -1
    else if rows[|rows| - 1].id == id && IndexById(rows[..|rows| - 1], id) == -1 then |rows| - 1
    else IndexById(rows[..|rows| - 1], id)
  }

  /** With distinct ids, looking a row's id up finds that very row. */
  lemma IdFindsRow(rows: seq<User>, k: int)
    requires 0 <= k < |rows| && forall i, j :: 0 <= i < j < |rows| ==> rows[i].id != rows[j].id
    ensures IndexById(rows, rows[k].id) == k
  {
    var found := IndexById(rows, rows[k].id);
    assert found >= 0 by {
      assert rows[k].id == rows[k].id;
    }
  }

  /** The registration checks in their order, on a body that destructured:
      username of at least 3 characters, then password of at least 6. */
  function RegistrationFields(body: Json): (r: Result<(string, string), Response>)
    ensures r.Ok? <==> AtLeast(StringField(body, "username"), 3) && AtLeast(StringField(body, "password"), 6)
    ensures r.Ok? ==> r.value == (StringField(body, "username").value, StringField(body, "password").value)
    ensures r.Err? ==> r.error.status == 400
    ensures AtLeast(StringField(body, "username"), 3) && !AtLeast(StringField(body, "password"), 6) ==>
      r == Err(ErrorResponse(400, "Password must be at least 6 characters"))
  {
    var username := StringField(body, "username");
    var password := StringField(body, "password");
    if !AtLeast(username, 3) then Err(ErrorResponse(400, "Username must be at least 3 characters"))
    else if !AtLeast(password, 6) then Err(ErrorResponse(400, "Password must be at least 6 characters"))
    else Ok((username.value, password.value))
  }

  /** A short username is reported before anything about the password. */
  lemma UsernameCheckedFirst(body: Json)
    requires !AtLeast(StringField(body, "username"), 3)
    ensures RegistrationFields(body) == Err(ErrorResponse(400, "Username must be at least 3 characters"))
  {
  }

  /** `{ success: true, message, userId }`. */
  function Registered(id: nat): Response {
    JsonResponse(JObj(map["success" := JBool(true), "message" := JStr("User registered successfully"), "userId" := JNum(id)]))
  }

  /** The `user` object of the login and verify responses. */
  function UserJson(u: User): Json {
    JObj(map["id" := JNum(u.id), "username" := JStr(u.username)])
  }

  function LoggedIn(token: string, u: User): Response {
    JsonResponse(JObj(map["success" := JBool(true), "token" := JStr(token), "user" := UserJson(u)]))
  }

  function Verified(u: User): Response {
    JsonResponse(JObj(map["success" := JBool(true), "user" := UserJson(u)]))
  }

  /** The text a login token encodes: `${id}:${username}:${Date.now()}`. */
  function TokenText(id: nat, username: string, nowMs: nat): string {
    Numbers.NatToString(id) + ":" + username + ":" + Numbers.NatToString(nowMs)
  }

  /** `btoa(...)` of the token text; `None` when a character of the username
      is above 255 and `btoa` throws. */
  function Token(id: nat, username: string, nowMs: nat): (t: Option<string>)
    ensures t.Some? <==> Base64.IsLatin1(username)
  {
    var text := TokenText(id, username, nowMs);
    assert Base64.IsLatin1(text) <==> Base64.IsLatin1(username) by {
      var a := Numbers.NatToString(id) + ":";
      assert text == a + username + ":" + Numbers.NatToString(nowMs);
      assert forall i :: 0 <= i < |username| ==> text[|a| + i] == username[i];
      assert forall i :: 0 <= i < |text| ==> Numbers.IsDigit(text[i], 10) || text[i] == ':' || (|a| <= i < |a| + |username| && text[i] == username[i - |a|]);
    }
    Base64.Btoa(text)
  }

  /** `authHeader.startsWith("Bearer ") ? authHeader.substring(7) : reject`,
      with a missing or empty header rejected too. */
  function BearerToken(header: Option<string>): (t: Option<string>)
    ensures t.Some? <==> header.Some? && StartsWith(header.value, "Bearer ")
    ensures t.Some? ==> header.value == "Bearer " + t.value
  {
    if header.None? || header.value == "" || !StartsWith(header.value, "Bearer ") then None
    else
      assert header.value == header.value[..7] + header.value[7..];
      Some(header.value[7..])
  }

  /** `atob(token).split(":")[0]`; `None` when `atob` throws. */
  function TokenUserField(token: string): Option<string> {
    match Base64.Atob(token)
    case None => None
    case Some(decoded) => Some(FirstField(decoded, ':'))
  }

  /** A token names its user: decoding it and taking the first field gives
      the id's text back, which `parseInt` and `Number` both read as the id. */
  lemma TokenNamesUser(id: nat, username: string, nowMs: nat)
    requires Token(id, username, nowMs).Some?
    ensures TokenUserField(Token(id, username, nowMs).value) == Some(Numbers.NatToString(id))
    ensures Numbers.ParseInt(Numbers.NatToString(id)) == Some(id)
    ensures Numbers.ToNumber(Numbers.NatToString(id)) == Some(id)
  {
    TokenDecodes(id, username, nowMs);
    TokenTextFirstField(id, username, nowMs);
    Numbers.ParseIntOfNatToString(id);
    Numbers.ToNumberOfNatToString(id);
  }

  /** `atob` gives the token text back. */
  lemma TokenDecodes(id: nat, username: string, nowMs: nat)
    requires Token(id, username, nowMs).Some?
    ensures TokenUserField(Token(id, username, nowMs).value) == Some(FirstField(TokenText(id, username, nowMs), ':'))
  {
    var text := TokenText(id, username, nowMs);
    assert Base64.IsLatin1(text);
    Base64.AtobOfBtoa(text);
  }

  /** The text before the first `:` of the token text is the id. */
  lemma TokenTextFirstField(id: nat, username: string, nowMs: nat)
    ensures FirstField(TokenText(id, username, nowMs), ':') == Numbers.NatToString(id)
  {
    var a := Numbers.NatToString(id);
    var rest := username + ":" + Numbers.NatToString(nowMs);
    Numbers.NatToStringHasNoColon(id);
    assert TokenText(id, username, nowMs) == a + [':'] + rest;
    FirstFieldOfJoin(a, ':', rest);
  }

  /** A well-formed `Authorization` header for a token. */
  lemma BearerOfToken(token: string)
    ensures BearerToken(Some("Bearer " + token)) == Some(token)
  {
    assert ("Bearer " + token)[..7] == "Bearer ";
  }

  /** The `users` table. Ids come from an increasing counter, so they are
      distinct; registration refuses a taken username, so those are too. */
  class UserTable {
    var rows: seq<User>
    /** The largest id handed out so far (`last_row_id`). */
    var lastId: nat

    ghost predicate Valid()
      reads this
    {
      (forall i :: 0 <= i < |rows| ==> rows[i].id <= lastId) &&
      (forall i, j :: 0 <= i < j < |rows| ==> rows[i].id != rows[j].id) &&
      (forall i, j :: 0 <= i < j < |rows| ==> rows[i].username != rows[j].username)
    }

    constructor ()
      ensures Valid() && rows == [] && lastId == 0
    {
      rows := [];
      lastId := 0;
    }

    /** `registerUser(c)`. `body` is `None` when the body is not JSON;
        `insertFails` says whether the insert reports failure. */
    method RegisterUser(body: Option<Json>, digest: string -> seq<Byte>, insertFails: bool)
      returns (resp: Response)
      requires Valid()
      modifies this
      ensures Valid()
      ensures !Destructures(body) ==> resp == InternalError && rows == old(rows) && lastId == old(lastId)
      ensures Destructures(body) && RegistrationFields(body.value).Err? ==>
        resp == RegistrationFields(body.value).error && rows == old(rows) && lastId == old(lastId)
      ensures (Destructures(body) && RegistrationFields(body.value).Ok? &&
               IndexByName(old(rows), RegistrationFields(body.value).value.0) >= 0) ==>
        resp == ErrorResponse(409, "Username already exists") && rows == old(rows) && lastId == old(lastId)
      ensures (Destructures(body) && RegistrationFields(body.value).Ok? &&
               IndexByName(old(rows), RegistrationFields(body.value).value.0) < 0 && insertFails) ==>
        resp == ErrorResponse(500, "Failed to register user") && rows == old(rows) && lastId == old(lastId)
      ensures (Destructures(body) && RegistrationFields(body.value).Ok? &&
               IndexByName(old(rows), RegistrationFields(body.value).value.0) < 0 && !insertFails) ==>
        var (username, password) := RegistrationFields(body.value).value;
        lastId == old(lastId) + 1 &&
        rows == old(rows) + [User(lastId, username, HashPassword(digest, password))] &&
        resp == Registered(lastId)
    {
      if !Destructures(body) {
        return InternalError;
      }
      var fields := RegistrationFields(body.value);
      if fields.Err? {
        return fields.error;
      }
      var (username, password) := fields.value;
      if IndexByName(rows, username) >= 0 {
        return ErrorResponse(409, "Username already exists");
      }
      var hash := HashPassword(digest, password);
      if insertFails {
        return ErrorResponse(500, "Failed to register user");
      }
      lastId := lastId + 1;
      rows := rows + [User(lastId, username, hash)];
      resp := Registered(lastId);
    }

    /** `loginUser(c)`: both credentials are required; an unknown username
        and a wrong password get the very same 401; success returns the
        token for the clock reading `nowMs`. */
    method LoginUser(body: Option<Json>, digest: string -> seq<Byte>, nowMs: nat) returns (resp: Response)
      ensures !Destructures(body) ==> resp == InternalError
      ensures Destructures(body) && !(Present(StringField(body.value, "username")) && Present(StringField(body.value, "password"))) ==>
        resp == ErrorResponse(400, "Username and password are required")
      ensures Destructures(body) && Present(StringField(body.value, "username")) && Present(StringField(body.value, "password")) ==>
        var k := IndexByName(rows, StringField(body.value, "username").value);
        (k < 0 || rows[k].passwordHash != HashPassword(digest, StringField(body.value, "password").value) ==>
          resp == InvalidCredentials) &&
        (k >= 0 && rows[k].passwordHash == HashPassword(digest, StringField(body.value, "password").value) ==>
          match Token(rows[k].id, rows[k].username, nowMs)
          case None => resp == InternalError
          case Some(token) => resp == LoggedIn(token, rows[k]))
    {
      if !Destructures(body) {
        return InternalError;
      }
      var username := StringField(body.value, "username");
      var password := StringField(body.value, "password");
      if !Present(username) || !Present(password) {
        return ErrorResponse(400, "Username and password are required");
      }
      var k := IndexByName(rows, username.value);
      if k < 0 {
        return InvalidCredentials;
      }
      var user := rows[k];
      if HashPassword(digest, password.value) != user.passwordHash {
        return InvalidCredentials;
      }
      var token := Token(user.id, user.username, nowMs);
      if token.None? {
        return InternalError;
      }
      resp := LoggedIn(token.value, user);
    }

    /** `verifyToken(c)`: a missing or non-Bearer header is `Unauthorized`;
        a token that does not decode, or whose first field is not the id of
        a user under `Number`, is `Invalid token`. */
    method VerifyToken(header: Option<string>) returns (resp: Response)
      ensures BearerToken(header).None? ==> resp == Unauthorized
      ensures BearerToken(header).Some? ==>
        match TokenUserField(BearerToken(header).value)
        case None => resp == InvalidToken
        case Some(field) =>
          match Numbers.ToNumber(field)
          case None => resp == InvalidToken
          case Some(id) =>
            (IndexById(rows, id) < 0 ==> resp == InvalidToken) &&
            (IndexById(rows, id) >= 0 ==> resp == Verified(rows[IndexById(rows, id)]))
    {
      var token := BearerToken(header);
      if token.None? {
        return Unauthorized;
      }
      var field := TokenUserField(token.value);
      if field.None? {
        return InvalidToken;
      }
      var id := Numbers.ToNumber(field.value);
      if id.None? {
        return InvalidToken;
      }
      var k := IndexById(rows, id.value);
      if k < 0 {
        return InvalidToken;
      }
      resp := Verified(rows[k]);
    }
  }
}
