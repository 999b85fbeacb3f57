/** The contact-form handler: field extraction and ordered validation, the
    e-mail pattern, the spam rule, the stored record and its key and expiry,
    HTML escaping for the notification e-mail and the preview in the webhook
    notification. */
module Form {
  import opened Options
  import opened Strings
  import opened Http

  // ---------------------------------------------------------------------
  // HTML escaping

  predicate IsSpecial(c: char) {
    c == '&' || c == '<' || c == '>' || c == '"' || c == '\''
  }

  predicate NoSpecials(s: string) {
    forall i :: 0 <= i < |s| ==> !IsSpecial(s[i])
  }

  /** The replacement of one character: an entity for the five special
      characters, the character itself otherwise. */
  function Entity(c: char): (e: string)
    ensures |e| >= 1 && e[0] == (if IsSpecial(c) then '&' else c)
    ensures |e| == 1 <==> !IsSpecial(c)
  {
    if c == '&' then "&amp;"
    else if c == '<' then "&lt;"
    else if c == '>' then "&gt;"
    else if c == '"' then "&quot;"
    else if c == '\'' then "&#039;"
    else [c]
  }

  /** `escapeHtml(text)`: every special character replaced by its entity in
      one left-to-right pass. The result holds no markup character, and it is
      the text itself exactly when there was nothing to escape. */
  function EscapeHtml(s: string): (r: string)
    ensures forall i :: 0 <= i < |r| ==> r[i] != '<' && r[i] != '>' && r[i] != '"' && r[i] != '\''
    ensures |r| >= |s|
    ensures |r| == |s| <==> NoSpecials(s)
    ensures NoSpecials(s) ==> r == s
  {
    if s == [] then []
    else
      var e := Entity(s[0]);
      var rest := EscapeHtml(s[1..]);
      assert NoSpecials(s) <==> !IsSpecial(s[0]) && NoSpecials(s[1..]) by {
        assert forall i :: 0 < i < |s| ==> s[i] == s[1..][i - 1];
      }
      e + rest
  }

  /** Escaping works character by character, so it distributes over
      concatenation. */
  lemma {:induction false} EscapeHtmlAppend(a: string, b: string)
    ensures EscapeHtml(a + b) == EscapeHtml(a) + EscapeHtml(b)
  {
    if a != [] {
      assert (a + b)[0] == a[0];
      assert (a + b)[1..] == a[1..] + b;
      EscapeHtmlAppend(a[1..], b);
      calc {
        EscapeHtml(a + b);
        Entity(a[0]) + EscapeHtml(a[1..] + b);
        Entity(a[0]) + (EscapeHtml(a[1..]) + EscapeHtml(b));
        (Entity(a[0]) + EscapeHtml(a[1..])) + EscapeHtml(b);
      }
    } else {
      assert a + b == b;
    }
  }

  /** How many times `c` occurs in `s`. */
  function Occurrences(s: string, c: char): nat {
    multiset(s)[c]
  }

  /** What escaping adds to the length for one character. */
  function Growth(c: char): nat {
    if c == '&' then 4 else if c == '<' || c == '>' then 3 else if c == '"' || c == '\'' then 5 else 0
  }

  /** The growth of the whole text, weighed by character counts. */
  function CountedGrowth(s: string): int {
    4 * Occurrences(s, '&') + 3 * (Occurrences(s, '<') + Occurrences(s, '>')) +
    5 * (Occurrences(s, '"') + Occurrences(s, '\''))
  }

  lemma CountedGrowthCons(c: char, s: string)
    ensures CountedGrowth([c] + s) == Growth(c) + CountedGrowth(s)
  {
    assert multiset([c] + s) == multiset{c} + multiset(s);
  }

  /** Each `&` grows the text by 4, each `<` or `>` by 3, each `"` or `'`
      by 5. */
  lemma {:induction false} EscapedLength(s: string)
    ensures |EscapeHtml(s)| == |s| + CountedGrowth(s)
  {
    if s != [] {
      assert |Entity(s[0])| == 1 + Growth(s[0]);
      EscapedLength(s[1..]);
      CountedGrowthCons(s[0], s[1..]);
      assert s == [s[0]] + s[1..];
    }
  }

  /** The text starts with one of the five entities. */
  predicate StartsEntity(t: string) {
    StartsWith(t, "&amp;") || StartsWith(t, "&lt;") || StartsWith(t, "&gt;") ||
    StartsWith(t, "&quot;") || StartsWith(t, "&#039;")
  }

  /** In escaped text every `&` opens an entity: no raw ampersand is left. */
  lemma {:induction false} AmpersandsOpenEntities(s: string)
    ensures forall i :: 0 <= i < |EscapeHtml(s)| && EscapeHtml(s)[i] == '&' ==> StartsEntity(EscapeHtml(s)[i..])
  {
    if s != [] {
      var e := Entity(s[0]);
      var rest := EscapeHtml(s[1..]);
      var r := EscapeHtml(s);
      assert r == e + rest;
      AmpersandsOpenEntities(s[1..]);
      forall i | 0 <= i < |r| && r[i] == '&' ensures StartsEntity(r[i..]) {
        if i < |e| {
          assert e[i] == '&';
          assert i == 0;
          assert r[..|e|] == e;
        } else {
          assert r[i..] == rest[i - |e|..];
        }
      }
    }
  }

  /** Entity decoding, the inverse of `EscapeHtml`. */
  function Unescape(t: string): string
    decreases |t|
  {
    if t == [] then []
    else if StartsWith(t, "&amp;") then "&" + Unescape(t[5..])
    else if StartsWith(t, "&lt;") then "<" + Unescape(t[4..])
    else if StartsWith(t, "&gt;") then ">" + Unescape(t[4..])
    else if StartsWith(t, "&quot;") then "\"" + Unescape(t[6..])
    else if StartsWith(t, "&#039;") then "'" + Unescape(t[6..])
    else [t[0]] + Unescape(t[1..])
  }

  /** A text whose character at `k` differs from `p`'s does not start with `p`. */
  lemma Mismatch(t: string, p: string, k: nat)
    requires k < |p| && k < |t| && t[k] != p[k]
    ensures !StartsWith(t, p)
  {
    if |p| <= |t| {
      assert t[..|p|][k] == t[k];
    }
  }

  lemma UnescapeEntity(c: char, rest: string)
    ensures Unescape(Entity(c) + rest) == [c] + Unescape(rest)
  {
    var e := Entity(c);
    var t := e + rest;
    assert t[..|e|] == e && t[|e|..] == rest;
    assert forall k :: 0 <= k < |e| ==> t[k] == e[k];
    if c == '&' {
    } else if c == '<' {
      Mismatch(t, "&amp;", 1);
    } else if c == '>' {
      Mismatch(t, "&amp;", 1);
      Mismatch(t, "&lt;", 1);
    } else if c == '"' {
      Mismatch(t, "&amp;", 1);
      Mismatch(t, "&lt;", 1);
      Mismatch(t, "&gt;", 1);
    } else if c == '\'' {
      Mismatch(t, "&amp;", 1);
      Mismatch(t, "&lt;", 1);
      Mismatch(t, "&gt;", 1);
      Mismatch(t, "&quot;", 1);
    } else {
      Mismatch(t, "&amp;", 0);
      Mismatch(t, "&lt;", 0);
      Mismatch(t, "&gt;", 0);
      Mismatch(t, "&quot;", 0);
      Mismatch(t, "&#039;", 0);
    }
  }

  /** Escaping loses nothing: decoding the entities gives the text back. */
  lemma {:induction false} UnescapeEscapeHtml(s: string)
    ensures Unescape(EscapeHtml(s)) == s
  {
    if s != [] {
      UnescapeEntity(s[0], EscapeHtml(s[1..]));
      UnescapeEscapeHtml(s[1..]);
    }
  }

  // ---------------------------------------------------------------------
  // The e-mail pattern

  /** One part of the pattern `[^\s@]+`. */
  predicate EmailPart(p: string) {
    p != [] && NoWhitespace(p) && '@' !in p
  }

  /** The language of `/^[^\s@]+@[^\s@]+\.[^\s@]+$/`: some `@` at `i` and
      some `.` at `j` cut the text into three parts of that form. */
  ghost predicate MatchesEmailPattern(s: string) {
    exists i, j :: 0 < i < j < |s| && s[i] == '@' && s[j] == '.' &&
      EmailPart(s[..i]) && EmailPart(s[i + 1..j]) && EmailPart(s[j + 1..])
  }

  /** A `.` with something on both sides of it. */
  predicate HasInnerDot(d: string) {
    exists p :: 0 < p < |d| - 1 && d[p] == '.'
  }

  /** `isValidEmail(email)`: no whitespace, exactly one `@` that is not the
      first character, and a `.` strictly inside the part after the `@`. */
  function IsValidEmail(s: string): (r: bool)
    ensures r <==> MatchesEmailPattern(s)
  {
    EmailDecision(s);
    var at := IndexOf(s, '@');
    at > 0 && NoWhitespace(s) && '@' !in s[at + 1..] && HasInnerDot(s[at + 1..])
  }

  lemma EmailDecision(s: string)
    ensures (var at := IndexOf(s, '@');
             at > 0 && NoWhitespace(s) && '@' !in s[at + 1..] && HasInnerDot(s[at + 1..]))
            <==> MatchesEmailPattern(s)
  {
    var at := IndexOf(s, '@');
    if at > 0 && NoWhitespace(s) && '@' !in s[at + 1..] && HasInnerDot(s[at + 1..]) {
      var d := s[at + 1..];
      var p :| 0 < p < |d| - 1 && d[p] == '.';
      EmailWitness(s, at, p);
    }
    if MatchesEmailPattern(s) {
      var i, j :| 0 < i < j < |s| && s[i] == '@' && s[j] == '.' &&
        EmailPart(s[..i]) && EmailPart(s[i + 1..j]) && EmailPart(s[j + 1..]);
      EmailParts(s, i, j);
    }
  }

  lemma EmailWitness(s: string, at: int, p: int)
    requires 0 < at < |s| && at == IndexOf(s, '@') && NoWhitespace(s)
    requires '@' !in s[at + 1..] && 0 < p < |s[at + 1..]| - 1 && s[at + 1..][p] == '.'
    ensures MatchesEmailPattern(s)
  {
    var d := s[at + 1..];
    var j := at + 1 + p;
    assert s[at + 1..j] == d[..p];
    assert s[j + 1..] == d[p + 1..];
    assert EmailPart(s[..at]);
    assert EmailPart(s[at + 1..j]);
    assert EmailPart(s[j + 1..]);
  }

  lemma EmailParts(s: string, i: int, j: int)
    requires 0 < i < j < |s| && s[i] == '@' && s[j] == '.'
    requires EmailPart(s[..i]) && EmailPart(s[i + 1..j]) && EmailPart(s[j + 1..])
    ensures IndexOf(s, '@') == i
    ensures NoWhitespace(s) && '@' !in s[i + 1..] && HasInnerDot(s[i + 1..])
  {
    assert '@' in s;
    var k := IndexOf(s, '@');
    assert forall m :: 0 <= m < i ==> s[m] == s[..i][m];
    assert forall m :: 0 <= m < k ==> s[m] == s[..k][m];
    assert k >= i;
    assert k <= i;
    forall n | 0 <= n < |s| ensures !IsWhitespace(s[n]) && (n > i ==> s[n] != '@') {
      if n < i {
        assert s[n] == s[..i][n];
      } else if i < n < j {
        assert s[n] == s[i + 1..j][n - i - 1];
      } else if n > j {
        assert s[n] == s[j + 1..][n - j - 1];
      }
    }
    var d := s[i + 1..];
    assert d[j - i - 1] == '.';
    assert forall m :: 0 <= m < |d| ==> d[m] == s[i + 1 + m];
  }

  // ---------------------------------------------------------------------
  // Fields and their validation

  /** The three fields of the posted form data; `None` is a missing field. */
  datatype FormData = FormData(name: Option<string>, email: Option<string>, message: Option<string>)

  /** `formData.get(key)?.toString().trim() || ""`. */
  function FieldValue(v: Option<string>): (r: string)
    ensures v.None? ==> r == ""
    ensures v.Some? ==> exists i, j :: WhitespaceAround(v.value, i, j) && r == v.value[i..j]
    ensures r == [] || (!IsWhitespace(r[0]) && !IsWhitespace(r[|r| - 1]))
  {
    match v
    case None => ""
    case Some(t) => Trim(t)
  }

  /** The fields after trimming, once they have passed validation. */
  datatype Fields = Fields(name: string, email: string, message: string)

  /** The check that failed. */
  datatype Invalid = NameRequired | EmailRequired | MessageRequired

  /** The 400 response for a failed check. */
  function InvalidResponse(e: Invalid): Response {
    match e
    case NameRequired => ErrorResponse(400, "Name is required and must be at least 2 characters")
    case EmailRequired => ErrorResponse(400, "Valid email is required")
    case MessageRequired => ErrorResponse(400, "Message is required and must be at least 10 characters")
  }

  const RejectedAsSpam := ErrorResponse(403, "Submission rejected as spam")

  /** The three checks in their order: the first one that fails decides the
      400 response; the fields come out trimmed. */
  function Validate(form: FormData): (r: Result<Fields, Invalid>)
    ensures r.Ok? <==>
      |FieldValue(form.name)| >= 2 && IsValidEmail(FieldValue(form.email)) && |FieldValue(form.message)| >= 10
    ensures r.Ok? ==> r.value == Fields(FieldValue(form.name), FieldValue(form.email), FieldValue(form.message))
    ensures r == Err(NameRequired) <==> |FieldValue(form.name)| < 2
    ensures r == Err(EmailRequired) <==>
      |FieldValue(form.name)| >= 2 && !IsValidEmail(FieldValue(form.email))
    ensures r == Err(MessageRequired) <==>
      |FieldValue(form.name)| >= 2 && IsValidEmail(FieldValue(form.email)) && |FieldValue(form.message)| < 10
  {
    var name := FieldValue(form.name);
    var email := FieldValue(form.email);
    var message := FieldValue(form.message);
    if name == "" || |name| < 2 then Err(NameRequired)
    else if email == "" || !IsValidEmail(email) then Err(EmailRequired)
    else if message == "" || |message| < 10 then Err(MessageRequired)
    else Ok(Fields(name, email, message))
  }

  /** Validated fields are already trimmed, and the e-mail matches the
      pattern. */
  lemma ValidatedFieldsAreTrimmed(form: FormData)
    requires Validate(form).Ok?
    ensures var f := Validate(form).value;
      Trim(f.name) == f.name && Trim(f.email) == f.email && Trim(f.message) == f.message &&
      MatchesEmailPattern(f.email)
  {
    TrimFieldValue(form.name);
    TrimFieldValue(form.email);
    TrimFieldValue(form.message);
  }

  lemma TrimFieldValue(v: Option<string>)
    ensures Trim(FieldValue(v)) == FieldValue(v)
  {
    if v.Some? {
      TrimIdempotent(v.value);
    }
  }

  // ---------------------------------------------------------------------
  // Spam

  /** The classifier sees at most the first 512 characters. */
  function ClassifierInput(message: string): (t: string)
    ensures |t| <= 512 && |t| <= |message| && t == message[..|t|]
    ensures |message| <= 512 ==> t == message
    ensures |message| > 512 ==> |t| == 512
  {
    if |message| <= 512 then message else message[..512]
  }

  /** `checkSpam(message, ai)`: a message shorter than 10 characters once
      trimmed is spam; otherwise it is spam when the sentiment model labels
      its first 512 characters NEGATIVE with score above 0.7, which
      `negative` stands for (an AI failure counts as not spam). */
  function IsSpam(message: string, negative: string -> bool): (r: bool)
    ensures |Trim(message)| < 10 ==> r
    ensures |Trim(message)| >= 10 ==> (r <==> negative(ClassifierInput(message)))
  {
    |Trim(message)| < 10 || negative(ClassifierInput(message))
  }

  /** After validation the length rule never fires: the verdict is the
      classifier's alone. */
  lemma ValidatedMessageNotShort(form: FormData, negative: string -> bool)
    requires Validate(form).Ok?
    ensures |Trim(Validate(form).value.message)| >= 10
    ensures IsSpam(Validate(form).value.message, negative) == negative(ClassifierInput(Validate(form).value.message))
  {
    ValidatedFieldsAreTrimmed(form);
  }

  // ---------------------------------------------------------------------
  // The stored record

  /** The submission record, `FormSubmission`. */
  datatype Submission = Submission(id: string, name: string, email: string, message: string, timestamp: string)

  function SubmissionJson(sub: Submission): Json {
    JObj(map["id" := JStr(sub.id), "name" := JStr(sub.name), "email" := JStr(sub.email),
             "message" := JStr(sub.message), "timestamp" := JStr(sub.timestamp)])
  }

  const KeyPrefix := "submission:"

  /** The store key of a submission, `submission:${id}`. */
  function SubmissionKey(id: string): (k: string)
    ensures StartsWith(k, KeyPrefix) && k[|KeyPrefix|..] == id
  {
    KeyPrefix + id
  }

  /** Thirty days, in seconds. */
  const ThirtyDays := 30 * 24 * 60 * 60

  /** `Math.floor(Date.now() / 1000) + 30 days`: the current time in whole
      seconds, rounded down, thirty days on. */
  function ExpirationTtl(nowMs: nat): (ttl: int)
    ensures ThirtyDays == 2592000
    ensures (ttl - ThirtyDays) * 1000 <= nowMs < (ttl - ThirtyDays + 1) * 1000
  {
    nowMs / 1000 + ThirtyDays
  }

  /** `{ success: true, id, message: "Form submitted successfully" }`. */
  function Submitted(id: string): Response {
    JsonResponse(JObj(map["success" := JBool(true), "id" := JStr(id), "message" := JStr("Form submitted successfully")]))
  }

  /** What the store keeps under a key: the record and the `expirationTtl`
      it was written with. */
  datatype KvEntry = KvEntry(value: Json, expirationTtl: int)

  /** The submissions namespace of the key-value store. */
  class KvNamespace {
    var entries: map<string, KvEntry>

    constructor ()
      ensures entries == map[]
    {
      entries := map[];
    }

    /** `put(key, value, { expirationTtl })`. */
    method Put(key: string, value: Json, expirationTtl: int)
      modifies this
      ensures entries == old(entries)[key := KvEntry(value, expirationTtl)]
    {
      entries := entries[key := KvEntry(value, expirationTtl)];
    }
  }

  /** What the handler gives back: a response, with the stored record
      attached on success, or an exception for the caller to catch. */
  datatype Outcome = Threw | Returned(response: Response, submission: Option<Submission>)

  /** `handleFormSubmission(c)`. The form data is `None` when it does not
      parse; `id`, `timestamp` and `nowMs` are the random UUID, the ISO time
      and the clock; `putFails` says whether the store write throws. The
      notifications cannot change the outcome (their failures are swallowed)
      and are not part of this model. */
  method HandleFormSubmission(form: Option<FormData>, kv: KvNamespace, negative: string -> bool,
                              id: string, timestamp: string, nowMs: nat, putFails: bool)
    returns (outcome: Outcome)
    modifies kv
    ensures form.None? ==> outcome == Threw && kv.entries == old(kv.entries)
    ensures form.Some? && Validate(form.value).Err? ==>
      outcome == Returned(InvalidResponse(Validate(form.value).error), None) && kv.entries == old(kv.entries)
    ensures form.Some? && Validate(form.value).Ok? && IsSpam(Validate(form.value).value.message, negative) ==>
      outcome == Returned(RejectedAsSpam, None) && kv.entries == old(kv.entries)
    ensures form.Some? && Validate(form.value).Ok? && !IsSpam(Validate(form.value).value.message, negative) && putFails ==>
      outcome == Threw && kv.entries == old(kv.entries)
    ensures form.Some? && Validate(form.value).Ok? && !IsSpam(Validate(form.value).value.message, negative) && !putFails ==>
      var f := Validate(form.value).value;
      var sub := Submission(id, f.name, f.email, f.message, timestamp);
      outcome == Returned(Submitted(id), Some(sub)) &&
      kv.entries == old(kv.entries)[SubmissionKey(id) := KvEntry(SubmissionJson(sub), ExpirationTtl(nowMs))]
  {
    if form.None? {
      return Threw;
    }
    var checked := Validate(form.value);
    if checked.Err? {
      return Returned(InvalidResponse(checked.error), None);
    }
    var f := checked.value;
    if IsSpam(f.message, negative) {
      return Returned(RejectedAsSpam, None);
    }
    var sub := Submission(id, f.name, f.email, f.message, timestamp);
    if putFails {
      return Threw;
    }
    kv.Put(SubmissionKey(id), SubmissionJson(sub), ExpirationTtl(nowMs));
    outcome := Returned(Submitted(id), Some(sub));
  }

  // ---------------------------------------------------------------------
  // Notifications

  /** The message as the webhook notification quotes it: the first 200
      characters, followed by `...` when something was cut. */
  function WebhookPreview(message: string): (r: string)
    ensures |message| <= 200 ==> r == message
    ensures |message| > 200 ==> |r| == 203 && r[..200] == message[..200] && r[200..] == "..."
  {
    message[..if |message| < 200 then |message| else 200] + (if |message| > 200 then "..." else "")
  }
}
