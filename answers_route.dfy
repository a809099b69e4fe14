/** The submissions endpoint of app/api/answers/route.ts: the payload shape
    check and insert of POST, and the limit clamp, the two-tier access
    decision and the select of GET. Both handlers run against a `Db.Pool`;
    what they send and answer is specified by `PostOutcome` and
    `GetOutcome`. */
module AnswersRoute {
  import opened Common
  import opened JsValues
  import opened Db

  // ---------------------------------------------------------------------------
  // Responses

  /** The JSON bodies the handlers answer with: `{ok: true, id}`,
      `{ok: false}`, `{error: 'Unauthorized'}` and `{items: rows}`. */
  datatype Body =
    | Acknowledged(id: string)
    | Rejected
    | Unauthorized
    | Items(rows: seq<SubmissionRow>)

  datatype Response = Response(status: int, body: Body)

  /** What one request does: the statements it sends and its response. */
  datatype Handled = Handled(sent: seq<Statement>, response: Response)

  // ---------------------------------------------------------------------------
  // The payload schema

  /** An accepted payload, with unknown keys dropped. */
  datatype Submission = Submission(answers: map<string, string>, persona: string, meta: Option<map<string, Json>>)

  /** `z.record(z.string(), z.string())`: an object whose values are all
      strings. */
  predicate IsStringRecord(j: Json) {
    j.JObj? && forall key :: key in j.fields ==> j.fields[key].JStr?
  }

  /** `AnswerSchema` accepts `body`: an object with a string record
      `answers`, a string `persona` (possibly empty) and, if present, an
      object `meta`. */
  predicate Accepts(body: Json) {
    && body.JObj?
    && "answers" in body.fields && IsStringRecord(body.fields["answers"])
    && "persona" in body.fields && body.fields["persona"].JStr?
    && ("meta" in body.fields ==> body.fields["meta"].JObj?)
  }

  /** `AnswerSchema.parse`: the submission, or `None` where it throws. */
  function Parse(body: Json): (r: Option<Submission>)
    ensures r.Some? <==> Accepts(body)
    ensures r.Some? ==> JStr(r.value.persona) == body.fields["persona"]
    ensures r.Some? ==> (r.value.answers.Keys == body.fields["answers"].fields.Keys
      && forall key :: key in r.value.answers ==> JStr(r.value.answers[key]) == body.fields["answers"].fields[key])
    ensures r.Some? ==> (r.value.meta.Some? <==> "meta" in body.fields)
    ensures r.Some? && r.value.meta.Some? ==> body.fields["meta"] == JObj(r.value.meta.value)
  {
    if !Accepts(body) then None
    else
      var answers := body.fields["answers"].fields;
      Some(Submission(
        map key | key in answers :: answers[key].s,
        body.fields["persona"].s,
        if "meta" in body.fields then Some(body.fields["meta"].fields) else None))
  }

  /** The answers record as a JSON object. */
  function AnswersJson(answers: map<string, string>): Json {
    JObj(map key | key in answers :: JStr(answers[key]))
  }

  /** The payload a client sends for a submission. */
  function SubmissionJson(sub: Submission): Json {
    var fields := map["answers" := AnswersJson(sub.answers), "persona" := JStr(sub.persona)];
    JObj(if sub.meta.Some? then fields["meta" := JObj(sub.meta.value)] else fields)
  }

  /** Every submission is accepted as sent and parses back to itself. */
  lemma ParseSubmissionJson(sub: Submission)
    ensures Parse(SubmissionJson(sub)) == Some(sub)
  {
    var body := SubmissionJson(sub);
    assert Accepts(body);
    var r := Parse(body).value;
    assert r.answers == sub.answers;
  }

  /** Keys other than answers, persona and meta are ignored. */
  lemma ParseIgnoresOtherKeys(fields: map<string, Json>, key: string, v: Json)
    requires key != "answers" && key != "persona" && key != "meta"
    ensures Parse(JObj(fields[key := v])) == Parse(JObj(fields))
  {
    var extended := fields[key := v];
    if Accepts(JObj(fields)) {
      assert extended["answers"] == fields["answers"] && extended["persona"] == fields["persona"];
      assert "meta" in extended <==> "meta" in fields;
    }
  }

  /** A payload without answers, with a non-object answers, with a non-string
      answer, without a string persona or with a non-object meta is
      rejected. */
  lemma ParseRejects(body: Json)
    requires body.JObj?
    requires || "answers" !in body.fields
             || !body.fields["answers"].JObj?
             || (exists key :: key in body.fields["answers"].fields && !body.fields["answers"].fields[key].JStr?)
             || "persona" !in body.fields
             || !body.fields["persona"].JStr?
             || ("meta" in body.fields && !body.fields["meta"].JObj?)
    ensures Parse(body) == None
  {
  }

  // ---------------------------------------------------------------------------
  // POST: store one submission

  /** The template of the INSERT, split where the four values go. */
  const InsertFragments: seq<string> := [
    "\n      INSERT INTO quiz_submissions (id, answers, persona, meta)\n      VALUES (\n        ",
    ",\n        ",
    "::jsonb,\n        ",
    ",\n        ",
    "::jsonb\n      )\n    "]

  /** The INSERT text: it depends on the fragments alone. */
  const InsertText: string := BuildText(InsertFragments, [Null, Null, Null, Null])

  /** The values bound to the INSERT: the id, the answers as JSON text, the
      persona and the meta as JSON text (`{}` when absent). */
  function InsertValues(id: string, sub: Submission, stringify: Json -> string): (values: seq<SqlParam>)
    ensures |values| == 4 && forall i :: 0 <= i < 4 ==> values[i].Text?
  {
    [Text(id), Text(stringify(AnswersJson(sub.answers))), Text(sub.persona),
     Text(stringify(JObj(sub.meta.GetOr(map[]))))]
  }

  /** The INSERT reads `$1, $2::jsonb, $3, $4::jsonb`. */
  lemma InsertTextPlaceholders()
    ensures InsertText == InsertFragments[0] + "$1" + InsertFragments[1] + "$2" + InsertFragments[2]
                          + "$3" + InsertFragments[3] + "$4" + InsertFragments[4]
  {
    var f := InsertFragments;
    BuildTextOfFour(f[0], f[1], f[2], f[3], f[4]);
    assert [f[0], f[1], f[2], f[3], f[4]] == f;
  }

  lemma PlaceholdersOneToFour()
    ensures Placeholder(1) == "$1" && Placeholder(2) == "$2" && Placeholder(3) == "$3" && Placeholder(4) == "$4"
  {
  }

  lemma BuildTextOfOne(f0: string, f1: string)
    ensures BuildText([f0, f1], [Null]) == f0 + "$1" + f1
  {
    BuildTextNoValues(f0);
    BuildTextAppend([f0], [], f1, Null);
    assert [f0] + [f1] == [f0, f1];
    PlaceholdersOneToFour();
  }

  lemma BuildTextOfTwo(f0: string, f1: string, f2: string)
    ensures BuildText([f0, f1, f2], [Null, Null]) == f0 + "$1" + f1 + "$2" + f2
  {
    BuildTextOfOne(f0, f1);
    BuildTextAppend([f0, f1], [Null], f2, Null);
    assert [f0, f1] + [f2] == [f0, f1, f2];
    PlaceholdersOneToFour();
  }

  lemma BuildTextOfThree(f0: string, f1: string, f2: string, f3: string)
    ensures BuildText([f0, f1, f2, f3], [Null, Null, Null]) == f0 + "$1" + f1 + "$2" + f2 + "$3" + f3
  {
    BuildTextOfTwo(f0, f1, f2);
    BuildTextAppend([f0, f1, f2], [Null, Null], f3, Null);
    assert [f0, f1, f2] + [f3] == [f0, f1, f2, f3];
    PlaceholdersOneToFour();
  }

  /** Any five fragments around four values. */
  lemma BuildTextOfFour(f0: string, f1: string, f2: string, f3: string, f4: string)
    ensures BuildText([f0, f1, f2, f3, f4], [Null, Null, Null, Null])
         == f0 + "$1" + f1 + "$2" + f2 + "$3" + f3 + "$4" + f4
  {
    BuildTextOfThree(f0, f1, f2, f3);
    BuildTextAppend([f0, f1, f2, f3], [Null, Null, Null], f4, Null);
    assert [f0, f1, f2, f3] + [f4] == [f0, f1, f2, f3, f4];
    PlaceholdersOneToFour();
  }

  /** What the driver receives for the INSERT. */
  function InsertParams(id: string, sub: Submission, stringify: Json -> string): (params: seq<PgParam>)
    ensures |params| == 4 && forall i :: 0 <= i < 4 ==> params[i].PgText?
  {
    [PgText(id), PgText(stringify(AnswersJson(sub.answers))), PgText(sub.persona),
     PgText(stringify(JObj(sub.meta.GetOr(map[]))))]
  }

  /** The four INSERT values pass the driver's normalization unchanged. */
  lemma InsertValuesNormalize(id: string, sub: Submission, stringify: Json -> string)
    ensures NormalizeParams(InsertValues(id, sub, stringify)) == Ok(InsertParams(id, sub, stringify))
  {
    var values := InsertValues(id, sub, stringify);
    var r := NormalizeParams(values);
    var expected := InsertParams(id, sub, stringify);
    assert forall i :: 0 <= i < 4 ==> NormalizeParam(values[i]) == Ok(expected[i]);
    assert r.value == expected;
  }

  /** The INSERT of a submission and the response built from the store's
      last answer. */
  function ServeInsert(id: string, sub: Submission, stringify: Json -> string, respond: Behaviour, k: nat): (h: Handled)
    ensures 1 <= |h.sent| <= 2
    ensures forall j :: 0 <= j < |h.sent| ==> h.sent[j] == Statement(InsertText, InsertParams(id, sub, stringify))
    ensures h.response ==
      if respond(k + |h.sent| - 1, h.sent[|h.sent| - 1]).Ok? then Response(200, Acknowledged(id)) else Response(400, Rejected)
  {
    var values := InsertValues(id, sub, stringify);
    BuildTextIgnoresValues(InsertFragments, values, [Null, Null, Null, Null]);
    InsertValuesNormalize(id, sub, stringify);
    var e := QueryOf(respond, k, InsertFragments, values);
    Handled(e.sent, if e.result.Ok? then Response(200, Acknowledged(id)) else Response(400, Rejected))
  }

  /** POST for a request body `body` (`None` when it is not JSON), the fresh
      id `id`, and `JSON.stringify` given as `stringify`. */
  function PostOutcome(body: Option<Json>, id: string, stringify: Json -> string, respond: Behaviour, k: nat): (h: Handled)
    // a body that is not JSON or not a submission: 400, nothing sent
    ensures (body.None? || !Accepts(body.value)) ==> h == Handled([], Response(400, Rejected))
    // a submission: one INSERT, sent once more after a transient failure
    ensures body.Some? && Accepts(body.value) ==> (1 <= |h.sent| <= 2
      && forall j :: 0 <= j < |h.sent| ==> h.sent[j] == Statement(InsertText, InsertParams(id, Parse(body.value).value, stringify)))
    // the store's last answer decides: acknowledged with the bound id, or 400
    ensures |h.sent| > 0 ==> (h.response ==
      if respond(k + |h.sent| - 1, h.sent[|h.sent| - 1]).Ok? then Response(200, Acknowledged(id)) else Response(400, Rejected))
    ensures h.response.status == 200 <==> h.response.body.Acknowledged?
    ensures h.response.status == 200 || h.response.status == 400
  {
    if body.None? then Handled([], Response(400, Rejected))
    else
      match Parse(body.value)
      case None => Handled([], Response(400, Rejected))
      case Some(sub) => ServeInsert(id, sub, stringify, respond, k)
  }

  /** The POST handler: parse, validate, insert, acknowledge; any failure on
      the way answers 400. `freshId` is the `crypto.randomUUID()` value. */
  method Post(pool: Pool, body: Option<Json>, freshId: string, stringify: Json -> string) returns (response: Response)
    modifies pool
    ensures pool.issued == old(pool.issued) + PostOutcome(body, freshId, stringify, pool.respond, |old(pool.issued)|).sent
    ensures response == PostOutcome(body, freshId, stringify, pool.respond, |old(pool.issued)|).response
  {
    if body.None? {
      return Response(400, Rejected);
    }
    var parsed := Parse(body.value);
    if parsed.None? {
      return Response(400, Rejected);
    }
    var sub := parsed.value;
    var result := Query(pool, InsertFragments, InsertValues(freshId, sub, stringify));
    if result.Ok? {
      response := Response(200, Acknowledged(freshId));
    } else {
      response := Response(400, Rejected);
    }
  }

  // ---------------------------------------------------------------------------
  // GET: list submissions

  /** A GET request: the host of its URL, its `limit` search parameter after
      `Number(...)` (`None` when absent), and its headers under lower-case
      names. */
  datatype Request = Request(urlHost: string, limit: Option<JsNumber>, headers: map<string, string>)

  /** `Math.max(1, Math.min(isFinite(n) ? n : 100, 1000))`, with an absent
      parameter read as 100. */
  function ClampLimit(limit: Option<JsNumber>): (capped: real)
    ensures 1.0 <= capped <= 1000.0
    ensures limit.None? || !limit.value.Finite? ==> capped == 100.0
    ensures limit.Some? && limit.value.Finite? ==>
      (if limit.value.v < 1.0 then capped == 1.0
       else if limit.value.v > 1000.0 then capped == 1000.0
       else capped == limit.value.v)
  {
    var n := if limit.Some? && limit.value.Finite? then limit.value.v else 100.0;
    var atMost := if n < 1000.0 then n else 1000.0;
    if 1.0 < atMost then atMost else 1.0
  }

  /** Clamping a clamped limit changes nothing. */
  lemma ClampLimitIdempotent(limit: Option<JsNumber>)
    ensures ClampLimit(Some(Finite(ClampLimit(limit)))) == ClampLimit(limit)
  {
  }

  /** The host the request claims: `x-forwarded-host` if present, even
      empty, and `host` otherwise. */
  function RequestHost(headers: map<string, string>): (host: Option<string>)
    ensures "x-forwarded-host" in headers ==> host == Some(headers["x-forwarded-host"])
    ensures "x-forwarded-host" !in headers ==> (host.Some? <==> "host" in headers)
    ensures "x-forwarded-host" !in headers && "host" in headers ==> host == Some(headers["host"])
  {
    if "x-forwarded-host" in headers then Some(headers["x-forwarded-host"])
    else if "host" in headers then Some(headers["host"])
    else None
  }

  /** A request from the site itself: the claimed host is non-empty and
      equals the URL's host up to letter case. */
  predicate IsSameOrigin(req: Request) {
    var host := RequestHost(req.headers);
    host.Some? && host.value != "" && Lower(host.value) == Lower(req.urlHost)
  }

  /** A forwarded host decides alone: the `host` header is then ignored. */
  lemma ForwardedHostDecides(req: Request, host: string)
    requires "x-forwarded-host" in req.headers
    ensures IsSameOrigin(req.(headers := req.headers["host" := host])) == IsSameOrigin(req)
  {
    var other := req.(headers := req.headers["host" := host]);
    assert RequestHost(other.headers) == RequestHost(req.headers);
  }

  /** A claimed host that differs from the URL's host only in letter case is
      the same origin. */
  lemma SameOriginIgnoresCase(req: Request)
    requires "x-forwarded-host" !in req.headers && "host" in req.headers
    requires req.headers["host"] != "" && Lower(req.headers["host"]) == Lower(req.urlHost)
    ensures IsSameOrigin(req)
  {
  }

  /** `s` without its leading run of white space. */
  function SkipSpaces(s: string): (r: string)
    ensures |r| <= |s| && r == s[|s| - |r|..]
    ensures forall i :: 0 <= i < |s| - |r| ==> IsJsSpace(s[i])
    ensures r == [] || !IsJsSpace(r[0])
  {
    if s != [] && IsJsSpace(s[0]) then SkipSpaces(s[1..]) else s
  }

  /** The header starts with `Bearer`, in any letter case, and white space:
      the regular expression `/^Bearer\s+/i` matches. */
  predicate HasBearerPrefix(auth: string) {
    |auth| > 6 && Lower(auth[..6]) == "bearer" && IsJsSpace(auth[6])
  }

  /** `auth.replace(/^Bearer\s+/i, '')`: the word and the whole white-space
      run after it are removed; without the prefix the header is the token. */
  function StripBearer(auth: string): (token: string)
    ensures !HasBearerPrefix(auth) ==> token == auth
    ensures HasBearerPrefix(auth) ==> (|token| < |auth| - 6 && token == auth[|auth| - |token|..]
      && (forall i :: 6 <= i < |auth| - |token| ==> IsJsSpace(auth[i]))
      && (token == [] || !IsJsSpace(token[0])))
  {
    if HasBearerPrefix(auth) then SkipSpaces(auth[6..]) else auth
  }

  /** A header written as a bearer word, white space and a key that does not
      start with white space gives back the key. */
  lemma {:induction false} StripBearerOfHeader(word: string, spaces: string, key: string)
    requires |word| == 6 && Lower(word) == "bearer"
    requires |spaces| >= 1 && forall i :: 0 <= i < |spaces| ==> IsJsSpace(spaces[i])
    requires key == [] || !IsJsSpace(key[0])
    ensures StripBearer(word + spaces + key) == key
  {
    var auth := word + spaces + key;
    assert auth[..6] == word && auth[6] == spaces[0];
    assert auth[6..] == spaces + key;
    SkipSpacesOfRun(spaces, key);
  }

  lemma {:induction false} SkipSpacesOfRun(spaces: string, rest: string)
    requires forall i :: 0 <= i < |spaces| ==> IsJsSpace(spaces[i])
    requires rest == [] || !IsJsSpace(rest[0])
    ensures SkipSpaces(spaces + rest) == rest
  {
    if spaces == [] {
      assert spaces + rest == rest;
    } else {
      assert (spaces + rest)[1..] == spaces[1..] + rest;
      SkipSpacesOfRun(spaces[1..], rest);
    }
  }

  /** `!!token && token === (ANALYTICS_API_KEY ?? '')`. */
  function TokenAccepted(token: string, apiKey: Option<string>): (ok: bool)
    ensures ok <==> token != "" && apiKey == Some(token)
  {
    token != "" && token == apiKey.GetOr("")
  }

  /** The token carried by the request (`''` without an authorization
      header). */
  function BearerToken(headers: map<string, string>): (token: string)
    // no header, no token
    ensures "authorization" !in headers ==> token == ""
    // otherwise what is left at the end of the header
    ensures "authorization" in headers ==> (|token| <= |headers["authorization"]|
      && token == headers["authorization"][|headers["authorization"]| - |token|..])
  {
    StripBearer(if "authorization" in headers then headers["authorization"] else "")
  }

  /** The request may read submissions. */
  predicate IsAuthorized(req: Request, apiKey: Option<string>) {
    IsSameOrigin(req) || TokenAccepted(BearerToken(req.headers), apiKey)
  }

  /** Without a configured key only same-origin requests get through. */
  lemma NoKeyMeansSameOriginOnly(req: Request)
    ensures IsAuthorized(req, None) <==> IsSameOrigin(req)
  {
  }

  /** A client that sends `Bearer <key>` with the configured key gets
      through. */
  lemma BearerKeyAuthorizes(req: Request, key: string)
    requires key != "" && !IsJsSpace(key[0])
    requires "authorization" in req.headers && req.headers["authorization"] == "Bearer " + key
    ensures IsAuthorized(req, Some(key))
  {
    assert "Bearer " + key == "Bearer" + " " + key;
    StripBearerOfHeader("Bearer", " ", key);
  }

  /** The template of the SELECT, split where the limit goes. */
  const SelectFragments: seq<string> := [
    "\n      SELECT\n        id,\n        (answers)::jsonb        AS answers,\n        persona,\n        (meta)::jsonb           AS meta,\n        created_at              AS \"createdAt\"   --  别名成页面预期\n      FROM quiz_submissions\n      ORDER BY created_at DESC NULLS LAST\n      LIMIT ",
    "\n    "]

  /** The SELECT text: it depends on the fragments alone. */
  const SelectText: string := BuildText(SelectFragments, [Null])

  /** The SELECT binds its limit as `$1`. */
  lemma SelectTextPlaceholder()
    ensures SelectText == SelectFragments[0] + "$1" + SelectFragments[1]
  {
    BuildTextOfOne(SelectFragments[0], SelectFragments[1]);
    assert [SelectFragments[0], SelectFragments[1]] == SelectFragments;
  }

  /** The SELECT with `capped` as its parameter and the response built from
      the store's last answer. */
  function ServeSelect(capped: real, respond: Behaviour, k: nat): (h: Handled)
    ensures 1 <= |h.sent| <= 2
    ensures forall j :: 0 <= j < |h.sent| ==> h.sent[j] == Statement(SelectText, [PgNumber(Finite(capped))])
    ensures var last := respond(k + |h.sent| - 1, h.sent[|h.sent| - 1]);
      h.response == (if last.Ok? then Response(200, Items(last.value)) else Response(500, Items([])))
  {
    var values := [Number(Finite(capped))];
    BuildTextIgnoresValues(SelectFragments, values, [Null]);
    var e := QueryOf(respond, k, SelectFragments, values);
    Handled(e.sent, match e.result
      case Ok(rows) => Response(200, Items(rows))
      case Err(_) => Response(500, Items([])))
  }

  /** GET for a request, with `ANALYTICS_API_KEY` given as `apiKey`. */
  function GetOutcome(req: Request, apiKey: Option<string>, respond: Behaviour, k: nat): (h: Handled)
    // refused exactly when neither same-origin nor a valid token; nothing sent
    ensures h.response.status == 401 <==> !IsAuthorized(req, apiKey)
    ensures !IsAuthorized(req, apiKey) ==> h == Handled([], Response(401, Unauthorized))
    // otherwise the SELECT with the clamped limit as its one parameter
    ensures IsAuthorized(req, apiKey) ==> (1 <= |h.sent| <= 2
      && forall j :: 0 <= j < |h.sent| ==> h.sent[j] == Statement(SelectText, [PgNumber(Finite(ClampLimit(req.limit)))]))
    // the store's last answer decides: its rows, or 500 with no items
    ensures IsAuthorized(req, apiKey) ==>
      var last := respond(k + |h.sent| - 1, h.sent[|h.sent| - 1]);
      h.response == (if last.Ok? then Response(200, Items(last.value)) else Response(500, Items([])))
  {
    if !IsAuthorized(req, apiKey) then Handled([], Response(401, Unauthorized))
    else ServeSelect(ClampLimit(req.limit), respond, k)
  }

  /** The GET handler: clamp the limit, decide access, read and answer. */
  method Get(pool: Pool, req: Request, apiKey: Option<string>) returns (response: Response)
    modifies pool
    ensures pool.issued == old(pool.issued) + GetOutcome(req, apiKey, pool.respond, |old(pool.issued)|).sent
    ensures response == GetOutcome(req, apiKey, pool.respond, |old(pool.issued)|).response
  {
    var capped := ClampLimit(req.limit);
    var isSameOrigin := IsSameOrigin(req);
    var token := BearerToken(req.headers);
    var tokenOk := TokenAccepted(token, apiKey);
    if !isSameOrigin && !tokenOk {
      return Response(401, Unauthorized);
    }
    var result := Query(pool, SelectFragments, [Number(Finite(capped))]);
    if result.Ok? {
      response := Response(200, Items(result.value));
    } else {
      response := Response(500, Items([]));
    }
  }
}
