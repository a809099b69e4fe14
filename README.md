# Quiz game submissions core, in Dafny

This project models the server-side core of the quiz application. The application collects quiz answers and a persona, stores them in PostgreSQL, and shows them on an admin dashboard. The model covers four parts:

- **The query layer** (`lib/db.ts`, module `Db`):
  - the tagged-template helper `query`, which builds the SQL text with `$1..$N` placeholders and normalises the parameters (a `Date` becomes its ISO 8601 text, bytes become base 64 text as in section 4 of RFC 4648);
  - the retry of a statement, once, after a transient network error (`ETIMEDOUT`, `ECONNRESET`, `EAI_AGAIN`);
  - the process-wide pool slot `__PG_POOL__`.
- **The submissions endpoint** (`app/api/answers/route.ts`, module `AnswersRoute`):
  - POST checks the payload and inserts it;
  - GET clamps `limit`, lets through a same-origin request or one with the configured bearer key, and selects the rows.
- **The admin dashboard** (`app/admin/page.tsx`, module `AdminPage`): the read of up to 500 rows, their reshaping, the persona tally, the time column, the seven-field answers column and the first 25 rows.
- **The base-URL rule** (`lib/base-url.ts`, module `BaseUrl`).

The PostgreSQL pool is a class `Db.Pool`. Its constant `respond` is the store's answer to the k-th statement it receives: rows, or a thrown value. Its field `issued` records every statement sent. The handlers are methods over a pool. Each is proved against a function (`Db.QueryOf`, `AnswersRoute.PostOutcome`, `AnswersRoute.GetOutcome`) that states which statements are sent and what is answered.

Supporting modules:

- `Common`: options, results, bytes, decimal digits, ASCII case and the white space of JavaScript regular expressions.
- `JsValues`: JavaScript numbers and JSON values.
- `Base64`: the encoder and a decoder, with the round trip proved.
- `JsDate`: time values, `TimeClip`, `toISOString` and an ISO 8601 reader, with the round trip proved.

### Behaviour worth knowing (the model follows the code)

- `persona` may be the empty string: the schema is `z.string()`, with no minimum length.
- A POST whose insert fails answers 400 `{ok: false}`, not a server error: a single `catch` covers parsing, validation and the insert.
- The bearer prefix is `/^Bearer\s+/i`. It removes `Bearer` in any letter case and then the whole run of white space after it, not a single space.
- `limit` is not rounded: a finite value in [1, 1000] such as 2.5 is bound as it is.
- `normalizeParams` is not total: an invalid `Date` makes `toISOString` throw a `RangeError`. `query` then throws before anything is sent (`Db.NormalizeParams`, `Db.QueryOf`).

## Model

| member | source | states |
|---|---|---|
| Db.GetErrorCode | QUIZ-GAME_main/lib/db.ts:49-54 | a code is found exactly for a non-null object whose `code` property is a string, and it is that string |
| Db.ShouldRetry | QUIZ-GAME_main/lib/db.ts:57-60 | retry exactly when the thrown value is an object whose `code` is the string ETIMEDOUT, ECONNRESET or EAI_AGAIN |
| Db.NormalizeParam | QUIZ-GAME_main/lib/db.ts:36-39 | strings, numbers, booleans and null pass unchanged; a valid Date becomes text that reads back as the same time value; bytes become text that decodes back to the same bytes; only an invalid Date throws |
| Db.NormalizeParams | QUIZ-GAME_main/lib/db.ts:35-41 | succeeds exactly when every value normalises; then the result has the same length and element i is the normalisation of value i; the failure is the RangeError |
| Db.BuildText | QUIZ-GAME_main/lib/db.ts:44-46 | the text opens with the first fragment and closes with the last one |
| Db.BuildTextNoValues | QUIZ-GAME_main/lib/db.ts:44-45 | with no values the text is the single fragment |
| Db.BuildTextAppend | QUIZ-GAME_main/lib/db.ts:44-46 | one more value and fragment append `$N` and that fragment, so the placeholders run $1..$N in order |
| Db.BuildTextIgnoresValues | QUIZ-GAME_main/lib/db.ts:45 | the text depends only on the fragments and the number of values, never on their contents |
| Db.BuildTextPlaceholderCount | QUIZ-GAME_main/lib/db.ts:44-46 | the text holds exactly one `$` per value beyond those already in the fragments |
| Db.BuildTextLast | QUIZ-GAME_main/lib/db.ts:45 | the text for N values is the text for the first N-1 values, then `$N`, then the last fragment |
| Db.CountPlaceholderBetween | QUIZ-GAME_main/lib/db.ts:45 | a placeholder `$N` adds exactly one `$`, since its digits hold none |
| Db.Pool.Run | QUIZ-GAME_main/lib/db.ts:74 | one round trip: the statement is recorded and the store's answer for that position is returned |
| Db.Globals.LoadPool | QUIZ-GAME_main/lib/db.ts:26-27 | a pool in the slot is reused; otherwise a new pool is created, stored and returned |
| Db.LoadPoolTwice | QUIZ-GAME_main/lib/db.ts:26-27 | evaluating the slot twice yields the same pool, created by the first evaluation when the slot was empty |
| Db.QueryOf | QUIZ-GAME_main/lib/db.ts:66-81 | a normalisation error sends nothing; otherwise one or two identical statements (the built text and normalised parameters); two exactly when the first failed transiently; the last answer is returned or rethrown as it is |
| Db.Attempts | QUIZ-GAME_main/lib/db.ts:73-80 | the statement is sent once, and a second time exactly when the first answer is a transient failure; the last answer is the result |
| Db.Query | QUIZ-GAME_main/lib/db.ts:66-81 | the pool receives exactly the statements of `QueryOf` and the call returns its result |
| Base64.Encode | QUIZ-GAME_main/lib/db.ts:38 | the text is 4 characters per started group of 3 bytes |
| Base64.EncodeAlphabet | QUIZ-GAME_main/lib/db.ts:38 | every character of the text is from the base 64 alphabet or `=` |
| Base64.DecodeEncode | QUIZ-GAME_main/lib/db.ts:38 | decoding the base 64 text of any bytes gives back those bytes |
| JsDate.ToIsoString | QUIZ-GAME_main/lib/db.ts:37 | a valid time gives text of at least 24 characters ending in `Z`; an invalid one throws |
| JsDate.IsoRoundTrip | QUIZ-GAME_main/lib/db.ts:37 | reading back the ISO 8601 text of a valid time gives the same millisecond value |
| AnswersRoute.Accepts | QUIZ-GAME_main/app/api/answers/route.ts:8-12 | the schema's rule, as a definition: an object whose `answers` is a record of strings, whose `persona` is a string and whose `meta`, when present, is an object; `Parse` and `ParseRejects` state its consequences |
| AnswersRoute.Parse | QUIZ-GAME_main/app/api/answers/route.ts:8-12 | accepts exactly an object with a string record `answers`, a string `persona` and an optional object `meta`; the result carries those values |
| AnswersRoute.ParseSubmissionJson | QUIZ-GAME_main/app/api/answers/route.ts:8-12 | every submission, sent as JSON, is accepted and parses back to itself |
| AnswersRoute.ParseIgnoresOtherKeys | QUIZ-GAME_main/app/api/answers/route.ts:8-12 | keys other than answers, persona and meta do not change the outcome |
| AnswersRoute.ParseRejects | QUIZ-GAME_main/app/api/answers/route.ts:8-12 | a missing or non-object answers, a non-string answer, a missing or non-string persona, or a non-object meta is rejected |
| AnswersRoute.InsertValues | QUIZ-GAME_main/app/api/answers/route.ts:31-34 | four values, all text, so normalising them cannot throw; what they normalise to is `InsertParams`, as `InsertValuesNormalize` states |
| AnswersRoute.InsertTextPlaceholders | QUIZ-GAME_main/app/api/answers/route.ts:28-36 | the INSERT text is the fragments with $1..$4 between them |
| AnswersRoute.InsertParams | QUIZ-GAME_main/app/api/answers/route.ts:31-34 | four text parameters: id, answers as JSON, persona, meta as JSON or `{}` |
| AnswersRoute.InsertValuesNormalize | QUIZ-GAME_main/app/api/answers/route.ts:31-34 | the four text values pass the driver's normalisation unchanged |
| AnswersRoute.ServeInsert | QUIZ-GAME_main/app/api/answers/route.ts:28-41 | the INSERT with the four parameters once or twice; the last answer gives 200 with the bound id, or 400 |
| AnswersRoute.PostOutcome | QUIZ-GAME_main/app/api/answers/route.ts:22-43 | a body that is not JSON or not a submission answers 400 and sends nothing; a submission sends the INSERT with its four parameters once, or twice after a transient failure; the last answer gives 200 with the same id that was bound, or 400 |
| AnswersRoute.Post | QUIZ-GAME_main/app/api/answers/route.ts:22-43 | the pool receives exactly the statements of `PostOutcome` and the handler answers its response |
| AnswersRoute.ClampLimit | QUIZ-GAME_main/app/api/answers/route.ts:47-48 | the limit is in [1, 1000]; absent or non-finite gives 100; below 1 gives 1; above 1000 gives 1000; in range passes unchanged |
| AnswersRoute.ClampLimitIdempotent | QUIZ-GAME_main/app/api/answers/route.ts:48 | clamping a clamped limit changes nothing |
| AnswersRoute.RequestHost | QUIZ-GAME_main/app/api/answers/route.ts:51 | `x-forwarded-host` when present, even empty; otherwise `host` if present |
| AnswersRoute.IsSameOrigin | QUIZ-GAME_main/app/api/answers/route.ts:51-52 | the same-origin rule, as a definition: a present, non-empty claimed host equal to the URL host after lower-casing; `ForwardedHostDecides` and `SameOriginIgnoresCase` state its consequences |
| AnswersRoute.ForwardedHostDecides | QUIZ-GAME_main/app/api/answers/route.ts:51-52 | with a forwarded host present, the `host` header does not affect the same-origin decision |
| AnswersRoute.SameOriginIgnoresCase | QUIZ-GAME_main/app/api/answers/route.ts:52 | a non-empty host equal to the URL host up to letter case is same-origin |
| AnswersRoute.SkipSpaces | QUIZ-GAME_main/app/api/answers/route.ts:56 | removes a leading run of white space, and all of it |
| AnswersRoute.StripBearer | QUIZ-GAME_main/app/api/answers/route.ts:56 | without a `Bearer`+white-space prefix the header is the token; with one, the token is the rest after the word and all the white space that follows |
| AnswersRoute.StripBearerOfHeader | QUIZ-GAME_main/app/api/answers/route.ts:55-56 | a header formed as bearer word, white space and key gives back the key |
| AnswersRoute.BearerToken | QUIZ-GAME_main/app/api/answers/route.ts:55-56 | no `authorization` header gives the empty token; otherwise the token is what is left at the end of the header |
| AnswersRoute.TokenAccepted | QUIZ-GAME_main/app/api/answers/route.ts:57 | accepted exactly when the token is non-empty and the key is set and equal to it |
| AnswersRoute.IsAuthorized | QUIZ-GAME_main/app/api/answers/route.ts:51-59 | the access rule, as a definition: same-origin, or an accepted bearer token; `NoKeyMeansSameOriginOnly` and `BearerKeyAuthorizes` state its consequences |
| AnswersRoute.NoKeyMeansSameOriginOnly | QUIZ-GAME_main/app/api/answers/route.ts:55-59 | with no configured key, only same-origin requests are authorised |
| AnswersRoute.BearerKeyAuthorizes | QUIZ-GAME_main/app/api/answers/route.ts:55-59 | a request carrying `Bearer <key>` with the configured key is authorised |
| AnswersRoute.SelectTextPlaceholder | QUIZ-GAME_main/app/api/answers/route.ts:65-75 | the SELECT text binds the limit as $1 |
| AnswersRoute.ServeSelect | QUIZ-GAME_main/app/api/answers/route.ts:63-85 | the SELECT with the capped limit as its only parameter, once or twice; the last answer gives 200 with its rows or 500 with no items |
| AnswersRoute.GetOutcome | QUIZ-GAME_main/app/api/answers/route.ts:45-86 | 401 exactly when neither same-origin nor an accepted token, and then nothing is sent; otherwise the SELECT with the clamped limit as its only parameter, once or twice; the last answer gives 200 with its rows or 500 with no items |
| AnswersRoute.Get | QUIZ-GAME_main/app/api/answers/route.ts:45-86 | the pool receives exactly the statements of `GetOutcome` and the handler answers its response |
| AdminPage.PersonaNamesDistinct | QUIZ-GAME_main/app/admin/page.tsx:30-41 | the eight persona names are pairwise different |
| AdminPage.EmptyPersonaCounts | QUIZ-GAME_main/app/admin/page.tsx:30-41 | the keys are exactly the eight names, all at zero |
| AdminPage.ToItem | QUIZ-GAME_main/app/admin/page.tsx:64-70 | id, persona and time copied; NULL answers and meta become empty, others are kept |
| AdminPage.ToItems | QUIZ-GAME_main/app/admin/page.tsx:64-70 | same length and order, each row reshaped |
| AdminPage.ToItemsKeepsPersonas | QUIZ-GAME_main/app/admin/page.tsx:64-70 | reshaping keeps every persona count |
| AdminPage.GetDataDirect | QUIZ-GAME_main/app/admin/page.tsx:43-71 | sends the SELECT with no parameters once or twice; returns the reshaped rows or propagates the failure |
| AdminPage.TallyPersonas | QUIZ-GAME_main/app/admin/page.tsx:92-95 | keys stay the eight names; each count is the number of items carrying that persona |
| AdminPage.TallyStep | QUIZ-GAME_main/app/admin/page.tsx:93 | one step of the reduce keeps every count equal to the number of items so far carrying that persona |
| AdminPage.CountPersonaStep | QUIZ-GAME_main/app/admin/page.tsx:93 | one more item adds one to its own persona's count and nothing to any other |
| AdminPage.SumCountsStep | QUIZ-GAME_main/app/admin/page.tsx:93 | one more item raises the total over distinct names by one exactly when its persona is among them |
| AdminPage.TallyTotal | QUIZ-GAME_main/app/admin/page.tsx:92-95 | the counts add up to the number of items with a known persona, at most the number of items |
| AdminPage.StepAsWritten | QUIZ-GAME_main/app/admin/page.tsx:93 | one step of the reduce as written: a present key is bumped, an absent one is added exactly when it is an inherited name, no key is lost and every other slot is unchanged |
| AdminPage.TallyAsWritten | QUIZ-GAME_main/app/admin/page.tsx:92-95 | the reduce with JavaScript's `in`: the eight names always remain keys |
| AdminPage.TallyAsWrittenCounts | QUIZ-GAME_main/app/admin/page.tsx:92-95 | for any personas, the reduce as written holds the exact count of each of the eight names, and every other key is an inherited name |
| AdminPage.TallyAsWrittenAddsKey | QUIZ-GAME_main/app/admin/page.tsx:93 | a persona `toString` adds a ninth key holding a string |
| AdminPage.StepAsWrittenOwnKey | QUIZ-GAME_main/app/admin/page.tsx:93 | for a persona that is not an inherited name, one step of the reduce as written matches the counts |
| AdminPage.TallyAsWrittenAgrees | QUIZ-GAME_main/app/admin/page.tsx:92-95 | without inherited names among the personas, the reduce as written gives the counts of `TallyPersonas` |
| AdminPage.AnswerFields | QUIZ-GAME_main/app/admin/page.tsx:128-129 | seven fields, q1..q7 in order, `—` for a missing key |
| AdminPage.AnswerColumn | QUIZ-GAME_main/app/admin/page.tsx:128-130 | the column as a definition: the seven fields joined with ` \| `; `AnswerColumnSeparators` states how many separators it holds |
| AdminPage.JoinCount | QUIZ-GAME_main/app/admin/page.tsx:130 | a join holds one separator between each two parts and nothing more |
| AdminPage.AnswerColumnSeparators | QUIZ-GAME_main/app/admin/page.tsx:128-130 | when no answer contains `\|`, the column has exactly six separators, so seven fields |
| AdminPage.Times1000 | QUIZ-GAME_main/app/admin/page.tsx:81 | finite stays finite and is multiplied by 1000 |
| JsDate.TimeClip | QUIZ-GAME_main/app/admin/page.tsx:77-78 | `new Date(n)`: a valid time exactly for a finite number within 8.64e15 of the epoch, and then the number truncated toward zero |
| AdminPage.Shown | QUIZ-GAME_main/app/admin/page.tsx:78 | the display of a time as a definition: the locale text of a valid time, `—` for an invalid one |
| AdminPage.FormatCreatedAt | QUIZ-GAME_main/app/admin/page.tsx:73-86 | null or undefined shows `—`; text and numbers go through `new Date`, whose time clip decides between the locale text and `—`; `seconds` objects scale by 1000 first; a Date object shows `—` |
| AdminPage.FormatCreatedAtHidesDates | QUIZ-GAME_main/app/admin/page.tsx:73-86 | as written, a valid Date object is shown as `—` |
| AdminPage.FormatCreatedAtFixed | QUIZ-GAME_main/app/admin/page.tsx:73-86 | a Date object is shown like its time value; every other input exactly as written |
| AdminPage.FormatCreatedAtFixedAgrees | QUIZ-GAME_main/app/admin/page.tsx:76-78 | with the fix, a Date and its time value as a number show the same |
| AdminPage.Recent | QUIZ-GAME_main/app/admin/page.tsx:120 | the first min(25, n) items, in order |
| AdminPage.RenderPage | QUIZ-GAME_main/app/admin/page.tsx:88-141 | sends the SELECT; the counts are the tally of the reshaped rows over the eight names, counting own keys only (`TallyPersonas`); the table is the first 25 items, with the time column from the corrected `FormatCreatedAtFixed`; "No data yet." exactly when there are no items; a failed read propagates |
| BaseUrl.GetBaseUrl | QUIZ-GAME_main/lib/base-url.ts:2-12 | a non-empty explicit URL verbatim; else `https://` and a non-empty Vercel host; else `http://localhost:` and PORT, or 3000 when PORT is unset |
| BaseUrl.BaseUrlHasScheme | QUIZ-GAME_main/lib/base-url.ts:4-11 | unless the explicit URL is used, the result starts with `https://` or `http://` |
| BaseUrl.ExplicitBaseUrlWins | QUIZ-GAME_main/lib/base-url.ts:4 | a non-empty explicit URL makes the other variables irrelevant |
| BaseUrl.EmptyCountsAsUnset | QUIZ-GAME_main/lib/base-url.ts:4-7 | empty explicit and Vercel variables behave as unset |
| BaseUrl.LocalFallback | QUIZ-GAME_main/lib/base-url.ts:10-11 | unset PORT gives `http://localhost:3000`; an empty PORT gives `http://localhost:` |

## Findings

| source | as written | input that shows it | evidently intended | confidence | as-written member | corrected member |
|---|---|---|---|---|---|---|
| QUIZ-GAME_main/app/admin/page.tsx:73-86 | `formatCreatedAt` handles strings, numbers and `{seconds}` objects only; a `Date` falls through to `—` | any row: node-postgres returns a `timestamp`/`timestamptz` column such as `created_at` as a `Date` (e.g. time value 0) | the "When" column shows the submission time | medium (depends on the column type, which is not in this model); not executed | AdminPage.FormatCreatedAtHidesDates | AdminPage.FormatCreatedAtFixed |
| QUIZ-GAME_main/app/admin/page.tsx:93 | `it.persona in acc` is also true for names inherited from `Object.prototype`; `acc[name] += 1` then stores `"function …1"` under that name | a submission with persona `toString` (ingestion accepts any string) | only the eight persona names are counted; the record keeps exactly eight numeric keys | high; not executed | AdminPage.TallyAsWrittenAddsKey | AdminPage.TallyPersonas |

`AdminPage.RenderPage` uses the corrected members.

## Left out

- `Number(...)` on the `limit` text is not modelled: the request carries the number it produces, or nothing when the parameter is absent.
- Floating-point rounding is not modelled: finite JavaScript numbers are reals. This applies to `seconds * 1000` and to the clamp.
- `toLowerCase` is modelled for ASCII letters only. Hosts outside ASCII would need Unicode case mapping. The `/i` match of `Bearer` is exact, since it only involves ASCII letters.
- `JSON.stringify`, `crypto.randomUUID`, `new Date(text)` and `toLocaleString` are parameters: library functions whose output format this core does not define.
- `req.json()` is modelled by its outcome only: a JSON value, or a failure.
- The JSON schema library is modelled by its accept/reject rule and the values it passes on. Its error messages are left out, and so are object keys such as `__proto__` that the library treats specially.
- `NextResponse`: responses are a status and a body value. Headers and serialisation are left out.
- `process.env`: the variables are parameters. The `DATABASE_URL` check at load time (QUIZ-GAME_main/lib/db.ts:4-6) is left out; it only stops the process from starting.
- Pool internals are left out: `createPool`'s options (QUIZ-GAME_main/lib/db.ts:13-24), connections, TLS and timeouts. The store's answers are a fixed function of the statement's position and content.
- Concurrency is left out. Concurrent first use of the pool slot and interleaved requests are not modelled, and neither are the `async` suspensions, which run sequentially here.
- SQL semantics are left out. The store's answer is abstract, so the ordering, the `::jsonb` casts and the LIMIT are only text.
- Duplicate HTTP headers (which the runtime joins with `, `) are left out: each header is one string under its lower-case name.
- Logging with `console.log` and `console.error` is left out.
- Client UI, the charts component, JSX markup, the debug-count endpoint and the bundler configuration are left out. They hold no logic of this core.
- AdminPage.RenderPage: models the page with both corrections from "## Findings". The time column uses `FormatCreatedAtFixed` and the tally uses `TallyPersonas`. The page as written shows `—` for every `Date`-valued `createdAt` (`FormatCreatedAtHidesDates`). It also gains a ninth key when a persona is an inherited property name (`TallyAsWrittenAddsKey`). Neither of these is stated of the page as a whole.
- AdminPage.TallyAsWritten: the slot left by `+= 1` on an inherited method is one value `Concatenated`, not the exact string. Assigning to `__proto__` is treated as ignored.
