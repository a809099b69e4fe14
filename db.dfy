/** The parameterised query layer of lib/db.ts: parameter normalisation,
    placeholder text, transient-error classification, the retry-once query
    helper, and the process-wide pool slot. The PostgreSQL pool is an
    abstract store: its answer to the k-th statement it receives is a
    function fixed when it is created, and it records every statement. */
module Db {
  import opened Common
  import opened JsValues
  import JsDate
  import Base64

  // ---------------------------------------------------------------------------
  // Values bound as parameters

  /** What call sites may pass: string, number, boolean, null, Date or
      Uint8Array. */
  datatype SqlParam =
    | Text(s: string)
    | Number(n: JsNumber)
    | Boolean(b: bool)
    | Null
    | Date(t: JsDate.Time)
    | Bytes(data: seq<byte>)

  /** What the driver accepts: string, number, boolean or null. */
  datatype PgParam = PgText(s: string) | PgNumber(n: JsNumber) | PgBoolean(b: bool) | PgNull

  // ---------------------------------------------------------------------------
  // Thrown values and their classification

  /** The `code` property of a thrown object. */
  datatype CodeProp = NoCode | StringCode(code: string) | NonStringCode

  /** A thrown value: something whose `typeof` is not 'object', `null`, or an
      object with or without a `code` property. */
  datatype Thrown = NonObject | NullThrown | ErrorObject(code: CodeProp)

  /** The RangeError `toISOString` throws for an invalid Date: an object
      without a `code`. */
  const InvalidTimeError: Thrown := ErrorObject(NoCode)

  /** The error codes of a timed-out connection, a reset connection and a
      temporary DNS failure. */
  const TransientCodes: set<string> := {"ETIMEDOUT", "ECONNRESET", "EAI_AGAIN"}

  /** `getErrorCode`: the `code` of a non-null object when it is a string. */
  function GetErrorCode(err: Thrown): (code: Option<string>)
    ensures code.Some? <==> err.ErrorObject? && err.code.StringCode?
    ensures code.Some? ==> code.value == err.code.code
  {
    match err
    case ErrorObject(StringCode(c)) => Some(c)
    case _ => None
  }

  /** `shouldRetry`: the error is a transient network failure. */
  function ShouldRetry(err: Thrown): (retry: bool)
    ensures retry <==> err.ErrorObject? && err.code.StringCode? && err.code.code in TransientCodes
  {
    var code := GetErrorCode(err);
    code == Some("ETIMEDOUT") || code == Some("ECONNRESET") || code == Some("EAI_AGAIN")
  }

  // ---------------------------------------------------------------------------
  // normalizeParams

  /** One call-site value as the driver receives it; an invalid Date makes
      `toISOString` throw. */
  function NormalizeParam(v: SqlParam): (r: Result<PgParam, Thrown>)
    ensures r.Err? <==> v.Date? && v.t.InvalidDate?
    ensures r.Err? ==> r.error == InvalidTimeError
    ensures v.Text? ==> r == Ok(PgText(v.s))
    ensures v.Number? ==> r == Ok(PgNumber(v.n))
    ensures v.Boolean? ==> r == Ok(PgBoolean(v.b))
    ensures v.Null? ==> r == Ok(PgNull)
    ensures v.Date? && v.t.TimeMs? ==> r.Ok? && r.value.PgText? && JsDate.ParseIso(r.value.s) == Some(v.t.ms)
    ensures v.Bytes? ==> r.Ok? && r.value.PgText? && Base64.Decode(r.value.s) == Some(v.data)
  {
    match v
    case Date(t) =>
      if t.InvalidDate? then Err(InvalidTimeError)
      else
        JsDate.IsoRoundTrip(t);
        Ok(PgText(JsDate.ToIsoString(t).value))
    case Bytes(data) =>
      Base64.DecodeEncode(data);
      Ok(PgText(Base64.Encode(data)))
    case Text(s) => Ok(PgText(s))
    case Number(n) => Ok(PgNumber(n))
    case Boolean(b) => Ok(PgBoolean(b))
    case Null => Ok(PgNull)
  }

  /** `normalizeParams`: the values in order, or the first exception. */
  function NormalizeParams(values: seq<SqlParam>): (r: Result<seq<PgParam>, Thrown>)
    ensures r.Ok? <==> forall i :: 0 <= i < |values| ==> NormalizeParam(values[i]).Ok?
    ensures r.Ok? ==> (|r.value| == |values|
      && forall i :: 0 <= i < |values| ==> r.value[i] == NormalizeParam(values[i]).value)
    ensures r.Err? ==> r.error == InvalidTimeError
  {
    if values == [] then Ok([])
    else
      match NormalizeParam(values[0])
      case Err(e) => Err(e)
      case Ok(p) =>
        match NormalizeParams(values[1..])
        case Err(e) => Err(e)
        case Ok(ps) =>
          assert forall i :: 1 <= i < |values| ==> values[i] == values[1..][i - 1];
          Ok([p] + ps)
  }

  // ---------------------------------------------------------------------------
  // buildText

  /** The positional placeholder `$n`. */
  function Placeholder(n: nat): string {
    "$" + Decimal(n)
  }

  function Concat(parts: seq<string>): string {
    if parts == [] then "" else Concat(parts[..|parts| - 1]) + parts[|parts| - 1]
  }

  /** `buildText`: the first fragment, then for each value `$i` followed by
      fragment i. Only the number of values is used. */
  function BuildText(strings: seq<string>, values: seq<SqlParam>): (text: string)
    requires |strings| == |values| + 1
    // the text opens with the first fragment and closes with the last
    ensures |strings[0]| <= |text| && text[..|strings[0]|] == strings[0]
    ensures |strings[|values|]| <= |text| && text[|text| - |strings[|values|]|..] == strings[|values|]
  {
    var n := |values|;
    var parts := seq(n, i requires 0 <= i < n => Placeholder(i + 1) + strings[i + 1]);
    assert n > 0 ==> Concat(parts) == Concat(parts[..n - 1]) + Placeholder(n) + strings[n];
    strings[0] + Concat(parts)
  }

  /** With no values the text is the single fragment. */
  lemma BuildTextNoValues(s: string)
    ensures BuildText([s], []) == s
  {
  }

  /** One more value appends `$N` and the next fragment, so the placeholders
      are `$1..$N` in order, each between the fragments it stands between. */
  lemma BuildTextAppend(strings: seq<string>, values: seq<SqlParam>, s: string, v: SqlParam)
    requires |strings| == |values| + 1
    ensures BuildText(strings + [s], values + [v]) == BuildText(strings, values) + Placeholder(|values| + 1) + s
  {
    var n := |values|;
    var parts := seq(n + 1, i requires 0 <= i < n + 1 => Placeholder(i + 1) + (strings + [s])[i + 1]);
    assert parts[..n] == seq(n, i requires 0 <= i < n => Placeholder(i + 1) + strings[i + 1]);
  }

  /** No value reaches the text: two value lists of the same length give the
      same text, whatever they hold. */
  lemma BuildTextIgnoresValues(strings: seq<string>, values: seq<SqlParam>, others: seq<SqlParam>)
    requires |strings| == |values| + 1 && |others| == |values|
    ensures BuildText(strings, values) == BuildText(strings, others)
  {
  }

  /** Sum of the `$` signs the fragments themselves hold. */
  function DollarsIn(strings: seq<string>): nat {
    if strings == [] then 0 else DollarsIn(strings[..|strings| - 1]) + CountChar('$', strings[|strings| - 1])
  }

  /** The text holds exactly one `$` per value beyond those in the fragments. */
  lemma {:induction false} BuildTextPlaceholderCount(strings: seq<string>, values: seq<SqlParam>)
    requires |strings| == |values| + 1
    ensures CountChar('$', BuildText(strings, values)) == DollarsIn(strings) + |values|
  {
    var n := |values|;
    if n == 0 {
      assert strings[..0] == [];
      assert BuildText(strings, values) == strings[0];
    } else {
      var init, vinit := strings[..n], values[..n - 1];
      BuildTextPlaceholderCount(init, vinit);
      BuildTextLast(strings, values);
      CountPlaceholderBetween(BuildText(init, vinit), n, strings[n]);
    }
  }

  /** The text for the last value split off. */
  lemma BuildTextLast(strings: seq<string>, values: seq<SqlParam>)
    requires |strings| == |values| + 1 && |values| > 0
    ensures BuildText(strings, values)
      == BuildText(strings[..|values|], values[..|values| - 1]) + Placeholder(|values|) + strings[|values|]
  {
    var n := |values|;
    BuildTextAppend(strings[..n], values[..n - 1], strings[n], values[n - 1]);
    assert strings[..n] + [strings[n]] == strings;
    assert values[..n - 1] + [values[n - 1]] == values;
  }

  /** A placeholder between two texts adds exactly one `$`. */
  lemma CountPlaceholderBetween(a: string, n: nat, s: string)
    ensures CountChar('$', a + Placeholder(n) + s) == CountChar('$', a) + 1 + CountChar('$', s)
  {
    var p := Placeholder(n);
    CountCharAppend('$', a + p, s);
    CountCharAppend('$', a, p);
    CountCharAppend('$', "$", Decimal(n));
    CountCharDigits('$', Decimal(n));
    assert CountChar('$', "$") == 1 by {
      assert "$"[..0] == [];
    }
  }

  // ---------------------------------------------------------------------------
  // The pool

  /** One round trip to the server: text and parameters. */
  datatype Statement = Statement(text: string, params: seq<PgParam>)

  /** A row of quiz_submissions as the SELECTs alias it. `answers` and `meta`
      are NULL or the JSON written by the ingestion endpoint. This is the row
      shape of the endpoint and of the admin page; it is declared here
      because `Answer`, the store's reply, is a list of them. */
  datatype SubmissionRow = SubmissionRow(
    id: string,
    answers: Option<map<string, string>>,
    persona: string,
    meta: Option<map<string, Json>>,
    createdAt: CreatedAt)

  /** The shapes a `createdAt` value can take: absent, null, an ISO or other
      string, an epoch number, an object with a `seconds` field (a number, or
      `None` when missing or not a number), or a `Date` object. */
  datatype CreatedAt =
    | Undefined
    | NullTime
    | TimeText(text: string)
    | TimeNumber(n: JsNumber)
    | SecondsObject(seconds: Option<JsNumber>)
    | DateObject(t: JsDate.Time)

  /** The store's answer to one statement: rows, or a thrown error. */
  type Answer = Result<seq<SubmissionRow>, Thrown>

  /** The driver's behaviour: its answer to the k-th statement (k counts
      from 0 over the pool's lifetime). */
  type Behaviour = (nat, Statement) -> Answer

  class Pool {
    const respond: Behaviour
    /** Every statement sent so far, oldest first. */
    var issued: seq<Statement>

    constructor (respond: Behaviour)
      ensures this.respond == respond && issued == []
    {
      this.respond := respond;
      issued := [];
    }

    /** `pool.query(text, params)`: one round trip. */
    method Run(stmt: Statement) returns (answer: Answer)
      modifies this
      ensures issued == old(issued) + [stmt]
      ensures answer == respond(|old(issued)|, stmt)
    {
      answer := respond(|issued|, stmt);
      issued := issued + [stmt];
    }
  }

  /** The process-wide slot `global.__PG_POOL__`. */
  class Globals {
    var pgPool: Pool?

    constructor ()
      ensures pgPool == null
    {
      pgPool := null;
    }

    /** Evaluating `export const pool = global.__PG_POOL__ ?? (global.__PG_POOL__
        = createPool())`: reuse the pool in the slot, or create one and store
        it. */
    method LoadPool(driver: Behaviour) returns (pool: Pool)
      modifies this
      ensures old(pgPool) != null ==> pool == old(pgPool)
      ensures old(pgPool) == null ==> fresh(pool) && pool.respond == driver && pool.issued == []
      ensures pgPool == pool
    {
      if pgPool == null {
        pgPool := new Pool(driver);
      }
      pool := pgPool;
    }
  }

  /** However often the module is evaluated, one pool is created and reused. */
  method LoadPoolTwice(g: Globals, driver: Behaviour, other: Behaviour) returns (first: Pool, second: Pool)
    modifies g
    ensures first == second && g.pgPool == first
    ensures old(g.pgPool) == null ==> fresh(first) && first.respond == driver
  {
    first := g.LoadPool(driver);
    second := g.LoadPool(other);
  }

  // ---------------------------------------------------------------------------
  // query

  /** What one call of `query` does: the statements sent and what it returns
      or throws. */
  datatype Execution = Execution(sent: seq<Statement>, result: Answer)

  /** `query` against a store that answers its k-th statement with
      `respond(k, _)`, when `k` statements were sent before. */
  function QueryOf(respond: Behaviour, k: nat, strings: seq<string>, values: seq<SqlParam>): (e: Execution)
    requires |strings| == |values| + 1
    // an exception from normalizeParams: nothing is sent
    ensures NormalizeParams(values).Err? ==> e.sent == [] && e.result == Err(InvalidTimeError)
    // otherwise one or two attempts, with identical text and parameters
    ensures NormalizeParams(values).Ok? ==> (1 <= |e.sent| <= 2
      && forall j :: 0 <= j < |e.sent| ==> e.sent[j] == Statement(BuildText(strings, values), NormalizeParams(values).value))
    // a second attempt exactly when the first failed transiently
    ensures |e.sent| == 2 <==> |e.sent| > 0 && respond(k, e.sent[0]).Err? && ShouldRetry(respond(k, e.sent[0]).error)
    // the last attempt's answer is returned or rethrown as it is
    ensures |e.sent| > 0 ==> e.result == respond(k + |e.sent| - 1, e.sent[|e.sent| - 1])
  {
    var params := NormalizeParams(values);
    if params.Err? then Execution([], Err(params.error))
    else Attempts(respond, k, Statement(BuildText(strings, values), params.value))
  }

  /** Sending `stmt` once, and once more after a transient failure. */
  function Attempts(respond: Behaviour, k: nat, stmt: Statement): (e: Execution)
    ensures 1 <= |e.sent| <= 2 && forall j :: 0 <= j < |e.sent| ==> e.sent[j] == stmt
    ensures |e.sent| == 2 <==> respond(k, stmt).Err? && ShouldRetry(respond(k, stmt).error)
    ensures e.result == respond(k + |e.sent| - 1, stmt)
  {
    var first := respond(k, stmt);
    if first.Err? && ShouldRetry(first.error) then Execution([stmt, stmt], respond(k + 1, stmt))
    else Execution([stmt], first)
  }

  /** `query`: build the text and parameters, send them, and on a transient
      failure send them once more. */
  method Query(pool: Pool, strings: seq<string>, values: seq<SqlParam>) returns (result: Answer)
    requires |strings| == |values| + 1
    modifies pool
    ensures pool.issued == old(pool.issued) + QueryOf(pool.respond, |old(pool.issued)|, strings, values).sent
    ensures result == QueryOf(pool.respond, |old(pool.issued)|, strings, values).result
  {
    var text := BuildText(strings, values);
    var params := NormalizeParams(values);
    if params.Err? {
      return Err(params.error);
    }
    var stmt := Statement(text, params.value);
    result := pool.Run(stmt);
    if result.Err? && ShouldRetry(result.error) {
      result := pool.Run(stmt);
    }
  }
}
