/** The dashboard of app/admin/page.tsx: it reads up to 500 submissions,
    reshapes the rows, tallies the eight personas, and renders the first 25
    submissions with their time and a seven-field answers column. */
module AdminPage {
  import opened Common
  import opened JsValues
  import opened Db
  import JsDate

  // ---------------------------------------------------------------------------
  // Personas

  /** The eight persona names, in the order the count record lists them. */
  const PersonaNames: seq<string> := [
    "City Visionary", "Adventurous Scholar", "Dynamic Explorer", "Creative Innovator",
    "Focused Scholar", "Balanced Adventurer", "Nature-Loving Learner", "Mindful Learner"]

  const PersonaSet: set<string> := set p | p in PersonaNames

  predicate Distinct(names: seq<string>) {
    forall i, j :: 0 <= i < j < |names| ==> names[i] != names[j]
  }

  /** The names are eight different strings: no two share both their
      first letter and their length. */
  lemma PersonaNamesDistinct()
    ensures Distinct(PersonaNames)
  {
    var n := PersonaNames;
    var tag := seq(8, i requires 0 <= i < 8 => (n[i][0], |n[i]|));
    assert tag == [('C', 14), ('A', 19), ('D', 16), ('C', 18), ('F', 15), ('B', 19), ('N', 21), ('M', 15)];
    forall i, j | 0 <= i < j < 8
      ensures n[i] != n[j]
    {
      assert tag[i] != tag[j];
    }
  }

  /** `emptyPersonaCounts()`: every persona at zero. */
  function EmptyPersonaCounts(): (counts: map<string, int>)
    ensures counts.Keys == PersonaSet
    ensures forall p :: p in counts ==> counts[p] == 0
  {
    map[
      "City Visionary" := 0,
      "Adventurous Scholar" := 0,
      "Dynamic Explorer" := 0,
      "Creative Innovator" := 0,
      "Focused Scholar" := 0,
      "Balanced Adventurer" := 0,
      "Nature-Loving Learner" := 0,
      "Mindful Learner" := 0]
  }

  // ---------------------------------------------------------------------------
  // Reading the submissions

  /** A submission as the page uses it. */
  datatype Item = Item(
    id: string,
    answers: map<string, string>,
    persona: string,
    meta: map<string, Json>,
    createdAt: CreatedAt)

  /** The page's SELECT: no values, the limit 500 is part of the text. */
  const AdminSelect: string :=
    "\n    SELECT\n      id,\n      (answers)::jsonb  AS answers,\n      persona,\n      (meta)::jsonb     AS meta,\n      created_at        AS \"createdAt\"\n    FROM quiz_submissions\n    ORDER BY created_at DESC NULLS LAST\n    LIMIT 500\n  "

  /** One row reshaped: NULL answers and meta become `{}`. */
  function ToItem(r: SubmissionRow): (it: Item)
    ensures it.id == r.id && it.persona == r.persona && it.createdAt == r.createdAt
    ensures r.answers.Some? ==> it.answers == r.answers.value
    ensures r.answers.None? ==> it.answers == map[]
    ensures r.meta.Some? ==> it.meta == r.meta.value
    ensures r.meta.None? ==> it.meta == map[]
  {
    Item(r.id, r.answers.GetOr(map[]), r.persona, r.meta.GetOr(map[]), r.createdAt)
  }

  /** `rows.map(...)`: the same rows, in the same order, reshaped. */
  function ToItems(rows: seq<SubmissionRow>): (items: seq<Item>)
    ensures |items| == |rows|
    ensures forall i :: 0 <= i < |rows| ==> items[i] == ToItem(rows[i])
  {
    seq(|rows|, i requires 0 <= i < |rows| => ToItem(rows[i]))
  }

  /** Reshaping keeps ids, personas and times; only NULLs change. */
  lemma ToItemsKeepsPersonas(rows: seq<SubmissionRow>, p: string)
    ensures CountPersona(ToItems(rows), p) == CountRowPersona(rows, p)
  {
    var items := ToItems(rows);
    if rows != [] {
      assert ToItems(rows)[..|rows| - 1] == ToItems(rows[..|rows| - 1]);
      ToItemsKeepsPersonas(rows[..|rows| - 1], p);
    }
  }

  function CountRowPersona(rows: seq<SubmissionRow>, p: string): nat {
    if rows == [] then 0
    else CountRowPersona(rows[..|rows| - 1], p) + (if rows[|rows| - 1].persona == p then 1 else 0)
  }

  /** `getDataDirect`: the SELECT (sent once more after a transient
      failure), its rows reshaped; a failure propagates. */
  method GetDataDirect(pool: Pool) returns (result: Result<seq<Item>, Thrown>)
    modifies pool
    ensures var e := QueryOf(pool.respond, |old(pool.issued)|, [AdminSelect], []);
      && pool.issued == old(pool.issued) + e.sent
      && result == (if e.result.Ok? then Ok(ToItems(e.result.value)) else Err(e.result.error))
    ensures 1 <= |pool.issued| - |old(pool.issued)| <= 2
    ensures forall j :: |old(pool.issued)| <= j < |pool.issued| ==> pool.issued[j] == Statement(AdminSelect, [])
  {
    BuildTextNoValues(AdminSelect);
    var rows := Query(pool, [AdminSelect], []);
    if rows.Ok? {
      result := Ok(ToItems(rows.value));
    } else {
      result := Err(rows.error);
    }
  }

  // ---------------------------------------------------------------------------
  // The persona tally

  /** How many items carry persona `p`. */
  function CountPersona(items: seq<Item>, p: string): nat {
    if items == [] then 0
    else CountPersona(items[..|items| - 1], p) + (if items[|items| - 1].persona == p then 1 else 0)
  }

  /** How many items carry one of the eight personas. */
  function CountKnown(items: seq<Item>): nat {
    if items == [] then 0
    else CountKnown(items[..|items| - 1]) + (if items[|items| - 1].persona in PersonaSet then 1 else 0)
  }

  /** The reduce over the items: a known persona adds one to its own count;
      any other persona changes nothing. Membership is the record's own
      keys (see `TallyAsWritten` for the inherited ones). */
  method TallyPersonas(items: seq<Item>) returns (counts: map<string, int>)
    ensures counts.Keys == PersonaSet
    ensures forall p :: p in PersonaSet ==> counts[p] == CountPersona(items, p)
  {
    counts := EmptyPersonaCounts();
    var i := 0;
    while i < |items|
      invariant 0 <= i <= |items|
      invariant Tallied(counts, items[..i])
    {
      var it := items[i];
      var before := counts;
      if it.persona in counts {
        counts := counts[it.persona := counts[it.persona] + 1];
      }
      TallyStep(before, items[..i], it, counts);
      assert items[..i + 1] == items[..i] + [it];
      i := i + 1;
    }
    assert items[..i] == items;
  }

  /** `counts` holds, for each of the eight personas, its count in `items`. */
  ghost predicate Tallied(counts: map<string, int>, items: seq<Item>) {
    counts.Keys == PersonaSet && forall p :: p in PersonaSet ==> counts[p] == CountPersona(items, p)
  }

  /** One step of the reduce keeps the tally exact. */
  lemma TallyStep(counts: map<string, int>, items: seq<Item>, it: Item, next: map<string, int>)
    requires Tallied(counts, items)
    requires next == if it.persona in counts then counts[it.persona := counts[it.persona] + 1] else counts
    ensures Tallied(next, items + [it])
  {
    forall p | p in PersonaSet
      ensures CountPersona(items + [it], p) == CountPersona(items, p) + (if it.persona == p then 1 else 0)
    {
      CountPersonaStep(items, it, p);
    }
  }

  /** One more item adds one to its own persona's count and nothing to any
      other. */
  lemma CountPersonaStep(items: seq<Item>, it: Item, p: string)
    ensures CountPersona(items + [it], p) == CountPersona(items, p) + (if it.persona == p then 1 else 0)
  {
    assert (items + [it])[..|items|] == items;
  }

  /** The counts over a list of distinct names. */
  function SumCounts(names: seq<string>, items: seq<Item>): nat {
    if names == [] then 0 else CountPersona(items, names[0]) + SumCounts(names[1..], items)
  }

  lemma {:induction false} SumCountsStep(names: seq<string>, items: seq<Item>, it: Item)
    requires Distinct(names)
    ensures SumCounts(names, items + [it]) == SumCounts(names, items) + (if it.persona in names then 1 else 0)
  {
    if names != [] {
      CountPersonaStep(items, it, names[0]);
      SumCountsStep(names[1..], items, it);
      assert it.persona in names <==> it.persona == names[0] || it.persona in names[1..];
    }
  }

  /** The tallied counts add up to the number of items with a known persona,
      which is at most the number of items. */
  lemma {:induction false} TallyTotal(items: seq<Item>)
    ensures SumCounts(PersonaNames, items) == CountKnown(items) <= |items|
  {
    if items == [] {
      SumCountsEmpty(PersonaNames);
    } else {
      var init := items[..|items| - 1];
      var it := items[|items| - 1];
      assert init + [it] == items;
      TallyTotal(init);
      PersonaNamesDistinct();
      SumCountsStep(PersonaNames, init, it);
    }
  }

  lemma {:induction false} SumCountsEmpty(names: seq<string>)
    ensures SumCounts(names, []) == 0
  {
    if names != [] {
      SumCountsEmpty(names[1..]);
    }
  }

  // ---------------------------------------------------------------------------
  // The reduce as written: `in` also sees inherited properties

  /** A property value in the count record as the reduce leaves it: a count,
      or the string `function …() { [native code] }1` that `+= 1` makes of an
      inherited method. */
  datatype Slot = Count(n: int) | Concatenated

  /** The methods every object inherits from `Object.prototype`, except
      `__proto__`, whose setter ignores the string assigned to it. */
  const InheritedNames: set<string> := {
    "constructor", "hasOwnProperty", "isPrototypeOf", "propertyIsEnumerable",
    "toLocaleString", "toString", "valueOf", "__defineGetter__", "__defineSetter__",
    "__lookupGetter__", "__lookupSetter__"}

  function Bump(s: Slot): Slot {
    match s
    case Count(n) => Count(n + 1)
    case Concatenated => Concatenated
  }

  /** `if (it.persona in acc) acc[it.persona] += 1` on a plain object. */
  function StepAsWritten(acc: map<string, Slot>, persona: string): (next: map<string, Slot>)
    // no key is lost, and only `persona` may be added
    ensures acc.Keys <= next.Keys <= acc.Keys + {persona}
    // every other slot is left as it was
    ensures forall k :: k in acc && k != persona ==> next[k] == acc[k]
    // a present key is bumped; an absent one is added only for an inherited name
    ensures persona in acc ==> next[persona] == Bump(acc[persona])
    ensures persona !in acc ==> (persona in next <==> persona in InheritedNames)
  {
    if persona in acc then acc[persona := Bump(acc[persona])]
    else if persona in InheritedNames then acc[persona := Concatenated]
    else acc
  }

  /** The reduce exactly as written, from the eight zero counts. */
  function TallyAsWritten(items: seq<Item>): (acc: map<string, Slot>)
    ensures PersonaSet <= acc.Keys
  {
    if items == [] then map p | p in PersonaSet :: Count(0)
    else StepAsWritten(TallyAsWritten(items[..|items| - 1]), items[|items| - 1].persona)
  }

  /** Whatever the personas, the reduce as written counts the eight names
      exactly; any further key is an inherited name. */
  lemma {:induction false} TallyAsWrittenCounts(items: seq<Item>)
    ensures forall p :: p in PersonaSet ==> TallyAsWritten(items)[p] == Count(CountPersona(items, p))
    ensures TallyAsWritten(items).Keys <= PersonaSet + InheritedNames
  {
    if items != [] {
      var init := items[..|items| - 1];
      var it := items[|items| - 1];
      assert init + [it] == items;
      TallyAsWrittenCounts(init);
      forall p | p in PersonaSet
        ensures TallyAsWritten(items)[p] == Count(CountPersona(items, p))
      {
        CountPersonaStep(init, it, p);
      }
    }
  }

  /** A submission whose persona is `toString` (any string is accepted on
      ingestion) adds a ninth key, holding a string, to the counts. */
  lemma TallyAsWrittenAddsKey()
    ensures var items := [Item("x", map[], "toString", map[], Undefined)];
      && "toString" in TallyAsWritten(items)
      && TallyAsWritten(items).Keys != PersonaSet
      && TallyAsWritten(items)["toString"] == Concatenated
  {
    var items := [Item("x", map[], "toString", map[], Undefined)];
    assert items[..0] == [];
    assert "toString" !in PersonaSet;
  }

  /** The counts of the eight personas, as slots. */
  function CountSlots(items: seq<Item>): map<string, Slot> {
    map p | p in PersonaSet :: Count(CountPersona(items, p))
  }

  lemma StepAsWrittenOwnKey(items: seq<Item>, it: Item)
    requires it.persona !in InheritedNames
    ensures StepAsWritten(CountSlots(items), it.persona) == CountSlots(items + [it])
  {
    var stepped := StepAsWritten(CountSlots(items), it.persona);
    var after := CountSlots(items + [it]);
    assert stepped.Keys == after.Keys;
    forall p | p in PersonaSet
      ensures stepped[p] == after[p]
    {
      CountPersonaStep(items, it, p);
    }
  }

  /** Without inherited names among the personas, the reduce as written and
      `TallyPersonas` agree. */
  lemma {:induction false} TallyAsWrittenAgrees(items: seq<Item>)
    requires forall i :: 0 <= i < |items| ==> items[i].persona !in InheritedNames
    ensures TallyAsWritten(items) == CountSlots(items)
  {
    if items == [] {
      assert forall p :: p in PersonaSet ==> CountPersona(items, p) == 0;
    } else {
      var init := items[..|items| - 1];
      var it := items[|items| - 1];
      assert init + [it] == items;
      TallyAsWrittenAgrees(init);
      StepAsWrittenOwnKey(init, it);
    }
  }

  // ---------------------------------------------------------------------------
  // The answers column

  const QuestionKeys: seq<string> := ["q1", "q2", "q3", "q4", "q5", "q6", "q7"]

  /** The placeholder for a missing value. */
  const Dash: string := "\U{2014}"

  /** `answers?.[k] ?? '—'` for q1..q7. */
  function AnswerFields(answers: map<string, string>): (fields: seq<string>)
    ensures |fields| == 7
    ensures forall i :: 0 <= i < 7 ==> fields[i] == if QuestionKeys[i] in answers then answers[QuestionKeys[i]] else Dash
  {
    seq(7, i requires 0 <= i < 7 => if QuestionKeys[i] in answers then answers[QuestionKeys[i]] else Dash)
  }

  /** `parts.join(sep)` */
  function Join(parts: seq<string>, sep: string): string {
    if |parts| == 0 then ""
    else if |parts| == 1 then parts[0]
    else Join(parts[..|parts| - 1], sep) + sep + parts[|parts| - 1]
  }

  function AnswerColumn(answers: map<string, string>): string {
    Join(AnswerFields(answers), " | ")
  }

  /** How often `c` occurs in all the parts together. */
  function CountInAll(c: char, parts: seq<string>): nat {
    if parts == [] then 0 else CountInAll(c, parts[..|parts| - 1]) + CountChar(c, parts[|parts| - 1])
  }

  /** A join holds one separator between each two parts and nothing else:
      with a separator in which `c` occurs once, `c` occurs once per gap
      plus its occurrences in the parts. */
  lemma {:induction false} JoinCount(c: char, parts: seq<string>, sep: string)
    requires |parts| >= 1 && CountChar(c, sep) == 1
    ensures CountChar(c, Join(parts, sep)) == |parts| - 1 + CountInAll(c, parts)
  {
    if |parts| == 1 {
      assert parts[..0] == [];
    } else {
      var init, last := parts[..|parts| - 1], parts[|parts| - 1];
      assert Join(parts, sep) == Join(init, sep) + sep + last;
      JoinCount(c, init, sep);
      CountCharAppend(c, Join(init, sep), sep);
      CountCharAppend(c, Join(init, sep) + sep, last);
    }
  }

  lemma {:induction false} CountInAllNone(c: char, parts: seq<string>)
    requires forall i :: 0 <= i < |parts| ==> CountChar(c, parts[i]) == 0
    ensures CountInAll(c, parts) == 0
  {
    if parts != [] {
      CountInAllNone(c, parts[..|parts| - 1]);
    }
  }

  /** When no answer contains `|`, the column shows exactly seven fields:
      six separators. */
  lemma AnswerColumnSeparators(answers: map<string, string>)
    requires forall key :: key in answers ==> CountChar('|', answers[key]) == 0
    ensures CountChar('|', AnswerColumn(answers)) == 6
  {
    var fields := AnswerFields(answers);
    assert CountChar('|', Dash) == 0;
    CountInAllNone('|', fields);
    assert CountChar('|', " | ") == 1 by {
      assert " | "[..2] == " |" && " |"[..1] == " " && " "[..0] == "";
    }
    JoinCount('|', fields, " | ");
  }

  // ---------------------------------------------------------------------------
  // The time column

  /** `seconds * 1000` */
  function Times1000(n: JsNumber): (r: JsNumber)
    ensures n.Finite? <==> r.Finite?
    ensures n.Finite? ==> r.v == n.v * 1000.0
  {
    match n
    case Finite(v) => Finite(v * 1000.0)
    case NaN => NaN
    case Infinity(neg) => Infinity(neg)
  }

  /** `d.toLocaleString()` when `d` is valid, `'—'` otherwise. */
  function Shown(t: JsDate.Time, locale: int -> string): string {
    if t.TimeMs? then locale(t.ms) else Dash
  }

  /** `formatCreatedAt` as written. `parse` is `new Date(text)` and `locale`
      is `toLocaleString` of a time value. A `Date` object is neither a
      string, a number nor an object with `seconds`, so it is shown as
      `'—'`. */
  function FormatCreatedAt(input: CreatedAt, parse: string -> JsDate.Time, locale: int -> string): (shown: string)
    ensures input.Undefined? || input.NullTime? ==> shown == Dash
    ensures input.TimeText? ==> shown == Shown(parse(input.text), locale)
    ensures input.TimeNumber? ==>
      shown == (if input.n.Finite? && -(JsDate.MaxTime as real) <= input.n.v <= JsDate.MaxTime as real
                then locale(JsDate.Truncate(input.n.v)) else Dash)
    ensures input.SecondsObject? ==>
      shown == (if input.seconds.Some? && input.seconds.value.Finite?
                   && -(JsDate.MaxTime as real) <= input.seconds.value.v * 1000.0 <= JsDate.MaxTime as real
                then locale(JsDate.Truncate(input.seconds.value.v * 1000.0)) else Dash)
    ensures input.DateObject? ==> shown == Dash
  {
    match input
    case Undefined => Dash
    case NullTime => Dash
    case TimeText(text) => Shown(parse(text), locale)
    case TimeNumber(n) => Shown(JsDate.TimeClip(n), locale)
    case SecondsObject(seconds) =>
      if seconds.Some? then Shown(JsDate.TimeClip(Times1000(seconds.value)), locale) else Dash
    case DateObject(_) => Dash
  }

  /** The driver hands `created_at` over as a `Date`: as written, even a
      valid one is shown as `'—'`. */
  lemma FormatCreatedAtHidesDates(locale: int -> string, parse: string -> JsDate.Time)
    ensures FormatCreatedAt(DateObject(JsDate.TimeMs(0)), parse, locale) == Dash
    ensures locale(0) != Dash ==> FormatCreatedAt(DateObject(JsDate.TimeMs(0)), parse, locale) != locale(0)
  {
  }

  /** `formatCreatedAt` with a branch for `Date` objects: a valid date is
      shown in the locale's format, an invalid one as `'—'`. */
  function FormatCreatedAtFixed(input: CreatedAt, parse: string -> JsDate.Time, locale: int -> string): (shown: string)
    ensures input.DateObject? ==> shown == Shown(input.t, locale)
    ensures !input.DateObject? ==> shown == FormatCreatedAt(input, parse, locale)
  {
    if input.DateObject? then Shown(input.t, locale) else FormatCreatedAt(input, parse, locale)
  }

  /** With the fix, a `Date` and its time value as a number show the same. */
  lemma FormatCreatedAtFixedAgrees(t: JsDate.Time, parse: string -> JsDate.Time, locale: int -> string)
    requires t.TimeMs?
    ensures FormatCreatedAtFixed(DateObject(t), parse, locale)
         == FormatCreatedAtFixed(TimeNumber(Finite(t.ms as real)), parse, locale)
  {
    assert JsDate.Truncate(t.ms as real) == t.ms;
  }

  // ---------------------------------------------------------------------------
  // The page

  /** One table row: time, persona, answers. */
  datatype RowView = RowView(when: string, persona: string, answers: string)

  /** What the page shows: the counts for the chart, the rows of the table,
      and whether the "No data yet." row is there. */
  datatype Dashboard = Dashboard(personaCounts: map<string, int>, recent: seq<RowView>, noData: bool)

  function RowOf(it: Item, parse: string -> JsDate.Time, locale: int -> string): RowView {
    RowView(FormatCreatedAtFixed(it.createdAt, parse, locale), it.persona, AnswerColumn(it.answers))
  }

  /** `items.slice(0, 25)` */
  function Recent(items: seq<Item>): (r: seq<Item>)
    ensures |r| == if |items| < 25 then |items| else 25
    ensures forall i :: 0 <= i < |r| ==> r[i] == items[i]
  {
    if |items| < 25 then items else items[..25]
  }

  /** The page: read, tally and render; a failed read propagates. */
  method RenderPage(pool: Pool, parse: string -> JsDate.Time, locale: int -> string) returns (page: Result<Dashboard, Thrown>)
    modifies pool
    ensures var e := QueryOf(pool.respond, |old(pool.issued)|, [AdminSelect], []);
      && pool.issued == old(pool.issued) + e.sent
      && (e.result.Err? ==> page == Err(e.result.error))
      && (e.result.Ok? ==> (page.Ok? &&
          var items := ToItems(e.result.value);
          && page.value.personaCounts.Keys == PersonaSet
          && (forall p :: p in PersonaSet ==> page.value.personaCounts[p] == CountPersona(items, p))
          && |page.value.recent| == |Recent(items)|
          && (forall i :: 0 <= i < |page.value.recent| ==> page.value.recent[i] == RowOf(items[i], parse, locale))
          && (page.value.noData <==> items == [])))
  {
    var data := GetDataDirect(pool);
    if data.Err? {
      return Err(data.error);
    }
    var items := data.value;
    var counts := TallyPersonas(items);
    var recent := Recent(items);
    var rows := seq(|recent|, i requires 0 <= i < |recent| => RowOf(recent[i], parse, locale));
    page := Ok(Dashboard(counts, rows, |items| == 0));
  }
}
