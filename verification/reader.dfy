/**
 Bounded reading of a query: pages under a row limit and a byte budget at once. The database is the
 complete answer of the statement and the faults met while reading it. Strings are UTF-8 bytes here.
 */
module Reader {
  import opened Options
  import Text
  import Scanner
  import opened Paging

  // ----- Values and rows -----

  datatype Value =
    | Null
    | Int(n: int)
    | Real(digits: string)
    | Bool(b: bool)
    | Str(text: string)
    | Blob(hex: string)
    | Raw(json: string)

  type Row = map<string, Value>

  /** JSON text of names and rows, the form of times, and which texts are JSON. */
  datatype Codec = Codec(quote: string -> string, marshal: Row -> Option<string>, time: int -> string, valid: string -> bool)

  const TIMES := {"received_at", "time", "start_time", "end_time", "first_time", "last_time", "last_received_at",
                  "interval_start", "interval_end", "observed_time"}
  const DOCUMENTS := {"body", "payload", "resource_attributes", "scope_attributes", "attributes", "events", "links",
                      "bucket_counts", "explicit_bounds", "positive", "negative", "quantile_values", "exemplars"}

  predicate EmptyField(v: Value) {
    match v
    case Null => true
    case Str(text) => text == ""
    case Raw(json) =>
      var raw := Text.TrimSpace(json);
      || raw == "null" || raw == "\"\""
      || (&& |raw| >= 2
          && ((raw[0] == '[' && raw[|raw| - 1] == ']') || (raw[0] == '{' && raw[|raw| - 1] == '}'))
          && Text.TrimSpace(raw[1..|raw| - 1]) == "")
    case _ => false
  }

  function FormatValue(c: Codec, column: string, v: Value): Value {
    if column == "monotonic" && v.Int? then Value.Bool(v.n != 0)
    else if column in TIMES && v.Int? then (if v.n == 0 then Null else Str(c.time(v.n)))
    else if column in DOCUMENTS && v.Str? && c.valid(v.text) then Raw(v.text)
    else v
  }

  // ----- Requests and answers -----

  /** How rows are shown: the requested columns, whether empty fields stay, whether telemetry is formatted. */
  datatype View = View(columns: seq<string>, includeEmpty: bool, format: bool)

  datatype Request = Request(path: string, limit: int, offset: int, maxBytes: int, timeout: int, columnsOnly: bool,
                             view: View, statement: string)

  datatype Error =
    | InvalidOptions(option: string)
    | InvalidStatement(why: Scanner.Refusal)
    | Database(what: string)
    | DuplicateColumn(column: string)
    | UnknownColumn(column: string)
    | DuplicateRequest(column: string)
    | ColumnsTooLong
    | Unencodable
    | FirstRowTooLong

  datatype Result = Result(columns: seq<string>, rows: seq<Row>, count: nat, truncated: bool, reason: Reason, next: Option<nat>)

  datatype Outcome = Ok(result: Result) | Failed(error: Error)

  /**
   The answer of the statement without the wrapper's limit, and the faults of this read: while the
   query is prepared, while row k is scanned, and when the rows have ended.
   */
  datatype Database = Database(columns: seq<string>, rows: seq<seq<Value>>, codec: Codec,
                               open: Option<string>, scan: nat -> Option<string>, end: Option<string>)
  {
    predicate Valid() {
      forall k :: 0 <= k < |rows| ==> |rows[k]| == |columns|
    }
  }

  const MAX_OFFSET := 1000000

  function ValidateOptions(q: Request): Option<Error> {
    if q.path == "" then Some(InvalidOptions("path"))
    else if q.limit < 1 || q.limit > 10000 then Some(InvalidOptions("limit"))
    else if q.offset < 0 || q.offset > MAX_OFFSET then Some(InvalidOptions("offset"))
    else if q.maxBytes < 1024 || q.maxBytes > 16777216 then Some(InvalidOptions("max-bytes"))
    else if q.timeout <= 0 || q.timeout > 30000000000 then Some(InvalidOptions("timeout"))
    else None
  }

  // ----- The columns of a page -----

  predicate Distinct(names: seq<string>) {
    forall i, j :: 0 <= i < j < |names| ==> names[i] != names[j]
  }

  /** The first objection to the names from position i on, met from left to right. */
  function ColumnObjection(columns: seq<string>, i: nat): Option<Error>
    requires i <= |columns|
    decreases |columns| - i
  {
    if i == |columns| then None
    else if columns[i] in columns[..i] then Some(DuplicateColumn(columns[i]))
    else ColumnObjection(columns, i + 1)
  }

  function RequestObjection(columns: seq<string>, names: seq<string>, i: nat): Option<Error>
    requires i <= |names|
    decreases |names| - i
  {
    if i == |names| then None
    else if names[i] !in columns then Some(UnknownColumn(names[i]))
    else if names[i] in names[..i] then Some(DuplicateRequest(names[i]))
    else RequestObjection(columns, names, i + 1)
  }

  function Selected(columns: seq<string>, v: View): seq<string> {
    if v.columns == [] then columns else v.columns
  }

  function SelectionObjection(columns: seq<string>, q: Request): Option<Error> {
    match ColumnObjection(columns, 0)
    case Some(e) => Some(e)
    case None => if q.columnsOnly then None else RequestObjection(columns, q.view.columns, 0)
  }

  lemma {:induction false} NoColumnObjection(columns: seq<string>, i: nat)
    requires i <= |columns| && Distinct(columns[..i])
    ensures ColumnObjection(columns, i).None? <==> Distinct(columns)
    decreases |columns| - i
  {
    if i == |columns| {
      assert columns[..i] == columns;
    } else if columns[i] !in columns[..i] {
      assert columns[..i + 1] == columns[..i] + [columns[i]];
      NoColumnObjection(columns, i + 1);
    } else {
      var a :| 0 <= a < i && columns[..i][a] == columns[i];
      assert columns[a] == columns[i];
    }
  }

  lemma {:induction false} NoRequestObjection(columns: seq<string>, names: seq<string>, i: nat)
    requires i <= |names| && ColumnObjection(names, i).None? && forall c :: c in names[i..] ==> c in columns
    ensures RequestObjection(columns, names, i).None?
    decreases |names| - i
  {
    if i < |names| {
      assert names[i..] == [names[i]] + names[i + 1..];
      NoRequestObjection(columns, names, i + 1);
    }
  }

  lemma {:induction false} RequestObjectionMeans(columns: seq<string>, names: seq<string>, i: nat)
    requires i <= |names| && RequestObjection(columns, names, i).None?
    ensures ColumnObjection(names, i).None? && forall c :: c in names[i..] ==> c in columns
    decreases |names| - i
  {
    if i < |names| {
      assert names[i..] == [names[i]] + names[i + 1..];
      RequestObjectionMeans(columns, names, i + 1);
    }
  }

  predicate Selectable(columns: seq<string>, v: View) {
    Distinct(columns) && Distinct(v.columns) && forall c :: c in v.columns ==> c in columns
  }

  /** A selection is accepted exactly when both lists are free of repetition and every name exists. */
  lemma SelectionRule(columns: seq<string>, q: Request)
    ensures SelectionObjection(columns, q).None? <==> Distinct(columns) && (q.columnsOnly || Selectable(columns, q.view))
  {
    var names := q.view.columns;
    NoColumnObjection(columns, 0);
    NoColumnObjection(names, 0);
    if RequestObjection(columns, names, 0).None? {
      RequestObjectionMeans(columns, names, 0);
    } else if Distinct(names) && forall c :: c in names ==> c in columns {
      NoRequestObjection(columns, names, 0);
    }
  }

  // ----- The rows of a page -----

  function FieldValue(d: Database, v: View, column: string, value: Value): Value {
    var plain := if value.Blob? then Str(value.hex) else value;
    if v.format then FormatValue(d.codec, column, plain) else plain
  }

  predicate Keeps(d: Database, v: View, column: string, value: Value) {
    column in Selected(d.columns, v) && (v.includeEmpty || !EmptyField(FieldValue(d, v, column, value)))
  }

  /** A row over the first n columns. */
  function Shape(d: Database, v: View, values: seq<Value>, n: nat): Row
    requires n <= |values| == |d.columns|
  {
    if n == 0 then map[]
    else
      var column, value := d.columns[n - 1], values[n - 1];
      var rest := Shape(d, v, values, n - 1);
      if Keeps(d, v, column, value) then rest[column := FieldValue(d, v, column, value)] else rest
  }

  lemma {:induction false} ShapeWithin(d: Database, v: View, values: seq<Value>, n: nat)
    requires n <= |values| == |d.columns|
    ensures forall c :: c in Shape(d, v, values, n) ==> c in d.columns[..n] && c in Selected(d.columns, v)
  {
    if n > 0 {
      ShapeWithin(d, v, values, n - 1);
      assert d.columns[..n] == d.columns[..n - 1] + [d.columns[n - 1]];
    }
  }

  /** A row holds the selected columns that are not empty, or all the selected columns, with their values. */
  lemma {:induction false} ShapeHolds(d: Database, v: View, values: seq<Value>, n: nat, i: nat)
    requires i < n <= |values| == |d.columns| && Distinct(d.columns)
    ensures var column, row := d.columns[i], Shape(d, v, values, n);
      && (column in row <==> Keeps(d, v, column, values[i]))
      && (column in row ==> row[column] == FieldValue(d, v, column, values[i]))
  {
    if i == n - 1 {
      ShapeWithin(d, v, values, n - 1);
      assert d.columns[n - 1] !in d.columns[..n - 1];
    } else {
      ShapeHolds(d, v, values, n - 1, i);
      assert d.columns[n - 1] != d.columns[i];
    }
  }

  // ----- What a row shows -----

  /** A JSON document that says nothing: null, an empty text, or brackets or braces around spaces. */
  ghost predicate SaysNothing(core: string) {
    || core == "null" || core == "\"\""
    || exists inner :: Text.Spaces(inner) && (core == "[" + inner + "]" || core == "{" + inner + "}")
  }

  ghost predicate BlankDocument(json: string) {
    exists before, core, after :: Text.Around(json, before, core, after) && SaysNothing(core)
  }

  lemma BlankRaw(json: string)
    ensures EmptyField(Raw(json)) <==> BlankDocument(json)
  {
    var before, after := Text.TrimSpaceParts(json);
    var raw := Text.TrimSpace(json);
    if EmptyField(Raw(json)) {
      if raw != "null" && raw != "\"\"" { BracketsOnly(raw); }
      assert SaysNothing(raw);
    }
    if b, core, a :| Text.Around(json, b, core, a) && SaysNothing(core) {
      SaidTrimmed(core);
      Text.TrimSpaceIs(json, b, core, a);
      NothingIsEmpty(core);
    }
  }

  lemma BracketsOnly(raw: string)
    requires |raw| >= 2 && Text.TrimSpace(raw[1..|raw| - 1]) == ""
    requires (raw[0] == '[' && raw[|raw| - 1] == ']') || (raw[0] == '{' && raw[|raw| - 1] == '}')
    ensures SaysNothing(raw)
  {
    var inner := raw[1..|raw| - 1];
    var before, after := Text.TrimSpaceParts(inner);
    assert Text.Spaces(inner);
    assert raw == [raw[0]] + inner + [raw[|raw| - 1]];
  }

  lemma SaidTrimmed(core: string)
    requires SaysNothing(core)
    ensures Text.Trimmed(core) && core != ""
  {
  }

  lemma NothingIsEmpty(core: string)
    requires SaysNothing(core)
    ensures core == "null" || core == "\"\""
      || (&& |core| >= 2
          && ((core[0] == '[' && core[|core| - 1] == ']') || (core[0] == '{' && core[|core| - 1] == '}'))
          && Text.TrimSpace(core[1..|core| - 1]) == "")
  {
    if inner :| Text.Spaces(inner) && (core == "[" + inner + "]" || core == "{" + inner + "}") {
      assert core[1..|core| - 1] == inner;
      assert Text.Around(inner, inner, "", "");
      Text.TrimSpaceIs(inner, inner, "", "");
    }
  }

  predicate IsDocument(d: Database, v: View, column: string, text: string) {
    v.format && column in DOCUMENTS && d.codec.valid(text)
  }

  /** A value that a row leaves out when empty fields are left out: a number never is, unless it is a time without a text. */
  ghost predicate LeftOut(d: Database, v: View, column: string, value: Value) {
    match value
    case Null => true
    case Int(n) => v.format && column in TIMES && (n == 0 || d.codec.time(n) == "")
    case Real(_) => false
    case Bool(_) => false
    case Str(text) => if IsDocument(d, v, column, text) then BlankDocument(text) else text == ""
    case Blob(hex) => if IsDocument(d, v, column, hex) then BlankDocument(hex) else hex == ""
    case Raw(json) => BlankDocument(json)
  }

  /** How a value is shown: a blob in hexadecimal, and with formatting times as texts, documents as JSON, monotonic as a boolean. */
  ghost predicate ShownAs(d: Database, v: View, column: string, value: Value, shown: Value) {
    match value
    case Int(n) =>
      if v.format && column == "monotonic" then shown == Value.Bool(n != 0)
      else if v.format && column in TIMES then shown == (if n == 0 then Null else Str(d.codec.time(n)))
      else shown == value
    case Str(text) => shown == if IsDocument(d, v, column, text) then Raw(text) else value
    case Blob(hex) => shown == if IsDocument(d, v, column, hex) then Raw(hex) else Str(hex)
    case _ => shown == value
  }

  lemma ShownField(d: Database, v: View, column: string, value: Value)
    ensures EmptyField(FieldValue(d, v, column, value)) <==> LeftOut(d, v, column, value)
    ensures ShownAs(d, v, column, value, FieldValue(d, v, column, value))
  {
    hide BlankDocument;
    match value
    case Raw(json) => BlankRaw(json);
    case Str(text) => BlankRaw(text);
    case Blob(hex) => BlankRaw(hex);
    case _ =>
  }

  /**
   A row shows exactly the selected columns, without those left out unless empty fields stay, each in the
   form in which it is shown.
   */
  lemma ShownRow(d: Database, v: View, values: seq<Value>, i: nat)
    requires i < |values| == |d.columns| && Distinct(d.columns)
    ensures var column, row := d.columns[i], Shape(d, v, values, |d.columns|);
      && (column in row <==>
            (v.columns == [] || column in v.columns) && (v.includeEmpty || !LeftOut(d, v, column, values[i])))
      && (column in row ==> ShownAs(d, v, column, values[i], row[column]))
  {
    hide FieldValue, LeftOut, ShownAs, EmptyField;
    ShapeHolds(d, v, values, |d.columns|, i);
    ShownField(d, v, d.columns[i], values[i]);
  }

  function RowAt(d: Database, v: View, k: nat): Row
    requires d.Valid() && k < |d.rows|
  {
    Shape(d, v, d.rows[k], |d.columns|)
  }

  /** Rows k to m in the form in which they are shown. */
  function RowsFrom(d: Database, v: View, k: nat, m: nat): (rows: seq<Row>)
    requires d.Valid() && k <= m <= |d.rows|
    ensures |rows| == m - k
  {
    if k == m then [] else RowsFrom(d, v, k, m - 1) + [RowAt(d, v, m - 1)]
  }

  lemma {:induction false} RowsFromAt(d: Database, v: View, k: nat, m: nat, i: nat)
    requires d.Valid() && k <= i < m <= |d.rows|
    ensures RowsFrom(d, v, k, m)[i - k] == RowAt(d, v, i)
    decreases m
  {
    if i < m - 1 { RowsFromAt(d, v, k, m - 1, i); }
  }

  lemma {:induction false} RowsConcat(d: Database, v: View, k: nat, m: nat, n: nat)
    requires d.Valid() && k <= m <= n <= |d.rows|
    ensures RowsFrom(d, v, k, n) == RowsFrom(d, v, k, m) + RowsFrom(d, v, m, n)
    decreases n
  {
    if m < n { RowsConcat(d, v, k, m, n - 1); }
  }

  // ----- JSON output -----

  function Join(xs: seq<string>): string {
    if xs == [] then "" else if |xs| == 1 then xs[0] else Join(xs[..|xs| - 1]) + "," + xs[|xs| - 1]
  }

  function Decimal(n: nat): string {
    var digit := ['0' + (n % 10) as char];
    if n < 10 then digit else Decimal(n / 10) + digit
  }

  function Names(c: Codec, names: seq<string>): (xs: seq<string>)
    ensures |xs| == |names|
  {
    if names == [] then [] else Names(c, names[..|names| - 1]) + [c.quote(names[|names| - 1])]
  }

  function RowText(c: Codec, row: Row): string {
    match c.marshal(row)
    case Some(text) => text
    case None => ""
  }

  function RowTexts(c: Codec, rows: seq<Row>): (xs: seq<string>)
    ensures |xs| == |rows|
  {
    if rows == [] then [] else RowTexts(c, rows[..|rows| - 1]) + [RowText(c, rows[|rows| - 1])]
  }

  function ReasonText(reason: Reason): string {
    match reason
    case NoReason => ""
    case RowLimit => ",\"truncation_reason\":\"row_limit\""
    case ByteLimit => ",\"truncation_reason\":\"byte_limit\""
  }

  function NextText(next: Option<nat>): string {
    match next
    case None => ""
    case Some(n) => ",\"next_offset\":" + Decimal(n)
  }

  /** What the printer writes for a result, without the final newline. */
  function ResultText(c: Codec, r: Result): string {
    "{\"columns\":[" + Join(Names(c, r.columns)) + "],\"rows\":[" + Join(RowTexts(c, r.rows)) + "],\"count\":" + Decimal(r.count)
    + ",\"truncated\":" + (if r.truncated then "true" else "false") + ReasonText(r.reason) + NextText(r.next) + "}"
  }

  /** The text is the items in their order with a comma between any two. */
  ghost predicate Listed(text: string, items: seq<string>)
    decreases |items|
  {
    if items == [] then text == ""
    else if |items| == 1 then text == items[0]
    else exists rest :: text == items[0] + "," + rest && Listed(rest, items[1..])
  }

  lemma {:induction false} ListedMore(text: string, items: seq<string>, last: string)
    requires items != [] && Listed(text, items)
    ensures Listed(text + "," + last, items + [last])
    decreases |items|
  {
    assert (items + [last])[1..] == items[1..] + [last];
    if |items| == 1 {
      assert items[1..] + [last] == [last];
      assert text + "," + last == items[0] + "," + last && Listed(last, [last]);
    } else {
      var rest :| text == items[0] + "," + rest && Listed(rest, items[1..]);
      ListedMore(rest, items[1..], last);
      assert text + "," + last == items[0] + "," + (rest + "," + last);
    }
  }

  lemma {:induction false} JoinListed(xs: seq<string>)
    ensures Listed(Join(xs), xs)
  {
    if |xs| > 1 {
      JoinListed(xs[..|xs| - 1]);
      ListedMore(Join(xs[..|xs| - 1]), xs[..|xs| - 1], xs[|xs| - 1]);
      assert xs[..|xs| - 1] + [xs[|xs| - 1]] == xs;
    }
  }

  lemma {:induction false} NamesAt(c: Codec, names: seq<string>, i: nat)
    requires i < |names|
    ensures Names(c, names)[i] == c.quote(names[i])
  {
    if i < |names| - 1 { NamesAt(c, names[..|names| - 1], i); }
  }

  lemma {:induction false} RowTextsAt(c: Codec, rows: seq<Row>, i: nat)
    requires i < |rows|
    ensures RowTexts(c, rows)[i] == RowText(c, rows[i])
  {
    if i < |rows| - 1 { RowTextsAt(c, rows[..|rows| - 1], i); }
  }

  /** The number that digits stand for. */
  function NumberOf(digits: string): int {
    if digits == "" then 0 else NumberOf(digits[..|digits| - 1]) * 10 + digits[|digits| - 1] as int - '0' as int
  }

  ghost predicate Prints(digits: string, n: nat) {
    && digits != "" && (forall i :: 0 <= i < |digits| ==> '0' <= digits[i] <= '9')
    && NumberOf(digits) == n && (digits[0] == '0' ==> digits == "0")
  }

  lemma {:induction false} DecimalPrints(n: nat)
    ensures Prints(Decimal(n), n)
  {
    if n >= 10 {
      DecimalPrints(n / 10);
      var all := Decimal(n);
      assert all[..|all| - 1] == Decimal(n / 10);
    } else {
      assert Decimal(n)[..0] == "";
    }
  }

  /** How a printed page ends: when it is cut with the reason and the offset of the next. */
  predicate EndsAs(end: string, r: Result, next: string) {
    if !r.truncated then end == "false}"
    else
      var reason := if r.reason == RowLimit then ",\"truncation_reason\":\"row_limit\"" else ",\"truncation_reason\":\"byte_limit\"";
      end == "true" + reason + (",\"next_offset\":" + next) + "}"
  }

  lemma EndOf(r: Result) returns (end: string, next: string)
    requires r.truncated == (r.reason != NoReason) == r.next.Some?
    ensures end == (if r.truncated then "true" else "false") + ReasonText(r.reason) + NextText(r.next) + "}"
    ensures EndsAs(end, r, next)
    ensures r.next.Some? ==> Prints(next, r.next.value)
  {
    hide Decimal, Prints;
    end := (if r.truncated then "true" else "false") + ReasonText(r.reason) + NextText(r.next) + "}";
    next := "";
    if r.truncated {
      next := Decimal(r.next.value);
      DecimalPrints(r.next.value);
    } else {
      assert end == "false" + "}";
    }
  }

  lemma Regrouped(head: string, truncated: string, reason: string, next: string, brace: string)
    ensures head + truncated + reason + next + brace == head + (truncated + reason + next + brace)
  {
  }

  /** A printed page lists its columns and rows in their order, then its count, whether and why it was cut, and the next offset. */
  lemma ResultTextRule(c: Codec, r: Result) returns (columns: string, rows: string, count: string, end: string, next: string)
    requires r.truncated == (r.reason != NoReason) == r.next.Some?
    ensures ResultText(c, r) == "{\"columns\":[" + columns + "],\"rows\":[" + rows + "],\"count\":" + count + ",\"truncated\":" + end
    ensures Listed(columns, seq(|r.columns|, i requires 0 <= i < |r.columns| => c.quote(r.columns[i])))
    ensures Listed(rows, seq(|r.rows|, i requires 0 <= i < |r.rows| => RowText(c, r.rows[i])))
    ensures Prints(count, r.count)
    ensures EndsAs(end, r, next) && (r.next.Some? ==> Prints(next, r.next.value))
  {
    hide Join, Names, RowTexts, RowText, Decimal, Listed, Prints, EndsAs, ReasonText, NextText;
    columns, rows, count := Join(Names(c, r.columns)), Join(RowTexts(c, r.rows)), Decimal(r.count);
    JoinListed(Names(c, r.columns));
    JoinListed(RowTexts(c, r.rows));
    forall i | 0 <= i < |r.columns| ensures Names(c, r.columns)[i] == c.quote(r.columns[i]) {
      NamesAt(c, r.columns, i);
    }
    assert Names(c, r.columns) == seq(|r.columns|, i requires 0 <= i < |r.columns| => c.quote(r.columns[i]));
    forall i | 0 <= i < |r.rows| ensures RowTexts(c, r.rows)[i] == RowText(c, r.rows[i]) {
      RowTextsAt(c, r.rows, i);
    }
    assert RowTexts(c, r.rows) == seq(|r.rows|, i requires 0 <= i < |r.rows| => RowText(c, r.rows[i]));
    DecimalPrints(r.count);
    end, next := EndOf(r);
    Regrouped("{\"columns\":[" + columns + "],\"rows\":[" + rows + "],\"count\":" + count + ",\"truncated\":",
              if r.truncated then "true" else "false", ReasonText(r.reason), NextText(r.next), "}");
  }

  function Bare(columns: seq<string>): Result {
    Result(columns, [], 0, false, NoReason, None)
  }

  // ----- The byte budget -----

  function Sum(xs: seq<string>): nat {
    if xs == [] then 0 else Sum(xs[..|xs| - 1]) + |xs[|xs| - 1]| + 1
  }

  /** The bytes that column names take in the list of names. */
  ghost function NamesCost(c: Codec, names: set<string>): nat {
    if names == {} then 0
    else
      var name :| name in names;
      NamesCost(c, names - {name}) + |c.quote(name)| + 1
  }

  lemma {:induction false} CostOfOneMore(c: Codec, names: set<string>, name: string)
    requires name !in names
    ensures NamesCost(c, names + {name}) == NamesCost(c, names) + |c.quote(name)| + 1
    decreases |names|
  {
    var all := names + {name};
    var picked :| picked in all && NamesCost(c, all) == NamesCost(c, all - {picked}) + |c.quote(picked)| + 1;
    if picked == name {
      assert all - {name} == names;
    } else {
      assert all - {picked} == (names - {picked}) + {name};
      CostOfOneMore(c, names - {picked}, name);
      assert (names - {picked}) + {picked} == names;
      CostOfOneMore(c, names - {picked}, picked);
    }
  }

  lemma NoNamesCost(c: Codec)
    ensures NamesCost(c, {}) == 0
  {
  }

  lemma {:induction false} CostOfUnion(c: Codec, a: set<string>, b: set<string>)
    requires a !! b
    ensures NamesCost(c, a + b) == NamesCost(c, a) + NamesCost(c, b)
    decreases |b|
  {
    hide NamesCost;
    if b == {} {
      NoNamesCost(c);
      assert a + b == a;
    } else {
      var name :| name in b;
      CostOfUnion(c, a, b - {name});
      UnionStep(c, a, b - {name}, name);
      assert (b - {name}) + {name} == b;
    }
  }

  lemma UnionStep(c: Codec, a: set<string>, b: set<string>, name: string)
    requires name !in a && name !in b
    requires NamesCost(c, a + b) == NamesCost(c, a) + NamesCost(c, b)
    ensures NamesCost(c, a + (b + {name})) == NamesCost(c, a) + NamesCost(c, b + {name})
  {
    CostOfOneMore(c, a + b, name);
    CostOfOneMore(c, b, name);
    assert (a + b) + {name} == a + (b + {name});
  }

  function Visible(rows: seq<Row>): set<string> {
    if rows == [] then {} else Visible(rows[..|rows| - 1]) + rows[|rows| - 1].Keys
  }

  function Only(names: seq<string>, visible: set<string>): seq<string> {
    if names == [] then []
    else Only(names[..|names| - 1], visible) + if names[|names| - 1] in visible then [names[|names| - 1]] else []
  }

  function FirstColumns(d: Database, v: View): seq<string> {
    if v.includeEmpty then Selected(d.columns, v) else []
  }

  const RESERVE := 128

  function HeaderBytes(d: Database, v: View): nat {
    |ResultText(d.codec, Bare(FirstColumns(d, v)))| + RESERVE
  }

  /** The bytes charged for a page that holds these rows; a column name is charged once. */
  ghost function Used(d: Database, v: View, rows: seq<Row>): nat {
    HeaderBytes(d, v) + Sum(RowTexts(d.codec, rows))
    + if v.includeEmpty then 0 else NamesCost(d.codec, Visible(rows))
  }

  // ----- Filling a page -----

  /** The first row and the number of rows that the wrapper's OFFSET lets through. */
  function Start(d: Database, q: Request): nat {
    if 0 <= q.offset <= |d.rows| then q.offset else |d.rows|
  }

  /** Why row k cannot be read or encoded. */
  function Fault(d: Database, v: View, k: nat): Option<Error>
    requires d.Valid() && k < |d.rows|
  {
    if d.scan(k).Some? then Some(Error.Database(d.scan(k).value))
    else if d.codec.marshal(RowAt(d, v, k)).None? then Some(Unencodable)
    else None
  }

  /** The charge for rows k to m. */
  ghost function Cost(d: Database, v: View, k: nat, m: nat): int
    requires d.Valid()
  {
    if k <= m <= |d.rows| then Used(d, v, RowsFrom(d, v, k, m)) else 0
  }

  ghost function WindowOf(d: Database, q: Request): Window<Error>
    requires d.Valid() && ValidateOptions(q).None?
  {
    var k := Start(d, q);
    Window(|d.rows| - k, q.limit, q.maxBytes,
           (n: nat) => Cost(d, q.view, k, k + n),
           (n: nat) => if k + n < |d.rows| then Fault(d, q.view, k + n) else None)
  }

  function PageResult(d: Database, q: Request, n: nat, reason: Reason): Result
    requires d.Valid() && q.offset >= 0 && Start(d, q) + n <= |d.rows|
  {
    var rows := PageRows(d, q, n);
    var names := Selected(d.columns, q.view);
    Result(if q.view.includeEmpty then names else Only(names, Visible(rows)), rows, n, reason != NoReason, reason,
           if reason != NoReason then Some(q.offset + n) else None)
  }

  /** Why a query is refused before any row is read. */
  function Refusal(d: Database, q: Request): Option<Error> {
    if ValidateOptions(q).Some? then ValidateOptions(q)
    else
      match Scanner.Judged(q.statement)
      case Refused(why) => Some(InvalidStatement(why))
      case Accepted(_) =>
        if d.open.Some? then Some(Error.Database(d.open.value))
        else if SelectionObjection(d.columns, q).Some? then SelectionObjection(d.columns, q)
        else if q.columnsOnly then
          if |ResultText(d.codec, Bare(d.columns))| + 1 > q.maxBytes then Some(ColumnsTooLong) else None
        else if HeaderBytes(d, q.view) > q.maxBytes then Some(ColumnsTooLong)
        else None
  }

  ghost function PageAnswer(d: Database, q: Request): Outcome
    requires d.Valid() && ValidateOptions(q).None?
  {
    match Fill(WindowOf(d, q), 0)
    case Stopped(e) => Failed(e)
    case TooLong => Failed(FirstRowTooLong)
    case Page(n, reason) => if d.end.Some? then Failed(Error.Database(d.end.value)) else Ok(PageResult(d, q, n, reason))
  }

  /** What reading answers. */
  ghost function Answer(d: Database, q: Request): Outcome
    requires d.Valid()
  {
    match Refusal(d, q)
    case Some(e) => Failed(e)
    case None => if q.columnsOnly then Ok(Bare(d.columns)) else PageAnswer(d, q)
  }

  lemma RefusalChecks(d: Database, q: Request)
    ensures Refusal(d, q).None? ==> ValidateOptions(q).None? && SelectionObjection(d.columns, q).None?
    ensures Refusal(d, q).None? && !q.columnsOnly ==> HeaderBytes(d, q.view) <= q.maxBytes
    ensures Refusal(d, q).None? && q.columnsOnly ==> |ResultText(d.codec, Bare(d.columns))| + 1 <= q.maxBytes
  {
  }

  // ----- The bytes of a result -----

  lemma {:induction false} JoinBytes(xs: seq<string>)
    ensures |Join(xs)| <= Sum(xs)
  {
    if |xs| == 1 {
      assert Sum(xs[..0]) == 0;
    } else if xs != [] {
      JoinBytes(xs[..|xs| - 1]);
    }
  }

  lemma NamesAppend(c: Codec, names: seq<string>, last: string)
    ensures Sum(Names(c, names + [last])) == Sum(Names(c, names)) + |c.quote(last)| + 1
  {
    assert (names + [last])[..|names|] == names;
    var xs := Names(c, names);
    assert (xs + [c.quote(last)])[..|xs|] == xs;
  }

  lemma {:induction false} OnlyWithout(names: seq<string>, visible: set<string>, name: string)
    requires name !in names
    ensures Only(names, visible - {name}) == Only(names, visible)
  {
    if names != [] { OnlyWithout(names[..|names| - 1], visible, name); }
  }

  lemma {:induction false} OnlyBytes(c: Codec, names: seq<string>, visible: set<string>)
    requires Distinct(names)
    ensures Sum(Names(c, Only(names, visible))) <= NamesCost(c, visible)
  {
    if names != [] {
      var init, last := names[..|names| - 1], names[|names| - 1];
      if last in visible {
        OnlyWithout(init, visible, last);
        OnlyBytes(c, init, visible - {last});
        NamesAppend(c, Only(init, visible), last);
        CostOfOneMore(c, visible - {last}, last);
        assert visible - {last} + {last} == visible;
      } else {
        OnlyBytes(c, init, visible);
        assert Only(init, visible) + [] == Only(init, visible);
      }
    }
  }

  lemma SmallDecimal(n: nat)
    ensures n <= 10000 ==> |Decimal(n)| <= 5
    ensures n < 10000000 ==> |Decimal(n)| <= 7
  {
    var a := n / 10;
    var b := a / 10;
    var e := b / 10;
    var f := e / 10;
    var g := f / 10;
    assert |Decimal(g)| == 1 || g >= 10;
    assert |Decimal(f)| <= 1 + |Decimal(g)|;
    assert |Decimal(e)| <= 1 + |Decimal(f)|;
    assert |Decimal(b)| <= 1 + |Decimal(e)|;
    assert |Decimal(a)| <= 1 + |Decimal(b)|;
    assert g >= 10 ==> |Decimal(g)| == 1 + |Decimal(g / 10)|;
  }

  const FIXED := 46

  lemma TextBytes(c: Codec, r: Result)
    ensures |ResultText(c, r)|
      == FIXED + |Join(Names(c, r.columns))| + |Join(RowTexts(c, r.rows))| + |Decimal(r.count)|
         + (if r.truncated then 4 else 5) + |ReasonText(r.reason)| + |NextText(r.next)|
  {
  }

  lemma EndBytes(reason: Reason, next: Option<nat>)
    ensures |ReasonText(reason)| <= 33
    ensures (next.Some? ==> next.value < 10000000) ==> |NextText(next)| <= 22
  {
    if next.Some? { SmallDecimal(next.value); }
  }

  /** The names that a page ends with were reserved in its header or charged with its rows. */
  ghost predicate ColumnsCharged(d: Database, v: View, visible: set<string>) {
    |Join(Names(d.codec, if v.includeEmpty then Selected(d.columns, v) else Only(Selected(d.columns, v), visible)))|
    <= |Join(Names(d.codec, FirstColumns(d, v)))| + if v.includeEmpty then 0 else NamesCost(d.codec, visible)
  }

  lemma ColumnsFit(d: Database, v: View, visible: set<string>)
    requires Distinct(Selected(d.columns, v))
    ensures ColumnsCharged(d, v, visible)
  {
    OnlyBytes(d.codec, Selected(d.columns, v), visible);
    JoinBytes(Names(d.codec, Only(Selected(d.columns, v), visible)));
  }

  lemma HeaderText(d: Database, v: View)
    ensures HeaderBytes(d, v) == FIXED + |Join(Names(d.codec, FirstColumns(d, v)))| + 6 + RESERVE
  {
    TextBytes(d.codec, Bare(FirstColumns(d, v)));
  }

  /** What the reader reserves and charges covers the whole text of a page and its newline. */
  lemma PageFits(d: Database, q: Request, n: nat, reason: Reason)
    requires d.Valid() && ValidateOptions(q).None? && Start(d, q) + n <= |d.rows| && n <= q.limit
    requires ColumnsCharged(d, q.view, Visible(PageRows(d, q, n)))
    ensures |ResultText(d.codec, PageResult(d, q, n, reason))| + 1 <= Cost(d, q.view, Start(d, q), Start(d, q) + n)
  {
    hide ResultText, Join, Names, RowTexts, Decimal, NamesCost, Sum, ReasonText, NextText, RowsFrom, Only, Visible, HeaderBytes;
    var r := PageResult(d, q, n, reason);
    HeaderText(d, q.view);
    TextBytes(d.codec, r);
    JoinBytes(RowTexts(d.codec, r.rows));
    EndBytes(r.reason, r.next);
    SmallDecimal(n);
  }

  /** Before any row is read, only the header has been charged. */
  lemma NothingUsed(d: Database, v: View)
    ensures Used(d, v, []) == HeaderBytes(d, v)
  {
  }

  lemma EmptyPageFits(d: Database, q: Request)
    requires d.Valid() && ValidateOptions(q).None?
    ensures WindowOf(d, q).cost(0) == HeaderBytes(d, q.view)
    ensures HeaderBytes(d, q.view) <= q.maxBytes ==> Fits(WindowOf(d, q), 0)
  {
    hide Fault, Shape, HeaderBytes, ResultText;
    var k := Start(d, q);
    NothingUsed(d, q.view);
    assert WindowOf(d, q).cost(0) == Cost(d, q.view, k, k + 0);
    assert RowsFrom(d, q.view, k, k) == [];
  }

  /** A page is the longest run of rows from the offset that fits the row limit and the byte budget. */
  lemma PageIsLongest(d: Database, q: Request)
    requires d.Valid() && ValidateOptions(q).None? && HeaderBytes(d, q.view) <= q.maxBytes
    ensures Described(WindowOf(d, q), Fill(WindowOf(d, q), 0))
  {
    hide Fault, Shape, HeaderBytes, ResultText, Used, RowsFrom;
    EmptyPageFits(d, q);
    FillIsLongest(WindowOf(d, q), 0);
  }

  /** The rows and the reason of a successful page. */
  lemma PageOf(d: Database, q: Request) returns (n: nat, reason: Reason)
    requires d.Valid() && ValidateOptions(q).None? && HeaderBytes(d, q.view) <= q.maxBytes && PageAnswer(d, q).Ok?
    ensures n <= q.limit && Start(d, q) + n <= |d.rows|
    ensures Cost(d, q.view, Start(d, q), Start(d, q) + n) <= q.maxBytes
    ensures PageAnswer(d, q) == Ok(PageResult(d, q, n, reason))
  {
    hide Fault, Shape, HeaderBytes, ResultText, Used, RowsFrom;
    PageIsLongest(d, q);
    var w := WindowOf(d, q);
    var f := Fill(w, 0);
    n, reason := f.rows, f.reason;
    assert w.cost(n) == Cost(d, q.view, Start(d, q), Start(d, q) + n);
  }

  lemma PageWithinBudget(d: Database, q: Request, n: nat, reason: Reason)
    requires d.Valid() && ValidateOptions(q).None? && Start(d, q) + n <= |d.rows| && n <= q.limit
    requires Cost(d, q.view, Start(d, q), Start(d, q) + n) <= q.maxBytes
    requires SelectionObjection(d.columns, q).None? && !q.columnsOnly
    ensures |ResultText(d.codec, PageResult(d, q, n, reason))| + 1 <= q.maxBytes
  {
    hide HeaderBytes, ResultText, Used, RowsFrom, ColumnsCharged, SelectionObjection, Visible;
    NamesAreCharged(d, q, Visible(PageRows(d, q, n)));
    PageFits(d, q, n, reason);
  }

  /** Every successful answer, with its newline, is within the byte budget. */
  lemma AnswerFits(d: Database, q: Request)
    requires d.Valid() && Answer(d, q).Ok?
    ensures |ResultText(d.codec, Answer(d, q).result)| + 1 <= q.maxBytes
  {
    hide ResultText, Used, RowsFrom, Shape, Visible, ColumnObjection;
    RefusalChecks(d, q);
    if !q.columnsOnly {
      var n, reason := PageOf(d, q);
      PageWithinBudget(d, q, n, reason);
    }
  }

  lemma NamesAreCharged(d: Database, q: Request, visible: set<string>)
    requires SelectionObjection(d.columns, q).None? && !q.columnsOnly
    ensures ColumnsCharged(d, q.view, visible)
  {
    SelectionRule(d.columns, q);
    ColumnsFit(d, q.view, visible);
  }

  // ----- Reading -----

  /** The bytes of the column names that a row is the first to show; the map is visited in any order. */
  method NewNames(c: Codec, row: Row, visible: set<string>) returns (bytes: nat)
    ensures bytes == NamesCost(c, row.Keys - visible)
  {
    bytes := 0;
    var left := row.Keys;
    assert (row.Keys - left) - visible == {};
    while left != {}
      invariant left <= row.Keys
      invariant bytes == NamesCost(c, (row.Keys - left) - visible)
    {
      var name :| name in left;
      ghost var seen := (row.Keys - left) - visible;
      left := left - {name};
      if name !in visible {
        CostOfOneMore(c, seen, name);
        assert (row.Keys - left) - visible == seen + {name};
        bytes := bytes + |c.quote(name)| + 1;
      } else {
        assert (row.Keys - left) - visible == seen;
      }
    }
    assert (row.Keys - left) - visible == row.Keys - visible;
  }

  method CheckColumns(columns: seq<string>) returns (e: Option<Error>)
    ensures e == ColumnObjection(columns, 0)
  {
    var seen, i := {}, 0;
    while i < |columns|
      invariant 0 <= i <= |columns| && seen == set c | c in columns[..i]
      invariant ColumnObjection(columns, 0) == ColumnObjection(columns, i)
    {
      if columns[i] in seen { return Some(DuplicateColumn(columns[i])); }
      seen := seen + {columns[i]};
      i := i + 1;
      assert columns[..i] == columns[..i - 1] + [columns[i - 1]];
    }
    return None;
  }

  method CheckRequest(columns: seq<string>, names: seq<string>) returns (e: Option<Error>)
    ensures e == RequestObjection(columns, names, 0)
  {
    var requested, i := {}, 0;
    while i < |names|
      invariant 0 <= i <= |names| && requested == set c | c in names[..i]
      invariant RequestObjection(columns, names, 0) == RequestObjection(columns, names, i)
    {
      if names[i] !in columns { return Some(UnknownColumn(names[i])); }
      if names[i] in requested { return Some(DuplicateRequest(names[i])); }
      requested := requested + {names[i]};
      i := i + 1;
      assert names[..i] == names[..i - 1] + [names[i - 1]];
    }
    return None;
  }

  method ShapeRow(d: Database, v: View, values: seq<Value>) returns (row: Row)
    requires |values| == |d.columns|
    ensures row == Shape(d, v, values, |d.columns|)
  {
    row := map[];
    var i := 0;
    while i < |values|
      invariant 0 <= i <= |values| && row == Shape(d, v, values, i)
    {
      if d.columns[i] in Selected(d.columns, v) {
        var value := if values[i].Blob? then Str(values[i].hex) else values[i];
        if v.format { value := FormatValue(d.codec, d.columns[i], value); }
        if v.includeEmpty || !EmptyField(value) { row := row[d.columns[i] := value]; }
      }
      i := i + 1;
    }
  }

  lemma UsedNext(d: Database, v: View, rows: seq<Row>, row: Row)
    ensures Used(d, v, rows + [row])
      == Used(d, v, rows) + |RowText(d.codec, row)| + 1
         + if v.includeEmpty then 0 else NamesCost(d.codec, row.Keys - Visible(rows))
  {
    assert (rows + [row])[..|rows|] == rows;
    var xs := RowTexts(d.codec, rows);
    assert (xs + [RowText(d.codec, row)])[..|xs|] == xs;
    assert Visible(rows) + row.Keys == Visible(rows) + (row.Keys - Visible(rows));
    CostOfUnion(d.codec, Visible(rows), row.Keys - Visible(rows));
  }

  lemma CostNext(d: Database, v: View, k: nat, m: nat)
    requires d.Valid() && k <= m < |d.rows|
    ensures var rows := RowsFrom(d, v, k, m);
      Cost(d, v, k, m + 1) == Used(d, v, rows + [RowAt(d, v, m)])
  {
  }

  /** Reads row m and charges it to a page that holds the rows from k to m. */
  method NextRow(d: Database, v: View, k: nat, m: nat, visible: set<string>) returns (row: Row, bytes: nat, e: Option<Error>)
    requires d.Valid() && k <= m < |d.rows|  && visible == Visible(RowsFrom(d, v, k, m))
    ensures e == Fault(d, v, m)
    ensures e.None? ==> RowsFrom(d, v, k, m + 1) == RowsFrom(d, v, k, m) + [row]
    ensures e.None? ==> Cost(d, v, k, m + 1) == Cost(d, v, k, m) + bytes
  {
    hide NamesCost, Sum, HeaderBytes;
    row, bytes, e := map[], 0, None;
    if d.scan(m).Some? {
      e := Some(Error.Database(d.scan(m).value));
      return;
    }
    row := ShapeRow(d, v, d.rows[m]);
    var encoded := d.codec.marshal(row);
    if encoded.None? {
      e := Some(Unencodable);
      return;
    }
    var columnBytes := 0;
    if !v.includeEmpty {
      columnBytes := NewNames(d.codec, row, visible);
    }
    UsedNext(d, v, RowsFrom(d, v, k, m), row);
    CostNext(d, v, k, m);
    bytes := |encoded.value| + 1 + columnBytes;
  }

  lemma WindowAt(d: Database, q: Request, n: nat)
    requires d.Valid() && ValidateOptions(q).None? && Start(d, q) + n < |d.rows|
    ensures var k, w := Start(d, q), WindowOf(d, q);
      && w.fault(n) == Fault(d, q.view, k + n)
      && w.cost(n) == Cost(d, q.view, k, k + n) && w.cost(n + 1) == Cost(d, q.view, k, k + n + 1)
  {
    hide Used, Fault, Cost, RowsFrom, Shape;
  }

  /** The rows that a page of n rows holds. */
  function PageRows(d: Database, q: Request, n: nat): (rows: seq<Row>)
    requires d.Valid() && Start(d, q) + n <= |d.rows|
    ensures |rows| == n
  {
    RowsFrom(d, q.view, Start(d, q), Start(d, q) + n)
  }

  /** The loop that fills a page. */
  method FillPage(d: Database, q: Request) returns (rows: seq<Row>, visible: set<string>, filled: Filled<Error>)
    requires d.Valid() && ValidateOptions(q).None?
    ensures filled == Fill(WindowOf(d, q), 0)
    ensures filled.Page? ==> filled.rows == |rows| && Start(d, q) + |rows| <= |d.rows|
    ensures filled.Page? ==> rows == PageRows(d, q, |rows|) && visible == Visible(rows)
  {
    hide Used, Visible, HeaderBytes, Fault, Shape, Cost;
    rows, visible := [], {};
    var used := HeaderBytes(d, q.view);
    EmptyPageFits(d, q);
    NothingVisible();
    ghost var w := WindowOf(d, q);
    ghost var whole := Fill(w, 0);
    var left := |d.rows| - Start(d, q);
    var fetched := if left <= q.limit + 1 then left else q.limit + 1;
    var n := 0;
    while n < fetched
      invariant 0 <= n == |rows| <= fetched == Fetched(w) && rows == PageRows(d, q, n) && visible == Visible(rows)
      invariant used == w.cost(n) && whole == Fill(w, n)
    {
      if |rows| == q.limit { return rows, visible, Page(n, RowLimit); }
      var row, bytes, e := NextRow(d, q.view, Start(d, q), Start(d, q) + n, visible);
      WindowAt(d, q, n);
      if e.Some? { return rows, visible, Stopped(e.value); }
      if used + bytes > q.maxBytes {
        return rows, visible, if |rows| == 0 then TooLong else Page(n, ByteLimit);
      }
      used := used + bytes;
      VisibleNext(rows, row);
      visible := visible + row.Keys;
      rows := rows + [row];
      n := n + 1;
    }
    return rows, visible, Page(n, NoReason);
  }

  lemma NothingVisible()
    ensures Visible([]) == {}
  {
  }

  lemma VisibleNext(rows: seq<Row>, row: Row)
    ensures Visible(rows + [row]) == Visible(rows) + row.Keys
  {
    assert (rows + [row])[..|rows|] == rows;
  }

  /** The checks made before the first row. */
  method Prepare(d: Database, q: Request) returns (e: Option<Error>)
    ensures e == Refusal(d, q)
  {
    e := ValidateOptions(q);
    if e.Some? { return; }
    var verdict := Scanner.SingleStatement(q.statement);
    if verdict.Refused? { return Some(InvalidStatement(verdict.why)); }
    if d.open.Some? { return Some(Error.Database(d.open.value)); }
    e := CheckColumns(d.columns);
    if e.Some? { return; }
    if q.columnsOnly {
      return if |ResultText(d.codec, Bare(d.columns))| + 1 > q.maxBytes then Some(ColumnsTooLong) else None;
    }
    if |q.view.columns| > 0 {
      e := CheckRequest(d.columns, q.view.columns);
      if e.Some? { return; }
    }
    return if HeaderBytes(d, q.view) > q.maxBytes then Some(ColumnsTooLong) else None;
  }

  method ReadRows(d: Database, q: Request) returns (o: Outcome)
    requires d.Valid() && ValidateOptions(q).None?
    ensures o == PageAnswer(d, q)
  {
    hide Used, RowsFrom, Fault, Shape, Visible;
    var rows, visible, filled := FillPage(d, q);
    match filled
    case Stopped(e) => return Failed(e);
    case TooLong => return Failed(FirstRowTooLong);
    case Page(n, reason) =>
      if d.end.Some? { return Failed(Error.Database(d.end.value)); }
      var columns := Selected(d.columns, q.view);
      if !q.view.includeEmpty { columns := VisibleColumns(columns, visible); }
      var truncated := reason != NoReason;
      return Ok(Result(columns, rows, |rows|, truncated, reason, if truncated then Some(q.offset + |rows|) else None));
  }

  /** Reading a query: the answer described above, on every request and every database. */
  method Read(d: Database, q: Request) returns (o: Outcome)
    requires d.Valid()
    ensures o == Answer(d, q)
    ensures o.Ok? ==> |ResultText(d.codec, o.result)| + 1 <= q.maxBytes
  {
    var refusal := Prepare(d, q);
    if refusal.Some? { return Failed(refusal.value); }
    RefusalChecks(d, q);
    if q.columnsOnly { return Ok(Bare(d.columns)); }
    o := ReadRows(d, q);
    if o.Ok? { AnswerFits(d, q); }
  }

  method VisibleColumns(selected: seq<string>, visible: set<string>) returns (columns: seq<string>)
    ensures columns == Only(selected, visible)
  {
    columns := [];
    for i := 0 to |selected|
      invariant columns == Only(selected[..i], visible)
    {
      assert selected[..i + 1][..i] == selected[..i];
      if selected[i] in visible { columns := columns + [selected[i]]; }
    }
    assert selected[..|selected|] == selected;
  }

  /** The JSON printer: it refuses a text that does not fit. */
  method PrintResult(c: Codec, r: Result, maxBytes: int) returns (written: Option<string>)
    ensures written == if |ResultText(c, r)| + 1 > maxBytes then None else Some(ResultText(c, r) + "\n")
  {
    var buffer := ResultText(c, r) + "\n";
    if |buffer| > maxBytes { return None; }
    return Some(buffer);
  }

  /** The printer's check never refuses what the reader answered under the same budget. */
  method ReadAndPrint(d: Database, q: Request) returns (o: Outcome, written: Option<string>)
    requires d.Valid()
    ensures o == Answer(d, q)
    ensures written == if o.Ok? then Some(ResultText(d.codec, o.result) + "\n") else None
  {
    o := Read(d, q);
    written := None;
    if o.Ok? { written := PrintResult(d.codec, o.result, q.maxBytes); }
  }
}
