/**
 Compiling filters to SQL. A query holds positional placeholders and a separate list of arguments; the
 placeholders take the arguments in the order of the text. A row must satisfy the compiled condition
 exactly when it matches the filters.
 */
module FilterCompiler {
  import opened Options
  import opened Sql
  import opened Text

  // ----- Rows -----

  datatype AnyValue = StringValue(s: string) | BoolValue(b: bool) | IntValue(n: int) | DoubleValue(r: real) | OtherValue

  datatype Entry = Entry(key: string, value: AnyValue)

  /** A row of a source query: stored columns, and the parts of its payload that filters read. */
  datatype Row = Row(received: int, time: int, start: int, end: int, service: string, scopeName: string, scopeVersion: string,
                     traceId: Option<seq<int>>, spanId: Option<seq<int>>, name: string, kind: int, status: int, severity: int,
                     resourceId: string, metricType: string, temporality: string,
                     resource: seq<Entry>, attributes: seq<Entry>)

  // ----- SQL conditions -----

  datatype Value = Null | Int(n: int) | Real(r: real) | Str(s: string) | Blob(bytes: seq<int>)

  datatype Column =
    | ReceivedAt | EventTime | StartTime | EndTime | ServiceName | ScopeName | ScopeVersion | TraceId | SpanId
    | Name | Kind | StatusCode | Severity | ResourceId | MetricType | Temporality

  /** The column of the record's own time. */
  type EventColumn = c: Column | c == EventTime || c == StartTime witness EventTime

  datatype Term = Col(column: Column) | Param | Constant(n: int) | Difference(a: Column, b: Column)

  datatype List = ResourceAttributes | RecordAttributes

  datatype Field = StringField | BoolField | IntField | DoubleField

  /** Exists searches a key/value list; its two placeholders are the key and the value. */
  datatype Clause =
    | Equals(left: Term, right: Term)
    | AtLeast(left: Term, right: Term)
    | Less(left: Term, right: Term)
    | Exists(list: List, field: Field)

  function Get(row: Row, c: Column): Value {
    match c
    case ReceivedAt => Int(row.received)
    case EventTime => Int(row.time)
    case StartTime => Int(row.start)
    case EndTime => Int(row.end)
    case ServiceName => Str(row.service)
    case ScopeName => Str(row.scopeName)
    case ScopeVersion => Str(row.scopeVersion)
    case TraceId => if row.traceId.None? then Null else Blob(row.traceId.value)
    case SpanId => if row.spanId.None? then Null else Blob(row.spanId.value)
    case Name => Str(row.name)
    case Kind => Int(row.kind)
    case StatusCode => Int(row.status)
    case Severity => Int(row.severity)
    case ResourceId => Str(row.resourceId)
    case MetricType => Str(row.metricType)
    case Temporality => Str(row.temporality)
  }

  function EntriesOf(row: Row, list: List): seq<Entry> {
    if list.ResourceAttributes? then row.resource else row.attributes
  }

  /** The clauses mention an attribute list; a source that has no such column refuses them. */
  predicate Reads(where: seq<Clause>, list: List) {
    exists c :: c in where && c.Exists? && c.list == list
  }

  lemma ReadsMore(where: seq<Clause>, c: Clause)
    ensures forall list :: Reads(where + [c], list) <==> Reads(where, list) || (c.Exists? && c.list == list)
  {
    forall list ensures Reads(where + [c], list) <==> Reads(where, list) || (c.Exists? && c.list == list) {
      if x :| x in where && x.Exists? && x.list == list {
        assert x in where + [c];
      }
      assert c in where + [c];
    }
  }

  function Marks(t: Term): nat {
    if t.Param? then 1 else 0
  }

  function ClauseMarks(c: Clause): nat {
    match c
    case Exists(_, _) => 2
    case _ => Marks(c.left) + Marks(c.right)
  }

  function WhereMarks(where: seq<Clause>): nat {
    if where == [] then 0 else ClauseMarks(where[0]) + WhereMarks(where[1..])
  }

  function TermValue(t: Term, row: Row, args: seq<Value>): Value
    requires Marks(t) == |args|
  {
    match t
    case Col(c) => Get(row, c)
    case Param => args[0]
    case Constant(n) => Int(n)
    case Difference(a, b) =>
      var x, y := Get(row, a), Get(row, b);
      if x.Int? && y.Int? then Int(x.n - y.n) else Null
  }

  /** Numbers compare by value; values of different kinds are different. */
  function SqlEqual(a: Value, b: Value): Tri {
    if a.Null? || b.Null? then None
    else if a.Int? && b.Real? then Some(a.n as real == b.r)
    else if a.Real? && b.Int? then Some(a.r == b.n as real)
    else Some(a == b)
  }

  /** The order of integers; no other values are ordered by these queries. */
  function SqlLess(a: Value, b: Value): Tri {
    if a.Int? && b.Int? then Some(a.n < b.n) else None
  }

  function SqlAtLeast(a: Value, b: Value): Tri {
    if a.Int? && b.Int? then Some(a.n >= b.n) else None
  }

  /** The value of one field of an attribute value, NULL when the value has another type. */
  function Extract(v: AnyValue, field: Field): Value {
    match field
    case StringField => if v.StringValue? then Str(v.s) else Null
    case BoolField => if v.BoolValue? then Int(if v.b then 1 else 0) else Null
    case IntField => if v.IntValue? then Int(v.n) else Null
    case DoubleField => if v.DoubleValue? then Real(v.r) else Null
  }

  predicate EntryFound(e: Entry, field: Field, key: Value, value: Value) {
    Holds(And(SqlEqual(Str(e.key), key), SqlEqual(Extract(e.value, field), value)))
  }

  function ClauseValue(c: Clause, row: Row, args: seq<Value>): Tri
    requires ClauseMarks(c) == |args|
  {
    match c
    case Exists(list, field) => Some(exists e :: e in EntriesOf(row, list) && EntryFound(e, field, args[0], args[1]))
    case _ =>
      var n := Marks(c.left);
      var a, b := TermValue(c.left, row, args[..n]), TermValue(c.right, row, args[n..]);
      match c
      case Equals(_, _) => SqlEqual(a, b)
      case AtLeast(_, _) => SqlAtLeast(a, b)
      case _ => SqlLess(a, b)
  }

  /** Clauses joined by AND; each takes the next arguments. */
  function Condition(where: seq<Clause>, row: Row, args: seq<Value>): Tri
    requires WhereMarks(where) == |args|
  {
    if where == [] then Some(true)
    else
      var n := ClauseMarks(where[0]);
      And(ClauseValue(where[0], row, args[..n]), Condition(where[1..], row, args[n..]))
  }

  /** The rows that a WHERE clause selects. */
  predicate Selects(where: seq<Clause>, args: seq<Value>, row: Row) {
    WhereMarks(where) == |args| && Holds(Condition(where, row, args))
  }

  lemma {:induction false} AppendClause(where: seq<Clause>, args: seq<Value>, c: Clause, more: seq<Value>, row: Row)
    requires WhereMarks(where) == |args| && ClauseMarks(c) == |more|
    ensures WhereMarks(where + [c]) == |args + more|
    ensures Selects(where + [c], args + more, row) <==> Selects(where, args, row) && Holds(ClauseValue(c, row, more))
  {
    if where == [] {
      assert where + [c] == [c] && args + more == more;
      assert [c][1..] == [] && more[..|more|] == more && more[|more|..] == [];
    } else {
      var n := ClauseMarks(where[0]);
      AppendClause(where[1..], args[n..], c, more, row);
      assert (where + [c])[1..] == where[1..] + [c];
      assert (args + more)[..n] == args[..n] && (args + more)[n..] == args[n..] + more;
    }
  }

  // ----- Filters -----

  datatype Filters = Filters(service: string, since: string, until: string, timeBasis: string, level: string, name: string,
                             scope: string, scopeVersion: string, traceId: string, spanId: string, kind: string, status: string,
                             minDuration: string, metricType: string, temporality: string, resourceId: string,
                             resource: seq<string>, attribute: seq<string>, payload: bool)

  datatype Json = NotJson | JsonString(s: string) | JsonBool(b: bool) | JsonNumber(digits: string) | OtherJson

  /** Durations and instants in nanoseconds, JSON texts and floating-point numbers, as the standard library reads them. */
  datatype Parser = Parser(duration: string -> Option<int>, instant: string -> Option<int>,
                           json: string -> Json, float: string -> Option<real>)

  datatype Error =
    | InvalidTimeBasis | SinceNotPositive | SinceNotTime | SinceOutOfRange | InvalidUntil | UntilNotAfterSince
    | TooManyFilters | NotKeyValue | FilterTooLong | InvalidDouble | IntegerOutOfRange | UnsupportedScalar
    | InvalidLevel | InvalidId(column: Column) | InvalidKind | InvalidStatus | InvalidMinDuration
    | InvalidResourceId | InvalidType | InvalidTemporality | PayloadOfSummary | RateNeedsName | UnknownView

  const MAX_INT64 := 0x7fff_ffff_ffff_ffff
  const MAX_ATTRIBUTE_FILTERS := 32
  const MAX_FILTER_BYTES := 4096

  datatype Parsed<+T> = Ok(value: T) | Bad(error: Error)

  predicate InRange(t: int) {
    0 <= t <= MAX_INT64
  }

  function SinceError(p: Parser, since: string): Option<Error> {
    match (p.duration(since), p.instant(since))
    case (Some(d), _) => if d <= 0 then Some(SinceNotPositive) else None
    case (None, None) => Some(SinceNotTime)
    case (None, Some(t)) => if InRange(t) then None else Some(SinceOutOfRange)
  }

  /** Where the window starts: so long before now, or at an instant. */
  function WindowStart(p: Parser, since: string, now: int): int {
    match (p.duration(since), p.instant(since))
    case (Some(d), _) => now - d
    case (None, Some(t)) => t
    case (None, None) => now
  }

  function UntilError(p: Parser, until: string, since: int): Option<Error> {
    if until == "" then None
    else
      match p.instant(until)
      case None => Some(InvalidUntil)
      case Some(t) => if t < 0 || t > MAX_INT64 then Some(InvalidUntil) else if t <= since then Some(UntilNotAfterSince) else None
  }

  // ----- Typed attribute filters -----

  /** The position of the first equals sign, or the length of the text. */
  function EqualsSign(s: string): (i: nat)
    ensures i <= |s|
    ensures i < |s| ==> s[i] == '='
    ensures forall j :: 0 <= j < i ==> s[j] != '='
  {
    if s == "" || s[0] == '=' then 0 else 1 + EqualsSign(s[1..])
  }

  predicate IsDigit(c: char) {
    '0' <= c <= '9'
  }

  function DigitsValue(s: string): nat
    requires forall c :: c in s ==> IsDigit(c)
  {
    if s == "" then 0
    else
      assert IsDigit(s[|s| - 1]);
      10 * DigitsValue(s[..|s| - 1]) + (s[|s| - 1] as nat - '0' as nat)
  }

  /** A decimal integer with an optional sign, within 64 bits. */
  function ParseInt(s: string): Option<int> {
    var digits := if s != "" && (s[0] == '-' || s[0] == '+') then s[1..] else s;
    if digits == "" || exists c :: c in digits && !IsDigit(c) then None
    else
      var n: int := DigitsValue(digits);
      var n := if s[0] == '-' then 0 - n else n;
      if -MAX_INT64 - 1 <= n <= MAX_INT64 then Some(n) else None
  }

  datatype AttributeFilter = AttributeFilter(key: string, value: AnyValue)

  function DecimalText(n: nat): string {
    var digit := ['0' + (n % 10) as char];
    if n < 10 then digit else DecimalText(n / 10) + digit
  }

  lemma {:induction false} DigitsOfText(n: nat)
    ensures DecimalText(n) != "" && forall c :: c in DecimalText(n) ==> IsDigit(c)
    ensures DigitsValue(DecimalText(n)) == n
    decreases n
  {
    if n >= 10 {
      DigitsOfText(n / 10);
      var s := DecimalText(n);
      assert s[..|s| - 1] == DecimalText(n / 10) && s[|s| - 1] == '0' + (n % 10) as char;
    }
  }

  /** The decimal text of a number is read as that number, with or without a plus, if it fits 64 bits. */
  lemma ParsedInt(n: int)
    ensures var digits := DecimalText(if n < 0 then -n else n);
      var parsed := if -MAX_INT64 - 1 <= n <= MAX_INT64 then Some(n) else None;
      if n < 0 then ParseInt("-" + digits) == parsed else ParseInt(digits) == parsed && ParseInt("+" + digits) == parsed
  {
    var digits := DecimalText(if n < 0 then -n else n);
    DigitsOfText(if n < 0 then -n else n);
    assert IsDigit(digits[0]);
    assert ("-" + digits)[1..] == digits && ("+" + digits)[1..] == digits;
  }

  /** What a KEY=VALUE filter asks for: JSON scalars keep their type, every other text is a string. */
  function ParseFilter(p: Parser, filter: string): Parsed<AttributeFilter> {
    var i := EqualsSign(filter);
    if i == |filter| || i == 0 then Bad(NotKeyValue)
    else if ByteLen(filter) > MAX_FILTER_BYTES then Bad(FilterTooLong)
    else
      match ScalarOf(p, filter[i + 1..])
      case Ok(v) => Ok(AttributeFilter(filter[..i], v))
      case Bad(e) => Bad(e)
  }

  function ScalarOf(p: Parser, value: string): Parsed<AnyValue> {
    match p.json(value)
    case NotJson => Ok(StringValue(value))
    case JsonString(s) => Ok(StringValue(s))
    case JsonBool(b) => Ok(BoolValue(b))
    case JsonNumber(digits) =>
      if exists c :: c in digits && c in {'.', 'e', 'E'} then
        if p.float(digits).None? then Bad(InvalidDouble) else Ok(DoubleValue(p.float(digits).value))
      else if ParseInt(digits).None? then Bad(IntegerOutOfRange)
      else Ok(IntValue(ParseInt(digits).value))
    case OtherJson => Bad(UnsupportedScalar)
  }

  /** A list has the key with exactly this value, type included. */
  predicate HasAttribute(entries: seq<Entry>, a: AttributeFilter) {
    Entry(a.key, a.value) in entries
  }

  function FilterError(p: Parser, filters: seq<string>): Option<Error> {
    if filters == [] then None
    else
      match ParseFilter(p, filters[0])
      case Bad(e) => Some(e)
      case Ok(_) => FilterError(p, filters[1..])
  }

  predicate MatchesFilter(p: Parser, filter: string, entries: seq<Entry>) {
    match ParseFilter(p, filter)
    case Ok(a) => HasAttribute(entries, a)
    case Bad(_) => false
  }

  // ----- What the filters common to every signal mean -----

  function OtelError(p: Parser, f: Filters, now: int): Option<Error> {
    if f.timeBasis !in {"", "received", "event"} then Some(InvalidTimeBasis)
    else
      var since := WindowStart(p, f.since, now);
      if SinceError(p, f.since).Some? then SinceError(p, f.since)
      else if UntilError(p, f.until, since).Some? then UntilError(p, f.until, since)
      else if |f.resource| + |f.attribute| > MAX_ATTRIBUTE_FILTERS then Some(TooManyFilters)
      else if FilterError(p, f.resource).Some? then FilterError(p, f.resource)
      else FilterError(p, f.attribute)
  }

  /** The time that the window is about: the record's own, or when it was received. */
  function ChosenTime(f: Filters, event: EventColumn, row: Row): int {
    if f.timeBasis != "event" then row.received else if event == StartTime then row.start else row.time
  }

  predicate InWindow(p: Parser, f: Filters, now: int, event: EventColumn, row: Row) {
    var t := ChosenTime(f, event, row);
    && WindowStart(p, f.since, now) <= t
    && (f.until != "" ==> p.instant(f.until).Some? && t < p.instant(f.until).value)
  }

  predicate MatchesText(f: Filters, row: Row) {
    && (f.service != "" ==> row.service == f.service)
    && (f.scope != "" ==> row.scopeName == f.scope)
    && (f.scopeVersion != "" ==> row.scopeVersion == f.scopeVersion)
  }

  predicate MatchesAttributes(p: Parser, f: Filters, row: Row) {
    && (forall filter :: filter in f.resource ==> MatchesFilter(p, filter, row.resource))
    && (forall filter :: filter in f.attribute ==> MatchesFilter(p, filter, row.attributes))
  }

  predicate Matches(p: Parser, f: Filters, now: int, event: EventColumn, row: Row) {
    InWindow(p, f, now, event, row) && MatchesText(f, row) && MatchesAttributes(p, f, row)
  }

  /**
   What the window means. For a duration d it goes back d from now, for an instant it starts there; it is
   open towards the future, or ends before the given instant.
   */
  lemma WindowRule(p: Parser, f: Filters, now: int, event: EventColumn, row: Row)
    requires SinceError(p, f.since).None? && UntilError(p, f.until, WindowStart(p, f.since, now)).None?
    ensures p.duration(f.since).Some? || p.instant(f.since).Some?
    ensures f.until != "" ==> p.instant(f.until).Some?
    ensures var t := ChosenTime(f, event, row);
      InWindow(p, f, now, event, row)
      <==> && (if p.duration(f.since).Some? then now <= t + p.duration(f.since).value else p.instant(f.since).value <= t)
           && (f.until == "" || t < p.instant(f.until).value)
  {
  }

  lemma OpenWindow(p: Parser, f: Filters, now: int, event: EventColumn)
    requires SinceError(p, f.since).None? && UntilError(p, f.until, WindowStart(p, f.since, now)).None?
    ensures p.duration(f.since).Some? || p.instant(f.since).Some?
    ensures f.until == "" ==>
      forall row :: InWindow(p, f, now, event, row) <==>
        (if p.duration(f.since).Some? then now - p.duration(f.since).value else p.instant(f.since).value) <= ChosenTime(f, event, row)
  {
  }

  /** A row that is in the window when it is asked for is in it for every longer duration, and at every earlier now. */
  lemma LongerWindow(p: Parser, f: Filters, now: int, g: Filters, now': int, event: EventColumn, row: Row)
    requires OtelError(p, f, now).None? && OtelError(p, g, now').None? && g == f.(since := g.since)
    requires p.duration(f.since).Some? && p.duration(g.since).Some?
    requires p.duration(f.since).value <= p.duration(g.since).value && now' <= now
    requires InWindow(p, f, now, event, row)
    ensures InWindow(p, g, now', event, row)
  {
  }

  // ----- The compiler -----

  lemma AppendToAll(where: seq<Clause>, args: seq<Value>, c: Clause, more: seq<Value>)
    requires WhereMarks(where) == |args| && ClauseMarks(c) == |more|
    ensures WhereMarks(where + [c]) == |args + more|
    ensures forall row :: Selects(where + [c], args + more, row) <==> Selects(where, args, row) && Holds(ClauseValue(c, row, more))
  {
    forall row ensures WhereMarks(where + [c]) == |args + more|
               ensures Selects(where + [c], args + more, row) <==> Selects(where, args, row) && Holds(ClauseValue(c, row, more)) {
      AppendClause(where, args, c, more, row);
    }
    AppendClause(where, args, c, more, Row(0, 0, 0, 0, "", "", "", None, None, "", 0, 0, 0, "", "", "", [], []));
  }

  function FieldOf(v: AnyValue): Field {
    match v
    case BoolValue(_) => BoolField
    case IntValue(_) => IntField
    case DoubleValue(_) => DoubleField
    case _ => StringField
  }

  /** A boolean is bound as 1 or 0. */
  function BoundOf(v: AnyValue): Value {
    match v
    case StringValue(s) => Str(s)
    case BoolValue(b) => Int(if b then 1 else 0)
    case IntValue(n) => Int(n)
    case DoubleValue(r) => Real(r)
    case OtherValue => Null
  }

  /** The placeholders of a search find the one entry with that key and that typed value. */
  lemma FoundIsExact(e: Entry, a: AttributeFilter)
    requires a.value != OtherValue
    ensures EntryFound(e, FieldOf(a.value), Str(a.key), BoundOf(a.value)) <==> e == Entry(a.key, a.value)
  {
  }

  lemma SearchMeans(list: List, a: AttributeFilter, row: Row)
    requires a.value != OtherValue
    ensures Holds(ClauseValue(Exists(list, FieldOf(a.value)), row, [Str(a.key), BoundOf(a.value)]))
      <==> HasAttribute(EntriesOf(row, list), a)
  {
    var entries := EntriesOf(row, list);
    forall e ensures EntryFound(e, FieldOf(a.value), Str(a.key), BoundOf(a.value)) <==> e == Entry(a.key, a.value) {
      FoundIsExact(e, a);
    }
  }

  /** One KEY=VALUE filter: the field and the bound value follow the type of the JSON scalar. */
  method AttributeClause(p: Parser, list: List, filter: string) returns (c: Clause, bindings: seq<Value>, err: Option<Error>)
    ensures err == match ParseFilter(p, filter) case Bad(e) => Some(e) case Ok(_) => None
    ensures c.Exists? && c.list == list
    ensures err.None? ==> ClauseMarks(c) == |bindings|
    ensures err.None? ==> forall row :: Holds(ClauseValue(c, row, bindings)) <==> MatchesFilter(p, filter, EntriesOf(row, list))
  {
    c, bindings, err := Exists(list, StringField), [], None;
    var i := EqualsSign(filter);
    if i == |filter| || i == 0 { err := Some(NotKeyValue); return; }
    if ByteLen(filter) > MAX_FILTER_BYTES { err := Some(FilterTooLong); return; }
    var key, value := filter[..i], filter[i + 1..];
    var field, bound := StringField, Str(value);
    var json := p.json(value);
    match json {
      case NotJson =>
      case JsonString(s) => bound := Str(s);
      case JsonBool(b) => field, bound := BoolField, Int(if b then 1 else 0);
      case JsonNumber(digits) =>
        if exists c :: c in digits && c in {'.', 'e', 'E'} {
          var n := p.float(digits);
          if n.None? { err := Some(InvalidDouble); return; }
          field, bound := DoubleField, Real(n.value);
        } else {
          var n := ParseInt(digits);
          if n.None? { err := Some(IntegerOutOfRange); return; }
          field, bound := IntField, Int(n.value);
        }
      case OtherJson => err := Some(UnsupportedScalar); return;
    }
    c, bindings := Exists(list, field), [Str(key), bound];
    ghost var a := ParseFilter(p, filter).value;
    assert field == FieldOf(a.value) && bound == BoundOf(a.value);
    forall row ensures Holds(ClauseValue(c, row, bindings)) <==> MatchesFilter(p, filter, EntriesOf(row, list)) {
      SearchMeans(list, a, row);
    }
  }

  predicate MatchesAll(p: Parser, filters: seq<string>, entries: seq<Entry>) {
    forall filter :: filter in filters ==> MatchesFilter(p, filter, entries)
  }

  lemma {:induction false} NoFilterError(p: Parser, filters: seq<string>, i: nat)
    requires i <= |filters| && FilterError(p, filters[..i]).None?
    ensures FilterError(p, filters) == FilterError(p, filters[i..])
    decreases i
  {
    if i > 0 {
      assert filters[..i][1..] == filters[1..][..i - 1];
      NoFilterError(p, filters[1..], i - 1);
      assert filters[1..][i - 1..] == filters[i..];
    } else {
      assert filters[0..] == filters;
    }
  }

  lemma {:induction false} OneMoreFilter(p: Parser, filters: seq<string>, filter: string)
    requires FilterError(p, filters).None? && ParseFilter(p, filter).Ok?
    ensures FilterError(p, filters + [filter]).None?
  {
    if filters == [] {
      assert filters + [filter] == [filter];
      assert [filter][1..] == [];
    } else {
      assert (filters + [filter])[1..] == filters[1..] + [filter];
      OneMoreFilter(p, filters[1..], filter);
    }
  }

  /** The inner loop over the filters of one attribute list. */
  method AddFilters(p: Parser, list: List, values: seq<string>, where0: seq<Clause>, args0: seq<Value>)
    returns (where: seq<Clause>, args: seq<Value>, err: Option<Error>)
    requires WhereMarks(where0) == |args0|
    ensures err == FilterError(p, values)
    ensures err.None? ==> WhereMarks(where) == |args|
    ensures err.None? ==> forall row ::
      Selects(where, args, row) <==> Selects(where0, args0, row) && MatchesAll(p, values, EntriesOf(row, list))
    ensures err.None? ==> forall l :: Reads(where, l) <==> Reads(where0, l) || (l == list && values != [])
  {
    hide Selects, Reads, WhereMarks, ParseFilter, EntriesOf;
    where, args, err := where0, args0, None;
    var i := 0;
    while i < |values|
      invariant 0 <= i <= |values| && err.None? && FilterError(p, values[..i]).None?
      invariant WhereMarks(where) == |args|
      invariant forall row ::
        Selects(where, args, row) <==> Selects(where0, args0, row) && MatchesAll(p, values[..i], EntriesOf(row, list))
      invariant forall l :: Reads(where, l) <==> Reads(where0, l) || (l == list && i > 0)
    {
      NoFilterError(p, values, i);
      var clause, bindings;
      clause, bindings, err := AttributeClause(p, list, values[i]);
      if err.Some? { return; }
      AppendToAll(where, args, clause, bindings);
      ReadsMore(where, clause);
      OneMoreFilter(p, values[..i], values[i]);
      assert values[..i + 1] == values[..i] + [values[i]];
      where, args := where + [clause], args + bindings;
      i := i + 1;
    }
    assert values[..|values|] == values;
  }

  predicate MatchesNames(names: seq<(Column, string)>, row: Row) {
    forall name :: name in names && name.1 != "" ==> Get(row, name.0) == Str(name.1)
  }

  /** The loop over plain text filters; an empty text filters nothing. */
  method AddNames(names: seq<(Column, string)>, where0: seq<Clause>, args0: seq<Value>) returns (where: seq<Clause>, args: seq<Value>)
    requires WhereMarks(where0) == |args0|
    requires forall name :: name in names ==> name.0 in {ServiceName, ScopeName, ScopeVersion}
    ensures WhereMarks(where) == |args|
    ensures forall row :: Selects(where, args, row) <==> Selects(where0, args0, row) && MatchesNames(names, row)
    ensures forall l :: Reads(where, l) <==> Reads(where0, l)
  {
    hide Selects, Reads;
    where, args := where0, args0;
    for i := 0 to |names|
      invariant WhereMarks(where) == |args|
      invariant forall row :: Selects(where, args, row) <==> Selects(where0, args0, row) && MatchesNames(names[..i], row)
      invariant forall l :: Reads(where, l) <==> Reads(where0, l)
    {
      assert names[..i + 1] == names[..i] + [names[i]];
      if names[i].1 != "" {
        var clause, more := Equals(Col(names[i].0), Param), [Str(names[i].1)];
        AppendToAll(where, args, clause, more);
        ReadsMore(where, clause);
        where, args := where + [clause], args + more;
      }
    }
    assert names[..|names|] == names;
  }

  lemma NamesMean(f: Filters, row: Row)
    ensures MatchesNames([(ServiceName, f.service), (ScopeName, f.scope), (ScopeVersion, f.scopeVersion)], row) <==> MatchesText(f, row)
  {
    var names := [(ServiceName, f.service), (ScopeName, f.scope), (ScopeVersion, f.scopeVersion)];
    assert names[0] in names && names[1] in names && names[2] in names;
  }

  lemma FirstClause(field: Column, since: int)
    ensures WhereMarks([AtLeast(Col(field), Param)]) == 1
    ensures forall row :: Selects([AtLeast(Col(field), Param)], [Int(since)], row) <==>
      Get(row, field).Int? && since <= Get(row, field).n
  {
    AppendToAll([], [], AtLeast(Col(field), Param), [Int(since)]);
    assert [] + [AtLeast(Col(field), Param)] == [AtLeast(Col(field), Param)];
    assert [] + [Int(since)] == [Int(since)];
  }

  /** A duration is read first; a text that is none must be an instant. */
  method Cutoff(p: Parser, since: string, now: int) returns (start: Parsed<int>)
    ensures start == if SinceError(p, since).Some? then Bad(SinceError(p, since).value) else Ok(WindowStart(p, since, now))
  {
    var d := p.duration(since);
    if d.Some? {
      return if d.value <= 0 then Bad(SinceNotPositive) else Ok(now - d.value);
    }
    var t := p.instant(since);
    if t.None? { return Bad(SinceNotTime); }
    return if t.value < 0 || t.value > MAX_INT64 then Bad(SinceOutOfRange) else Ok(t.value);
  }

  /** The condition of the time window. */
  method AddWindow(p: Parser, f: Filters, now: int, event: EventColumn) returns (where: seq<Clause>, args: seq<Value>, err: Option<Error>)
    ensures err.Some? ==> OtelError(p, f, now) == err
    ensures err.None? ==>
      f.timeBasis in {"", "received", "event"} && SinceError(p, f.since).None? && UntilError(p, f.until, WindowStart(p, f.since, now)).None?
    ensures err.None? ==> WhereMarks(where) == |args|
    ensures err.None? ==> forall row :: Selects(where, args, row) <==> InWindow(p, f, now, event, row)
    ensures err.None? && f.until == "" && p.duration(f.since).Some? ==>
      forall row :: Selects(where, args, row) <==> now - p.duration(f.since).value <= ChosenTime(f, event, row)
    ensures err.None? && f.until == "" && p.duration(f.since).None? ==> p.instant(f.since).Some?
    ensures err.None? && f.until == "" && p.duration(f.since).None? ==>
      forall row :: Selects(where, args, row) <==> p.instant(f.since).value <= ChosenTime(f, event, row)
    ensures err.None? ==> forall l :: !Reads(where, l)
  {
    hide Selects, FilterError, UntilError, SinceError, WindowStart;
    where, args, err := [], [], None;
    var field := ReceivedAt;
    if f.timeBasis == "" || f.timeBasis == "received" {
    } else if f.timeBasis == "event" {
      field := event;
    } else {
      err := Some(InvalidTimeBasis);
      return;
    }
    var since := Cutoff(p, f.since, now);
    if since.Bad? { err := Some(since.error); return; }
    where, args := [AtLeast(Col(field), Param)], [Int(since.value)];
    FirstClause(field, since.value);
    where, args, err := AddUntil(p, f.until, field, since.value, where, args);
    if err.Some? { return; }
    OpenWindow(p, f, now, event);
  }

  method AddUntil(p: Parser, until: string, field: Column, since: int, where0: seq<Clause>, args0: seq<Value>)
    returns (where: seq<Clause>, args: seq<Value>, err: Option<Error>)
    requires WhereMarks(where0) == |args0|
    ensures err == UntilError(p, until, since)
    ensures err.None? ==> WhereMarks(where) == |args|
    ensures err.None? && until != "" ==> p.instant(until).Some?
    ensures err.None? ==> forall row :: Selects(where, args, row) <==>
      Selects(where0, args0, row) && (until != "" ==> Get(row, field).Int? && Get(row, field).n < p.instant(until).value)
    ensures err.None? ==> forall l :: Reads(where, l) <==> Reads(where0, l)
  {
    hide Selects, WhereMarks;
    where, args, err := where0, args0, None;
    if until != "" {
      var end := p.instant(until);
      if end.None? || end.value < 0 || end.value > MAX_INT64 { err := Some(InvalidUntil); return; }
      if end.value <= since { err := Some(UntilNotAfterSince); return; }
      AppendToAll(where, args, Less(Col(field), Param), [Int(end.value)]);
      ReadsMore(where, Less(Col(field), Param));
      where, args := where + [Less(Col(field), Param)], args + [Int(end.value)];
    }
  }

  /** The filters common to every signal, compiled step by step: the condition selects the matching rows. */
  method OtelWhere(p: Parser, f: Filters, now: int, event: EventColumn) returns (where: seq<Clause>, args: seq<Value>, err: Option<Error>)
    ensures err == OtelError(p, f, now)
    ensures err.None? ==> WhereMarks(where) == |args|
    ensures err.None? ==> forall row :: Selects(where, args, row) <==> Matches(p, f, now, event, row)
    ensures err.None? ==> (Reads(where, RecordAttributes) <==> f.attribute != [])
  {
    hide Selects, Reads, FilterError, UntilError, SinceError, WindowStart;
    where, args, err := AddWindow(p, f, now, event);
    if err.Some? { return; }
    where, args := AddNames([(ServiceName, f.service), (ScopeName, f.scope), (ScopeVersion, f.scopeVersion)], where, args);
    if |f.resource| + |f.attribute| > MAX_ATTRIBUTE_FILTERS { err := Some(TooManyFilters); return; }
    where, args, err := AddFilters(p, ResourceAttributes, f.resource, where, args);
    if err.Some? { return; }
    where, args, err := AddFilters(p, RecordAttributes, f.attribute, where, args);
    if err.Some? { return; }
    forall row ensures Selects(where, args, row) <==> Matches(p, f, now, event, row) {
      NamesMean(f, row);
    }
  }
}
