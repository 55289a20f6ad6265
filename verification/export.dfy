/** From OTLP records to stored records: projection, fingerprints, and sending a batch again. */
module Export {
  import opened Options
  import opened Redaction
  import opened CanonicalJson
  import opened Envelope
  import opened Tables

  /** The digest of a payload: any function of it. */
  type Digest = Json -> Hash

  datatype Resource = Resource(attributes: seq<Attribute>, schemaUrl: string)

  datatype Scope = Scope(name: string, version: string, attributes: seq<Attribute>, schemaUrl: string)

  /** The fields lists hold the other encoded fields of a record, in key order. */
  datatype LogRecord = LogRecord(attributes: seq<Attribute>, body: Value, time: int, severity: int, severityText: string,
                                 ids: seq<string>, eventName: string, fields: seq<Field>)

  datatype Event = Event(attributes: seq<Attribute>, fields: seq<Field>)

  datatype Span = Span(traceId: string, spanId: string, parent: string, name: string, start: int, end: int,
                       attributes: seq<Attribute>, events: seq<Event>, links: seq<Event>,
                       early: seq<Field>, middle: seq<Field>, late: seq<Field>)

  datatype Exemplar = Exemplar(early: seq<Field>, filtered: seq<Attribute>, late: seq<Field>)

  /** One data point with the metric around it; dataKey names the kind of data in the encoding. */
  datatype Point = Point(name: string, metricType: string, dataKey: string, metadata: seq<Attribute>,
                         before: seq<Field>, between: seq<Field>, after: seq<Field>,
                         dataEarly: seq<Field>, dataLate: seq<Field>,
                         attributes: seq<Attribute>, early: seq<Field>, exemplars: seq<Exemplar>, late: seq<Field>,
                         numberKind: string, numbers: seq<string>, start: int, time: int)

  /** A record in its resource and scope. */
  datatype Item<R> = Item(resource: Resource, scope: Scope, record: R)

  // ----- Envelopes -----

  function Attributes(name: string, es: seq<Attribute>): Field {
    Field(name, Arr(RedactedList(es)))
  }

  function ResourceJson(r: Resource): Json {
    Obj([Attributes("attributes", r.attributes)])
  }

  function ScopeJson(s: Scope): Json {
    Obj([Attributes("attributes", s.attributes), Field("name", Json.Str(s.name)), Field("version", Json.Str(s.version))])
  }

  function ScopeFields(list: string, scope: Scope, record: Json): seq<Field> {
    var records := Field(list, Arr([record]));
    var url := Field("schemaUrl", Json.Str(scope.schemaUrl));
    if Less(list, "schemaUrl") then [records, url, Field("scope", ScopeJson(scope))]
    else [url, Field("scope", ScopeJson(scope)), records]
  }

  /** The envelope of one record; the names are those of the signal. */
  function EnvelopeJson(resources: string, scopes: string, list: string, resource: Resource, scope: Scope, record: Json): Json {
    Single(resources, Arr([Obj([
      Field("resource", ResourceJson(resource)),
      Field("schemaUrl", Json.Str(resource.schemaUrl)),
      Field(scopes, Arr([Obj(ScopeFields(list, scope, record))]))])]))
  }

  function LogJson(r: LogRecord): Json {
    Obj([Attributes("attributes", r.attributes)] + [Field("body", EncodeValue(RedactValue(r.body)))] + r.fields)
  }

  function EventJson(e: Event): Json {
    Obj([Attributes("attributes", e.attributes)] + e.fields)
  }

  function EventsJson(es: seq<Event>): (js: seq<Json>)
    ensures |js| == |es|
  {
    if es == [] then [] else [EventJson(es[0])] + EventsJson(es[1..])
  }

  function SpanJson(s: Span): Json {
    Obj([Attributes("attributes", s.attributes)] + s.early + [Field("events", Arr(EventsJson(s.events)))]
        + s.middle + [Field("links", Arr(EventsJson(s.links)))] + s.late)
  }

  function ExemplarJson(x: Exemplar): Json {
    Obj(x.early + [Attributes("filteredAttributes", x.filtered)] + x.late)
  }

  function ExemplarsJson(xs: seq<Exemplar>): (js: seq<Json>)
    ensures |js| == |xs|
  {
    if xs == [] then [] else [ExemplarJson(xs[0])] + ExemplarsJson(xs[1..])
  }

  function PointJson(p: Point): Json {
    Obj([Attributes("attributes", p.attributes)] + p.early + [Field("exemplars", Arr(ExemplarsJson(p.exemplars)))] + p.late)
  }

  function DataField(p: Point): Field {
    Field(p.dataKey, Obj(p.dataEarly + [Field("dataPoints", Arr([PointJson(p)]))] + p.dataLate))
  }

  /** The field of the data stands where its name belongs in key order. */
  function MetricJson(p: Point): Json {
    var metadata := Attributes("metadata", p.metadata);
    if Less(p.dataKey, "metadata") then Obj(p.before + [DataField(p)] + [metadata] + (p.between + p.after))
    else Obj(p.before + [metadata] + p.between + [DataField(p)] + p.after)
  }

  function LogPayload(i: Item<LogRecord>): Option<Json> {
    CanonicalPayload(EnvelopeJson("resourceLogs", "scopeLogs", "logRecords", i.resource, i.scope, LogJson(i.record)))
  }

  function SpanPayload(i: Item<Span>): Option<Json> {
    CanonicalPayload(EnvelopeJson("resourceSpans", "scopeSpans", "spans", i.resource, i.scope, SpanJson(i.record)))
  }

  function PointPayload(i: Item<Point>): Option<Json> {
    CanonicalPayload(EnvelopeJson("resourceMetrics", "scopeMetrics", "metrics", i.resource, i.scope, MetricJson(i.record)))
  }

  // ----- Projection -----

  /** The body column: tagged values, maps in the order received. */
  function Tagged(v: Value): Json {
    match v
    case Empty => Single("empty", Json.Bool(true))
    case Str(text) => Single("string", Json.Str(text))
    case Bool(b) => Single("bool", Json.Bool(b))
    case Int(digits) => Single("int", Json.Str(digits))
    case Double(digits) => Single("double", if digits == "Infinity" then Json.Str("+Infinity") else Number(digits))
    case Bytes(base64) => Single("bytes", Json.Str(base64))
    case Slice(items) => Single("array", Arr(TaggedItems(items)))
    case Map(entries) => Single("map", Arr(TaggedEntries(entries)))
  }

  function TaggedItems(items: seq<Value>): seq<Json> {
    if items == [] then [] else [Tagged(items[0])] + TaggedItems(items[1..])
  }

  function TaggedEntries(entries: seq<Attribute>): seq<Json> {
    if entries == [] then [] else [Envelope.Entry(entries[0].key, Tagged(entries[0].value))] + TaggedEntries(entries[1..])
  }

  /** Reading a body column by the names of its kinds. */
  function ReadBack(j: Json): Option<Value> {
    if !j.Obj? || |j.fields| != 1 then None
    else
      var kind := j.fields[0].name;
      match j.fields[0].value
      case Bool(b) => if kind == "empty" && b then Some(Empty) else if kind == "bool" then Some(Value.Bool(b)) else None
      case Str(text) =>
        if kind == "string" then Some(Value.Str(text))
        else if kind == "int" then Some(Int(text))
        else if kind == "bytes" then Some(Bytes(text))
        else if kind == "double" then Some(Double(if text == "+Infinity" then "Infinity" else text))
        else None
      case Num(digits) => if kind == "double" then Some(Double(digits)) else None
      case Arr(items) =>
        if kind == "array" then Some(Slice(ReadItems(items)))
        else if kind == "map" then Some(Map(ReadEntries(items)))
        else None
      case _ => None
  }

  function ReadItems(js: seq<Json>): seq<Value> {
    if js == [] then [] else (match ReadBack(js[0]) case Some(v) => [v] case None => []) + ReadItems(js[1..])
  }

  function ReadEntry(j: Json): seq<Attribute> {
    if !j.Obj? || |j.fields| != 2 then []
    else
      var key, value := j.fields[0], j.fields[1];
      if key.name != "key" || value.name != "value" || !key.value.Str? then []
      else
        match ReadBack(value.value)
        case Some(v) => [Attribute(key.value.text, v)]
        case None => []
  }

  function ReadEntries(js: seq<Json>): seq<Attribute> {
    if js == [] then [] else ReadEntry(js[0]) + ReadEntries(js[1..])
  }

  /** The body column holds the whole value: it can be read back. */
  lemma {:induction false} TaggedReadsBack(v: Value)
    ensures ReadBack(Tagged(v)) == Some(v)
  {
    match v
    case Slice(items) => ItemsReadBack(items);
    case Map(entries) => EntriesReadBack(entries);
    case _ =>
  }

  lemma {:induction false} ItemsReadBack(items: seq<Value>)
    ensures ReadItems(TaggedItems(items)) == items
  {
    if items != [] {
      TaggedReadsBack(items[0]);
      ItemsReadBack(items[1..]);
      assert TaggedItems(items)[1..] == TaggedItems(items[1..]);
    }
  }

  lemma {:induction false} EntriesReadBack(entries: seq<Attribute>)
    ensures ReadEntries(TaggedEntries(entries)) == entries
  {
    if entries != [] {
      TaggedReadsBack(entries[0].value);
      EntriesReadBack(entries[1..]);
      assert TaggedEntries(entries)[1..] == TaggedEntries(entries[1..]);
    }
  }

  /** Two bodies have one column exactly when they differ at most in what stands under sensitive keys. */
  lemma BodyColumnRule(a: Value, b: Value)
    ensures Tagged(RedactValue(a)) == Tagged(RedactValue(b)) <==> SameButSecrets(a, b)
  {
    TaggedReadsBack(RedactValue(a));
    TaggedReadsBack(RedactValue(b));
    RedactionHidesSecrets(a, b);
  }

  function ServiceName(r: Resource): string {
    var name := AttributeString(r.attributes, "service.name");
    if name == "" then "unknown_service" else name
  }

  function First(a: string, b: string): string {
    if a != "" then a else b
  }

  function ProjectLog(i: Item<LogRecord>, now: int, digest: Digest): Option<Record> {
    match LogPayload(i)
    case None => None
    case Some(payload) =>
      var r := i.record;
      var h := digest(payload);
      Some(Record(Content(h), h, now, LogColumns(ServiceName(i.resource), r.time, r.severity, r.severityText, r.ids,
        AttributeString(r.attributes, "request.id"), AttributeString(r.attributes, "autok.product.id"),
        AttributeString(r.attributes, "app.component"), First(AttributeString(r.attributes, "event.name"), r.eventName),
        Tagged(RedactValue(r.body)), payload)))
  }

  function ProjectSpan(i: Item<Span>, now: int, digest: Digest): Option<Record> {
    match SpanPayload(i)
    case None => None
    case Some(payload) =>
      var r := i.record;
      Some(Record(SpanIdentity(r.traceId, r.spanId), digest(payload), now, SpanColumns(ServiceName(i.resource), r.name, r.parent,
        r.start, r.end, AttributeString(r.attributes, "request.id"), AttributeString(r.attributes, "autok.product.id"), payload)))
  }

  function ProjectPoint(i: Item<Point>, now: int, digest: Digest): Option<Record> {
    match PointPayload(i)
    case None => None
    case Some(payload) =>
      var r := i.record;
      var h := digest(payload);
      Some(Record(Content(h), h, now,
        MetricColumns(ServiceName(i.resource), r.name, r.metricType, r.numberKind, r.start, r.time, r.numbers, payload)))
  }

  /** The first attribute with a key. */
  ghost predicate IsFirst(entries: seq<Attribute>, key: string, k: nat) {
    k < |entries| && entries[k].key == key && forall j :: 0 <= j < k ==> entries[j].key != key
  }

  /** The text of the first attribute with a key, or nothing when there is none or it is no text. */
  ghost predicate Carries(entries: seq<Attribute>, key: string, text: string) {
    if exists k: nat :: IsFirst(entries, key, k) && entries[k].value.Str? then
      exists k: nat :: IsFirst(entries, key, k) && entries[k].value == Value.Str(text)
    else text == ""
  }

  lemma {:induction false} CarriedText(entries: seq<Attribute>, key: string, text: string)
    ensures AttributeString(entries, key) == text <==> Carries(entries, key, text)
  {
    if entries != [] {
      if entries[0].key == key {
        assert IsFirst(entries, key, 0);
      } else {
        CarriedText(entries[1..], key, text);
        forall k: nat ensures IsFirst(entries[1..], key, k) <==> IsFirst(entries, key, k + 1) {
          FirstInRest(entries, key, k);
        }
        forall k: nat | IsFirst(entries, key, k) ensures k > 0 && IsFirst(entries[1..], key, k - 1) {
          FirstInRest(entries, key, k - 1);
        }
      }
    }
  }

  lemma FirstInRest(entries: seq<Attribute>, key: string, k: int)
    requires entries != [] && entries[0].key != key && k >= 0
    ensures IsFirst(entries[1..], key, k) <==> IsFirst(entries, key, k + 1)
  {
    if IsFirst(entries[1..], key, k) {
      forall j | 0 <= j < k + 1 ensures entries[j].key != key {
        assert j > 0 ==> entries[j] == entries[1..][j - 1];
      }
    }
    if IsFirst(entries, key, k + 1) {
      assert forall j :: 0 <= j < k ==> entries[1..][j] == entries[j + 1];
    }
  }

  /** The service is the text of "service.name", or unknown when that is missing, no text, or empty. */
  ghost predicate NamesService(r: Resource, service: string) {
    if Carries(r.attributes, "service.name", "") then service == "unknown_service" else Carries(r.attributes, "service.name", service)
  }

  lemma ServiceRule(r: Resource)
    ensures NamesService(r, ServiceName(r))
  {
    CarriedText(r.attributes, "service.name", "");
    CarriedText(r.attributes, "service.name", ServiceName(r));
  }

  /** What a stored log says, column by column. */
  lemma LogColumnsRule(i: Item<LogRecord>, now: int, digest: Digest)
    requires ProjectLog(i, now, digest).Some?
    ensures var x, r := ProjectLog(i, now, digest).value, i.record;
      var c := x.columns;
      && x.identity == Content(x.fingerprint) && x.receivedAt == now && c.LogColumns?
      && LogPayload(i) == Some(c.payload) && x.fingerprint == digest(c.payload)
      && NamesService(i.resource, c.service)
      && c.time == r.time && c.severity == r.severity && c.severityText == r.severityText && c.ids == r.ids
      && Carries(r.attributes, "request.id", c.requestId) && Carries(r.attributes, "autok.product.id", c.productId)
      && Carries(r.attributes, "app.component", c.component)
      && (if Carries(r.attributes, "event.name", "") then c.op == r.eventName else Carries(r.attributes, "event.name", c.op))
  {
    hide Carries, NamesService, LogPayload, ServiceName, Tagged;
    var c := ProjectLog(i, now, digest).value.columns;
    ServiceRule(i.resource);
    CarriedText(i.record.attributes, "request.id", c.requestId);
    CarriedText(i.record.attributes, "autok.product.id", c.productId);
    CarriedText(i.record.attributes, "app.component", c.component);
    CarriedText(i.record.attributes, "event.name", "");
    CarriedText(i.record.attributes, "event.name", c.op);
  }

  /** What a stored span says. */
  lemma SpanColumnsRule(i: Item<Span>, now: int, digest: Digest)
    requires ProjectSpan(i, now, digest).Some?
    ensures var x, r := ProjectSpan(i, now, digest).value, i.record;
      var c := x.columns;
      && x.identity == SpanIdentity(r.traceId, r.spanId) && x.receivedAt == now && c.SpanColumns?
      && SpanPayload(i) == Some(c.payload) && x.fingerprint == digest(c.payload)
      && NamesService(i.resource, c.service)
      && c.name == r.name && c.parent == r.parent && c.start == r.start && c.end == r.end
      && Carries(r.attributes, "request.id", c.requestId) && Carries(r.attributes, "autok.product.id", c.productId)
  {
    hide Carries, NamesService, SpanPayload, ServiceName;
    var c := ProjectSpan(i, now, digest).value.columns;
    ServiceRule(i.resource);
    CarriedText(i.record.attributes, "request.id", c.requestId);
    CarriedText(i.record.attributes, "autok.product.id", c.productId);
  }

  /** What a stored metric point says. */
  lemma PointColumnsRule(i: Item<Point>, now: int, digest: Digest)
    requires ProjectPoint(i, now, digest).Some?
    ensures var x, r := ProjectPoint(i, now, digest).value, i.record;
      var c := x.columns;
      && x.identity == Content(x.fingerprint) && x.receivedAt == now && c.MetricColumns?
      && PointPayload(i) == Some(c.payload) && x.fingerprint == digest(c.payload)
      && NamesService(i.resource, c.service)
      && c.name == r.name && c.metricType == r.metricType && c.numberKind == r.numberKind
      && c.start == r.start && c.time == r.time && c.numbers == r.numbers
  {
    hide NamesService, PointPayload, ServiceName;
    ServiceRule(i.resource);
  }

  // ----- Exporting a batch -----

  const MAX_PERSISTED: nat := 0x400_0000

  function TotalBytes<R>(items: seq<R>, bytes: R -> nat): nat {
    if items == [] then 0 else TotalBytes(items[..|items| - 1], bytes) + bytes(items[|items| - 1])
  }

  lemma {:induction false} BytesGrow<R>(items: seq<R>, n: nat, bytes: R -> nat)
    requires n <= |items|
    ensures TotalBytes(items[..n], bytes) <= TotalBytes(items, bytes)
  {
    if n < |items| {
      BytesGrow(items[..|items| - 1], n, bytes);
      assert items[..|items| - 1][..n] == items[..n];
    } else {
      assert items[..n] == items;
    }
  }

  datatype Refusal = TooManyRecords | CallerGone | InvalidRecord | NotEncodable | TooLarge

  /** What is wrong with the first of n records that is not exported. */
  function FirstRefusal<R>(items: seq<R>, n: nat, gone: nat -> bool, valid: R -> bool, project: R -> Option<Record>, bytes: R -> nat)
    : Option<Refusal>
    requires n <= |items|
  {
    if n == 0 then None
    else
      match FirstRefusal(items, n - 1, gone, valid, project, bytes)
      case Some(r) => Some(r)
      case None =>
        if gone(n - 1) then Some(CallerGone)
        else if !valid(items[n - 1]) then Some(InvalidRecord)
        else if project(items[n - 1]).None? then Some(NotEncodable)
        else if TotalBytes(items[..n], bytes) > MAX_PERSISTED then Some(TooLarge)
        else None
  }

  lemma {:induction false} RefusalStays<R>(items: seq<R>, n: nat, gone: nat -> bool, valid: R -> bool, project: R -> Option<Record>,
                                           bytes: R -> nat)
    requires n <= |items| && FirstRefusal(items, n, gone, valid, project, bytes).Some?
    ensures FirstRefusal(items, |items|, gone, valid, project, bytes) == FirstRefusal(items, n, gone, valid, project, bytes)
    decreases |items| - n
  {
    if n < |items| {
      RefusalStays(items, n + 1, gone, valid, project, bytes);
    }
  }

  /**
   The loop the three exporters share: all records of a request, projected in order, or the first reason
   why there are none: the request is too large, a record is invalid, or the caller has gone.
   */
  method Consume<R>(items: seq<R>, limit: nat, gone: nat -> bool, valid: R -> bool, project: R -> Option<Record>, bytes: R -> nat)
    returns (records: seq<Record>, refusal: Option<Refusal>)
    ensures refusal == if |items| > limit then Some(TooManyRecords) else FirstRefusal(items, |items|, gone, valid, project, bytes)
    ensures refusal.None? <==>
      && |items| <= limit && TotalBytes(items, bytes) <= MAX_PERSISTED
      && forall k: nat :: k < |items| ==> !gone(k) && valid(items[k]) && project(items[k]).Some?
    ensures refusal.None? ==> |records| == |items| && forall k :: 0 <= k < |items| ==> project(items[k]) == Some(records[k])
  {
    records, refusal := [], None;
    if |items| > limit { refusal := Some(TooManyRecords); return; }
    var persisted := 0;
    for i := 0 to |items|
      invariant persisted == TotalBytes(items[..i], bytes) <= MAX_PERSISTED
      invariant |records| == i && refusal.None? && FirstRefusal(items, i, gone, valid, project, bytes).None?
      invariant forall k: nat :: k < i ==> !gone(k) && valid(items[k]) && project(items[k]) == Some(records[k])
    {
      var record := project(items[i]);
      assert items[..i + 1][..i] == items[..i];
      persisted := persisted + bytes(items[i]);
      refusal :=
        if gone(i) then Some(CallerGone)
        else if !valid(items[i]) then Some(InvalidRecord)
        else if record.None? then Some(NotEncodable)
        else if persisted > MAX_PERSISTED then Some(TooLarge)
        else None;
      if refusal.Some? {
        RefusalStays(items, i + 1, gone, valid, project, bytes);
        BytesGrow(items, i + 1, bytes);
        return;
      }
      records := records + [record.value];
    }
    assert items[..|items|] == items;
  }

  // ----- Secrets never reach the store -----

  ghost predicate SameContextButSecrets<R>(i: Item<R>, j: Item<R>) {
    && SameMapButSecrets(i.resource.attributes, j.resource.attributes) && i.resource.schemaUrl == j.resource.schemaUrl
    && SameMapButSecrets(i.scope.attributes, j.scope.attributes)
    && i.scope == j.scope.(attributes := i.scope.attributes)
  }

  lemma ContextHidesSecrets<R>(i: Item<R>, j: Item<R>)
    requires SameContextButSecrets(i, j)
    ensures ResourceJson(i.resource) == ResourceJson(j.resource) && ScopeJson(i.scope) == ScopeJson(j.scope)
    ensures ServiceName(i.resource) == ServiceName(j.resource)
  {
    MapRedactionHidesSecrets(i.resource.attributes, j.resource.attributes);
    MapRedactionHidesSecrets(i.scope.attributes, j.scope.attributes);
    ColumnKeysAreSafe();
    ColumnsHideSecrets(i.resource.attributes, j.resource.attributes, "service.name");
  }

  ghost predicate SameLogButSecrets(i: Item<LogRecord>, j: Item<LogRecord>) {
    && SameContextButSecrets(i, j)
    && SameMapButSecrets(i.record.attributes, j.record.attributes) && SameButSecrets(i.record.body, j.record.body)
    && i.record == j.record.(attributes := i.record.attributes, body := i.record.body)
  }

  /** Logs that differ only in values under sensitive keys are stored as one and the same record. */
  lemma LogsHideSecrets(i: Item<LogRecord>, j: Item<LogRecord>, now: int, digest: Digest)
    requires SameLogButSecrets(i, j)
    ensures ProjectLog(i, now, digest) == ProjectLog(j, now, digest)
  {
    hide RedactMap, RedactValue, EncodeValue, AttributeString, SameMapButSecrets, SameButSecrets, CanonicalPayload, Tagged;
    ContextHidesSecrets(i, j);
    MapRedactionHidesSecrets(i.record.attributes, j.record.attributes);
    RedactionHidesSecrets(i.record.body, j.record.body);
    ColumnKeysAreSafe();
    ColumnsHideSecrets(i.record.attributes, j.record.attributes, "request.id");
    ColumnsHideSecrets(i.record.attributes, j.record.attributes, "autok.product.id");
    ColumnsHideSecrets(i.record.attributes, j.record.attributes, "app.component");
    ColumnsHideSecrets(i.record.attributes, j.record.attributes, "event.name");
    assert LogJson(i.record) == LogJson(j.record);
  }

  ghost predicate SameEventsButSecrets(es: seq<Event>, fs: seq<Event>) {
    |es| == |fs| && forall k :: 0 <= k < |es| ==>
      SameMapButSecrets(es[k].attributes, fs[k].attributes) && es[k].fields == fs[k].fields
  }

  lemma {:induction false} EventsHideSecrets(es: seq<Event>, fs: seq<Event>)
    requires SameEventsButSecrets(es, fs)
    ensures EventsJson(es) == EventsJson(fs)
  {
    if es != [] {
      MapRedactionHidesSecrets(es[0].attributes, fs[0].attributes);
      EventsHideSecrets(es[1..], fs[1..]);
    }
  }

  ghost predicate SameSpanButSecrets(i: Item<Span>, j: Item<Span>) {
    && SameContextButSecrets(i, j)
    && SameMapButSecrets(i.record.attributes, j.record.attributes)
    && SameEventsButSecrets(i.record.events, j.record.events) && SameEventsButSecrets(i.record.links, j.record.links)
    && i.record == j.record.(attributes := i.record.attributes, events := i.record.events, links := i.record.links)
  }

  /** Spans that differ only in values under sensitive keys are stored as one and the same record. */
  lemma SpansHideSecrets(i: Item<Span>, j: Item<Span>, now: int, digest: Digest)
    requires SameSpanButSecrets(i, j)
    ensures ProjectSpan(i, now, digest) == ProjectSpan(j, now, digest)
  {
    ContextHidesSecrets(i, j);
    MapRedactionHidesSecrets(i.record.attributes, j.record.attributes);
    EventsHideSecrets(i.record.events, j.record.events);
    EventsHideSecrets(i.record.links, j.record.links);
    ColumnKeysAreSafe();
    ColumnsHideSecrets(i.record.attributes, j.record.attributes, "request.id");
    ColumnsHideSecrets(i.record.attributes, j.record.attributes, "autok.product.id");
    assert SpanJson(i.record) == SpanJson(j.record);
  }

  ghost predicate SameExemplarsButSecrets(xs: seq<Exemplar>, ys: seq<Exemplar>) {
    |xs| == |ys| && forall k :: 0 <= k < |xs| ==>
      SameMapButSecrets(xs[k].filtered, ys[k].filtered) && xs[k].early == ys[k].early && xs[k].late == ys[k].late
  }

  lemma {:induction false} ExemplarsHideSecrets(xs: seq<Exemplar>, ys: seq<Exemplar>)
    requires SameExemplarsButSecrets(xs, ys)
    ensures ExemplarsJson(xs) == ExemplarsJson(ys)
  {
    if xs != [] {
      MapRedactionHidesSecrets(xs[0].filtered, ys[0].filtered);
      ExemplarsHideSecrets(xs[1..], ys[1..]);
    }
  }

  ghost predicate SamePointButSecrets(i: Item<Point>, j: Item<Point>) {
    && SameContextButSecrets(i, j)
    && SameMapButSecrets(i.record.attributes, j.record.attributes) && SameMapButSecrets(i.record.metadata, j.record.metadata)
    && SameExemplarsButSecrets(i.record.exemplars, j.record.exemplars)
    && i.record == j.record.(attributes := i.record.attributes, metadata := i.record.metadata, exemplars := i.record.exemplars)
  }

  /** Metric points that differ only in values under sensitive keys are stored as one and the same record. */
  lemma PointsHideSecrets(i: Item<Point>, j: Item<Point>, now: int, digest: Digest)
    requires SamePointButSecrets(i, j)
    ensures ProjectPoint(i, now, digest) == ProjectPoint(j, now, digest)
  {
    hide RedactMap, RedactValue, EncodeMap, AttributeString, SameMapButSecrets, SameButSecrets, CanonicalPayload, Tagged;
    ContextHidesSecrets(i, j);
    MapRedactionHidesSecrets(i.record.attributes, j.record.attributes);
    MapRedactionHidesSecrets(i.record.metadata, j.record.metadata);
    ExemplarsHideSecrets(i.record.exemplars, j.record.exemplars);
    assert PointJson(i.record) == PointJson(j.record);
    assert MetricJson(i.record) == MetricJson(j.record);
  }
}
